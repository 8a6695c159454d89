/** Candidates carry their strongest reason, and nothing about a decision depends on list order. */
module RoutingOrder {
  import opened Base
  import opened RoutingModel

  // ---------------------------------------------------------------- candidates against a reference

  ghost predicate DistinctIds(candidates: seq<Candidate>) {
    forall i, j :: 0 <= i < j < |candidates| ==> candidates[i].task.id != candidates[j].task.id
  }

  ghost predicate IdIn(tasks: seq<Task>, id: nat) {
    exists i :: 0 <= i < |tasks| && tasks[i].id == id
  }

  function Strength(why: Match): nat {
    match why
    case ReplyToMessage => 0
    case SameThread => 1
    case SameSender => 2
    case DirectMention => 3
  }

  /** Reference: `why` is the strongest reason for which the store returned task `id`. */
  ghost predicate Strongest(m: Message, l: Lookups, id: nat, why: Match) {
    IdIn(ListFor(m, l, why), id) && forall other :: Strength(other) < Strength(why) ==> !IdIn(ListFor(m, l, other), id)
  }

  lemma AddOneIds(candidates: seq<Candidate>, task: Task, why: Match, id: nat)
    ensures HasId(AddOne(candidates, task, why), id) <==> HasId(candidates, id) || id == task.id
  {
    var next := AddOne(candidates, task, why);
    if HasId(candidates, id) {
      var i :| 0 <= i < |candidates| && candidates[i].task.id == id;
      assert next[i] == candidates[i];
    } else if id == task.id {
      assert next[|candidates|].task == task;
    }
  }

  lemma IdInTail(tasks: seq<Task>, id: nat)
    requires tasks != []
    ensures IdIn(tasks, id) <==> tasks[0].id == id || IdIn(tasks[1..], id)
  {
    if IdIn(tasks, id) {
      var i :| 0 <= i < |tasks| && tasks[i].id == id;
      assert i > 0 ==> tasks[1..][i - 1].id == id;
    }
    if IdIn(tasks[1..], id) {
      var i :| 0 <= i < |tasks[1..]| && tasks[1..][i].id == id;
      assert tasks[i + 1].id == id;
    }
  }

  lemma {:induction false} AddAllIds(candidates: seq<Candidate>, tasks: seq<Task>, why: Match, id: nat)
    ensures HasId(AddAll(candidates, tasks, why), id) <==> HasId(candidates, id) || IdIn(tasks, id)
    decreases |tasks|
  {
    if tasks != [] {
      AddOneIds(candidates, tasks[0], why, id);
      IdInTail(tasks, id);
      AddAllIds(AddOne(candidates, tasks[0], why), tasks[1..], why, id);
    }
  }

  /** What adding one list contributes: tasks of that list that were not there, each once. */
  lemma {:induction false} AddAllAdds(candidates: seq<Candidate>, tasks: seq<Task>, why: Match)
    requires DistinctIds(candidates)
    ensures var r := AddAll(candidates, tasks, why);
            && DistinctIds(r) && candidates <= r
            && (forall i :: |candidates| <= i < |r| ==>
                  r[i].matchedBy == why && r[i].task in tasks && !HasId(candidates, r[i].task.id))
    decreases |tasks|
  {
    if tasks != [] {
      var next := AddOne(candidates, tasks[0], why);
      AddAllAdds(next, tasks[1..], why);
      var r := AddAll(candidates, tasks, why);
      forall i | |candidates| <= i < |r| && i < |next| ensures r[i] == Candidate(tasks[0], why) {
        assert r[i] == next[i];
      }
      forall i | |next| <= i < |r| ensures !HasId(candidates, r[i].task.id) {
        AddOneIds(candidates, tasks[0], why, r[i].task.id);
      }
    }
  }

  /** The candidates after the lists of strength below `k` have been added. */
  ghost predicate Collected(m: Message, l: Lookups, k: nat, r: seq<Candidate>) {
    && DistinctIds(r)
    && (forall i :: 0 <= i < |r| ==>
          && Strength(r[i].matchedBy) < k
          && r[i].task in ListFor(m, l, r[i].matchedBy)
          && Strongest(m, l, r[i].task.id, r[i].matchedBy))
    && (forall id :: HasId(r, id) <==> exists why :: Strength(why) < k && IdIn(ListFor(m, l, why), id))
  }

  lemma AddListKeepsCollected(m: Message, l: Lookups, r: seq<Candidate>, why: Match)
    requires Collected(m, l, Strength(why), r)
    ensures Collected(m, l, Strength(why) + 1, AddAll(r, ListFor(m, l, why), why))
  {
    var tasks := ListFor(m, l, why);
    var next := AddAll(r, tasks, why);
    AddAllAdds(r, tasks, why);
    forall id ensures HasId(next, id) <==> HasId(r, id) || IdIn(tasks, id) {
      AddAllIds(r, tasks, why, id);
    }
    forall i | 0 <= i < |next|
      ensures Strength(next[i].matchedBy) < Strength(why) + 1
      ensures next[i].task in ListFor(m, l, next[i].matchedBy)
      ensures Strongest(m, l, next[i].task.id, next[i].matchedBy)
    {
      if i < |r| {
        assert next[i] == r[i];
      } else {
        var j :| 0 <= j < |tasks| && tasks[j] == next[i].task;
        assert IdIn(tasks, next[i].task.id);
      }
    }
    assert forall other :: Strength(other) < Strength(why) + 1 ==> other == why || Strength(other) < Strength(why);
  }

  /**
   Each task the store returned for some reason is a candidate exactly once, tagged with its
   strongest reason, and nothing else is.
   */
  lemma CandidatesCarryStrongestReason(m: Message, l: Lookups)
    requires m.chatId != ""
    ensures Collected(m, l, 4, Collect(m, l))
  {
    var none: seq<Candidate> := [];
    assert Collected(m, l, 0, none);
    var r1 := AddAll(none, ListFor(m, l, ReplyToMessage), ReplyToMessage);
    AddListKeepsCollected(m, l, none, ReplyToMessage);
    var r2 := AddAll(r1, ListFor(m, l, SameThread), SameThread);
    AddListKeepsCollected(m, l, r1, SameThread);
    var r3 := AddAll(r2, ListFor(m, l, SameSender), SameSender);
    AddListKeepsCollected(m, l, r2, SameSender);
    AddListKeepsCollected(m, l, r3, DirectMention);
  }

  // ---------------------------------------------------------------- permuted answers

  ghost predicate Permuted(l: Lookups, k: Lookups) {
    && multiset(l.byReply) == multiset(k.byReply)
    && multiset(l.byThread) == multiset(k.byThread)
    && multiset(l.bySender) == multiset(k.bySender)
    && multiset(l.byChat) == multiset(k.byChat)
    && multiset(l.tasksOfMessage) == multiset(k.tasksOfMessage)
    && multiset(l.tasksOfReplyTarget) == multiset(k.tasksOfReplyTarget)
    && multiset(l.historical) == multiset(k.historical)
    && l.sentAction == k.sentAction && l.latestFromSender == k.latestFromSender && l.newTaskId == k.newTaskId
  }

  /** One row per task id within each list; two queries may see different versions of a task. */
  ghost predicate OneRowPerTask(m: Message, l: Lookups) {
    forall why, s, t :: s in ListFor(m, l, why) && t in ListFor(m, l, why) && s.id == t.id ==> s == t
  }

  lemma PermutedLists(m: Message, l: Lookups, k: Lookups, why: Match)
    requires Permuted(l, k)
    ensures multiset(ListFor(m, l, why)) == multiset(ListFor(m, k, why))
    ensures forall id :: IdIn(ListFor(m, l, why), id) ==> IdIn(ListFor(m, k, why), id)
    ensures forall t :: t in ListFor(m, l, why) ==> t in ListFor(m, k, why)
  {
    var xs, ys := ListFor(m, l, why), ListFor(m, k, why);
    forall t | t in xs ensures t in ys {
      assert t in multiset(xs);
    }
    forall id | IdIn(xs, id) ensures IdIn(ys, id) {
      var i :| 0 <= i < |xs| && xs[i].id == id;
      assert xs[i] in ys;
    }
  }

  lemma PermutedStrongest(m: Message, l: Lookups, k: Lookups, id: nat, why: Match)
    requires Permuted(l, k) && Strongest(m, l, id, why)
    ensures Strongest(m, k, id, why)
  {
    PermutedLists(m, l, k, why);
    forall other | Strength(other) < Strength(why) ensures !IdIn(ListFor(m, k, other), id) {
      PermutedLists(m, k, l, other);
    }
  }

  /** The candidate that a strongest reason stands for. */
  lemma CandidateFor(m: Message, l: Lookups, id: nat, why: Match) returns (c: Candidate)
    requires m.chatId != "" && Strongest(m, l, id, why)
    ensures c in Collect(m, l) && c.task.id == id && c.matchedBy == why && c.task in ListFor(m, l, why)
  {
    CandidatesCarryStrongestReason(m, l);
    var r := Collect(m, l);
    assert Strength(why) < 4;
    assert HasId(r, id);
    var i :| 0 <= i < |r| && r[i].task.id == id;
    c := r[i];
    assert Strongest(m, l, id, c.matchedBy);
    assert Strength(c.matchedBy) == Strength(why);
  }

  lemma CandidateIsStrongest(m: Message, l: Lookups, c: Candidate)
    requires m.chatId != "" && c in Collect(m, l)
    ensures Strongest(m, l, c.task.id, c.matchedBy) && c.task in ListFor(m, l, c.matchedBy)
  {
    CandidatesCarryStrongestReason(m, l);
  }

  lemma CandidateSurvives(m: Message, l: Lookups, k: Lookups, c: Candidate)
    requires Permuted(l, k) && OneRowPerTask(m, l) && m.chatId != "" && c in Collect(m, l)
    ensures c in Collect(m, k)
  {
    CandidateIsStrongest(m, l, c);
    PermutedStrongest(m, l, k, c.task.id, c.matchedBy);
    var d := CandidateFor(m, k, c.task.id, c.matchedBy);
    PermutedLists(m, k, l, c.matchedBy);
    assert d.task == c.task;
  }

  lemma {:induction false} DistinctCount(s: seq<Candidate>, c: Candidate)
    requires DistinctIds(s)
    ensures multiset(s)[c] == if c in s then 1 else 0
  {
    if s != [] {
      assert s == [s[0]] + s[1..];
      DistinctCount(s[1..], c);
    }
  }

  lemma SameCandidates(m: Message, l: Lookups, k: Lookups)
    requires Permuted(l, k) && OneRowPerTask(m, l)
    ensures multiset(Collect(m, l)) == multiset(Collect(m, k))
  {
    if m.chatId != "" {
      CandidatesCarryStrongestReason(m, l);
      CandidatesCarryStrongestReason(m, k);
      assert OneRowPerTask(m, k) by {
        forall why, s, t | s in ListFor(m, k, why) && t in ListFor(m, k, why) && s.id == t.id ensures s == t {
          PermutedLists(m, k, l, why);
        }
      }
      forall c ensures multiset(Collect(m, l))[c] == multiset(Collect(m, k))[c] {
        DistinctCount(Collect(m, l), c);
        DistinctCount(Collect(m, k), c);
        if c in Collect(m, l) {
          CandidateSurvives(m, l, k, c);
        }
        if c in Collect(m, k) {
          CandidateSurvives(m, k, l, c);
        }
      }
    }
  }

  // ---------------------------------------------------------------- the decision

  lemma {:induction false} FilterCount<T>(s: seq<T>, p: T -> bool, x: T)
    ensures multiset(Filter(s, p))[x] == if p(x) then multiset(s)[x] else 0
  {
    if s != [] {
      assert s == [s[0]] + s[1..];
      FilterCount(s[1..], p, x);
    }
  }

  lemma SameCounts<T>(a: multiset<T>, b: multiset<T>)
    requires forall x :: a[x] == b[x]
    ensures a == b
  {
  }

  lemma SameSize<T>(s: seq<T>, t: seq<T>)
    requires multiset(s) == multiset(t)
    ensures |s| == |t|
  {
    assert |multiset(s)| == |s| && |multiset(t)| == |t|;
  }

  lemma SameOnly<T>(s: seq<T>, t: seq<T>)
    requires multiset(s) == multiset(t)
    ensures Only(s) == Only(t)
  {
    SameSize(s, t);
    if |s| == 1 {
      assert s[0] in multiset(t);
    }
  }

  /** A one-element selection is the same whatever the order it is made from. */
  lemma OnlyIgnoresOrder<T>(s: seq<T>, t: seq<T>, p: T -> bool)
    requires multiset(s) == multiset(t)
    ensures Only(Filter(s, p)) == Only(Filter(t, p))
  {
    forall x ensures multiset(Filter(s, p))[x] == multiset(Filter(t, p))[x] {
      FilterCount(s, p, x);
      FilterCount(t, p, x);
    }
    SameCounts(multiset(Filter(s, p)), multiset(Filter(t, p)));
    SameOnly(Filter(s, p), Filter(t, p));
  }

  lemma MatchesIgnoreOrder(config: RouterConfig, m: Message, l: Lookups, s: seq<Candidate>, t: seq<Candidate>)
    requires multiset(s) == multiset(t)
    ensures DeterministicMatch(m, s) == DeterministicMatch(m, t)
    ensures BurstMatch(config, m, l, s) == BurstMatch(config, m, l, t)
  {
    OnlyIgnoresOrder(s, t, (c: Candidate) => c.matchedBy == ReplyToMessage);
    OnlyIgnoresOrder(s, t, (c: Candidate) => c.matchedBy == SameThread);
    if m.sentAt.Some? {
      OnlyIgnoresOrder(s, t, (c: Candidate) => c.task.chatId == m.chatId
                                     && InBurst(config.burstSeconds, m.sentAt.value, l.latestFromSender(c.task.id)));
    }
  }

  lemma TakeoverIgnoresOrder(m: Message, l: Lookups, k: Lookups, now: int)
    requires Permuted(l, k)
    ensures OwnerTakeoverTask(m, l, now) == OwnerTakeoverTask(m, k, now)
  {
    OnlyIgnoresOrder(l.tasksOfReplyTarget, k.tasksOfReplyTarget, (t: Task) => t.chatId == m.chatId && IsActive(t, now));
    SameOnly(l.byThread, k.byThread);
  }

  lemma RouteAmongIgnoresOrder(config: RouterConfig, m: Message, source: Source, l: Lookups, k: Lookups)
    requires Permuted(l, k) && OneRowPerTask(m, l)
    ensures RouteAmong(config, m, source, l, Collect(m, l)) == RouteAmong(config, m, source, k, Collect(m, k))
  {
    var s, t := Collect(m, l), Collect(m, k);
    SameCandidates(m, l, k);
    SameSize(s, t);
    SameSize(l.historical, k.historical);
    MatchesIgnoreOrder(config, m, l, s, t);
    assert BurstMatch(config, m, l, t) == BurstMatch(config, m, k, t);
  }

  /**
   The whole decision - route, target, reason, count of candidates - is the same for every order in
   which the store may return its lists.
   */
  lemma RouteIgnoresStoreOrder(config: RouterConfig, m: Message, source: Source, changed: bool, l: Lookups, k: Lookups, now: int)
    requires Permuted(l, k) && OneRowPerTask(m, l)
    ensures FreshRoute(config, m, source, changed, l, now) == FreshRoute(config, m, source, changed, k, now)
  {
    OnlyIgnoresOrder(l.tasksOfMessage, k.tasksOfMessage, (t: Task) => IsActive(t, now));
    TakeoverIgnoresOrder(m, l, k, now);
    RouteAmongIgnoresOrder(config, m, source, l, k);
  }
}
