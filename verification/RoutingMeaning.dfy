/**
 What a routing decision means in terms of the store's answers: which task an attachment goes to, and
 when a new one is created.
 */
module RoutingMeaning {
  import opened Base
  import opened RoutingModel
  import opened RoutingOrder

  // ---------------------------------------------------------------- unique elements

  lemma {:induction false} FilterMembers<T>(s: seq<T>, p: T -> bool, x: T)
    ensures x in Filter(s, p) <==> x in s && p(x)
  {
    if s != [] {
      FilterMembers(s[1..], p, x);
      assert x in s <==> x == s[0] || x in s[1..];
    }
  }

  lemma {:induction false} FilterKeepsDistinct(s: seq<Candidate>, p: Candidate -> bool)
    requires DistinctIds(s)
    ensures DistinctIds(Filter(s, p))
  {
    if s != [] {
      FilterKeepsDistinct(s[1..], p);
      forall c | c in Filter(s[1..], p) ensures c.task.id != s[0].task.id {
        FilterMembers(s[1..], p, c);
        var i :| 0 <= i < |s[1..]| && s[1..][i] == c;
        assert s[i + 1] == c;
      }
    }
  }

  /** The candidates that satisfy `p` are exactly one, and it is `c`. */
  ghost predicate OnlyOne(s: seq<Candidate>, p: Candidate -> bool, c: Candidate) {
    c in s && p(c) && forall d :: d in s && p(d) ==> d == c
  }

  lemma FirstTwoDiffer(f: seq<Candidate>)
    requires DistinctIds(f) && |f| >= 2
    ensures f[0] in f && f[1] in f && f[0] != f[1]
  {
    assert f[0].task.id != f[1].task.id;
  }

  lemma OnlyMeansOne(s: seq<Candidate>, p: Candidate -> bool, c: Candidate)
    requires DistinctIds(s)
    ensures Only(Filter(s, p)) == Some(c) <==> OnlyOne(s, p, c)
  {
    var f := Filter(s, p);
    FilterMembers(s, p, c);
    FilterKeepsDistinct(s, p);
    forall d ensures d in f <==> d in s && p(d) {
      FilterMembers(s, p, d);
    }
    if |f| >= 2 {
      FirstTwoDiffer(f);
    } else if |f| == 1 {
      assert f[0] in f;
      assert forall d :: d in f ==> d == f[0];
    }
  }

  // ---------------------------------------------------------------- the matches

  /** `id` is the only task whose strongest reason is `why`. */
  ghost predicate Sole(m: Message, l: Lookups, why: Match, id: nat) {
    Strongest(m, l, id, why) && forall other :: Strongest(m, l, other, why) ==> other == id
  }

  ghost predicate HasSole(m: Message, l: Lookups, why: Match) {
    exists id :: Sole(m, l, why, id)
  }

  function MatchedBy(why: Match): Candidate -> bool {
    (c: Candidate) => c.matchedBy == why
  }

  lemma FoundIsSole(m: Message, l: Lookups, why: Match, c: Candidate)
    requires m.chatId != "" && OnlyOne(Collect(m, l), MatchedBy(why), c)
    ensures Sole(m, l, why, c.task.id)
  {
    CandidateIsStrongest(m, l, c);
    forall other | Strongest(m, l, other, why) ensures other == c.task.id {
      var d := CandidateFor(m, l, other, why);
      assert MatchedBy(why)(d);
    }
  }

  lemma SoleIsFound(m: Message, l: Lookups, why: Match, id: nat) returns (c: Candidate)
    requires m.chatId != "" && Sole(m, l, why, id)
    ensures OnlyOne(Collect(m, l), MatchedBy(why), c)
  {
    CandidatesCarryStrongestReason(m, l);
    c := CandidateFor(m, l, id, why);
    forall d | d in Collect(m, l) && MatchedBy(why)(d) ensures d == c {
      CandidateIsStrongest(m, l, d);
      SameIdSameCandidate(Collect(m, l), c, d);
    }
  }

  /** The only candidate of a strength stands for the only task of that strength. */
  lemma SoleCandidate(m: Message, l: Lookups, why: Match)
    requires m.chatId != ""
    ensures var found := Only(Filter(Collect(m, l), MatchedBy(why)));
            && (found.Some? <==> HasSole(m, l, why))
            && (found.Some? ==> Sole(m, l, why, found.value.task.id))
  {
    CandidatesCarryStrongestReason(m, l);
    var found := Only(Filter(Collect(m, l), MatchedBy(why)));
    if found.Some? {
      OnlyMeansOne(Collect(m, l), MatchedBy(why), found.value);
      FoundIsSole(m, l, why, found.value);
    }
    if HasSole(m, l, why) {
      var id :| Sole(m, l, why, id);
      var c := SoleIsFound(m, l, why, id);
      OnlyMeansOne(Collect(m, l), MatchedBy(why), c);
    }
  }

  lemma SameIdSameCandidate(s: seq<Candidate>, c: Candidate, d: Candidate)
    requires DistinctIds(s) && c in s && d in s && c.task.id == d.task.id
    ensures c == d
  {
    var i :| 0 <= i < |s| && s[i] == c;
    var j :| 0 <= j < |s| && s[j] == d;
  }

  lemma MatchesAreSole(m: Message, l: Lookups)
    requires m.chatId != ""
    ensures var found := DeterministicMatch(m, Collect(m, l));
            && (found.Some? <==> HasSole(m, l, ReplyToMessage) || HasSole(m, l, SameThread))
            && (found.Some? ==> Sole(m, l, if HasSole(m, l, ReplyToMessage) then ReplyToMessage else SameThread, found.value.task.id))
  {
    SoleCandidate(m, l, ReplyToMessage);
    SoleCandidate(m, l, SameThread);
    var s := Collect(m, l);
    SameFilter(s, (c: Candidate) => c.matchedBy == ReplyToMessage, MatchedBy(ReplyToMessage));
    SameFilter(s, (c: Candidate) => c.matchedBy == SameThread, MatchedBy(SameThread));
  }

  lemma {:induction false} SameFilter<T>(s: seq<T>, p: T -> bool, q: T -> bool)
    requires forall x :: p(x) == q(x)
    ensures Filter(s, p) == Filter(s, q)
  {
    if s != [] {
      SameFilter(s[1..], p, q);
    }
  }

  /** A candidate of the message's chat whose latest message from the same sender lies within the burst. */
  predicate InBurstOf(config: RouterConfig, m: Message, l: Lookups, c: Candidate)
    requires m.sentAt.Some?
  {
    && c.task.chatId == m.chatId && l.latestFromSender(c.task.id).Some?
    && 0 <= m.sentAt.value - l.latestFromSender(c.task.id).value <= config.burstSeconds
  }

  lemma BurstIsTheOnlyRecentCandidate(config: RouterConfig, m: Message, l: Lookups, s: seq<Candidate>, c: Candidate)
    requires DistinctIds(s)
    ensures BurstMatch(config, m, l, s) == Some(c) <==>
              && config.burstSeconds > 0 && m.chatId != "" && m.senderId != "" && m.sentAt.Some?
              && c in s && InBurstOf(config, m, l, c) && forall d :: d in s && InBurstOf(config, m, l, d) ==> d == c
  {
    if m.sentAt.Some? {
      var p := (c: Candidate) => c.task.chatId == m.chatId
                                 && InBurst(config.burstSeconds, m.sentAt.value, l.latestFromSender(c.task.id));
      OnlyMeansOne(s, p, c);
    }
  }

  // ---------------------------------------------------------------- the candidates

  /** The store returned the task for what the message says of itself. */
  ghost predicate Returned(m: Message, l: Lookups, why: Match, id: nat) {
    match why
    case ReplyToMessage => m.replyTo != "" && IdIn(l.byReply, id)
    case SameThread => m.threadId != "" && IdIn(l.byThread, id)
    case SameSender => m.senderId != "" && IdIn(l.bySender, id)
    case DirectMention => m.directMention && IdIn(l.byChat, id)
  }

  /** A task is a candidate for a reason exactly if the chat is known and that is the strongest for which it was returned. */
  lemma CandidatesExactly(m: Message, l: Lookups, id: nat, why: Match)
    ensures (exists c :: c in Collect(m, l) && c.task.id == id && c.matchedBy == why) <==>
              m.chatId != "" && Returned(m, l, why, id)
              && forall other :: Strength(other) < Strength(why) ==> !Returned(m, l, other, id)
  {
    assert forall other :: Returned(m, l, other, id) <==> IdIn(ListFor(m, l, other), id);
    if m.chatId != "" {
      CandidatesCarryStrongestReason(m, l);
      if Strongest(m, l, id, why) {
        var c := CandidateFor(m, l, id, why);
      }
      forall c | c in Collect(m, l) && c.task.id == id && c.matchedBy == why ensures Strongest(m, l, id, why) {
        CandidateIsStrongest(m, l, c);
      }
    }
  }

  // ---------------------------------------------------------------- the decision

  /** The element at `i` is the only one that satisfies `p`. */
  ghost predicate OnlyAt<T(!new)>(s: seq<T>, p: T -> bool, i: nat) {
    i < |s| && p(s[i]) && forall j :: 0 <= j < |s| && p(s[j]) ==> j == i
  }

  ghost predicate HasOnly<T(!new)>(s: seq<T>, p: T -> bool) {
    exists i: nat :: OnlyAt(s, p, i)
  }

  lemma {:induction false} NoneSelected<T(!new)>(s: seq<T>, p: T -> bool)
    ensures Filter(s, p) == [] <==> forall j :: 0 <= j < |s| ==> !p(s[j])
  {
    if s != [] {
      NoneSelected(s[1..], p);
      assert forall j :: 0 < j < |s| ==> s[1..][j - 1] == s[j];
    }
  }

  lemma SelectedFirst<T(!new)>(s: seq<T>, p: T -> bool)
    requires s != [] && p(s[0])
    ensures HasOnly(s, p) <==> forall j :: 0 <= j < |s[1..]| ==> !p(s[1..][j])
    ensures forall i: nat :: OnlyAt(s, p, i) ==> i == 0
  {
    if forall j :: 0 <= j < |s[1..]| ==> !p(s[1..][j]) {
      forall j | 0 < j < |s| ensures !p(s[j]) {
        assert s[1..][j - 1] == s[j];
      }
      assert OnlyAt(s, p, 0);
    }
    if HasOnly(s, p) {
      var i: nat :| OnlyAt(s, p, i);
      forall j | 0 <= j < |s[1..]| ensures !p(s[1..][j]) {
        assert s[1..][j] == s[j + 1];
      }
    }
  }

  lemma SelectedLater<T(!new)>(s: seq<T>, p: T -> bool)
    requires s != [] && !p(s[0])
    ensures HasOnly(s, p) <==> HasOnly(s[1..], p)
    ensures forall i: nat :: OnlyAt(s, p, i) ==> i > 0 && OnlyAt(s[1..], p, i - 1)
  {
    assert forall j :: 0 < j < |s| ==> s[1..][j - 1] == s[j];
    if HasOnly(s[1..], p) {
      var i: nat :| OnlyAt(s[1..], p, i);
      forall j | 0 <= j < |s| && p(s[j]) ensures j == i + 1 {
        if j > 0 {
          assert s[1..][j - 1] == s[j];
        }
      }
      assert OnlyAt(s, p, i + 1);
    }
    forall i: nat | OnlyAt(s, p, i) ensures i > 0 && OnlyAt(s[1..], p, i - 1) {
      assert s[1..][i - 1] == s[i];
      forall j | 0 <= j < |s[1..]| && p(s[1..][j]) ensures j == i - 1 {
        assert s[1..][j] == s[j + 1];
      }
    }
  }

  /** A selection has one element exactly when one position satisfies it, and then it is the element there. */
  lemma {:induction false} OnlySelected<T(!new)>(s: seq<T>, p: T -> bool)
    ensures Only(Filter(s, p)).Some? <==> HasOnly(s, p)
    ensures forall i: nat :: OnlyAt(s, p, i) ==> Only(Filter(s, p)) == Some(s[i])
  {
    if s != [] {
      NoneSelected(s[1..], p);
      if p(s[0]) {
        SelectedFirst(s, p);
      } else {
        SelectedLater(s, p);
        OnlySelected(s[1..], p);
        assert Filter(s, p) == Filter(s[1..], p);
        forall i: nat | OnlyAt(s, p, i) ensures Only(Filter(s, p)) == Some(s[i]) {
          assert OnlyAt(s[1..], p, i - 1) && s[1..][i - 1] == s[i];
        }
      }
    }
  }

  /** A task that is watched, with no end of watching or one still to come. */
  predicate Watched(now: int, task: Task) {
    task.watching && (task.watchUntil == None || task.watchUntil.value > now)
  }

  function WatchedAt(now: int): Task -> bool {
    (t: Task) => Watched(now, t)
  }

  function WatchedInChat(now: int, chatId: string): Task -> bool {
    (t: Task) => t.chatId == chatId && Watched(now, t)
  }

  /** An earlier revision of the message belongs to exactly one task that is still watched. */
  ghost predicate HasRevisionTask(l: Lookups, now: int) {
    HasOnly(l.tasksOfMessage, WatchedAt(now))
  }

  lemma RevisionTask(l: Lookups, now: int)
    ensures ExistingActiveTask(l, now).Some? <==> HasRevisionTask(l, now)
    ensures forall i: nat :: OnlyAt(l.tasksOfMessage, WatchedAt(now), i) ==> ExistingActiveTask(l, now) == Some(l.tasksOfMessage[i])
  {
    SameFilter(l.tasksOfMessage, (t: Task) => IsActive(t, now), WatchedAt(now));
    OnlySelected(l.tasksOfMessage, WatchedAt(now));
  }

  /** Whether the message gets as far as being compared with candidates. */
  ghost predicate Considered(m: Message, source: Source, changed: bool, l: Lookups, now: int) {
    && !(changed && HasRevisionTask(l, now)) && l.sentAction.None? && !m.isSelf && !m.isOwner && !m.atAll
    && (source.GroupAtMe? ==> m.directMention)
  }

  /** The store returned no task for any reason the message gives. */
  ghost predicate NoCandidate(m: Message, l: Lookups) {
    forall why :: ListFor(m, l, why) == []
  }

  lemma NoCandidateMeansNone(m: Message, l: Lookups)
    requires m.chatId != ""
    ensures Collect(m, l) == [] <==> NoCandidate(m, l)
  {
    CandidatesCarryStrongestReason(m, l);
    var r := Collect(m, l);
    if !NoCandidate(m, l) {
      var why :| ListFor(m, l, why) != [];
      var tasks := ListFor(m, l, why);
      assert IdIn(tasks, tasks[0].id) && Strength(why) < 4;
      assert HasId(r, tasks[0].id);
    }
    if r != [] {
      assert r[0].task in ListFor(m, l, r[0].matchedBy);
    }
  }

  /** A task is created exactly for a trigger message in a known chat with neither candidates nor history. */
  lemma CreatesExactly(config: RouterConfig, m: Message, source: Source, changed: bool, l: Lookups, now: int)
    ensures var d := FreshRoute(config, m, source, changed, l, now);
            && (d.route == NewTask <==>
                  && Considered(m, source, changed, l, now) && !source.ActiveWatch? && m.chatId != ""
                  && NoCandidate(m, l) && l.historical == [])
            && (d.route == NewTask ==> d.reason == NewTrigger && d.target == Some(l.newTaskId))
  {
    RevisionTask(l, now);
    var s := Collect(m, l);
    if m.chatId != "" {
      NoCandidateMeansNone(m, l);
    }
    assert s == [] ==> DeterministicMatch(m, s).None? && BurstMatch(config, m, l, s).None?;
  }

  /** Exactly one candidate of the chat is one its sender wrote in within the burst window. */
  ghost predicate HasBurst(config: RouterConfig, m: Message, l: Lookups) {
    && config.burstSeconds > 0 && m.senderId != "" && m.sentAt.Some?
    && exists c :: c in Collect(m, l) && InBurstOf(config, m, l, c)
                   && forall d :: d in Collect(m, l) && InBurstOf(config, m, l, d) ==> d == c
  }

  lemma BurstExactly(config: RouterConfig, m: Message, l: Lookups)
    requires m.chatId != ""
    ensures BurstMatch(config, m, l, Collect(m, l)).Some? <==> HasBurst(config, m, l)
  {
    CandidatesCarryStrongestReason(m, l);
    var s := Collect(m, l);
    var found := BurstMatch(config, m, l, s);
    if found.Some? {
      BurstIsTheOnlyRecentCandidate(config, m, l, s, found.value);
    }
    if HasBurst(config, m, l) {
      var c :| c in s && InBurstOf(config, m, l, c) && forall d :: d in s && InBurstOf(config, m, l, d) ==> d == c;
      BurstIsTheOnlyRecentCandidate(config, m, l, s, c);
    }
  }

  /**
   A message is attached exactly when its own earlier revision belongs to one active task, or it is
   compared with candidates and answers one task alone, shares a thread with one alone, or is a trigger
   message in a burst with one alone.
   */
  lemma AttachesExactly(config: RouterConfig, m: Message, source: Source, changed: bool, l: Lookups, now: int)
    ensures FreshRoute(config, m, source, changed, l, now).route == AttachTask <==>
              || (changed && HasRevisionTask(l, now))
              || (Considered(m, source, changed, l, now) && m.chatId != ""
                  && (HasSole(m, l, ReplyToMessage) || HasSole(m, l, SameThread) || (!source.ActiveWatch? && HasBurst(config, m, l))))
  {
    RevisionTask(l, now);
    var s := Collect(m, l);
    if m.chatId != "" {
      MatchesAreSole(m, l);
      BurstExactly(config, m, l);
    } else {
      assert DeterministicMatch(m, s).None? && BurstMatch(config, m, l, s).None?;
    }
  }

  /** Which task it is attached to: that of its revision, else of its reply, else of its thread, else of the burst. */
  lemma AttachmentTarget(config: RouterConfig, m: Message, source: Source, changed: bool, l: Lookups, now: int)
    requires FreshRoute(config, m, source, changed, l, now).route == AttachTask
    ensures var d := FreshRoute(config, m, source, changed, l, now);
            d.target.Some?
            && if changed && HasRevisionTask(l, now) then
                 d.reason == SourceRevision
                 && forall i: nat :: OnlyAt(l.tasksOfMessage, WatchedAt(now), i) ==> d.target.value == l.tasksOfMessage[i].id
               else if HasSole(m, l, ReplyToMessage) then
                 d.reason == DeterministicShortcut && Sole(m, l, ReplyToMessage, d.target.value)
               else if HasSole(m, l, SameThread) then
                 d.reason == DeterministicShortcut && Sole(m, l, SameThread, d.target.value)
               else
                 d.reason == BurstWindow && m.sentAt.Some?
                 && exists c :: c in Collect(m, l) && c.task.id == d.target.value && InBurstOf(config, m, l, c)
  {
    AttachesExactly(config, m, source, changed, l, now);
    RevisionTask(l, now);
    if m.chatId != "" {
      CandidatesCarryStrongestReason(m, l);
      MatchesAreSole(m, l);
      var burst := BurstMatch(config, m, l, Collect(m, l));
      if burst.Some? {
        BurstIsTheOnlyRecentCandidate(config, m, l, Collect(m, l), burst.value);
      }
    }
  }

  // ---------------------------------------------------------------- the owner takes over

  /** The message answers one that belongs to exactly one watched task of this chat. */
  ghost predicate RepliesToTask(m: Message, l: Lookups, now: int) {
    m.replyTo != "" && HasOnly(l.tasksOfReplyTarget, WatchedInChat(now, m.chatId))
  }

  /** The watched tasks of the message's thread are exactly one. */
  predicate SpeaksInThread(m: Message, l: Lookups) {
    m.threadId != "" && |l.byThread| == 1
  }

  lemma TakeoverTask(m: Message, l: Lookups, now: int)
    requires m.chatId != ""
    ensures OwnerTakeoverTask(m, l, now).Some? <==> RepliesToTask(m, l, now) || SpeaksInThread(m, l)
    ensures RepliesToTask(m, l, now) ==>
              forall i: nat :: OnlyAt(l.tasksOfReplyTarget, WatchedInChat(now, m.chatId), i) ==>
                OwnerTakeoverTask(m, l, now) == Some(l.tasksOfReplyTarget[i])
    ensures !RepliesToTask(m, l, now) && SpeaksInThread(m, l) ==> OwnerTakeoverTask(m, l, now) == Some(l.byThread[0])
  {
    SameFilter(l.tasksOfReplyTarget, (t: Task) => t.chatId == m.chatId && IsActive(t, now), WatchedInChat(now, m.chatId));
    OnlySelected(l.tasksOfReplyTarget, WatchedInChat(now, m.chatId));
  }

  /** The message is judged as one of the owner. */
  ghost predicate IsOwners(m: Message, changed: bool, l: Lookups, now: int) {
    !(changed && HasRevisionTask(l, now)) && l.sentAction.None? && !m.isSelf && m.isOwner
  }

  /**
   A task is taken over by its owner exactly when an owner message, in a known chat, answers a message of
   one watched task of the chat, or speaks in a thread with one watched task.
   */
  lemma TakesOverExactly(config: RouterConfig, m: Message, source: Source, changed: bool, l: Lookups, now: int)
    ensures FreshRoute(config, m, source, changed, l, now).route == HumanTakenOver <==>
              IsOwners(m, changed, l, now) && m.chatId != "" && (RepliesToTask(m, l, now) || SpeaksInThread(m, l))
  {
    RevisionTask(l, now);
    if m.chatId != "" {
      TakeoverTask(m, l, now);
    }
  }

  /** Which task that is: the one of the reply before the one of the thread. */
  lemma TakeoverTarget(config: RouterConfig, m: Message, source: Source, changed: bool, l: Lookups, now: int)
    requires FreshRoute(config, m, source, changed, l, now).route == HumanTakenOver
    ensures var d := FreshRoute(config, m, source, changed, l, now);
            && d.reason == OwnerIntervention && d.target.Some?
            && if RepliesToTask(m, l, now) then
                 forall i: nat :: OnlyAt(l.tasksOfReplyTarget, WatchedInChat(now, m.chatId), i) ==>
                   d.target.value == l.tasksOfReplyTarget[i].id
               else SpeaksInThread(m, l) && d.target.value == l.byThread[0].id
  {
    TakesOverExactly(config, m, source, changed, l, now);
    TakeoverTask(m, l, now);
  }

  // ---------------------------------------------------------------- the rest

  /** The message is attached to a task for what it is compared with. */
  ghost predicate FindsTask(config: RouterConfig, m: Message, source: Source, l: Lookups) {
    m.chatId != "" && (HasSole(m, l, ReplyToMessage) || HasSole(m, l, SameThread) || (!source.ActiveWatch? && HasBurst(config, m, l)))
  }

  /**
   The model is asked exactly when the message is compared with candidates of its chat of which none is
   the one it belongs to, or is a trigger message without candidates but with related closed tasks.
   */
  lemma AsksExactly(config: RouterConfig, m: Message, source: Source, changed: bool, l: Lookups, now: int)
    ensures var d := FreshRoute(config, m, source, changed, l, now);
            && (d.route == Ambiguous <==>
                  && Considered(m, source, changed, l, now) && m.chatId != "" && !FindsTask(config, m, source, l)
                  && (!NoCandidate(m, l) || (!source.ActiveWatch? && l.historical != [])))
            && (d.route == Ambiguous ==>
                  d.target == None && d.reason == if NoCandidate(m, l) then ClosedRecallPlaceholder else RouterPlaceholder)
  {
    AttachesExactly(config, m, source, changed, l, now);
    CreatesExactly(config, m, source, changed, l, now);
    if m.chatId != "" {
      NoCandidateMeansNone(m, l);
    }
  }

  /** A message is left alone in every other case. */
  lemma IgnoresExactly(config: RouterConfig, m: Message, source: Source, changed: bool, l: Lookups, now: int)
    ensures FreshRoute(config, m, source, changed, l, now).route == Ignore <==>
              && !(changed && HasRevisionTask(l, now))
              && (|| l.sentAction.Some? || m.isSelf
                  || (m.isOwner && !(m.chatId != "" && (RepliesToTask(m, l, now) || SpeaksInThread(m, l))))
                  || (!m.isOwner && (m.atAll || (source.GroupAtMe? && !m.directMention)))
                  || (!m.isOwner && (m.chatId == "" || (source.ActiveWatch? && NoCandidate(m, l)))))
  {
    RevisionTask(l, now);
    if m.chatId != "" {
      TakeoverTask(m, l, now);
      NoCandidateMeansNone(m, l);
    }
    NoCandidateNoMatch(config, m, l, Collect(m, l));
  }

  lemma NoCandidateNoMatch(config: RouterConfig, m: Message, l: Lookups, s: seq<Candidate>)
    ensures s == [] ==> DeterministicMatch(m, s).None? && BurstMatch(config, m, l, s).None?
  {
  }

  /** Why it is left alone, and whose task it is linked to. */
  lemma IgnoreReason(config: RouterConfig, m: Message, source: Source, changed: bool, l: Lookups, now: int)
    requires FreshRoute(config, m, source, changed, l, now).route == Ignore
    ensures var d := FreshRoute(config, m, source, changed, l, now);
            && d.target == (if l.sentAction.Some? then Some(l.sentAction.value.id) else None)
            && d.reason == if l.sentAction.Some? || m.isSelf then SelfMessage
                           else if m.isOwner then NotIntervention
                           else if m.atAll then AtAllSuppressed
                           else if source.GroupAtMe? && !m.directMention then NonDirectMention
                           else if source.ActiveWatch? then NoWatchCandidate
                           else MissingChatId
  {
  }

  /** How many tasks a decision says it chose from. */
  lemma ChosenFrom(config: RouterConfig, m: Message, source: Source, changed: bool, l: Lookups, now: int)
    ensures var d := FreshRoute(config, m, source, changed, l, now);
            d.candidatesCount == match d.reason
                                 case SourceRevision => 1
                                 case OwnerIntervention => 1
                                 case DeterministicShortcut => |Collect(m, l)|
                                 case BurstWindow => |Collect(m, l)|
                                 case RouterPlaceholder => |Collect(m, l)|
                                 case ClosedRecallPlaceholder => |l.historical|
                                 case _ => 0
  {
  }
}
