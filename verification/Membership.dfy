/**
 Bot membership per chat: the fact kept about it, the episodes of absence, and the owner notices. One
 observation overwrites the fact and notifies only when the confirmed status changes.
 */
module Membership {
  import opened Base

  datatype Status = Present | Absent | Unknown

  datatype Fact = Fact(status: Status, lastConfirmed: Option<Status>, episode: nat, nextProbeAt: Option<int>)

  datatype Notice = Notice(chat: string, status: Status, episode: nat)

  datatype Intervals = Intervals(ttl: nat, retry: nat)

  datatype Observation = Observation(chat: string, status: Status, at: int)

  /** The facts of all chats and the notices queued so far. */
  datatype Registry = Registry(facts: map<string, Fact>, outbox: seq<Notice>)

  const EMPTY: Registry := Registry(map[], [])

  predicate Confirms(status: Option<Status>) {
    status == Some(Present) || status == Some(Absent)
  }

  /** The last confirmed status, read from older facts when the newer field is missing. */
  function Confirmed(previous: Option<Fact>): Option<Status> {
    if previous.None? then None
    else if Confirms(previous.value.lastConfirmed) then previous.value.lastConfirmed
    else if Confirms(Some(previous.value.status)) then Some(previous.value.status)
    else None
  }

  function EpisodeOf(previous: Option<Fact>): nat {
    if previous.Some? then previous.value.episode else 0
  }

  predicate Notifies(confirmed: Option<Status>, status: Status) {
    (status == Absent && confirmed != Some(Absent)) || (status == Present && confirmed == Some(Absent))
  }

  function NextFact(intervals: Intervals, previous: Option<Fact>, status: Status, at: int): Fact {
    var confirmed := Confirmed(previous);
    Fact(status,
         if status == Unknown then confirmed else Some(status),
         EpisodeOf(previous) + if status == Absent && confirmed != Some(Absent) then 1 else 0,
         Some(at + if status == Unknown then intervals.retry else intervals.ttl))
  }

  function FactOf(r: Registry, chat: string): Option<Fact> {
    if chat in r.facts then Some(r.facts[chat]) else None
  }

  /** `_record_observation` */
  function Observe(intervals: Intervals, r: Registry, o: Observation): Registry {
    var previous := FactOf(r, o.chat);
    var fact := NextFact(intervals, previous, o.status, o.at);
    Registry(r.facts[o.chat := fact],
             if Notifies(Confirmed(previous), o.status) then r.outbox + [Notice(o.chat, o.status, fact.episode)] else r.outbox)
  }

  function ObserveAll(intervals: Intervals, r: Registry, os: seq<Observation>): Registry
    decreases |os|
  {
    if os == [] then r else ObserveAll(intervals, Observe(intervals, r, os[0]), os[1..])
  }

  // ---------------------------------------------------------------- one chat's notices

  function Select<T>(s: seq<T>, p: T -> bool): seq<T> {
    if s == [] then [] else (if p(s[0]) then [s[0]] else []) + Select(s[1..], p)
  }

  function NoticesFor(outbox: seq<Notice>, chat: string): seq<Notice> {
    Select(outbox, (n: Notice) => n.chat == chat)
  }

  /** Reference: the confirmed observations of a chat at which its status changes, starting from present. */
  function Changes(last: Status, chat: string, os: seq<Observation>): seq<Status>
    decreases |os|
  {
    if os == [] then []
    else if os[0].chat != chat || os[0].status == Unknown || os[0].status == last then Changes(last, chat, os[1..])
    else [os[0].status] + Changes(os[0].status, chat, os[1..])
  }

  /** Statuses numbered as episodes: an absence opens the next episode, a recovery closes it. */
  function Episodes(chat: string, statuses: seq<Status>, episode: nat): seq<Notice>
    decreases |statuses|
  {
    if statuses == [] then []
    else
      var e := episode + if statuses[0] == Absent then 1 else 0;
      [Notice(chat, statuses[0], e)] + Episodes(chat, statuses[1..], e)
  }

  function LastStatus(previous: Option<Fact>): Status {
    Confirmed(previous).GetOr(Present)
  }

  lemma Associates<T>(a: seq<T>, b: seq<T>, c: seq<T>)
    ensures (a + b) + c == a + (b + c)
  {
  }

  lemma {:induction false} SelectAppend<T>(s: seq<T>, t: seq<T>, p: T -> bool)
    ensures Select(s + t, p) == Select(s, p) + Select(t, p)
  {
    if s == [] {
      assert s + t == t;
    } else {
      var rest := s[1..];
      var head := if p(s[0]) then [s[0]] else [];
      assert (s + t)[0] == s[0] && (s + t)[1..] == rest + t;
      SelectAppend(rest, t, p);
      Associates(head, Select(rest, p), Select(t, p));
    }
  }

  lemma ObserveAddsNotice(intervals: Intervals, r: Registry, o: Observation, chat: string)
    ensures var next := Observe(intervals, r, o);
            var before, after := FactOf(r, chat), FactOf(next, chat);
            if o.chat != chat || o.status == Unknown || o.status == LastStatus(before)
            then NoticesFor(next.outbox, chat) == NoticesFor(r.outbox, chat)
                 && LastStatus(after) == LastStatus(before) && EpisodeOf(after) == EpisodeOf(before)
            else && LastStatus(after) == o.status
                 && EpisodeOf(after) == EpisodeOf(before) + (if o.status == Absent then 1 else 0)
                 && NoticesFor(next.outbox, chat) == NoticesFor(r.outbox, chat) + [Notice(chat, o.status, EpisodeOf(after))]
  {
    var next := Observe(intervals, r, o);
    if next.outbox != r.outbox {
      var n := next.outbox[|r.outbox|];
      SelectAppend(r.outbox, [n], (m: Notice) => m.chat == chat);
      assert Select([n], (m: Notice) => m.chat == chat) == if n.chat == chat then [n] else [];
    }
  }

  /** The notices of a chat are exactly its confirmed changes, in order, numbered by episode. */
  lemma {:induction false} NoticesAreTheChanges(intervals: Intervals, r: Registry, os: seq<Observation>, chat: string)
    ensures var before := FactOf(r, chat);
            NoticesFor(ObserveAll(intervals, r, os).outbox, chat)
            == NoticesFor(r.outbox, chat) + Episodes(chat, Changes(LastStatus(before), chat, os), EpisodeOf(before))
    decreases |os|
  {
    if os != [] {
      ObserveAddsNotice(intervals, r, os[0], chat);
      NoticesAreTheChanges(intervals, Observe(intervals, r, os[0]), os[1..], chat);
    }
  }

  lemma {:induction false} ChangesAlternate(last: Status, chat: string, os: seq<Observation>, i: nat)
    requires last != Unknown && i < |Changes(last, chat, os)|
    ensures Changes(last, chat, os)[i] == if (i % 2 == 0) == (last == Present) then Absent else Present
    decreases |os|
  {
    if os[0].chat != chat || os[0].status == Unknown || os[0].status == last {
      ChangesAlternate(last, chat, os[1..], i);
    } else if i > 0 {
      ChangesAlternate(os[0].status, chat, os[1..], i - 1);
    }
  }

  lemma {:induction false} EpisodeNumbers(chat: string, statuses: seq<Status>, episode: nat, i: nat)
    requires forall k :: 0 <= k < |statuses| ==> statuses[k] == if k % 2 == 0 then Absent else Present
    requires i < |statuses|
    ensures |Episodes(chat, statuses, episode)| == |statuses|
    ensures Episodes(chat, statuses, episode)[i] == Notice(chat, statuses[i], episode + i / 2 + 1)
    decreases |statuses|
  {
    if |statuses| >= 2 {
      var rest := statuses[2..];
      assert statuses[1..][1..] == rest;
      assert Episodes(chat, statuses, episode)
             == [Notice(chat, Absent, episode + 1), Notice(chat, Present, episode + 1)] + Episodes(chat, rest, episode + 1);
      assert forall k :: 0 <= k < |rest| ==> rest[k] == statuses[k + 2];
      if i >= 2 {
        EpisodeNumbers(chat, rest, episode + 1, i - 2);
      } else if rest != [] {
        EpisodeNumbers(chat, rest, episode + 1, 0);
      }
    }
  }

  /**
   For every observation sequence: a chat's notices alternate absent, recovered, absent, ..., starting
   with absent, and the i-th one carries episode i/2 + 1.
   */
  lemma NoticesAlternate(intervals: Intervals, os: seq<Observation>, chat: string, i: nat)
    requires i < |NoticesFor(ObserveAll(intervals, EMPTY, os).outbox, chat)|
    ensures NoticesFor(ObserveAll(intervals, EMPTY, os).outbox, chat)[i]
            == Notice(chat, if i % 2 == 0 then Absent else Present, i / 2 + 1)
  {
    NoticesAreTheChanges(intervals, EMPTY, os, chat);
    var statuses := Changes(Present, chat, os);
    forall k | 0 <= k < |statuses| ensures statuses[k] == if k % 2 == 0 then Absent else Present {
      ChangesAlternate(Present, chat, os, k);
    }
    assert Episodes(chat, [], 0) == [];
    assert statuses != [];
    EpisodeNumbers(chat, statuses, 0, 0);
    EpisodeNumbers(chat, statuses, 0, i);
  }

  /** The counter kept in the fact equals the number of absences notified. */
  lemma {:induction false} EpisodeCountsNotifiedAbsences(intervals: Intervals, r: Registry, os: seq<Observation>, chat: string)
    requires EpisodeOf(FactOf(r, chat)) == |Select(NoticesFor(r.outbox, chat), (n: Notice) => n.status == Absent)|
    ensures var after := ObserveAll(intervals, r, os);
            EpisodeOf(FactOf(after, chat)) == |Select(NoticesFor(after.outbox, chat), (n: Notice) => n.status == Absent)|
    decreases |os|
  {
    if os != [] {
      var next := Observe(intervals, r, os[0]);
      ObserveAddsNotice(intervals, r, os[0], chat);
      var before, after := NoticesFor(r.outbox, chat), NoticesFor(next.outbox, chat);
      if after != before {
        SelectAppend(before, after[|before|..], (n: Notice) => n.status == Absent);
      }
      EpisodeCountsNotifiedAbsences(intervals, next, os[1..], chat);
    }
  }

  /** Observations that found nothing out leave no trace in the notices. */
  lemma UnknownsAreInvisible(intervals: Intervals, os: seq<Observation>, chat: string)
    ensures NoticesFor(ObserveAll(intervals, EMPTY, os).outbox, chat)
            == NoticesFor(ObserveAll(intervals, EMPTY, Select(os, (o: Observation) => o.status != Unknown)).outbox, chat)
  {
    var known := Select(os, (o: Observation) => o.status != Unknown);
    NoticesAreTheChanges(intervals, EMPTY, os, chat);
    NoticesAreTheChanges(intervals, EMPTY, known, chat);
    ChangesIgnoreUnknowns(Present, chat, os);
  }

  lemma {:induction false} ChangesIgnoreUnknowns(last: Status, chat: string, os: seq<Observation>)
    ensures Changes(last, chat, os) == Changes(last, chat, Select(os, (o: Observation) => o.status != Unknown))
    decreases |os|
  {
    if os != [] {
      var p := (o: Observation) => o.status != Unknown;
      ChangesIgnoreUnknowns(last, chat, os[1..]);
      ChangesIgnoreUnknowns(os[0].status, chat, os[1..]);
      if os[0].status != Unknown {
        assert Select(os, p)[0] == os[0] && Select(os, p)[1..] == Select(os[1..], p);
      } else {
        assert Select(os, p) == Select(os[1..], p);
      }
    }
  }

  // ---------------------------------------------------------------- dedupe keys

  function ValueOf(s: string): int {
    if s == [] then 0 else 10 * ValueOf(s[..|s| - 1]) + (s[|s| - 1] as int - '0' as int)
  }

  lemma {:induction false} DigitsRoundTrip(n: nat)
    ensures ValueOf(Digits(n)) == n
  {
    var s := Digits(n);
    if n < 10 {
      assert s[..0] == [];
    } else {
      DigitsRoundTrip(n / 10);
      assert s[..|s| - 1] == Digits(n / 10);
    }
  }

  function StatusName(status: Status): string {
    match status
    case Present => "present"
    case Absent => "absent"
    case Unknown => "unknown"
  }

  function DedupeKey(n: Notice): string {
    ("bot-membership:" + n.chat) + ":" + (StatusName(n.status) + ":" + Digits(n.episode))
  }

  lemma ColonInLongerTail(a: string, x: string, b: string, y: string)
    requires a + ":" + x == b + ":" + y && |x| < |y|
    ensures ':' in y
  {
    assert (a + ":" + x)[|a|] == ':';
    assert (b + ":" + y)[|a|] == y[|a| - |b| - 1];
  }

  /** Splitting at the last colon is unambiguous. */
  lemma LastColonSplits(a: string, x: string, b: string, y: string)
    requires a + ":" + x == b + ":" + y && ':' !in x && ':' !in y
    ensures a == b && x == y
  {
    if |x| < |y| {
      ColonInLongerTail(a, x, b, y);
    } else if |y| < |x| {
      ColonInLongerTail(b, y, a, x);
    } else {
      var whole := a + ":" + x;
      assert whole[..|a|] == a && (b + ":" + y)[..|b|] == b;
      assert whole[|a| + 1..] == x && (b + ":" + y)[|b| + 1..] == y;
    }
  }

  lemma TwoColonsSplit(a: string, x: string, i: string, b: string, y: string, j: string)
    requires a + ":" + (x + ":" + i) == b + ":" + (y + ":" + j)
    requires ':' !in x && ':' !in y && ':' !in i && ':' !in j
    ensures a == b && x == y && i == j
  {
    assert a + ":" + (x + ":" + i) == (a + ":" + x) + ":" + i;
    assert b + ":" + (y + ":" + j) == (b + ":" + y) + ":" + j;
    LastColonSplits(a + ":" + x, i, b + ":" + y, j);
    LastColonSplits(a, x, b, y);
  }

  lemma StatusNamesDiffer(a: Status, b: Status)
    requires StatusName(a) == StatusName(b)
    ensures a == b
  {
    assert StatusName(Present)[0] == 'p' && StatusName(Absent)[0] == 'a' && StatusName(Unknown)[0] == 'u';
  }

  lemma DedupeKeyIsInjective(m: Notice, n: Notice)
    requires DedupeKey(m) == DedupeKey(n)
    ensures m == n
  {
    var prefix := "bot-membership:";
    TwoColonsSplit(prefix + m.chat, StatusName(m.status), Digits(m.episode), prefix + n.chat, StatusName(n.status), Digits(n.episode));
    assert (prefix + m.chat)[|prefix|..] == m.chat && (prefix + n.chat)[|prefix|..] == n.chat;
    StatusNamesDiffer(m.status, n.status);
    DigitsRoundTrip(m.episode);
    DigitsRoundTrip(n.episode);
  }

  /** Every queued notice belongs to an episode its chat has reached, and a recovery closes it. */
  ghost predicate OutboxSound(r: Registry) {
    && (forall i, j :: 0 <= i < j < |r.outbox| ==> r.outbox[i] != r.outbox[j])
    && (forall i :: 0 <= i < |r.outbox| ==>
          var fact := FactOf(r, r.outbox[i].chat);
          && r.outbox[i].episode <= EpisodeOf(fact)
          && (r.outbox[i].status == Present && r.outbox[i].episode == EpisodeOf(fact) ==> Confirmed(fact) == Some(Present)))
  }

  lemma ObserveKeepsOutboxSound(intervals: Intervals, r: Registry, o: Observation)
    requires OutboxSound(r)
    ensures OutboxSound(Observe(intervals, r, o))
  {
  }

  /** No two notices of any run share a dedupe key, whichever chats they are about. */
  lemma {:induction false} DedupeKeysAreDistinct(intervals: Intervals, r: Registry, os: seq<Observation>, i: nat, j: nat)
    requires OutboxSound(r) && i < j < |ObserveAll(intervals, r, os).outbox|
    ensures DedupeKey(ObserveAll(intervals, r, os).outbox[i]) != DedupeKey(ObserveAll(intervals, r, os).outbox[j])
    decreases |os|
  {
    if os == [] {
      if DedupeKey(r.outbox[i]) == DedupeKey(r.outbox[j]) {
        DedupeKeyIsInjective(r.outbox[i], r.outbox[j]);
      }
    } else {
      ObserveKeepsOutboxSound(intervals, r, os[0]);
      DedupeKeysAreDistinct(intervals, Observe(intervals, r, os[0]), os[1..], i, j);
    }
  }

  // ---------------------------------------------------------------- a process that ends in between

  /** The fact is stored before the notice is queued; a process that ends in between loses the notice. */
  function ObserveUpTo(intervals: Intervals, r: Registry, o: Observation, ends: bool): Registry {
    var after := Observe(intervals, r, o);
    if ends then after.(outbox := r.outbox) else after
  }

  /** A run in which the process may end in the middle of any observation and is started again. */
  function ObserveAllUpTo(intervals: Intervals, r: Registry, os: seq<Observation>, ends: seq<bool>): Registry
    requires |os| == |ends|
    decreases |os|
  {
    if os == [] then r else ObserveAllUpTo(intervals, ObserveUpTo(intervals, r, os[0], ends[0]), os[1..], ends[1..])
  }

  predicate NotifiesOf(r: Registry, o: Observation) {
    Notifies(Confirmed(FactOf(r, o.chat)), o.status)
  }

  /** The process ended in an observation that had something to notify. */
  predicate LosesNotice(intervals: Intervals, r: Registry, os: seq<Observation>, ends: seq<bool>)
    requires |os| == |ends|
    decreases |os|
  {
    os != []
    && ((ends[0] && NotifiesOf(r, os[0])) || LosesNotice(intervals, ObserveUpTo(intervals, r, os[0], ends[0]), os[1..], ends[1..]))
  }

  /** The facts do not depend on what was lost, and a gap in the outbox never closes. */
  lemma {:induction false} LostNoticesStayLost(intervals: Intervals, r: Registry, full: Registry, os: seq<Observation>, ends: seq<bool>)
    requires |os| == |ends| && r.facts == full.facts
    ensures var after, undisturbed := ObserveAllUpTo(intervals, r, os, ends), ObserveAll(intervals, full, os);
            && after.facts == undisturbed.facts
            && |undisturbed.outbox| - |after.outbox| >= |full.outbox| - |r.outbox|
    decreases |os|
  {
    if os != [] {
      LostNoticesStayLost(intervals, ObserveUpTo(intervals, r, os[0], ends[0]), Observe(intervals, full, os[0]), os[1..], ends[1..]);
    }
  }

  /**
   Exactly when a run queues the notices of an undisturbed one: when the process never ended in an
   observation that had something to notify, judged by the fact it found.
   */
  lemma {:induction false} NoticesSurviveExactly(intervals: Intervals, r: Registry, os: seq<Observation>, ends: seq<bool>)
    requires |os| == |ends|
    ensures ObserveAllUpTo(intervals, r, os, ends).outbox == ObserveAll(intervals, r, os).outbox
            <==> !LosesNotice(intervals, r, os, ends)
    decreases |os|
  {
    if os != [] {
      var next := ObserveUpTo(intervals, r, os[0], ends[0]);
      if ends[0] && NotifiesOf(r, os[0]) {
        LostNoticesStayLost(intervals, next, Observe(intervals, r, os[0]), os[1..], ends[1..]);
      } else {
        assert next == Observe(intervals, r, os[0]);
        NoticesSurviveExactly(intervals, next, os[1..], ends[1..]);
      }
    }
  }

  /** So the notices alternate from absent in every run that loses none, wherever its processes end. */
  lemma NoticesAlternateUnlessLost(intervals: Intervals, os: seq<Observation>, ends: seq<bool>, chat: string, i: nat)
    requires |os| == |ends| && !LosesNotice(intervals, EMPTY, os, ends)
    requires i < |NoticesFor(ObserveAllUpTo(intervals, EMPTY, os, ends).outbox, chat)|
    ensures NoticesFor(ObserveAllUpTo(intervals, EMPTY, os, ends).outbox, chat)[i]
            == Notice(chat, if i % 2 == 0 then Absent else Present, i / 2 + 1)
  {
    NoticesSurviveExactly(intervals, EMPTY, os, ends);
    NoticesAlternate(intervals, os, chat, i);
  }

  /** A run that loses its first notice: the chat's first notice is then its recovery. */
  lemma LostNoticeBreaksAlternation(intervals: Intervals, chat: string, at: int)
    ensures var os, ends := [Observation(chat, Absent, at), Observation(chat, Present, at)], [true, false];
            && LosesNotice(intervals, EMPTY, os, ends)
            && ObserveAllUpTo(intervals, EMPTY, os, ends).outbox == [Notice(chat, Present, 1)]
  {
    var first, second := Observation(chat, Absent, at), Observation(chat, Present, at);
    assert [first, second][1..] == [second] && [true, false][1..] == [false] && [second][1..] == [];
    var stored := ObserveUpTo(intervals, EMPTY, first, true);
    assert ObserveAllUpTo(intervals, EMPTY, [first, second], [true, false]) == ObserveAllUpTo(intervals, stored, [second], [false]);
    var last := ObserveUpTo(intervals, stored, second, false);
    assert ObserveAllUpTo(intervals, stored, [second], [false]) == ObserveAllUpTo(intervals, last, [], [false][1..]);
    assert last.outbox == [Notice(chat, Present, 1)];
  }

  // ---------------------------------------------------------------- the service

  datatype Probe = AuthFailed | Raised | CommandFailed | Bots(ids: set<string>)

  /** How `refresh` reads one probe; the bot's own id is missing when authentication gave none. */
  function ProbedStatus(botId: Option<string>, probe: Probe): Status {
    if botId.None? || !probe.Bots? then Unknown
    else if botId.value in probe.ids then Present
    else Absent
  }

  /** `_probe_due` */
  predicate ProbeDue(fact: Option<Fact>, now: int) {
    fact.None? || fact.value.nextProbeAt.None? || now >= fact.value.nextProbeAt.value
  }

  /** `effective_membership_status`: a stale observation counts as unknown; `None` stands for "unobserved". */
  function EffectiveStatus(fact: Option<Fact>, now: int): Option<Status> {
    if fact.None? then None else if ProbeDue(fact, now) then Some(Unknown) else Some(fact.value.status)
  }

  function DueChats(facts: map<string, Fact>, candidates: seq<string>, now: int): seq<string> {
    if candidates == [] then []
    else (if ProbeDue(if candidates[0] in facts then Some(facts[candidates[0]]) else None, now) then [candidates[0]] else [])
         + DueChats(facts, candidates[1..], now)
  }

  function Probed(botId: Option<string>, probe: string -> Probe, due: seq<string>, now: int): (os: seq<Observation>)
    ensures |os| == |due|
    ensures forall k :: 0 <= k < |due| ==> os[k] == Observation(due[k], ProbedStatus(botId, probe(due[k])), now)
  {
    if due == [] then [] else [Observation(due[0], ProbedStatus(botId, probe(due[0])), now)] + Probed(botId, probe, due[1..], now)
  }

  /** A fact written before the confirmed status was kept counts by its status: an absence is not told twice, its end is told. */
  lemma OlderFactCounts(intervals: Intervals, r: Registry, o: Observation)
    requires o.chat in r.facts && !Confirms(r.facts[o.chat].lastConfirmed) && r.facts[o.chat].status == Absent
    ensures var next, episode := Observe(intervals, r, o), r.facts[o.chat].episode;
            && next.outbox == (if o.status == Present then r.outbox + [Notice(o.chat, Present, episode)] else r.outbox)
            && next.facts[o.chat].episode == episode
            && next.facts[o.chat].lastConfirmed == Some(if o.status == Present then Present else Absent)
  {
  }

  // ---------------------------------------------------------------- what a probe means, and when it is made

  /** What an observation is read from: a listing that holds the bot, one that does not, or nothing reliable. */
  lemma ProbeMeans(botId: Option<string>, probe: Probe)
    ensures ProbedStatus(botId, probe) == Present <==> botId.Some? && probe.Bots? && botId.value in probe.ids
    ensures ProbedStatus(botId, probe) == Absent <==> botId.Some? && probe.Bots? && botId.value !in probe.ids
  {
  }

  /** How long an observation counts. */
  function Interval(intervals: Intervals, status: Status): nat {
    if status == Unknown then intervals.retry else intervals.ttl
  }

  /**
   The life of an observation. Until its interval has passed the chat is not probed again and its status
   counts; from then on the chat is due and its status counts as unknown. Other chats are not affected, and
   a chat never observed is due.
   */
  lemma ObservationExpiresExactly(intervals: Intervals, r: Registry, o: Observation, chat: string, now: int)
    ensures var fact := FactOf(Observe(intervals, r, o), chat);
            && (chat == o.chat ==>
                  && (ProbeDue(fact, now) <==> now >= o.at + Interval(intervals, o.status))
                  && EffectiveStatus(fact, now) == Some(if now < o.at + Interval(intervals, o.status) then o.status else Unknown))
            && (chat != o.chat ==> fact == FactOf(r, chat))
            && (chat != o.chat && chat !in r.facts ==> ProbeDue(fact, now) && EffectiveStatus(fact, now) == None)
  {
  }

  /** The candidate's chat is due by its own fact. */
  predicate IsDue(facts: map<string, Fact>, chat: string, now: int) {
    chat !in facts || facts[chat].nextProbeAt == None || facts[chat].nextProbeAt.value <= now
  }

  lemma {:induction false} DueChatsExactly(facts: map<string, Fact>, candidates: seq<string>, now: int, chat: string)
    ensures multiset(DueChats(facts, candidates, now))[chat] == if IsDue(facts, chat, now) then multiset(candidates)[chat] else 0
  {
    if candidates != [] {
      assert candidates == [candidates[0]] + candidates[1..];
      DueChatsExactly(facts, candidates[1..], now, chat);
    }
  }

  datatype Summary = Summary(candidates: nat, probed: nat, present: nat, absent: nat, unknown: nat, notifications: int)

  function Count(os: seq<Observation>, status: Status): nat {
    if os == [] then 0 else (if os[0].status == status then 1 else 0) + Count(os[1..], status)
  }

  lemma FirstOfSuffix(os: seq<Observation>, i: nat)
    requires i < |os|
    ensures os[i..][0] == os[i] && os[i..][1..] == os[i + 1..]
    ensures forall status :: Count(os[i..], status) == (if os[i].status == status then 1 else 0) + Count(os[i + 1..], status)
  {
    assert os[i..][1..] == os[i + 1..];
  }

  class BotMembershipService {
    const intervals: Intervals
    var facts: map<string, Fact>
    var outbox: seq<Notice>

    constructor (intervals: Intervals)
      ensures this.intervals == intervals && State() == EMPTY
    {
      this.intervals := intervals;
      facts, outbox := map[], [];
    }

    ghost function State(): Registry
      reads this
    {
      Registry(facts, outbox)
    }

    /** `_record_observation` */
    method RecordObservation(chat: string, status: Status, at: int) returns (notified: bool)
      modifies this
      ensures State() == Observe(intervals, old(State()), Observation(chat, status, at))
      ensures |outbox| == |old(outbox)| + if notified then 1 else 0
    {
      var previous := if chat in facts then Some(facts[chat]) else None;
      var confirmed := Confirmed(previous);
      var episode := EpisodeOf(previous);
      if status == Absent && confirmed != Some(Absent) {
        episode := episode + 1;
      }
      var interval := if status == Unknown then intervals.retry else intervals.ttl;
      facts := facts[chat := Fact(status, if status == Unknown then confirmed else Some(status), episode, Some(at + interval))];
      notified := (status == Absent && confirmed != Some(Absent)) || (status == Present && confirmed == Some(Absent));
      if notified {
        outbox := outbox + [Notice(chat, status, episode)];
      }
    }

    /** `refresh`: every due candidate is observed once; the rest keep their facts. */
    method Refresh(candidates: seq<string>, botId: Option<string>, probe: string -> Probe, now: int) returns (summary: Summary)
      modifies this
      ensures var os := Probed(botId, probe, DueChats(old(facts), candidates, now), now);
              && State() == ObserveAll(intervals, old(State()), os)
              && summary == Summary(|candidates|, |os|, Count(os, Present), Count(os, Absent), Count(os, Unknown),
                                    |outbox| - |old(outbox)|)
    {
      var due := DueChats(facts, candidates, now);
      ghost var os := Probed(botId, probe, due, now);
      summary := Summary(|candidates|, 0, 0, 0, 0, 0);
      while summary.probed < |due|
        invariant summary.candidates == |candidates| && 0 <= summary.probed <= |due|
        invariant ObserveAll(intervals, State(), os[summary.probed..]) == ObserveAll(intervals, old(State()), os)
        invariant summary.notifications == |outbox| - |old(outbox)|
        invariant summary.present + Count(os[summary.probed..], Present) == Count(os, Present)
        invariant summary.absent + Count(os[summary.probed..], Absent) == Count(os, Absent)
        invariant summary.unknown + Count(os[summary.probed..], Unknown) == Count(os, Unknown)
      {
        var chat := due[summary.probed];
        FirstOfSuffix(os, summary.probed);
        var status := ProbedStatus(botId, probe(chat));
        var notified := RecordObservation(chat, status, now);
        summary := Summary(
          summary.candidates,
          summary.probed + 1,
          summary.present + if status == Present then 1 else 0,
          summary.absent + if status == Absent then 1 else 0,
          summary.unknown + if status == Unknown then 1 else 0,
          summary.notifications + if notified then 1 else 0);
      }
      assert os[summary.probed..] == [];
    }
  }
}
