/**
 Replays of one message id: the revision the store gives each snapshot, the audits that routing leaves
 behind, and the work it starts. A poll may stop after any store transaction.
 */
module RoutingReplay {
  import opened Base
  import opened RoutingModel

  // ---------------------------------------------------------------- revisions

  type SemanticHash = string

  datatype Snapshot = Snapshot(hash: SemanticHash, deleted: bool)

  /** `hash` is `None` for a migrated row that was never stamped. */
  datatype MessageRow = MessageRow(revision: nat, hash: Option<SemanticHash>, deleted: bool, history: set<SemanticHash>)

  datatype Upsert = Upsert(inserted: bool, changed: bool, revision: nat, isDeleted: bool, needsConfirmation: bool)

  function Unchanged(row: MessageRow): Upsert {
    Upsert(false, false, row.revision, row.deleted, false)
  }

  /** `_upsert_message_revision_locked` */
  function UpsertRow(existing: Option<MessageRow>, snap: Snapshot, confirmed: bool): (MessageRow, Upsert) {
    match existing
    case None => (MessageRow(1, Some(snap.hash), snap.deleted, {snap.hash}), Upsert(true, true, 1, snap.deleted, false))
    case Some(row) =>
      var history := if row.hash.Some? then row.history + {row.hash.value} else {};
      if row.deleted then (row, Unchanged(row))
      else if snap.hash in history && !confirmed then (row, Unchanged(row).(needsConfirmation := row.hash != Some(snap.hash)))
      else if row.hash == Some(snap.hash) && !snap.deleted then (row, Unchanged(row))
      else
        var stamped := row.hash.None? && !snap.deleted;
        var revision := if stamped then row.revision else row.revision + 1;
        (MessageRow(revision, Some(snap.hash), snap.deleted, history + {snap.hash}),
         Upsert(false, !stamped, revision, snap.deleted, false))
  }

  // ---------------------------------------------------------------- routing one revision

  datatype Audit = Audit(revision: nat, decision: Decision)

  /** Everything kept about one message id; `work` logs the revision of each create or attach by `route`. */
  datatype Ledger = Ledger(row: Option<MessageRow>, audits: seq<Audit>, work: seq<nat>)

  datatype RouteEnv = RouteEnv(
    message: Message,
    source: Source,
    lookups: Lookups,
    now: int,
    retryIncomplete: bool,
    stageFinal: bool,
    resourceBlocks: bool,
    taskStillExists: bool)

  predicate HasAudit(audits: seq<Audit>, revision: nat) {
    exists i :: 0 <= i < |audits| && audits[i].revision == revision
  }

  function LatestNonDuplicate(audits: seq<Audit>, revision: nat): Option<Decision> {
    if audits == [] then None
    else
      var last := audits[|audits| - 1];
      if last.revision == revision && last.decision.reason != DuplicateMessage then Some(last.decision)
      else LatestNonDuplicate(audits[..|audits| - 1], revision)
  }

  predicate StartsWork(d: Decision) {
    d.route == NewTask || d.route == AttachTask
  }

  predicate HasSession(d: Decision) {
    StartsWork(d) || d.route == ReopenTask
  }

  datatype StageKind = TaskSession | TaskRouter

  /** `_processing_stage_for_decision` */
  function StageFor(d: Decision): Option<StageKind> {
    if HasSession(d) then Some(TaskSession)
    else if d.route == Ambiguous && (d.reason == RouterPlaceholder || d.reason == ClosedRecallPlaceholder) then Some(TaskRouter)
    else None
  }

  /** Whether a duplicate call may hand back the audited route for unfinished processing. */
  predicate Reuses(d: Decision, env: RouteEnv) {
    && StageFor(d).Some? && !env.stageFinal
    && !(StageFor(d) == Some(TaskSession) && env.resourceBlocks)
    && (HasSession(d) ==> env.taskStillExists)
  }

  function Record(l: Ledger, revision: nat, d: Decision): Ledger {
    l.(audits := l.audits + [Audit(revision, d)])
  }

  /** `route`: a duplicate call changes nothing but the audit trail; a fresh one acts and audits atomically. */
  function RouteCall(config: RouterConfig, l: Ledger, revision: nat, inserted: bool, changed: bool, env: RouteEnv): (Ledger, Decision) {
    if !inserted && !changed && HasAudit(l.audits, revision) then
      var existing := LatestNonDuplicate(l.audits, revision);
      if env.retryIncomplete && existing.Some? && Reuses(existing.value, env) then (l, existing.value)
      else (Record(l, revision, Ignored(DuplicateMessage)), Ignored(DuplicateMessage))
    else
      var d := FreshRoute(config, env.message, env.source, changed, env.lookups, env.now);
      var after := Record(l, revision, d);
      (if StartsWork(d) then after.(work := l.work + [revision]) else after, d)
  }

  // ---------------------------------------------------------------- polling

  datatype Handling = StopsAfterUpsert | OwnerCommand | Ineligible | Routed(env: RouteEnv)

  datatype Event =
    | Poll(snapshot: Snapshot, current: Option<Snapshot>, handling: Handling)
    | OtherAudit(revision: nat, decision: Decision)

  /** `_process_raw_message` from the upsert on; `current` is what a confirming fetch returns. */
  function Step(config: RouterConfig, l: Ledger, event: Event): Ledger {
    match event
    case OtherAudit(revision, d) =>
      if l.row.Some? && revision <= l.row.value.revision then Record(l, revision, d) else l
    case Poll(snap, current, handling) =>
      var (row, upsert) := UpsertRow(l.row, snap, false);
      if !upsert.needsConfirmation then Handle(config, l.(row := Some(row)), upsert, handling)
      else if current.None? then l.(row := Some(row))
      else
        var (confirmedRow, confirmed) := UpsertRow(Some(row), current.value, true);
        Handle(config, l.(row := Some(confirmedRow)), confirmed, handling)
  }

  function Handle(config: RouterConfig, l: Ledger, upsert: Upsert, handling: Handling): Ledger {
    if handling.StopsAfterUpsert? then l
    else if upsert.isDeleted then (if upsert.changed then Record(l, upsert.revision, Ignored(Tombstone)) else l)
    else
      match handling
      case StopsAfterUpsert => l
      case OwnerCommand => l
      case Ineligible => Record(l, upsert.revision, Ignored(NotEligible))
      case Routed(env) => RouteCall(config, l, upsert.revision, upsert.inserted, upsert.changed, env).0
  }

  function RunEvents(config: RouterConfig, l: Ledger, events: seq<Event>): Ledger
    decreases |events|
  {
    if events == [] then l else RunEvents(config, Step(config, l, events[0]), events[1..])
  }

  const UNSEEN: Ledger := Ledger(None, [], [])

  // ---------------------------------------------------------------- replays start no second piece of work

  ghost predicate WorkIsAudited(l: Ledger) {
    && (forall r {:trigger multiset(l.work)[r]} :: multiset(l.work)[r] <= 1)
    && (forall r :: r in l.work ==> HasAudit(l.audits, r))
  }

  /** Nothing is recorded for a revision the row has not reached. */
  ghost predicate UpTo(l: Ledger, revision: nat) {
    forall i :: 0 <= i < |l.audits| ==> l.audits[i].revision <= revision
  }

  ghost predicate ReplaySafe(l: Ledger) {
    && WorkIsAudited(l)
    && (if l.row.None? then l.audits == [] else UpTo(l, l.row.value.revision))
  }

  /** What a store can promise about an upsert: its flags are raised only for a revision nobody has seen. */
  lemma FlaggedRevisionIsNew(existing: Option<MessageRow>, snap: Snapshot, confirmed: bool)
    ensures var (row, u) := UpsertRow(existing, snap, confirmed);
            && u.revision == row.revision
            && (u.inserted || u.changed ==> existing.None? || existing.value.revision < u.revision)
            && (existing.Some? ==> existing.value.revision <= row.revision)
            && (existing.Some? && existing.value.deleted ==> row == existing.value && !u.changed)
  {
  }

  lemma RecordKeepsAudits(l: Ledger, revision: nat, d: Decision)
    requires WorkIsAudited(l)
    ensures WorkIsAudited(Record(l, revision, d)) && HasAudit(Record(l, revision, d).audits, revision)
  {
    var after := Record(l, revision, d);
    assert after.audits[|l.audits|].revision == revision;
    forall r | HasAudit(l.audits, r) ensures HasAudit(after.audits, r) {
      var i :| 0 <= i < |l.audits| && l.audits[i].revision == r;
      assert after.audits[i] == l.audits[i];
    }
  }

  lemma RouteCallKeepsAudits(config: RouterConfig, l: Ledger, revision: nat, inserted: bool, changed: bool, env: RouteEnv)
    requires WorkIsAudited(l) && (inserted || changed ==> !HasAudit(l.audits, revision))
    ensures WorkIsAudited(RouteCall(config, l, revision, inserted, changed, env).0)
  {
    var (after, d) := RouteCall(config, l, revision, inserted, changed, env);
    RecordKeepsAudits(l, revision, d);
    if after.work != l.work {
      assert revision !in l.work;
      assert multiset(after.work) == multiset(l.work) + multiset{revision};
    }
  }

  lemma RouteCallKeepsUpTo(config: RouterConfig, l: Ledger, revision: nat, inserted: bool, changed: bool, env: RouteEnv)
    requires UpTo(l, revision)
    ensures UpTo(RouteCall(config, l, revision, inserted, changed, env).0, revision)
    ensures RouteCall(config, l, revision, inserted, changed, env).0.row == l.row
  {
  }

  lemma RoutedKeepsReplaySafe(config: RouterConfig, l: Ledger, upsert: Upsert, env: RouteEnv)
    requires WorkIsAudited(l) && l.row.Some? && l.row.value.revision == upsert.revision && UpTo(l, upsert.revision)
    requires upsert.inserted || upsert.changed ==> !HasAudit(l.audits, upsert.revision)
    ensures ReplaySafe(RouteCall(config, l, upsert.revision, upsert.inserted, upsert.changed, env).0)
  {
    RouteCallKeepsAudits(config, l, upsert.revision, upsert.inserted, upsert.changed, env);
    RouteCallKeepsUpTo(config, l, upsert.revision, upsert.inserted, upsert.changed, env);
  }

  lemma HandleKeepsReplaySafe(config: RouterConfig, l: Ledger, upsert: Upsert, handling: Handling)
    requires WorkIsAudited(l) && l.row.Some? && l.row.value.revision == upsert.revision && UpTo(l, upsert.revision)
    requires upsert.inserted || upsert.changed ==> !HasAudit(l.audits, upsert.revision)
    ensures ReplaySafe(Handle(config, l, upsert, handling))
  {
    if handling.StopsAfterUpsert? {
    } else if upsert.isDeleted {
      RecordKeepsAudits(l, upsert.revision, Ignored(Tombstone));
    } else if handling.Ineligible? {
      RecordKeepsAudits(l, upsert.revision, Ignored(NotEligible));
    } else if handling.Routed? {
      RoutedKeepsReplaySafe(config, l, upsert, handling.env);
    }
  }

  lemma StepKeepsReplaySafe(config: RouterConfig, l: Ledger, event: Event)
    requires ReplaySafe(l)
    ensures ReplaySafe(Step(config, l, event))
  {
    match event
    case OtherAudit(revision, d) =>
      RecordKeepsAudits(l, revision, d);
    case Poll(snap, current, handling) =>
      FlaggedRevisionIsNew(l.row, snap, false);
      var (row, upsert) := UpsertRow(l.row, snap, false);
      if !upsert.needsConfirmation {
        HandleKeepsReplaySafe(config, l.(row := Some(row)), upsert, handling);
      } else if current.Some? {
        FlaggedRevisionIsNew(Some(row), current.value, true);
        var (confirmedRow, confirmed) := UpsertRow(Some(row), current.value, true);
        HandleKeepsReplaySafe(config, l.(row := Some(confirmedRow)), confirmed, handling);
      }
  }

  /**
   Over every sequence of polls of a message — overlapping windows, stale snapshots, edits, tombstones,
   runs that stop between the upsert and the route — `route` creates a task or attaches the message at
   most once per revision.
   */
  lemma {:induction false} ReplaysStartNoSecondWork(config: RouterConfig, l: Ledger, events: seq<Event>, revision: nat)
    requires ReplaySafe(l)
    ensures multiset(RunEvents(config, l, events).work)[revision] <= 1
    decreases |events|
  {
    if events != [] {
      StepKeepsReplaySafe(config, l, events[0]);
      ReplaysStartNoSecondWork(config, Step(config, l, events[0]), events[1..], revision);
    }
  }

  /** A tombstone ends the message: no later poll changes its row, and none starts work for it. */
  lemma {:induction false} TombstoneIsTerminal(config: RouterConfig, l: Ledger, events: seq<Event>)
    requires l.row.Some? && l.row.value.deleted
    ensures RunEvents(config, l, events).row == l.row && RunEvents(config, l, events).work == l.work
    decreases |events|
  {
    if events != [] {
      TombstoneIsTerminal(config, Step(config, l, events[0]), events[1..]);
    }
  }

  /** What an unfinished message is resumed with: the newest audit of its revision that is no duplicate. */
  ghost predicate IsNewest(audits: seq<Audit>, revision: nat, i: nat) {
    && i < |audits| && audits[i].revision == revision && audits[i].decision.reason != DuplicateMessage
    && forall j :: i < j < |audits| && audits[j].revision == revision ==> audits[j].decision.reason == DuplicateMessage
  }

  lemma {:induction false} LatestIsTheNewest(audits: seq<Audit>, revision: nat)
    ensures match LatestNonDuplicate(audits, revision)
            case Some(d) => exists i: nat :: IsNewest(audits, revision, i) && audits[i].decision == d
            case None => forall i :: 0 <= i < |audits| && audits[i].revision == revision ==> audits[i].decision.reason == DuplicateMessage
  {
    if audits != [] {
      var last := |audits| - 1;
      var earlier := audits[..last];
      LatestIsTheNewest(earlier, revision);
      if audits[last].revision == revision && audits[last].decision.reason != DuplicateMessage {
        assert IsNewest(audits, revision, last);
      } else if LatestNonDuplicate(earlier, revision).Some? {
        var i: nat :| IsNewest(earlier, revision, i) && earlier[i].decision == LatestNonDuplicate(earlier, revision).value;
        assert audits[i] == earlier[i] && forall j :: 0 <= j < last ==> audits[j] == earlier[j];
        assert IsNewest(audits, revision, i);
      } else {
        assert forall j :: 0 <= j < last ==> audits[j] == earlier[j];
      }
    }
  }

  /**
   A duplicate call starts nothing. It answers with the newest audited route of its revision if that
   route's processing is still open and may be retried, and as a duplicate otherwise.
   */
  lemma DuplicateCallResumesOrIgnores(config: RouterConfig, l: Ledger, revision: nat, env: RouteEnv)
    requires HasAudit(l.audits, revision)
    ensures var (after, d) := RouteCall(config, l, revision, false, false, env);
            && after.work == l.work && after.row == l.row
            && (d == Ignored(DuplicateMessage)
                || (env.retryIncomplete && Reuses(d, env) && after == l
                    && exists i: nat :: IsNewest(l.audits, revision, i) && l.audits[i].decision == d))
  {
    LatestIsTheNewest(l.audits, revision);
  }

  // ---------------------------------------------------------------- what `route` needs of its caller

  /** What the caller reports to `route`: `inserted` and `revision_changed`. */
  datatype Report = Report(inserted: bool, changed: bool)
  {
    predicate Any() { inserted || changed }
  }

  datatype Call = Call(report: Report, env: RouteEnv)

  function CallRoute(config: RouterConfig, l: Ledger, revision: nat, call: Call): Ledger {
    RouteCall(config, l, revision, call.report.inserted, call.report.changed, call.env).0
  }

  /** A sequence of `route` calls for one revision. */
  function RunCalls(config: RouterConfig, l: Ledger, revision: nat, calls: seq<Call>): Ledger
    decreases |calls|
  {
    if calls == [] then l else RunCalls(config, CallRoute(config, l, revision, calls[0]), revision, calls[1..])
  }

  ghost predicate ReportedLike(calls: seq<Call>, reports: seq<Report>) {
    |calls| == |reports| && forall i :: 0 <= i < |calls| ==> calls[i].report == reports[i]
  }

  /** From every ledger that knows nothing of the revision. */
  ghost predicate WorksOnce(config: RouterConfig, revision: nat, reports: seq<Report>) {
    forall l: Ledger, calls: seq<Call> :: !HasAudit(l.audits, revision) && ReportedLike(calls, reports)
                       ==> |RunCalls(config, l, revision, calls).work| <= |l.work| + 1
  }

  lemma {:induction false} UnreportedCallsStartNothing(config: RouterConfig, l: Ledger, revision: nat, calls: seq<Call>)
    requires HasAudit(l.audits, revision) && forall i :: 0 <= i < |calls| ==> !calls[i].report.Any()
    ensures RunCalls(config, l, revision, calls).work == l.work
    decreases |calls|
  {
    if calls != [] {
      var next := CallRoute(config, l, revision, calls[0]);
      var i :| 0 <= i < |l.audits| && l.audits[i].revision == revision;
      assert next.audits[i] == l.audits[i];
      UnreportedCallsStartNothing(config, next, revision, calls[1..]);
    }
  }

  /** A message for which every fresh call creates a task. */
  function AlwaysNew(): RouteEnv {
    RouteEnv(Message("oc_1", "", "", "", None, false, false, false, false), PeerToPeer,
             Lookups([], [], [], [], [], [], [], None, id => None, 0), 0, false, false, false, false)
  }

  lemma FreshCallCreates(config: RouterConfig, l: Ledger, revision: nat, report: Report)
    requires report.Any() || !HasAudit(l.audits, revision)
    ensures CallRoute(config, l, revision, Call(report, AlwaysNew())).work == l.work + [revision]
  {
    var env := AlwaysNew();
    assert Collect(env.message, env.lookups) == [];
    assert DeterministicMatch(env.message, []).None?;
  }

  lemma {:induction false} ReportedCallsStartWork(config: RouterConfig, l: Ledger, revision: nat, reports: seq<Report>, calls: seq<Call>)
    requires ReportedLike(calls, reports) && forall i :: 0 <= i < |calls| ==> calls[i].env == AlwaysNew()
    ensures |RunCalls(config, l, revision, calls).work| >= |l.work|
    ensures (exists i :: 0 <= i < |reports| && reports[i].Any()) ==> |RunCalls(config, l, revision, calls).work| > |l.work|
    decreases |calls|
  {
    if calls != [] {
      var next := CallRoute(config, l, revision, calls[0]);
      if reports[0].Any() {
        FreshCallCreates(config, l, revision, reports[0]);
      }
      assert forall i :: 0 < i < |reports| ==> reports[1..][i - 1] == reports[i];
      ReportedCallsStartWork(config, next, revision, reports[1..], calls[1..]);
    }
  }

  lemma OneReportStartsOneWork(config: RouterConfig, l: Ledger, revision: nat, calls: seq<Call>)
    requires !HasAudit(l.audits, revision) && forall i :: 0 < i < |calls| ==> !calls[i].report.Any()
    ensures |RunCalls(config, l, revision, calls).work| <= |l.work| + 1
  {
    if calls != [] {
      var next := CallRoute(config, l, revision, calls[0]);
      assert next.audits[|l.audits|].revision == revision;
      UnreportedCallsStartNothing(config, next, revision, calls[1..]);
    }
  }

  lemma LateReportStartsMore(config: RouterConfig, revision: nat, reports: seq<Report>, late: nat) returns (calls: seq<Call>)
    requires 0 < late < |reports| && reports[late].Any()
    ensures ReportedLike(calls, reports) && |RunCalls(config, UNSEEN, revision, calls).work| > 1
  {
    calls := seq(|reports|, i requires 0 <= i < |reports| => Call(reports[i], AlwaysNew()));
    var next := CallRoute(config, UNSEEN, revision, calls[0]);
    FreshCallCreates(config, UNSEEN, revision, reports[0]);
    assert reports[1..][late - 1].Any();
    ReportedCallsStartWork(config, next, revision, reports[1..], calls[1..]);
  }

  /**
   `route` alone starts work at most once for a revision exactly when no call after the first is told
   that the message was inserted or that its revision changed: reporting either once, but late, is not
   enough. The upsert reports a revision before any call about it can have been audited, which is what
   `FlaggedRevisionIsNew` says.
   */
  lemma RouteWorksOnceExactly(config: RouterConfig, revision: nat, reports: seq<Report>)
    ensures WorksOnce(config, revision, reports) <==> forall i :: 0 < i < |reports| ==> !reports[i].Any()
  {
    if forall i :: 0 < i < |reports| ==> !reports[i].Any() {
      forall l: Ledger, calls: seq<Call> | !HasAudit(l.audits, revision) && ReportedLike(calls, reports)
        ensures |RunCalls(config, l, revision, calls).work| <= |l.work| + 1
      {
        OneReportStartsOneWork(config, l, revision, calls);
      }
    } else {
      var late :| 0 < late < |reports| && reports[late].Any();
      var calls := LateReportStartsMore(config, revision, reports, late);
      assert !HasAudit(UNSEEN.audits, revision);
    }
  }
}
