/**
 The dispatch protocol as a machine over atomic steps. Each step is one store transaction or one
 provider call, so any interleaving of daemon ticks, crashed runs, operator commands and stale
 recovery is a sequence of steps.
 */
module DispatchModel {
  import opened Base

  datatype ActionKind = SendReply | OwnerNotification

  datatype ExecutionMode = DryRunMode | Production

  datatype ActionStatus = Pending | Sending | Sent | Failed | FailedNeedsReview | Cancelled

  datatype AttemptStatus = Started | DryRunOk | SendOk | ReadbackOk | AttemptFailed | Uncertain

  datatype Attempt = Attempt(status: AttemptStatus, sentId: Option<string>, readbackOk: bool, finished: bool)

  // ---------------------------------------------------------------- what the provider reports

  datatype CommandResult = CommandResult(argv: seq<string>, exitCode: Option<int>, error: Option<string>, timedOut: bool,
                                         messageId: Option<string>)
  {
    predicate Ok() {
      exitCode == Some(0) && error.None? && !timedOut
    }
  }

  datatype Reply = Raises | Returns(result: CommandResult)

  predicate IsSpace(c: char) {
    c == ' ' || '\t' <= c <= '\r'
  }

  /** `_send_failure_proves_not_sent` */
  predicate ProvesNotSent(r: CommandResult) {
    || (|r.argv| > 0 && r.argv[0] == "dispatch")
    || (r.error.Some?
        && var error := Lower(StripLeft(StripRight(r.error.value, IsSpace), IsSpace));
           error == "send rejected" || "api rejected" <= error || "feishu api rejected" <= error)
  }

  // ---------------------------------------------------------------- one action and its workers

  /** How far a dispatch run has got with an action it claimed. */
  datatype Stage =
    | Claimed
    | RevisionChecked
    | DryRunPassed
    | ClearedToSend
    | Answered(reply: Reply)
    | SendRecorded(id: string)
    | Returning(status: ActionStatus, sentId: Option<string>)

  /**
   `workers` holds the live runs by attempt number. `calls` and `accepted` are the world's side: how
   often the real send was called, and how often the provider took the message.
   */
  datatype Action = Action(
    kind: ActionKind,
    mode: ExecutionMode,
    status: ActionStatus,
    attempts: seq<Attempt>,
    revisionBound: bool,
    revisionMatches: bool,
    workers: map<nat, Stage>,
    calls: nat,
    accepted: nat)

  function NewAction(kind: ActionKind, mode: ExecutionMode, bound: bool): Action {
    Action(kind, mode, Pending, [], bound, true, map[], 0, 0)
  }

  predicate RevisionIsCurrent(a: Action) {
    !a.revisionBound || a.revisionMatches
  }

  datatype Step =
    // a dispatch run
    | Claim
    | CheckRevision(w: nat)
    | DryRun(w: nat, ok: bool)
    | RecheckRevision(w: nat)
    | CallProvider(w: nat, accepts: bool, reply: Reply)
    | RecordSend(w: nat)
    | ReadBack(w: nat, ok: bool)
    | Finish(w: nat)
    | Crash(w: nat)
    // the store, on behalf of ingestion, recovery and the owner
    | RecoverStale
    | SourceRevised(matches: bool)
    | FenceRevision
    | Revive(mode: ExecutionMode, bound: bool, matches: bool)
    | CancelPending
    | TakeOver
    | OperatorCancel
    | OperatorRetry
    | MarkSent(sentId: string)

  predicate At(a: Action, w: nat, stage: Stage) {
    w in a.workers && a.workers[w] == stage
  }

  function Advance(a: Action, w: nat, stage: Stage): Action {
    a.(workers := a.workers[w := stage])
  }

  function Leave(a: Action, w: nat): Action {
    a.(workers := a.workers - {w})
  }

  /** `update_dispatch_attempt` writes by attempt id, whatever has become of the action since. */
  function UpdateAttempt(a: Action, w: nat, attempt: Attempt): Action {
    if w < |a.attempts| then a.(attempts := a.attempts[w := attempt]) else a
  }

  function AttemptOf(a: Action, w: nat): Attempt {
    if w < |a.attempts| then a.attempts[w] else Attempt(Started, None, false, false)
  }

  /** `claim_action_for_dispatch`: compare-and-set from pending to sending, with a new attempt row. */
  function ClaimAction(a: Action): Option<Action> {
    if a.status != Pending then None
    else Some(a.(status := Sending,
                 attempts := a.attempts + [Attempt(Started, None, false, false)],
                 workers := a.workers[|a.attempts| := Claimed]))
  }

  function StaleRevisionResult(a: Action, w: nat): Action {
    Advance(UpdateAttempt(a, w, AttemptOf(a, w).(status := AttemptFailed, finished := true)), w, Returning(Cancelled, None))
  }

  /** What an answer is worth: a proven non-send, a send with its message id, or neither. */
  datatype Verdict = NotSent | Doubtful | SentAs(id: string)

  function VerdictOf(reply: Reply): Verdict {
    match reply
    case Raises => Doubtful
    case Returns(r) =>
      if !r.Ok() then (if ProvesNotSent(r) then NotSent else Doubtful)
      else if r.messageId.None? then Doubtful
      else SentAs(r.messageId.value)
  }

  /** The attempt row and the action status that follow. */
  function RecordVerdict(a: Action, w: nat, verdict: Verdict): Action {
    match verdict
    case NotSent =>
      Advance(UpdateAttempt(a, w, AttemptOf(a, w).(status := AttemptFailed, finished := true)), w, Returning(Failed, None))
    case Doubtful =>
      Advance(UpdateAttempt(a, w, AttemptOf(a, w).(status := Uncertain, finished := true)), w, Returning(FailedNeedsReview, None))
    case SentAs(id) =>
      Advance(UpdateAttempt(a, w, AttemptOf(a, w).(status := SendOk, sentId := Some(id))), w, SendRecorded(id))
  }

  /** `finish_claimed_action` */
  function FinishClaimed(a: Action, w: nat, status: ActionStatus, sentId: Option<string>): Action {
    if w + 1 != |a.attempts| then a
    else if a.status == Sending then a.(status := status)
    else if status == Sent && a.status == FailedNeedsReview && a.attempts[w].sentId.Some? && a.attempts[w].sentId == sentId
    then a.(status := Sent)
    else a
  }

  predicate ProvesReadback(t: Attempt) {
    t.status == ReadbackOk && t.sentId.Some? && t.readbackOk
  }

  /** `mark_stale_sending_actions_failed_needs_review`, for an action old enough to count as stale. */
  function RecoverStaleSending(a: Action): Action {
    if a.status != Sending then a
    else if a.attempts == [] then a.(status := FailedNeedsReview, attempts := [Attempt(Uncertain, None, false, true)])
    else
      var w := |a.attempts| - 1;
      var latest := a.attempts[w];
      if ProvesReadback(latest) then UpdateAttempt(a.(status := Sent), w, latest.(finished := true))
      else if latest.finished then a.(status := FailedNeedsReview)
      else UpdateAttempt(a.(status := FailedNeedsReview), w, latest.(status := Uncertain, finished := true))
  }

  /** `invalidate_stale_revision_side_effects` */
  function FenceStaleRevision(a: Action): Action {
    if RevisionIsCurrent(a) then a
    else if a.status == Pending || a.status == Failed then a.(status := Cancelled)
    else if a.status == Sending then a.(status := FailedNeedsReview)
    else a
  }

  /** `mark_action_sent_after_evidence` */
  function MarkSentAfterEvidence(a: Action, sentId: string): Action {
    if a.status == Cancelled then a
    else if a.attempts == [] then a.(status := Sent, attempts := [Attempt(ReadbackOk, Some(sentId), true, true)])
    else UpdateAttempt(a.(status := Sent), |a.attempts| - 1, Attempt(ReadbackOk, Some(sentId), true, true))
  }

  /**
   A failed row is used again for a new action with the same text: it is bound to the source revision
   of the new payload, whatever the old one was. Only an owner notice can change its mode that way.
   */
  function ReviveFailed(a: Action, mode: ExecutionMode, bound: bool, matches: bool): Action {
    a.(status := Pending, mode := if a.kind == OwnerNotification then mode else a.mode,
       revisionBound := bound, revisionMatches := matches)
  }

  /** One atomic step; a step that is not enabled changes nothing. */
  function Apply(a: Action, step: Step): Action {
    match step
    case Claim => ClaimAction(a).GetOr(a)
    case CheckRevision(w) =>
      if !At(a, w, Claimed) then a
      else if RevisionIsCurrent(a) then Advance(a, w, RevisionChecked)
      else StaleRevisionResult(a, w)
    case DryRun(w, ok) =>
      if !At(a, w, RevisionChecked) then a
      else if ok then Advance(UpdateAttempt(a, w, AttemptOf(a, w).(status := DryRunOk)), w, DryRunPassed)
      else Advance(UpdateAttempt(a, w, AttemptOf(a, w).(status := AttemptFailed, finished := true)), w, Returning(Failed, None))
    case RecheckRevision(w) =>
      if !At(a, w, DryRunPassed) then a
      else if RevisionIsCurrent(a) then Advance(a, w, ClearedToSend)
      else StaleRevisionResult(a, w)
    case CallProvider(w, accepts, reply) =>
      if !At(a, w, ClearedToSend) then a
      else Advance(a, w, Answered(reply)).(calls := a.calls + 1, accepted := a.accepted + if accepts then 1 else 0)
    case RecordSend(w) =>
      if w in a.workers && a.workers[w].Answered? then RecordVerdict(a, w, VerdictOf(a.workers[w].reply)) else a
    case ReadBack(w, ok) =>
      if w in a.workers && a.workers[w].SendRecorded? then
        var sentId := a.workers[w].id;
        Advance(UpdateAttempt(a, w, Attempt(if ok then ReadbackOk else SendOk, Some(sentId), ok, true)),
                w, Returning(Sent, Some(sentId)))
      else a
    case Finish(w) =>
      if w in a.workers && a.workers[w].Returning?
      then Leave(FinishClaimed(a, w, a.workers[w].status, a.workers[w].sentId), w)
      else a
    case Crash(w) => Leave(a, w)
    case RecoverStale => RecoverStaleSending(a)
    case SourceRevised(matches) => a.(revisionMatches := matches)
    case FenceRevision => FenceStaleRevision(a)
    case Revive(mode, bound, matches) => if a.status == Failed then ReviveFailed(a, mode, bound, matches) else a
    case CancelPending => if a.status == Pending then a.(status := Cancelled) else a
    case TakeOver =>
      if a.kind == SendReply && (a.status == Pending || a.status == Sending) then a.(status := Cancelled) else a
    case OperatorCancel => if a.status != Sent then a.(status := Cancelled) else a
    case OperatorRetry =>
      if (a.status == Failed || a.status == FailedNeedsReview) && RevisionIsCurrent(a) then a.(status := Pending) else a
    case MarkSent(sentId) => MarkSentAfterEvidence(a, sentId)
  }

  function RunSteps(a: Action, steps: seq<Step>): Action
    decreases |steps|
  {
    if steps == [] then a else RunSteps(Apply(a, steps[0]), steps[1..])
  }

  // ---------------------------------------------------------------- all actions of the store

  datatype StoreStep = Create(kind: ActionKind, mode: ExecutionMode, bound: bool) | On(id: nat, step: Step)

  /** The actions table: ids are positions, in order of creation. */
  type Store = seq<Action>

  function ApplyToStore(store: Store, s: StoreStep): (after: Store)
    ensures |store| <= |after|
  {
    match s
    case Create(kind, mode, bound) => store + [NewAction(kind, mode, bound)]
    case On(id, step) => if id < |store| then store[id := Apply(store[id], step)] else store
  }

  function RunStore(store: Store, steps: seq<StoreStep>): (after: Store)
    ensures |store| <= |after|
    decreases |steps|
  {
    if steps == [] then store else RunStore(ApplyToStore(store, steps[0]), steps[1..])
  }

  predicate IsPending(store: Store, id: nat, kind: Option<ActionKind>)
    requires id < |store|
  {
    store[id].status == Pending && (kind.Some? ==> store[id].kind == kind.value)
  }

  /** Pending actions of one mode, oldest first. */
  function PendingIds(store: Store, mode: ExecutionMode, kind: Option<ActionKind>, from: nat): (ids: seq<nat>)
    ensures forall k :: 0 <= k < |ids| ==>
      from <= ids[k] < |store| && store[ids[k]].status == Pending && store[ids[k]].mode == mode
      && (kind.Some? ==> store[ids[k]].kind == kind.value)
    ensures forall k, l :: 0 <= k < l < |ids| ==> ids[k] < ids[l]
    ensures forall id :: from <= id < |store| && IsPending(store, id, kind) && store[id].mode == mode ==> id in ids
    decreases |store| - from
  {
    if from >= |store| then []
    else if store[from].status == Pending && store[from].mode == mode && (kind.None? || store[from].kind == kind.value)
    then [from] + PendingIds(store, mode, kind, from + 1)
    else PendingIds(store, mode, kind, from + 1)
  }

  /** `list_dispatchable_actions`: pending actions, production first, then by age, up to `limit`. */
  function ListDispatchable(store: Store, limit: nat, kind: Option<ActionKind>): (ids: seq<nat>)
    ensures |ids| <= limit
    ensures forall k :: 0 <= k < |ids| ==> ids[k] < |store| && store[ids[k]].status == Pending
  {
    var all := AllPending(store, kind);
    if |all| <= limit then all else all[..limit]
  }

  /** The dispatch order: production first, then by age. */
  predicate Precedes(store: Store, id: nat, other: nat)
    requires id < |store| && other < |store|
  {
    (store[id].mode == Production && store[other].mode == DryRunMode) || (store[id].mode == store[other].mode && id < other)
  }

  lemma CutMembers(all: seq<nat>, limit: nat, id: nat) returns (at: nat)
    requires id in all && (|all| <= limit || id !in all[..limit])
    ensures at < |all| && all[at] == id && (|all| > limit ==> limit <= at)
  {
    at :| 0 <= at < |all| && all[at] == id;
    if |all| > limit {
      assert forall k :: 0 <= k < limit ==> all[..limit][k] == all[k];
    }
  }

  /** All pending actions, in dispatch order. */
  function AllPending(store: Store, kind: Option<ActionKind>): (all: seq<nat>)
    ensures forall k :: 0 <= k < |all| ==> all[k] < |store| && IsPending(store, all[k], kind)
    ensures forall k, l :: 0 <= k < l < |all| ==> Precedes(store, all[k], all[l])
    ensures forall id :: 0 <= id < |store| && IsPending(store, id, kind) ==> id in all
  {
    PendingIds(store, Production, kind, 0) + PendingIds(store, DryRunMode, kind, 0)
  }

  /** The listing is in dispatch order, and leaves out a pending action only if it is full of earlier ones. */
  lemma ListingTakesTheFirst(store: Store, limit: nat, kind: Option<ActionKind>)
    ensures var ids := ListDispatchable(store, limit, kind);
            && (forall k :: 0 <= k < |ids| ==> IsPending(store, ids[k], kind))
            && (forall k, l :: 0 <= k < l < |ids| ==> Precedes(store, ids[k], ids[l]))
            && (forall id :: 0 <= id < |store| && IsPending(store, id, kind) && id !in ids ==>
                  |ids| == limit && forall k :: 0 <= k < |ids| ==> Precedes(store, ids[k], id))
  {
    var all, ids := AllPending(store, kind), ListDispatchable(store, limit, kind);
    assert forall k :: 0 <= k < |ids| ==> ids[k] == all[k];
    forall id | 0 <= id < |store| && IsPending(store, id, kind) && id !in ids
      ensures |ids| == limit && forall k :: 0 <= k < |ids| ==> Precedes(store, ids[k], id)
    {
      var at := CutMembers(all, limit, id);
      assert forall k :: 0 <= k < |ids| ==> Precedes(store, all[k], all[at]);
    }
  }
}
