/**
 Safety of dispatch over every interleaving: how often the provider can take a message, and what a
 final status says about it.
 */
module DispatchSafety {
  import opened Base
  import opened DispatchModel

  /** What is assumed of the provider: success means taken, a rejection or local error means not. */
  predicate HonestReply(accepts: bool, reply: Reply) {
    reply.Returns? ==>
      && (reply.result.Ok() ==> accepts)
      && (!reply.result.Ok() && ProvesNotSent(reply.result) ==> !accepts)
  }

  /** The statuses in which it is certain that the provider holds no message of this action. */
  predicate ProvenUnsent(status: ActionStatus) {
    status == Pending || status == Failed || status == Cancelled
  }

  /**
   The steps the guarantee is about: an honest provider, evidence that exists, no operator retry of
   an uncertain send, and no cancellation of an action that is sending or uncertain.
   */
  predicate Disciplined(a: Action, step: Step) {
    match step
    case CallProvider(w, accepts, reply) => HonestReply(accepts, reply)
    case MarkSent(_) => a.accepted > 0
    case OperatorRetry => a.status != FailedNeedsReview
    case TakeOver => a.status != Sending
    case OperatorCancel => a.status != Sending && a.status != FailedNeedsReview
    case _ => true
  }

  predicate DisciplinedRun(a: Action, steps: seq<Step>)
    decreases |steps|
  {
    steps == [] || (Disciplined(a, steps[0]) && DisciplinedRun(Apply(a, steps[0]), steps[1..]))
  }

  /** What a live run knows about the provider at each stage. */
  predicate StageSound(a: Action, stage: Stage) {
    match stage
    case Claimed => a.accepted == 0 && a.calls < |a.attempts|
    case RevisionChecked => a.accepted == 0 && a.calls < |a.attempts|
    case DryRunPassed => a.accepted == 0 && a.calls < |a.attempts|
    case ClearedToSend => a.accepted == 0 && a.calls < |a.attempts|
    case Answered(reply) => HonestReply(a.accepted == 1, reply)
    case SendRecorded(_) => a.accepted == 1
    case Returning(status, sentId) =>
      && status != Pending && status != Sending
      && (ProvenUnsent(status) ==> a.accepted == 0)
      && (status == Sent ==> a.accepted == 1 && sentId.Some?)
  }

  predicate AttemptSound(a: Action, t: Attempt) {
    t.sentId.Some? ==> a.accepted == 1
  }

  /** The invariant of every reachable action. */
  predicate Sound(a: Action) {
    && a.accepted <= 1
    && a.calls <= |a.attempts|
    && (ProvenUnsent(a.status) ==> a.accepted == 0 && a.workers == map[])
    && (a.status == Sent ==> a.accepted == 1)
    && (a.status == Sending ==> a.attempts != [])
    && (forall w :: w in a.workers ==> w + 1 == |a.attempts| && StageSound(a, a.workers[w]))
    && (a.attempts != [] ==> AttemptSound(a, a.attempts[|a.attempts| - 1]))
  }

  lemma ClaimKeepsSound(a: Action)
    requires Sound(a)
    ensures Sound(Apply(a, Claim))
  {
  }

  /** Steps of a live run up to the provider's answer. */
  lemma RunBeforeAnswerKeepsSound(a: Action, step: Step, w: nat)
    requires Sound(a) && Disciplined(a, step)
    requires step == CheckRevision(w) || step == RecheckRevision(w) || step == DryRun(w, true) || step == DryRun(w, false)
             || (step.CallProvider? && step.w == w)
    ensures Sound(Apply(a, step))
  {
    if w in a.workers {
      assert w + 1 == |a.attempts| && StageSound(a, a.workers[w]);
    }
  }

  /** An honest provider's answer is worth what it says. */
  lemma VerdictIsTrue(accepts: bool, reply: Reply)
    requires HonestReply(accepts, reply)
    ensures VerdictOf(reply) == NotSent ==> !accepts
    ensures VerdictOf(reply).SentAs? ==> accepts
  {
  }

  lemma RecordVerdictKeepsSound(a: Action, w: nat, verdict: Verdict)
    requires Sound(a) && w in a.workers && a.workers[w].Answered?
    requires (verdict == NotSent ==> a.accepted == 0) && (verdict.SentAs? ==> a.accepted == 1)
    ensures Sound(RecordVerdict(a, w, verdict))
  {
    assert w + 1 == |a.attempts|;
  }

  lemma RecordSendKeepsSound(a: Action, w: nat)
    requires Sound(a)
    ensures Sound(Apply(a, RecordSend(w)))
  {
    if w in a.workers && a.workers[w].Answered? {
      var reply := a.workers[w].reply;
      assert StageSound(a, Answered(reply));
      VerdictIsTrue(a.accepted == 1, reply);
      RecordVerdictKeepsSound(a, w, VerdictOf(reply));
    }
  }

  lemma ReadBackKeepsSound(a: Action, w: nat, ok: bool)
    requires Sound(a)
    ensures Sound(Apply(a, ReadBack(w, ok)))
  {
    if w in a.workers {
      assert w + 1 == |a.attempts| && StageSound(a, a.workers[w]);
    }
  }

  lemma FinishKeepsSound(a: Action, w: nat)
    requires Sound(a)
    ensures Sound(Apply(a, Finish(w)))
  {
    if w in a.workers {
      assert w + 1 == |a.attempts| && StageSound(a, a.workers[w]);
    }
  }

  lemma CrashKeepsSound(a: Action, w: nat)
    requires Sound(a)
    ensures Sound(Apply(a, Crash(w)))
  {
  }

  lemma RecoverKeepsSound(a: Action)
    requires Sound(a)
    ensures Sound(Apply(a, RecoverStale))
  {
  }

  lemma MarkSentKeepsSound(a: Action, sentId: string)
    requires Sound(a) && a.accepted > 0
    ensures Sound(Apply(a, MarkSent(sentId)))
  {
  }

  lemma StepKeepsSound(a: Action, step: Step)
    requires Sound(a) && Disciplined(a, step)
    ensures Sound(Apply(a, step))
  {
    match step
    case Claim => ClaimKeepsSound(a);
    case CheckRevision(w) => RunBeforeAnswerKeepsSound(a, step, w);
    case DryRun(w, ok) => RunBeforeAnswerKeepsSound(a, step, w);
    case RecheckRevision(w) => RunBeforeAnswerKeepsSound(a, step, w);
    case CallProvider(w, accepts, reply) => RunBeforeAnswerKeepsSound(a, step, w);
    case RecordSend(w) => RecordSendKeepsSound(a, w);
    case ReadBack(w, ok) => ReadBackKeepsSound(a, w, ok);
    case Finish(w) => FinishKeepsSound(a, w);
    case Crash(w) => CrashKeepsSound(a, w);
    case RecoverStale => RecoverKeepsSound(a);
    case MarkSent(sentId) => MarkSentKeepsSound(a, sentId);
    case _ =>
  }

  lemma {:induction false} RunIsSound(a: Action, steps: seq<Step>)
    requires Sound(a) && DisciplinedRun(a, steps)
    ensures Sound(RunSteps(a, steps))
    decreases |steps|
  {
    if steps != [] {
      StepKeepsSound(a, steps[0]);
      RunIsSound(Apply(a, steps[0]), steps[1..]);
    }
  }

  ghost predicate Reachable(a: Action) {
    exists kind, mode, bound, steps ::
      DisciplinedRun(NewAction(kind, mode, bound), steps) && a == RunSteps(NewAction(kind, mode, bound), steps)
  }

  lemma ReachableIsSound(a: Action)
    requires Reachable(a)
    ensures Sound(a)
  {
    var kind, mode, bound, steps :|
      DisciplinedRun(NewAction(kind, mode, bound), steps) && a == RunSteps(NewAction(kind, mode, bound), steps);
    RunIsSound(NewAction(kind, mode, bound), steps);
  }

  /**
   What a status says about the message, over every interleaving of runs, crashes, recoveries and
   disciplined owner commands.
   */
  lemma FinalStatusIsTruthful(kind: ActionKind, mode: ExecutionMode, bound: bool, steps: seq<Step>)
    requires DisciplinedRun(NewAction(kind, mode, bound), steps)
    ensures var a := RunSteps(NewAction(kind, mode, bound), steps);
            && (a.status == Failed || a.status == Cancelled || a.status == Pending ==> a.accepted == 0)
            && (a.status == Sent ==> a.accepted == 1)
            && (a.accepted == 1 ==> a.status == Sending || a.status == Sent || a.status == FailedNeedsReview)
  {
    RunIsSound(NewAction(kind, mode, bound), steps);
  }

  lemma NewActionIsSound(kind: ActionKind, mode: ExecutionMode, bound: bool)
    ensures Sound(NewAction(kind, mode, bound))
  {
  }

  // ---------------------------------------------------------------- the real send runs once

  /** A step that puts this action back to pending. */
  predicate Reopens(a: Action, step: Step) {
    (step.Revive? || step.OperatorRetry?) && a.status != Pending && Apply(a, step).status == Pending
  }

  predicate BeforeCall(stage: Stage) {
    stage.Claimed? || stage.RevisionChecked? || stage.DryRunPassed? || stage.ClearedToSend?
  }

  /** Its real send was never called, and no live run can still call it. */
  predicate Untried(a: Action) {
    a.calls == 0 && forall w :: w in a.workers ==> !BeforeCall(a.workers[w])
  }

  /** A step that reopens no action whose send was called or may still be. */
  predicate ReopensUntried(a: Action, step: Step) {
    Reopens(a, step) ==> Untried(a)
  }

  predicate ReopensOnlyUntried(a: Action, steps: seq<Step>)
    decreases |steps|
  {
    steps == [] || (ReopensUntried(a, steps[0]) && ReopensOnlyUntried(Apply(a, steps[0]), steps[1..]))
  }

  /** Only the newest run can still call the send, and only if none has; an action that may be claimed is untried. */
  predicate SentOnce(a: Action) {
    && a.calls <= 1
    && (a.status == Pending ==> Untried(a))
    && (a.status == Failed ==> forall w :: w in a.workers ==> !BeforeCall(a.workers[w]))
    && (a.status == Sending ==> a.attempts != [])
    && (forall w :: w in a.workers ==> w < |a.attempts| && StageSentOnce(a, w, a.workers[w]))
  }

  predicate StageSentOnce(a: Action, w: nat, stage: Stage) {
    && (BeforeCall(stage) ==> a.calls == 0 && w + 1 == |a.attempts|)
    && (stage.Returning? ==> stage.status != Pending && stage.status != Sending)
  }

  lemma RunStepSendsOnce(a: Action, step: Step, w: nat)
    requires SentOnce(a)
    requires step == CheckRevision(w) || step == RecheckRevision(w) || step == DryRun(w, true) || step == DryRun(w, false)
    ensures SentOnce(Apply(a, step))
  {
    if w in a.workers {
      assert StageSentOnce(a, w, a.workers[w]);
    }
  }

  lemma RunEndSendsOnce(a: Action, step: Step, w: nat)
    requires SentOnce(a)
    requires step == ReadBack(w, true) || step == ReadBack(w, false) || step == Finish(w) || step == Crash(w)
    ensures SentOnce(Apply(a, step))
  {
    if w in a.workers {
      assert StageSentOnce(a, w, a.workers[w]);
    }
  }

  lemma CallSendsOnce(a: Action, step: Step)
    requires SentOnce(a) && step.CallProvider?
    ensures SentOnce(Apply(a, step))
  {
    if step.w in a.workers {
      assert StageSentOnce(a, step.w, a.workers[step.w]);
    }
  }

  lemma VerdictSendsOnce(a: Action, w: nat, verdict: Verdict)
    requires SentOnce(a) && w in a.workers && a.workers[w].Answered?
    ensures SentOnce(RecordVerdict(a, w, verdict))
  {
    assert w < |a.attempts|;
  }

  lemma RecordSendsOnce(a: Action, w: nat)
    requires SentOnce(a)
    ensures SentOnce(Apply(a, RecordSend(w)))
  {
    if w in a.workers && a.workers[w].Answered? {
      VerdictSendsOnce(a, w, VerdictOf(a.workers[w].reply));
    }
  }

  lemma ReopeningKeepsSentOnce(a: Action, step: Step)
    requires SentOnce(a) && ReopensUntried(a, step) && (step.Revive? || step.OperatorRetry?)
    ensures SentOnce(Apply(a, step))
  {
  }

  lemma RecoverySendsOnce(a: Action, step: Step)
    requires SentOnce(a) && (step.Claim? || step.RecoverStale? || step.FenceRevision? || step.MarkSent?)
    ensures SentOnce(Apply(a, step))
  {
  }

  lemma StepSendsOnce(a: Action, step: Step)
    requires SentOnce(a) && ReopensUntried(a, step)
    ensures SentOnce(Apply(a, step))
  {
    match step
    case CheckRevision(w) => RunStepSendsOnce(a, step, w);
    case DryRun(w, ok) => RunStepSendsOnce(a, step, w);
    case RecheckRevision(w) => RunStepSendsOnce(a, step, w);
    case CallProvider(_, _, _) => CallSendsOnce(a, step);
    case RecordSend(w) => RecordSendsOnce(a, w);
    case ReadBack(w, ok) => RunEndSendsOnce(a, step, w);
    case Finish(w) => RunEndSendsOnce(a, step, w);
    case Crash(w) => RunEndSendsOnce(a, step, w);
    case Revive(_, _, _) => ReopeningKeepsSentOnce(a, step);
    case OperatorRetry => ReopeningKeepsSentOnce(a, step);
    case Claim => RecoverySendsOnce(a, step);
    case RecoverStale => RecoverySendsOnce(a, step);
    case FenceRevision => RecoverySendsOnce(a, step);
    case MarkSent(_) => RecoverySendsOnce(a, step);
    case _ =>
  }

  lemma {:induction false} RunSendsOnce(a: Action, steps: seq<Step>)
    requires SentOnce(a) && ReopensOnlyUntried(a, steps)
    ensures SentOnce(RunSteps(a, steps))
    decreases |steps|
  {
    if steps != [] {
      StepSendsOnce(a, steps[0]);
      RunSendsOnce(Apply(a, steps[0]), steps[1..]);
    }
  }

  /**
   The real send runs at most once, whatever the provider answers and whatever is cancelled meanwhile,
   as long as no action is reopened whose send was called or may still be.
   */
  lemma RealSendRunsAtMostOnce(kind: ActionKind, mode: ExecutionMode, bound: bool, steps: seq<Step>)
    requires ReopensOnlyUntried(NewAction(kind, mode, bound), steps)
    ensures RunSteps(NewAction(kind, mode, bound), steps).calls <= 1
  {
    RunSendsOnce(NewAction(kind, mode, bound), steps);
  }

  // ---------------------------------------------------------------- at most one delivery

  /** All that the bound asks for: an honest provider, and no operator retry of an uncertain send. */
  predicate Careful(a: Action, step: Step) {
    match step
    case CallProvider(w, accepts, reply) => HonestReply(accepts, reply)
    case OperatorRetry => a.status != FailedNeedsReview
    case _ => true
  }

  predicate CarefulRun(a: Action, steps: seq<Step>)
    decreases |steps|
  {
    steps == [] || (Careful(a, steps[0]) && CarefulRun(Apply(a, steps[0]), steps[1..]))
  }

  predicate StageSingle(a: Action, stage: Stage) {
    match stage
    case Answered(reply) => HonestReply(a.accepted == 1, reply)
    case SendRecorded(_) => true
    case Returning(status, _) => status != Pending && status != Sending && (status == Failed ==> a.accepted == 0)
    case _ => a.accepted == 0
  }

  /** A message can only be on its way once: an action that may be claimed holds no run and no message. */
  predicate Single(a: Action) {
    && a.accepted <= 1
    && (a.status == Pending || a.status == Failed ==> a.accepted == 0 && a.workers == map[])
    && (a.status == Sending ==> a.attempts != [])
    && (forall w :: w in a.workers ==> w + 1 == |a.attempts| && StageSingle(a, a.workers[w]))
  }

  lemma RunStepKeepsSingle(a: Action, step: Step, w: nat)
    requires Single(a) && Careful(a, step)
    requires step == CheckRevision(w) || step == RecheckRevision(w) || step == DryRun(w, true) || step == DryRun(w, false)
             || (step.CallProvider? && step.w == w)
    ensures Single(Apply(a, step))
  {
    if w in a.workers {
      assert w + 1 == |a.attempts| && StageSingle(a, a.workers[w]);
    }
  }

  lemma VerdictKeepsSingle(a: Action, w: nat, verdict: Verdict)
    requires Single(a) && w in a.workers && a.workers[w].Answered? && (verdict == NotSent ==> a.accepted == 0)
    ensures Single(RecordVerdict(a, w, verdict))
  {
    assert w + 1 == |a.attempts|;
  }

  lemma RecordSendKeepsSingle(a: Action, w: nat)
    requires Single(a)
    ensures Single(Apply(a, RecordSend(w)))
  {
    if w in a.workers && a.workers[w].Answered? {
      var reply := a.workers[w].reply;
      assert StageSingle(a, Answered(reply));
      VerdictIsTrue(a.accepted == 1, reply);
      VerdictKeepsSingle(a, w, VerdictOf(reply));
    }
  }

  lemma RunEndKeepsSingle(a: Action, step: Step, w: nat)
    requires Single(a)
    requires step == ReadBack(w, true) || step == ReadBack(w, false) || step == Finish(w) || step == Crash(w)
    ensures Single(Apply(a, step))
  {
    if w in a.workers {
      assert w + 1 == |a.attempts| && StageSingle(a, a.workers[w]);
    }
  }

  lemma RecoverKeepsSingle(a: Action)
    requires Single(a)
    ensures Single(Apply(a, RecoverStale))
  {
  }

  lemma StepKeepsSingle(a: Action, step: Step)
    requires Single(a) && Careful(a, step)
    ensures Single(Apply(a, step))
  {
    match step
    case CheckRevision(w) => RunStepKeepsSingle(a, step, w);
    case DryRun(w, ok) => RunStepKeepsSingle(a, step, w);
    case RecheckRevision(w) => RunStepKeepsSingle(a, step, w);
    case CallProvider(w, accepts, reply) => RunStepKeepsSingle(a, step, w);
    case RecordSend(w) => RecordSendKeepsSingle(a, w);
    case ReadBack(w, ok) => RunEndKeepsSingle(a, step, w);
    case Finish(w) => RunEndKeepsSingle(a, step, w);
    case Crash(w) => RunEndKeepsSingle(a, step, w);
    case RecoverStale => RecoverKeepsSingle(a);
    case _ =>
  }

  lemma {:induction false} RunStaysSingle(a: Action, steps: seq<Step>)
    requires Single(a) && CarefulRun(a, steps)
    ensures Single(RunSteps(a, steps))
    decreases |steps|
  {
    if steps != [] {
      StepKeepsSingle(a, steps[0]);
      RunStaysSingle(Apply(a, steps[0]), steps[1..]);
    }
  }

  /**
   The provider accepts at most one message of an action, over every interleaving of runs, crashes,
   recoveries, revivals, takeovers, cancellations at any moment and marks without evidence; and it holds
   none of an action that may be sent again.
   */
  lemma AtMostOneDelivery(kind: ActionKind, mode: ExecutionMode, bound: bool, steps: seq<Step>)
    requires CarefulRun(NewAction(kind, mode, bound), steps)
    ensures var a := RunSteps(NewAction(kind, mode, bound), steps);
            a.accepted <= 1 && (a.status == Pending || a.status == Failed ==> a.accepted == 0)
  {
    RunStaysSingle(NewAction(kind, mode, bound), steps);
  }

  // ---------------------------------------------------------------- stale revisions are not sent

  /** The action answers a revision of its source that is no longer current, and no run is past its last check. */
  predicate StaleAndUncleared(a: Action) {
    !RevisionIsCurrent(a) && forall w :: w in a.workers ==> a.workers[w] != ClearedToSend
  }

  /** The two ways an action comes to answer a current revision: its source does, or it is bound to another one. */
  predicate MakesCurrent(step: Step) {
    step == SourceRevised(true) || (step.Revive? && (!step.bound || step.matches))
  }

  ghost predicate NoneMakesCurrent(steps: seq<Step>) {
    forall i :: 0 <= i < |steps| ==> !MakesCurrent(steps[i])
  }

  lemma StaleStepIsNotSent(a: Action, step: Step)
    requires StaleAndUncleared(a) && !MakesCurrent(step)
    ensures StaleAndUncleared(Apply(a, step)) && Apply(a, step).calls == a.calls
  {
  }

  /**
   Once the source has been revised, no run that has not passed its last revision check sends the
   action, whatever is claimed, retried, revived for the same revision or recovered.
   */
  lemma {:induction false} StaleRevisionIsNotSent(a: Action, steps: seq<Step>)
    requires StaleAndUncleared(a) && NoneMakesCurrent(steps)
    ensures RunSteps(a, steps).calls == a.calls
    decreases |steps|
  {
    if steps != [] {
      StaleStepIsNotSent(a, steps[0]);
      StaleRevisionIsNotSent(Apply(a, steps[0]), steps[1..]);
    }
  }

  // ---------------------------------------------------------------- the discipline is needed

  lemma {:induction false} RunStepsAppend(a: Action, steps: seq<Step>, step: Step)
    ensures RunSteps(a, steps + [step]) == Apply(RunSteps(a, steps), step)
    ensures DisciplinedRun(a, steps) && Disciplined(RunSteps(a, steps), step) ==> DisciplinedRun(a, steps + [step])
    decreases |steps|
  {
    if steps == [] {
      assert RunSteps(Apply(a, step), []) == Apply(a, step);
    } else {
      assert (steps + [step])[1..] == steps[1..] + [step];
      RunStepsAppend(Apply(a, steps[0]), steps[1..], step);
    }
  }

  lemma ReachStep(a: Action, step: Step)
    requires Reachable(a) && Disciplined(a, step)
    ensures Reachable(Apply(a, step))
  {
    var kind, mode, bound, steps :|
      DisciplinedRun(NewAction(kind, mode, bound), steps) && a == RunSteps(NewAction(kind, mode, bound), steps);
    RunStepsAppend(NewAction(kind, mode, bound), steps, step);
  }

  lemma ADryRunSend() returns (a: Action)
    ensures Reachable(a)
    ensures a == Action(SendReply, Production, Sending, [Attempt(DryRunOk, None, false, false)], false, true,
                        map[0 := DryRunPassed], 0, 0)
  {
    a := NewAction(SendReply, Production, false);
    assert DisciplinedRun(a, []) && a == RunSteps(a, []);
    ReachStep(a, Claim);
    a := Apply(a, Claim);
    ReachStep(a, CheckRevision(0));
    a := Apply(a, CheckRevision(0));
    ReachStep(a, DryRun(0, true));
    a := Apply(a, DryRun(0, true));
  }

  /** A run whose provider took the message and then lost the connection. */
  lemma ADeliveredSend() returns (a: Action)
    ensures Reachable(a)
    ensures a == Action(SendReply, Production, Sending, [Attempt(DryRunOk, None, false, false)], false, true,
                        map[0 := Answered(Raises)], 1, 1)
  {
    a := ADryRunSend();
    ReachStep(a, RecheckRevision(0));
    a := Apply(a, RecheckRevision(0));
    ReachStep(a, CallProvider(0, true, Raises));
    a := Apply(a, CallProvider(0, true, Raises));
  }

  lemma ADeliveredUncertainSend() returns (a: Action)
    ensures Reachable(a) && a.status == FailedNeedsReview && a.accepted == 1 && a.workers == map[] && |a.attempts| == 1
    ensures !a.revisionBound
  {
    a := ADeliveredSend();
    ReachStep(a, RecordSend(0));
    a := Apply(a, RecordSend(0));
    ReachStep(a, Finish(0));
    a := Apply(a, Finish(0));
  }

  lemma ADeliveredSentSend() returns (a: Action)
    ensures Reachable(a) && a.status == Sent && a.accepted == 1
  {
    a := ADeliveredUncertainSend();
    ReachStep(a, MarkSent("om_1"));
    a := Apply(a, MarkSent("om_1"));
  }

  /** The provider may hold a message of an action exactly in the statuses that do not deny it. */
  lemma StatusProvesUnsentExactly(status: ActionStatus)
    ensures (forall a :: Reachable(a) && a.status == status ==> a.accepted == 0) <==> ProvenUnsent(status)
  {
    forall a | Reachable(a) && a.status == status && ProvenUnsent(status) ensures a.accepted == 0 {
      ReachableIsSound(a);
    }
    var sending := ADeliveredSend();
    var uncertain := ADeliveredUncertainSend();
    var sent := ADeliveredSentSend();
  }

  predicate Cancels(step: Step) {
    step == TakeOver || step == OperatorCancel || step == CancelPending
  }

  ghost predicate CancelledMeansUnsent(status: ActionStatus, step: Step) {
    forall a :: Reachable(a) && a.status == status && status != Cancelled && Apply(a, step).status == Cancelled
                ==> Apply(a, step).accepted == 0
  }

  /**
   Which cancellations are truthful. The store lets an owner takeover cancel a `sending` action, and
   an operator cancel a `sending` or `failed_needs_review` one. Exactly those cancellations can leave
   a cancelled action whose message the provider has delivered.
   */
  lemma CancellationIsTruthfulExactly(status: ActionStatus, step: Step)
    requires Cancels(step)
    ensures CancelledMeansUnsent(status, step) <==>
            !(status == Sending && step != CancelPending) && !(status == FailedNeedsReview && step == OperatorCancel)
  {
    StatusProvesUnsentExactly(status);
    if status == Sending && step != CancelPending {
      var a := ADeliveredSend();
      assert Apply(a, step).status == Cancelled && Apply(a, step).accepted == 1;
    } else if status == FailedNeedsReview && step == OperatorCancel {
      var a := ADeliveredUncertainSend();
      assert Apply(a, step).status == Cancelled && Apply(a, step).accepted == 1;
    }
  }

  lemma RunThree(a: Action, s0: Step, s1: Step, s2: Step)
    ensures RunSteps(a, [s0, s1, s2]) == Apply(Apply(Apply(a, s0), s1), s2)
  {
    assert [s0, s1, s2][1..] == [s1, s2] && [s1, s2][1..] == [s2] && [s2][1..] == [];
    assert RunSteps(a, [s0, s1, s2]) == RunSteps(Apply(a, s0), [s1, s2]);
    assert RunSteps(Apply(a, s0), [s1, s2]) == RunSteps(Apply(Apply(a, s0), s1), [s2]);
  }

  lemma {:induction false} RunStepsConcat(a: Action, first: seq<Step>, second: seq<Step>)
    ensures RunSteps(a, first + second) == RunSteps(RunSteps(a, first), second)
    decreases |first|
  {
    if first == [] {
      assert first + second == second;
    } else {
      assert (first + second)[1..] == first[1..] + second;
      RunStepsConcat(Apply(a, first[0]), first[1..], second);
    }
  }

  lemma RunTwo(a: Action, s0: Step, s1: Step)
    ensures RunSteps(a, [s0, s1]) == Apply(Apply(a, s0), s1)
  {
    assert [s0, s1][1..] == [s1] && [s1][1..] == [];
    assert RunSteps(a, [s0, s1]) == RunSteps(Apply(a, s0), [s1]);
  }

  /** The rest of a live run, from wherever before the call it is, on a current revision. */
  function CallingRun(w: nat): seq<Step> {
    [CheckRevision(w), DryRun(w, true)] + [RecheckRevision(w), CallProvider(w, true, Raises)]
  }

  lemma LiveRunStillSends(a: Action, w: nat)
    requires w in a.workers && BeforeCall(a.workers[w]) && RevisionIsCurrent(a)
    ensures var after := RunSteps(a, CallingRun(w));
            after.calls == a.calls + 1 && after.accepted == a.accepted + 1 && after.status == a.status && RevisionIsCurrent(after)
  {
    var checked := Apply(Apply(a, CheckRevision(w)), DryRun(w, true));
    assert At(checked, w, DryRunPassed) || At(checked, w, ClearedToSend);
    RunStepsConcat(a, [CheckRevision(w), DryRun(w, true)], [RecheckRevision(w), CallProvider(w, true, Raises)]);
    RunTwo(a, CheckRevision(w), DryRun(w, true));
    RunTwo(checked, RecheckRevision(w), CallProvider(w, true, Raises));
  }

  /** A dispatch run that reaches the real send, as attempt `w`; the provider takes the message and is not heard of again. */
  function SendingRun(w: nat): seq<Step> {
    [Claim] + CallingRun(w)
  }

  lemma CurrentPendingIsSent(a: Action)
    requires a.status == Pending && RevisionIsCurrent(a)
    ensures var after := RunSteps(a, SendingRun(|a.attempts|));
            after.calls == a.calls + 1 && after.accepted == a.accepted + 1
  {
    var w := |a.attempts|;
    assert SendingRun(w)[1..] == CallingRun(w);
    LiveRunStillSends(Apply(a, Claim), w);
  }

  /** Steps that are careful wherever they are made. */
  lemma {:induction false} EachCareful(a: Action, steps: seq<Step>)
    requires forall i :: 0 <= i < |steps| ==>
               steps[i] != OperatorRetry && (steps[i].CallProvider? ==> steps[i].reply.Raises?)
    ensures CarefulRun(a, steps)
    decreases |steps|
  {
    if steps != [] {
      EachCareful(Apply(a, steps[0]), steps[1..]);
    }
  }

  lemma {:induction false} DisciplinedIsCareful(a: Action, steps: seq<Step>)
    requires DisciplinedRun(a, steps)
    ensures CarefulRun(a, steps)
    decreases |steps|
  {
    if steps != [] {
      DisciplinedIsCareful(Apply(a, steps[0]), steps[1..]);
    }
  }

  ghost predicate CarefullyReached(a: Action) {
    exists kind, mode, bound, steps ::
      CarefulRun(NewAction(kind, mode, bound), steps) && a == RunSteps(NewAction(kind, mode, bound), steps)
  }

  lemma ReachedCarefully(a: Action)
    requires Reachable(a)
    ensures CarefullyReached(a)
  {
    var kind, mode, bound, steps :|
      DisciplinedRun(NewAction(kind, mode, bound), steps) && a == RunSteps(NewAction(kind, mode, bound), steps);
    DisciplinedIsCareful(NewAction(kind, mode, bound), steps);
  }

  /** A retry made in this status leaves every careful continuation with at most one delivery. */
  ghost predicate RetryStaysSingle(status: ActionStatus) {
    forall a, steps :: CarefullyReached(a) && a.status == status && CarefulRun(Apply(a, OperatorRetry), steps)
                       ==> RunSteps(Apply(a, OperatorRetry), steps).accepted <= 1
  }

  /**
   An operator retry keeps the bound exactly when the action it is made on does not need review:
   retrying an uncertain send can deliver a second message, and nothing else can.
   */
  lemma RetryStaysSingleExactly(status: ActionStatus)
    ensures RetryStaysSingle(status) <==> status != FailedNeedsReview
  {
    if status != FailedNeedsReview {
      forall a, steps | CarefullyReached(a) && a.status == status && CarefulRun(Apply(a, OperatorRetry), steps)
        ensures RunSteps(Apply(a, OperatorRetry), steps).accepted <= 1
      {
        var kind, mode, bound, before :|
          CarefulRun(NewAction(kind, mode, bound), before) && a == RunSteps(NewAction(kind, mode, bound), before);
        RunStaysSingle(NewAction(kind, mode, bound), before);
        StepKeepsSingle(a, OperatorRetry);
        RunStaysSingle(Apply(a, OperatorRetry), steps);
      }
    } else {
      var a := ADeliveredUncertainSend();
      ReachedCarefully(a);
      var retried := Apply(a, OperatorRetry);
      EachCareful(retried, SendingRun(|a.attempts|));
      CurrentPendingIsSent(retried);
    }
  }

  // ---------------------------------------------------------------- which reopenings send again

  /** After this step the send has still run at most once in every run that reopens nothing else that was tried. */
  ghost predicate SendsOnceAfter(a: Action, step: Step) {
    forall steps :: ReopensOnlyUntried(Apply(a, step), steps) ==> RunSteps(Apply(a, step), steps).calls <= 1
  }

  /** Runs that reopen nothing. */
  lemma {:induction false} NothingReopened(a: Action, steps: seq<Step>)
    requires forall i :: 0 <= i < |steps| ==> !steps[i].Revive? && !steps[i].OperatorRetry?
    ensures ReopensOnlyUntried(a, steps)
    decreases |steps|
  {
    if steps != [] {
      NothingReopened(Apply(a, steps[0]), steps[1..]);
    }
  }

  /** A pending action whose source is current again can be called as often as runs can reach it. */
  lemma TriedPendingIsSentTwice(a: Action) returns (steps: seq<Step>)
    requires a.status == Pending && !Untried(a)
    ensures ReopensOnlyUntried(a, steps) && RunSteps(a, steps).calls > 1
  {
    var b := Apply(a, SourceRevised(true));
    steps := [SourceRevised(true)];
    assert RunSteps(a, steps) == RunSteps(b, []) == b;
    if a.calls == 0 {
      var w :| w in a.workers && BeforeCall(a.workers[w]);
      LiveRunStillSends(b, w);
      RunStepsConcat(a, steps, CallingRun(w));
      steps := steps + CallingRun(w);
      b := RunSteps(b, CallingRun(w));
    }
    CurrentPendingIsSent(b);
    RunStepsConcat(a, steps, SendingRun(|b.attempts|));
    steps := steps + SendingRun(|b.attempts|);
    NothingReopened(a, steps);
  }

  /**
   Which reopenings keep the real send to one call: exactly those of an action whose send was never
   called and that no live run can still send. A retry or revival after a failed dry run is one; a
   revival of a rejected send is not.
   */
  lemma ReopeningSendsOnceExactly(a: Action, step: Step)
    requires SentOnce(a) && Reopens(a, step)
    ensures SendsOnceAfter(a, step) <==> Untried(a)
  {
    if Untried(a) {
      forall steps | ReopensOnlyUntried(Apply(a, step), steps) ensures RunSteps(Apply(a, step), steps).calls <= 1 {
        StepSendsOnce(a, step);
        RunSendsOnce(Apply(a, step), steps);
      }
    } else {
      var steps := TriedPendingIsSentTwice(Apply(a, step));
    }
  }

  /** The send is rejected, and a later session with the same text revives the row. */
  function RejectedRun(reply: Reply): seq<Step> {
    [Claim, CheckRevision(0), DryRun(0, true)] + [RecheckRevision(0), CallProvider(0, false, reply), RecordSend(0)]
  }

  function RejectedThenRevived(reply: Reply): seq<Step> {
    RejectedRun(reply) + [Finish(0), Revive(Production, true, true)]
  }

  lemma RunUpToTheCall(start: Action)
    requires start == NewAction(SendReply, Production, true)
    ensures RunSteps(start, [Claim, CheckRevision(0), DryRun(0, true)])
            == Action(SendReply, Production, Sending, [Attempt(DryRunOk, None, false, false)], true, true, map[0 := DryRunPassed], 0, 0)
  {
    RunThree(start, Claim, CheckRevision(0), DryRun(0, true));
  }

  lemma ARejectedSend(start: Action, reply: Reply) returns (a: Action)
    requires start == NewAction(SendReply, Production, true) && VerdictOf(reply) == NotSent
    ensures a == RunSteps(start, RejectedRun(reply))
    ensures a.kind == SendReply && a.status == Sending && |a.attempts| == 1 && a.workers == map[0 := Returning(Failed, None)]
    ensures a.calls == 1 && a.accepted == 0
  {
    var first, second := [Claim, CheckRevision(0), DryRun(0, true)], [RecheckRevision(0), CallProvider(0, false, reply), RecordSend(0)];
    RunUpToTheCall(start);
    RunStepsConcat(start, first, second);
    RunThree(RunSteps(start, first), RecheckRevision(0), CallProvider(0, false, reply), RecordSend(0));
    a := RunSteps(start, RejectedRun(reply));
  }

  lemma ARevivedRejection(start: Action, reply: Reply) returns (a: Action)
    requires start == NewAction(SendReply, Production, true) && VerdictOf(reply) == NotSent
    ensures a == RunSteps(start, RejectedThenRevived(reply))
    ensures a.status == Pending && |a.attempts| == 1 && RevisionIsCurrent(a) && a.calls == 1 && a.accepted == 0
  {
    var rejected := ARejectedSend(start, reply);
    RunStepsConcat(start, RejectedRun(reply), [Finish(0), Revive(Production, true, true)]);
    RunTwo(rejected, Finish(0), Revive(Production, true, true));
    a := RunSteps(start, RejectedThenRevived(reply));
  }

  predicate OwnerActs(step: Step) {
    step.TakeOver? || step.OperatorCancel? || step.OperatorRetry? || step.MarkSent?
  }

  /** Steps of an honest provider and without any owner command. */
  ghost predicate Unaided(steps: seq<Step>) {
    forall i :: 0 <= i < |steps| ==>
      !OwnerActs(steps[i]) && (steps[i].CallProvider? ==> HonestReply(steps[i].accepts, steps[i].reply))
  }

  lemma UnaidedTogether(first: seq<Step>, second: seq<Step>)
    requires Unaided(first) && Unaided(second)
    ensures Unaided(first + second)
  {
  }

  lemma RejectionIsUnaided(reply: Reply)
    requires VerdictOf(reply) == NotSent
    ensures Unaided(RejectedThenRevived(reply) + SendingRun(1))
  {
    UnaidedTogether([Claim, CheckRevision(0), DryRun(0, true)], [RecheckRevision(0), CallProvider(0, false, reply), RecordSend(0)]);
    UnaidedTogether(RejectedRun(reply), [Finish(0), Revive(Production, true, true)]);
    UnaidedTogether([CheckRevision(1), DryRun(1, true)], [RecheckRevision(1), CallProvider(1, true, Raises)]);
    UnaidedTogether([Claim], CallingRun(1));
    UnaidedTogether(RejectedThenRevived(reply), SendingRun(1));
  }

  /** So without any owner command the real send can run twice; the message is then accepted once. */
  lemma RevivedRejectionIsSentAgain(reply: Reply)
    requires VerdictOf(reply) == NotSent
    ensures Unaided(RejectedThenRevived(reply) + SendingRun(1))
    ensures var a := RunSteps(NewAction(SendReply, Production, true), RejectedThenRevived(reply) + SendingRun(1));
            a.calls == 2 && a.accepted == 1
  {
    var start := NewAction(SendReply, Production, true);
    var a := ARevivedRejection(start, reply);
    RejectionIsUnaided(reply);
    RunStepsConcat(start, RejectedThenRevived(reply), SendingRun(1));
    CurrentPendingIsSent(a);
  }

  // ---------------------------------------------------------------- what brings a stale action back

  /** A step after which a stale action stays unsent, until something makes it current. */
  ghost predicate LeavesStaleUnsent(step: Step) {
    forall a, steps :: CarefullyReached(a) && StaleAndUncleared(a) && NoneMakesCurrent(steps)
                       ==> RunSteps(Apply(a, step), steps).calls == a.calls
  }

  lemma AStalePendingAction() returns (a: Action)
    ensures Reachable(a) && StaleAndUncleared(a) && a.status == Pending && a.workers == map[]
  {
    a := NewAction(SendReply, Production, true);
    assert DisciplinedRun(a, []) && a == RunSteps(a, []);
    ReachStep(a, SourceRevised(false));
    a := Apply(a, SourceRevised(false));
  }

  lemma ARejectedRun() returns (a: Action)
    ensures Reachable(a) && a.status == Sending && a.revisionBound && |a.attempts| == 1 && a.workers == map[0 := Returning(Failed, None)]
  {
    a := NewAction(SendReply, Production, true);
    assert DisciplinedRun(a, []) && a == RunSteps(a, []);
    ReachStep(a, Claim);
    a := Apply(a, Claim);
    ReachStep(a, CheckRevision(0));
    a := Apply(a, CheckRevision(0));
    ReachStep(a, DryRun(0, false));
    a := Apply(a, DryRun(0, false));
  }

  /** A failed action whose source was revised before anything fenced it. */
  lemma AStaleFailedAction() returns (a: Action)
    ensures Reachable(a) && StaleAndUncleared(a) && a.status == Failed && a.workers == map[]
  {
    a := ARejectedRun();
    ReachStep(a, Finish(0));
    a := Apply(a, Finish(0));
    ReachStep(a, SourceRevised(false));
    a := Apply(a, SourceRevised(false));
  }

  /**
   The exact condition of `StaleRevisionIsNotSent`: a stale action can be sent after a step exactly when
   the step makes it current, and a revival that binds the failed row to the new revision does.
   */
  lemma StaleStaysUnsentExactly(step: Step)
    ensures LeavesStaleUnsent(step) <==> !MakesCurrent(step)
  {
    if !MakesCurrent(step) {
      forall a, steps | CarefullyReached(a) && StaleAndUncleared(a) && NoneMakesCurrent(steps)
        ensures RunSteps(Apply(a, step), steps).calls == a.calls
      {
        StaleStepIsNotSent(a, step);
        StaleRevisionIsNotSent(Apply(a, step), steps);
      }
    } else {
      var a: Action;
      if step.Revive? {
        a := AStaleFailedAction();
      } else {
        a := AStalePendingAction();
      }
      ReachedCarefully(a);
      var run := SendingRun(|a.attempts|);
      assert NoneMakesCurrent(run);
      CurrentPendingIsSent(Apply(a, step));
    }
  }

  // ---------------------------------------------------------------- the whole store

  ghost predicate StoreSound(store: Store) {
    forall id :: 0 <= id < |store| ==> Sound(store[id])
  }

  predicate StoreDisciplined(store: Store, s: StoreStep) {
    s.On? && s.id < |store| ==> Disciplined(store[s.id], s.step)
  }

  predicate StoreDisciplinedRun(store: Store, steps: seq<StoreStep>)
    decreases |steps|
  {
    steps == [] || (StoreDisciplined(store, steps[0]) && StoreDisciplinedRun(ApplyToStore(store, steps[0]), steps[1..]))
  }

  /** The guarantees hold for every action of a store shared by any number of interleaved runs. */
  lemma {:induction false} StoreStaysSound(store: Store, steps: seq<StoreStep>)
    requires StoreSound(store) && StoreDisciplinedRun(store, steps)
    ensures StoreSound(RunStore(store, steps))
    decreases |steps|
  {
    if steps != [] {
      var s := steps[0];
      if s.On? && s.id < |store| {
        StepKeepsSound(store[s.id], s.step);
      } else if s.Create? {
        NewActionIsSound(s.kind, s.mode, s.bound);
      }
      StoreStaysSound(ApplyToStore(store, s), steps[1..]);
    }
  }

  // ---------------------------------------------------------------- at most one delivery, store-wide

  ghost predicate StoreSingle(store: Store) {
    forall id :: 0 <= id < |store| ==> Single(store[id])
  }

  predicate StoreCareful(store: Store, s: StoreStep) {
    s.On? && s.id < |store| ==> Careful(store[s.id], s.step)
  }

  predicate StoreCarefulRun(store: Store, steps: seq<StoreStep>)
    decreases |steps|
  {
    steps == [] || (StoreCareful(store, steps[0]) && StoreCarefulRun(ApplyToStore(store, steps[0]), steps[1..]))
  }

  /** The bound holds for every action of a store shared by any number of interleaved processes. */
  lemma {:induction false} StoreStaysSingle(store: Store, steps: seq<StoreStep>)
    requires StoreSingle(store) && StoreCarefulRun(store, steps)
    ensures StoreSingle(RunStore(store, steps))
    decreases |steps|
  {
    if steps != [] {
      var s := steps[0];
      if s.On? && s.id < |store| {
        StepKeepsSingle(store[s.id], s.step);
      }
      StoreStaysSingle(ApplyToStore(store, s), steps[1..]);
    }
  }

  // ---------------------------------------------------------------- the real send, store-wide

  /** A store step that reopens action `id` only while it is untried; other actions are not restricted. */
  predicate StoreReopensUntried(store: Store, s: StoreStep, id: nat) {
    s.On? && s.id == id < |store| ==> ReopensUntried(store[id], s.step)
  }

  predicate StoreReopensOnlyUntried(store: Store, steps: seq<StoreStep>, id: nat)
    decreases |steps|
  {
    steps == []
    || (StoreReopensUntried(store, steps[0], id) && StoreReopensOnlyUntried(ApplyToStore(store, steps[0]), steps[1..], id))
  }

  /** An action of a shared store, there from the start or created meanwhile, is really sent at most once. */
  lemma {:induction false} StoreSendsOnce(store: Store, steps: seq<StoreStep>, id: nat)
    requires (id < |store| ==> SentOnce(store[id])) && StoreReopensOnlyUntried(store, steps, id)
    ensures id < |RunStore(store, steps)| ==> SentOnce(RunStore(store, steps)[id])
    decreases |steps|
  {
    if steps != [] {
      var s := steps[0];
      if s.On? && s.id == id < |store| {
        StepSendsOnce(store[id], s.step);
      }
      StoreSendsOnce(ApplyToStore(store, s), steps[1..], id);
    }
  }
}
