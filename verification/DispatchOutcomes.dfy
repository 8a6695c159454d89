/**
 What each transaction of the dispatch protocol does to an action, in terms of statuses, attempts and
 provider answers alone.
 */
module DispatchOutcomes {
  import opened Base
  import opened DispatchModel
  import opened DispatchSafety

  /** Everything about an action but its status and its attempts. */
  ghost predicate SameOtherwise(a: Action, b: Action) {
    b == a.(status := b.status, attempts := b.attempts)
  }

  // ---------------------------------------------------------------- stale recovery

  /** The evidence of a send: the newest attempt was read back under the id it was sent with. */
  predicate WasReadBack(a: Action) {
    a.attempts != []
    && var last := a.attempts[|a.attempts| - 1];
       last.status == ReadbackOk && last.sentId.Some? && last.readbackOk
  }

  /**
   Recovery of a stale action. A sending one always leaves that status: it is sent exactly if its newest
   attempt was read back, and needs review otherwise; either way it has an attempt and the newest is
   finished. An attempt that was still open and not read back becomes uncertain, a finished one keeps its
   grade, earlier ones are left alone. No other status is touched.
   */
  lemma RecoveryExactly(a: Action)
    ensures var b := Apply(a, RecoverStale);
            && (a.status != Sending ==> b == a)
            && (a.status == Sending ==>
                  && (b.status == Sent <==> WasReadBack(a)) && (b.status == FailedNeedsReview <==> !WasReadBack(a))
                  && |b.attempts| == (if a.attempts == [] then 1 else |a.attempts|)
                  && b.attempts[..|b.attempts| - 1] == a.attempts[..|b.attempts| - 1]
                  && var last := b.attempts[|b.attempts| - 1];
                     last.finished
                     && (if a.attempts == [] then last.status == Uncertain && last.sentId.None?
                         else
                           var was := a.attempts[|a.attempts| - 1];
                           && last.sentId == was.sentId && last.readbackOk == was.readbackOk
                           && last.status == if WasReadBack(a) || was.finished then was.status else Uncertain))
            && SameOtherwise(a, b)
  {
  }

  // ---------------------------------------------------------------- the provider's answer

  /** The command left no doubt that it succeeded. */
  predicate Succeeded(r: CommandResult) {
    r.exitCode == Some(0) && r.error.None? && !r.timedOut
  }

  /** The local adapter refused the command, or the error text says that the provider did. */
  predicate Refused(r: CommandResult) {
    (r.argv != [] && r.argv[0] == "dispatch")
    || (r.error.Some?
        && var text := Lower(StripLeft(StripRight(r.error.value, IsSpace), IsSpace));
           text == "send rejected" || "api rejected" <= text || "feishu api rejected" <= text)
  }

  /**
   The status a run returns for an answer, and the grade of its attempt: sent with the reported id exactly
   for a success that names one, failed exactly for a refusal, and in doubt for everything else - a raised
   exception, a timeout, an unexplained error, a success without an id.
   */
  lemma AnswerExactly(a: Action, w: nat, reply: Reply)
    requires w < |a.attempts| && At(a, w, Answered(reply))
    ensures var b := Apply(a, RecordSend(w));
            var sent := reply.Returns? && Succeeded(reply.result) && reply.result.messageId.Some?;
            var refused := reply.Returns? && !Succeeded(reply.result) && Refused(reply.result);
            && b.status == a.status && b.calls == a.calls && b.accepted == a.accepted
            && (forall v :: v != w ==> (v in b.workers <==> v in a.workers) && (v in b.workers ==> b.workers[v] == a.workers[v]))
            && |b.attempts| == |a.attempts| && (forall v :: 0 <= v < |a.attempts| && v != w ==> b.attempts[v] == a.attempts[v])
            && (At(b, w, SendRecorded(if sent then reply.result.messageId.value else "")) <==> sent)
            && (At(b, w, Returning(Failed, None)) <==> refused)
            && (At(b, w, Returning(FailedNeedsReview, None)) <==> !sent && !refused)
            && b.attempts[w].status == (if sent then SendOk else if refused then AttemptFailed else Uncertain)
            && (b.attempts[w].finished <==> a.attempts[w].finished || !sent)
            && b.attempts[w].sentId == if sent then reply.result.messageId else a.attempts[w].sentId
  {
  }

  /** How the steps around the send grade the attempt: a failed dry run and a stale revision fail it, evidence is kept. */
  lemma StagesGradeTheAttempt(a: Action, w: nat, ok: bool)
    requires w < |a.attempts| && w in a.workers
    ensures a.workers[w] == Claimed ==>
              var b := Apply(a, CheckRevision(w));
              if a.revisionBound && !a.revisionMatches
              then At(b, w, Returning(Cancelled, None)) && b.attempts[w] == a.attempts[w].(status := AttemptFailed, finished := true)
              else b == a.(workers := a.workers[w := RevisionChecked])
    ensures a.workers[w] == RevisionChecked ==>
              var b := Apply(a, DryRun(w, ok));
              if ok then At(b, w, DryRunPassed) && b.attempts[w] == a.attempts[w].(status := DryRunOk)
              else At(b, w, Returning(Failed, None)) && b.attempts[w] == a.attempts[w].(status := AttemptFailed, finished := true)
    ensures a.workers[w] == DryRunPassed ==>
              var b := Apply(a, RecheckRevision(w));
              if a.revisionBound && !a.revisionMatches
              then At(b, w, Returning(Cancelled, None)) && b.attempts[w] == a.attempts[w].(status := AttemptFailed, finished := true)
              else b == a.(workers := a.workers[w := ClearedToSend])
    ensures a.workers[w].SendRecorded? ==>
              var b, id := Apply(a, ReadBack(w, ok)), a.workers[w].id;
              At(b, w, Returning(Sent, Some(id)))
              && b.attempts[w] == Attempt(if ok then ReadbackOk else SendOk, Some(id), ok, true)
  {
  }

  /** A call of the real send is counted, and the run has its answer. */
  lemma CallIsCounted(a: Action, w: nat, accepts: bool, reply: Reply)
    requires w in a.workers
    ensures var b := Apply(a, CallProvider(w, accepts, reply));
            if a.workers[w] != ClearedToSend then b == a
            else
              && At(b, w, Answered(reply)) && b.calls == a.calls + 1 && b.accepted == a.accepted + (if accepts then 1 else 0)
              && b == a.(workers := b.workers, calls := b.calls, accepted := b.accepted)
  {
  }

  // ---------------------------------------------------------------- finishing

  /** The store knows that this run's message was sent: its attempt carries the id the run returns. */
  predicate KnownSent(a: Action, w: nat, status: ActionStatus, sentId: Option<string>) {
    w < |a.attempts| && status == Sent && sentId.Some? && a.attempts[w].sentId == sentId
  }

  /**
   Finishing ends the run. It sets the action's status exactly if the run is its newest and the action is
   still sending, or was put under review meanwhile although the store knows that the message was sent.
   */
  lemma FinishExactly(a: Action, w: nat, status: ActionStatus, sentId: Option<string>)
    requires At(a, w, Returning(status, sentId))
    ensures var b := Apply(a, Finish(w));
            && b == a.(status := b.status, workers := a.workers - {w})
            && b.status == if w + 1 == |a.attempts|
                              && (a.status == Sending || (a.status == FailedNeedsReview && KnownSent(a, w, status, sentId)))
                           then status else a.status
  {
  }

  /** What can put a sending action under review while its run goes on. */
  predicate ReviewsMeanwhile(step: Step) {
    step == RecoverStale || step == FenceRevision || step == SourceRevised(true) || step == SourceRevised(false)
  }

  /** A send that was recorded is not lost: whatever recovery and fencing do meanwhile, its run ends the action as sent. */
  lemma {:induction false} RecordedSendEndsAsSent(a: Action, w: nat, id: string, meanwhile: seq<Step>, ok: bool)
    requires a.status == Sending || a.status == FailedNeedsReview || a.status == Sent
    requires w + 1 == |a.attempts| && At(a, w, SendRecorded(id)) && a.attempts[w].sentId == Some(id)
    requires forall i :: 0 <= i < |meanwhile| ==> ReviewsMeanwhile(meanwhile[i])
    ensures var b := RunSteps(a, meanwhile);
            Apply(Apply(b, ReadBack(w, ok)), Finish(w)).status == Sent
    decreases |meanwhile|
  {
    if meanwhile == [] {
      var b := Apply(a, ReadBack(w, ok));
      assert At(b, w, Returning(Sent, Some(id))) && b.status == a.status;
      FinishExactly(b, w, Sent, Some(id));
    } else {
      RecordedSendEndsAsSent(Apply(a, meanwhile[0]), w, id, meanwhile[1..], ok);
    }
  }

  // ---------------------------------------------------------------- fencing, cancelling, reopening

  /**
   After the fence nothing of an action bound to an older revision can be sent by a new run: pending and
   failed ones are cancelled, one in flight needs review. Current actions are left alone.
   */
  lemma FenceExactly(a: Action)
    ensures var b := Apply(a, FenceRevision);
            && b == a.(status := b.status)
            && (!a.revisionBound || a.revisionMatches ==> b == a)
            && (a.revisionBound && !a.revisionMatches ==>
                  && b.status != Pending && b.status != Failed && b.status != Sending
                  && (b.status == Cancelled <==> a.status == Pending || a.status == Failed || a.status == Cancelled)
                  && (b.status == FailedNeedsReview <==> a.status == Sending || a.status == FailedNeedsReview))
  {
  }

  /** Which actions each cancellation reaches; it cancels those and changes nothing else. */
  predicate Reaches(a: Action, step: Step) {
    match step
    case CancelPending => a.status == Pending
    case TakeOver => a.kind == SendReply && (a.status == Pending || a.status == Sending)
    case OperatorCancel => a.status != Sent
    case _ => false
  }

  lemma CancellationReachesExactly(a: Action, step: Step)
    requires Cancels(step)
    ensures Apply(a, step) == if Reaches(a, step) then a.(status := Cancelled) else a
  {
  }

  /**
   Which actions a retry and a revival reopen. A retry needs a current revision; a revival binds the row
   to the new revision and can change the mode of an owner notice only. Attempts and calls are kept.
   */
  lemma ReopeningExactly(a: Action, mode: ExecutionMode, bound: bool, matches: bool)
    ensures Apply(a, OperatorRetry)
            == if (a.status == Failed || a.status == FailedNeedsReview) && (!a.revisionBound || a.revisionMatches)
               then a.(status := Pending) else a
    ensures var b := Apply(a, Revive(mode, bound, matches));
            if a.status != Failed then b == a
            else
              && b.status == Pending && b.revisionBound == bound && b.revisionMatches == matches
              && b.mode == (if a.kind == OwnerNotification then mode else a.mode)
              && b.kind == a.kind && b.attempts == a.attempts && b.workers == a.workers
              && b.calls == a.calls && b.accepted == a.accepted
  {
  }

  /** Marking as sent: every action but a cancelled one ends sent, with its newest attempt finished and read back under the id. */
  lemma MarkSentExactly(a: Action, sentId: string)
    ensures var b := Apply(a, MarkSent(sentId));
            && SameOtherwise(a, b)
            && (a.status == Cancelled ==> b == a)
            && (a.status != Cancelled ==>
                  && b.status == Sent && |b.attempts| == (if a.attempts == [] then 1 else |a.attempts|)
                  && b.attempts[|b.attempts| - 1] == Attempt(ReadbackOk, Some(sentId), true, true)
                  && b.attempts[..|b.attempts| - 1] == a.attempts[..|b.attempts| - 1])
  {
  }

  /** A claim: exactly a pending action becomes sending, with a new open attempt and a run for it. */
  lemma ClaimExactly(a: Action)
    ensures var b, w := Apply(a, Claim), |a.attempts|;
            if a.status != Pending then b == a
            else
              && b.status == Sending && b.attempts == a.attempts + [Attempt(Started, None, false, false)]
              && b.workers == a.workers[w := Claimed]
              && b == a.(status := b.status, attempts := b.attempts, workers := b.workers)
  {
  }
}
