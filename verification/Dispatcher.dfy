/**
 The sequential dispatcher of one process. Between any two of its own store transactions other
 processes may take steps of their own, so what it does to the store is one interleaving of the
 machine of `DispatchModel`.
 */
module Dispatcher {
  import opened Base
  import opened DispatchModel
  import opened DispatchSafety
  import opened DispatchOutcomes

  /** What one call of `dispatch` meets: stale rows, provider answers, and the steps of others. */
  datatype DispatchEnv = DispatchEnv(
    isStale: nat -> bool,
    dryRunOk: nat -> bool,
    accepts: nat -> bool,
    reply: nat -> Reply,
    readBackOk: nat -> bool,
    others: (nat, nat) -> seq<StoreStep>)

  predicate ActsForRun(step: Step, w: nat) {
    match step
    case CheckRevision(v) => v == w
    case DryRun(v, _) => v == w
    case RecheckRevision(v) => v == w
    case CallProvider(v, _, _) => v == w
    case RecordSend(v) => v == w
    case ReadBack(v, _) => v == w
    case Finish(v) => v == w
    case Crash(v) => v == w
    case _ => false
  }

  predicate Foreign(s: StoreStep, id: nat, w: nat) {
    s.On? && s.id == id ==> !ActsForRun(s.step, w)
  }

  /** The steps of other processes, none of which acts for a run it did not claim. */
  function ForeignSteps(steps: seq<StoreStep>, id: nat, w: nat): (foreign: seq<StoreStep>)
    ensures forall i :: 0 <= i < |foreign| ==> Foreign(foreign[i], id, w)
  {
    if steps == [] then []
    else (if Foreign(steps[0], id, w) then [steps[0]] else []) + ForeignSteps(steps[1..], id, w)
  }

  /** The same action later on: its kind and, for a reply, its mode are fixed, and calls are never uncounted. */
  ghost predicate Continues(a: Action, b: Action) {
    a.kind == b.kind && (a.kind == SendReply ==> a.mode == b.mode) && a.calls <= b.calls
  }

  ghost predicate KeepsRun(a: Action, b: Action, w: nat) {
    && |a.attempts| <= |b.attempts|
    && (w < |a.attempts| && w in a.workers ==> w in b.workers && b.workers[w] == a.workers[w])
  }

  /** Actions are only added, and stay what they are. */
  ghost predicate Extends(before: Store, after: Store) {
    |before| <= |after| && forall k :: 0 <= k < |before| ==> Continues(before[k], after[k])
  }

  lemma ForeignStepKeepsRun(a: Action, step: Step, w: nat)
    requires !ActsForRun(step, w)
    ensures KeepsRun(a, Apply(a, step), w)
  {
  }

  lemma {:induction false} ForeignStepsKeepRun(store: Store, steps: seq<StoreStep>, id: nat, w: nat)
    requires id < |store| && forall i :: 0 <= i < |steps| ==> Foreign(steps[i], id, w)
    ensures KeepsRun(store[id], RunStore(store, steps)[id], w)
    decreases |steps|
  {
    if steps != [] {
      var next := ApplyToStore(store, steps[0]);
      if steps[0].On? && steps[0].id == id {
        ForeignStepKeepsRun(store[id], steps[0].step, w);
      }
      ForeignStepsKeepRun(next, steps[1..], id, w);
    }
  }

  lemma StepContinues(a: Action, step: Step)
    ensures Continues(a, Apply(a, step))
  {
  }

  lemma {:induction false} StoreContinues(store: Store, steps: seq<StoreStep>, id: nat)
    requires id < |store|
    ensures Continues(store[id], RunStore(store, steps)[id])
    decreases |steps|
  {
    if steps != [] {
      if steps[0].On? && steps[0].id == id {
        StepContinues(store[id], steps[0].step);
      }
      StoreContinues(ApplyToStore(store, steps[0]), steps[1..], id);
    }
  }

  lemma {:induction false} RunStoreAppend(store: Store, first: seq<StoreStep>, second: seq<StoreStep>)
    ensures RunStore(store, first + second) == RunStore(RunStore(store, first), second)
    decreases |first|
  {
    if first == [] {
      assert first + second == second;
    } else {
      assert (first + second)[1..] == first[1..] + second;
      RunStoreAppend(ApplyToStore(store, first[0]), first[1..], second);
    }
  }

  /** Nobody else touches the store while turn `turn` runs. */
  ghost predicate Quiet(env: DispatchEnv, turn: nat) {
    forall point :: env.others(turn, point) == []
  }

  /** How an undisturbed turn leaves the status of an allowed pending action. */
  function QuietStatus(a: Action, turn: nat, env: DispatchEnv): ActionStatus {
    if !RevisionIsCurrent(a) then Cancelled
    else if !env.dryRunOk(turn) then Failed
    else AnswerStatus(env.reply(turn))
  }

  predicate QuietSends(a: Action, turn: nat, env: DispatchEnv) {
    RevisionIsCurrent(a) && env.dryRunOk(turn)
  }

  /** The status a recorded answer leads to: only a proven non-send counts as failed. */
  function AnswerStatus(reply: Reply): ActionStatus {
    match VerdictOf(reply)
    case NotSent => Failed
    case Doubtful => FailedNeedsReview
    case SentAs(_) => Sent
  }

  lemma RecordedAnswer(a: Action, w: nat, reply: Reply)
    requires w < |a.attempts| && At(a, w, Answered(reply))
    ensures var b := Apply(a, RecordSend(w));
            && At(b, w, if AnswerStatus(reply) == Sent then SendRecorded(reply.result.messageId.value)
                        else Returning(AnswerStatus(reply), None))
            && b.status == a.status && |b.attempts| == |a.attempts| && RevisionIsCurrent(b) == RevisionIsCurrent(a)
  {
  }

  /** An undisturbed stage of a run leaves its action in `sending` and every other action alone. */
  ghost predicate RunsAlone(before: Store, after: Store, id: nat) {
    && |before| == |after| && id < |before|
    && (forall k :: 0 <= k < |before| && k != id ==> after[k] == before[k])
    && after[id].status == before[id].status
    && |after[id].attempts| == |before[id].attempts|
    && RevisionIsCurrent(after[id]) == RevisionIsCurrent(before[id])
  }

  /** The runtime gate of `dispatch`, judged by the row as it was listed: what may be really sent in this call. */
  predicate ActualAllowed(a: Action, allowReply: bool, allowNotification: bool) {
    a.mode == Production && (if a.kind == SendReply then allowReply else allowNotification)
  }

  /** A real send, with the mode its row had in the listing. */
  datatype Send = Send(id: nat, listed: ExecutionMode)

  /** A row as `list_dispatchable_actions` returned it. */
  datatype Listed = Listed(id: nat, row: Action)

  /** What was sent may be sent, in terms of the row as it is now: only an owner notice can have changed its mode. */
  predicate SendAllowed(a: Action, send: Send, allowReply: bool, allowNotification: bool) {
    && send.listed == Production
    && (if a.kind == SendReply then allowReply && a.mode == Production else allowNotification)
  }

  ghost predicate AllAllowed(log: seq<Send>, from: nat, store: Store, allowReply: bool, allowNotification: bool) {
    forall i :: from <= i < |log| ==>
      log[i].id < |store| && SendAllowed(store[log[i].id], log[i], allowReply, allowNotification)
  }

  lemma AllowedGoesOn(log: seq<Send>, longer: seq<Send>, from: nat, before: Store, after: Store, allowReply: bool, allowNotification: bool)
    requires Extends(before, after) && log <= longer
    requires AllAllowed(log, from, before, allowReply, allowNotification)
    requires AllAllowed(longer, |log|, after, allowReply, allowNotification)
    ensures AllAllowed(longer, from, after, allowReply, allowNotification)
  {
    forall i | from <= i < |longer|
      ensures longer[i].id < |after| && SendAllowed(after[longer[i].id], longer[i], allowReply, allowNotification)
    {
      if i < |log| {
        assert longer[i] == log[i] && SendAllowed(before[log[i].id], log[i], allowReply, allowNotification);
        assert Continues(before[log[i].id], after[log[i].id]);
      }
    }
  }

  /** How often the log holds a real send of action `id`. */
  ghost function Sends(log: seq<Send>, id: nat): nat {
    if log == [] then 0 else Sends(log[..|log| - 1], id) + if log[|log| - 1].id == id then 1 else 0
  }

  /** Every logged send is a counted call of the real send. */
  ghost predicate Accounted(log: seq<Send>, store: Store) {
    && (forall i :: 0 <= i < |log| ==> log[i].id < |store|)
    && (forall id {:trigger Sends(log, id)} :: 0 <= id < |store| ==> Sends(log, id) <= store[id].calls)
  }

  lemma {:induction false} NotYetSent(log: seq<Send>, id: nat)
    requires forall i :: 0 <= i < |log| ==> log[i].id < id
    ensures Sends(log, id) == 0
  {
    if log != [] {
      NotYetSent(log[..|log| - 1], id);
    }
  }

  lemma StaysAccounted(log: seq<Send>, before: Store, after: Store)
    requires Accounted(log, before) && Extends(before, after)
    ensures Accounted(log, after)
  {
    forall id | 0 <= id < |after| ensures Sends(log, id) <= after[id].calls {
      if id >= |before| {
        NotYetSent(log, id);
      }
    }
  }

  lemma SendIsAccounted(log: seq<Send>, before: Store, after: Store, send: Send)
    requires Accounted(log, before) && Extends(before, after) && send.id < |before|
    requires before[send.id].calls < after[send.id].calls
    ensures Accounted(log + [send], after)
  {
    StaysAccounted(log, before, after);
    forall k | 0 <= k < |after| ensures Sends(log + [send], k) <= after[k].calls {
      assert (log + [send])[..|log|] == log;
      assert Sends(log, k) <= after[k].calls;
      assert k == send.id ==> Sends(log, k) <= before[k].calls;
    }
  }

  class DispatchProcess {
    var store: Store
    /** The actions whose real send this process called, in order. */
    var sendLog: seq<Send>
    ghost var history: seq<StoreStep>
    ghost const initial: Store

    constructor (store: Store)
      ensures Valid() && this.store == initial == store && sendLog == [] && history == []
    {
      this.store, this.initial := store, store;
      sendLog, history := [], [];
    }

    /** The store is what the recorded interleaving made of the initial one. */
    ghost predicate Valid()
      reads this
    {
      store == RunStore(initial, history) && Accounted(sendLog, store)
    }

    ghost predicate LogWithin(from: nat, allowReply: bool, allowNotification: bool)
      reads this
    {
      AllAllowed(sendLog, from, store, allowReply, allowNotification)
    }

    method Commit(steps: seq<StoreStep>)
      requires Valid() && Extends(store, RunStore(store, steps))
      modifies this`store, this`history
      ensures Valid() && history == old(history) + steps && store == RunStore(old(store), steps)
    {
      RunStoreAppend(initial, history, steps);
      StaysAccounted(sendLog, store, RunStore(store, steps));
      store, history := Replay(store, steps), history + steps;
    }

    function Replay(from: Store, steps: seq<StoreStep>): Store {
      RunStore(from, steps)
    }

    method Do(id: nat, step: Step)
      requires Valid() && id < |store|
      modifies this`store, this`history
      ensures Valid() && history == old(history) + [On(id, step)]
      ensures store == old(store)[id := Apply(old(store[id]), step)]
    {
      assert RunStore(ApplyToStore(store, On(id, step)), []) == ApplyToStore(store, On(id, step));
      StepContinues(store[id], step);
      Commit([On(id, step)]);
    }

    /** Store transactions that do not belong to a dispatch run of this process. */
    method Interleave(steps: seq<StoreStep>)
      requires Valid()
      modifies this`store, this`history
      ensures Valid() && history == old(history) + steps && store == RunStore(old(store), steps)
      ensures Extends(old(store), store)
    {
      forall k | 0 <= k < |store| ensures Continues(store[k], RunStore(store, steps)[k]) {
        StoreContinues(store, steps, k);
      }
      Commit(steps);
    }

    /** Other processes run for a while; they cannot act for run `w` of action `id`. */
    method Yield(steps: seq<StoreStep>, id: nat, w: nat)
      requires Valid() && id < |store|
      modifies this`store, this`history
      ensures Valid() && old(history) <= history && Extends(old(store), store)
      ensures KeepsRun(old(store[id]), store[id], w)
      ensures steps == [] ==> store == old(store)
    {
      var foreign := ForeignSteps(steps, id, w);
      ForeignStepsKeepRun(store, foreign, id, w);
      Interleave(foreign);
    }

    /** The part of `_execute_actual` before the real send: revision check, dry run, revision check. */
    method PrepareSend(id: nat, w: nat, turn: nat, env: DispatchEnv) returns (stop: Option<ActionStatus>)
      requires Valid() && id < |store| && w < |store[id].attempts| && At(store[id], w, Claimed)
      modifies this`store, this`history
      ensures Valid() && old(history) <= history && Extends(old(store), store)
      ensures Quiet(env, turn) ==> RunsAlone(old(store), store, id)
      ensures w < |store[id].attempts|
      ensures At(store[id], w, if stop.None? then ClearedToSend else Returning(stop.value, None))
      ensures Quiet(env, turn) ==> stop == if !RevisionIsCurrent(old(store[id])) then Some(Cancelled)
                                           else if !env.dryRunOk(turn) then Some(Failed) else None
      ensures stop.None? ==> env.dryRunOk(turn)
      ensures stop.Some? ==> stop.value == Cancelled || (stop.value == Failed && !env.dryRunOk(turn))
    {
      Yield(env.others(turn, 0), id, w);
      var current := RevisionIsCurrent(store[id]);
      Do(id, CheckRevision(w));
      if !current {
        return Some(Cancelled);
      }
      stop := DryRunAndRecheck(id, w, turn, env);
    }

    method RunDryRun(id: nat, w: nat, turn: nat, env: DispatchEnv) returns (ok: bool)
      requires Valid() && id < |store| && w < |store[id].attempts| && At(store[id], w, RevisionChecked)
      modifies this`store, this`history
      ensures Valid() && old(history) <= history && Extends(old(store), store)
      ensures Quiet(env, turn) ==> RunsAlone(old(store), store, id)
      ensures w < |store[id].attempts| && ok == env.dryRunOk(turn)
      ensures At(store[id], w, if ok then DryRunPassed else Returning(Failed, None))
    {
      Yield(env.others(turn, 1), id, w);
      ok := env.dryRunOk(turn);
      Do(id, DryRun(w, ok));
    }

    method Recheck(id: nat, w: nat, turn: nat, env: DispatchEnv) returns (current: bool)
      requires Valid() && id < |store| && w < |store[id].attempts| && At(store[id], w, DryRunPassed)
      modifies this`store, this`history
      ensures Valid() && old(history) <= history && Extends(old(store), store)
      ensures Quiet(env, turn) ==> RunsAlone(old(store), store, id) && current == RevisionIsCurrent(old(store[id]))
      ensures w < |store[id].attempts|
      ensures At(store[id], w, if current then ClearedToSend else Returning(Cancelled, None))
    {
      Yield(env.others(turn, 2), id, w);
      current := RevisionIsCurrent(store[id]);
      Do(id, RecheckRevision(w));
    }

    method DryRunAndRecheck(id: nat, w: nat, turn: nat, env: DispatchEnv) returns (stop: Option<ActionStatus>)
      requires Valid() && id < |store| && w < |store[id].attempts| && At(store[id], w, RevisionChecked)
      modifies this`store, this`history
      ensures Valid() && old(history) <= history && Extends(old(store), store)
      ensures Quiet(env, turn) ==> RunsAlone(old(store), store, id)
      ensures w < |store[id].attempts|
      ensures At(store[id], w, if stop.None? then ClearedToSend else Returning(stop.value, None))
      ensures Quiet(env, turn) && RevisionIsCurrent(old(store[id])) ==>
                stop == if !env.dryRunOk(turn) then Some(Failed) else None
      ensures stop.None? ==> env.dryRunOk(turn)
      ensures stop.Some? ==> stop.value == Cancelled || (stop.value == Failed && !env.dryRunOk(turn))
    {
      var dryRunOk := RunDryRun(id, w, turn, env);
      if !dryRunOk {
        return Some(Failed);
      }
      var current := Recheck(id, w, turn, env);
      return if current then None else Some(Cancelled);
    }

    /** `_execute_actual`: the real send happens only when everything before it has passed. */
    method ExecuteActual(id: nat, w: nat, turn: nat, listed: ExecutionMode, env: DispatchEnv)
      returns (status: ActionStatus, sentId: Option<string>)
      requires Valid() && id < |store| && w < |store[id].attempts| && At(store[id], w, Claimed)
      modifies this
      ensures Valid() && old(history) <= history && Extends(old(store), store)
      ensures Quiet(env, turn) ==> RunsAlone(old(store), store, id)
      ensures w < |store[id].attempts| && At(store[id], w, Returning(status, sentId))
      ensures sendLog == old(sendLog) || sendLog == old(sendLog) + [Send(id, listed)]
      ensures Quiet(env, turn) ==>
                && status == QuietStatus(old(store[id]), turn, env)
                && sendLog == old(sendLog) + if QuietSends(old(store[id]), turn, env) then [Send(id, listed)] else []
      ensures status == Cancelled ==> sendLog == old(sendLog)
      ensures status == Sent || status == FailedNeedsReview ==> sendLog == old(sendLog) + [Send(id, listed)]
      ensures !env.dryRunOk(turn) ==> sendLog == old(sendLog)
      ensures status == Sent || status == FailedNeedsReview || status == Failed || status == Cancelled
    {
      var stop := PrepareSend(id, w, turn, env);
      if stop.Some? {
        return stop.value, None;
      }
      status, sentId := SendAndRecord(id, w, turn, listed, env);
    }

    /** `_call_send` */
    method CallSend(id: nat, w: nat, listed: ExecutionMode, accepts: bool, reply: Reply)
      requires Valid() && id < |store| && w < |store[id].attempts| && At(store[id], w, ClearedToSend)
      modifies this
      ensures Valid() && history == old(history) + [On(id, CallProvider(w, accepts, reply))]
      ensures store == old(store)[id := Apply(old(store[id]), CallProvider(w, accepts, reply))]
      ensures sendLog == old(sendLog) + [Send(id, listed)]
    {
      ghost var before := store;
      Do(id, CallProvider(w, accepts, reply));
      SendIsAccounted(sendLog, before, store, Send(id, listed));
      sendLog := sendLog + [Send(id, listed)];
    }

    method SendAndRecord(id: nat, w: nat, turn: nat, listed: ExecutionMode, env: DispatchEnv)
      returns (status: ActionStatus, sentId: Option<string>)
      requires Valid() && id < |store| && w < |store[id].attempts| && At(store[id], w, ClearedToSend)
      modifies this
      ensures Valid() && old(history) <= history && Extends(old(store), store)
      ensures Quiet(env, turn) ==> RunsAlone(old(store), store, id)
      ensures w < |store[id].attempts| && At(store[id], w, Returning(status, sentId))
      ensures sendLog == old(sendLog) + [Send(id, listed)]
      ensures status == AnswerStatus(env.reply(turn))
    {
      Yield(env.others(turn, 3), id, w);
      var reply := env.reply(turn);
      CallSend(id, w, listed, env.accepts(turn), reply);
      status, sentId := RecordAndReadBack(id, w, turn, reply, env);
    }

    method RecordAndReadBack(id: nat, w: nat, turn: nat, reply: Reply, env: DispatchEnv)
      returns (status: ActionStatus, sentId: Option<string>)
      requires Valid() && id < |store| && w < |store[id].attempts| && At(store[id], w, Answered(reply))
      modifies this`store, this`history
      ensures Valid() && old(history) <= history && Extends(old(store), store)
      ensures Quiet(env, turn) ==> RunsAlone(old(store), store, id)
      ensures w < |store[id].attempts| && At(store[id], w, Returning(status, sentId))
      ensures status == AnswerStatus(reply)
    {
      RecordTheSend(id, w, turn, reply, env);
      status, sentId := AnswerStatus(reply), None;
      if status == Sent {
        sentId := reply.result.messageId;
        ReadBackTheSend(id, w, turn, sentId.value, env);
      }
    }

    method RecordTheSend(id: nat, w: nat, turn: nat, reply: Reply, env: DispatchEnv)
      requires Valid() && id < |store| && w < |store[id].attempts| && At(store[id], w, Answered(reply))
      modifies this`store, this`history
      ensures Valid() && old(history) <= history && Extends(old(store), store)
      ensures Quiet(env, turn) ==> RunsAlone(old(store), store, id)
      ensures w < |store[id].attempts|
      ensures At(store[id], w, if AnswerStatus(reply) == Sent then SendRecorded(reply.result.messageId.value)
                               else Returning(AnswerStatus(reply), None))
    {
      Yield(env.others(turn, 4), id, w);
      RecordedAnswer(store[id], w, reply);
      Do(id, RecordSend(w));
    }

    method ReadBackTheSend(id: nat, w: nat, turn: nat, sentId: string, env: DispatchEnv)
      requires Valid() && id < |store| && w < |store[id].attempts| && At(store[id], w, SendRecorded(sentId))
      modifies this`store, this`history
      ensures Valid() && old(history) <= history && Extends(old(store), store)
      ensures Quiet(env, turn) ==> RunsAlone(old(store), store, id)
      ensures w < |store[id].attempts| && At(store[id], w, Returning(Sent, Some(sentId)))
    {
      Yield(env.others(turn, 5), id, w);
      Do(id, ReadBack(w, env.readBackOk(turn)));
    }

    /** `claim_action_for_dispatch`: the attempt number, or nothing when the row is no longer pending. */
    method ClaimListed(id: nat) returns (w: Option<nat>)
      requires Valid() && id < |store|
      modifies this`store, this`history
      ensures Valid() && old(history) <= history && Extends(old(store), store)
      ensures w.Some? <==> old(store[id]).status == Pending
      ensures w.None? ==> store == old(store)
      ensures w.Some? ==>
                && w.value == |old(store[id]).attempts| && w.value + 1 == |store[id].attempts| && At(store[id], w.value, Claimed)
                && |store| == |old(store)| && (forall k :: 0 <= k < |store| && k != id ==> store[k] == old(store[k]))
                && store[id].status == Sending && RevisionIsCurrent(store[id]) == RevisionIsCurrent(old(store[id]))
    {
      if store[id].status != Pending {
        return None;
      }
      w := Some(|store[id].attempts|);
      StepContinues(store[id], Claim);
      Do(id, Claim);
    }

    /** Execute and finish a claimed action. */
    method RunClaimed(id: nat, w: nat, turn: nat, listed: ExecutionMode, env: DispatchEnv)
      requires Valid() && id < |store| && w < |store[id].attempts| && At(store[id], w, Claimed)
      modifies this
      ensures Valid() && old(history) <= history && Extends(old(store), store)
      ensures sendLog == old(sendLog) || sendLog == old(sendLog) + [Send(id, listed)]
      ensures Quiet(env, turn) && old(store[id]).status == Sending && w + 1 == |old(store[id]).attempts| ==>
                && |store| == |old(store)|
                && (forall k :: 0 <= k < |store| && k != id ==> store[k] == old(store[k]))
                && store[id].status == QuietStatus(old(store[id]), turn, env)
                && sendLog == old(sendLog) + if QuietSends(old(store[id]), turn, env) then [Send(id, listed)] else []
    {
      var status, sentId := ExecuteActual(id, w, turn, listed, env);
      Yield(env.others(turn, 6), id, w);
      StepContinues(store[id], Finish(w));
      Do(id, Finish(w));
    }

    /**
     One loop turn: claim, execute, finish. Whether it may send is judged by the row as it was listed;
     by the time of the claim others may have taken the action, and then the turn is skipped.
     */
    method DispatchOne(listed: Listed, turn: nat, allowReply: bool, allowNotification: bool, env: DispatchEnv)
      requires Valid() && listed.id < |store| && Continues(listed.row, store[listed.id])
      modifies this
      ensures Valid() && old(history) <= history && Extends(old(store), store)
      ensures sendLog == old(sendLog) || sendLog == old(sendLog) + [Send(listed.id, listed.row.mode)]
      ensures sendLog != old(sendLog) ==> ActualAllowed(listed.row, allowReply, allowNotification)
      ensures Quiet(env, turn) && ActualAllowed(listed.row, allowReply, allowNotification) && old(store[listed.id]).status == Pending ==>
                && |store| == |old(store)|
                && (forall k :: 0 <= k < |store| && k != listed.id ==> store[k] == old(store[k]))
                && store[listed.id].status == QuietStatus(old(store[listed.id]), turn, env)
                && sendLog == old(sendLog)
                     + if QuietSends(old(store[listed.id]), turn, env) then [Send(listed.id, listed.row.mode)] else []
      ensures Quiet(env, turn) && old(store[listed.id]).status != Pending ==> store == old(store)
      ensures Quiet(env, turn) && !ActualAllowed(listed.row, allowReply, allowNotification) ==> store == old(store)
    {
      Interleave(env.others(turn, 7));
      if ActualAllowed(listed.row, allowReply, allowNotification) {
        var w := ClaimListed(listed.id);
        if w.Some? {
          RunClaimed(listed.id, w.value, turn, listed.row.mode, env);
        }
      }
    }

    /** `mark_stale_sending_actions_failed_needs_review` over the rows old enough. */
    method RecoverStaleActions(env: DispatchEnv)
      requires Valid()
      modifies this`store, this`history
      ensures Valid() && old(history) <= history && |store| == |old(store)|
      ensures forall k :: 0 <= k < |store| ==>
                store[k] == if env.isStale(k) then RecoverStaleSending(old(store[k])) else old(store[k])
      ensures forall k :: 0 <= k < |store| && env.isStale(k) ==>
                && store[k].status != Sending
                && (old(store[k]).status == Sending ==>
                      store[k].status == if WasReadBack(old(store[k])) then Sent else FailedNeedsReview)
    {
      var id := 0;
      while id < |store|
        invariant id <= |store| == |old(store)| && Valid() && old(history) <= history
        invariant forall k :: 0 <= k < id ==>
                    store[k] == if env.isStale(k) then RecoverStaleSending(old(store[k])) else old(store[k])
        invariant forall k :: id <= k < |store| ==> store[k] == old(store[k])
      {
        if env.isStale(id) {
          Do(id, RecoverStale);
        }
        id := id + 1;
      }
      forall k | 0 <= k < |store| && env.isStale(k)
        ensures store[k].status != Sending
        ensures old(store[k]).status == Sending ==> store[k].status == if WasReadBack(old(store[k])) then Sent else FailedNeedsReview
      {
        RecoveryExactly(old(store[k]));
      }
    }

    /** One query of `list_dispatchable_actions`, after which others may step again. */
    method List(limit: nat, kind: Option<ActionKind>, before: seq<StoreStep>) returns (rows: seq<Listed>)
      requires Valid()
      modifies this`store, this`history
      ensures Valid() && old(history) <= history && Extends(old(store), store)
      ensures rows == Rows(store, ListDispatchable(store, limit, kind)) && AreListed(rows, store)
      ensures before == [] ==> store == old(store)
    {
      Interleave(before);
      rows := Rows(store, ListDispatchable(store, limit, kind));
    }

    /** Both listings of one call. */
    method ListAll(limit: nat, allowNotification: bool, env: DispatchEnv) returns (rows: seq<Listed>)
      requires Valid()
      modifies this`store, this`history
      ensures Valid() && old(history) <= history && Extends(old(store), store) && AreListed(rows, store)
      ensures AllQuiet(env) ==> store == old(store) && rows == FullListing(store, limit, allowNotification)
    {
      assert AllQuiet(env) ==> Quiet(env, 0);
      rows := List(limit, None, env.others(0, 8));
      if allowNotification {
        ghost var was := store;
        var more := List(limit, Some(OwnerNotification), env.others(0, 9));
        StayListed(rows, was, store);
        ListedTogether(rows, more, store);
        rows := rows + Unseen(more, rows);
      }
    }

    /**
     `dispatch`: whatever the other processes do between any two of its transactions, only allowed
     actions are really sent; and with no other process at work, no allowed action that it lists, owner
     notices of the second listing included, stays pending.
     */
    method Dispatch(limit: nat, allowReply: bool, allowNotification: bool, env: DispatchEnv)
      requires Valid()
      modifies this
      ensures Valid() && old(history) <= history && Extends(old(store), store)
      ensures old(sendLog) <= sendLog && LogWithin(|old(sendLog)|, allowReply, allowNotification)
      ensures AllQuiet(env) ==>
                Settled(FullListing(Recovered(old(store), env), limit, allowNotification), allowReply, allowNotification)
    {
      RecoverStaleActions(env);
      assert store == Recovered(old(store), env);
      forall k | 0 <= k < |store| ensures Continues(old(store[k]), store[k]) {
        StepContinues(old(store[k]), RecoverStale);
      }
      var rows := ListAll(limit, allowNotification, env);
      DispatchAll(rows, allowReply, allowNotification, env);
    }

    method DispatchAll(rows: seq<Listed>, allowReply: bool, allowNotification: bool, env: DispatchEnv)
      requires Valid() && AreListed(rows, store)
      modifies this
      ensures Valid() && old(history) <= history && Extends(old(store), store)
      ensures old(sendLog) <= sendLog && LogWithin(|old(sendLog)|, allowReply, allowNotification)
      ensures AllQuiet(env) ==> Settled(rows, allowReply, allowNotification)
    {
      var turn := 0;
      while turn < |rows|
        invariant turn <= |rows| && Valid() && old(history) <= history && Extends(old(store), store)
        invariant AreListed(rows, store)
        invariant old(sendLog) <= sendLog && LogWithin(|old(sendLog)|, allowReply, allowNotification)
        invariant AllQuiet(env) ==> Settled(rows[..turn], allowReply, allowNotification)
      {
        ghost var log, was := sendLog, store;
        DispatchTurn(rows, turn, allowReply, allowNotification, env);
        AllowedGoesOn(log, sendLog, |old(sendLog)|, was, store, allowReply, allowNotification);
        turn := turn + 1;
      }
      assert rows[..turn] == rows;
    }

    /** The turn of one row of a listing. */
    method DispatchTurn(rows: seq<Listed>, turn: nat, allowReply: bool, allowNotification: bool, env: DispatchEnv)
      requires Valid() && AreListed(rows, store) && turn < |rows|
      modifies this
      ensures Valid() && old(history) <= history && Extends(old(store), store) && AreListed(rows, store)
      ensures old(sendLog) <= sendLog && LogWithin(|old(sendLog)|, allowReply, allowNotification)
      ensures Quiet(env, turn) && old(Settled(rows[..turn], allowReply, allowNotification)) ==>
                Settled(rows[..turn + 1], allowReply, allowNotification)
    {
      DispatchOne(rows[turn], turn, allowReply, allowNotification, env);
      StayListed(rows, old(store), store);
      assert Continues(rows[turn].row, store[rows[turn].id]);
      assert rows[..turn + 1] == rows[..turn] + [rows[turn]];
    }

    /** No allowed action of a listing is pending any more. */
    ghost predicate Settled(rows: seq<Listed>, allowReply: bool, allowNotification: bool)
      reads this
    {
      AllSettled(rows, allowReply, allowNotification, store)
    }
  }

  ghost predicate AllSettled(rows: seq<Listed>, allowReply: bool, allowNotification: bool, store: Store) {
    forall k :: 0 <= k < |rows| ==>
      rows[k].id < |store|
      && (rows[k].row.mode == Production && (if rows[k].row.kind == SendReply then allowReply else allowNotification) ==>
            store[rows[k].id].status != Pending)
  }

  ghost predicate AllQuiet(env: DispatchEnv) {
    forall turn :: Quiet(env, turn)
  }

  /** The rows are earlier versions of rows of the store. */
  ghost predicate AreListed(rows: seq<Listed>, store: Store) {
    forall k :: 0 <= k < |rows| ==> rows[k].id < |store| && Continues(rows[k].row, store[rows[k].id])
  }

  lemma StayListed(rows: seq<Listed>, before: Store, after: Store)
    requires AreListed(rows, before) && Extends(before, after)
    ensures AreListed(rows, after)
  {
    forall k | 0 <= k < |rows| ensures rows[k].id < |after| && Continues(rows[k].row, after[rows[k].id]) {
      assert Continues(rows[k].row, before[rows[k].id]);
    }
  }

  lemma ListedTogether(rows: seq<Listed>, more: seq<Listed>, store: Store)
    requires AreListed(rows, store) && AreListed(more, store)
    ensures AreListed(rows + Unseen(more, rows), store)
  {
    var rest := Unseen(more, rows);
    forall k | 0 <= k < |rest| ensures rest[k].id < |store| && Continues(rest[k].row, store[rest[k].id]) {
      assert rest[k] in more;
    }
  }

  function Rows(store: Store, ids: seq<nat>): (rows: seq<Listed>)
    requires forall k :: 0 <= k < |ids| ==> ids[k] < |store|
    ensures |rows| == |ids|
    ensures forall k :: 0 <= k < |ids| ==> rows[k] == Listed(ids[k], store[ids[k]])
  {
    seq(|ids|, k requires 0 <= k < |ids| => Listed(ids[k], store[ids[k]]))
  }

  predicate IsSeen(id: nat, seen: seq<Listed>) {
    exists k :: 0 <= k < |seen| && seen[k].id == id
  }

  function Unseen(more: seq<Listed>, seen: seq<Listed>): (rest: seq<Listed>)
    ensures forall k :: 0 <= k < |rest| ==> rest[k] in more
  {
    if more == [] then []
    else (if IsSeen(more[0].id, seen) then [] else [more[0]]) + Unseen(more[1..], seen)
  }

  /** Everything one undisturbed call of `dispatch` lists. */
  function FullListing(store: Store, limit: nat, allowNotification: bool): seq<Listed> {
    var rows := Rows(store, ListDispatchable(store, limit, None));
    if allowNotification then rows + Unseen(Rows(store, ListDispatchable(store, limit, Some(OwnerNotification))), rows) else rows
  }

  lemma {:induction false} UnseenKeepsNew(more: seq<Listed>, seen: seq<Listed>, row: Listed)
    requires row in more && !IsSeen(row.id, seen)
    ensures row in Unseen(more, seen)
  {
    if row != more[0] {
      UnseenKeepsNew(more[1..], seen, row);
    }
  }

  lemma {:induction false} UnseenIsNew(more: seq<Listed>, seen: seq<Listed>, row: Listed)
    requires row in Unseen(more, seen)
    ensures row in more && !IsSeen(row.id, seen)
  {
    if row in Unseen(more[1..], seen) {
      UnseenIsNew(more[1..], seen, row);
    }
  }

  ghost predicate Holds(rows: seq<Listed>, store: Store, id: nat) {
    id < |store| && Listed(id, store[id]) in rows
  }

  lemma RowsHold(store: Store, ids: seq<nat>, id: nat)
    requires forall k :: 0 <= k < |ids| ==> ids[k] < |store|
    ensures id in ids <==> Holds(Rows(store, ids), store, id)
    ensures id in ids <==> IsSeen(id, Rows(store, ids))
  {
    var rows := Rows(store, ids);
    if id in ids {
      var k :| 0 <= k < |ids| && ids[k] == id;
      assert rows[k] == Listed(id, store[id]);
    }
  }

  /**
   What an undisturbed call lists: everything of the first query, and when owner notices may be sent also
   everything of the second, of which it takes nothing twice.
   */
  lemma FullListingExactly(store: Store, limit: nat, allowNotification: bool, id: nat)
    requires id < |store|
    ensures var first, second := ListDispatchable(store, limit, None), ListDispatchable(store, limit, Some(OwnerNotification));
            var rows := FullListing(store, limit, allowNotification);
            && (Holds(rows, store, id) <==> id in first || (allowNotification && id in second))
            && rows[..|first|] == Rows(store, first)
            && forall k :: |first| <= k < |rows| ==> rows[k].id !in first
  {
    var first, second := ListDispatchable(store, limit, None), ListDispatchable(store, limit, Some(OwnerNotification));
    var listed, more := Rows(store, first), Rows(store, second);
    var rest := Unseen(more, listed);
    RowsHold(store, first, id);
    RowsHold(store, second, id);
    var row := Listed(id, store[id]);
    if row in more && !IsSeen(id, listed) {
      UnseenKeepsNew(more, listed, row);
    }
    if row in rest {
      UnseenIsNew(more, listed, row);
    }
    forall k | 0 <= k < |rest| ensures rest[k].id !in first {
      UnseenIsNew(more, listed, rest[k]);
      RowsHold(store, first, rest[k].id);
    }
    assert row in listed + rest <==> row in listed || row in rest;
  }

  // ---------------------------------------------------------------- what the machine proves of the process

  /** The steps of a store-wide history that concern one action. */
  function StepsOf(steps: seq<StoreStep>, id: nat): seq<Step> {
    if steps == [] then []
    else (if steps[0].On? && steps[0].id == id then [steps[0].step] else []) + StepsOf(steps[1..], id)
  }

  /** Each action of the store runs the one-action machine on its own steps. */
  lemma {:induction false} StoreRunsEachAction(store: Store, steps: seq<StoreStep>, id: nat)
    requires id < |store|
    ensures RunStore(store, steps)[id] == RunSteps(store[id], StepsOf(steps, id))
    decreases |steps|
  {
    if steps != [] {
      StoreRunsEachAction(ApplyToStore(store, steps[0]), steps[1..], id);
      if steps[0].On? && steps[0].id == id {
        assert StepsOf(steps, id)[1..] == StepsOf(steps[1..], id);
      } else {
        assert StepsOf(steps, id) == StepsOf(steps[1..], id);
      }
    }
  }

  /** The store of a process stays sound as long as the whole interleaving was disciplined. */
  lemma ProcessKeepsStoreSound(p: DispatchProcess)
    requires p.Valid() && StoreSound(p.initial) && StoreDisciplinedRun(p.initial, p.history)
    ensures StoreSound(p.store)
  {
    StoreStaysSound(p.initial, p.history);
  }

  /** Whatever the processes and the owner do, each action of the store is delivered at most once if the run is careful. */
  lemma ProcessDeliversAtMostOnce(p: DispatchProcess, id: nat)
    requires p.Valid() && StoreSingle(p.initial) && StoreCarefulRun(p.initial, p.history) && id < |p.store|
    ensures p.store[id].accepted <= 1
  {
    StoreStaysSingle(p.initial, p.history);
  }

  /** A process really sends an action at most once unless a step of some process reopens it after it was tried. */
  lemma ProcessSendsAtMostOnce(p: DispatchProcess, id: nat)
    requires p.Valid() && id < |p.store| && (id < |p.initial| ==> SentOnce(p.initial[id]))
    requires StoreReopensOnlyUntried(p.initial, p.history, id)
    ensures Sends(p.sendLog, id) <= 1
  {
    StoreSendsOnce(p.initial, p.history, id);
  }

  function Recovered(store: Store, env: DispatchEnv): (r: Store)
    ensures |r| == |store|
  {
    seq(|store|, k requires 0 <= k < |store| => if env.isStale(k) then RecoverStaleSending(store[k]) else store[k])
  }
}
