/**
 One daemon tick: the ingestion stages, then dispatch. Owner commands reach the daemon through the
 approval inbox, so a tick whose inbox stage did not succeed must not send replies.
 */
module DaemonTick {
  import opened Base
  import opened IngestionModel
  import opened IngestionSafety
  import opened IngestionService
  import opened DispatchModel
  import opened Dispatcher

  datatype StageName = BotMembership | ProcessingRetries | ApprovalInbox | Ingest(source: nat)

  datatype StageResult = StageResult(name: StageName, ok: bool)

  /** How the stage at a position goes, and the store transactions it makes on actions. */
  datatype StageRun = StageRun(raises: bool, ok: bool, steps: seq<StoreStep>)

  /** Everything one tick meets; `expired` are the actions whose approvals have run out. */
  datatype DaemonEnv = DaemonEnv(
    configured: bool,
    healthy: bool,
    expired: seq<nat>,
    botIdKnown: bool,
    inbox: TickEnv,
    stage: nat -> StageRun,
    dispatch: DispatchEnv)

  predicate ApprovalFailed(results: seq<StageResult>) {
    exists i :: 0 <= i < |results| && results[i].name.ApprovalInbox? && !results[i].ok
  }

  /** Whether the inbox stage of a tick counts as successful. */
  predicate InboxStageOk(hasApprovalService: bool, botIdKnown: bool, tick: TickResult) {
    !hasApprovalService || (botIdKnown && !tick.raised && tick.complete)
  }

  /** The order of the stages: the inbox comes third. */
  function StageAt(ingestStages: seq<nat>, i: nat): StageName
    requires i < 3 + |ingestStages|
  {
    if i == 0 then BotMembership else if i == 1 then ProcessingRetries else if i == 2 then ApprovalInbox else Ingest(ingestStages[i - 3])
  }

  ghost predicate InOrder(results: seq<StageResult>, ingestStages: seq<nat>) {
    |results| <= 3 + |ingestStages| && forall k :: 0 <= k < |results| ==> results[k].name == StageAt(ingestStages, k)
  }

  lemma InOrderGrows(results: seq<StageResult>, ingestStages: seq<nat>, r: StageResult)
    requires InOrder(results, ingestStages) && |results| < 3 + |ingestStages|
    requires r.name == StageAt(ingestStages, |results|)
    ensures InOrder(results + [r], ingestStages)
  {
  }

  lemma OnlyTheInboxCounts(results: seq<StageResult>, ingestStages: seq<nat>)
    requires InOrder(results, ingestStages) && |results| > 2
    ensures ApprovalFailed(results) <==> !results[2].ok
  {
    assert results[2].name.ApprovalInbox?;
  }

  /** The store transactions of the stage at position `i`; the inbox stage, the third, applies commands only if it runs. */
  function StepsOfStage(env: DaemonEnv, inboxRuns: bool, i: nat): seq<StoreStep> {
    if i == 2 && !inboxRuns then [] else env.stage(i).steps
  }

  /** The store transactions of the first `n` stages. */
  function StepsBefore(env: DaemonEnv, inboxRuns: bool, n: nat): seq<StoreStep> {
    if n == 0 then [] else StepsBefore(env, inboxRuns, n - 1) + StepsOfStage(env, inboxRuns, n - 1)
  }

  /** `expire_pending_approvals`: pending actions of the approvals that have run out are cancelled. */
  function ExpirySteps(expired: seq<nat>): seq<StoreStep> {
    if expired == [] then [] else [On(expired[0], CancelPending)] + ExpirySteps(expired[1..])
  }

  /** Expiry cancels exactly the pending ones among those actions and changes nothing else. */
  lemma {:induction false} ExpiryCancelsPendingOnly(store: Store, expired: seq<nat>, id: nat)
    requires id < |store|
    ensures var after := RunStore(store, ExpirySteps(expired));
            |after| == |store|
            && after[id] == if id in expired && store[id].status == Pending then store[id].(status := Cancelled) else store[id]
    decreases |expired|
  {
    if expired != [] {
      var step := On(expired[0], CancelPending);
      assert ExpirySteps(expired)[1..] == ExpirySteps(expired[1..]);
      ExpiryCancelsPendingOnly(ApplyToStore(store, step), expired[1..], id);
    }
  }

  class Daemon {
    const dryRun: bool
    const sendOwnerNotifications: bool
    const hasApprovalService: bool
    const ingestStages: seq<nat>
    const inbox: MessageSource
    const dispatcher: DispatchProcess
    /** The runs of the inbox stage so far, from the state the inbox was opened in. */
    ghost var inboxRuns: seq<TickEnv>
    ghost const inboxStart: SourceState
    /** For each entry of the send log, how many inbox runs its tick had behind it. */
    ghost var clearance: seq<nat>

    constructor (dryRun: bool, sendOwnerNotifications: bool, hasApprovalService: bool, ingestStages: seq<nat>,
                 inbox: MessageSource, dispatcher: DispatchProcess)
      requires dispatcher.Valid() && dispatcher.sendLog == []
      ensures Valid() && inboxRuns == [] && inboxStart == inbox.State()
      ensures this.dryRun == dryRun && this.hasApprovalService == hasApprovalService
      ensures this.sendOwnerNotifications == sendOwnerNotifications
      ensures this.inbox == inbox && this.dispatcher == dispatcher
    {
      this.dryRun, this.sendOwnerNotifications, this.hasApprovalService := dryRun, sendOwnerNotifications, hasApprovalService;
      this.ingestStages, this.inbox, this.dispatcher := ingestStages, inbox, dispatcher;
      inboxRuns, clearance := [], [];
      inboxStart := inbox.State();
    }

    /** Why a real send was permissible: the mode of the daemon and of the action, and the inbox of its tick. */
    ghost predicate Permitted(a: Action, send: Send, clearedBy: nat)
      reads this
    {
      && send.listed == Production
      && (a.kind == SendReply ==>
            && a.mode == Production && !dryRun
            && (hasApprovalService ==>
                  && 1 <= clearedBy <= |inboxRuns|
                  && Tick(inbox.config, Run(inbox.config, inboxStart, inboxRuns[..clearedBy - 1]), inboxRuns[clearedBy - 1]).complete))
      && (a.kind == OwnerNotification ==> !dryRun || sendOwnerNotifications)
    }

    ghost predicate Valid()
      reads this, inbox, dispatcher
    {
      && dispatcher.Valid()
      && inbox.State() == Run(inbox.config, inboxStart, inboxRuns)
      && |clearance| == |dispatcher.sendLog|
      && forall i :: 0 <= i < |clearance| ==> Permitted(dispatcher.store[dispatcher.sendLog[i].id], dispatcher.sendLog[i], clearance[i])
    }

    /** Whether the inbox stage gets as far as reading the inbox. */
    predicate InboxRuns(env: DaemonEnv) {
      hasApprovalService && env.botIdKnown
    }

    /** `run_approval_inbox` on its source, at the stage boundary that turns an exception into a failed result. */
    method ReadInbox(env: DaemonEnv) returns (ok: bool)
      requires Valid()
      modifies this`inboxRuns, inbox
      ensures Valid()
      ensures ok == InboxStageOk(hasApprovalService, env.botIdKnown, Tick(inbox.config, old(inbox.State()), env.inbox))
      ensures inboxRuns == old(inboxRuns) + if InboxRuns(env) then [env.inbox] else []
    {
      if !hasApprovalService {
        return true;
      }
      if !env.botIdKnown {
        return false;
      }
      var outcome := inbox.RunStage(env.inbox);
      RunAppend(inbox.config, inboxStart, inboxRuns, env.inbox);
      ghost var before := inboxRuns;
      inboxRuns := inboxRuns + [env.inbox];
      assert forall k :: 0 <= k <= |before| ==> inboxRuns[..k] == before[..k];
      ok := outcome.StageReturned? && outcome.complete;
    }

    /** The third stage: the inbox is read, and the owner commands in it make their store transactions. */
    method RunInboxStage(env: DaemonEnv, ghost found: Store) returns (result: StageResult)
      requires Valid() && dispatcher.store == RunStore(found, StepsBefore(env, InboxRuns(env), 2))
      modifies this`inboxRuns, inbox, dispatcher`store, dispatcher`history
      ensures Valid() && old(dispatcher.history) <= dispatcher.history
      ensures result.name.ApprovalInbox?
      ensures var t := Tick(inbox.config, old(inbox.State()), env.inbox);
              && result.ok == InboxStageOk(hasApprovalService, env.botIdKnown, t)
              && (result.ok <==> !hasApprovalService || (env.botIdKnown && !t.raised && t.complete))
      ensures inboxRuns == old(inboxRuns) + if InboxRuns(env) then [env.inbox] else []
      ensures dispatcher.store == RunStore(found, StepsBefore(env, InboxRuns(env), 3))
    {
      var ok := ReadInbox(env);
      ApplyCommands(env, found);
      result := StageResult(ApprovalInbox, ok);
    }

    method ApplyCommands(env: DaemonEnv, ghost found: Store)
      requires Valid() && dispatcher.store == RunStore(found, StepsBefore(env, InboxRuns(env), 2))
      modifies dispatcher`store, dispatcher`history
      ensures Valid() && old(dispatcher.history) <= dispatcher.history
      ensures dispatcher.store == RunStore(found, StepsBefore(env, InboxRuns(env), 3))
    {
      TakeStageSteps(2, env, found);
    }

    /** The store transactions of one stage. */
    method TakeStageSteps(i: nat, env: DaemonEnv, ghost found: Store)
      requires dispatcher.Valid() && dispatcher.store == RunStore(found, StepsBefore(env, InboxRuns(env), i))
      modifies dispatcher`store, dispatcher`history
      ensures dispatcher.Valid() && old(dispatcher.history) <= dispatcher.history
      ensures Extends(old(dispatcher.store), dispatcher.store)
      ensures dispatcher.store == RunStore(found, StepsBefore(env, InboxRuns(env), i + 1))
    {
      var steps := StepsOfStage(env, InboxRuns(env), i);
      RunStoreAppend(found, StepsBefore(env, InboxRuns(env), i), steps);
      dispatcher.Interleave(steps);
    }

    /** One turn of the stage loop, for a stage other than the inbox; one that raises becomes a failed result. */
    method RunNextStage(i: nat, env: DaemonEnv, ghost found: Store) returns (result: StageResult)
      requires dispatcher.Valid() && i != 2 && i < 3 + |ingestStages|
      requires dispatcher.store == RunStore(found, StepsBefore(env, InboxRuns(env), i))
      modifies dispatcher`store, dispatcher`history
      ensures dispatcher.Valid() && old(dispatcher.history) <= dispatcher.history
      ensures result.name == StageAt(ingestStages, i)
      ensures Extends(old(dispatcher.store), dispatcher.store)
      ensures dispatcher.store == RunStore(found, StepsBefore(env, InboxRuns(env), i + 1))
    {
      TakeStageSteps(i, env, found);
      result := StageResult(StageAt(ingestStages, i), !env.stage(i).raises && env.stage(i).ok);
    }

    /** A stretch of the stage loop without the inbox. */
    method RunStagesUpTo(done: seq<StageResult>, to: nat, env: DaemonEnv, ghost found: Store) returns (results: seq<StageResult>)
      requires dispatcher.Valid() && dispatcher.store == RunStore(found, StepsBefore(env, InboxRuns(env), |done|))
      requires InOrder(done, ingestStages) && |done| <= to <= 3 + |ingestStages| && (to <= 2 || |done| > 2)
      modifies dispatcher`store, dispatcher`history
      ensures dispatcher.Valid() && old(dispatcher.history) <= dispatcher.history
      ensures |results| == to && InOrder(results, ingestStages) && (|done| > 2 ==> results[2] == done[2])
      ensures Extends(old(dispatcher.store), dispatcher.store)
      ensures dispatcher.store == RunStore(found, StepsBefore(env, InboxRuns(env), to))
    {
      results := done;
      var i := |done|;
      while i < to
        invariant |done| <= i <= to && |results| == i && dispatcher.Valid() && old(dispatcher.history) <= dispatcher.history
        invariant InOrder(results, ingestStages) && (|done| > 2 ==> results[2] == done[2])
        invariant Extends(old(dispatcher.store), dispatcher.store)
        invariant dispatcher.store == RunStore(found, StepsBefore(env, InboxRuns(env), i))
      {
        var result := RunNextStage(i, env, found);
        InOrderGrows(results, ingestStages, result);
        results := results + [result];
        i := i + 1;
      }
    }

    /** The stages before, or after, the inbox. */
    method RunOtherStages(done: seq<StageResult>, to: nat, env: DaemonEnv, ghost found: Store) returns (results: seq<StageResult>)
      requires Valid() && dispatcher.store == RunStore(found, StepsBefore(env, InboxRuns(env), |done|))
      requires InOrder(done, ingestStages) && |done| <= to <= 3 + |ingestStages| && (to <= 2 || |done| > 2)
      modifies dispatcher`store, dispatcher`history
      ensures Valid() && old(dispatcher.history) <= dispatcher.history
      ensures |results| == to && InOrder(results, ingestStages) && (|done| > 2 ==> results[2] == done[2])
      ensures dispatcher.store == RunStore(found, StepsBefore(env, InboxRuns(env), to))
    {
      results := RunStagesUpTo(done, to, env, found);
    }

    /** The stages of `run_one_tick`, the inbox third. */
    method RunStages(env: DaemonEnv) returns (results: seq<StageResult>)
      requires Valid()
      modifies this`inboxRuns, inbox, dispatcher`store, dispatcher`history
      ensures Valid() && old(dispatcher.history) <= dispatcher.history
      ensures ApprovalFailed(results) <==>
                !InboxStageOk(hasApprovalService, env.botIdKnown, Tick(inbox.config, old(inbox.State()), env.inbox))
      ensures inboxRuns == old(inboxRuns) + if InboxRuns(env) then [env.inbox] else []
      ensures dispatcher.store == RunStore(old(dispatcher.store), StepsBefore(env, InboxRuns(env), 3 + |ingestStages|))
    {
      ghost var found := dispatcher.store;
      var first := RunOtherStages([], 2, env, found);
      var result := RunInboxStage(env, found);
      InOrderGrows(first, ingestStages, result);
      results := RunOtherStages(first + [result], 3 + |ingestStages|, env, found);
      OnlyTheInboxCounts(results, ingestStages);
    }

    /** The inbox of the current tick was read to its end. */
    ghost predicate InboxRead()
      reads this, inbox
    {
      1 <= |inboxRuns|
      && Tick(inbox.config, Run(inbox.config, inboxStart, inboxRuns[..|inboxRuns| - 1]), inboxRuns[|inboxRuns| - 1]).complete
    }

    /** The call of `dispatch` that ends a tick. */
    method DispatchActions(approvalFailed: bool, env: DispatchEnv, limit: nat)
      requires Valid() && (hasApprovalService && !approvalFailed ==> InboxRead())
      modifies this`clearance, dispatcher
      ensures Valid() && old(dispatcher.sendLog) <= dispatcher.sendLog
      ensures dispatcher.LogWithin(|old(dispatcher.sendLog)|, !dryRun && !approvalFailed, !dryRun || sendOwnerNotifications)
      ensures AllQuiet(env) ==>
                AllSettled(FullListing(Recovered(old(dispatcher.store), env), limit, !dryRun || sendOwnerNotifications),
                  !dryRun && !approvalFailed, !dryRun || sendOwnerNotifications, dispatcher.store)
    {
      ghost var sent, runs := |dispatcher.sendLog|, |inboxRuns|;
      dispatcher.Dispatch(limit, !dryRun && !approvalFailed, !dryRun || sendOwnerNotifications, env);
      clearance := clearance + seq(|dispatcher.sendLog| - sent, i => runs);
      forall i | 0 <= i < |clearance| ensures Permitted(dispatcher.store[dispatcher.sendLog[i].id], dispatcher.sendLog[i], clearance[i]) {
        if i >= sent {
          assert SendAllowed(dispatcher.store[dispatcher.sendLog[i].id], dispatcher.sendLog[i],
                             !dryRun && !approvalFailed, !dryRun || sendOwnerNotifications);
        }
      }
    }

    /** `expire_pending_approvals`, before anything else. */
    method ExpireApprovals(env: DaemonEnv)
      requires Valid()
      modifies dispatcher`store, dispatcher`history
      ensures Valid() && old(dispatcher.history) <= dispatcher.history
      ensures dispatcher.store == RunStore(old(dispatcher.store), ExpirySteps(env.expired))
    {
      dispatcher.Interleave(ExpirySteps(env.expired));
    }

    /**
     `run_one_tick`: whatever the stages and the other processes do, a reply is really sent only by a
     tick that is not a dry run and whose inbox stage succeeded. A tick that is not configured or not
     healthy sends nothing; it only cancels the pending actions of expired approvals. The gate is no
     tighter than that: with no other process at work, every allowed action that expiry and the stages
     left in the listing is settled.
     */
    method RunOneTick(env: DaemonEnv, limit: nat)
      requires Valid()
      modifies this, inbox, dispatcher
      ensures Valid() && old(dispatcher.sendLog) <= dispatcher.sendLog && old(inboxRuns) <= inboxRuns
      ensures !env.configured || !env.healthy ==>
                && dispatcher.sendLog == old(dispatcher.sendLog) && inboxRuns == old(inboxRuns)
                && dispatcher.store == RunStore(old(dispatcher.store), ExpirySteps(env.expired))
      ensures env.configured && env.healthy ==>
                dispatcher.LogWithin(|old(dispatcher.sendLog)|,
                  !dryRun && InboxStageOk(hasApprovalService, env.botIdKnown, Tick(inbox.config, old(inbox.State()), env.inbox)),
                  !dryRun || sendOwnerNotifications)
      ensures env.configured && env.healthy && AllQuiet(env.dispatch) ==>
                var unexpired := RunStore(old(dispatcher.store), ExpirySteps(env.expired));
                var found := RunStore(unexpired, StepsBefore(env, InboxRuns(env), 3 + |ingestStages|));
                AllSettled(FullListing(Recovered(found, env.dispatch), limit, !dryRun || sendOwnerNotifications),
                  !dryRun && InboxStageOk(hasApprovalService, env.botIdKnown, Tick(inbox.config, old(inbox.State()), env.inbox)),
                  !dryRun || sendOwnerNotifications, dispatcher.store)
    {
      ExpireApprovals(env);
      if !env.configured || !env.healthy {
        return;
      }
      var results := RunStages(env);
      assert hasApprovalService && !ApprovalFailed(results) ==> inboxRuns[..|inboxRuns| - 1] == old(inboxRuns);
      DispatchActions(ApprovalFailed(results), env.dispatch, limit);
    }

    /** Any number of ticks: `run_forever` without its waits. */
    method RunTicks(envs: seq<DaemonEnv>, limit: nat)
      requires Valid()
      modifies this, inbox, dispatcher
      ensures Valid()
    {
      var i := 0;
      while i < |envs|
        invariant i <= |envs| && Valid()
      {
        RunOneTick(envs[i], limit);
        i := i + 1;
      }
    }
  }

  lemma {:induction false} RunAppend(config: Config, s: SourceState, envs: seq<TickEnv>, env: TickEnv)
    ensures Run(config, s, envs + [env]) == Tick(config, Run(config, s, envs), env).state
    decreases |envs|
  {
    if envs == [] {
      assert Run(config, Tick(config, s, env).state, []) == Tick(config, s, env).state;
    } else {
      assert (envs + [env])[1..] == envs[1..] + [env];
      RunAppend(config, Tick(config, s, envs[0]).state, envs[1..], env);
    }
  }

  /**
   What `Daemon.Permitted` says of a sent reply: the inbox window of its tick had been fetched to
   its end and every owner message in it handled before the send.
   */
  lemma ClearedReplyFollowsWholeInbox(config: Config, src: Source, start: SourceState, runs: seq<TickEnv>, clearedBy: nat)
    requires CheckpointSound(src, start) && HonestRun(src, runs) && NoneWithholds(src, runs)
    requires 1 <= clearedBy <= |runs|
    requires Tick(config, Run(config, start, runs[..clearedBy - 1]), runs[clearedBy - 1]).complete
    ensures var before := Run(config, start, runs[..clearedBy - 1]);
            WindowCovered(src, OpenWindow(config.overlap, before.checkpoint, runs[clearedBy - 1].now),
                          Run(config, start, runs[..clearedBy]).handled)
  {
    assert runs[..clearedBy] == runs[..clearedBy - 1] + [runs[clearedBy - 1]];
    LastTickCovers(config, src, start, runs[..clearedBy - 1], runs[clearedBy - 1]);
  }

  lemma LastTickCovers(config: Config, src: Source, start: SourceState, earlier: seq<TickEnv>, last: TickEnv)
    requires CheckpointSound(src, start) && HonestRun(src, earlier) && HonestFetch(src, last.fetch) && NeverWithholds(src, last.fetch)
    requires Tick(config, Run(config, start, earlier), last).complete
    ensures WindowCovered(src, OpenWindow(config.overlap, Run(config, start, earlier).checkpoint, last.now),
                          Run(config, start, earlier + [last]).handled)
  {
    RunKeepsHandled(config, src, start, earlier);
    TickIsSafe(config, src, Run(config, start, earlier), last);
    RunAppend(config, start, earlier, last);
  }

  ghost predicate GateMeansInboxRead(hasApprovalService: bool) {
    forall botIdKnown, config, s, env ::
      InboxStageOk(hasApprovalService, botIdKnown, Tick(config, s, env)) ==> Tick(config, s, env).complete
  }

  lemma FailedFetchDoesNotComplete(config: Config, s: SourceState, env: TickEnv)
    requires forall q :: env.fetch(0, q).FetchRaised?
    ensures !Tick(config, s, env).complete
  {
    var w := OpenWindow(config.overlap, s.checkpoint, env.now);
    var out := Drain(config, w, env);
    assert out.Drained? ==> !out.complete;
    if out.Drained? {
      SortKeepsLength(out.items);
    }
  }

  lemma AFailedInbox() returns (config: Config, env: TickEnv)
    ensures !Tick(config, FRESH, env).complete
  {
    config, env := Config(0, 1, 1, 1.0), TickEnv(0, 0.0, (n, q) => FetchRaised, n => 0.0, n => 0.0, n => false);
    FailedFetchDoesNotComplete(config, FRESH, env);
  }

  /**
   The gate means what its comment says exactly when an approval service is configured: without one
   the placeholder stage succeeds and replies may be sent although no inbox was read.
   */
  lemma GateMeansInboxReadExactly(hasApprovalService: bool)
    ensures GateMeansInboxRead(hasApprovalService) <==> hasApprovalService
  {
    if !hasApprovalService {
      var config, env := AFailedInbox();
      assert InboxStageOk(hasApprovalService, true, Tick(config, FRESH, env));
    }
  }
}
