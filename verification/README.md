# Verification of the Feishu shadow agent's core protocols

This Dafny project models the parts of the agent whose correctness depends on more than one function or
more than one run, and proves what they promise. `dafny verify dfyconfig.toml` checks all of it.

**Resumable ingestion** (`Framing`, `IngestionModel`, `IngestionSafety`, `IngestionWithholding`,
`IngestionEdits`, `IngestionTime`, `IngestionProgress`, `IngestionEndings`, `IngestionService`). Each
message source keeps a checkpoint: the end of its last completed window and, after an interrupted tick, a
backlog with a page token and a digest-protected processing cursor. A tick may be cut short by page,
message or time caps, by a failed fetch, by a reset token or by an exception. The main theorem is that a
window is only ever recorded as complete once every item the source holds for it has been handled, with
the exact condition on the provider's pages, both for items that keep their content and for messages
edited between fetches; the others are about time coverage, progress, the cursor, and exactly what ends a
drain or a tick.

**Dispatch** (`DispatchModel`, `DispatchSafety`, `DispatchOutcomes`, `Dispatcher`). An action is claimed,
dry-run, checked against its revision twice, sent, read back and finished. Every store transaction and
every provider call is one atomic step, so crashes, stale recovery, owner commands and other processes
are interleavings of steps. The provider accepts at most one message per action, a status says what
became of it, and an action for a revised message is not sent; the exact conditions on operator commands
and revivals are part of the theorems, and so is what each transaction and each answer does.

**The safety valve of a daemon tick** (`DaemonTick`) puts the two together: with an approval service
configured, replies are only sent by a tick whose approval inbox was read to its end.

**Resource downloads** (`ResourceModel`, `ResourceSafety`, `ResourceOutcomes`, `ResourceService`) under a
byte quota, with a table of rows that must tell the truth about the files and about why a file is
missing.

**Routing** (`RoutingModel`, `RoutingOrder`, `RoutingMeaning`, `RoutingReplay`, `RoutingPolls`,
`RoutingService`): exactly when each decision is taken, that it does not depend on the order of store
answers, what each poll of a message does, and that replays start no second piece of work.

**Smaller protocols**: bot membership episodes (`Membership`), the wake-up counter of the daemon loop
(`Wakeup`), the sections of a prompt behind quoted messages (`PromptFence`, `PromptMessages`), log
retention (`LogScrub`), and the composer and gate of automatic replies (`ReplyText`, `ReplyCleaning`,
`ReplyMention`, `ReplyGate`).

Where the source changes state step by step, a class with the same fields carries the same loops and
branches, and each of its methods is proved equal to a function of the old state; the theorems are about
those functions.

## What is assumed

- A store method is one atomic step. `claim_action_for_dispatch`, `finish_claimed_action`, stale recovery,
  revision fencing and the message upsert are modelled branch by branch from `store/sqlite_store.py`.
- A stable source returns, for a window and a token, the slice that starts at the token's offset; a page
  that says there is no more reaches the end, and the token of any other page stands for its end
  (`IngestionSafety.HonestPage`). Everything else about a fetch is arbitrary, including which call fails
  and how a page's items differ in what the replay identity leaves out.
- For edited messages a page shows the same messages in any versions, and a replay identity names its
  message (`IngestionEdits.HonestEdition`). Nothing else about the versions is assumed.
- SHA-256 is collision-free: a digest is a free constructor over its input (`Framing.Digest`).
- An honest provider reports success only for a message it took, and a rejection only for one it did not
  (`DispatchSafety.HonestReply`). It may take a message and report nothing.
- Clocks, deadlines, failures, provider answers and the steps of other processes are arbitrary inputs.

## Where the code promises less than it seems

Each of these is a lemma. Where the promise holds under a condition, the lemma or one beside it states the
exact condition.

- A page that reports more items but carries no token completes its window, and the items behind it are
  skipped (`IngestionWithholding.NoMessageIsSkippedExactly`, `FreshSourceCanSkip`).
- A source whose first tick fails records nothing, so the time before its first recorded tick is never
  covered (`IngestionTime.FirstFetchFailureLosesCoverage`, `CoverageStartsAtFirstRecordedTick`).
- Handling an item is progress only if the refetch is at least as long as the saved prefix
  (`IngestionProgress.ProgressExactly`).
- An owner takeover or operator close cancels an action that is being sent, so "cancelled" does not
  always mean unsent (`DispatchSafety.CancellationIsTruthfulExactly`).
- An operator retry of an action that needs review can deliver a second message
  (`DispatchSafety.RetryStaysSingleExactly`).
- A rejected send whose row is revived is really sent again, without any owner command
  (`DispatchSafety.ReopeningSendsOnceExactly`, `RevivedRejectionIsSentAgain`).
- Reviving a failed reply binds its row to the revision it is revived for, so the old row can be sent
  after all (`DispatchSafety.StaleStaysUnsentExactly`).
- Without an approval service the inbox stage always succeeds, so replies may be sent although no inbox
  was read (`DaemonTick.GateMeansInboxReadExactly`).
- Two resources can share an output path, because unsafe characters of a message id all become `_`
  (`ResourceSafety.RowsAgreeExactly`, `UnsafeNamesCollide`).
- A processor stopped by the quota rewrites the rows of resources whose files are in place
  (`ResourceSafety.BlockedProcessorOnlyRewritesRows`).
- `route` relies on the upsert to report a new revision before any call about it; reported once but late,
  either flag starts work twice (`RoutingReplay.RouteWorksOnceExactly`).
- A membership notice is lost if the process ends between storing the fact and queueing the notice
  (`Membership.NoticesSurviveExactly`, `LostNoticeBreaksAlternation`).
- A quoted message whose last line ends with the title of a later section hides that section from the
  prompt parser (`PromptMessages.SectionIsReadExactly`).
- A text log line with fewer than three fields grows with every scrub until it has three
  (`LogScrub.ScrubbingComposesExactly`).
- The removal of mentions is a single pass, and the display escape looks for lower case only
  (`ReplyText.OnePassCanLeaveMention`, `ReplyMention.DisplayMentionsExactly`).

## Model

| member | source | states |
|---|---|---|
| `Framing.FramingIsInjective` | src/feishu_shadow_agent/ingestion.py:1445-1469 | the eight-byte length in front of every replay identity makes the digest input injective: two batches with the same input are the same sequence of identities |
| `Framing.EightBytesHoldEveryLength` | src/feishu_shadow_agent/ingestion.py:1462-1467 | eight big-endian bytes hold exactly the lengths an identity may have |
| `IngestionSafety.DrainReturnsSlice` | src/feishu_shadow_agent/ingestion.py:2037-2126 | for an honest source the drain returns exactly the slice from the window's token up to the token it returns; when it reports completion the slice reaches the end of the window, or all that lies behind it repeats it, unless the source withheld an item |
| `IngestionSafety.DrainRespectsCaps` | src/feishu_shadow_agent/ingestion.py:2053-2126 | for every page source, cyclic tokens included: never more than `max_messages` items or `max_pages` pages, at most one provider call per remaining page, completion exactly when no cut-off is reported, and each cap and the time budget reported only when met |
| `IngestionSafety.SortSorts` | src/feishu_shadow_agent/ingestion.py:2361-2367 | ordering a batch by time and message id gives a sorted permutation of it |
| `IngestionSafety.SortIsStable` | src/feishu_shadow_agent/ingestion.py:2361-2367 | items with equal keys keep the order they were fetched in |
| `IngestionEndings.BatchIsChronological` | src/feishu_shadow_agent/ingestion.py:2361-2367 | in a sorted batch unreadable times come first, then earlier before later ones, and equal times by message id |
| `IngestionSafety.SkippedPrefixIsTheSavedOne` | src/feishu_shadow_agent/ingestion.py:1412-1443 | a resumed tick skips n items only if its first n sorted items have the n replay identities the cursor was made from, and then it does skip them |
| `IngestionSafety.SkippedItemsWereHandled` | src/feishu_shadow_agent/ingestion.py:1314-1330 | every skipped item had been handled by an earlier tick |
| `IngestionSafety.DrainedTickEnds` | src/feishu_shadow_agent/ingestion.py:1305-1387 | a tick that drained its window either handled every drained item and records the drain, or stays at the place where it opened; its cursor vouches only for handled items |
| `IngestionSafety.TickIsSafe` | src/feishu_shadow_agent/ingestion.py:1305-1387 | one tick, however it ends, forgets no handled item and leaves a checkpoint that vouches only for handled items; it completes a window only when all of it has been handled, unless a page withholds an item |
| `IngestionSafety.RunKeepsHandled` | src/feishu_shadow_agent/ingestion.py:1829-2002 | over any run the checkpoint stays sound and no handled item is forgotten |
| `IngestionSafety.NoMessageIsSkipped` | src/feishu_shadow_agent/ingestion.py:1829-2126 | over any run of ticks with caps, budget cut-offs, fetch failures, token resets and processing failures, in which refetched items keep their replay identity and no page withholds an item: every window whose end became `last_success_at` had every item the source holds for it handled, up to replay identity |
| `IngestionWithholding.NoMessageIsSkippedExactly` | src/feishu_shadow_agent/ingestion.py:2037-2126 | for every source and every provider that keeps its contract: all completed windows of all runs from sound checkpoints are wholly handled if and only if no page of the provider claims more items, carries no token and leaves an item behind |
| `IngestionWithholding.WithheldItemIsSkipped` | src/feishu_shadow_agent/ingestion.py:2115-2117 | for every such page there is a tick that records its window as completed with an item unhandled |
| `IngestionWithholding.FreshSourceCanSkip` | src/feishu_shadow_agent/ingestion.py:2115-2117 | a source that has no checkpoint yet can lose a message that way in its first tick |
| `IngestionWithholding.ShortPageWithholdsExactly` | src/feishu_shadow_agent/ingestion.py:2115-2117 | in a window of readable, distinct items something is left behind exactly when the page stops short of the end |
| `IngestionEdits.EditedTickIsSafe` | src/feishu_shadow_agent/ingestion.py:1412-1443 | the same for one tick when items may be edited between fetches: a cursor whose prefix has changed is dropped, and a completed window had every message handled in some version |
| `IngestionEdits.NoEditedMessageIsSkipped` | src/feishu_shadow_agent/ingestion.py:1829-2126 | over any run in which refetched items agree in time and message id only, changed replays included: every message of every completed window was handled in some version |
| `IngestionEdits.NoEditedMessageIsSkippedExactly` | src/feishu_shadow_agent/ingestion.py:2037-2126 | for every source and every provider that shows its messages in any versions, that holds for all runs if and only if no readable page claims more items, carries no token and leaves another message behind |
| `IngestionTime.TickKeepsTimes` | src/feishu_shadow_agent/ingestion.py:1829-1972 | what one tick does to the saved times: a completed window's end becomes `last_success_at`, otherwise it is unchanged; saved windows continue the last success |
| `IngestionTime.CompletedWindowsAreChained` | src/feishu_shadow_agent/ingestion.py:1829-1953 | with a monotone clock, consecutive completed windows each start `overlap_seconds` before the previous end, ends never decrease, and `last_success_at` is always the newest end |
| `IngestionTime.LateArrivalIsCovered` | src/feishu_shadow_agent/ingestion.py:1845-1872 | a message visible within `overlap_seconds` of being sent lies inside the first completed window that ends at or after its visibility, resumed windows included |
| `IngestionTime.TimelyMessageIsHandled` | src/feishu_shadow_agent/ingestion.py:1829-2126 | the two guarantees together, while no page withholds an item: once any window ending at or after such a message's visibility has completed, the message has been handled |
| `IngestionTime.CoverageStartsAtFirstRecordedTick` | src/feishu_shadow_agent/ingestion.py:1863-1872 | coverage starts at the first tick that records a checkpoint: leading ticks that raise move the start with the clock |
| `IngestionTime.BacklogKeepsItsWindow` | src/feishu_shadow_agent/ingestion.py:1836-1844 | a saved window is the next to complete, with its own start and end, however many ticks it takes |
| `IngestionTime.FirstFetchFailureLosesCoverage` | src/feishu_shadow_agent/ingestion.py:1863-1872 | a concrete run in which a failing first tick leaves the time before it uncovered |
| `IngestionProgress.DeferredPosition` | src/feishu_shadow_agent/ingestion.py:1926-1972 | the saved position of a tick that neither raised nor completed its window, in the tick's own numbers |
| `IngestionProgress.ProgressExactly` | src/feishu_shadow_agent/ingestion.py:1324-1355 | such a tick moves the saved position forward if and only if it finished a non-empty batch, or handled an item of a batch at least as long as the saved prefix |
| `IngestionProgress.HandlingAnItemIsProgress` | src/feishu_shadow_agent/ingestion.py:1374-1387 | refetch at least the saved prefix and handle one item, and the tick either completes the window or moves the position forward |
| `IngestionProgress.ProgressiveDeferralsAreBounded` | src/feishu_shadow_agent/ingestion.py:1945-1953 | a resumed window of n items is deferred by fewer than (n + 1)^2 ticks that each finish a non-empty batch, or refetch the saved prefix and handle an item |
| `IngestionProgress.UndisturbedTickCompletes` | src/feishu_shadow_agent/ingestion.py:1305-1387 | a tick that fetched its window to the end, whose items can all be processed within the budget, handles everything it does not skip and completes the window |
| `IngestionEndings.TickEndsExactly` | src/feishu_shadow_agent/ingestion.py:1324-1355 | the items behind the validated prefix are handled one by one, none begun at or after the deadline; a batch is deferred exactly because the deadline is met with an item left, raises exactly at an item that is unreadable or fails, and is finished otherwise |
| `IngestionEndings.NoItemBeginsLate` | src/feishu_shadow_agent/ingestion.py:1325-1341 | whatever becomes of the drain, no item is begun at or after the deadline |
| `IngestionEndings.TickLeavesExactly` | src/feishu_shadow_agent/ingestion.py:1926-1972 | the checkpoint each ending leaves: a raised tick the old one, a batch cut short the window with its own token, a finished one the drain's token or the completed window |
| `IngestionEndings.DrainStopsExactly` | src/feishu_shadow_agent/ingestion.py:2053-2071 | a drain ends before its window does exactly because the page cap is met, else the message cap, else because the clock read before the next page is too late, five seconds or half the budget being kept for processing |
| `IngestionEndings.DrainStopsWhenItMust` | src/feishu_shadow_agent/ingestion.py:2053-2071 | and it fetches no further page once a cap is met or the clock is too late |
| `IngestionEndings.DrainTakesOnePage` | src/feishu_shadow_agent/ingestion.py:2068-2126 | what one page does: it is asked for within the caps left, taken with its items and page count, and ends the drain, raises on a repeated token or an oversized page, or leads on behind its token |
| `IngestionEndings.EmptyTokenEndsTheDrain` | src/feishu_shadow_agent/ingestion.py:2115-2117 | an empty next token ends the drain just as a missing one does |
| `IngestionEndings.SteadyDrainGoesOn` | src/feishu_shadow_agent/ingestion.py:2053-2126 | an honest source that answers every query with a well-sized page that moves on never makes the drain raise |
| `IngestionEndings.UndisturbedDrainIsWhole` | src/feishu_shadow_agent/ingestion.py:2053-2126 | a window that fits the caps, of such a source, read in time, is drained to its end |
| `IngestionEndings.UndisturbedWindowCompletes` | src/feishu_shadow_agent/ingestion.py:1829-2126 | and one tick completes it if its items can be processed in time |
| `IngestionProgress.TokenIsResetExactly` | src/feishu_shadow_agent/ingestion.py:1978-2002 | a resumed token is given up exactly when its own fetch fails; the window then starts again from its first page |
| `IngestionService.MessageSource.DrainWindow` | src/feishu_shadow_agent/ingestion.py:2027-2126 | the paging loop computes exactly the specified drain, and touches the checkpoint only to reset a resumed token whose first fetch failed |
| `IngestionService.MessageSource.ProcessRawBatch` | src/feishu_shadow_agent/ingestion.py:1305-1355 | the batch loop handles exactly the specified items and returns the specified stop and cursor |
| `IngestionService.MessageSource.ProcessOrdered` | src/feishu_shadow_agent/ingestion.py:1331-1355 | the loop over an ordered batch from a given start, with its deadline check before each item, ends as `IngestionEndings.TickEndsExactly` says |
| `IngestionService.MessageSource.RunStage` | src/feishu_shadow_agent/ingestion.py:1118-1155 | one stage run leaves the source in exactly the state of the specified tick, and raises exactly when that tick does |
| `DispatchSafety.StepKeepsSound` | src/feishu_shadow_agent/store/sqlite_store.py:2508-2607 | every step - of a run, of stale recovery, of revision fencing, of a disciplined owner command - keeps the invariant that ties the status to what the provider holds |
| `DispatchSafety.StepKeepsSingle` | src/feishu_shadow_agent/store/sqlite_store.py:2508-2607 | every careful step keeps the at-most-one invariant, whatever the owner cancels or takes over |
| `DispatchSafety.AtMostOneDelivery` | src/feishu_shadow_agent/dispatcher.py:130-214 | the provider accepts at most one message per action, and none of one that is pending or failed, over every interleaving of runs, crashes, recoveries, revivals, takeovers, cancellations at any moment and unproven marks; the run only has to be careful: answers are honest, and no operator retries an action that needs review |
| `DispatchSafety.FinalStatusIsTruthful` | src/feishu_shadow_agent/dispatcher.py:130-214 | over every disciplined run: pending, failed and cancelled actions have no accepted message, a sent action has one |
| `DispatchSafety.RetryStaysSingleExactly` | src/feishu_shadow_agent/store/sqlite_store.py:2609-2666 | an operator retry keeps the at-most-one bound over every careful continuation exactly when the action it is made on does not need review |
| `DispatchSafety.RealSendRunsAtMostOnce` | src/feishu_shadow_agent/dispatcher.py:416-586 | the real send of an action runs at most once, whatever the provider answers and whatever is cancelled meanwhile, over every run that reopens the action only while its send was never called and no live run can still call it |
| `DispatchSafety.ReopeningSendsOnceExactly` | src/feishu_shadow_agent/store/sqlite_store.py:5874-5905 | a revival or retry that reopens an action keeps the real send to one call over every such continuation exactly when the send was never called and no live run can still call it |
| `DispatchSafety.RevivedRejectionIsSentAgain` | src/feishu_shadow_agent/store/sqlite_store.py:5874-5905 | after a rejected send and a revival by a later session, with an honest provider and no owner command, the real send is called a second time; one message is accepted |
| `DispatchSafety.StaleRevisionIsNotSent` | src/feishu_shadow_agent/dispatcher.py:420-474 | once the source message is revised, no run that has not passed its last revision check sends the action, whatever is claimed, retried, recovered or revived for the same revision |
| `DispatchSafety.StaleStaysUnsentExactly` | src/feishu_shadow_agent/store/sqlite_store.py:5874-5905 | after a step, a stale action stays unsent over every run that does not make it current exactly when the step itself does not: reviving a failed row binds it to the new revision, and then it can be sent |
| `DispatchSafety.VerdictIsTrue` | src/feishu_shadow_agent/dispatcher.py:872-886 | an answer counts as a proven non-send or as a send only if that is what happened |
| `DispatchSafety.StatusProvesUnsentExactly` | src/feishu_shadow_agent/dispatcher.py:872-886 | a status guarantees that the provider holds no message exactly when it is pending, failed or cancelled |
| `DispatchSafety.CancellationIsTruthfulExactly` | src/feishu_shadow_agent/store/sqlite_store.py:4840-4925 | which cancellations are truthful: exactly those that are not an owner takeover or operator close of a sending action and not an operator cancel of an uncertain one |
| `DispatchSafety.StoreStaysSound` | src/feishu_shadow_agent/store/sqlite_store.py:2356-2411 | the truth of the statuses holds for every action of a store shared by any number of interleaved processes |
| `DispatchSafety.StoreStaysSingle` | src/feishu_shadow_agent/store/sqlite_store.py:2356-2411 | so does the at-most-one bound |
| `DispatchSafety.StoreSendsOnce` | src/feishu_shadow_agent/store/sqlite_store.py:2356-2411 | and the one-call bound, for any one action, there from the start or created meanwhile |
| `DispatchOutcomes.ClaimExactly` | src/feishu_shadow_agent/store/sqlite_store.py:2356-2398 | exactly a pending action is claimed: it becomes sending with one new open attempt |
| `DispatchOutcomes.StagesGradeTheAttempt` | src/feishu_shadow_agent/dispatcher.py:416-457 | a stale revision and a failed dry run fail the attempt and end the run as cancelled or failed; a passed dry run and the readback are recorded as such |
| `DispatchOutcomes.CallIsCounted` | src/feishu_shadow_agent/dispatcher.py:458-475 | a run calls the real send exactly when both revision checks and the dry run have passed, and then has its answer |
| `DispatchOutcomes.AnswerExactly` | src/feishu_shadow_agent/dispatcher.py:476-541 | sent with the reported id exactly for a success that names one, failed exactly for a refusal by the adapter or the provider, in doubt for everything else; the attempt row is graded alike |
| `DispatchOutcomes.FinishExactly` | src/feishu_shadow_agent/store/sqlite_store.py:2839-2922 | finishing sets the status exactly if the run is the newest and the action is still sending, or is under review although its attempt holds the id the run returns |
| `DispatchOutcomes.RecordedSendEndsAsSent` | src/feishu_shadow_agent/store/sqlite_store.py:2868-2917 | a recorded send ends as sent whatever recovery and fencing do before its run finishes |
| `DispatchOutcomes.RecoveryExactly` | src/feishu_shadow_agent/store/sqlite_store.py:2508-2607 | recovery leaves no stale action sending: sent exactly if its newest attempt was read back under an id, under review otherwise, with a finished newest attempt; other statuses and earlier attempts are untouched |
| `DispatchOutcomes.FenceExactly` | src/feishu_shadow_agent/store/sqlite_store.py:3384-3483 | after the fence a stale action is neither pending, failed nor sending: what was unsent is cancelled, what was in flight is under review; current actions are untouched |
| `DispatchOutcomes.CancellationReachesExactly` | src/feishu_shadow_agent/store/sqlite_store.py:4864-4871 | which actions each cancellation reaches; it cancels those and changes nothing else |
| `DispatchOutcomes.ReopeningExactly` | src/feishu_shadow_agent/store/sqlite_store.py:2609-2666 | a retry reopens failed and uncertain actions of a current revision, a revival failed ones only, bound to the new revision; attempts are kept |
| `DispatchOutcomes.MarkSentExactly` | src/feishu_shadow_agent/store/sqlite_store.py:2695-2798 | every action but a cancelled one is marked sent, with its newest attempt finished and read back under the id |
| `Dispatcher.DispatchProcess.PrepareSend` | src/feishu_shadow_agent/dispatcher.py:420-474 | a run is cleared to send only after a revision check, a passed dry run and a second revision check; otherwise it returns cancelled or failed |
| `Dispatcher.DispatchProcess.ExecuteActual` | src/feishu_shadow_agent/dispatcher.py:416-586 | the real send is called at most once, never after a failed dry run, never when the result is cancelled, and always when it is sent or uncertain |
| `Dispatcher.DispatchProcess.CallSend` | src/feishu_shadow_agent/dispatcher.py:647-704 | one real call is counted and logged |
| `Dispatcher.DispatchProcess.SendAndRecord` | src/feishu_shadow_agent/dispatcher.py:458-586 | exactly one send, and the status its answer leads to |
| `Dispatcher.DispatchProcess.RecordTheSend` | src/feishu_shadow_agent/dispatcher.py:476-541 | the answer decides the attempt row and whether a readback follows |
| `Dispatcher.DispatchProcess.DispatchOne` | src/feishu_shadow_agent/dispatcher.py:130-214 | one loop turn, judged by the row as it was listed, sends nothing but an allowed action it could still claim; undisturbed, it leaves it in exactly the specified status |
| `Dispatcher.DispatchProcess.ClaimListed` | src/feishu_shadow_agent/store/sqlite_store.py:2356-2411 | a claim succeeds exactly when the row is still pending at that moment, and adds the attempt |
| `Dispatcher.DispatchProcess.RunClaimed` | src/feishu_shadow_agent/dispatcher.py:154-174 | executing and finishing a claimed action sends it at most once and, undisturbed, exactly when its revision is current and its dry run passes |
| `Dispatcher.DispatchProcess.ListAll` | src/feishu_shadow_agent/dispatcher.py:105-116 | both listings of a call, others stepping before each; undisturbed, they are the full listing |
| `Dispatcher.FullListingExactly` | src/feishu_shadow_agent/dispatcher.py:105-116 | the two listings of a call hold together everything either query returns, and nothing twice |
| `Dispatcher.DispatchProcess.RecoverStaleActions` | src/feishu_shadow_agent/store/sqlite_store.py:2508-2607 | exactly the stale sending actions are recovered; none of them is still sending, and each is sent if its newest attempt was read back, else under review |
| `Dispatcher.DispatchProcess.Dispatch` | src/feishu_shadow_agent/dispatcher.py:80-214 | whatever other processes do between any two transactions, only actions allowed as listed are really sent; with none at work, no allowed action of either listing stays pending |
| `Dispatcher.DispatchProcess.DispatchAll` | src/feishu_shadow_agent/dispatcher.py:130-214 | the same for a given listing |
| `Dispatcher.StoreRunsEachAction` | src/feishu_shadow_agent/store/sqlite_store.py:2356-2411 | each action of a shared store runs the one-action machine on its own steps |
| `Dispatcher.ProcessKeepsStoreSound` | src/feishu_shadow_agent/dispatcher.py:80-214 | a dispatch process leaves a sound store sound over any disciplined interleaving |
| `Dispatcher.ProcessDeliversAtMostOnce` | src/feishu_shadow_agent/dispatcher.py:80-214 | after any careful interleaving with other processes every action of the store is delivered at most once |
| `Dispatcher.ProcessSendsAtMostOnce` | src/feishu_shadow_agent/dispatcher.py:130-174 | the log of a process holds at most one real send of an action that no process or command reopens after it was tried |
| `DispatchModel.ListingTakesTheFirst` | src/feishu_shadow_agent/store/sqlite_store.py:2250-2282 | the listing holds pending actions of the wanted kind only, production first and then by age, and leaves one out only if it is full of earlier ones |
| `DaemonTick.Daemon.RunInboxStage` | src/feishu_shadow_agent/ingestion.py:1110-1155 | the inbox stage succeeds exactly when no approval service is configured, or the bot id is known and the inbox tick completed its window; the owner commands it applies make their own store transactions |
| `DaemonTick.Daemon.RunStages` | src/feishu_shadow_agent/daemon.py:156-218 | the stage loop reports a failed inbox exactly when its stage did not succeed, whatever the other stages do |
| `DaemonTick.Daemon.RunNextStage` | src/feishu_shadow_agent/daemon.py:156-218 | a stage other than the inbox changes the store only; one that raises is a failed result under its name |
| `DaemonTick.Daemon.DispatchActions` | src/feishu_shadow_agent/daemon.py:219-262 | every send of the closing dispatch is permitted, and every allowed listed action is settled when no other process interferes |
| `DaemonTick.Daemon.RunOneTick` | src/feishu_shadow_agent/daemon.py:94-287 | a reply is really sent only by a configured, healthy tick that is no dry run and whose inbox stage succeeded; any other tick sends nothing and only cancels pending actions of expired approvals; owner notices need no inbox |
| `DaemonTick.ExpiryCancelsPendingOnly` | src/feishu_shadow_agent/store/sqlite_store.py:3577-3615 | the expiry that starts every tick cancels exactly the pending actions of the expired approvals |
| `DaemonTick.Daemon.RunTicks` | src/feishu_shadow_agent/daemon.py:289-361 | over any number of ticks every logged send stays permitted |
| `DaemonTick.ClearedReplyFollowsWholeInbox` | src/feishu_shadow_agent/ingestion.py:1118-1155 | for a permitted reply, the inbox window of its tick had been fetched to its end and every message in it handled |
| `DaemonTick.GateMeansInboxReadExactly` | src/feishu_shadow_agent/ingestion.py:943-950 | a successful inbox stage means that the inbox was read exactly when an approval service is configured |
| `ResourceSafety.PublishedUsage` | src/feishu_shadow_agent/ingestion.py:798-843 | publishing a download changes the directory total by exactly what the check allowed for: the replaced file no longer counts |
| `ResourceSafety.OneResourceStep` | src/feishu_shadow_agent/ingestion.py:394-676 | every branch for one resource: published files stay or one is replaced within both limits, none is lost, and no temporary file is left unless its deletion failed |
| `ResourceSafety.QuotaIsKept` | src/feishu_shadow_agent/ingestion.py:379-688 | over every sequence of calls: published files never exceed the directory quota, the whole directory does not either if deletions succeed, no temporary file appears, each new file is within the single-file limit |
| `ResourceSafety.CleanUpIsRun` | src/feishu_shadow_agent/ingestion.py:777-796 | deleting stale partial files touches no published file and keeps the quota |
| `ResourceSafety.OneRowIsTrue` | src/feishu_shadow_agent/ingestion.py:590-638 | the row a resource ends with says "downloaded" only of the file that is there, with its digest; no other row changes |
| `ResourceSafety.OtherFinalsStay` | src/feishu_shadow_agent/ingestion.py:590-638 | no file but the resource's own output is changed |
| `ResourceSafety.WorkingDownloadIsPublished` | src/feishu_shadow_agent/ingestion.py:495-638 | a download that works and fits is published under its output path and its row records its digest |
| `ResourceOutcomes.PublishesExactly` | src/feishu_shadow_agent/ingestion.py:394-676 | a file is published and its row says "downloaded" if and only if the policy allows it, the processor is not stopped, no recorded copy is in place, there is room, the client succeeded, and what it left is there, fits both limits and could be moved; otherwise no published file changes and the row tells the cause |
| `ResourceOutcomes.VerdictExactly` | src/feishu_shadow_agent/ingestion.py:798-843 | the two limits in sizes: the replaced file and an overwritten temporary file do not count |
| `ResourceOutcomes.CallSettlesEveryResource` | src/feishu_shadow_agent/ingestion.py:379-688 | after a call every resource of its message has a row |
| `ResourceSafety.RowsAgreeExactly` | src/feishu_shadow_agent/ingestion.py:2455-2466 | rows and files agree after every sequence of calls exactly when no two of the resources share an output path |
| `ResourceSafety.SharedOutputBreaksAgreement` | src/feishu_shadow_agent/ingestion.py:2455-2466 | two working downloads to one output path leave a false row |
| `ResourceSafety.UnsafeNamesCollide` | src/feishu_shadow_agent/ingestion.py:2463-2466 | message ids that differ only in an unsafe character share their output paths |
| `ResourceSafety.OutputsMeetExactly` | src/feishu_shadow_agent/ingestion.py:2455-2466 | two resources share an output path exactly if kind and key hash are the same and the first 120 characters of the message ids look the same with unsafe characters blotted out |
| `ResourceSafety.SafeIdsKeepOutputsDistinct` | src/feishu_shadow_agent/ingestion.py:2455-2466 | short message ids of safe characters and file keys with different hashes keep the outputs apart |
| `ResourceSafety.SettledMessageIsSkipped` | src/feishu_shadow_agent/ingestion.py:460-478 | once rows and files agree, a message whose resources are all downloaded is left exactly as it is |
| `ResourceSafety.BlockedProcessorOnlyRewritesRows` | src/feishu_shadow_agent/ingestion.py:443-456 | once the quota has stopped a processor it changes no file, and no resource it still meets keeps a "downloaded" row, even one whose file is in place |
| `ResourceService.ResourceProcessor.UsageBytes` | src/feishu_shadow_agent/ingestion.py:845-856 | the usage loop computes the sum of all file sizes |
| `ResourceService.ResourceProcessor.CleanUpStale` | src/feishu_shadow_agent/ingestion.py:777-796 | exactly the stale partial files are removed |
| `ResourceService.ResourceProcessor.BeforeDownload` | src/feishu_shadow_agent/ingestion.py:763-775 | a download is refused exactly when usage has reached the quota |
| `ResourceService.ResourceProcessor.CheckDownload` | src/feishu_shadow_agent/ingestion.py:798-843 | the verdict on a finished download, and its deletion when it breaks a limit |
| `ResourceService.ResourceProcessor.DownloadResource` | src/feishu_shadow_agent/ingestion.py:495-676 | from the provider call on, the specified files, rows and sticky flag |
| `ResourceService.ResourceProcessor.PublishDownload` | src/feishu_shadow_agent/ingestion.py:561-638 | the quota check, the digest and the atomic replace that follow a good download |
| `ResourceService.ResourceProcessor.ProcessResource` | src/feishu_shadow_agent/ingestion.py:394-494 | one resource ends in exactly the specified state |
| `ResourceService.ResourceProcessor.ProcessMessage` | src/feishu_shadow_agent/ingestion.py:379-688 | a whole call ends in exactly the specified state |
| `RoutingOrder.CandidatesCarryStrongestReason` | src/feishu_shadow_agent/routing.py:32-65 | a task is a candidate exactly once if the store returned it for some reason, tagged with its strongest one: reply, thread, sender, mention |
| `RoutingOrder.SameCandidates` | src/feishu_shadow_agent/routing.py:32-65 | permuting the store's lists, each of which holds a task id in one version, leaves the candidates unchanged |
| `RoutingOrder.MatchesIgnoreOrder` | src/feishu_shadow_agent/routing.py:317-336 | the deterministic and the burst match do not depend on the order of candidates |
| `RoutingOrder.TakeoverIgnoresOrder` | src/feishu_shadow_agent/routing.py:289-315 | the task an owner message takes over does not depend on list order |
| `RoutingOrder.RouteIgnoresStoreOrder` | src/feishu_shadow_agent/routing.py:156-270 | the whole decision of `route` is the same for every order in which the store may return its lists |
| `RoutingMeaning.MatchesAreSole` | src/feishu_shadow_agent/routing.py:317-336 | the deterministic match is the only task the message replies to, else the only one of its thread, and there is none otherwise |
| `RoutingMeaning.BurstIsTheOnlyRecentCandidate` | src/feishu_shadow_agent/routing.py:350-388 | the burst match is exactly the only candidate of the chat in which the sender wrote within the burst window |
| `RoutingMeaning.CreatesExactly` | src/feishu_shadow_agent/routing.py:225-244 | a task is created exactly for a trigger message in a known chat with neither candidates nor related history |
| `RoutingMeaning.AttachesExactly` | src/feishu_shadow_agent/routing.py:156-224 | a message is attached exactly when its earlier revision belongs to one active task, or it may be compared with candidates and replies to one task alone, shares a thread with one alone, or is a trigger message in a burst with one alone |
| `RoutingMeaning.AttachmentTarget` | src/feishu_shadow_agent/routing.py:156-224 | the task it goes to is that of its revision, else of its reply, else of its thread, else of the burst |
| `RoutingMeaning.CandidatesExactly` | src/feishu_shadow_agent/routing.py:32-65 | a task is a candidate for a reason exactly if the chat is known, the message has what the reason needs, the store returned the task for it, and for no stronger one |
| `RoutingMeaning.TakesOverExactly` | src/feishu_shadow_agent/routing.py:272-315 | a task is taken over exactly when an owner message in a known chat, neither the bot's own nor an attached revision, answers a message of exactly one task of the chat that is still watched, or speaks in a thread with exactly one |
| `RoutingMeaning.TakeoverTarget` | src/feishu_shadow_agent/routing.py:289-315 | the task of the reply is taken over before the task of the thread |
| `RoutingMeaning.AsksExactly` | src/feishu_shadow_agent/routing.py:225-270 | the model is asked exactly when candidates of the chat do not single out a task, or a trigger message has related closed tasks only |
| `RoutingMeaning.IgnoresExactly` | src/feishu_shadow_agent/routing.py:156-262 | a message is left alone exactly in the remaining cases, each given by what it is and what the store knows |
| `RoutingMeaning.IgnoreReason` | src/feishu_shadow_agent/routing.py:156-262 | and the audited reason tells which case it is |
| `RoutingMeaning.ChosenFrom` | src/feishu_shadow_agent/routing.py:156-270 | the number of tasks a decision says it chose from |
| `RoutingReplay.DuplicateCallResumesOrIgnores` | src/feishu_shadow_agent/routing.py:101-154 | a duplicate call starts nothing and answers with the newest audited route of its revision if that may be retried, else as a duplicate |
| `RoutingReplay.FlaggedRevisionIsNew` | src/feishu_shadow_agent/store/sqlite_store.py:4981-5187 | the upsert reports `inserted` or `changed` only for a revision above every earlier one; revisions never decrease; a tombstone is final |
| `RoutingReplay.StepKeepsReplaySafe` | src/feishu_shadow_agent/ingestion.py:1531-1709 | every poll, whatever it stops after, keeps each started piece of work audited and single |
| `RoutingReplay.ReplaysStartNoSecondWork` | src/feishu_shadow_agent/routing.py:101-180 | over every sequence of polls of a message, `route` creates a task or attaches the message at most once per revision |
| `RoutingReplay.TombstoneIsTerminal` | src/feishu_shadow_agent/store/sqlite_store.py:5058-5068 | no poll after a tombstone changes the row or starts work |
| `RoutingReplay.RouteWorksOnceExactly` | src/feishu_shadow_agent/routing.py:101-154 | for every revision and every sequence of reported flags, `route` alone starts work at most once exactly when no call after the first is told that the message was inserted or that its revision changed |
| `RoutingPolls.UpsertExactly` | src/feishu_shadow_agent/store/sqlite_store.py:4981-5187 | a stored message gets a new revision, reported as a change, exactly for content it never had, for a deletion and for older content a fetch has confirmed; only unconfirmed older content asks for confirmation; migrated rows are stamped silently |
| `RoutingPolls.ResumesExactly` | src/feishu_shadow_agent/routing.py:101-154 | a duplicate call is resumed exactly when the caller retries and the newest decision about the revision has processing that is still open and not blocked |
| `RoutingPolls.NewMessageIsRouted` | src/feishu_shadow_agent/ingestion.py:1531-1709 | a message never seen is routed as revision one, audited, and starts work if it creates or attaches |
| `RoutingPolls.EditIsRouted` | src/feishu_shadow_agent/ingestion.py:1531-1709 | new content of a stored message is routed again as its next revision |
| `RoutingPolls.OlderContentIsChecked` | src/feishu_shadow_agent/ingestion.py:1531-1562 | older content is routed only as a confirming fetch says, and without one nothing changes |
| `RoutingPolls.DeletionIsRecorded` | src/feishu_shadow_agent/ingestion.py:1583-1612 | a deletion is audited once as the next revision and starts no work |
| `RoutingPolls.RepeatedContent` | src/feishu_shadow_agent/ingestion.py:1531-1709 | a poll that repeats the present content is a duplicate call, or the first route if none was audited |
| `RoutingPolls.OtherHandling` | src/feishu_shadow_agent/ingestion.py:1613-1668 | an ineligible message is audited as such; owner commands and stopped polls leave no audit |
| `RoutingService.MessageRouter.CollectCandidates` | src/feishu_shadow_agent/routing.py:32-65 | the four `setdefault` loops compute exactly the specified candidates |
| `RoutingService.MessageRouter.BurstAttachMatch` | src/feishu_shadow_agent/routing.py:350-388 | the burst loop computes exactly the specified match |
| `RoutingService.MessageRouter.Decide` | src/feishu_shadow_agent/routing.py:156-270 | the branches of `route` compute exactly the specified decision |
| `RoutingService.MessageRouter.Route` | src/feishu_shadow_agent/routing.py:81-270 | a call leaves exactly the specified audits and work |
| `RoutingService.MessageRouter.Ingest` | src/feishu_shadow_agent/ingestion.py:1531-1709 | one snapshot is upserted, confirmed if needed, and routed exactly as specified |
| `Membership.NoticesAreTheChanges` | src/feishu_shadow_agent/membership.py:177-222 | a chat's notices are exactly the changes of its confirmed status, in order, numbered by episode |
| `Membership.NoticesAlternate` | src/feishu_shadow_agent/membership.py:177-222 | for every observation sequence the notices alternate absent, recovered, absent, starting with absent, and the i-th carries episode i/2 + 1 |
| `Membership.EpisodeCountsNotifiedAbsences` | src/feishu_shadow_agent/membership.py:184-186 | the episode counter equals the number of absences notified |
| `Membership.UnknownsAreInvisible` | src/feishu_shadow_agent/membership.py:177-222 | erasing every unknown observation leaves the notices unchanged |
| `Membership.DedupeKeyIsInjective` | src/feishu_shadow_agent/membership.py:216-219 | the dedupe key determines chat, status and episode |
| `Membership.DedupeKeysAreDistinct` | src/feishu_shadow_agent/membership.py:210-222 | no two notices of any run share a dedupe key |
| `Membership.NoticesSurviveExactly` | src/feishu_shadow_agent/membership.py:204-222 | a run in which processes may end between storing the fact and queueing the notice queues what an undisturbed run would exactly when none ended in an observation that had something to notify |
| `Membership.NoticesAlternateUnlessLost` | src/feishu_shadow_agent/membership.py:177-222 | in every run that loses no notice, wherever its processes end, the notices alternate and carry their episodes |
| `Membership.LostNoticeBreaksAlternation` | src/feishu_shadow_agent/membership.py:204-222 | a run that loses the notice of the absence: the first notice of the chat is its recovery |
| `Membership.BotMembershipService.RecordObservation` | src/feishu_shadow_agent/membership.py:162-240 | one observation leaves exactly the specified fact and notice |
| `Membership.OlderFactCounts` | src/feishu_shadow_agent/membership.py:177-183 | a fact from before the confirmed status was kept counts by its status |
| `Membership.ProbeMeans` | src/feishu_shadow_agent/membership.py:78-107 | present exactly if the bot is listed, absent exactly if a reliable listing lacks it, unknown otherwise |
| `Membership.ObservationExpiresExactly` | src/feishu_shadow_agent/membership.py:258-270 | an observation counts, and its chat is not probed again, exactly until its interval has passed; other chats are unaffected |
| `Membership.DueChatsExactly` | src/feishu_shadow_agent/membership.py:122-129 | the chats probed are exactly the due candidates, as often as they are listed |
| `Membership.BotMembershipService.Refresh` | src/feishu_shadow_agent/membership.py:67-120 | exactly the due candidates are observed, once each, and the summary counts candidates, probes, present, absent, unknown and notices |
| `Wakeup.EventKeepsSound` | src/feishu_shadow_agent/daemon.py:71-81 | every critical section and loop step keeps the wake-up invariant |
| `Wakeup.NoWakeUpIsLost` | src/feishu_shadow_agent/daemon.py:384-403 | in every interleaving, whenever the loop is blocked, every wake so far happened before the latest tick began and no stop is outstanding |
| `Wakeup.GenerationCountsSignals` | src/feishu_shadow_agent/daemon.py:71-81 | the generation counts the wakes and stops, so equal generations mean that none came in between |
| `Wakeup.AtMostOneTickAfterStop` | src/feishu_shadow_agent/daemon.py:335-338 | at most one further tick begins after a stop request |
| `Wakeup.TicksSinceStopCount` | src/feishu_shadow_agent/daemon.py:335-338 | the ticks counted since the stop are all the ticks that began since |
| `Wakeup.StopIsReached` | src/feishu_shadow_agent/daemon.py:384-403 | once a stop is requested the loop is never blocked, and it has stopped after at most four steps of its own |
| `Wakeup.WakeIsServed` | src/feishu_shadow_agent/daemon.py:384-403 | while a signal is newer than the latest tick the loop is not blocked, and the next tick begins after at most four steps of its own |
| `Wakeup.TimeOutStartsTick` | src/feishu_shadow_agent/daemon.py:384-403 | without a wake the loop ticks when its wait times out; a spurious wake-up changes nothing |
| `Wakeup.OneWakeOneTick` | src/feishu_shadow_agent/daemon.py:384-403 | one wake gives one tick, after which the loop is blocked again |
| `Wakeup.OneTickAfterStopIsPossible` | src/feishu_shadow_agent/daemon.py:335-338 | the bound is met by a stop between the check and the tick |
| `PromptFence.LongestRunBounds` | src/feishu_shadow_agent/prompt.py:267-268 | no run of backticks is longer than the computed one |
| `PromptFence.NoCloseInside` | src/feishu_shadow_agent/prompt.py:261-264 | a fence longer than every run in the text cannot be closed inside it |
| `PromptFence.FenceIsShortest` | src/feishu_shadow_agent/prompt.py:261-268 | the fence is the shortest of at least three backticks that is wider than every run of the text |
| `PromptFence.PrintedSectionIsRead` | src/feishu_shadow_agent/prompt.py:156-170 | for every heading, text and prompt: if the first occurrence of the marker is the printed section, the parser returns exactly the printed text |
| `PromptFence.SectionBehindBlocksIsReadExactly` | src/feishu_shadow_agent/prompt.py:156-170 | behind any blocks separated by blank lines a section is read exactly when no block ends with its title; otherwise the parser stops behind the first that does |
| `PromptMessages.SectionIsReadExactly` | src/feishu_shadow_agent/prompt.py:89-153 | for every prompt whose sections before the messages hold no marker of the heading, every message list, and for the context access with or without resources in between: the resources or context access section is read back exactly when no message's last line ends with its title, and otherwise reported invalid |
| `PromptMessages.SectionIsBlocks` | src/feishu_shadow_agent/prompt.py:271-290 | the printed message list is its heading, its introduction and four blocks a message, with one blank line between any two |
| `PromptMessages.PrintMessages` | src/feishu_shadow_agent/prompt.py:271-290 | the loop that extends `lines` message by message prints the specified section |
| `PromptFence.ReadSection` | src/feishu_shadow_agent/prompt.py:156-170 | the parser that moves `start` forward computes the specified result |
| `PromptFence.QuoteLines` | src/feishu_shadow_agent/prompt.py:293-296 | the quoting of a text's lines |
| `LogScrub.JsonComposes` | src/feishu_shadow_agent/jsonl.py:412-472 | scrubbing a JSON line at one cutoff and then at a later one equals scrubbing it at the later one, always |
| `LogScrub.FieldsOfMinimal` | src/feishu_shadow_agent/jsonl.py:512-516 | a rewritten text line reads back as its first three fields and the mark |
| `LogScrub.TextComposesExactly` | src/feishu_shadow_agent/jsonl.py:475-516 | for a text line that holds exactly unless the line is old, dated, unprotected and has fewer than three fields |
| `LogScrub.ScrubbingComposesExactly` | src/feishu_shadow_agent/jsonl.py:357-393 | scrubbing a log at one cutoff and then at a later one equals scrubbing it at the later one exactly when it holds no such line |
| `LogScrub.RepeatedScrubCountsNothing` | src/feishu_shadow_agent/jsonl.py:357-393 | a repeated scrub counts zero changes under the same condition |
| `LogScrub.ScrubKeepsAndReports` | src/feishu_shadow_agent/jsonl.py:439-460 | newer and protected lines stay as they are, and a line is counted exactly when it changed |
| `LogScrub.OldContentIsGone` | src/feishu_shadow_agent/jsonl.py:461-472 | every line that is not newer or protected is left without its data |
| `LogScrub.RewrittenTextIsOneLine` | src/feishu_shadow_agent/jsonl.py:512-516 | a rewritten text line is a single line |
| `LogScrub.JsonScrubExactly` | src/feishu_shadow_agent/jsonl.py:412-472 | what becomes of a JSON line and whether it is counted, field by field |
| `LogScrub.JsonProtectedExactly` | src/feishu_shadow_agent/jsonl.py:440-461 | which ids protect a JSON line: its own task, and the message, action and approval of its data |
| `LogScrub.TextScrubExactly` | src/feishu_shadow_agent/jsonl.py:475-516 | the same for a text line, whose time is its first field and of which three fields are kept |
| `LogScrub.TextProtectedExactly` | src/feishu_shadow_agent/jsonl.py:490-511 | which ids protect a text line: those written as a field of their own behind their key |
| `LogScrub.ScrubLines` | src/feishu_shadow_agent/jsonl.py:357-381 | the loop writes one replacement per line and counts the changes |
| `LogScrub.LogFile.Scrub` | src/feishu_shadow_agent/jsonl.py:335-399 | the file is replaced exactly by the scrubbed lines, and never by a dry run |
| `ReplyText.TrimMakesNoMention` | src/feishu_shadow_agent/processing.py:108-111 | dropping whitespace before line breaks and turning carriage returns into line breaks cannot create a forbidden mention |
| `ReplyText.TidyMakesNoMention` | src/feishu_shadow_agent/processing.py:108-111 | the whole whitespace cleanup creates none |
| `ReplyText.CleanReplyIsOnlyTidied` | src/feishu_shadow_agent/processing.py:106-111 | a reply without a forbidden mention loses nothing but whitespace, and comes out without one |
| `ReplyText.FlagMeansForbidden` | src/feishu_shadow_agent/processing.py:104-107 | the flag is up exactly when the proposed reply holds a forbidden mention |
| `ReplyText.OnePassCanLeaveMention` | src/feishu_shadow_agent/processing.py:109-110 | a text that had a mention can still have one after the single removal pass |
| `ReplyCleaning.ForbiddenExactly` | src/feishu_shadow_agent/processing.py:57-60 | the flag is up exactly if an opening or closing tag or one of the group mentions stands somewhere in the text, in any case |
| `ReplyCleaning.BreakIsNormalized` | src/feishu_shadow_agent/processing.py:108 | every kind of line break becomes one line feed |
| `ReplyCleaning.SpanIsCleaned` | src/feishu_shadow_agent/processing.py:109-111 | a tag is dropped together with its text and its closing tag |
| `ReplyCleaning.MentionIsRemoved` | src/feishu_shadow_agent/processing.py:110 | the removal takes out a mention wherever its scan meets one and keeps every other character |
| `ReplyCleaning.TidyKeepsInk` | src/feishu_shadow_agent/processing.py:108-111 | tidying loses nothing but whitespace |
| `ReplyCleaning.TidyIsTidy` | src/feishu_shadow_agent/processing.py:111 | its result has no whitespace at the ends of lines or of the text, and no carriage return |
| `ReplyCleaning.TidyTextIsKept` | src/feishu_shadow_agent/processing.py:108-111 | a text that is tidy already is left as it is, so whitespace inside a line is kept |
| `ReplyMention.DisplayHasNoBrackets` | src/feishu_shadow_agent/processing.py:2055-2061 | the escaped display name can neither close its tag nor open another |
| `ReplyMention.EscapedIsShown` | src/feishu_shadow_agent/processing.py:2055-2061 | the escaped name is shown as it was |
| `ReplyMention.DisplayTokens` | src/feishu_shadow_agent/processing.py:2055-2061 | after the three replacements a group mention occurs in the display only in another case, and then it did so in the name |
| `ReplyMention.DisplayMentionsExactly` | src/feishu_shadow_agent/processing.py:2055-2061 | the display still holds a group mention exactly when the name spells one with a capital letter |
| `ReplyGate.MentionLeads` | src/feishu_shadow_agent/processing.py:112-118 | the composed text is the composer's mention followed by the cleaned reply |
| `ReplyGate.GateAllowsExactly` | src/feishu_shadow_agent/policy.py:130-183 | in terms of the stored settings: exactly when a reply is allowed without approval and as whom; a configured group is governed by its own switch, any other by the one for unknown groups, a direct chat by its global one; a freshly observed absence keeps the bot's identity out |
| `ReplyGate.RefusalExactly` | src/feishu_shadow_agent/policy.py:130-183 | the reason of every refusal, the identity it names, and the policy that is named for the decision |
| `ReplyGate.DownloadsExactly` | src/feishu_shadow_agent/policy.py:117-128 | resources are downloaded exactly where the settings say so and the bot is taken to be |
| `ReplyGate.AutomaticRepliesAreClean` | src/feishu_shadow_agent/processing.py:1549-1746 | the text of every reply action created without approval is the composer's mention, if any, and the tidied reply, which holds no forbidden mention; it answers an allowed target and is no correction |
| `ReplyGate.ApprovableTextsAreClean` | src/feishu_shadow_agent/processing.py:136-165 | a text an owner can approve as it stands is as clean, and no other text is stored as the text to send |
| `ReplyGate.ApprovableExactly` | src/feishu_shadow_agent/processing.py:1976-1981 | an approval request can be granted as it stands exactly if nothing of it is blank and no forbidden mention was proposed |
| `ReplyGate.SessionEndsExactly` | src/feishu_shadow_agent/processing.py:1337-1746 | which of the five outcomes a session has, each given by an exact condition on the session and the gate |
| `ReplyGate.TaskSessions.ComposeReply` | src/feishu_shadow_agent/processing.py:92-119 | the step-by-step rewriting computes the specified text and flag |
| `ReplyGate.TaskSessions.Finish` | src/feishu_shadow_agent/processing.py:1337-1746 | the tail of a session records exactly the specified outcome |

## Left out

- Active-watch sources: their filter depends on store state that changes between ticks, so the ingestion theorems are about the unfiltered search and inbox sources.
- Ingestion bookkeeping: counters of pages and restarts, deferral reasons in checkpoints, and log events.
- Message normalization: a normalized message, or the fact that normalization raises, is an input.
- Dispatch previews, summary counters, and the notices queued for failed replies.
- Age thresholds: any sending action may count as stale, any partial file as stale, so the results hold for every threshold.
- SQL text, schema and locking: a transaction is one step, and the branch of the upsert taken when a concurrent writer has changed the row in between is not modelled.
- File system details: symbolic links, directory entries, fsync and permissions; a file is a path with content, and exceptions that end a `process` call early are not modelled.
- The name of an output file is its message part, kind and key hash; the directory separator and the twelve-digit truncation of the hash are covered by the arbitrary `keyHash`.
- The task router and its agent: its attach and reopen decisions appear only as audits written by others.
- Concurrency of two processes that route the same message: `route` checks and writes in separate transactions, and the replay theorem is about one process.
- The `sleep_func` variant of the daemon wait and the signal handlers.
- Startup health, heartbeats, retention and the card connection of a daemon tick.
- JSON decoding of a prompt section; the parser is modelled up to the text it hands to the decoder.
- The text of the other prompt sections, and how a message card becomes metadata lines: a metadata line is any line that ends like a JSON value.
- Texts stored for display only: the preview of a reply and the suggestion stored with a correction.
- Log rotation and handler swapping; reading back a written JSON line is assumed to give the same value.
- Full regular expressions: the two mention patterns are modelled literally, with letter case folded for ASCII.
- The reply postprocessor, the agent backends and the resource preflight: their results are inputs.
- Routing, membership and reply policies read a store that does not change during one call.
