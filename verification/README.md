# Verified model of the local agent backend

The backend keeps agents, sessions, runs, messages, memory, schedules and tool approvals in
one SQLite file and lets several actors work on it at once: the API, background workers, a
scheduler and sweepers. This project models the state those actors share and proves what
every history of their transactions keeps.

Each component is modelled twice. A specification gives every committed transaction as a
function on the tables; invariants and theorems about whole histories are lemmas over
sequences of these transactions. A class with the tables as fields carries the service's and
repository's methods, with their loops and their step-by-step updates, and each method is
proved to have exactly the effect of the specified transactions. Where the run, queue, paging
and cron services read in one transaction and write in a later one, the method takes what
others commit in between as a parameter (`env`, `gap`, `gaps`, `meanwhile`, `last`, `mid`,
`late`), and its contract holds for all of it. The statements of an ordinary message are
taken apart in the same way; the looks and the writes of approvals, memory and cron in
`Approvals`, `MemoryHistory` and `CronJobs`.

- **Subagent runs** (`Tables`, `Transitions`, `Protocol`, `Lifecycle`, `Agreement`,
  `Consistency`, `Effects`, `Reports`, `ExecutionQueue`, `SubagentRepository`,
  `ExecutionRepository`, `SubagentService`): a main session spawns child
  sessions; a run goes from queued to running to completed, failed, cancelled or timed out
  under spawn, claim, cancel, sweep and worker steps in any order.
- **Message log and paging** (`MessageLog`, `MessagePaging`, `ActivityTimeline`): numbering
  per session, resets, and page walks while others write.
- **Prompt memory** (`PromptPacking`, `PromptContext`, `PromptAssembly`, `MemoryTables`,
  `MemoryText`, `MemoryHistory`, `MemoryRecall`, `RecallRules`, `MemoryService`): override resolution, packing into
  character budgets, and histories of edits, captures and conversation summaries.
- **Memory search** (`MemorySearch`, `SearchHistory`, with `Sorting`): substitution, merging
  and ranking.
- **Schedules and cron** (`Schedules`, `ScheduleText`, `CronJobs`, `CronPlans`,
  `CronScheduler`).
- **Tool policy and approvals** (`ToolPolicy`, `Permissions`, `ToolService`, `Approvals`,
  `ToolGate`, `ApprovalService`).
- **Delegation context** (`ContextSnapshot`): the text that carries the context to a child.

Some properties one would expect do not hold of the program. For each the project has the
exact condition under which it does, and where it helps a state or history that shows the
failure:

- A cancel that read a run running can stamp it after it has completed or failed
  (`Protocol.CancelHonouredLostExactlyByLateStamp`, `Lifecycle.RequestsAreHonouredExactly`,
  `Agreement.LateStampIsRecorded`).
- The terminal audit event can announce another status than the run gets
  (`Agreement.AuditMatchesUnlessOverridden`, `Agreement.AuditDisagrees`).
- A worker that finishes after the sweeper leaves a timed-out run with a completed task
  (`Agreement.LateWorkerDisagrees`, `Agreement.AgreementLostExactlyByParting`).
- Episodic matches beyond the fourth are in neither the included nor the excluded list
  (`PromptAssembly.BuildContext`, `PromptAssembly.FifthMatchIsReportedNowhere`).
- A message whose writer has read its session before a reset is put into the middle of
  the new conversation (`MessageLog.ConversationIsSuffixExactly`,
  `MessageLog.LateMessageBreaksTheSuffix`, `MessageLog.ListingIsWhatFollowsTheReset`).
- A worker whose answer is overtaken by another message of its child session raises and
  leaves its run running for the sweeper (`SubagentService.Service.Execute`).
- A conversation summary that the user has hidden or deleted comes back with the next
  execution that finds messages (`MemoryHistory.WithdrawnThroughoutExactly`,
  `MemoryHistory.HiddenSummaryComesBack`).
- A restore, an override or a write on an old look can leave a second undeleted entry of
  the same content (`MemoryHistory.DeduplicationLostExactlyByUnchecked`,
  `MemoryHistory.UniqueThroughoutExactly`,
  `MemoryHistory.RestoreBringsBackATwin`).
- Contents that contain two bars can be taken for each other (`MemoryText.SameContentExactly`,
  `MemoryText.BarsConfuseContents`, `MemoryText.BarsExample`).
- A job paused while it runs keeps a next run (`CronJobs.ScheduledKeptExactly`).
- Looking for a job's task or counting its attempts, and the insert, are separate, so an
  owner can get two tasks and two attempts one number (`CronJobs.HistorySoundExactly`).
- Approving a call whose message, session or permission row is missing leaves it waiting for
  ever; calls of a delegated run have no message to begin with
  (`Approvals.AgreementLostExactlyByLostContext`, `Approvals.UntriggeredCallIsLeftWaiting`,
  `Approvals.StuckForEver`).
- The task of a denied call can still end completed (`Approvals.DeniedEndsFailedExactly`,
  `Approvals.DenialOverwritten`).
- The check and the writes of an approval are separate, so two of them can run a tool twice
  (`Approvals.StaleCheckBreaksTheGateExactly`, `Approvals.GateHoldsExactly`,
  `Approvals.RacingApprovalsRunTwice`).
- After a profile change only the default agent's permissions are refreshed
  (`Permissions.OtherAgentsAgreeExactly`).
- A stored context text can make the split raise, though only one that the program did not
  build itself (`ContextSnapshot.UnsplittableExactly`,
  `ContextSnapshot.HeadingsAloneAreUnsplittable`, `ContextSnapshot.BuiltIsSplittable`).

`dafny verify dfyconfig.toml` checks everything.

## Model

| member | source | states |
|---|---|---|
| `Protocol.StepKeepsInvariant` | apps/backend/app/repositories/subagents.py:57-155 | Every committed transaction (spawn, claim, cancel, finalize, prepare, attach, say, reset, enqueue, persist, time) keeps the whole invariant: depth-one session forest, legal run statuses, terminal bookkeeping, no queued run asked to stop, bounded concurrency; the stamp of a cancellation may come at any time after its run was seen running |
| `Protocol.EveryReachableState` | apps/backend/app/services/subagents.py:633-654 | Every interleaving of whole transactions, late stamps among them, ends in a state that satisfies that invariant |
| `Protocol.StepKeepsLineage` | apps/backend/app/repositories/subagents.py:57-89 | A subagent session always has depth 1, a main parent and that parent's root; each run has its own child session; nothing of this is ever rewritten |
| `Protocol.StepKeepsFinished` | apps/backend/app/repositories/subagents.py:343-417 | A run is terminal iff it is stamped finished iff it points to its summary; the summary is the launcher's own message; the child session carries the run's status; no summary is posted for anything else |
| `Protocol.StepKeepsBound` | apps/backend/app/repositories/subagents.py:110-165 | Counting and inserting in one transaction keeps every launcher at or below the limit; no other transaction raises the count |
| `Protocol.CancelHonouredLostExactlyByLateStamp` | apps/backend/app/repositories/subagents.py:290-297 | That every run with a recorded request is running, cancelled or timed out is kept by every transaction except exactly a stamp on a run that has completed or failed since it was read |
| `Protocol.StepRespectsRequest` | apps/backend/app/repositories/subagents.py:370-373 | Once recorded and respected, a request stays both under every transaction, whichever of worker and sweeper finalizes |
| `Protocol.ClaimIsOldest` | apps/backend/app/repositories/subagents.py:299-312 | The candidate is the queued run with the smallest creation time, the first on a tie, and one is found iff any run is queued |
| `Lifecycle.RunsOnlyAdvance` | apps/backend/app/repositories/subagents.py:299-417 | Through any history a run keeps its lineage, its rank only falls, a cancellation request stays, and of a terminal run only the attachment, the stamp and the update time can still change |
| `Lifecycle.LaterFinalizeChangesNothing` | apps/backend/app/repositories/subagents.py:363-368 | Finalizing a terminal run again, at any later time and with any verdict, changes no table |
| `Lifecycle.CancellationWins` | apps/backend/app/repositories/subagents.py:290-297 | A request recorded while a run is running survives every continuation: the run never ends completed or failed |
| `Lifecycle.RequestsAreHonouredExactly` | apps/backend/app/services/subagents.py:304-305 | Over whole histories every recorded request is respected iff no stamp comes after its run completed or failed; one that does is never made good |
| `Lifecycle.ConcurrencyIsBounded` | apps/backend/app/repositories/subagents.py:110-165 | From the empty store, no interleaving puts more than the limit of one session's runs in flight |
| `Lifecycle.OneSummaryPerTerminalRun` | apps/backend/app/repositories/subagents.py:374-417 | In every reachable state a run is terminal iff exactly one summary message names it, in its launcher's session; a launcher holds as many summaries as it has terminal runs |
| `Lifecycle.ClaimedAtMostOnce` | apps/backend/app/repositories/subagents.py:299-323 | Over a whole history a run's claims are counted by its start stamp, so at most one claim ever happens |
| `Lifecycle.ExecutionClaimIsOldest` | apps/backend/app/repositories/agent_execution.py:255-272 | The claimed asynchronous execution is a queued one no younger than any other, and one is found iff any is queued |
| `Lifecycle.ExecutionClaimedAtMostOnce` | apps/backend/app/repositories/agent_execution.py:255-287 | Over any history an asynchronous execution is claimed at most once, and never after it has left the queue |
| `Lifecycle.ChangesAreBounded` | apps/backend/app/repositories/subagents.py:299-417 | The status changes of a whole history are paid for by the potential of its runs: two for each spawn |
| `Lifecycle.LifecyclesTerminate` | apps/backend/app/repositories/subagents.py:299-417 | N spawns allow at most 2N status changes in all |
| `Reports.FirstVerdictIsReported` | apps/backend/app/repositories/subagents.py:363-417 | In every reachable state a run is terminal iff a verdict has found it open, and its row, its summary message and nothing later carry the first such verdict: summary, output, cost, error and the text for the parent |
| `Reports.FinalizeReports` | apps/backend/app/repositories/subagents.py:370-417 | Finalizing an open run adds one message, the launcher's, with the parent text, puts the verdict on the run and its summary on the child session, and leaves every other run and session alone |
| `Reports.FinalizeClosesTask` | apps/backend/app/repositories/subagents.py:588-622 | The attached task and task run: timed from their own start; cost, error and output follow the verdict or stay, each by its rule on the old row |
| `Effects.SpawnWrites` | apps/backend/app/repositories/subagents.py:110-155 | A spawned run and its child session field by field, with the timeout it was given; nothing else changes |
| `Effects.SpawnRefusals` | apps/backend/app/repositories/subagents.py:110-125 | Each refusal of a spawn holds iff its own condition does, in the order of the checks |
| `Effects.ActiveRunsAreCounted` | apps/backend/app/repositories/subagents.py:160-165 | The slots in use are the number of the launcher's runs that are queued or running |
| `Effects.ClaimWrites` | apps/backend/app/repositories/subagents.py:310-320 | A claim starts the oldest queued run now and touches nothing else |
| `Effects.PersistWrites` | apps/backend/app/services/execution_result_persister.py:56-213 | The executor's write field by field: status, output, error, cost and message; only an end is stamped and timed |
| `Effects.EnqueueWrites` | apps/backend/app/services/agent_execution.py:375-460 | The user's message, the queued task and its queued run, field by field |
| `Effects.ResetClears` | apps/backend/app/repositories/agent_os.py:94-102 | A reset gives a conversation nobody has had, forgets summary and last message, and keeps every message |
| `Effects.MessagesAreForEver` | apps/backend/app/repositories/agent_execution.py:106-128 | No history changes or removes a message |
| `Agreement.FinalizeResolvesOnce` | apps/backend/app/repositories/subagents.py:370-417 | When finalizing acts, run, child session, attached task and task run take the one resolved status (cancelled iff asked for and not a timeout, or so judged), and no other row changes status |
| `Agreement.AttachmentsInEveryState` | apps/backend/app/repositories/subagents.py:329-341 | A run is attached to nothing, or to a task and task run of its own child session, in every reachable state |
| `Agreement.AgreementLostExactlyByParting` | apps/backend/app/services/execution_result_persister.py:169-213 | A terminal run and its task go on agreeing under every transaction except exactly two: the executor writing another end to that task, or the worker attaching a task in another state |
| `Agreement.SweeperBeatsWorker` | apps/backend/app/services/subagents.py:339-406 | If the sweeper finalizes between the executor's reads and its write, run and task agree iff the executor also wrote a timeout |
| `Agreement.LateWorkerDisagrees` | apps/backend/app/services/subagents.py:408-549 | A concrete history from the empty store that ends with a timed-out run whose task is completed |
| `Agreement.LateStampIsRecorded` | apps/backend/app/services/subagents.py:304-305 | A concrete history from the empty store that ends with a completed run that carries a cancellation request |
| `Agreement.AuditDisagrees` | apps/backend/app/services/subagents.py:504-546 | A concrete history from the empty store whose audit announces a completed run that was cancelled |
| `MessageLog.LogInvariantOverHistory` | apps/backend/app/repositories/agent_execution.py:106-128 | Over any mix of messages by all actors, late ones among them, and of resets, each session's sequence numbers are exactly 1..n, and conversations are only ever replaced by new ones |
| `MessageLog.ConversationIsSuffixExactly` | apps/backend/app/repositories/agent_execution.py:106-128 | Over any history the current conversation is a contiguous suffix of its session's log iff since the last reset no message of an earlier conversation was put behind one of its own |
| `MessageLog.OrderAfterStepExactly` | apps/backend/app/repositories/agent_os.py:94-102 | The same for one transaction: a reset restores it, a misplaced message is all that destroys it, and nothing else repairs it |
| `MessageLog.LateMessageBreaksTheSuffix` | apps/backend/app/repositories/agent_execution.py:106-128 | In every state with a main session: a writer that has read the session before a reset and a message puts its own into the middle of the new conversation, whose numbers then have a hole |
| `MessageLog.TakenExactlyWhenOvertaken` | apps/backend/app/models/entities.py:210-213 | The number a writer has read is refused by the uniqueness of numbers iff somebody has written to the session since |
| `MessageLog.ReadingsAreOvertaken` | apps/backend/app/repositories/agent_execution.py:106-118 | A reading is never newer than a later one, and the number is still the same iff nothing was written to the session in between |
| `MessageLog.ConversationGrowsAtTheEnd` | apps/backend/app/repositories/agent_execution.py:106-128 | Between resets of its own session a listing only grows at its end; the conversation keeps its place in the log iff no message is late |
| `MessageLog.ListingIsWhatFollowsTheReset` | apps/backend/app/repositories/agent_os.py:94-102 | After a reset the listing is what is written to the new conversation afterwards; that is all that is written to the session iff none of it is late |
| `MessageLog.CursorCutsListing` | apps/backend/app/repositories/agent_os.py:52-60 | The rows below a cursor taken from position j of a listing are its first j rows, however much has been appended since |
| `MessageLog.PageIs` | apps/backend/app/repositories/agent_os.py:52-75 | A page in terms of the rows below the cursor: all without a limit, else the newest up to the limit; more remain iff some do; the next cursor is the oldest row shown |
| `Consistency.ClaimWindow` | apps/backend/app/repositories/subagents.py:299-323 | What others can do between the claim's select and its update: a candidate still queued is still the oldest, and one that is not has made the queue shorter than the spawns explain |
| `Consistency.CandidateStaysOldest` | apps/backend/app/repositories/subagents.py:299-323 | A selected candidate that is still queued after any interference is still the oldest queued run |
| `ExecutionQueue.ExecutionWindow` | apps/backend/app/repositories/agent_execution.py:255-278 | What others can do between the execution claim's select and its update: a candidate still queued is still the oldest, and one that is not has made the queue shorter than the enqueues explain |
| `ExecutionQueue.HistoryMovesQueue` | apps/backend/app/repositories/agent_execution.py:155-196 | Over any history only enqueues lengthen the queue of executions, nothing comes back to it, and a candidate that left has shortened it |
| `SubagentRepository.Repository.CreateMessage` | apps/backend/app/repositories/subagents.py:564-586 | The loop over existing messages allocates the next number of the session and appends exactly one message in its current conversation |
| `SubagentRepository.Repository.CountActiveRuns` | apps/backend/app/repositories/subagents.py:160-165 | The loop counts exactly the launcher's queued and running runs |
| `SubagentRepository.Repository.SpawnSubagent` | apps/backend/app/repositories/subagents.py:110-155 | Refused for an unknown, non-main, nested or saturated parent and then nothing changes; else one session and one run are added and the count rises by one, within the limit |
| `SubagentRepository.Repository.SelectOldestQueued` | apps/backend/app/repositories/subagents.py:300-309 | The scan finds the specification's oldest queued run |
| `SubagentRepository.Repository.ClaimIfQueued` | apps/backend/app/repositories/subagents.py:310-320 | The guarded update takes the candidate iff it is still queued |
| `SubagentRepository.Repository.ClaimNextQueuedRun` | apps/backend/app/repositories/subagents.py:299-323 | The compare-and-set loop under arbitrary interference: it ends within the queue length plus the spawns of its windows, its effect is one atomic claim of the oldest queued run, and it gives up only when nothing is queued |
| `SubagentRepository.Repository.RequestCancellation` | apps/backend/app/repositories/subagents.py:290-297 | A run is stamped iff its caller had read it running, whatever its status has become, and keeps that status |
| `SubagentRepository.Repository.AttachExecutionIds` | apps/backend/app/repositories/subagents.py:329-341 | The run points to the task run and to that run's own task |
| `SubagentRepository.Repository.SyncTaskState` | apps/backend/app/repositories/subagents.py:588-622 | Task and task run take the run's status; the error text, cost and output follow their separate rules |
| `SubagentRepository.Repository.FinalizeRun` | apps/backend/app/repositories/subagents.py:343-417 | Unknown run, missing lineage and already terminal are told apart and change nothing; otherwise the tables become those of the one finalizing transaction and the run is terminal |
| `SubagentRepository.Repository.RecordVerdict` | apps/backend/app/repositories/subagents.py:370-417 | The step-by-step updates of run, child, parent, message, task and audit add up to the specified transaction |
| `SubagentRepository.Repository.PrepareExecution` | apps/backend/app/services/agent_execution.py:604-671 | A fresh running task and task run of the run's child session are added |
| `SubagentRepository.Repository.PersistOutcome` | apps/backend/app/services/execution_result_persister.py:56-213 | The executor's message, task and task-run updates, in their two forms (waiting for approval, or ended), with others between its reads and its insert: all of it, or nothing iff a message came in between |
| `SubagentRepository.Repository.InsertMessage` | apps/backend/app/repositories/agent_execution.py:119-128 | The insert acts iff its number is not taken, and the message keeps the conversation that was read |
| `SubagentRepository.Repository.PostMessage` | apps/backend/app/repositories/agent_execution.py:106-134 | With others acting between the read of the session, the read of its last number and the insert: refused iff a message was written to the session after the number was read, else it goes to the conversation read at the start |
| `SubagentRepository.Repository.ShouldCancel` | apps/backend/app/repositories/subagents.py:438-445 | The probe says stop iff the run is gone, terminal or asked to cancel |
| `ExecutionRepository.ExecutionRepository.CreateMainSession` | apps/backend/app/repositories/agent_os.py:77-92 | A fresh main session that is its own root |
| `ExecutionRepository.ExecutionRepository.ResetConversation` | apps/backend/app/services/agent_os.py:41-62 | Refused for an unknown or subagent session without effect; else that session's listing is empty and every other session's is what it was |
| `ExecutionRepository.ExecutionRepository.EnqueueSimple` | apps/backend/app/services/agent_execution.py:375-460 | The user's message, a queued task and its queued run appear together, or nothing does, iff the session is unknown or another message came between the reads and the insert |
| `ExecutionRepository.ExecutionRepository.SelectOldestExecution` | apps/backend/app/repositories/agent_execution.py:257-266 | The scan finds the specification's oldest queued execution |
| `ExecutionRepository.ExecutionRepository.ClaimExecutionIfQueued` | apps/backend/app/repositories/agent_execution.py:272-287 | The guarded update takes the run iff it is still queued, and only then its task follows |
| `ExecutionRepository.ExecutionRepository.ClaimNextQueuedExecution` | apps/backend/app/repositories/agent_execution.py:255-287 | The compare-and-set loop under arbitrary interference: it ends within the queue length plus the enqueues of its windows, its effect is one atomic claim of the oldest queued execution, and it gives up only when none is queued |
| `SubagentService.DelegatedOutcomeIsTerminal` | apps/backend/app/services/agent_execution.py:145-261 | A delegated execution always ends in a terminal status: completed iff the kernel answered with something that is neither a failure nor a request for approval |
| `SubagentService.StuckStaysStuck` | apps/backend/app/services/subagents.py:339-406 | A run past its deadline stays past it through any history until it is terminal |
| `SubagentService.StuckFromItsDeadlineOn` | apps/backend/app/services/subagents.py:339-351 | Over whole histories: a run spawned with a timeout and claimed at some time is stuck, while it runs, iff that time plus its timeout (the default for zero) plus the grace has come |
| `SubagentService.StuckMeans` | apps/backend/app/services/subagents.py:345-351 | A deadline in the fields of the rows: the own timeout or the default, from the start or the last change, plus the grace |
| `SubagentService.SweptInOrderOfStart` | apps/backend/app/repositories/subagents.py:419-436 | A sweep takes every running run once, in the order they started |
| `SubagentService.VerdictsSay` | apps/backend/app/services/subagents.py:353-400 | What the verdicts of sweeper, worker and cancel say, field by field, from the report and the end of the kernel |
| `SubagentService.DelegatedOutcomeSays` | apps/backend/app/services/agent_execution.py:176-261 | Text, error and error code of every way in which a delegated execution can stop |
| `SubagentService.Service.Cancel` | apps/backend/app/services/subagents.py:244-337 | Acting on a stale reading of the status, with anything committed in between, the cancellation is never lost: a run read queued is terminal, one read running is stamped; the stamp is respected iff the run had not completed or failed meanwhile |
| `SubagentService.Service.SweepOne` | apps/backend/app/services/subagents.py:339-406 | A run past its deadline is terminal afterwards whoever acted meanwhile; undisturbed, exactly that run changes |
| `SubagentService.Service.CleanupStuckRuns` | apps/backend/app/services/subagents.py:339-406 | Under interference every run that was stuck at the start is terminal at the end; undisturbed, it ends exactly the running runs whose timeout and grace have passed since their start, each cancelled or timed out with its report, and returns their number |
| `SubagentService.Service.StartTask` | apps/backend/app/services/subagents.py:447-470 | The worker's task is prepared and attached to the claimed run across two separate transactions with others in between |
| `SubagentService.Service.RunKernel` | apps/backend/app/services/agent_execution.py:710-737 | The cancellation flag is looked at before and after the kernel; the end is the kernel's own or a cancellation |
| `SubagentService.Service.Execute` | apps/backend/app/services/agent_execution.py:145-261 | The outcome is written to the worker's own task run in a transaction of its own, whatever others did before the kernel, under it, after the last look at the flag or between its reads and its insert; it raises iff its message was overtaken in the child session |
| `SubagentService.Service.Conclude` | apps/backend/app/services/subagents.py:490-549 | The run is terminal when the worker returns, by its verdict or somebody else's; undisturbed, the verdict is the kernel's outcome |
| `SubagentService.Service.ProcessNextQueuedRun` | apps/backend/app/services/subagents.py:408-549 | The whole worker under interference: it claims nothing only when nothing is queued, a claimed run is terminal on return unless the worker raised and left it running, and an undisturbed worker leaves run, task and task run in agreement on the kernel's outcome, and the launcher with the report |
| `MessagePaging.MessageReader.SelectNewest` | apps/backend/app/repositories/subagents.py:202-231 | The newest-first scan with a limit returns the tail of the matching rows, reversed |
| `MessagePaging.MessageReader.ListMessages` | apps/backend/app/repositories/agent_os.py:46-75 | One fetch, with and without limit and cursor and for an unknown session, equals the specified page of the full listing |
| `MessagePaging.MessageReader.WalkMessages` | apps/backend/app/repositories/agent_os.py:46-75 | Following the cursors to the end, while anything but a reset of that session is committed between fetches, returns exactly the full listing at the first fetch, in the number of fetches the limit implies |
| `MessagePaging.ListingAfter` | apps/backend/app/repositories/subagents.py:202-231 | Whatever others commit but a reset, late messages included, only extends the listing at its end and keeps its numbers ascending |
| `ActivityTimeline.ActivityRepository.ListRecentTaskRunsPage` | apps/backend/app/repositories/activity.py:32-55 | The page is the first rows, newest first with ties by identifier, of the shown runs below the cursor |
| `ActivityTimeline.ActivityRepository.GetTimeline` | apps/backend/app/services/activity.py:64-92 | The extra row is cut off, and a next cursor exists iff there is more |
| `ActivityTimeline.ActivityRepository.WalkTimeline` | apps/backend/app/services/activity.py:64-92 | While runs keep being created, the walk ends, visits no row twice and every row of the first snapshot exactly once; if all that is created is newer, it visits nothing else |
| `ActivityTimeline.RestIsDescending` | apps/backend/app/repositories/activity.py:46-55 | The rows below a cursor come strictly newest first and are exactly the shown rows past it |
| `PromptPacking.BuildLayer` | apps/backend/app/services/prompt_context_service.py:461-512 | The loop's content never exceeds the budget; the included candidates are the longest prefix, newest first with ties by identifier, whose newline join fits, plus at most one truncated candidate that is also reported excluded |
| `PromptPacking.PackingAccounts` | apps/backend/app/services/prompt_context_service.py:461-512 | Every candidate is included or excluded as often as it was offered, except the one truncated candidate, which is both |
| `PromptPacking.PackingPrefersNewer` | apps/backend/app/services/prompt_context_service.py:470-475 | Nothing excluded is newer than anything included |
| `PromptPacking.JoinedIsLines` | apps/backend/app/services/prompt_context_service.py:476-500 | The text built piece by piece is the newline join of the included candidates |
| `PromptContext.ResolveCandidates` | apps/backend/app/services/prompt_context_service.py:344-459 | The two-phase loop (filter, group, contest) computes the specified resolutions |
| `PromptContext.ContestMeans` | apps/backend/app/services/prompt_context_service.py:380-401 | Per natural key there is one winner: visible, and no weaker than any other visible record of the key by source priority, then newest, then identifier; the others are reported as overridden |
| `PromptContext.WinnersAreVisible` | apps/backend/app/services/prompt_context_service.py:344-378 | A winner is neither hidden nor deleted nor the target of a live override, including one that is itself overridden |
| `PromptContext.EveryRecordIsAccountedFor` | apps/backend/app/services/prompt_context_service.py:344-401 | Each loaded record is dropped with its reason, or a winner, or beaten, or in a group whose winner has no layer |
| `PromptAssembly.LayerCandidatesAre` | apps/backend/app/services/prompt_context_service.py:108-128 | The episodic layer keeps the four best matches and the other layers everything; whatever is left out of the four is beaten by all of them |
| `PromptAssembly.ShortlistKeepsBest` | apps/backend/app/services/prompt_context_service.py:119-128 | Whatever episode misses the four is no better than any of them in overlap, then density, then age, then identifier |
| `PromptAssembly.PackLayers` | apps/backend/app/services/prompt_context_service.py:108-140 | The layers in their fixed order, each within its own budget, place every candidate that reaches them |
| `PromptAssembly.BuildContext` | apps/backend/app/services/prompt_context_service.py:84-140 | The five layer texts are the packings of their candidates, each within its own budget and 7700 characters together, and the rows of a layer are what its packing includes and leaves out; every winner is included, excluded with a reason, or one of the episodic matches beyond the fourth, which are reported nowhere |
| `PromptAssembly.FifthMatchIsReportedNowhere` | apps/backend/app/services/prompt_context_service.py:119-128 | For every session and every way of scoring, of five episodic entries without rivals one is in no row of whatever context is built |
| `PromptAssembly.LayersAreLines` | apps/backend/app/services/prompt_context_service.py:574-581 | No rendered entry or summary is empty, so every layer is built as the newline join of its candidates |
| `PromptAssembly.OnlyVisibleEntriesAreIncluded` | apps/backend/app/services/prompt_context_service.py:344-401 | A candidate stands for a loaded, visible, not overridden entry, with that entry's layer and text, that beats every other visible entry of its natural key |
| `RecallRules.IncludedEntryBelongs` | apps/backend/app/services/prompt_context_service.py:537-549 | After any history every entry row of a prompt stands for a stored, visible, not overridden entry that the session loads, in the layer its own fields give; a delegated session is shown only its own session's episodes |
| `RecallRules.IncludedSummaryBelongs` | apps/backend/app/services/prompt_context_service.py:551-560 | And every summary row for a visible summary of the viewer's own conversation and of no task run |
| `RecallRules.UnbeatenEntryIsCandidate` | apps/backend/app/services/prompt_context_service.py:344-401 | The converse: a visible entry that shares agent, session, root, conversation, user or workspace with the viewer, that nothing overrides or beats and that belongs to a layer is a candidate of exactly that layer with its own line |
| `RecallRules.RivalsExactly` | apps/backend/app/services/prompt_context_service.py:514-535 | Two entries compete iff they override the same entry, or none and share scope, key and title up to case and spacing |
| `RecallRules.PrioritiesAre` | apps/backend/app/services/prompt_context_service.py:380-388 | The sources from strongest to weakest |
| `MemoryHistory.ReplayKeepsWellFormed` | apps/backend/app/services/memory.py:608-674 | After any history an override is user-managed, its target is no override itself and is loaded by the same sessions |
| `MemoryHistory.DeduplicationLostExactlyByUnchecked` | apps/backend/app/services/memory_admin_service.py:131-222 | Every operation keeps at most one undeleted entry per content, except exactly a restore, an override, or a write whose look for a twin is older than a twin, that meets an undeleted entry of the same content |
| `MemoryHistory.UniqueThroughoutExactly` | apps/backend/app/services/memory_admin_service.py:329-336 | Over any history contents stay unique at every moment iff no operation meets an undeleted twin unchecked |
| `MemoryHistory.RestoreBringsBackATwin` | apps/backend/app/services/memory_admin_service.py:278-291 | From the empty memory: writing any acceptable text, deleting it, writing it again and restoring the first leaves two undeleted entries of one content |
| `MemoryHistory.ReplayKeepsSummariesFormed` | apps/backend/app/services/memory.py:698-735 | After any history an override of a summary is manual, its target is no override itself and belongs to the same task run |
| `MemoryHistory.WithdrawalLostExactlyByRevival` | apps/backend/app/services/prompt_context_service.py:142-217 | A hidden summary stays hidden, and a deleted one deleted, under every operation except exactly its restoration and a refresh with messages that finds it as its session's summary |
| `MemoryHistory.WithdrawnThroughoutExactly` | apps/backend/app/services/prompt_context_service.py:142-217 | Over any history a hidden summary is hidden, and a deleted one deleted, at every moment iff no operation revives it |
| `MemoryHistory.HiddenSummaryComesBack` | apps/backend/app/services/prompt_context_service.py:142-217 | From the empty memory: an execution writes its session's summary, the user hides or deletes it, and the next execution shows it again |
| `MemoryHistory.HistoryStaysDeduplicated` | apps/backend/app/services/memory_admin_service.py:131-222 | Histories of operations that look and write in one step, without restores and overrides, never hold two undeleted entries of one content |
| `MemoryHistory.CaptureOnlyAdds` | apps/backend/app/services/memory_capture_service.py:23-125 | A capture changes and removes nothing: it adds at most one summary and one entry |
| `MemoryHistory.CaptureCases` | apps/backend/app/services/memory_capture_service.py:23-125 | What a capture does by what is stored: nothing when off, blank or done for the run; the summary alone over buried content; nothing over stored content; else both |
| `MemoryText.SameContentExactly` | apps/backend/app/memory/policy.py:68-81 | Contents without bars have the same identifying text iff titles, bodies and summaries agree up to case and spacing |
| `MemoryText.BarsConfuseContents` | apps/backend/app/memory/policy.py:68-76 | With two bars in it, a text can be read as the end of the title or the start of the body, and different contents are taken for one |
| `MemoryText.ManualTextIs` | apps/backend/app/memory/policy.py:84-110 | A manual text is refused iff title or body is blank; else the title keeps its words and body and summary are trimmed |
| `MemoryText.AutomaticTextIs` | apps/backend/app/memory/policy.py:113-145 | A captured text is the whole trimmed output, with its words as title |
| `MemoryHistory.CaptureRespectsTombstones` | apps/backend/app/repositories/memory.py:120-132 | A capture never adds an entry whose content the user has hidden or deleted |
| `MemoryHistory.SummarisedRunIsNeverCapturedAgain` | apps/backend/app/services/memory_capture_service.py:23-40 | Once a task run has a summary, capturing it again after any history of edits changes nothing |
| `MemoryHistory.CaptureIsIdempotentExactly` | apps/backend/app/services/memory_capture_service.py:23-125 | When an immediate second capture of the same task run and output changes nothing, as an if-and-only-if |
| `MemoryRecall.PromptShowsOnlyVisibleMemory` | apps/backend/app/services/prompt_context_service.py:344-401 | After any history of edits, whatever a prompt includes is visible and not overridden by a live entry anywhere in the store, even if a restore un-hid it |
| `MemoryRecall.PromptShowsOnlyVisibleSummaries` | apps/backend/app/services/prompt_context_service.py:403-459 | The same for summaries, over histories of edits, captures and refreshes of the conversation's own summary |
| `MemoryRecall.OneVoicePerFamily` | apps/backend/app/services/memory.py:608-674 | After any history at most one of an entry and its overrides reaches a prompt |
| `MemoryService.MemoryService.FindActiveByDedupeHash` | apps/backend/app/repositories/memory.py:106-118 | The scan finds an undeleted entry of that content, other than the excepted one, iff there is one |
| `MemoryService.MemoryService.FindUserTombstone` | apps/backend/app/repositories/memory.py:120-132 | The scan finds a hidden or deleted entry of that content iff there is one |
| `MemoryService.MemoryService.CreateManualEntry` | apps/backend/app/services/memory_admin_service.py:131-170 | Refused as unacceptable iff title or body is blank, as a conflict with an undeleted entry of the same content; else one manual entry holds the given words and trimmed texts |
| `MemoryService.MemoryService.UpdateItem` | apps/backend/app/services/memory.py:165-192 | A user-managed entry takes the edited title, body and summary in place, an automatic one is hidden behind a manual copy that holds them and points to it; nothing else changes, and a refusal changes nothing |
| `MemoryService.MemoryService.HideItem` | apps/backend/app/services/memory.py:194-201 | The entry is hidden, every other field of it and every other entry is untouched |
| `MemoryService.MemoryService.DeleteItem` | apps/backend/app/services/memory.py:235-250 | Soft deletion stamps the entry and keeps its flag and content, hard deletion removes that row alone |
| `MemoryService.MemoryService.PromoteItem` | apps/backend/app/services/memory_admin_service.py:224-247 | The entry becomes stable and the user's own, by its origin, and keeps text, target and reach |
| `MemoryService.MemoryService.DemoteItem` | apps/backend/app/services/memory_admin_service.py:249-261 | The entry becomes episodic and stays the user's own if it was |
| `MemoryService.MemoryService.RestoreItem` | apps/backend/app/services/memory.py:203-215 | The entry is undeleted and un-hidden, whichever applies, and every other entry is untouched |
| `MemoryService.MemoryService.CreateSummary` | apps/backend/app/services/memory.py:557-579 | A fresh manual summary that belongs to no task run |
| `MemoryService.MemoryService.UpdateSummary` | apps/backend/app/services/memory.py:595-606 | A manual summary is rewritten in place, an automatic one is hidden behind a manual copy for the same task run |
| `MemoryService.MemoryService.HideSummary` | apps/backend/app/services/memory.py:194-201 | The summary is hidden, and deleted only if it was |
| `MemoryService.MemoryService.RestoreSummary` | apps/backend/app/services/memory.py:203-215 | The summary is neither hidden nor deleted, whichever it was |
| `MemoryService.MemoryService.DeleteSummary` | apps/backend/app/services/memory.py:235-250 | A softly deleted summary is hidden as well, a hard deletion removes that row alone |
| `MemoryService.MemoryService.RefreshSummary` | apps/backend/app/services/prompt_context_service.py:142-217 | The session's own latest automatic summary is found and written anew, visible and undeleted; without messages it is buried and nothing is returned |
| `MemoryService.MemoryService.CaptureExecutionResult` | apps/backend/app/services/memory_capture_service.py:23-125 | The guarded sequence of lookups and inserts is the specified capture: a new entry holds the whole trimmed output, automatic and episodic, and what is returned is undeleted and has the output's content |
| `MemorySearch.PrepareWorkingItems` | apps/backend/app/services/memory_search_service.py:197-276 | The table filled in one pass holds, per record in order of first appearance, the merge of its contributors |
| `MemorySearch.MergedExistsExactly` | apps/backend/app/services/memory_search_service.py:244-262 | A record is returned iff some candidate contributes to it, and at most once |
| `MemorySearch.MergedScopesAreUnion` | apps/backend/app/services/memory_search_service.py:262-265 | A merged item's matched scopes are exactly those some contributor matched |
| `MemorySearch.MergedLexicalIsMaximum` | apps/backend/app/services/memory_search_service.py:269-271 | A merged item's lexical score is at least that of every contributor |
| `MemorySearch.MergedHitIsContributed` | apps/backend/app/services/memory_search_service.py:269-271 | A merged item's content and score are what one contributor brought, so the score is the maximum |
| `MemorySearch.ReturnedSharesScope` | apps/backend/app/services/memory_search_service.py:197-242 | A returned record shares an applied scope with the search in its own fields: it matched itself, or it is the visible override of an automatic record that matched |
| `MemorySearch.MatchesAreReturned` | apps/backend/app/services/memory_search_service.py:197-262 | The converse: a candidate that shares an applied scope is returned, or with substitution on its visible override is |
| `MemorySearch.MergedMarksExactly` | apps/backend/app/services/memory_search_service.py:244-276 | A merged item is marked as an override, or as standing in, iff one of its contributors is |
| `MemorySearch.ScoreIs` | apps/backend/app/services/memory_search_service.py:278-290 | What raises a score and by how much: lexical score, importance, 0.75 for manual, 0.6, 0.3 or 0.1 by age |
| `MemorySearch.SubstitutionIsComplete` | apps/backend/app/services/memory_search_service.py:210-242 | With substitution on, no returned record is automatic while it has an undeleted manual override, visible or hidden |
| `SearchHistory.SearchReturnsNothingOverridden` | apps/backend/app/services/memory_search_service.py:210-242 | After any history of edits and captures, a search with substitution returns no automatic record that has a live manual override in the store, visible or hidden |
| `MemorySearch.HiddenOverrideSilences` | apps/backend/app/services/memory_search_service.py:231-233 | With a hidden override the search returns exactly what it would had the overridden record not matched |
| `MemorySearch.RankWorkingItems` | apps/backend/app/services/memory_search_service.py:278-316 | The loop with its running counter charges each item 0.2 per earlier item of the same content |
| `MemorySearch.RankingIsFair` | apps/backend/app/services/memory_search_service.py:278-316 | The ranking is a permutation, ordered by score before penalties, then newest, then identifier; final scores strictly fall along the copies of one content |
| `MemorySearch.RankedInOrder` | apps/backend/app/services/memory_search_service.py:290-316 | The same in the fields of the results, with exactly 0.2 less for each earlier result of the same text |
| `Schedules.NextInterval` | apps/backend/app/core/schedules.py:41-45 | The catch-up loop stops, at the base plus the least number k >= 1 of intervals that lies after the reference, in closed form |
| `Schedules.ComputeNextAfter` | apps/backend/app/core/schedules.py:34-75 | The three branches compute the specified next firing time |
| `Schedules.NextAfterIsLeast` | apps/backend/app/core/schedules.py:34-75 | For every schedule the next firing time is the least slot strictly after the reference |
| `Schedules.DailyIsLeast` | apps/backend/app/core/schedules.py:50-59 | The daily slot lies within one day and no daily slot lies between |
| `Schedules.WeeklyIsLeast` | apps/backend/app/core/schedules.py:61-75 | The weekly slot lies within seven days and no weekly slot lies between |
| `Schedules.CalendarIsMonotone` | apps/backend/app/core/schedules.py:47-75 | A later reference never gives an earlier calendar slot |
| `Schedules.NoCalendarSlotIsSkipped` | apps/backend/app/core/schedules.py:47-75 | Firing from slot to slot reaches every later calendar slot |
| `ScheduleText.ParsedIsAcceptable` | apps/backend/app/core/schedules.py:78-131 | Whatever parses is a positive interval or a real time of day |
| `ScheduleText.StoredTextParses` | apps/backend/app/core/schedules.py:78-131 | The stored, normalised text parses to the same schedule and is its own normal form |
| `ScheduleText.RenderParsesBack` | apps/backend/app/core/schedules.py:8-23 | Every acceptable schedule has a text that parses back to it |
| `ScheduleText.ParsedIsItsText` | apps/backend/app/core/schedules.py:8-23 | Nothing else parses: a calendar text is the one text of its schedule, an interval is its digits between keyword and unit |
| `CronJobs.NextRunIsLater` | apps/backend/app/services/cron_jobs.py:114-115 | A next run exists iff schedule and zone parse, and lies strictly after the reference |
| `CronPlans.NextRunIsOnTime` | apps/backend/app/core/schedules.py:32-75 | Every next run is the least slot of its schedule after the reference, an interval from the last run, a calendar schedule on the clock of its own zone |
| `CronPlans.HistoryKeepsPlans` | apps/backend/app/services/cron_jobs.py:41-143 | Over any history the plan of every active job is such a slot of its own schedule and zone after the moment it was made |
| `CronPlans.DailySlotReads` | apps/backend/app/core/schedules.py:50-59 | A daily slot is the times whose clock shows the hour and the minute, on the second |
| `CronPlans.WeeklySlotReads` | apps/backend/app/core/schedules.py:61-75 | A weekly slot is besides on its weekday |
| `CronPlans.EverySlotReads` | apps/backend/app/core/schedules.py:41-45 | An interval slot is a whole number of intervals, at least one, past its base |
| `CronPlans.DaysAre` | apps/backend/app/core/schedules.py:15-23 | The names of the days, Monday first |
| `CronJobs.ApplyKeepsSound` | apps/backend/app/services/cron_jobs.py:41-143 | Every step in any interleaving keeps: stored schedules parse, active jobs have a next run, each owner has one task, attempts stay numbered, an attempt is finished iff it has ended |
| `CronJobs.HistoryKeepsSound` | apps/backend/app/services/cron_jobs.py:41-143 | The same after any history |
| `CronJobs.HistorySoundExactly` | apps/backend/app/repositories/cron_jobs.py:83-153 | With looks that are older than their inserts: after any history all of this holds iff no owner's task and no attempt's number was overtaken between its look and its insert; such damage is never repaired |
| `CronJobs.AttemptsAreOneToN` | apps/backend/app/repositories/cron_jobs.py:133-153 | After any history the attempts of each task are numbered exactly 1 to n |
| `CronJobs.ScheduledKeptExactly` | apps/backend/app/services/cron_jobs.py:229-285 | A next run is set iff the job is active: kept by every step except exactly the end of an attempt whose job is no longer active |
| `CronJobs.HistoryKeepsScheduled` | apps/backend/app/services/cron_jobs.py:41-143 | The same over any history in which attempts end while their job is active |
| `CronJobs.PausedDuringItsRun` | apps/backend/app/services/cron_jobs.py:247-252 | Pausing any active job during its run leaves it paused with a next run set |
| `CronJobs.RemovedIsForever` | apps/backend/app/services/cron_jobs.py:125-143 | No history brings a removed job back or edits its schedule |
| `CronJobs.HistoryMakesNothingDue` | apps/backend/app/repositories/cron_jobs.py:188-199 | Nothing done at or after a moment makes a job due at that moment |
| `CronJobs.RepairChangesNothing` | apps/backend/app/services/scheduler.py:82-89 | On tables written by these services the repair at the start of a tick finds nothing to do |
| `CronScheduler.CronStore.NewJob` | apps/backend/app/services/cron_jobs.py:41-65 | Refused without effect iff schedule or zone does not parse; else the new job is active, stored in normal form, and planned for the first slot from now on the clock of its zone |
| `CronScheduler.CronStore.EditJob` | apps/backend/app/services/cron_jobs.py:67-94 | A removed or unknown job and an edit that does not parse change nothing; else schedule and zone are as given, and only an active job is planned again, for its first slot from now |
| `CronScheduler.CronStore.Pause` | apps/backend/app/services/cron_jobs.py:96-108 | A found job is paused and has no next run; a removed one is not found |
| `CronScheduler.CronStore.ActivateAgain` | apps/backend/app/services/cron_jobs.py:110-123 | A found job is active and planned for its first slot from now; a stored schedule never fails to parse |
| `CronScheduler.CronStore.Remove` | apps/backend/app/services/cron_jobs.py:125-143 | A found job is not found any more |
| `CronScheduler.CronStore.GetOrCreateTask` | apps/backend/app/repositories/cron_jobs.py:83-107 | The owner's first task, created if there is none |
| `CronScheduler.CronStore.CreateTaskRun` | apps/backend/app/repositories/cron_jobs.py:133-153 | The new attempt is numbered one more than the task's existing attempts |
| `CronScheduler.CronStore.RunJob` | apps/backend/app/services/cron_jobs.py:229-285 | Start, execution with others acting, and end; well or badly, the job has run now and is planned for its first slot from there |
| `CronScheduler.CronStore.CleanStaleRuns` | apps/backend/app/repositories/cron_jobs.py:223-235 | Exactly the attempts of jobs and heartbeats under way since before the cutoff are failed, with their tasks |
| `CronScheduler.CronStore.RepairPlans` | apps/backend/app/services/scheduler.py:82-89 | Every active job without a next run gets one, and nothing else changes |
| `CronScheduler.CronStore.ListDueJobs` | apps/backend/app/repositories/cron_jobs.py:188-199 | Exactly the active jobs planned up to now, each once, earliest plan first |
| `CronScheduler.CronStore.RunDueJobs` | apps/backend/app/services/scheduler.py:65-71 | With others acting before and during each run, each job due at the start gets exactly one ended attempt, in plan order, and no active job is due at that moment afterwards; undisturbed, exactly the due jobs change |
| `CronScheduler.CronStore.HeartbeatDue` | apps/backend/app/services/scheduler.py:100-115 | The heartbeat is due iff none has gone well yet or its interval has passed |
| `CronScheduler.CronStore.Tick` | apps/backend/app/services/scheduler.py:57-80 | The due jobs as above and then, iff it is due, one heartbeat of its own attempt that leaves jobs and earlier runs alone; nothing is due at the tick's moment afterwards, and undisturbed every due job has run now and has its first slot from now, no other job changes, and the attempts grow by exactly the due jobs and the heartbeat |
| `CronScheduler.CronStore.RunHeartbeat` | apps/backend/app/services/cron_jobs.py:287-339 | The heartbeat is an attempt of its own task around the stale sweep, and only a good one moves its time stamp |
| `Approvals.HistoryKeepsSound` | apps/backend/app/services/approvals.py:48-214 | Any history of requests, approvals, denials and outside changes keeps the gate: an approval is decided once and one way, its call starts only after it was approved and at most once, a refused call stays denied |
| `Approvals.AskedRunsOnlyOnceApproved` | apps/backend/app/services/tools.py:275-356 | Over any history from the empty desk: a call that had to ask starts at most once, only after its own approval was given, and never if it was refused |
| `ToolGate.StartsAreLicensed` | apps/backend/app/services/tools.py:195-356 | From the empty desk every start belongs to a call that was offered and whose tool was then allowed or overridden, or had to ask and has been approved |
| `ToolGate.RefusedNeverStarts` | apps/backend/app/services/tools.py:230-275 | A call that was not offered, or whose tool had no level or was denied without an override, stays denied and never starts, and no approval covers it |
| `ToolGate.LevelDecides` | apps/backend/app/services/tools.py:195-325 | One request in the fields of call and levels: when it is denied, asks, fails or starts, and what it records |
| `ToolGate.ApprovalNeedsItsContext` | apps/backend/app/services/approvals.py:48-149 | One approval in the fields of its rows: the call resumes iff message, session and level are there, else only the decision is written |
| `Approvals.DecisionsAreFinal` | apps/backend/app/services/approvals.py:206-214 | No history changes a decided approval or the call it covers |
| `Approvals.DeniedNeverRuns` | apps/backend/app/services/approvals.py:151-180 | Denying fails the task and its run at once, and through any continuation the call never starts |
| `Approvals.DeniedEndsFailedExactly` | apps/backend/app/services/approvals.py:165-180 | The task of a denied call and its run are failed at every later moment iff no other result is written over one of them |
| `Approvals.FailureLostExactlyByOverwriting` | apps/backend/app/services/execution_result_persister.py:169-213 | A failed task and run stay so under every step except exactly a result with another status for one of them |
| `Approvals.DenialOverwritten` | apps/backend/app/services/approvals.py:48-149 | From the empty desk: a task that waits for two calls, one denied, the other approved, ends completed |
| `Approvals.AgreementLostExactlyByLostContext` | apps/backend/app/services/approvals.py:48-85 | A call waits iff its approval is pending: kept by every step except exactly approving a call whose trigger message, session or permission row is missing |
| `Approvals.UntriggeredCallIsLeftWaiting` | apps/backend/app/services/execution_request_builder.py:87-99 | From the empty desk: a call that no message triggered, as those of a delegated run, is left waiting by its own approval |
| `Approvals.StuckForEver` | apps/backend/app/services/approvals.py:54-73 | A call left waiting after its approval was given waits through every history |
| `Approvals.GateHoldsExactly` | apps/backend/app/services/approvals.py:48-180 | Over any history of whole operations and of approvals and denials written on an earlier check, the gate holds at the end iff every decision still met its approval pending when it was written |
| `Approvals.StaleCheckBreaksTheGateExactly` | apps/backend/app/services/approvals.py:49-60 | The writes of an approval made on an earlier check keep the gate iff the approval is still pending when they are made |
| `Approvals.RacingApprovalsRunTwice` | apps/backend/app/services/approvals.py:49-60 | Two approvals that both saw it pending start the tool twice |
| `ApprovalService.ToolDesk.ExecuteToolCall` | apps/backend/app/services/tools.py:195-325 | By the stored level: denied iff not offered, without a level or denied without override; asking iff the level asks without override; started iff allowed or overridden; exactly one call is recorded |
| `ApprovalService.ToolDesk.ExecuteAndRecord` | apps/backend/app/services/tools.py:358-406 | A failing preview and a raising tool both end the call as failed, only the latter started |
| `ApprovalService.ToolDesk.ApproveIt` | apps/backend/app/services/approvals.py:48-149 | Each refusal with what it leaves behind: before the decision nothing, after it the approval given and the call still waiting; else the call has run |
| `ApprovalService.ToolDesk.DenyIt` | apps/backend/app/services/approvals.py:151-204 | Refused without effect, or approval, call, task and task run all closed |
| `Permissions.HistoryKeepsSound` | apps/backend/app/services/tools.py:90-154 | Over any history of one instance the remembered lookups are what the table holds, and the default agent's rows are the resolver's |
| `Permissions.LookupsAreEffective` | apps/backend/app/services/tools.py:230-238 | After any history, from any rows, a lookup for the default agent finds the override or else the profile's level, and asks iff that level is to ask |
| `Permissions.LevelAcrossProfiles` | apps/backend/app/services/tools.py:108-154 | A level that was not the profile's own holds under every later profile; one that was gives way to the next profile's |
| `ToolPolicy.ProfilesAre` | apps/backend/app/tools/policies.py:21-74 | The whole table: which profile denies and allows what |
| `Permissions.LevelChangeIsLocal` | apps/backend/app/services/tools.py:108-154 | The wanted level is effective at once, every other tool keeps its effective level, every other agent its rows |
| `Permissions.OtherAgentsAgreeExactly` | apps/backend/app/services/tools.py:90-106 | After a profile change another agent's rows agree with the resolver iff the two profiles give the same level to every tool it has no override for |
| `Permissions.StaleLookup` | apps/backend/app/services/tools.py:230-238 | Such an agent's lookups go on returning the old profile's level |
| `Permissions.FilledRows` | apps/backend/app/services/tools.py:668-693 | Filling writes exactly the agent's rows of the catalog, each the resolver's, and touches no other row |
| `ToolService.ToolService.MaterializePermissions` | apps/backend/app/services/tools.py:668-693 | The upsert loop fills the table as specified, and does nothing for an agent already filled in |
| `ToolService.ToolService.UpdatePolicyProfile` | apps/backend/app/services/tools.py:90-106 | The new profile is set and the default agent's rows are the resolver's at once |
| `ToolService.ToolService.UpdatePermission` | apps/backend/app/services/tools.py:108-154 | An unknown tool changes nothing; a known one is stored with the wanted level, asking iff that level asks |
| `ToolService.ToolService.PermissionFor` | apps/backend/app/services/tools.py:230-238 | The remembered or stored row, and for the default agent the effective level |
| `ContextSnapshot.RoundTripExactly` | apps/backend/app/services/subagents.py:794-812 | Splitting what was built gives back the normalised context and the parent snapshot iff the separator does not occur in that context followed by one line break, for any parent text |
| `ContextSnapshot.NormalIs` | apps/backend/app/services/subagents.py:794-800 | The stored context is the given one without the white space around it, or a stock word if it is blank |
| `ContextSnapshot.BuiltTextIs` | apps/backend/app/services/subagents.py:794-800 | The stored text: two headings, the context under the first, the parent snapshot under the second |
| `ContextSnapshot.PlainTextIsContext` | apps/backend/app/services/subagents.py:802-812 | A text stored without the headings is all context |
| `ContextSnapshot.UnsplittableExactly` | apps/backend/app/services/subagents.py:802-812 | Exactly the stored texts on which the split fails: prefix, the rest of a separator right behind it, and no whole separator after |
| `ContextSnapshot.HeadingsAloneAreUnsplittable` | apps/backend/app/services/subagents.py:802-812 | The two headings alone, without a context between them, are such a text |
| `ContextSnapshot.BuiltIsSplittable` | apps/backend/app/services/subagents.py:794-812 | No text that was built is such a text |
| `Agreement.AuditMatchesUnlessOverridden` | apps/backend/app/services/subagents.py:504-546 | The terminal audit event announces the verdict handed in; it differs from the run's status iff a recorded cancellation overrode a completed or failed verdict |
| `Approvals.ApprovedRunsDespiteDeny` | apps/backend/app/services/tools.py:327-356 | An approved call runs although its tool has since been set to deny |
| `ToolPolicy.ProfilesOnlyWiden` | apps/backend/app/tools/policies.py:21-74 | The four profiles are ordered: a later one never allows less of any group |

## Left out

- MessagePaging.MessageReader.WalkMessages: assumes that the walked session is not reset between fetches; after a reset the cursor belongs to another conversation.
- ActivityTimeline.ActivityRepository.WalkTimeline: a row created meanwhile that is older than the cursor may be visited too; nothing is said about which of those are.
- MemorySearch.SubstitutionIsComplete: takes what the two override queries return as given; `SearchHistory.SearchReturnsNothingOverridden` states it over the store.
- SearchHistory.SearchReturnsNothingOverridden: the hits are records of one moment of the store; that the text index agrees with the store is not modelled.
- Approvals.AskedRunsOnlyOnceApproved: an approval and a denial are each one step; `Approvals.GateHoldsExactly` says what happens when their check is older.
- MessageLog.ConversationIsSuffixExactly: any conversation number below the session's current one stands for an earlier reading of it, whether the session had it or not.
- MemoryHistory.CaptureRespectsTombstones: about a capture that looks and writes in one step; a late one may repeat what was buried after its look.
- MemoryHistory.SummarisedRunIsNeverCapturedAgain: the same; two captures of one task run that both look first each note a summary.
- CronJobs.HistoryKeepsSound: creating a job and its task is one step, as is starting an attempt; `CronJobs.HistorySoundExactly` takes the looks apart from the inserts.
- Overrides, refreshes, demotions and permission changes, which also read before they write, are one step each.
- CronJobs.ScheduledKeptExactly: one condition per step; the program has no guard that would establish it.
- ACP-mapped runs, which are completed by an unguarded write after the spawn has committed: all run properties are about runs of the subagent runtime.
- The stored-row reading of the ORM, retries on a locked database, and rollback of a failed request other than "nothing changed".
- Runs, messages and tasks are never deleted, identifiers are row positions, and the provenance of a message is an annotation that the database does not have.
- The concurrency limit is fixed during a history.
- Audit events other than the terminal event of a run, the tool start and the decision of an approval; payloads and summary wording.
- The kernel, the tools' own work, timeouts of the event loop and heartbeats of running workers: executions end in an outcome given as a parameter.
- A tool call that a crash leaves between its creation and its first status.
- Episodic persistence, which has no caller, and the recall filter of the memory page, which would add an easy member; importance and titles of summaries.
- Full-text search and its scores: candidates and lexical scores are inputs, in millionths, without rounding; the list of matched scopes is a set.
- Content hashes are the normalised text itself; Unicode normalisation, case folding outside ASCII, and the secret and injection filters are not modelled.
- Time zones are fixed offsets, times are whole seconds; daylight saving and the time-zone database are not modelled.
- Permission rows' workspace paths and the preview texts of approvals.
- The desktop application, the HTTP routes, migrations and seeding.
