# Verification of the XYN runtime core

A Dafny model of the stateful and algorithmic core of the service: the runtime scheduler and its step log, the
legacy lease queue, change efforts and promotions, the cursor listings and the event stream, the source tree and
code search, artifact provenance, and the bounded source scan. Nothing is executed: every statement below is proved
by the Dafny verifier over all inputs, all histories or all interleavings.

`dafny verify dfyconfig.toml` checks the whole project.

## How it is built

Tables are maps or sequences of rows. Where the source assigns the columns of rows, a class holds the tables and has
one method for each function of the source (`RuntimeScheduler.Runtime`, `StepLog.StepTable`, `LeaseQueue.RunTable`,
`ChangeEffortApi.EffortTables`, `EventStream.Iterator`, `SourceTree.TreeBuilder`); each method is proved to turn the old
state into what a specification function says, and the properties are proved about the specification functions and
about every sequence of them. Beside the specification functions stand the columns: contracts and lemmas that say, without
these functions, what each operation writes and answers (`RuntimeColumns`, `ProvenanceFields`, and the lemmas named
`...Exactly` in the other modules). Loops of the source are loops here (`CodeSearch.SearchFiles`, `SourceScan.ReadSourceRoots`,
`Provenance.FillLegacy`). What only computes is a function. A request that is rejected, or a function that raises before
it commits, leaves the tables as they were. The execution of a run commits at the start and the end of each of its steps:
`RuntimeLoop` takes it apart into these commits, with the requests of clients in between, and what is rolled back when an
exception escapes is only what came after the last of them.

| file | what it holds |
|---|---|
| `RuntimeState`, `RuntimeScheduler` | the rows of runs and workers, what each operation does to them, and the class of methods that does it |
| `RuntimeColumns` | what each of them writes, column by column, and which run and worker a dispatch takes |
| `RuntimeInvariants`, `RuntimeHistory` | what every operation keeps, exactly when a caller is safe, status paths, retry budget, termination |
| `RuntimeLoop` | the worker loop as the sequence of its commits, clients in between, executions that are cut off, recovery |
| `RuntimeWitnesses` | histories from the empty tables in which the runtime goes wrong |
| `StepLog` | `report_run_step` and the step log across retries |
| `LeaseQueue` | claim, renewal and finish by any number of workers, nested runs, and cancel, pause and continue by clients, under a running clock |
| `ChangeEfforts`, `ChangeEffortApi`, `BranchNames` | the life of change efforts and promotions, branch names and validators |
| `Paging`, `EventStream` | keyset pagination under growth, the event stream and its cursor |
| `SourceTree`, `CodeSearch` | tree building with the in-place sort, search with the early exit |
| `Provenance`, `ProvenanceFields` | normalising, validating, extracting and merging provenance; the same field by field |
| `SourceScan` | the budgets of the source scan |
| `Wrappers`, `Ordering`, `Sequences`, `Text` | options, stable sorting, filters, strings |

## What was found

- Cancelling a RUNNING run sets its status and nothing else (core/api/runs.py:179): no completion time, and the worker
  stays BUSY with it (`RuntimeInvariants.CancelLeavesWorkerBusy`). The execution goes on, its completion is refused by the
  transition table and reported as a failure (core/codex_local_worker.py:117-126), and the run is requeued and started
  again (`RuntimeWitnesses.CancelledRunRunsAgain`). A report follows the transition table if and only if the run is still
  RUNNING (`RuntimeInvariants.ReportOnTableExactly`); no other operation leaves the table as long as reports come from the
  worker that has the run (`RuntimeInvariants.RowOnTableExactly`), and a report that comes late from another one does so
  exactly where `RuntimeInvariants.LateReportsOnTableExactly` says. The invariant admits cancelled runs; its stronger form, in which the worker
  of a run is BUSY exactly while the run is RUNNING, is lost by such a cancellation and by nothing else
  (`RuntimeInvariants.CancelExactly`, `RuntimeInvariants.UncancelledIsExact`).
- Registering a worker again keeps runs and workers in step if and only if the worker has no RUNNING run or registers as
  busy (`RuntimeInvariants.RegistrationSafeExactly`); `continue_blocked_run` if and only if the run is not RUNNING, which
  the transition table would allow and only the HTTP handler rules out (`RuntimeInvariants.ContinueSafeExactly`,
  core/api/runs.py:211); a late failure or block report if and only if no other worker has the run and the reporting
  worker has no other RUNNING run (`RuntimeInvariants.LateReportsSafeExactly`). The lease queue claims from the same table
  without looking at the type of a run, and its claim is safe only for the worker that already holds the run
  (`RuntimeInvariants.LeaseClaimSafeExactly`).
- One loop, with clients that submit, pause, cancel and continue whenever they like, keeps the invariant as long as every
  execution ends with a report (`RuntimeLoop.SequentialServiceIsSound`). When an exception escapes after a commit, or the
  process dies and starts again under the same name, the run stays RUNNING, the next sign-up of the same worker breaks
  the invariant (`RuntimeLoop.NextSignUpExactly`), and the worker can end up with two runs
  (`RuntimeWitnesses.EscapeCanDoubleBook`). The sweep repairs this: the first one between executions that meets no RUNNING
  run with a recent heartbeat brings the invariant back from any history (`RuntimeLoop.SweepRecoversFromAnything`), and
  no run is stranded for longer than 30 seconds and a sweep (`RuntimeLoop.NoRunIsStranded`). Two loops break the
  assignment even without escapes, because the dispatcher takes the least idle worker and not the loop's own
  (`RuntimeWitnesses.TwoLoopsCanDoubleBook`).
- With any number of loops, and whatever their sign-ups, a run stays with the execution that is under way if and only if
  nothing is reported about it, nobody cancels it or continues it past the handler, and no loop sweeps when its last
  heartbeat is older than the threshold (`RuntimeHistory.ExecutionKeepsRunExactly`). The retry budget holds in every
  history (`RuntimeHistory.RetryBudget`). Heartbeats are sent at the start and the end of a step only, so with a
  second loop a step of more than 30 seconds is enough for the run to be started twice
  (`RuntimeWitnesses.SlowStepRunsTwice`).
- The cancel handler takes any row of the table, also one that a worker of the lease queue has claimed. Leases stay
  exclusive (`LeaseQueue.NoTwoUnexpiredLeases`), but a worker that renews in time keeps its run if and only if nobody
  cancels it (`LeaseQueue.TimelyWorkerKeepsRun`); afterwards it can neither renew nor finish, however much of its lease is
  left (`LeaseQueue.CancelTakesTheRun`).
- A claimed run that is neglected can be claimed again after one lease. A nested run, which is RUNNING without a lease, never
  can: if its process dies, it stays RUNNING until somebody cancels it (`LeaseQueue.NestedRunIsNeverClaimed`).
- The finalize step is not ended when it raises (core/codex_local_worker.py:267-308), and no step is when its process
  dies. The next execution then takes the row that is open instead of adding one: the log of a run is its executions one
  after the other if and only if none of them begins while one of its steps is open (`StepLog.ExecutionAppendsExactly`),
  and otherwise a row of the first execution gets the outcome of the second (`StepLog.RetryRewritesCutOff`,
  `StepLog.FinalizeIsRewritten`).
- A pause of a RUNNING run sets a flag that nobody reads: `pause_requested` (core/runtime_execution.py:99) is never called.
- An open promotion is never closed, so a promotion that was requested without a commit can never be completed with the
  same strategy (`ChangeEfforts.CompletesExactly`). An effort can still be promoted by some sequence of requests if and
  only if some strategy has no open promotion and the effort has a branch or a free name for one
  (`ChangeEfforts.PromotableExactly`). Five ordinary requests lead from the empty tables into the state where it never
  can (`ChangeEfforts.DeadEndIsReachable`).
- With the workspace or runtime filter on, an event listing that has ended is complete if and only if nothing that passes
  the filter lies beyond the window of its last request (`Paging.EventPagesArePrefix`), that is, if and only if no page of
  the log begins where its window holds no more than one page of kept events and more of them follow
  (`Paging.EventPagesCompleteExactly`); for every page size there is a log that is cut short
  (`Paging.ListingsCanStopShort`). A stream whose poll comes back
  empty although something it should deliver is in the log never delivers anything again (`EventStream.StalledForever`).
  What a stream should deliver of the events that are there at its first poll arrives, however the log grows, if and only
  if none of it stands behind 400 unwanted events in a row (`EventStream.ArrivesExactly`); on a log that does not grow
  that is everything (`EventStream.CompleteExactly`), and there are such logs (`EventStream.StreamsCanStall`).
- Repeated provenance merging needs three merges in general (`Provenance.TwoMergesAreNotEnough`) and never more. One merge
  is enough if and only if nothing is extracted or both sides are settled: no legacy value waits for a field that the
  first merge leaves blank (`Provenance.OneMergeExactly`).
- Every row becomes a leaf of the source tree if and only if no path is blank and none equals or extends another
  (`SourceTree.EveryRowKeptExactly`).
- A scan that is cut off does not list the root in which it stopped, even if files of that root were taken
  (the last clause of `SourceScan.ReadSourceRoots`). The byte budgets hold as long as no file grows between the look at its
  size and the reading (`SourceScan.ScanBudget`); one that does is taken whole, whatever its size
  (`SourceScan.GrowthIsNotBounded`).

## Model

| member | source | states |
|---|---|---|
| `RuntimeState.ChoiceUnique` | core/runtime_execution.py:194-216 | the run and worker a dispatch has to pick are unique: least by (priority, queued_at nulls last, created_at, id) among runs that can start, then least worker id |
| `RuntimeState.QueueOrderTotal` | core/runtime_execution.py:197-202 | the queue order with NULLS LAST is a total preorder, so a first run exists |
| `Ordering.StringLeqExactly` | core/runtime_workers.py:154 | texts are ordered by their first difference, a proper prefix first |
| `RuntimeScheduler.Runtime.RegisterWorker` | core/runtime_workers.py:86-102 | sets type, status and heartbeat of one worker and keeps its active run |
| `RuntimeScheduler.Runtime.Heartbeat` | core/runtime_workers.py:105-113 | beats for a known worker and turns OFFLINE into IDLE, nothing else |
| `RuntimeScheduler.Runtime.MarkWorkerBusy` | core/runtime_workers.py:116-124 | exactly one worker becomes busy with the run |
| `RuntimeScheduler.Runtime.MarkWorkerIdle` | core/runtime_workers.py:127-138 | exactly one worker is released; a codex_local worker goes offline when Codex is missing |
| `RuntimeScheduler.Runtime.ListHealthyWorkers` | core/runtime_workers.py:141-154 | exactly the workers of the type that are not offline and beat recently, by worker id |
| `RuntimeScheduler.Runtime.SubmitRuntimeRun` | core/runtime_execution.py:103-132 | a new id becomes a queued row that was never tried; a known id changes nothing |
| `RuntimeScheduler.Runtime.TransitionRunStatus` | core/runtime_execution.py:139-163 | accepts exactly the transitions of the table and writes exactly the columns that go with them |
| `RuntimeScheduler.Runtime.DispatchQueuedRun` | core/runtime_execution.py:187-241 | starts a queued run that some idle worker of its type with a recent beat can take, on the least such worker; none that could have started instead has a smaller priority, or at the same one an earlier queued_at (nulls last), created_at or id; or nothing could start and nothing changes |
| `RuntimeScheduler.Runtime.FirstIdle` | core/runtime_execution.py:214 | the least idle worker of the healthy ones, or none when none is idle |
| `RuntimeScheduler.Runtime.StartRun` | core/runtime_execution.py:217-223 | run and worker enter the running state together, the attempt is counted |
| `RuntimeScheduler.Runtime.RecordRunHeartbeat` | core/runtime_execution.py:244-261 | only the holder extends heartbeat and lease of a run |
| `RuntimeScheduler.Runtime.CompleteRun` | core/runtime_execution.py:378-396 | accepted exactly on RUNNING; the holder is released in the same step |
| `RuntimeScheduler.Runtime.FailRun` | core/runtime_execution.py:471-503 | FAILED, or BLOCKED with an escalation, exactly where the table allows it |
| `RuntimeScheduler.Runtime.RequestPauseRun` | core/runtime_execution.py:399-430 | a queued run blocks, any other only gets the request |
| `RuntimeScheduler.Runtime.ContinueBlockedRun` | core/runtime_execution.py:433-456 | accepted exactly where the table allows QUEUED; lock, lease, times and reasons are cleared |
| `RuntimeScheduler.Runtime.HandleStaleHeartbeats` | core/runtime_execution.py:506-569 | the loop equals retrying or giving up all stale runs at once and releasing their holders; it returns exactly the stale runs |
| `RuntimeScheduler.Runtime.SweepRun` | core/runtime_execution.py:521-567 | a silent run is queued again under the same condition, otherwise blocked if it needs a review and failed if not; its holder is released |
| `RuntimeScheduler.Runtime.HandleFailure` | core/codex_local_worker.py:311-375 | if and only if max(attempt, 1) <= max_retries the run is queued again at that time, unlocked, otherwise it is failed with a completion time; summary and reason are the reported ones; the reporting worker is released |
| `RuntimeScheduler.Runtime.MarkBlocked` | core/codex_local_worker.py:378-401 | blocked with the escalation reason; the reporting worker is released |
| `RuntimeScheduler.Runtime.ExecuteCodexLocalRun` | core/codex_local_worker.py:61-126 | raises exactly when the run is not assigned to the worker; otherwise beats at every commit of a step, lets clients act in between, and ends with a report or is cut off where it stands |
| `RuntimeScheduler.Runtime.EndExecution` | core/codex_local_worker.py:86-126 | completed, failed or blocked on the row as it is by then, column by column; a completion that the table refuses is reported as a failure with the text of the refusal |
| `RuntimeScheduler.Runtime.ProcessRuntimeCycle` | core/runtime_execution.py:635-668 | beat, sweep, dispatch, and the execution of the dispatched run commit by commit |
| `RuntimeScheduler.Runtime.RuntimeLoopTurn` | core/runtime_loop.py:35-55 | one iteration: sign up, stop if offline, otherwise one cycle; cut off before the first commit it leaves the tables as they were, cut off later it leaves what was committed |
| `RuntimeScheduler.Runtime.CancelRun` | core/api/runs.py:153-183 | accepted exactly on RUNNING and CREATED; writes the status of the run and nothing else |
| `RuntimeScheduler.Runtime.ContinueRuntimeRun` | core/api/runs.py:201-215 | accepted exactly on BLOCKED, then continued |
| `RuntimeScheduler.FirstInQueueIsChoice` | core/runtime_execution.py:203-216 | the first queued run that is accepted and has an idle worker is the specified choice |
| `RuntimeColumns.ChoiceColumns` | core/runtime_execution.py:194-223 | what is chosen could start, and neither a run goes first nor a worker comes first that could have started instead |
| `RuntimeColumns.NoChoiceNobody` | core/runtime_execution.py:203-241 | if nothing is chosen no run could start on any worker |
| `RuntimeColumns.ReportExactly` | core/codex_local_worker.py:86-126 | every report, column by column: what becomes of the run, and that exactly the holder or the reporting worker is released |
| `RuntimeColumns.SweepExactly` | core/runtime_execution.py:506-569 | every silent run is retried or given up, column by column, no other run changes, and exactly the holders of silent runs are released |
| `RuntimeInvariants.StepSound` | core/runtime_execution.py:36-54 | every operation, cancellation and reports on cancelled runs included, keeps: the holder of a RUNNING run is BUSY with it, the active run of a worker is one it holds, RUNNING or cancelled, QUEUED has no lock, lease and heartbeat, completed_at exactly in COMPLETED, FAILED and BLOCKED, BLOCKED with a reason; all but those two move every row along the table |
| `RuntimeInvariants.RowOnTableExactly` | core/runtime_execution.py:46-54 | an operation takes a row off the transition table if and only if it reports on that run after the run was cancelled |
| `RuntimeInvariants.CancelSound` | core/api/runs.py:176-180 | a cancellation keeps the invariant and changes one row |
| `RuntimeInvariants.CancelExactly` | core/api/runs.py:176-180 | from tables without cancelled runs, an operation leaves them without if and only if it does not cancel a RUNNING run |
| `RuntimeInvariants.UncancelledIsExact` | core/runtime_execution.py:217-223 | without cancelled runs a run is RUNNING under a worker exactly when that worker is BUSY with it, and completed_at is set exactly in terminal states |
| `RuntimeInvariants.CancelLeavesWorkerBusy` | core/api/runs.py:179 | the cancelled run has no completion time and its worker stays BUSY with it |
| `RuntimeInvariants.ExecKeepsInvariant` | core/runtime_execution.py:187-569 | the invariant after every sequence of operations, cancellations included |
| `RuntimeInvariants.AssignmentIsExclusive` | core/runtime_execution.py:214-223 | two running runs never share a worker, and the worker of a running run is busy |
| `RuntimeInvariants.SweepSound` | core/runtime_execution.py:506-569 | the sweep, which writes status directly, keeps the invariant and the table |
| `RuntimeInvariants.DispatchSound` | core/runtime_execution.py:187-241 | dispatch keeps the invariant whatever it picks |
| `RuntimeInvariants.ReportSound` | core/codex_local_worker.py:86-126 | every end of an execution by the worker that has the run keeps the invariant, whether or not the run was cancelled in the meantime |
| `RuntimeInvariants.ReportOnTableExactly` | core/codex_local_worker.py:311-401 | such a report follows the transition table if and only if the run is still RUNNING under the worker |
| `RuntimeInvariants.FailSound` | core/runtime_execution.py:471-503 | failing or blocking keeps the invariant from any status |
| `RuntimeInvariants.RegistrationSafeExactly` | core/runtime_workers.py:86-102 | registration keeps the invariant if and only if the worker has no RUNNING run or registers as busy |
| `RuntimeInvariants.ContinueSafeExactly` | core/runtime_execution.py:433-456 | continuing keeps the invariant if and only if the run is not RUNNING |
| `RuntimeInvariants.ReleaseSafeExactly` | core/runtime_workers.py:127-138 | writing a run as not running while releasing a worker keeps the assignment if and only if no other worker has the run and the worker has no other RUNNING run |
| `RuntimeInvariants.LateReportsSafeExactly` | core/codex_local_worker.py:321-401 | the same condition for failure and block reports, which do not recheck ownership or cancellation |
| `RuntimeInvariants.LateReportsOnTableExactly` | core/codex_local_worker.py:311-401 | whoever sends it, a failure report is on the transition table if and only if the run is RUNNING or FAILED, or QUEUED or BLOCKED with retries left; a block report if and only if it is RUNNING, QUEUED or BLOCKED |
| `RuntimeInvariants.LeaseClaimSafeExactly` | core/worker.py:53-85 | a claim by the lease queue keeps the invariant of the runtime if and only if the claimer is the worker that holds the run |
| `RuntimeInvariants.CompletedIsAbsorbing` | core/runtime_execution.py:46-54 | over any history a run stays, its attempts never drop, COMPLETED is for ever |
| `RuntimeHistory.StatusHistoryIsAPath` | core/runtime_execution.py:46-54 | from any state and over any history, whatever the callers do, the statuses of a run are a path in the transition table if and only if no report comes for it that the table does not allow |
| `RuntimeHistory.OffTableIsAfterCancel` | core/codex_local_worker.py:311-401 | where only the worker that has a run reports on it, those are exactly the reports that follow a cancellation |
| `RuntimeHistory.RowCharged` | core/runtime_execution.py:187-569 | any operation from any state: attempts are counted by dispatches of queued runs, and a run is queued again by hand or while its retry budget lasts; it leaves the table if and only if it is a report the table does not allow |
| `RuntimeHistory.RetryBudget` | core/runtime_execution.py:520-549 | from creation on, in every history, with any loops, late reports and sign-ups: a run is requeued out of running at most max_retries times without a continue, is dispatched at most max_retries + 1 + manual continues times, and attempt_count is the number of dispatches |
| `RuntimeHistory.BudgetIsUsed` | core/codex_local_worker.py:321-375 | a run whose executions all fail or go silent, and that nobody pauses, continues or cancels, has a dispatch left as long as it is queued, and has been dispatched exactly max_retries + 1 times when it is given up |
| `RuntimeHistory.BudgetFromHere` | core/codex_local_worker.py:321-375 | the budget left from any reachable state bounds what can still happen |
| `RuntimeHistory.ExecutionKeepsRunExactly` | core/runtime_execution.py:244-261 | from any state and over any history a RUNNING run stays with its worker and attempt if and only if no report, no cancellation, no continue past the handler and no sweep past its heartbeat threshold meets it |
| `RuntimeHistory.NewRowIsFresh` | core/runtime_execution.py:103-122 | rows appear by submission only, queued and never tried |
| `RuntimeHistory.StepLowersRank` | core/runtime_execution.py:187-569 | without submissions and continues every change of status, cancellation included, strictly lowers the rank of the run and raises no other |
| `RuntimeHistory.ActivityIsBounded` | core/runtime_execution.py:187-569 | so the number of status changes of any such history is bounded by the total rank at its start |
| `RuntimeLoop.TurnEndsQuiet` | core/runtime_loop.py:35-55 | an iteration whose execution ends with a report, or that is cut off before its first commit, ends with nothing running and no worker busy |
| `RuntimeLoop.SequentialServiceIsSound` | core/runtime_loop.py:35-55 | one loop, taken apart into its commits, and any clients at any time: as long as executions end with reports, the invariant holds after every event, no run but the one in flight is RUNNING, and no other worker is busy |
| `RuntimeLoop.RequestKeepsCalm` | core/api/runs.py:153-215 | no request of a client, pausing and cancelling in flight included, disturbs the execution |
| `RuntimeLoop.NextSignUpExactly` | core/runtime_loop.py:38 | after an execution the next sign-up keeps the invariant if and only if the execution ended with a report, or its run was cancelled, or another worker signs up |
| `RuntimeLoop.TurnIsHistory` | core/runtime_loop.py:35-55 | an iteration, as the loop commits it, is this history: nothing if it is cut off before its first commit, the sign-up alone without Codex, otherwise sign-up, beat, sweep and dispatch, and the beats and the end of the execution |
| `RuntimeLoop.EventExactly` | core/runtime_execution.py:635-668 | what each event writes, column by column, with the 30 seconds of the sweep and the 90 seconds of health window and lease |
| `RuntimeLoop.HistoryKeepsAdrift` | core/codex_local_worker.py:61-126 | whatever is cut off and however often, rows stay in order, and what a worker has as its active run is a run it holds, RUNNING or cancelled |
| `RuntimeLoop.SweepRecoversFromAnything` | core/runtime_execution.py:506-569 | after any history, a sweep between executions that meets no RUNNING run with a recent heartbeat brings the invariant back |
| `RuntimeLoop.NoRunIsStranded` | core/runtime_execution.py:506-569 | a RUNNING run that nobody executes is ended by the first sweep between executions later than 30 seconds after its last heartbeat |
| `RuntimeWitnesses.CancelledRunRunsAgain` | core/codex_local_worker.py:117-126 | a run that is cancelled while it is executed succeeds, is requeued by the refusal and started a second time |
| `RuntimeWitnesses.EscapeCanDoubleBook` | core/runtime_loop.py:38-54 | one loop and one worker: an execution that escapes after a commit, the next sign-up and the next dispatch leave the worker with two RUNNING runs |
| `RuntimeWitnesses.TwoLoopsCanDoubleBook` | core/runtime_execution.py:208-223 | two loops and two runs reach a state in which one worker holds both, through a registration that is not safe |
| `RuntimeWitnesses.SlowStepRunsTwice` | core/codex_local_worker.py:404-444 | a valid history in which a run is swept during a long step and started a second time although no execution has ended |
| `StepLog.StepTable.ReportRunStep` | core/runtime_execution.py:264-302 | exactly the specified change of the log of one run, or the rejection and no change |
| `StepLog.StepTable.FindLatest` | core/runtime_execution.py:274-284 | the row of the key with the greatest index, the latest of those, and the greatest index of the run |
| `StepLog.ReportKeepsInvariant` | core/runtime_execution.py:264-302 | indices consecutive from the first, of the rows of a key only the latest unfinished; rows keep key and index and follow the step table |
| `StepLog.RejectedExactly` | core/runtime_execution.py:166-184 | exactly which reports are rejected |
| `StepLog.NewRowExactly` | core/runtime_execution.py:279-302 | a report that adds a row: its number, its columns, or the rejection |
| `StepLog.OldRowExactly` | core/runtime_execution.py:274-302 | any other report changes status and summary of the last row of the step, where the transition is allowed |
| `StepLog.ReportsKeepInvariant` | core/runtime_execution.py:55-62 | over any sequence of reports; finished steps never change status |
| `StepLog.SameLatest` | core/runtime_execution.py:274-284 | the row a report speaks of is the only latest of its key afterwards |
| `StepLog.StartAndEndAccepted` | core/codex_local_worker.py:404-444 | starting a step is never rejected, nor is the report that ends it |
| `StepLog.StageAppendsExactly` | core/codex_local_worker.py:404-444 | a step that is started and ended adds one row and touches no other if and only if no step of its name is open |
| `StepLog.StageRewrites` | core/runtime_execution.py:279-302 | if one is open its row is ended and no row is added |
| `StepLog.ExecutionAppendsExactly` | core/codex_local_worker.py:86-91 | the log after an execution is the log before and its rows, numbered through, if and only if none of its steps was open |
| `StepLog.ExecutionRows` | core/codex_local_worker.py:86-91 | an execution adds one row for each step but those that were open, and afterwards none of its steps is open |
| `StepLog.RetryRewritesCutOff` | core/runtime_execution.py:274-302 | after a first execution that was cut off in its last step, the retry rewrites that row and adds the others behind it |
| `StepLog.FinalizeIsRewritten` | core/codex_local_worker.py:267-308 | the finalize step raises and the run is started again: nine rows for two executions of five steps, the fifth that of the second |
| `LeaseQueue.RunTable.Candidates` | core/worker.py:53-73 | rows that are due, as many as asked for or all, and none that is left goes first by priority, expired lease, run_at, queued_at, created_at with nulls last |
| `LeaseQueue.RunTable.ClaimRun` | core/worker.py:41-101 | claims exactly such a batch and returns one of it, or nothing when nothing is due; a queued row is due from run_at on, without one from queued_at, without either from created_at; a running one after its lease |
| `LeaseQueue.RunTable.TakeRow` | core/worker.py:74-83 | status, owner and lease are set, the first start is kept |
| `LeaseQueue.RunTable.RenewLease` | core/worker.py:104-144 | extends the lease exactly when the worker owns the running row |
| `LeaseQueue.RunTable.EnqueueRun` | core/blueprints/runner.py:48-66 | a new queued row, claimable from the given time or from now on |
| `LeaseQueue.RunTable.StartNestedRun` | core/blueprints/runner.py:650-664 | a new row that is RUNNING at once, without owner and lease |
| `LeaseQueue.RunTable.FinishRun` | core/blueprints/runner.py:529-603 | finishes a RUNNING row exactly when the worker owns it and its lease has not run out, or no worker is named |
| `LeaseQueue.PrefixIsBatch` | core/worker.py:64-72 | the sorted prefix is a batch: as many as asked for or all, and nothing left out comes before what was picked |
| `LeaseQueue.BatchExactly` | core/worker.py:53-73 | the batch of the query in terms of the columns |
| `LeaseQueue.HandlersExactly` | core/api/runs.py:153-215 | what cancelling, pausing and continuing write to a row of the queue |
| `LeaseQueue.DelayedRunWaits` | core/worker.py:59-61 | a run that is queued for a time and not paused is left alone before that time, whatever the workers do, and can be picked from then on |
| `LeaseQueue.StepKeepsInvariant` | core/worker.py:52-140 | every interleaved step, those of nested runs and of cancelling, pausing and continuing clients included, keeps: who believes in an unexpired lease is in the row until then, RUNNING or cancelled; a RUNNING row has a lease exactly if it has an owner, and it lasts at most one lease |
| `LeaseQueue.FinishWithoutWorkerExactly` | core/blueprints/runner.py:550-552 | finishing without naming a worker is safe if and only if no worker is confident of the run |
| `LeaseQueue.NoTwoUnexpiredLeases` | core/worker.py:52-84 | whatever the interleaving, two workers never hold an unexpired lease on one run, and the one that does may renew and finish unless the run was cancelled |
| `LeaseQueue.FinishedIsFrozen` | core/blueprints/runner.py:543-558 | a finished or cancelled row is never touched again |
| `LeaseQueue.TimelyWorkerKeepsRun` | core/worker.py:118-140 | with claims and renewals at most a lease apart a worker keeps its run, whatever other workers do, if and only if nobody cancels it |
| `LeaseQueue.CancelTakesTheRun` | core/api/runs.py:176-180 | enqueued, claimed, cancelled: the worker has all of its lease left, and its renewal and finish change nothing |
| `LeaseQueue.HalfLeaseIsTimely` | core/worker.py:166-221 | renewing every half lease is timely while no renewal is later than the other half |
| `LeaseQueue.NeglectedRunBecomesClaimable` | core/worker.py:62-63 | a claimed run that nobody renews, finishes or cancels becomes claimable after one lease, whatever the batch size |
| `LeaseQueue.NestedRunIsNeverClaimed` | core/blueprints/runner.py:650-669 | a nested run is never claimable, and stays RUNNING if and only if neither its own process finishes it nor anybody cancels it |
| `LeaseQueue.ExpiredRunsComeFirst` | core/worker.py:64-70 | a claim never takes a queued run and leaves an expired one of the same or a better priority |
| `BranchNames.SanitizedSlugClean` | core/api/change_efforts.py:45-53 | a sanitised slug has 1 to 80 characters, all of them allowed |
| `BranchNames.CleanSlugStays` | core/api/change_efforts.py:45-53 | a slug that is clean already is left alone |
| `BranchNames.SanitizedSlugExactly` | core/api/change_efforts.py:45-53 | the slug is the words of the text, its runs of letters and digits in lower case, joined by dashes and cut off after 80 characters, or the fallback |
| `BranchNames.ValidBranchExactly` | core/api/change_efforts.py:56-66 | exactly which branch names pass, and as what |
| `BranchNames.ValidCommitShaExactly` | core/api/change_efforts.py:69-75 | exactly which commits pass, and as what |
| `BranchNames.WorkBranchIsValid` | core/api/change_efforts.py:370 | the computed work branch passes the validator unchanged and lies where no target branch may |
| `BranchNames.ValidTargetOutsideWorkBranches` | core/api/change_efforts.py:56-66 | a valid target branch is never in the effort name space |
| `ChangeEffortApi.EffortTables.CreateChangeEffort` | core/api/change_efforts.py:248-295 | the new row and the answer, or the rejection and no change; keeps the invariant and moves every row forward |
| `ChangeEffortApi.EffortTables.ResolveChangeEffortSource` | core/api/change_efforts.py:310-345 | repository fields overridden where known, base branch hinted where it was the default, status moved from created only; keeps the invariant and moves every row forward |
| `ChangeEffortApi.EffortTables.AllocateChangeEffortBranch` | core/api/change_efforts.py:349-391 | the deterministic branch, unless it is taken or contradicts the one set; keeps the invariant and moves every row forward |
| `ChangeEffortApi.EffortTables.AllocateChangeEffortWorktree` | core/api/change_efforts.py:395-442 | the worktree path, repeatable, unless it is taken or contradicts the one set; keeps the invariant and moves every row forward |
| `ChangeEffortApi.EffortTables.PromoteChangeEffort` | core/api/change_efforts.py:446-531 | answers an open promotion again or records one; the checks in the order of the source; keeps the invariant and moves every row forward |
| `ChangeEfforts.RequestSound` | core/api/change_efforts.py:248-531 | every request keeps the invariant, never lowers a status, never changes a branch or path once set, never drops a promotion |
| `ChangeEfforts.HistorySound` | core/api/change_efforts.py:248-531 | the same over every sequence of requests: branches of a workspace and worktree paths are exclusive, a work branch is the computed one, branch_allocated and later have one |
| `ChangeEfforts.CreateExactly` | core/api/change_efforts.py:248-295 | exactly when a creation is accepted or how it is refused, and the columns of the new row |
| `ChangeEfforts.ResolveExactly` | core/api/change_efforts.py:310-345 | exactly when a source is taken over or how it is refused, and which columns it replaces |
| `ChangeEfforts.AllocateBranchExactly` | core/api/change_efforts.py:349-391 | whoever names another owner than the row's is refused and changes nothing; otherwise accepted exactly with valid branches and the one name free; what is written |
| `ChangeEfforts.AllocateWorktreeExactly` | core/api/change_efforts.py:395-442 | the same for a worktree: owner, work branch and root, the path that is set, the path of others |
| `ChangeEfforts.PromoteExactly` | core/api/change_efforts.py:446-531 | exactly what a promotion with a strategy that exists answers and records |
| `ChangeEfforts.PromoteUnnamed` | core/api/change_efforts.py:463-474 | a strategy that does not exist is refused, after the checks of the effort |
| `ChangeEfforts.PromotedExactly` | core/api/change_efforts.py:455-527 | promoted_to_develop if and only if there is a completed promotion; promotion_requested if and only if there is an open one and no completed one |
| `ChangeEfforts.PromotionsUnique` | core/api/change_efforts.py:480-526 | at most one open promotion for each effort and strategy, at most one completed one, which is the last and carries a valid commit |
| `ChangeEfforts.OnlyPromoteAdds` | core/api/change_efforts.py:480-525 | a promotion is added only by a promote request that passes the checks and repeats nothing |
| `ChangeEfforts.NothingAddedAfterCompletion` | core/api/change_efforts.py:460-461 | no request adds a promotion to a promoted effort |
| `ChangeEfforts.PromotedIsFinal` | core/api/change_efforts.py:460-461 | after completion the status stays and nothing is added, whatever is requested |
| `ChangeEfforts.PromoteIsIdempotent` | core/api/change_efforts.py:480-493 | asking again without a commit answers the same and changes nothing |
| `ChangeEfforts.CompletesExactly` | core/api/change_efforts.py:480-526 | a request with a commit completes if and only if the commit is valid and no promotion of that strategy is open |
| `ChangeEfforts.AllPendingIsADeadEnd` | core/api/change_efforts.py:480-493 | one open promotion of each strategy keeps an effort from ever being promoted |
| `ChangeEfforts.NoBranchIsADeadEnd` | core/api/change_efforts.py:370-380 | so does the want of a branch while the name for one is taken |
| `ChangeEfforts.PromotableExactly` | core/api/change_efforts.py:349-531 | an effort can still be promoted by some sequence of requests if and only if some strategy has no open promotion and the effort has a branch or a free name for one |
| `ChangeEfforts.DeadEndIsReachable` | core/api/change_efforts.py:248-531 | five requests from the empty tables lead into the state where an effort can never be promoted |
| `Paging.CursorContinues` | core/api/artifacts.py:167-181 | after the p-th row of a listing the query continues with exactly the rest of it, even after newer rows arrived |
| `Paging.OrderedExactly` | core/api/artifacts.py:167-181 | the listing holds the selected rows, the latest first and of one time the greatest id first |
| `Paging.RemainingExactly` | core/api/events.py:55-65 | after a cursor come exactly the rows older than it; an unknown cursor is ignored |
| `Paging.ArtifactPageExactly` | core/api/artifacts.py:181-202 | offset, limit and cursor of a page of artifacts |
| `Paging.EventPageExactly` | core/api/events.py:65-75 | window, filter, limit and cursor of a page of events |
| `Paging.EventPagesArePrefix` | core/api/events.py:48-75 | the pages are a prefix of the filtered log as it stood at the first request; a finished walk is complete if and only if nothing kept lies beyond its last window |
| `Paging.EventPagesCompleteExactly` | core/api/events.py:48-75 | a finished walk is complete if and only if no page of the log, as it stood at the first request, has at most one page of kept events in its window and more of them beyond |
| `Paging.ListingsCanStopShort` | core/api/events.py:65-75 | for every page size a log on which the listing ends at its first page with nothing and misses a wanted event |
| `Paging.EventPagesComplete` | core/api/events.py:48-75 | with the filters off a finished walk is the whole listing in max(1, ceil(n / limit)) requests |
| `Paging.ArtifactWalkComplete` | core/api/artifacts.py:153-202 | following next_cursor gives exactly the selected artifacts, newest first, none missed or repeated, in max(1, ceil(n / limit)) requests |
| `Paging.ChainPosition` | core/api/events.py:65-75 | up to its last cursor a walk has returned everything that is kept and nothing else |
| `Paging.PageFromPosition` | core/api/events.py:65-75 | one page from any position: what it returns, where its cursor stands, when it has none |
| `EventStream.Iterator.Poll` | core/api/events.py:178-195 | a poll delivers the result of the query and leaves the cursor on the last event delivered |
| `EventStream.Iterator.Run` | core/api/events.py:173-198 | repeated polls give the specified cursor and deliveries |
| `EventStream.PollMoves` | core/api/events.py:78-113 | a poll delivers exactly what is kept between two positions of the log |
| `EventStream.LogExactly` | core/api/events.py:78-113 | the log holds the selected events, the oldest first and of one time the smallest id first |
| `EventStream.CandidatesExactly` | core/api/events.py:92-107 | after an event come exactly those newer than it |
| `EventStream.PollExactly` | core/api/events.py:107-113 | a poll looks at 400 candidates and delivers up to 100 that pass the filter |
| `EventStream.StreamIsPrefix` | core/api/events.py:173-196 | on a log that grows at its end the deliveries are a prefix of the filtered log after the start: each event once and in order |
| `EventStream.UnfilteredPollsAdvance` | core/api/events.py:107-113 | with the filters off each poll extends what was delivered by min(100, remaining) |
| `EventStream.EverythingArrives` | core/api/events.py:173-196 | after m polls the first 100 m events that were there have all arrived |
| `EventStream.EmptyPollExactly` | core/api/events.py:108-113 | a poll is empty if and only if none of the first 400 candidates is kept |
| `EventStream.StalledForever` | core/api/events.py:178-193 | an empty poll with something left to deliver means that nothing is ever delivered again |
| `EventStream.ArrivesExactly` | core/api/events.py:173-198 | while the log grows, what was to be delivered at the first poll has arrived after as many polls if and only if none of it stands behind 400 unwanted events in a row; otherwise it never arrives |
| `EventStream.CompleteExactly` | core/api/events.py:78-113 | on a log that does not grow everything is delivered after enough polls if and only if no event to deliver stands behind 400 unwanted ones in a row |
| `EventStream.StreamsCanStall` | core/api/events.py:108-113 | a log of 401 events on which a stream stalls at its first poll |
| `SourceTree.TreeBuilder.AddRow` | core/artifact_code_review.py:147-177 | after each row the table agrees with the rows: the first row that mentions a path decides whether it is a file or a directory, and directories list exactly the nodes below them |
| `SourceTree.TreeBuilder.SortTree` | core/artifact_code_review.py:181-188 | the recursion sorts the children of every directory reached from the node and changes nothing else |
| `SourceTree.TreeBuilder.BuildHierarchicalTree` | core/artifact_code_review.py:144-178 | the result is the sorted table of all the rows |
| `SourceTree.TreeLeaves` | core/artifact_code_review.py:144-178 | for any rows the leaves are exactly the rows that are kept, each once |
| `SourceTree.EveryRowKeptExactly` | core/artifact_code_review.py:155-158 | every row is kept if and only if no path is blank, equals or extends another |
| `SourceTree.KeptExactly` | core/artifact_code_review.py:147-177 | a row becomes a leaf if and only if its path is not blank, no earlier row mentions it, and each of its prefixes is mentioned by a longer path before any row has it as its own |
| `SourceTree.KindExactly` | core/artifact_code_review.py:155-170 | a path is a directory or a file by the first row that mentions it |
| `SourceTree.PartsExactly` | core/artifact_code_review.py:149-155 | the trimmed path is leading slashes and the parts between the others |
| `SourceTree.PrefixFreeTree` | core/artifact_code_review.py:144-178 | for prefix-free paths flattening the leaves gives back exactly the rows, once each |
| `SourceTree.ChildrenSorted` | core/artifact_code_review.py:181-188 | every child list of the tree is complete, without repetition, directories first and then by lower-cased name |
| `SourceTree.SortsBeforeExactly` | core/artifact_code_review.py:181-188 | directories before files, then by the lower-cased last part |
| `SourceTree.DirsNotEmpty` | core/artifact_code_review.py:169-176 | no directory below the root is empty |
| `SourceTree.LeavesExactly` | core/artifact_code_review.py:171-176 | the leaves below a node are the files reached from it through directories |
| `SourceTree.NodePathsDiffer` | core/artifact_code_review.py:151-158 | joined node paths tell apart what the lists of parts tell apart, and are never the root's |
| `SourceTree.NodeKeysDiffer` | core/artifact_code_review.py:144-178 | no two nodes of a built tree share the key under which the source files them |
| `CodeSearch.SearchFiles` | core/artifact_code_review.py:317-386 | the nested loops with early exit report the first `limit` of all matches grouped by file; total_hits is their number, truncated holds if and only if there are at least `limit`; a blank query is an error |
| `CodeSearch.SearchLines` | core/artifact_code_review.py:355-366 | the inner loop: a prefix of the hits of the file, the whole of them unless the limit is reached |
| `CodeSearch.MatchesExactly` | core/artifact_code_review.py:342-364 | a match is a matching line of an eligible, decodable file with its number and snippet, and there are no others |
| `CodeSearch.FoundExactly` | core/artifact_code_review.py:342-364 | what is found: the eligible, decodable lines in which the expression or the token occurs, with or without the case of letters, counted from 1 |
| `CodeSearch.SnippetExactly` | core/artifact_code_review.py:360-362 | the trimmed line, cut off after 240 characters |
| `CodeSearch.LimitExactly` | core/artifact_code_review.py:330 | 200 by default, at least 1 and at most 2000 |
| `CodeSearch.MatchesOrdered` | core/artifact_code_review.py:342-364 | the matches are ordered by path and then by line, each once |
| `CodeSearch.ResolvedLimit` | core/artifact_code_review.py:330 | the limit that is used lies between 1 and 2000 |
| `Provenance.NormalizeProvenancePayload` | core/artifact_provenance.py:69-125 | exactly the clean form of both sides, with the kind inferred from repository fields |
| `Provenance.ValidateProvenancePayload` | core/artifact_provenance.py:43-66 | reports exactly the checked fields that are filled in and unusable |
| `Provenance.FillLegacy` | core/artifact_provenance.py:147-163 | the loop over the legacy keys fills what is still blank |
| `Provenance.FillField` | core/artifact_provenance.py:147-163 | a blank field gets the first legacy value there is, others stay |
| `Provenance.ExtractProvenanceMetadata` | core/artifact_provenance.py:128-165 | explicit block, overridden by the top level, completed by legacy keys, normalised |
| `Provenance.MergeProvenanceMetadata` | core/artifact_provenance.py:168-184 | extracted provenance overridden by the incoming block, stored in three places, or the metadata unchanged |
| `Provenance.NormalizeIdempotent` | core/artifact_provenance.py:69-125 | normalising twice is normalising once |
| `Provenance.NormalizedIsValid` | core/artifact_provenance.py:43-66 | a normalised payload has no validation error |
| `Provenance.FaultyExactly` | core/artifact_provenance.py:53-64 | a field other than the kind is faulted if and only if it is filled in and normalisation drops it |
| `Provenance.IncomingWins` | core/artifact_provenance.py:171-183 | a usable incoming field replaces what the metadata said, in the payload and at the top level |
| `Provenance.MergeTouchesOnlyProvenance` | core/artifact_provenance.py:179-184 | all other keys of the metadata stay |
| `Provenance.MergeConverges` | core/artifact_provenance.py:168-184 | for all metadata a fourth merge with no incoming block changes nothing |
| `Provenance.TwoMergesAreNotEnough` | core/artifact_provenance.py:128-184 | metadata for which the third merge still changes something |
| `Provenance.OneMergeExactly` | core/artifact_provenance.py:128-184 | one merge reaches the fixed point if and only if nothing is extracted or both sides are settled |
| `Provenance.SideSettlesExactly` | core/artifact_provenance.py:138-163 | a side is extracted the same from merged metadata if and only if no legacy value waits for a field that is left blank |
| `Provenance.NothingExtractedExactly` | core/artifact_provenance.py:128-165 | nothing is extracted if and only if no field of either side is kept |
| `Provenance.OneMergeIsEnough` | core/artifact_provenance.py:138-163 | in particular, without legacy values one merge reaches the fixed point |
| `ProvenanceFields.ExtractedExactly` | core/artifact_provenance.py:128-165 | for every field by name: the value of the blocks, the top-level one before the explicit one, otherwise the first old key for it that is filled in, in its usable form; and when the kind is git |
| `ProvenanceFields.MergedExactly` | core/artifact_provenance.py:168-184 | for every field by name: the usable incoming value, otherwise what is extracted, in the stored payload and in the top-level block |
| `ProvenanceFields.MergedKindExactly` | core/artifact_provenance.py:168-184 | after a merge the source is git if the kind or a repository field of either side says so |
| `ProvenanceFields.NormalizedExactly` | core/artifact_provenance.py:69-125 | for every field by name what normalisation keeps |
| `ProvenanceFields.FaultsExactly` | core/artifact_provenance.py:43-66 | for every problem by name when it is reported |
| `SourceScan.ReadSourceRoots` | core/artifact_source_resolution.py:483-537 | the nested loops with early return take exactly what the budget allows, under the names the source gives, with the warning and the selected roots |
| `SourceScan.ScanIsPrefix` | core/artifact_source_resolution.py:495-533 | what is taken is a prefix of the eligible files, all of them unless the scan was cut off |
| `SourceScan.EligibleExactly` | core/artifact_source_resolution.py:502-529 | exactly which entries are taken while the budget lasts |
| `SourceScan.SeenExactly` | core/artifact_source_resolution.py:490-495 | every entry of the roots that are directories, root by root |
| `SourceScan.StopExactly` | core/artifact_source_resolution.py:496-501 | a scan that is cut off has taken the eligible entries before some entry and stops under its root |
| `SourceScan.StoredNameExactly` | core/artifact_source_resolution.py:530 | the relative path until two other roots have contributed, then with the name of the root |
| `SourceScan.ClosedExactly` | core/artifact_source_resolution.py:534-537 | the listed roots are those that have contributed but the one in which the scan stopped, in their order |
| `SourceScan.ScanWithinBudget` | core/artifact_source_resolution.py:496-501 | every file was taken within both budgets, and a scan is cut off only when one is used up |
| `SourceScan.FilesWithinTaken` | core/artifact_source_resolution.py:530-533 | overwriting a name never adds files or bytes |
| `SourceScan.ScanBudget` | core/artifact_source_resolution.py:483-537 | at most MAX_FILES files; if no file grows while it is read, each has at most MAX_FILE_BYTES and all together at most MAX_TOTAL_BYTES + MAX_FILE_BYTES - 1; if none is emptied, none is empty |
| `SourceScan.GrowthIsNotBounded` | core/artifact_source_resolution.py:496-531 | whatever the limits, a file that grows after the look at its size is taken whole |
| `Text.SplitJoin` | core/artifact_code_review.py:151-155 | splitting what was joined from parts without the separator gives the parts back |
| `Text.StripExactly` | core/artifact_provenance.py:23-24 | what is stripped is white space at the two ends, and none is left there |

## Left out

- RuntimeInvariants.StepSound: assumes what `Enabled` states of the callers (safe registration, no continue on RUNNING, reports by the worker that has the run, non-empty escalations), since without it the invariant is false; the exact conditions are the `...Exactly` lemmas. It does not cover claims by the lease queue on the same table, which break it (`LeaseClaimSafeExactly`).
- RuntimeLoop.SequentialServiceIsSound: covers one loop whose executions end with reports; without that it is false (`NextSignUpExactly`, `TwoLoopsCanDoubleBook`).
- ChangeEffortApi.EffortTables.AllocateChangeEffortWorktree: takes the resolved path as an input; how it is computed from the root, the workspace and the id is not stated.
- LeaseQueue.StepKeepsInvariant: covers runs of the queue, which have no worker type; that the queue also claims runs of the runtime is covered by `RuntimeInvariants.LeaseClaimSafeExactly`.
- SourceScan.ScanBudget: its byte clauses assume that no file grows, or is emptied, between `stat` and `read`; without that they are false (`GrowthIsNotBounded`).
- Paging.ArtifactWalkComplete: offset 0 and no deletions; newer rows may arrive between requests.
- EventStream.StreamIsPrefix: the log grows in (occurred_at, id) order; an event that is logged late with an earlier time is skipped by a cursor that has passed it.
- Sessions, SQL text and migrations: what is committed together is one atomic step, `SKIP LOCKED` is an atomic claim. A request that reads a row before and writes it after another session's commit is not modelled.
- A database that fails in the first commit of an execution, after which the failure is reported on the rolled back tables, is not modelled.
- Clock readings, Codex availability (one answer a call), repository and validation results, and the outcome of an execution (including the repository checks that raise a block) are parameters.
- The step log is modelled apart from the run rows; an execution there contributes the heartbeats its steps send.
- `core/executor.py` and `core/blueprints/runner.py` write the status of runs of their own, which begin as CREATED or without a worker type; they are not runs of the runtime.
- Runtime events, artifacts and the return value of `driver.start_run` are not modelled; nothing reads them back into the scheduler.
- Malformed run payloads, rows without a worker type that a client could submit, and empty worker ids are not modelled; a priority is always the default at submission.
- `retry_runtime_run` is a new submission under a fresh id.
- Access rights, `updated_at`, approval metadata and preflight notes of change efforts, and the release endpoints are not modelled; the existence of workspaces, the provenance source of the artifact and resolved worktree paths are inputs of a request.
- Creating worktree directories on disk.
- Ids are natural numbers where only their order matters, and 32 hexadecimal digits where a name is computed from them; a clash of fresh ids is a conflict.
- Upper case means the ASCII letters; strings are ordered by code point.
- JSON numbers, booleans and lists in provenance count by their truth value and an arbitrary rendering; keys are the known names and all others.
- Regular expressions, globs, languages, decoding and line splitting in the search are parameters; an expression that does not compile raises before the search begins.
- `read_file_chunk`, path candidates for reading, the source index, hashes and line counts: simple computations on one value.
- `_split_roots`, candidate roots and provenance roots of the source resolution: string plumbing.
- `core/app_jobs.py`, code metrics, manifests and the location graph: a simpler copy of the scheduler, heuristics and constant data.
