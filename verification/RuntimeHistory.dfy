/** Whole histories of a run: its status path, its retry budget, and why the scheduler comes to rest. */
module RuntimeHistory {
  import opened Wrappers
  import opened RuntimeColumns
  import opened RuntimeState
  import opened RuntimeInvariants

  // ---- any operation, from any state ---------------------------------------

  predicate ContinuesRun(op: Op, id: RunId) {
    op.Continue? && op.id == id
  }

  /** Which reports it allows; a success that comes for a run that is not RUNNING is a failure. */
  predicate ReportFits(run: Run, outcome: Outcome) {
    match outcome
    case Succeeded(_) => run.status == Running || FailureFits(run)
    case FailedWith(_, _) => FailureFits(run)
    case BlockedWith(_, _) => run.status in {Running, Queued, Blocked}
  }

  predicate ReportsOffTable(s: State, op: Op, id: RunId) {
    op.Report? && op.id == id && id in s.runs && !ReportFits(s.runs[id], op.outcome)
  }

  /** What any operation may do to a row, whoever calls it and in whatever state: attempts are counted by dispatches, which
      take queued runs; a run is queued again by hand, or while its retry budget lasts. */
  predicate Charged(was: Run, now: Run, continued: bool) {
    && now.maxRetries == was.maxRetries
    && now.attempt == was.attempt + (if was.status == Queued && now.status == Running then 1 else 0)
    && (now.status == Running ==> was.status == Running || (was.status == Queued && !continued))
    && (now.status == Created ==> was.status == Created)
    && (now.status == Cancelled ==> was.status in {Cancelled, Running, Created})
    && (now.status == Queued && was.status != Queued ==>
          if continued then was.status in {Running, Failed, Blocked} else MayRetry(was))
  }

  lemma SessionsCharged(s: State, op: Op, id: RunId)
    requires id in s.runs && (op.Submit? || op.Register? || op.WorkerHeartbeat? || op.RunHeartbeat?)
    ensures id in Step(s, op).runs && Charged(s.runs[id], Step(s, op).runs[id], false)
    ensures OnTable(s.runs[id], Step(s, op).runs[id])
  {
    hide Beaten;
  }

  lemma PausedRowCharged(s: State, id: RunId, wall: int)
    ensures var t := AfterPause(s, id, wall);
            if id !in s.runs then t == s
            else && id in t.runs && t == s.(runs := s.runs[id := t.runs[id]])
                 && Charged(s.runs[id], t.runs[id], false) && OnTable(s.runs[id], t.runs[id])
  {
  }

  lemma PauseCharged(s: State, op: Op, id: RunId)
    requires id in s.runs && op.Pause?
    ensures id in Step(s, op).runs && Charged(s.runs[id], Step(s, op).runs[id], false)
    ensures OnTable(s.runs[id], Step(s, op).runs[id])
  {
    hide AfterPause;
    PausedRowCharged(s, op.id, op.wall);
  }

  lemma ContinueCharged(s: State, op: Op, id: RunId)
    requires id in s.runs && op.Continue?
    ensures id in Step(s, op).runs && Charged(s.runs[id], Step(s, op).runs[id], ContinuesRun(op, id))
    ensures OnTable(s.runs[id], Step(s, op).runs[id])
  {
  }

  lemma CancelCharged(s: State, op: Op, id: RunId)
    requires id in s.runs && op.Cancel?
    ensures id in Step(s, op).runs && Charged(s.runs[id], Step(s, op).runs[id], false)
    ensures OnTable(s.runs[id], Step(s, op).runs[id])
  {
  }

  lemma SchedulerCharged(s: State, op: Op, id: RunId)
    requires id in s.runs && (op.Dispatch? || op.Sweep?)
    ensures id in Step(s, op).runs && Charged(s.runs[id], Step(s, op).runs[id], false)
    ensures OnTable(s.runs[id], Step(s, op).runs[id])
  {
    if op.Dispatch? {
      DispatchChoiceIsSound(s, op.current, op.timeout, op.available);
    }
  }

  lemma OutcomesCharged(s: State, op: Op, id: RunId)
    requires id in s.runs && (op.Complete? || op.Fail?)
    ensures id in Step(s, op).runs && Charged(s.runs[id], Step(s, op).runs[id], false)
    ensures OnTable(s.runs[id], Step(s, op).runs[id])
  {
  }

  lemma FailureCharged(run: Run, summary: string, reason: string, wall: int)
    ensures var now := FailureReported(run, summary, reason, wall);
            && Charged(run, now, false) && (OnTable(run, now) <==> FailureFits(run)) && now.status in {Queued, Failed}
  {
  }

  /** What a report makes of the row it is about. */
  lemma ReportedRowCharged(s: State, id: RunId, w: WorkerId, outcome: Outcome, available: bool, wall: int)
    requires id in s.runs
    ensures var t := AfterReport(s, id, w, outcome, available, wall);
            && id in t.runs && t.runs == s.runs[id := t.runs[id]] && Charged(s.runs[id], t.runs[id], false)
            && (OnTable(s.runs[id], t.runs[id]) <==> ReportFits(s.runs[id], outcome)) && t.runs[id].status != Running
  {
    hide RefusedText, Freed, FreedHolder, FailureReported, FailureFits;
    forall summary, reason {
      FailureCharged(s.runs[id], summary, reason, wall);
    }
  }

  lemma ReportCharged(s: State, op: Op, id: RunId)
    requires id in s.runs && op.Report?
    ensures id in Step(s, op).runs && Charged(s.runs[id], Step(s, op).runs[id], false)
    ensures OnTable(s.runs[id], Step(s, op).runs[id]) <==> !ReportsOffTable(s, op, id)
  {
    hide AfterReport, ReportFits;
    if op.id in s.runs {
      ReportedRowCharged(s, op.id, op.w, op.outcome, op.available, op.wall);
    } else {
      NothingReported(s, op);
    }
  }

  lemma NothingReported(s: State, op: Op)
    requires op.Report? && op.id !in s.runs
    ensures Step(s, op) == s
  {
  }

  lemma RowCharged(s: State, op: Op, id: RunId)
    requires id in s.runs
    ensures id in Step(s, op).runs && Charged(s.runs[id], Step(s, op).runs[id], ContinuesRun(op, id))
    ensures OnTable(s.runs[id], Step(s, op).runs[id]) <==> !ReportsOffTable(s, op, id)
  {
    hide Step, Charged, OnTable;
    if op.Dispatch? || op.Sweep? {
      SchedulerCharged(s, op, id);
    } else if op.Complete? || op.Fail? {
      OutcomesCharged(s, op, id);
    } else if op.Report? {
      ReportCharged(s, op, id);
    } else if op.Pause? {
      PauseCharged(s, op, id);
    } else if op.Continue? {
      ContinueCharged(s, op, id);
    } else if op.Cancel? {
      CancelCharged(s, op, id);
    } else {
      SessionsCharged(s, op, id);
    }
  }

  // ---- the status path -----------------------------------------------------

  ghost function Statuses(s: State, ops: seq<Op>, id: RunId): seq<RunStatus>
    requires id in s.runs
    decreases |ops|
  {
    [s.runs[id].status] +
    if ops == [] then []
    else
      RowCharged(s, ops[0], id);
      Statuses(Step(s, ops[0]), ops[1..], id)
  }

  ghost predicate IsPath(path: seq<RunStatus>) {
    forall k :: 0 <= k < |path| - 1 ==> path[k] == path[k + 1] || MayFollow(path[k], path[k + 1])
  }

  /** Some report comes that the table does not allow. */
  ghost predicate ReportedOffTable(s: State, ops: seq<Op>, id: RunId)
    decreases |ops|
  {
    ops != [] && (ReportsOffTable(s, ops[0], id) || ReportedOffTable(Step(s, ops[0]), ops[1..], id))
  }

  /** Over any history, whatever the callers do, the statuses of a run are a path in the transition table if and only if no
      report comes for it that the table does not allow. */
  lemma {:induction false} StatusHistoryIsAPath(s: State, ops: seq<Op>, id: RunId)
    requires id in s.runs
    ensures |Statuses(s, ops, id)| == |ops| + 1 && Statuses(s, ops, id)[0] == s.runs[id].status
    ensures IsPath(Statuses(s, ops, id)) <==> !ReportedOffTable(s, ops, id)
    decreases |ops|
  {
    if ops != [] {
      hide Step, ReportsOffTable, Charged;
      RowCharged(s, ops[0], id);
      StatusHistoryIsAPath(Step(s, ops[0]), ops[1..], id);
      PathFrom(s.runs[id].status, Statuses(Step(s, ops[0]), ops[1..], id));
    }
  }

  /** Some execution ends after its run was cancelled. */
  ghost predicate ReportedAfterCancel(s: State, ops: seq<Op>, id: RunId)
    decreases |ops|
  {
    ops != [] && (ReportsOverCancel(s, ops[0], id) || ReportedAfterCancel(Step(s, ops[0]), ops[1..], id))
  }

  /** Where only the worker that has a run reports on it, such reports are exactly those that follow a cancellation. */
  lemma {:induction false} OffTableIsAfterCancel(s: State, ops: seq<Op>, id: RunId)
    requires id in s.runs && Invariant(s) && Valid(s, ops)
    ensures ReportedOffTable(s, ops, id) <==> ReportedAfterCancel(s, ops, id)
    decreases |ops|
  {
    if ops != [] {
      hide Step, Invariant, ReportsOverCancel, ReportsOffTable, Charged, OnTable;
      StepSound(s, ops[0]);
      RowCharged(s, ops[0], id);
      RowOnTableExactly(s, ops[0], id);
      OffTableIsAfterCancel(Step(s, ops[0]), ops[1..], id);
    }
  }

  lemma PathFrom(first: RunStatus, rest: seq<RunStatus>)
    requires rest != []
    ensures IsPath([first] + rest) <==> (first == rest[0] || MayFollow(first, rest[0])) && IsPath(rest)
  {
    var path := [first] + rest;
    if IsPath(path) {
      assert path[0] == path[1] || MayFollow(path[0], path[1]);
      forall k | 0 <= k < |rest| - 1 ensures rest[k] == rest[k + 1] || MayFollow(rest[k], rest[k + 1]) {
        assert path[k + 1] == rest[k] && path[k + 2] == rest[k + 1];
      }
    }
  }

  // ---- the retry budget ----------------------------------------------------

  /** How often the status of a run goes from one value to another during a history, by hand or otherwise. */
  ghost function Changes(s: State, ops: seq<Op>, id: RunId, from: RunStatus, to: RunStatus, byHand: bool): nat
    decreases |ops|
  {
    if ops == [] then 0
    else
      var t := Step(s, ops[0]);
      var counts := id in s.runs && id in t.runs && s.runs[id].status == from && t.runs[id].status == to
                    && ContinuesRun(ops[0], id) == byHand;
      (if counts then 1 else 0) + Changes(t, ops[1..], id, from, to, byHand)
  }

  ghost function Dispatches(s: State, ops: seq<Op>, id: RunId): nat { Changes(s, ops, id, Queued, Running, false) }

  /** By a failure or the sweep, also when the run was cancelled in the meantime. */
  ghost function AutomaticRequeues(s: State, ops: seq<Op>, id: RunId): nat {
    Changes(s, ops, id, Running, Queued, false) + Changes(s, ops, id, Cancelled, Queued, false)
  }

  ghost function ManualContinues(s: State, ops: seq<Op>, id: RunId): nat {
    Changes(s, ops, id, Blocked, Queued, true) + Changes(s, ops, id, Failed, Queued, true)
    + Changes(s, ops, id, Running, Queued, true)
  }

  function AtLeast(low: int, x: int): int { if x < low then low else x }

  function RequeuesLeft(run: Run): int {
    AtLeast(0, run.maxRetries - run.attempt + if run.status in {Running, Cancelled} then 1 else 0)
  }

  function DispatchesLeft(run: Run): int {
    match run.status
    case Queued => AtLeast(1, run.maxRetries + 1 - run.attempt)
    case Running => AtLeast(0, run.maxRetries + 1 - run.attempt)
    case Cancelled => AtLeast(0, run.maxRetries + 1 - run.attempt)
    case _ => AtLeast(0, run.maxRetries - run.attempt)
  }

  lemma RowStepSpendsBudget(was: Run, now: Run)
    requires RowInvariant(was) && RowInvariant(now) && RowChange(was, now)
    ensures RequeuesLeft(now) + (if was.status in {Running, Cancelled} && now.status == Queued then 1 else 0)
         <= RequeuesLeft(was)
    ensures DispatchesLeft(now) + (if was.status == Queued && now.status == Running then 1 else 0)
         <= DispatchesLeft(was) + (if was.status in {Blocked, Failed} && now.status == Queued then 1 else 0)
  {
  }

  lemma RowsGood(s: State, t: State, id: RunId)
    requires Invariant(s) && Invariant(t) && id in s.runs && id in t.runs
    ensures RowInvariant(s.runs[id]) && RowInvariant(t.runs[id])
  {
  }

  lemma {:induction false} BudgetFromHere(s: State, ops: seq<Op>, id: RunId)
    requires id in s.runs && Invariant(s) && Valid(s, ops)
    ensures AutomaticRequeues(s, ops, id) <= RequeuesLeft(s.runs[id])
    ensures Dispatches(s, ops, id) <= DispatchesLeft(s.runs[id]) + ManualContinues(s, ops, id)
    ensures id in Exec(s, ops).runs
    ensures Exec(s, ops).runs[id].attempt == s.runs[id].attempt + Dispatches(s, ops, id)
    ensures Exec(s, ops).runs[id].maxRetries == s.runs[id].maxRetries
    decreases |ops|
  {
    if ops != [] {
      hide Step, Invariant, RequeuesLeft, DispatchesLeft, RowInvariant, RowChange, Enabled;
      StepSound(s, ops[0]);
      var t := Step(s, ops[0]);
      RowsGood(s, t, id);
      RowStepSpendsBudget(s.runs[id], t.runs[id]);
      RevivedByHand(s, ops[0], id);
      RowCharged(s, ops[0], id);
      BudgetFromHere(t, ops[1..], id);
    }
  }

  /** Rows appear by submission only, queued and never tried. */
  lemma NewRowIsFresh(s: State, op: Op, id: RunId)
    requires id !in s.runs && id in Step(s, op).runs
    ensures op.Submit? && Step(s, op).runs[id].status == Queued && Step(s, op).runs[id].attempt == 0
  {
    if op.Dispatch? {
      DispatchChoiceIsSound(s, op.current, op.timeout, op.available);
    }
  }

  /** The retries that are left, whoever reports. */
  function RetriesLeft(run: Run): int {
    AtLeast(0, run.maxRetries - run.attempt + if run.status in {Running, Cancelled, Created} then 1 else 0)
  }

  function StartsLeft(run: Run): int {
    AtLeast(if run.status == Queued then 1 else 0, run.maxRetries + 1 - run.attempt)
  }

  lemma ChargedSpends(was: Run, now: Run, continued: bool)
    requires Charged(was, now, continued)
    ensures RetriesLeft(now) + (if was.status in {Running, Cancelled} && now.status == Queued && !continued then 1 else 0)
         <= RetriesLeft(was)
    ensures StartsLeft(now) + (if was.status == Queued && now.status == Running then 1 else 0)
         <= StartsLeft(was) + (if continued && was.status in {Running, Failed, Blocked} && now.status == Queued then 1 else 0)
  {
  }

  lemma {:induction false} SpentFromHere(s: State, ops: seq<Op>, id: RunId)
    requires id in s.runs
    ensures AutomaticRequeues(s, ops, id) <= RetriesLeft(s.runs[id])
    ensures Dispatches(s, ops, id) <= StartsLeft(s.runs[id]) + ManualContinues(s, ops, id)
    ensures id in Exec(s, ops).runs
    ensures Exec(s, ops).runs[id].attempt == s.runs[id].attempt + Dispatches(s, ops, id)
    ensures Exec(s, ops).runs[id].maxRetries == s.runs[id].maxRetries
    decreases |ops|
  {
    if ops != [] {
      hide Step, RetriesLeft, StartsLeft;
      var t := Step(s, ops[0]);
      RowCharged(s, ops[0], id);
      ChargedSpends(s.runs[id], t.runs[id], ContinuesRun(ops[0], id));
      SpentFromHere(t, ops[1..], id);
    }
  }

  /** Over its whole life a run is requeued automatically at most `max_retries` times while it runs, by failure or by the
      sweep, and is dispatched at most `max_retries + 1` times more than it was continued by hand: in every history,
      with any number of loops, late reports and unsafe sign-ups. */
  lemma {:induction false} RetryBudget(s: State, ops: seq<Op>, id: RunId)
    requires id !in s.runs && id in Exec(s, ops).runs
    ensures var run := Exec(s, ops).runs[id];
            && AutomaticRequeues(s, ops, id) <= run.maxRetries
            && Dispatches(s, ops, id) <= run.maxRetries + 1 + ManualContinues(s, ops, id)
            && run.attempt == Dispatches(s, ops, id)
    decreases |ops|
  {
    hide Step;
    var t := Step(s, ops[0]);
    if id in t.runs {
      NewRowIsFresh(s, ops[0], id);
      SpentFromHere(t, ops[1..], id);
    } else {
      RetryBudget(t, ops[1..], id);
    }
  }

  // ---- the budget is used --------------------------------------------------

  /** Nobody pauses, continues or cancels the run, and every execution of it ends with the report of a failure, or goes
      silent and is swept. */
  predicate OnlyFailing(s: State, op: Op, id: RunId) {
    match op
    case Report(j, _, outcome, _, _) => j == id ==> id in s.runs && s.runs[id].status == Running && outcome.FailedWith?
    case Complete(j, _, _, _) => j != id
    case Fail(j, _, _, _, _, _) => j != id
    case Pause(j, _) => j != id
    case Continue(j, _) => j != id
    case Cancel(j) => j != id
    case _ => true
  }

  ghost predicate OnlyFails(s: State, ops: seq<Op>, id: RunId)
    decreases |ops|
  {
    ops == [] || (OnlyFailing(s, ops[0], id) && OnlyFails(Step(s, ops[0]), ops[1..], id))
  }

  /** A queued run has a dispatch left, a running one was dispatched, and one that was given up used all of them. */
  predicate Spending(run: Run) {
    match run.status
    case Queued => run.attempt <= run.maxRetries
    case Running => 1 <= run.attempt <= run.maxRetries + 1
    case Failed => run.attempt == run.maxRetries + 1
    case Blocked => run.attempt == run.maxRetries + 1
    case _ => false
  }

  predicate SameProgress(was: Run, now: Run) {
    now.status == was.status && now.attempt == was.attempt && now.maxRetries == was.maxRetries
  }

  lemma SessionsSpend(s: State, op: Op, id: RunId)
    requires id in s.runs && (op.Submit? || op.Register? || op.WorkerHeartbeat? || op.RunHeartbeat?)
    ensures id in Step(s, op).runs && SameProgress(s.runs[id], Step(s, op).runs[id])
  {
    hide Beaten;
  }

  lemma OthersSpend(s: State, op: Op, id: RunId)
    requires id in s.runs && (op.Complete? || op.Fail? || op.Pause? || op.Continue? || op.Cancel?) && op.id != id
    ensures id in Step(s, op).runs && Step(s, op).runs[id] == s.runs[id]
  {
    hide Transitioned, Continued, FreedHolder;
  }

  lemma DispatchSpends(s: State, op: Op, id: RunId)
    requires id in s.runs && Spending(s.runs[id]) && op.Dispatch?
    ensures id in Step(s, op).runs && Spending(Step(s, op).runs[id])
  {
    DispatchChoiceIsSound(s, op.current, op.timeout, op.available);
  }

  lemma SweepSpends(s: State, op: Op, id: RunId)
    requires id in s.runs && Spending(s.runs[id]) && op.Sweep?
    ensures id in Step(s, op).runs && Spending(Step(s, op).runs[id])
  {
    hide AfterSweep;
    SweepExactly(s, op.current, op.wall, op.staleAfter, op.available);
  }

  lemma ReportSpends(s: State, op: Op, id: RunId)
    requires id in s.runs && Spending(s.runs[id]) && op.Report? && OnlyFailing(s, op, id)
    ensures id in Step(s, op).runs && Spending(Step(s, op).runs[id])
  {
    hide AfterReport;
    if op.id in s.runs {
      ReportExactly(s, op.id, op.w, op.outcome, op.available, op.wall);
    } else {
      NothingReported(s, op);
    }
  }

  lemma StepSpends(s: State, op: Op, id: RunId)
    requires id in s.runs && Spending(s.runs[id]) && OnlyFailing(s, op, id)
    ensures id in Step(s, op).runs && Spending(Step(s, op).runs[id])
  {
    hide Step;
    if op.Dispatch? {
      DispatchSpends(s, op, id);
    } else if op.Sweep? {
      SweepSpends(s, op, id);
    } else if op.Report? {
      ReportSpends(s, op, id);
    } else if op.Complete? || op.Fail? || op.Pause? || op.Continue? || op.Cancel? {
      OthersSpend(s, op, id);
    } else {
      SessionsSpend(s, op, id);
    }
  }

  lemma {:induction false} SpendingFromHere(s: State, ops: seq<Op>, id: RunId)
    requires id in s.runs && Spending(s.runs[id]) && OnlyFails(s, ops, id)
    ensures id in Exec(s, ops).runs && Spending(Exec(s, ops).runs[id])
    decreases |ops|
  {
    if ops != [] {
      hide Step, Spending, OnlyFailing;
      StepSpends(s, ops[0], id);
      SpendingFromHere(Step(s, ops[0]), ops[1..], id);
    }
  }

  /** A run that only fails is dispatched exactly `max_retries + 1` times before it is given up: as long as it is queued it
      has a dispatch left, and when it is FAILED, or BLOCKED for a review, it has had all of them. */
  lemma {:induction false} BudgetIsUsed(s: State, ops: seq<Op>, id: RunId)
    requires id !in s.runs && id in Exec(s, ops).runs && OnlyFails(s, ops, id)
    ensures var run := Exec(s, ops).runs[id];
            && run.status in {Queued, Running, Failed, Blocked}
            && (run.status == Queued ==> Dispatches(s, ops, id) <= run.maxRetries)
            && (run.status == Running ==> 1 <= Dispatches(s, ops, id) <= run.maxRetries + 1)
            && (run.status in {Failed, Blocked} ==> Dispatches(s, ops, id) == run.maxRetries + 1)
  {
    RetryBudget(s, ops, id);
    GivenUpOnlySpent(s, ops, id);
  }

  lemma {:induction false} GivenUpOnlySpent(s: State, ops: seq<Op>, id: RunId)
    requires id !in s.runs && id in Exec(s, ops).runs && OnlyFails(s, ops, id)
    ensures Spending(Exec(s, ops).runs[id])
    decreases |ops|
  {
    hide Step, OnlyFailing;
    var t := Step(s, ops[0]);
    if id in t.runs {
      NewRowIsFresh(s, ops[0], id);
      SpendingFromHere(t, ops[1..], id);
    } else {
      GivenUpOnlySpent(t, ops[1..], id);
    }
  }

  // ---- how an execution loses its run --------------------------------------

  /** The operation ends the running of the run: a report about it, a cancellation, a continuation without the check of
      the handler, or a sweep at a time when its last heartbeat is older than the threshold. */
  predicate Stops(s: State, op: Op, id: RunId) {
    match op
    case Report(j, _, _, _, _) => j == id
    case Complete(j, _, _, _) => j == id
    case Fail(j, _, _, _, _, _) => j == id
    case Cancel(j) => j == id
    case Continue(j, _) => j == id
    case Sweep(current, _, staleAfter, _) => id in s.runs && Stale(s.runs[id], current, staleAfter)
    case _ => false
  }

  ghost predicate Stopped(s: State, ops: seq<Op>, id: RunId)
    decreases |ops|
  {
    ops != [] && (Stops(s, ops[0], id) || Stopped(Step(s, ops[0]), ops[1..], id))
  }

  /** The attempt with this number is over, and will not come back. */
  predicate AttemptOver(run: Run, attempt: nat) {
    run.attempt > attempt || (run.attempt == attempt && run.status != Running)
  }

  lemma {:induction false} OverForGood(s: State, ops: seq<Op>, id: RunId, attempt: nat)
    requires id in s.runs && AttemptOver(s.runs[id], attempt)
    ensures id in Exec(s, ops).runs && AttemptOver(Exec(s, ops).runs[id], attempt)
    decreases |ops|
  {
    if ops != [] {
      hide Step;
      RowCharged(s, ops[0], id);
      OverForGood(Step(s, ops[0]), ops[1..], id, attempt);
    }
  }

  /** The run runs on, under the same worker and in the same attempt. */
  predicate RunsOn(was: Run, now: Run) {
    now.status == Running && now.lockedBy == was.lockedBy && now.attempt == was.attempt
  }

  /** It runs on, or no longer runs. */
  predicate RunsOnUnless(stops: bool, was: Run, now: Run) {
    if stops then now.status != Running else RunsOn(was, now)
  }

  lemma SessionsStopIt(s: State, op: Op, id: RunId)
    requires id in s.runs && s.runs[id].status == Running && id in Step(s, op).runs
    requires op.Submit? || op.Register? || op.WorkerHeartbeat? || op.RunHeartbeat?
    ensures RunsOnUnless(Stops(s, op, id), s.runs[id], Step(s, op).runs[id])
  {
    hide Beaten;
  }

  lemma HandlersStopIt(s: State, op: Op, id: RunId)
    requires id in s.runs && s.runs[id].status == Running && id in Step(s, op).runs && (op.Pause? || op.Continue? || op.Cancel?)
    ensures RunsOnUnless(Stops(s, op, id), s.runs[id], Step(s, op).runs[id])
  {
  }

  lemma SchedulerStopsIt(s: State, op: Op, id: RunId)
    requires id in s.runs && s.runs[id].status == Running && id in Step(s, op).runs && (op.Dispatch? || op.Sweep?)
    ensures RunsOnUnless(Stops(s, op, id), s.runs[id], Step(s, op).runs[id])
  {
    if op.Dispatch? {
      DispatchChoiceIsSound(s, op.current, op.timeout, op.available);
    }
  }

  lemma OutcomesStopIt(s: State, op: Op, id: RunId)
    requires id in s.runs && s.runs[id].status == Running && id in Step(s, op).runs && (op.Complete? || op.Fail?)
    ensures RunsOnUnless(Stops(s, op, id), s.runs[id], Step(s, op).runs[id])
  {
    hide FreedHolder;
  }

  lemma ReportStopsIt(s: State, op: Op, id: RunId)
    requires id in s.runs && s.runs[id].status == Running && id in Step(s, op).runs && op.Report?
    ensures RunsOnUnless(Stops(s, op, id), s.runs[id], Step(s, op).runs[id])
  {
    hide AfterReport, Charged;
    if op.id in s.runs {
      ReportedRowCharged(s, op.id, op.w, op.outcome, op.available, op.wall);
    } else {
      NothingReported(s, op);
    }
  }

  lemma StopsExactly(s: State, op: Op, id: RunId)
    requires id in s.runs && s.runs[id].status == Running && id in Step(s, op).runs
    ensures RunsOnUnless(Stops(s, op, id), s.runs[id], Step(s, op).runs[id])
  {
    hide Step, Stops, RunsOnUnless;
    if op.Dispatch? || op.Sweep? {
      SchedulerStopsIt(s, op, id);
    } else if op.Complete? || op.Fail? {
      OutcomesStopIt(s, op, id);
    } else if op.Report? {
      ReportStopsIt(s, op, id);
    } else if op.Pause? || op.Continue? || op.Cancel? {
      HandlersStopIt(s, op, id);
    } else {
      SessionsStopIt(s, op, id);
    }
  }

  /** From any state and over any history, with any number of loops and whatever their sign-ups: a run stays with its
      worker, in the attempt that is under way, if and only if nothing is reported about it, nobody cancels it or
      continues it past the handler, and no loop sweeps when its last heartbeat is older than the threshold. */
  lemma {:induction false} ExecutionKeepsRunExactly(s: State, ops: seq<Op>, id: RunId)
    requires id in s.runs && s.runs[id].status == Running
    ensures id in Exec(s, ops).runs && (RunsOn(s.runs[id], Exec(s, ops).runs[id]) <==> !Stopped(s, ops, id))
    decreases |ops|
  {
    if ops != [] {
      hide Step, Stops;
      RowCharged(s, ops[0], id);
      StopsExactly(s, ops[0], id);
      var t := Step(s, ops[0]);
      if Stops(s, ops[0], id) {
        OverForGood(t, ops[1..], id, s.runs[id].attempt);
      } else {
        ExecutionKeepsRunExactly(t, ops[1..], id);
      }
    }
  }

  // ---- coming to rest ------------------------------------------------------

  /** An upper bound on how often the status of the run can still change without a manual continue. */
  function Rank(run: Run): nat {
    match run.status
    case Queued => 3 * AtLeast(1, run.maxRetries + 1 - run.attempt)
    case Running => 3 * AtLeast(0, run.maxRetries + 1 - run.attempt) + 2
    case Cancelled => 3 * AtLeast(0, run.maxRetries + 1 - run.attempt) + 1
    case _ => 0
  }

  ghost function PickOne(ids: set<RunId>): RunId
    requires ids != {}
  {
    var id :| id in ids; id
  }

  ghost function TotalRank(ids: set<RunId>, runs: map<RunId, Run>): nat
    requires ids <= runs.Keys
  {
    if ids == {} then 0
    else
      var id := PickOne(ids);
      Rank(runs[id]) + TotalRank(ids - {id}, runs)
  }

  lemma {:induction false} TotalRankMonotone(ids: set<RunId>, was: map<RunId, Run>, now: map<RunId, Run>, moved: set<RunId>)
    requires ids <= was.Keys && ids <= now.Keys && moved <= ids
    requires forall id :: id in ids ==> Rank(now[id]) <= Rank(was[id])
    requires forall id :: id in moved ==> Rank(now[id]) < Rank(was[id])
    ensures TotalRank(ids, now) + |moved| <= TotalRank(ids, was)
  {
    if ids != {} {
      var id := PickOne(ids);
      TotalRankMonotone(ids - {id}, was, now, moved - {id});
    }
  }

  predicate Autonomous(op: Op) {
    !op.Submit? && !op.Continue?
  }

  ghost function Moved(s: State, t: State): set<RunId> {
    set id | id in s.runs && id in t.runs && s.runs[id].status != t.runs[id].status
  }

  lemma RowStepLowersRank(was: Run, now: Run)
    requires RowInvariant(was) && RowInvariant(now) && RowChange(was, now)
    requires !(was.status in {Failed, Blocked} && now.status == Queued)
    ensures Rank(now) <= Rank(was)
    ensures now.status != was.status ==> Rank(now) < Rank(was)
  {
  }

  predicate Revives(s: State, t: State, id: RunId) {
    id in s.runs && id in t.runs && s.runs[id].status in {Failed, Blocked} && t.runs[id].status == Queued
  }

  lemma SessionsReviveNothing(s: State, op: Op, id: RunId)
    requires Invariant(s) && (op.Submit? || op.Register? || op.WorkerHeartbeat? || op.RunHeartbeat? || op.Pause? || op.Cancel?)
    ensures !Revives(s, Step(s, op), id)
  {
  }

  lemma SchedulerRevivesNothing(s: State, op: Op, id: RunId)
    requires Invariant(s) && Enabled(s, op) && (op.Dispatch? || op.Sweep?)
    ensures !Revives(s, Step(s, op), id)
  {
    if op.Dispatch? {
      DispatchChoiceIsSound(s, op.current, op.timeout, op.available);
    }
  }

  lemma OutcomesReviveNothing(s: State, op: Op, id: RunId)
    requires Invariant(s) && Enabled(s, op) && (op.Report? || op.Complete? || op.Fail?)
    ensures !Revives(s, Step(s, op), id)
  {
    hide RowInvariant;
    if op.Report? {
      HasIsInHand(s, op.id, op.w);
    }
  }

  lemma OnlyContinueRevives(s: State, op: Op, id: RunId)
    requires Invariant(s) && Enabled(s, op) && !op.Continue?
    ensures !Revives(s, Step(s, op), id)
  {
    hide Step, Invariant, Revives;
    if op.Dispatch? || op.Sweep? {
      SchedulerRevivesNothing(s, op, id);
    } else if op.Report? || op.Complete? || op.Fail? {
      OutcomesReviveNothing(s, op, id);
    } else {
      SessionsReviveNothing(s, op, id);
    }
  }

  lemma RevivedByHand(s: State, op: Op, id: RunId)
    requires Invariant(s) && Enabled(s, op)
    ensures Revives(s, Step(s, op), id) ==> ContinuesRun(op, id)
  {
    hide Invariant;
    if op.Continue? {
      assert op.id != id && id in s.runs ==> Step(s, op).runs[id] == s.runs[id];
    } else {
      OnlyContinueRevives(s, op, id);
    }
  }

  lemma StepLowersRank(s: State, op: Op, id: RunId)
    requires Invariant(s) && Enabled(s, op) && Autonomous(op) && id in s.runs
    ensures id in Step(s, op).runs
    ensures Rank(Step(s, op).runs[id]) <= Rank(s.runs[id])
    ensures Step(s, op).runs[id].status != s.runs[id].status ==> Rank(Step(s, op).runs[id]) < Rank(s.runs[id])
  {
    StepSound(s, op);
    var was, now := s.runs[id], Step(s, op).runs[id];
    OnlyContinueRevives(s, op, id);
    RowStepLowersRank(was, now);
  }

  /** How many changes of status a history makes, over all runs. */
  ghost function Activity(s: State, ops: seq<Op>): nat
    decreases |ops|
  {
    if ops == [] then 0 else |Moved(s, Step(s, ops[0]))| + Activity(Step(s, ops[0]), ops[1..])
  }

  /** Without submissions and continues, every change of status is paid for by the rank: whatever the order of
      dispatches, outcomes, sweeps, pauses and cancellations, at most `TotalRank` changes ever happen. */
  lemma {:induction false} ActivityIsBounded(s: State, ops: seq<Op>)
    requires Invariant(s) && Valid(s, ops)
    requires forall op :: op in ops ==> Autonomous(op)
    ensures Exec(s, ops).runs.Keys == s.runs.Keys
    ensures Activity(s, ops) + TotalRank(s.runs.Keys, Exec(s, ops).runs) <= TotalRank(s.runs.Keys, s.runs)
    decreases |ops|
  {
    if ops != [] {
      var t := Step(s, ops[0]);
      assert Autonomous(ops[0]);
      StepSound(s, ops[0]);
      forall id | id in t.runs ensures id in s.runs {
        if id !in s.runs {
          NewRowIsFresh(s, ops[0], id);
        }
      }
      assert t.runs.Keys == s.runs.Keys;
      forall id | id in s.runs
        ensures Rank(t.runs[id]) <= Rank(s.runs[id])
        ensures id in Moved(s, t) ==> Rank(t.runs[id]) < Rank(s.runs[id])
      {
        StepLowersRank(s, ops[0], id);
      }
      TotalRankMonotone(s.runs.Keys, s.runs, t.runs, Moved(s, t));
      ActivityIsBounded(t, ops[1..]);
    }
  }
}
