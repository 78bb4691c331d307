/** What every operation of the runtime keeps, over every sequence of operations. */
module RuntimeInvariants {
  import opened Wrappers
  import opened RuntimeState

  /** The holder of a RUNNING run is BUSY with it; and what a worker has as its active run is a run it holds,
      RUNNING or cancelled under it. */
  ghost predicate Assignment(s: State) {
    && (forall id :: id in s.runs && s.runs[id].status == Running ==>
          s.runs[id].lockedBy.Some? && HeldBy(s, id, s.runs[id].lockedBy.value))
    && (forall w :: w in s.workers && s.workers[w].activeRun.Some? ==> InHand(s, s.workers[w].activeRun.value, w))
  }

  predicate InHand(s: State, id: RunId, w: WorkerId) {
    id in s.runs && s.runs[id].lockedBy == Some(w) && s.runs[id].status in {Running, Cancelled}
  }

  /** The worker still has the run. */
  predicate Has(s: State, id: RunId, w: WorkerId) {
    w in s.workers && s.workers[w].activeRun == Some(id)
  }

  predicate HeldBy(s: State, id: RunId, w: WorkerId) {
    w in s.workers && s.workers[w].status == Busy && s.workers[w].activeRun == Some(id)
  }

  ghost predicate RowInvariant(run: Run) {
    && run.status != Created
    && (run.status == Queued ==>
          run.lockedBy.None? && run.lockedAt.None? && run.leaseExpiresAt.None? && run.heartbeatAt.None?)
    && (run.status == Running ==>
          run.lockedAt.Some? && run.leaseExpiresAt.Some? && run.heartbeatAt.Some? && run.startedAt.Some? && run.attempt >= 1)
    && (run.status == Cancelled ==> run.attempt >= 1)
    && (run.completedAt.Some? <==> run.status in {Completed, Failed, Blocked})
    && (run.status == Blocked ==> Escalates(run.escalationReason))
  }

  ghost predicate Invariant(s: State) {
    Assignment(s) && forall id :: id in s.runs ==> RowInvariant(s.runs[id])
  }

  // ---- operations ----------------------------------------------------------

  datatype Op =
    | Submit(id: RunId, submission: Submission, wall: int)
    | Register(w: WorkerId, workerType: string, status: WorkerStatus, at: int)
    | WorkerHeartbeat(w: WorkerId, wall: int)
    | Dispatch(current: int, wall: int, timeout: int, available: bool)
    | RunHeartbeat(w: WorkerId, id: RunId, wall: int)
    | Report(id: RunId, w: WorkerId, outcome: Outcome, available: bool, wall: int)
    | Complete(id: RunId, summary: Option<string>, available: bool, wall: int)
    | Fail(id: RunId, summary: Option<string>, failure: Option<string>, escalation: Option<string>, available: bool, wall: int)
    | Pause(id: RunId, wall: int)
    | Continue(id: RunId, wall: int)
    | Sweep(current: int, wall: int, staleAfter: int, available: bool)
    | Cancel(id: RunId)

  ghost function Step(s: State, op: Op): State {
    match op
    case Submit(id, submission, wall) => AfterSubmit(s, id, submission, wall)
    case Register(w, workerType, status, at) => AfterRegister(s, w, workerType, status, at)
    case WorkerHeartbeat(w, wall) => AfterWorkerHeartbeat(s, w, wall)
    case Dispatch(current, wall, timeout, available) => AfterDispatch(s, current, wall, timeout, available)
    case RunHeartbeat(w, id, wall) => AfterRunHeartbeat(s, w, id, wall)
    case Report(id, w, outcome, available, wall) => AfterReport(s, id, w, outcome, available, wall)
    case Complete(id, summary, available, wall) => AfterComplete(s, id, summary, available, wall)
    case Fail(id, summary, failure, escalation, available, wall) =>
      AfterFail(s, id, summary, failure, escalation, available, wall)
    case Pause(id, wall) => AfterPause(s, id, wall)
    case Continue(id, wall) => AfterContinue(s, id, wall)
    case Sweep(current, wall, staleAfter, available) => AfterSweep(s, current, wall, staleAfter, available)
    case Cancel(id) => AfterCancel(s, id)
  }

  /** What the callers of the runtime have to respect. Every escalation the worker raises is a non-empty text. */
  predicate Enabled(s: State, op: Op) {
    match op
    case Register(w, _, status, _) => RegistrationSafe(s, w, status)
    case Continue(id, _) => id in s.runs ==> s.runs[id].status != Running
    case Report(id, w, outcome, _, _) => Has(s, id, w) && (outcome.BlockedWith? ==> outcome.escalation != "")
    case _ => true
  }

  /** A worker with a RUNNING run may only register as busy. */
  predicate RegistrationSafe(s: State, w: WorkerId, status: WorkerStatus) {
    status == Busy || !HasRunning(s, w)
  }

  predicate HasRunning(s: State, w: WorkerId) {
    && w in s.workers && s.workers[w].activeRun.Some?
    && s.workers[w].activeRun.value in s.runs && s.runs[s.workers[w].activeRun.value].status == Running
  }

  // ---- one step ------------------------------------------------------------

  /** The transition table lets the row change like this. */
  predicate OnTable(was: Run, now: Run) {
    was.status == now.status || MayFollow(was.status, now.status)
  }

  /** A run requeues by itself only while its retry budget lasts, and only a dispatch counts as an attempt. */
  predicate Budgeted(was: Run, now: Run) {
    && now.maxRetries == was.maxRetries
    && now.attempt == was.attempt + (if was.status == Queued && now.status == Running then 1 else 0)
    && (was.status in {Running, Cancelled} && now.status == Queued ==> was.attempt <= was.maxRetries)
  }

  /** What an operation does to a row, but for the two cases below: it follows the table and cancels nothing. */
  predicate RowStep(was: Run, now: Run) {
    OnTable(was, now) && Budgeted(was, now) && (now.status == Cancelled ==> was.status == Cancelled)
  }

  /** A cancellation, or a report about a run that was cancelled in the meantime, which the table does not know. */
  predicate RowChange(was: Run, now: Run) {
    || RowStep(was, now)
    || (was.status == Running && now == was.(status := Cancelled))
    || (was.status == Cancelled && now.status in {Queued, Failed, Blocked} && Budgeted(was, now))
  }

  /** The invariant is kept, no row is lost, new rows are queued and were never tried. */
  ghost predicate Moves(s: State, t: State) {
    && Invariant(t)
    && (forall id :: id in s.runs ==> id in t.runs && RowChange(s.runs[id], t.runs[id]))
    && (forall id :: id in t.runs && id !in s.runs ==> t.runs[id].status == Queued && t.runs[id].attempt == 0)
  }

  ghost predicate Sound(s: State, t: State) {
    Moves(s, t) && forall id :: id in s.runs ==> RowStep(s.runs[id], t.runs[id])
  }

  /** A row that stays out of, or stays in, the RUNNING state changes by itself. */
  lemma RowChangeSound(s: State, id: RunId, now: Run)
    requires Invariant(s) && id in s.runs && RowInvariant(now) && RowStep(s.runs[id], now)
    requires (s.runs[id].status == Running) == (now.status == Running)
    requires s.runs[id].status in {Running, Cancelled} ==> now.lockedBy == s.runs[id].lockedBy && now.status == s.runs[id].status
    ensures Sound(s, s.(runs := s.runs[id := now]))
  {
  }

  /** A row stops while the worker that has it is released in the same step. */
  lemma LeavingSound(s: State, id: RunId, w: WorkerId, now: Run, available: bool, wall: int)
    requires Invariant(s) && Has(s, id, w) && RowInvariant(now) && RowChange(s.runs[id], now)
    requires now.status in {Queued, Completed, Failed, Blocked}
    ensures Moves(s, State(s.runs[id := now], Freed(s.workers, w, available, wall)))
    ensures RowStep(s.runs[id], now) ==> Sound(s, State(s.runs[id := now], Freed(s.workers, w, available, wall)))
  {
  }

  lemma RegisterSound(s: State, w: WorkerId, workerType: string, status: WorkerStatus, at: int)
    requires Invariant(s) && RegistrationSafe(s, w, status)
    ensures Sound(s, AfterRegister(s, w, workerType, status, at))
  {
  }

  lemma WorkerHeartbeatSound(s: State, w: WorkerId, wall: int)
    requires Invariant(s)
    ensures Sound(s, AfterWorkerHeartbeat(s, w, wall))
  {
  }

  lemma NewRowSound(s: State, id: RunId, row: Run)
    requires Invariant(s) && id !in s.runs && RowInvariant(row) && row.status == Queued && row.attempt == 0
    ensures Sound(s, s.(runs := s.runs[id := row]))
  {
  }

  lemma SubmitSound(s: State, id: RunId, submission: Submission, wall: int)
    requires Invariant(s)
    ensures Sound(s, AfterSubmit(s, id, submission, wall))
  {
    if id !in s.runs {
      NewRowSound(s, id, AfterSubmit(s, id, submission, wall).runs[id]);
    }
  }

  lemma PauseSound(s: State, id: RunId, wall: int)
    requires Invariant(s)
    ensures Sound(s, AfterPause(s, id, wall))
  {
    if id in s.runs {
      RowChangeSound(s, id, AfterPause(s, id, wall).runs[id]);
    }
  }

  lemma ContinueSound(s: State, id: RunId, wall: int)
    requires Invariant(s) && (id in s.runs ==> s.runs[id].status != Running)
    ensures Sound(s, AfterContinue(s, id, wall))
  {
    if id in s.runs && MayFollow(s.runs[id].status, Queued) {
      RowChangeSound(s, id, Continued(s.runs[id], wall));
    }
  }

  lemma DispatchChoiceIsSound(s: State, current: int, timeout: int, available: bool)
    ensures match Choice(s, current, timeout, available)
            case Some(pick) => IsChoice(s, pick.0, pick.1, current, timeout, available)
            case None => true
  {
  }

  lemma DispatchSound(s: State, current: int, wall: int, timeout: int, available: bool)
    requires Invariant(s)
    ensures Sound(s, AfterDispatch(s, current, wall, timeout, available))
  {
    DispatchChoiceIsSound(s, current, timeout, available);
    match Choice(s, current, timeout, available)
    case Some(pick) => StartSound(s, pick.0, pick.1, current, wall, timeout);
    case None =>
  }

  /** A queued row and an idle worker enter the running state together. */
  lemma EnteringSound(s: State, id: RunId, w: WorkerId, now: Run, wall: int)
    requires Invariant(s) && id in s.runs && s.runs[id].status == Queued && RowInvariant(now) && RowStep(s.runs[id], now)
    requires w in s.workers && s.workers[w].status == Idle && now.status == Running && now.lockedBy == Some(w)
    ensures Sound(s, State(s.runs[id := now], s.workers[w := Engaged(s.workers[w], id, wall)]))
  {
  }

  lemma StartSound(s: State, id: RunId, w: WorkerId, current: int, wall: int, timeout: int)
    requires Invariant(s) && id in s.runs && s.runs[id].status == Queued
    requires w in s.workers && s.workers[w].status == Idle
    ensures Sound(s, AfterStart(s, id, w, current, wall, timeout))
    ensures AssignedTo(AfterStart(s, id, w, current, wall, timeout), id, w)
  {
    EnteringSound(s, id, w, Dispatched(s.runs[id], w, current, wall, timeout), wall);
  }

  lemma RunHeartbeatSound(s: State, w: WorkerId, id: RunId, wall: int)
    requires Invariant(s)
    ensures Sound(s, AfterRunHeartbeat(s, w, id, wall))
  {
    var beaten := AfterWorkerHeartbeat(s, w, wall);
    WorkerHeartbeatSound(s, w, wall);
    var t := AfterRunHeartbeat(s, w, id, wall);
    if t != beaten {
      RowChangeSound(beaten, id, t.runs[id]);
    }
  }

  lemma CompleteSound(s: State, id: RunId, summary: Option<string>, available: bool, wall: int)
    requires Invariant(s)
    ensures Sound(s, AfterComplete(s, id, summary, available, wall))
  {
    if id in s.runs && s.runs[id].status == Running {
      LeavingSound(s, id, s.runs[id].lockedBy.value,
                   Transitioned(s.runs[id], Completed, wall, summary, None, None), available, wall);
    }
  }

  lemma FailSound(s: State, id: RunId, summary: Option<string>, failure: Option<string>, escalation: Option<string>,
                  available: bool, wall: int)
    requires Invariant(s)
    ensures Sound(s, AfterFail(s, id, summary, failure, escalation, available, wall))
  {
    var target := if Escalates(escalation) then Blocked else Failed;
    if id in s.runs && MayFollow(s.runs[id].status, target) {
      var now := Transitioned(s.runs[id], target, wall, summary, failure, escalation);
      if s.runs[id].status == Running {
        LeavingSound(s, id, s.runs[id].lockedBy.value, now, available, wall);
      } else {
        RowChangeSound(s, id, now);
      }
    }
  }

  lemma CompletedRow(run: Run, wall: int, summary: string)
    requires run.status == Running && RowInvariant(run)
    ensures var now := Transitioned(run, Completed, wall, Some(summary), None, None);
            RowInvariant(now) && RowStep(run, now) && now.status == Completed
  {
  }

  lemma FailedRow(run: Run, summary: string, reason: string, wall: int)
    requires run.status in {Running, Cancelled} && RowInvariant(run)
    ensures var now := FailureReported(run, summary, reason, wall);
            && RowInvariant(now) && RowChange(run, now) && now.status in {Queued, Failed}
            && (run.status == Running ==> RowStep(run, now))
  {
  }

  lemma ReportedRow(run: Run, s: State, id: RunId, w: WorkerId, outcome: Outcome, available: bool, wall: int)
    requires id in s.runs && s.runs[id] == run && run.status in {Running, Cancelled} && RowInvariant(run)
    requires run.lockedBy == Some(w) && (outcome.BlockedWith? ==> outcome.escalation != "")
    ensures var t := AfterReport(s, id, w, outcome, available, wall);
            && id in t.runs && t == State(s.runs[id := t.runs[id]], Freed(s.workers, w, available, wall))
            && RowInvariant(t.runs[id]) && RowChange(run, t.runs[id])
            && t.runs[id].status in {Queued, Completed, Failed, Blocked}
            && (run.status == Running ==> RowStep(run, t.runs[id]))
  {
    hide RefusedText;
    if outcome.Succeeded? && run.status == Running {
      CompletedRow(run, wall, outcome.summary);
    } else {
      forall summary, reason {
        FailedRow(run, summary, reason, wall);
      }
    }
  }

  /** However an execution ends, whether or not its run was cancelled in the meantime. */
  lemma ReportSound(s: State, id: RunId, w: WorkerId, outcome: Outcome, available: bool, wall: int)
    requires Invariant(s) && Has(s, id, w) && (outcome.BlockedWith? ==> outcome.escalation != "")
    ensures id in s.runs && Moves(s, AfterReport(s, id, w, outcome, available, wall))
    ensures s.runs[id].status == Running ==> Sound(s, AfterReport(s, id, w, outcome, available, wall))
  {
    hide AfterReport, Moves, Sound, RowStep, RowChange, RowInvariant;
    assert InHand(s, id, w) && RowInvariant(s.runs[id]);
    ReportedRow(s.runs[id], s, id, w, outcome, available, wall);
    LeavingSound(s, id, w, AfterReport(s, id, w, outcome, available, wall).runs[id], available, wall);
  }

  lemma CancelSound(s: State, id: RunId)
    requires Invariant(s)
    ensures Moves(s, AfterCancel(s, id))
  {
    var t := AfterCancel(s, id);
    if t != s {
      assert RowInvariant(s.runs[id]);
      CancelAssigns(s, id);
    }
  }

  lemma CancelAssigns(s: State, id: RunId)
    requires Assignment(s) && id in s.runs && s.runs[id].status == Running
    ensures Assignment(AfterCancel(s, id))
  {
    var t := AfterCancel(s, id);
    forall j | j in t.runs && t.runs[j].status == Running
      ensures t.runs[j].lockedBy.Some? && HeldBy(t, j, t.runs[j].lockedBy.value)
    {
      assert HeldBy(s, j, s.runs[j].lockedBy.value);
    }
    forall w | w in t.workers && t.workers[w].activeRun.Some? ensures InHand(t, t.workers[w].activeRun.value, w) {
      assert InHand(s, s.workers[w].activeRun.value, w);
    }
  }

  lemma SweptSound(run: Run, current: int, staleAfter: int)
    requires RowInvariant(run) && Stale(run, current, staleAfter)
    ensures RowInvariant(Swept(run, current)) && RowStep(run, Swept(run, current)) && Swept(run, current).status != Running
  {
  }

  lemma SweepSound(s: State, current: int, wall: int, staleAfter: int, available: bool)
    requires Invariant(s)
    ensures Sound(s, AfterSweep(s, current, wall, staleAfter, available))
  {
    var t := AfterSweep(s, current, wall, staleAfter, available);
    forall id | id in s.runs && Stale(s.runs[id], current, staleAfter)
      ensures RowInvariant(t.runs[id]) && RowStep(s.runs[id], t.runs[id]) && t.runs[id].status != Running
    {
      SweptSound(s.runs[id], current, staleAfter);
    }
    SweepAssigns(s, t, current, wall, staleAfter, available);
  }

  lemma SweepAssigns(s: State, t: State, current: int, wall: int, staleAfter: int, available: bool)
    requires Invariant(s) && t == AfterSweep(s, current, wall, staleAfter, available)
    requires forall id :: id in s.runs && Stale(s.runs[id], current, staleAfter) ==> t.runs[id].status != Running
    ensures Assignment(t)
  {
    forall id | id in t.runs && t.runs[id].status == Running
      ensures t.runs[id].lockedBy.Some? && HeldBy(t, id, t.runs[id].lockedBy.value)
    {
      assert t.runs[id] == s.runs[id];
      var w := s.runs[id].lockedBy.value;
      assert HeldBy(s, id, w);
      forall j | j in s.runs && s.runs[j].status == Running && s.runs[j].lockedBy == Some(w) ensures j == id {
        assert HeldBy(s, j, w);
      }
      assert !HoldsStale(s, w, current, staleAfter);
    }
    forall w | w in t.workers && t.workers[w].activeRun.Some? ensures InHand(t, t.workers[w].activeRun.value, w) {
      assert t.workers[w] == s.workers[w];
      assert InHand(s, s.workers[w].activeRun.value, w);
    }
  }

  predicate ReportsOnCancelled(s: State, op: Op) {
    op.Report? && op.id in s.runs && s.runs[op.id].status == Cancelled
  }

  /** Every operation keeps the invariant. Every operation but a cancellation, and a report about a cancelled run,
      moves every row along the transition table, although sweep, failure and block write the status directly. */
  lemma StepSound(s: State, op: Op)
    requires Invariant(s) && Enabled(s, op)
    ensures Moves(s, Step(s, op))
    ensures !op.Cancel? && !ReportsOnCancelled(s, op) ==> Sound(s, Step(s, op))
  {
    hide Moves, Sound, Invariant, AfterSubmit, AfterRegister, AfterWorkerHeartbeat, AfterDispatch, AfterRunHeartbeat,
      AfterReport, AfterComplete, AfterFail, AfterPause, AfterContinue, AfterSweep, AfterCancel;
    SoundMoves(s, Step(s, op));
    match op
    case Submit(id, submission, wall) => SubmitSound(s, id, submission, wall);
    case Register(w, workerType, status, at) => RegisterSound(s, w, workerType, status, at);
    case WorkerHeartbeat(w, wall) => WorkerHeartbeatSound(s, w, wall);
    case Dispatch(current, wall, timeout, available) => DispatchSound(s, current, wall, timeout, available);
    case RunHeartbeat(w, id, wall) => RunHeartbeatSound(s, w, id, wall);
    case Report(id, w, outcome, available, wall) =>
      ReportSound(s, id, w, outcome, available, wall);
      HasIsInHand(s, id, w);
    case Complete(id, summary, available, wall) => CompleteSound(s, id, summary, available, wall);
    case Fail(id, summary, failure, escalation, available, wall) =>
      FailSound(s, id, summary, failure, escalation, available, wall);
    case Pause(id, wall) => PauseSound(s, id, wall);
    case Continue(id, wall) => ContinueSound(s, id, wall);
    case Sweep(current, wall, staleAfter, available) => SweepSound(s, current, wall, staleAfter, available);
    case Cancel(id) => CancelSound(s, id);
  }

  lemma SoundMoves(s: State, t: State)
    ensures Sound(s, t) ==> Moves(s, t)
  {
  }

  lemma HasIsInHand(s: State, id: RunId, w: WorkerId)
    requires Invariant(s) && Has(s, id, w)
    ensures InHand(s, id, w)
  {
  }

  predicate ReportsOverCancel(s: State, op: Op, id: RunId) {
    ReportsOnCancelled(s, op) && op.id == id
  }

  /** Exactly when an operation takes a row off the transition table: when it reports on that run and the run was
      cancelled. */
  lemma RowOnTableExactly(s: State, op: Op, id: RunId)
    requires Invariant(s) && Enabled(s, op) && id in s.runs
    ensures id in Step(s, op).runs
    ensures OnTable(s.runs[id], Step(s, op).runs[id]) <==> !ReportsOverCancel(s, op, id)
  {
    hide Invariant, AfterSubmit, AfterRegister, AfterWorkerHeartbeat, AfterDispatch, AfterRunHeartbeat,
      AfterReport, AfterComplete, AfterFail, AfterPause, AfterContinue, AfterSweep;
    StepSound(s, op);
    if ReportsOnCancelled(s, op) {
      ReportLeavesTable(s, op);
    }
  }

  lemma ReportLeavesTable(s: State, op: Op)
    requires Invariant(s) && Enabled(s, op) && ReportsOnCancelled(s, op)
    ensures Step(s, op).runs == s.runs[op.id := Step(s, op).runs[op.id]]
    ensures !OnTable(s.runs[op.id], Step(s, op).runs[op.id])
  {
    hide AfterReport, RowInvariant;
    HasIsInHand(s, op.id, op.w);
    assert RowInvariant(s.runs[op.id]);
    ReportedRow(s.runs[op.id], s, op.id, op.w, op.outcome, op.available, op.wall);
  }

  /** Two rows never name the same worker while both run, and an idle worker has no running run. */
  lemma AssignmentIsExclusive(s: State, id: RunId, other: RunId)
    requires Invariant(s)
    requires id in s.runs && s.runs[id].status == Running
    requires other in s.runs && s.runs[other].status == Running
    ensures s.runs[id].lockedBy == s.runs[other].lockedBy ==> id == other
    ensures s.workers[s.runs[id].lockedBy.value].status == Busy
  {
    assert HeldBy(s, id, s.runs[id].lockedBy.value);
  }

  // ---- exactly when a caller may do it --------------------------------------

  /** Re-registering keeps the invariant if and only if the worker holds no RUNNING run or registers as busy. */
  lemma RegistrationSafeExactly(s: State, w: WorkerId, workerType: string, status: WorkerStatus, at: int)
    requires Invariant(s)
    ensures Invariant(AfterRegister(s, w, workerType, status, at)) <==> RegistrationSafe(s, w, status)
  {
    var t := AfterRegister(s, w, workerType, status, at);
    if RegistrationSafe(s, w, status) {
      RegisterSound(s, w, workerType, status, at);
    } else {
      var id := s.workers[w].activeRun.value;
      assert InHand(s, id, w) && AssignedTo(t, id, w);
      assert !HeldBy(t, id, w);
    }
  }

  /** `continue_blocked_run` on a run the table lets through keeps the invariant if and only if the run is not RUNNING. */
  lemma ContinueSafeExactly(s: State, id: RunId, wall: int)
    requires Invariant(s) && id in s.runs
    ensures Invariant(AfterContinue(s, id, wall)) <==> s.runs[id].status != Running
  {
    var t := AfterContinue(s, id, wall);
    if s.runs[id].status == Running {
      var w := s.runs[id].lockedBy.value;
      assert HeldBy(s, id, w);
      assert t.workers[w].activeRun == Some(id) && !InHand(t, id, w);
    } else {
      ContinueSound(s, id, wall);
    }
  }

  /** Nobody else has the run, and the worker has no other RUNNING run. */
  ghost predicate ReleaseSafe(s: State, id: RunId, w: WorkerId) {
    && (forall v :: Has(s, id, v) ==> v == w)
    && (forall j :: Has(s, j, w) && j != id && j in s.runs ==> s.runs[j].status != Running)
  }

  /** A run is written as queued, failed or blocked while some worker is released. Runs and workers stay in step if and
      only if nobody else has the run and the worker has no other run that is RUNNING. */
  lemma ReleaseSafeExactly(s: State, id: RunId, w: WorkerId, now: Run, available: bool, wall: int)
    requires Invariant(s) && id in s.runs && now.status in {Queued, Failed, Blocked}
    ensures Assignment(State(s.runs[id := now], Freed(s.workers, w, available, wall))) <==> ReleaseSafe(s, id, w)
  {
    var t := State(s.runs[id := now], Freed(s.workers, w, available, wall));
    if v :| Has(s, id, v) && v != w {
      assert t.workers[v].activeRun == Some(id) && !InHand(t, id, v);
    } else if j :| Has(s, j, w) && j != id && j in s.runs && s.runs[j].status == Running {
      assert InHand(s, j, w) && AssignedTo(t, j, w);
      assert !HeldBy(t, j, w);
    } else {
      forall j | j in t.runs && t.runs[j].status == Running
        ensures t.runs[j].lockedBy.Some? && HeldBy(t, j, t.runs[j].lockedBy.value)
      {
        assert HeldBy(s, j, s.runs[j].lockedBy.value) && Has(s, j, s.runs[j].lockedBy.value);
      }
      forall v | v in t.workers && t.workers[v].activeRun.Some? ensures InHand(t, t.workers[v].activeRun.value, v) {
        assert Has(s, t.workers[v].activeRun.value, v);
      }
    }
  }

  /** Failure and block reports do not recheck who has the run by then, or whether it was cancelled. */
  lemma LateReportsSafeExactly(s: State, id: RunId, w: WorkerId, summary: string, reason: string,
                               available: bool, wall: int)
    requires Invariant(s) && id in s.runs
    ensures Assignment(AfterFailureReport(s, id, w, summary, reason, available, wall)) <==> ReleaseSafe(s, id, w)
    ensures Assignment(AfterBlockReport(s, id, w, summary, reason, available, wall)) <==> ReleaseSafe(s, id, w)
  {
    ReleaseSafeExactly(s, id, w, FailureReported(s.runs[id], summary, reason, wall), available, wall);
    ReleaseSafeExactly(s, id, w, AfterBlockReport(s, id, w, summary, reason, available, wall).runs[id], available, wall);
  }

  /** Which failure reports the transition table allows. */
  predicate FailureFits(run: Run) {
    run.status in {Running, Failed} || (run.status in {Queued, Blocked} && MayRetry(run))
  }

  /** Whoever sends it and whenever: a failure report follows the transition table if and only if the run is RUNNING or
      FAILED, or QUEUED or BLOCKED with retries left; a block report if and only if it is RUNNING, QUEUED or BLOCKED. */
  lemma LateReportsOnTableExactly(s: State, id: RunId, w: WorkerId, summary: string, reason: string,
                                  available: bool, wall: int)
    requires id in s.runs
    ensures var run := s.runs[id];
            && (OnTable(run, AfterFailureReport(s, id, w, summary, reason, available, wall).runs[id])
                <==> FailureFits(run))
            && (OnTable(run, AfterBlockReport(s, id, w, summary, reason, available, wall).runs[id])
                <==> run.status in {Running, Queued, Blocked})
  {
  }

  /** A report by the worker that has the run follows the transition table if and only if the run is still RUNNING. */
  lemma ReportOnTableExactly(s: State, id: RunId, w: WorkerId, outcome: Outcome, available: bool, wall: int)
    requires Invariant(s) && Has(s, id, w)
    ensures id in s.runs && OnTable(s.runs[id], AfterReport(s, id, w, outcome, available, wall).runs[id])
       <==> AssignedTo(s, id, w)
  {
    assert InHand(s, id, w);
    if s.runs[id].status == Cancelled {
      assert AfterReport(s, id, w, outcome, available, wall).runs[id].status in {Queued, Failed, Blocked};
    }
  }

  /** The lease queue may take a queued run, or a RUNNING one whose lease is over. That keeps the invariant if and only
      if it is the very worker that holds the run that claims it: never for a queued run. */
  lemma LeaseClaimSafeExactly(s: State, id: RunId, owner: WorkerId, at: int, lease: nat)
    requires Invariant(s) && id in s.runs && s.runs[id].status in {Queued, Running}
    ensures Invariant(AfterLeaseClaim(s, id, owner, at, lease)) <==> s.runs[id].lockedBy == Some(owner)
  {
    var t := AfterLeaseClaim(s, id, owner, at, lease);
    assert RowInvariant(s.runs[id]);
    if s.runs[id].lockedBy == Some(owner) {
      forall j | j in t.runs && t.runs[j].status == Running
        ensures t.runs[j].lockedBy.Some? && HeldBy(t, j, t.runs[j].lockedBy.value)
      {
        assert HeldBy(s, j, s.runs[j].lockedBy.value);
      }
      forall w | w in t.workers && t.workers[w].activeRun.Some? ensures InHand(t, t.workers[w].activeRun.value, w) {
        assert InHand(s, s.workers[w].activeRun.value, w);
      }
    } else {
      assert AssignedTo(t, id, owner) && !InHand(s, id, owner);
      assert !HeldBy(t, id, owner);
    }
  }

  // ---- without cancellations -----------------------------------------------

  /** Nothing was cancelled. */
  ghost predicate Uncancelled(s: State) {
    forall id :: id in s.runs ==> s.runs[id].status != Cancelled
  }

  /** Then a run is RUNNING exactly when the worker that holds it is BUSY with it, and completed_at is set exactly in
      the terminal states. */
  lemma UncancelledIsExact(s: State, id: RunId, w: WorkerId)
    requires Invariant(s) && Uncancelled(s)
    ensures AssignedTo(s, id, w) <==> HeldBy(s, id, w)
    ensures Has(s, id, w) ==> s.workers[w].status == Busy
    ensures id in s.runs ==> (s.runs[id].completedAt.Some? <==> Terminal(s.runs[id].status))
  {
    if Has(s, id, w) {
      assert InHand(s, id, w);
      assert HeldBy(s, id, w);
    }
    if AssignedTo(s, id, w) {
      assert HeldBy(s, id, w);
    }
  }

  /** An operation keeps this if and only if it is not a cancellation of a RUNNING run. */
  lemma CancelExactly(s: State, op: Op)
    requires Invariant(s) && Uncancelled(s) && Enabled(s, op)
    ensures Uncancelled(Step(s, op)) <==> !(op.Cancel? && op.id in s.runs && s.runs[op.id].status == Running)
  {
    hide AfterSubmit, AfterRegister, AfterWorkerHeartbeat, AfterDispatch, AfterRunHeartbeat,
      AfterReport, AfterComplete, AfterFail, AfterPause, AfterContinue, AfterSweep, Invariant;
    StepSound(s, op);
    if op.Cancel? {
      assert op.id in s.runs && s.runs[op.id].status == Running ==> Step(s, op).runs[op.id].status == Cancelled;
    }
  }

  /** A cancelled run leaves its worker BUSY with a run that is not RUNNING, and has no completion time. */
  lemma CancelLeavesWorkerBusy(s: State, id: RunId)
    requires Invariant(s) && id in s.runs && s.runs[id].status == Running
    ensures var t, w := AfterCancel(s, id), s.runs[id].lockedBy.value;
            && t.runs[id].status == Cancelled && t.runs[id].completedAt.None? && HeldBy(t, id, w) && !AssignedTo(t, id, w)
  {
    assert HeldBy(s, id, s.runs[id].lockedBy.value);
  }

  // ---- histories -----------------------------------------------------------

  ghost function Exec(s: State, ops: seq<Op>): State
    decreases |ops|
  {
    if ops == [] then s else Exec(Step(s, ops[0]), ops[1..])
  }

  ghost predicate Valid(s: State, ops: seq<Op>)
    decreases |ops|
  {
    ops == [] || (Enabled(s, ops[0]) && Valid(Step(s, ops[0]), ops[1..]))
  }

  const EMPTY: State := State(map[], map[])

  lemma {:induction false} ExecKeepsInvariant(s: State, ops: seq<Op>)
    requires Invariant(s) && Valid(s, ops)
    ensures Invariant(Exec(s, ops))
    decreases |ops|
  {
    if ops != [] {
      StepSound(s, ops[0]);
      ExecKeepsInvariant(Step(s, ops[0]), ops[1..]);
    }
  }

  /** A run never disappears, its attempts never go down, and COMPLETED is for ever. */
  lemma {:induction false} CompletedIsAbsorbing(s: State, ops: seq<Op>, id: RunId)
    requires Invariant(s) && Valid(s, ops) && id in s.runs
    ensures id in Exec(s, ops).runs
    ensures s.runs[id].status == Completed ==> Exec(s, ops).runs[id].status == Completed
    ensures s.runs[id].attempt <= Exec(s, ops).runs[id].attempt
    ensures s.runs[id].maxRetries == Exec(s, ops).runs[id].maxRetries
    decreases |ops|
  {
    if ops != [] {
      StepSound(s, ops[0]);
      CompletedIsAbsorbing(Step(s, ops[0]), ops[1..], id);
    }
  }
}
