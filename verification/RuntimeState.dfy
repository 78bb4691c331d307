/** The rows of the runtime tables and what each operation of the runtime does to them.
    A datetime is an integer number of seconds; `wall` is what `utcnow()` returns and `current`
    the time an operation is given. `available` is the answer of the Codex availability check. */
module RuntimeState {
  import opened Wrappers
  import opened Ordering

  const HEALTH_WINDOW_SECONDS := 90
  const STALE_AFTER_SECONDS := 30
  const CODEX_LOCAL := "codex_local"

  type RunId = nat
  type WorkerId = s: string | s != "" witness "w"

  datatype RunStatus = Queued | Created | Running | Completed | Failed | Blocked | Cancelled
  datatype WorkerStatus = Idle | Busy | Offline

  datatype Run = Run(
    status: RunStatus, priority: int, createdAt: int, queuedAt: Option<int>,
    workerType: Option<string>, maxRetries: nat, requireReview: bool, attempt: nat,
    lockedBy: Option<WorkerId>, lockedAt: Option<int>, leaseExpiresAt: Option<int>, heartbeatAt: Option<int>,
    startedAt: Option<int>, completedAt: Option<int>,
    summary: Option<string>, failureReason: Option<string>, escalationReason: Option<string>,
    pauseRequested: bool)

  datatype Worker = Worker(workerType: string, status: WorkerStatus, lastHeartbeat: int, activeRun: Option<RunId>)

  datatype State = State(runs: map<RunId, Run>, workers: map<WorkerId, Worker>)

  datatype Submission = Submission(workerType: string, maxRetries: nat, requireReview: bool)

  /** What the driver reports about an execution it carried through. */
  datatype Outcome =
    | Succeeded(summary: string)
    | FailedWith(summary: string, reason: string)
    | BlockedWith(summary: string, escalation: string)

  predicate Terminal(status: RunStatus) {
    status in {Completed, Failed, Blocked, Cancelled}
  }

  /** RUN_STATUS_TRANSITIONS. */
  predicate MayFollow(from: RunStatus, to: RunStatus) {
    match from
    case Queued => to in {Running, Blocked, Cancelled}
    case Running => to in {Completed, Failed, Blocked, Cancelled, Queued}
    case Failed => to == Queued
    case Blocked => to == Queued
    case Created => to in {Running, Cancelled}
    case Completed => false
    case Cancelled => false
  }

  /** The columns `transition_run_status` writes when it accepts the transition. */
  function Transitioned(run: Run, next: RunStatus, wall: int, summary: Option<string>,
                        failure: Option<string>, escalation: Option<string>): Run
  {
    run.(status := next,
         startedAt := if next == Running && run.startedAt.None? then Some(wall) else run.startedAt,
         completedAt := if Terminal(next) then Some(wall) else run.completedAt,
         summary := if summary.Some? then summary else run.summary,
         failureReason := if failure.Some? then failure else run.failureReason,
         escalationReason := if escalation.Some? then escalation else run.escalationReason)
  }

  /** Back in the queue: nobody holds it, nothing beats for it. */
  function Requeued(run: Run, queuedAt: int): Run {
    run.(status := Queued, queuedAt := Some(queuedAt),
         lockedBy := None, lockedAt := None, leaseExpiresAt := None, heartbeatAt := None)
  }

  // ---- workers -------------------------------------------------------------

  function Beaten(worker: Worker, wall: int): Worker {
    worker.(lastHeartbeat := wall, status := if worker.status == Offline then Idle else worker.status)
  }

  function Released(worker: Worker, available: bool, wall: int): Worker {
    worker.(status := if worker.workerType == CODEX_LOCAL && !available then Offline else Idle,
            activeRun := None, lastHeartbeat := wall)
  }

  function Engaged(worker: Worker, id: RunId, wall: int): Worker {
    worker.(status := Busy, activeRun := Some(id), lastHeartbeat := wall)
  }

  /** `mark_worker_idle`: a missing row is left missing. */
  function Freed(workers: map<WorkerId, Worker>, w: WorkerId, available: bool, wall: int): map<WorkerId, Worker> {
    if w in workers then workers[w := Released(workers[w], available, wall)] else workers
  }

  function FreedHolder(workers: map<WorkerId, Worker>, holder: Option<WorkerId>, available: bool, wall: int)
    : map<WorkerId, Worker>
  {
    if holder.Some? then Freed(workers, holder.value, available, wall) else workers
  }

  function AfterRegister(s: State, w: WorkerId, workerType: string, status: WorkerStatus, at: int): State {
    var active := if w in s.workers then s.workers[w].activeRun else None;
    s.(workers := s.workers[w := Worker(workerType, status, at, active)])
  }

  function AfterWorkerHeartbeat(s: State, w: WorkerId, wall: int): State {
    if w in s.workers then s.(workers := s.workers[w := Beaten(s.workers[w], wall)]) else s
  }

  // ---- queue ---------------------------------------------------------------

  function AfterSubmit(s: State, id: RunId, submission: Submission, wall: int): State {
    if id in s.runs then s
    else s.(runs := s.runs[id := Run(Queued, 100, wall, Some(wall),
                                     Some(submission.workerType), submission.maxRetries, submission.requireReview, 0,
                                     None, None, None, None, None, None, None, None, None, false)])
  }

  /** ORDER BY priority, queued_at NULLS LAST, created_at, id. */
  predicate QueueLeq(a: (RunId, Run), b: (RunId, Run)) {
    if a.1.priority != b.1.priority then a.1.priority < b.1.priority
    else if a.1.queuedAt != b.1.queuedAt then NullsLastLess(a.1.queuedAt, b.1.queuedAt)
    else if a.1.createdAt != b.1.createdAt then a.1.createdAt < b.1.createdAt
    else a.0 <= b.0
  }

  lemma QueueOrderTotal()
    ensures TotalPreorder(QueueLeq)
  {
  }

  /** The registered driver takes the run: there is one driver, for codex_local. */
  predicate Accepted(run: Run, available: bool) {
    run.workerType == Some(CODEX_LOCAL) && available
  }

  predicate Healthy(worker: Worker, workerType: string, current: int, timeout: int) {
    worker.workerType == workerType && worker.status != Offline && worker.lastHeartbeat >= current - timeout
  }

  predicate CanTake(s: State, w: WorkerId, run: Run, current: int, timeout: int) {
    w in s.workers && run.workerType.Some? && s.workers[w].status == Idle
    && Healthy(s.workers[w], run.workerType.value, current, timeout)
  }

  ghost predicate Dispatchable(s: State, id: RunId, current: int, timeout: int, available: bool) {
    && id in s.runs && s.runs[id].status == Queued && Accepted(s.runs[id], available)
    && exists w: WorkerId :: CanTake(s, w, s.runs[id], current, timeout)
  }

  /** ORDER BY worker_id. */
  predicate WorkerLeq(a: WorkerId, b: WorkerId) {
    StringLeq(a, b)
  }

  lemma WorkerOrderTotal()
    ensures TotalPreorder(WorkerLeq)
  {
    forall x: WorkerId, y: WorkerId ensures WorkerLeq(x, y) || WorkerLeq(y, x) {
      StringLeqTotal(x, y);
    }
    forall x: WorkerId, y: WorkerId, z: WorkerId | WorkerLeq(x, y) && WorkerLeq(y, z) ensures WorkerLeq(x, z) {
      StringLeqTransitive(x, y, z);
    }
  }

  /** The run and the worker the dispatcher has to pick: the first of the queue among the runs that can start,
      and the least idle worker for it. */
  ghost predicate IsChoice(s: State, id: RunId, w: WorkerId, current: int, timeout: int, available: bool) {
    && Dispatchable(s, id, current, timeout, available)
    && (forall j: RunId :: Dispatchable(s, j, current, timeout, available) ==> QueueLeq((id, s.runs[id]), (j, s.runs[j])))
    && CanTake(s, w, s.runs[id], current, timeout)
    && (forall v: WorkerId :: CanTake(s, v, s.runs[id], current, timeout) ==> WorkerLeq(w, v))
  }

  function Dispatched(run: Run, w: WorkerId, current: int, wall: int, timeout: int): Run {
    Transitioned(run, Running, wall, None, None, None)
    .(lockedBy := Some(w), lockedAt := Some(current), heartbeatAt := Some(current),
      leaseExpiresAt := Some(current + timeout), attempt := run.attempt + 1)
  }

  function AfterStart(s: State, id: RunId, w: WorkerId, current: int, wall: int, timeout: int): State
    requires id in s.runs && w in s.workers
  {
    State(s.runs[id := Dispatched(s.runs[id], w, current, wall, timeout)],
          s.workers[w := Engaged(s.workers[w], id, wall)])
  }

  ghost function Choice(s: State, current: int, timeout: int, available: bool): Option<(RunId, WorkerId)> {
    if exists id: RunId, w: WorkerId :: IsChoice(s, id, w, current, timeout, available) then
      var id: RunId, w: WorkerId :| IsChoice(s, id, w, current, timeout, available); Some((id, w))
    else None
  }

  ghost function AfterDispatch(s: State, current: int, wall: int, timeout: int, available: bool): State {
    match Choice(s, current, timeout, available)
    case Some(pick) => AfterStart(s, pick.0, pick.1, current, wall, timeout)
    case None => s
  }

  lemma ChoiceUnique(s: State, id: RunId, w: WorkerId, current: int, timeout: int, available: bool)
    requires IsChoice(s, id, w, current, timeout, available)
    ensures Choice(s, current, timeout, available) == Some((id, w))
  {
    var pick := Choice(s, current, timeout, available).value;
    assert IsChoice(s, pick.0, pick.1, current, timeout, available);
    StringLeqTotal(w, pick.1);
  }

  // ---- a run in flight -----------------------------------------------------

  function AfterRunHeartbeat(s: State, w: WorkerId, id: RunId, wall: int): State {
    var beaten := AfterWorkerHeartbeat(s, w, wall);
    if w !in s.workers || id !in s.runs || s.runs[id].lockedBy != Some(w) then beaten
    else beaten.(runs := s.runs[id := s.runs[id].(heartbeatAt := Some(wall),
                                                  leaseExpiresAt := Some(wall + HEALTH_WINDOW_SECONDS))])
  }

  function AfterComplete(s: State, id: RunId, summary: Option<string>, available: bool, wall: int): State {
    if id !in s.runs || !MayFollow(s.runs[id].status, Completed) then s
    else State(s.runs[id := Transitioned(s.runs[id], Completed, wall, summary, None, None)],
               FreedHolder(s.workers, s.runs[id].lockedBy, available, wall))
  }

  /** An escalation reason counts when it is a non-empty string. */
  predicate Escalates(reason: Option<string>) {
    reason.Some? && reason.value != ""
  }

  function AfterFail(s: State, id: RunId, summary: Option<string>, failure: Option<string>,
                     escalation: Option<string>, available: bool, wall: int): State
  {
    var target := if Escalates(escalation) then Blocked else Failed;
    if id !in s.runs || !MayFollow(s.runs[id].status, target) then s
    else State(s.runs[id := Transitioned(s.runs[id], target, wall, summary, failure, escalation)],
               FreedHolder(s.workers, s.runs[id].lockedBy, available, wall))
  }

  function AfterPause(s: State, id: RunId, wall: int): State {
    if id !in s.runs then s
    else
      var run := s.runs[id].(pauseRequested := true);
      s.(runs := s.runs[id :=
        if run.status == Queued
        then Transitioned(run, Blocked, wall, Some("Run paused before execution."), None, Some("paused_by_user"))
        else run.(summary := Some("Pause requested. Run will block at the next safe checkpoint."))])
  }

  function Continued(run: Run, wall: int): Run {
    Requeued(run, wall).(summary := Some("Run re-queued from conversation hold."), pauseRequested := false,
                         completedAt := None, startedAt := None, failureReason := None, escalationReason := None)
  }

  /** `continue_blocked_run`; it raises when the transition table forbids QUEUED. */
  function AfterContinue(s: State, id: RunId, wall: int): State {
    if id !in s.runs || !MayFollow(s.runs[id].status, Queued) then s
    else s.(runs := s.runs[id := Continued(s.runs[id], wall)])
  }

  predicate MayRetry(run: Run) {
    (if run.attempt > 1 then run.attempt else 1) <= run.maxRetries
  }

  // ---- the stale sweep -----------------------------------------------------

  predicate Stale(run: Run, current: int, staleAfter: int) {
    run.status == Running && run.heartbeatAt.Some? && run.heartbeatAt.value < current - staleAfter
  }

  function Swept(run: Run, current: int): Run {
    var marked := run.(failureReason := Some("worker_unresponsive"),
                       summary := if run.summary.Some? && run.summary.value != "" then run.summary
                                  else Some("Worker heartbeat timed out."));
    if MayRetry(run) then Requeued(marked, current)
    else if run.requireReview then
      marked.(status := Blocked, completedAt := Some(current), escalationReason := Some("human_review_required"))
    else marked.(status := Failed, completedAt := Some(current))
  }

  ghost predicate HoldsStale(s: State, w: WorkerId, current: int, staleAfter: int) {
    exists id :: id in s.runs && Stale(s.runs[id], current, staleAfter) && s.runs[id].lockedBy == Some(w)
  }

  /** All stale runs at once: each is retried or given up, and each worker that held one is released. */
  ghost function AfterSweep(s: State, current: int, wall: int, staleAfter: int, available: bool): State {
    State(map id | id in s.runs :: if Stale(s.runs[id], current, staleAfter) then Swept(s.runs[id], current) else s.runs[id],
          map w | w in s.workers ::
            if HoldsStale(s, w, current, staleAfter) then Released(s.workers[w], available, wall) else s.workers[w])
  }

  // ---- reports of the local worker -----------------------------------------

  /** `_ensure_assigned_run`. */
  predicate AssignedTo(s: State, id: RunId, w: WorkerId) {
    id in s.runs && s.runs[id].status == Running && s.runs[id].lockedBy == Some(w)
  }

  function FailureReported(run: Run, summary: string, reason: string, wall: int): Run {
    var marked := run.(summary := Some(summary), failureReason := Some(reason));
    if MayRetry(run) then Requeued(marked, wall)
    else marked.(status := Failed, completedAt := Some(wall),
                 escalationReason := if run.requireReview then Some("human_review_required_after_failure")
                                     else run.escalationReason)
  }

  function AfterFailureReport(s: State, id: RunId, w: WorkerId, summary: string, reason: string,
                              available: bool, wall: int): State
  {
    if id !in s.runs then s
    else State(s.runs[id := FailureReported(s.runs[id], summary, reason, wall)], Freed(s.workers, w, available, wall))
  }

  function AfterBlockReport(s: State, id: RunId, w: WorkerId, summary: string, escalation: string,
                            available: bool, wall: int): State
  {
    if id !in s.runs then s
    else State(s.runs[id := s.runs[id].(status := Blocked, completedAt := Some(wall), summary := Some(summary),
                                        escalationReason := Some(escalation))],
               Freed(s.workers, w, available, wall))
  }

  // ---- the end of an execution, and the cancel handler ---------------------

  /** The values of RunStatus. */
  function StatusText(status: RunStatus): string {
    match status
    case Queued => "queued"
    case Created => "created"
    case Running => "running"
    case Completed => "completed"
    case Failed => "failed"
    case Blocked => "blocked"
    case Cancelled => "cancelled"
  }

  function RefusedText(from: RunStatus, to: RunStatus): string {
    "invalid run status transition: " + StatusText(from) + " -> " + StatusText(to)
  }

  /** How an execution ends, on the row as it is by then: nobody checks again who holds the run, and a completion that
      the transition table refuses is reported as a failure. */
  function AfterReport(s: State, id: RunId, w: WorkerId, outcome: Outcome, available: bool, wall: int): State {
    if id !in s.runs then s
    else match outcome
      case Succeeded(summary) =>
        if MayFollow(s.runs[id].status, Completed) then AfterComplete(s, id, Some(summary), available, wall)
        else AfterFailureReport(s, id, w, RefusedText(s.runs[id].status, Completed), "unexpected_error", available, wall)
      case FailedWith(summary, reason) => AfterFailureReport(s, id, w, summary, reason, available, wall)
      case BlockedWith(summary, escalation) => AfterBlockReport(s, id, w, summary, escalation, available, wall)
  }

  /** The cancel handler writes the status and nothing else. */
  function AfterCancel(s: State, id: RunId): State {
    if id in s.runs && s.runs[id].status in {Created, Running} then
      s.(runs := s.runs[id := s.runs[id].(status := Cancelled)])
    else s
  }

  /** The claim of the lease queue, which works on the same table and does not look at the type of a run. */
  function AfterLeaseClaim(s: State, id: RunId, owner: WorkerId, at: int, lease: nat): State
    requires id in s.runs
  {
    var run := s.runs[id];
    s.(runs := s.runs[id := run.(status := Running, lockedBy := Some(owner), lockedAt := Some(at),
                                 leaseExpiresAt := Some(at + lease),
                                 startedAt := if run.startedAt.Some? then run.startedAt else Some(at))])
  }

  /** The continue handler lets BLOCKED runs through only. */
  function AfterContinueRequest(s: State, id: RunId, wall: int): State {
    if id in s.runs && s.runs[id].status == Blocked then AfterContinue(s, id, wall) else s
  }
}
