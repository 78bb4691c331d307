/** What the operations of the runtime write, column by column, as a reader of the two tables sees it. */
module RuntimeColumns {
  import opened Wrappers
  import opened Ordering
  import opened RuntimeState

  // ---- runs ----------------------------------------------------------------

  /** RUN_STATUS_TRANSITIONS, pair by pair. */
  const TRANSITIONS: set<(RunStatus, RunStatus)> :=
    {(Queued, Running), (Queued, Blocked), (Queued, Cancelled),
     (Running, Completed), (Running, Failed), (Running, Blocked), (Running, Cancelled), (Running, Queued),
     (Failed, Queued), (Blocked, Queued), (Created, Running), (Created, Cancelled)}

  predicate TransitionColumns(was: Run, now: Run, next: RunStatus, wall: int, summary: Option<string>,
                              failure: Option<string>, escalation: Option<string>)
  {
    && now == was.(status := next, startedAt := now.startedAt, completedAt := now.completedAt, summary := now.summary,
                   failureReason := now.failureReason, escalationReason := now.escalationReason)
    && (next == Running && was.startedAt == None ==> now.startedAt == Some(wall))
    && (next != Running || was.startedAt != None ==> now.startedAt == was.startedAt)
    && (next in {Completed, Failed, Blocked, Cancelled} ==> now.completedAt == Some(wall))
    && (next in {Queued, Created, Running} ==> now.completedAt == was.completedAt)
    && now.summary == (if summary == None then was.summary else summary)
    && now.failureReason == (if failure == None then was.failureReason else failure)
    && now.escalationReason == (if escalation == None then was.escalationReason else escalation)
  }

  /** Nobody holds the run and nothing beats for it. */
  predicate Unlocked(run: Run) {
    run.lockedBy == None && run.lockedAt == None && run.leaseExpiresAt == None && run.heartbeatAt == None
  }

  /** Back in the queue at that time, with nothing but the named columns changed. */
  predicate RequeueColumns(was: Run, now: Run, at: int, summary: Option<string>, reason: string) {
    && now.status == Queued && now.queuedAt == Some(at) && Unlocked(now)
    && now.summary == summary && now.failureReason == Some(reason)
    && now == was.(status := now.status, queuedAt := now.queuedAt, summary := now.summary, failureReason := now.failureReason,
                   lockedBy := None, lockedAt := None, leaseExpiresAt := None, heartbeatAt := None)
  }

  /** Given up at that time. */
  predicate GiveUpColumns(was: Run, now: Run, status: RunStatus, at: int, summary: Option<string>, reason: string,
                          escalation: Option<string>)
  {
    && now.status == status && now.completedAt == Some(at) && now.summary == summary && now.failureReason == Some(reason)
    && now.escalationReason == escalation
    && now == was.(status := now.status, completedAt := now.completedAt, summary := now.summary,
                   failureReason := now.failureReason, escalationReason := now.escalationReason)
  }

  /** A failure is retried if and only if max(attempt, 1) <= max_retries. */
  predicate FailureColumns(was: Run, now: Run, summary: string, reason: string, wall: int) {
    if was.attempt <= was.maxRetries && 1 <= was.maxRetries then RequeueColumns(was, now, wall, Some(summary), reason)
    else GiveUpColumns(was, now, Failed, wall, Some(summary), reason,
                       if was.requireReview then Some("human_review_required_after_failure") else was.escalationReason)
  }

  /** So is a run that went silent; given up, it is blocked if a human has to review it and failed otherwise. */
  predicate SweepColumns(was: Run, now: Run, current: int) {
    var summary := if was.summary in {None, Some("")} then Some("Worker heartbeat timed out.") else was.summary;
    if was.attempt <= was.maxRetries && 1 <= was.maxRetries then
      RequeueColumns(was, now, current, summary, "worker_unresponsive")
    else if was.requireReview then
      GiveUpColumns(was, now, Blocked, current, summary, "worker_unresponsive", Some("human_review_required"))
    else GiveUpColumns(was, now, Failed, current, summary, "worker_unresponsive", was.escalationReason)
  }

  predicate Silent(run: Run, current: int, staleAfter: int) {
    run.status == Running && run.heartbeatAt != None && run.heartbeatAt.value + staleAfter < current
  }

  predicate BlockColumns(was: Run, now: Run, summary: string, escalation: string, wall: int) {
    && now.status == Blocked && now.completedAt == Some(wall) && now.summary == Some(summary)
    && now.escalationReason == Some(escalation)
    && now == was.(status := now.status, completedAt := now.completedAt, summary := now.summary,
                   escalationReason := now.escalationReason)
  }

  predicate DispatchColumns(was: Run, now: Run, w: WorkerId, current: int, wall: int, timeout: int) {
    && now.status == Running && now.lockedBy == Some(w) && now.lockedAt == Some(current)
    && now.heartbeatAt == Some(current) && now.leaseExpiresAt == Some(current + timeout) && now.attempt == was.attempt + 1
    && now.startedAt == (if was.startedAt == None then Some(wall) else was.startedAt)
    && now == was.(status := now.status, lockedBy := now.lockedBy, lockedAt := now.lockedAt, heartbeatAt := now.heartbeatAt,
                   leaseExpiresAt := now.leaseExpiresAt, attempt := now.attempt, startedAt := now.startedAt)
  }

  predicate PauseColumns(was: Run, now: Run, wall: int) {
    && now.pauseRequested
    && if was.status == Queued
       then now == was.(status := Blocked, completedAt := Some(wall), summary := Some("Run paused before execution."),
                        escalationReason := Some("paused_by_user"), pauseRequested := true)
       else now == was.(summary := Some("Pause requested. Run will block at the next safe checkpoint."), pauseRequested := true)
  }

  predicate ContinueColumns(was: Run, now: Run, wall: int) {
    && now.status == Queued && now.queuedAt == Some(wall) && Unlocked(now) && !now.pauseRequested
    && now.summary == Some("Run re-queued from conversation hold.")
    && now.startedAt == None && now.completedAt == None && now.failureReason == None && now.escalationReason == None
    && now.priority == was.priority && now.createdAt == was.createdAt && now.workerType == was.workerType
    && now.maxRetries == was.maxRetries && now.requireReview == was.requireReview && now.attempt == was.attempt
  }

  predicate SubmitColumns(now: Run, submission: Submission, wall: int) {
    && now.status == Queued && now.priority == 100 && now.createdAt == wall && now.queuedAt == Some(wall)
    && now.workerType == Some(submission.workerType) && now.maxRetries == submission.maxRetries
    && now.requireReview == submission.requireReview && now.attempt == 0 && Unlocked(now)
    && now.startedAt == None && now.completedAt == None && now.summary == None
    && now.failureReason == None && now.escalationReason == None && !now.pauseRequested
  }

  // ---- workers -------------------------------------------------------------

  predicate BeatColumns(was: Worker, now: Worker, wall: int) {
    now == was.(lastHeartbeat := wall, status := if was.status == Offline then Idle else was.status)
  }

  predicate BusyColumns(was: Worker, now: Worker, id: RunId, wall: int) {
    now == was.(status := Busy, activeRun := Some(id), lastHeartbeat := wall)
  }

  predicate ReleaseColumns(was: Worker, now: Worker, available: bool, wall: int) {
    now == was.(status := if was.workerType == "codex_local" && !available then Offline else Idle,
                activeRun := None, lastHeartbeat := wall)
  }

  /** The holder is released, if it has a row, and every other worker stays as it was. */
  ghost predicate OnlyReleases(was: map<WorkerId, Worker>, now: map<WorkerId, Worker>, holder: Option<WorkerId>,
                               available: bool, wall: int)
  {
    && now.Keys == was.Keys
    && forall w :: w in was ==>
         if holder == Some(w) then ReleaseColumns(was[w], now[w], available, wall) else now[w] == was[w]
  }

  // ---- dispatch ------------------------------------------------------------

  /** The worker is of the driver's type, idle, and beat within the window. */
  predicate CouldStart(s: State, id: RunId, w: WorkerId, current: int, timeout: int, available: bool) {
    && available
    && id in s.runs && s.runs[id].status == Queued && s.runs[id].workerType == Some("codex_local")
    && w in s.workers && s.workers[w].status == Idle && s.workers[w].workerType == "codex_local"
    && current - s.workers[w].lastHeartbeat <= timeout
  }

  /** Smaller priority first, then the earlier queued_at, those that have none last, then created_at, then the id. */
  predicate GoesFirst(p: Run, id: RunId, q: Run, other: RunId) {
    && p.priority <= q.priority
    && (p.priority == q.priority ==>
          && (p.queuedAt == None ==> q.queuedAt == None)
          && (p.queuedAt != None && q.queuedAt != None ==> p.queuedAt.value <= q.queuedAt.value)
          && (p.queuedAt == q.queuedAt ==>
                p.createdAt <= q.createdAt && (p.createdAt == q.createdAt ==> id <= other)))
  }

  /** The run goes to the worker; no run that could have started goes first, and no worker that could have taken it has
      a smaller id. */
  ghost predicate Starts(s: State, t: State, id: RunId, w: WorkerId, current: int, wall: int, timeout: int, available: bool) {
    && CouldStart(s, id, w, current, timeout, available)
    && (forall j: RunId, v: WorkerId :: CouldStart(s, j, v, current, timeout, available) ==> GoesFirst(s.runs[id], id, s.runs[j], j))
    && (forall v: WorkerId :: CouldStart(s, id, v, current, timeout, available) ==> StringLeq(w, v))
    && t.runs.Keys == s.runs.Keys && t.workers.Keys == s.workers.Keys
    && (forall j :: j in s.runs && j != id ==> t.runs[j] == s.runs[j])
    && (forall v :: v in s.workers && v != w ==> t.workers[v] == s.workers[v])
    && DispatchColumns(s.runs[id], t.runs[id], w, current, wall, timeout) && BusyColumns(s.workers[w], t.workers[w], id, wall)
  }

  lemma TakersCouldStart(s: State, id: RunId, w: WorkerId, current: int, timeout: int, available: bool)
    ensures CouldStart(s, id, w, current, timeout, available) <==>
            id in s.runs && s.runs[id].status == Queued && Accepted(s.runs[id], available)
            && CanTake(s, w, s.runs[id], current, timeout)
  {
  }

  lemma ChoiceColumns(s: State, id: RunId, w: WorkerId, current: int, wall: int, timeout: int, available: bool)
    requires IsChoice(s, id, w, current, timeout, available)
    ensures Starts(s, AfterStart(s, id, w, current, wall, timeout), id, w, current, wall, timeout, available)
  {
    hide CanTake, Accepted;
    TakersCouldStart(s, id, w, current, timeout, available);
    forall j: RunId, v: WorkerId | CouldStart(s, j, v, current, timeout, available) ensures GoesFirst(s.runs[id], id, s.runs[j], j) {
      TakersCouldStart(s, j, v, current, timeout, available);
      assert Dispatchable(s, j, current, timeout, available);
    }
    forall v: WorkerId | CouldStart(s, id, v, current, timeout, available) ensures StringLeq(w, v) {
      TakersCouldStart(s, id, v, current, timeout, available);
      assert WorkerLeq(w, v);
    }
  }

  lemma NobodyCouldStart(s: State, current: int, timeout: int, available: bool)
    requires forall j: RunId :: !Dispatchable(s, j, current, timeout, available)
    ensures forall j: RunId, v: WorkerId :: !CouldStart(s, j, v, current, timeout, available)
  {
    forall j: RunId, v: WorkerId ensures !CouldStart(s, j, v, current, timeout, available) {
      TakersCouldStart(s, j, v, current, timeout, available);
      assert !Dispatchable(s, j, current, timeout, available);
    }
  }

  lemma {:induction false} LeastRun(s: State, ids: set<RunId>) returns (id: RunId)
    requires ids != {} && ids <= s.runs.Keys
    ensures id in ids && forall j :: j in ids ==> QueueLeq((id, s.runs[id]), (j, s.runs[j]))
  {
    var one :| one in ids;
    id := one;
    QueueOrderTotal();
    assert QueueLeq((one, s.runs[one]), (one, s.runs[one]));
    if ids - {one} != {} {
      var other := LeastRun(s, ids - {one});
      if !QueueLeq((one, s.runs[one]), (other, s.runs[other])) {
        id := other;
      }
    }
    forall j | j in ids ensures QueueLeq((id, s.runs[id]), (j, s.runs[j])) {
      assert j == one || j in ids - {one};
    }
  }

  lemma {:induction false} LeastWorker(ws: set<WorkerId>) returns (w: WorkerId)
    requires ws != {}
    ensures w in ws && forall v :: v in ws ==> WorkerLeq(w, v)
  {
    var one :| one in ws;
    w := one;
    WorkerOrderTotal();
    assert WorkerLeq(one, one);
    if ws - {one} != {} {
      var other := LeastWorker(ws - {one});
      if !WorkerLeq(one, other) {
        w := other;
      }
    }
    forall v | v in ws ensures WorkerLeq(w, v) {
      assert v == one || v in ws - {one};
    }
  }

  /** If any run could start on any worker, there is one that has to be started. */
  lemma NoChoiceNobody(s: State, current: int, timeout: int, available: bool)
    requires Choice(s, current, timeout, available) == None
    ensures forall j: RunId, v: WorkerId :: !CouldStart(s, j, v, current, timeout, available)
  {
    hide CanTake, Accepted, QueueLeq, WorkerLeq;
    forall j: RunId, v: WorkerId ensures !CouldStart(s, j, v, current, timeout, available) {
      TakersCouldStart(s, j, v, current, timeout, available);
      if CouldStart(s, j, v, current, timeout, available) {
        var ids := set i | i in s.runs && Dispatchable(s, i, current, timeout, available);
        assert Dispatchable(s, j, current, timeout, available) && j in ids;
        var id := LeastRun(s, ids);
        var ws := set u: WorkerId | u in s.workers && CanTake(s, u, s.runs[id], current, timeout);
        var taker: WorkerId :| CanTake(s, taker, s.runs[id], current, timeout);
        TakerIsThere(s, taker, s.runs[id], current, timeout);
        assert taker in ws;
        var w := LeastWorker(ws);
        LeastIsChoice(s, ids, ws, id, w, current, timeout, available);
      }
    }
  }

  lemma TakerIsThere(s: State, w: WorkerId, run: Run, current: int, timeout: int)
    ensures CanTake(s, w, run, current, timeout) ==> w in s.workers
  {
  }

  lemma LeastIsChoice(s: State, ids: set<RunId>, ws: set<WorkerId>, id: RunId, w: WorkerId,
                      current: int, timeout: int, available: bool)
    requires forall i: RunId :: i in ids <==> i in s.runs && Dispatchable(s, i, current, timeout, available)
    requires id in ids && forall j :: j in ids ==> QueueLeq((id, s.runs[id]), (j, s.runs[j]))
    requires forall u: WorkerId :: u in ws <==> u in s.workers && CanTake(s, u, s.runs[id], current, timeout)
    requires w in ws && forall v :: v in ws ==> WorkerLeq(w, v)
    ensures Choice(s, current, timeout, available) == Some((id, w))
  {
    hide QueueLeq, WorkerLeq, Accepted;
    forall v: WorkerId | CanTake(s, v, s.runs[id], current, timeout) ensures WorkerLeq(w, v) {
      assert v in ws;
    }
    forall j: RunId | Dispatchable(s, j, current, timeout, available) ensures QueueLeq((id, s.runs[id]), (j, s.runs[j])) {
      assert j in ids;
    }
    assert IsChoice(s, id, w, current, timeout, available);
    ChoiceUnique(s, id, w, current, timeout, available);
  }

  // ---- the sweep -----------------------------------------------------------

  /** Every silent run is retried or given up, no other run changes, and exactly the holders of silent runs are released. */
  ghost predicate SweepsAll(s: State, t: State, current: int, wall: int, staleAfter: int, available: bool) {
    && t.runs.Keys == s.runs.Keys && t.workers.Keys == s.workers.Keys
    && (forall id :: id in s.runs ==>
          if Silent(s.runs[id], current, staleAfter) then SweepColumns(s.runs[id], t.runs[id], current)
          else t.runs[id] == s.runs[id])
    && (forall w :: w in s.workers ==>
          if exists id :: id in s.runs && Silent(s.runs[id], current, staleAfter) && s.runs[id].lockedBy == Some(w)
          then ReleaseColumns(s.workers[w], t.workers[w], available, wall)
          else t.workers[w] == s.workers[w])
  }

  lemma SilentIsStale(run: Run, current: int, staleAfter: int)
    ensures Silent(run, current, staleAfter) <==> Stale(run, current, staleAfter)
  {
  }

  lemma SweptColumns(run: Run, current: int)
    ensures SweepColumns(run, Swept(run, current), current)
  {
  }

  lemma SweepExactly(s: State, current: int, wall: int, staleAfter: int, available: bool)
    ensures SweepsAll(s, AfterSweep(s, current, wall, staleAfter, available), current, wall, staleAfter, available)
  {
    hide Swept, SweepColumns, Silent, Stale;
    forall id | id in s.runs
      ensures Silent(s.runs[id], current, staleAfter) <==> Stale(s.runs[id], current, staleAfter)
      ensures SweepColumns(s.runs[id], Swept(s.runs[id], current), current)
    {
      SilentIsStale(s.runs[id], current, staleAfter);
      SweptColumns(s.runs[id], current);
    }
  }

  // ---- the handlers --------------------------------------------------------

  /** One row is written, or added, and nothing else. */
  predicate OnlyWrites(s: State, t: State, id: RunId) {
    id in t.runs && t == s.(runs := s.runs[id := t.runs[id]])
  }

  lemma SubmitExactly(s: State, id: RunId, submission: Submission, wall: int)
    ensures var t := AfterSubmit(s, id, submission, wall);
            if id in s.runs then t == s else OnlyWrites(s, t, id) && SubmitColumns(t.runs[id], submission, wall)
  {
  }

  lemma PauseExactly(s: State, id: RunId, wall: int)
    ensures var t := AfterPause(s, id, wall);
            if id in s.runs then OnlyWrites(s, t, id) && PauseColumns(s.runs[id], t.runs[id], wall) else t == s
  {
  }

  lemma ContinueExactly(s: State, id: RunId, wall: int)
    ensures var t := AfterContinueRequest(s, id, wall);
            if id in s.runs && s.runs[id].status == Blocked
            then OnlyWrites(s, t, id) && ContinueColumns(s.runs[id], t.runs[id], wall) else t == s
  {
  }

  lemma CancelledExactly(s: State, id: RunId)
    ensures var t := AfterCancel(s, id);
            if id in s.runs && s.runs[id].status in {Created, Running}
            then OnlyWrites(s, t, id) && t.runs[id] == s.runs[id].(status := Cancelled) else t == s
  {
  }

  // ---- the end of an execution ---------------------------------------------

  /** What a completion that is refused says. */
  function Refusal(status: RunStatus): string {
    var name := match status
      case Queued => "queued"
      case Created => "created"
      case Running => "running"
      case Completed => "completed"
      case Failed => "failed"
      case Blocked => "blocked"
      case Cancelled => "cancelled";
    "invalid run status transition: " + name + " -> " + "completed"
  }

  predicate ReportColumns(was: Run, now: Run, outcome: Outcome, wall: int) {
    match outcome
    case Succeeded(summary) =>
      if was.status == Running then now == was.(status := Completed, completedAt := Some(wall), summary := Some(summary))
      else FailureColumns(was, now, Refusal(was.status), "unexpected_error", wall)
    case FailedWith(summary, reason) => FailureColumns(was, now, summary, reason, wall)
    case BlockedWith(summary, escalation) => BlockColumns(was, now, summary, escalation, wall)
  }

  /** Who is released: the holder by a completion, the reporting worker by any other report. */
  function ReleasedBy(was: Run, w: WorkerId, outcome: Outcome): Option<WorkerId> {
    if outcome.Succeeded? && was.status == Running then was.lockedBy else Some(w)
  }

  lemma FailureReportColumns(run: Run, summary: string, reason: string, wall: int)
    ensures FailureColumns(run, FailureReported(run, summary, reason, wall), summary, reason, wall)
  {
  }

  lemma RefusalText(status: RunStatus)
    ensures RefusedText(status, Completed) == Refusal(status)
  {
  }

  lemma FreedReleases(workers: map<WorkerId, Worker>, holder: Option<WorkerId>, available: bool, wall: int)
    ensures OnlyReleases(workers, FreedHolder(workers, holder, available, wall), holder, available, wall)
  {
  }

  /** A report decides alone what becomes of the run, and who is released. */
  lemma ReportExactly(s: State, id: RunId, w: WorkerId, outcome: Outcome, available: bool, wall: int)
    requires id in s.runs
    ensures var t := AfterReport(s, id, w, outcome, available, wall);
            && t.runs.Keys == s.runs.Keys && (forall j :: j in s.runs && j != id ==> t.runs[j] == s.runs[j])
            && ReportColumns(s.runs[id], t.runs[id], outcome, wall)
            && OnlyReleases(s.workers, t.workers, ReleasedBy(s.runs[id], w, outcome), available, wall)
  {
    hide RefusedText, Refusal, FailureColumns, FailureReported, OnlyReleases, Released;
    var run := s.runs[id];
    RefusalText(run.status);
    FreedReleases(s.workers, ReleasedBy(run, w, outcome), available, wall);
    match outcome
    case Succeeded(_) => FailureReportColumns(run, Refusal(run.status), "unexpected_error", wall);
    case FailedWith(summary, reason) => FailureReportColumns(run, summary, reason, wall);
    case BlockedWith(_, _) =>
  }
}
