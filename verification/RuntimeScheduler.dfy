/** The runtime operations as the service performs them on its two tables, one method a function of the source.
    Each method is proved to do what `RuntimeState` says of the whole state, and to write the columns it should. */
module RuntimeScheduler {
  import opened Wrappers
  import opened Ordering
  import opened RuntimeColumns
  import opened RuntimeState
  import opened RuntimeLoop
  import opened RuntimeInvariants

  class Runtime {
    var runs: map<RunId, Run>
    var workers: map<WorkerId, Worker>

    ghost function Snapshot(): State
      reads this
    {
      State(runs, workers)
    }

    constructor ()
      ensures Snapshot() == State(map[], map[])
    {
      runs := map[];
      workers := map[];
    }

    // ---- core/runtime_workers.py -------------------------------------------

    method RegisterWorker(w: WorkerId, workerType: string, status: WorkerStatus, at: int)
      modifies this
      ensures Snapshot() == AfterRegister(old(Snapshot()), w, workerType, status, at)
      ensures runs == old(runs) && w in workers && workers == old(workers)[w := workers[w]]
      ensures workers[w].workerType == workerType && workers[w].status == status && workers[w].lastHeartbeat == at
      ensures workers[w].activeRun == if w in old(workers) then old(workers)[w].activeRun else None
    {
      if w !in workers {
        workers := workers[w := Worker(workerType, Idle, at, None)];
      }
      workers := workers[w := workers[w].(workerType := workerType)];
      workers := workers[w := workers[w].(status := status)];
      workers := workers[w := workers[w].(lastHeartbeat := at)];
    }

    method Heartbeat(w: WorkerId, wall: int) returns (found: bool)
      modifies this
      ensures found == (w in old(workers))
      ensures Snapshot() == AfterWorkerHeartbeat(old(Snapshot()), w, wall)
      ensures runs == old(runs) && workers.Keys == old(workers).Keys
      ensures forall v :: v in workers && v != w ==> workers[v] == old(workers)[v]
      ensures found ==> BeatColumns(old(workers)[w], workers[w], wall)
    {
      found := w in workers;
      if !found {
        return;
      }
      workers := workers[w := workers[w].(lastHeartbeat := wall)];
      if workers[w].status == Offline {
        workers := workers[w := workers[w].(status := Idle)];
      }
    }

    method MarkWorkerBusy(w: WorkerId, id: RunId, wall: int)
      modifies this
      ensures runs == old(runs)
      ensures workers == if w in old(workers) then old(workers)[w := Engaged(old(workers)[w], id, wall)] else old(workers)
      ensures w in workers ==> BusyColumns(old(workers)[w], workers[w], id, wall)
    {
      if w in workers {
        workers := workers[w := workers[w].(status := Busy)];
        workers := workers[w := workers[w].(activeRun := Some(id), lastHeartbeat := wall)];
      }
    }

    method MarkWorkerIdle(w: WorkerId, available: bool, wall: int)
      modifies this
      ensures runs == old(runs)
      ensures workers == Freed(old(workers), w, available, wall)
      ensures OnlyReleases(old(workers), workers, Some(w), available, wall)
    {
      if w in workers {
        if workers[w].workerType == CODEX_LOCAL && !available {
          workers := workers[w := workers[w].(status := Offline)];
        } else {
          workers := workers[w := workers[w].(status := Idle)];
        }
        workers := workers[w := workers[w].(activeRun := None, lastHeartbeat := wall)];
      }
    }

    method ListHealthyWorkers(workerType: string, current: int, timeout: int) returns (healthy: seq<WorkerId>)
      ensures forall w: WorkerId :: w in healthy <==> w in workers && Healthy(workers[w], workerType, current, timeout)
      ensures SortedBy(healthy, WorkerLeq)
      ensures forall w: WorkerId :: w in healthy <==>
                w in workers && workers[w].workerType == workerType && workers[w].status in {Idle, Busy}
                && current - workers[w].lastHeartbeat <= timeout
      ensures forall i, j :: 0 <= i < j < |healthy| ==> StringLeq(healthy[i], healthy[j])
    {
      var rows: seq<WorkerId> := Enumerate(set w | w in workers && Healthy(workers[w], workerType, current, timeout));
      healthy := Sort<WorkerId>(rows, WorkerLeq);
      WorkerOrderTotal();
      SortSorted<WorkerId>(rows, WorkerLeq);
      SameElements(rows, healthy);
    }

    // ---- core/runtime_execution.py -----------------------------------------

    method SubmitRuntimeRun(id: RunId, submission: Submission, wall: int)
      modifies this
      ensures Snapshot() == AfterSubmit(old(Snapshot()), id, submission, wall)
      ensures workers == old(workers) && id in runs && runs == old(runs)[id := runs[id]]
      ensures if id in old(runs) then runs[id] == old(runs)[id] else SubmitColumns(runs[id], submission, wall)
    {
      if id in runs {
        return;
      }
      runs := runs[id := Run(Queued, 100, wall, Some(wall), Some(submission.workerType), submission.maxRetries,
                             submission.requireReview, 0, None, None, None, None, None, None, None, None, None, false)];
    }

    method TransitionRunStatus(id: RunId, next: RunStatus, wall: int, summary: Option<string>,
                               failure: Option<string>, escalation: Option<string>) returns (ok: bool)
      requires id in runs
      modifies this
      ensures ok == MayFollow(old(runs)[id].status, next)
      ensures ok <==> (old(runs)[id].status, next) in TRANSITIONS
      ensures workers == old(workers)
      ensures id in runs && runs == old(runs)[id := runs[id]]
      ensures if ok then TransitionColumns(old(runs)[id], runs[id], next, wall, summary, failure, escalation)
              else runs[id] == old(runs)[id]
      ensures runs == if ok then old(runs)[id := Transitioned(old(runs)[id], next, wall, summary, failure, escalation)]
                      else old(runs)
    {
      ok := MayFollow(runs[id].status, next);
      if !ok {
        return;
      }
      var run := runs[id].(status := next);
      if next == Running && run.startedAt.None? {
        run := run.(startedAt := Some(wall));
      }
      if Terminal(next) {
        run := run.(completedAt := Some(wall));
      }
      if summary.Some? {
        run := run.(summary := summary);
      }
      if failure.Some? {
        run := run.(failureReason := failure);
      }
      if escalation.Some? {
        run := run.(escalationReason := escalation);
      }
      runs := runs[id := run];
    }

    /** The QUEUED rows with a worker type, in the order of the dispatch query. */
    method QueuedRuns() returns (queued: seq<(RunId, Run)>)
      ensures forall row :: row in queued ==> row.0 in runs && runs[row.0] == row.1
      ensures forall id :: id in runs && runs[id].status == Queued && runs[id].workerType.Some? ==> (id, runs[id]) in queued
      ensures forall row :: row in queued ==> row.1.status == Queued && row.1.workerType.Some?
      ensures SortedBy(queued, QueueLeq)
    {
      var rows := Enumerate(set id | id in runs && runs[id].status == Queued && runs[id].workerType.Some? :: (id, runs[id]));
      queued := Sort(rows, QueueLeq);
      QueueOrderTotal();
      SortSorted(rows, QueueLeq);
      SameElements(rows, queued);
    }

    /** Starts the first run of the queue that some worker can take, on the least such worker. */
    method DispatchQueuedRun(current: int, wall: int, timeout: int, available: bool) returns (picked: Option<RunId>)
      modifies this
      ensures Snapshot() == AfterDispatch(old(Snapshot()), current, wall, timeout, available)
      ensures match Choice(old(Snapshot()), current, timeout, available)
              case Some(pick) => picked == Some(pick.0)
              case None => picked == None
      ensures match picked
              case Some(id) => exists w: WorkerId :: Starts(old(Snapshot()), Snapshot(), id, w, current, wall, timeout, available)
              case None => Snapshot() == old(Snapshot())
                           && forall j: RunId, v: WorkerId :: !CouldStart(Snapshot(), j, v, current, timeout, available)
    {
      hide Starts, CouldStart;
      ghost var s := Snapshot();
      var queued := QueuedRuns();
      for i := 0 to |queued|
        invariant Snapshot() == s
        invariant forall k :: 0 <= k < i ==> !Dispatchable(s, queued[k].0, current, timeout, available)
      {
        var id := queued[i].0;
        if !Accepted(runs[id], available) {
          continue;
        }
        var healthy := ListHealthyWorkers(runs[id].workerType.value, current, timeout);
        var worker := FirstIdle(healthy);
        if worker.None? {
          continue;
        }
        FirstInQueueIsChoice(s, queued, i, worker.value, current, timeout, available);
        ChoiceColumns(s, id, worker.value, current, wall, timeout, available);
        StartRun(id, worker.value, current, wall, timeout);
        return Some(id);
      }
      forall j: RunId ensures !Dispatchable(s, j, current, timeout, available) {
        assert j in s.runs && s.runs[j].status == Queued && s.runs[j].workerType.Some? ==> (j, s.runs[j]) in queued;
      }
      DispatchChoiceIsSound(s, current, timeout, available);
      NobodyCouldStart(s, current, timeout, available);
      return None;
    }

    method StartRun(id: RunId, w: WorkerId, current: int, wall: int, timeout: int)
      requires id in runs && runs[id].status == Queued && w in workers
      modifies this
      ensures Snapshot() == AfterStart(old(Snapshot()), id, w, current, wall, timeout)
      ensures id in runs && runs == old(runs)[id := runs[id]] && w in workers && workers == old(workers)[w := workers[w]]
      ensures DispatchColumns(old(runs)[id], runs[id], w, current, wall, timeout)
      ensures BusyColumns(old(workers)[w], workers[w], id, wall)
    {
      var _ := TransitionRunStatus(id, Running, wall, None, None, None);
      runs := runs[id := runs[id].(lockedBy := Some(w), heartbeatAt := Some(current))];
      runs := runs[id := runs[id].(lockedAt := Some(current), leaseExpiresAt := Some(current + timeout))];
      runs := runs[id := runs[id].(attempt := runs[id].attempt + 1)];
      MarkWorkerBusy(w, id, wall);
    }

    method FirstIdle(candidates: seq<WorkerId>) returns (found: Option<WorkerId>)
      requires forall w :: w in candidates ==> w in workers
      requires SortedBy(candidates, WorkerLeq)
      ensures match found
              case Some(w) => w in candidates && workers[w].status == Idle
                              && forall v :: v in candidates && workers[v].status == Idle ==> WorkerLeq(w, v)
              case None => forall v :: v in candidates ==> workers[v].status != Idle
    {
      for i := 0 to |candidates|
        invariant forall k :: 0 <= k < i ==> workers[candidates[k]].status != Idle
      {
        if workers[candidates[i]].status == Idle {
          WorkerOrderTotal();
          forall v | v in candidates && workers[v].status == Idle ensures WorkerLeq(candidates[i], v) {
            var k :| 0 <= k < |candidates| && candidates[k] == v;
          }
          return Some(candidates[i]);
        }
      }
      return None;
    }

    method RecordRunHeartbeat(w: WorkerId, id: RunId, wall: int)
      modifies this
      ensures Snapshot() == AfterRunHeartbeat(old(Snapshot()), w, id, wall)
      ensures runs.Keys == old(runs).Keys && workers.Keys == old(workers).Keys
      ensures forall v :: v in workers ==>
                if v == w then BeatColumns(old(workers)[v], workers[v], wall) else workers[v] == old(workers)[v]
      ensures forall j :: j in runs ==>
                runs[j] == if j == id && w in workers && old(runs)[j].lockedBy == Some(w)
                           then old(runs)[j].(heartbeatAt := Some(wall), leaseExpiresAt := Some(wall + 90)) else old(runs)[j]
    {
      var found := Heartbeat(w, wall);
      if !found || id !in runs || runs[id].lockedBy != Some(w) {
        return;
      }
      runs := runs[id := runs[id].(heartbeatAt := Some(wall))];
      runs := runs[id := runs[id].(leaseExpiresAt := Some(wall + HEALTH_WINDOW_SECONDS))];
    }

    /** `ok` is false where the source raises: no such run, or a forbidden transition. */
    method CompleteRun(id: RunId, summary: Option<string>, available: bool, wall: int) returns (ok: bool)
      modifies this
      ensures ok == (id in old(runs) && old(runs)[id].status == Running)
      ensures Snapshot() == AfterComplete(old(Snapshot()), id, summary, available, wall)
      ensures !ok ==> Snapshot() == old(Snapshot())
      ensures ok ==> id in runs && runs == old(runs)[id := runs[id]]
                     && runs[id] == old(runs)[id].(status := Completed, completedAt := Some(wall), summary := runs[id].summary)
                     && runs[id].summary == (if summary == None then old(runs)[id].summary else summary)
                     && OnlyReleases(old(workers), workers, old(runs)[id].lockedBy, available, wall)
    {
      if id !in runs {
        return false;
      }
      ok := TransitionRunStatus(id, Completed, wall, summary, None, None);
      if ok && runs[id].lockedBy.Some? {
        MarkWorkerIdle(runs[id].lockedBy.value, available, wall);
      }
    }

    method FailRun(id: RunId, summary: Option<string>, failure: Option<string>, escalation: Option<string>,
                   available: bool, wall: int) returns (ok: bool)
      modifies this
      ensures ok == (id in old(runs) && MayFollow(old(runs)[id].status, if Escalates(escalation) then Blocked else Failed))
      ensures Snapshot() == AfterFail(old(Snapshot()), id, summary, failure, escalation, available, wall)
      ensures !ok ==> Snapshot() == old(Snapshot())
      ensures ok ==> id in runs && runs == old(runs)[id := runs[id]]
                     && TransitionColumns(old(runs)[id], runs[id], if escalation in {None, Some("")} then Failed else Blocked,
                                          wall, summary, failure, escalation)
                     && OnlyReleases(old(workers), workers, old(runs)[id].lockedBy, available, wall)
    {
      if id !in runs {
        return false;
      }
      var target := if Escalates(escalation) then Blocked else Failed;
      ok := TransitionRunStatus(id, target, wall, summary, failure, escalation);
      if ok && runs[id].lockedBy.Some? {
        MarkWorkerIdle(runs[id].lockedBy.value, available, wall);
      }
    }

    method RequestPauseRun(id: RunId, wall: int) returns (ok: bool)
      modifies this
      ensures ok == (id in old(runs))
      ensures Snapshot() == AfterPause(old(Snapshot()), id, wall)
      ensures workers == old(workers) && (!ok ==> runs == old(runs))
      ensures ok ==> id in runs && runs == old(runs)[id := runs[id]] && PauseColumns(old(runs)[id], runs[id], wall)
    {
      ok := id in runs;
      if !ok {
        return;
      }
      runs := runs[id := runs[id].(pauseRequested := true)];
      if runs[id].status == Queued {
        var _ := TransitionRunStatus(id, Blocked, wall, Some("Run paused before execution."), None, Some("paused_by_user"));
      } else {
        runs := runs[id := runs[id].(summary := Some("Pause requested. Run will block at the next safe checkpoint."))];
      }
    }

    method ContinueBlockedRun(id: RunId, wall: int) returns (ok: bool)
      modifies this
      ensures ok == (id in old(runs) && MayFollow(old(runs)[id].status, Queued))
      ensures Snapshot() == AfterContinue(old(Snapshot()), id, wall)
      ensures workers == old(workers) && (!ok ==> runs == old(runs))
      ensures ok ==> id in runs && runs == old(runs)[id := runs[id]] && ContinueColumns(old(runs)[id], runs[id], wall)
    {
      if id !in runs {
        return false;
      }
      ok := TransitionRunStatus(id, Queued, wall, Some("Run re-queued from conversation hold."), None, None);
      if ok {
        runs := runs[id := runs[id].(pauseRequested := false, completedAt := None, startedAt := None)];
        runs := runs[id := runs[id].(lockedBy := None, lockedAt := None, leaseExpiresAt := None, heartbeatAt := None)];
        runs := runs[id := runs[id].(failureReason := None, escalationReason := None, queuedAt := Some(wall))];
      }
    }

    method HandleStaleHeartbeats(current: int, wall: int, staleAfter: int, available: bool) returns (updated: seq<RunId>)
      modifies this
      ensures Snapshot() == AfterSweep(old(Snapshot()), current, wall, staleAfter, available)
      ensures forall id :: id in updated <==> id in old(runs) && Stale(old(runs)[id], current, staleAfter)
      ensures SweepsAll(old(Snapshot()), Snapshot(), current, wall, staleAfter, available)
    {
      ghost var s := Snapshot();
      updated := Enumerate(set id | id in runs && Stale(runs[id], current, staleAfter));
      for i := 0 to |updated|
        invariant Snapshot() == SweptSome(s, updated[..i], current, wall, available)
      {
        var id := updated[i];
        assert id in updated && id !in updated[..i];
        assert updated[..i + 1] == updated[..i] + [id];
        SweepRun(id, current, wall, available);
        SweptOneMore(s, updated[..i], id, current, wall, available);
      }
      assert updated[..|updated|] == updated;
      SweptAll(s, updated, current, wall, staleAfter, available);
      SweepExactly(s, current, wall, staleAfter, available);
    }

    method SweepRun(id: RunId, current: int, wall: int, available: bool)
      requires id in runs
      modifies this
      ensures runs == old(runs)[id := Swept(old(runs)[id], current)]
      ensures workers == FreedHolder(old(workers), old(runs)[id].lockedBy, available, wall)
      ensures SweepColumns(old(runs)[id], runs[id], current)
      ensures OnlyReleases(old(workers), workers, old(runs)[id].lockedBy, available, wall)
    {
      hide SweepColumns;
      SweptColumns(runs[id], current);
      var run := runs[id].(failureReason := Some("worker_unresponsive"));
      if run.lockedBy.Some? {
        MarkWorkerIdle(run.lockedBy.value, available, wall);
      }
      if run.summary.None? || run.summary.value == "" {
        run := run.(summary := Some("Worker heartbeat timed out."));
      }
      if MayRetry(run) {
        run := run.(status := Queued, queuedAt := Some(current), heartbeatAt := None);
        run := run.(lockedBy := None, lockedAt := None, leaseExpiresAt := None);
      } else if run.requireReview {
        run := run.(status := Blocked, completedAt := Some(current), escalationReason := Some("human_review_required"));
      } else {
        run := run.(status := Failed, completedAt := Some(current));
      }
      runs := runs[id := run];
    }

    // ---- core/codex_local_worker.py ----------------------------------------

    method HandleFailure(id: RunId, w: WorkerId, summary: string, reason: string, available: bool, wall: int)
      requires id in runs
      modifies this
      ensures Snapshot() == AfterFailureReport(old(Snapshot()), id, w, summary, reason, available, wall)
      ensures id in runs && runs == old(runs)[id := runs[id]] && FailureColumns(old(runs)[id], runs[id], summary, reason, wall)
      ensures OnlyReleases(old(workers), workers, Some(w), available, wall)
    {
      var run := runs[id];
      if MayRetry(run) {
        run := run.(status := Queued, summary := Some(summary), failureReason := Some(reason), queuedAt := Some(wall));
        run := run.(heartbeatAt := None, lockedBy := None, lockedAt := None, leaseExpiresAt := None);
      } else {
        run := run.(status := Failed, completedAt := Some(wall), summary := Some(summary), failureReason := Some(reason));
        if run.requireReview {
          run := run.(escalationReason := Some("human_review_required_after_failure"));
        }
      }
      runs := runs[id := run];
      MarkWorkerIdle(w, available, wall);
    }

    method MarkBlocked(id: RunId, w: WorkerId, summary: string, escalation: string, available: bool, wall: int)
      requires id in runs
      modifies this
      ensures Snapshot() == AfterBlockReport(old(Snapshot()), id, w, summary, escalation, available, wall)
      ensures id in runs && runs == old(runs)[id := runs[id]] && BlockColumns(old(runs)[id], runs[id], summary, escalation, wall)
      ensures OnlyReleases(old(workers), workers, Some(w), available, wall)
    {
      runs := runs[id := runs[id].(status := Blocked, completedAt := Some(wall), summary := Some(summary))];
      runs := runs[id := runs[id].(escalationReason := Some(escalation))];
      MarkWorkerIdle(w, available, wall);
    }

    /** Beats at every commit of a step, with requests of clients in between, then reports, unless an exception escapes
        first. `ok` is false where `_ensure_assigned_run` raises. */
    method ExecuteCodexLocalRun(id: RunId, w: WorkerId, beats: seq<Beat>, ending: Ending, available: bool, wall: int)
      returns (ok: bool)
      modifies this
      ensures ok == AssignedTo(old(Snapshot()), id, w)
      ensures ok <==> id in old(runs) && old(runs)[id].status == Running && old(runs)[id].lockedBy == Some(w)
      ensures !ok ==> Snapshot() == old(Snapshot())
      ensures Snapshot() == AfterAssignedRun(old(Snapshot()), id, w, beats, ending, available, wall)
    {
      hide AfterClients, AfterRunHeartbeat, AfterComplete, AfterFailureReport, AfterBlockReport;
      ok := id in runs && runs[id].status == Running && runs[id].lockedBy == Some(w);
      if !ok {
        return;
      }
      ghost var s := Snapshot();
      for i := 0 to |beats|
        invariant id in runs
        invariant AfterBeats(Snapshot(), w, id, beats[i..]) == AfterBeats(s, w, id, beats)
      {
        assert beats[i..][1..] == beats[i + 1..];
        ghost var before := Snapshot();
        RecordRunHeartbeat(w, id, beats[i].at);
        BeatKeepsRows(before, w, id, beats[i].at);
        Serve(beats[i].meanwhile);
      }
      if ending.Reports? {
        EndExecution(id, w, ending.outcome, available, wall);
      }
    }

    method EndExecution(id: RunId, w: WorkerId, outcome: Outcome, available: bool, wall: int)
      requires id in runs
      modifies this
      ensures Snapshot() == AfterReport(old(Snapshot()), id, w, outcome, available, wall)
      ensures id in runs && runs == old(runs)[id := runs[id]] && ReportColumns(old(runs)[id], runs[id], outcome, wall)
      ensures OnlyReleases(old(workers), workers, ReleasedBy(old(runs)[id], w, outcome), available, wall)
    {
      hide ReportColumns, OnlyReleases, FailureColumns, BlockColumns;
      ReportExactly(Snapshot(), id, w, outcome, available, wall);
      match outcome
      case Succeeded(summary) =>
        ghost var s := Snapshot();
        var completed := CompleteRun(id, Some(summary), available, wall);
        if !completed {
          assert Snapshot() == s;
          HandleFailure(id, w, RefusedText(runs[id].status, Completed), "unexpected_error", available, wall);
        }
      case FailedWith(summary, reason) =>
        HandleFailure(id, w, summary, reason, available, wall);
      case BlockedWith(summary, escalation) =>
        MarkBlocked(id, w, summary, escalation, available, wall);
    }

    method ProcessRuntimeCycle(w: WorkerId, turn: Turn)
      modifies this
      ensures Snapshot() == AfterCycle(old(Snapshot()), w, turn)
    {
      var _ := Heartbeat(w, turn.wall);
      var _ := HandleStaleHeartbeats(turn.wall, turn.wall, STALE_AFTER_SECONDS, turn.available);
      var dispatched := DispatchQueuedRun(turn.wall, turn.wall, HEALTH_WINDOW_SECONDS, turn.available);
      if dispatched.Some? {
        var id := dispatched.value;
        var _ := ExecuteCodexLocalRun(id, runs[id].lockedBy.value, turn.beats, turn.ending, turn.available, turn.finish);
      }
    }

    /** One iteration of the loop: sign up, and unless Codex is missing run one cycle. An exception before the first
        commit loses all of it. */
    method RuntimeLoopTurn(w: WorkerId, turn: Turn)
      modifies this
      ensures Snapshot() == AfterTurn(old(Snapshot()), w, turn)
      ensures turn.ending == Escapes && turn.beats == [] ==> Snapshot() == old(Snapshot())
    {
      var committedRuns, committedWorkers := runs, workers;
      RegisterWorker(w, CODEX_LOCAL, if turn.available then Idle else Offline, turn.wall);
      if workers[w].status != Offline {
        ProcessRuntimeCycle(w, turn);
      }
      if turn.ending.Escapes? && turn.beats == [] {
        runs, workers := committedRuns, committedWorkers;
      }
    }

    // ---- core/api/runs.py --------------------------------------------------

    /** `ok` is false where the handler answers with an error. */
    method CancelRun(id: RunId) returns (ok: bool)
      modifies this
      ensures ok == (id in old(runs) && old(runs)[id].status in {Created, Running})
      ensures Snapshot() == AfterCancel(old(Snapshot()), id)
      ensures workers == old(workers) && runs.Keys == old(runs).Keys
      ensures forall j :: j in runs ==>
                runs[j] == if ok && j == id then old(runs)[j].(status := Cancelled) else old(runs)[j]
    {
      ok := id in runs && runs[id].status in {Created, Running};
      if ok {
        runs := runs[id := runs[id].(status := Cancelled)];
      }
    }

    method ContinueRuntimeRun(id: RunId, wall: int) returns (ok: bool)
      modifies this
      ensures ok == (id in old(runs) && old(runs)[id].status == Blocked)
      ensures Snapshot() == AfterContinueRequest(old(Snapshot()), id, wall)
      ensures workers == old(workers) && (!ok ==> runs == old(runs))
      ensures ok ==> id in runs && runs == old(runs)[id := runs[id]] && ContinueColumns(old(runs)[id], runs[id], wall)
    {
      ok := id in runs && runs[id].status == Blocked;
      if ok {
        ok := ContinueBlockedRun(id, wall);
      }
    }

    /** What other sessions commit, one request after the other. */
    method Serve(clients: seq<Client>)
      modifies this
      ensures Snapshot() == AfterClients(old(Snapshot()), clients)
      ensures old(runs).Keys <= runs.Keys
    {
      hide AfterClient;
      ghost var s := Snapshot();
      for i := 0 to |clients|
        invariant AfterClients(Snapshot(), clients[i..]) == AfterClients(s, clients)
        invariant s.runs.Keys <= runs.Keys
      {
        assert clients[i..][1..] == clients[i + 1..];
        ServeOne(clients[i]);
      }
    }

    method ServeOne(client: Client)
      modifies this
      ensures Snapshot() == AfterClient(old(Snapshot()), client)
      ensures workers == old(workers) && old(runs).Keys <= runs.Keys
      ensures forall j :: j in old(runs) && j != client.id ==> runs[j] == old(runs)[j]
      ensures client.id in old(runs) ==> RequestColumns(old(runs)[client.id], runs[client.id], client)
      ensures client.id !in old(runs) ==>
                if client.Submits? then runs == old(runs)[client.id := runs[client.id]]
                                        && SubmitColumns(runs[client.id], client.submission, client.wall)
                else runs == old(runs)
    {
      match client
      case Submits(id, submission, wall) => SubmitRuntimeRun(id, submission, wall);
      case Pauses(id, wall) => var _ := RequestPauseRun(id, wall);
      case Continues(id, wall) => var _ := ContinueRuntimeRun(id, wall);
      case Cancels(id) => var _ := CancelRun(id);
    }
  }

  lemma BeatKeepsRows(s: State, w: WorkerId, id: RunId, wall: int)
    ensures AfterRunHeartbeat(s, w, id, wall).runs.Keys == s.runs.Keys
  {
  }

  /** The run at which the dispatch loop stops is the one the specification asks for. */
  lemma FirstInQueueIsChoice(s: State, queued: seq<(RunId, Run)>, i: nat, w: WorkerId, current: int, timeout: int, available: bool)
    requires i < |queued| && SortedBy(queued, QueueLeq)
    requires forall row :: row in queued ==> row.0 in s.runs && s.runs[row.0] == row.1 && row.1.status == Queued
    requires forall id :: id in s.runs && s.runs[id].status == Queued && s.runs[id].workerType.Some? ==> (id, s.runs[id]) in queued
    requires forall k :: 0 <= k < i ==> !Dispatchable(s, queued[k].0, current, timeout, available)
    requires Accepted(queued[i].1, available) && CanTake(s, w, queued[i].1, current, timeout)
    requires forall v: WorkerId :: CanTake(s, v, queued[i].1, current, timeout) ==> WorkerLeq(w, v)
    ensures Choice(s, current, timeout, available) == Some((queued[i].0, w))
  {
    var id := queued[i].0;
    assert queued[i] in queued;
    forall j: RunId | Dispatchable(s, j, current, timeout, available)
      ensures QueueLeq((id, s.runs[id]), (j, s.runs[j]))
    {
      var m :| 0 <= m < |queued| && queued[m] == (j, s.runs[j]);
    }
    assert IsChoice(s, id, w, current, timeout, available);
    ChoiceUnique(s, id, w, current, timeout, available);
  }

  ghost predicate HoldsOneOf(s: State, ids: seq<RunId>, w: WorkerId) {
    exists id :: id in ids && id in s.runs && s.runs[id].lockedBy == Some(w)
  }

  /** The state in which some of the rows have been swept. */
  ghost function SweptSome(s: State, ids: seq<RunId>, current: int, wall: int, available: bool): State {
    State(map id | id in s.runs :: if id in ids then Swept(s.runs[id], current) else s.runs[id],
          map w | w in s.workers :: if HoldsOneOf(s, ids, w) then Released(s.workers[w], available, wall) else s.workers[w])
  }

  lemma SweptOneMore(s: State, ids: seq<RunId>, id: RunId, current: int, wall: int, available: bool)
    requires id in s.runs && id !in ids
    ensures var t := SweptSome(s, ids, current, wall, available);
            && SweptSome(s, ids + [id], current, wall, available)
            == State(t.runs[id := Swept(t.runs[id], current)], FreedHolder(t.workers, t.runs[id].lockedBy, available, wall))
  {
    var t, u := SweptSome(s, ids, current, wall, available), SweptSome(s, ids + [id], current, wall, available);
    assert u.runs == t.runs[id := Swept(t.runs[id], current)];
    assert id in ids + [id];
    forall w | w in s.workers
      ensures u.workers[w] == FreedHolder(t.workers, s.runs[id].lockedBy, available, wall)[w]
    {
      assert HoldsOneOf(s, ids + [id], w) <==> HoldsOneOf(s, ids, w) || s.runs[id].lockedBy == Some(w);
    }
    assert u.workers == FreedHolder(t.workers, s.runs[id].lockedBy, available, wall);
  }

  lemma SweptAll(s: State, ids: seq<RunId>, current: int, wall: int, staleAfter: int, available: bool)
    requires forall id :: id in ids <==> id in s.runs && Stale(s.runs[id], current, staleAfter)
    ensures SweptSome(s, ids, current, wall, available) == AfterSweep(s, current, wall, staleAfter, available)
  {
    var t, u := SweptSome(s, ids, current, wall, available), AfterSweep(s, current, wall, staleAfter, available);
    assert t.runs == u.runs;
    forall w | w in s.workers ensures HoldsOneOf(s, ids, w) <==> HoldsStale(s, w, current, staleAfter) {
    }
    assert t.workers == u.workers;
  }
}
