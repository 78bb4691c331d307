/** Histories in which the runtime goes wrong, each from the empty tables. */
module RuntimeWitnesses {
  import opened Wrappers
  import opened RuntimeState
  import opened RuntimeInvariants
  import opened RuntimeLoop

  const A_RUN: Submission := Submission(CODEX_LOCAL, 0, false)
  const RETRIED_RUN: Submission := Submission(CODEX_LOCAL, 1, false)

  const SIGN_UP_A: Op := Register("a", CODEX_LOCAL, Idle, 0)
  const SIGN_UP_B: Op := Register("b", CODEX_LOCAL, Idle, 0)
  const START_NEXT: Op := StartNextAt(0)

  function StartNextAt(at: int): Op {
    Dispatch(at, at, HEALTH_WINDOW_SECONDS, true)
  }

  /** One queued run, and the least worker that can take it. */
  lemma OnlyChoice(s: State, id: RunId, w: WorkerId, run: Run, at: int)
    requires id in s.runs && s.runs[id] == run && run.status == Queued && run.workerType == Some(CODEX_LOCAL)
    requires forall j :: j in s.runs && s.runs[j].status == Queued ==> j == id
    requires CanTake(s, w, run, at, HEALTH_WINDOW_SECONDS)
    requires forall v: WorkerId :: CanTake(s, v, run, at, HEALTH_WINDOW_SECONDS) ==> WorkerLeq(w, v)
    ensures Choice(s, at, HEALTH_WINDOW_SECONDS, true) == Some((id, w))
  {
    assert IsChoice(s, id, w, at, HEALTH_WINDOW_SECONDS, true);
    ChoiceUnique(s, id, w, at, HEALTH_WINDOW_SECONDS, true);
  }

  /** The idle worker "a" is the least. */
  lemma StartsOnA(s: State, id: RunId, at: int)
    requires id in s.runs && s.runs[id].status == Queued && s.runs[id].workerType == Some(CODEX_LOCAL)
    requires forall j :: j in s.runs && s.runs[j].status == Queued ==> j == id
    requires s.workers.Keys <= {"a", "b"} && "a" in s.workers
    requires s.workers["a"].status == Idle && s.workers["a"].workerType == CODEX_LOCAL && s.workers["a"].lastHeartbeat == at
    ensures Choice(s, at, HEALTH_WINDOW_SECONDS, true) == Some((id, "a"))
    ensures Step(s, StartNextAt(at)) == AfterStart(s, id, "a", at, at, HEALTH_WINDOW_SECONDS)
  {
    forall v: WorkerId | v in s.workers ensures WorkerLeq("a", v) {
      assert v == "a" || v == "b";
    }
    OnlyChoice(s, id, "a", s.runs[id], at);
  }

  lemma Unfold(s: State, op: Op, rest: seq<Op>)
    ensures Exec(s, [op] + rest) == Exec(Step(s, op), rest)
    ensures Valid(s, [op] + rest) <==> Enabled(s, op) && Valid(Step(s, op), rest)
  {
    assert ([op] + rest)[1..] == rest;
  }

  // ---- two loops -----------------------------------------------------------

  ghost const FIRST_BOOKING: seq<Op> := [SIGN_UP_A] + ([SIGN_UP_B] + ([Submit(1, A_RUN, 0)] + ([START_NEXT] + [])))
  ghost const SECOND_BOOKING: seq<Op> := [SIGN_UP_A] + ([Submit(2, A_RUN, 0)] + ([START_NEXT] + []))

  lemma FirstBooking() returns (s: State)
    ensures s == Exec(EMPTY, FIRST_BOOKING) && Invariant(s)
    ensures s.workers.Keys == {"a", "b"} && s.runs.Keys == {1} && AssignedTo(s, 1, "a")
    ensures s.workers["a"].activeRun == Some(1)
  {
    var s1 := Step(EMPTY, SIGN_UP_A);
    var s2 := Step(s1, SIGN_UP_B);
    var s3 := Step(s2, Submit(1, A_RUN, 0));
    StartsOnA(s3, 1, 0);
    s := Step(s3, START_NEXT);
    Unfold(EMPTY, SIGN_UP_A, [SIGN_UP_B] + ([Submit(1, A_RUN, 0)] + ([START_NEXT] + [])));
    Unfold(s1, SIGN_UP_B, [Submit(1, A_RUN, 0)] + ([START_NEXT] + []));
    Unfold(s2, Submit(1, A_RUN, 0), [START_NEXT] + []);
    Unfold(s3, START_NEXT, []);
    ExecKeepsInvariant(EMPTY, FIRST_BOOKING);
  }

  /** The dispatcher picks the least idle worker, not the loop's own. Two loops `a` and `b`: `b` starts run 1 on
      worker `a`, loop `a` then signs up as idle again, which is the one step a caller must not take,
      and run 2 is started on the same worker. */
  lemma TwoLoopsCanDoubleBook()
    ensures Invariant(Exec(EMPTY, FIRST_BOOKING)) && !Enabled(Exec(EMPTY, FIRST_BOOKING), SECOND_BOOKING[0])
    ensures var after := Exec(Exec(EMPTY, FIRST_BOOKING), SECOND_BOOKING);
            AssignedTo(after, 1, "a") && AssignedTo(after, 2, "a")
  {
    var s := FirstBooking();
    var s5 := Step(s, SIGN_UP_A);
    var s6 := Step(s5, Submit(2, A_RUN, 0));
    StartsOnA(s6, 2, 0);
    Unfold(s, SIGN_UP_A, [Submit(2, A_RUN, 0)] + ([START_NEXT] + []));
    Unfold(s5, Submit(2, A_RUN, 0), [START_NEXT] + []);
    Unfold(s6, START_NEXT, []);
  }

  // ---- a step that takes long ----------------------------------------------

  const LATE: int := STALE_AFTER_SECONDS + 1
  const SWEEP_LATE: Op := Sweep(LATE, LATE, STALE_AFTER_SECONDS, true)
  const START_LATE: Op := StartNextAt(LATE)

  ghost const SLOW_STEP: seq<Op> := [SIGN_UP_A] + ([Submit(1, RETRIED_RUN, 0)] + ([START_NEXT] + ([SWEEP_LATE] + [])))

  lemma UnderWay() returns (s: State)
    ensures s == Step(Step(Step(EMPTY, SIGN_UP_A), Submit(1, RETRIED_RUN, 0)), START_NEXT)
    ensures s.runs.Keys == {1} && AssignedTo(s, 1, "a") && s.workers.Keys == {"a"} && s.workers["a"].workerType == CODEX_LOCAL
    ensures s.runs[1].workerType == Some(CODEX_LOCAL) && s.runs[1].attempt == 1 && s.runs[1].maxRetries == 1
    ensures s.runs[1].heartbeatAt == Some(0)
  {
    var s2 := Step(Step(EMPTY, SIGN_UP_A), Submit(1, RETRIED_RUN, 0));
    StartsOnA(s2, 1, 0);
    s := Step(s2, START_NEXT);
  }

  lemma SweptInFlight() returns (s: State)
    ensures s == Exec(EMPTY, SLOW_STEP) && Valid(EMPTY, SLOW_STEP)
    ensures s.runs.Keys == {1} && s.runs[1].status == Queued && s.runs[1].attempt == 1
    ensures s.runs[1].workerType == Some(CODEX_LOCAL) && s.workers.Keys == {"a"} && s.workers["a"].status == Idle
    ensures s.workers["a"].workerType == CODEX_LOCAL && s.workers["a"].lastHeartbeat == LATE
  {
    hide Exec, Valid, AfterDispatch;
    var s1 := Step(EMPTY, SIGN_UP_A);
    var s2 := Step(s1, Submit(1, RETRIED_RUN, 0));
    var s3 := UnderWay();
    assert Stale(s3.runs[1], LATE, STALE_AFTER_SECONDS) && HoldsStale(s3, "a", LATE, STALE_AFTER_SECONDS);
    s := Step(s3, SWEEP_LATE);
    Unfold(EMPTY, SIGN_UP_A, [Submit(1, RETRIED_RUN, 0)] + ([START_NEXT] + ([SWEEP_LATE] + [])));
    Unfold(s1, Submit(1, RETRIED_RUN, 0), [START_NEXT] + ([SWEEP_LATE] + []));
    Unfold(s2, START_NEXT, [SWEEP_LATE] + []);
    Unfold(s3, SWEEP_LATE, []);
    Done(s);
  }

  lemma Done(s: State)
    ensures Exec(s, []) == s && Valid(s, [])
  {
  }

  /** An execution sends no heartbeat while one of its steps is under way. Loop `a` executes run 1; when a step takes
      longer than 30 seconds, the sweep of another loop requeues the run and the next dispatch starts it a second time,
      although no execution has ended and every caller did what it must. */
  lemma SlowStepRunsTwice()
    ensures Valid(EMPTY, SLOW_STEP) && Valid(Exec(EMPTY, SLOW_STEP), [START_LATE])
    ensures forall op :: op in SLOW_STEP ==> !op.Report? && !op.Complete? && !op.Fail? && !op.Cancel?
    ensures var after := Exec(Exec(EMPTY, SLOW_STEP), [START_LATE]);
            AssignedTo(after, 1, "a") && after.runs[1].attempt == 2
  {
    hide Exec, Valid;
    var s := SweptInFlight();
    StartsOnA(s, 1, LATE);
    Unfold(s, START_LATE, []);
    Done(Step(s, START_LATE));
    assert [START_LATE] + [] == [START_LATE];
  }

  // ---- a cancelled run runs again ------------------------------------------

  ghost const CANCELLED: seq<Op> := [SIGN_UP_A] + ([Submit(1, RETRIED_RUN, 0)] + ([START_NEXT] + ([Cancel(1)] + [])))
  ghost const REVIVED: seq<Op> := [Report(1, "a", Succeeded("done"), true, 0)] + ([START_NEXT] + [])

  lemma CancelledInFlight() returns (s: State)
    ensures s == Exec(EMPTY, CANCELLED) && Valid(EMPTY, CANCELLED)
    ensures s.runs.Keys == {1} && s.runs[1].status == Cancelled && Has(s, 1, "a") && s.workers.Keys == {"a"}
    ensures s.runs[1].workerType == Some(CODEX_LOCAL) && s.runs[1].attempt == 1 && s.runs[1].maxRetries == 1
    ensures s.workers["a"].workerType == CODEX_LOCAL
  {
    var s1 := Step(EMPTY, SIGN_UP_A);
    var s2 := Step(s1, Submit(1, RETRIED_RUN, 0));
    StartsOnA(s2, 1, 0);
    var s3 := Step(s2, START_NEXT);
    s := Step(s3, Cancel(1));
    Unfold(EMPTY, SIGN_UP_A, [Submit(1, RETRIED_RUN, 0)] + ([START_NEXT] + ([Cancel(1)] + [])));
    Unfold(s1, Submit(1, RETRIED_RUN, 0), [START_NEXT] + ([Cancel(1)] + []));
    Unfold(s2, START_NEXT, [Cancel(1)] + []);
    Unfold(s3, Cancel(1), []);
  }

  /** A run is cancelled while it is executed. The execution succeeds, the transition table refuses COMPLETED, the
      refusal is reported as a failure, the failure requeues the run, and it is started a second time. */
  lemma CancelledRunRunsAgain()
    ensures Valid(EMPTY, CANCELLED) && 1 in Exec(EMPTY, CANCELLED).runs
    ensures Exec(EMPTY, CANCELLED).runs[1].status == Cancelled
    ensures Valid(Exec(EMPTY, CANCELLED), REVIVED) && ReportsOnCancelled(Exec(EMPTY, CANCELLED), REVIVED[0])
    ensures var after := Exec(Exec(EMPTY, CANCELLED), REVIVED);
            AssignedTo(after, 1, "a") && after.runs[1].attempt == 2
  {
    var s := CancelledInFlight();
    var s5 := Step(s, REVIVED[0]);
    StartsOnA(s5, 1, 0);
    Unfold(s, REVIVED[0], [START_NEXT] + []);
    Unfold(s5, START_NEXT, []);
  }

  // ---- an execution is cut off ---------------------------------------------

  /** One loop, one worker; the first execution escapes after its first commit. */
  ghost const ESCAPED: seq<Event> :=
    [SignUp("a", true, 0)] + ([Request(Submits(1, A_RUN, 0))] + ([DispatchNext(0, true)] + ([Escape] + [])))
  ghost const GOES_ON: seq<Event> :=
    [SignUp("a", true, 0)] + ([Request(Submits(2, A_RUN, 0))] + ([DispatchNext(0, true)] + []))

  lemma UnfoldEvent(v: Service, e: Event, rest: seq<Event>)
    ensures AfterAll(v, [e] + rest) == AfterAll(After(v, e), rest)
  {
    assert ([e] + rest)[1..] == rest;
  }

  lemma EscapedOnce() returns (v: Service)
    ensures v == AfterAll(Service(EMPTY, None), ESCAPED) && v.flight.None?
    ensures v.tables.runs.Keys == {1} && v.tables.workers.Keys == {"a"} && AssignedTo(v.tables, 1, "a")
  {
    var v0 := Service(EMPTY, None);
    var v1 := After(v0, SignUp("a", true, 0));
    var v2 := After(v1, Request(Submits(1, A_RUN, 0)));
    StartsOnA(v2.tables, 1, 0);
    var v3 := After(v2, DispatchNext(0, true));
    v := After(v3, Escape);
    UnfoldEvent(v0, SignUp("a", true, 0), [Request(Submits(1, A_RUN, 0))] + ([DispatchNext(0, true)] + ([Escape] + [])));
    UnfoldEvent(v1, Request(Submits(1, A_RUN, 0)), [DispatchNext(0, true)] + ([Escape] + []));
    UnfoldEvent(v2, DispatchNext(0, true), [Escape] + []);
    UnfoldEvent(v3, Escape, []);
  }

  /** The loop signs its worker up as idle although a run is still RUNNING on it, and starts another one there. */
  lemma EscapeCanDoubleBook()
    ensures var after := AfterAll(AfterAll(Service(EMPTY, None), ESCAPED), GOES_ON).tables;
            AssignedTo(after, 1, "a") && AssignedTo(after, 2, "a")
  {
    var v := EscapedOnce();
    var v5 := After(v, SignUp("a", true, 0));
    var v6 := After(v5, Request(Submits(2, A_RUN, 0)));
    StartsOnA(v6.tables, 2, 0);
    UnfoldEvent(v, SignUp("a", true, 0), [Request(Submits(2, A_RUN, 0))] + ([DispatchNext(0, true)] + []));
    UnfoldEvent(v5, Request(Submits(2, A_RUN, 0)), [DispatchNext(0, true)] + []);
    UnfoldEvent(v6, DispatchNext(0, true), []);
  }
}
