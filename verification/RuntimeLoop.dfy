/** The background loop as the sequence of its commits, with other sessions in between, and what becomes of it when an
    iteration is cut off. */
module RuntimeLoop {
  import opened Wrappers
  import opened RuntimeColumns
  import opened RuntimeState
  import opened RuntimeInvariants

  // ---- other sessions ------------------------------------------------------

  /** What the HTTP handlers commit. A retry is a submission under a fresh id. */
  datatype Client =
    | Submits(id: RunId, submission: Submission, wall: int)
    | Pauses(id: RunId, wall: int)
    | Continues(id: RunId, wall: int)
    | Cancels(id: RunId)

  function AfterClient(s: State, c: Client): State {
    match c
    case Submits(id, submission, wall) => AfterSubmit(s, id, submission, wall)
    case Pauses(id, wall) => AfterPause(s, id, wall)
    case Continues(id, wall) => AfterContinueRequest(s, id, wall)
    case Cancels(id) => AfterCancel(s, id)
  }

  function AfterClients(s: State, cs: seq<Client>): State
    decreases |cs|
  {
    if cs == [] then s else AfterClients(AfterClient(s, cs[0]), cs[1..])
  }

  // ---- one iteration -------------------------------------------------------

  /** A commit of an execution, at the start or the end of one of its steps, and what clients commit before the next. */
  datatype Beat = Beat(at: int, meanwhile: seq<Client>)

  /** An execution ends with a report, or an exception escapes from it, or its process dies. */
  datatype Ending = Reports(outcome: Outcome) | Escapes

  /** What the outside world answers during one iteration: the clock when it begins and when the execution ends,
      whether Codex is there, the commits of the execution, and how it ends. */
  datatype Turn = Turn(wall: int, available: bool, beats: seq<Beat>, ending: Ending, finish: int)

  function AfterBeats(s: State, w: WorkerId, id: RunId, beats: seq<Beat>): State
    decreases |beats|
  {
    if beats == [] then s
    else AfterBeats(AfterClients(AfterRunHeartbeat(s, w, id, beats[0].at), beats[0].meanwhile), w, id, beats[1..])
  }

  function AfterAssignedRun(s: State, id: RunId, w: WorkerId, beats: seq<Beat>, ending: Ending,
                            available: bool, wall: int): State
  {
    if !AssignedTo(s, id, w) then s
    else
      var t := AfterBeats(s, w, id, beats);
      if ending.Reports? then AfterReport(t, id, w, ending.outcome, available, wall) else t
  }

  ghost function AfterCycle(s: State, w: WorkerId, turn: Turn): State {
    var beaten := AfterWorkerHeartbeat(s, w, turn.wall);
    var swept := AfterSweep(beaten, turn.wall, turn.wall, STALE_AFTER_SECONDS, turn.available);
    match Choice(swept, turn.wall, HEALTH_WINDOW_SECONDS, turn.available)
    case None => swept
    case Some(pick) =>
      var started := AfterStart(swept, pick.0, pick.1, turn.wall, turn.wall, HEALTH_WINDOW_SECONDS);
      AfterAssignedRun(started, pick.0, pick.1, turn.beats, turn.ending, turn.available, turn.finish)
  }

  /** The first commit is that of the first step of the execution. An exception before it rolls everything back. */
  predicate CutOffEarly(turn: Turn) {
    turn.ending.Escapes? && turn.beats == []
  }

  ghost function AfterTurn(s: State, w: WorkerId, turn: Turn): State {
    var signed := AfterRegister(s, w, CODEX_LOCAL, SignUpStatus(turn.available), turn.wall);
    if CutOffEarly(turn) then s else if turn.available then AfterCycle(signed, w, turn) else signed
  }

  function SignUpStatus(available: bool): (status: WorkerStatus)
    ensures status == Idle <==> available
    ensures status == Offline <==> !available
  {
    if available then Idle else Offline
  }

  // ---- a service with one loop at a time -----------------------------------

  /** The tables, and the run the loop is executing for which worker. */
  datatype Service = Service(tables: State, flight: Option<(RunId, WorkerId)>)

  /** The parts of an iteration, each on its own, and the requests of clients. */
  datatype Event =
    | SignUp(w: WorkerId, available: bool, wall: int)
    | LoopBeat(w: WorkerId, wall: int)
    | SweepStale(wall: int, available: bool)
    | DispatchNext(wall: int, available: bool)
    | RunBeat(wall: int)
    | Ends(outcome: Outcome, available: bool, wall: int)
    | Escape
    | Request(client: Client)

  /** The loop signs up, sweeps and dispatches only between executions; clients come at any time. */
  ghost function After(v: Service, e: Event): Service {
    match e
    case SignUp(w, available, wall) =>
      if v.flight.Some? then v else v.(tables := AfterRegister(v.tables, w, CODEX_LOCAL, SignUpStatus(available), wall))
    case LoopBeat(w, wall) => if v.flight.Some? then v else v.(tables := AfterWorkerHeartbeat(v.tables, w, wall))
    case SweepStale(wall, available) =>
      if v.flight.Some? then v else v.(tables := AfterSweep(v.tables, wall, wall, STALE_AFTER_SECONDS, available))
    case DispatchNext(wall, available) => if v.flight.Some? then v else AfterDispatchNext(v, wall, available)
    case RunBeat(wall) =>
      if v.flight.None? then v
      else v.(tables := AfterRunHeartbeat(v.tables, v.flight.value.1, v.flight.value.0, wall))
    case Ends(outcome, available, wall) =>
      if v.flight.None? then v
      else Service(AfterReport(v.tables, v.flight.value.0, v.flight.value.1, outcome, available, wall), None)
    case Escape => v.(flight := None)
    case Request(client) => v.(tables := AfterClient(v.tables, client))
  }

  ghost function AfterDispatchNext(v: Service, wall: int, available: bool): Service {
    match Choice(v.tables, wall, HEALTH_WINDOW_SECONDS, available)
    case None => v
    case Some(pick) => Service(AfterStart(v.tables, pick.0, pick.1, wall, wall, HEALTH_WINDOW_SECONDS), Some(pick))
  }

  ghost function AfterAll(v: Service, es: seq<Event>): Service
    decreases |es|
  {
    if es == [] then v else AfterAll(After(v, es[0]), es[1..])
  }

  predicate Wellformed(outcome: Outcome) {
    outcome.BlockedWith? ==> outcome.escalation != ""
  }

  /** Every escalation of an execution is a non-empty text. */
  predicate WellformedEvent(e: Event) {
    e.Ends? ==> Wellformed(e.outcome)
  }

  // ---- as long as every execution ends with a report ------------------------

  /** The invariant holds, and no run but the one in flight is RUNNING; its worker has it. */
  ghost predicate Calm(v: Service) {
    && Invariant(v.tables)
    && (forall id :: id in v.tables.runs && v.tables.runs[id].status == Running ==> v.flight.Some? && v.flight.value.0 == id)
    && (v.flight.Some? ==> Has(v.tables, v.flight.value.0, v.flight.value.1))
  }

  /** No worker is busy, or has a run, but the one that executes the run in flight. */
  ghost predicate Tidy(v: Service) {
    forall w :: w in v.tables.workers && (v.tables.workers[w].status == Busy || v.tables.workers[w].activeRun.Some?) ==>
      v.flight.Some? && v.flight.value.1 == w
  }

  lemma SignUpKeepsCalm(v: Service, e: Event)
    requires Calm(v) && e.SignUp?
    ensures Calm(After(v, e)) && (Tidy(v) ==> Tidy(After(v, e)))
  {
    if v.flight.None? {
      assert !HasRunning(v.tables, e.w);
      RegisterSound(v.tables, e.w, CODEX_LOCAL, SignUpStatus(e.available), e.wall);
    }
  }

  lemma LoopBeatKeepsCalm(v: Service, e: Event)
    requires Calm(v) && e.LoopBeat?
    ensures Calm(After(v, e)) && (Tidy(v) ==> Tidy(After(v, e)))
  {
    WorkerHeartbeatSound(v.tables, e.w, e.wall);
  }

  /** With nothing running there is nothing to sweep. */
  lemma NothingToSweep(s: State, wall: int, available: bool)
    requires forall id :: id in s.runs ==> s.runs[id].status != Running
    ensures AfterSweep(s, wall, wall, STALE_AFTER_SECONDS, available) == s
  {
    var t := AfterSweep(s, wall, wall, STALE_AFTER_SECONDS, available);
    assert t.runs == s.runs && t.workers == s.workers;
  }

  lemma SweepKeepsCalm(v: Service, e: Event)
    requires Calm(v) && e.SweepStale?
    ensures Calm(After(v, e)) && (Tidy(v) ==> Tidy(After(v, e)))
  {
    if v.flight.None? {
      NothingToSweep(v.tables, e.wall, e.available);
    }
  }

  lemma DispatchKeepsCalm(v: Service, e: Event)
    requires Calm(v) && e.DispatchNext?
    ensures Calm(After(v, e)) && (Tidy(v) ==> Tidy(After(v, e)))
  {
    if v.flight.None? {
      DispatchChoiceIsSound(v.tables, e.wall, HEALTH_WINDOW_SECONDS, e.available);
      match Choice(v.tables, e.wall, HEALTH_WINDOW_SECONDS, e.available)
      case None =>
      case Some(pick) => StartSound(v.tables, pick.0, pick.1, e.wall, e.wall, HEALTH_WINDOW_SECONDS);
    }
  }

  lemma RunBeatKeepsCalm(v: Service, e: Event)
    requires Calm(v) && e.RunBeat?
    ensures Calm(After(v, e)) && (Tidy(v) ==> Tidy(After(v, e)))
  {
    if v.flight.Some? {
      RunHeartbeatSound(v.tables, v.flight.value.1, v.flight.value.0, e.wall);
    }
  }

  lemma EndKeepsCalm(v: Service, e: Event)
    requires Calm(v) && e.Ends? && WellformedEvent(e)
    ensures Calm(After(v, e)) && (Tidy(v) ==> Tidy(After(v, e)))
  {
    if v.flight.Some? {
      var (id, w) := v.flight.value;
      ReportSound(v.tables, id, w, e.outcome, e.available, e.wall);
      HasIsInHand(v.tables, id, w);
      assert RowInvariant(v.tables.runs[id]);
      ReportedRow(v.tables.runs[id], v.tables, id, w, e.outcome, e.available, e.wall);
      OneLeft(v, AfterReport(v.tables, id, w, e.outcome, e.available, e.wall), id, w, e.available, e.wall);
    }
  }

  /** After the run in flight has stopped and its worker is released, nothing is running. */
  lemma OneLeft(v: Service, t: State, id: RunId, w: WorkerId, available: bool, wall: int)
    requires Calm(v) && v.flight == Some((id, w)) && Invariant(t) && id in t.runs && t.runs[id].status != Running
    requires t == State(v.tables.runs[id := t.runs[id]], Freed(v.tables.workers, w, available, wall))
    ensures Calm(Service(t, None)) && (Tidy(v) ==> Tidy(Service(t, None)))
  {
  }

  /** What a request may do to a row: a run that a worker may have stays with it, RUNNING or cancelled; any other row
      stays out of a worker's hands. */
  ghost predicate ClientChange(runs: map<RunId, Run>, id: RunId, now: Run) {
    && RowInvariant(now)
    && if id in runs && runs[id].status in {Running, Cancelled}
       then now.lockedBy == runs[id].lockedBy && now.status in {runs[id].status, Cancelled} && now.heartbeatAt == runs[id].heartbeatAt
       else now.status !in {Running, Cancelled}
  }

  lemma PauseChange(s: State, id: RunId, wall: int)
    requires id in s.runs && RowInvariant(s.runs[id])
    ensures ClientChange(s.runs, id, AfterPause(s, id, wall).runs[id])
  {
  }

  lemma ContinueChange(s: State, id: RunId, wall: int)
    requires id in s.runs && RowInvariant(s.runs[id]) && s.runs[id].status == Blocked
    ensures ClientChange(s.runs, id, AfterContinue(s, id, wall).runs[id])
  {
    var now := Continued(s.runs[id], wall);
    assert AfterContinue(s, id, wall).runs[id] == now;
    assert RowInvariant(now);
  }

  lemma CancelChange(s: State, id: RunId)
    requires id in s.runs && RowInvariant(s.runs[id]) && s.runs[id].status == Running
    ensures ClientChange(s.runs, id, AfterCancel(s, id).runs[id])
  {
  }

  lemma ClientRow(s: State, c: Client)
    requires forall id :: id in s.runs ==> RowInvariant(s.runs[id])
    ensures var t := AfterClient(s, c);
            t == s || (c.id in t.runs && t == s.(runs := s.runs[c.id := t.runs[c.id]])
                       && ClientChange(s.runs, c.id, t.runs[c.id]))
  {
    hide RowInvariant, ClientChange;
    match c
    case Submits(id, submission, wall) =>
      if id !in s.runs {
        NewRowChange(s, id, submission, wall);
      }
    case Pauses(id, wall) =>
      if id in s.runs {
        PauseChange(s, id, wall);
      }
    case Continues(id, wall) =>
      if id in s.runs && s.runs[id].status == Blocked {
        ContinueChange(s, id, wall);
      }
    case Cancels(id) =>
      if id in s.runs && s.runs[id].status == Running {
        CancelChange(s, id);
      } else if id in s.runs {
        NeverCreated(s.runs[id]);
      }
  }

  lemma NewRowChange(s: State, id: RunId, submission: Submission, wall: int)
    requires id !in s.runs
    ensures ClientChange(s.runs, id, AfterSubmit(s, id, submission, wall).runs[id])
  {
  }

  lemma NeverCreated(run: Run)
    requires RowInvariant(run)
    ensures run.status != Created
  {
  }

  lemma ClientKeepsTables(s: State, c: Client)
    requires Invariant(s)
    ensures Invariant(AfterClient(s, c)) && AfterClient(s, c).workers == s.workers
    ensures forall id :: id in AfterClient(s, c).runs && AfterClient(s, c).runs[id].status == Running ==>
              id in s.runs && s.runs[id].status == Running
  {
    hide AfterClient, RowInvariant;
    ClientRow(s, c);
    var t := AfterClient(s, c);
    if t != s {
      forall w | w in t.workers && t.workers[w].activeRun.Some? ensures InHand(t, t.workers[w].activeRun.value, w) {
        assert InHand(s, s.workers[w].activeRun.value, w);
      }
      forall id | id in t.runs && t.runs[id].status == Running
        ensures id in s.runs && s.runs[id].status == Running && t.runs[id].lockedBy == s.runs[id].lockedBy
      {
      }
      forall id | id in t.runs && t.runs[id].status == Running
        ensures t.runs[id].lockedBy.Some? && HeldBy(t, id, t.runs[id].lockedBy.value)
      {
        assert HeldBy(s, id, s.runs[id].lockedBy.value);
      }
    }
  }

  /** Clients never disturb an execution: whatever they ask for and whenever, pausing and cancelling included. */
  lemma RequestKeepsCalm(v: Service, e: Event)
    requires Calm(v) && e.Request?
    ensures Calm(After(v, e)) && (Tidy(v) ==> Tidy(After(v, e)))
  {
    hide AfterClient, Invariant;
    ClientKeepsTables(v.tables, e.client);
  }

  lemma EventKeepsCalm(v: Service, e: Event)
    requires Calm(v) && WellformedEvent(e) && !e.Escape?
    ensures Calm(After(v, e)) && (Tidy(v) ==> Tidy(After(v, e)))
  {
    hide Calm, Tidy, After;
    match e
    case SignUp(_, _, _) => SignUpKeepsCalm(v, e);
    case LoopBeat(_, _) => LoopBeatKeepsCalm(v, e);
    case SweepStale(_, _) => SweepKeepsCalm(v, e);
    case DispatchNext(_, _) => DispatchKeepsCalm(v, e);
    case RunBeat(_) => RunBeatKeepsCalm(v, e);
    case Ends(_, _, _) => EndKeepsCalm(v, e);
    case Request(_) => RequestKeepsCalm(v, e);
  }

  /** One loop at a time, clients at any time, an execution that is committed step by step: as long as every execution
      ends with a report, the invariant holds after every event, at most one run is RUNNING, and between executions no
      worker is busy. Nothing is assumed of the clients. */
  lemma {:induction false} SequentialServiceIsSound(v: Service, es: seq<Event>)
    requires Calm(v) && Tidy(v) && forall e :: e in es ==> WellformedEvent(e) && !e.Escape?
    ensures Calm(AfterAll(v, es)) && Tidy(AfterAll(v, es))
    decreases |es|
  {
    hide Calm, Tidy, After;
    if es != [] {
      assert es[0] in es;
      EventKeepsCalm(v, es[0]);
      SequentialServiceIsSound(After(v, es[0]), es[1..]);
    }
  }

  // ---- when an execution is cut off ----------------------------------------

  /** The next sign-up after an execution keeps the invariant if and only if the execution ended with a report, or its
      run was cancelled, or it is another worker that signs up. */
  lemma NextSignUpExactly(v: Service, e: Event, u: WorkerId, available: bool, at: int)
    requires Calm(v) && v.flight.Some? && (e.Ends? || e.Escape?) && WellformedEvent(e)
    ensures v.flight.value.0 in v.tables.runs
    ensures Invariant(AfterRegister(After(v, e).tables, u, CODEX_LOCAL, SignUpStatus(available), at)) <==>
            e.Ends? || u != v.flight.value.1 || v.tables.runs[v.flight.value.0].status == Cancelled
  {
    var (id, w) := v.flight.value;
    HasIsInHand(v.tables, id, w);
    if e.Ends? {
      EndKeepsCalm(v, e);
    }
    var t := After(v, e).tables;
    RegistrationSafeExactly(t, u, CODEX_LOCAL, SignUpStatus(available), at);
    if e.Escape? && HasRunning(t, u) {
      HasIsInHand(t, t.workers[u].activeRun.value, u);
    }
  }

  /** What survives even so: rows are in order, and what a worker has is RUNNING or cancelled and held by it. */
  ghost predicate Adrift(v: Service) {
    && (forall id :: id in v.tables.runs ==> RowInvariant(v.tables.runs[id]))
    && (forall w :: w in v.tables.workers && v.tables.workers[w].activeRun.Some? ==>
          InHand(v.tables, v.tables.workers[w].activeRun.value, w))
    && (v.flight.Some? ==> Has(v.tables, v.flight.value.0, v.flight.value.1))
  }

  lemma CalmIsAdrift(v: Service)
    requires Calm(v)
    ensures Adrift(v)
  {
  }

  lemma SweepKeepsAdrift(v: Service, e: Event)
    requires Adrift(v) && e.SweepStale?
    ensures Adrift(After(v, e))
  {
    if v.flight.None? {
      var s, t := v.tables, After(v, e).tables;
      forall id | id in t.runs ensures RowInvariant(t.runs[id]) {
        if Stale(s.runs[id], e.wall, STALE_AFTER_SECONDS) {
          SweptSound(s.runs[id], e.wall, STALE_AFTER_SECONDS);
        }
      }
      forall w | w in t.workers && t.workers[w].activeRun.Some? ensures InHand(t, t.workers[w].activeRun.value, w) {
        assert t.workers[w] == s.workers[w] && InHand(s, s.workers[w].activeRun.value, w);
        assert !HoldsStale(s, w, e.wall, STALE_AFTER_SECONDS);
      }
    }
  }

  lemma DispatchKeepsAdrift(v: Service, e: Event)
    requires Adrift(v) && e.DispatchNext?
    ensures Adrift(After(v, e))
  {
    if v.flight.None? {
      DispatchChoiceIsSound(v.tables, e.wall, HEALTH_WINDOW_SECONDS, e.available);
      match Choice(v.tables, e.wall, HEALTH_WINDOW_SECONDS, e.available)
      case None =>
      case Some(pick) =>
        assert RowInvariant(v.tables.runs[pick.0]);
        forall w | w in v.tables.workers && v.tables.workers[w].activeRun.Some?
          ensures InHand(v.tables, v.tables.workers[w].activeRun.value, w)
        {
        }
    }
  }

  lemma EndKeepsAdrift(v: Service, e: Event)
    requires Adrift(v) && e.Ends? && WellformedEvent(e)
    ensures Adrift(After(v, e))
  {
    if v.flight.Some? {
      var (id, w) := v.flight.value;
      assert InHand(v.tables, id, w) && RowInvariant(v.tables.runs[id]);
      ReportedRow(v.tables.runs[id], v.tables, id, w, e.outcome, e.available, e.wall);
      LinksLeft(v, AfterReport(v.tables, id, w, e.outcome, e.available, e.wall), id, w, e.available, e.wall);
    }
  }

  lemma LinksLeft(v: Service, t: State, id: RunId, w: WorkerId, available: bool, wall: int)
    requires Adrift(v) && v.flight == Some((id, w)) && id in t.runs && RowInvariant(t.runs[id])
    requires t == State(v.tables.runs[id := t.runs[id]], Freed(v.tables.workers, w, available, wall))
    ensures Adrift(Service(t, None))
  {
    forall u | u in t.workers && t.workers[u].activeRun.Some? ensures InHand(t, t.workers[u].activeRun.value, u) {
      assert InHand(v.tables, v.tables.workers[u].activeRun.value, u) && InHand(v.tables, id, w);
    }
  }

  lemma ClientKeepsAdrift(v: Service, e: Event)
    requires Adrift(v) && e.Request?
    ensures Adrift(After(v, e))
  {
    hide AfterClient, RowInvariant;
    var s, t := v.tables, After(v, e).tables;
    ClientRow(s, e.client);
    if t != s {
      forall w | w in t.workers && t.workers[w].activeRun.Some? ensures InHand(t, t.workers[w].activeRun.value, w) {
        assert InHand(s, s.workers[w].activeRun.value, w);
      }
    }
  }

  /** Whatever happens, escapes and sign-ups after them included. */
  lemma EventKeepsAdrift(v: Service, e: Event)
    requires Adrift(v) && WellformedEvent(e)
    ensures Adrift(After(v, e))
  {
    match e
    case SweepStale(_, _) => SweepKeepsAdrift(v, e);
    case DispatchNext(_, _) => DispatchKeepsAdrift(v, e);
    case Ends(_, _, _) => EndKeepsAdrift(v, e);
    case Request(_) => ClientKeepsAdrift(v, e);
    case _ =>
  }

  lemma {:induction false} HistoryKeepsAdrift(v: Service, es: seq<Event>)
    requires Adrift(v) && forall e :: e in es ==> WellformedEvent(e)
    ensures Adrift(AfterAll(v, es))
    decreases |es|
  {
    hide Adrift, After;
    if es != [] {
      assert es[0] in es;
      EventKeepsAdrift(v, es[0]);
      HistoryKeepsAdrift(After(v, es[0]), es[1..]);
    }
  }

  /** After any history, once the loop sweeps between executions at a time when every RUNNING run is stale, the
      invariant holds again. */
  lemma SweepRecovers(v: Service, e: Event)
    requires Adrift(v) && v.flight.None? && e.SweepStale?
    requires forall id :: id in v.tables.runs && v.tables.runs[id].status == Running ==>
               Stale(v.tables.runs[id], e.wall, STALE_AFTER_SECONDS)
    ensures Calm(After(v, e))
  {
    SweepKeepsAdrift(v, e);
    var t := After(v, e).tables;
    forall id | id in t.runs ensures t.runs[id].status != Running {
      if Stale(v.tables.runs[id], e.wall, STALE_AFTER_SECONDS) {
        SweptSound(v.tables.runs[id], e.wall, STALE_AFTER_SECONDS);
      }
    }
  }

  /** From a sound service, whatever was cut off since and however often: a sweep that meets no run that is RUNNING and
      not stale brings the invariant back. */
  lemma SweepRecoversFromAnything(v: Service, es: seq<Event>, e: Event)
    requires Calm(v) && (forall f :: f in es ==> WellformedEvent(f)) && e.SweepStale? && AfterAll(v, es).flight.None?
    requires var u := AfterAll(v, es).tables;
             forall id :: id in u.runs && u.runs[id].status == Running ==> Stale(u.runs[id], e.wall, STALE_AFTER_SECONDS)
    ensures Calm(AfterAll(v, es + [e]))
  {
    hide Calm, Adrift, After;
    CalmIsAdrift(v);
    HistoryKeepsAdrift(v, es);
    SweepRecovers(AfterAll(v, es), e);
    AfterAllSplits(v, es, [e]);
    assert [e][1..] == [];
  }

  /** A RUNNING run that no loop executes. */
  predicate Orphan(v: Service, id: RunId) {
    id in v.tables.runs && v.tables.runs[id].status == Running && (v.flight.Some? ==> v.flight.value.0 != id)
  }

  /** Nobody beats for an orphan. */
  lemma OrphanKeepsHeartbeat(v: Service, e: Event, id: RunId)
    requires Adrift(v) && Orphan(v, id) && Orphan(After(v, e), id)
    ensures After(v, e).tables.runs[id].heartbeatAt == v.tables.runs[id].heartbeatAt
  {
    hide AfterClient, RowInvariant;
    match e
    case DispatchNext(wall, available) => DispatchChoiceIsSound(v.tables, wall, HEALTH_WINDOW_SECONDS, available);
    case Request(client) => ClientRow(v.tables, client);
    case _ =>
  }

  ghost predicate StaysOrphan(v: Service, es: seq<Event>, id: RunId)
    decreases |es|
  {
    Orphan(v, id) && (es == [] || StaysOrphan(After(v, es[0]), es[1..], id))
  }

  /** No run is stranded: whatever happens to a run that lost its execution, the first sweep between executions that
      comes more than 30 seconds after its last heartbeat ends its running. */
  lemma {:induction false} NoRunIsStranded(v: Service, es: seq<Event>, id: RunId, wall: int, available: bool)
    requires Adrift(v) && (forall e :: e in es ==> WellformedEvent(e)) && StaysOrphan(v, es, id)
    requires AfterAll(v, es).flight.None?
    ensures v.tables.runs[id].heartbeatAt.Some?
    ensures wall - STALE_AFTER_SECONDS > v.tables.runs[id].heartbeatAt.value ==>
              var u := After(AfterAll(v, es), SweepStale(wall, available));
              id in u.tables.runs && u.tables.runs[id].status in {Queued, Blocked, Failed}
    decreases |es|
  {
    assert RowInvariant(v.tables.runs[id]);
    if es != [] {
      assert es[0] in es;
      EventKeepsAdrift(v, es[0]);
      OrphanKeepsHeartbeat(v, es[0], id);
      NoRunIsStranded(After(v, es[0]), es[1..], id, wall, available);
    }
  }

  // ---- an iteration is a history -------------------------------------------

  lemma {:induction false} AfterAllSplits(v: Service, es: seq<Event>, fs: seq<Event>)
    ensures AfterAll(v, es + fs) == AfterAll(AfterAll(v, es), fs)
    decreases |es|
  {
    hide After;
    if es == [] {
      assert es + fs == fs;
    } else {
      assert (es + fs)[0] == es[0] && (es + fs)[1..] == es[1..] + fs;
      AfterAllSplits(After(v, es[0]), es[1..], fs);
    }
  }

  function RequestsOf(cs: seq<Client>): seq<Event> {
    if cs == [] then [] else [Request(cs[0])] + RequestsOf(cs[1..])
  }

  lemma {:induction false} RequestsAreClients(v: Service, cs: seq<Client>)
    ensures AfterAll(v, RequestsOf(cs)) == v.(tables := AfterClients(v.tables, cs))
    ensures forall e :: e in RequestsOf(cs) ==> e.Request?
    decreases |cs|
  {
    hide AfterClient;
    if cs != [] {
      assert RequestsOf(cs)[1..] == RequestsOf(cs[1..]);
      RequestsAreClients(After(v, Request(cs[0])), cs[1..]);
    }
  }

  function BeatsOf(beats: seq<Beat>): seq<Event> {
    if beats == [] then []
    else [RunBeat(beats[0].at)] + RequestsOf(beats[0].meanwhile) + BeatsOf(beats[1..])
  }

  lemma {:induction false} BeatsAreEvents(v: Service, beats: seq<Beat>)
    requires v.flight.Some?
    ensures AfterAll(v, BeatsOf(beats))
         == v.(tables := AfterBeats(v.tables, v.flight.value.1, v.flight.value.0, beats))
    ensures forall e :: e in BeatsOf(beats) ==> e.RunBeat? || e.Request?
    decreases |beats|
  {
    hide AfterClients, AfterRunHeartbeat;
    if beats != [] {
      var beat, requests, rest := [RunBeat(beats[0].at)], RequestsOf(beats[0].meanwhile), BeatsOf(beats[1..]);
      var u := After(v, RunBeat(beats[0].at));
      RequestsAreClients(u, beats[0].meanwhile);
      BeatsAreEvents(AfterAll(u, requests), beats[1..]);
      AfterAllSplits(u, requests, rest);
      assert beat + requests + rest == beat + (requests + rest);
      assert (beat + (requests + rest))[1..] == requests + rest;
    }
  }

  /** How an execution ends, as an event. */
  function LastEvent(ending: Ending, available: bool, finish: int): Event {
    match ending
    case Reports(outcome) => Ends(outcome, available, finish)
    case Escapes => Escape
  }

  /** The events of an iteration in their order: nothing if it is cut off before its first commit; the sign-up alone if
      Codex is missing; otherwise sign-up, beat, sweep and dispatch, and the execution of the run that was dispatched. */
  ghost predicate TurnEvents(es: seq<Event>, w: WorkerId, turn: Turn) {
    var front := [SignUp(w, true, turn.wall), LoopBeat(w, turn.wall), SweepStale(turn.wall, true), DispatchNext(turn.wall, true)];
    var execution := BeatsOf(turn.beats) + [LastEvent(turn.ending, turn.available, turn.finish)];
    if turn.ending == Escapes && turn.beats == [] then es == []
    else if !turn.available then es == [SignUp(w, false, turn.wall)]
    else es == front || es == front + execution
  }

  /** An iteration, as the loop commits it, is a history of the service. */
  lemma TurnIsHistory(s: State, w: WorkerId, turn: Turn) returns (es: seq<Event>)
    ensures AfterAll(Service(s, None), es) == Service(AfterTurn(s, w, turn), None) && TurnEvents(es, w, turn)
  {
    hide AfterRegister, AfterSweep, AfterWorkerHeartbeat, AfterBeats, AfterReport;
    if CutOffEarly(turn) {
      es := [];
    } else {
      var v := Service(s, None);
      es := [SignUp(w, turn.available, turn.wall)];
      var signed := After(v, es[0]);
      assert AfterAll(v, es) == AfterAll(signed, []) == signed;
      if turn.available {
        var cycle := CycleIsHistory(signed.tables, w, turn);
        AfterAllSplits(v, es, cycle);
        es := es + cycle;
        var front := [LoopBeat(w, turn.wall), SweepStale(turn.wall, true), DispatchNext(turn.wall, true)];
        var execution := BeatsOf(turn.beats) + [LastEvent(turn.ending, true, turn.finish)];
        assert [SignUp(w, true, turn.wall)] + front
            == [SignUp(w, true, turn.wall), LoopBeat(w, turn.wall), SweepStale(turn.wall, true), DispatchNext(turn.wall, true)];
        assert [SignUp(w, true, turn.wall)] + (front + execution) == [SignUp(w, true, turn.wall)] + front + execution;
      }
    }
  }

  lemma CycleIsHistory(s: State, w: WorkerId, turn: Turn) returns (es: seq<Event>)
    ensures AfterAll(Service(s, None), es) == Service(AfterCycle(s, w, turn), None)
    ensures var front := [LoopBeat(w, turn.wall), SweepStale(turn.wall, turn.available), DispatchNext(turn.wall, turn.available)];
            es == front || es == front + (BeatsOf(turn.beats) + [LastEvent(turn.ending, turn.available, turn.finish)])
  {
    hide AfterSweep, AfterWorkerHeartbeat, AfterBeats, AfterReport, AfterStart, AssignedTo;
    var v := Service(s, None);
    var front := [LoopBeat(w, turn.wall), SweepStale(turn.wall, turn.available), DispatchNext(turn.wall, turn.available)];
    var beaten := After(v, front[0]);
    var swept := After(beaten, front[1]);
    var begun := After(swept, front[2]);
    Three(v, front[0], front[1], front[2]);
    match Choice(swept.tables, turn.wall, HEALTH_WINDOW_SECONDS, turn.available)
    case None =>
      es := front;
    case Some(pick) =>
      StartAssigns(swept.tables, pick.0, pick.1, turn.wall);
      var execution := ExecutionIsHistory(begun, turn.beats, turn.ending, turn.available, turn.finish);
      AfterAllSplits(v, front, execution);
      es := front + execution;
  }

  lemma StartAssigns(s: State, id: RunId, w: WorkerId, wall: int)
    requires id in s.runs && w in s.workers
    ensures AssignedTo(AfterStart(s, id, w, wall, wall, HEALTH_WINDOW_SECONDS), id, w)
  {
  }

  lemma Three(v: Service, a: Event, b: Event, c: Event)
    ensures AfterAll(v, [a, b, c]) == After(After(After(v, a), b), c)
  {
    hide After;
    var u := After(v, a);
    assert [a, b, c][1..] == [b, c] && [b, c][1..] == [c] && [c][1..] == [];
    assert AfterAll(v, [a, b, c]) == AfterAll(u, [b, c]) == AfterAll(After(u, b), [c]);
    assert AfterAll(After(u, b), [c]) == AfterAll(After(After(u, b), c), []);
  }

  lemma ExecutionIsHistory(v: Service, beats: seq<Beat>, ending: Ending, available: bool, wall: int) returns (es: seq<Event>)
    requires v.flight.Some? && AssignedTo(v.tables, v.flight.value.0, v.flight.value.1)
    ensures AfterAll(v, es) == Service(AfterAssignedRun(v.tables, v.flight.value.0, v.flight.value.1, beats, ending,
                                                        available, wall), None)
    ensures es == BeatsOf(beats) + [LastEvent(ending, available, wall)]
  {
    hide AfterReport, AfterBeats;
    var last := LastEvent(ending, available, wall);
    BeatsAreEvents(v, beats);
    AfterAllSplits(v, BeatsOf(beats), [last]);
    assert [last][1..] == [];
    es := BeatsOf(beats) + [last];
  }

  lemma {:induction false} BeatsMean(beats: seq<Beat>, e: Event)
    ensures e in BeatsOf(beats) ==> e.RunBeat? || e.Request?
    decreases |beats|
  {
    if beats != [] {
      RequestsMean(beats[0].meanwhile, e);
      BeatsMean(beats[1..], e);
    }
  }

  lemma {:induction false} RequestsMean(cs: seq<Client>, e: Event)
    ensures e in RequestsOf(cs) ==> e.Request?
    decreases |cs|
  {
    if cs != [] {
      RequestsMean(cs[1..], e);
    }
  }

  // ---- the events on the columns -------------------------------------------

  /** What a request of a client makes of a run that is there. */
  predicate RequestColumns(was: Run, now: Run, client: Client) {
    match client
    case Submits(_, _, _) => now == was
    case Pauses(_, wall) => PauseColumns(was, now, wall)
    case Continues(_, wall) => if was.status == Blocked then ContinueColumns(was, now, wall) else now == was
    case Cancels(_) => now == if was.status in {Created, Running} then was.(status := Cancelled) else was
  }

  /** What an event writes: signing up as idle or offline, sweeping after 30 seconds without a heartbeat, dispatching to
      workers that beat within 90 seconds, extending a lease by 90 seconds, and the report of the execution in flight. */
  ghost predicate EventColumns(v: Service, u: Service, e: Event) {
    match e
    case SignUp(w, available, wall) =>
      && u.flight == v.flight && u.tables.runs == v.tables.runs
      && if v.flight != None then u == v
         else w in u.tables.workers && u.tables.workers == v.tables.workers[w := u.tables.workers[w]]
              && u.tables.workers[w].status == (if available then Idle else Offline)
              && u.tables.workers[w].workerType == "codex_local" && u.tables.workers[w].lastHeartbeat == wall
    case LoopBeat(w, wall) =>
      && u.flight == v.flight && u.tables.runs == v.tables.runs
      && if v.flight != None || w !in v.tables.workers then u == v
         else w in u.tables.workers && u.tables.workers == v.tables.workers[w := u.tables.workers[w]]
              && BeatColumns(v.tables.workers[w], u.tables.workers[w], wall)
    case SweepStale(wall, available) =>
      u.flight == v.flight && if v.flight != None then u == v else SweepsAll(v.tables, u.tables, wall, wall, 30, available)
    case DispatchNext(wall, available) =>
      if v.flight != None then u == v
      else if u.flight != None then
        Starts(v.tables, u.tables, u.flight.value.0, u.flight.value.1, wall, wall, 90, available)
      else u == v && forall j: RunId, w: WorkerId :: !CouldStart(v.tables, j, w, wall, 90, available)
    case RunBeat(wall) =>
      && u.flight == v.flight
      && (v.flight == None ==> u == v)
      && (v.flight != None && v.flight.value.0 in v.tables.runs && v.flight.value.1 in v.tables.workers
          && v.tables.runs[v.flight.value.0].lockedBy == Some(v.flight.value.1) ==>
            u.tables.runs == v.tables.runs[v.flight.value.0 :=
              v.tables.runs[v.flight.value.0].(heartbeatAt := Some(wall), leaseExpiresAt := Some(wall + 90))])
    case Ends(outcome, available, wall) =>
      && u.flight == None
      && (v.flight == None ==> u == v)
      && (v.flight != None && v.flight.value.0 in v.tables.runs ==>
            && v.flight.value.0 in u.tables.runs
            && u.tables.runs == v.tables.runs[v.flight.value.0 := u.tables.runs[v.flight.value.0]]
            && ReportColumns(v.tables.runs[v.flight.value.0], u.tables.runs[v.flight.value.0], outcome, wall))
    case Escape => u.tables == v.tables && u.flight == None
    case Request(client) =>
      && u.flight == v.flight && u.tables.workers == v.tables.workers
      && (forall j :: j in v.tables.runs && j != client.id ==> j in u.tables.runs && u.tables.runs[j] == v.tables.runs[j])
      && if client.id in v.tables.runs
         then client.id in u.tables.runs && RequestColumns(v.tables.runs[client.id], u.tables.runs[client.id], client)
         else client.Submits? ==> client.id in u.tables.runs
                                  && SubmitColumns(u.tables.runs[client.id], client.submission, client.wall)
  }

  lemma DispatchNextExactly(v: Service, e: Event)
    requires e.DispatchNext?
    ensures EventColumns(v, After(v, e), e)
  {
    hide Starts, CouldStart, AfterStart;
    if v.flight == None {
      match Choice(v.tables, e.wall, HEALTH_WINDOW_SECONDS, e.available)
      case Some(pick) =>
        DispatchChoiceIsSound(v.tables, e.wall, HEALTH_WINDOW_SECONDS, e.available);
        ChoiceColumns(v.tables, pick.0, pick.1, e.wall, e.wall, HEALTH_WINDOW_SECONDS, e.available);
      case None =>
        NoChoiceNobody(v.tables, e.wall, HEALTH_WINDOW_SECONDS, e.available);
    }
  }

  lemma RequestExactly(v: Service, e: Event)
    requires e.Request?
    ensures EventColumns(v, After(v, e), e)
  {
    hide AfterSubmit, AfterPause, AfterContinueRequest, AfterCancel, SubmitColumns, PauseColumns, ContinueColumns;
    match e.client
    case Submits(id, submission, wall) => SubmitExactly(v.tables, id, submission, wall);
    case Pauses(id, wall) => PauseExactly(v.tables, id, wall);
    case Continues(id, wall) => ContinueExactly(v.tables, id, wall);
    case Cancels(id) => CancelledExactly(v.tables, id);
  }

  lemma EventExactly(v: Service, e: Event)
    ensures EventColumns(v, After(v, e), e)
  {
    hide ReportColumns, SweepsAll, AfterSweep, AfterReport, Choice, Starts, CouldStart, AfterStart, AfterClient, RequestColumns;
    match e
    case SweepStale(wall, available) => SweepExactly(v.tables, wall, wall, 30, available);
    case DispatchNext(_, _) => DispatchNextExactly(v, e);
    case Request(_) => RequestExactly(v, e);
    case Ends(outcome, available, wall) =>
      if v.flight != None && v.flight.value.0 in v.tables.runs {
        ReportExactly(v.tables, v.flight.value.0, v.flight.value.1, outcome, available, wall);
      }
    case _ =>
  }

  /** Nothing is running and no worker is busy. */
  ghost predicate Quiet(s: State) {
    Calm(Service(s, None)) && Tidy(Service(s, None))
  }

  /** An iteration whose execution, if there is one, ends with a report, leaves no worker busy; so does one that is cut
      off before its first commit. */
  lemma TurnEndsQuiet(s: State, w: WorkerId, turn: Turn)
    requires Quiet(s) && (turn.ending.Reports? ==> Wellformed(turn.ending.outcome))
    requires turn.ending.Escapes? ==> CutOffEarly(turn)
    ensures Quiet(AfterTurn(s, w, turn))
  {
    hide Calm, Tidy, AfterCycle;
    if !CutOffEarly(turn) {
      var es := TurnIsHistory(s, w, turn);
      forall e | e in es ensures WellformedEvent(e) && !e.Escape? {
        BeatsMean(turn.beats, e);
      }
      SequentialServiceIsSound(Service(s, None), es);
    }
  }
}
