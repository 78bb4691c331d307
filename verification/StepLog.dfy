/** The steps of runs: `report_run_step` and the start, complete and fail helpers of the local worker. */
module StepLog {
  import opened Wrappers

  datatype StepStatus = Queued | Created | Running | Completed | Failed | Skipped

  /** A row of the step table. The rows of a run are kept in the order of their creation. */
  datatype Step = Step(key: string, caption: string, idx: int, status: StepStatus, summary: Option<string>)

  datatype Rejection = InvalidTransition(from: StepStatus, to: StepStatus)

  datatype Report = Report(key: string, caption: string, desired: StepStatus, sequenceNo: int, summary: Option<string>)

  predicate Finished(status: StepStatus) {
    status in {Completed, Failed}
  }

  /** STEP_STATUS_TRANSITIONS. */
  predicate MayFollow(from: StepStatus, to: StepStatus) {
    match from
    case Queued => to in {Running, Failed}
    case Created => to in {Running, Failed}
    case Running => to in {Completed, Failed}
    case _ => false
  }

  // ---- what a report does --------------------------------------------------

  /** The row the query for the step of that key returns: greatest index, then latest. */
  ghost predicate IsLatest(log: seq<Step>, key: string, k: int) {
    && 0 <= k < |log| && log[k].key == key
    && forall j :: 0 <= j < |log| && log[j].key == key ==> log[j].idx < log[k].idx || (log[j].idx == log[k].idx && j <= k)
  }

  ghost predicate IsTop(log: seq<Step>, k: int) {
    0 <= k < |log| && forall j :: 0 <= j < |log| ==> log[j].idx <= log[k].idx
  }

  /** A row is created when the key has none yet, and when its latest is finished and is to run again. */
  ghost predicate Reopens(log: seq<Step>, report: Report) {
    forall k :: IsLatest(log, report.key, k) ==> report.desired == Running && Finished(log[k].status)
  }

  function NextIdx(top: Option<int>, sequenceNo: int): int {
    if top.Some? then top.value + 1 else sequenceNo
  }

  ghost function TopIdx(log: seq<Step>): Option<int> {
    if exists k :: IsTop(log, k) then var k :| IsTop(log, k); Some(log[k].idx) else None
  }

  function Advanced(step: Step, report: Report): Result<Step, Rejection> {
    if step.status != report.desired && !MayFollow(step.status, report.desired) then
      Err(InvalidTransition(step.status, report.desired))
    else
      Ok(step.(status := report.desired, summary := if report.summary.Some? then report.summary else step.summary))
  }

  /** The log after a report and the row it speaks of, or the rejection; a rejected report leaves no trace. */
  ghost function Reported(log: seq<Step>, report: Report): Result<(seq<Step>, nat), Rejection> {
    if Reopens(log, report) then
      var row := Step(report.key, report.caption, NextIdx(TopIdx(log), report.sequenceNo), Queued, None);
      match Advanced(row, report)
      case Ok(now) => Ok((log + [now], |log|))
      case Err(e) => Err(e)
    else
      var k :| IsLatest(log, report.key, k);
      match Advanced(log[k], report)
      case Ok(now) => Ok((log[k := now], k))
      case Err(e) => Err(e)
  }

  class StepTable {
    var steps: map<nat, seq<Step>>

    constructor ()
      ensures steps == map[]
    {
      steps := map[];
    }

    ghost function Log(run: nat): seq<Step>
      reads this
    {
      if run in steps then steps[run] else []
    }

    method ReportRunStep(run: nat, report: Report) returns (r: Result<nat, Rejection>)
      modifies this
      ensures forall other :: other != run ==> Log(other) == old(Log(other))
      ensures match Reported(old(Log(run)), report)
              case Ok(done) => r == Ok(done.1) && Log(run) == done.0
              case Err(e) => r == Err(e) && Log(run) == old(Log(run))
    {
      var log := if run in steps then steps[run] else [];
      var latest, top := FindLatest(log, report.key);
      if latest.None? || (report.desired == Running && Finished(log[latest.value].status)) {
        assert Reopens(log, report) by {
          forall k | IsLatest(log, report.key, k) ensures latest == Some(k) {
          }
        }
        log := log + [Step(report.key, report.caption, NextIdx(top, report.sequenceNo), Queued, None)];
        latest := Some(|log| - 1);
      }
      var k := latest.value;
      if log[k].status != report.desired {
        if !MayFollow(log[k].status, report.desired) {
          return Err(InvalidTransition(log[k].status, report.desired));
        }
        log := log[k := log[k].(status := report.desired)];
      }
      if report.summary.Some? {
        log := log[k := log[k].(summary := report.summary)];
      }
      steps := steps[run := log];
      return Ok(k);
    }

    method FindLatest(log: seq<Step>, key: string) returns (latest: Option<nat>, top: Option<int>)
      ensures top == TopIdx(log)
      ensures match latest
              case Some(k) => IsLatest(log, key, k) && forall j :: IsLatest(log, key, j) ==> j == k
              case None => forall j :: 0 <= j < |log| ==> log[j].key != key
    {
      latest, top := None, None;
      ghost var at: nat := 0;
      for i := 0 to |log|
        invariant latest.None? ==> forall j :: 0 <= j < i ==> log[j].key != key
        invariant latest.Some? ==> latest.value < i && log[latest.value].key == key
        invariant latest.Some? ==> forall j :: 0 <= j < i && log[j].key == key ==>
          log[j].idx < log[latest.value].idx || (log[j].idx == log[latest.value].idx && j <= latest.value)
        invariant top.None? <==> i == 0
        invariant top.Some? ==> at < i && top == Some(log[at].idx) && forall j :: 0 <= j < i ==> log[j].idx <= log[at].idx
      {
        if log[i].key == key && (latest.None? || log[i].idx >= log[latest.value].idx) {
          latest := Some(i);
        }
        if top.None? || log[i].idx >= top.value {
          top := Some(log[i].idx);
          at := i;
        }
      }
      assert top.Some? ==> IsTop(log, at);
    }
  }

  // ---- what every report keeps ---------------------------------------------

  /** Indices are consecutive from the first; of the rows of a key only the latest may be unfinished. */
  ghost predicate Invariant(log: seq<Step>) {
    && (forall k :: 0 <= k < |log| ==> log[k].idx == log[0].idx + k)
    && (forall j, k :: 0 <= j < k < |log| && log[j].key == log[k].key ==> Finished(log[j].status))
    && (forall k :: 0 <= k < |log| ==> log[k].status in {Queued, Running, Completed, Failed})
  }

  lemma LatestIsLast(log: seq<Step>, key: string, k: int)
    requires Invariant(log)
    ensures IsLatest(log, key, k)
       <==> 0 <= k < |log| && log[k].key == key && forall j :: k < j < |log| ==> log[j].key != key
  {
  }

  lemma TopIsLast(log: seq<Step>)
    requires Invariant(log)
    ensures TopIdx(log) == if log == [] then None else Some(log[0].idx + |log| - 1)
  {
    if log != [] {
      assert IsTop(log, |log| - 1);
    }
  }

  /** What a history of reports may do to the rows that are there: they keep key, caption and index, their status moves
      along the transition table, and a finished step never changes its status. */
  ghost predicate Extends(log: seq<Step>, now: seq<Step>) {
    |log| <= |now| && forall k :: 0 <= k < |log| ==>
      && now[k].key == log[k].key && now[k].caption == log[k].caption && now[k].idx == log[k].idx
      && (now[k].status == log[k].status || MayFollow(log[k].status, now[k].status))
  }

  lemma ReportKeepsInvariant(log: seq<Step>, report: Report)
    requires Invariant(log)
    ensures match Reported(log, report)
            case Ok(done) => Invariant(done.0) && Extends(log, done.0) && done.1 < |done.0|
                             && done.0[done.1].key == report.key && done.0[done.1].status == report.desired
            case Err(e) => true
  {
    TopIsLast(log);
    if Reopens(log, report) {
      forall j | 0 <= j < |log| && log[j].key == report.key ensures Finished(log[j].status) {
        var k := LastOf(log, report.key, j);
        LatestIsLast(log, report.key, k);
      }
    } else {
      forall k | IsLatest(log, report.key, k) {
        LatestIsLast(log, report.key, k);
      }
    }
  }

  lemma LastOf(log: seq<Step>, key: string, j: nat) returns (k: nat)
    requires j < |log| && log[j].key == key
    ensures j <= k < |log| && log[k].key == key && forall i :: k < i < |log| ==> log[i].key != key
    decreases |log| - j
  {
    if i :| j < i < |log| && log[i].key == key {
      k := LastOf(log, key, i);
    } else {
      k := j;
    }
  }

  /** Exactly which reports are rejected. */
  lemma RejectedExactly(log: seq<Step>, report: Report)
    requires Invariant(log)
    ensures Reported(log, report).Err? <==>
            if Reopens(log, report) then report.desired !in {Queued, Running, Failed}
            else exists k :: IsLatest(log, report.key, k) && log[k].status != report.desired
                             && !MayFollow(log[k].status, report.desired)
  {
    if !Reopens(log, report) {
      forall j, k | IsLatest(log, report.key, j) && IsLatest(log, report.key, k) ensures j == k {
        LatestIsLast(log, report.key, j);
        LatestIsLast(log, report.key, k);
      }
    }
  }

  /** The transitions a step may make. */
  const STEP_TRANSITIONS: set<(StepStatus, StepStatus)> :=
    {(Queued, Running), (Queued, Failed), (Created, Running), (Created, Failed), (Running, Completed), (Running, Failed)}

  lemma TransitionsExactly(from: StepStatus, to: StepStatus)
    ensures MayFollow(from, to) <==> (from, to) in STEP_TRANSITIONS
  {
  }

  predicate LastOfKey(log: seq<Step>, key: string, k: nat) {
    k < |log| && log[k].key == key && forall j :: k < j < |log| ==> log[j].key != key
  }

  /** A report about a step that has no row, or that starts one again whose last row is finished, adds a row with the next
      number; it has to start it, or end it as failed. */
  lemma NewRowExactly(log: seq<Step>, report: Report)
    requires Invariant(log)
    requires forall k: nat :: LastOfKey(log, report.key, k) ==> report.desired == Running && log[k].status in {Completed, Failed}
    ensures var idx := if log == [] then report.sequenceNo else log[|log| - 1].idx + 1;
            Reported(log, report) ==
            if report.desired in {Queued, Running, Failed}
            then Ok((log + [Step(report.key, report.caption, idx, report.desired, report.summary)], |log|))
            else Err(InvalidTransition(Queued, report.desired))
  {
    TopIsLast(log);
    TransitionsExactly(Queued, report.desired);
    forall k | IsLatest(log, report.key, k) ensures LastOfKey(log, report.key, k) {
      LatestIsLast(log, report.key, k);
    }
    assert Reopens(log, report);
  }

  /** Any other report is about the last row of the step: the row takes the status, where the transition is allowed or
      the status is the same, and the summary, if there is one. */
  lemma OldRowExactly(log: seq<Step>, report: Report, k: nat)
    requires Invariant(log) && LastOfKey(log, report.key, k)
    requires report.desired != Running || log[k].status !in {Completed, Failed}
    ensures Reported(log, report) ==
            if report.desired == log[k].status || (log[k].status, report.desired) in STEP_TRANSITIONS
            then Ok((log[k := log[k].(status := report.desired,
                                      summary := if report.summary == None then log[k].summary else report.summary)], k))
            else Err(InvalidTransition(log[k].status, report.desired))
  {
    TransitionsExactly(log[k].status, report.desired);
    LatestIsLast(log, report.key, k);
    assert IsLatest(log, report.key, k) && !Reopens(log, report);
    forall j | IsLatest(log, report.key, j) ensures j == k {
      LatestIsLast(log, report.key, j);
    }
  }

  ghost function AfterReports(log: seq<Step>, reports: seq<Report>): seq<Step>
    decreases |reports|
  {
    if reports == [] then log
    else
      var now := match Reported(log, reports[0]) case Ok(done) => done.0 case Err(_) => log;
      AfterReports(now, reports[1..])
  }

  lemma {:induction false} ReportsKeepInvariant(log: seq<Step>, reports: seq<Report>)
    requires Invariant(log)
    ensures Invariant(AfterReports(log, reports))
    ensures |log| <= |AfterReports(log, reports)|
    ensures forall k :: 0 <= k < |log| ==>
              && AfterReports(log, reports)[k].idx == log[k].idx && AfterReports(log, reports)[k].key == log[k].key
              && (Finished(log[k].status) ==> AfterReports(log, reports)[k].status == log[k].status)
    decreases |reports|
  {
    if reports != [] {
      ReportKeepsInvariant(log, reports[0]);
      var now := match Reported(log, reports[0]) case Ok(done) => done.0 case Err(_) => log;
      ReportsKeepInvariant(now, reports[1..]);
    }
  }

  // ---- executions ----------------------------------------------------------

  /** One step of an execution: its name and whether it succeeds. */
  datatype Stage = Stage(key: string, caption: string, ok: bool, summary: string)

  function StartOf(stage: Stage, sequenceNo: int): Report {
    Report(stage.key, stage.caption, Running, sequenceNo, Some("started"))
  }

  function EndOf(stage: Stage, sequenceNo: int): Report {
    Report(stage.key, stage.caption, if stage.ok then Completed else Failed, sequenceNo, Some(stage.summary))
  }

  function RowOf(stage: Stage, idx: int): Step {
    Step(stage.key, stage.caption, idx, if stage.ok then Completed else Failed, Some(stage.summary))
  }

  /** `_start_step` is never rejected, and neither is the `_complete_step` or `_fail_step` that follows. */
  lemma StartAndEndAccepted(log: seq<Step>, stage: Stage, sequenceNo: int, again: int)
    requires Invariant(log)
    ensures Reported(log, StartOf(stage, sequenceNo)).Ok?
    ensures Reported(Reported(log, StartOf(stage, sequenceNo)).value.0, EndOf(stage, again)).Ok?
  {
    var start, end := StartOf(stage, sequenceNo), EndOf(stage, again);
    RejectedExactly(log, start);
    ReportKeepsInvariant(log, start);
    if !Reopens(log, start) {
      forall k | IsLatest(log, stage.key, k) {
        LatestIsLast(log, stage.key, k);
      }
    }
    var (now, at) := Reported(log, start).value;
    SameLatest(log, start);
    RejectedExactly(now, end);
  }

  /** The row a report speaks of is the latest of its key afterwards, and the only one. */
  lemma SameLatest(log: seq<Step>, report: Report)
    requires Invariant(log) && Reported(log, report).Ok?
    ensures var (now, at) := Reported(log, report).value;
            forall k :: IsLatest(now, report.key, k) <==> k == at
  {
    ReportKeepsInvariant(log, report);
    var (now, at) := Reported(log, report).value;
    forall k ensures IsLatest(now, report.key, k) <==> k == at {
      LatestIsLast(now, report.key, k);
      if !Reopens(log, report) {
        LatestIsLast(log, report.key, at);
      }
    }
  }

  /** A step of that name was started and not ended: its process died, or it is the finalize step, which is not ended
      when it raises. */
  ghost predicate Unfinished(log: seq<Step>, key: string) {
    exists k :: OpenAt(log, key, k)
  }

  predicate OpenAt(log: seq<Step>, key: string, k: int) {
    0 <= k < |log| && log[k].key == key && !Finished(log[k].status)
  }

  ghost function AfterStage(log: seq<Step>, stage: Stage, sequenceNo: int): seq<Step> {
    AfterReports(log, [StartOf(stage, sequenceNo), EndOf(stage, sequenceNo)])
  }

  ghost function AfterStages(log: seq<Step>, stages: seq<Stage>, sequenceNo: int): seq<Step>
    decreases |stages|
  {
    if stages == [] then log else AfterStages(AfterStage(log, stages[0], sequenceNo), stages[1..], sequenceNo + 1)
  }

  /** The number the next step of the run gets. */
  function NextNumber(log: seq<Step>, sequenceNo: int): int {
    if log == [] then sequenceNo else log[0].idx + |log|
  }

  lemma ReopensExactly(log: seq<Step>, stage: Stage, sequenceNo: int)
    requires Invariant(log)
    ensures Reopens(log, StartOf(stage, sequenceNo)) <==> !Unfinished(log, stage.key)
  {
    if k :| OpenAt(log, stage.key, k) {
      LatestIsLast(log, stage.key, k);
      assert IsLatest(log, stage.key, k);
    }
    if k :| IsLatest(log, stage.key, k) && !Finished(log[k].status) {
      assert OpenAt(log, stage.key, k);
    }
  }

  /** Starting a step that is not open adds its row; starting one that is open takes the row that is there. */
  lemma Started(log: seq<Step>, stage: Stage, sequenceNo: int) returns (k: nat)
    requires Invariant(log)
    ensures var row := Step(stage.key, stage.caption, NextNumber(log, sequenceNo), Running, Some("started"));
            var r := Reported(log, StartOf(stage, sequenceNo));
            && r.Ok? && r.value.1 == k
            && (if Unfinished(log, stage.key)
                then OpenAt(log, stage.key, k) && r.value.0 == log[k := log[k].(status := Running, summary := Some("started"))]
                else k == |log| && r.value.0 == log + [row])
  {
    TopIsLast(log);
    ReopensExactly(log, stage, sequenceNo);
    StartAndEndAccepted(log, stage, sequenceNo, sequenceNo);
    k := Reported(log, StartOf(stage, sequenceNo)).value.1;
    if open :| OpenAt(log, stage.key, open) {
      LatestIsLast(log, stage.key, open);
      LatestIsLast(log, stage.key, k);
    }
  }

  /** What a step does that is started and ended. */
  lemma StageResult(log: seq<Step>, stage: Stage, sequenceNo: int) returns (k: nat)
    requires Invariant(log)
    ensures Invariant(AfterStage(log, stage, sequenceNo))
    ensures if Unfinished(log, stage.key)
            then OpenAt(log, stage.key, k) && AfterStage(log, stage, sequenceNo) == log[k := Ended(log[k], stage)]
            else AfterStage(log, stage, sequenceNo) == log + [RowOf(stage, NextNumber(log, sequenceNo))]
  {
    hide Unfinished, Reopens;
    var start, end := StartOf(stage, sequenceNo), EndOf(stage, sequenceNo);
    k := Started(log, stage, sequenceNo);
    var now := Reported(log, start).value.0;
    ReportKeepsInvariant(log, start);
    SameLatest(log, start);
    EndedRow(now, stage, sequenceNo, k);
    ReportKeepsInvariant(now, end);
    var done := now[k := Ended(now[k], stage)];
    assert [start, end][1..] == [end] && [end][1..] == [];
    assert AfterReports(log, [start, end]) == AfterReports(now, [end]) == AfterReports(done, []);
  }

  function Ended(row: Step, stage: Stage): Step {
    row.(status := if stage.ok then Completed else Failed, summary := Some(stage.summary))
  }

  lemma EndedRow(now: seq<Step>, stage: Stage, sequenceNo: int, k: nat)
    requires k < |now| && now[k].status == Running && forall j :: IsLatest(now, stage.key, j) <==> j == k
    ensures Reported(now, EndOf(stage, sequenceNo)) == Ok((now[k := Ended(now[k], stage)], k))
  {
    assert IsLatest(now, stage.key, k);
  }

  /** A step that is started and ended adds its row and touches no other if and only if no step of its name is open. */
  lemma StageAppendsExactly(log: seq<Step>, stage: Stage, sequenceNo: int)
    requires Invariant(log)
    ensures AfterStage(log, stage, sequenceNo) == log + [RowOf(stage, NextNumber(log, sequenceNo))] <==> !Unfinished(log, stage.key)
  {
    var _ := StageResult(log, stage, sequenceNo);
  }

  /** If one is open, its row is ended and no row is added. */
  lemma StageRewrites(log: seq<Step>, stage: Stage, sequenceNo: int, k: nat)
    requires Invariant(log) && OpenAt(log, stage.key, k)
    ensures AfterStage(log, stage, sequenceNo) == log[k := Ended(log[k], stage)]
  {
    var open := StageResult(log, stage, sequenceNo);
    assert open == k;
  }

  /** The names of the stages that are open before an execution. */
  ghost function OpenKeys(log: seq<Step>, stages: seq<Stage>): set<string> {
    set s | s in stages && Unfinished(log, s.key) :: s.key
  }

  lemma StageCloses(log: seq<Step>, stage: Stage, sequenceNo: int, key: string)
    requires Invariant(log)
    ensures Unfinished(AfterStage(log, stage, sequenceNo), key) <==> Unfinished(log, key) && key != stage.key
  {
    var k := StageResult(log, stage, sequenceNo);
    var now := AfterStage(log, stage, sequenceNo);
    if open :| OpenAt(log, key, open) {
      assert key != stage.key ==> OpenAt(now, key, open);
    }
    if open :| OpenAt(now, key, open) {
      assert OpenAt(log, key, open);
    }
  }

  /** An execution adds one row for each of its steps, but none for those that were open: every open step is ended in its
      old row the first time it is executed again. Afterwards none of its steps is open. */
  lemma {:induction false} ExecutionRows(log: seq<Step>, stages: seq<Stage>, sequenceNo: int)
    requires Invariant(log)
    ensures var now := AfterStages(log, stages, sequenceNo);
            && Invariant(now) && |now| + |OpenKeys(log, stages)| == |log| + |stages|
            && forall key :: Unfinished(now, key) <==> Unfinished(log, key) && forall s :: s in stages ==> s.key != key
    decreases |stages|
  {
    hide Invariant, Unfinished, AfterStage;
    if stages != [] {
      var stage, rest := stages[0], stages[1..];
      var now := AfterStage(log, stage, sequenceNo);
      var _ := StageResult(log, stage, sequenceNo);
      ExecutionRows(now, rest, sequenceNo + 1);
      forall key ensures Unfinished(now, key) <==> Unfinished(log, key) && key != stage.key {
        StageCloses(log, stage, sequenceNo, key);
      }
      assert forall s :: s in stages <==> s == stage || s in rest;
      assert OpenKeys(now, rest) == OpenKeys(log, stages) - {stage.key};
      assert Unfinished(log, stage.key) <==> stage.key in OpenKeys(log, stages);
    }
  }

  function RowsOf(stages: seq<Stage>, first: int): seq<Step> {
    if stages == [] then [] else [RowOf(stages[0], first)] + RowsOf(stages[1..], first + 1)
  }

  lemma {:induction false} RowCount(stages: seq<Stage>, first: int)
    ensures |RowsOf(stages, first)| == |stages|
  {
    if stages != [] {
      RowCount(stages[1..], first + 1);
    }
  }

  lemma {:induction false} ExecutionAppends(log: seq<Step>, stages: seq<Stage>, sequenceNo: int)
    requires Invariant(log) && forall s :: s in stages ==> !Unfinished(log, s.key)
    ensures AfterStages(log, stages, sequenceNo) == log + RowsOf(stages, NextNumber(log, sequenceNo))
    decreases |stages|
  {
    hide Invariant, Unfinished, AfterStage;
    if stages != [] {
      var now := AfterStage(log, stages[0], sequenceNo);
      var row := RowOf(stages[0], NextNumber(log, sequenceNo));
      assert stages[0] in stages;
      var _ := StageResult(log, stages[0], sequenceNo);
      forall s | s in stages[1..] ensures !Unfinished(now, s.key) {
        assert s in stages;
        StageCloses(log, stages[0], sequenceNo, s.key);
      }
      ExecutionAppends(now, stages[1..], sequenceNo + 1);
      assert NextNumber(now, sequenceNo + 1) == row.idx + 1;
      assert log + ([row] + RowsOf(stages[1..], row.idx + 1)) == (log + [row]) + RowsOf(stages[1..], row.idx + 1);
    }
  }

  /** An execution that ends its steps adds its rows, numbered through, and touches nothing else if and only if none of
      its steps is open: so the log of a run is its executions one after the other exactly as long as none of them begins
      while a step is open. */
  lemma ExecutionAppendsExactly(log: seq<Step>, stages: seq<Stage>, sequenceNo: int)
    requires Invariant(log)
    ensures AfterStages(log, stages, sequenceNo) == log + RowsOf(stages, NextNumber(log, sequenceNo))
       <==> forall s :: s in stages ==> !Unfinished(log, s.key)
  {
    hide Invariant, Unfinished, AfterStages;
    if forall s :: s in stages ==> !Unfinished(log, s.key) {
      ExecutionAppends(log, stages, sequenceNo);
    } else {
      var s :| s in stages && Unfinished(log, s.key);
      ExecutionRows(log, stages, sequenceNo);
      RowCount(stages, NextNumber(log, sequenceNo));
      assert s.key in OpenKeys(log, stages);
    }
  }

  // ---- a retry after a step that was not ended -----------------------------

  lemma {:induction false} StagesSplit(log: seq<Step>, front: seq<Stage>, last: Stage, sequenceNo: int)
    ensures AfterStages(log, front + [last], sequenceNo)
         == AfterStage(AfterStages(log, front, sequenceNo), last, sequenceNo + |front|)
    decreases |front|
  {
    hide AfterStage;
    if front == [] {
      assert front + [last] == [last] && [last][1..] == [];
      assert AfterStages(log, [last], sequenceNo) == AfterStages(AfterStage(log, last, sequenceNo), [], sequenceNo + 1);
    } else {
      assert (front + [last])[1..] == front[1..] + [last];
      StagesSplit(AfterStage(log, front[0], sequenceNo), front[1..], last, sequenceNo + 1);
    }
  }

  /** The log of a first execution whose last step was started and not ended. */
  function CutOff(front: seq<Stage>, last: Stage, first: int): seq<Step> {
    RowsOf(front, first) + [Step(last.key, last.caption, first + |front|, Running, Some("started"))]
  }

  lemma NothingOpen()
    ensures Invariant([]) && forall key :: !Unfinished([], key)
  {
  }

  lemma OneStart(log: seq<Step>, stage: Stage, sequenceNo: int)
    requires Invariant(log) && !Unfinished(log, stage.key)
    ensures var now := AfterReports(log, [StartOf(stage, sequenceNo)]);
            && Invariant(now)
            && now == log + [Step(stage.key, stage.caption, NextNumber(log, sequenceNo), Running, Some("started"))]
  {
    hide Unfinished, Reported, Invariant;
    var start := StartOf(stage, sequenceNo);
    var _ := Started(log, stage, sequenceNo);
    ReportKeepsInvariant(log, start);
    assert [start][1..] == [];
    assert AfterReports(log, [start]) == AfterReports(Reported(log, start).value.0, []);
  }

  /** The first execution of a run does its steps, and its last one is started and not ended. */
  lemma CutOffInLastStep(front: seq<Stage>, last: Stage, first: int)
    ensures var log := AfterReports(AfterStages([], front, first), [StartOf(last, first + |front|)]);
            && log == CutOff(front, last, first) && Invariant(log)
            && forall key :: Unfinished(log, key) <==> key == last.key
  {
    hide Unfinished, Invariant, AfterStages, AfterReports, RowsOf;
    NothingOpen();
    ExecutionAppends([], front, first);
    ExecutionRows([], front, first);
    var done := RowsOf(front, first);
    assert [] + done == done;
    FirstNumber(front, first);
    OneStart(done, last, first + |front|);
    forall key ensures Unfinished(CutOff(front, last, first), key) <==> key == last.key {
      OneOpen(done, CutOff(front, last, first)[|done|], key);
    }
  }

  lemma FirstNumber(front: seq<Stage>, first: int)
    ensures NextNumber(RowsOf(front, first), first + |front|) == first + |front|
  {
    RowCount(front, first);
  }

  lemma OneOpen(done: seq<Step>, row: Step, key: string)
    requires !Unfinished(done, key) && row.status == Running
    ensures Unfinished(done + [row], key) <==> row.key == key
  {
    if row.key == key {
      assert OpenAt(done + [row], key, |done|);
    }
    if k :| OpenAt(done + [row], key, k) {
      assert k < |done| ==> OpenAt(done, key, k);
    }
  }

  /** The retry does the same steps: the other steps get rows of their own behind the row of the one that was not ended,
      and that row, of the first execution, gets the outcome of the second. */
  lemma RetryRewritesCutOff(front: seq<Stage>, last: Stage, again: seq<Stage>, lastAgain: Stage, first: int)
    requires forall s :: s in again ==> s.key != last.key
    requires lastAgain.key == last.key && lastAgain.caption == last.caption
    ensures var log := AfterReports(AfterStages([], front, first), [StartOf(last, first + |front|)]);
            AfterStages(log, again + [lastAgain], first) ==
            RowsOf(front, first) + [RowOf(lastAgain, first + |front|)] + RowsOf(again, first + |front| + 1)
  {
    hide Unfinished, Invariant, AfterStage, AfterStages, AfterReports, Reported;
    CutOffInLastStep(front, last, first);
    RowCount(front, first);
    var log := CutOff(front, last, first);
    CutOffNumber(front, last, first);
    ExecutionAppends(log, again, first);
    ExecutionRows(log, again, first);
    StagesSplit(log, again, lastAgain, first);
    var now := AfterStages(log, again, first);
    assert now[|front|] == log[|front|];
    assert OpenAt(now, lastAgain.key, |front|);
    StageRewrites(now, lastAgain, first + |again|, |front|);
  }

  lemma CutOffNumber(front: seq<Stage>, last: Stage, first: int)
    ensures NextNumber(CutOff(front, last, first), first) == first + |front| + 1
  {
    RowCount(front, first);
  }

  /** The steps of `execute_codex_local_run`, and how each of them ends. */
  function FiveSteps(ends: seq<(bool, string)>): seq<Stage>
    requires |ends| == 5
  {
    [Stage("inspect_repository", "Inspect repository", ends[0].0, ends[0].1),
     Stage("prepare_context", "Prepare execution context", ends[1].0, ends[1].1),
     Stage("execute_codex", "Execute Codex task", ends[2].0, ends[2].1),
     Stage("validate_results", "Validate results", ends[3].0, ends[3].1),
     Stage("finalize_outputs", "Finalize outputs", ends[4].0, ends[4].1)]
  }

  /** The finalize step raises, which leaves it open, and the run is started again: after two executions of five steps the
      log has nine rows, the fifth of which is the finalize step of the second. */
  lemma FinalizeIsRewritten(once: seq<(bool, string)>, twice: seq<(bool, string)>)
    requires |once| == 5 && |twice| == 5
    ensures var one, two := FiveSteps(once), FiveSteps(twice);
            var log := AfterReports(AfterStages([], one[..4], 1), [StartOf(one[4], 5)]);
            var now := AfterStages(log, two, 1);
            |log| == 5 && |now| == 9 && now == RowsOf(one[..4], 1) + [RowOf(two[4], 5)] + RowsOf(two[..4], 6)
  {
    hide AfterStages, AfterReports;
    var one, two := FiveSteps(once), FiveSteps(twice);
    assert two == two[..4] + [two[4]];
    CutOffInLastStep(one[..4], one[4], 1);
    RetryRewritesCutOff(one[..4], one[4], two[..4], two[4], 1);
    RowCount(one[..4], 1);
    RowCount(two[..4], 6);
  }
}
