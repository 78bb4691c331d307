/** The legacy run queue: claims, renewals and finishes by any number of workers, runs nested in other runs, and what the
    HTTP handlers do to the same rows, as the clock goes on. */
module LeaseQueue {
  import opened Wrappers
  import opened Ordering

  type RunId = nat
  type WorkerId = string

  datatype Status = Queued | Running | Completed | Failed | Blocked | Cancelled

  datatype Row = Row(
    status: Status, priority: int, runAt: Option<int>, queuedAt: Option<int>, createdAt: int,
    lockedBy: Option<WorkerId>, lockedAt: Option<int>, leaseExpiresAt: Option<int>, startedAt: Option<int>)

  type Rows = map<RunId, Row>

  // ---- the statements ------------------------------------------------------

  /** COALESCE(run_at, queued_at, created_at, NOW()); created_at is never null. */
  function ReadyAt(row: Row): int {
    if row.runAt.Some? then row.runAt.value else if row.queuedAt.Some? then row.queuedAt.value else row.createdAt
  }

  predicate Expired(row: Row, now: int) {
    row.status == Running && row.leaseExpiresAt.Some? && row.leaseExpiresAt.value < now
  }

  predicate Eligible(row: Row, now: int) {
    (row.status == Queued && ReadyAt(row) <= now) || Expired(row, now)
  }

  /** ORDER BY priority, expired leases first, run_at NULLS LAST, queued_at NULLS LAST, created_at. */
  predicate ClaimLeq(a: (RunId, Row), b: (RunId, Row)) {
    if a.1.priority != b.1.priority then a.1.priority < b.1.priority
    else if (a.1.status == Running) != (b.1.status == Running) then a.1.status == Running
    else if a.1.runAt != b.1.runAt then NullsLastLess(a.1.runAt, b.1.runAt)
    else if a.1.queuedAt != b.1.queuedAt then NullsLastLess(a.1.queuedAt, b.1.queuedAt)
    else a.1.createdAt <= b.1.createdAt
  }

  lemma ClaimOrderTotal()
    ensures TotalPreorder(ClaimLeq)
  {
  }

  ghost function EligibleIds(rows: Rows, now: int): set<RunId> {
    set id | id in rows && Eligible(rows[id], now)
  }

  /** The first `limit` eligible rows, however ties are broken. */
  ghost predicate IsBatch(rows: Rows, now: int, limit: nat, picked: set<RunId>) {
    var eligible := EligibleIds(rows, now);
    && picked <= eligible
    && |picked| == (if |eligible| < limit then |eligible| else limit)
    && forall p, q :: p in picked && q in eligible && q !in picked ==> ClaimLeq((p, rows[p]), (q, rows[q]))
  }

  function Claimed(row: Row, w: WorkerId, now: int, lease: nat): Row {
    row.(status := Running, lockedAt := Some(now), lockedBy := Some(w), leaseExpiresAt := Some(now + lease),
         startedAt := if row.startedAt.Some? then row.startedAt else Some(now))
  }

  function AfterClaim(rows: Rows, picked: set<RunId>, w: WorkerId, now: int, lease: nat): Rows {
    map id | id in rows :: if id in picked then Claimed(rows[id], w, now, lease) else rows[id]
  }

  predicate Owns(rows: Rows, w: WorkerId, id: RunId) {
    id in rows && rows[id].status == Running && rows[id].lockedBy == Some(w)
  }

  function AfterRenew(rows: Rows, w: WorkerId, id: RunId, now: int, lease: nat): Rows {
    if Owns(rows, w, id) then rows[id := rows[id].(leaseExpiresAt := Some(now + lease))] else rows
  }

  /** The guard of the update that ends a run; without a worker only the status is looked at. */
  predicate MayFinish(rows: Rows, w: Option<WorkerId>, id: RunId, now: int) {
    && id in rows && rows[id].status == Running
    && (w.None? || rows[id].lockedBy == w)
    && (w.None? || (rows[id].leaseExpiresAt.Some? && rows[id].leaseExpiresAt.value > now))
  }

  function AfterFinish(rows: Rows, w: Option<WorkerId>, id: RunId, success: bool, now: int): Rows {
    if MayFinish(rows, w, id, now) then rows[id := rows[id].(status := if success then Completed else Failed)] else rows
  }

  /** `enqueue_run`, with the time from which the run may be claimed. */
  function AfterEnqueue(rows: Rows, id: RunId, priority: int, runAt: Option<int>, now: int): Rows {
    if id in rows then rows
    else rows[id := Row(Queued, priority, if runAt.Some? then runAt else Some(now), Some(now), now, None, None, None, None)]
  }

  /** `run_blueprint` makes the row of a nested run: RUNNING at once, without owner and lease. */
  function AfterNest(rows: Rows, id: RunId, now: int): Rows {
    if id in rows then rows
    else rows[id := Row(Running, 100, Some(now), None, now, None, None, None, Some(now))]
  }

  /** The handlers take any run. A run of this queue is never CREATED. */
  function AfterCancel(rows: Rows, id: RunId): Rows {
    if id in rows && rows[id].status == Running then rows[id := rows[id].(status := Cancelled)] else rows
  }

  function AfterPause(rows: Rows, id: RunId): Rows {
    if id in rows && rows[id].status == Queued then rows[id := rows[id].(status := Blocked)] else rows
  }

  function AfterContinue(rows: Rows, id: RunId, now: int): Rows {
    if id in rows && rows[id].status == Blocked then
      rows[id := rows[id].(status := Queued, queuedAt := Some(now), lockedBy := None, lockedAt := None,
                           leaseExpiresAt := None, startedAt := None)]
    else rows
  }

  class RunTable {
    var rows: Rows

    constructor ()
      ensures rows == map[]
    {
      rows := map[];
    }

    /** The candidate query: the ids of the first `limit` eligible rows. */
    method Candidates(limit: nat, now: int) returns (ids: seq<RunId>)
      ensures NoDuplicates(ids) && IsBatch(rows, now, limit, Elements(ids))
      ensures TakesBatch(rows, now, limit, Elements(ids)) && forall id :: id in ids ==> id in rows
    {
      var candidates := Enumerate(set id | id in rows && Eligible(rows[id], now) :: (id, rows[id]));
      var ordered := Sort(candidates, ClaimLeq);
      ClaimOrderTotal();
      SortSorted(candidates, ClaimLeq);
      SortNoDuplicates(candidates, ClaimLeq);
      SameElements(candidates, ordered);
      var count := if |ordered| < limit then |ordered| else limit;
      ids := seq(count, k requires 0 <= k < count => ordered[k].0);
      PrefixIsBatch(rows, now, limit, ordered, ids);
      BatchExactly(rows, now, limit, Elements(ids));
    }

    method TakeRow(id: RunId, w: WorkerId, now: int, lease: nat)
      requires id in rows
      modifies this
      ensures rows == old(rows)[id := Claimed(old(rows)[id], w, now, lease)]
      ensures id in rows && ClaimColumns(old(rows)[id], rows[id], w, now, lease)
    {
      rows := rows[id := rows[id].(status := Running, lockedAt := Some(now), lockedBy := Some(w))];
      rows := rows[id := rows[id].(leaseExpiresAt := Some(now + lease))];
      if rows[id].startedAt.None? {
        rows := rows[id := rows[id].(startedAt := Some(now))];
      }
    }

    /** All picked rows are claimed; only one of them is returned to the worker. */
    method ClaimRun(w: WorkerId, batchSize: nat, now: int, lease: nat) returns (claimed: Option<RunId>, ghost picked: set<RunId>)
      modifies this
      ensures IsBatch(old(rows), now, batchSize, picked)
      ensures rows == AfterClaim(old(rows), picked, w, now, lease)
      ensures if picked == {} then claimed == None else claimed.Some? && claimed.value in picked
      ensures TakesBatch(old(rows), now, batchSize, picked) && rows.Keys == old(rows).Keys
      ensures forall id :: id in rows ==>
                if id in picked then ClaimColumns(old(rows)[id], rows[id], w, now, lease) else rows[id] == old(rows)[id]
    {
      hide TakesBatch, ClaimColumns, IsBatch;
      forall id | id in rows ensures ClaimColumns(rows[id], Claimed(rows[id], w, now, lease), w, now, lease) {
        ClaimedColumns(rows[id], w, now, lease);
      }
      var ids := Candidates(batchSize, now);
      picked := Elements(ids);
      claimed := if ids == [] then None else Some(ids[0]);
      assert ids != [] ==> ids[0] in picked;
      ghost var was := rows;
      for i := 0 to |ids|
        invariant rows == AfterClaim(was, Elements(ids[..i]), w, now, lease)
      {
        assert ids[i] in picked && ids[..i + 1] == ids[..i] + [ids[i]];
        TakeRow(ids[i], w, now, lease);
      }
      assert ids[..|ids|] == ids;
    }

    method RenewLease(w: WorkerId, id: RunId, now: int, lease: nat) returns (ok: bool)
      modifies this
      ensures ok == Owns(old(rows), w, id)
      ensures rows == AfterRenew(old(rows), w, id, now, lease)
      ensures ok <==> id in old(rows) && old(rows)[id].status == Running && old(rows)[id].lockedBy == Some(w)
      ensures rows == if ok then old(rows)[id := old(rows)[id].(leaseExpiresAt := Some(now + lease))] else old(rows)
    {
      ok := id in rows && rows[id].status == Running && rows[id].lockedBy == Some(w);
      if ok {
        rows := rows[id := rows[id].(leaseExpiresAt := Some(now + lease))];
      }
    }

    method EnqueueRun(id: RunId, priority: int, runAt: Option<int>, now: int)
      requires id !in rows
      modifies this
      ensures rows == AfterEnqueue(old(rows), id, priority, runAt, now)
      ensures id in rows && rows == old(rows)[id := rows[id]] && EnqueueColumns(rows[id], priority, runAt, now)
    {
      var row := Row(Queued, priority, Some(now), Some(now), now, None, None, None, None);
      if runAt.Some? {
        row := row.(runAt := runAt);
      }
      rows := rows[id := row];
    }

    method StartNestedRun(id: RunId, now: int)
      requires id !in rows
      modifies this
      ensures rows == AfterNest(old(rows), id, now)
      ensures id in rows && rows == old(rows)[id := rows[id]]
      ensures rows[id].status == Running && rows[id].lockedBy == None && rows[id].leaseExpiresAt == None
              && rows[id].startedAt == Some(now) && rows[id].createdAt == now && rows[id].priority == 100
    {
      rows := rows[id := Row(Running, 100, Some(now), None, now, None, None, None, Some(now))];
    }

    /** The compare-and-set update that ends a run; `ok` is false where the lease was lost. A nested run has no worker. */
    method FinishRun(w: Option<WorkerId>, id: RunId, success: bool, now: int) returns (ok: bool)
      modifies this
      ensures ok == MayFinish(old(rows), w, id, now)
      ensures rows == AfterFinish(old(rows), w, id, success, now)
      ensures ok <==> id in old(rows) && old(rows)[id].status == Running
                      && (w == None || (old(rows)[id].lockedBy == w && old(rows)[id].leaseExpiresAt != None
                                        && now < old(rows)[id].leaseExpiresAt.value))
      ensures rows == if ok then old(rows)[id := old(rows)[id].(status := if success then Completed else Failed)] else old(rows)
    {
      ok := id in rows && rows[id].status == Running;
      if ok && w.Some? {
        ok := rows[id].lockedBy == w && rows[id].leaseExpiresAt.Some? && rows[id].leaseExpiresAt.value > now;
      }
      if ok {
        rows := rows[id := rows[id].(status := if success then Completed else Failed)];
      }
    }
  }

  // ---- on the columns ------------------------------------------------------

  predicate ClaimColumns(was: Row, now: Row, w: WorkerId, at: int, lease: nat) {
    && now == was.(status := Running, lockedAt := Some(at), lockedBy := Some(w), leaseExpiresAt := Some(at + lease),
                   startedAt := now.startedAt)
    && now.startedAt == (if was.startedAt == None then Some(at) else was.startedAt)
  }

  predicate EnqueueColumns(row: Row, priority: int, runAt: Option<int>, at: int) {
    && row.status == Queued && row.priority == priority && row.queuedAt == Some(at) && row.createdAt == at
    && row.runAt == (if runAt == None then Some(at) else runAt)
    && row.lockedBy == None && row.lockedAt == None && row.leaseExpiresAt == None && row.startedAt == None
  }

  /** A queued row is due from run_at on, without one from queued_at on, and without either from created_at on; a RUNNING
      row is due after its lease. */
  predicate Due(row: Row, now: int) {
    match row.status
    case Queued =>
      && (row.runAt != None ==> row.runAt.value <= now)
      && (row.runAt == None && row.queuedAt != None ==> row.queuedAt.value <= now)
      && (row.runAt == None && row.queuedAt == None ==> row.createdAt <= now)
    case Running => row.leaseExpiresAt != None && row.leaseExpiresAt.value < now
    case _ => false
  }

  /** Earlier first, those that have none last. */
  predicate NotLater(a: Option<int>, b: Option<int>) {
    (a == None ==> b == None) && (a != None && b != None ==> a.value <= b.value)
  }

  /** Smaller priority first, then expired leases, then run_at, queued_at and created_at. */
  predicate GoesFirst(p: Row, q: Row) {
    && p.priority <= q.priority
    && (p.priority == q.priority ==>
          && (q.status == Running ==> p.status == Running)
          && (p.status == q.status ==>
                && NotLater(p.runAt, q.runAt)
                && (p.runAt == q.runAt ==> NotLater(p.queuedAt, q.queuedAt))
                && (p.runAt == q.runAt && p.queuedAt == q.queuedAt ==> p.createdAt <= q.createdAt)))
  }

  ghost function DueIds(rows: Rows, now: int): set<RunId> {
    set id | id in rows && Due(rows[id], now)
  }

  /** Rows that are due are taken, as many as asked for or all, and none that is left goes first. */
  ghost predicate TakesBatch(rows: Rows, now: int, limit: nat, picked: set<RunId>) {
    && picked <= DueIds(rows, now)
    && (|picked| == limit || picked == DueIds(rows, now)) && |picked| <= limit
    && forall p, q :: p in picked && q in DueIds(rows, now) - picked ==> GoesFirst(rows[p], rows[q])
  }

  lemma ClaimedColumns(row: Row, w: WorkerId, now: int, lease: nat)
    ensures ClaimColumns(row, Claimed(row, w, now, lease), w, now, lease)
  {
  }

  lemma DueExactly(row: Row, now: int)
    ensures Due(row, now) <==> Eligible(row, now)
  {
  }

  lemma DueOrder(p: (RunId, Row), q: (RunId, Row), now: int)
    requires Due(p.1, now) && Due(q.1, now) && ClaimLeq(p, q)
    ensures GoesFirst(p.1, q.1)
  {
  }

  lemma SubsetOfSameSize<T>(xs: set<T>, ys: set<T>)
    requires xs <= ys && |xs| == |ys|
    ensures xs == ys
  {
    assert |ys - xs| == 0;
  }

  lemma BatchExactly(rows: Rows, now: int, limit: nat, picked: set<RunId>)
    requires IsBatch(rows, now, limit, picked)
    ensures TakesBatch(rows, now, limit, picked)
  {
    hide Due, Eligible, ClaimLeq, GoesFirst;
    forall id | id in rows ensures Due(rows[id], now) <==> Eligible(rows[id], now) {
      DueExactly(rows[id], now);
    }
    assert DueIds(rows, now) == EligibleIds(rows, now);
    if |picked| != limit {
      SubsetOfSameSize(picked, EligibleIds(rows, now));
    }
    forall p, q | p in picked && q in DueIds(rows, now) - picked ensures GoesFirst(rows[p], rows[q]) {
      DueOrder((p, rows[p]), (q, rows[q]), now);
    }
  }

  lemma HandlersExactly(rows: Rows, id: RunId, now: int)
    ensures AfterCancel(rows, id) == if id in rows && rows[id].status == Running
                                     then rows[id := rows[id].(status := Cancelled)] else rows
    ensures AfterPause(rows, id) == if id in rows && rows[id].status == Queued
                                    then rows[id := rows[id].(status := Blocked)] else rows
    ensures var t := AfterContinue(rows, id, now);
            if id in rows && rows[id].status == Blocked
            then id in t && t == rows[id := t[id]] && t[id].status == Queued && t[id].queuedAt == Some(now)
                 && t[id].lockedBy == None && t[id].lockedAt == None && t[id].leaseExpiresAt == None && t[id].startedAt == None
                 && t[id].priority == rows[id].priority && t[id].runAt == rows[id].runAt && t[id].createdAt == rows[id].createdAt
            else t == rows
  {
  }

  ghost function Elements(ids: seq<RunId>): set<RunId> {
    set id | id in ids
  }

  lemma {:induction false} ElementCount(ids: seq<RunId>)
    requires NoDuplicates(ids)
    ensures |Elements(ids)| == |ids|
  {
    if ids != [] {
      ElementCount(ids[1..]);
      assert ids[0] !in ids[1..];
      assert Elements(ids) == {ids[0]} + Elements(ids[1..]);
    }
  }

  lemma OrderedIds(rows: Rows, now: int, ordered: seq<(RunId, Row)>, all: seq<RunId>)
    requires NoDuplicates(ordered)
    requires forall row :: row in ordered <==> row.0 in rows && rows[row.0] == row.1 && Eligible(row.1, now)
    requires |all| == |ordered| && forall k :: 0 <= k < |all| ==> all[k] == ordered[k].0
    ensures NoDuplicates(all) && Elements(all) == EligibleIds(rows, now) && |EligibleIds(rows, now)| == |all|
    ensures forall k :: 0 <= k < |all| ==> all[k] in rows && rows[all[k]] == ordered[k].1
  {
    forall k | 0 <= k < |ordered| ensures all[k] in EligibleIds(rows, now) && rows[all[k]] == ordered[k].1 {
      assert ordered[k] in ordered;
    }
    forall id | id in EligibleIds(rows, now) ensures id in all {
      var k :| 0 <= k < |ordered| && ordered[k] == (id, rows[id]);
      assert all[k] == id;
    }
    assert Elements(all) == EligibleIds(rows, now);
    ElementCount(all);
  }

  lemma PrefixIsBatch(rows: Rows, now: int, limit: nat, ordered: seq<(RunId, Row)>, ids: seq<RunId>)
    requires NoDuplicates(ordered) && SortedBy(ordered, ClaimLeq)
    requires forall row :: row in ordered <==> row.0 in rows && rows[row.0] == row.1 && Eligible(row.1, now)
    requires |ids| == if |ordered| < limit then |ordered| else limit
    requires forall k :: 0 <= k < |ids| ==> ids[k] == ordered[k].0
    ensures NoDuplicates(ids) && IsBatch(rows, now, limit, Elements(ids))
  {
    var all := seq(|ordered|, k requires 0 <= k < |ordered| => ordered[k].0);
    OrderedIds(rows, now, ordered, all);
    assert ids == all[..|ids|];
    ElementCount(ids);
    forall p, q | p in ids && q in EligibleIds(rows, now) && q !in ids ensures ClaimLeq((p, rows[p]), (q, rows[q])) {
      var i :| 0 <= i < |ids| && ids[i] == p;
      assert q in Elements(all);
      var j :| 0 <= j < |all| && all[j] == q;
      assert SortedBy(ordered, ClaimLeq) && i < j;
    }
  }

  // ---- interleavings -------------------------------------------------------

  /** The table, the clock, and what each worker believes of the leases it took or renewed: until when they last. */
  datatype World = World(rows: Rows, now: int, believes: map<(WorkerId, RunId), int>)

  datatype Op =
    | Tick(seconds: nat)
    | Enqueue(id: RunId, priority: int, runAt: Option<int>)
    | Claim(w: WorkerId, batchSize: nat, picked: set<RunId>, returned: Option<RunId>)
    | Renew(w: WorkerId, id: RunId)
    | Finish(worker: Option<WorkerId>, id: RunId, success: bool)
    | Nest(id: RunId)
    | Cancel(id: RunId)
    | Pause(id: RunId)
    | Continue(id: RunId)

  /** A claim takes what the query gives; only nested runs are executed, and finished, without a worker. */
  ghost predicate Enabled(v: World, op: Op) {
    match op
    case Claim(_, batchSize, picked, returned) =>
      && IsBatch(v.rows, v.now, batchSize, picked)
      && (returned.Some? ==> returned.value in picked)
    case Finish(w, id, _) => w.None? && id in v.rows ==> v.rows[id].lockedBy.None?
    case _ => true
  }

  function Step(v: World, op: Op, lease: nat): World {
    match op
    case Tick(seconds) => v.(now := v.now + seconds)
    case Enqueue(id, priority, runAt) => v.(rows := AfterEnqueue(v.rows, id, priority, runAt, v.now))
    case Claim(w, _, picked, returned) =>
      World(AfterClaim(v.rows, picked, w, v.now, lease), v.now,
            if returned.Some? then v.believes[(w, returned.value) := v.now + lease] else v.believes)
    case Renew(w, id) =>
      World(AfterRenew(v.rows, w, id, v.now, lease), v.now,
            if Owns(v.rows, w, id) then v.believes[(w, id) := v.now + lease] else v.believes)
    case Finish(w, id, success) =>
      World(AfterFinish(v.rows, w, id, success, v.now), v.now, if w.Some? then v.believes - {(w.value, id)} else v.believes)
    case Nest(id) => v.(rows := AfterNest(v.rows, id, v.now))
    case Cancel(id) => v.(rows := AfterCancel(v.rows, id))
    case Pause(id) => v.(rows := AfterPause(v.rows, id))
    case Continue(id) => v.(rows := AfterContinue(v.rows, id, v.now))
  }

  ghost function Exec(v: World, ops: seq<Op>, lease: nat): World
    decreases |ops|
  {
    if ops == [] then v else Exec(Step(v, ops[0], lease), ops[1..], lease)
  }

  ghost predicate Valid(v: World, ops: seq<Op>, lease: nat)
    decreases |ops|
  {
    ops == [] || (Enabled(v, ops[0]) && Valid(Step(v, ops[0], lease), ops[1..], lease))
  }

  /** The worker believes that its lease on the run has not expired. */
  predicate Confident(v: World, w: WorkerId, id: RunId) {
    (w, id) in v.believes && v.believes[(w, id)] >= v.now
  }

  /** The row is the worker's, although it may have been cancelled. */
  predicate Holds(rows: Rows, w: WorkerId, id: RunId) {
    id in rows && rows[id].lockedBy == Some(w) && rows[id].status in {Running, Cancelled}
  }

  ghost predicate Invariant(v: World, lease: nat) {
    && (forall w, id :: Confident(v, w, id) ==>
          Holds(v.rows, w, id) && v.rows[id].leaseExpiresAt == Some(v.believes[(w, id)]))
    && (forall id :: id in v.rows && v.rows[id].status == Running ==> LeaseInOrder(v.rows[id], v.now, lease))
  }

  /** A RUNNING row has a lease exactly if it has an owner. */
  predicate LeaseInOrder(row: Row, now: int, lease: nat) {
    && (row.lockedBy.Some? <==> row.leaseExpiresAt.Some?)
    && (row.leaseExpiresAt.Some? ==> row.leaseExpiresAt.value <= now + lease)
  }

  lemma StepKeepsInvariant(v: World, op: Op, lease: nat)
    requires Invariant(v, lease) && Enabled(v, op)
    ensures Invariant(Step(v, op, lease), lease)
  {
    var t := Step(v, op, lease);
    forall w, id | Confident(t, w, id)
      ensures Holds(t.rows, w, id) && t.rows[id].leaseExpiresAt == Some(t.believes[(w, id)])
    {
      assert Confident(v, w, id) || (t.believes[(w, id)] == v.now + lease && (op.Claim? || op.Renew?));
      if op.Claim? && id in op.picked {
        assert Eligible(v.rows[id], v.now);
        assert !Confident(v, w, id);
      }
    }
  }

  /** Finishing a RUNNING run without naming a worker keeps the invariant if and only if no worker is confident of it. */
  lemma FinishWithoutWorkerExactly(v: World, id: RunId, success: bool, lease: nat)
    requires Invariant(v, lease) && id in v.rows && v.rows[id].status == Running
    ensures Invariant(Step(v, Finish(None, id, success), lease), lease) <==> forall w :: !Confident(v, w, id)
  {
    var t := Step(v, Finish(None, id, success), lease);
    if w :| Confident(v, w, id) {
      assert Confident(t, w, id) && !Holds(t.rows, w, id);
    } else {
      forall w, j | Confident(t, w, j) ensures Holds(t.rows, w, j) && t.rows[j].leaseExpiresAt == Some(t.believes[(w, j)]) {
        assert Confident(v, w, j);
      }
    }
  }

  lemma {:induction false} ExecKeepsInvariant(v: World, ops: seq<Op>, lease: nat)
    requires Invariant(v, lease) && Valid(v, ops, lease)
    ensures Invariant(Exec(v, ops, lease), lease)
    decreases |ops|
  {
    if ops != [] {
      StepKeepsInvariant(v, ops[0], lease);
      ExecKeepsInvariant(Step(v, ops[0], lease), ops[1..], lease);
    }
  }

  const START: World := World(map[], 0, map[])

  /** Whatever the interleaving, two workers are never both confident of the same run; a confident worker is the one in
      the row, and the run is still its own to finish unless it was cancelled. */
  lemma NoTwoUnexpiredLeases(ops: seq<Op>, lease: nat, w: WorkerId, other: WorkerId, id: RunId)
    requires Valid(START, ops, lease)
    requires Confident(Exec(START, ops, lease), w, id)
    ensures Holds(Exec(START, ops, lease).rows, w, id)
    ensures Owns(Exec(START, ops, lease).rows, w, id) <==> Exec(START, ops, lease).rows[id].status != Cancelled
    ensures Confident(Exec(START, ops, lease), other, id) ==> other == w
  {
    ExecKeepsInvariant(START, ops, lease);
  }

  /** A finished or cancelled row is never touched again, so a run is finished at most once. */
  lemma {:induction false} FinishedIsFrozen(v: World, ops: seq<Op>, lease: nat, id: RunId)
    requires Valid(v, ops, lease) && id in v.rows && v.rows[id].status in {Completed, Failed, Cancelled}
    ensures id in Exec(v, ops, lease).rows && Exec(v, ops, lease).rows[id] == v.rows[id]
    decreases |ops|
  {
    if ops != [] {
      FinishedIsFrozen(Step(v, ops[0], lease), ops[1..], lease, id);
    }
  }

  // ---- keeping and losing a run --------------------------------------------

  /** The worker renews in time: after `left` more seconds without a renewal it would be late. It does not finish. */
  ghost predicate Timely(ops: seq<Op>, w: WorkerId, id: RunId, left: int, lease: nat)
    decreases |ops|
  {
    left >= 0 && (ops == [] ||
      match ops[0]
      case Tick(seconds) => Timely(ops[1..], w, id, left - seconds, lease)
      case Renew(v, j) => Timely(ops[1..], w, id, if v == w && j == id then lease else left, lease)
      case Finish(v, j, _) => (v != Some(w) || j != id) && Timely(ops[1..], w, id, left, lease)
      case _ => Timely(ops[1..], w, id, left, lease))
  }

  /** A worker whose claims and renewals are at most a lease apart keeps its run, whatever the other workers do, if and
      only if nobody cancels the run. */
  lemma {:induction false} TimelyWorkerKeepsRun(v: World, ops: seq<Op>, lease: nat, w: WorkerId, id: RunId)
    requires Invariant(v, lease) && Valid(v, ops, lease) && Confident(v, w, id) && Owns(v.rows, w, id)
    requires Timely(ops, w, id, v.believes[(w, id)] - v.now, lease)
    ensures Owns(Exec(v, ops, lease).rows, w, id) <==> Cancel(id) !in ops
    ensures Cancel(id) !in ops ==> Confident(Exec(v, ops, lease), w, id)
    decreases |ops|
  {
    if ops != [] {
      var t := Step(v, ops[0], lease);
      if ops[0] == Cancel(id) {
        FinishedIsFrozen(t, ops[1..], lease, id);
      } else {
        StepKeepsInvariant(v, ops[0], lease);
        assert !Eligible(v.rows[id], v.now);
        TimelyWorkerKeepsRun(t, ops[1..], lease, w, id);
      }
    }
  }

  const ENQUEUE_1: Op := Enqueue(1, 100, None)
  const CLAIM_1: Op := Claim("a", 1, {1}, Some(1))

  lemma ClaimsTheOnlyRun()
    ensures IsBatch(AfterEnqueue(map[], 1, 100, None, 0), 0, 1, {1})
  {
    var rows := AfterEnqueue(map[], 1, 100, None, 0);
    assert EligibleIds(rows, 0) == {1};
  }

  /** A run is enqueued, claimed and cancelled; its worker still has all of its lease and cannot renew or finish. */
  lemma CancelTakesTheRun(lease: nat)
    ensures var ops := [ENQUEUE_1, CLAIM_1, Cancel(1)];
            var v := Exec(START, ops, lease);
            && Valid(START, ops, lease) && Confident(v, "a", 1) && v.believes[("a", 1)] == v.now + lease
            && Step(v, Renew("a", 1), lease) == v
            && forall success :: Step(v, Finish(Some("a"), 1, success), lease).rows == v.rows
  {
    ClaimsTheOnlyRun();
    var v1 := Step(START, ENQUEUE_1, lease);
    var v2 := Step(v1, CLAIM_1, lease);
    var v3 := Step(v2, Cancel(1), lease);
    assert [ENQUEUE_1, CLAIM_1, Cancel(1)][1..] == [CLAIM_1, Cancel(1)] && [CLAIM_1, Cancel(1)][1..] == [Cancel(1)];
    assert Exec(START, [ENQUEUE_1, CLAIM_1, Cancel(1)], lease) == Exec(v1, [CLAIM_1, Cancel(1)], lease)
        == Exec(v2, [Cancel(1)], lease) == Exec(v3, [], lease);
    assert Valid(v2, [Cancel(1)], lease) && Valid(v1, [CLAIM_1, Cancel(1)], lease);
  }

  /** The renewal task: it sleeps half a lease, and each renewal comes at most `delay` seconds late. */
  ghost predicate RenewsEveryHalfLease(ops: seq<Op>, w: WorkerId, id: RunId, since: nat, delay: nat, lease: nat)
    decreases |ops|
  {
    since <= lease / 2 + delay && (ops == [] ||
      match ops[0]
      case Tick(seconds) => RenewsEveryHalfLease(ops[1..], w, id, since + seconds, delay, lease)
      case Renew(v, j) => RenewsEveryHalfLease(ops[1..], w, id, if v == w && j == id then 0 else since, delay, lease)
      case Finish(v, j, _) => (v != Some(w) || j != id) && RenewsEveryHalfLease(ops[1..], w, id, since, delay, lease)
      case _ => RenewsEveryHalfLease(ops[1..], w, id, since, delay, lease))
  }

  /** Such a task is in time as long as it is never later than the other half of the lease. */
  lemma {:induction false} HalfLeaseIsTimely(ops: seq<Op>, w: WorkerId, id: RunId, since: nat, delay: nat, lease: nat)
    requires RenewsEveryHalfLease(ops, w, id, since, delay, lease)
    requires delay <= lease - lease / 2
    ensures Timely(ops, w, id, lease - since, lease)
    decreases |ops|
  {
    if ops != [] {
      match ops[0]
      case Tick(seconds) => HalfLeaseIsTimely(ops[1..], w, id, since + seconds, delay, lease);
      case Renew(v, j) => HalfLeaseIsTimely(ops[1..], w, id, if v == w && j == id then 0 else since, delay, lease);
      case _ => HalfLeaseIsTimely(ops[1..], w, id, since, delay, lease);
    }
  }

  function Elapsed(ops: seq<Op>): nat {
    if ops == [] then 0 else (if ops[0].Tick? then ops[0].seconds else 0) + Elapsed(ops[1..])
  }

  /** A successful renewal, finish or cancellation of the run, or a claim that takes it. */
  predicate Touches(v: World, op: Op, id: RunId) {
    match op
    case Renew(w, j) => j == id && Owns(v.rows, w, id)
    case Finish(w, j, _) => j == id && MayFinish(v.rows, w, id, v.now)
    case Claim(_, _, picked, _) => id in picked
    case Cancel(j) => j == id && id in v.rows && v.rows[id].status == Running
    case _ => false
  }

  ghost predicate Neglected(v: World, ops: seq<Op>, lease: nat, id: RunId)
    decreases |ops|
  {
    ops == [] || (!Touches(v, ops[0], id) && Neglected(Step(v, ops[0], lease), ops[1..], lease, id))
  }

  /** Whoever stops renewing a run, or was never told that its batch contained it, loses it after one lease:
      the run can be claimed again. No run that has an owner is stranded. */
  lemma {:induction false} NeglectedRunBecomesClaimable(v: World, ops: seq<Op>, lease: nat, id: RunId)
    requires Invariant(v, lease) && Valid(v, ops, lease)
    requires id in v.rows && v.rows[id].status == Running && v.rows[id].lockedBy.Some?
    requires Neglected(v, ops, lease, id)
    ensures id in Exec(v, ops, lease).rows && Exec(v, ops, lease).rows[id] == v.rows[id]
    ensures Exec(v, ops, lease).now == v.now + Elapsed(ops)
    ensures Elapsed(ops) > lease ==> Eligible(Exec(v, ops, lease).rows[id], Exec(v, ops, lease).now)
    decreases |ops|
  {
    if ops != [] {
      var t := Step(v, ops[0], lease);
      StepKeepsInvariant(v, ops[0], lease);
      NeglectedRunBecomesClaimable(t, ops[1..], lease, id);
    }
  }

  /** The process of a nested run finishes it, or somebody cancels it. */
  predicate Ends(op: Op, id: RunId) {
    op == Cancel(id) || (op.Finish? && op.id == id && op.worker.None?)
  }

  /** A nested run has no lease that could expire: it is never claimed, and it stays RUNNING exactly as long as its own
      process does not finish it and nobody cancels it. If the process dies, only a cancellation can end it. */
  lemma {:induction false} NestedRunIsNeverClaimed(v: World, ops: seq<Op>, lease: nat, id: RunId)
    requires Invariant(v, lease) && Valid(v, ops, lease)
    requires id in v.rows && v.rows[id].status == Running && v.rows[id].lockedBy.None?
    ensures var t := Exec(v, ops, lease);
            && id in t.rows && !Eligible(t.rows[id], t.now) && t.rows[id].lockedBy.None?
            && (t.rows[id].status == Running <==> forall op :: op in ops ==> !Ends(op, id))
    decreases |ops|
  {
    if ops != [] {
      var t := Step(v, ops[0], lease);
      StepKeepsInvariant(v, ops[0], lease);
      assert ops[0] in ops && !Eligible(v.rows[id], v.now);
      if Ends(ops[0], id) {
        FinishedIsFrozen(t, ops[1..], lease, id);
      } else {
        NestedRunIsNeverClaimed(t, ops[1..], lease, id);
        assert forall op :: op in ops ==> op == ops[0] || op in ops[1..];
      }
    }
  }

  // ---- delayed runs --------------------------------------------------------

  /** A run that is queued for a time is left alone until then, whatever the workers do, unless somebody pauses it; from
      then on a claim can take it. */
  lemma {:induction false} DelayedRunWaits(v: World, ops: seq<Op>, lease: nat, id: RunId, at: int)
    requires Valid(v, ops, lease) && Pause(id) !in ops
    requires id in v.rows && v.rows[id].status == Queued && v.rows[id].runAt == Some(at)
    ensures var t := Exec(v, ops, lease);
            && (t.now < at ==> id in t.rows && t.rows[id] == v.rows[id])
            && (id in t.rows && t.rows[id].status == Queued && t.rows[id].runAt == Some(at) && at <= t.now ==>
                  exists limit, picked :: IsBatch(t.rows, t.now, limit, picked) && id in picked)
    decreases |ops|
  {
    if ops == [] {
      CanBePicked(v, id, at);
    } else {
      var t := Step(v, ops[0], lease);
      TimeGoesOn(t, ops[1..], lease);
      if id in t.rows && t.rows[id] == v.rows[id] {
        DelayedRunWaits(t, ops[1..], lease, id, at);
      } else {
        assert ops[0] in ops && ops[0].Claim? && id in ops[0].picked && Eligible(v.rows[id], v.now);
        assert at <= v.now;
        CanBePicked(Exec(v, ops, lease), id, at);
      }
    }
  }

  lemma {:induction false} TimeGoesOn(v: World, ops: seq<Op>, lease: nat)
    ensures v.now <= Exec(v, ops, lease).now
    decreases |ops|
  {
    if ops != [] {
      TimeGoesOn(Step(v, ops[0], lease), ops[1..], lease);
    }
  }

  lemma CanBePicked(v: World, id: RunId, at: int)
    ensures id in v.rows && v.rows[id].status == Queued && v.rows[id].runAt == Some(at) && at <= v.now ==>
              exists limit, picked :: IsBatch(v.rows, v.now, limit, picked) && id in picked
  {
    if id in v.rows && v.rows[id].status == Queued && v.rows[id].runAt == Some(at) && at <= v.now {
      var all := EligibleIds(v.rows, v.now);
      assert IsBatch(v.rows, v.now, |all|, all) && id in all;
    }
  }

  /** A claim never takes a queued run while it leaves an expired one of the same or a better priority. */
  lemma ExpiredRunsComeFirst(rows: Rows, now: int, limit: nat, picked: set<RunId>, queued: RunId, expired: RunId)
    requires IsBatch(rows, now, limit, picked)
    requires queued in picked && rows[queued].status == Queued
    requires expired in rows && Expired(rows[expired], now) && rows[expired].priority <= rows[queued].priority
    ensures expired in picked
  {
    assert expired in EligibleIds(rows, now);
    assert !ClaimLeq((queued, rows[queued]), (expired, rows[expired]));
  }
}
