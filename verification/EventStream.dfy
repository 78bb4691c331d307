/** The event stream: `_query_stream_events` and the loop of `event_iterator` that moves its cursor. */
module EventStream {
  import opened Wrappers
  import opened Ordering
  import opened Sequences
  import opened Paging

  const LIMIT: nat := 100
  const WINDOW: nat := 4 * LIMIT

  /** ORDER BY occurred_at ASC, id ASC. */
  predicate OldestFirst<T>(a: Row<T>, b: Row<T>) {
    a.at < b.at || (a.at == b.at && a.id <= b.id)
  }

  predicate Newer<T>(row: Row<T>, anchor: Row<T>) {
    row.at > anchor.at || (row.at == anchor.at && row.id > anchor.id)
  }

  /** What a client asks for: `select` is the part the database evaluates (event name, run, since), `keep` the part
      that is applied to the fetched rows (workspace, runtime only). */
  datatype Interest<!T> = Interest(select: Row<T> -> bool, keep: Row<T> -> bool)

  /** The selected events after the anchor, oldest first; an unknown anchor is ignored. */
  function Candidates<T>(table: Table<T>, select: Row<T> -> bool, after: Option<nat>): seq<Row<T>> {
    var rows := Filter(table, select);
    var anchor := if after.Some? then Find(table, after.value) else None;
    Sort(if anchor.Some? then Filter(rows, r => Newer(r, anchor.value)) else rows, OldestFirst)
  }

  function QueryStreamEvents<T>(table: Table<T>, want: Interest<T>, after: Option<nat>): seq<Row<T>> {
    Take(Filter(Take(Candidates(table, want.select, after), WINDOW), want.keep), LIMIT)
  }

  /** The cursor after a batch. */
  function Moved<T>(latest: Option<nat>, events: seq<Row<T>>): Option<nat> {
    if events == [] then latest else Some(events[|events| - 1].id)
  }

  /** One open stream. */
  class Iterator<T> {
    const want: Interest<T>
    var latestEventId: Option<nat>
    var delivered: seq<Row<T>>

    constructor (want: Interest<T>, lastEventId: Option<nat>)
      ensures this.want == want && latestEventId == lastEventId && delivered == []
    {
      this.want := want;
      latestEventId := lastEventId;
      delivered := [];
    }

    /** One turn of the loop on the table as it is then; no events means a keepalive. */
    method Poll(table: Table<T>) returns (events: seq<Row<T>>)
      modifies this
      ensures events == QueryStreamEvents(table, want, old(latestEventId))
      ensures latestEventId == Moved(old(latestEventId), events)
      ensures delivered == old(delivered) + events
    {
      hide QueryStreamEvents;
      events := QueryStreamEvents(table, want, latestEventId);
      var i := 0;
      while i < |events|
        invariant i <= |events|
        invariant latestEventId == Moved(old(latestEventId), events[..i])
        invariant delivered == old(delivered) + events[..i]
      {
        latestEventId := Some(events[i].id);
        delivered := delivered + [events[i]];
        i := i + 1;
        assert events[..i] == events[..i - 1] + [events[i - 1]];
      }
      assert events[..i] == events;
    }

    /** A stream whose k-th poll meets the k-th table. */
    method Run(tables: seq<Table<T>>)
      requires delivered == []
      modifies this
      ensures Cursor(tables, want, old(latestEventId)) == latestEventId
      ensures Delivered(tables, want, old(latestEventId)) == delivered
    {
      var i := 0;
      while i < |tables|
        invariant i <= |tables|
        invariant Cursor(tables[..i], want, old(latestEventId)) == latestEventId
        invariant Delivered(tables[..i], want, old(latestEventId)) == delivered
      {
        var _ := Poll(tables[i]);
        i := i + 1;
        assert tables[..i][..i - 1] == tables[..i - 1];
      }
      assert tables[..i] == tables;
    }
  }

  function Cursor<T>(tables: seq<Table<T>>, want: Interest<T>, start: Option<nat>): Option<nat> {
    if tables == [] then start
    else
      var before := Cursor(tables[..|tables| - 1], want, start);
      Moved(before, QueryStreamEvents(tables[|tables| - 1], want, before))
  }

  function Delivered<T>(tables: seq<Table<T>>, want: Interest<T>, start: Option<nat>): seq<Row<T>> {
    if tables == [] then []
    else
      var front := tables[..|tables| - 1];
      Delivered(front, want, start) + QueryStreamEvents(tables[|tables| - 1], want, Cursor(front, want, start))
  }

  // ---- the log -------------------------------------------------------------

  function Log<T>(table: Table<T>, select: Row<T> -> bool): seq<Row<T>> {
    Candidates(table, select, None)
  }

  lemma OldestFirstTotal<T(!new)>()
    ensures TotalPreorder<Row<T>>(OldestFirst)
  {
  }

  ghost predicate Ascending<T>(rows: seq<Row<T>>) {
    SortedBy(rows, OldestFirst) && NoDuplicates(rows)
  }

  lemma SortedLog<T(!new)>(rows: Table<T>)
    requires Keyed(rows)
    ensures Ascending(Sort(rows, OldestFirst))
    ensures forall r :: r in Sort(rows, OldestFirst) <==> r in rows
  {
    OldestFirstTotal<T>();
    SortSorted(rows, OldestFirst);
    KeyedNoDuplicates(rows);
    SortNoDuplicates(rows, OldestFirst);
    SameElements(rows, Sort(rows, OldestFirst));
  }

  /** Rows of one table that sort alike are one row. */
  lemma SameListing<T>(table: Table<T>, xs: seq<Row<T>>, ys: seq<Row<T>>)
    requires Keyed(table) && Ascending(xs) && Ascending(ys)
    requires (forall r :: r in xs <==> r in ys) && (forall r :: r in xs ==> r in table)
    ensures xs == ys
  {
    SortedUnique(xs, ys, OldestFirst);
  }

  lemma LogMembers<T(!new)>(table: Table<T>, select: Row<T> -> bool)
    requires Keyed(table)
    ensures Ascending(Log(table, select))
    ensures forall r :: r in Log(table, select) <==> r in table && select(r)
  {
    var rows := Filter(table, select);
    FilterKeyed(table, select);
    SortedLog(rows);
    forall r ensures r in Log(table, select) <==> r in table && select(r) {
      FilterMember(table, select, r);
      assert r in Sort(rows, OldestFirst) <==> r in rows;
    }
  }

  /** Up to position p the log is not newer than the anchor, from there on it is. */
  ghost predicate Split<T>(log: seq<Row<T>>, anchor: Row<T>, p: nat) {
    && p <= |log|
    && (forall i :: 0 <= i < p ==> !Newer(log[i], anchor))
    && (forall i :: p <= i < |log| ==> Newer(log[i], anchor))
  }

  lemma {:induction false} SplitExists<T>(log: seq<Row<T>>, anchor: Row<T>) returns (p: nat)
    requires SortedBy(log, OldestFirst)
    ensures Split(log, anchor, p)
  {
    if log == [] {
      p := 0;
    } else if !Newer(log[|log| - 1], anchor) {
      p := |log|;
    } else {
      p := SplitExists(log[..|log| - 1], anchor);
    }
  }

  /** A stream stands at position p of the log. */
  ghost predicate At<T>(table: Table<T>, select: Row<T> -> bool, latest: Option<nat>, p: nat) {
    var anchor := if latest.Some? then Find(table, latest.value) else None;
    if anchor.Some? then anchor.value in table && Split(Log(table, select), anchor.value, p) else p == 0
  }

  lemma {:induction false} FoundIsThere<T>(table: Table<T>, id: nat)
    ensures var row := Find(table, id); row.Some? ==> row.value in table && row.value.id == id
  {
    if table != [] && table[0].id != id {
      FoundIsThere(table[1..], id);
    }
  }

  lemma StandsSomewhere<T(!new)>(table: Table<T>, select: Row<T> -> bool, latest: Option<nat>) returns (p: nat)
    requires Keyed(table)
    ensures At(table, select, latest, p)
  {
    p := 0;
    if latest.Some? {
      FoundIsThere(table, latest.value);
      var anchor := Find(table, latest.value);
      if anchor.Some? {
        LogMembers(table, select);
        p := SplitExists(Log(table, select), anchor.value);
      }
    }
  }

  lemma AfterAnchor<T(!new)>(table: Table<T>, select: Row<T> -> bool, anchor: Row<T>, p: nat)
    requires Keyed(table) && anchor in table && Split(Log(table, select), anchor, p)
    ensures Candidates(table, select, Some(anchor.id)) == Log(table, select)[p..]
  {
    hide Keyed, Ascending;
    var log, rows, newer := Log(table, select), Filter(table, select), (r: Row<T>) => Newer(r, anchor);
    var after := Sort(Filter(rows, newer), OldestFirst);
    FindRow(table, anchor);
    FilterKeyed(table, select);
    FilterKeyed(rows, newer);
    SortedLog(Filter(rows, newer));
    LogMembers(table, select);
    RestAscending(log, p);
    forall r ensures (r in after <==> r in log[p..]) && (r in after ==> r in table) {
      FilterMember(rows, newer, r);
      FilterMember(table, select, r);
      SplitMember(log, anchor, p, r);
      assert r in after <==> r in Filter(rows, newer);
    }
    SameListing(table, after, log[p..]);
  }

  lemma RestAscending<T>(log: seq<Row<T>>, p: nat)
    requires Ascending(log) && p <= |log|
    ensures Ascending(log[p..])
  {
  }

  lemma SplitMember<T>(log: seq<Row<T>>, anchor: Row<T>, p: nat, r: Row<T>)
    requires Split(log, anchor, p)
    ensures r in log[p..] <==> r in log && Newer(r, anchor)
  {
    if r in log && Newer(r, anchor) {
      var i :| 0 <= i < |log| && log[i] == r;
      assert log[p..][i - p] == r;
    }
    if r in log[p..] {
      var i :| 0 <= i < |log| - p && log[p..][i] == r;
      assert log[p + i] == r;
    }
  }

  lemma AtCandidates<T(!new)>(table: Table<T>, select: Row<T> -> bool, latest: Option<nat>, p: nat)
    requires Keyed(table) && At(table, select, latest, p)
    ensures p <= |Log(table, select)| && Candidates(table, select, latest) == Log(table, select)[p..]
  {
    if latest.Some? {
      FoundIsThere(table, latest.value);
      var anchor := Find(table, latest.value);
      if anchor.Some? {
        AfterAnchor(table, select, anchor.value, p);
      }
    }
  }

  // ---- growth --------------------------------------------------------------

  /** The log grew at its end: what is new sorts after everything that was there. */
  ghost predicate AppendedTo<T>(first: Table<T>, later: Table<T>) {
    && Keyed(first) && Keyed(later)
    && (forall r :: r in first ==> r in later)
    && (forall r, q :: r in later && r !in first && q in first ==> Newer(r, q))
  }

  /** A cursor that names no event of the first table names none of the later one. */
  ghost predicate StillUnknown<T>(first: Table<T>, later: Table<T>, cursor: Option<nat>) {
    cursor.Some? && Find(first, cursor.value).None? ==> Find(later, cursor.value).None?
  }

  lemma LogGrows<T(!new)>(first: Table<T>, later: Table<T>, select: Row<T> -> bool)
    requires AppendedTo(first, later)
    ensures Log(first, select) <= Log(later, select)
    ensures forall r :: r in Log(later, select)[|Log(first, select)|..] ==> r in later && r !in first
  {
    hide Log;
    var log, now, unseen := Log(first, select), Log(later, select), (r: Row<T>) => select(r) && r !in first;
    var news := Log(later, unseen);
    LogMembers(first, select);
    LogMembers(later, select);
    LogMembers(later, unseen);
    assert Ascending(log + news) by {
      forall i, j | 0 <= i < |log| && 0 <= j < |news| ensures Newer(news[j], log[i]) {
        assert log[i] in log && news[j] in news;
      }
      JoinAscending(log, news);
    }
    forall r ensures r in log + news <==> r in now {
      assert r in log + news <==> r in log || r in news;
    }
    SameListing(later, log + news, now);
    assert now[|log|..] == news;
  }

  lemma JoinAscending<T>(log: seq<Row<T>>, news: seq<Row<T>>)
    requires Ascending(log) && Ascending(news)
    requires forall i, j :: 0 <= i < |log| && 0 <= j < |news| ==> Newer(news[j], log[i])
    ensures Ascending(log + news)
  {
    var both := log + news;
    forall i, j | 0 <= i < j < |both| ensures OldestFirst(both[i], both[j]) && both[i] != both[j] {
      if i < |log| <= j {
        assert Newer(news[j - |log|], log[i]);
      }
    }
  }

  lemma SplitGrows<T>(log: seq<Row<T>>, now: seq<Row<T>>, anchor: Row<T>, p: nat)
    requires Split(log, anchor, p) && log <= now
    requires forall r :: r in now[|log|..] ==> Newer(r, anchor)
    ensures Split(now, anchor, p)
  {
    forall i | |log| <= i < |now| ensures Newer(now[i], anchor) {
      assert now[|log|..][i - |log|] == now[i];
    }
  }

  lemma AtGrows<T(!new)>(first: Table<T>, later: Table<T>, select: Row<T> -> bool, latest: Option<nat>, p: nat)
    requires AppendedTo(first, later) && StillUnknown(first, later, latest) && At(first, select, latest, p)
    ensures At(later, select, latest, p)
  {
    hide Log, Split;
    LogGrows(first, later, select);
    if latest.Some? {
      var anchor := Find(first, latest.value);
      if anchor.Some? {
        FoundIsThere(first, latest.value);
        FindRow(later, anchor.value);
        SplitGrows(Log(first, select), Log(later, select), anchor.value, p);
      }
    }
  }

  // ---- polls ---------------------------------------------------------------

  /** A poll delivers what is kept between two positions of the log. */
  lemma PollMoves<T(!new)>(table: Table<T>, want: Interest<T>, latest: Option<nat>, p: nat) returns (q: nat)
    requires Keyed(table) && At(table, want.select, latest, p)
    ensures var log, events := Log(table, want.select), QueryStreamEvents(table, want, latest);
            && p <= q <= |log| && events == Filter(log[p..q], want.keep)
            && At(table, want.select, Moved(latest, events), q)
            && (events != [] ==> Find(table, events[|events| - 1].id).Some?)
            && (p < q ==> want.keep(log[q - 1]) && q <= p + WINDOW)
  {
    hide Filter;
    var log, events := Log(table, want.select), QueryStreamEvents(table, want, latest);
    hide Candidates, At, Split;
    AtCandidates(table, want.select, latest, p);
    if events == [] {
      q := p;
      assert log[p..q] == [];
      FilterNone(log[p..q], want.keep);
    } else {
      var front := Take(log[p..], WINDOW);
      var k := FilterPosition(front, want.keep, |events| - 1);
      q := p + k + 1;
      assert front == log[p..p + |front|];
      assert front[..k + 1] == log[p..q];
      assert events == Filter(front, want.keep)[..|events|];
      CursorOnRow(table, want.select, q);
    }
  }

  lemma DistinctIds<T>(table: Table<T>, a: Row<T>, b: Row<T>)
    requires Keyed(table) && a in table && b in table
    ensures a != b ==> a.id != b.id
  {
  }

  lemma CursorOnRow<T(!new)>(table: Table<T>, select: Row<T> -> bool, q: nat)
    requires Keyed(table) && 0 < q <= |Log(table, select)|
    ensures At(table, select, Some(Log(table, select)[q - 1].id), q)
    ensures Find(table, Log(table, select)[q - 1].id).Some?
  {
    var log := Log(table, select);
    var row := log[q - 1];
    LogMembers(table, select);
    assert row in log;
    FindRow(table, row);
    forall i | 0 <= i < |log| ensures i < q <==> !Newer(log[i], row) {
      assert log[i] in log;
      if q <= i {
        assert OldestFirst(row, log[i]) && log[i] != row;
        assert log[i].id != row.id by {
          DistinctIds(table, log[i], row);
        }
      } else if i < q - 1 {
        assert OldestFirst(log[i], row);
      }
    }
  }

  /** The tables a stream meets: a log that grows at its end. */
  ghost predicate Growing<T>(tables: seq<Table<T>>, start: Option<nat>) {
    && (forall k :: 0 <= k < |tables| ==> Keyed(tables[k]))
    && (forall j, k :: 0 <= j < k < |tables| ==> AppendedTo(tables[j], tables[k]))
    && (forall j, k :: 0 <= j < k < |tables| ==> StillUnknown(tables[j], tables[k], start))
  }

  /** A position stays good for a later table. */
  lemma CursorStays<T(!new)>(tables: seq<Table<T>>, select: Row<T> -> bool, start: Option<nat>, latest: Option<nat>,
                             j: nat, k: nat, p: nat)
    requires Growing(tables, start) && j < k < |tables| && At(tables[j], select, latest, p)
    requires latest == start || (latest.Some? && Find(tables[j], latest.value).Some?)
    ensures At(tables[k], select, latest, p)
  {
    assert AppendedTo(tables[j], tables[k]);
    assert StillUnknown(tables[j], tables[k], start);
    AtGrows(tables[j], tables[k], select, latest, p);
  }

  /** The last poll of a stream. */
  lemma LastPoll<T>(tables: seq<Table<T>>, want: Interest<T>, start: Option<nat>)
    requires tables != []
    ensures var front, table := tables[..|tables| - 1], tables[|tables| - 1];
            && var before := Cursor(front, want, start);
            && var events := QueryStreamEvents(table, want, before);
            && Cursor(tables, want, start) == Moved(before, events)
            && Delivered(tables, want, start) == Delivered(front, want, start) + events
  {
  }

  lemma JoinKept<T>(shorter: seq<Row<T>>, log: seq<Row<T>>, keep: Row<T> -> bool, p0: nat, p1: nat, p: nat)
    requires p0 <= p1 <= |shorter| && p1 <= p <= |log| && shorter <= log
    ensures Filter(shorter[p0..p1], keep) + Filter(log[p1..p], keep) == Filter(log[p0..p], keep)
  {
    hide Filter;
    assert shorter[p0..p1] == log[p0..p1];
    assert log[p0..p] == log[p0..p1] + log[p1..p];
    FilterSplit(log[p0..p1], log[p1..p], keep);
  }

  /** What a position means for a stream that began at p0 with the cursor `start`. */
  ghost predicate StandsAt<T>(table: Table<T>, want: Interest<T>, start: Option<nat>, latest: Option<nat>,
                              delivered: seq<Row<T>>, p0: nat, p: nat) {
    && At(table, want.select, start, p0) && p0 <= p <= |Log(table, want.select)|
    && At(table, want.select, latest, p)
    && delivered == Filter(Log(table, want.select)[p0..p], want.keep)
    && (latest == start || (latest.Some? && Find(table, latest.value).Some?))
  }

  lemma StartStands<T(!new)>(table: Table<T>, want: Interest<T>, start: Option<nat>) returns (p0: nat)
    requires Keyed(table)
    ensures StandsAt(table, want, start, start, [], p0, p0)
  {
    p0 := StandsSomewhere(table, want.select, start);
    AtCandidates(table, want.select, start, p0);
    assert Log(table, want.select)[p0..p0] == [];
  }

  lemma GrowthStands<T(!new)>(tables: seq<Table<T>>, want: Interest<T>, start: Option<nat>, latest: Option<nat>,
                              delivered: seq<Row<T>>, j: nat, k: nat, p0: nat, p: nat)
    requires Growing(tables, start) && j < k < |tables|
    requires StandsAt(tables[j], want, start, latest, delivered, p0, p)
    ensures StandsAt(tables[k], want, start, latest, delivered, p0, p)
  {
    hide At, Log, Split, Keyed;
    CursorStays(tables, want.select, start, start, j, k, p0);
    CursorStays(tables, want.select, start, latest, j, k, p);
    assert AppendedTo(tables[j], tables[k]);
    LogGrows(tables[j], tables[k], want.select);
    assert Log(tables[j], want.select)[p0..p] == Log(tables[k], want.select)[p0..p];
    if latest.Some? && Find(tables[j], latest.value).Some? {
      FoundIsThere(tables[j], latest.value);
      FindRow(tables[k], Find(tables[j], latest.value).value);
    }
  }

  lemma PollStands<T(!new)>(table: Table<T>, want: Interest<T>, start: Option<nat>, latest: Option<nat>,
                            delivered: seq<Row<T>>, p0: nat, p: nat) returns (q: nat)
    requires Keyed(table) && StandsAt(table, want, start, latest, delivered, p0, p)
    ensures var events := QueryStreamEvents(table, want, latest);
            StandsAt(table, want, start, Moved(latest, events), delivered + events, p0, q)
    ensures var log := Log(table, want.select);
            p <= q <= |log| && (p < q ==> want.keep(log[q - 1]) && q <= p + WINDOW)
  {
    hide At, Log, QueryStreamEvents;
    q := PollMoves(table, want, latest, p);
    var log := Log(table, want.select);
    JoinKept(log, log, want.keep, p0, p, q);
  }

  /** Where a stream stands after its polls: it has delivered exactly what is kept between two positions of the log. */
  lemma {:induction false} StreamPosition<T(!new)>(tables: seq<Table<T>>, want: Interest<T>, start: Option<nat>)
    returns (p0: nat, p: nat)
    requires tables != [] && Growing(tables, start)
    ensures StandsAt(tables[|tables| - 1], want, start, Cursor(tables, want, start), Delivered(tables, want, start), p0, p)
    decreases |tables|
  {
    hide StandsAt, AppendedTo, StillUnknown, QueryStreamEvents;
    var last := |tables| - 1;
    var front, table := tables[..last], tables[last];
    LastPoll(tables, want, start);
    var p1: nat;
    if last == 0 {
      p0 := StartStands(table, want, start);
      p1 := p0;
    } else {
      p0, p1 := StreamPosition(front, want, start);
      GrowthStands(tables, want, start, Cursor(front, want, start), Delivered(front, want, start), last - 1, last, p0, p1);
    }
    p := PollStands(table, want, start, Cursor(front, want, start), Delivered(front, want, start), p0, p1);
  }

  // ---- what a client can rely on -------------------------------------------

  lemma LastKeyed<T>(tables: seq<Table<T>>, start: Option<nat>)
    requires tables != [] && Growing(tables, start)
    ensures Keyed(tables[|tables| - 1])
  {
  }

  /** What a stream has delivered is always a prefix of the filtered log after its starting point: each event once
      and in order, none skipped. */
  lemma StreamIsPrefix<T(!new)>(tables: seq<Table<T>>, want: Interest<T>, start: Option<nat>)
    requires tables != [] && Growing(tables, start)
    ensures Delivered(tables, want, start) <= Filter(Candidates(tables[|tables| - 1], want.select, start), want.keep)
  {
    hide At, Log, Candidates, Delivered, Cursor, Growing, Keyed;
    var table := tables[|tables| - 1];
    var p0, p := StreamPosition(tables, want, start);
    var log := Log(table, want.select);
    assert Keyed(table) by {
      LastKeyed(tables, start);
    }
    AtCandidates(table, want.select, start, p0);
    JoinKept(log, log, want.keep, p0, p, |log|);
    assert log[p0..|log|] == log[p0..];
  }

  /** With the workspace and runtime filters off each poll extends what was delivered by min(100, remaining). */
  lemma UnfilteredPollsAdvance<T(!new)>(tables: seq<Table<T>>, want: Interest<T>, start: Option<nat>)
    requires tables != [] && Growing(tables, start) && forall r :: want.keep(r)
    ensures Delivered(tables, want, start)
         == Take(Candidates(tables[|tables| - 1], want.select, start),
                 |Delivered(tables[..|tables| - 1], want, start)| + LIMIT)
  {
    hide StandsAt, AppendedTo, StillUnknown, Candidates, QueryStreamEvents;
    var last := |tables| - 1;
    var front, table := tables[..last], tables[last];
    LastPoll(tables, want, start);
    var p0: nat, p1: nat;
    if last == 0 {
      p0 := StartStands(table, want, start);
      p1 := p0;
    } else {
      p0, p1 := StreamPosition(front, want, start);
      GrowthStands(tables, want, start, Cursor(front, want, start), Delivered(front, want, start), last - 1, last, p0, p1);
    }
    UnfilteredPoll(table, want, start, Cursor(front, want, start), Delivered(front, want, start), p0, p1);
  }

  lemma UnfilteredPoll<T(!new)>(table: Table<T>, want: Interest<T>, start: Option<nat>, latest: Option<nat>,
                                delivered: seq<Row<T>>, p0: nat, p: nat)
    requires Keyed(table) && StandsAt(table, want, start, latest, delivered, p0, p) && forall r :: want.keep(r)
    ensures delivered + QueryStreamEvents(table, want, latest)
         == Take(Candidates(table, want.select, start), |delivered| + LIMIT)
  {
    hide At, Log, Candidates, Filter, Keyed;
    var log := Log(table, want.select);
    AtCandidates(table, want.select, start, p0);
    AtCandidates(table, want.select, latest, p);
    FilterAll(log[p0..p], want.keep);
    FilterAll(Take(log[p..], WINDOW), want.keep);
    TakeOn(log, p0, p);
  }

  lemma TakeOn<T>(log: seq<T>, p0: nat, p: nat)
    requires p0 <= p <= |log|
    ensures log[p0..p] + Take(Take(log[p..], WINDOW), LIMIT) == Take(log[p0..], p - p0 + LIMIT)
  {
  }

  lemma CandidatesGrow<T(!new)>(tables: seq<Table<T>>, select: Row<T> -> bool, start: Option<nat>, k: nat)
    requires 0 < k < |tables| && Growing(tables, start)
    ensures Candidates(tables[0], select, start) <= Candidates(tables[k], select, start)
  {
    hide Candidates, At, Log, Split;
    var p := StandsSomewhere(tables[0], select, start);
    CursorStays(tables, select, start, start, 0, k, p);
    AtCandidates(tables[0], select, start, p);
    AtCandidates(tables[k], select, start, p);
    assert AppendedTo(tables[0], tables[k]);
    LogGrows(tables[0], tables[k], select);
  }

  /** So after m polls the first 100 m of the events that were there at the first poll have all arrived. */
  lemma {:induction false} EverythingArrives<T(!new)>(tables: seq<Table<T>>, want: Interest<T>, start: Option<nat>)
    requires tables != [] && Growing(tables, start) && forall r :: want.keep(r)
    ensures Take(Candidates(tables[0], want.select, start), LIMIT * |tables|) <= Delivered(tables, want, start)
    decreases |tables|
  {
    hide Candidates, Delivered, AppendedTo, StillUnknown;
    var last := |tables| - 1;
    UnfilteredPollsAdvance(tables, want, start);
    if last > 0 {
      EverythingArrives(tables[..last], want, start);
      CandidatesGrow(tables, want.select, start, last);
    }
  }

  /** A poll comes back empty exactly when none of the first 400 candidates is kept. */
  lemma EmptyPollExactly<T>(table: Table<T>, want: Interest<T>, latest: Option<nat>)
    ensures QueryStreamEvents(table, want, latest) == []
       <==> forall r :: r in Take(Candidates(table, want.select, latest), WINDOW) ==> !want.keep(r)
  {
    hide Filter;
    var front := Take(Candidates(table, want.select, latest), WINDOW);
    FilterMembers(front, want.keep);
    if forall r :: r in front ==> !want.keep(r) {
      FilterNone(front, want.keep);
    }
  }

  /** A stream whose poll came back empty although something it should deliver is in the log will never deliver
      anything again, whatever is logged later. */
  lemma {:induction false} StalledForever<T(!new)>(tables: seq<Table<T>>, want: Interest<T>, latest: Option<nat>)
    requires tables != [] && Growing(tables, latest)
    requires QueryStreamEvents(tables[0], want, latest) == []
    requires exists r :: r in Candidates(tables[0], want.select, latest) && want.keep(r)
    ensures Cursor(tables, want, latest) == latest && Delivered(tables, want, latest) == []
    decreases |tables|
  {
    hide Candidates, QueryStreamEvents, AppendedTo, StillUnknown;
    var last := |tables| - 1;
    LastPoll(tables, want, latest);
    if last > 0 {
      StalledForever(tables[..last], want, latest);
      StallStays(tables, want, latest, last);
    }
  }

  lemma StallStays<T(!new)>(tables: seq<Table<T>>, want: Interest<T>, latest: Option<nat>, k: nat)
    requires 0 < k < |tables| && Growing(tables, latest)
    requires QueryStreamEvents(tables[0], want, latest) == []
    requires exists r :: r in Candidates(tables[0], want.select, latest) && want.keep(r)
    ensures QueryStreamEvents(tables[k], want, latest) == []
  {
    hide Candidates;
    CandidatesGrow(tables, want.select, latest, k);
    SameWindow(Candidates(tables[0], want.select, latest), Candidates(tables[k], want.select, latest), want.keep);
  }

  lemma SameWindow<T>(rest: seq<Row<T>>, more: seq<Row<T>>, keep: Row<T> -> bool)
    requires rest <= more && Take(Filter(Take(rest, WINDOW), keep), LIMIT) == []
    requires exists r :: r in rest && keep(r)
    ensures Take(rest, WINDOW) == Take(more, WINDOW)
  {
    if |rest| <= WINDOW {
      var r :| r in rest && keep(r);
      FilterMember(rest, keep, r);
      assert false;
    }
  }

  // ---- the order and the polls, on the columns ------------------------------

  /** The log holds the selected events, the oldest first, and of those of one time the smallest id first. */
  lemma LogExactly<T(!new)>(table: Table<T>, select: Row<T> -> bool)
    requires Keyed(table)
    ensures var log := Candidates(table, select, None);
            && (forall r :: r in log <==> r in table && select(r))
            && forall i, j :: 0 <= i < j < |log| ==>
                 log[i].at <= log[j].at && (log[i].at == log[j].at ==> log[i].id < log[j].id)
  {
    hide Candidates, Keyed;
    LogMembers(table, select);
    var log := Candidates(table, select, None);
    forall i, j | 0 <= i < j < |log|
      ensures log[i].at <= log[j].at && (log[i].at == log[j].at ==> log[i].id < log[j].id)
    {
      assert log[i] in log && log[j] in log && OldestFirst(log[i], log[j]);
      DistinctIds(table, log[i], log[j]);
    }
  }

  /** After an event that is there come those that are newer, or as new with a greater id. */
  lemma CandidatesExactly<T(!new)>(table: Table<T>, select: Row<T> -> bool, anchor: Row<T>, r: Row<T>)
    requires Keyed(table) && anchor in table
    ensures r in Candidates(table, select, Some(anchor.id)) <==>
            r in table && select(r) && (r.at > anchor.at || (r.at == anchor.at && r.id > anchor.id))
  {
    hide Keyed, Candidates, Split;
    LogMembers(table, select);
    var p := StandsOn(table, select, anchor);
    AfterAnchor(table, select, anchor, p);
    SplitMember(Log(table, select), anchor, p, r);
  }

  lemma StandsOn<T(!new)>(table: Table<T>, select: Row<T> -> bool, anchor: Row<T>) returns (p: nat)
    requires Keyed(table)
    ensures Split(Log(table, select), anchor, p)
  {
    LogMembers(table, select);
    p := SplitExists(Log(table, select), anchor);
  }

  /** A poll looks at the first 400 candidates and delivers up to 100 of those that pass the filter. */
  lemma PollExactly<T>(table: Table<T>, want: Interest<T>, latest: Option<nat>)
    ensures var rows, events := Candidates(table, want.select, latest), QueryStreamEvents(table, want, latest);
            var kept := Filter(if |rows| <= 400 then rows else rows[..400], want.keep);
            events == if |kept| <= 100 then kept else kept[..100]
  {
    hide Candidates, Filter;
  }

  // ---- exactly what arrives ------------------------------------------------

  /** A kept event behind at least 400 unwanted ones in a row. */
  ghost predicate BehindGap<T>(rows: seq<Row<T>>, keep: Row<T> -> bool, i: nat, j: nat) {
    i + WINDOW <= j < |rows| && keep(rows[j]) && forall k :: i <= k < j ==> !keep(rows[k])
  }

  ghost predicate HasGap<T>(rows: seq<Row<T>>, keep: Row<T> -> bool) {
    exists i, j :: BehindGap(rows, keep, i, j)
  }

  /** A poll from before a gap ends before the gap. */
  lemma StaysBefore<T>(rows: seq<Row<T>>, more: seq<Row<T>>, keep: Row<T> -> bool, p: nat, q: nat)
    requires rows <= more && p <= q <= |more| && (p < q ==> keep(more[q - 1]) && q <= p + WINDOW)
    ensures forall i, j :: BehindGap(rows, keep, i, j) && p <= i ==> q <= i
  {
    forall i, j | BehindGap(rows, keep, i, j) && p <= i ensures q <= i {
    }
  }

  /** The first kept row. */
  lemma FirstKept<T>(rows: seq<Row<T>>, keep: Row<T> -> bool) returns (k: nat)
    requires Filter(rows, keep) != []
    ensures k < |rows| && keep(rows[k]) && forall i :: 0 <= i < k ==> !keep(rows[i])
  {
    k := FilterPosition(rows, keep, 0);
    var kept := Filter(rows[..k + 1], keep);
    assert |kept| == 1;
    assert rows[..k + 1] == rows[..k] + [rows[k]];
    FilterSplit(rows[..k], [rows[k]], keep);
    FilterAll([rows[k]], keep);
    assert Filter(rows[..k], keep) == [];
    forall i | 0 <= i < k ensures !keep(rows[i]) {
      FilterMember(rows[..k], keep, rows[i]);
      assert rows[..k][i] == rows[i];
    }
  }

  lemma GapThere<T>(rows: seq<Row<T>>, keep: Row<T> -> bool, p: nat, k: nat)
    requires p + k < |rows| && k >= WINDOW && keep(rows[p..][k])
    requires forall i :: 0 <= i < k ==> !keep(rows[p..][i])
    ensures HasGap(rows, keep)
  {
    forall i | p <= i < p + k ensures !keep(rows[i]) {
      assert rows[p..][i - p] == rows[i];
    }
    assert BehindGap(rows, keep, p, p + k);
  }

  /** Without a gap a poll delivers something as long as something is left of what was there. */
  lemma SomethingComes<T(!new)>(table: Table<T>, want: Interest<T>, latest: Option<nat>, rows: seq<Row<T>>,
                                more: seq<Row<T>>, p: nat)
    requires rows <= more && p <= |rows| && Candidates(table, want.select, latest) == more[p..]
    requires Filter(rows[p..], want.keep) != [] && !HasGap(rows, want.keep)
    ensures QueryStreamEvents(table, want, latest) != []
  {
    hide QueryStreamEvents, Candidates, Filter;
    var k := FirstKept(rows[p..], want.keep);
    if k >= WINDOW {
      GapThere(rows, want.keep, p, k);
      assert false;
    } else {
      EmptyPollExactly(table, want, latest);
      assert Take(more[p..], WINDOW)[k] == rows[p..][k];
    }
  }

  lemma NothingLeft<T>(rows: seq<Row<T>>, keep: Row<T> -> bool, p: nat, q: nat)
    requires p <= q && Filter(Drop(rows, p), keep) == []
    ensures Filter(Drop(rows, q), keep) == []
  {
    hide Filter;
    FilterNone([], keep);
    if q < |rows| {
      assert rows[p..] == rows[p..q] + rows[q..];
      FilterSplit(rows[p..q], rows[q..], keep);
    }
  }

  /** What one more poll brings of the rows that were there at the beginning. */
  lemma PollOnGrowing<T(!new)>(table: Table<T>, want: Interest<T>, start: Option<nat>, latest: Option<nat>,
                               delivered: seq<Row<T>>, rows: seq<Row<T>>, p0: nat, p: nat) returns (q: nat)
    requires Keyed(table) && StandsAt(table, want, start, latest, delivered, p0, p)
    requires rows <= Candidates(table, want.select, start)
    ensures var events := QueryStreamEvents(table, want, latest);
            && StandsAt(table, want, start, Moved(latest, events), delivered + events, p0, q) && p <= q
            && (forall i, j :: BehindGap(rows, want.keep, i, j) && p - p0 <= i ==> q - p0 <= i)
            && (!HasGap(rows, want.keep) ==> events != [] || Filter(Drop(rows, q - p0), want.keep) == [])
  {
    hide At, Log, QueryStreamEvents, Filter, Keyed, Candidates, BehindGap, HasGap;
    q := PollStands(table, want, start, latest, delivered, p0, p);
    AtCandidates(table, want.select, start, p0);
    AtCandidates(table, want.select, latest, p);
    var more := Candidates(table, want.select, start);
    assert more[p - p0..] == Log(table, want.select)[p..];
    StaysBefore(rows, more, want.keep, p - p0, q - p0);
    if !HasGap(rows, want.keep) {
      if Filter(Drop(rows, p - p0), want.keep) == [] {
        NothingLeft(rows, want.keep, p - p0, q - p0);
      } else {
        FilterNone([], want.keep);
        SomethingComes(table, want, latest, rows, more, p - p0);
      }
    }
  }

  /** Where a stream stands with respect to what was there at its first poll: before the gap, if there is one; and at
      least one event a poll further, or behind all of it, if there is none. */
  lemma {:induction false} GrowingPosition<T(!new)>(tables: seq<Table<T>>, want: Interest<T>, start: Option<nat>)
    returns (p0: nat, p: nat)
    requires tables != [] && Growing(tables, start)
    ensures StandsAt(tables[|tables| - 1], want, start, Cursor(tables, want, start), Delivered(tables, want, start), p0, p)
    ensures var rows, keep := Candidates(tables[0], want.select, start), want.keep;
            && (forall i, j :: BehindGap(rows, keep, i, j) ==> p - p0 <= i)
            && (!HasGap(rows, keep) ==>
                  |Delivered(tables, want, start)| >= |tables| || Filter(Drop(rows, p - p0), keep) == [])
    decreases |tables|
  {
    hide StandsAt, AppendedTo, StillUnknown, QueryStreamEvents, Candidates, BehindGap, HasGap, Filter;
    var last := |tables| - 1;
    var front, table := tables[..last], tables[last];
    var rows := Candidates(tables[0], want.select, start);
    LastPoll(tables, want, start);
    var p1: nat;
    if last == 0 {
      p0 := StartStands(table, want, start);
      p1 := p0;
    } else {
      p0, p1 := GrowingPosition(front, want, start);
      GrowthStands(tables, want, start, Cursor(front, want, start), Delivered(front, want, start), last - 1, last, p0, p1);
      CandidatesGrow(tables, want.select, start, last);
    }
    p := PollOnGrowing(table, want, start, Cursor(front, want, start), Delivered(front, want, start), rows, p0, p1);
    StandsBehind(tables[last], want, start, Cursor(front, want, start), Delivered(front, want, start), p0, p1);
    if !HasGap(rows, want.keep) && Filter(Drop(rows, p1 - p0), want.keep) == [] {
      NothingLeft(rows, want.keep, p1 - p0, p - p0);
    }
  }

  lemma StandsBehind<T>(table: Table<T>, want: Interest<T>, start: Option<nat>, latest: Option<nat>,
                        delivered: seq<Row<T>>, p0: nat, p: nat)
    ensures StandsAt(table, want, start, latest, delivered, p0, p) ==> p0 <= p
  {
  }

  /** The kept rows in front of a position, and those behind it. */
  lemma KeptAround<T>(rows: seq<Row<T>>, more: seq<Row<T>>, keep: Row<T> -> bool, n: nat)
    requires rows <= more && n <= |more|
    ensures Filter(rows, keep) <= Filter(more, keep) && Filter(more[..n], keep) <= Filter(more, keep)
    ensures |Filter(more[..n], keep)| >= |Filter(rows, keep)| <==> Filter(Drop(rows, n), keep) == []
  {
    hide Filter;
    assert more == rows + more[|rows|..] == more[..n] + more[n..];
    FilterSplit(rows, more[|rows|..], keep);
    FilterSplit(more[..n], more[n..], keep);
    FilterNone([], keep);
    if n < |rows| {
      assert rows == more[..n] + rows[n..];
      FilterSplit(more[..n], rows[n..], keep);
    } else {
      assert more[..n] == rows + more[|rows|..n];
      FilterSplit(rows, more[|rows|..n], keep);
    }
  }

  /** While the log grows: all of what a client should get of the events that were there at its first poll arrives, after
      as many polls as there are such events, if and only if none of them stands behind 400 unwanted ones in a row. With
      such a gap it never does. */
  lemma ArrivesExactly<T(!new)>(tables: seq<Table<T>>, want: Interest<T>, start: Option<nat>)
    requires tables != [] && Growing(tables, start)
    ensures var rows := Candidates(tables[0], want.select, start);
            var due := Filter(rows, want.keep);
            && (HasGap(rows, want.keep) ==> !(due <= Delivered(tables, want, start)))
            && (|tables| >= |due| ==> (due <= Delivered(tables, want, start) <==> !HasGap(rows, want.keep)))
  {
    hide At, Log, Candidates, Growing, Keyed, Filter, Delivered, Cursor;
    var rows := Candidates(tables[0], want.select, start);
    var table := tables[|tables| - 1];
    var p0, p := GrowingPosition(tables, want, start);
    LastKeyed(tables, start);
    AtCandidates(table, want.select, start, p0);
    if |tables| > 1 {
      CandidatesGrow(tables, want.select, start, |tables| - 1);
    }
    var more := Candidates(table, want.select, start);
    assert more[..p - p0] == Log(table, want.select)[p0..p];
    KeptAround(rows, more, want.keep, p - p0);
    if HasGap(rows, want.keep) {
      var i: nat, j: nat :| BehindGap(rows, want.keep, i, j);
      assert rows[p - p0..][j - (p - p0)] == rows[j];
      FilterMember(rows[p - p0..], want.keep, rows[j]);
    }
  }

  /** The same table at every poll. */
  function Fixed<T>(table: Table<T>, m: nat): seq<Table<T>> {
    seq(m, _ => table)
  }

  /** On a log that does not grow a stream delivers everything it should, after enough polls, if and only if no event it
      should deliver stands behind 400 unwanted ones in a row. */
  lemma CompleteExactly<T(!new)>(table: Table<T>, want: Interest<T>, start: Option<nat>)
    requires Keyed(table)
    ensures (exists m: nat :: Delivered(Fixed(table, m), want, start) == Filter(Candidates(table, want.select, start), want.keep))
       <==> !HasGap(Candidates(table, want.select, start), want.keep)
  {
    var rows := Candidates(table, want.select, start);
    var due := Filter(rows, want.keep);
    hide Candidates, Filter, Delivered, Cursor;
    if HasGap(rows, want.keep) {
      var i: nat, j: nat :| BehindGap(rows, want.keep, i, j);
      FilterMember(rows, want.keep, rows[j]);
      forall m: nat ensures Delivered(Fixed(table, m), want, start) != due {
        if m > 0 {
          ArrivesExactly(Fixed(table, m), want, start);
        } else {
          NothingPolled(table, want, start);
        }
      }
    } else {
      ArrivesExactly(Fixed(table, |due| + 1), want, start);
      StreamIsPrefix(Fixed(table, |due| + 1), want, start);
    }
  }

  lemma NothingPolled<T>(table: Table<T>, want: Interest<T>, start: Option<nat>)
    ensures Delivered(Fixed(table, 0), want, start) == []
  {
  }

  /** One event that is wanted, after 400 that are not. */
  function SparseLog(): Table<bool> {
    seq(WINDOW + 1, i => Row(if i >= 0 then i else 0, i, i == WINDOW))
  }

  const WANTED: Interest<bool> := Interest((r: Row<bool>) => true, (r: Row<bool>) => r.data)

  lemma SparseRows(table: Table<bool>)
    requires table == SparseLog()
    ensures |table| == WINDOW + 1 && Keyed(table) && Ascending(table)
    ensures forall i :: 0 <= i < |table| ==> table[i].data == (i == WINDOW)
  {
  }

  lemma SparseCandidates(table: Table<bool>)
    requires table == SparseLog()
    ensures Candidates(table, WANTED.select, None) == table
  {
    hide SparseLog, Ascending, Keyed;
    SparseRows(table);
    var log := Candidates(table, WANTED.select, None);
    LogMembers(table, WANTED.select);
    SameListing(table, log, table);
  }

  /** On it a stream stalls at its first poll, and for ever. */
  lemma StreamsCanStall()
    ensures Keyed(SparseLog()) && QueryStreamEvents(SparseLog(), WANTED, None) == []
    ensures exists r :: r in Candidates(SparseLog(), WANTED.select, None) && WANTED.keep(r)
  {
    hide SparseLog, Candidates, QueryStreamEvents, Ascending, Keyed;
    var table := SparseLog();
    SparseRows(table);
    SparseCandidates(table);
    var front := Take(table, WINDOW);
    forall r | r in front ensures !WANTED.keep(r) {
      var i :| 0 <= i < |front| && front[i] == r;
      assert table[i] == r;
    }
    EmptyPollExactly(table, WANTED, None);
    assert table[WINDOW] in table && WANTED.keep(table[WINDOW]);
  }
}
