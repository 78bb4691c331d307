/** Keyset pagination: `list_artifacts` and `_query_events`, and what a client gets that follows the cursors while
    newer rows keep arriving. */
module Paging {
  import opened Wrappers
  import opened Ordering
  import opened Sequences

  /** A row with the two columns the listings are ordered by; `at` is created_at or occurred_at. */
  datatype Row<T> = Row(id: nat, at: int, data: T)

  datatype Page<T> = Page(items: seq<Row<T>>, next: Option<nat>)

  /** The rows of a table, in no particular order; ids are unique. */
  type Table<T> = seq<Row<T>>

  ghost predicate Keyed<T>(table: Table<T>) {
    forall i, j :: 0 <= i < j < |table| ==> table[i].id != table[j].id
  }

  /** ORDER BY at DESC, id DESC. */
  predicate NewestFirst<T>(a: Row<T>, b: Row<T>) {
    a.at > b.at || (a.at == b.at && a.id >= b.id)
  }

  /** The cursor condition: at < cursor.at OR (at = cursor.at AND id < cursor.id). */
  predicate Older<T>(row: Row<T>, cursor: Row<T>) {
    row.at < cursor.at || (row.at == cursor.at && row.id < cursor.id)
  }

  function Find<T>(table: Table<T>, id: nat): Option<Row<T>> {
    if table == [] then None
    else if table[0].id == id then Some(table[0])
    else Find(table[1..], id)
  }

  /** The query up to LIMIT: the selected rows, newest first, from after the cursor on. An unknown cursor is ignored. */
  function Ordered<T>(table: Table<T>, select: Row<T> -> bool): seq<Row<T>> {
    Sort(Filter(table, select), NewestFirst)
  }

  function Remaining<T>(table: Table<T>, select: Row<T> -> bool, cursor: Option<nat>): seq<Row<T>> {
    var ordered := Ordered(table, select);
    if cursor.None? then ordered
    else match Find(table, cursor.value)
      case Some(row) => Filter(ordered, r => Older(r, row))
      case None => ordered
  }

  /** The first `window` rows are looked at; of those that are kept, one page is returned, and a cursor if it is full
      and more were seen. */
  function PageOf<T>(rows: seq<Row<T>>, limit: nat, window: nat, keep: Row<T> -> bool): Page<T>
    requires limit >= 1
  {
    var seen := Filter(Take(rows, window), keep);
    if |seen| > limit then Page(seen[..limit], Some(seen[limit - 1].id)) else Page(seen, None)
  }

  function ListArtifacts<T>(table: Table<T>, select: Row<T> -> bool, cursor: Option<nat>, offset: nat, limit: nat): Page<T>
    requires limit >= 1
  {
    var rows := Take(Drop(Remaining(table, select, cursor), offset), limit + 1);
    if |rows| > limit then Page(rows[..limit], Some(rows[limit - 1].id)) else Page(rows, None)
  }

  function EventWindow(limit: nat): nat {
    if limit * 4 > limit + 1 then limit * 4 else limit + 1
  }

  /** `keep` is the workspace and runtime filter, which is applied to the rows already fetched. */
  function QueryEvents<T>(table: Table<T>, select: Row<T> -> bool, cursor: Option<nat>, limit: nat, keep: Row<T> -> bool): Page<T>
    requires limit >= 1
  {
    PageOf(Remaining(table, select, cursor), limit, EventWindow(limit), keep)
  }

  // ---- ordered listings ----------------------------------------------------

  ghost predicate Strict<T>(rows: seq<Row<T>>) {
    forall i, j :: 0 <= i < j < |rows| ==> Older(rows[j], rows[i])
  }

  lemma NewestFirstTotal<T(!new)>()
    ensures TotalPreorder<Row<T>>(NewestFirst)
  {
  }

  /** Two strictly ordered listings of the same rows are the same listing. */
  lemma StrictUnique<T>(xs: seq<Row<T>>, ys: seq<Row<T>>)
    requires Strict(xs) && Strict(ys)
    requires forall r :: r in xs <==> r in ys
    ensures xs == ys
  {
    SortedUnique(xs, ys, NewestFirst);
  }

  lemma {:induction false} FilterStrict<T>(rows: seq<Row<T>>, keep: Row<T> -> bool)
    requires Strict(rows)
    ensures Strict(Filter(rows, keep))
  {
    if rows != [] {
      FilterStrict(rows[1..], keep);
      forall r | r in Filter(rows[1..], keep) ensures Older(r, rows[0]) {
        FilterMember(rows[1..], keep, r);
      }
    }
  }

  lemma {:induction false} FilterKeyed<T>(table: Table<T>, select: Row<T> -> bool)
    requires Keyed(table)
    ensures Keyed(Filter(table, select))
  {
    if table != [] {
      FilterKeyed(table[1..], select);
      forall r | r in Filter(table[1..], select) ensures r.id != table[0].id {
        FilterMember(table[1..], select, r);
      }
    }
  }

  lemma SameIdSameRow<T>(table: Table<T>, a: Row<T>, b: Row<T>)
    requires Keyed(table) && a in table && b in table && a.id == b.id
    ensures a == b
  {
  }

  lemma SortedIsStrict<T>(rows: Table<T>, sorted: seq<Row<T>>)
    requires Keyed(rows) && NoDuplicates(sorted) && SortedBy(sorted, NewestFirst)
    requires forall r :: r in sorted ==> r in rows
    ensures Strict(sorted)
  {
    forall i, j | 0 <= i < j < |sorted| ensures Older(sorted[j], sorted[i]) {
      assert NewestFirst(sorted[i], sorted[j]);
      if sorted[i].id == sorted[j].id {
        SameIdSameRow(rows, sorted[i], sorted[j]);
      }
    }
  }

  lemma KeyedNoDuplicates<T>(rows: Table<T>)
    requires Keyed(rows)
    ensures NoDuplicates(rows)
  {
  }

  lemma OrderedStrict<T(!new)>(table: Table<T>, select: Row<T> -> bool)
    requires Keyed(table)
    ensures Strict(Ordered(table, select))
    ensures forall r :: r in Ordered(table, select) <==> r in table && select(r)
  {
    var rows := Filter(table, select);
    FilterMembers(table, select);
    FilterKeyed(table, select);
    NewestFirstTotal<T>();
    SortSorted(rows, NewestFirst);
    SameElements(rows, Sort(rows, NewestFirst));
    KeyedNoDuplicates(rows);
    SortNoDuplicates(rows, NewestFirst);
    SortedIsStrict(rows, Sort(rows, NewestFirst));
  }

  lemma {:induction false} FindRow<T>(table: Table<T>, row: Row<T>)
    requires Keyed(table) && row in table
    ensures Find(table, row.id) == Some(row)
  {
    if table[0] != row {
      assert row in table[1..];
      FindRow(table[1..], row);
    }
  }

  /** The later table holds the rows of the first one and newer ones, whatever their order. */
  ghost predicate GrownFrom<T>(first: Table<T>, later: Table<T>) {
    && Keyed(later)
    && (forall r :: r in first ==> r in later)
    && (forall r, q :: r in later && r !in first && q in first ==> Older(q, r))
  }

  /** Among the rows older than a row of the first table the later table has nothing new. */
  lemma NothingNewBehind<T(!new)>(first: Table<T>, later: Table<T>, cursor: Row<T>, r: Row<T>)
    requires GrownFrom(first, later) && cursor in first && Older(r, cursor)
    ensures r in first <==> r in later
  {
  }

  lemma RestIsOlder<T>(listing: seq<Row<T>>, p: nat, r: Row<T>)
    requires Strict(listing) && 0 < p <= |listing|
    ensures r in listing[p..] <==> r in listing && Older(r, listing[p - 1])
  {
    if r in listing[p..] {
      var k :| 0 <= k < |listing[p..]| && listing[p..][k] == r;
      assert listing[p + k] == r;
    }
    if r in listing && Older(r, listing[p - 1]) {
      var k :| 0 <= k < |listing| && listing[k] == r;
      assert listing[p..][k - p] == r;
    }
  }

  /** After the p-th row of a listing the query continues with the rest of it, even when newer rows have arrived. */
  lemma CursorContinues<T(!new)>(first: Table<T>, later: Table<T>, select: Row<T> -> bool, p: nat)
    requires Keyed(first) && GrownFrom(first, later)
    requires 0 < p <= |Ordered(first, select)|
    ensures Remaining(later, select, Some(Ordered(first, select)[p - 1].id)) == Ordered(first, select)[p..]
  {
    hide Strict, Keyed, Ordered;
    var listing, now := Ordered(first, select), Ordered(later, select);
    var cursor := listing[p - 1];
    OrderedStrict(first, select);
    OrderedStrict(later, select);
    assert cursor in listing;
    FindRow(later, cursor);
    var older := (r: Row<T>) => Older(r, cursor);
    var rest := Filter(now, older);
    FilterStrict(now, older);
    FilterMembers(now, older);
    forall r ensures r in rest <==> r in listing[p..] {
      RestIsOlder(listing, p, r);
      if Older(r, cursor) {
        NothingNewBehind(first, later, cursor, r);
      }
    }
    StrictUnique(rest, listing[p..]);
  }

  // ---- following the cursors -----------------------------------------------

  /** One page of a listing from position `p` on. If it has a cursor, that is a row further on and up to it nothing
      that is kept was left out; if not, everything that is kept within the window was returned. */
  lemma PageFromPosition<T>(listing: seq<Row<T>>, p: nat, limit: nat, window: nat, keep: Row<T> -> bool) returns (q: nat)
    requires p <= |listing| && limit >= 1
    ensures p <= q <= |listing|
    ensures var page := PageOf(listing[p..], limit, window, keep);
            && Filter(listing[..q], keep) == Filter(listing[..p], keep) + page.items
            && (page.next.Some? ==> p < q < |listing| && page.next == Some(listing[q - 1].id) && |page.items| == limit
                                    && keep(listing[q - 1]))
            && (page.next.None? ==> q == if |listing| - p <= window then |listing| else p + window)
  {
    hide Filter;
    var rest := listing[p..];
    var front := Take(rest, window);
    var seen := Filter(front, keep);
    if |seen| > limit {
      var k := FilterPosition(front, keep, limit - 1);
      q := p + k + 1;
      assert front == listing[p..p + |front|];
      assert front[..k + 1] == listing[p..q];
    } else {
      q := p + |front|;
      assert front == listing[p..q];
    }
    assert listing[..q] == listing[..p] + listing[p..q];
    FilterSplit(listing[..p], listing[p..q], keep);
  }

  function CursorBefore<T>(pages: seq<Page<T>>, k: nat): Option<nat>
    requires k <= |pages|
  {
    if k == 0 then None else pages[k - 1].next
  }

  /** The k-th request meets the k-th state of the table and sends the cursor of the page before. */
  ghost predicate Served<T>(tables: seq<Table<T>>, serve: (Table<T>, Option<nat>) -> Page<T>, pages: seq<Page<T>>, k: nat)
    requires k < |pages| <= |tables|
  {
    && pages[k] == serve(tables[k], CursorBefore(pages, k))
    && (k + 1 < |pages| ==> pages[k].next.Some?)
  }

  /** Pages a client gets that starts without a cursor and follows the cursors while newer rows may arrive. */
  ghost predicate Walk<T>(tables: seq<Table<T>>, serve: (Table<T>, Option<nat>) -> Page<T>, pages: seq<Page<T>>) {
    && 0 < |pages| <= |tables| && Keyed(tables[0])
    && (forall k :: 0 < k < |tables| ==> GrownFrom(tables[0], tables[k]))
    && (forall k :: 0 <= k < |pages| ==> Served(tables, serve, pages, k))
  }

  function Items<T>(pages: seq<Page<T>>): seq<Row<T>> {
    if pages == [] then [] else Items(pages[..|pages| - 1]) + pages[|pages| - 1].items
  }

  /** The rows the last request of a walk had to choose from. */
  function LastRemaining<T>(tables: seq<Table<T>>, select: Row<T> -> bool, pages: seq<Page<T>>): seq<Row<T>>
    requires 0 < |pages| <= |tables|
  {
    Remaining(tables[|pages| - 1], select, CursorBefore(pages, |pages| - 1))
  }

  /** `rest` is what a cursor on `id` leaves of the listing. */
  ghost predicate Continues<T>(listing: seq<Row<T>>, id: nat, rest: seq<Row<T>>) {
    forall q :: 0 < q <= |listing| && listing[q - 1].id == id ==> rest == listing[q..]
  }

  /** The pages as cuts of one listing: each request chose from what the cursor before it left. */
  ghost predicate Chain<T>(listing: seq<Row<T>>, rests: seq<seq<Row<T>>>, limit: nat, window: nat, keep: Row<T> -> bool,
                           pages: seq<Page<T>>)
    requires limit >= 1
    decreases |pages|
  {
    && |pages| == |rests| > 0
    && var last := |pages| - 1;
    && pages[last] == PageOf(rests[last], limit, window, keep)
    && if last == 0 then rests[0] == listing
       else && pages[last - 1].next.Some? && Continues(listing, pages[last - 1].next.value, rests[last])
            && Chain(listing, rests[..last], limit, window, keep, pages[..last])
  }

  /** Where a chain of pages stands: up to the q-th row of the listing everything that is kept has been returned, and
      nothing else; the last request began at the p-th row. */
  lemma {:induction false} ChainPosition<T>(listing: seq<Row<T>>, rests: seq<seq<Row<T>>>, limit: nat, window: nat,
                                            keep: Row<T> -> bool, pages: seq<Page<T>>) returns (p: nat, q: nat)
    requires limit >= 1 && Chain(listing, rests, limit, window, keep, pages)
    ensures p <= q <= |listing| && Items(pages) == Filter(listing[..q], keep)
    ensures rests[|pages| - 1] == listing[p..]
    ensures |pages| > 1 ==> 0 < p < |listing|
    ensures var next := pages[|pages| - 1].next;
            && (next.Some? ==> p < q < |listing| && next == Some(listing[q - 1].id))
            && (next.None? ==> q == if |listing| - p <= window then |listing| else p + window)
    decreases |pages|
  {
    hide PageOf;
    var last := |pages| - 1;
    if last == 0 {
      p := 0;
      assert listing[0..] == listing && Items(pages[..0]) == [];
    } else {
      var _, mid := ChainPosition(listing, rests[..last], limit, window, keep, pages[..last]);
      p := mid;
    }
    q := PageFromPosition(listing, p, limit, window, keep);
  }

  /** The k-th page of a chain begins at a row behind which k full pages were kept. */
  ghost predicate PageStart<T>(listing: seq<Row<T>>, limit: nat, keep: Row<T> -> bool, p: nat, k: nat) {
    p <= |listing| && (p == 0 || keep(listing[p - 1])) && |Filter(listing[..p], keep)| == k * limit
  }

  lemma {:induction false} PageAt<T>(listing: seq<Row<T>>, rests: seq<seq<Row<T>>>, limit: nat, window: nat,
                                     keep: Row<T> -> bool, pages: seq<Page<T>>, k: nat) returns (p: nat)
    requires limit >= 1 && Chain(listing, rests, limit, window, keep, pages) && k < |pages|
    ensures p <= |listing| && PageStart(listing, limit, keep, p, k)
    ensures pages[k] == PageOf(listing[p..], limit, window, keep) && rests[k] == listing[p..]
    ensures k + 1 < |pages| ==> pages[k].next.Some?
    decreases |pages|
  {
    hide PageOf, Filter;
    var last := |pages| - 1;
    if k < last {
      p := PageAt(listing, rests[..last], limit, window, keep, pages[..last], k);
    } else if k == 0 {
      p := 0;
      assert listing[0..] == listing;
      FilterNone(listing[..0], keep);
    } else {
      var before := PageAt(listing, rests[..last], limit, window, keep, pages[..last], k - 1);
      p := PageFromPosition(listing, before, limit, window, keep);
      OneMore(k, limit);
    }
  }

  lemma PageStartUnique<T>(listing: seq<Row<T>>, limit: nat, keep: Row<T> -> bool, p: nat, q: nat, k: nat)
    requires PageStart(listing, limit, keep, p, k) && PageStart(listing, limit, keep, q, k) && p <= q
    ensures p == q
  {
    hide Filter;
    if p < q {
      assert listing[..q] == listing[..p] + listing[p..q];
      FilterSplit(listing[..p], listing[p..q], keep);
      assert listing[p..q][q - 1 - p] == listing[q - 1];
      FilterMember(listing[p..q], keep, listing[q - 1]);
    }
  }

  /** What each request of a walk had to choose from. */
  function Rests<T>(tables: seq<Table<T>>, select: Row<T> -> bool, pages: seq<Page<T>>): (rests: seq<seq<Row<T>>>)
    requires |pages| <= |tables|
  {
    seq(|pages|, k requires 0 <= k < |pages| => Remaining(tables[k], select, CursorBefore(pages, k)))
  }

  lemma CursorFits<T(!new)>(first: Table<T>, later: Table<T>, select: Row<T> -> bool, id: nat)
    requires Keyed(first) && GrownFrom(first, later)
    ensures Continues(Ordered(first, select), id, Remaining(later, select, Some(id)))
  {
    var listing := Ordered(first, select);
    forall q | 0 < q <= |listing| && listing[q - 1].id == id
      ensures Remaining(later, select, Some(id)) == listing[q..]
    {
      CursorContinues(first, later, select, q);
    }
  }

  /** A request answered from the remaining rows. */
  function Paged<T>(select: Row<T> -> bool, limit: nat, window: nat, keep: Row<T> -> bool)
    : (serve: (Table<T>, Option<nat>) -> Page<T>)
    requires limit >= 1
  {
    (table, cursor) => PageOf(Remaining(table, select, cursor), limit, window, keep)
  }

  lemma {:induction false} WalkIsChain<T(!new)>(tables: seq<Table<T>>, select: Row<T> -> bool, limit: nat, window: nat,
                                                keep: Row<T> -> bool, pages: seq<Page<T>>)
    requires limit >= 1 && Walk(tables, Paged(select, limit, window, keep), pages)
    ensures Chain(Ordered(tables[0], select), Rests(tables, select, pages), limit, window, keep, pages)
    decreases |pages|
  {
    hide GrownFrom, Keyed, PageOf, Continues, Ordered;
    var last, rests, serve := |pages| - 1, Rests(tables, select, pages), Paged(select, limit, window, keep);
    assert Served(tables, serve, pages, last);
    if last > 0 {
      var front := pages[..last];
      forall k | 0 <= k < last
        ensures Served(tables, serve, front, k) && rests[k] == Rests(tables, select, front)[k]
      {
        assert Served(tables, serve, pages, k);
        assert CursorBefore(front, k) == CursorBefore(pages, k);
      }
      assert Rests(tables, select, front) == rests[..last];
      WalkIsChain(tables, select, limit, window, keep, front);
      assert Served(tables, serve, pages, last - 1);
      CursorFits(tables[0], tables[last], select, pages[last - 1].next.value);
    }
  }

  /** Only the answers matter. */
  lemma SameService<T(!new)>(tables: seq<Table<T>>, serve: (Table<T>, Option<nat>) -> Page<T>,
                             other: (Table<T>, Option<nat>) -> Page<T>, pages: seq<Page<T>>)
    requires Walk(tables, serve, pages) && forall table, cursor :: serve(table, cursor) == other(table, cursor)
    ensures Walk(tables, other, pages)
  {
    forall k | 0 <= k < |pages| ensures Served(tables, other, pages, k) {
      assert Served(tables, serve, pages, k);
    }
  }

  lemma CutAt<T>(listing: seq<Row<T>>, p: nat, q: nat, window: nat, keep: Row<T> -> bool)
    requires p <= q <= |listing|
    ensures Filter(listing, keep) == Filter(listing[..q], keep) + Filter(listing[q..], keep)
    ensures q == (if |listing| - p <= window then |listing| else p + window) ==> Drop(listing[p..], window) == listing[q..]
  {
    hide Filter;
    assert listing == listing[..q] + listing[q..];
    FilterSplit(listing[..q], listing[q..], keep);
  }

  lemma ChainIsPrefix<T>(listing: seq<Row<T>>, rests: seq<seq<Row<T>>>, limit: nat, window: nat, keep: Row<T> -> bool,
                         pages: seq<Page<T>>)
    requires limit >= 1 && Chain(listing, rests, limit, window, keep, pages)
    ensures Items(pages) <= Filter(listing, keep)
    ensures pages[|pages| - 1].next.None? ==>
              (Items(pages) == Filter(listing, keep) <==> Filter(Drop(rests[|pages| - 1], window), keep) == [])
  {
    var p, q := ChainPosition(listing, rests, limit, window, keep, pages);
    CutAt(listing, p, q, window, keep);
  }

  /** A request that would begin at the p-th row sees no more than a page of what is kept in its window, and more of it
      lies beyond. */
  ghost predicate StopsShort<T>(listing: seq<Row<T>>, limit: nat, window: nat, keep: Row<T> -> bool, p: nat) {
    p + window <= |listing| && |Filter(listing[p..p + window], keep)| <= limit && Filter(listing[p + window..], keep) != []
  }

  /** Some page of the listing begins where that happens. */
  ghost predicate CutShort<T>(listing: seq<Row<T>>, limit: nat, window: nat, keep: Row<T> -> bool) {
    exists p: nat, k: nat :: PageStart(listing, limit, keep, p, k) && StopsShort(listing, limit, window, keep, p)
  }

  lemma ShortPage<T>(rest: seq<Row<T>>, limit: nat, window: nat, keep: Row<T> -> bool)
    requires limit >= 1
    ensures PageOf(rest, limit, window, keep).next.None? <==> |Filter(Take(rest, window), keep)| <= limit
  {
    hide Filter;
  }

  /** A page start that a complete chain has to reach is the start of one of its pages. */
  lemma ReachesPage<T>(listing: seq<Row<T>>, rests: seq<seq<Row<T>>>, limit: nat, window: nat, keep: Row<T> -> bool,
                       pages: seq<Page<T>>, p: nat, k: nat)
    requires limit >= 1 && Chain(listing, rests, limit, window, keep, pages) && pages[|pages| - 1].next.None?
    requires Items(pages) == Filter(listing, keep) && PageStart(listing, limit, keep, p, k)
    requires Filter(listing[p..], keep) != []
    ensures k < |pages|
  {
    hide Filter, Chain, PageOf;
    assert listing == listing[..p] + listing[p..];
    FilterSplit(listing[..p], listing[p..], keep);
    ChainIsFull(listing, rests, limit, window, keep, pages);
    LastPageIsShort(listing, rests, limit, window, keep, pages);
    OneMore(|pages|, limit);
    if k >= |pages| {
      Multiples(|pages|, k, limit);
    }
  }

  lemma Multiples(m: nat, n: nat, limit: nat)
    requires m <= n
    ensures m * limit <= n * limit
  {
  }

  lemma LastPageIsShort<T>(listing: seq<Row<T>>, rests: seq<seq<Row<T>>>, limit: nat, window: nat, keep: Row<T> -> bool,
                           pages: seq<Page<T>>)
    requires limit >= 1 && Chain(listing, rests, limit, window, keep, pages) && pages[|pages| - 1].next.None?
    ensures |pages[|pages| - 1].items| <= limit
  {
    hide Filter;
  }

  /** A chain that has ended has everything that is kept if and only if no page start stops short. */
  lemma ChainCompleteExactly<T>(listing: seq<Row<T>>, rests: seq<seq<Row<T>>>, limit: nat, window: nat,
                                keep: Row<T> -> bool, pages: seq<Page<T>>)
    requires limit >= 1 && Chain(listing, rests, limit, window, keep, pages) && pages[|pages| - 1].next.None?
    ensures Items(pages) == Filter(listing, keep) <==> !CutShort(listing, limit, window, keep)
  {
    hide Filter, PageOf, PageStart, Items;
    var last := |pages| - 1;
    ChainIsPrefix(listing, rests, limit, window, keep, pages);
    if Items(pages) != Filter(listing, keep) {
      var p := PageAt(listing, rests, limit, window, keep, pages, last);
      StopsExactly(listing, limit, window, keep, p);
    } else {
      forall p: nat, k: nat | PageStart(listing, limit, keep, p, k) && StopsShort(listing, limit, window, keep, p)
        ensures false
      {
        Beyond(listing, window, keep, p);
        ReachesPage(listing, rests, limit, window, keep, pages, p, k);
        var q := PageAt(listing, rests, limit, window, keep, pages, k);
        SamePageStart(listing, limit, keep, p, q, k);
        StopsExactly(listing, limit, window, keep, p);
      }
    }
  }

  lemma SamePageStart<T>(listing: seq<Row<T>>, limit: nat, keep: Row<T> -> bool, p: nat, q: nat, k: nat)
    requires PageStart(listing, limit, keep, p, k) && PageStart(listing, limit, keep, q, k)
    ensures p == q
  {
    if p <= q {
      PageStartUnique(listing, limit, keep, p, q, k);
    } else {
      PageStartUnique(listing, limit, keep, q, p, k);
    }
  }

  lemma StopsExactly<T>(listing: seq<Row<T>>, limit: nat, window: nat, keep: Row<T> -> bool, p: nat)
    requires limit >= 1 && p <= |listing|
    ensures StopsShort(listing, limit, window, keep, p)
       <==> PageOf(listing[p..], limit, window, keep).next.None? && Filter(Drop(listing[p..], window), keep) != []
  {
    hide Filter, PageOf;
    ShortPage(listing[p..], limit, window, keep);
    FilterNone([], keep);
    if p + window <= |listing| {
      assert Take(listing[p..], window) == listing[p..p + window];
      assert Drop(listing[p..], window) == listing[p + window..];
    }
  }

  lemma Beyond<T>(listing: seq<Row<T>>, window: nat, keep: Row<T> -> bool, p: nat)
    requires p + window <= |listing| && Filter(listing[p + window..], keep) != []
    ensures Filter(listing[p..], keep) != []
  {
    hide Filter;
    assert listing[p..] == listing[p..p + window] + listing[p + window..];
    FilterSplit(listing[p..p + window], listing[p + window..], keep);
  }

  /** A page without a cursor leaves nothing when everything is kept and the window is longer than a page. */
  lemma LastPageIsAll<T>(rows: seq<Row<T>>, limit: nat, window: nat, keep: Row<T> -> bool)
    requires limit >= 1 && window > limit && PageOf(rows, limit, window, keep).next.None?
    requires forall r :: r in rows ==> keep(r)
    ensures PageOf(rows, limit, window, keep).items == rows && Drop(rows, window) == [] && |rows| <= limit
  {
    hide Filter;
    FilterAll(Take(rows, window), keep);
  }

  /** A finished chain with everything kept is the whole listing; its last page is empty only when it is the only one. */
  lemma FinishedChain<T>(listing: seq<Row<T>>, rests: seq<seq<Row<T>>>, limit: nat, window: nat, keep: Row<T> -> bool,
                         pages: seq<Page<T>>)
    requires limit >= 1 && window > limit && Chain(listing, rests, limit, window, keep, pages)
    requires pages[|pages| - 1].next.None? && forall r :: r in listing ==> keep(r)
    ensures Items(pages) == listing
    ensures |pages[|pages| - 1].items| <= limit
    ensures |pages| > 1 ==> |pages[|pages| - 1].items| > 0
  {
    hide Filter;
    var p, q := ChainPosition(listing, rests, limit, window, keep, pages);
    LastPageIsAll(listing[p..], limit, window, keep);
    assert listing[..q] == listing;
    FilterAll(listing, keep);
  }

  /** All pages of a chain but the last one are full. */
  lemma {:induction false} ChainIsFull<T>(listing: seq<Row<T>>, rests: seq<seq<Row<T>>>, limit: nat, window: nat,
                                          keep: Row<T> -> bool, pages: seq<Page<T>>)
    requires limit >= 1 && Chain(listing, rests, limit, window, keep, pages)
    ensures |Items(pages)| == (|pages| - 1) * limit + |pages[|pages| - 1].items|
    decreases |pages|
  {
    var last := |pages| - 1;
    if last > 0 {
      ChainIsFull(listing, rests[..last], limit, window, keep, pages[..last]);
      assert |pages[last - 1].items| == limit;
      assert (last - 1) * limit + limit == last * limit;
    } else {
      assert Items(pages[..0]) == [];
    }
  }

  /** With nothing filtered out after the fetch, the pages of a finished walk are the listing, in
      max(1, ceil(n / limit)) requests. */
  ghost predicate Complete<T>(listing: seq<Row<T>>, limit: nat, pages: seq<Page<T>>) {
    && Items(pages) == listing
    && |listing| <= |pages| * limit && (|pages| > 1 ==> (|pages| - 1) * limit < |listing|)
  }

  lemma OneMore(m: int, limit: int)
    ensures (m - 1) * limit + limit == m * limit
  {
  }

  lemma ChainComplete<T>(listing: seq<Row<T>>, rests: seq<seq<Row<T>>>, limit: nat, window: nat, keep: Row<T> -> bool,
                         pages: seq<Page<T>>)
    requires limit >= 1 && window > limit && Chain(listing, rests, limit, window, keep, pages)
    requires pages[|pages| - 1].next.None? && forall r :: r in listing ==> keep(r)
    ensures Complete(listing, limit, pages)
  {
    FinishedChain(listing, rests, limit, window, keep, pages);
    ChainIsFull(listing, rests, limit, window, keep, pages);
    OneMore(|pages|, limit);
  }

  lemma WalkComplete<T(!new)>(tables: seq<Table<T>>, select: Row<T> -> bool, limit: nat, window: nat, keep: Row<T> -> bool,
                              pages: seq<Page<T>>)
    requires limit >= 1 && window > limit && Walk(tables, Paged(select, limit, window, keep), pages)
    requires pages[|pages| - 1].next.None? && forall r :: keep(r)
    ensures Complete(Ordered(tables[0], select), limit, pages)
  {
    WalkIsChain(tables, select, limit, window, keep, pages);
    ChainComplete(Ordered(tables[0], select), Rests(tables, select, pages), limit, window, keep, pages);
  }

  // ---- the order and the pages, on the columns ------------------------------

  /** The listing holds the selected rows, the latest first, and of those of one time the greatest id first. */
  lemma OrderedExactly<T(!new)>(table: Table<T>, select: Row<T> -> bool)
    requires Keyed(table)
    ensures var listing := Ordered(table, select);
            && (forall r :: r in listing <==> r in table && select(r))
            && forall i, j :: 0 <= i < j < |listing| ==>
                 listing[i].at >= listing[j].at && (listing[i].at == listing[j].at ==> listing[i].id > listing[j].id)
  {
    hide Ordered;
    OrderedStrict(table, select);
  }

  /** After a cursor come the rows that are older, or as old with a smaller id; an unknown cursor is ignored. */
  lemma RemainingExactly<T(!new)>(table: Table<T>, select: Row<T> -> bool, cursor: Option<nat>, r: Row<T>)
    requires Keyed(table)
    ensures cursor == None || (forall c :: c in table ==> c.id != cursor.value) ==>
              Remaining(table, select, cursor) == Ordered(table, select)
    ensures forall c :: c in table && cursor == Some(c.id) ==>
              (r in Remaining(table, select, cursor) <==>
               r in table && select(r) && (r.at < c.at || (r.at == c.at && r.id < c.id)))
  {
    hide Ordered;
    OrderedStrict(table, select);
    if cursor != None {
      FindNothing(table, cursor.value);
      forall c | c in table && cursor == Some(c.id)
        ensures r in Remaining(table, select, cursor) <==>
                r in table && select(r) && (r.at < c.at || (r.at == c.at && r.id < c.id))
      {
        FindRow(table, c);
        FilterMember(Ordered(table, select), x => Older(x, c), r);
      }
    }
  }

  lemma {:induction false} FindNothing<T>(table: Table<T>, id: nat)
    ensures (forall c :: c in table ==> c.id != id) ==> Find(table, id) == None
  {
    if table != [] {
      FindNothing(table[1..], id);
    }
  }

  /** A page of artifacts skips `offset` rows and takes up to `limit`; it has the id of its last row as cursor exactly if
      more follow. */
  lemma ArtifactPageExactly<T>(table: Table<T>, select: Row<T> -> bool, cursor: Option<nat>, offset: nat, limit: nat)
    requires limit >= 1
    ensures var rows, page := Remaining(table, select, cursor), ListArtifacts(table, select, cursor, offset, limit);
            if |rows| > offset + limit
            then page.items == rows[offset..offset + limit] && page.next == Some(rows[offset + limit - 1].id)
            else page.next == None && page.items == if offset <= |rows| then rows[offset..] else []
  {
  }

  /** A page of events looks at the larger of 4 * limit and limit + 1 rows, keeps what passes the filter, returns up to
      `limit` of it, and has the id of its last row as cursor exactly if more was kept. */
  lemma EventPageExactly<T>(table: Table<T>, select: Row<T> -> bool, cursor: Option<nat>, limit: nat, keep: Row<T> -> bool)
    requires limit >= 1
    ensures var rows, page := Remaining(table, select, cursor), QueryEvents(table, select, cursor, limit, keep);
            var window := if 4 * limit >= limit + 1 then 4 * limit else limit + 1;
            var kept := Filter(if |rows| <= window then rows else rows[..window], keep);
            if |kept| > limit then page.items == kept[..limit] && page.next == Some(kept[limit - 1].id)
            else page == Page(kept, None)
  {
    hide Filter, Remaining;
  }

  // ---- the two listings ----------------------------------------------------

  function Events<T>(select: Row<T> -> bool, limit: nat, keep: Row<T> -> bool)
    : (serve: (Table<T>, Option<nat>) -> Page<T>)
    requires limit >= 1
  {
    (table, cursor) => QueryEvents(table, select, cursor, limit, keep)
  }

  lemma EventsArePaged<T(!new)>(tables: seq<Table<T>>, select: Row<T> -> bool, limit: nat, keep: Row<T> -> bool,
                                pages: seq<Page<T>>)
    requires limit >= 1 && Walk(tables, Events(select, limit, keep), pages)
    ensures Walk(tables, Paged(select, limit, EventWindow(limit), keep), pages)
  {
    SameService(tables, Events(select, limit, keep), Paged(select, limit, EventWindow(limit), keep), pages);
  }

  /** The event listing, whatever the workspace and runtime filters: its pages are a prefix of the filtered log as it
      stood at the first request; and a client that has followed it to the end has all of it if and only if nothing
      that is kept lay beyond the window of its last request. */
  lemma EventPagesArePrefix<T(!new)>(tables: seq<Table<T>>, select: Row<T> -> bool, limit: nat, keep: Row<T> -> bool,
                                     pages: seq<Page<T>>)
    requires limit >= 1 && Walk(tables, Events(select, limit, keep), pages)
    ensures var log := Ordered(tables[0], select);
            && Items(pages) <= Filter(log, keep)
            && (pages[|pages| - 1].next.None? ==>
                  (Items(pages) == Filter(log, keep)
                   <==> Filter(Drop(LastRemaining(tables, select, pages), EventWindow(limit)), keep) == []))
  {
    hide Walk, Chain, PageOf, Filter, Remaining, Events, Paged;
    EventsArePaged(tables, select, limit, keep, pages);
    WalkIsChain(tables, select, limit, EventWindow(limit), keep, pages);
    ChainIsPrefix(Ordered(tables[0], select), Rests(tables, select, pages), limit, EventWindow(limit), keep, pages);
    assert Rests(tables, select, pages)[|pages| - 1] == LastRemaining(tables, select, pages);
  }

  /** A client that has followed the event listing to its end has everything if and only if no page of the log, as it
      stood at the first request, stops short. */
  lemma EventPagesCompleteExactly<T(!new)>(tables: seq<Table<T>>, select: Row<T> -> bool, limit: nat,
                                           keep: Row<T> -> bool, pages: seq<Page<T>>)
    requires limit >= 1 && Walk(tables, Events(select, limit, keep), pages) && pages[|pages| - 1].next.None?
    ensures var log := Ordered(tables[0], select);
            Items(pages) == Filter(log, keep) <==> !CutShort(log, limit, EventWindow(limit), keep)
  {
    hide Walk, Chain, PageOf, Filter, Remaining, Events, Paged, CutShort;
    EventsArePaged(tables, select, limit, keep, pages);
    WalkIsChain(tables, select, limit, EventWindow(limit), keep, pages);
    ChainCompleteExactly(Ordered(tables[0], select), Rests(tables, select, pages), limit, EventWindow(limit), keep, pages);
  }

  /** Newest first, and only the oldest row is wanted. */
  function OldestWanted(n: nat): Table<bool> {
    seq(n + 1, i requires 0 <= i <= n => Row(n - i, n - i, i == n))
  }

  /** For every page size there is a log on which the listing ends at once, with nothing, and misses a wanted event. */
  lemma ListingsCanStopShort(limit: nat)
    requires limit >= 1
    ensures var table, all, keep := OldestWanted(EventWindow(limit)), (r: Row<bool>) => true, (r: Row<bool>) => r.data;
            && Keyed(table) && QueryEvents(table, all, None, limit, keep) == Page([], None)
            && exists r :: r in Ordered(table, all) && keep(r)
  {
    hide EventWindow, Filter, Ordered;
    var n := EventWindow(limit);
    var table, all, keep := OldestWanted(n), (r: Row<bool>) => true, (r: Row<bool>) => r.data;
    OldestIsListing(n, all);
    assert forall r :: r in Take(table, n) ==> !keep(r);
    FilterNone(Take(table, n), keep);
    assert table[n] in table && keep(table[n]);
  }

  lemma OldestIsListing(n: nat, all: Row<bool> -> bool)
    requires forall r :: all(r)
    ensures Keyed(OldestWanted(n)) && Ordered(OldestWanted(n), all) == OldestWanted(n)
  {
    hide Ordered;
    var table := OldestWanted(n);
    OrderedStrict(table, all);
    StrictUnique(Ordered(table, all), table);
  }

  /** With the filters off the event listing misses nothing. */
  lemma EventPagesComplete<T(!new)>(tables: seq<Table<T>>, select: Row<T> -> bool, limit: nat, keep: Row<T> -> bool,
                                    pages: seq<Page<T>>)
    requires limit >= 1 && Walk(tables, Events(select, limit, keep), pages)
    requires pages[|pages| - 1].next.None? && forall r :: keep(r)
    ensures Complete(Ordered(tables[0], select), limit, pages)
  {
    EventsArePaged(tables, select, limit, keep, pages);
    WalkComplete(tables, select, limit, EventWindow(limit), keep, pages);
  }

  function Artifacts<T>(select: Row<T> -> bool, limit: nat): (serve: (Table<T>, Option<nat>) -> Page<T>)
    requires limit >= 1
  {
    (table, cursor) => ListArtifacts(table, select, cursor, 0, limit)
  }

  lemma ArtifactsArePages<T>(table: Table<T>, select: Row<T> -> bool, cursor: Option<nat>, limit: nat, all: Row<T> -> bool)
    requires limit >= 1 && forall r :: all(r)
    ensures Artifacts(select, limit)(table, cursor) == Paged(select, limit, limit + 1, all)(table, cursor)
  {
    var rows := Remaining(table, select, cursor);
    assert Drop(rows, 0) == rows;
    FilterAll(Take(rows, limit + 1), all);
  }

  /** Following the cursors to the end gives exactly the artifacts selected at the first request, newest first, none
      missed or repeated. */
  lemma ArtifactWalkComplete<T(!new)>(tables: seq<Table<T>>, select: Row<T> -> bool, limit: nat, pages: seq<Page<T>>)
    requires limit >= 1 && Walk(tables, Artifacts(select, limit), pages) && pages[|pages| - 1].next.None?
    ensures Complete(Ordered(tables[0], select), limit, pages)
  {
    hide Walk, Artifacts, Paged, Complete;
    var all := (r: Row<T>) => true;
    var serve := Paged(select, limit, limit + 1, all);
    forall table, cursor ensures Artifacts(select, limit)(table, cursor) == serve(table, cursor) {
      ArtifactsArePages(table, select, cursor, limit, all);
    }
    SameService(tables, Artifacts(select, limit), serve, pages);
    WalkComplete(tables, select, limit, limit + 1, all, pages);
  }
}
