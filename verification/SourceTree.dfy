/** `build_hierarchical_tree` and `_sort_tree` of core/artifact_code_review.py. The nodes live in a table by path, as in
    the source; a directory lists its children by their paths. */
module SourceTree {
  import opened Ordering
  import opened Text

  /** The parts of a path below the root; [] is the root itself. */
  type Path = seq<string>

  datatype Row<T> = Row(path: string, data: T)

  datatype Node<T> = File(data: T) | Dir(children: seq<Path>)

  type Nodes<T> = map<Path, Node<T>>

  function StripSlashes(s: string): string {
    if s != "" && s[0] == '/' then StripSlashes(s[1..]) else s
  }

  /** The parts of a row's path; none if the path is blank. */
  function Parts<T>(row: Row<T>): Path {
    var rel := StripSlashes(Strip(row.path));
    if rel == "" then [] else Split(rel, '/')
  }

  /** The key of a node in the source. */
  function NodePath(p: Path): string {
    "/" + Join(p, '/')
  }

  function Parent(p: Path): Path
    requires p != []
  {
    p[..|p| - 1]
  }

  function Name(p: Path): string {
    if p == [] then "/" else p[|p| - 1]
  }

  // ---- what a list of rows makes of a path ---------------------------------

  /** The first row that mentions a path decides what it is: a file if the path is the row's own, otherwise a directory. */
  datatype Kind<T> = Absent | IsFile(data: T) | IsDir

  function KindBy<T>(row: Row<T>, p: Path): Kind<T> {
    if p == Parts(row) then IsFile(row.data) else if p <= Parts(row) then IsDir else Absent
  }

  function KindOf<T>(rows: seq<Row<T>>, p: Path): Kind<T> {
    if p == [] then IsDir
    else if rows == [] then Absent
    else
      var before := KindOf(rows[..|rows| - 1], p);
      if before != Absent then before else KindBy(rows[|rows| - 1], p)
  }

  function KindIn<T>(nodes: Nodes<T>, p: Path): Kind<T> {
    if p !in nodes then Absent
    else match nodes[p]
      case File(data) => IsFile(data)
      case Dir(_) => IsDir
  }

  /** Every node but the root has its parent in the table, and a directory lists exactly the nodes below it, once each. */
  ghost predicate Linked<T>(nodes: Nodes<T>) {
    && [] in nodes && nodes[[]].Dir?
    && (forall p :: p in nodes && p != [] ==> Parent(p) in nodes)
    && (forall p :: p in nodes && nodes[p].Dir? ==> Lists(nodes, p, nodes[p].children))
  }

  ghost predicate Lists<T>(nodes: Nodes<T>, p: Path, children: seq<Path>) {
    && NoDuplicates(children)
    && forall q :: q in children <==> q in nodes && q != [] && Parent(q) == p
  }

  /** The table agrees with the rows. */
  ghost predicate Built<T>(nodes: Nodes<T>, rows: seq<Row<T>>) {
    Linked(nodes) && forall p :: KindIn(nodes, p) == KindOf(rows, p)
  }

  /** In the middle of a row: the first n prefixes of its path are done. */
  ghost predicate BuiltUpTo<T>(nodes: Nodes<T>, rows: seq<Row<T>>, row: Row<T>, n: nat) {
    && Linked(nodes) && n <= |Parts(row)|
    && forall p :: KindIn(nodes, p) == if KindOf(rows, p) == Absent && |p| <= n then KindBy(row, p) else KindOf(rows, p)
  }

  /** Adding a node below a parent that is in the table. */
  function Added<T>(nodes: Nodes<T>, p: Path, node: Node<T>): Nodes<T>
    requires p != []
  {
    var with := nodes[p := node];
    if Parent(p) in with && with[Parent(p)].Dir? then with[Parent(p) := Dir(with[Parent(p)].children + [p])] else with
  }

  // ---- adding rows ---------------------------------------------------------

  lemma AddedLinked<T>(nodes: Nodes<T>, p: Path, node: Node<T>)
    requires Linked(nodes) && p != [] && p !in nodes && Parent(p) in nodes && (node.File? || node.children == [])
    ensures Linked(Added(nodes, p, node))
    ensures forall q :: KindIn(Added(nodes, p, node), q)
                     == if q == p then (if node.File? then IsFile(node.data) else IsDir) else KindIn(nodes, q)
  {
    var after := Added(nodes, p, node);
    forall q | q in after && after[q].Dir? ensures Lists(after, q, after[q].children) {
      if q != p {
        assert Lists(nodes, q, nodes[q].children);
      }
    }
  }

  lemma FirstPrefixes<T>(nodes: Nodes<T>, rows: seq<Row<T>>, row: Row<T>)
    requires Built(nodes, rows)
    ensures BuiltUpTo(nodes, rows, row, 0)
  {
    hide Linked, Parts, KindIn;
  }

  /** The next prefix of a row: its parent is there, and either it is there too or no earlier row mentions it. */
  lemma NextPrefix<T>(nodes: Nodes<T>, rows: seq<Row<T>>, row: Row<T>, n: nat)
    requires BuiltUpTo(nodes, rows, row, n) && n < |Parts(row)|
    ensures Parts(row)[..n] in nodes
    ensures Parts(row)[..n + 1] in nodes <==> KindOf(rows, Parts(row)[..n + 1]) != Absent
  {
    hide Linked, Parts;
    var parent, p := Parts(row)[..n], Parts(row)[..n + 1];
    assert KindIn(nodes, parent) == if KindOf(rows, parent) == Absent && |parent| <= n then KindBy(row, parent) else KindOf(rows, parent);
    assert KindIn(nodes, p) == if KindOf(rows, p) == Absent && |p| <= n then KindBy(row, p) else KindOf(rows, p);
    assert parent <= Parts(row);
  }

  lemma PrefixThere<T>(nodes: Nodes<T>, rows: seq<Row<T>>, row: Row<T>, n: nat)
    requires BuiltUpTo(nodes, rows, row, n) && n < |Parts(row)| && Parts(row)[..n + 1] in nodes
    ensures BuiltUpTo(nodes, rows, row, n + 1)
  {
    hide Linked, Parts, KindIn, KindOf;
    NextPrefix(nodes, rows, row, n);
    forall p ensures KindIn(nodes, p) == if KindOf(rows, p) == Absent && |p| <= n + 1 then KindBy(row, p) else KindOf(rows, p) {
      if |p| == n + 1 && KindOf(rows, p) == Absent {
        assert p != Parts(row)[..n + 1];
      }
    }
  }

  lemma PrefixAdded<T>(nodes: Nodes<T>, rows: seq<Row<T>>, row: Row<T>, n: nat, node: Node<T>)
    requires BuiltUpTo(nodes, rows, row, n) && n < |Parts(row)| && Parts(row)[..n + 1] !in nodes
    requires node == if n == |Parts(row)| - 1 then File(row.data) else Dir([])
    ensures BuiltUpTo(Added(nodes, Parts(row)[..n + 1], node), rows, row, n + 1)
  {
    hide Linked, Parts, KindIn, KindOf, Added;
    var path := Parts(row)[..n + 1];
    NextPrefix(nodes, rows, row, n);
    assert Parent(path) == Parts(row)[..n];
    AddedLinked(nodes, path, node);
    var after := Added(nodes, path, node);
    forall p ensures KindIn(after, p) == if KindOf(rows, p) == Absent && |p| <= n + 1 then KindBy(row, p) else KindOf(rows, p) {
      if p == path {
        assert n == |Parts(row)| - 1 <==> path == Parts(row);
      }
    }
  }

  lemma LastPrefix<T>(nodes: Nodes<T>, rows: seq<Row<T>>, row: Row<T>)
    requires BuiltUpTo(nodes, rows, row, |Parts(row)|)
    ensures Built(nodes, rows + [row])
  {
    hide Linked, Parts, KindIn;
    assert (rows + [row])[..|rows|] == rows;
    forall p ensures KindIn(nodes, p) == KindOf(rows + [row], p) {
    }
  }

  // ---- sorting -------------------------------------------------------------

  function Dirs<T>(nodes: Nodes<T>): set<Path> {
    set p | p in nodes && nodes[p].Dir?
  }

  /** The key of the sort: directories first, then the lower-cased name. */
  predicate SortsBefore(dirs: set<Path>, a: Path, b: Path) {
    (a in dirs && b !in dirs) || ((a in dirs <==> b in dirs) && StringLeq(Lower(Name(a)), Lower(Name(b))))
  }

  function ByKindAndName(dirs: set<Path>): (Path, Path) -> bool {
    (a, b) => SortsBefore(dirs, a, b)
  }

  lemma KindAndNameTotal(dirs: set<Path>)
    ensures TotalPreorder(ByKindAndName(dirs))
  {
    forall a, b ensures SortsBefore(dirs, a, b) || SortsBefore(dirs, b, a) {
      StringLeqTotal(Lower(Name(a)), Lower(Name(b)));
    }
    forall a, b, c | SortsBefore(dirs, a, b) && SortsBefore(dirs, b, c) ensures SortsBefore(dirs, a, c) {
      if (a in dirs <==> b in dirs) && (b in dirs <==> c in dirs) {
        StringLeqTransitive(Lower(Name(a)), Lower(Name(b)), Lower(Name(c)));
      }
    }
  }

  function SortedNode<T>(node: Node<T>, dirs: set<Path>): Node<T> {
    match node
    case File(_) => node
    case Dir(children) => Dir(Sort(children, ByKindAndName(dirs)))
  }

  /** q is reached from p by going down through directories. */
  predicate Below<T>(nodes: Nodes<T>, p: Path, q: Path) {
    && p <= q && q in nodes
    && forall n :: |p| <= n < |q| ==> q[..n] in nodes && nodes[q[..n]].Dir?
  }

  predicate BelowAny<T>(nodes: Nodes<T>, starts: seq<Path>, q: Path) {
    exists k :: 0 <= k < |starts| && Below(nodes, starts[k], q)
  }

  /** The children of every directory that is reached from one of the starts are sorted; all else stays. */
  function SortedFrom<T>(nodes: Nodes<T>, starts: seq<Path>): Nodes<T> {
    map p | p in nodes :: if BelowAny(nodes, starts, p) then SortedNode(nodes[p], Dirs(nodes)) else nodes[p]
  }

  lemma SortedKinds<T>(nodes: Nodes<T>, starts: seq<Path>)
    ensures SortedFrom(nodes, starts).Keys == nodes.Keys
    ensures forall p :: KindIn(SortedFrom(nodes, starts), p) == KindIn(nodes, p)
    ensures Dirs(SortedFrom(nodes, starts)) == Dirs(nodes)
    ensures forall p, q :: Below(SortedFrom(nodes, starts), p, q) <==> Below(nodes, p, q)
  {
    hide BelowAny;
  }

  lemma SortKeepsList<T>(nodes: Nodes<T>, p: Path, children: seq<Path>, dirs: set<Path>)
    requires Lists(nodes, p, children)
    ensures Lists(nodes, p, Sort(children, ByKindAndName(dirs)))
  {
    SortNoDuplicates(children, ByKindAndName(dirs));
    SameElements(children, Sort(children, ByKindAndName(dirs)));
  }

  lemma SortedLinked<T>(nodes: Nodes<T>, starts: seq<Path>)
    requires Linked(nodes)
    ensures Linked(SortedFrom(nodes, starts))
  {
    hide BelowAny;
    var sorted := SortedFrom(nodes, starts);
    forall p | p in sorted && sorted[p].Dir? ensures Lists(sorted, p, sorted[p].children) {
      SortKeepsList(nodes, p, nodes[p].children, Dirs(nodes));
      assert Lists(nodes, p, sorted[p].children);
    }
  }

  lemma SortNothing<T>(nodes: Nodes<T>)
    ensures SortedFrom(nodes, []) == nodes
  {
  }

  /** Below two different paths of the same length there is nothing in common. */
  lemma Apart<T>(nodes: Nodes<T>, p: Path, p': Path, q: Path)
    requires |p| == |p'| && Below(nodes, p, q) && Below(nodes, p', q)
    ensures p == p'
  {
    assert q[..|p|] == p && q[..|p'|] == p';
  }

  lemma OneMoreStart<T>(nodes: Nodes<T>, starts: seq<Path>, p: Path)
    ensures forall q :: BelowAny(nodes, starts + [p], q) <==> BelowAny(nodes, starts, q) || Below(nodes, p, q)
    ensures forall q :: BelowAny(nodes, [p], q) <==> Below(nodes, p, q)
  {
    hide Below;
    forall q ensures BelowAny(nodes, starts + [p], q) <==> BelowAny(nodes, starts, q) || Below(nodes, p, q) {
      if BelowAny(nodes, starts, q) {
        var k :| 0 <= k < |starts| && Below(nodes, starts[k], q);
        assert Below(nodes, (starts + [p])[k], q);
      }
      if Below(nodes, p, q) {
        assert (starts + [p])[|starts|] == p;
      }
    }
    forall q ensures BelowAny(nodes, [p], q) <==> Below(nodes, p, q) {
      assert [p][0] == p;
    }
  }

  /** Sorting below one more child. */
  lemma SortOneMore<T>(nodes: Nodes<T>, starts: seq<Path>, p: Path)
    requires p !in starts && forall s :: s in starts ==> |s| == |p|
    ensures SortedFrom(SortedFrom(nodes, starts), [p]) == SortedFrom(nodes, starts + [p])
  {
    hide Below, BelowAny, Dirs, SortedNode;
    var once := SortedFrom(nodes, starts);
    var twice, together := SortedFrom(once, [p]), SortedFrom(nodes, starts + [p]);
    SortedKinds(nodes, starts);
    OneMoreStart(nodes, starts, p);
    OneMoreStart(once, [], p);
    forall q | q in nodes ensures twice[q] == together[q] {
      assert Below(once, p, q) <==> Below(nodes, p, q);
      if Below(nodes, p, q) {
        NotBelowOthers(nodes, starts, p, q);
      }
    }
  }

  lemma NotBelowOthers<T>(nodes: Nodes<T>, starts: seq<Path>, p: Path, q: Path)
    requires p !in starts && (forall s :: s in starts ==> |s| == |p|) && Below(nodes, p, q)
    ensures !BelowAny(nodes, starts, q)
  {
    hide Below;
    if BelowAny(nodes, starts, q) {
      var k :| 0 <= k < |starts| && Below(nodes, starts[k], q);
      Apart(nodes, starts[k], p, q);
      assert false;
    }
  }

  /** What is below a directory: itself and what is below its children. */
  lemma BelowChildren<T>(nodes: Nodes<T>, p: Path, q: Path)
    requires Linked(nodes) && p in nodes && nodes[p].Dir? && q in nodes
    ensures Below(nodes, p, q) <==> q == p || BelowAny(nodes, nodes[p].children, q)
    ensures !BelowAny(nodes, nodes[p].children, p)
  {
    var children := nodes[p].children;
    assert Lists(nodes, p, children);
    if Below(nodes, p, q) && q != p {
      var c := q[..|p| + 1];
      assert c in nodes && Parent(c) == p by {
        assert c[..|p|] == p;
        if |q| == |p| + 1 {
          assert c == q;
        }
      }
      assert c in children;
      var k :| 0 <= k < |children| && children[k] == c;
      assert Below(nodes, c, q);
    }
    if BelowAny(nodes, children, q) {
      var k :| 0 <= k < |children| && Below(nodes, children[k], q);
      assert children[k] in children;
      var c := children[k];
      assert Parent(c) == p && q[..|p|] == p;
      forall n | |p| <= n < |q| ensures q[..n] in nodes && nodes[q[..n]].Dir? {
        if n == |p| {
          assert q[..n] == p;
        }
      }
    }
    forall k | 0 <= k < |children| ensures !Below(nodes, children[k], p) {
      assert children[k] in children;
    }
  }

  /** Below a file there is only the file. */
  lemma BelowFile<T>(nodes: Nodes<T>, p: Path)
    requires p in nodes && nodes[p].File?
    ensures SortedFrom(nodes, [p]) == nodes
  {
    OneMoreStart(nodes, [], p);
    forall q | q in nodes ensures Below(nodes, p, q) <==> q == p {
      OnlyItself(nodes, p, q);
    }
  }

  /** Sorting the children and then the list itself. */
  lemma SortLast<T>(nodes: Nodes<T>, p: Path)
    requires Linked(nodes) && p in nodes && nodes[p].Dir?
    ensures var below := SortedFrom(nodes, nodes[p].children);
            && p in below && below[p] == nodes[p]
            && below[p := Dir(Sort(nodes[p].children, ByKindAndName(Dirs(nodes))))] == SortedFrom(nodes, [p])
  {
    hide Below, BelowAny, Dirs;
    var children := nodes[p].children;
    var below := SortedFrom(nodes, children);
    OneMoreStart(nodes, [], p);
    BelowChildren(nodes, p, p);
    forall q | q in nodes ensures BelowAny(nodes, [p], q) <==> q == p || BelowAny(nodes, children, q) {
      BelowChildren(nodes, p, q);
    }
  }

  function Deeper<T>(nodes: Nodes<T>, n: nat): set<Path> {
    set p | p in nodes && |p| > n
  }

  lemma ChildIsDeeper<T>(nodes: Nodes<T>, p: Path, c: Path)
    requires Linked(nodes) && p in nodes && nodes[p].Dir? && c in nodes[p].children
    ensures c in nodes && |c| == |p| + 1 && Deeper(nodes, |c|) < Deeper(nodes, |p|)
  {
    assert Lists(nodes, p, nodes[p].children);
    assert c in Deeper(nodes, |p|) && c !in Deeper(nodes, |c|);
  }

  /** The finished tree of a list of rows. */
  ghost predicate IsTree<T(!new)>(tree: Nodes<T>, rows: seq<Row<T>>) {
    exists unsorted :: Built(unsorted, rows) && tree == SortedFrom(unsorted, [[]])
  }

  class TreeBuilder<T(!new)> {
    var byPath: Nodes<T>

    constructor ()
      ensures Built(byPath, [])
    {
      byPath := map[[] := Dir([])];
    }

    /** One row: every prefix of its path becomes a node unless it is one. */
    method AddRow(ghost rows: seq<Row<T>>, row: Row<T>)
      requires Built(byPath, rows)
      modifies this
      ensures Built(byPath, rows + [row])
    {
      hide Linked, Parts, Built, BuiltUpTo;
      FirstPrefixes(byPath, rows, row);
      var parts := Parts(row);
      var parentPath: Path := [];
      var idx := 0;
      while idx < |parts|
        invariant idx <= |parts| && parentPath == parts[..idx]
        invariant BuiltUpTo(byPath, rows, row, idx)
      {
        var nodePath := parts[..idx + 1];
        NextPrefix(byPath, rows, row, idx);
        if nodePath in byPath {
          PrefixThere(byPath, rows, row, idx);
          parentPath := nodePath;
          idx := idx + 1;
          continue;
        }
        var node := if idx == |parts| - 1 then File(row.data) else Dir([]);
        PrefixAdded(byPath, rows, row, idx, node);
        assert Parent(nodePath) == parentPath;
        byPath := byPath[nodePath := node];
        if byPath[parentPath].Dir? {
          byPath := byPath[parentPath := Dir(byPath[parentPath].children + [nodePath])];
        }
        parentPath := nodePath;
        idx := idx + 1;
      }
      LastPrefix(byPath, rows, row);
    }

    /** The recursive sort from one node down. */
    method SortTree(p: Path)
      requires Linked(byPath) && p in byPath
      modifies this
      ensures byPath == SortedFrom(old(byPath), [p])
      decreases Deeper(byPath, |p|)
    {
      hide Linked, SortedFrom, Deeper, SortedNode, Dirs, ByKindAndName;
      ghost var nodes := byPath;
      if byPath[p].File? {
        BelowFile(nodes, p);
        return;
      }
      var children := byPath[p].children;
      SortNothing(nodes);
      SortLast(nodes, p);
      var i := 0;
      while i < |children|
        invariant i <= |children| && byPath == SortedFrom(nodes, children[..i])
      {
        var child := children[i];
        SortStep(nodes, p, i);
        SortTree(child);
        i := i + 1;
      }
      assert children[..i] == children;
      SortedKinds(nodes, children);
      byPath := byPath[p := Dir(Sort(children, ByKindAndName(Dirs(byPath))))];
    }

    /** The loop over the rows, and the sort. */
    method BuildHierarchicalTree(rows: seq<Row<T>>)
      requires Built(byPath, [])
      modifies this
      ensures IsTree(byPath, rows)
    {
      hide Built, SortedFrom, Linked;
      var i := 0;
      assert rows[..0] == [];
      while i < |rows|
        invariant i <= |rows| && Built(byPath, rows[..i])
      {
        AddRow(rows[..i], rows[i]);
        assert rows[..i] + [rows[i]] == rows[..i + 1];
        i := i + 1;
      }
      assert rows[..i] == rows;
      ghost var unsorted := byPath;
      BuiltIsLinked(byPath, rows);
      SortTree([]);
      assert Built(unsorted, rows) && byPath == SortedFrom(unsorted, [[]]);
    }
  }

  /** The turn of the loop that sorts below the i-th child. */
  lemma SortStep<T>(nodes: Nodes<T>, p: Path, i: nat)
    requires Linked(nodes) && p in nodes && nodes[p].Dir? && i < |nodes[p].children|
    ensures var children, now := nodes[p].children, SortedFrom(nodes, nodes[p].children[..i]);
            && Linked(now) && children[i] in now
            && Deeper(now, |children[i]|) < Deeper(nodes, |p|)
            && SortedFrom(now, [children[i]]) == SortedFrom(nodes, children[..i + 1])
  {
    hide Linked, SortedFrom, Deeper, SortedNode, Dirs;
    var children := nodes[p].children;
    var starts, child := children[..i], children[i];
    ChildrenOnce(nodes, p);
    ChildIsDeeper(nodes, p, child);
    SortedLinked(nodes, starts);
    SortedKinds(nodes, starts);
    SameDepth(nodes, SortedFrom(nodes, starts));
    forall s | s in starts ensures |s| == |child| {
      assert s in children;
      ChildIsDeeper(nodes, p, s);
    }
    SortOneMore(nodes, starts, child);
    assert starts + [child] == children[..i + 1];
  }

  lemma ChildrenOnce<T>(nodes: Nodes<T>, p: Path)
    requires Linked(nodes) && p in nodes && nodes[p].Dir?
    ensures NoDuplicates(nodes[p].children)
  {
    assert Lists(nodes, p, nodes[p].children);
  }

  lemma SameDepth<T>(nodes: Nodes<T>, other: Nodes<T>)
    requires nodes.Keys == other.Keys
    ensures forall n :: Deeper(nodes, n) == Deeper(other, n)
  {
    forall n: nat ensures Deeper(nodes, n) == Deeper(other, n) {
      assert forall p :: p in nodes <==> p in other.Keys;
    }
  }

  lemma BuiltIsLinked<T>(nodes: Nodes<T>, rows: seq<Row<T>>)
    requires Built(nodes, rows)
    ensures Linked(nodes) && [] in nodes
  {
  }

  // ---- the leaves ----------------------------------------------------------

  datatype Leaf<T> = Leaf(path: Path, data: T)

  /** The file leaves below a node, in the order in which the tree lists them. */
  ghost function Leaves<T>(nodes: Nodes<T>, p: Path): seq<Leaf<T>>
    requires Linked(nodes) && p in nodes
    decreases Deeper(nodes, |p|), 1, 0
  {
    match nodes[p]
    case File(data) => [Leaf(p, data)]
    case Dir(children) => LeavesOf(nodes, p, children)
  }

  ghost function LeavesOf<T>(nodes: Nodes<T>, p: Path, children: seq<Path>): seq<Leaf<T>>
    requires Linked(nodes) && p in nodes && nodes[p].Dir?
    requires forall c :: c in children ==> c in nodes[p].children
    decreases Deeper(nodes, |p|), 0, |children|
  {
    if children == [] then []
    else
      ChildIsDeeper(nodes, p, children[0]);
      Leaves(nodes, children[0]) + LeavesOf(nodes, p, children[1..])
  }

  ghost predicate OncePerPath<T>(leaves: seq<Leaf<T>>) {
    forall i, j :: 0 <= i < j < |leaves| ==> leaves[i].path != leaves[j].path
  }

  ghost predicate LeafBelow<T>(nodes: Nodes<T>, p: Path, l: Leaf<T>) {
    Below(nodes, p, l.path) && nodes[l.path] == File(l.data)
  }

  ghost predicate LeafBelowAny<T>(nodes: Nodes<T>, starts: seq<Path>, l: Leaf<T>) {
    exists k :: 0 <= k < |starts| && LeafBelow(nodes, starts[k], l)
  }

  /** The leaves below a node are the files reached from it, once each. */
  lemma {:induction false} LeavesExactly<T>(nodes: Nodes<T>, p: Path)
    requires Linked(nodes) && p in nodes
    ensures forall l :: l in Leaves(nodes, p) <==> LeafBelow(nodes, p, l)
    ensures OncePerPath(Leaves(nodes, p))
    decreases Deeper(nodes, |p|), 1, 0
  {
    hide Linked, LeafBelow, LeafBelowAny, Deeper;
    if nodes[p].File? {
      forall l ensures l in Leaves(nodes, p) <==> LeafBelow(nodes, p, l) {
        LeafOfFile(nodes, p, l);
      }
    } else {
      ChildrenOnce(nodes, p);
      LeavesOfExactly(nodes, p, nodes[p].children);
      forall l ensures l in Leaves(nodes, p) <==> LeafBelow(nodes, p, l) {
        LeafOfDir(nodes, p, l);
      }
    }
  }

  lemma LeafOfFile<T>(nodes: Nodes<T>, p: Path, l: Leaf<T>)
    requires p in nodes && nodes[p].File?
    ensures LeafBelow(nodes, p, l) <==> l == Leaf(p, nodes[p].data)
  {
    OnlyItself(nodes, p, l.path);
  }

  lemma OnlyItself<T>(nodes: Nodes<T>, p: Path, q: Path)
    requires p in nodes && nodes[p].File?
    ensures Below(nodes, p, q) <==> q == p
  {
    assert p <= q ==> q[..|p|] == p;
  }

  lemma LeafOfDir<T>(nodes: Nodes<T>, p: Path, l: Leaf<T>)
    requires Linked(nodes) && p in nodes && nodes[p].Dir?
    ensures LeafBelow(nodes, p, l) <==> LeafBelowAny(nodes, nodes[p].children, l)
  {
    hide Linked, Below;
    NotInTable(nodes, l.path);
    if l.path in nodes {
      BelowChildren(nodes, p, l.path);
    }
  }

  lemma NotInTable<T>(nodes: Nodes<T>, q: Path)
    ensures q !in nodes ==> forall p :: !Below(nodes, p, q)
  {
  }

  lemma {:induction false} LeavesOfExactly<T>(nodes: Nodes<T>, p: Path, children: seq<Path>)
    requires Linked(nodes) && p in nodes && nodes[p].Dir? && NoDuplicates(children)
    requires forall c :: c in children ==> c in nodes[p].children
    ensures forall l :: l in LeavesOf(nodes, p, children) <==> LeafBelowAny(nodes, children, l)
    ensures OncePerPath(LeavesOf(nodes, p, children))
    decreases Deeper(nodes, |p|), 0, |children|
  {
    hide Linked, LeafBelow, LeafBelowAny, Deeper, OncePerPath;
    if children == [] {
      NoLeaves(nodes, p);
    } else {
      var child, rest := children[0], children[1..];
      ChildIsDeeper(nodes, p, child);
      LeavesExactly(nodes, child);
      LeavesOfExactly(nodes, p, rest);
      FirstChild(nodes, p, children);
      var front, back := Leaves(nodes, child), LeavesOf(nodes, p, rest);
      forall l ensures l in front + back <==> LeafBelowAny(nodes, children, l) {
        OneStartMore(nodes, child, rest, l);
        assert [child] + rest == children;
      }
      forall c | c in rest ensures |c| == |child| {
        ChildIsDeeper(nodes, p, c);
      }
      forall l, m | l in front && m in back ensures l.path != m.path {
        assert LeafBelow(nodes, child, l) && LeafBelowAny(nodes, rest, m);
        LeavesApart(nodes, child, rest, l, m);
      }
      JoinOnce(front, back);
    }
  }

  lemma NoLeaves<T>(nodes: Nodes<T>, p: Path)
    requires Linked(nodes) && p in nodes && nodes[p].Dir?
    ensures LeavesOf(nodes, p, []) == [] && OncePerPath(LeavesOf(nodes, p, []))
    ensures forall l :: !LeafBelowAny(nodes, [], l)
  {
  }

  lemma FirstChild<T>(nodes: Nodes<T>, p: Path, children: seq<Path>)
    requires Linked(nodes) && p in nodes && nodes[p].Dir? && children != []
    requires forall c :: c in children ==> c in nodes[p].children
    ensures children[0] in nodes
    ensures LeavesOf(nodes, p, children) == Leaves(nodes, children[0]) + LeavesOf(nodes, p, children[1..])
  {
    ChildIsDeeper(nodes, p, children[0]);
  }

  lemma OneStartMore<T>(nodes: Nodes<T>, p: Path, starts: seq<Path>, l: Leaf<T>)
    ensures LeafBelowAny(nodes, [p] + starts, l) <==> LeafBelow(nodes, p, l) || LeafBelowAny(nodes, starts, l)
  {
    hide LeafBelow;
    if LeafBelowAny(nodes, starts, l) {
      var k :| 0 <= k < |starts| && LeafBelow(nodes, starts[k], l);
      assert ([p] + starts)[k + 1] == starts[k];
    }
    if LeafBelow(nodes, p, l) {
      assert ([p] + starts)[0] == p;
    }
  }

  lemma LeavesApart<T>(nodes: Nodes<T>, p: Path, starts: seq<Path>, l: Leaf<T>, m: Leaf<T>)
    requires p !in starts && forall s :: s in starts ==> |s| == |p|
    requires LeafBelow(nodes, p, l) && LeafBelowAny(nodes, starts, m)
    ensures l.path != m.path
  {
    hide Below;
    NotBelowOthers(nodes, starts, p, l.path);
  }

  lemma JoinOnce<T>(front: seq<Leaf<T>>, back: seq<Leaf<T>>)
    requires OncePerPath(front) && OncePerPath(back)
    requires forall l, m :: l in front && m in back ==> l.path != m.path
    ensures OncePerPath(front + back)
  {
    var both := front + back;
    forall i, j | 0 <= i < j < |both| ensures both[i].path != both[j].path {
      if i < |front| <= j {
        assert both[i] in front && both[j] in back;
      }
    }
  }

  // ---- the finished tree ---------------------------------------------------

  lemma TreeNodes<T(!new)>(tree: Nodes<T>, rows: seq<Row<T>>)
    requires IsTree(tree, rows)
    ensures Linked(tree) && forall p :: KindIn(tree, p) == KindOf(rows, p)
  {
    hide Linked, SortedFrom, KindIn, KindOf;
    var unsorted: Nodes<T> :| Built(unsorted, rows) && tree == SortedFrom(unsorted, [[]]);
    SortedLinked(unsorted, [[]]);
    SortedKinds(unsorted, [[]]);
  }

  lemma RootIsThere<T>(nodes: Nodes<T>)
    requires Linked(nodes)
    ensures [] in nodes && nodes[[]].Dir?
  {
  }

  /** Every directory of the tree lists the nodes below it once each, directories first and then by lower-cased name. */
  lemma ChildrenSorted<T(!new)>(tree: Nodes<T>, rows: seq<Row<T>>, p: Path)
    requires IsTree(tree, rows) && Below(tree, [], p) && tree[p].Dir?
    ensures Lists(tree, p, tree[p].children)
    ensures SortedBy(tree[p].children, ByKindAndName(Dirs(tree)))
  {
    TreeNodes(tree, rows);
    assert Lists(tree, p, tree[p].children);
    var unsorted: Nodes<T> :| Built(unsorted, rows) && tree == SortedFrom(unsorted, [[]]);
    SortedKinds(unsorted, [[]]);
    OneMoreStart(unsorted, [], []);
    KindAndNameTotal(Dirs(unsorted));
    assert KindIn(tree, p) == KindIn(unsorted, p);
    SortSorted(unsorted[p].children, ByKindAndName(Dirs(unsorted)));
  }

  /** A path that some row mentions is a node. */
  lemma {:induction false} MentionedIsThere<T>(rows: seq<Row<T>>, p: Path)
    ensures KindOf(rows, p) != Absent <==> p == [] || exists i :: 0 <= i < |rows| && p <= Parts(rows[i])
  {
    hide Parts;
    if p != [] && rows != [] {
      var front, last := rows[..|rows| - 1], rows[|rows| - 1];
      MentionedIsThere(front, p);
      assert (exists i :: 0 <= i < |front| && p <= Parts(front[i])) ==> exists i :: 0 <= i < |rows| && p <= Parts(rows[i]) by {
        if i :| 0 <= i < |front| && p <= Parts(front[i]) {
          assert p <= Parts(rows[i]);
        }
      }
      if i :| 0 <= i < |rows| && p <= Parts(rows[i]) {
        if i < |front| {
          assert p <= Parts(front[i]);
        }
      }
    }
  }

  /** A directory is a proper prefix of some row's path. */
  lemma {:induction false} DirIsPrefix<T>(rows: seq<Row<T>>, p: Path) returns (i: nat)
    requires p != [] && KindOf(rows, p) == IsDir
    ensures i < |rows| && p < Parts(rows[i])
  {
    hide Parts;
    var front := rows[..|rows| - 1];
    if KindOf(front, p) != Absent {
      i := DirIsPrefix(front, p);
    } else {
      i := |rows| - 1;
    }
  }

  /** No directory below the root is empty. */
  lemma DirsNotEmpty<T(!new)>(tree: Nodes<T>, rows: seq<Row<T>>, p: Path)
    requires IsTree(tree, rows) && p in tree && p != [] && tree[p].Dir?
    ensures tree[p].children != []
  {
    hide Parts, KindOf;
    TreeNodes(tree, rows);
    assert KindIn(tree, p) == KindOf(rows, p);
    var i := DirIsPrefix(rows, p);
    var child := Parts(rows[i])[..|p| + 1];
    assert child <= Parts(rows[i]) && Parent(child) == p;
    MentionedIsThere(rows, child);
    assert KindIn(tree, child) == KindOf(rows, child);
    assert Lists(tree, p, tree[p].children);
    assert child in tree[p].children;
  }

  /** A row whose path no earlier row mentions and whose prefixes are all directories. */
  ghost predicate RowKept<T>(rows: seq<Row<T>>, i: nat)
    requires i < |rows|
  {
    var p := Parts(rows[i]);
    && p != [] && KindOf(rows[..i], p) == Absent
    && forall n :: 0 < n < |p| ==> KindOf(rows, p[..n]) == IsDir
  }

  function RowLeaf<T>(row: Row<T>): Leaf<T> {
    Leaf(Parts(row), row.data)
  }

  /** The i-th row is the first to mention the path, as its own. */
  ghost predicate Origin<T>(rows: seq<Row<T>>, i: nat, p: Path, data: T)
    requires i < |rows|
  {
    KindOf(rows[..i], p) == Absent && RowLeaf(rows[i]) == Leaf(p, data)
  }

  lemma LastOrigin<T>(rows: seq<Row<T>>, p: Path, data: T)
    requires p != [] && rows != []
    ensures var last := |rows| - 1;
            Origin(rows, last, p, data) <==> KindOf(rows[..last], p) == Absent && KindOf(rows, p) == IsFile(data)
  {
    hide Parts;
  }

  lemma FrontOrigin<T>(rows: seq<Row<T>>, i: nat, p: Path, data: T)
    requires i < |rows| - 1
    ensures Origin(rows, i, p, data) <==> Origin(rows[..|rows| - 1], i, p, data)
  {
    assert rows[..|rows| - 1][..i] == rows[..i];
  }

  /** A file comes from the first row that mentions its path. */
  lemma {:induction false} FileOrigin<T>(rows: seq<Row<T>>, p: Path, data: T)
    requires p != []
    ensures KindOf(rows, p) == IsFile(data) <==> exists i :: 0 <= i < |rows| && Origin(rows, i, p, data)
  {
    hide Parts, Origin;
    if rows != [] {
      var last := |rows| - 1;
      var front := rows[..last];
      FileOrigin(front, p, data);
      LastOrigin(rows, p, data);
      forall i | 0 <= i < last ensures Origin(rows, i, p, data) <==> Origin(front, i, p, data) {
        FrontOrigin(rows, i, p, data);
      }
      if i :| 0 <= i < |rows| && Origin(rows, i, p, data) {
        assert i < last ==> Origin(front, i, p, data);
      }
    }
  }

  /** The leaves of the tree are the rows that are kept, each once, for any list of rows whatever. */
  lemma TreeLeaves<T(!new)>(tree: Nodes<T>, rows: seq<Row<T>>)
    requires IsTree(tree, rows)
    ensures Linked(tree) && [] in tree && OncePerPath(Leaves(tree, []))
    ensures forall l :: l in Leaves(tree, []) <==> exists i :: 0 <= i < |rows| && RowKept(rows, i) && RowLeaf(rows[i]) == l
  {
    hide Linked, KindOf, KindIn, Parts, RowKept, RowLeaf, OncePerPath, IsTree;
    TreeNodes(tree, rows);
    RootIsThere(tree);
    LeavesExactly(tree, []);
    forall l ensures l in Leaves(tree, []) <==> exists i :: 0 <= i < |rows| && RowKept(rows, i) && RowLeaf(rows[i]) == l {
      LeafFromRow(tree, rows, l);
      assert l in Leaves(tree, []) <==> LeafBelow(tree, [], l);
    }
  }

  lemma LeafFromRow<T>(tree: Nodes<T>, rows: seq<Row<T>>, l: Leaf<T>)
    requires Linked(tree) && forall p :: KindIn(tree, p) == KindOf(rows, p)
    ensures LeafBelow(tree, [], l) <==> exists i :: 0 <= i < |rows| && RowKept(rows, i) && RowLeaf(rows[i]) == l
  {
    hide Linked, KindOf, Parts, RowLeaf;
    RootIsThere(tree);
    assert KindIn(tree, l.path) == KindOf(rows, l.path);
    assert KindIn(tree, []) == KindOf(rows, []);
    forall n | 0 <= n < |l.path|
      ensures KindOf(rows, l.path[..n]) == IsDir <==> l.path[..n] in tree && tree[l.path[..n]].Dir?
    {
      assert KindIn(tree, l.path[..n]) == KindOf(rows, l.path[..n]);
    }
    assert l.path[..0] == [];
    LeafRow(rows, l);
    if l.path != [] {
      FileOrigin(rows, l.path, l.data);
      if LeafBelow(tree, [], l) {
        var i :| 0 <= i < |rows| && Origin(rows, i, l.path, l.data);
        assert RowKept(rows, i) && RowLeaf(rows[i]) == l;
      }
      if i :| 0 <= i < |rows| && RowKept(rows, i) && RowLeaf(rows[i]) == l {
        assert Origin(rows, i, l.path, l.data);
      }
    }
  }

  lemma LeafRow<T>(rows: seq<Row<T>>, l: Leaf<T>)
    ensures forall i :: 0 <= i < |rows| && RowLeaf(rows[i]) == l ==>
              (RowKept(rows, i) <==> l.path != [] && KindOf(rows[..i], l.path) == Absent
                                     && forall n :: 0 < n < |l.path| ==> KindOf(rows, l.path[..n]) == IsDir)
  {
    hide Parts, KindOf;
  }

  // ---- when every row is a leaf --------------------------------------------

  /** No blank path, and none that equals or extends another. */
  ghost predicate PrefixFree<T>(rows: seq<Row<T>>) {
    && (forall i :: 0 <= i < |rows| ==> Parts(rows[i]) != [])
    && (forall i, j :: 0 <= i < |rows| && 0 <= j < |rows| && i != j ==> !(Parts(rows[i]) <= Parts(rows[j])))
  }

  lemma FreeRowKept<T(!new)>(rows: seq<Row<T>>, i: nat)
    requires PrefixFree(rows) && i < |rows|
    ensures RowKept(rows, i)
  {
    hide Parts, KindOf;
    var p := Parts(rows[i]);
    MentionedIsThere(rows[..i], p);
    forall n | 0 < n < |p| ensures KindOf(rows, p[..n]) == IsDir {
      MentionedIsThere(rows, p[..n]);
      assert p[..n] <= Parts(rows[i]);
      match KindOf(rows, p[..n]) {
        case IsFile(data) =>
          FileOrigin(rows, p[..n], data);
          assert false;
        case _ =>
      }
    }
  }

  lemma KeptApart<T>(rows: seq<Row<T>>, i: nat, j: nat)
    requires i < |rows| && j < |rows| && i != j && RowKept(rows, i) && RowKept(rows, j)
    ensures !(Parts(rows[i]) <= Parts(rows[j]))
  {
    hide Parts, KindOf;
    var p, q := Parts(rows[i]), Parts(rows[j]);
    if p == q {
      var first, later := if i < j then i else j, if i < j then j else i;
      assert p <= Parts(rows[..later][first]);
      MentionedIsThere(rows[..later], p);
      assert false;
    } else if p <= q {
      assert q[..|p|] == p;
      assert KindOf(rows, p) == IsDir;
      assert Origin(rows, i, p, rows[i].data);
      FileOrigin(rows, p, rows[i].data);
      assert false;
    }
  }

  /** Every row becomes a leaf if and only if no path is blank and none is a prefix of another. */
  lemma EveryRowKeptExactly<T(!new)>(rows: seq<Row<T>>)
    ensures (forall i :: 0 <= i < |rows| ==> RowKept(rows, i)) <==> PrefixFree(rows)
  {
    hide RowKept, Parts;
    if PrefixFree(rows) {
      forall i | 0 <= i < |rows| ensures RowKept(rows, i) {
        FreeRowKept(rows, i);
      }
    }
    if forall i :: 0 <= i < |rows| ==> RowKept(rows, i) {
      forall i, j | 0 <= i < |rows| && 0 <= j < |rows| && i != j ensures !(Parts(rows[i]) <= Parts(rows[j])) {
        KeptApart(rows, i, j);
      }
      forall i | 0 <= i < |rows| ensures Parts(rows[i]) != [] {
        KeptNotBlank(rows, i);
      }
    }
  }

  lemma KeptNotBlank<T>(rows: seq<Row<T>>, i: nat)
    requires i < |rows| && RowKept(rows, i)
    ensures Parts(rows[i]) != []
  {
  }

  function RowLeaves<T>(rows: seq<Row<T>>): seq<Leaf<T>> {
    seq(|rows|, i requires 0 <= i < |rows| => RowLeaf(rows[i]))
  }

  lemma SameMultiset<X>(xs: seq<X>, ys: seq<X>)
    requires NoDuplicates(xs) && NoDuplicates(ys) && forall x :: x in xs <==> x in ys
    ensures multiset(xs) == multiset(ys)
  {
    NoDuplicatesMultiplicity(xs);
    NoDuplicatesMultiplicity(ys);
    forall x ensures multiset(xs)[x] == multiset(ys)[x] {
      if x in xs {
        assert x in ys;
      } else {
        assert x !in multiset(xs) && x !in multiset(ys);
      }
    }
  }

  /** For prefix-free paths the leaves of the tree are exactly the rows, once each. */
  lemma PrefixFreeTree<T(!new)>(tree: Nodes<T>, rows: seq<Row<T>>)
    requires IsTree(tree, rows) && PrefixFree(rows)
    ensures Linked(tree) && [] in tree && multiset(Leaves(tree, [])) == multiset(RowLeaves(rows))
  {
    hide Linked, IsTree, RowKept, Parts, KindOf;
    TreeLeaves(tree, rows);
    EveryRowKeptExactly(rows);
    var leaves, given := Leaves(tree, []), RowLeaves(rows);
    forall l ensures l in leaves <==> l in given {
      if l in given {
        var i :| 0 <= i < |given| && given[i] == l;
        assert RowKept(rows, i) && RowLeaf(rows[i]) == l;
      }
      if l in leaves {
        var i :| 0 <= i < |rows| && RowKept(rows, i) && RowLeaf(rows[i]) == l;
        assert given[i] == l;
      }
    }
    SameMultiset(leaves, given);
  }

  // ---- what the rows make of a path ----------------------------------------

  /** The first row that mentions the path goes on below it. */
  ghost predicate FirstGoesBelow<T>(rows: seq<Row<T>>, p: Path, h: nat) {
    h < |rows| && p < Parts(rows[h]) && forall j :: 0 <= j < h ==> Parts(rows[j]) != p
  }

  ghost predicate BelowSome<T>(rows: seq<Row<T>>, p: Path) {
    exists h: nat :: FirstGoesBelow(rows, p, h)
  }

  /** The first row that mentions the path is its own. */
  ghost predicate FirstIsOwn<T>(rows: seq<Row<T>>, p: Path, h: nat) {
    h < |rows| && Parts(rows[h]) == p && forall j :: 0 <= j < h ==> !(p <= Parts(rows[j]))
  }

  /** A path is a directory exactly if some row goes on below it before any row has it as its own, and a file exactly if
      some row has it as its own before any row mentions it. */
  lemma {:induction false} KindExactly<T>(rows: seq<Row<T>>, p: Path)
    requires p != []
    ensures KindOf(rows, p) == IsDir <==> BelowSome(rows, p)
    ensures forall data :: KindOf(rows, p) == IsFile(data) <==> exists h: nat :: FirstIsOwn(rows, p, h) && rows[h].data == data
  {
    hide Parts;
    if rows != [] {
      var last := |rows| - 1;
      var front := rows[..last];
      KindExactly(front, p);
      MentionedIsThere(front, p);
      assert forall j :: 0 <= j < last ==> front[j] == rows[j];
      forall h: nat | h < last
        ensures FirstGoesBelow(front, p, h) <==> FirstGoesBelow(rows, p, h)
        ensures FirstIsOwn(front, p, h) <==> FirstIsOwn(rows, p, h)
      {
      }
      if h: nat :| FirstGoesBelow(front, p, h) {
        assert FirstGoesBelow(rows, p, h);
      }
      if h: nat :| FirstIsOwn(front, p, h) {
        assert FirstIsOwn(rows, p, h);
      }
      LastMention(rows, p);
    }
  }

  lemma LastMention<T>(rows: seq<Row<T>>, p: Path)
    requires rows != [] && p != []
    ensures var last := |rows| - 1;
            KindOf(rows[..last], p) == Absent ==>
              && (KindOf(rows, p) == IsDir <==> FirstGoesBelow(rows, p, last))
              && (forall data :: KindOf(rows, p) == IsFile(data) <==> FirstIsOwn(rows, p, last) && rows[last].data == data)
              && forall h: nat :: h < last ==> !FirstGoesBelow(rows, p, h) && !FirstIsOwn(rows, p, h)
  {
    hide Parts;
    var last := |rows| - 1;
    MentionedIsThere(rows[..last], p);
    if KindOf(rows[..last], p) == Absent {
      forall j | 0 <= j < last ensures !(p <= Parts(rows[j])) {
        assert rows[..last][j] == rows[j];
      }
    }
  }

  /** A row becomes a leaf exactly if its path is not blank, no earlier row mentions it, and each of its proper prefixes
      is a directory in this sense. */
  lemma KeptExactly<T>(rows: seq<Row<T>>, i: nat)
    requires i < |rows|
    ensures RowKept(rows, i) <==>
            && Parts(rows[i]) != []
            && (forall j :: 0 <= j < i ==> !(Parts(rows[i]) <= Parts(rows[j])))
            && forall n :: 0 < n < |Parts(rows[i])| ==> BelowSome(rows, Parts(rows[i])[..n])
  {
    hide Parts, FirstGoesBelow;
    var p := Parts(rows[i]);
    if p != [] {
      MentionedIsThere(rows[..i], p);
      assert KindOf(rows[..i], p) == Absent <==> forall j :: 0 <= j < i ==> !(p <= Parts(rows[j])) by {
        if j :| 0 <= j < i && p <= Parts(rows[j]) {
          assert p <= Parts(rows[..i][j]);
        }
      }
      forall n | 0 < n < |p|
        ensures KindOf(rows, p[..n]) == IsDir <==> BelowSome(rows, p[..n])
      {
        KindExactly(rows, p[..n]);
      }
    }
  }

  // ---- what the parts and the order are -------------------------------------

  predicate OnlySlashes(s: string) {
    forall k :: 0 <= k < |s| ==> s[k] == '/'
  }

  lemma {:induction false} StripSlashesExactly(s: string)
    ensures exists slashes :: OnlySlashes(slashes) && s == slashes + StripSlashes(s)
    ensures StripSlashes(s) != "" ==> StripSlashes(s)[0] != '/'
  {
    if s != "" && s[0] == '/' {
      StripSlashesExactly(s[1..]);
      var slashes :| OnlySlashes(slashes) && s[1..] == slashes + StripSlashes(s[1..]);
      assert OnlySlashes(['/'] + slashes) && s == ['/'] + slashes + StripSlashes(s);
    } else {
      assert OnlySlashes("") && s == "" + StripSlashes(s);
    }
  }

  /** The trimmed path is leading slashes and the parts between the other ones; it has none if there is nothing else. */
  lemma PartsExactly<T>(row: Row<T>)
    ensures exists slashes :: OnlySlashes(slashes) && Strip(row.path) == slashes + Join(Parts(row), '/')
    ensures forall part :: part in Parts(row) ==> '/' !in part
    ensures Parts(row) == [] <==> OnlySlashes(Strip(row.path))
  {
    hide Strip, Split, Join;
    var path := Strip(row.path);
    var rel := StripSlashes(path);
    StripSlashesExactly(path);
    JoinSplit(rel, '/');
    assert Join([], '/') == "" by {
      JoinNothing();
    }
    var slashes :| OnlySlashes(slashes) && path == slashes + rel;
    if rel != "" {
      assert path[|slashes|] == rel[0];
    } else {
      assert path == slashes;
    }
  }

  lemma JoinNothing()
    ensures Join([], '/') == ""
  {
  }

  /** Directories come before files; of two of a kind the one with the smaller lower-cased last part comes first. */
  lemma SortsBeforeExactly(dirs: set<Path>, a: Path, b: Path)
    ensures (a in dirs && b !in dirs) ==> SortsBefore(dirs, a, b) && !SortsBefore(dirs, b, a)
    ensures (a in dirs && b in dirs) || (a !in dirs && b !in dirs) ==>
              (SortsBefore(dirs, a, b) <==>
               StringLeq(Lower(if a == [] then "/" else a[|a| - 1]), Lower(if b == [] then "/" else b[|b| - 1])))
  {
  }

  // ---- paths as keys -------------------------------------------------------

  /** A path as a row gives it: no part holds a slash, and the first part is not empty. */
  predicate GoodPath(p: Path) {
    p != [] && p[0] != "" && forall part :: part in p ==> '/' !in part
  }

  lemma {:induction false} StripSlashesStarts(s: string)
    ensures StripSlashes(s) != "" ==> StripSlashes(s)[0] != '/'
  {
    if s != "" && s[0] == '/' {
      StripSlashesStarts(s[1..]);
    }
  }

  lemma PartsAreGood<T>(row: Row<T>, n: nat)
    requires 0 < n <= |Parts(row)|
    ensures GoodPath(Parts(row)[..n])
  {
    var rel := StripSlashes(Strip(row.path));
    StripSlashesStarts(Strip(row.path));
    JoinSplit(rel, '/');
    assert forall part :: part in Parts(row)[..n] ==> part in Parts(row);
  }

  /** So the strings under which the source files its nodes tell the same nodes apart as the paths here. */
  lemma NodePathsDiffer(p: Path, q: Path)
    requires GoodPath(p) && GoodPath(q)
    ensures NodePath(p) == NodePath(q) <==> p == q
    ensures NodePath(p) != "/"
  {
    SplitJoin(p, '/');
    SplitJoin(q, '/');
    assert NodePath(p)[1..] == Join(p, '/') && NodePath(q)[1..] == Join(q, '/');
    assert Split("", '/') == [""];
  }

  lemma NodeIsGood<T(!new)>(tree: Nodes<T>, rows: seq<Row<T>>, p: Path)
    requires IsTree(tree, rows) && p in tree && p != []
    ensures GoodPath(p)
  {
    hide Parts, KindOf, Linked, IsTree, GoodPath;
    TreeNodes(tree, rows);
    assert KindIn(tree, p) == KindOf(rows, p);
    MentionedIsThere(rows, p);
    var i :| 0 <= i < |rows| && p <= Parts(rows[i]);
    PartsAreGood(rows[i], |p|);
    assert Parts(rows[i])[..|p|] == p;
  }

  /** No two nodes of a tree share a key. */
  lemma NodeKeysDiffer<T(!new)>(tree: Nodes<T>, rows: seq<Row<T>>, p: Path, q: Path)
    requires IsTree(tree, rows) && p in tree && q in tree
    ensures NodePath(p) == NodePath(q) <==> p == q
  {
    hide IsTree, GoodPath;
    assert NodePath([]) == "/";
    if p != [] {
      NodeIsGood(tree, rows, p);
      NodePathsDiffer(p, p);
    }
    if q != [] {
      NodeIsGood(tree, rows, q);
      NodePathsDiffer(q, q);
    }
    if p != [] && q != [] {
      NodePathsDiffer(p, q);
    }
  }
}
