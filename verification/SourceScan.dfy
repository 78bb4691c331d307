/** The bounded scan of source directories: `_read_source_roots` of core/artifact_source_resolution.py. */
module SourceScan {
  import opened Wrappers
  import opened Sequences
  import opened Text

  type Bytes = seq<bv8>

  /** What the scan observes of one directory entry, in the order of `rglob`. `resolved` is None when the path does
      not resolve, `content` is None when reading fails. */
  datatype Entry = Entry(isDir: bool, resolved: Option<Resolved>)
  datatype Resolved = Resolved(insideRoot: bool, isSymlink: bool, rel: string, size: int, content: Option<Bytes>)

  datatype Root = Root(path: string, name: string, isDirectory: bool, entries: seq<Entry>)

  datatype Limits = Limits(maxFileBytes: int, maxTotalBytes: int, maxFiles: int)

  datatype Warning = FileLimitReached | ByteLimitReached

  const EXCLUDED: set<string> :=
    {".git", ".hg", ".svn", ".venv", "venv", "node_modules", "__pycache__", ".pytest_cache", ".mypy_cache", ".xyn",
     "dist", "build"}

  /** `_read_file_bytes`: nothing if there is a NUL byte near the start. */
  function ReadFileBytes(content: Option<Bytes>): Option<Bytes> {
    if content.Some? && 0 in Take(content.value, 4096) then None else content
  }

  /** The entry is a source file of acceptable size. */
  predicate Eligible(e: Entry, limits: Limits, binary: string -> bool) {
    && !e.isDir && e.resolved.Some?
    && var r := e.resolved.value;
    && r.insideRoot && !r.isSymlink
    && r.rel != "" && !(".git/" <= r.rel)
    && (forall part :: part in Split(r.rel, '/') ==> part !in EXCLUDED)
    && 0 < r.size <= limits.maxFileBytes
    && !binary(r.rel)
    && ReadFileBytes(r.content).Some?
  }

  // ---- the budget as a specification ---------------------------------------

  /** An entry and the number of the root under which it was seen. */
  datatype Seen = Seen(root: nat, entry: Entry)

  function Tagged(root: nat, entries: seq<Entry>): seq<Seen> {
    seq(|entries|, k requires 0 <= k < |entries| => Seen(root, entries[k]))
  }

  /** All entries of the existing roots from the i-th on. */
  function AllSeen(roots: seq<Root>, i: nat): seq<Seen>
    decreases |roots| - i
  {
    if i >= |roots| then []
    else (if roots[i].isDirectory then Tagged(i, roots[i].entries) else []) + AllSeen(roots, i + 1)
  }

  /** Why and under which root a scan was cut off. */
  datatype Stop = Stop(warning: Warning, root: nat)

  datatype Outcome = Outcome(taken: seq<Seen>, stop: Option<Stop>)

  function Size(s: Seen): nat {
    if s.entry.resolved.Some? && s.entry.resolved.value.content.Some? then |s.entry.resolved.value.content.value| else 0
  }

  function Sum(taken: seq<Seen>): nat {
    if taken == [] then 0 else Sum(taken[..|taken| - 1]) + Size(taken[|taken| - 1])
  }

  /** The eligible entries in order, as long as there is budget; `count` files of `total` bytes were taken before. */
  function Scan(seen: seq<Seen>, count: nat, total: nat, limits: Limits, binary: string -> bool): Outcome {
    if seen == [] then Outcome([], None)
    else if count >= limits.maxFiles then Outcome([], Some(Stop(FileLimitReached, seen[0].root)))
    else if total >= limits.maxTotalBytes then Outcome([], Some(Stop(ByteLimitReached, seen[0].root)))
    else if Eligible(seen[0].entry, limits, binary) then
      var rest := Scan(seen[1..], count + 1, total + Size(seen[0]), limits, binary);
      Outcome([seen[0]] + rest.taken, rest.stop)
    else Scan(seen[1..], count, total, limits, binary)
  }

  /** The roots that contributed, in order. */
  function Selected(taken: seq<Seen>): seq<nat> {
    if taken == [] then []
    else
      var front, root := Selected(taken[..|taken| - 1]), taken[|taken| - 1].root;
      if root in front then front else front + [root]
  }

  /** The roots that are done while the given one is being scanned. */
  function Closed(selected: seq<nat>, current: nat): seq<nat> {
    if selected != [] && selected[|selected| - 1] == current then selected[..|selected| - 1] else selected
  }

  function Rel(s: Seen): string {
    if s.entry.resolved.Some? then s.entry.resolved.value.rel else ""
  }

  function Content(s: Seen): Bytes {
    if s.entry.resolved.Some? && s.entry.resolved.value.content.Some? then s.entry.resolved.value.content.value else []
  }

  /** The name under which a file is stored: the plain relative path while at most one root is done. */
  function StoredName(roots: seq<Root>, before: seq<Seen>, s: Seen): string {
    if |Closed(Selected(before), s.root)| <= 1 || s.root >= |roots| then Rel(s)
    else roots[s.root].name + "/" + Rel(s)
  }

  function Files(roots: seq<Root>, taken: seq<Seen>): map<string, Bytes> {
    if taken == [] then map[]
    else
      var front, s := taken[..|taken| - 1], taken[|taken| - 1];
      Files(roots, front)[StoredName(roots, front, s) := Content(s)]
  }

  function Paths(roots: seq<Root>, numbers: seq<nat>): seq<string> {
    seq(|numbers|, k requires 0 <= k < |numbers| => if numbers[k] < |roots| then roots[numbers[k]].path else "")
  }

  // ---- the scan ------------------------------------------------------------

  /** Where the scan stands in front of `rest`: what is still to come completes what was taken. */
  ghost predicate Progress(whole: Outcome, taken: seq<Seen>, rest: seq<Seen>, limits: Limits, binary: string -> bool) {
    var more := Scan(rest, |taken|, Sum(taken), limits, binary);
    whole == Outcome(taken + more.taken, more.stop)
  }

  /** Whether the root being scanned has contributed. */
  ghost predicate Contributed(taken: seq<Seen>, root: nat, added: bool) {
    var selected := Selected(taken);
    && (forall r :: r in selected ==> r <= root)
    && (if added then selected != [] && selected[|selected| - 1] == root else root !in selected)
  }

  method ReadSourceRoots(roots: seq<Root>, limits: Limits, binary: string -> bool)
    returns (files: map<string, Bytes>, selectedRoots: seq<string>, warnings: seq<Warning>)
    ensures var outcome := Scan(AllSeen(roots, 0), 0, 0, limits, binary);
            && files == Files(roots, outcome.taken)
            && (outcome.stop.None? ==> warnings == [] && selectedRoots == Paths(roots, Selected(outcome.taken)))
            && (outcome.stop.Some? ==>
                  && warnings == [outcome.stop.value.warning]
                  && selectedRoots == Paths(roots, Closed(Selected(outcome.taken), outcome.stop.value.root)))
  {
    hide Scan, Selected, Eligible, Closed, Paths, Contributed, Sum, Size, Progress, Files, AllSeen, Rest;
    ghost var whole := Scan(AllSeen(roots, 0), 0, 0, limits, binary);
    ghost var taken: seq<Seen> := [];
    files, selectedRoots, warnings := map[], [], [];
    var totalBytes: nat, fileCount: nat := 0, 0;
    NothingTaken(roots, limits, binary);
    var i := 0;
    while i < |roots|
      invariant i <= |roots|
      invariant Progress(whole, taken, AllSeen(roots, i), limits, binary)
      invariant fileCount == |taken| && totalBytes == Sum(taken) && files == Files(roots, taken) && warnings == []
      invariant selectedRoots == Paths(roots, Selected(taken)) && Contributed(taken, i, false)
    {
      var root := roots[i];
      RestStarts(roots, i);
      if !root.isDirectory {
        NextRoot(taken, i, false);
        i := i + 1;
        continue;
      }
      var rootAdded := false;
      ClosedRoots(taken, i, false);
      var j := 0;
      while j < |root.entries|
        invariant j <= |root.entries|
        invariant Progress(whole, taken, Rest(roots, i, j), limits, binary)
        invariant fileCount == |taken| && totalBytes == Sum(taken) && files == Files(roots, taken) && warnings == []
        invariant selectedRoots == Paths(roots, Closed(Selected(taken), i)) && Contributed(taken, i, rootAdded)
      {
        ghost var s := Seen(i, root.entries[j]);
        RestGoesOn(roots, i, j);
        ScanStep(whole, Rest(roots, i, j), taken, limits, binary);
        if fileCount >= limits.maxFiles {
          warnings := [FileLimitReached];
          return;
        }
        if totalBytes >= limits.maxTotalBytes {
          warnings := [ByteLimitReached];
          return;
        }
        var entry := root.entries[j];
        j := j + 1;
        if Eligible(entry, limits, binary) {
          EligibleHasContent(entry, limits, binary, i);
          var blob := entry.resolved.value.content.value;
          var key := if |selectedRoots| <= 1 then entry.resolved.value.rel else root.name + "/" + entry.resolved.value.rel;
          TakeOne(roots, taken, s, rootAdded);
          files := files[key := blob];
          totalBytes, fileCount, rootAdded := totalBytes + |blob|, fileCount + 1, true;
          taken := taken + [s];
        }
      }
      RestEnds(roots, i);
      if rootAdded {
        selectedRoots := selectedRoots + [root.path];
      }
      CloseRoot(roots, taken, i, rootAdded);
      i := i + 1;
    }
    ScanEnd(whole, roots, taken, limits, binary);
  }

  /** What is to come in front of the j-th entry of the i-th root. */
  ghost function Rest(roots: seq<Root>, i: nat, j: nat): seq<Seen>
    requires i < |roots| && j <= |roots[i].entries|
  {
    Tagged(i, roots[i].entries[j..]) + AllSeen(roots, i + 1)
  }

  lemma RestStarts(roots: seq<Root>, i: nat)
    requires i < |roots|
    ensures AllSeen(roots, i) == if roots[i].isDirectory then Rest(roots, i, 0) else AllSeen(roots, i + 1)
  {
    assert roots[i].entries[0..] == roots[i].entries;
  }

  lemma RestGoesOn(roots: seq<Root>, i: nat, j: nat)
    requires i < |roots| && j < |roots[i].entries|
    ensures Rest(roots, i, j) == [Seen(i, roots[i].entries[j])] + Rest(roots, i, j + 1)
  {
  }

  lemma RestEnds(roots: seq<Root>, i: nat)
    requires i < |roots|
    ensures Rest(roots, i, |roots[i].entries|) == AllSeen(roots, i + 1)
  {
  }

  lemma NothingTaken(roots: seq<Root>, limits: Limits, binary: string -> bool)
    ensures Sum([]) == 0 && Paths(roots, Selected([])) == [] && Contributed([], 0, false) && Files(roots, []) == map[]
    ensures Progress(Scan(AllSeen(roots, 0), 0, 0, limits, binary), [], AllSeen(roots, 0), limits, binary)
  {
    hide Scan, AllSeen;
    var more := Scan(AllSeen(roots, 0), 0, 0, limits, binary);
    assert [] + more.taken == more.taken;
  }

  lemma NextRoot(taken: seq<Seen>, i: nat, added: bool)
    requires Contributed(taken, i, added)
    ensures Contributed(taken, i + 1, false)
  {
  }

  lemma ClosedRoots(taken: seq<Seen>, i: nat, added: bool)
    requires Contributed(taken, i, added)
    ensures !added ==> Closed(Selected(taken), i) == Selected(taken)
    ensures added ==> Selected(taken) == Closed(Selected(taken), i) + [i]
  {
    var selected := Selected(taken);
    if added {
      assert selected == selected[..|selected| - 1] + [i];
    }
  }

  lemma CloseRoot(roots: seq<Root>, taken: seq<Seen>, i: nat, added: bool)
    requires i < |roots| && Contributed(taken, i, added)
    ensures Paths(roots, Selected(taken))
         == Paths(roots, Closed(Selected(taken), i)) + (if added then [roots[i].path] else [])
    ensures Contributed(taken, i + 1, false)
  {
    ClosedRoots(taken, i, added);
    NextRoot(taken, i, added);
  }

  lemma EligibleHasContent(e: Entry, limits: Limits, binary: string -> bool, root: nat)
    requires Eligible(e, limits, binary)
    ensures e.resolved.Some? && e.resolved.value.content.Some?
    ensures Size(Seen(root, e)) == |e.resolved.value.content.value|
  {
  }

  /** One turn of the scan: it stops, takes the entry or skips it. */
  lemma ScanStep(whole: Outcome, rest: seq<Seen>, taken: seq<Seen>, limits: Limits, binary: string -> bool)
    requires rest != [] && Progress(whole, taken, rest, limits, binary)
    ensures var s := rest[0];
            if |taken| >= limits.maxFiles then whole == Outcome(taken, Some(Stop(FileLimitReached, s.root)))
            else if Sum(taken) >= limits.maxTotalBytes then whole == Outcome(taken, Some(Stop(ByteLimitReached, s.root)))
            else if Eligible(s.entry, limits, binary) then Progress(whole, taken + [s], rest[1..], limits, binary)
            else Progress(whole, taken, rest[1..], limits, binary)
  {
    hide Eligible, Scan, Size, Sum, Progress;
    var s := rest[0];
    ScanOne(rest, |taken|, Sum(taken), limits, binary);
    ProgressMeans(whole, taken, rest, limits, binary);
    ProgressMeans(whole, taken, rest[1..], limits, binary);
    if Eligible(s.entry, limits, binary) && |taken| < limits.maxFiles && Sum(taken) < limits.maxTotalBytes {
      var later := Scan(rest[1..], |taken| + 1, Sum(taken) + Size(s), limits, binary);
      SumSplits(taken, [s]);
      SumOne(s);
      TakenInFront(whole, taken, s, rest[1..], later, limits, binary);
    }
  }

  lemma ProgressMeans(whole: Outcome, taken: seq<Seen>, rest: seq<Seen>, limits: Limits, binary: string -> bool)
    ensures var more := Scan(rest, |taken|, Sum(taken), limits, binary);
            && (Progress(whole, taken, rest, limits, binary) <==> whole == Outcome(taken + more.taken, more.stop))
            && taken + [] == taken
  {
    hide Scan, Sum;
  }

  lemma TakenInFront(whole: Outcome, taken: seq<Seen>, s: Seen, rest: seq<Seen>, later: Outcome, limits: Limits,
                     binary: string -> bool)
    requires whole == Outcome(taken + ([s] + later.taken), later.stop)
    requires later == Scan(rest, |taken| + 1, Sum(taken + [s]), limits, binary)
    ensures Progress(whole, taken + [s], rest, limits, binary)
  {
    hide Scan, Sum;
    assert taken + ([s] + later.taken) == (taken + [s]) + later.taken;
  }

  lemma ScanOne(rest: seq<Seen>, count: nat, total: nat, limits: Limits, binary: string -> bool)
    requires rest != []
    ensures var more, s := Scan(rest, count, total, limits, binary), rest[0];
            if count >= limits.maxFiles then more == Outcome([], Some(Stop(FileLimitReached, s.root)))
            else if total >= limits.maxTotalBytes then more == Outcome([], Some(Stop(ByteLimitReached, s.root)))
            else if Eligible(s.entry, limits, binary) then
              var later := Scan(rest[1..], count + 1, total + Size(s), limits, binary);
              more == Outcome([s] + later.taken, later.stop)
            else more == Scan(rest[1..], count, total, limits, binary)
  {
    hide Eligible, Size;
  }

  lemma ScanEnd(whole: Outcome, roots: seq<Root>, taken: seq<Seen>, limits: Limits, binary: string -> bool)
    requires Progress(whole, taken, AllSeen(roots, |roots|), limits, binary)
    ensures whole == Outcome(taken, None)
  {
  }

  lemma TakeOne(roots: seq<Root>, taken: seq<Seen>, s: Seen, added: bool)
    requires s.root < |roots| && Contributed(taken, s.root, added)
    ensures Contributed(taken + [s], s.root, true)
    ensures Closed(Selected(taken + [s]), s.root) == Closed(Selected(taken), s.root)
    ensures Sum(taken + [s]) == Sum(taken) + Size(s)
    ensures Files(roots, taken + [s])
         == Files(roots, taken)[(if |Paths(roots, Closed(Selected(taken), s.root))| <= 1 then Rel(s)
                                 else roots[s.root].name + "/" + Rel(s)) := Content(s)]
  {
    hide Rel, Content, Size, Selected, Sum, Files, Closed, Contributed;
    OneMore(roots, taken, s);
    SelectOne(taken, s, added);
  }

  lemma OneMore(roots: seq<Root>, taken: seq<Seen>, s: Seen)
    ensures Sum(taken + [s]) == Sum(taken) + Size(s)
    ensures Files(roots, taken + [s]) == Files(roots, taken)[StoredName(roots, taken, s) := Content(s)]
    ensures Selected(taken + [s]) == Selected(taken) + (if s.root in Selected(taken) then [] else [s.root])
  {
    assert (taken + [s])[..|taken|] == taken;
  }

  lemma SelectOne(taken: seq<Seen>, s: Seen, added: bool)
    requires Contributed(taken, s.root, added)
    requires Selected(taken + [s]) == Selected(taken) + (if s.root in Selected(taken) then [] else [s.root])
    ensures Contributed(taken + [s], s.root, true)
    ensures Closed(Selected(taken + [s]), s.root) == Closed(Selected(taken), s.root)
  {
    hide Selected;
    var selected := Selected(taken);
    if added {
      assert selected[|selected| - 1] in selected;
      assert selected + [] == selected;
    } else {
      assert (selected + [s.root])[..|selected|] == selected;
    }
  }

  // ---- what the budget guarantees ------------------------------------------

  /** The taken files are the first eligible ones; all of them if the scan was not cut off; and it is cut off as soon
      as one of the two limits is reached and something is left to look at, not before. */
  lemma {:induction false} ScanIsPrefix(seen: seq<Seen>, count: nat, total: nat, limits: Limits, binary: string -> bool)
    ensures var outcome, eligible := Scan(seen, count, total, limits, binary),
                                     Filter(seen, (s: Seen) => Eligible(s.entry, limits, binary));
            && outcome.taken <= eligible
            && (outcome.stop.None? ==> outcome.taken == eligible)
  {
    hide Eligible, Size;
    if seen != [] {
      ScanOne(seen, count, total, limits, binary);
      ScanIsPrefix(seen[1..], count, total, limits, binary);
      ScanIsPrefix(seen[1..], count + 1, total + Size(seen[0]), limits, binary);
    }
  }

  lemma {:induction false} SumSplits(front: seq<Seen>, back: seq<Seen>)
    ensures Sum(front + back) == Sum(front) + Sum(back)
    decreases |back|
  {
    hide Size;
    if back == [] {
      assert front + back == front;
    } else {
      var last := |back| - 1;
      assert (front + back)[..|front| + last] == front + back[..last];
      SumSplits(front, back[..last]);
    }
  }

  /** Every taken file was taken within budget, and a scan that was cut off had used it up. */
  lemma {:induction false} ScanWithinBudget(seen: seq<Seen>, count: nat, total: nat, limits: Limits, binary: string -> bool)
    ensures var outcome := Scan(seen, count, total, limits, binary);
            && (forall n :: 0 <= n < |outcome.taken| ==>
                  count + n < limits.maxFiles && total + Sum(outcome.taken[..n]) < limits.maxTotalBytes
                  && Eligible(outcome.taken[n].entry, limits, binary))
            && (outcome.stop.Some? ==>
                  if outcome.stop.value.warning == FileLimitReached then count + |outcome.taken| >= limits.maxFiles
                  else total + Sum(outcome.taken) >= limits.maxTotalBytes && count + |outcome.taken| < limits.maxFiles)
  {
    hide Eligible, Size, Scan, Sum;
    ScanOneOrNone(seen, count, total, limits, binary);
    if seen != [] {
      if Eligible(seen[0].entry, limits, binary) {
        var later := Scan(seen[1..], count + 1, total + Size(seen[0]), limits, binary);
        ScanWithinBudget(seen[1..], count + 1, total + Size(seen[0]), limits, binary);
        SumSplits([seen[0]], later.taken);
        SumOne(seen[0]);
        forall n | 0 < n <= |later.taken|
          ensures Sum(([seen[0]] + later.taken)[..n]) == Size(seen[0]) + Sum(later.taken[..n - 1])
        {
          assert ([seen[0]] + later.taken)[..n] == [seen[0]] + later.taken[..n - 1];
          SumSplits([seen[0]], later.taken[..n - 1]);
        }
      } else {
        ScanWithinBudget(seen[1..], count, total, limits, binary);
      }
    }
  }

  lemma SumOne(s: Seen)
    ensures Sum([s]) == Size(s) && Sum([]) == 0
  {
    assert [s][..0] == [];
  }

  lemma ScanOneOrNone(seen: seq<Seen>, count: nat, total: nat, limits: Limits, binary: string -> bool)
    ensures seen == [] ==> Scan(seen, count, total, limits, binary) == Outcome([], None)
    ensures seen != [] ==>
              var more, s := Scan(seen, count, total, limits, binary), seen[0];
              if count >= limits.maxFiles then more == Outcome([], Some(Stop(FileLimitReached, s.root)))
              else if total >= limits.maxTotalBytes then more == Outcome([], Some(Stop(ByteLimitReached, s.root)))
              else if Eligible(s.entry, limits, binary) then
                var later := Scan(seen[1..], count + 1, total + Size(s), limits, binary);
                more == Outcome([s] + later.taken, later.stop)
              else more == Scan(seen[1..], count, total, limits, binary)
  {
    if seen != [] {
      ScanOne(seen, count, total, limits, binary);
    }
  }

  // ---- the bytes of a set of files -----------------------------------------

  ghost function TotalBytes(files: map<string, Bytes>): nat
    decreases files.Keys
  {
    if files == map[] then 0
    else
      var key :| key in files;
      |files[key]| + TotalBytes(files - {key})
  }

  lemma {:induction false} TotalWithout(files: map<string, Bytes>, key: string)
    requires key in files
    ensures TotalBytes(files) == |files[key]| + TotalBytes(files - {key})
    decreases files.Keys
  {
    var chosen :| chosen in files && TotalBytes(files) == |files[chosen]| + TotalBytes(files - {chosen});
    if chosen != key {
      TotalWithout(files - {chosen}, key);
      TotalWithout(files - {key}, chosen);
      assert files - {chosen} - {key} == files - {key} - {chosen};
    }
  }

  lemma TotalWith(files: map<string, Bytes>, key: string, content: Bytes)
    ensures TotalBytes(files[key := content]) <= TotalBytes(files) + |content|
  {
    var after := files[key := content];
    TotalWithout(after, key);
    if key in files {
      TotalWithout(files, key);
      assert after - {key} == files - {key};
    } else {
      assert after - {key} == files;
    }
  }

  /** Storing under a name that is taken replaces a file; it never adds to the number of files or bytes. */
  lemma {:induction false} FilesWithinTaken(roots: seq<Root>, taken: seq<Seen>)
    ensures |Files(roots, taken)| <= |taken| && TotalBytes(Files(roots, taken)) <= Sum(taken)
    ensures forall key :: key in Files(roots, taken) ==> exists s :: s in taken && Content(s) == Files(roots, taken)[key]
  {
    hide Content, Size, StoredName;
    if taken != [] {
      var front, s := taken[..|taken| - 1], taken[|taken| - 1];
      FilesWithinTaken(roots, front);
      ContentSize(s);
      var before, key := Files(roots, front), StoredName(roots, front, s);
      TotalWith(before, key, Content(s));
      var after := before[key := Content(s)];
      assert after.Keys == before.Keys + {key};
      forall k | k in after ensures exists x :: x in taken && Content(x) == after[k] {
        if k == key {
          assert s in taken;
        } else {
          var x :| x in front && Content(x) == before[k];
          assert x in taken;
        }
      }
    }
  }

  lemma ContentSize(s: Seen)
    ensures |Content(s)| == Size(s)
  {
  }

  /** No file grows between the look at its size and the reading. */
  predicate NoneGrows(roots: seq<Root>) {
    forall i, j :: 0 <= i < |roots| && 0 <= j < |roots[i].entries| ==> !Grows(roots[i].entries[j])
  }

  predicate Grows(e: Entry) {
    e.resolved.Some? && e.resolved.value.content.Some? && |e.resolved.value.content.value| > e.resolved.value.size
  }

  /** No file is emptied in that time. */
  predicate NoneEmptied(roots: seq<Root>) {
    forall i, j :: 0 <= i < |roots| && 0 <= j < |roots[i].entries| ==> !Emptied(roots[i].entries[j])
  }

  predicate Emptied(e: Entry) {
    e.resolved.Some? && e.resolved.value.content == Some([]) && e.resolved.value.size > 0
  }

  lemma {:induction false} SeenStays(roots: seq<Root>, i: nat)
    ensures NoneGrows(roots) ==> forall s :: s in AllSeen(roots, i) ==> !Grows(s.entry)
    ensures NoneEmptied(roots) ==> forall s :: s in AllSeen(roots, i) ==> !Emptied(s.entry)
    decreases |roots| - i
  {
    hide Grows, Emptied;
    if i < |roots| {
      SeenStays(roots, i + 1);
    }
  }

  /** The bytes of what was taken exceed the limit by less than the last file. */
  lemma SumWithinBudget(roots: seq<Root>, limits: Limits, binary: string -> bool)
    ensures var taken := Scan(AllSeen(roots, 0), 0, 0, limits, binary).taken;
            && (taken == [] || |taken| <= limits.maxFiles)
            && (taken != [] && NoneGrows(roots) ==> Sum(taken) <= limits.maxTotalBytes - 1 + limits.maxFileBytes)
  {
    hide Scan, AllSeen, Sum, NoneGrows, NoneEmptied, Content, Eligible;
    var taken := Scan(AllSeen(roots, 0), 0, 0, limits, binary).taken;
    ScanWithinBudget(AllSeen(roots, 0), 0, 0, limits, binary);
    if taken != [] {
      var last := |taken| - 1;
      OneMore(roots, taken[..last], taken[last]);
      assert taken[..last] + [taken[last]] == taken;
      TakenFits(roots, limits, binary, taken[last]);
      ContentSize(taken[last]);
    }
  }

  /** Whatever the directories hold, the scan returns at most maxFiles files. If no file grows while it is being read,
      each of them has at most maxFileBytes bytes, and together they exceed maxTotalBytes by less than one file, even
      when a later root overwrites files of an earlier one. If no file is emptied, none of them is empty. */
  lemma ScanBudget(roots: seq<Root>, limits: Limits, binary: string -> bool)
    ensures var files := Files(roots, Scan(AllSeen(roots, 0), 0, 0, limits, binary).taken);
            && (files == map[] || |files| <= limits.maxFiles)
            && (NoneGrows(roots) ==>
                  && (forall key :: key in files ==> |files[key]| <= limits.maxFileBytes)
                  && (files == map[] || TotalBytes(files) <= limits.maxTotalBytes - 1 + limits.maxFileBytes))
            && (NoneEmptied(roots) ==> forall key :: key in files ==> files[key] != [])
  {
    hide Scan, AllSeen, Files, Sum, NoneGrows, NoneEmptied, Content, TotalBytes;
    var taken := Scan(AllSeen(roots, 0), 0, 0, limits, binary).taken;
    SumWithinBudget(roots, limits, binary);
    FilesWithinTaken(roots, taken);
    NoFiles(roots);
    forall s | s in taken
      ensures NoneGrows(roots) ==> |Content(s)| <= limits.maxFileBytes
      ensures NoneEmptied(roots) ==> Content(s) != []
    {
      TakenFits(roots, limits, binary, s);
    }
  }

  lemma NoFiles(roots: seq<Root>)
    ensures Files(roots, []) == map[]
  {
  }

  lemma TakenFits(roots: seq<Root>, limits: Limits, binary: string -> bool, s: Seen)
    requires s in Scan(AllSeen(roots, 0), 0, 0, limits, binary).taken
    ensures NoneGrows(roots) ==> |Content(s)| <= limits.maxFileBytes
    ensures NoneEmptied(roots) ==> Content(s) != []
  {
    hide Scan, AllSeen, NoneGrows, NoneEmptied;
    var seen, test := AllSeen(roots, 0), (s: Seen) => Eligible(s.entry, limits, binary);
    ScanIsPrefix(seen, 0, 0, limits, binary);
    assert s in Filter(seen, test);
    FilterMember(seen, test, s);
    SeenStays(roots, 0);
  }

  // ---- which files, and under which names -----------------------------------

  /** A file inside its root and not a link, whose path and size are acceptable, and whose bytes can be read and hold no
      NUL among the first 4096. */
  lemma EligibleExactly(e: Entry, limits: Limits, binary: string -> bool)
    ensures Eligible(e, limits, binary) <==>
            && !e.isDir && e.resolved != None && e.resolved.value.insideRoot && !e.resolved.value.isSymlink
            && e.resolved.value.rel != "" && !(".git/" <= e.resolved.value.rel) && !binary(e.resolved.value.rel)
            && 1 <= e.resolved.value.size <= limits.maxFileBytes
            && e.resolved.value.content != None
            && (forall i :: 0 <= i < |e.resolved.value.content.value| && i < 4096 ==> e.resolved.value.content.value[i] != 0)
            && forall part :: part in Split(e.resolved.value.rel, '/') ==> !ExcludedName(part)
  {
    hide Split, ExcludedName;
    if e.resolved != None && e.resolved.value.content != None {
      var content := e.resolved.value.content.value;
      assert 0 in Take(content, 4096) <==> exists i :: 0 <= i < |content| && i < 4096 && content[i] == 0 by {
        if i :| 0 <= i < |content| && i < 4096 && content[i] == 0 {
          assert Take(content, 4096)[i] == 0;
        }
      }
    }
    forall part ensures part in EXCLUDED <==> ExcludedName(part) {
      ExcludedExactly(part);
    }
  }

  /** The directories that are never looked into. */
  predicate ExcludedName(part: string) {
    || part == ".git" || part == ".hg" || part == ".svn" || part == ".venv" || part == "venv" || part == "node_modules"
    || part == "__pycache__" || part == ".pytest_cache" || part == ".mypy_cache" || part == ".xyn" || part == "dist"
    || part == "build"
  }

  lemma ExcludedExactly(part: string)
    ensures part in EXCLUDED <==> ExcludedName(part)
  {
  }

  /** The roots under which something was taken. */
  ghost function RootsOf(taken: seq<Seen>): set<nat> {
    set s | s in taken :: s.root
  }

  lemma {:induction false} SelectedRoots(taken: seq<Seen>)
    ensures NoRepeats(Selected(taken)) && forall r :: r in Selected(taken) <==> r in RootsOf(taken)
  {
    if taken != [] {
      SelectedRoots(taken[..|taken| - 1]);
      assert forall s :: s in taken <==> s in taken[..|taken| - 1] || s == taken[|taken| - 1];
    }
  }

  predicate NoRepeats(xs: seq<nat>) {
    forall i, j :: 0 <= i < j < |xs| ==> xs[i] != xs[j]
  }

  lemma {:induction false} CountRoots(xs: seq<nat>, s: set<nat>)
    requires NoRepeats(xs) && forall r :: r in xs <==> r in s
    ensures |xs| == |s|
  {
    if xs == [] {
      assert s == {};
    } else {
      var last := xs[|xs| - 1];
      assert forall r :: r in xs[..|xs| - 1] <==> r in s - {last} by {
        forall r ensures r in xs[..|xs| - 1] <==> r in s - {last} {
          if r in xs[..|xs| - 1] {
            var i :| 0 <= i < |xs| - 1 && xs[i] == r;
          }
        }
      }
      CountRoots(xs[..|xs| - 1], s - {last});
    }
  }

  /** Roots are scanned one after the other. */
  predicate InRootOrder(taken: seq<Seen>) {
    forall i, j :: 0 <= i < j < |taken| ==> taken[i].root <= taken[j].root
  }

  predicate Ascending(xs: seq<nat>) {
    forall i, j :: 0 <= i < j < |xs| ==> xs[i] < xs[j]
  }

  /** The roots that have contributed are listed in their order. */
  lemma {:induction false} SelectedAscending(taken: seq<Seen>)
    requires InRootOrder(taken)
    ensures Ascending(Selected(taken))
  {
    if taken != [] {
      var last := |taken| - 1;
      SelectedAscending(taken[..last]);
      SelectedRoots(taken[..last]);
      var front := Selected(taken[..last]);
      forall i | 0 <= i < |front| ensures front[i] <= taken[last].root {
        assert front[i] in front;
        var s :| s in taken[..last] && s.root == front[i];
        var k :| 0 <= k < last && taken[k] == s;
      }
    }
  }

  /** When a scan stops under a root, what it lists is every other root that has contributed, in their order. */
  lemma ClosedExactly(taken: seq<Seen>, current: nat)
    requires InRootOrder(taken) && forall s :: s in taken ==> s.root <= current
    ensures Ascending(Closed(Selected(taken), current))
    ensures forall r :: r in Closed(Selected(taken), current) <==> r in RootsOf(taken) - {current}
  {
    hide Selected;
    var selected := Selected(taken);
    SelectedRoots(taken);
    SelectedAscending(taken);
    if current in selected {
      var i :| 0 <= i < |selected| && selected[i] == current;
      var last := selected[|selected| - 1];
      assert last in selected;
      var s :| s in taken && s.root == last;
      assert i == |selected| - 1;
    }
    forall r ensures r in Closed(selected, current) <==> r in selected && r != current {
      if r in selected && r != current {
        var j :| 0 <= j < |selected| && selected[j] == r;
        assert Closed(selected, current)[j] == r;
      }
      if r in Closed(selected, current) {
        var j :| 0 <= j < |Closed(selected, current)| && Closed(selected, current)[j] == r;
        assert selected[j] == r;
      }
    }
  }

  /** A root is listed by its path. */
  lemma PathsExactly(roots: seq<Root>, numbers: seq<nat>)
    requires forall n :: n in numbers ==> n < |roots|
    ensures |Paths(roots, numbers)| == |numbers|
    ensures forall k :: 0 <= k < |numbers| ==> numbers[k] in numbers && Paths(roots, numbers)[k] == roots[numbers[k]].path
  {
  }

  /** What is seen: every entry of the roots that are directories, root by root. */
  lemma {:induction false} SeenExactly(roots: seq<Root>, i: nat, s: Seen)
    ensures s in AllSeen(roots, i) <==>
            i <= s.root < |roots| && roots[s.root].isDirectory && s.entry in roots[s.root].entries
    ensures InRootOrder(AllSeen(roots, i))
    decreases |roots| - i
  {
    if i < |roots| {
      SeenExactly(roots, i + 1, s);
      var own := Tagged(i, roots[i].entries);
      assert s in own <==> s.root == i && s.entry in roots[i].entries by {
        if s.root == i && s.entry in roots[i].entries {
          var k :| 0 <= k < |roots[i].entries| && roots[i].entries[k] == s.entry;
          assert own[k] == s;
        }
      }
      forall later | later in AllSeen(roots, i + 1) ensures later.root > i {
        SeenExactly(roots, i + 1, later);
      }
    }
  }

  /** A scan stops in front of some entry: it has taken the eligible ones before it, and stops under its root. */
  lemma {:induction false} StopExactly(seen: seq<Seen>, count: nat, total: nat, limits: Limits, binary: string -> bool)
    returns (n: nat)
    requires Scan(seen, count, total, limits, binary).stop.Some?
    ensures var outcome := Scan(seen, count, total, limits, binary);
            && n < |seen| && outcome.stop.value.root == seen[n].root
            && outcome.taken == Filter(seen[..n], (s: Seen) => Eligible(s.entry, limits, binary))
    decreases |seen|
  {
    hide Eligible, Size;
    var test := (s: Seen) => Eligible(s.entry, limits, binary);
    ScanOneOrNone(seen, count, total, limits, binary);
    if count >= limits.maxFiles || total >= limits.maxTotalBytes {
      n := 0;
      FilterNone(seen[..0], test);
    } else {
      var m: nat;
      if Eligible(seen[0].entry, limits, binary) {
        m := StopExactly(seen[1..], count + 1, total + Size(seen[0]), limits, binary);
      } else {
        m := StopExactly(seen[1..], count, total, limits, binary);
      }
      n := m + 1;
      assert seen[..n] == [seen[0]] + seen[1..][..m];
      FilterCons(seen[0], seen[1..][..m], test);
    }
  }

  /** The plain relative path, until two earlier roots have contributed; then the name of the root comes in front of it. */
  lemma StoredNameExactly(roots: seq<Root>, before: seq<Seen>, s: Seen)
    requires InRootOrder(before + [s]) && s.root < |roots| && s.entry.resolved != None
    ensures StoredName(roots, before, s)
         == if |RootsOf(before) - {s.root}| <= 1 then s.entry.resolved.value.rel
            else roots[s.root].name + "/" + s.entry.resolved.value.rel
  {
    hide Selected, Closed;
    assert forall i :: 0 <= i < |before| ==> (before + [s])[i] == before[i];
    assert (before + [s])[|before|] == s;
    ClosedExactly(before, s.root);
    CountRoots(Closed(Selected(before), s.root), RootsOf(before) - {s.root});
  }

  /** One file of which one byte was there when its size was looked at. */
  function GrownFile(content: Bytes): Entry {
    Entry(false, Some(Resolved(true, false, "a", 1, Some(content))))
  }

  function OneRoot(content: Bytes): seq<Root> {
    [Root("/r", "r", true, [GrownFile(content)])]
  }

  /** Whatever the limits, a file that grows is taken whole: no number of bytes bounds the scan. */
  lemma GrowthIsNotBounded(limits: Limits, content: Bytes)
    requires limits.maxFiles >= 1 && limits.maxFileBytes >= 1 && limits.maxTotalBytes >= 1
    requires 0 !in content
    ensures var roots := OneRoot(content);
            var files := Files(roots, Scan(AllSeen(roots, 0), 0, 0, limits, _ => false).taken);
            files == map["a" := content] && TotalBytes(files) == |content|
  {
    var roots, s := OneRoot(content), Seen(0, GrownFile(content));
    assert Split("a", '/') == ["a"] by {
      SplitJoin(["a"], '/');
    }
    assert Eligible(s.entry, limits, _ => false);
    assert AllSeen(roots, 1) == [] && AllSeen(roots, 0) == [s];
    ScanOne([s], 0, 0, limits, _ => false);
    assert Scan([s], 0, 0, limits, _ => false).taken == [s];
    assert [s][..0] == [] && Files(roots, [s]) == map["a" := content];
    assert map["a" := content] - {"a"} == map[];
  }
}
