/** `search_files` of core/artifact_code_review.py: nested loops with an early exit against "all matches in order, the
    first `limit` of them". */
module CodeSearch {
  import opened Wrappers
  import opened Ordering
  import opened Sequences
  import opened Text

  const DEFAULT_LIMIT: int := 200
  const MAX_LIMIT: int := 2000
  const SNIPPET_LENGTH: nat := 240

  /** What to search for. `regex` is the search of the compiled expression, if there is one; `eligible` stands for
      the glob, extension and text-language tests on a path, `lines` for decoding and splitting a blob (None if it
      cannot be decoded). */
  datatype Query<!Blob> = Query(token: string, regex: Option<string -> bool>, caseSensitive: bool, limit: Option<int>,
                                eligible: string -> bool, lines: Blob -> Option<seq<string>>)
  {
    predicate Matches(line: string) {
      if regex.Some? then regex.value(line)
      else if caseSensitive then Contains(line, token)
      else Contains(Lower(line), Lower(token))
    }
  }

  predicate Contains(s: string, sub: string) {
    |sub| <= |s| && (s[..|sub|] == sub || Contains(s[1..], sub))
  }

  datatype Hit = Hit(lineNumber: nat, snippet: string)

  datatype FileHits = FileHits(path: string, hitCount: nat, hits: seq<Hit>)

  datatype Report = Report(limit: nat, totalHits: nat, truncated: bool, files: seq<FileHits>)

  datatype SearchError = QueryRequired

  function ResolvedLimit(limit: Option<int>): (r: nat)
    ensures 1 <= r <= MAX_LIMIT
  {
    var wanted := if limit.None? || limit.value == 0 then DEFAULT_LIMIT else limit.value;
    var capped := if wanted < MAX_LIMIT then wanted else MAX_LIMIT;
    if capped < 1 then 1 else capped
  }

  function Snippet(line: string): string {
    var snippet := Strip(line);
    if |snippet| > SNIPPET_LENGTH then snippet[..SNIPPET_LENGTH] + "..." else snippet
  }

  // ---- all matches, in order -----------------------------------------------

  datatype Found = Found(path: string, hit: Hit)

  function LineHits<Blob>(q: Query<Blob>, lines: seq<string>): seq<Hit> {
    if lines == [] then []
    else
      var last := |lines| - 1;
      LineHits(q, lines[..last]) + if q.Matches(lines[last]) then [Hit(|lines|, Snippet(lines[last]))] else []
  }

  function At(path: string, hits: seq<Hit>): seq<Found> {
    seq(|hits|, i requires 0 <= i < |hits| => Found(path, hits[i]))
  }

  function HitsIn<Blob>(q: Query<Blob>, path: string, blob: Blob): seq<Hit> {
    if !q.eligible(path) || q.lines(blob).None? then [] else LineHits(q, q.lines(blob).value)
  }

  function AllMatches<Blob>(q: Query<Blob>, files: map<string, Blob>, paths: seq<string>): seq<Found>
    requires forall p :: p in paths ==> p in files
  {
    if paths == [] then []
    else
      var last := |paths| - 1;
      AllMatches(q, files, paths[..last]) + At(paths[last], HitsIn(q, paths[last], files[paths[last]]))
  }

  /** The hits of a report in the order in which they are listed. */
  function Listed(files: seq<FileHits>): seq<Found> {
    if files == [] then []
    else Listed(files[..|files| - 1]) + At(files[|files| - 1].path, files[|files| - 1].hits)
  }

  ghost predicate IsListing<Blob>(paths: seq<string>, files: map<string, Blob>) {
    && SortedBy(paths, StringLeq) && NoDuplicates(paths)
    && forall p :: p in paths <==> p in files
  }

  /** The report on the matches of the sorted paths: the first `limit` of them, grouped by file. */
  ghost predicate Reports<Blob>(r: Report, q: Query<Blob>, files: map<string, Blob>, paths: seq<string>)
    requires IsListing(paths, files)
  {
    var all := AllMatches(q, files, paths);
    && r.limit == ResolvedLimit(q.limit)
    && Listed(r.files) == Take(all, r.limit)
    && r.totalHits == |Listed(r.files)|
    && (r.truncated <==> |all| >= r.limit)
    && (forall k :: 0 <= k < |r.files| ==> r.files[k].hitCount == |r.files[k].hits| > 0)
    && (forall j, k :: 0 <= j < k < |r.files| ==> r.files[j].path != r.files[k].path)
  }

  method SortedPaths<Blob>(files: map<string, Blob>) returns (paths: seq<string>)
    ensures IsListing(paths, files)
  {
    var listed := Enumerate<string>(files.Keys);
    paths := Sort<string>(listed, StringLeq);
    StringOrderTotal();
    SortSorted<string>(listed, StringLeq);
    SortNoDuplicates<string>(listed, StringLeq);
    SameElements(listed, paths);
  }

  /** The progress of the search over the first paths. */
  ghost predicate Progress(files: seq<FileHits>, total: nat, truncated: bool, limit: nat, all: seq<Found>) {
    && total == |Listed(files)| && Listed(files) <= all
    && (if truncated then total == limit else total < limit && Listed(files) == all)
  }

  /** Groups of the paths so far: none empty, none twice. */
  ghost predicate Grouped(files: seq<FileHits>, paths: seq<string>) {
    && (forall k :: 0 <= k < |files| ==> files[k].path in paths && files[k].hitCount == |files[k].hits| > 0)
    && (forall j, k :: 0 <= j < k < |files| ==> files[j].path != files[k].path)
  }

  method SearchLines<Blob>(q: Query<Blob>, lines: seq<string>, limit: nat, before: nat)
    returns (hits: seq<Hit>, truncated: bool)
    requires before < limit
    ensures hits <= LineHits(q, lines)
    ensures if truncated then before + |hits| == limit else before + |hits| < limit && hits == LineHits(q, lines)
  {
    hits, truncated := [], false;
    var i := 0;
    while i < |lines|
      invariant i <= |lines| && !truncated && hits == LineHits(q, lines[..i]) && before + |hits| < limit
    {
      assert lines[..i + 1][..i] == lines[..i];
      if q.Matches(lines[i]) {
        hits := hits + [Hit(i + 1, Snippet(lines[i]))];
        if before + |hits| >= limit {
          truncated := true;
          HitsOfFront(q, lines, i + 1);
          return;
        }
      }
      i := i + 1;
    }
    assert lines[..i] == lines;
  }

  lemma {:induction false} HitsOfFront<Blob>(q: Query<Blob>, lines: seq<string>, n: nat)
    requires n <= |lines|
    ensures LineHits(q, lines[..n]) <= LineHits(q, lines)
    decreases |lines|
  {
    if n == |lines| {
      assert lines[..n] == lines;
    } else {
      var front := lines[..|lines| - 1];
      HitsOfFront(q, front, n);
      assert front[..n] == lines[..n];
    }
  }

  lemma {:induction false} MatchesOfFront<Blob>(q: Query<Blob>, files: map<string, Blob>, paths: seq<string>, n: nat)
    requires n <= |paths| && forall p :: p in paths ==> p in files
    ensures AllMatches(q, files, paths[..n]) <= AllMatches(q, files, paths)
    decreases |paths|
  {
    if n == |paths| {
      assert paths[..n] == paths;
    } else {
      var front := paths[..|paths| - 1];
      MatchesOfFront(q, files, front, n);
      assert front[..n] == paths[..n];
    }
  }

  function WithFile(files: seq<FileHits>, path: string, hits: seq<Hit>): seq<FileHits> {
    if hits == [] then files else files + [FileHits(path, |hits|, hits)]
  }

  lemma WithFileMeans(files: seq<FileHits>, path: string, hits: seq<Hit>)
    ensures WithFile(files, path, hits) == if hits == [] then files else files + [FileHits(path, |hits|, hits)]
  {
  }

  lemma FileProgress(files: seq<FileHits>, total: nat, limit: nat, all: seq<Found>, path: string, hits: seq<Hit>,
                     truncated: bool, whole: seq<Hit>)
    requires Progress(files, total, false, limit, all) && hits <= whole
    requires if truncated then total + |hits| == limit else total + |hits| < limit && hits == whole
    ensures Progress(WithFile(files, path, hits), total + |hits|, truncated, limit, all + At(path, whole))
  {
    if hits != [] {
      assert WithFile(files, path, hits)[..|files|] == files;
    }
  }

  lemma FileGrouped(files: seq<FileHits>, paths: seq<string>, path: string, hits: seq<Hit>)
    requires Grouped(files, paths) && path !in paths
    ensures Grouped(WithFile(files, path, hits), paths + [path])
  {
  }

  /** There is one listing, so what holds of one holds of all. */
  lemma ReportsForAll<Blob>(r: Report, q: Query<Blob>, files: map<string, Blob>, paths: seq<string>)
    requires IsListing(paths, files) && Reports(r, q, files, paths)
    ensures forall other :: IsListing(other, files) ==> Reports(r, q, files, other)
  {
    hide IsListing, Reports;
    forall other | IsListing(other, files) ensures Reports(r, q, files, other) {
      OneListing(paths, other, files);
    }
  }

  lemma AllThere<Blob>(paths: seq<string>, files: map<string, Blob>)
    requires IsListing(paths, files)
    ensures forall p :: p in paths ==> p in files
  {
  }

  lemma SearchReports<Blob>(q: Query<Blob>, files: map<string, Blob>, paths: seq<string>, n: nat, r: Report)
    requires IsListing(paths, files) && n <= |paths| && r.limit == ResolvedLimit(q.limit)
    requires Grouped(r.files, paths[..n]) && (r.truncated || n == |paths|)
    requires Progress(r.files, r.totalHits, r.truncated, r.limit, AllMatches(q, files, paths[..n]))
    ensures Reports(r, q, files, paths)
  {
    hide LineHits, Listed, AllMatches, SortedBy, Sort;
    MatchesOfFront(q, files, paths, n);
    if n == |paths| {
      assert paths[..n] == paths;
    }
  }

  /** One turn of the loop over the files; a file that is skipped has no hits. */
  method SearchFile<Blob>(q: Query<Blob>, path: string, blob: Blob, limit: nat, before: nat)
    returns (hits: seq<Hit>, truncated: bool)
    requires before < limit
    ensures hits <= HitsIn(q, path, blob)
    ensures if truncated then before + |hits| == limit else before + |hits| < limit && hits == HitsIn(q, path, blob)
  {
    hits, truncated := [], false;
    if !q.eligible(path) {
      return;
    }
    var text := q.lines(blob);
    if text.None? {
      return;
    }
    hits, truncated := SearchLines(q, text.value, limit, before);
  }

  method SearchFiles<Blob>(files: map<string, Blob>, q: Query<Blob>) returns (result: Result<Report, SearchError>)
    ensures result.Err? <==> Strip(q.token) == ""
    ensures result.Ok? ==> forall paths :: IsListing(paths, files) ==> Reports(result.value, q, files, paths)
  {
    hide Progress, Grouped, Reports, HitsIn, At, Listed, AllMatches, IsListing, Strip, ResolvedLimit, WithFile;
    if Strip(q.token) == "" {
      return Err(QueryRequired);
    }
    var limit := ResolvedLimit(q.limit);
    var paths := SortedPaths(files);
    var found: seq<FileHits> := [];
    var total: nat, truncated := 0, false;
    AllThere(paths, files);
    NothingYet(limit, files, q);
    var i := 0;
    while i < |paths| && !truncated
      invariant i <= |paths| && Grouped(found, paths[..i])
      invariant Progress(found, total, truncated, limit, AllMatches(q, files, paths[..i]))
    {
      var path := paths[i];
      ghost var all := AllMatches(q, files, paths[..i]);
      BelowLimit(found, total, limit, all);
      var hits, full := SearchFile(q, path, files[path], limit, total);
      FileProgress(found, total, limit, all, path, hits, full, HitsIn(q, path, files[path]));
      PathIsNew(paths, i, files);
      FileGrouped(found, paths[..i], path, hits);
      NextMatches(q, files, paths, i);
      assert WithFile(found, path, hits) == if hits == [] then found else found + [FileHits(path, |hits|, hits)] by {
        WithFileMeans(found, path, hits);
      }
      if hits != [] {
        found := found + [FileHits(path, |hits|, hits)];
      }
      total, truncated, i := total + |hits|, full, i + 1;
    }
    result := Ok(Report(limit, total, truncated, found));
    SearchReports(q, files, paths, i, result.value);
    ReportsForAll(result.value, q, files, paths);
  }

  lemma NextMatches<Blob>(q: Query<Blob>, files: map<string, Blob>, paths: seq<string>, i: nat)
    requires i < |paths| && forall p :: p in paths ==> p in files
    ensures paths[..i + 1] == paths[..i] + [paths[i]]
    ensures AllMatches(q, files, paths[..i + 1])
         == AllMatches(q, files, paths[..i]) + At(paths[i], HitsIn(q, paths[i], files[paths[i]]))
  {
    assert paths[..i + 1][..i] == paths[..i];
  }

  lemma BelowLimit(files: seq<FileHits>, total: nat, limit: nat, all: seq<Found>)
    requires Progress(files, total, false, limit, all)
    ensures total < limit
  {
  }

  lemma NothingYet<Blob>(limit: nat, files: map<string, Blob>, q: Query<Blob>)
    requires limit >= 1
    ensures Progress([], 0, false, limit, AllMatches(q, files, [])) && Grouped([], [])
  {
  }

  lemma PathIsNew<Blob>(paths: seq<string>, i: nat, files: map<string, Blob>)
    requires IsListing(paths, files) && i < |paths|
    ensures paths[i] !in paths[..i]
  {
  }

  lemma OneListing<Blob>(xs: seq<string>, ys: seq<string>, files: map<string, Blob>)
    requires IsListing(xs, files) && IsListing(ys, files)
    ensures xs == ys
  {
    forall x, y | StringLeq(x, y) && StringLeq(y, x) ensures x == y {
      StringLeqTotal(x, y);
    }
    SortedUnique<string>(xs, ys, StringLeq);
  }

  // ---- what the matches are ------------------------------------------------

  lemma {:induction false} LineHitsExactly<Blob>(q: Query<Blob>, lines: seq<string>, h: Hit)
    ensures h in LineHits(q, lines) <==>
            1 <= h.lineNumber <= |lines| && q.Matches(lines[h.lineNumber - 1]) && h.snippet == Snippet(lines[h.lineNumber - 1])
  {
    if lines != [] {
      var last := |lines| - 1;
      LineHitsExactly(q, lines[..last], h);
      assert h in LineHits(q, lines) <==>
             h in LineHits(q, lines[..last]) || (q.Matches(lines[last]) && h == Hit(|lines|, Snippet(lines[last])));
    }
  }

  lemma FoundAt(path: string, hits: seq<Hit>, f: Found)
    ensures f in At(path, hits) <==> f.path == path && f.hit in hits
  {
    if f.path == path && f.hit in hits {
      var i :| 0 <= i < |hits| && hits[i] == f.hit;
      assert At(path, hits)[i] == f;
    }
  }

  /** A matching line of an eligible, decodable file, with its number and snippet. */
  predicate IsMatch<Blob>(q: Query<Blob>, path: string, blob: Blob, h: Hit) {
    && q.eligible(path) && q.lines(blob).Some?
    && var lines := q.lines(blob).value;
       1 <= h.lineNumber <= |lines| && q.Matches(lines[h.lineNumber - 1]) && h.snippet == Snippet(lines[h.lineNumber - 1])
  }

  lemma HitsInExactly<Blob>(q: Query<Blob>, path: string, blob: Blob, h: Hit)
    ensures h in HitsIn(q, path, blob) <==> IsMatch(q, path, blob, h)
  {
    hide LineHits, Snippet;
    if q.eligible(path) && q.lines(blob).Some? {
      LineHitsExactly(q, q.lines(blob).value, h);
    }
  }

  /** The matches are these lines and no others. */
  lemma {:induction false} MatchesExactly<Blob>(q: Query<Blob>, files: map<string, Blob>, paths: seq<string>, f: Found)
    requires forall p :: p in paths ==> p in files
    ensures f in AllMatches(q, files, paths) <==> f.path in paths && IsMatch(q, f.path, files[f.path], f.hit)
  {
    hide IsMatch, HitsIn, At;
    if paths != [] {
      var last := |paths| - 1;
      var path := paths[last];
      var hits := HitsIn(q, path, files[path]);
      MatchesExactly(q, files, paths[..last], f);
      FoundAt(path, hits, f);
      HitsInExactly(q, path, files[path], f.hit);
      assert f.path in paths <==> f.path in paths[..last] || f.path == path;
      assert f in AllMatches(q, files, paths[..last]) + At(path, hits) <==>
             f in AllMatches(q, files, paths[..last]) || f in At(path, hits);
    }
  }

  // ---- a match, in plain terms ----------------------------------------------

  predicate OccursAt(s: string, sub: string, i: nat) {
    i + |sub| <= |s| && s[i..i + |sub|] == sub
  }

  lemma {:induction false} ContainsExactly(s: string, sub: string)
    ensures Contains(s, sub) <==> exists i: nat :: OccursAt(s, sub, i)
    decreases |s|
  {
    if |sub| <= |s| && s[..|sub|] == sub {
      assert OccursAt(s, sub, 0);
    } else if s != "" && |sub| <= |s| {
      ContainsExactly(s[1..], sub);
      if i: nat :| OccursAt(s[1..], sub, i) {
        assert s[1..][i..i + |sub|] == s[i + 1..i + 1 + |sub|];
        assert OccursAt(s, sub, i + 1);
      }
      if i: nat :| OccursAt(s, sub, i) {
        assert i > 0;
        assert s[1..][i - 1..i - 1 + |sub|] == s[i..i + |sub|];
        assert OccursAt(s[1..], sub, i - 1);
      }
    }
  }

  /** With an expression its search decides; otherwise the token has to occur in the line, with the case of its letters
      if that is asked for and without it if not. */
  predicate LineMatches<Blob>(q: Query<Blob>, line: string) {
    if q.regex != None then q.regex.value(line)
    else if q.caseSensitive then exists i: nat | i <= |line| :: OccursAt(line, q.token, i)
    else exists i: nat | i <= |line| :: OccursAt(Lower(line), Lower(q.token), i)
  }

  lemma MatchesLine<Blob>(q: Query<Blob>, line: string)
    ensures q.Matches(line) <==> LineMatches(q, line)
  {
    ContainsExactly(line, q.token);
    ContainsExactly(Lower(line), Lower(q.token));
    forall i: nat | OccursAt(line, q.token, i) || OccursAt(Lower(line), Lower(q.token), i) ensures i <= |line| {
    }
  }

  /** The line without white space at its ends, cut off after 240 characters. */
  lemma SnippetExactly(line: string)
    ensures |Strip(line)| <= 240 ==> Snippet(line) == Strip(line)
    ensures |Strip(line)| > 240 ==> Snippet(line) == Strip(line)[..240] + "..."
  {
  }

  lemma LimitExactly(limit: Option<int>)
    ensures ResolvedLimit(limit) == if limit == None || limit.value == 0 then 200 else if limit.value < 1 then 1
                                    else if limit.value > 2000 then 2000 else limit.value
  {
  }

  /** What a search finds: the lines of the eligible, decodable files that match, counted from 1, each with its snippet. */
  lemma FoundExactly<Blob>(q: Query<Blob>, files: map<string, Blob>, paths: seq<string>, f: Found)
    requires IsListing(paths, files)
    ensures f in AllMatches(q, files, paths) <==>
            && f.path in files && q.eligible(f.path) && q.lines(files[f.path]) != None
            && var lines := q.lines(files[f.path]).value;
               1 <= f.hit.lineNumber <= |lines| && LineMatches(q, lines[f.hit.lineNumber - 1])
               && f.hit.snippet == Snippet(lines[f.hit.lineNumber - 1])
  {
    hide LineMatches, Snippet, AllMatches;
    MatchesExactly(q, files, paths, f);
    if f.path in files && q.lines(files[f.path]) != None && 1 <= f.hit.lineNumber <= |q.lines(files[f.path]).value| {
      MatchesLine(q, q.lines(files[f.path]).value[f.hit.lineNumber - 1]);
    }
  }

  /** By path, then by line. */
  predicate Before(a: Found, b: Found) {
    StringLeq(a.path, b.path) && (a.path == b.path ==> a.hit.lineNumber < b.hit.lineNumber)
  }

  lemma {:induction false} LineHitsOrdered<Blob>(q: Query<Blob>, lines: seq<string>)
    ensures forall i, j :: 0 <= i < j < |LineHits(q, lines)| ==>
              LineHits(q, lines)[i].lineNumber < LineHits(q, lines)[j].lineNumber
  {
    if lines != [] {
      var front := lines[..|lines| - 1];
      LineHitsOrdered(q, front);
      forall h | h in LineHits(q, front) ensures h.lineNumber < |lines| {
        LineHitsExactly(q, front, h);
      }
    }
  }

  /** The matches are listed by path and line, each once. */
  lemma {:induction false} MatchesOrdered<Blob>(q: Query<Blob>, files: map<string, Blob>, paths: seq<string>)
    requires SortedBy(paths, StringLeq) && NoDuplicates(paths) && forall p :: p in paths ==> p in files
    ensures forall i, j :: 0 <= i < j < |AllMatches(q, files, paths)| ==>
              Before(AllMatches(q, files, paths)[i], AllMatches(q, files, paths)[j])
  {
    if paths != [] {
      var last := |paths| - 1;
      var path := paths[last];
      var front := AllMatches(q, files, paths[..last]);
      MatchesOrdered(q, files, paths[..last]);
      forall f | f in front ensures StringLeq(f.path, path) && f.path != path {
        MatchesExactly(q, files, paths[..last], f);
      }
      if q.eligible(path) && q.lines(files[path]).Some? {
        LineHitsOrdered(q, q.lines(files[path]).value);
        StringLeqTotal(path, path);
      }
    }
  }
}
