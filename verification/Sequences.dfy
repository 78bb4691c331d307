/** Selecting from sequences: WHERE clauses and list comprehensions. */
module Sequences {

  function Filter<T>(xs: seq<T>, keep: T -> bool): seq<T> {
    if xs == [] then []
    else (if keep(xs[0]) then [xs[0]] else []) + Filter(xs[1..], keep)
  }

  function Take<T>(xs: seq<T>, n: nat): seq<T> {
    if |xs| <= n then xs else xs[..n]
  }

  function Drop<T>(xs: seq<T>, n: nat): seq<T> {
    if |xs| <= n then [] else xs[n..]
  }

  lemma {:induction false} FilterMembers<T>(xs: seq<T>, keep: T -> bool)
    ensures forall x :: x in Filter(xs, keep) <==> x in xs && keep(x)
    ensures |Filter(xs, keep)| <= |xs|
  {
    if xs != [] {
      FilterMembers(xs[1..], keep);
      assert xs == [xs[0]] + xs[1..];
    }
  }

  lemma FilterMember<T>(xs: seq<T>, keep: T -> bool, x: T)
    ensures x in Filter(xs, keep) <==> x in xs && keep(x)
  {
    FilterMembers(xs, keep);
  }

  lemma FilterCons<T>(x: T, rest: seq<T>, keep: T -> bool)
    ensures Filter([x] + rest, keep) == (if keep(x) then [x] else []) + Filter(rest, keep)
  {
    assert ([x] + rest)[1..] == rest;
  }

  lemma {:induction false} FilterSplit<T>(xs: seq<T>, ys: seq<T>, keep: T -> bool)
    ensures Filter(xs + ys, keep) == Filter(xs, keep) + Filter(ys, keep)
    decreases |xs|, 1
  {
    if xs == [] {
      assert xs + ys == ys;
    } else {
      assert xs == [xs[0]] + xs[1..];
      FilterSplitOne(xs[0], xs[1..], ys, keep);
    }
  }

  lemma {:induction false} FilterSplitOne<T>(x: T, rest: seq<T>, ys: seq<T>, keep: T -> bool)
    ensures Filter([x] + rest + ys, keep) == Filter([x] + rest, keep) + Filter(ys, keep)
    decreases |rest| + 1, 0
  {
    hide Filter;
    FilterSplit(rest, ys, keep);
    FilterCons(x, rest, keep);
    FilterCons(x, rest + ys, keep);
    assert [x] + rest + ys == [x] + (rest + ys);
  }

  lemma {:induction false} FilterAll<T>(xs: seq<T>, keep: T -> bool)
    requires forall x :: x in xs ==> keep(x)
    ensures Filter(xs, keep) == xs
  {
    if xs != [] {
      FilterAll(xs[1..], keep);
    }
  }

  lemma {:induction false} FilterNone<T>(xs: seq<T>, keep: T -> bool)
    requires forall x :: x in xs ==> !keep(x)
    ensures Filter(xs, keep) == []
  {
    if xs != [] {
      FilterNone(xs[1..], keep);
    }
  }

  /** The n-th kept element stands somewhere in the sequence, and up to there just n elements are kept. */
  lemma {:induction false} FilterPosition<T>(xs: seq<T>, keep: T -> bool, n: nat) returns (p: nat)
    requires n < |Filter(xs, keep)|
    ensures p < |xs| && xs[p] == Filter(xs, keep)[n] && keep(xs[p])
    ensures Filter(xs[..p + 1], keep) == Filter(xs, keep)[..n + 1]
    ensures n + 1 < |Filter(xs, keep)| ==> p + 1 < |xs|
  {
    NotEmpty(xs, keep, n);
    hide Filter;
    var rest := xs[1..];
    assert xs == [xs[0]] + rest;
    FilterCons(xs[0], rest, keep);
    if keep(xs[0]) && n == 0 {
      p := 0;
      FilterCons(xs[0], [], keep);
      FilterNone([], keep);
      assert xs[..1] == [xs[0]] + [];
      NotEmpty(rest, keep, 0);
    } else {
      var q := FilterPosition(rest, keep, if keep(xs[0]) then n - 1 else n);
      p := q + 1;
      FilterCons(xs[0], rest[..q + 1], keep);
      assert xs[..p + 1] == [xs[0]] + rest[..q + 1];
    }
  }

  lemma NotEmpty<T>(xs: seq<T>, keep: T -> bool, n: nat)
    ensures n < |Filter(xs, keep)| ==> xs != []
  {
  }
}
