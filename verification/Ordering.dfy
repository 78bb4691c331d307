/** ORDER BY, `sorted` and `list.sort`: a stable sort over sequences, and the order of strings by code point. */
module Ordering {
  import opened Wrappers

  ghost predicate TotalPreorder<T(!new)>(leq: (T, T) -> bool) {
    && (forall x, y :: leq(x, y) || leq(y, x))
    && (forall x, y, z :: leq(x, y) && leq(y, z) ==> leq(x, z))
  }

  ghost predicate SortedBy<T>(xs: seq<T>, leq: (T, T) -> bool) {
    forall i, j :: 0 <= i < j < |xs| ==> leq(xs[i], xs[j])
  }

  function Insert<T>(x: T, xs: seq<T>, leq: (T, T) -> bool): (r: seq<T>)
    ensures multiset(r) == multiset{x} + multiset(xs)
  {
    if xs == [] then [x]
    else if leq(x, xs[0]) then [x] + xs
    else
      assert xs == [xs[0]] + xs[1..];
      [xs[0]] + Insert(x, xs[1..], leq)
  }

  /** Stable: of two equivalent elements the earlier one is inserted in front of the later one. */
  function Sort<T>(xs: seq<T>, leq: (T, T) -> bool): (r: seq<T>)
    ensures multiset(r) == multiset(xs)
  {
    if xs == [] then []
    else
      assert xs == [xs[0]] + xs[1..];
      Insert(xs[0], Sort(xs[1..], leq), leq)
  }

  lemma {:induction false} InsertSorted<T(!new)>(x: T, xs: seq<T>, leq: (T, T) -> bool)
    requires TotalPreorder(leq) && SortedBy(xs, leq)
    ensures SortedBy(Insert(x, xs, leq), leq)
  {
    if xs != [] && !leq(x, xs[0]) {
      InsertSorted(x, xs[1..], leq);
      var r := Insert(x, xs[1..], leq);
      forall y | y in r ensures leq(xs[0], y) {
        assert y in multiset(r);
        assert y == x || y in multiset(xs[1..]);
      }
    }
  }

  lemma {:induction false} SortSorted<T(!new)>(xs: seq<T>, leq: (T, T) -> bool)
    requires TotalPreorder(leq)
    ensures SortedBy(Sort(xs, leq), leq)
  {
    if xs != [] {
      SortSorted(xs[1..], leq);
      InsertSorted(xs[0], Sort(xs[1..], leq), leq);
    }
  }

  lemma SameElements<T>(xs: seq<T>, ys: seq<T>)
    requires multiset(xs) == multiset(ys)
    ensures |xs| == |ys|
    ensures forall x :: x in xs <==> x in ys
  {
    assert |multiset(xs)| == |multiset(ys)|;
    forall x ensures x in xs <==> x in ys {
      assert x in multiset(xs) <==> x in multiset(ys);
    }
  }

  ghost predicate NoDuplicates<T>(xs: seq<T>) {
    forall i, j :: 0 <= i < j < |xs| ==> xs[i] != xs[j]
  }

  lemma {:induction false} NoDuplicatesMultiplicity<T>(xs: seq<T>)
    ensures NoDuplicates(xs) <==> forall x :: x in xs ==> multiset(xs)[x] == 1
  {
    if xs != [] {
      var rest := xs[1..];
      assert xs == [xs[0]] + rest;
      NoDuplicatesMultiplicity(rest);
      if NoDuplicates(xs) {
        forall x | x in xs ensures multiset(xs)[x] == 1 {
          if x == xs[0] {
            assert x !in rest;
            assert multiset(rest)[x] == 0;
          } else {
            assert x in rest;
          }
        }
      }
      if forall x :: x in xs ==> multiset(xs)[x] == 1 {
        forall x | x in rest ensures multiset(rest)[x] == 1 {
          assert x in xs;
          assert x in multiset(rest);
        }
        assert xs[0] in xs;
        assert xs[0] !in rest;
      }
    }
  }

  lemma SortNoDuplicates<T>(xs: seq<T>, leq: (T, T) -> bool)
    requires NoDuplicates(xs)
    ensures NoDuplicates(Sort(xs, leq))
  {
    NoDuplicatesMultiplicity(xs);
    NoDuplicatesMultiplicity(Sort(xs, leq));
    SameElements(xs, Sort(xs, leq));
  }

  /** Two ordered listings of the same elements without repetition are the same listing. */
  lemma {:induction false} SortedUnique<T>(xs: seq<T>, ys: seq<T>, leq: (T, T) -> bool)
    requires SortedBy(xs, leq) && SortedBy(ys, leq) && NoDuplicates(xs) && NoDuplicates(ys)
    requires forall x :: x in xs <==> x in ys
    requires forall x, y :: x in xs && y in xs && leq(x, y) && leq(y, x) ==> x == y
    ensures xs == ys
  {
    assert xs != [] ==> xs[0] in ys;
    assert ys != [] ==> ys[0] in xs;
    if xs != [] && ys != [] {
      assert xs[0] == ys[0];
      forall r ensures r in xs[1..] <==> r in ys[1..] {
        assert r in xs[1..] <==> r in xs && r != xs[0];
        assert r in ys[1..] <==> r in ys && r != ys[0];
      }
      SortedUnique(xs[1..], ys[1..], leq);
      assert xs == [xs[0]] + xs[1..] && ys == [ys[0]] + ys[1..];
    }
  }

  /** The rows of an unordered collection, in some order. */
  method Enumerate<T(==)>(s: set<T>) returns (xs: seq<T>)
    ensures NoDuplicates(xs)
    ensures forall x :: x in xs <==> x in s
  {
    xs := [];
    var rest := s;
    while rest != {}
      invariant rest <= s && NoDuplicates(xs)
      invariant forall x :: x in xs <==> x in s && x !in rest
      decreases rest
    {
      var x :| x in rest;
      xs := xs + [x];
      rest := rest - {x};
    }
  }

  /** ASC NULLS LAST. */
  predicate NullsLastLess(a: Option<int>, b: Option<int>) {
    a.Some? && (b.None? || a.value < b.value)
  }

  /** Comparison of strings by code point. */
  predicate StringLeq(a: string, b: string) {
    a == [] || (b != [] && (a[0] < b[0] || (a[0] == b[0] && StringLeq(a[1..], b[1..]))))
  }

  predicate SmallerAt(a: string, b: string, k: nat) {
    k < |a| && k < |b| && a[..k] == b[..k] && a[k] as int < b[k] as int
  }

  lemma SmallerInTail(a: string, b: string, k: nat)
    requires a != [] && b != [] && a[0] == b[0]
    ensures SmallerAt(a, b, k + 1) <==> SmallerAt(a[1..], b[1..], k)
  {
    if k < |a| - 1 && k < |b| - 1 {
      assert a[..k + 1] == [a[0]] + a[1..][..k] && b[..k + 1] == [b[0]] + b[1..][..k];
      assert a[1..][..k] == a[..k + 1][1..] && b[1..][..k] == b[..k + 1][1..];
    }
  }

  lemma SmallerAtStart(a: string, b: string, k: nat)
    requires a != [] && b != [] && SmallerAt(a, b, k)
    ensures if k == 0 then a[0] as int < b[0] as int else a[0] == b[0]
  {
    assert k > 0 ==> a[..k][0] == b[..k][0];
  }

  /** The first difference decides; a proper prefix comes first. */
  lemma {:induction false} StringLeqExactly(a: string, b: string)
    ensures StringLeq(a, b) <==> a <= b || exists k: nat :: SmallerAt(a, b, k)
  {
    hide SmallerAt;
    if a == [] || b == [] {
      forall k: nat ensures b == [] ==> !SmallerAt(a, b, k) {
        SmallerLongEnough(a, b, k);
      }
    } else if a[0] == b[0] {
      StringLeqExactly(a[1..], b[1..]);
      assert a <= b <==> a[1..] <= b[1..];
      if k: nat :| SmallerAt(a[1..], b[1..], k) {
        SmallerInTail(a, b, k);
      }
      if k: nat :| SmallerAt(a, b, k) {
        SmallerAtStart(a, b, k);
        SmallerLongEnough(a, b, k);
        SmallerInTail(a, b, k - 1);
      }
    } else {
      FirstCharacter(a, b);
      if k: nat :| SmallerAt(a, b, k) {
        SmallerAtStart(a, b, k);
      }
    }
  }

  lemma SmallerLongEnough(a: string, b: string, k: nat)
    ensures SmallerAt(a, b, k) ==> k < |a| && k < |b| && (k == 0 ==> a[0] as int < b[0] as int)
  {
  }

  lemma FirstCharacter(a: string, b: string)
    requires a != [] && b != [] && a[0] != b[0]
    ensures SmallerAt(a, b, 0) <==> a[0] as int < b[0] as int
  {
  }

  lemma {:induction false} StringLeqTotal(a: string, b: string)
    ensures StringLeq(a, b) || StringLeq(b, a)
    ensures StringLeq(a, b) && StringLeq(b, a) ==> a == b
  {
    if a != [] && b != [] {
      StringLeqTotal(a[1..], b[1..]);
      if a[0] == b[0] && a[1..] == b[1..] {
        assert a == [a[0]] + a[1..] == b;
      }
    }
  }

  lemma {:induction false} StringLeqTransitive(a: string, b: string, c: string)
    requires StringLeq(a, b) && StringLeq(b, c)
    ensures StringLeq(a, c)
  {
    if a != [] {
      if a[0] == b[0] && b[0] == c[0] {
        StringLeqTransitive(a[1..], b[1..], c[1..]);
      }
    }
  }

  lemma StringOrderTotal()
    ensures TotalPreorder(StringLeq)
  {
    forall x, y ensures StringLeq(x, y) || StringLeq(y, x) {
      StringLeqTotal(x, y);
    }
    forall x, y, z | StringLeq(x, y) && StringLeq(y, z) ensures StringLeq(x, z) {
      StringLeqTransitive(x, y, z);
    }
  }
}
