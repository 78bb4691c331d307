/** The string operations of the source. Lower-casing is the ASCII one. */
module Text {

  predicate IsSpace(c: char) {
    var n := c as int;
    9 <= n <= 13 || 28 <= n <= 32 || n == 0x85 || n == 0xa0 || n == 0x1680 || 0x2000 <= n <= 0x200a
    || n == 0x2028 || n == 0x2029 || n == 0x202f || n == 0x205f || n == 0x3000
  }

  function StripLeft(s: string): string {
    if s != "" && IsSpace(s[0]) then StripLeft(s[1..]) else s
  }

  function StripRight(s: string): string {
    if s != "" && IsSpace(s[|s| - 1]) then StripRight(s[..|s| - 1]) else s
  }

  function Strip(s: string): string {
    StripRight(StripLeft(s))
  }

  /** Nothing to strip at either end. */
  predicate Trimmed(s: string) {
    s != "" ==> !IsSpace(s[0]) && !IsSpace(s[|s| - 1])
  }

  function LowerChar(c: char): char {
    if 'A' <= c <= 'Z' then c - 'A' + 'a' else c
  }

  function Lower(s: string): (r: string)
    ensures |r| == |s|
    ensures forall k :: 0 <= k < |s| ==> r[k] == LowerChar(s[k])
  {
    if s == "" then "" else [LowerChar(s[0])] + Lower(s[1..])
  }

  lemma {:induction false} StripLeftStarts(s: string)
    ensures var r := StripLeft(s);
            (r != "" ==> !IsSpace(r[0])) && |r| <= |s| && r == s[|s| - |r|..]
  {
    if s != "" && IsSpace(s[0]) {
      StripLeftStarts(s[1..]);
    }
  }

  lemma {:induction false} StripRightEnds(s: string)
    ensures var r := StripRight(s);
            (r != "" ==> !IsSpace(r[|r| - 1])) && |r| <= |s| && r == s[..|r|]
  {
    if s != "" && IsSpace(s[|s| - 1]) {
      StripRightEnds(s[..|s| - 1]);
    }
  }

  lemma StripTrims(s: string)
    ensures Trimmed(Strip(s)) && |Strip(s)| <= |s|
    ensures Trimmed(s) ==> Strip(s) == s
  {
    StripLeftStarts(s);
    StripRightEnds(StripLeft(s));
  }

  lemma LowerTrims(s: string)
    ensures Trimmed(s) ==> Trimmed(Lower(s))
    ensures Lower(Lower(s)) == Lower(s)
  {
  }

  /** The white space of `str.strip`. */
  const SPACES: set<int> :=
    {9, 10, 11, 12, 13, 28, 29, 30, 31, 32, 133, 160, 5760, 8192, 8193, 8194, 8195, 8196, 8197, 8198, 8199, 8200, 8201, 8202,
     8232, 8233, 8239, 8287, 12288}

  predicate AllSpace(s: string) {
    forall k :: 0 <= k < |s| ==> s[k] as int in SPACES
  }

  lemma SpaceExactly(c: char)
    ensures IsSpace(c) <==> c as int in SPACES
  {
  }

  lemma {:induction false} StripLeftExactly(s: string)
    ensures |StripLeft(s)| <= |s| && AllSpace(s[..|s| - |StripLeft(s)|])
  {
    if s != "" {
      SpaceExactly(s[0]);
      if IsSpace(s[0]) {
        StripLeftExactly(s[1..]);
        var n := |s| - |StripLeft(s)|;
        assert s[..n] == [s[0]] + s[1..][..n - 1];
      }
    }
  }

  lemma {:induction false} StripRightExactly(s: string)
    ensures |StripRight(s)| <= |s| && AllSpace(s[|StripRight(s)|..])
  {
    if s != "" {
      SpaceExactly(s[|s| - 1]);
      if IsSpace(s[|s| - 1]) {
        StripRightExactly(s[..|s| - 1]);
        var n := |StripRight(s)|;
        assert s[n..] == s[..|s| - 1][n..] + [s[|s| - 1]];
      }
    }
  }

  /** What is stripped is white space, at the two ends, and no more of it is left there. */
  lemma StripExactly(s: string)
    ensures exists left, right :: s == left + Strip(s) + right && AllSpace(left) && AllSpace(right)
    ensures Strip(s) != "" ==> Strip(s)[0] as int !in SPACES && Strip(s)[|Strip(s)| - 1] as int !in SPACES
  {
    hide AllSpace, StripLeft, StripRight, IsSpace;
    StripLeftExactly(s);
    StripLeftStarts(s);
    var rest := StripLeft(s);
    StripRightExactly(rest);
    StripRightEnds(rest);
    StripTrims(s);
    assert s == s[..|s| - |rest|] + Strip(s) + rest[|Strip(s)|..];
    if Strip(s) != "" {
      SpaceExactly(Strip(s)[0]);
      SpaceExactly(Strip(s)[|Strip(s)| - 1]);
    }
  }

  /** ASCII letters are lower-cased and nothing else changes. */
  lemma LowerExactly(s: string, k: nat)
    requires k < |s|
    ensures |Lower(s)| == |s|
    ensures Lower(s)[k] as int == if 65 <= s[k] as int <= 90 then s[k] as int + 32 else s[k] as int
  {
  }

  /** `s.split(sep)`. */
  function Split(s: string, sep: char): (parts: seq<string>)
    ensures |parts| > 0
  {
    if s == "" then [""]
    else
      var rest := Split(s[1..], sep);
      if s[0] == sep then [""] + rest else [[s[0]] + rest[0]] + rest[1..]
  }

  /** `sep.join(parts)`. */
  function Join(parts: seq<string>, sep: char): string {
    if parts == [] then ""
    else if |parts| == 1 then parts[0]
    else parts[0] + [sep] + Join(parts[1..], sep)
  }

  lemma {:induction false} JoinSplit(s: string, sep: char)
    ensures Join(Split(s, sep), sep) == s
    ensures forall part :: part in Split(s, sep) ==> sep !in part
  {
    if s != "" {
      JoinSplit(s[1..], sep);
      var rest := Split(s[1..], sep);
      if s[0] != sep && |rest| > 1 {
        assert ([[s[0]] + rest[0]] + rest[1..])[1..] == rest[1..];
      }
    }
  }

  lemma {:induction false} SplitPart(part: string, s: string, sep: char)
    requires sep !in part
    ensures Split(part + [sep] + s, sep) == [part] + Split(s, sep)
  {
    var whole := part + [sep] + s;
    if part == "" {
      assert whole[1..] == s;
    } else {
      assert whole[0] == part[0] && whole[1..] == part[1..] + [sep] + s;
      SplitPart(part[1..], s, sep);
      assert [part[0]] + part[1..] == part;
    }
  }

  lemma {:induction false} SplitWord(part: string, sep: char)
    requires sep !in part
    ensures Split(part, sep) == [part]
  {
    if part != "" {
      SplitWord(part[1..], sep);
      assert [part[0]] + part[1..] == part;
    }
  }

  lemma {:induction false} SplitJoin(parts: seq<string>, sep: char)
    requires parts != [] && forall part :: part in parts ==> sep !in part
    ensures Split(Join(parts, sep), sep) == parts
  {
    if |parts| == 1 {
      SplitWord(parts[0], sep);
    } else {
      SplitPart(parts[0], Join(parts[1..], sep), sep);
      SplitJoin(parts[1..], sep);
    }
  }
}
