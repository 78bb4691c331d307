/** The validators and the computed names of core/api/change_efforts.py. */
module BranchNames {
  import opened Wrappers
  import opened Text

  /** The 32 hexadecimal digits of a UUID, without dashes. */
  type EffortId = s: string | |s| == 32 && AllHex(s) witness "00000000000000000000000000000000"

  predicate IsHex(c: char) {
    '0' <= c <= '9' || 'a' <= c <= 'f'
  }

  predicate AllHex(s: string) {
    forall k :: 0 <= k < |s| ==> IsHex(s[k])
  }

  predicate SlugChar(c: char) {
    'a' <= c <= 'z' || '0' <= c <= '9' || c == '-'
  }

  predicate BranchChar(c: char) {
    'a' <= c <= 'z' || 'A' <= c <= 'Z' || '0' <= c <= '9' || c in "._/-"
  }

  /** Each maximal run of characters that cannot stand in a slug becomes one dash. */
  function DashRuns(s: string, inRun: bool): string {
    if s == "" then ""
    else if SlugChar(s[0]) then [s[0]] + DashRuns(s[1..], false)
    else (if inRun then "" else "-") + DashRuns(s[1..], true)
  }

  /** Each maximal run of dashes becomes one dash. */
  function SingleDashes(s: string): string {
    if |s| >= 2 && s[0] == '-' && s[1] == '-' then SingleDashes(s[1..])
    else if s == "" then ""
    else [s[0]] + SingleDashes(s[1..])
  }

  function StripDashesLeft(s: string): string {
    if s != "" && s[0] == '-' then StripDashesLeft(s[1..]) else s
  }

  function StripDashesRight(s: string): string {
    if s != "" && s[|s| - 1] == '-' then StripDashesRight(s[..|s| - 1]) else s
  }

  function DotsToDashes(s: string): string {
    if s == "" then "" else [if s[0] == '.' then '-' else s[0]] + DotsToDashes(s[1..])
  }

  function NormalizeSlug(value: string, fallback: string): string {
    var token := StripDashesRight(StripDashesLeft(SingleDashes(DashRuns(Lower(Strip(value)), false))));
    if token != "" then token else fallback
  }

  function SanitizeArtifactSlug(value: string): string {
    var token := NormalizeSlug(DotsToDashes(value), "artifact");
    if |token| > 80 then token[..80] else token
  }

  /** The one name a work branch of an effort can have. */
  function WorkBranchName(artifactSlug: string, id: EffortId): string {
    "xyn/" + SanitizeArtifactSlug(artifactSlug) + "/" + id[..12]
  }

  predicate HasDoubleDot(s: string) {
    exists k :: 0 <= k < |s| - 1 && s[k] == '.' && s[k + 1] == '.'
  }

  /** `_validate_branch_name`; None is the 400 answer. */
  function ValidBranch(value: string, isTarget: bool): Option<string> {
    var branch := Strip(value);
    if branch == "" then None
    else if !forall k :: 0 <= k < |branch| ==> BranchChar(branch[k]) then None
    else if branch[0] == '/' || branch[|branch| - 1] == '/' || HasDoubleDot(branch) then None
    else if "xyn/" <= branch && isTarget then None
    else Some(branch)
  }

  /** `_validate_commit_sha`; None is the 400 answer. */
  function ValidCommitSha(value: string): Option<string> {
    var token := Lower(Strip(value));
    if 7 <= |token| <= 40 && AllHex(token) then Some(token) else None
  }

  // ---- what the validators accept ------------------------------------------

  /** ASCII letters, digits, and four more. */
  predicate InBranchName(c: char) {
    c in {'.', '_', '/', '-'} || 48 <= c as int <= 57 || 65 <= c as int <= 90 || 97 <= c as int <= 122
  }

  predicate HexDigit(c: char) {
    48 <= c as int <= 57 || 97 <= c as int <= 102
  }

  lemma CharactersExactly(c: char)
    ensures BranchChar(c) <==> InBranchName(c)
    ensures IsHex(c) <==> HexDigit(c)
    ensures SlugChar(c) <==> c == '-' || 48 <= c as int <= 57 || 97 <= c as int <= 122
  {
  }

  /** Exactly which branch names pass, and as what. */
  lemma ValidBranchExactly(value: string, isTarget: bool, branch: string)
    ensures ValidBranch(value, isTarget) == Some(branch) <==>
            && branch == Strip(value) && branch != ""
            && (forall k :: 0 <= k < |branch| ==> InBranchName(branch[k]))
            && branch[0] != '/' && branch[|branch| - 1] != '/'
            && (forall k :: 0 <= k < |branch| - 1 ==> !(branch[k] == '.' && branch[k + 1] == '.'))
            && (isTarget ==> !("xyn/" <= branch))
  {
    hide BranchChar, InBranchName, Strip;
    forall c ensures BranchChar(c) <==> InBranchName(c) {
      CharactersExactly(c);
    }
  }

  /** A commit is 7 to 40 hexadecimal digits, in either case. */
  lemma ValidCommitShaExactly(value: string, sha: string)
    ensures ValidCommitSha(value) == Some(sha) <==>
            sha == Lower(Strip(value)) && 7 <= |sha| <= 40 && forall k :: 0 <= k < |sha| ==> HexDigit(sha[k])
  {
    forall c ensures IsHex(c) <==> HexDigit(c) {
      CharactersExactly(c);
    }
  }

  // ---- the slug is its words, joined by dashes ------------------------------

  predicate WordChar(c: char) {
    97 <= c as int <= 122 || 48 <= c as int <= 57
  }

  /** The maximal runs of lower-case letters and digits. */
  function Words(s: string): (words: seq<string>)
    ensures s != "" && WordChar(s[0]) ==> words != []
  {
    if s == "" then []
    else
      var rest := Words(s[1..]);
      if !WordChar(s[0]) then rest
      else if |s| > 1 && WordChar(s[1]) then [[s[0]] + rest[0]] + rest[1..]
      else [[s[0]]] + rest
  }

  predicate SameStart(s: string, t: string) {
    (s != "" && WordChar(s[0])) <==> (t != "" && WordChar(t[0]))
  }

  lemma WordsOfCons(c: char, s: string, t: string)
    requires Words(s) == Words(t) && (WordChar(c) ==> SameStart(s, t))
    ensures Words([c] + s) == Words([c] + t)
  {
    assert ([c] + s)[1..] == s && ([c] + t)[1..] == t;
  }

  lemma {:induction false} DashRunsWords(s: string, inRun: bool)
    ensures Words(DashRuns(s, inRun)) == Words(s)
    ensures !inRun ==> SameStart(DashRuns(s, inRun), s)
  {
    if s != "" {
      DashRunsWords(s[1..], false);
      DashRunsWords(s[1..], true);
      assert [s[0]] + s[1..] == s;
      if SlugChar(s[0]) {
        WordsOfCons(s[0], DashRuns(s[1..], false), s[1..]);
      } else {
        var rest := DashRuns(s[1..], true);
        CharactersExactly(s[0]);
        assert DashRuns(s, inRun) == if inRun then rest else ['-'] + rest;
        assert (['-'] + rest)[1..] == rest && Words(['-'] + rest) == Words(rest);
      }
    }
  }

  lemma {:induction false} SingleDashesWords(s: string)
    ensures Words(SingleDashes(s)) == Words(s) && SameStart(SingleDashes(s), s)
  {
    if s != "" {
      SingleDashesWords(s[1..]);
      assert [s[0]] + s[1..] == s;
      if !(|s| >= 2 && s[0] == '-' && s[1] == '-') {
        WordsOfCons(s[0], SingleDashes(s[1..]), s[1..]);
      }
    }
  }

  lemma {:induction false} StripDashesLeftWords(s: string)
    ensures Words(StripDashesLeft(s)) == Words(s)
  {
    if s != "" && s[0] == '-' {
      StripDashesLeftWords(s[1..]);
    }
  }

  lemma {:induction false} DashAtEnd(s: string)
    ensures Words(s + "-") == Words(s) && SameStart(s + "-", s)
  {
    if s == "" {
      assert s + "-" == "-" && Words("-") == Words("-"[1..]) == [];
    } else {
      DashAtEnd(s[1..]);
      assert s + "-" == [s[0]] + (s[1..] + "-") && s == [s[0]] + s[1..];
      WordsOfCons(s[0], s[1..] + "-", s[1..]);
    }
  }

  lemma {:induction false} StripDashesRightWords(s: string)
    ensures Words(StripDashesRight(s)) == Words(s)
  {
    if s != "" && s[|s| - 1] == '-' {
      StripDashesRightWords(s[..|s| - 1]);
      DashAtEnd(s[..|s| - 1]);
      assert s == s[..|s| - 1] + "-";
    }
  }

  predicate NoDoubleDash(s: string) {
    forall k :: 0 <= k < |s| - 1 ==> !(s[k] == '-' && s[k + 1] == '-')
  }

  lemma {:induction false} SingleDashesSingle(s: string)
    ensures NoDoubleDash(SingleDashes(s))
    ensures s != "" ==> SingleDashes(s) != "" && SingleDashes(s)[0] == s[0]
  {
    if s != "" {
      SingleDashesSingle(s[1..]);
    }
  }

  lemma {:induction false} StripDashesLeftStarts(s: string)
    ensures var r := StripDashesLeft(s); (r != "" ==> r[0] != '-') && |r| <= |s| && r == s[|s| - |r|..]
  {
    if s != "" && s[0] == '-' {
      StripDashesLeftStarts(s[1..]);
    }
  }

  lemma {:induction false} StripDashesRightEnds(s: string)
    ensures var r := StripDashesRight(s); (r != "" ==> r[|r| - 1] != '-') && |r| <= |s| && r == s[..|r|]
  {
    if s != "" && s[|s| - 1] == '-' {
      StripDashesRightEnds(s[..|s| - 1]);
    }
  }

  /** A slug without double or outer dashes is its words joined by dashes. */
  lemma {:induction false} JoinedWords(s: string)
    requires AllSlug(s) && NoDoubleDash(s) && (s != "" ==> s[0] != '-' && s[|s| - 1] != '-')
    ensures Join(Words(s), '-') == s && (Words(s) == [] <==> s == "")
  {
    if |s| == 1 {
      assert s[1..] == "" && Words(s[1..]) == [] && Words(s) == [[s[0]]] && [s[0]] == s;
    } else if s != "" && s[1] != '-' {
      var rest := s[1..];
      assert NoDoubleDash(rest) && WordChar(s[0]) && WordChar(s[1]);
      JoinedWords(rest);
      JoinHead(s[0], Words(rest));
      assert [s[0]] + rest == s;
    } else if s != "" {
      var rest := s[2..];
      assert NoDoubleDash(rest) && WordChar(s[0]) && !WordChar(s[1]) && WordChar(s[2]);
      JoinedWords(rest);
      assert s[1..][1..] == rest && Words(s[1..]) == Words(rest);
      assert Words(s) == [[s[0]]] + Words(rest);
      assert ([[s[0]]] + Words(rest))[1..] == Words(rest);
      assert s == [s[0]] + ['-'] + rest;
    }
  }

  lemma JoinHead(c: char, words: seq<string>)
    requires words != []
    ensures Join([[c] + words[0]] + words[1..], '-') == [c] + Join(words, '-')
  {
    var longer := [[c] + words[0]] + words[1..];
    if |words| > 1 {
      assert longer[1..] == words[1..];
      assert [c] + words[0] + ['-'] + Join(words[1..], '-') == [c] + (words[0] + ['-'] + Join(words[1..], '-'));
    }
  }

  /** The slug of a text: its words, in lower case, joined by dashes; or the fallback if there are none. */
  lemma NormalizeSlugExactly(value: string, fallback: string)
    ensures var words := Words(Lower(Strip(value)));
            NormalizeSlug(value, fallback) == if words == [] then fallback else Join(words, '-')
  {
    hide Strip, Lower, Words, DashRuns, SingleDashes, StripDashesLeft, StripDashesRight, Join;
    var text := Lower(Strip(value));
    var runs := DashRuns(text, false);
    var single := SingleDashes(runs);
    var left := StripDashesLeft(single);
    var token := StripDashesRight(left);
    DashRunsWords(text, false);
    SingleDashesWords(runs);
    StripDashesLeftWords(single);
    StripDashesRightWords(left);
    DashRunsClean(text, false);
    SingleDashesClean(runs);
    StripDashesLeftClean(single);
    StripDashesRightClean(left);
    SingleDashesSingle(runs);
    StripDashesLeftStarts(single);
    StripDashesRightEnds(left);
    JoinedWords(token);
  }

  /** The slug in a branch name: dots count as dashes, at most 80 characters are kept. */
  lemma SanitizedSlugExactly(value: string)
    ensures var words := Words(Lower(Strip(DotsToDashes(value))));
            var slug := if words == [] then "artifact" else Join(words, '-');
            SanitizeArtifactSlug(value) == if |slug| > 80 then slug[..80] else slug
  {
    NormalizeSlugExactly(DotsToDashes(value), "artifact");
  }

  lemma {:induction false} DotsToDashesExactly(value: string, k: nat)
    requires k < |value|
    ensures |DotsToDashes(value)| == |value| && DotsToDashes(value)[k] == if value[k] == '.' then '-' else value[k]
  {
    if |value| > 1 {
      DotsToDashesExactly(value[1..], if k > 0 then k - 1 else 0);
    }
  }

  // ---- the computed name is always a good one --------------------------------

  predicate AllSlug(s: string) {
    forall k :: 0 <= k < |s| ==> SlugChar(s[k])
  }

  lemma {:induction false} DashRunsClean(s: string, inRun: bool)
    ensures AllSlug(DashRuns(s, inRun))
  {
    if s != "" {
      DashRunsClean(s[1..], false);
      DashRunsClean(s[1..], true);
    }
  }

  lemma {:induction false} SingleDashesClean(s: string)
    requires AllSlug(s)
    ensures AllSlug(SingleDashes(s))
  {
    if s != "" {
      SingleDashesClean(s[1..]);
    }
  }

  lemma {:induction false} StripDashesLeftClean(s: string)
    requires AllSlug(s)
    ensures AllSlug(StripDashesLeft(s))
  {
    if s != "" && s[0] == '-' {
      StripDashesLeftClean(s[1..]);
    }
  }

  lemma {:induction false} StripDashesRightClean(s: string)
    requires AllSlug(s)
    ensures AllSlug(StripDashesRight(s))
  {
    if s != "" && s[|s| - 1] == '-' {
      StripDashesRightClean(s[..|s| - 1]);
    }
  }

  lemma SanitizedSlugClean(value: string)
    ensures AllSlug(SanitizeArtifactSlug(value)) && 0 < |SanitizeArtifactSlug(value)| <= 80
  {
    var runs := DashRuns(Lower(Strip(DotsToDashes(value))), false);
    DashRunsClean(Lower(Strip(DotsToDashes(value))), false);
    SingleDashesClean(runs);
    StripDashesLeftClean(SingleDashes(runs));
    StripDashesRightClean(StripDashesLeft(SingleDashes(runs)));
  }

  /** A slug as the sanitiser wants it: allowed characters, single dashes, none at the ends, 1 to 80 characters. */
  predicate CleanSlug(s: string) {
    && 0 < |s| <= 80 && AllSlug(s) && s[0] != '-' && s[|s| - 1] != '-'
    && forall k :: 0 <= k < |s| - 1 ==> !(s[k] == '-' && s[k + 1] == '-')
  }

  lemma {:induction false} NothingToDash(s: string)
    requires AllSlug(s)
    ensures DashRuns(s, false) == s && DotsToDashes(s) == s
  {
    if s != "" {
      NothingToDash(s[1..]);
      assert [s[0]] + s[1..] == s;
    }
  }

  lemma {:induction false} NothingDoubled(s: string)
    requires forall k :: 0 <= k < |s| - 1 ==> !(s[k] == '-' && s[k + 1] == '-')
    ensures SingleDashes(s) == s
  {
    if s != "" {
      assert forall k :: 0 <= k < |s[1..]| ==> s[1..][k] == s[k + 1];
      NothingDoubled(s[1..]);
      assert [s[0]] + s[1..] == s;
    }
  }

  /** Clean slugs are left alone. */
  lemma CleanSlugStays(s: string)
    requires CleanSlug(s)
    ensures SanitizeArtifactSlug(s) == s
  {
    hide DashRuns, SingleDashes, DotsToDashes, Strip, Lower;
    NothingToDash(s);
    NothingDoubled(s);
    NothingToTrim(s);
  }

  lemma NothingToTrim(s: string)
    requires CleanSlug(s)
    ensures Lower(s) == s && Strip(s) == s && StripDashesRight(StripDashesLeft(s)) == s
  {
    hide Strip;
    StripTrims(s);
  }

  /** For any slug and id the work branch passes the branch validator unchanged, is never blank,
      and lies in the name space no target branch may use. */
  lemma WorkBranchIsValid(artifactSlug: string, id: EffortId)
    ensures ValidBranch(WorkBranchName(artifactSlug, id), false) == Some(WorkBranchName(artifactSlug, id))
    ensures ValidBranch(WorkBranchName(artifactSlug, id), true) == None
    ensures Strip(WorkBranchName(artifactSlug, id)) == WorkBranchName(artifactSlug, id) != ""
    ensures WorkBranchName(artifactSlug, id) == "xyn/" + SanitizeArtifactSlug(artifactSlug) + "/" + id[..12]
  {
    SanitizedSlugClean(artifactSlug);
    var name := WorkBranchName(artifactSlug, id);
    StripTrims(name);
    assert name[0] == 'x' && IsHex(name[|name| - 1]);
    assert "xyn/" == name[..4];
    forall k | 0 <= k < |name| ensures BranchChar(name[k]) && name[k] != '.' {
      var slug := SanitizeArtifactSlug(artifactSlug);
      assert name[k] == if k < 4 then "xyn/"[k] else if k < 4 + |slug| then slug[k - 4]
                        else if k == 4 + |slug| then '/' else id[k - 5 - |slug|];
    }
  }

  lemma ValidTargetOutsideWorkBranches(value: string, target: string)
    requires ValidBranch(value, true) == Some(target)
    ensures target != "" && !("xyn/" <= target)
  {
  }
}
