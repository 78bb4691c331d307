/** Artifact provenance: core/artifact_provenance.py. */
module Provenance {
  import opened Wrappers
  import opened Text
  import BranchNames

  /** The keys the module knows by name, and all others. */
  datatype Key =
    | ProvenanceKey | SourceKey | BuildKey
    | Kind | RepoUrl | RepoKey | CommitSha | BranchHint | MonorepoSubpath | ManifestRef
    | PipelineProvider | RunId | ImageRef | ImageDigest | BuiltFromCommitSha
    | SourceRefId | RepoPath | PipelineRunId
    | Named(name: string)

  /** A JSON value. Numbers, booleans and lists only matter through their truth value. */
  datatype Value = Null | Text(text: string) | Object(entries: Dict) | Plain(truthy: bool, image: string)

  type Dict = map<Key, Value>

  function Get(d: Dict, k: Key): Option<Value> {
    if k in d then Some(d[k]) else None
  }

  /** `_as_dict` of a looked-up value. */
  function AsDict(v: Option<Value>): Dict {
    if v.Some? && v.value.Object? then v.value.entries else map[]
  }

  /** `_non_empty` of a looked-up value; `str` renders values that are not text. */
  function NonEmpty(v: Option<Value>, str: Value -> string): string {
    if v.None? then ""
    else match v.value
      case Null => ""
      case Text(text) => Strip(text)
      case Object(entries) => if entries == map[] then "" else Strip(str(v.value))
      case Plain(truthy, _) => if truthy then Strip(str(v.value)) else ""
  }

  function Field(d: Dict, k: Key, str: Value -> string): string {
    NonEmpty(Get(d, k), str)
  }

  function NormalizeKind(t: string): string {
    if Lower(t) == "git" then "git" else ""
  }

  function NormalizeCommitSha(t: string): string {
    var raw := Lower(t);
    if 7 <= |raw| <= 40 && BranchNames.AllHex(raw) then raw else ""
  }

  function NormalizeImageDigest(t: string): string {
    var raw := Lower(t);
    if |raw| == 71 && raw[..7] == "sha256:" && BranchNames.AllHex(raw[7..]) then raw else ""
  }

  // ---- what normalisation means --------------------------------------------

  datatype Side = Source | Build

  function SideKey(side: Side): Key {
    if side.Source? then SourceKey else BuildKey
  }

  const SOURCE_FIELDS := [Kind, RepoUrl, RepoKey, CommitSha, BranchHint, MonorepoSubpath, ManifestRef]
  const GIT_FIELDS := [RepoUrl, RepoKey, CommitSha, BranchHint, MonorepoSubpath]
  const BUILD_FIELDS := [PipelineProvider, RunId, ImageRef, ImageDigest, BuiltFromCommitSha]

  function Fields(side: Side): seq<Key> {
    if side.Source? then SOURCE_FIELDS else BUILD_FIELDS
  }

  /** The form in which the text of a field is kept; empty if it is not kept. */
  function Clean(k: Key, t: string): string {
    if k == Kind then NormalizeKind(t)
    else if k == CommitSha || k == BuiltFromCommitSha then NormalizeCommitSha(t)
    else if k == ImageDigest then NormalizeImageDigest(t)
    else t
  }

  function Cleaned(fields: seq<Key>, d: Dict, str: Value -> string): Dict {
    map k | k in fields && Clean(k, Field(d, k, str)) != "" :: Text(Clean(k, Field(d, k, str)))
  }

  function WithKind(d: Dict): Dict {
    if Kind !in d && exists k :: k in GIT_FIELDS && k in d then d[Kind := Text("git")] else d
  }

  function CleanSide(side: Side, d: Dict, str: Value -> string): Dict {
    var cleaned := Cleaned(Fields(side), d, str);
    if side.Source? then WithKind(cleaned) else cleaned
  }

  function Pack(source: Dict, build: Dict): Dict {
    (if source != map[] then map[SourceKey := Object(source)] else map[])
    + (if build != map[] then map[BuildKey := Object(build)] else map[])
  }

  function Part(payload: Dict, side: Side): Dict {
    AsDict(Get(payload, SideKey(side)))
  }

  function Normalized(value: Option<Value>, str: Value -> string): Dict {
    var payload := AsDict(value);
    Pack(CleanSide(Source, Part(payload, Source), str), CleanSide(Build, Part(payload, Build), str))
  }

  // ---- the legacy keys -----------------------------------------------------

  datatype Rename = Rename(legacy: Key, target: Key)

  const SOURCE_RENAMES := [Rename(RepoUrl, RepoUrl), Rename(RepoKey, RepoKey), Rename(CommitSha, CommitSha),
                           Rename(BranchHint, BranchHint), Rename(ManifestRef, ManifestRef),
                           Rename(SourceRefId, RepoKey), Rename(RepoPath, MonorepoSubpath)]
  const BUILD_RENAMES := [Rename(PipelineProvider, PipelineProvider), Rename(PipelineRunId, RunId), Rename(RunId, RunId),
                          Rename(ImageRef, ImageRef), Rename(ImageDigest, ImageDigest),
                          Rename(BuiltFromCommitSha, BuiltFromCommitSha)]

  function Renames(side: Side): seq<Rename> {
    if side.Source? then SOURCE_RENAMES else BUILD_RENAMES
  }

  function FillOne(d: Dict, rename: Rename, meta: Dict, str: Value -> string): Dict {
    var raw := Field(meta, rename.legacy, str);
    if raw != "" && Field(d, rename.target, str) == "" then d[rename.target := Text(raw)] else d
  }

  function Fill(d: Dict, renames: seq<Rename>, meta: Dict, str: Value -> string): Dict
    decreases |renames|
  {
    if renames == [] then d else Fill(FillOne(d, renames[0], meta, str), renames[1..], meta, str)
  }

  /** The first legacy key for a field that holds something. */
  function Legacy(k: Key, renames: seq<Rename>, meta: Dict, str: Value -> string): string {
    if renames == [] then ""
    else if renames[0].target == k && Field(meta, renames[0].legacy, str) != "" then Field(meta, renames[0].legacy, str)
    else Legacy(k, renames[1..], meta, str)
  }

  /** The explicit block of one side, overridden by the top-level block. */
  function Given(side: Side, meta: Dict): Dict {
    Part(AsDict(Get(meta, ProvenanceKey)), side) + Part(meta, side)
  }

  function Step(side: Side, d: Dict, meta: Dict, str: Value -> string): Dict {
    CleanSide(side, Fill(d, Renames(side), meta, str), str)
  }

  function ExtractedSide(side: Side, meta: Dict, str: Value -> string): Dict {
    Step(side, Given(side, meta), meta, str)
  }

  function Extracted(meta: Dict, str: Value -> string): Dict {
    Pack(ExtractedSide(Source, meta, str), ExtractedSide(Build, meta, str))
  }

  /** Metadata with normalised provenance written back. */
  function Store(meta: Dict, normalized: Dict): Dict {
    if normalized == map[] then meta
    else
      var stored := meta[ProvenanceKey := Object(normalized)];
      var sourced := if SourceKey in normalized then stored[SourceKey := normalized[SourceKey]] else stored;
      if BuildKey in normalized then sourced[BuildKey := normalized[BuildKey]] else sourced
  }

  function MergedSide(side: Side, meta: Dict, provenance: Option<Value>, str: Value -> string): Dict {
    CleanSide(side, Part(Extracted(meta, str), side) + Part(Normalized(provenance, str), side), str)
  }

  function Merged(meta: Dict, provenance: Option<Value>, str: Value -> string): Dict {
    Store(meta, Pack(MergedSide(Source, meta, provenance, str), MergedSide(Build, meta, provenance, str)))
  }

  /** Merging with no incoming block. */
  function Again(meta: Dict, str: Value -> string): Dict {
    Merged(meta, None, str)
  }

  // ---- the operations ------------------------------------------------------

  function Put(d: Dict, k: Key, text: string): Dict {
    if text == "" then d else d[k := Text(text)]
  }

  /** `out` holds the first n fields. */
  ghost predicate Holds(out: Dict, fields: seq<Key>, n: nat, d: Dict, str: Value -> string) {
    n <= |fields| && out == Cleaned(fields[..n], d, str)
  }

  lemma PutField(out: Dict, fields: seq<Key>, n: nat, d: Dict, str: Value -> string)
    requires n < |fields| && Holds(out, fields, n, d, str)
    ensures Holds(Put(out, fields[n], Clean(fields[n], Field(d, fields[n], str))), fields, n + 1, d, str)
  {
    assert fields[..n + 1] == fields[..n] + [fields[n]];
  }

  lemma HoldsAll(out: Dict, fields: seq<Key>, d: Dict, str: Value -> string)
    ensures Holds(map[], fields, 0, d, str)
    ensures Holds(out, fields, |fields|, d, str) ==> out == Cleaned(fields, d, str)
  {
    assert fields[..|fields|] == fields;
  }

  method NormalizeProvenancePayload(value: Option<Value>, str: Value -> string) returns (out: Dict)
    ensures out == Normalized(value, str)
  {
    hide Cleaned, NormalizeCommitSha, NormalizeImageDigest, NonEmpty, Field, Put, NormalizeKind;
    var payload := AsDict(value);
    var source, build := AsDict(Get(payload, SourceKey)), AsDict(Get(payload, BuildKey));
    var outSource := NormalizeSourceFields(source, str);
    var outBuild := NormalizeBuildFields(build, str);
    out := map[];
    if outSource != map[] {
      if Kind !in outSource && exists k :: k in GIT_FIELDS && k in outSource {
        outSource := outSource[Kind := Text("git")];
      }
      out := out[SourceKey := Object(outSource)];
    }
    if outBuild != map[] {
      out := out[BuildKey := Object(outBuild)];
    }
  }

  method NormalizeSourceFields(source: Dict, str: Value -> string) returns (out: Dict)
    ensures out == Cleaned(SOURCE_FIELDS, source, str)
  {
    hide Holds, Cleaned, NormalizeCommitSha, NormalizeImageDigest, NonEmpty, Field, Put, NormalizeKind;
    out := map[];
    HoldsAll(out, SOURCE_FIELDS, source, str);
    PutField(out, SOURCE_FIELDS, 0, source, str);
    out := Put(out, Kind, NormalizeKind(Field(source, Kind, str)));
    PutField(out, SOURCE_FIELDS, 1, source, str);
    out := Put(out, RepoUrl, Field(source, RepoUrl, str));
    PutField(out, SOURCE_FIELDS, 2, source, str);
    out := Put(out, RepoKey, Field(source, RepoKey, str));
    PutField(out, SOURCE_FIELDS, 3, source, str);
    out := Put(out, CommitSha, NormalizeCommitSha(Field(source, CommitSha, str)));
    PutField(out, SOURCE_FIELDS, 4, source, str);
    out := Put(out, BranchHint, Field(source, BranchHint, str));
    PutField(out, SOURCE_FIELDS, 5, source, str);
    out := Put(out, MonorepoSubpath, Field(source, MonorepoSubpath, str));
    PutField(out, SOURCE_FIELDS, 6, source, str);
    out := Put(out, ManifestRef, Field(source, ManifestRef, str));
    HoldsAll(out, SOURCE_FIELDS, source, str);
  }

  method NormalizeBuildFields(build: Dict, str: Value -> string) returns (out: Dict)
    ensures out == Cleaned(BUILD_FIELDS, build, str)
  {
    hide Holds, Cleaned, NormalizeCommitSha, NormalizeImageDigest, NonEmpty, Field, Put, NormalizeKind;
    out := map[];
    HoldsAll(out, BUILD_FIELDS, build, str);
    PutField(out, BUILD_FIELDS, 0, build, str);
    out := Put(out, PipelineProvider, Field(build, PipelineProvider, str));
    PutField(out, BUILD_FIELDS, 1, build, str);
    out := Put(out, RunId, Field(build, RunId, str));
    PutField(out, BUILD_FIELDS, 2, build, str);
    out := Put(out, ImageRef, Field(build, ImageRef, str));
    PutField(out, BUILD_FIELDS, 3, build, str);
    out := Put(out, ImageDigest, NormalizeImageDigest(Field(build, ImageDigest, str)));
    PutField(out, BUILD_FIELDS, 4, build, str);
    out := Put(out, BuiltFromCommitSha, NormalizeCommitSha(Field(build, BuiltFromCommitSha, str)));
    HoldsAll(out, BUILD_FIELDS, build, str);
  }

  datatype Problem = KindNotGit | BadCommitSha | BadBuiltFromCommitSha | BadImageDigest

  /** The field a problem is about. */
  function About(p: Problem): (Side, Key) {
    match p
    case KindNotGit => (Source, Kind)
    case BadCommitSha => (Source, CommitSha)
    case BadBuiltFromCommitSha => (Build, BuiltFromCommitSha)
    case BadImageDigest => (Build, ImageDigest)
  }

  function Checked(value: Option<Value>, p: Problem, str: Value -> string): string {
    Field(Part(AsDict(value), About(p).0), About(p).1, str)
  }

  /** Something is there and it is not usable. */
  predicate Faulty(value: Option<Value>, p: Problem, str: Value -> string) {
    Checked(value, p, str) != "" && Clean(About(p).1, Checked(value, p, str)) == ""
  }

  method ValidateProvenancePayload(value: Option<Value>, str: Value -> string) returns (errors: seq<Problem>)
    ensures forall p :: p in errors <==> Faulty(value, p, str)
  {
    hide NormalizeCommitSha, NormalizeImageDigest, Field;
    var payload := AsDict(value);
    var source, build := AsDict(Get(payload, SourceKey)), AsDict(Get(payload, BuildKey));
    errors := [];
    var kind := Lower(Field(source, Kind, str));
    if kind != "" && kind != "git" {
      errors := errors + [KindNotGit];
    }
    assert forall p :: p in errors <==> p == KindNotGit && Faulty(value, p, str);
    var raw := Field(source, CommitSha, str);
    if raw != "" && NormalizeCommitSha(raw) == "" {
      errors := errors + [BadCommitSha];
    }
    assert forall p :: p in errors <==> (p == KindNotGit || p == BadCommitSha) && Faulty(value, p, str);
    var builtFrom := Field(build, BuiltFromCommitSha, str);
    if builtFrom != "" && NormalizeCommitSha(builtFrom) == "" {
      errors := errors + [BadBuiltFromCommitSha];
    }
    assert forall p :: p in errors <==> p != BadImageDigest && Faulty(value, p, str);
    var digest := Field(build, ImageDigest, str);
    if digest != "" && NormalizeImageDigest(digest) == "" {
      errors := errors + [BadImageDigest];
    }
  }

  method FillLegacy(d: Dict, renames: seq<Rename>, meta: Dict, str: Value -> string) returns (filled: Dict)
    ensures filled == Fill(d, renames, meta, str)
  {
    filled := d;
    var i := 0;
    while i < |renames|
      invariant i <= |renames|
      invariant Fill(filled, renames[i..], meta, str) == Fill(d, renames, meta, str)
    {
      var raw := Field(meta, renames[i].legacy, str);
      assert renames[i..][1..] == renames[i + 1..];
      if raw != "" && Field(filled, renames[i].target, str) == "" {
        filled := filled[renames[i].target := Text(raw)];
      }
      i := i + 1;
    }
  }

  function Both(source: Dict, build: Dict): Option<Value> {
    Some(Object(map[SourceKey := Object(source), BuildKey := Object(build)]))
  }

  lemma BothParts(source: Dict, build: Dict)
    ensures Part(AsDict(Both(source, build)), Source) == source && Part(AsDict(Both(source, build)), Build) == build
  {
  }

  method ExtractProvenanceMetadata(meta: Dict, str: Value -> string) returns (out: Dict)
    ensures out == Extracted(meta, str)
  {
    hide Normalized, CleanSide, Fill;
    var explicit := AsDict(Get(meta, ProvenanceKey));
    var source := AsDict(Get(explicit, SourceKey)) + AsDict(Get(meta, SourceKey));
    var build := AsDict(Get(explicit, BuildKey)) + AsDict(Get(meta, BuildKey));
    source := FillLegacy(source, SOURCE_RENAMES, meta, str);
    build := FillLegacy(build, BUILD_RENAMES, meta, str);
    var payload := Both(source, build);
    out := NormalizeProvenancePayload(payload, str);
    NormalizedParts(payload, str);
    BothParts(source, build);
  }

  method MergeProvenanceMetadata(metadata: Dict, provenance: Option<Value>, str: Value -> string) returns (merged: Dict)
    ensures merged == Merged(metadata, provenance, str)
  {
    hide Normalized, Extracted, CleanSide, Both;
    merged := metadata;
    var extracted := ExtractProvenanceMetadata(merged, str);
    var incoming := NormalizeProvenancePayload(provenance, str);
    var source := AsDict(Get(extracted, SourceKey)) + AsDict(Get(incoming, SourceKey));
    var build := AsDict(Get(extracted, BuildKey)) + AsDict(Get(incoming, BuildKey));
    var payload := Both(source, build);
    var normalized := NormalizeProvenancePayload(payload, str);
    NormalizedParts(payload, str);
    BothParts(source, build);
    if normalized == map[] {
      return;
    }
    merged := merged[ProvenanceKey := Object(normalized)];
    if SourceKey in normalized {
      merged := merged[SourceKey := normalized[SourceKey]];
    }
    if BuildKey in normalized {
      merged := merged[BuildKey := normalized[BuildKey]];
    }
  }

  lemma NormalizedParts(value: Option<Value>, str: Value -> string)
    ensures Normalized(value, str)
         == Pack(CleanSide(Source, Part(AsDict(value), Source), str), CleanSide(Build, Part(AsDict(value), Build), str))
  {
  }

  lemma PackParts(source: Dict, build: Dict)
    ensures Part(Pack(source, build), Source) == source && Part(Pack(source, build), Build) == build
  {
  }

  // ---- normalisation -------------------------------------------------------

  lemma NonEmptyTrims(v: Option<Value>, str: Value -> string)
    ensures Trimmed(NonEmpty(v, str))
    ensures forall t :: Trimmed(t) ==> NonEmpty(Some(Text(t)), str) == t
  {
    if v.Some? {
      match v.value
      case Text(text) => StripTrims(text);
      case _ => StripTrims(str(v.value));
    }
    forall t | Trimmed(t) ensures NonEmpty(Some(Text(t)), str) == t {
      StripTrims(t);
    }
  }

  lemma CommitShaTwice(t: string)
    requires Trimmed(t)
    ensures var r := NormalizeCommitSha(t);
            Trimmed(r) && NormalizeCommitSha(r) == r
  {
    LowerTrims(t);
  }

  lemma ImageDigestTwice(t: string)
    requires Trimmed(t)
    ensures var r := NormalizeImageDigest(t);
            Trimmed(r) && NormalizeImageDigest(r) == r
  {
    LowerTrims(t);
  }

  lemma CleanTwice(k: Key, t: string)
    requires Trimmed(t)
    ensures Trimmed(Clean(k, t)) && Clean(k, Clean(k, t)) == Clean(k, t)
  {
    hide NormalizeCommitSha, NormalizeImageDigest;
    CommitShaTwice(t);
    ImageDigestTwice(t);
    GitIsClean(_ => "");
  }

  /** What a field of a normalised side holds. */
  lemma CleanField(side: Side, d: Dict, k: Key, str: Value -> string)
    requires k in Fields(side)
    ensures k != Kind ==> Field(CleanSide(side, d, str), k, str) == Clean(k, Field(d, k, str))
    ensures Clean(k, Field(CleanSide(side, d, str), k, str)) == Field(CleanSide(side, d, str), k, str)
    ensures k in CleanSide(side, d, str) <==> Field(CleanSide(side, d, str), k, str) != ""
  {
    hide NormalizeCommitSha, NormalizeImageDigest, NonEmpty, Clean;
    NonEmptyTrims(Get(d, k), str);
    CleanTwice(k, Field(d, k, str));
    NonEmptyTrims(None, str);
    GitIsClean(str);
  }

  lemma GitIsClean(str: Value -> string)
    ensures Trimmed("git") && NonEmpty(Some(Text("git")), str) == "git" && Clean(Kind, "git") == "git"
    ensures NonEmpty(None, str) == "" && forall k :: Clean(k, "") == ""
  {
    hide IsSpace, NormalizeCommitSha, NormalizeImageDigest, NormalizeKind;
    GitWord();
    StripTrims("git");
    BlankWord();
  }

  lemma GitWord()
    ensures Trimmed("git") && NormalizeKind("git") == "git"
  {
    forall i | 0 <= i < 3 ensures Lower("git")[i] == "git"[i] {
    }
  }

  lemma BlankWord()
    ensures NormalizeKind("") == "" && NormalizeCommitSha("") == "" && NormalizeImageDigest("") == ""
  {
    assert Lower("") == "";
  }

  /** A normalised side is its own normal form. */
  lemma CleanSideTwice(side: Side, d: Dict, str: Value -> string)
    ensures CleanSide(side, CleanSide(side, d, str), str) == CleanSide(side, d, str)
  {
    hide CleanSide;
    var c := CleanSide(side, d, str);
    forall k | k in Fields(side) ensures Clean(k, Field(c, k, str)) == Field(c, k, str) && (k in c <==> Field(c, k, str) != "") {
      CleanField(side, d, k, str);
    }
    OwnNormalForm(side, d, str);
  }

  lemma OwnNormalForm(side: Side, d: Dict, str: Value -> string)
    requires var c := CleanSide(side, d, str);
             forall k :: k in Fields(side) ==>
               Clean(k, Field(c, k, str)) == Field(c, k, str) && (k in c <==> Field(c, k, str) != "")
    ensures CleanSide(side, CleanSide(side, d, str), str) == CleanSide(side, d, str)
  {
    hide Clean, Field, NonEmpty;
    var c := CleanSide(side, d, str);
    TextOnly(side, d, str);
    assert Cleaned(Fields(side), c, str) == c;
  }

  /** A normalised side holds non-blank trimmed text under its own fields only. */
  lemma TextOnly(side: Side, d: Dict, str: Value -> string)
    ensures forall k :: k in CleanSide(side, d, str) ==>
              k in Fields(side) && CleanSide(side, d, str)[k] == Text(Field(CleanSide(side, d, str), k, str))
  {
    hide Clean;
    var c := CleanSide(side, d, str);
    forall k | k in c ensures k in Fields(side) && c[k] == Text(Field(c, k, str)) {
      NonEmptyTrims(Get(d, k), str);
      CleanTwice(k, Field(d, k, str));
      GitIsClean(str);
      NonEmptyTrims(None, str);
    }
  }

  /** Normalising twice is normalising once. */
  lemma NormalizeIdempotent(value: Option<Value>, str: Value -> string)
    ensures Normalized(Some(Object(Normalized(value, str))), str) == Normalized(value, str)
  {
    hide CleanSide;
    var payload := AsDict(value);
    var source, build := CleanSide(Source, Part(payload, Source), str), CleanSide(Build, Part(payload, Build), str);
    PackParts(source, build);
    CleanSideTwice(Source, Part(payload, Source), str);
    CleanSideTwice(Build, Part(payload, Build), str);
  }

  lemma PartOfNormalized(value: Option<Value>, side: Side, str: Value -> string)
    ensures Part(Normalized(value, str), side) == CleanSide(side, Part(AsDict(value), side), str)
  {
    hide CleanSide;
    PackParts(CleanSide(Source, Part(AsDict(value), Source), str), CleanSide(Build, Part(AsDict(value), Build), str));
  }

  /** What was normalised is always valid. */
  lemma NormalizedIsValid(value: Option<Value>, p: Problem, str: Value -> string)
    ensures !Faulty(Some(Object(Normalized(value, str))), p, str)
  {
    hide CleanSide, Clean, Normalized, Field;
    var side, k := About(p).0, About(p).1;
    PartOfNormalized(value, side, str);
    AboutFields(p);
    CleanField(side, Part(AsDict(value), side), k, str);
  }

  lemma AboutFields(p: Problem)
    ensures About(p).1 in Fields(About(p).0)
  {
  }

  /** A field other than the kind is faulted exactly when it is filled in and normalisation drops it. */
  lemma FaultyExactly(value: Option<Value>, p: Problem, str: Value -> string)
    requires p != KindNotGit
    ensures Faulty(value, p, str) <==>
            Checked(value, p, str) != "" && About(p).1 !in Part(Normalized(value, str), About(p).0)
  {
    hide CleanSide, Clean, Normalized, Field;
    var side, k := About(p).0, About(p).1;
    PartOfNormalized(value, side, str);
    AboutFields(p);
    CleanField(side, Part(AsDict(value), side), k, str);
  }

  // ---- the legacy keys -----------------------------------------------------

  lemma FillOneField(d: Dict, rename: Rename, meta: Dict, k: Key, str: Value -> string)
    ensures Field(FillOne(d, rename, meta, str), k, str)
         == (if Field(d, k, str) == "" && rename.target == k then Field(meta, rename.legacy, str) else Field(d, k, str))
  {
    NonEmptyTrims(Get(meta, rename.legacy), str);
  }

  /** A field that is blank gets the first legacy value there is; the others stay. */
  lemma {:induction false} FillField(d: Dict, renames: seq<Rename>, meta: Dict, k: Key, str: Value -> string)
    ensures Field(Fill(d, renames, meta, str), k, str)
         == (if Field(d, k, str) == "" then Legacy(k, renames, meta, str) else Field(d, k, str))
    decreases |renames|
  {
    hide Field, FillOne;
    if renames != [] {
      FillOneField(d, renames[0], meta, k, str);
      FillField(FillOne(d, renames[0], meta, str), renames[1..], meta, k, str);
    }
  }

  /** What a field holds after one extraction. */
  function Kept(side: Side, d: Dict, meta: Dict, k: Key, str: Value -> string): string {
    var given := Field(d, k, str);
    Clean(k, if given == "" then Legacy(k, Renames(side), meta, str) else given)
  }

  lemma StepField(side: Side, d: Dict, meta: Dict, k: Key, str: Value -> string)
    requires k in Fields(side)
    ensures k != Kind ==> Field(Step(side, d, meta, str), k, str) == Kept(side, d, meta, k, str)
    ensures Clean(k, Field(Step(side, d, meta, str), k, str)) == Field(Step(side, d, meta, str), k, str)
    ensures k in Step(side, d, meta, str) <==> Field(Step(side, d, meta, str), k, str) != ""
  {
    hide Clean, Field, CleanSide;
    FillField(d, Renames(side), meta, k, str);
    CleanField(side, Fill(d, Renames(side), meta, str), k, str);
  }

  lemma NoLegacyKind(side: Side, meta: Dict, str: Value -> string)
    ensures Legacy(Kind, Renames(side), meta, str) == ""
  {
    hide Legacy, Field;
    var renames := Renames(side);
    forall i | 0 <= i < |renames| ensures renames[i].target != Kind {
    }
    NoTarget(Kind, renames, meta, str);
  }

  lemma {:induction false} NoTarget(k: Key, renames: seq<Rename>, meta: Dict, str: Value -> string)
    requires forall r :: r in renames ==> r.target != k
    ensures Legacy(k, renames, meta, str) == ""
  {
    if renames != [] {
      assert renames[0] in renames;
      NoTarget(k, renames[1..], meta, str);
    }
  }

  /** After one step a filled field stays as it is, and the legacy value of a blank one was tried and dropped. */
  lemma KeptTwice(side: Side, d: Dict, meta: Dict, k: Key, str: Value -> string)
    requires k in Fields(side) && k != Kind
    ensures Kept(side, Step(side, d, meta, str), meta, k, str)
         == (var first := Kept(side, d, meta, k, str);
             if first == "" then Clean(k, Legacy(k, Renames(side), meta, str)) else first)
  {
    hide Clean, Field, Step;
    StepField(side, d, meta, k, str);
  }

  ghost predicate KeepsGit(d: Dict, meta: Dict, str: Value -> string) {
    exists k :: k in GIT_FIELDS && Kept(Source, d, meta, k, str) != ""
  }

  /** The kind is "git" as soon as a repository field is kept. */
  lemma StepKind(d: Dict, meta: Dict, str: Value -> string)
    ensures Field(Step(Source, d, meta, str), Kind, str)
         == (if KeepsGit(d, meta, str) then "git" else Kept(Source, d, meta, Kind, str))
  {
    hide Field, NonEmpty, NormalizeCommitSha, NormalizeImageDigest;
    var filled := Fill(d, Renames(Source), meta, str);
    forall k | k in SOURCE_FIELDS
      ensures Clean(k, Field(filled, k, str)) == Kept(Source, d, meta, k, str)
    {
      FillField(d, Renames(Source), meta, k, str);
    }
    CleanKind(filled, str);
    assert forall k :: k in GIT_FIELDS ==> k in SOURCE_FIELDS;
  }

  lemma CleanKind(d: Dict, str: Value -> string)
    ensures Field(CleanSide(Source, d, str), Kind, str)
         == (if exists k :: k in GIT_FIELDS && Clean(k, Field(d, k, str)) != "" then "git" else Clean(Kind, Field(d, Kind, str)))
  {
    hide NormalizeCommitSha, NormalizeImageDigest;
    GitIsClean(str);
    var cleaned := Cleaned(SOURCE_FIELDS, d, str);
    forall k | k in GIT_FIELDS ensures k in cleaned <==> Clean(k, Field(d, k, str)) != "" {
    }
  }

  /** Two normalised sides with the same fields are the same. */
  lemma SameFields(side: Side, d: Dict, e: Dict, meta: Dict, str: Value -> string)
    requires forall k :: k in Fields(side) ==>
               Field(Step(side, d, meta, str), k, str) == Field(Step(side, e, meta, str), k, str)
    ensures Step(side, d, meta, str) == Step(side, e, meta, str)
  {
    hide Field, Clean, Step, Fields;
    var x, y := Step(side, d, meta, str), Step(side, e, meta, str);
    StepText(side, d, meta, str);
    StepText(side, e, meta, str);
    forall k ensures (k in x <==> k in y) && (k in x ==> x[k] == y[k]) {
      if k in Fields(side) {
        StepField(side, d, meta, k, str);
        StepField(side, e, meta, k, str);
      }
    }
  }

  lemma StepText(side: Side, d: Dict, meta: Dict, str: Value -> string)
    ensures forall k :: k in Step(side, d, meta, str) ==>
              k in Fields(side) && Step(side, d, meta, str)[k] == Text(Field(Step(side, d, meta, str), k, str))
  {
    hide CleanSide, Field, Fill;
    TextOnly(side, Fill(d, Renames(side), meta, str), str);
  }

  lemma StepSame(side: Side, d: Dict, e: Dict, meta: Dict, str: Value -> string)
    requires forall k :: k in Fields(side) && k != Kind ==> Kept(side, d, meta, k, str) == Kept(side, e, meta, k, str)
    requires KeepsGit(d, meta, str) || Kept(side, d, meta, Kind, str) == Kept(side, e, meta, Kind, str) || side.Build?
    ensures Step(side, d, meta, str) == Step(side, e, meta, str)
  {
    hide Field, Clean, Step, Kept;
    forall k | k in Fields(side)
      ensures Field(Step(side, d, meta, str), k, str) == Field(Step(side, e, meta, str), k, str)
    {
      StepField(side, d, meta, k, str);
      StepField(side, e, meta, k, str);
      if k == Kind {
        assert side == Source;
        StepKind(d, meta, str);
        StepKind(e, meta, str);
        assert forall g :: g in GIT_FIELDS ==> g in SOURCE_FIELDS && g != Kind;
      }
    }
    SameFields(side, d, e, meta, str);
  }

  lemma KindStays(d: Dict, meta: Dict, str: Value -> string)
    ensures Kept(Source, Step(Source, d, meta, str), meta, Kind, str) == Field(Step(Source, d, meta, str), Kind, str)
  {
    hide Field, Clean, Step;
    NoLegacyKind(Source, meta, str);
    StepField(Source, d, meta, Kind, str);
  }

  /** From the second step on nothing changes. */
  lemma ThirdStep(side: Side, d: Dict, meta: Dict, str: Value -> string)
    ensures var second := Step(side, Step(side, d, meta, str), meta, str);
            Step(side, second, meta, str) == second
  {
    hide Field, Clean, Step, Kept;
    var first := Step(side, d, meta, str);
    var second := Step(side, first, meta, str);
    forall k | k in Fields(side) && k != Kind ensures Kept(side, second, meta, k, str) == Kept(side, first, meta, k, str) {
      KeptTwice(side, d, meta, k, str);
      KeptTwice(side, first, meta, k, str);
    }
    if side == Source {
      KindStays(first, meta, str);
      StepKind(first, meta, str);
      SameGit(second, first, meta, str);
    }
    StepSame(side, second, first, meta, str);
  }

  lemma SameGit(d: Dict, e: Dict, meta: Dict, str: Value -> string)
    requires forall k :: k in SOURCE_FIELDS && k != Kind ==> Kept(Source, d, meta, k, str) == Kept(Source, e, meta, k, str)
    ensures KeepsGit(d, meta, str) <==> KeepsGit(e, meta, str)
  {
    hide Kept;
    assert forall g :: g in GIT_FIELDS ==> g in SOURCE_FIELDS && g != Kind;
  }

  /** A side that is not empty after a step is not empty after the next one. */
  lemma NonEmptyStays(side: Side, d: Dict, meta: Dict, str: Value -> string)
    requires Step(side, d, meta, str) != map[]
    ensures Step(side, Step(side, d, meta, str), meta, str) != map[]
  {
    hide Field, Clean, Step, Kept;
    var first := Step(side, d, meta, str);
    var k :| k in first;
    StepText(side, d, meta, str);
    StepField(side, d, meta, k, str);
    StepField(side, first, meta, k, str);
    if k == Kind {
      assert side == Source;
      KindStays(d, meta, str);
      StepKind(first, meta, str);
    } else {
      KeptTwice(side, d, meta, k, str);
    }
  }

  // ---- merging again -------------------------------------------------------

  /** Merging with no incoming block stores what extraction finds. */
  lemma AgainStores(meta: Dict, str: Value -> string)
    ensures Again(meta, str) == Store(meta, Extracted(meta, str))
  {
    hide CleanSide, Fill, Store;
    AgainSide(Source, meta, str);
    AgainSide(Build, meta, str);
  }

  lemma AgainSide(side: Side, meta: Dict, str: Value -> string)
    ensures MergedSide(side, meta, None, str) == ExtractedSide(side, meta, str)
  {
    hide CleanSide, Fill, Normalized, Given;
    var filled := Fill(Given(side, meta), Renames(side), meta, str);
    PackParts(ExtractedSide(Source, meta, str), ExtractedSide(Build, meta, str));
    NothingNormalized(side, str);
    var part := Part(Extracted(meta, str), side);
    assert part + map[] == part;
    CleanSideTwice(side, filled, str);
  }

  lemma NothingNormalized(side: Side, str: Value -> string)
    ensures Part(Normalized(None, str), side) == map[]
  {
    hide Clean;
    PartOfNormalized(None, side, str);
    GitIsClean(str);
    assert Cleaned(Fields(side), map[], str) == map[];
  }

  predicate Untouched(k: Key) {
    k != ProvenanceKey && k != SourceKey && k != BuildKey
  }

  lemma RenamesUntouched(side: Side)
    ensures forall i :: 0 <= i < |Renames(side)| ==> Untouched(Renames(side)[i].legacy)
  {
  }

  lemma {:induction false} SameFill(d: Dict, renames: seq<Rename>, meta: Dict, other: Dict, str: Value -> string)
    requires forall k :: Untouched(k) ==> Get(meta, k) == Get(other, k)
    requires forall i :: 0 <= i < |renames| ==> Untouched(renames[i].legacy)
    ensures Fill(d, renames, meta, str) == Fill(d, renames, other, str)
    decreases |renames|
  {
    hide NonEmpty, Untouched, Get;
    if renames != [] {
      assert Untouched(renames[0].legacy);
      assert FillOne(d, renames[0], meta, str) == FillOne(d, renames[0], other, str);
      SameFill(FillOne(d, renames[0], meta, str), renames[1..], meta, other, str);
    }
  }

  lemma SameStep(side: Side, d: Dict, meta: Dict, other: Dict, str: Value -> string)
    requires forall k :: Untouched(k) ==> Get(meta, k) == Get(other, k)
    ensures Step(side, d, meta, str) == Step(side, d, other, str)
  {
    hide CleanSide, Fill;
    RenamesUntouched(side);
    SameFill(d, Renames(side), meta, other, str);
  }

  /** What a merge leaves where the next one looks. */
  lemma AfterStore(side: Side, meta: Dict, source: Dict, build: Dict)
    requires source != map[] || build != map[]
    ensures var part, after := if side.Source? then source else build, Store(meta, Pack(source, build));
            && Part(after, side) == (if part != map[] then part else Part(meta, side))
            && Given(side, after) == Part(after, side)
            && forall k :: Untouched(k) ==> Get(after, k) == Get(meta, k)
  {
    var packed := Pack(source, build);
    var after := Store(meta, packed);
    PackParts(source, build);
    assert packed != map[] by {
      assert SourceKey in packed || BuildKey in packed;
    }
    assert AsDict(Get(after, ProvenanceKey)) == packed;
    var part := if side.Source? then source else build;
    assert part + part == part && map[] + Part(meta, side) == Part(meta, side);
  }

  /** Nothing but the provenance blocks is touched by a merge. */
  lemma MergeTouchesOnlyProvenance(meta: Dict, provenance: Option<Value>, str: Value -> string, k: Key)
    requires Untouched(k)
    ensures Get(Merged(meta, provenance, str), k) == Get(meta, k)
  {
    hide MergedSide, Pack;
  }

  /** A usable field of the incoming block replaces whatever the metadata said, in the stored payload and in the
      top-level block. */
  lemma IncomingWins(side: Side, meta: Dict, provenance: Option<Value>, k: Key, str: Value -> string)
    requires k in Part(Normalized(provenance, str), side) && k != Kind
    ensures var merged, text := Merged(meta, provenance, str), Field(Part(Normalized(provenance, str), side), k, str);
            && text != ""
            && Field(Part(AsDict(Get(merged, ProvenanceKey)), side), k, str) == text
            && Field(Part(merged, side), k, str) == text
  {
    hide CleanSide, Normalized, Extracted, Clean, NonEmpty, Store;
    var given := Part(AsDict(provenance), side);
    var incoming, before := Part(Normalized(provenance, str), side), Part(Extracted(meta, str), side);
    PartOfNormalized(provenance, side, str);
    TextOnly(side, given, str);
    CleanField(side, given, k, str);
    CleanField(side, before + incoming, k, str);
    var source, build := MergedSide(Source, meta, provenance, str), MergedSide(Build, meta, provenance, str);
    assert k in MergedSide(side, meta, provenance, str);
    AfterStore(side, meta, source, build);
    StoredPart(side, meta, source, build);
  }

  lemma StoredPart(side: Side, meta: Dict, source: Dict, build: Dict)
    requires source != map[] || build != map[]
    ensures Part(AsDict(Get(Store(meta, Pack(source, build)), ProvenanceKey)), side) == (if side.Source? then source else build)
  {
    PackParts(source, build);
    assert SourceKey in Pack(source, build) || BuildKey in Pack(source, build);
  }

  /** One merge, seen from one side: the next extraction starts from what was kept or, if nothing was kept, from the
      top-level block alone. */
  lemma Evolves(side: Side, meta: Dict, str: Value -> string)
    requires Extracted(meta, str) != map[]
    ensures var kept, after := ExtractedSide(side, meta, str), Again(meta, str);
            && Part(after, side) == (if kept != map[] then kept else Part(meta, side))
            && ExtractedSide(side, after, str) == Step(side, Part(after, side), meta, str)
            && forall d :: Step(side, d, after, str) == Step(side, d, meta, str)
  {
    hide ExtractedSide, Step, Store, Given, Untouched, Get, Part;
    var after := Again(meta, str);
    AgainStores(meta, str);
    assert ExtractedSide(Source, meta, str) != map[] || ExtractedSide(Build, meta, str) != map[] by {
      PackNothing();
    }
    AfterStore(side, meta, ExtractedSide(Source, meta, str), ExtractedSide(Build, meta, str));
    forall d ensures Step(side, d, after, str) == Step(side, d, meta, str) {
      SameStep(side, d, after, meta, str);
    }
    ExtractedIsStep(side, after, str);
  }

  lemma PackNothing()
    ensures Pack(map[], map[]) == map[]
  {
  }

  lemma ExtractedIsStep(side: Side, meta: Dict, str: Value -> string)
    ensures ExtractedSide(side, meta, str) == Step(side, Given(side, meta), meta, str)
  {
  }

  lemma ExtractedStays(meta: Dict, str: Value -> string)
    requires Extracted(meta, str) != map[]
    ensures Extracted(Again(meta, str), str) != map[]
  {
    hide ExtractedSide, Again, Step, Given;
    var source, build := ExtractedSide(Source, meta, str), ExtractedSide(Build, meta, str);
    PackNothing();
    var side := if source != map[] then Source else Build;
    Evolves(side, meta, str);
    ExtractedIsStep(side, meta, str);
    NonEmptyStays(side, Given(side, meta), meta, str);
    PackParts(ExtractedSide(Source, Again(meta, str), str), ExtractedSide(Build, Again(meta, str), str));
  }

  /** From the third extraction on a side does not change. */
  lemma SideConverges(side: Side, meta: Dict, str: Value -> string)
    requires Extracted(meta, str) != map[]
    ensures var second := Again(Again(meta, str), str);
            ExtractedSide(side, Again(second, str), str) == ExtractedSide(side, second, str)
  {
    hide ExtractedSide, Extracted, Again, Step, Given, Part;
    var first := Again(meta, str);
    var second := Again(first, str);
    ExtractedStays(meta, str);
    ExtractedStays(first, str);
    Evolves(side, meta, str);
    Evolves(side, first, str);
    Evolves(side, second, str);
    var top := Part(meta, side);
    var c0 := ExtractedSide(side, meta, str);
    ExtractedIsStep(side, meta, str);
    if c0 != map[] {
      NonEmptyStays(side, Given(side, meta), meta, str);
      ThirdStep(side, Given(side, meta), meta, str);
    } else {
      ThirdStep(side, top, meta, str);
      if Step(side, top, meta, str) != map[] {
        NonEmptyStays(side, top, meta, str);
      }
    }
  }

  lemma StoreTwice(meta: Dict, normalized: Dict)
    ensures Store(Store(meta, normalized), normalized) == Store(meta, normalized)
  {
    if normalized != map[] {
      var stored := Store(meta, normalized);
      assert stored[ProvenanceKey := Object(normalized)] == stored;
    }
  }

  /** Merging again and again with no incoming block reaches a fixed point after three merges, whatever the metadata. */
  lemma MergeConverges(meta: Dict, str: Value -> string)
    ensures var third := Again(Again(Again(meta, str), str), str);
            Again(third, str) == third
  {
    hide ExtractedSide, Again, Store;
    var second := Again(Again(meta, str), str);
    var third := Again(second, str);
    AgainStores(second, str);
    AgainStores(third, str);
    if Extracted(meta, str) != map[] {
      SideConverges(Source, meta, str);
      SideConverges(Build, meta, str);
      StoreTwice(second, Extracted(second, str));
    } else {
      NothingStored(meta, str);
    }
  }

  lemma NothingStored(meta: Dict, str: Value -> string)
    requires Extracted(meta, str) == map[]
    ensures Again(meta, str) == meta
  {
    hide Extracted, Again;
    AgainStores(meta, str);
  }

  // ---- exactly when one merge is enough ------------------------------------

  /** No field that was dropped or blank has a usable legacy value waiting for it. */
  ghost predicate NothingWaits(side: Side, d: Dict, meta: Dict, str: Value -> string) {
    forall k :: k in Fields(side) && k != Kind && Kept(side, d, meta, k, str) == "" ==>
      Clean(k, Legacy(k, Renames(side), meta, str)) == ""
  }

  /** A second step changes nothing if and only if nothing waits. */
  lemma SecondStepExactly(side: Side, d: Dict, meta: Dict, str: Value -> string)
    ensures Step(side, Step(side, d, meta, str), meta, str) == Step(side, d, meta, str) <==> NothingWaits(side, d, meta, str)
  {
    hide Field, Step, Kept, Clean;
    var first := Step(side, d, meta, str);
    if NothingWaits(side, d, meta, str) {
      forall k | k in Fields(side) && k != Kind ensures Kept(side, first, meta, k, str) == Kept(side, d, meta, k, str) {
        KeptTwice(side, d, meta, k, str);
      }
      if side == Source {
        KindStays(d, meta, str);
        StepKind(d, meta, str);
        SameGit(first, d, meta, str);
      }
      StepSame(side, first, d, meta, str);
    } else {
      var k :| k in Fields(side) && k != Kind && Kept(side, d, meta, k, str) == ""
               && Clean(k, Legacy(k, Renames(side), meta, str)) != "";
      KeptTwice(side, d, meta, k, str);
      StepField(side, d, meta, k, str);
      StepField(side, first, meta, k, str);
    }
  }

  /** Nothing is kept of a block if and only if each of its fields, with its legacy value if it is blank, is dropped. */
  lemma NothingKeptExactly(side: Side, d: Dict, meta: Dict, str: Value -> string)
    ensures Step(side, d, meta, str) == map[] <==> forall k :: k in Fields(side) ==> Kept(side, d, meta, k, str) == ""
  {
    hide Field, Step, Kept, Clean;
    var step := Step(side, d, meta, str);
    StepText(side, d, meta, str);
    forall k | k in Fields(side) ensures k in step <==> Field(step, k, str) != "" {
      StepField(side, d, meta, k, str);
    }
    forall k | k in Fields(side) && k != Kind ensures Field(step, k, str) == Kept(side, d, meta, k, str) {
      StepField(side, d, meta, k, str);
    }
    if side == Source {
      StepKind(d, meta, str);
      assert forall g :: g in GIT_FIELDS ==> g in SOURCE_FIELDS && g != Kind;
    }
  }

  /** What the metadata say about whether a side is done after one merge: if something is kept of it, nothing waits;
      if nothing is kept, then nothing would be kept of the top-level block alone either. */
  ghost predicate Settled(side: Side, meta: Dict, str: Value -> string) {
    if exists k :: k in Fields(side) && Kept(side, Given(side, meta), meta, k, str) != "" then
      NothingWaits(side, Given(side, meta), meta, str)
    else
      forall k :: k in Fields(side) ==> Kept(side, Part(meta, side), meta, k, str) == ""
  }

  lemma SideSettlesExactly(side: Side, meta: Dict, str: Value -> string)
    requires Extracted(meta, str) != map[]
    ensures ExtractedSide(side, Again(meta, str), str) == ExtractedSide(side, meta, str) <==> Settled(side, meta, str)
  {
    hide ExtractedSide, Extracted, Again, Step, Part, Given, Kept, NothingWaits;
    Evolves(side, meta, str);
    ExtractedIsStep(side, meta, str);
    NothingKeptExactly(side, Given(side, meta), meta, str);
    NothingKeptExactly(side, Part(meta, side), meta, str);
    SecondStepExactly(side, Given(side, meta), meta, str);
  }

  /** Nothing is extracted if and only if nothing is kept of either side. */
  lemma NothingExtractedExactly(meta: Dict, str: Value -> string)
    ensures Extracted(meta, str) == map[] <==> forall side, k :: k in Fields(side) ==> Kept(side, Given(side, meta), meta, k, str) == ""
  {
    hide ExtractedSide, Step, Given, Kept;
    PackParts(ExtractedSide(Source, meta, str), ExtractedSide(Build, meta, str));
    PackNothing();
    forall side ensures ExtractedSide(side, meta, str) == map[] <==>
                        forall k :: k in Fields(side) ==> Kept(side, Given(side, meta), meta, k, str) == "" {
      ExtractedIsStep(side, meta, str);
      NothingKeptExactly(side, Given(side, meta), meta, str);
    }
  }

  lemma StoresTell(meta: Dict, one: Dict, other: Dict)
    requires one != map[] && other != map[]
    ensures Store(Store(meta, one), other) == Store(meta, one) ==> one == other
  {
    hide Part;
    assert Store(meta, one)[ProvenanceKey] == Object(one);
    assert Store(Store(meta, one), other)[ProvenanceKey] == Object(other);
  }

  /** One merge is enough if and only if nothing is extracted, or both sides are settled. */
  lemma OneMergeExactly(meta: Dict, str: Value -> string)
    ensures Again(Again(meta, str), str) == Again(meta, str) <==>
            Extracted(meta, str) == map[] || (Settled(Source, meta, str) && Settled(Build, meta, str))
  {
    hide ExtractedSide, Again, Store, Settled;
    var first := Again(meta, str);
    AgainStores(meta, str);
    AgainStores(first, str);
    if Extracted(meta, str) != map[] {
      ExtractedStays(meta, str);
      SideSettlesExactly(Source, meta, str);
      SideSettlesExactly(Build, meta, str);
      StoreTwice(meta, Extracted(meta, str));
      StoresTell(meta, Extracted(meta, str), Extracted(first, str));
      PackParts(ExtractedSide(Source, meta, str), ExtractedSide(Build, meta, str));
      PackParts(ExtractedSide(Source, first, str), ExtractedSide(Build, first, str));
    } else {
      NothingStored(meta, str);
    }
  }

  /** No legacy key holds anything. */
  predicate NoLegacy(meta: Dict, str: Value -> string) {
    forall side, i :: 0 <= i < |Renames(side)| ==> Field(meta, Renames(side)[i].legacy, str) == ""
  }

  lemma {:induction false} NothingToFill(k: Key, renames: seq<Rename>, meta: Dict, str: Value -> string)
    requires forall i :: 0 <= i < |renames| ==> Field(meta, renames[i].legacy, str) == ""
    ensures Legacy(k, renames, meta, str) == ""
  {
    hide Field;
    if renames != [] {
      NothingToFill(k, renames[1..], meta, str);
    }
  }

  lemma BlankLegacy(side: Side, k: Key, meta: Dict, str: Value -> string)
    requires NoLegacy(meta, str)
    ensures Legacy(k, Renames(side), meta, str) == "" && Clean(k, "") == ""
  {
    hide Field, Clean;
    NothingToFill(k, Renames(side), meta, str);
    GitIsClean(str);
  }

  lemma TopIsGiven(side: Side, meta: Dict, k: Key, str: Value -> string)
    requires NoLegacy(meta, str) && Kept(side, Part(meta, side), meta, k, str) != ""
    ensures Kept(side, Given(side, meta), meta, k, str) != ""
  {
    hide NoLegacy, Clean;
    BlankLegacy(side, k, meta, str);
    NonEmptyTrims(None, str);
  }

  /** In particular, one merge is enough where no legacy key holds anything. */
  lemma OneMergeIsEnough(meta: Dict, str: Value -> string)
    requires NoLegacy(meta, str)
    ensures Again(Again(meta, str), str) == Again(meta, str)
  {
    hide Again, NoLegacy, Kept, Part, Given, Clean, Extracted;
    forall side ensures Settled(side, meta, str) {
      forall k ensures Clean(k, Legacy(k, Renames(side), meta, str)) == "" {
        BlankLegacy(side, k, meta, str);
      }
      forall k | Kept(side, Part(meta, side), meta, k, str) != "" ensures Kept(side, Given(side, meta), meta, k, str) != "" {
        TopIsGiven(side, meta, k, str);
      }
    }
    OneMergeExactly(meta, str);
  }

  // ---- three merges can be needed ------------------------------------------

  const DIGEST: string := "sha256:" + seq(64, _ => '0')
  const SHA: string := "0000000"

  /** Two unusable build fields, one in each block, with usable legacy values for both. */
  const STUBBORN: Dict :=
    map[ProvenanceKey := Object(map[BuildKey := Object(map[ImageDigest := Text("x")])]),
        SourceKey := Object(map[RepoUrl := Text("r")]),
        BuildKey := Object(map[BuiltFromCommitSha := Text("x")]),
        ImageDigest := Text(DIGEST),
        BuiltFromCommitSha := Text(SHA)]

  lemma {:induction false} LegacyValue(k: Key, renames: seq<Rename>, i: nat, meta: Dict, str: Value -> string)
    requires i < |renames| && renames[i].target == k && forall j :: 0 <= j < i ==> renames[j].target != k
    requires Field(meta, renames[i].legacy, str) != ""
    ensures Legacy(k, renames, meta, str) == Field(meta, renames[i].legacy, str)
    decreases i
  {
    hide Field;
    if i > 0 {
      LegacyValue(k, renames[1..], i - 1, meta, str);
    }
  }

  lemma {:induction false} NoLegacyValue(k: Key, renames: seq<Rename>, meta: Dict, str: Value -> string)
    requires forall i :: 0 <= i < |renames| && renames[i].target == k ==> Field(meta, renames[i].legacy, str) == ""
    ensures Legacy(k, renames, meta, str) == ""
  {
    hide Field;
    if renames != [] {
      NoLegacyValue(k, renames[1..], meta, str);
    }
  }

  lemma PlainText(t: string, str: Value -> string)
    requires t == "x" || t == "r" || t == SHA || t == DIGEST
    ensures NonEmpty(Some(Text(t)), str) == t
  {
    assert Trimmed(t);
    StripTrims(t);
  }

  lemma StubbornText(str: Value -> string)
    ensures NormalizeImageDigest("x") == "" && NormalizeCommitSha("x") == ""
    ensures NormalizeImageDigest(DIGEST) != "" && NormalizeCommitSha(SHA) != ""
  {
    assert |Lower(DIGEST)| == 71;
    assert Lower(DIGEST)[..7] == "sha256:";
  }

  lemma StubbornFields(str: Value -> string)
    ensures Field(STUBBORN, ImageDigest, str) == DIGEST && Field(STUBBORN, BuiltFromCommitSha, str) == SHA
    ensures forall k :: Untouched(k) && k != ImageDigest && k != BuiltFromCommitSha ==> Field(STUBBORN, k, str) == ""
  {
    PlainText(DIGEST, str);
    PlainText(SHA, str);
  }

  lemma StubbornLegacy(k: Key, str: Value -> string)
    ensures k == ImageDigest ==> Legacy(k, BUILD_RENAMES, STUBBORN, str) == DIGEST
    ensures k == BuiltFromCommitSha ==> Legacy(k, BUILD_RENAMES, STUBBORN, str) == SHA
    ensures k != ImageDigest && k != BuiltFromCommitSha ==> Legacy(k, BUILD_RENAMES, STUBBORN, str) == ""
  {
    hide Legacy, Field, Lower;
    StubbornFields(str);
    if k == ImageDigest {
      LegacyValue(k, BUILD_RENAMES, 4, STUBBORN, str);
    } else if k == BuiltFromCommitSha {
      LegacyValue(k, BUILD_RENAMES, 5, STUBBORN, str);
    } else {
      RenamesUntouched(Build);
      NoLegacyValue(k, BUILD_RENAMES, STUBBORN, str);
    }
  }

  /** What is kept of a build block of the stubborn metadata. */
  lemma StubbornKept(d: Dict, k: Key, str: Value -> string)
    ensures k == ImageDigest ==>
              (Field(d, k, str) == "x" ==> Kept(Build, d, STUBBORN, k, str) == "")
              && (Field(d, k, str) == "" ==> Kept(Build, d, STUBBORN, k, str) != "")
    ensures k == BuiltFromCommitSha ==>
              (Field(d, k, str) == "x" ==> Kept(Build, d, STUBBORN, k, str) == "")
              && (Field(d, k, str) == "" ==> Kept(Build, d, STUBBORN, k, str) != "")
    ensures k in BUILD_FIELDS && k != ImageDigest && k != BuiltFromCommitSha && Field(d, k, str) == "" ==>
              Kept(Build, d, STUBBORN, k, str) == ""
  {
    hide Field, NormalizeImageDigest, NormalizeCommitSha, Legacy;
    StubbornLegacy(k, str);
    StubbornText(str);
    GitIsClean(str);
  }

  lemma StubbornSource(str: Value -> string)
    ensures Extracted(STUBBORN, str) != map[]
  {
    hide Step;
    PlainText("r", str);
    StepField(Source, Given(Source, STUBBORN), STUBBORN, RepoUrl, str);
    assert RepoUrl in ExtractedSide(Source, STUBBORN, str);
    assert SourceKey in Extracted(STUBBORN, str);
  }

  lemma StubbornGiven(str: Value -> string)
    ensures Field(Given(Build, STUBBORN), ImageDigest, str) == "x"
    ensures Field(Given(Build, STUBBORN), BuiltFromCommitSha, str) == "x"
    ensures forall k :: k != ImageDigest && k != BuiltFromCommitSha ==> Field(Given(Build, STUBBORN), k, str) == ""
  {
    PlainText("x", str);
  }

  /** Nothing is kept of the two build blocks together. */
  lemma StubbornAtFirst(str: Value -> string)
    ensures Step(Build, Given(Build, STUBBORN), STUBBORN, str) == map[]
  {
    hide Step, Kept, Field, Given;
    var given := Given(Build, STUBBORN);
    StubbornGiven(str);
    StepText(Build, given, STUBBORN, str);
    forall k | k in BUILD_FIELDS ensures k !in Step(Build, given, STUBBORN, str) {
      StepField(Build, given, STUBBORN, k, str);
      StubbornKept(given, k, str);
    }
  }

  /** Of the top-level block alone the digest is filled in, and only the step after that fills in the commit. */
  lemma StubbornLater(str: Value -> string)
    ensures var one := Step(Build, Part(STUBBORN, Build), STUBBORN, str);
            && one != map[] && BuiltFromCommitSha !in one
            && BuiltFromCommitSha in Step(Build, one, STUBBORN, str)
  {
    hide Step, Kept, NonEmpty, Clean;
    var top := Part(STUBBORN, Build);
    var one := Step(Build, top, STUBBORN, str);
    PlainText("x", str);
    GitIsClean(str);
    StepField(Build, top, STUBBORN, ImageDigest, str);
    StubbornKept(top, ImageDigest, str);
    StepField(Build, top, STUBBORN, BuiltFromCommitSha, str);
    StubbornKept(top, BuiltFromCommitSha, str);
    StepField(Build, one, STUBBORN, BuiltFromCommitSha, str);
    StubbornKept(one, BuiltFromCommitSha, str);
  }

  /** So the bound of three cannot be lowered: here the third merge still changes the build block. */
  lemma TwoMergesAreNotEnough(str: Value -> string)
    ensures var second := Again(Again(STUBBORN, str), str);
            Again(second, str) != second
  {
    hide Extracted, ExtractedSide, Again, Step, Given, Part;
    var first := Again(STUBBORN, str);
    StubbornSource(str);
    ExtractedStays(STUBBORN, str);
    ExtractedStays(first, str);
    Evolves(Build, STUBBORN, str);
    Evolves(Build, first, str);
    Evolves(Build, Again(first, str), str);
    ExtractedIsStep(Build, STUBBORN, str);
    StubbornAtFirst(str);
    StubbornLater(str);
  }
}
