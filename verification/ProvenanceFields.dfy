/** What is extracted and stored, field by field: every field and every old key by its name. */
module ProvenanceFields {
  import opened Wrappers
  import opened Text
  import opened Provenance
  import BranchNames

  // ---- texts ---------------------------------------------------------------

  /** `str(value or "").strip()`: nothing for what is missing, null, empty or false. */
  lemma FieldExactly(d: Dict, k: Key, str: Value -> string)
    ensures k !in d ==> Field(d, k, str) == ""
    ensures k in d && d[k] == Null ==> Field(d, k, str) == ""
    ensures k in d && d[k].Text? ==> Field(d, k, str) == Strip(d[k].text)
    ensures k in d && d[k].Object? ==> Field(d, k, str) == if |d[k].entries| == 0 then "" else Strip(str(d[k]))
    ensures k in d && d[k].Plain? ==> Field(d, k, str) == if d[k].truthy then Strip(str(d[k])) else ""
  {
  }

  predicate CommitText(t: string) {
    7 <= |t| <= 40 && forall i :: 0 <= i < |t| ==> BranchNames.HexDigit(t[i])
  }

  predicate DigestText(t: string) {
    |t| == 71 && "sha256:" <= t && forall i :: 7 <= i < 71 ==> BranchNames.HexDigit(t[i])
  }

  /** The form in which a field is kept: the kind only if it is git, commits and digests in lower case if they are
      well-formed, every other text as it is. */
  function Usable(k: Key, t: string): string {
    match k
    case Kind => if Lower(t) == "git" then "git" else ""
    case CommitSha => if CommitText(Lower(t)) then Lower(t) else ""
    case BuiltFromCommitSha => if CommitText(Lower(t)) then Lower(t) else ""
    case ImageDigest => if DigestText(Lower(t)) then Lower(t) else ""
    case _ => t
  }

  lemma UsableExactly(k: Key, t: string)
    ensures Clean(k, t) == Usable(k, t)
  {
    forall c ensures BranchNames.IsHex(c) <==> BranchNames.HexDigit(c) {
      BranchNames.CharactersExactly(c);
    }
    var raw := Lower(t);
    if |raw| == 71 {
      assert "sha256:" <= raw <==> raw[..7] == "sha256:";
      assert forall i :: 7 <= i < 71 ==> raw[i] == raw[7..][i - 7];
      assert forall j :: 0 <= j < 64 ==> raw[7..][j] == raw[j + 7];
    }
  }

  // ---- what is said of a field ---------------------------------------------

  function Or(a: string, b: string): string {
    if a != "" then a else b
  }

  /** What the blocks say: the top-level one where it has the field, otherwise the explicit one. */
  function BlockText(meta: Dict, block: Key, k: Key, str: Value -> string): string {
    var top, explicit := AsDict(Get(meta, block)), AsDict(Get(AsDict(Get(meta, ProvenanceKey)), block));
    if k in top then Field(top, k, str) else Field(explicit, k, str)
  }

  /** What the old keys at the top level say of a field of the source. */
  function OldSource(meta: Dict, k: Key, str: Value -> string): string {
    match k
    case RepoUrl => Field(meta, RepoUrl, str)
    case RepoKey => Or(Field(meta, RepoKey, str), Field(meta, SourceRefId, str))
    case CommitSha => Field(meta, CommitSha, str)
    case BranchHint => Field(meta, BranchHint, str)
    case MonorepoSubpath => Field(meta, RepoPath, str)
    case ManifestRef => Field(meta, ManifestRef, str)
    case _ => ""
  }

  /** And of a field of the build. */
  function OldBuild(meta: Dict, k: Key, str: Value -> string): string {
    match k
    case PipelineProvider => Field(meta, PipelineProvider, str)
    case RunId => Or(Field(meta, PipelineRunId, str), Field(meta, RunId, str))
    case ImageRef => Field(meta, ImageRef, str)
    case ImageDigest => Field(meta, ImageDigest, str)
    case BuiltFromCommitSha => Field(meta, BuiltFromCommitSha, str)
    case _ => ""
  }

  /** What a blank field is filled with: the old keys only count where the blocks are silent. */
  function Said(side: Side, meta: Dict, k: Key, str: Value -> string): string {
    if side == Source then Or(BlockText(meta, SourceKey, k, str), OldSource(meta, k, str))
    else Or(BlockText(meta, BuildKey, k, str), OldBuild(meta, k, str))
  }

  /** What the old keys from the i-th on say. */
  ghost function LegacyFrom(k: Key, renames: seq<Rename>, i: nat, meta: Dict, str: Value -> string): string
    requires i <= |renames|
  {
    Legacy(k, renames[i..], meta, str)
  }

  lemma LegacyStep(k: Key, renames: seq<Rename>, i: nat, meta: Dict, str: Value -> string)
    requires i < |renames|
    ensures LegacyFrom(k, renames, i, meta, str)
         == if renames[i].target == k then Or(Field(meta, renames[i].legacy, str), LegacyFrom(k, renames, i + 1, meta, str))
            else LegacyFrom(k, renames, i + 1, meta, str)
  {
    hide Field;
    assert renames[i..][1..] == renames[i + 1..];
  }

  lemma LegacyEnds(k: Key, renames: seq<Rename>, meta: Dict, str: Value -> string)
    ensures LegacyFrom(k, renames, 0, meta, str) == Legacy(k, renames, meta, str)
    ensures LegacyFrom(k, renames, |renames|, meta, str) == ""
  {
    assert renames[0..] == renames && renames[|renames|..] == [];
  }

  lemma OldSourceExactly(meta: Dict, k: Key, str: Value -> string)
    ensures Legacy(k, Renames(Source), meta, str) == OldSource(meta, k, str)
  {
    hide Field, Legacy, LegacyFrom;
    var renames := Renames(Source);
    LegacyEnds(k, renames, meta, str);
    LegacyStep(k, renames, 0, meta, str);
    LegacyStep(k, renames, 1, meta, str);
    LegacyStep(k, renames, 2, meta, str);
    LegacyStep(k, renames, 3, meta, str);
    LegacyStep(k, renames, 4, meta, str);
    LegacyStep(k, renames, 5, meta, str);
    LegacyStep(k, renames, 6, meta, str);
  }

  lemma OldBuildExactly(meta: Dict, k: Key, str: Value -> string)
    ensures Legacy(k, Renames(Build), meta, str) == OldBuild(meta, k, str)
  {
    hide Field, Legacy, LegacyFrom;
    var renames := Renames(Build);
    LegacyEnds(k, renames, meta, str);
    LegacyStep(k, renames, 0, meta, str);
    LegacyStep(k, renames, 1, meta, str);
    LegacyStep(k, renames, 2, meta, str);
    LegacyStep(k, renames, 3, meta, str);
    LegacyStep(k, renames, 4, meta, str);
    LegacyStep(k, renames, 5, meta, str);
  }

  lemma SaidExactly(side: Side, meta: Dict, k: Key, str: Value -> string)
    ensures Kept(side, Given(side, meta), meta, k, str) == Usable(k, Said(side, meta, k, str))
  {
    hide Field, Legacy, Usable, Clean, OldSource, OldBuild, Renames;
    OldSourceExactly(meta, k, str);
    OldBuildExactly(meta, k, str);
    UsableExactly(k, Said(side, meta, k, str));
    GivenField(side, meta, k, str);
  }

  lemma GivenField(side: Side, meta: Dict, k: Key, str: Value -> string)
    ensures Field(Given(side, meta), k, str) == BlockText(meta, if side == Source then SourceKey else BuildKey, k, str)
  {
  }

  // ---- what is extracted ---------------------------------------------------

  function Shown(text: string): Option<Value> {
    if text == "" then None else Some(Text(text))
  }

  /** The fields of a side, but for the kind. */
  predicate PlainField(side: Side, k: Key) {
    match side
    case Source => k in {RepoUrl, RepoKey, CommitSha, BranchHint, MonorepoSubpath, ManifestRef}
    case Build => k in {PipelineProvider, RunId, ImageRef, ImageDigest, BuiltFromCommitSha}
  }

  /** A repository field: where one is kept, the kind is git. */
  predicate GitField(k: Key) {
    k in {RepoUrl, RepoKey, CommitSha, BranchHint, MonorepoSubpath}
  }

  /** A side holds exactly these texts, and the kind git if it is given or a repository field is held. */
  ghost predicate HoldsExactly(d: Dict, side: Side, text: Key -> string) {
    && (forall k :: PlainField(side, k) ==> Get(d, k) == Shown(text(k)))
    && (forall k :: k in d ==> PlainField(side, k) || (side == Source && k == Kind))
    && (side == Source ==>
          Get(d, Kind) == if text(Kind) != "" || exists k :: GitField(k) && text(k) != "" then Some(Text("git")) else None)
  }

  lemma FieldsExactly(side: Side, k: Key)
    ensures k in Fields(side) <==> PlainField(side, k) || (side == Source && k == Kind)
    ensures k in GIT_FIELDS <==> GitField(k)
    ensures PlainField(side, k) || GitField(k) ==> k != Kind
  {
  }

  lemma CleanSideExactly(side: Side, d: Dict, text: Key -> string, str: Value -> string)
    requires forall k :: k in Fields(side) ==> Clean(k, Field(d, k, str)) == text(k)
    requires text(Kind) in {"", "git"}
    ensures HoldsExactly(CleanSide(side, d, str), side, text)
  {
    hide Clean, Field, CleanSide, PlainField, GitField, Fields;
    var c := CleanSide(side, d, str);
    TextOnly(side, d, str);
    forall k ensures (k in Fields(side) <==> PlainField(side, k) || (side == Source && k == Kind)) && (k in GIT_FIELDS <==> GitField(k)) {
      FieldsExactly(side, k);
    }
    forall k | PlainField(side, k) ensures Get(c, k) == Shown(text(k)) {
      FieldsExactly(side, k);
      CleanField(side, d, k, str);
    }
    if side == Source {
      FieldsExactly(side, Kind);
      CleanKind(d, str);
      CleanField(side, d, Kind, str);
      forall k | k in GIT_FIELDS ensures k in Fields(Source) {
        GitInSource(k);
      }
    }
  }

  lemma GitInSource(k: Key)
    requires k in GIT_FIELDS
    ensures k in Fields(Source)
  {
  }

  /** For every field: where the blocks give it, that value, the top-level block before the explicit one; otherwise the
      first old key for it that is filled in; each in its usable form, and nothing if it has none. */
  lemma ExtractedExactly(side: Side, meta: Dict, str: Value -> string)
    ensures var extracted := AsDict(Get(Extracted(meta, str), if side == Source then SourceKey else BuildKey));
            HoldsExactly(extracted, side, k => Usable(k, Said(side, meta, k, str)))
  {
    hide Clean, Usable, Field, Said, CleanSide, HoldsExactly, Kept, Fill;
    var text := (k: Key) => Usable(k, Said(side, meta, k, str));
    var filled := Fill(Given(side, meta), Renames(side), meta, str);
    forall k | k in Fields(side) ensures Clean(k, Field(filled, k, str)) == text(k) {
      SaidExactly(side, meta, k, str);
      FilledKept(side, meta, k, str);
    }
    KindUsable(Said(side, meta, Kind, str));
    CleanSideExactly(side, filled, text, str);
    PackParts(ExtractedSide(Source, meta, str), ExtractedSide(Build, meta, str));
  }

  lemma KindUsable(t: string)
    ensures Usable(Kind, t) in {"", "git"}
  {
  }

  lemma FilledKept(side: Side, meta: Dict, k: Key, str: Value -> string)
    ensures Clean(k, Field(Fill(Given(side, meta), Renames(side), meta, str), k, str)) == Kept(side, Given(side, meta), meta, k, str)
  {
    hide Clean, Field, Fill, Legacy;
    FillField(Given(side, meta), Renames(side), meta, k, str);
  }

  // ---- what is stored ------------------------------------------------------

  /** What an incoming block says of a field. */
  function IncomingText(provenance: Option<Value>, side: Side, k: Key, str: Value -> string): string {
    Field(AsDict(Get(AsDict(provenance), if side == Source then SourceKey else BuildKey)), k, str)
  }

  /** A usable incoming field, and otherwise what is extracted. */
  function StoredText(side: Side, meta: Dict, provenance: Option<Value>, k: Key, str: Value -> string): string {
    Or(Usable(k, IncomingText(provenance, side, k, str)), Usable(k, Said(side, meta, k, str)))
  }

  /** What one side of a block is worth where another one is laid over it. */
  lemma OverlaidField(under: Dict, over: Dict, k: Key, str: Value -> string)
    requires k in over ==> Field(over, k, str) != ""
    ensures Field(under + over, k, str) == Or(Field(over, k, str), Field(under, k, str))
  {
    FieldExactly(over, k, str);
  }

  /** One side before it is normalised for the last time. */
  lemma MergedField(side: Side, meta: Dict, provenance: Option<Value>, k: Key, str: Value -> string)
    requires PlainField(side, k)
    ensures var merged := Part(Extracted(meta, str), side) + Part(Normalized(provenance, str), side);
            Clean(k, Field(merged, k, str)) == StoredText(side, meta, provenance, k, str)
  {
    hide Clean, Usable, Field, Said, CleanSide, Extracted, Normalized, PlainField, Step;
    var given := Part(AsDict(provenance), side);
    var over, under := Part(Normalized(provenance, str), side), Part(Extracted(meta, str), side);
    FieldsExactly(side, k);
    PartOfNormalized(provenance, side, str);
    CleanField(side, given, k, str);
    ExtractedPart(side, meta, str);
    ExtractedIsStep(side, meta, str);
    StepField(side, Given(side, meta), meta, k, str);
    SaidExactly(side, meta, k, str);
    OverlaidField(under, over, k, str);
    UsableExactly(k, Field(given, k, str));
    SamePart(provenance, side, k, str);
  }

  lemma ExtractedPart(side: Side, meta: Dict, str: Value -> string)
    ensures Part(Extracted(meta, str), side) == ExtractedSide(side, meta, str)
  {
    hide ExtractedSide;
    PackParts(ExtractedSide(Source, meta, str), ExtractedSide(Build, meta, str));
  }

  lemma SamePart(provenance: Option<Value>, side: Side, k: Key, str: Value -> string)
    ensures Field(Part(AsDict(provenance), side), k, str) == IncomingText(provenance, side, k, str)
  {
  }

  /** After a merge every field of both sides is the usable incoming one, or else what is extracted: in the stored
      payload, and in the top-level block of a side that holds anything. */
  lemma MergedExactly(side: Side, meta: Dict, provenance: Option<Value>, k: Key, str: Value -> string)
    requires PlainField(side, k)
    requires exists other, j :: PlainField(other, j) && StoredText(other, meta, provenance, j, str) != ""
    ensures var block := if side == Source then SourceKey else BuildKey;
            var merged, text := Merged(meta, provenance, str), StoredText(side, meta, provenance, k, str);
            && Get(AsDict(Get(AsDict(Get(merged, ProvenanceKey)), block)), k) == Shown(text)
            && (text != "" ==> Get(AsDict(Get(merged, block)), k) == Some(Text(text)))
  {
    hide PlainField, StoredText, MergedSide, Store, Pack;
    var source, build := MergedSide(Source, meta, provenance, str), MergedSide(Build, meta, provenance, str);
    var other, j :| PlainField(other, j) && StoredText(other, meta, provenance, j, str) != "";
    MergedSideField(other, meta, provenance, j, str);
    MergedSideField(side, meta, provenance, k, str);
    assert j in MergedSide(other, meta, provenance, str);
    assert other == Source || other == Build;
    assert source != map[] || build != map[];
    StoredPart(side, meta, source, build);
    AfterStore(side, meta, source, build);
  }

  lemma MergedSideField(side: Side, meta: Dict, provenance: Option<Value>, k: Key, str: Value -> string)
    requires PlainField(side, k)
    ensures Get(MergedSide(side, meta, provenance, str), k) == Shown(StoredText(side, meta, provenance, k, str))
  {
    hide Clean, Field, CleanSide, PlainField, Extracted, Normalized, StoredText;
    var merged := Part(Extracted(meta, str), side) + Part(Normalized(provenance, str), side);
    FieldsExactly(side, k);
    MergedField(side, meta, provenance, k, str);
    CleanField(side, merged, k, str);
    TextOnly(side, merged, str);
  }

  /** Something says that the source is git: its kind, or a repository field. */
  ghost predicate SaysGit(text: Key -> string) {
    text(Kind) != "" || exists k :: GitField(k) && text(k) != ""
  }

  lemma KindHeld(side: Side, d: Dict, text: Key -> string, str: Value -> string)
    requires side == Source && HoldsExactly(d, side, text)
    ensures Field(d, Kind, str) == if SaysGit(text) then "git" else ""
  {
    GitIsClean(str);
  }

  /** After a merge the source is git if the incoming block or the metadata says so, by the kind or by a field. */
  lemma MergedKindExactly(meta: Dict, provenance: Option<Value>, str: Value -> string)
    ensures Get(MergedSide(Source, meta, provenance, str), Kind)
         == if SaysGit(k => StoredText(Source, meta, provenance, k, str)) then Some(Text("git")) else None
  {
    hide Clean, Usable, Field, Said, CleanSide, Extracted, Normalized, HoldsExactly, IncomingText, GitField, PlainField;
    var over, under := Part(Normalized(provenance, str), Source), Part(Extracted(meta, str), Source);
    var incoming := (k: Key) => Usable(k, IncomingText(provenance, Source, k, str));
    var said := (k: Key) => Usable(k, Said(Source, meta, k, str));
    NormalizedExactly(provenance, Source, str);
    ExtractedExactly(Source, meta, str);
    KindHeld(Source, over, incoming, str);
    KindHeld(Source, under, said, str);
    KindInOver(over, provenance, str);
    OverlaidField(under, over, Kind, str);
    var stored := (k: Key) => StoredText(Source, meta, provenance, k, str);
    if SaysGit(incoming) || SaysGit(said) {
      assert SaysGit(stored);
    } else {
      assert !SaysGit(stored);
    }
    MergedKindIs(meta, provenance, stored, under + over, str);
  }

  lemma KindInOver(over: Dict, provenance: Option<Value>, str: Value -> string)
    requires over == Part(Normalized(provenance, str), Source)
    ensures Kind in over ==> Field(over, Kind, str) != ""
  {
    hide Clean, CleanSide, Field, Normalized;
    PartOfNormalized(provenance, Source, str);
    CleanField(Source, Part(AsDict(provenance), Source), Kind, str);
  }

  lemma MergedKindIs(meta: Dict, provenance: Option<Value>, stored: Key -> string, merged: Dict, str: Value -> string)
    requires merged == Part(Extracted(meta, str), Source) + Part(Normalized(provenance, str), Source)
    requires forall k :: stored(k) == StoredText(Source, meta, provenance, k, str)
    requires Field(merged, Kind, str) == if SaysGit(stored) then "git" else ""
    ensures Get(MergedSide(Source, meta, provenance, str), Kind) == if SaysGit(stored) then Some(Text("git")) else None
  {
    hide Clean, Field, CleanSide, Extracted, Normalized, PlainField, StoredText;
    GitIsClean(str);
    CleanKind(merged, str);
    CleanField(Source, merged, Kind, str);
    TextOnly(Source, merged, str);
    forall k | k in GIT_FIELDS ensures Clean(k, Field(merged, k, str)) == stored(k) && GitField(k) {
      FieldsExactly(Source, k);
      GitIsPlain(k);
      MergedField(Source, meta, provenance, k, str);
    }
  }

  lemma GitIsPlain(k: Key)
    requires GitField(k)
    ensures PlainField(Source, k)
  {
  }

  // ---- normalising and validating ------------------------------------------

  lemma NormalizedExactly(value: Option<Value>, side: Side, str: Value -> string)
    ensures HoldsExactly(Part(Normalized(value, str), side), side, k => Usable(k, IncomingText(value, side, k, str)))
  {
    hide Clean, Usable, Field, CleanSide, HoldsExactly, Normalized, IncomingText;
    PartOfNormalized(value, side, str);
    var given := Part(AsDict(value), side);
    forall k ensures Clean(k, Field(given, k, str)) == Usable(k, IncomingText(value, side, k, str)) {
      SamePart(value, side, k, str);
      UsableExactly(k, Field(given, k, str));
    }
    KindUsable(IncomingText(value, side, Kind, str));
    CleanSideExactly(side, given, k => Usable(k, IncomingText(value, side, k, str)), str);
  }

  /** What is reported: a kind other than git, a commit or a digest that is filled in and not well-formed. */
  lemma FaultsExactly(value: Option<Value>, str: Value -> string)
    ensures Faulty(value, KindNotGit, str) <==>
            IncomingText(value, Source, Kind, str) != "" && Lower(IncomingText(value, Source, Kind, str)) != "git"
    ensures Faulty(value, BadCommitSha, str) <==>
            IncomingText(value, Source, CommitSha, str) != "" && !CommitText(Lower(IncomingText(value, Source, CommitSha, str)))
    ensures Faulty(value, BadBuiltFromCommitSha, str) <==>
            IncomingText(value, Build, BuiltFromCommitSha, str) != ""
            && !CommitText(Lower(IncomingText(value, Build, BuiltFromCommitSha, str)))
    ensures Faulty(value, BadImageDigest, str) <==>
            IncomingText(value, Build, ImageDigest, str) != "" && !DigestText(Lower(IncomingText(value, Build, ImageDigest, str)))
  {
    hide Clean, Field, CommitText, DigestText, IncomingText;
    FaultIs(value, KindNotGit, str);
    FaultIs(value, BadCommitSha, str);
    FaultIs(value, BadBuiltFromCommitSha, str);
    FaultIs(value, BadImageDigest, str);
    LongEnough(Lower(IncomingText(value, Source, CommitSha, str)));
    LongEnough(Lower(IncomingText(value, Build, BuiltFromCommitSha, str)));
    LongEnough(Lower(IncomingText(value, Build, ImageDigest, str)));
  }

  lemma LongEnough(t: string)
    ensures CommitText(t) || DigestText(t) ==> t != ""
  {
  }

  lemma FaultIs(value: Option<Value>, p: Problem, str: Value -> string)
    ensures var (side, k) := About(p);
            Faulty(value, p, str) <==>
            IncomingText(value, side, k, str) != "" && Usable(k, IncomingText(value, side, k, str)) == ""
  {
    hide Clean, Field, Usable, IncomingText;
    var (side, k) := About(p);
    SamePart(value, side, k, str);
    UsableExactly(k, IncomingText(value, side, k, str));
  }
}
