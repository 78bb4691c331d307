/** The life of change efforts and their promotions. A request either answers and commits, or is rejected and
    leaves every row as it was. */
module ChangeEfforts {
  import opened Wrappers
  import opened Text
  import opened BranchNames

  type WorkspaceId = nat

  datatype EffortStatus =
    | EffortCreated | SourceResolved | BranchAllocated | WorktreeAllocated
    | ReadyForPromotion | PromotionRequested | PromotedToDevelop

  datatype Effort = Effort(
    workspace: WorkspaceId, artifactSlug: string, owner: string,
    repoKey: Option<string>, repoUrl: Option<string>, repoSubpath: Option<string>,
    baseBranch: string, targetBranch: string, workBranch: Option<string>, worktreePath: Option<string>,
    status: EffortStatus)

  datatype Strategy = MergeCommit | Squash | Rebase
  datatype PromotionStatus = Requested | PreflightPassed | MergePending | Completed

  datatype Promotion = Promotion(
    effort: EffortId, fromBranch: string, toBranch: string, strategy: Strategy,
    status: PromotionStatus, mergeCommitSha: Option<string>)

  datatype State = State(efforts: map<EffortId, Effort>, promotions: seq<Promotion>)

  datatype Rejection = NotFound | BadRequest | Conflict

  /** What the provenance of the artifact says about its source. */
  datatype Source = Source(kind: string, repoKey: string, repoUrl: string, subpath: string, branchHint: string)

  /** The repository a creation request names; blank fields are not set. */
  datatype Repo = Repo(key: string, url: string, subpath: string)

  datatype Request =
    | Create(id: EffortId, workspace: WorkspaceId, workspaceExists: bool, referencesValid: bool, artifactSlug: string,
             repo: Repo, baseBranch: string, targetBranch: string, owner: string, actor: string)
    | ResolveSource(id: EffortId, source: Option<Source>)
    | AllocateBranch(id: EffortId, baseBranch: string, targetBranch: string, owner: string)
    | AllocateWorktree(id: EffortId, owner: string, candidate: string, withinRoot: bool, resolvedCurrent: string)
    | Promote(id: EffortId, toBranch: string, strategy: string, mergeCommitSha: string)

  function Rank(status: EffortStatus): nat {
    match status
    case EffortCreated => 0
    case SourceResolved => 1
    case BranchAllocated => 2
    case WorktreeAllocated => 3
    case ReadyForPromotion => 4
    case PromotionRequested => 5
    case PromotedToDevelop => 6
  }

  predicate Blank(o: Option<string>) {
    o.None? || Strip(o.value) == ""
  }

  function Override(value: string, current: Option<string>): Option<string> {
    if Strip(value) != "" then Some(Strip(value)) else current
  }

  predicate OwnerMismatch(asked: string, owner: string) {
    Strip(asked) != "" && Strip(owner) != "" && Strip(asked) != Strip(owner)
  }

  function ParseStrategy(text: string): Option<Strategy> {
    var token := Lower(Strip(text));
    if token == "" || token == "merge_commit" then Some(MergeCommit)
    else if token == "squash" then Some(Squash)
    else if token == "rebase" then Some(Rebase)
    else None
  }

  predicate Open(p: Promotion) {
    p.status in {Requested, PreflightPassed, MergePending}
  }

  predicate Promotable(status: EffortStatus) {
    status in {BranchAllocated, WorktreeAllocated, ReadyForPromotion, PromotionRequested}
  }

  /** An open promotion that this request would repeat. */
  ghost predicate Pending(s: State, id: EffortId, strategy: Strategy) {
    exists k :: 0 <= k < |s.promotions| && OpenFor(s.promotions[k], id, strategy)
  }

  predicate OpenFor(p: Promotion, id: EffortId, strategy: Strategy) {
    p.effort == id && p.strategy == strategy && Open(p)
  }

  // ---- the handlers --------------------------------------------------------

  function OwnerOf(owner: string, actor: string): string {
    var named := Strip(if owner != "" then owner else actor);
    if named != "" then named else actor
  }

  /** A new row; its id is fresh, a duplicate would be refused by the primary key. */
  function Created(s: State, req: Request): Result<State, Rejection>
    requires req.Create?
  {
    var base, target := ValidBranch(req.baseBranch, false), ValidBranch(req.targetBranch, true);
    if !req.workspaceExists then Err(NotFound)
    else if !req.referencesValid || base.None? || target.None? then Err(BadRequest)
    else if req.id in s.efforts then Err(Conflict)
    else Ok(s.(efforts := s.efforts[req.id := Effort(req.workspace, Strip(req.artifactSlug), OwnerOf(req.owner, req.actor),
                                                     Override(req.repo.key, None), Override(req.repo.url, None),
                                                     Override(req.repo.subpath, None), base.value, target.value,
                                                     None, None, EffortCreated)]))
  }

  function WithSource(row: Effort, source: Source): Result<Effort, Rejection> {
    if Lower(Strip(source.kind)) != "git" || (Strip(source.repoKey) == "" && Strip(source.repoUrl) == "") then Err(Conflict)
    else
      var hinted := Strip(row.baseBranch) in {"", "develop"} && Strip(source.branchHint) != "";
      var base := ValidBranch(Strip(source.branchHint), false);
      if hinted && base.None? then Err(BadRequest)
      else Ok(row.(repoKey := Override(source.repoKey, row.repoKey),
                   repoUrl := Override(source.repoUrl, row.repoUrl),
                   repoSubpath := Override(source.subpath, row.repoSubpath),
                   baseBranch := if hinted then base.value else row.baseBranch,
                   status := if row.status == EffortCreated then SourceResolved else row.status))
  }

  function SourceResolvedState(s: State, req: Request): Result<State, Rejection>
    requires req.ResolveSource?
  {
    if req.id !in s.efforts || req.source.None? then Err(NotFound)
    else match WithSource(s.efforts[req.id], req.source.value)
      case Ok(row) => Ok(s.(efforts := s.efforts[req.id := row]))
      case Err(e) => Err(e)
  }

  /** Another effort of the workspace has the branch. */
  predicate BranchTaken(efforts: map<EffortId, Effort>, id: EffortId, workspace: WorkspaceId, branch: string) {
    exists other :: other in efforts && other != id
                    && efforts[other].workspace == workspace && efforts[other].workBranch == Some(branch)
  }

  function OrKept(asked: string, kept: string): string {
    if asked != "" then asked else if kept != "" then kept else "develop"
  }

  function WithBranch(row: Effort, id: EffortId, base: string, target: string): Effort {
    row.(baseBranch := base, targetBranch := target, workBranch := Some(WorkBranchName(row.artifactSlug, id)),
         status := if row.status in {EffortCreated, SourceResolved} then BranchAllocated else row.status)
  }

  ghost function BranchAllocatedState(s: State, req: Request): Result<State, Rejection>
    requires req.AllocateBranch?
  {
    if req.id !in s.efforts then Err(NotFound)
    else
      var row := s.efforts[req.id];
      var base := ValidBranch(OrKept(req.baseBranch, row.baseBranch), false);
      var target := ValidBranch(OrKept(req.targetBranch, row.targetBranch), true);
      var name := WorkBranchName(row.artifactSlug, req.id);
      if OwnerMismatch(req.owner, row.owner) then Err(Conflict)
      else if base.None? || target.None? then Err(BadRequest)
      else if row.workBranch.Some? && row.workBranch.value != "" && row.workBranch.value != name then Err(Conflict)
      else if BranchTaken(s.efforts, req.id, row.workspace, name) then Err(Conflict)
      else Ok(s.(efforts := s.efforts[req.id := WithBranch(row, req.id, base.value, target.value)]))
  }

  predicate PathTaken(efforts: map<EffortId, Effort>, id: EffortId, path: string) {
    exists other :: other in efforts && other != id && efforts[other].worktreePath == Some(path)
  }

  function WithWorktree(row: Effort, path: string): Effort {
    row.(worktreePath := Some(path),
         status := if row.status in {EffortCreated, SourceResolved, BranchAllocated} then WorktreeAllocated else row.status)
  }

  ghost function WorktreeAllocatedState(s: State, req: Request): Result<State, Rejection>
    requires req.AllocateWorktree?
  {
    if req.id !in s.efforts then Err(NotFound)
    else
      var row := s.efforts[req.id];
      if OwnerMismatch(req.owner, row.owner) then Err(Conflict)
      else if Blank(row.workBranch) || !req.withinRoot then Err(BadRequest)
      else if row.worktreePath.Some? && row.worktreePath.value != "" then
        if req.resolvedCurrent != req.candidate then Err(Conflict) else Ok(s)
      else if PathTaken(s.efforts, req.id, req.candidate) then Err(Conflict)
      else Ok(s.(efforts := s.efforts[req.id := WithWorktree(row, req.candidate)]))
  }

  /** The checks a promotion passes before the table of promotions is looked at. */
  function Preflight(s: State, req: Request): Result<Strategy, Rejection>
    requires req.Promote?
  {
    if req.id !in s.efforts then Err(NotFound)
    else
      var row := s.efforts[req.id];
      if ValidBranch(req.toBranch, false) != Some("develop") then Err(BadRequest)
      else if Blank(row.workBranch) || !Promotable(row.status) then Err(Conflict)
      else if Strip(row.targetBranch) !in {"", "develop"} then Err(Conflict)
      else match ParseStrategy(req.strategy)
        case Some(strategy) => Ok(strategy)
        case None => Err(BadRequest)
  }

  function NewPromotion(row: Effort, req: Request, strategy: Strategy): Promotion
    requires req.Promote?
  {
    Promotion(req.id, if row.workBranch.Some? then row.workBranch.value else "", "develop", strategy,
              if req.mergeCommitSha == "" then PreflightPassed else Completed,
              if req.mergeCommitSha == "" then None else ValidCommitSha(req.mergeCommitSha))
  }

  /** An open promotion is answered again; otherwise a new one is recorded. */
  ghost function Recorded(s: State, req: Request, strategy: Strategy): Result<State, Rejection>
    requires req.Promote? && req.id in s.efforts
  {
    var row := s.efforts[req.id];
    if exists k :: 0 <= k < |s.promotions| && Repeats(s.promotions[k], row, req.id, strategy) then Ok(s)
    else if req.mergeCommitSha != "" && ValidCommitSha(req.mergeCommitSha).None? then Err(BadRequest)
    else Ok(WithPromotion(s, req.id, NewPromotion(row, req, strategy)))
  }

  function WithPromotion(s: State, id: EffortId, p: Promotion): State
    requires id in s.efforts
  {
    State(s.efforts[id := s.efforts[id].(status := if p.status == Completed then PromotedToDevelop else PromotionRequested)],
          s.promotions + [p])
  }

  ghost function PromotedState(s: State, req: Request): Result<State, Rejection>
    requires req.Promote?
  {
    match Preflight(s, req)
    case Err(e) => Err(e)
    case Ok(strategy) => Recorded(s, req, strategy)
  }

  predicate Repeats(p: Promotion, row: Effort, id: EffortId, strategy: Strategy) {
    OpenFor(p, id, strategy) && Some(p.fromBranch) == row.workBranch && p.toBranch == "develop"
  }

  ghost function Handled(s: State, req: Request): Result<State, Rejection> {
    match req
    case Create(_, _, _, _, _, _, _, _, _, _) => Created(s, req)
    case ResolveSource(_, _) => SourceResolvedState(s, req)
    case AllocateBranch(_, _, _, _) => BranchAllocatedState(s, req)
    case AllocateWorktree(_, _, _, _, _) => WorktreeAllocatedState(s, req)
    case Promote(_, _, _, _) => PromotedState(s, req)
  }

  /** A rejected request changes nothing. */
  ghost function After(s: State, req: Request): State {
    match Handled(s, req)
    case Ok(t) => t
    case Err(_) => s
  }

  // ---- what each request answers, on the columns ----------------------------

  /** The request answers, writes the row, and touches nothing else. */
  ghost predicate WritesRow(s: State, req: Request, id: EffortId, row: Effort) {
    Handled(s, req) == Ok(s.(efforts := s.efforts[id := row]))
  }

  ghost predicate Rejected(s: State, req: Request, e: Rejection) {
    Handled(s, req) == Err(e) && After(s, req) == s
  }

  /** What is set in a column for a text: nothing if it is blank. */
  function Column(text: string): Option<string> {
    if Strip(text) == "" then None else Some(Strip(text))
  }

  /** The row of a creation: trimmed, its own owner or the actor, nothing allocated. */
  predicate CreateColumns(row: Effort, req: Request)
    requires req.Create?
  {
    && row.workspace == req.workspace && row.artifactSlug == Strip(req.artifactSlug)
    && row.repoKey == Column(req.repo.key) && row.repoUrl == Column(req.repo.url) && row.repoSubpath == Column(req.repo.subpath)
    && row.baseBranch == Strip(req.baseBranch) && row.targetBranch == Strip(req.targetBranch)
    && row.workBranch == None && row.worktreePath == None && row.status == EffortCreated
    && (Strip(req.owner) != "" ==> row.owner == Strip(req.owner))
    && (req.owner == "" && Strip(req.actor) != "" ==> row.owner == Strip(req.actor))
    && (req.owner != "" && Strip(req.owner) == "" ==> row.owner == req.actor)
  }

  /** A creation is accepted exactly with a workspace, valid references, two valid branches and a fresh id. */
  lemma CreateExactly(s: State, req: Request)
    requires req.Create?
    ensures var valid := ValidBranch(req.baseBranch, false) != None && ValidBranch(req.targetBranch, true) != None;
            if !req.workspaceExists then Rejected(s, req, NotFound)
            else if !req.referencesValid || !valid then Rejected(s, req, BadRequest)
            else if req.id in s.efforts then Rejected(s, req, Conflict)
            else exists row :: WritesRow(s, req, req.id, row) && CreateColumns(row, req)
  {
    hide Strip;
    StripTrims("");
    if Handled(s, req).Ok? {
      var row := Handled(s, req).value.efforts[req.id];
      ValidBranchExactly(req.baseBranch, false, row.baseBranch);
      ValidBranchExactly(req.targetBranch, true, row.targetBranch);
      assert WritesRow(s, req, req.id, row) && CreateColumns(row, req);
    }
  }

  /** What a git source says replaces what the row said, where it says something; its branch replaces a base branch that
      is still the default; the status leaves only its first value. */
  predicate SourceColumns(was: Effort, now: Effort, source: Source) {
    && now.repoKey == (if Strip(source.repoKey) == "" then was.repoKey else Some(Strip(source.repoKey)))
    && now.repoUrl == (if Strip(source.repoUrl) == "" then was.repoUrl else Some(Strip(source.repoUrl)))
    && now.repoSubpath == (if Strip(source.subpath) == "" then was.repoSubpath else Some(Strip(source.subpath)))
    && now.baseBranch == (if Strip(was.baseBranch) in {"", "develop"} && Strip(source.branchHint) != ""
                          then Strip(source.branchHint) else was.baseBranch)
    && now.status == (if was.status == EffortCreated then SourceResolved else was.status)
    && now == was.(repoKey := now.repoKey, repoUrl := now.repoUrl, repoSubpath := now.repoSubpath,
                   baseBranch := now.baseBranch, status := now.status)
  }

  /** A source is taken over exactly if it is a git source that names a repository and its branch, where it is used, is
      valid. */
  lemma ResolveExactly(s: State, req: Request)
    requires req.ResolveSource?
    ensures if req.id !in s.efforts || req.source == None then Rejected(s, req, NotFound)
            else
              var row, source := s.efforts[req.id], req.source.value;
              var hinted := Strip(row.baseBranch) in {"", "develop"} && Strip(source.branchHint) != "";
              if Lower(Strip(source.kind)) != "git" || (Strip(source.repoKey) == "" && Strip(source.repoUrl) == "")
              then Rejected(s, req, Conflict)
              else if hinted && ValidBranch(source.branchHint, false) == None then Rejected(s, req, BadRequest)
              else exists now :: WritesRow(s, req, req.id, now) && SourceColumns(row, now, source)
  {
    hide Lower, Strip;
    if req.id in s.efforts && req.source != None {
      var source := req.source.value;
      StripTrims(source.branchHint);
      assert Strip(Strip(source.branchHint)) == Strip(source.branchHint) by {
        StripTrims(Strip(source.branchHint));
      }
      if Handled(s, req).Ok? {
        var now := Handled(s, req).value.efforts[req.id];
        ValidBranchExactly(Strip(source.branchHint), false, now.baseBranch);
        assert WritesRow(s, req, req.id, now) && SourceColumns(s.efforts[req.id], now, source);
      }
    }
  }

  /** The branch an allocation validates: the one asked for, or the one of the row, or the default. */
  predicate Considers(asked: string, kept: string, branch: string) {
    && (asked != "" ==> branch == asked)
    && (asked == "" && kept != "" ==> branch == kept)
    && (asked == "" && kept == "" ==> branch == "develop")
  }

  /** An allocation that names somebody who is not the owner of the row is refused and changes nothing. Otherwise it is
      accepted exactly if both branches are valid, the row has no other work branch, and no other effort of the
      workspace has this one: the owner, and whoever names nobody, is never refused on that ground. */
  lemma AllocateBranchExactly(s: State, req: Request, base: string, target: string)
    requires req.AllocateBranch? && req.id in s.efforts
    requires Considers(req.baseBranch, s.efforts[req.id].baseBranch, base)
    requires Considers(req.targetBranch, s.efforts[req.id].targetBranch, target)
    ensures var row := s.efforts[req.id];
            var name := "xyn/" + SanitizeArtifactSlug(row.artifactSlug) + "/" + req.id[..12];
            var free := forall other :: other in s.efforts && other != req.id && s.efforts[other].workspace == row.workspace ==>
                          s.efforts[other].workBranch != Some(name);
            if Strip(req.owner) != "" && Strip(row.owner) != "" && Strip(req.owner) != Strip(row.owner)
            then Rejected(s, req, Conflict)
            else if ValidBranch(base, false) == None || ValidBranch(target, true) == None then Rejected(s, req, BadRequest)
            else if (row.workBranch != None && row.workBranch.value != "" && row.workBranch.value != name) || !free then Rejected(s, req, Conflict)
            else WritesRow(s, req, req.id,
                           row.(baseBranch := Strip(base), targetBranch := Strip(target), workBranch := Some(name),
                                status := if row.status == EffortCreated || row.status == SourceResolved
                                          then BranchAllocated else row.status))
  {
    hide Strip, SanitizeArtifactSlug;
    var row := s.efforts[req.id];
    if ValidBranch(base, false) != None && ValidBranch(target, true) != None {
      ValidBranchExactly(base, false, ValidBranch(base, false).value);
      ValidBranchExactly(target, true, ValidBranch(target, true).value);
    }
  }

  lemma AllocateUnknown(s: State, req: Request)
    requires (req.AllocateBranch? || req.AllocateWorktree? || req.Promote?) && req.id !in s.efforts
    ensures Rejected(s, req, NotFound)
  {
  }

  /** The same for a worktree: a stranger is refused; without a work branch, or outside the root, the request is bad;
      a path that is set is answered again if it is the same; otherwise it must not be another effort's. */
  lemma AllocateWorktreeExactly(s: State, req: Request)
    requires req.AllocateWorktree? && req.id in s.efforts
    ensures var row := s.efforts[req.id];
            var free := forall other :: other in s.efforts && other != req.id ==>
                          s.efforts[other].worktreePath != Some(req.candidate);
            if Strip(req.owner) != "" && Strip(row.owner) != "" && Strip(req.owner) != Strip(row.owner)
            then Rejected(s, req, Conflict)
            else if row.workBranch == None || Strip(row.workBranch.value) == "" || !req.withinRoot then Rejected(s, req, BadRequest)
            else if row.worktreePath != None && row.worktreePath.value != "" then
              if req.resolvedCurrent == req.candidate then Handled(s, req) == Ok(s) else Rejected(s, req, Conflict)
            else if !free then Rejected(s, req, Conflict)
            else WritesRow(s, req, req.id,
                           row.(worktreePath := Some(req.candidate),
                                status := if row.status in {EffortCreated, SourceResolved, BranchAllocated}
                                          then WorktreeAllocated else row.status))
  {
    hide Strip;
  }

  /** The strategies a request can name; a blank one is the first. */
  predicate Names(text: string, strategy: Strategy) {
    match strategy
    case MergeCommit => Lower(Strip(text)) in {"", "merge_commit"}
    case Squash => Lower(Strip(text)) == "squash"
    case Rebase => Lower(Strip(text)) == "rebase"
  }

  /** A promotion of that effort and branch to develop with that strategy that is still open. */
  ghost predicate AlreadyOpen(s: State, id: EffortId, branch: string, strategy: Strategy) {
    exists p :: p in s.promotions && p.effort == id && p.fromBranch == branch && p.toBranch == "develop"
                && p.strategy == strategy && p.status != Completed
  }

  lemma NamesExactly(text: string, strategy: Strategy)
    ensures ParseStrategy(text) == Some(strategy) <==> Names(text, strategy)
  {
    hide Strip, Lower;
  }

  lemma AlreadyOpenExactly(s: State, row: Effort, id: EffortId, strategy: Strategy)
    requires row.workBranch != None
    ensures (exists k :: 0 <= k < |s.promotions| && Repeats(s.promotions[k], row, id, strategy))
       <==> AlreadyOpen(s, id, row.workBranch.value, strategy)
  {
    if AlreadyOpen(s, id, row.workBranch.value, strategy) {
      var p :| p in s.promotions && p.effort == id && p.fromBranch == row.workBranch.value && p.toBranch == "develop"
               && p.strategy == strategy && p.status != Completed;
      var k :| 0 <= k < |s.promotions| && s.promotions[k] == p;
      assert Repeats(s.promotions[k], row, id, strategy);
    }
  }

  /** Which efforts are fit for a promotion. */
  predicate FitForPromotion(row: Effort) {
    && row.workBranch != None && Strip(row.workBranch.value) != ""
    && !(row.status == EffortCreated || row.status == SourceResolved || row.status == PromotedToDevelop)
    && Strip(row.targetBranch) in {"", "develop"}
  }

  /** A promotion to develop, of an effort that is fit for it, with a strategy that exists: an open one is answered
      again; without a commit a new one waits, with a valid commit it is completed and so is the effort. */
  lemma PromoteExactly(s: State, req: Request, strategy: Strategy)
    requires req.Promote? && req.id in s.efforts && Names(req.strategy, strategy)
    ensures var row := s.efforts[req.id];
            if Strip(req.toBranch) != "develop" then Rejected(s, req, BadRequest)
            else if !FitForPromotion(row) then Rejected(s, req, Conflict)
            else
              var branch := row.workBranch.value;
              if AlreadyOpen(s, req.id, branch, strategy) then Handled(s, req) == Ok(s)
              else if req.mergeCommitSha == "" then
                Handled(s, req) == Ok(State(s.efforts[req.id := row.(status := PromotionRequested)],
                                            s.promotions + [Promotion(req.id, branch, "develop", strategy, PreflightPassed, None)]))
              else if ValidCommitSha(req.mergeCommitSha) == None then Rejected(s, req, BadRequest)
              else Handled(s, req) == Ok(State(s.efforts[req.id := row.(status := PromotedToDevelop)],
                                               s.promotions + [Promotion(req.id, branch, "develop", strategy, Completed,
                                                                         Some(Lower(Strip(req.mergeCommitSha))))]))
  {
    hide Strip, Lower, Names, AlreadyOpen, Repeats;
    NamesExactly(req.strategy, strategy);
    ToDevelopExactly(req.toBranch);
    var row := s.efforts[req.id];
    PreflightExactly(s, req, strategy);
    if row.workBranch != None {
      AlreadyOpenExactly(s, row, req.id, strategy);
    }
    ValidCommitShaExactly(req.mergeCommitSha, Lower(Strip(req.mergeCommitSha)));
  }

  lemma PreflightExactly(s: State, req: Request, strategy: Strategy)
    requires req.Promote? && req.id in s.efforts && ParseStrategy(req.strategy) == Some(strategy)
    ensures Preflight(s, req) == if Strip(req.toBranch) != "develop" then Err(BadRequest)
                                 else if !FitForPromotion(s.efforts[req.id]) then Err(Conflict) else Ok(strategy)
  {
    hide Strip, ParseStrategy, ValidBranch;
    ToDevelopExactly(req.toBranch);
  }

  lemma ToDevelopExactly(toBranch: string)
    ensures ValidBranch(toBranch, false) == Some("develop") <==> Strip(toBranch) == "develop"
  {
    hide Strip;
    ValidBranchExactly(toBranch, false, "develop");
  }

  /** A strategy that does not exist is refused, after the other checks. */
  lemma PromoteUnnamed(s: State, req: Request)
    requires req.Promote? && req.id in s.efforts && forall strategy :: !Names(req.strategy, strategy)
    ensures Rejected(s, req, if Strip(req.toBranch) == "develop" && !FitForPromotion(s.efforts[req.id]) then Conflict
                             else BadRequest)
  {
    hide Strip, Lower, Names;
    ToDevelopExactly(req.toBranch);
    forall strategy ensures ParseStrategy(req.strategy) != Some(strategy) {
      NamesExactly(req.strategy, strategy);
    }
  }

  // ---- what every request keeps --------------------------------------------

  ghost predicate EffortInvariant(id: EffortId, row: Effort) {
    && row.status != ReadyForPromotion
    && (Rank(row.status) >= Rank(BranchAllocated) ==> row.workBranch.Some?)
    && (row.workBranch.Some? ==> row.workBranch.value == WorkBranchName(row.artifactSlug, id))
    && (row.worktreePath.Some? ==> row.workBranch.Some?)
    && row.targetBranch != "" && !("xyn/" <= row.targetBranch)
  }

  ghost predicate BranchesExclusive(efforts: map<EffortId, Effort>) {
    forall id :: id in efforts && efforts[id].workBranch.Some? ==>
      !BranchTaken(efforts, id, efforts[id].workspace, efforts[id].workBranch.value)
  }

  ghost predicate PathsExclusive(efforts: map<EffortId, Effort>) {
    forall id :: id in efforts && efforts[id].worktreePath.Some? ==> !PathTaken(efforts, id, efforts[id].worktreePath.value)
  }

  predicate CompletedFor(p: Promotion, id: EffortId) {
    p.effort == id && p.status == Completed
  }

  predicate Wellformed(p: Promotion) {
    && p.toBranch == "develop" && p.status in {PreflightPassed, Completed}
    && (p.status == Completed <==> p.mergeCommitSha.Some?)
    && (p.status == Completed ==> ValidCommitSha(p.mergeCommitSha.value) == p.mergeCommitSha)
  }

  /** What a promotion says about its effort. */
  predicate Fits(efforts: map<EffortId, Effort>, p: Promotion) {
    && p.effort in efforts && efforts[p.effort].workBranch == Some(p.fromBranch)
    && efforts[p.effort].status == (if p.status == Completed then PromotedToDevelop else efforts[p.effort].status)
    && efforts[p.effort].status in {PromotionRequested, PromotedToDevelop}
  }

  /** Two promotions of one effort: the earlier one is not completed, and they are not both open with one strategy. */
  predicate Compatible(earlier: Promotion, later: Promotion) {
    earlier.effort == later.effort ==>
      earlier.status != Completed && (Open(earlier) && Open(later) ==> earlier.strategy != later.strategy)
  }

  ghost predicate PromotionsFit(s: State) {
    forall k :: 0 <= k < |s.promotions| ==> Wellformed(s.promotions[k]) && Fits(s.efforts, s.promotions[k])
  }

  ghost predicate PromotionsCompatible(ps: seq<Promotion>) {
    forall j, k :: 0 <= j < k < |ps| ==> Compatible(ps[j], ps[k])
  }

  ghost predicate HasCompleted(s: State, id: EffortId) {
    exists k :: 0 <= k < |s.promotions| && CompletedFor(s.promotions[k], id)
  }

  ghost predicate HasOpen(s: State, id: EffortId) {
    exists k :: 0 <= k < |s.promotions| && s.promotions[k].effort == id && Open(s.promotions[k])
  }

  ghost predicate Witnessed(s: State) {
    && (forall id :: id in s.efforts && s.efforts[id].status == PromotedToDevelop ==> HasCompleted(s, id))
    && (forall id :: id in s.efforts && s.efforts[id].status == PromotionRequested ==> HasOpen(s, id))
  }

  ghost predicate RowsGood(efforts: map<EffortId, Effort>) {
    && (forall id :: id in efforts ==> EffortInvariant(id, efforts[id]))
    && BranchesExclusive(efforts) && PathsExclusive(efforts)
  }

  ghost predicate Invariant(s: State) {
    RowsGood(s.efforts) && PromotionsFit(s) && PromotionsCompatible(s.promotions) && Witnessed(s)
  }

  /** How one request may move a row: the status never goes down, a branch or a path once set stays. */
  ghost predicate Forward(was: Effort, now: Effort) {
    && Rank(was.status) <= Rank(now.status)
    && now.artifactSlug == was.artifactSlug && now.workspace == was.workspace && now.owner == was.owner
    && (was.workBranch.Some? ==> now.workBranch == was.workBranch)
    && (was.worktreePath.Some? && was.worktreePath.value != "" ==> now.worktreePath == was.worktreePath)
  }

  ghost predicate Sound(s: State, t: State) {
    && Invariant(t)
    && (forall id :: id in s.efforts ==> id in t.efforts && Forward(s.efforts[id], t.efforts[id]))
    && s.promotions <= t.promotions
  }

  /** A row is written, and what it names is not taken by another row. */
  lemma WriteKeepsRowsGood(efforts: map<EffortId, Effort>, id: EffortId, now: Effort)
    requires RowsGood(efforts) && EffortInvariant(id, now)
    requires now.workBranch.Some? ==> !BranchTaken(efforts, id, now.workspace, now.workBranch.value)
    requires now.worktreePath.Some? ==> !PathTaken(efforts, id, now.worktreePath.value)
    ensures RowsGood(efforts[id := now])
  {
    var after := efforts[id := now];
    forall a | a in after && after[a].workBranch.Some?
      ensures !BranchTaken(after, a, after[a].workspace, after[a].workBranch.value)
    {
      if a != id {
        assert !BranchTaken(efforts, a, efforts[a].workspace, efforts[a].workBranch.value);
      }
    }
    forall a | a in after && after[a].worktreePath.Some? ensures !PathTaken(after, a, after[a].worktreePath.value) {
      if a != id {
        assert !PathTaken(efforts, a, efforts[a].worktreePath.value);
      }
    }
  }

  /** A row is written and the promotions are not. */
  lemma WriteKeepsPromotions(s: State, id: EffortId, now: Effort)
    requires PromotionsFit(s) && Witnessed(s)
    requires id in s.efforts ==> (s.efforts[id].workBranch.Some? ==> now.workBranch == s.efforts[id].workBranch)
    requires (id in s.efforts && now.status == s.efforts[id].status) || Rank(now.status) < Rank(PromotionRequested)
    requires id in s.efforts ==> Rank(s.efforts[id].status) <= Rank(now.status)
    ensures PromotionsFit(s.(efforts := s.efforts[id := now])) && Witnessed(s.(efforts := s.efforts[id := now]))
  {
    var t := s.(efforts := s.efforts[id := now]);
    forall k | 0 <= k < |s.promotions| ensures Fits(t.efforts, s.promotions[k]) {
      assert Fits(s.efforts, s.promotions[k]);
    }
    forall other | other in t.efforts
      ensures t.efforts[other].status == PromotedToDevelop ==> HasCompleted(t, other)
      ensures t.efforts[other].status == PromotionRequested ==> HasOpen(t, other)
    {
      assert HasCompleted(s, other) ==> HasCompleted(t, other);
      assert HasOpen(s, other) ==> HasOpen(t, other);
    }
  }

  lemma WriteSound(s: State, id: EffortId, now: Effort)
    requires Invariant(s) && EffortInvariant(id, now)
    requires now.workBranch.Some? ==> !BranchTaken(s.efforts, id, now.workspace, now.workBranch.value)
    requires now.worktreePath.Some? ==> !PathTaken(s.efforts, id, now.worktreePath.value)
    requires (id in s.efforts && now.status == s.efforts[id].status) || Rank(now.status) < Rank(PromotionRequested)
    requires id in s.efforts ==> Forward(s.efforts[id], now)
    ensures Sound(s, s.(efforts := s.efforts[id := now]))
  {
    WriteKeepsRowsGood(s.efforts, id, now);
    WriteKeepsPromotions(s, id, now);
  }

  lemma CreateSound(s: State, req: Request)
    requires Invariant(s) && req.Create? && Created(s, req).Ok?
    ensures Sound(s, Created(s, req).value)
  {
    hide RowsGood, PromotionsFit, Witnessed, Strip, Override, WorkBranchName;
    var now := Created(s, req).value.efforts[req.id];
    ValidTargetOutsideWorkBranches(req.targetBranch, now.targetBranch);
    WriteSound(s, req.id, now);
  }

  predicate SmallMove(was: Effort, now: Effort) {
    Rank(was.status) <= Rank(now.status) && (now.status == was.status || Rank(now.status) < Rank(PromotionRequested))
  }

  lemma SourceMove(id: EffortId, row: Effort, source: Source)
    requires EffortInvariant(id, row) && WithSource(row, source).Ok?
    ensures var now := WithSource(row, source).value;
            && EffortInvariant(id, now) && Forward(row, now) && SmallMove(row, now)
            && now.workBranch == row.workBranch && now.worktreePath == row.worktreePath
  {
    hide ValidBranch, WorkBranchName, Strip, Lower, Override;
  }

  lemma BranchMove(id: EffortId, row: Effort, base: string, target: string)
    requires EffortInvariant(id, row) && target != "" && !("xyn/" <= target)
    ensures var now := WithBranch(row, id, base, target);
            && EffortInvariant(id, now) && Forward(row, now) && SmallMove(row, now)
  {
  }

  lemma WorktreeMove(id: EffortId, row: Effort, path: string)
    requires EffortInvariant(id, row) && !Blank(row.workBranch)
    requires row.worktreePath.Some? ==> row.worktreePath.value == ""
    ensures var now := WithWorktree(row, path);
            EffortInvariant(id, now) && Forward(row, now) && SmallMove(row, now)
  {
  }

  lemma RowsOwnTheirNames(s: State, id: EffortId)
    requires Invariant(s) && id in s.efforts
    ensures var row := s.efforts[id];
            && EffortInvariant(id, row)
            && (row.workBranch.Some? ==> !BranchTaken(s.efforts, id, row.workspace, row.workBranch.value))
            && (row.worktreePath.Some? ==> !PathTaken(s.efforts, id, row.worktreePath.value))
  {
  }

  lemma ResolveSourceSound(s: State, req: Request)
    requires Invariant(s) && req.ResolveSource? && SourceResolvedState(s, req).Ok?
    ensures Sound(s, SourceResolvedState(s, req).value)
  {
    RowsOwnTheirNames(s, req.id);
    SourceMove(req.id, s.efforts[req.id], req.source.value);
    WriteSound(s, req.id, WithSource(s.efforts[req.id], req.source.value).value);
  }

  lemma AllocateBranchSound(s: State, req: Request)
    requires Invariant(s) && req.AllocateBranch? && BranchAllocatedState(s, req).Ok?
    ensures Sound(s, BranchAllocatedState(s, req).value)
  {
    var row := s.efforts[req.id];
    var base := ValidBranch(OrKept(req.baseBranch, row.baseBranch), false).value;
    var target := ValidBranch(OrKept(req.targetBranch, row.targetBranch), true).value;
    ValidTargetOutsideWorkBranches(OrKept(req.targetBranch, row.targetBranch), target);
    RowsOwnTheirNames(s, req.id);
    BranchMove(req.id, row, base, target);
    WriteSound(s, req.id, WithBranch(row, req.id, base, target));
  }

  lemma AllocateWorktreeSound(s: State, req: Request)
    requires Invariant(s) && req.AllocateWorktree? && WorktreeAllocatedState(s, req).Ok?
    ensures Sound(s, WorktreeAllocatedState(s, req).value)
  {
    var row := s.efforts[req.id];
    RowsOwnTheirNames(s, req.id);
    if row.worktreePath.None? || row.worktreePath.value == "" {
      WorktreeMove(req.id, row, req.candidate);
      WriteSound(s, req.id, WithWorktree(row, req.candidate));
    }
  }

  lemma ShaStays(value: string)
    requires ValidCommitSha(value).Some?
    ensures ValidCommitSha(ValidCommitSha(value).value) == ValidCommitSha(value)
  {
    StripTrims(value);
    LowerTrims(Strip(value));
    StripTrims(Lower(Strip(value)));
  }

  lemma NewPromotionWellformed(row: Effort, req: Request, strategy: Strategy)
    requires req.Promote? && (req.mergeCommitSha != "" ==> ValidCommitSha(req.mergeCommitSha).Some?)
    ensures Wellformed(NewPromotion(row, req, strategy))
  {
    if req.mergeCommitSha != "" {
      ShaStays(req.mergeCommitSha);
    }
  }

  lemma UnrepeatedIsCompatible(s: State, id: EffortId, strategy: Strategy, p: Promotion)
    requires PromotionsFit(s) && id in s.efforts && Promotable(s.efforts[id].status)
    requires p.effort == id && p.strategy == strategy
    requires !exists k :: 0 <= k < |s.promotions| && Repeats(s.promotions[k], s.efforts[id], id, strategy)
    ensures forall k :: 0 <= k < |s.promotions| ==> Compatible(s.promotions[k], p)
  {
    forall k | 0 <= k < |s.promotions| ensures Compatible(s.promotions[k], p) {
      assert Fits(s.efforts, s.promotions[k]) && !Repeats(s.promotions[k], s.efforts[id], id, strategy);
    }
  }

  lemma PromotableHasBranch(efforts: map<EffortId, Effort>, id: EffortId)
    requires RowsGood(efforts) && id in efforts && Promotable(efforts[id].status)
    ensures efforts[id].workBranch.Some?
  {
    assert EffortInvariant(id, efforts[id]);
  }

  lemma RecordedSound(s: State, req: Request, strategy: Strategy)
    requires Invariant(s) && req.Promote? && req.id in s.efforts && Promotable(s.efforts[req.id].status)
    requires Recorded(s, req, strategy).Ok?
    ensures Sound(s, Recorded(s, req, strategy).value)
  {
    var row := s.efforts[req.id];
    if !exists k :: 0 <= k < |s.promotions| && Repeats(s.promotions[k], row, req.id, strategy) {
      NewPromotionWellformed(row, req, strategy);
      var p := NewPromotion(row, req, strategy);
      UnrepeatedIsCompatible(s, req.id, strategy, p);
      PromotableHasBranch(s.efforts, req.id);
      AddSound(s, req.id, p);
    }
  }

  lemma PromoteSound(s: State, req: Request)
    requires Invariant(s) && req.Promote? && PromotedState(s, req).Ok?
    ensures Sound(s, PromotedState(s, req).value)
  {
    RecordedSound(s, req, Preflight(s, req).value);
  }

  /** A promotion is added that agrees with all the earlier ones. */
  lemma AddSound(s: State, id: EffortId, p: Promotion)
    requires Invariant(s) && id in s.efforts && Promotable(s.efforts[id].status)
    requires p.effort == id && s.efforts[id].workBranch == Some(p.fromBranch) && Wellformed(p)
    requires forall k :: 0 <= k < |s.promotions| ==> Compatible(s.promotions[k], p)
    ensures Sound(s, WithPromotion(s, id, p))
  {
    RowsOwnTheirNames(s, id);
    WriteKeepsRowsGood(s.efforts, id, WithPromotion(s, id, p).efforts[id]);
    AddFits(s, id, p);
    AddKeepsWitnesses(s, id, p);
    AddForward(s, id, p);
  }

  lemma AddForward(s: State, id: EffortId, p: Promotion)
    requires id in s.efforts && Promotable(s.efforts[id].status)
    ensures forall a :: a in s.efforts ==> a in WithPromotion(s, id, p).efforts
                                           && Forward(s.efforts[a], WithPromotion(s, id, p).efforts[a])
  {
  }

  lemma AddFits(s: State, id: EffortId, p: Promotion)
    requires PromotionsFit(s) && PromotionsCompatible(s.promotions) && id in s.efforts && Promotable(s.efforts[id].status)
    requires p.effort == id && s.efforts[id].workBranch == Some(p.fromBranch) && Wellformed(p)
    requires forall k :: 0 <= k < |s.promotions| ==> Compatible(s.promotions[k], p)
    ensures PromotionsFit(WithPromotion(s, id, p)) && PromotionsCompatible(WithPromotion(s, id, p).promotions)
  {
    var t := WithPromotion(s, id, p);
    forall k | 0 <= k < |s.promotions| ensures Fits(t.efforts, s.promotions[k]) {
      assert Fits(s.efforts, s.promotions[k]) && Compatible(s.promotions[k], p);
    }
  }

  lemma AddKeepsWitnesses(s: State, id: EffortId, p: Promotion)
    requires Witnessed(s) && id in s.efforts && p.effort == id && p.status in {PreflightPassed, Completed}
    ensures Witnessed(WithPromotion(s, id, p))
  {
    var t := WithPromotion(s, id, p);
    assert t.promotions[|s.promotions|] == p;
    forall other | other in t.efforts
      ensures t.efforts[other].status == PromotedToDevelop ==> HasCompleted(t, other)
      ensures t.efforts[other].status == PromotionRequested ==> HasOpen(t, other)
    {
      if other == id {
        assert p.status == Completed ==> CompletedFor(t.promotions[|s.promotions|], id);
      } else {
        MorePromotions(s, t, other);
      }
    }
  }

  lemma MorePromotions(s: State, t: State, id: EffortId)
    requires s.promotions <= t.promotions
    ensures HasCompleted(s, id) ==> HasCompleted(t, id)
    ensures HasOpen(s, id) ==> HasOpen(t, id)
  {
    if k :| 0 <= k < |s.promotions| && CompletedFor(s.promotions[k], id) {
      assert CompletedFor(t.promotions[k], id);
    }
    if k :| 0 <= k < |s.promotions| && s.promotions[k].effort == id && Open(s.promotions[k]) {
      assert t.promotions[k].effort == id && Open(t.promotions[k]);
    }
  }

  /** Every request keeps the invariant and moves every effort forward. */
  lemma RequestSound(s: State, req: Request)
    requires Invariant(s)
    ensures Sound(s, After(s, req))
  {
    if Handled(s, req).Ok? {
      match req
      case Create(_, _, _, _, _, _, _, _, _, _) => CreateSound(s, req);
      case ResolveSource(_, _) => ResolveSourceSound(s, req);
      case AllocateBranch(_, _, _, _) => AllocateBranchSound(s, req);
      case AllocateWorktree(_, _, _, _, _) => AllocateWorktreeSound(s, req);
      case Promote(_, _, _, _) => PromoteSound(s, req);
    }
  }

  // ---- request sequences ---------------------------------------------------

  const EMPTY: State := State(map[], [])

  ghost function AfterAll(s: State, reqs: seq<Request>): State
    decreases |reqs|
  {
    if reqs == [] then s else AfterAll(After(s, reqs[0]), reqs[1..])
  }

  lemma {:induction false} HistorySound(s: State, reqs: seq<Request>)
    requires Invariant(s)
    ensures Sound(s, AfterAll(s, reqs))
    decreases |reqs|
  {
    if reqs != [] {
      RequestSound(s, reqs[0]);
      var t := After(s, reqs[0]);
      HistorySound(t, reqs[1..]);
    }
  }

  /** In every reachable state promoted means exactly one completed promotion, which carries a commit,
      and requested means an open promotion and no completed one. */
  lemma PromotedExactly(reqs: seq<Request>, id: EffortId)
    requires id in AfterAll(EMPTY, reqs).efforts
    ensures var s := AfterAll(EMPTY, reqs);
            && (s.efforts[id].status == PromotedToDevelop <==> HasCompleted(s, id))
            && (s.efforts[id].status == PromotionRequested <==> HasOpen(s, id) && !HasCompleted(s, id))
  {
    HistorySound(EMPTY, reqs);
    PromotionsSayStatus(AfterAll(EMPTY, reqs), id);
  }

  lemma PromotionsSayStatus(s: State, id: EffortId)
    requires Invariant(s) && id in s.efforts
    ensures s.efforts[id].status == PromotedToDevelop <==> HasCompleted(s, id)
    ensures s.efforts[id].status == PromotionRequested <==> HasOpen(s, id) && !HasCompleted(s, id)
  {
    if k :| 0 <= k < |s.promotions| && CompletedFor(s.promotions[k], id) {
      assert Fits(s.efforts, s.promotions[k]);
    }
    if k :| 0 <= k < |s.promotions| && s.promotions[k].effort == id && Open(s.promotions[k]) {
      assert Fits(s.efforts, s.promotions[k]);
    }
  }

  /** At most one open promotion of an effort for each strategy, at most one completed one, and that one
      carries a well-formed commit and is the last. */
  lemma PromotionsUnique(reqs: seq<Request>, j: nat, k: nat)
    requires j < |AfterAll(EMPTY, reqs).promotions| && k < |AfterAll(EMPTY, reqs).promotions|
    ensures var ps := AfterAll(EMPTY, reqs).promotions;
            && (ps[j].effort == ps[k].effort && ps[j].strategy == ps[k].strategy && Open(ps[j]) && Open(ps[k]) ==> j == k)
            && (ps[j].effort == ps[k].effort && ps[j].status == Completed ==>
                  k <= j && ps[j].mergeCommitSha.Some? && ValidCommitSha(ps[j].mergeCommitSha.value) == ps[j].mergeCommitSha)
  {
    HistorySound(EMPTY, reqs);
    var ps := AfterAll(EMPTY, reqs).promotions;
    assert Wellformed(ps[j]);
    assert (j < k ==> Compatible(ps[j], ps[k])) && (k < j ==> Compatible(ps[k], ps[j]));
  }

  /** Promotions are added one at a time, by a promote request that passes the checks and repeats nothing. */
  lemma OnlyPromoteAdds(s: State, req: Request)
    ensures After(s, req).promotions == s.promotions
         || (req.Promote? && Preflight(s, req).Ok?
             && After(s, req).promotions
                == s.promotions + [NewPromotion(s.efforts[req.id], req, Preflight(s, req).value)]
             && !exists k :: 0 <= k < |s.promotions|
                             && Repeats(s.promotions[k], s.efforts[req.id], req.id, Preflight(s, req).value))
  {
  }

  /** No request adds a promotion to a promoted effort. */
  lemma NothingAddedAfterCompletion(s: State, req: Request, id: EffortId, k: nat)
    requires id in s.efforts && s.efforts[id].status == PromotedToDevelop
    requires |s.promotions| <= k < |After(s, req).promotions|
    ensures After(s, req).promotions[k].effort != id
  {
    OnlyPromoteAdds(s, req);
  }

  /** After completion the status stays and no promotion is ever added, whatever is requested. */
  lemma {:induction false} PromotedIsFinal(s: State, reqs: seq<Request>, id: EffortId, k: nat)
    requires Invariant(s) && id in s.efforts && s.efforts[id].status == PromotedToDevelop
    ensures id in AfterAll(s, reqs).efforts && AfterAll(s, reqs).efforts[id].status == PromotedToDevelop
    ensures |s.promotions| <= k < |AfterAll(s, reqs).promotions| ==> AfterAll(s, reqs).promotions[k].effort != id
    decreases |reqs|
  {
    if reqs != [] {
      var t := After(s, reqs[0]);
      RequestSound(s, reqs[0]);
      assert t.efforts[id].status == PromotedToDevelop;
      PromotedIsFinal(t, reqs[1..], id, k);
      if |s.promotions| <= k < |t.promotions| {
        NothingAddedAfterCompletion(s, reqs[0], id, k);
        HistorySound(t, reqs[1..]);
        assert AfterAll(t, reqs[1..]).promotions[k] == t.promotions[k];
      }
    }
  }

  // ---- repeating and completing --------------------------------------------

  /** Asking again answers the same and changes nothing. */
  lemma PromoteIsIdempotent(s: State, req: Request)
    requires Invariant(s) && req.Promote? && req.mergeCommitSha == "" && PromotedState(s, req).Ok?
    ensures PromotedState(PromotedState(s, req).value, req) == Ok(PromotedState(s, req).value)
  {
    var t := PromotedState(s, req).value;
    if t != s {
      var row := t.efforts[req.id];
      WorkBranchIsValid(row.artifactSlug, req.id);
      assert Repeats(t.promotions[|s.promotions|], row, req.id, Preflight(s, req).value);
    }
  }

  /** Exactly when a request that carries a merge commit completes the promotion: it passes the checks, the commit
      is well formed, and no promotion with the same strategy is still open. */
  lemma CompletesExactly(s: State, req: Request)
    requires Invariant(s) && req.Promote? && req.mergeCommitSha != "" && Preflight(s, req).Ok?
    ensures PromotedState(s, req).Ok? && PromotedState(s, req).value.efforts[req.id].status == PromotedToDevelop
       <==> ValidCommitSha(req.mergeCommitSha).Some? && !Pending(s, req.id, Preflight(s, req).value)
  {
    RecordedCompletesExactly(s, req, Preflight(s, req).value);
  }

  lemma RecordedCompletesExactly(s: State, req: Request, strategy: Strategy)
    requires PromotionsFit(s) && req.Promote? && req.mergeCommitSha != ""
    requires req.id in s.efforts && s.efforts[req.id].status != PromotedToDevelop
    ensures Recorded(s, req, strategy).Ok? && Recorded(s, req, strategy).value.efforts[req.id].status == PromotedToDevelop
       <==> ValidCommitSha(req.mergeCommitSha).Some? && !Pending(s, req.id, strategy)
  {
    PendingMeansRepeated(s, req.id, strategy);
  }

  lemma PendingMeansRepeated(s: State, id: EffortId, strategy: Strategy)
    requires PromotionsFit(s) && id in s.efforts
    ensures Pending(s, id, strategy)
       <==> exists k :: 0 <= k < |s.promotions| && Repeats(s.promotions[k], s.efforts[id], id, strategy)
  {
    if k :| 0 <= k < |s.promotions| && OpenFor(s.promotions[k], id, strategy) {
      assert Fits(s.efforts, s.promotions[k]) && Repeats(s.promotions[k], s.efforts[id], id, strategy);
    }
  }

  ghost predicate AllStrategiesPending(s: State, id: EffortId) {
    Pending(s, id, MergeCommit) && Pending(s, id, Squash) && Pending(s, id, Rebase)
  }

  /** Open promotions are never closed: an effort with one open promotion of each strategy can never be promoted,
      whatever is requested afterwards. */
  lemma {:induction false} AllPendingIsADeadEnd(s: State, reqs: seq<Request>, id: EffortId)
    requires Invariant(s) && id in s.efforts && AllStrategiesPending(s, id)
    requires s.efforts[id].status != PromotedToDevelop
    ensures id in AfterAll(s, reqs).efforts && AfterAll(s, reqs).efforts[id].status == PromotionRequested
    decreases |reqs|
  {
    if reqs == [] {
      var k :| 0 <= k < |s.promotions| && OpenFor(s.promotions[k], id, MergeCommit);
      assert Fits(s.efforts, s.promotions[k]);
    } else {
      var t := After(s, reqs[0]);
      RequestSound(s, reqs[0]);
      PendingStays(s, t, id, MergeCommit);
      PendingStays(s, t, id, Squash);
      PendingStays(s, t, id, Rebase);
      PendingRowStays(s, reqs[0], id);
      AllPendingIsADeadEnd(t, reqs[1..], id);
    }
  }

  lemma PendingStays(s: State, t: State, id: EffortId, strategy: Strategy)
    requires s.promotions <= t.promotions && Pending(s, id, strategy)
    ensures Pending(t, id, strategy)
  {
    var k :| 0 <= k < |s.promotions| && OpenFor(s.promotions[k], id, strategy);
    assert OpenFor(t.promotions[k], id, strategy);
  }

  lemma PendingRowStays(s: State, req: Request, id: EffortId)
    requires Invariant(s) && id in s.efforts && AllStrategiesPending(s, id)
    requires s.efforts[id].status != PromotedToDevelop
    ensures id in After(s, req).efforts && After(s, req).efforts[id].status != PromotedToDevelop
  {
    var t := After(s, req);
    RequestSound(s, req);
    PromotionsSayStatus(s, id);
    PromotionsSayStatus(t, id);
    OnlyPromoteAdds(s, req);
    if req.Promote? && Preflight(s, req).Ok? {
      PendingMeansRepeated(s, req.id, Preflight(s, req).value);
    }
    forall k | 0 <= k < |t.promotions| ensures !CompletedFor(t.promotions[k], id) {
      assert k < |s.promotions| ==> t.promotions[k] == s.promotions[k] && !CompletedFor(s.promotions[k], id);
    }
  }

  // ---- exactly which efforts can still be promoted -------------------------

  function StrategyText(strategy: Strategy): string {
    match strategy
    case MergeCommit => "merge_commit"
    case Squash => "squash"
    case Rebase => "rebase"
  }

  predicate LowerLetters(text: string) {
    forall k :: 0 <= k < |text| ==> 'a' <= text[k] <= 'z' || text[k] == '_'
  }

  lemma LowerLettersStay(text: string)
    requires LowerLetters(text)
    ensures Strip(text) == text && Lower(text) == text
  {
    StripTrims(text);
  }

  lemma StrategyTextParses(strategy: Strategy)
    ensures ParseStrategy(StrategyText(strategy)) == Some(strategy)
  {
    hide Strip, Lower;
    var text := StrategyText(strategy);
    assert LowerLetters(text);
    LowerLettersStay(text);
  }

  lemma DevelopIsValid(isTarget: bool)
    ensures ValidBranch("develop", isTarget) == Some("develop") && Strip("develop") == "develop"
  {
    StripTrims("develop");
  }

  lemma ZerosAreACommit()
    ensures ValidCommitSha("0000000") == Some("0000000")
  {
    StripTrims("0000000");
    assert Lower("0000000") == "0000000";
  }

  /** The effort has its branch and aims at develop. */
  predicate ReadyFor(s: State, id: EffortId) {
    && id in s.efforts && s.efforts[id].workBranch.Some? && s.efforts[id].targetBranch == "develop"
    && Promotable(s.efforts[id].status)
  }

  function AllocateAgain(id: EffortId): Request {
    AllocateBranch(id, "develop", "develop", "")
  }

  /** The computed branch is the effort's own, or free. */
  predicate BranchFree(s: State, id: EffortId) {
    id in s.efforts
    && (s.efforts[id].workBranch.Some?
        || !BranchTaken(s.efforts, id, s.efforts[id].workspace, WorkBranchName(s.efforts[id].artifactSlug, id)))
  }

  lemma AllocateMakesReady(s: State, id: EffortId)
    requires Invariant(s) && BranchFree(s, id) && s.efforts[id].status != PromotedToDevelop
    ensures ReadyFor(After(s, AllocateAgain(id)), id) && After(s, AllocateAgain(id)).promotions == s.promotions
  {
    hide ValidBranch, WorkBranchName, Strip;
    RowsOwnTheirNames(s, id);
    DevelopIsValid(false);
    DevelopIsValid(true);
    NothingAsked(s.efforts[id].owner);
  }

  lemma NothingAsked(owner: string)
    ensures !OwnerMismatch("", owner)
  {
    StripTrims("");
  }

  lemma PreflightPasses(s: State, id: EffortId, strategy: Strategy, sha: string)
    requires Invariant(s) && ReadyFor(s, id)
    ensures Preflight(s, Promote(id, "develop", StrategyText(strategy), sha)) == Ok(strategy)
  {
    hide ValidBranch, WorkBranchName, Strip, ParseStrategy;
    var row := s.efforts[id];
    assert EffortInvariant(id, row);
    DevelopIsValid(false);
    StrategyTextParses(strategy);
    WorkBranchIsValid(row.artifactSlug, id);
  }

  /** An effort with a strategy that is not pending can be promoted with it: two requests are enough. */
  function WayToPromotion(id: EffortId, strategy: Strategy): seq<Request> {
    [AllocateAgain(id), Promote(id, "develop", StrategyText(strategy), "0000000")]
  }

  lemma TwoRequests(s: State, a: Request, b: Request)
    ensures AfterAll(s, [a, b]) == After(After(s, a), b)
  {
    hide After;
    var t := After(s, a);
    assert [a, b][1..] == [b] && [b][1..] == [];
    assert AfterAll(s, [a, b]) == AfterAll(t, [b]) == AfterAll(After(t, b), []);
  }

  lemma WayLeadsThere(s: State, id: EffortId, strategy: Strategy)
    requires Invariant(s) && BranchFree(s, id) && s.efforts[id].status != PromotedToDevelop && !Pending(s, id, strategy)
    ensures id in AfterAll(s, WayToPromotion(id, strategy)).efforts
    ensures AfterAll(s, WayToPromotion(id, strategy)).efforts[id].status == PromotedToDevelop
  {
    hide After, Invariant, Preflight, Pending, ReadyFor, Recorded, ValidCommitSha;
    var req := Promote(id, "develop", StrategyText(strategy), "0000000");
    var t := After(s, AllocateAgain(id));
    RequestSound(s, AllocateAgain(id));
    AllocateMakesReady(s, id);
    PreflightPasses(t, id, strategy, "0000000");
    ZerosAreACommit();
    PendingDependsOnPromotions(s, t, id, strategy);
    PromotesNow(t, req, strategy);
    TwoRequests(s, AllocateAgain(id), req);
  }

  lemma PendingDependsOnPromotions(s: State, t: State, id: EffortId, strategy: Strategy)
    requires s.promotions == t.promotions
    ensures Pending(s, id, strategy) == Pending(t, id, strategy)
  {
  }

  lemma PromotesNow(s: State, req: Request, strategy: Strategy)
    requires Invariant(s) && req.Promote? && Preflight(s, req) == Ok(strategy) && !Pending(s, req.id, strategy)
    requires req.mergeCommitSha != "" && ValidCommitSha(req.mergeCommitSha).Some?
    ensures req.id in After(s, req).efforts && After(s, req).efforts[req.id].status == PromotedToDevelop
  {
    hide Invariant, Pending, ValidCommitSha;
    CompletesExactly(s, req);
  }

  /** Without a branch of its own, and with its name taken, an effort never gets one. */
  lemma NoBranchStays(s: State, req: Request, id: EffortId)
    requires Invariant(s) && id in s.efforts && s.efforts[id].workBranch.None? && !BranchFree(s, id)
    ensures id in After(s, req).efforts && After(s, req).efforts[id].workBranch.None? && !BranchFree(After(s, req), id)
  {
    hide ValidBranch, WorkBranchName, Strip, Recorded, BranchTaken;
    RequestSound(s, req);
    var t, row := After(s, req), s.efforts[id];
    assert Forward(row, t.efforts[id]);
    TakenStays(s, t, id, row.workspace, WorkBranchName(row.artifactSlug, id));
    if t.efforts[id] != row {
      BranchComesByAllocation(s, req, id);
    }
  }

  lemma TakenStays(s: State, t: State, id: EffortId, workspace: WorkspaceId, name: string)
    requires Sound(s, t) && BranchTaken(s.efforts, id, workspace, name)
    ensures BranchTaken(t.efforts, id, workspace, name)
  {
    var other :| other in s.efforts && other != id && s.efforts[other].workspace == workspace
                 && s.efforts[other].workBranch == Some(name);
    assert Forward(s.efforts[other], t.efforts[other]);
  }

  lemma BranchComesByAllocation(s: State, req: Request, id: EffortId)
    requires id in s.efforts && s.efforts[id].workBranch.None? && !BranchFree(s, id)
    ensures id in After(s, req).efforts && After(s, req).efforts[id].workBranch.None?
  {
    hide ValidBranch, WorkBranchName, Strip, Lower, ParseStrategy, ValidCommitSha;
  }

  lemma {:induction false} NoBranchIsADeadEnd(s: State, reqs: seq<Request>, id: EffortId)
    requires Invariant(s) && id in s.efforts && s.efforts[id].workBranch.None? && !BranchFree(s, id)
    ensures id in AfterAll(s, reqs).efforts && AfterAll(s, reqs).efforts[id].status != PromotedToDevelop
    decreases |reqs|
  {
    hide After, BranchFree;
    if reqs == [] {
      assert EffortInvariant(id, s.efforts[id]);
    } else {
      RequestSound(s, reqs[0]);
      NoBranchStays(s, reqs[0], id);
      NoBranchIsADeadEnd(After(s, reqs[0]), reqs[1..], id);
    }
  }

  ghost predicate Promoted(s: State, id: EffortId) {
    id in s.efforts && s.efforts[id].status == PromotedToDevelop
  }

  /** Exactly which efforts can still be promoted by some sequence of requests: those with a strategy that has no open
      promotion, and with a branch or a free name for one. */
  lemma PromotableExactly(s: State, id: EffortId)
    requires Invariant(s) && id in s.efforts && s.efforts[id].status != PromotedToDevelop
    ensures (exists reqs :: Promoted(AfterAll(s, reqs), id)) <==> !AllStrategiesPending(s, id) && BranchFree(s, id)
  {
    hide Invariant, BranchFree, Pending, AfterAll;
    if !AllStrategiesPending(s, id) && BranchFree(s, id) {
      var strategy := if !Pending(s, id, MergeCommit) then MergeCommit else if !Pending(s, id, Squash) then Squash else Rebase;
      WayLeadsThere(s, id, strategy);
      assert Promoted(AfterAll(s, WayToPromotion(id, strategy)), id);
    } else {
      forall reqs ensures !Promoted(AfterAll(s, reqs), id) {
        if AllStrategiesPending(s, id) {
          AllPendingIsADeadEnd(s, reqs, id);
        } else {
          if s.efforts[id].workBranch.Some? {
            OwnBranchIsFree(s, id);
          }
          NoBranchIsADeadEnd(s, reqs, id);
        }
      }
    }
  }

  lemma OwnBranchIsFree(s: State, id: EffortId)
    requires id in s.efforts && s.efforts[id].workBranch.Some?
    ensures BranchFree(s, id)
  {
  }

  // ---- the dead end can be reached -----------------------------------------

  function Ask(id: EffortId, strategy: Strategy): Request {
    Promote(id, "develop", StrategyText(strategy), "")
  }

  /** Create, allocate, and ask for each strategy once without a commit. */
  function WayToDeadEnd(id: EffortId): seq<Request> {
    [Create(id, 0, true, true, "app", Repo("", "", ""), "develop", "develop", "", "ann"), AllocateAgain(id),
     Ask(id, MergeCommit), Ask(id, Squash), Ask(id, Rebase)]
  }

  lemma AskOpens(s: State, id: EffortId, strategy: Strategy)
    requires Invariant(s) && ReadyFor(s, id)
    ensures var t := After(s, Ask(id, strategy));
            && id in t.efforts && Invariant(t) && ReadyFor(t, id) && Pending(t, id, strategy) && s.promotions <= t.promotions
            && t.efforts[id].status == PromotionRequested
  {
    hide Invariant, Preflight, ValidCommitSha;
    var req := Ask(id, strategy);
    var t := After(s, req);
    PreflightPasses(s, id, strategy, "");
    RequestSound(s, req);
    AskRecords(s, req, strategy);
    PromotionsSayStatus(t, id);
  }

  lemma AskRecords(s: State, req: Request, strategy: Strategy)
    requires Invariant(s) && req.Promote? && req.mergeCommitSha == "" && req.id in s.efforts && ReadyFor(s, req.id)
    requires Preflight(s, req) == Ok(strategy)
    ensures var t := After(s, req);
            && req.id in t.efforts && Pending(t, req.id, strategy)
            && t.efforts[req.id] == s.efforts[req.id].(status := PromotionRequested)
  {
    hide Preflight, ValidCommitSha, EffortInvariant, BranchesExclusive, PathsExclusive;
    var row, t := s.efforts[req.id], After(s, req);
    if k :| 0 <= k < |s.promotions| && Repeats(s.promotions[k], row, req.id, strategy) {
      assert OpenFor(s.promotions[k], req.id, strategy);
      PromotionsSayStatus(s, req.id);
    } else {
      assert OpenFor(t.promotions[|s.promotions|], req.id, strategy);
    }
  }

  lemma ThreeRequests(s: State, a: Request, b: Request, c: Request)
    ensures AfterAll(s, [a, b, c]) == After(After(After(s, a), b), c)
  {
    hide After;
    TwoRequests(After(s, a), b, c);
    assert [a, b, c][1..] == [b, c];
  }

  lemma {:induction false} AfterAllSplits(s: State, front: seq<Request>, back: seq<Request>)
    ensures AfterAll(s, front + back) == AfterAll(AfterAll(s, front), back)
    decreases |front|
  {
    hide After;
    if front == [] {
      assert front + back == back;
    } else {
      assert (front + back)[0] == front[0] && (front + back)[1..] == front[1..] + back;
      AfterAllSplits(After(s, front[0]), front[1..], back);
    }
  }

  /** Asking for each strategy once closes the way. */
  lemma AskingForAll(s: State, id: EffortId)
    requires Invariant(s) && ReadyFor(s, id)
    ensures var t := AfterAll(s, [Ask(id, MergeCommit), Ask(id, Squash), Ask(id, Rebase)]);
            id in t.efforts && AllStrategiesPending(t, id) && t.efforts[id].status == PromotionRequested
  {
    hide After, Invariant, Pending, ReadyFor;
    AskOpens(s, id, MergeCommit);
    var one := After(s, Ask(id, MergeCommit));
    AskOpens(one, id, Squash);
    var two := After(one, Ask(id, Squash));
    AskOpens(two, id, Rebase);
    var three := After(two, Ask(id, Rebase));
    PendingStays(one, two, id, MergeCommit);
    PendingStays(two, three, id, MergeCommit);
    PendingStays(two, three, id, Squash);
    ThreeRequests(s, Ask(id, MergeCommit), Ask(id, Squash), Ask(id, Rebase));
  }

  /** For every id, five requests from the empty tables lead into the dead end. */
  lemma DeadEndIsReachable(id: EffortId)
    ensures var s := AfterAll(EMPTY, WayToDeadEnd(id));
            id in s.efforts && AllStrategiesPending(s, id) && s.efforts[id].status == PromotionRequested
  {
    hide After, Invariant, ReadyFor, AfterAll;
    var way := WayToDeadEnd(id);
    NothingIsSound();
    RequestSound(EMPTY, way[0]);
    CreatedIsFree(way[0]);
    var created := After(EMPTY, way[0]);
    AllocateMakesReady(created, id);
    RequestSound(created, way[1]);
    TwoRequests(EMPTY, way[0], way[1]);
    AskingForAll(After(created, way[1]), id);
    AfterAllSplits(EMPTY, [way[0], way[1]], [Ask(id, MergeCommit), Ask(id, Squash), Ask(id, Rebase)]);
    assert way == [way[0], way[1]] + [Ask(id, MergeCommit), Ask(id, Squash), Ask(id, Rebase)];
  }

  lemma NothingIsSound()
    ensures Invariant(EMPTY)
  {
  }

  lemma CreatedIsFree(req: Request)
    requires req.Create? && req.workspaceExists && req.referencesValid
    requires req.baseBranch == "develop" && req.targetBranch == "develop"
    ensures BranchFree(After(EMPTY, req), req.id) && After(EMPTY, req).efforts[req.id].status == EffortCreated
  {
    hide ValidBranch, WorkBranchName, Strip;
    DevelopIsValid(false);
    DevelopIsValid(true);
  }
}
