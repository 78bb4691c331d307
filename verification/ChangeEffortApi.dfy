/** The handlers of core/api/change_efforts.py on the two tables. The work on a row is committed at the end of a
    handler, so what was assigned before a rejection is lost with the session. */
module ChangeEffortApi {
  import opened Wrappers
  import opened Text
  import opened BranchNames
  import opened ChangeEfforts

  /** The answer and the tables are what the specification says of the request. */
  ghost predicate Answers(before: State, req: Request, after: State, r: Result<Effort, Rejection>) {
    match Handled(before, req)
    case Ok(t) => after == t && req.id in t.efforts && r == Ok(t.efforts[req.id])
    case Err(e) => after == before && r == Err(e)
  }

  class EffortTables {
    var efforts: map<EffortId, Effort>
    var promotions: seq<Promotion>

    ghost function Snapshot(): State
      reads this
    {
      State(efforts, promotions)
    }

    constructor ()
      ensures Snapshot() == EMPTY && Invariant(Snapshot())
    {
      efforts := map[];
      promotions := [];
    }

    method CreateChangeEffort(id: EffortId, workspace: WorkspaceId, workspaceExists: bool, referencesValid: bool,
                              artifactSlug: string, repo: Repo, baseBranch: string, targetBranch: string,
                              owner: string, actor: string)
      returns (r: Result<Effort, Rejection>)
      requires Invariant(Snapshot())
      modifies this
      ensures Answers(old(Snapshot()), Create(id, workspace, workspaceExists, referencesValid, artifactSlug, repo, baseBranch,
                                              targetBranch, owner, actor), Snapshot(), r)
      ensures Sound(old(Snapshot()), Snapshot())
    {
      hide ValidBranch, Strip, OwnerOf, Invariant, Sound;
      RequestSound(Snapshot(), Create(id, workspace, workspaceExists, referencesValid, artifactSlug, repo, baseBranch,
                                         targetBranch, owner, actor));
      if !workspaceExists {
        return Err(NotFound);
      }
      if !referencesValid {
        return Err(BadRequest);
      }
      var base := ValidBranch(baseBranch, false);
      if base.None? {
        return Err(BadRequest);
      }
      var target := ValidBranch(targetBranch, true);
      if target.None? {
        return Err(BadRequest);
      }
      if id in efforts {
        return Err(Conflict);
      }
      var row := Effort(workspace, Strip(artifactSlug), OwnerOf(owner, actor), None, None, None,
                        base.value, target.value, None, None, EffortCreated);
      if Strip(repo.key) != "" {
        row := row.(repoKey := Some(Strip(repo.key)));
      }
      if Strip(repo.url) != "" {
        row := row.(repoUrl := Some(Strip(repo.url)));
      }
      if Strip(repo.subpath) != "" {
        row := row.(repoSubpath := Some(Strip(repo.subpath)));
      }
      efforts := efforts[id := row];
      return Ok(row);
    }

    method ResolveChangeEffortSource(id: EffortId, source: Option<Source>) returns (r: Result<Effort, Rejection>)
      requires Invariant(Snapshot())
      modifies this
      ensures Answers(old(Snapshot()), ResolveSource(id, source), Snapshot(), r)
      ensures Sound(old(Snapshot()), Snapshot())
    {
      hide ValidBranch, Strip, Lower, Invariant, Sound;
      RequestSound(Snapshot(), ResolveSource(id, source));
      if id !in efforts || source.None? {
        return Err(NotFound);
      }
      var row, found := efforts[id], source.value;
      if Lower(Strip(found.kind)) != "git" {
        return Err(Conflict);
      }
      var repoKey, repoUrl, repoSubpath := Strip(found.repoKey), Strip(found.repoUrl), Strip(found.subpath);
      if repoKey == "" && repoUrl == "" {
        return Err(Conflict);
      }
      if repoKey != "" {
        row := row.(repoKey := Some(repoKey));
      }
      if repoUrl != "" {
        row := row.(repoUrl := Some(repoUrl));
      }
      if repoSubpath != "" {
        row := row.(repoSubpath := Some(repoSubpath));
      }
      if Strip(row.baseBranch) in {"", "develop"} {
        var hint := Strip(found.branchHint);
        if hint != "" {
          var base := ValidBranch(hint, false);
          if base.None? {
            return Err(BadRequest);
          }
          row := row.(baseBranch := base.value);
        }
      }
      if row.status == EffortCreated {
        row := row.(status := SourceResolved);
      }
      efforts := efforts[id := row];
      return Ok(row);
    }

    method AllocateChangeEffortBranch(id: EffortId, baseBranch: string, targetBranch: string, owner: string)
      returns (r: Result<Effort, Rejection>)
      requires Invariant(Snapshot())
      modifies this
      ensures Answers(old(Snapshot()), AllocateBranch(id, baseBranch, targetBranch, owner), Snapshot(), r)
      ensures id in old(efforts) && Strip(owner) !in {"", Strip(old(efforts)[id].owner)} && Strip(old(efforts)[id].owner) != "" ==>
                r == Err(Conflict) && Snapshot() == old(Snapshot())
      ensures Sound(old(Snapshot()), Snapshot())
    {
      hide ValidBranch, WorkBranchName, BranchTaken, Strip, Invariant, Sound;
      RequestSound(Snapshot(), AllocateBranch(id, baseBranch, targetBranch, owner));
      if id !in efforts {
        return Err(NotFound);
      }
      var row := efforts[id];
      if OwnerMismatch(owner, row.owner) {
        return Err(Conflict);
      }
      var base := ValidBranch(if baseBranch != "" then baseBranch else if row.baseBranch != "" then row.baseBranch
                              else "develop", false);
      if base.None? {
        return Err(BadRequest);
      }
      row := row.(baseBranch := base.value);
      var target := ValidBranch(if targetBranch != "" then targetBranch else if row.targetBranch != "" then row.targetBranch
                                else "develop", true);
      if target.None? {
        return Err(BadRequest);
      }
      row := row.(targetBranch := target.value);
      var deterministic := WorkBranchName(row.artifactSlug, id);
      if row.workBranch.Some? && row.workBranch.value != "" && row.workBranch.value != deterministic {
        return Err(Conflict);
      }
      if BranchTaken(efforts, id, row.workspace, deterministic) {
        return Err(Conflict);
      }
      row := row.(workBranch := Some(deterministic));
      if row.status in {EffortCreated, SourceResolved} {
        row := row.(status := BranchAllocated);
      }
      efforts := efforts[id := row];
      return Ok(row);
    }

    method AllocateChangeEffortWorktree(id: EffortId, owner: string, candidate: string, withinRoot: bool,
                                        resolvedCurrent: string) returns (r: Result<Effort, Rejection>)
      requires Invariant(Snapshot())
      modifies this
      ensures Answers(old(Snapshot()), AllocateWorktree(id, owner, candidate, withinRoot, resolvedCurrent), Snapshot(), r)
      ensures id in old(efforts) && Strip(owner) !in {"", Strip(old(efforts)[id].owner)} && Strip(old(efforts)[id].owner) != "" ==>
                r == Err(Conflict) && Snapshot() == old(Snapshot())
      ensures Sound(old(Snapshot()), Snapshot())
    {
      hide PathTaken, Strip, Invariant, Sound;
      RequestSound(Snapshot(), AllocateWorktree(id, owner, candidate, withinRoot, resolvedCurrent));
      if id !in efforts {
        return Err(NotFound);
      }
      var row := efforts[id];
      if OwnerMismatch(owner, row.owner) {
        return Err(Conflict);
      }
      if Blank(row.workBranch) || !withinRoot {
        return Err(BadRequest);
      }
      if row.worktreePath.Some? && row.worktreePath.value != "" {
        if resolvedCurrent != candidate {
          return Err(Conflict);
        }
        return Ok(row);
      }
      if PathTaken(efforts, id, candidate) {
        return Err(Conflict);
      }
      row := row.(worktreePath := Some(candidate));
      if row.status in {EffortCreated, SourceResolved, BranchAllocated} {
        row := row.(status := WorktreeAllocated);
      }
      efforts := efforts[id := row];
      return Ok(row);
    }

    method PromoteChangeEffort(id: EffortId, toBranch: string, strategy: string, mergeCommitSha: string)
      returns (r: Result<Effort, Rejection>)
      requires Invariant(Snapshot())
      modifies this
      ensures Answers(old(Snapshot()), Promote(id, toBranch, strategy, mergeCommitSha), Snapshot(), r)
      ensures Sound(old(Snapshot()), Snapshot())
    {
      hide ValidBranch, ValidCommitSha, ParseStrategy, Strip, Repeats, Invariant, Sound;
      ghost var req := Promote(id, toBranch, strategy, mergeCommitSha);
      RequestSound(Snapshot(), req);
      if id !in efforts {
        return Err(NotFound);
      }
      var row := efforts[id];
      var to := ValidBranch(toBranch, false);
      if to != Some("develop") {
        return Err(BadRequest);
      }
      if Blank(row.workBranch) {
        return Err(Conflict);
      }
      if row.status !in {BranchAllocated, WorktreeAllocated, ReadyForPromotion, PromotionRequested} {
        return Err(Conflict);
      }
      if Strip(row.targetBranch) !in {"", "develop"} {
        return Err(Conflict);
      }
      var parsed := ParseStrategy(strategy);
      if parsed.None? {
        return Err(BadRequest);
      }
      assert Preflight(Snapshot(), req) == Ok(parsed.value);
      if exists k :: 0 <= k < |promotions| && Repeats(promotions[k], row, id, parsed.value) {
        return Ok(row);
      }
      var status, sha := PreflightPassed, None;
      if mergeCommitSha != "" {
        sha := ValidCommitSha(mergeCommitSha);
        if sha.None? {
          return Err(BadRequest);
        }
        status := Completed;
      }
      promotions := promotions + [Promotion(id, row.workBranch.value, "develop", parsed.value, status, sha)];
      row := row.(status := if status == Completed then PromotedToDevelop else PromotionRequested);
      efforts := efforts[id := row];
      return Ok(row);
    }
  }
}
