/**
 * The repository status of `checkRepoStatus` and the decision of
 * `doProcess` (src/index.ts) about which version transition runs.
 */
module Process {
  import opened Cli

  /** The status codes of lines 13-18: 'X' (no repository), 'M' (modified) and '' (clean). */
  datatype RepoStatus = NoRepository | Modified | Clean

  /** The transition `doProcess` runs, if any. */
  datatype Action = RunSetAsRelease | RunBumpVersion | NoChange

  /**
   * Lines 19-26 with the repository library's two answers as inputs:
   * whether a repository was opened, and whether the directory is modified.
   */
  function CheckRepoStatus(repoFound: bool, pathModified: bool): (s: RepoStatus)
    ensures s == NoRepository <==> !repoFound
    ensures s == Modified <==> repoFound && pathModified
    ensures s == Clean <==> repoFound && !pathModified
  {
    if !repoFound then NoRepository
    else if pathModified then Modified
    else Clean
  }

  /** Lines 131-140: only a modified repository changes the version. */
  function Decide(status: RepoStatus, mode: Mode): (a: Action)
    ensures a != NoChange <==> status == Modified
    ensures a == RunSetAsRelease <==> status == Modified && mode == Release
    ensures a == RunBumpVersion <==> status == Modified && mode != Release
  {
    if status == Modified then
      if mode == Release then RunSetAsRelease else RunBumpVersion
    else NoChange
  }

  /** Release mode on a clean repository does nothing: finalizing needs a pending modification. */
  lemma ReleaseOnCleanDoesNothing()
    ensures Decide(Clean, Release) == NoChange
  {
  }

  /** Error mode from a bad argument still bumps a modified repository. */
  lemma ErrorModeBumps()
    ensures Decide(Modified, Error) == RunBumpVersion
  {
  }
}
