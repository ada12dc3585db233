/**
 * The module-level state of src/index.ts (`workingDirectory`,
 * `packageData`, `tabsfound`, `preReleaseTag`) as one object, with the
 * functions that update it in place as methods. Console output becomes the
 * `reports` log and each manifest write an entry of `writes`; the
 * repository probe and the manifest file are inputs.
 */
module Bumper {
  import opened Wrappers
  import opened JsString
  import opened VersionText
  import opened PackageJson
  import opened Cli
  import opened Process

  /** The lines the program prints, by the condition that prints them. */
  datatype Report =
    | Processing(directory: string)
    | NoRepositoryFound
    | NothingToCommit
    | NoPackageJson(directory: string)
    | VersionUnavailable
    | TagDiffers(found: string, configured: string)
    | UnrecognizedArgument(argument: string)

  /** The `package.json` found in the working directory: its text and what `JSON.parse` makes of it. */
  datatype PackageFile = PackageFile(text: string, data: PackageData)

  /** One `writeFileSync` of `JSON.stringify(packageData, null, tabsfound)`. */
  datatype Written = Written(data: PackageData, indent: Option<int>)

  /** The manifest after `setAsRelease`: the version cut at its first `-`, when there is a version. */
  function Finalized(pkg: Option<PackageData>): (r: Option<PackageData>)
    ensures !HasVersion(pkg) ==> r == pkg
    ensures HasVersion(pkg) ==> r.Some? && r.value.version == Some(Released(pkg.value.version.value))
  {
    if HasVersion(pkg) then Some(pkg.value.(version := Some(Released(pkg.value.version.value))))
    else pkg
  }

  /** The manifest after `bumpVersion` with tag `tag`. */
  function Advanced(pkg: Option<PackageData>, tag: string): (r: Option<PackageData>)
    ensures !HasVersion(pkg) ==> r == pkg
    ensures HasVersion(pkg) ==> r.Some? && r.value.version == Some(Bumped(pkg.value.version.value, tag).version)
  {
    if HasVersion(pkg) then Some(pkg.value.(version := Some(Bumped(pkg.value.version.value, tag).version)))
    else pkg
  }

  /** What `bumpVersion` prints: the missing version, or a tag that differs from `tag`. */
  function BumpReports(pkg: Option<PackageData>, tag: string): (r: seq<Report>)
    ensures |r| <= 1
    ensures r == [VersionUnavailable] <==> !HasVersion(pkg)
    ensures r == [] <==> (HasVersion(pkg) &&
      var v := pkg.value.version.value;
      '-' !in v || ExistingTag(v, IndexOf(v, '-')) == tag)
    ensures r != [] && r[0].TagDiffers? ==> r[0].configured == tag
    ensures HasVersion(pkg) ==>
      var v := pkg.value.version.value;
      '-' in v && ExistingTag(v, IndexOf(v, '-')) != tag ==> r == [TagDiffers(ExistingTag(v, IndexOf(v, '-')), tag)]
  {
    if !HasVersion(pkg) then [VersionUnavailable]
    else match Bumped(pkg.value.version.value, tag).mismatch
      case Some(found) => [TagDiffers(found, tag)]
      case None => []
  }

  /** What `setAsRelease` and `writeUpdatedPackage` print. */
  function GuardReports(pkg: Option<PackageData>): seq<Report>
  {
    if HasVersion(pkg) then [] else [VersionUnavailable]
  }

  /** The manifest after `readPackageVersion`. */
  function Loaded(pkg: Option<PackageData>, file: Option<PackageFile>): Option<PackageData>
  {
    if file.Some? then Some(file.value.data) else pkg
  }

  /** `tabsfound` after `readPackageVersion`. */
  function LoadedIndent(indent: Option<int>, file: Option<PackageFile>): Option<int>
  {
    if file.Some? then Some(Indentation(file.value.text)) else indent
  }

  /** What `readPackageVersion` prints. */
  function ReadReports(file: Option<PackageFile>, directory: string): seq<Report>
  {
    if file.None? then [NoPackageJson(directory)] else []
  }

  /** The manifest after the transition `doProcess` chooses. */
  function Processed(action: Action, pkg: Option<PackageData>, file: Option<PackageFile>, tag: string): Option<PackageData>
  {
    match action
    case NoChange => pkg
    case RunSetAsRelease => Finalized(Loaded(pkg, file))
    case RunBumpVersion => Advanced(Loaded(pkg, file), tag)
  }

  /** What the branch `doProcess` takes for `action` prints. */
  function TransitionReports(action: Action, pkg: Option<PackageData>, file: Option<PackageFile>,
                             tag: string, directory: string): seq<Report>
  {
    match action
    case NoChange => [NothingToCommit]
    case RunSetAsRelease => ReadReports(file, directory) + GuardReports(Loaded(pkg, file))
    case RunBumpVersion => ReadReports(file, directory) + BumpReports(Loaded(pkg, file), tag)
  }

  /** What `doProcess` prints. */
  function ProcessReports(status: RepoStatus, action: Action, pkg: Option<PackageData>,
                          file: Option<PackageFile>, tag: string, directory: string): (r: seq<Report>)
    ensures |r| >= 1 && r[0] == Processing(directory)
    ensures status == NoRepository <==> |r| >= 2 && r[1] == NoRepositoryFound
    ensures action == NoChange <==> r[|r| - 1] == NothingToCommit
  {
    [Processing(directory)]
    + (if status == NoRepository then [NoRepositoryFound] else [])
    + TransitionReports(action, pkg, file, tag, directory)
  }

  /** What `parseCLI` prints before it exits or hangs (a hang repeats this line forever). */
  function ParseReports(args: seq<string>, outcome: CliOutcome): (r: seq<Report>)
    ensures |r| <= 1
    ensures outcome.Returns? ==> r == []
    ensures forall x :: x in r ==> x.UnrecognizedArgument? && x.argument != "--tag" && x.argument != "release" && x.argument != "bump"
    ensures outcome.Diverges? && outcome.stuck.i < |args| ==>
      var f := Trim(args[outcome.stuck.i]);
      f != "--tag" ==> r == if f == "release" || f == "bump" then [] else [UnrecognizedArgument(f)]
  {
    if outcome.Diverges? && outcome.stuck.i < |args| && Classify(args[outcome.stuck.i]).Unrecognized?
    then [UnrecognizedArgument(Classify(args[outcome.stuck.i]).text)]
    else []
  }

  /** Finalizing the manifest twice is finalizing it once. */
  lemma FinalizedIdempotent(pkg: Option<PackageData>)
    ensures Finalized(Finalized(pkg)) == Finalized(pkg)
  {
    if HasVersion(pkg) {
      ReleasedIdempotent(pkg.value.version.value);
    }
  }

  /** A manifest whose version has no `-` is left as it is by finalizing. */
  lemma FinalizedPlainUnchanged(pkg: Option<PackageData>)
    requires HasVersion(pkg) && '-' !in pkg.value.version.value
    ensures Finalized(pkg) == pkg
  {
  }

  /** Without a repository `doProcess` reports the fact and then takes the no-change branch. */
  lemma NoRepositoryReportsThenSkips(mode: Mode, pkg: Option<PackageData>, file: Option<PackageFile>,
                                     tag: string, directory: string)
    ensures Decide(NoRepository, mode) == NoChange
    ensures Processed(Decide(NoRepository, mode), pkg, file, tag) == pkg
    ensures ProcessReports(NoRepository, Decide(NoRepository, mode), pkg, file, tag, directory)
        == [Processing(directory), NoRepositoryFound, NothingToCommit]
  {
  }

  class PubBumper {
    const workingDirectory: string
    var packageData: Option<PackageData>
    var tabsfound: Option<int>
    var preReleaseTag: string
    var reports: seq<Report>
    var writes: seq<Written>

    /** A loaded manifest always comes with the positive width read alongside it. */
    ghost predicate Valid()
      reads this
    {
      packageData.Some? ==> tabsfound.Some? && tabsfound.value >= 1
    }

    /** The state at module load (lines 6-10): nothing read yet, tag `pre-release`. */
    constructor (cwd: string)
      ensures Valid()
      ensures workingDirectory == cwd && packageData == None && tabsfound == None
      ensures preReleaseTag == "pre-release" && reports == [] && writes == []
    {
      workingDirectory := cwd;
      packageData := None;
      tabsfound := None;
      preReleaseTag := "pre-release";
      reports := [];
      writes := [];
    }

    /** `readPackageVersion`, lines 33-46; `file` is the manifest found in the working directory, if any. */
    method ReadPackageVersion(file: Option<PackageFile>) returns (v: Option<string>)
      requires Valid()
      modifies this
      ensures Valid()
      ensures packageData == Loaded(old(packageData), file)
      ensures tabsfound == LoadedIndent(old(tabsfound), file)
      ensures reports == old(reports) + ReadReports(file, workingDirectory)
      ensures v == if file.Some? then file.value.data.version else Some("")
      ensures preReleaseTag == old(preReleaseTag) && writes == old(writes)
    {
      if file.None? {
        reports := reports + [NoPackageJson(workingDirectory)];
        return Some("");
      }
      var text := file.value.text;
      var eol1 := IndexOf(text, '\n');
      var qn := IndexOfFrom(text, '"', eol1);
      var width := qn - eol1;
      if width < 1 {
        width := 2;
      }
      tabsfound := Some(width);
      packageData := Some(file.value.data);
      v := packageData.value.version;
    }

    /** `bumpVersion`, lines 49-70. */
    method BumpVersion() returns (r: string)
      requires Valid()
      modifies this
      ensures Valid()
      ensures packageData == Advanced(old(packageData), preReleaseTag)
      ensures r == if HasVersion(old(packageData)) then Bumped(old(packageData).value.version.value, preReleaseTag).version else ""
      ensures reports == old(reports) + BumpReports(old(packageData), preReleaseTag)
      ensures tabsfound == old(tabsfound) && preReleaseTag == old(preReleaseTag) && writes == old(writes)
    {
      if !HasVersion(packageData) {
        reports := reports + [VersionUnavailable];
        return "";
      }
      var version := packageData.value.version.value;
      var dn := IndexOf(version, '-');
      if dn == -1 {
        var nv := FirstPreRelease(version, preReleaseTag);
        packageData := Some(packageData.value.(version := Some(nv)));
      } else {
        var tag := ExistingTag(version, dn);
        if tag != preReleaseTag {
          reports := reports + [TagDiffers(tag, preReleaseTag)];
        }
      }
      r := packageData.value.version.value;
    }

    /** `setAsRelease`, lines 72-81. */
    method SetAsRelease()
      requires Valid()
      modifies this
      ensures Valid()
      ensures packageData == Finalized(old(packageData))
      ensures reports == old(reports) + GuardReports(old(packageData))
      ensures tabsfound == old(tabsfound) && preReleaseTag == old(preReleaseTag) && writes == old(writes)
    {
      if !HasVersion(packageData) {
        reports := reports + [VersionUnavailable];
        return;
      }
      var v := packageData.value.version.value;
      var n := IndexOf(v, '-');
      if n != -1 {
        v := Substring(v, 0, n);
      }
      packageData := Some(packageData.value.(version := Some(v)));
    }

    /** `writeUpdatedPackage`, lines 87-95: only a manifest with a version is written, with the width read. */
    method WriteUpdatedPackage()
      requires Valid()
      modifies this
      ensures Valid()
      ensures writes == old(writes) + if HasVersion(old(packageData)) then [Written(old(packageData).value, old(tabsfound))] else []
      ensures HasVersion(old(packageData)) ==> tabsfound.Some? && tabsfound.value >= 1
      ensures reports == old(reports) + GuardReports(old(packageData))
      ensures packageData == old(packageData) && tabsfound == old(tabsfound) && preReleaseTag == old(preReleaseTag)
    {
      if !HasVersion(packageData) {
        reports := reports + [VersionUnavailable];
        return;
      }
      writes := writes + [Written(packageData.value, tabsfound)];
    }

    /**
     * `parseCLI`, lines 107-126. The loop exits only through a run of
     * `--tag` tokens; at any other token it would repeat the same iteration
     * forever, and the method returns the state it is stuck in instead.
     */
    method ParseCLI(args: seq<string>) returns (outcome: CliOutcome)
      requires Valid()
      modifies this
      ensures Valid()
      ensures outcome == Parse(args, old(preReleaseTag))
      ensures preReleaseTag == if outcome.Returns? then outcome.final.tag else outcome.stuck.tag
      ensures reports == old(reports) + ParseReports(args, outcome)
      ensures packageData == old(packageData) && tabsfound == old(tabsfound) && writes == old(writes)
    {
      ghost var toks := Tokens(args);
      var i := 0;
      var mode := Bump;
      while i < |args|
        invariant 0 <= i <= |args|
        invariant Run(args, toks, CliState(i, mode, preReleaseTag)) == Parse(args, old(preReleaseTag))
        invariant reports == old(reports)
        invariant packageData == old(packageData) && tabsfound == old(tabsfound) && writes == old(writes)
        decreases |args| - i
      {
        ghost var before := CliState(i, mode, preReleaseTag);
        var token := Classify(args[i]);
        assert token == toks[i];
        if token == TagFlag {
          i := i + 1;
          if i < |args| && args[i] != "" {
            preReleaseTag := args[i];
          }
          assert CliState(i, mode, preReleaseTag) == Step(args, toks, before);
        } else {
          if token == ReleaseWord {
            mode := Release;
          } else if token != BumpWord {
            reports := reports + [UnrecognizedArgument(token.text)];
            mode := Error;
          }
          // `i` stays put: every later iteration repeats this one on the same state.
          outcome := Diverges(CliState(i, mode, preReleaseTag));
          assert outcome.stuck == Step(args, toks, before);
          assert reports == old(reports) + ParseReports(args, outcome);
          return;
        }
      }
      return Returns(CliState(i, mode, preReleaseTag));
    }

    /**
     * `doProcess`, lines 128-141; `repoFound` and `pathModified` are the git
     * library's answers that `checkRepoStatus` turns into the status.
     */
    method DoProcess(mode: Mode, repoFound: bool, pathModified: bool, file: Option<PackageFile>)
      requires Valid()
      modifies this
      ensures Valid()
      ensures var status := CheckRepoStatus(repoFound, pathModified);
        && packageData == Processed(Decide(status, mode), old(packageData), file, preReleaseTag)
        && tabsfound == (if Decide(status, mode) == NoChange then old(tabsfound) else LoadedIndent(old(tabsfound), file))
        && reports == old(reports)
           + ProcessReports(status, Decide(status, mode), old(packageData), file, preReleaseTag, workingDirectory)
      ensures writes == old(writes) && preReleaseTag == old(preReleaseTag)
    {
      var status := CheckRepoStatus(repoFound, pathModified);
      ghost var action := Decide(status, mode);
      reports := reports + [Processing(workingDirectory)];
      if status == NoRepository {
        reports := reports + [NoRepositoryFound];
      }
      if status == Modified {
        ProcessModified(mode, file);
      } else {
        assert action == NoChange;
        reports := reports + [NothingToCommit];
      }
      assert reports == old(reports) + ([Processing(workingDirectory)]
        + (if status == NoRepository then [NoRepositoryFound] else [])
        + TransitionReports(action, old(packageData), file, preReleaseTag, workingDirectory));
    }

    /** Lines 135-137, the branch `doProcess` takes for a modified repository: read, then finalize or advance. */
    method ProcessModified(mode: Mode, file: Option<PackageFile>)
      requires Valid()
      modifies this
      ensures Valid()
      ensures packageData == Processed(Decide(Modified, mode), old(packageData), file, preReleaseTag)
      ensures tabsfound == LoadedIndent(old(tabsfound), file)
      ensures reports == old(reports)
          + TransitionReports(Decide(Modified, mode), old(packageData), file, preReleaseTag, workingDirectory)
      ensures writes == old(writes) && preReleaseTag == old(preReleaseTag)
    {
      var _ := ReadPackageVersion(file);
      if mode == Release {
        SetAsRelease();
      } else {
        var _ := BumpVersion();
      }
    }

    /**
     * Lines 143-144: parse the arguments, then process the working
     * directory, which happens only if the parse returns. Neither step
     * writes the manifest back.
     */
    method RunCommandLine(args: seq<string>, repoFound: bool, pathModified: bool, file: Option<PackageFile>)
      returns (outcome: CliOutcome)
      requires Valid()
      modifies this
      ensures Valid()
      ensures outcome == Parse(args, old(preReleaseTag))
      ensures preReleaseTag == if outcome.Returns? then outcome.final.tag else outcome.stuck.tag
      ensures outcome.Diverges? ==>
        && packageData == old(packageData) && tabsfound == old(tabsfound)
        && reports == old(reports) + ParseReports(args, outcome)
      ensures outcome.Returns? ==>
        var action := Decide(CheckRepoStatus(repoFound, pathModified), Bump);
        && packageData == Processed(action, old(packageData), file, outcome.final.tag)
        && tabsfound == (if action == NoChange then old(tabsfound) else LoadedIndent(old(tabsfound), file))
        && reports == old(reports) + ParseReports(args, outcome)
           + ProcessReports(CheckRepoStatus(repoFound, pathModified), action, old(packageData), file,
                            outcome.final.tag, workingDirectory)
      ensures writes == old(writes)
    {
      outcome := ParseCLI(args);
      if outcome.Returns? {
        DoProcess(outcome.final.mode, repoFound, pathModified, file);
      }
    }
  }
}
