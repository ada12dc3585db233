# pub-bumper version logic, modelled in Dafny

`src/index.ts` of pub-bumper is a small command-line script that runs in a
package's working directory. It asks git whether the directory is modified,
reads `package.json`, and then either advances the version (`bump`) or strips
its pre-release suffix (`release`). All of its logic is string manipulation of
the manifest's `version` field, plus a few other pieces:

- the indentation width guessed from the raw manifest text;
- a loop over the command-line tokens;
- a rule choosing which transition runs for a repository status and a mode.

The model follows the code as written, including where the code is not what a
conventional semantic-version bumper would do. Each such place is stated as a
lemma about the actual behaviour:

- **Advancing a release version.** The template at line 60 starts with a
  literal `%`, and `rev+1` concatenates, so `1.2.3` becomes
  `%1.2.31-pre-release.1`.
  - A version with fewer than three parts prints `undefined` or `NaN`: `1.2`
    becomes `%1.2.NaN-pre-release.1` and `1` becomes
    `%1.undefined.NaN-pre-release.1`.
- **Advancing a pre-release version.** Nothing is incremented, whether or not
  its tag is the configured one. A different tag is only reported.
- **A pre-release tag with no `.` after it.** `substring(dn+1, -1)` swaps its
  arguments, so the compared "tag" is everything up to and including the `-`.
- **The indentation width.** It counts the newline character, so two-blank
  indentation is read as width 3.
- **`parseCLI`.** The loop advances `i` only after `--tag`.
  - Any other token makes the loop repeat one iteration forever on an
    unchanged state.
  - The loop exits exactly when every token trims to `--tag`. A lone
    `--tag` is a non-empty argument list on which it exits.
  - An exiting parse always leaves the mode at `bump`. So release mode, and
    with it `setAsRelease`, cannot be reached from the command line.
- **`doProcess`.** It never calls `writeUpdatedPackage`, so no run writes the
  manifest back.
  - Release mode on a clean repository does nothing.
  - Status `X` is reported, and then the no-change branch runs.

Modules, one per concern of the file:

- `JsString` (`js_string.dfy`): the JavaScript primitives the code calls,
  namely `indexOf` with its start position clamped, `substring` with clamping
  and argument swap, `split` on one character, and `trim`.
- `VersionText` (`version_text.dfy`): the string computations inside
  `bumpVersion` and `setAsRelease`.
- `PackageJson` (`package_json.dfy`): the manifest reduced to its version
  field, the truthiness guard on it, and the indentation computation.
- `Cli` (`cli.dfy`): the per-token step of `parseCLI` and the run of its loop.
- `Process` (`process.dfy`): the repository status codes and the dispatch
  rule of `doProcess`.
- `Bumper` (`bumper.dfy`): the module-level mutable state (`packageData`,
  `tabsfound`, `preReleaseTag`, `workingDirectory`) as the class `PubBumper`.
  The functions that update this state in place are its methods. Each
  method's postcondition ties the new state to the functions above.
- `Wrappers` (`wrappers.dfy`): `Option`, which stands for JavaScript's
  `undefined`.

How the program's outside world is represented:

- Console output becomes the `reports` log.
- Each manifest write becomes an entry of `writes`.
- git's two answers, the manifest file and the command-line arguments are
  parameters.

## Model

| member | source | states |
|---|---|---|
| `JsString.IndexOf` | src/index.ts:40 | `indexOf` gives -1 exactly when the character is absent; otherwise it gives an index holding it with no earlier occurrence |
| `JsString.IndexOfFrom` | src/index.ts:41 | `indexOf(c, from)` searches from `from` clamped into the string: -1 when no `c` lies at or after that point, otherwise the first such position |
| `JsString.Substring` | src/index.ts:64 | `substring` returns the slice for in-order arguments and the slice between them, swapped, when the start lies after the end; with a negative end it returns the prefix up to the start |
| `JsString.Split` | src/index.ts:58 | `split('.')` yields at least one part, no part contains the separator, and joining the parts with it gives back the input |
| `JsString.SplitThree` | src/index.ts:58 | a string `x.y.z` of dot-free parts splits into exactly `[x, y, z]` |
| `JsString.Trim` | src/index.ts:112 | `trim()` never lengthens the token, and a non-empty result neither starts nor ends with white space |
| `JsString.TrimSpec` | src/index.ts:112 | `trim()` returns an infix of the token that neither starts nor ends with white space, and everything it removes on either side is white space |
| `JsString.TrimKeepsTrimmed` | src/index.ts:112 | a token that neither starts nor ends with white space is its own `trim()` |
| `VersionText.Bumped` | src/index.ts:54-69 | a version containing `-` is returned unchanged; a version without `-` never produces a tag complaint |
| `VersionText.BumpPreReleaseUnchanged` | src/index.ts:62-69 | for a version with `-` the version stays as it is whether or not the tag matches; a complaint is produced exactly when the extracted tag differs from the configured one, and it names that tag |
| `VersionText.BumpPreReleaseOf` | src/index.ts:62-69 | a version `base-t.rest` with a dash-free `base` and a dot-free `t` keeps its text, and `t` is reported exactly when it differs from the configured tag |
| `VersionText.ExistingTag` | src/index.ts:63-64 | the compared tag is the text strictly between the `-` and the next `.`, and contains no `.`; when no `.` follows, `substring` swaps its arguments and the tag is the whole prefix up to and including the `-` |
| `VersionText.BumpRelease` | src/index.ts:55-61 | a version without `-` is replaced by the line-60 template and nothing is reported |
| `VersionText.BumpReleaseThreeParts` | src/index.ts:56-61 | `maj.min.rev` becomes exactly `"%" + maj + "." + min + "." + rev + "1" + "-" + tag + ".1"` |
| `VersionText.FirstPreRelease` | src/index.ts:58-60 | the template's result always starts with `%` and ends with `-<tag>.1`, whatever the number of parts |
| `VersionText.BumpReleaseTwoParts` | src/index.ts:58-60 | a two-part version `maj.min` becomes `%maj.min.NaN-<tag>.1` |
| `VersionText.BumpReleaseOnePart` | src/index.ts:58-60 | a one-part version `maj` becomes `%maj.undefined.NaN-<tag>.1` |
| `VersionText.BumpDefaultTagExample` | src/index.ts:60 | `1.2.3` with tag `pre-release` becomes `%1.2.31-pre-release.1` |
| `VersionText.BumpMatchingSeriesExample` | src/index.ts:62-68 | `1.2.4-pre-release.1` with the matching tag is left as it is and nothing is reported: the ordinal does not advance |
| `VersionText.BumpOtherSeriesExample` | src/index.ts:62-68 | `1.2.4-alpha.1` with tag `pre-release` is left as it is and `alpha` is reported |
| `VersionText.Released` | src/index.ts:77-80 | the finalized version is a prefix of the old one with no `-`; it stops right before the first `-`; a version without `-` is unchanged |
| `VersionText.ReleasedIdempotent` | src/index.ts:77-80 | finalizing twice equals finalizing once |
| `VersionText.ReleasedIsPrefixBeforeDash` | src/index.ts:78-79 | `x-y` with a dash-free `x` finalizes to `x` |
| `VersionText.ReleasedExample` | src/index.ts:77-80 | `1.2.4-pre-release.2` finalizes to `1.2.4` |
| `PackageJson.VersionGuardCases` | src/index.ts:50 | the truthiness guard on the manifest and its version (also at lines 73 and 88) fails for no manifest, for a manifest without `version` and for the empty version, and passes for every other version |
| `PackageJson.Indentation` | src/index.ts:40-43 | the width taken from the manifest text is always at least 1 |
| `PackageJson.IndentationCases` | src/index.ts:40-43 | with a newline and a `"` after it, the width is the distance between them (never below 1); with a newline and no `"` after it, the width is 2; with no newline, it is one more than the index of the first `"`, or 2 if there is none |
| `PackageJson.IndentationCountsNewline` | src/index.ts:40-42 | a manifest whose first field is indented by `k` blanks gets width `k + 1`: the newline is counted |
| `PackageJson.IndentationTwoBlanksExample` | src/index.ts:40-42 | the usual two-blank layout is read as width 3 |
| `Cli.Classify` | src/index.ts:112-123 | a token is `--tag`, `release` or `bump` exactly when its trimmed text is that word; any other token carries its trimmed text |
| `Cli.Step` | src/index.ts:111-123 | one loop iteration either leaves `i` unchanged or advances it by one; it advances exactly on a `--tag` token, and then it keeps the mode |
| `Cli.StepCases` | src/index.ts:111-123 | `release` sets the mode to release; `bump` changes nothing; any other non-`--tag` token sets error; `--tag` advances, keeps the mode and takes a non-empty following value as the tag, otherwise keeping the tag |
| `Cli.Run` | src/index.ts:110-124 | a loop that exits ends at the end of the list in the mode it started with; one that does not exit is stuck at a position inside the list whose token is not `--tag` |
| `Cli.Parse` | src/index.ts:107-126 | a parse that returns has consumed every argument and returns mode `bump`; one that hangs is stuck on an argument that does not trim to `--tag` |
| `Cli.TokensFlagsNonEmpty` | src/index.ts:112-115 | a token that trims to `--tag` is never empty, so it is a truthy tag value |
| `Cli.DivergesAtFixedPoint` | src/index.ts:110-124 | when the loop does not exit, the state it reaches is mapped to itself by the loop body, so the loop repeats it forever |
| `Cli.ReturnsIffOnlyTagFlags` | src/index.ts:110-124 | the loop exits exactly when every remaining token is `--tag` |
| `Cli.ReturnsState` | src/index.ts:110-125 | an exiting loop keeps its mode and ends at the end of the list; its tag is the last argument when at least two tokens remained, and unchanged otherwise |
| `Cli.DivergesState` | src/index.ts:110-124 | a loop that does not exit is stuck at the first non-`--tag` token, in the mode that token selects; a non-empty token right after a `--tag` has become the tag |
| `Cli.ParseReturnsOnlyBump` | src/index.ts:107-126 | `parseCLI` returns exactly when every argument trims to `--tag`, and then the mode is `bump` |
| `Cli.NoArgumentsExample` | src/index.ts:108-110 | with no arguments the loop exits at once with mode `bump` and the tag unchanged |
| `Cli.TagValueHangs` | src/index.ts:113-123 | `--tag <value>` with an unrecognised non-empty value stores the value as the tag, then hangs on it in error mode |
| `Cli.ReleaseHangsExample` | src/index.ts:117-119 | the single argument `release` selects release mode and hangs |
| `Cli.LoneTagFlagExample` | src/index.ts:113-116 | the single argument `--tag` exits with mode `bump` and the tag unchanged |
| `Process.CheckRepoStatus` | src/index.ts:19-26 | the status is `X` exactly without a repository, `M` exactly for a modified repository, and `''` exactly for a clean one |
| `Process.Decide` | src/index.ts:131-140 | a transition runs exactly when the status is `M`; it is `setAsRelease` exactly when the mode is also release, and `bumpVersion` for every other mode |
| `Process.ReleaseOnCleanDoesNothing` | src/index.ts:134-140 | release mode on a clean repository changes nothing |
| `Process.ErrorModeBumps` | src/index.ts:136-137 | error mode on a modified repository runs `bumpVersion` |
| `Bumper.Finalized` | src/index.ts:73-80 | without a version the manifest is unchanged; with one, its version becomes the finalized version |
| `Bumper.Advanced` | src/index.ts:50-61 | without a version the manifest is unchanged; with one, its version becomes the advanced version |
| `Bumper.FinalizedIdempotent` | src/index.ts:73-80 | applying `setAsRelease` twice to a manifest equals applying it once |
| `Bumper.FinalizedPlainUnchanged` | src/index.ts:78-80 | a manifest whose version has no `-` is left unchanged by `setAsRelease` |
| `Bumper.BumpReports` | src/index.ts:50-67 | `bumpVersion` prints at most one line: "version unavailable" exactly when the guard fails; nothing exactly when the version has no `-` or its tag is the configured one; otherwise exactly one complaint, naming the tag found and the configured tag |
| `Bumper.ProcessReports` | src/index.ts:129-139 | `doProcess` first prints "processing"; its second line is "no repository" exactly for status `X`; its last line is "nothing to commit" exactly when no transition runs |
| `Bumper.ParseReports` | src/index.ts:120-122 | `parseCLI` prints at most one line, none when it returns; when it is stuck on a token, it prints that trimmed token as unrecognised exactly when the token is not `release` or `bump`, and it never complains about `--tag`, `release` or `bump` |
| `Bumper.NoRepositoryReportsThenSkips` | src/index.ts:130-140 | status `X` leaves the manifest unchanged and prints "processing", "no repository" and "nothing to commit" in that order |
| `Bumper.PubBumper.constructor` | src/index.ts:6-10 | at start nothing has been read, `tabsfound` is undefined and the tag is `pre-release` |
| `Bumper.PubBumper.ReadPackageVersion` | src/index.ts:33-46 | a missing manifest is reported, `''` is returned and nothing else changes; otherwise the parsed manifest and the width from its text are stored, and its version is returned |
| `Bumper.PubBumper.BumpVersion` | src/index.ts:49-70 | without a version, `''` is returned, the problem is reported and nothing changes; otherwise the manifest's version becomes the advanced one, which is returned, and a tag mismatch is only reported |
| `Bumper.PubBumper.SetAsRelease` | src/index.ts:72-81 | without a version, the problem is reported and nothing changes; otherwise the version is cut at its first `-` |
| `Bumper.PubBumper.WriteUpdatedPackage` | src/index.ts:87-95 | without a version, nothing is written and the problem is reported; otherwise the manifest is written once, with the stored width, which is at least 1 |
| `Bumper.PubBumper.ParseCLI` | src/index.ts:107-126 | the loop's outcome is the run of `Cli.Step` from mode `bump` and the current tag; the global tag ends as that run leaves it; an unrecognised token at which the loop hangs is reported |
| `Bumper.PubBumper.DoProcess` | src/index.ts:128-141 | the status is git's two answers mapped by `checkRepoStatus`; the manifest and the width change only as the dispatch rule selects for that status; the output follows the branches taken; the manifest is never written and the tag never changes |
| `Bumper.PubBumper.ProcessModified` | src/index.ts:134-137 | for a modified repository the manifest is read and then finalized in release mode or advanced in every other mode; the width is the one read; the output is that of the reading and of the transition; nothing is written |
| `Bumper.PubBumper.RunCommandLine` | src/index.ts:143-144 | the global tag ends as the parse leaves it; a parse that hangs changes no manifest state and prints only its complaint; a parse that returns then processes the directory in mode `bump` with the parsed tag, and its manifest, width and output are those of `doProcess`; the manifest is never written |

## Left out

- The git library (`git.open`, `isPathModified`) is foreign code. Its two answers (a repository was found, the path is modified) are inputs, which `Process.CheckRepoStatus` maps to the status.
- File-system access (`existsSync`, `readFileSync`, `writeFileSync`, `path.join`) is I/O. The manifest file is an optional input, and a write is recorded as the data and width that would be serialized.
- `JSON.parse` and `JSON.stringify` are library serialization. The parsed manifest is an input reduced to its version field; the other fields are not modelled.
- A malformed manifest makes `JSON.parse` throw; this is not modelled.
- A manifest that parses to `null` makes line 45 throw; this is not modelled.
- A version that is a truthy non-string makes `indexOf` throw; this is not modelled.
- JSON.stringify caps the indentation width at 10. The model records `tabsfound` as stored.
- Console output is an ordered log of `Report` values, not text.
- A loop that hangs would print its "unrecognized argument" line forever. The model records that line once.
- `process.argv` and `process.cwd()` are process plumbing. The arguments after the first two, and the working directory, are parameters.
- String positions count Unicode scalar values, where JavaScript counts UTF-16 code units. The two differ only for characters outside the Basic Multilingual Plane.
- Bumper.PubBumper.ParseCLI: where the source loop runs forever, the method returns `Diverges` with the state the loop repeats. `Cli.DivergesAtFixedPoint` proves that the loop body maps this state to itself.
