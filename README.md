# Documentation headings and the release script, in Dafny

This project models two parts of a framework repository's tooling.

**The documentation heading pipeline** (`docs/headings.ts`):
- `parseTitle` scans a heading title letter by letter. It splits the title on backticks into text and inline-code parts, then renders them as a markup tree.
- `getHeadings` turns each heading definition of the site's frame into a processed heading:
  - the navigation title is `titleInNav || title`;
  - a list-style heading gets the U+00A0 U+2022 U+00A0 bullet prefix;
  - a heading with an emoji is wrapped by `withEmoji`.
- `assert_headings` checks that no two headings share a truthy URL.

**The release script** (`scripts/release.ts`):
- `getVersion` picks the old and the new version.
- `updateVersionMacro` rewrites the version snippet in the source files.
- `updatePackageJsonVersion` sets the package's version.
- `updateDependencies` moves every boilerplate and example to the new version.
- `bumpBoilerplateVersion` bumps the boilerplates' own `0.0.N` version.
- `release()` then runs a fixed sequence of commands, every one of them awaited, so the first failure aborts the rest:
  - install, changelog;
  - commit and tag (each guarded by the `v0` assertion);
  - build, publish of the package and of the boilerplates, push;
  - post-release test, lockfile commit, push, link.

## Files

- `Wrappers.dfy`: `Option` and `Result`.
- `Strings.dfy`: the JavaScript string operations the code relies on, for one-character separators and natural numbers:
  - `startsWith`, `includes`, `indexOf`;
  - `replace` with a string pattern;
  - `split`, `join`;
  - `String(n)` and the digits `parseInt` reads.

  Each comes with the lemmas the rest needs, such as join after split, split after join, and decimal round trips.
- `Headings.dfy`:
  - `ParseTitle` is the imperative scanner, proved equal to a declarative `TitleParts` (the pieces between backticks, alternately text and code). Its properties are proved about `TitleParts`.
  - `ProcessHeading` is the per-heading mapping.
  - `AssertHeadings` is the dictionary loop.
  - `GetHeadings` is the whole function.
- `Release.dfy`:
  - pure functions for each assertion-laden update;
  - generic folds for the loops (`UpdateEach`, `RunSteps`);
  - a `Workspace` class whose fields are the files, the manifests and the log of commands started. Its methods mirror the script's functions and are proved against the folds.

The system's collaborators are modelled as inputs:
- `getFrame().headings` is an `Option<seq<HeadingDefinition>>`.
- Files and manifests are maps from path to content.
- A directory listing is a sequence of entries.
- The command-line arguments are a sequence of strings.
- Whether a command succeeds is given by the caller as `succeeds(n, c)`: the outcome of command `c` started as the `n`-th command of the log. A command started twice, such as `git push`, has an outcome each time.

## Model

| member | source | states |
|---|---|---|
| Headings.ParseTitle | docs/headings.ts:97-139 | the tree returned is the rendering of `TitleParts(title)` (the scanner's loop agrees with the declarative split on backticks) |
| Headings.ScanLetter | docs/headings.ts:101-120 | one letter of the loop keeps the scanner's parts and current part equal to what the pieces of the title read so far give |
| Headings.CloseCode | docs/headings.ts:102-106 | a backtick inside a code span pushes that span and leaves no current part |
| Headings.OpenCode | docs/headings.ts:107-113 | a backtick outside a code span flushes the current text and opens an empty code span |
| Headings.ExtendPart | docs/headings.ts:114-119 | any other letter extends the current part, or starts a text part |
| Headings.FinishScan | docs/headings.ts:121-123 | flushing the part still open at the end yields exactly the parts of the title |
| Headings.TitleContents | docs/headings.ts:101-123 | the contents of the parts, concatenated, are the title with every backtick removed |
| Headings.PartsAreWellFormed | docs/headings.ts:108-118 | every text part is non-empty and no part holds a backtick |
| Headings.TextPartsNotAdjacent | docs/headings.ts:102-113 | no text part is directly followed by another text part |
| Headings.CodePartCount | docs/headings.ts:102-123 | with k backticks there are (k + 1) / 2 code parts, an unterminated last one included, and at most k + 1 parts |
| Headings.TitleWithoutBackticks | docs/headings.ts:97-123 | a title without backticks is one text part equal to the title, or no part when empty |
| Headings.TitleOfPieces | docs/headings.ts:97-123 | backtick-free pieces joined by backticks parse piece by piece |
| Headings.ParseUseFooNow | docs/headings.ts:97-123 | "Use `foo` now" gives text "Use ", code "foo", text " now" |
| Headings.ParseAdjacentCode | docs/headings.ts:102-113 | "`a``b`" gives two adjacent code parts |
| Headings.TitleTree | docs/headings.ts:97-139 | its contract is stated by `ParseTitle`, `TitleTreeText` and `TitleTreeIsPlain`: the parsed title is the rendering of the pieces between backticks, its text is the title without backticks, and it is a plain fragment |
| Headings.Render | docs/headings.ts:125-136 | a fragment with one child per part, in order, each reading back as its part |
| Headings.RenderRoundTrip | docs/headings.ts:125-136 | reading the rendered fragment back gives the parts |
| Headings.TitleTreeText | docs/headings.ts:97-139 | the visible text of a parsed title is the title without backticks |
| Headings.TitleTreeIsPlain | docs/headings.ts:125-138 | a parsed title is a plain fragment, with neither an emoji nor a bullet prefix |
| Headings.ProcessHeading | docs/headings.ts:49-75 | the mapping fails exactly when a present `isListTitle` is not `true` or a present `titleEmoji` is falsy, with the matching error |
| Headings.ProcessedHeadingShape | docs/headings.ts:50-73 | the fields are carried over; the title is parsed; the navigation title is, from outside in, the emoji wrap exactly when an emoji is declared, the bullet prefix exactly for a list title, and the parsed `titleInNav`, or `title` when that is absent or empty |
| Headings.NavTitle | docs/headings.ts:52 | its contract is stated by `ProcessedHeadingShape`: `titleInNav` when present and non-empty, otherwise `title` |
| Headings.Decorate | docs/headings.ts:53-67 | its contract is stated by `DecorateShape` and `DecorateText`: the emoji wrap outermost exactly when an emoji is declared, the bullet prefix inside it exactly for a list title, adding only a space and the prefix to the text |
| Headings.WithEmoji | docs/headings.ts:141-150 | its contract is stated by `WithEmojiText` and `DecorateShape`: the emoji, a space, then the title, and the emoji can be read back off |
| Headings.WithListPrefix | docs/headings.ts:91-95 | its contract is stated by `WithListPrefixText` and `DecorateShape`: the bullet prefix, then the title, and the prefix can be read back off |
| Headings.NavTitleText | docs/headings.ts:52-67 | the navigation title shows the emoji's space, the bullet prefix and the navigation title without backticks |
| Headings.DecorateShape | docs/headings.ts:54-67 | the emoji and the bullet prefix can be read back off the decorated title, the emoji outermost |
| Headings.DecorateText | docs/headings.ts:60-66 | the decorations add only the space after the emoji and the prefix to the visible text |
| Headings.WithEmojiText | docs/headings.ts:141-150 | the emoji wrap adds one space before the title |
| Headings.WithListPrefixText | docs/headings.ts:91-95 | the bullet prefix is no-break space, bullet, no-break space, before the title |
| Headings.EmojiHeadingExample | docs/headings.ts:64-67 | a level-1 heading with an emoji gets the wrapped parsed title |
| Headings.ListHeadingExample | docs/headings.ts:54-60 | a list heading gets the prefixed parsed title and no emoji |
| Headings.MapUntilError | docs/headings.ts:49-75 | its contract is stated by `MapUntilErrorOutcome` |
| Headings.ProcessHeadings | docs/headings.ts:49-75 | its contract is stated by `MapUntilErrorOutcome` and `ProcessHeading`: every definition is processed in order, and the first one refused fails the whole |
| Headings.MapUntilErrorOutcome | docs/headings.ts:49-75 | the mapping succeeds exactly when every heading maps, keeping count and order; otherwise it fails with the first failure |
| Headings.UniqueIffNoDuplicate | docs/headings.ts:80-89 | URLs are unique exactly when no truthy URL repeats an earlier one |
| Headings.AssertHeadings | docs/headings.ts:80-89 | no duplicate is reported exactly when the truthy URLs are pairwise distinct; a reported duplicate is the first repeated URL |
| Headings.DuplicateUrlExample | docs/headings.ts:83-86 | a repeated URL fails; distinct, absent or empty URLs pass |
| Headings.GetHeadings | docs/headings.ts:46-78 | no frame headings fails; otherwise success exactly when every heading maps and the URLs are unique, with one processed heading per definition in order |
| Strings.IndexOfFrom | scripts/release.ts:93-94 | the least position at or after `from` where the pattern occurs |
| Strings.Includes | scripts/release.ts:93 | true exactly when the pattern occurs somewhere |
| Strings.ReplaceFirst | scripts/release.ts:94 | only the first occurrence is replaced; without one the string is returned unchanged |
| Strings.ReplacingChanges | scripts/release.ts:94-95 | replacing an occurrence gives back the same string exactly when the replacement equals the pattern |
| Strings.Split | scripts/release.ts:109 | one piece more than separators, none holding a separator |
| Strings.JoinOfSplit | scripts/release.ts:109 | joining the pieces gives the string back |
| Strings.SplitOfJoin | scripts/release.ts:109-110 | splitting separator-free pieces joined by the separator gives the pieces back |
| Strings.ConcatOfSplit | docs/headings.ts:101-123 | the pieces, concatenated, are the string without separators |
| Strings.NatToDecimalValue | scripts/release.ts:111-112 | the digits written for n read back as n |
| Strings.CanonicalDecimalIsWritten | scripts/release.ts:81 | a canonical numeral is the one written for its value |
| Strings.DigitPrefix | scripts/release.ts:111 | the longest prefix of decimal digits |
| Release.PatchIncrement | scripts/release.ts:81 | its contract is stated by `PatchIncrementOfVersion`, `PatchIncrementIsOfVersion` and `PatchIncrementKeepsMajor`: defined exactly on `MAJOR.MINOR.PATCH` numerals, incrementing the patch number |
| Release.PatchIncrementOfVersion | scripts/release.ts:81 | `MAJOR.MINOR.PATCH` increments to `MAJOR.MINOR.(PATCH+1)` |
| Release.PatchIncrementIsOfVersion | scripts/release.ts:81 | whatever increments is such a version string |
| Release.PatchIncrementKeepsMajor | scripts/release.ts:81-84 | incrementing keeps a `0.` version a `0.` version, and no other |
| Release.PatchIncrementExample | scripts/release.ts:81 | `0.4.2` increments to `0.4.3` |
| Release.SelectVersions | scripts/release.ts:74-86 | on success the old version is kept and both versions start with `0.`; a falsy old version fails |
| Release.ExplicitVersionWins | scripts/release.ts:79-85 | a non-empty first argument is the new version, accepted exactly when both versions start with `0.` |
| Release.ImplicitVersionIncrements | scripts/release.ts:80-84 | without one, the new version is the patch increment, accepted exactly when it exists and the old version starts with `0.` |
| Release.CodeSnippet | scripts/release.ts:89 | its contract is stated by `CodeSnippetInjective` |
| Release.RewriteMacro | scripts/release.ts:89-95 | its contract is stated by `RewriteMacroOutcome` and `RewriteMacroWritesSnippet` |
| Release.CodeSnippetInjective | scripts/release.ts:89-91 | distinct versions have distinct snippets |
| Release.RewriteMacroOutcome | scripts/release.ts:89-95 | the rewrite succeeds exactly when the old snippet occurs and the version changes; its first occurrence becomes the new snippet and the rest is kept; otherwise the missing snippet or the unchanged content is reported |
| Release.RewriteMacroWritesSnippet | scripts/release.ts:94-96 | a rewritten file holds the new snippet |
| Release.UpdateEachFrame | scripts/release.ts:88-97 | the loop writes only the entries it names and creates none |
| Release.UpdateEachSuccess | scripts/release.ts:118-133 | over distinct paths the loop succeeds exactly when every entry exists and updates, and each entry is then its update |
| Release.UpdateEachStuck | scripts/release.ts:88-97 | after a failure the remaining paths change nothing |
| Release.Workspace.UpdateFiles | scripts/release.ts:88-97 | the files become the fold of the update over the paths, stopping at the first failure; manifests and commands are unchanged |
| Release.Workspace.UpdateVersionMacro | scripts/release.ts:87-98 | the files become the macro rewrite of each version file in turn, with its first failure |
| Release.UpdatePkg | scripts/release.ts:149-153 | only the named manifest changes, to its updater's result; a missing manifest or a failed updater writes nothing |
| Release.Workspace.UpdatePackageJsonVersion | scripts/release.ts:99-103 | the package's manifest gets the new version and nothing else changes |
| Release.ParseIntPlusOne | scripts/release.ts:111 | its contract is stated by `ParseIntOfDecimal`: the numeral for n gives that for n + 1 |
| Release.BumpBoilerplate | scripts/release.ts:105-114 | succeeds exactly for a `0.0.` version with two dots, giving `0.0.` and the patch number plus one |
| Release.BumpOfPatch | scripts/release.ts:108-112 | `0.0.N` bumps to `0.0.(N+1)` |
| Release.ParseIntOfDecimal | scripts/release.ts:111 | `parseInt` of the numeral written for n, plus one, is the numeral for n + 1 |
| Release.BumpKeepsShape | scripts/release.ts:108-112 | a bumped version can be bumped again |
| Release.BumpExample | scripts/release.ts:111-112 | `0.0.9` bumps to `0.0.10` |
| Release.BumpRejectExamples | scripts/release.ts:108-110 | `0.1.9` and `0.0.9.1` are refused |
| Release.Workspace.BumpBoilerplateVersion | scripts/release.ts:105-114 | the boilerplates' manifest gets the bumped version, or nothing changes |
| Release.RangePrefix | scripts/release.ts:124-127 | its contract is stated by `UpdateDependency`: `^` exactly for a path naming a boilerplate, nothing otherwise |
| Release.UpdateDependency | scripts/release.ts:119-130 | succeeds exactly when the dependency is present and equals the old version with `^` exactly for boilerplates; it then becomes the new version that way and nothing else changes |
| Release.DependenciesKeepVersions | scripts/release.ts:118-130 | moving the dependency never changes a manifest's own version or the set of manifests |
| Release.PackagePaths | scripts/release.ts:137-140 | its contract is stated by `PackagePathsMembers`: the manifests looked for, before any is resolved |
| Release.PackagePathsMembers | scripts/release.ts:137-140 | the manifests looked for are those of the listed directories whose path avoids `node_modules`, and no more than the entries |
| Release.ResolveManifests | scripts/release.ts:141-146 | resolving succeeds exactly when every manifest looked for exists, and then keeps them all in order; otherwise it fails with the first missing one |
| Release.RetrievePkgPaths | scripts/release.ts:136-147 | the loop resolves the manifests in listing order and fails at the first one missing, as `ResolveManifests` over `PackagePaths` |
| Release.RetrieveAllPkgPaths | scripts/release.ts:117 | both listings resolve exactly when every manifest looked for exists, giving the boilerplates' then the examples' manifests; otherwise a missing one is reported |
| Release.MoveDependencies | scripts/release.ts:116-134 | when every manifest looked for exists the dependencies move in turn; otherwise nothing is written and a missing manifest is reported |
| Release.Workspace.UpdateManifests | scripts/release.ts:118-133 | the manifests become the fold of the update over the paths, stopping at the first failure |
| Release.Workspace.UpdateDependencies | scripts/release.ts:116-134 | both listings are resolved before any write, a missing manifest aborting with nothing written; then the boilerplates' and the examples' manifests move to the new version in turn |
| Release.Tag | scripts/release.ts:17 | its contract is stated by `TagGuardHolds`: the tag of a `0.` version starts with `v0` |
| Release.TagGuardHolds | scripts/release.ts:17-19 | the tag of an accepted version always passes the `v0` guard |
| Release.Prepare | scripts/release.ts:10-14 | its contract is stated by `PrepareFrame` and the `Prepared…` lemmas |
| Release.PrepareFrame | scripts/release.ts:9-14 | only version files and the named manifests are written, whatever fails, and nothing is created |
| Release.PreparedMacros | scripts/release.ts:11 | after the edits every version file holds the new snippet |
| Release.PreparedPackageVersion | scripts/release.ts:12 | after the edits the package has the new version |
| Release.PreparedDependencies | scripts/release.ts:13 | after the edits every boilerplate and example depends on the new version, with a caret exactly for boilerplates |
| Release.PreparedBoilerplateVersion | scripts/release.ts:14 | after the edits the boilerplates' version is the bump of the old one |
| Release.FailFast | scripts/release.ts:15-31 | a fail-fast run starts a prefix of the commands, all but the last succeeding at its position; it fails exactly when some command fails at its position, at the last one started |
| Release.RanIsPrefix | scripts/release.ts:15-31 | the commands started are a prefix of the commands, and all but the last started succeeded |
| Release.NoFailureRunsAll | scripts/release.ts:15-31 | nothing fails exactly when every command succeeds, and then every command is started |
| Release.FailureEndsRun | scripts/release.ts:15-31 | the first failing command is the last one started |
| Release.RanConcat | scripts/release.ts:42-45 | a second batch starts only after the whole first one succeeded |
| Release.Workspace.Run | scripts/release.ts:168-171 | the command is appended to the log and fails exactly when its outcome at its position in the log is a failure |
| Release.Workspace.RunStep | scripts/release.ts:34-72 | a step logs its commands up to the first failure; commit and tag run nothing for a tag not starting with `v0` |
| Release.StepCommands | scripts/release.ts:34-72 | its contract is stated by `ReleaseScriptStart`, `PublishedAfterTagged` and `PushedAfterPublished` |
| Release.Guard | scripts/release.ts:55-62 | its contract is stated by `GuardStopsSteps` and `GuardStopsRelease` |
| Release.StepRunBound | scripts/release.ts:34-72 | a step starts at most its own commands |
| Release.StepRun | scripts/release.ts:15-31 | its contract is stated by `StepRunBound` and `Workspace.RunStep` |
| Release.RunSteps | scripts/release.ts:15-31 | its contract is stated by `RunStepsOfScript`, `RunStepsAdvance` and `RunStepsStuck` |
| Release.RepeatedPushCanFail | scripts/release.ts:24-29 | the push of the second `gitPush` can fail after the same command succeeded in the first |
| Release.RunStepsAdvance | scripts/release.ts:15-31 | one more step runs nothing after a failure, and otherwise adds that step's run |
| Release.RunStepsStuck | scripts/release.ts:15-31 | once a step has failed, the later steps change nothing |
| Release.GuardStopsSteps | scripts/release.ts:15-19 | a guard firing at the third step fails the run after at most the first two steps' commands |
| Release.GuardStopsRelease | scripts/release.ts:55-62 | with such a tag the release fails after at most install and changelog |
| Release.RunStepsOfScript | scripts/release.ts:15-31 | with a `v0` tag the steps run the whole command script fail-fast |
| Release.ScriptConcat | scripts/release.ts:15-31 | the script of two runs of steps is the first script followed by the second |
| Release.ReleaseScriptStart | scripts/release.ts:15-24 | the script starts with install, changelog, commit, tag, build, both publishes and the push |
| Release.PublishedAfterTagged | scripts/release.ts:18-22 | publishing starts only after the commit and the tag succeeded |
| Release.PushedAfterPublished | scripts/release.ts:22-24 | the first push starts only after both publishes succeeded |
| Release.Workspace.RunCommandSteps | scripts/release.ts:15-31 | the log grows by the commands of the twelve steps run fail-fast, with their failure |
| Release.CommandSteps | scripts/release.ts:15-31 | its contract is stated by `ReleaseScriptStart` and `GuardStopsRelease` |
| Release.Workspace.RunStepGroups | scripts/release.ts:15-31 | twelve steps log their fail-fast run and report its failure (the grouping into fours, with `RunStepGroup` and `RunNextStep`, only structures the proof) |
| Release.Workspace.RunStepGroup | scripts/release.ts:15-31 | four more steps extend the log and the pending failure of the steps before them to those of the longer prefix |
| Release.Workspace.RunNextStep | scripts/release.ts:15-31 | one more step extends the log and the pending failure to the next prefix; after a failure it runs nothing |
| Release.Workspace.Release | scripts/release.ts:9-32 | the files and manifests are the edits of a release; a failed edit runs no command; otherwise the log grows by the script run fail-fast with the tag `v` + new version |

## Left out

- The React runtime is reduced to a small tree datatype. `React.createElement` and the `Emoji` component are foreign UI code, so `Emoji(name)` is a leaf.
- `getFrame()` becomes the parameter of `GetHeadings`.
- The type-level constraints tying heading fields to levels 1-4 are not modelled. The processing does not depend on them.
- `urls` in `assert_headings` is a plain dictionary. JavaScript objects also answer for inherited keys such as `constructor`, and that is not modelled.
- ReplaceFirst: `String.prototype.replace` expands `$` patterns such as `$&` in the replacement string. The model inserts the replacement literally, so it assumes that the new snippet holds no `$`. A version incremented from a numeral cannot, but a version given on the command line could.
- PatchIncrement: `semver.inc` is library code and is modelled only on plain `MAJOR.MINOR.PATCH` numerals. Prerelease tags, build metadata, a `v` or `=` prefix and surrounding spaces are not modelled; such inputs give `None`. The model increments numerals of any size and any length, whereas `semver.inc` returns `null` for a number beyond JavaScript's safe integer limit or a version longer than 256 characters.
- ParseIntPlusOne: `parseInt` is modelled on a leading run of decimal digits, and an input without one gives `"NaN"`. Leading whitespace, a sign and the limits of floating point are not modelled.
- An absent `pkg.version` is modelled as the empty string, which fails the same assertions. JavaScript would throw a `TypeError` in `bumpBoilerplateVersion` instead of an assertion error.
- An absent `dependencies` object is modelled as an empty map, so it reports the missing dependency. JavaScript would throw a `TypeError` instead.
- Reading and writing files and directories is reduced to maps and listings. This covers `readFileSync`, `writeFileSync`, `readdirSync` and `lstatSync`.
- RetrievePkgPaths: `require.resolve` is modelled as a check that the manifest exists among the manifests, failing with the missing path. The resolved path is the path as written; its expansion to an absolute path and Node's module-resolution rules are not modelled.
- `require`'s module cache is not modelled. Every read sees the latest write, which is what the cache gives here.
- The `JSON.stringify` output format is not modelled: a manifest is its record.
- Running a command with `execa`, and its `stdio`, is reduced to appending the command to a log. Its success is an input, given per position in the log.
- The commented-out `npm install` after each dependency update is not modelled, since it never runs.
- `scripts/bump-lockfiles.ts`, `scripts/bump-dependencies.ts`, `scripts/link.ts` and `docs/landing-page/ContactUs.tsx` are not part of this model.
