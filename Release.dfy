/** The release script: it picks the old and the new version, rewrites the
    version macro in the source files, sets the package's version, moves
    every boilerplate and example to the new version, bumps the boilerplates'
    own version, and then runs a fixed sequence of commands (install,
    changelog, commit, tag, build, publish, push, post-release test, lockfile
    commit, push, link), aborting at the first failure. Files and manifests
    are values; commands are recorded, with their success given by the
    caller. */
module Release {
  import opened Wrappers
  import opened Strings

  // ---------------------------------------------------------------------
  // Data

  /** The fields of a `package.json` the script reads and writes. An absent
      `version` is the empty string, which is just as falsy. */
  datatype Manifest = Manifest(version: string, dependencies: map<string, string>)

  /** An entry of a directory listing. */
  datatype DirEntry = DirEntry(name: string, isDirectory: bool)

  /** The repository layout the script works in, with the directory listings
      of the boilerplates and examples directories. */
  datatype Repository = Repository(
    dirRoot: string,
    dirSrc: string,
    dirBoilerplates: string,
    dirExamples: string,
    versionFiles: seq<string>,
    npmName: string,
    boilerplateEntries: seq<DirEntry>,
    exampleEntries: seq<DirEntry>)

  /** A process run by `run(cmd, args, { cwd })`. */
  datatype Command = Command(cmd: string, args: seq<string>, cwd: string)

  datatype Versions = Versions(versionOld: string, versionNew: string)

  /** The assertions and failures that abort a release. */
  datatype ReleaseError =
    | ManifestMissing(path: string)
    | VersionOldMissing
    | PatchIncrementFailed(version: string)
    | VersionNewNotZero(version: string)
    | VersionOldNotZero(version: string)
    | FileMissing(path: string)
    | SnippetMissing(path: string)
    | ContentUnchanged(path: string)
    | BoilerplateVersionNotZeroZero(version: string)
    | BoilerplateVersionParts(version: string)
    | DependencyMissing(path: string)
    | DependencyMismatch(path: string, found: string, expected: string)
    | TagNotV0(tag: string)
    | CommandFailed(command: Command)

  /** The state reached by a sequence of writes that may stop at a failed
      assertion: whatever was written before the failure stays written. */
  datatype Progress<S> = Progress(state: S, error: Option<ReleaseError>)

  // ---------------------------------------------------------------------
  // Version numbers

  /** `MAJOR.MINOR.PATCH`, as canonical numerals. */
  function VersionString(major: nat, minor: nat, patch: nat): string {
    Join([NatToDecimal(major), NatToDecimal(minor), NatToDecimal(patch)], '.')
  }

  /** `semver.inc(version, 'patch')` on a plain `MAJOR.MINOR.PATCH` version;
      `None` stands for `null`. */
  function PatchIncrement(version: string): Option<string> {
    var parts := Split(version, '.');
    if |parts| == 3 && IsCanonicalDecimal(parts[0]) && IsCanonicalDecimal(parts[1]) && IsCanonicalDecimal(parts[2])
    then Some(Join([parts[0], parts[1], NatToDecimal(DigitsValue(parts[2]) + 1)], '.'))
    else None
  }

  lemma NoSeparatorInDecimal(s: string, sep: char)
    requires AllDigits(s) && !IsDigit(sep)
    ensures sep !in s
  {
  }

  lemma SplitVersion(a: string, b: string, c: string)
    requires AllDigits(a) && AllDigits(b) && AllDigits(c)
    ensures Split(Join([a, b, c], '.'), '.') == [a, b, c]
  {
    NoSeparatorInDecimal(a, '.');
    NoSeparatorInDecimal(b, '.');
    NoSeparatorInDecimal(c, '.');
    SplitOfJoin([a, b, c], '.');
  }

  /** A version string increments its patch number. */
  lemma PatchIncrementOfVersion(major: nat, minor: nat, patch: nat)
    ensures PatchIncrement(VersionString(major, minor, patch)) == Some(VersionString(major, minor, patch + 1))
  {
    SplitVersion(NatToDecimal(major), NatToDecimal(minor), NatToDecimal(patch));
    NatToDecimalValue(patch);
  }

  /** And nothing else increments: an incremented version is a version string. */
  lemma PatchIncrementIsOfVersion(version: string)
    requires PatchIncrement(version).Some?
    ensures exists major: nat, minor: nat, patch: nat ::
      version == VersionString(major, minor, patch) &&
      PatchIncrement(version) == Some(VersionString(major, minor, patch + 1))
  {
    var parts := Split(version, '.');
    JoinOfSplit(version, '.');
    assert parts == [parts[0], parts[1], parts[2]];
    CanonicalDecimalIsWritten(parts[0]);
    CanonicalDecimalIsWritten(parts[1]);
    CanonicalDecimalIsWritten(parts[2]);
    var major, minor, patch := DigitsValue(parts[0]), DigitsValue(parts[1]), DigitsValue(parts[2]);
    assert version == VersionString(major, minor, patch);
    assert PatchIncrement(version) == Some(VersionString(major, minor, patch + 1));
  }

  /** Incrementing the patch keeps the major version, so a `0.` version stays one. */
  lemma PatchIncrementKeepsMajor(version: string)
    requires PatchIncrement(version).Some?
    ensures StartsWith(version, "0.") <==> StartsWith(PatchIncrement(version).value, "0.")
  {
    var parts := Split(version, '.');
    var next := PatchIncrement(version).value;
    var z := NatToDecimal(DigitsValue(parts[2]) + 1);
    JoinOfSplit(version, '.');
    assert parts == [parts[0], parts[1], parts[2]];
    MajorOfVersion(parts[0], parts[1], parts[2]);
    MajorOfVersion(parts[0], parts[1], z);
    MajorZero(parts[0], version);
    MajorZero(parts[0], next);
  }

  /** A version string begins with its major numeral and a dot. */
  lemma MajorOfVersion(a: string, b: string, c: string)
    ensures var v := Join([a, b, c], '.'); |a| < |v| && v[..|a|] == a && v[|a|] == '.'
  {
    JoinThree(a, b, c, '.');
    var v := Join([a, b, c], '.');
    forall i | 0 <= i < |a|
      ensures v[i] == a[i]
    {
    }
  }

  /** A version begins with `0.` exactly when its major numeral is `0`. */
  lemma MajorZero(x: string, s: string)
    requires IsCanonicalDecimal(x) && |x| < |s| && s[..|x|] == x && s[|x|] == '.'
    ensures StartsWith(s, "0.") <==> x == "0"
  {
    assert s[0] == x[0];
    if x == "0" {
      assert s[..2] == "0.";
    } else if |x| > 1 {
      assert s[1] == s[..|x|][1] == x[1];
      assert IsDigit(x[1]);
    }
  }

  lemma PatchIncrementExample()
    ensures PatchIncrement("0.4.2") == Some("0.4.3")
  {
    PatchIncrementOfVersion(0, 4, 2);
    assert NatToDecimal(0) == "0" && NatToDecimal(4) == "4" && NatToDecimal(2) == "2" && NatToDecimal(3) == "3";
    JoinThree("0", "4", "2", '.');
    JoinThree("0", "4", "3", '.');
    assert "0" + "." + "4" + "." + "2" == "0.4.2";
    assert "0" + "." + "4" + "." + "3" == "0.4.3";
  }

  /** getVersion without the reading of the manifest: the first command-line
      argument, if given and non-empty, or else the patch increment of the
      old version; both versions must be `0.` versions. */
  function SelectVersions(versionOld: string, cliArgs: seq<string>): (r: Result<Versions, ReleaseError>)
    ensures r.Ok? ==> r.value.versionOld == versionOld
    ensures r.Ok? ==> StartsWith(r.value.versionNew, "0.") && StartsWith(versionOld, "0.")
    ensures versionOld == [] ==> r == Err(VersionOldMissing)
  {
    if versionOld == [] then Err(VersionOldMissing)
    else
      var candidate := if |cliArgs| > 0 && cliArgs[0] != [] then Some(cliArgs[0]) else PatchIncrement(versionOld);
      if candidate.None? then Err(PatchIncrementFailed(versionOld))
      else if !StartsWith(candidate.value, "0.") then Err(VersionNewNotZero(candidate.value))
      else if !StartsWith(versionOld, "0.") then Err(VersionOldNotZero(versionOld))
      else Ok(Versions(versionOld, candidate.value))
  }

  /** An explicit version on the command line takes precedence. */
  lemma ExplicitVersionWins(versionOld: string, cliArgs: seq<string>)
    requires |cliArgs| > 0 && cliArgs[0] != []
    ensures SelectVersions(versionOld, cliArgs).Ok? <==>
      versionOld != [] && StartsWith(cliArgs[0], "0.") && StartsWith(versionOld, "0.")
    ensures SelectVersions(versionOld, cliArgs).Ok? ==> SelectVersions(versionOld, cliArgs).value.versionNew == cliArgs[0]
  {
  }

  /** Without one, the new version is the patch increment, which succeeds
      exactly for a plain `0.` version. */
  lemma ImplicitVersionIncrements(versionOld: string, cliArgs: seq<string>)
    requires |cliArgs| == 0 || cliArgs[0] == []
    ensures SelectVersions(versionOld, cliArgs).Ok? <==> PatchIncrement(versionOld).Some? && StartsWith(versionOld, "0.")
    ensures SelectVersions(versionOld, cliArgs).Ok? ==>
      Some(SelectVersions(versionOld, cliArgs).value.versionNew) == PatchIncrement(versionOld)
  {
    if PatchIncrement(versionOld).Some? {
      PatchIncrementKeepsMajor(versionOld);
      assert versionOld != [];
    }
  }

  // ---------------------------------------------------------------------
  // The version macro

  const MacroPrefix: string := "const VITE_PLUGIN_SSR_VERSION = '"

  /** getCodeSnippet */
  function CodeSnippet(version: string): string {
    MacroPrefix + version + "'"
  }

  lemma CodeSnippetInjective(a: string, b: string)
    requires CodeSnippet(a) == CodeSnippet(b)
    ensures a == b
  {
    var n := |MacroPrefix|;
    assert |a| == |b|;
    assert a == CodeSnippet(a)[n..n + |a|];
    assert b == CodeSnippet(b)[n..n + |b|];
  }

  /** The rewrite of one version file: the old snippet must occur, its
      first occurrence is replaced, and the content must change. */
  function RewriteMacro(path: string, content: string, versionOld: string, versionNew: string): Result<string, ReleaseError> {
    var snippetOld := CodeSnippet(versionOld);
    if !Includes(content, snippetOld) then Err(SnippetMissing(path))
    else
      var contentNew := ReplaceFirst(content, snippetOld, CodeSnippet(versionNew));
      if contentNew == content then Err(ContentUnchanged(path))
      else Ok(contentNew)
  }

  /** The rewrite succeeds exactly when the old snippet occurs and the
      version changes; its first occurrence then becomes the new snippet and
      the rest of the content is kept. */
  lemma RewriteMacroOutcome(path: string, content: string, versionOld: string, versionNew: string)
    ensures RewriteMacro(path, content, versionOld, versionNew).Ok? <==>
      Includes(content, CodeSnippet(versionOld)) && versionOld != versionNew
    ensures !Includes(content, CodeSnippet(versionOld)) ==>
      RewriteMacro(path, content, versionOld, versionNew) == Err(SnippetMissing(path))
    ensures Includes(content, CodeSnippet(versionOld)) && versionOld == versionNew ==>
      RewriteMacro(path, content, versionOld, versionNew) == Err(ContentUnchanged(path))
    ensures RewriteMacro(path, content, versionOld, versionNew).Ok? ==>
      exists i :: OccursAt(content, CodeSnippet(versionOld), i) &&
        (forall j :: 0 <= j < i ==> !OccursAt(content, CodeSnippet(versionOld), j)) &&
        RewriteMacro(path, content, versionOld, versionNew).value ==
          content[..i] + CodeSnippet(versionNew) + content[i + |CodeSnippet(versionOld)|..]
  {
    var snippetOld := CodeSnippet(versionOld);
    var snippetNew := CodeSnippet(versionNew);
    if Includes(content, snippetOld) {
      assert IndexOf(content, snippetOld).Some?;
      var i := IndexOf(content, snippetOld).value;
      var contentNew := content[..i] + snippetNew + content[i + |snippetOld|..];
      assert ReplaceFirst(content, snippetOld, snippetNew) == contentNew;
      ReplacingChanges(content, snippetOld, snippetNew, i);
      if snippetOld == snippetNew { CodeSnippetInjective(versionOld, versionNew); }
      if versionOld == versionNew {
        assert contentNew == content;
      } else {
        assert RewriteMacro(path, content, versionOld, versionNew) == Ok(contentNew);
        assert OccursAt(content, snippetOld, i) && forall j :: 0 <= j < i ==> !OccursAt(content, snippetOld, j);
      }
    }
  }

  /** One update applied to each entry of `store` named by `paths`, in
      order, as the loops of updateVersionMacro and updateDependencies do: a
      missing entry or a failed update stops the loop, and the entries
      already written stay written. */
  function UpdateEach<T>(store: map<string, T>, paths: seq<string>, update: (string, T) -> Result<T, ReleaseError>,
                         missing: string -> ReleaseError): Progress<map<string, T>>
    decreases |paths|
  {
    if paths == [] then Progress(store, None)
    else
      var done := UpdateEach(store, paths[..|paths| - 1], update, missing);
      var path := paths[|paths| - 1];
      if done.error.Some? then done
      else if path !in done.state then Progress(done.state, Some(missing(path)))
      else match update(path, done.state[path])
        case Err(e) => Progress(done.state, Some(e))
        case Ok(v) => Progress(done.state[path := v], None)
  }

  /** Only the entries named are written, and none is created. */
  lemma {:induction false} UpdateEachFrame<T>(store: map<string, T>, paths: seq<string>,
                                              update: (string, T) -> Result<T, ReleaseError>, missing: string -> ReleaseError)
    ensures var r := UpdateEach(store, paths, update, missing).state;
      r.Keys == store.Keys && forall p :: p in store && p !in paths ==> r[p] == store[p]
    decreases |paths|
  {
    if paths != [] {
      UpdateEachFrame(store, paths[..|paths| - 1], update, missing);
      assert forall p :: p !in paths ==> p !in paths[..|paths| - 1];
    }
  }

  /** For distinct paths, the loop succeeds exactly when every entry exists
      and its update succeeds, and each entry is then its update's result. */
  lemma {:induction false} UpdateEachSuccess<T>(store: map<string, T>, paths: seq<string>,
                                                update: (string, T) -> Result<T, ReleaseError>, missing: string -> ReleaseError)
    requires forall i, j :: 0 <= i < j < |paths| ==> paths[i] != paths[j]
    ensures UpdateEach(store, paths, update, missing).error.None? <==>
      forall p :: p in paths ==> p in store && update(p, store[p]).Ok?
    ensures UpdateEach(store, paths, update, missing).error.None? ==>
      forall p :: p in paths ==>
        p in UpdateEach(store, paths, update, missing).state &&
        Ok(UpdateEach(store, paths, update, missing).state[p]) == update(p, store[p])
    decreases |paths|
  {
    if paths != [] {
      var init, path := paths[..|paths| - 1], paths[|paths| - 1];
      UpdateEachSuccess(store, init, update, missing);
      UpdateEachFrame(store, init, update, missing);
      assert forall i :: 0 <= i < |init| ==> init[i] != path by {
        forall i | 0 <= i < |init| ensures init[i] != path {
          assert init[i] == paths[i];
        }
      }
      assert forall p :: p in paths <==> p in init || p == path;
    }
  }

  /** Once the loop has failed, the remaining paths change nothing. */
  lemma {:induction false} UpdateEachStuck<T>(store: map<string, T>, paths: seq<string>, k: nat,
                                              update: (string, T) -> Result<T, ReleaseError>, missing: string -> ReleaseError)
    requires k <= |paths| && UpdateEach(store, paths[..k], update, missing).error.Some?
    ensures UpdateEach(store, paths, update, missing) == UpdateEach(store, paths[..k], update, missing)
    decreases |paths| - k
  {
    if k < |paths| {
      assert paths[..|paths| - 1][..k] == paths[..k];
      UpdateEachStuck(store, paths[..|paths| - 1], k, update, missing);
    } else {
      assert paths[..k] == paths;
    }
  }

  /** Reading a file that does not exist fails. */
  const MissingFile: string -> ReleaseError := path => FileMissing(path)

  /** Requiring a manifest that does not exist fails. */
  const MissingManifest: string -> ReleaseError := path => ManifestMissing(path)

  function MacroUpdate(versionOld: string, versionNew: string): (string, string) -> Result<string, ReleaseError> {
    (path, content) => RewriteMacro(path, content, versionOld, versionNew)
  }

  /** updateVersionMacro over the version files, in order. */
  function RewriteMacros(files: map<string, string>, paths: seq<string>, versionOld: string, versionNew: string)
    : Progress<map<string, string>>
  {
    UpdateEach(files, paths, MacroUpdate(versionOld, versionNew), MissingFile)
  }

  /** A rewritten file holds the new snippet. */
  lemma RewriteMacroWritesSnippet(path: string, content: string, versionOld: string, versionNew: string)
    requires RewriteMacro(path, content, versionOld, versionNew).Ok?
    ensures Includes(RewriteMacro(path, content, versionOld, versionNew).value, CodeSnippet(versionNew))
  {
    RewriteMacroOutcome(path, content, versionOld, versionNew);
    var r := RewriteMacro(path, content, versionOld, versionNew).value;
    var snippetOld, snippetNew := CodeSnippet(versionOld), CodeSnippet(versionNew);
    var i :| OccursAt(content, snippetOld, i) && r == content[..i] + snippetNew + content[i + |snippetOld|..];
    assert r[i..i + |snippetNew|] == snippetNew;
    assert OccursAt(r, snippetNew, i);
  }

  // ---------------------------------------------------------------------
  // The boilerplates' version

  /** `parseInt(s, 10)` on a string starting with a digit; the rest of a
      string is ignored, and one without leading digit is `NaN`. */
  function ParseIntPlusOne(s: string): string {
    var digits := DigitPrefix(s);
    if digits == [] then "NaN" else NatToDecimal(DigitsValue(digits) + 1)
  }

  /** bumpBoilerplateVersion on the version: a `0.0.` version with three
      parts becomes `0.0.` followed by its patch number plus one. */
  function BumpBoilerplate(version: string): (r: Result<string, ReleaseError>)
    ensures r.Ok? <==> StartsWith(version, "0.0.") && Count(version, '.') == 2
    ensures r.Ok? ==> r.value == "0.0." + ParseIntPlusOne(Split(version, '.')[2])
  {
    if !StartsWith(version, "0.0.") then Err(BoilerplateVersionNotZeroZero(version))
    else
      var parts := Split(version, '.');
      if |parts| != 3 then Err(BoilerplateVersionParts(version))
      else Ok("0.0." + ParseIntPlusOne(parts[2]))
  }

  lemma SplitZeroZero(patch: string)
    requires '.' !in patch
    ensures Split("0.0." + patch, '.') == ["0", "0", patch]
  {
    JoinThree("0", "0", patch, '.');
    assert "0" + "." + "0" + "." + patch == "0.0." + patch;
    SplitOfJoin(["0", "0", patch], '.');
  }

  /** `parseInt(String(n), 10) + 1` is `n + 1`. */
  lemma ParseIntOfDecimal(n: nat)
    ensures ParseIntPlusOne(NatToDecimal(n)) == NatToDecimal(n + 1)
  {
    DigitPrefixOfDigits(NatToDecimal(n));
    NatToDecimalValue(n);
  }

  /** `0.0.N` becomes `0.0.N+1`. */
  lemma BumpOfPatch(patch: nat)
    ensures BumpBoilerplate("0.0." + NatToDecimal(patch)) == Ok("0.0." + NatToDecimal(patch + 1))
  {
    var d := NatToDecimal(patch);
    var v := "0.0." + d;
    assert '.' !in d by {
      forall i | 0 <= i < |d| ensures d[i] != '.' {
        assert IsDigit(d[i]);
      }
    }
    SplitZeroZero(d);
    assert v[..4] == "0.0.";
    assert StartsWith(v, "0.0.");
    ParseIntOfDecimal(patch);
  }

  /** A bumped version can be bumped again at the next release. */
  lemma BumpKeepsShape(version: string)
    requires BumpBoilerplate(version).Ok?
    ensures BumpBoilerplate(BumpBoilerplate(version).value).Ok?
  {
    var tail := ParseIntPlusOne(Split(version, '.')[2]);
    assert '.' !in tail;
    SplitZeroZero(tail);
    assert StartsWith("0.0." + tail, "0.0.");
  }

  lemma BumpExample()
    ensures BumpBoilerplate("0.0.9") == Ok("0.0.10")
  {
    BumpOfPatch(9);
    assert NatToDecimal(9) == "9" && NatToDecimal(10) == "10";
    assert "0.0." + "9" == "0.0.9" && "0.0." + "10" == "0.0.10";
  }

  /** Only `0.0.` versions with exactly three parts are bumped. */
  lemma BumpRejectExamples()
    ensures BumpBoilerplate("0.1.9").Err?
    ensures BumpBoilerplate("0.0.9.1").Err?
  {
    assert "0.1.9"[2] != "0.0."[2];
    assert "0.0.9.1" == "0." + "0." + "9." + "1";
    CountConcat("0." + "0.", "9.", '.');
    CountConcat("0." + "0." + "9.", "1", '.');
    CountConcat("0.", "0.", '.');
    assert Count("0.", '.') == 1 by { assert "0."[..1] == "0"; }
    assert Count("9.", '.') == 1 by { assert "9."[..1] == "9"; }
  }

  // ---------------------------------------------------------------------
  // The boilerplates' and examples' dependency on the package

  /** Boilerplates depend on a caret range, examples on the exact version. */
  function RangePrefix(pkgPath: string): string {
    if Includes(pkgPath, "boilerplates/boilerplate-") then "^" else ""
  }

  /** The updater of updateDependencies for the manifest at `pkgPath`: the
      dependency on the package must be present and be the old version; it
      becomes the new version, and nothing else in the manifest changes. */
  function UpdateDependency(pkgPath: string, m: Manifest, npmName: string, versionOld: string, versionNew: string)
    : (r: Result<Manifest, ReleaseError>)
    ensures r.Ok? <==>
      npmName in m.dependencies && m.dependencies[npmName] != [] &&
      m.dependencies[npmName] == RangePrefix(pkgPath) + versionOld
    ensures (npmName !in m.dependencies || m.dependencies[npmName] == []) ==> r == Err(DependencyMissing(pkgPath))
    ensures r.Ok? ==>
      r.value.version == m.version &&
      r.value.dependencies.Keys == m.dependencies.Keys &&
      r.value.dependencies[npmName] == RangePrefix(pkgPath) + versionNew &&
      (forall k :: k in m.dependencies && k != npmName ==> r.value.dependencies[k] == m.dependencies[k])
  {
    if npmName !in m.dependencies || m.dependencies[npmName] == [] then Err(DependencyMissing(pkgPath))
    else
      var expected := RangePrefix(pkgPath) + versionOld;
      if m.dependencies[npmName] != expected then Err(DependencyMismatch(pkgPath, m.dependencies[npmName], expected))
      else Ok(m.(dependencies := m.dependencies[npmName := RangePrefix(pkgPath) + versionNew]))
  }

  function DependencyUpdate(npmName: string, versionOld: string, versionNew: string)
    : (string, Manifest) -> Result<Manifest, ReleaseError>
  {
    (path, m) => UpdateDependency(path, m, npmName, versionOld, versionNew)
  }

  /** updateDependencies over the package manifests, in order. */
  function UpdateAllDependencies(manifests: map<string, Manifest>, pkgPaths: seq<string>, npmName: string,
                                 versionOld: string, versionNew: string): Progress<map<string, Manifest>>
  {
    UpdateEach(manifests, pkgPaths, DependencyUpdate(npmName, versionOld, versionNew), MissingManifest)
  }

  /** The manifests retrievePkgPaths looks for in a directory listing: that
      of every sub-directory whose path does not mention `node_modules`, in
      order. */
  function PackagePaths(rootDir: string, entries: seq<DirEntry>): seq<string>
    decreases |entries|
  {
    if entries == [] then []
    else
      var e := entries[|entries| - 1];
      var dir := rootDir + "/" + e.name;
      PackagePaths(rootDir, entries[..|entries| - 1]) +
        (if !Includes(dir, "node_modules") && e.isDirectory then [dir + "/package.json"] else [])
  }

  lemma {:induction false} PackagePathsMembers(rootDir: string, entries: seq<DirEntry>)
    ensures forall p :: p in PackagePaths(rootDir, entries) <==>
      exists e :: e in entries && e.isDirectory && !Includes(rootDir + "/" + e.name, "node_modules") &&
        p == rootDir + "/" + e.name + "/package.json"
    ensures |PackagePaths(rootDir, entries)| <= |entries|
    decreases |entries|
  {
    if entries != [] {
      var init := entries[..|entries| - 1];
      PackagePathsMembers(rootDir, init);
      assert entries == init + [entries[|entries| - 1]];
    }
  }

  /** require.resolve on each manifest in turn: the first one missing from
      `present` aborts the listing; otherwise every path is kept as it is. */
  function ResolveManifests(paths: seq<string>, present: set<string>): (r: Result<seq<string>, ReleaseError>)
    ensures r.Ok? <==> forall i :: 0 <= i < |paths| ==> paths[i] in present
    ensures r.Ok? ==> r.value == paths
    ensures r.Err? ==> exists i :: 0 <= i < |paths| && paths[i] !in present && r.error == ManifestMissing(paths[i])
    ensures forall i :: 0 <= i < |paths| && paths[i] !in present && (forall j :: 0 <= j < i ==> paths[j] in present) ==>
      r == Err(ManifestMissing(paths[i]))
    decreases |paths|
  {
    if paths == [] then Ok([])
    else if paths[0] !in present then Err(ManifestMissing(paths[0]))
    else match ResolveManifests(paths[1..], present)
      case Err(e) => Err(e)
      case Ok(rest) => Ok([paths[0]] + rest)
  }

  /** The manifests updateDependencies walks, the boilerplates' and then the
      examples', each listing resolved in full before any update. */
  function RetrieveAllPkgPaths(repo: Repository, present: set<string>): (r: Result<seq<string>, ReleaseError>)
    ensures r.Ok? <==> forall p :: p in PkgPaths(repo) ==> p in present
    ensures r.Ok? ==> r.value == PkgPaths(repo)
    ensures r.Err? ==> exists p :: p in PkgPaths(repo) && p !in present && r.error == ManifestMissing(p)
  {
    var boilerplates := PackagePaths(repo.dirBoilerplates, repo.boilerplateEntries);
    var examples := PackagePaths(repo.dirExamples, repo.exampleEntries);
    match ResolveManifests(boilerplates, present)
    case Err(e) => Err(e)
    case Ok(a) =>
      match ResolveManifests(examples, present)
      case Err(e) => Err(e)
      case Ok(b) => Ok(a + b)
  }

  /** updateDependencies: the manifests are located first, so a missing one
      aborts before any is written; then each moves to the new version. */
  function MoveDependencies(repo: Repository, manifests: map<string, Manifest>, versionOld: string, versionNew: string)
    : (r: Progress<map<string, Manifest>>)
    ensures (forall p :: p in PkgPaths(repo) ==> p in manifests) ==>
      r == UpdateAllDependencies(manifests, PkgPaths(repo), repo.npmName, versionOld, versionNew)
    ensures !(forall p :: p in PkgPaths(repo) ==> p in manifests) ==>
      r.state == manifests && exists p :: p in PkgPaths(repo) && p !in manifests && r.error == Some(ManifestMissing(p))
  {
    match RetrieveAllPkgPaths(repo, manifests.Keys)
    case Err(e) => Progress(manifests, Some(e))
    case Ok(pkgPaths) => UpdateAllDependencies(manifests, pkgPaths, repo.npmName, versionOld, versionNew)
  }

  // ---------------------------------------------------------------------
  // The tag

  function Tag(versionNew: string): string {
    "v" + versionNew
  }

  /** The `v0` guard of commit and commitTag holds for every version getVersion accepts. */
  lemma TagGuardHolds(versionNew: string)
    requires StartsWith(versionNew, "0.")
    ensures StartsWith(Tag(versionNew), "v0")
  {
    assert Tag(versionNew)[..2] == "v" + versionNew[..1];
  }

  // ---------------------------------------------------------------------
  // Manifests read and written whole

  /** updatePkg: the manifest at `path` must exist; the updater's result is
      written back, and an updater that fails writes nothing. */
  function UpdatePkg(manifests: map<string, Manifest>, path: string, updater: Manifest -> Result<Manifest, ReleaseError>)
    : (r: Progress<map<string, Manifest>>)
    ensures r.state.Keys == manifests.Keys
    ensures forall p :: p in manifests && p != path ==> r.state[p] == manifests[p]
    ensures r.error.None? <==> path in manifests && updater(manifests[path]).Ok?
    ensures path !in manifests ==> r.error == Some(ManifestMissing(path))
    ensures r.error.None? ==> Ok(r.state[path]) == updater(manifests[path])
    ensures r.error.Some? ==> r.state == manifests
  {
    if path !in manifests then Progress(manifests, Some(ManifestMissing(path)))
    else match updater(manifests[path])
      case Err(e) => Progress(manifests, Some(e))
      case Ok(m) => Progress(manifests[path := m], None)
  }

  /** The updater of updatePackageJsonVersion. */
  function VersionSetter(versionNew: string): Manifest -> Result<Manifest, ReleaseError> {
    (m: Manifest) => Ok(m.(version := versionNew))
  }

  /** The update of bumpBoilerplateVersion, which fails before writing. */
  const BoilerplateBumper: Manifest -> Result<Manifest, ReleaseError> :=
    (m: Manifest) => match BumpBoilerplate(m.version)
      case Ok(v) => Ok(m.(version := v))
      case Err(e) => Err(e)

  function SrcManifestPath(repo: Repository): string {
    repo.dirSrc + "/package.json"
  }

  function BoilerplatesManifestPath(repo: Repository): string {
    repo.dirBoilerplates + "/package.json"
  }

  /** The manifests updateDependencies walks: the boilerplates', then the examples'. */
  function PkgPaths(repo: Repository): seq<string> {
    PackagePaths(repo.dirBoilerplates, repo.boilerplateEntries) + PackagePaths(repo.dirExamples, repo.exampleEntries)
  }

  /** Moving the dependency never changes a manifest's own version. */
  lemma {:induction false} DependenciesKeepVersions(manifests: map<string, Manifest>, paths: seq<string>, npmName: string,
                                                    versionOld: string, versionNew: string)
    ensures var r := UpdateAllDependencies(manifests, paths, npmName, versionOld, versionNew).state;
      r.Keys == manifests.Keys && forall p :: p in manifests ==> r[p].version == manifests[p].version
    decreases |paths|
  {
    if paths != [] {
      DependenciesKeepVersions(manifests, paths[..|paths| - 1], npmName, versionOld, versionNew);
      UpdateEachFrame(manifests, paths[..|paths| - 1], DependencyUpdate(npmName, versionOld, versionNew), MissingManifest);
    }
  }

  // ---------------------------------------------------------------------
  // The file edits of a release, as a function of the repository

  /** What the steps before the first command leave behind: the versions
      chosen, the files and manifests as written, and the failed assertion,
      if any. */
  datatype Prepared = Prepared(
    versions: Option<Versions>,
    files: map<string, string>,
    manifests: map<string, Manifest>,
    error: Option<ReleaseError>)

  /** getVersion, updateVersionMacro, updatePackageJsonVersion,
      updateDependencies and bumpBoilerplateVersion, in that order, each
      starting only when the one before succeeded. */
  function Prepare(repo: Repository, cliArgs: seq<string>, files: map<string, string>, manifests: map<string, Manifest>)
    : (p: Prepared)
    ensures p.error.None? ==> p.versions.Some?
  {
    var srcPath := SrcManifestPath(repo);
    if srcPath !in manifests then Prepared(None, files, manifests, Some(ManifestMissing(srcPath)))
    else match SelectVersions(manifests[srcPath].version, cliArgs)
      case Err(e) => Prepared(None, files, manifests, Some(e))
      case Ok(v) =>
        var macros := RewriteMacros(files, repo.versionFiles, v.versionOld, v.versionNew);
        if macros.error.Some? then Prepared(Some(v), macros.state, manifests, macros.error)
        else
          var edited := EditManifests(repo, v, manifests);
          Prepared(Some(v), macros.state, edited.state, edited.error)
  }

  /** updatePackageJsonVersion, updateDependencies and bumpBoilerplateVersion
      on the manifests, each starting only when the one before succeeded. */
  function EditManifests(repo: Repository, v: Versions, manifests: map<string, Manifest>): Progress<map<string, Manifest>> {
    var pkg := UpdatePkg(manifests, SrcManifestPath(repo), VersionSetter(v.versionNew));
    if pkg.error.Some? then pkg
    else
      var deps := MoveDependencies(repo, pkg.state, v.versionOld, v.versionNew);
      if deps.error.Some? then deps
      else UpdatePkg(deps.state, BoilerplatesManifestPath(repo), BoilerplateBumper)
  }

  /** A release whose edits all succeeded chose its versions from the
      package's manifest, rewrote every version file and edited the
      manifests. A step of the proofs below, with no counterpart in the
      script. */
  lemma PrepareSucceeded(repo: Repository, cliArgs: seq<string>, files: map<string, string>, manifests: map<string, Manifest>)
    requires Prepare(repo, cliArgs, files, manifests).error.None?
    ensures SrcManifestPath(repo) in manifests && SelectVersions(manifests[SrcManifestPath(repo)].version, cliArgs).Ok?
    ensures var p := Prepare(repo, cliArgs, files, manifests);
      var v := SelectVersions(manifests[SrcManifestPath(repo)].version, cliArgs).value;
      p.versions == Some(v) &&
      RewriteMacros(files, repo.versionFiles, v.versionOld, v.versionNew) == Progress(p.files, None) &&
      EditManifests(repo, v, manifests) == Progress(p.manifests, None)
  {
  }

  /** The manifest edits write only the package's, the listed packages' and
      the boilerplates' manifests, and create none. */
  lemma EditManifestsFrame(repo: Repository, v: Versions, manifests: map<string, Manifest>)
    ensures var r := EditManifests(repo, v, manifests).state;
      r.Keys == manifests.Keys &&
      forall path ::
        path in manifests && path != SrcManifestPath(repo) && path != BoilerplatesManifestPath(repo) && path !in PkgPaths(repo)
        ==> r[path] == manifests[path]
  {
    var pkg := UpdatePkg(manifests, SrcManifestPath(repo), VersionSetter(v.versionNew));
    if pkg.error.None? {
      var deps := MoveDependencies(repo, pkg.state, v.versionOld, v.versionNew);
      if forall p :: p in PkgPaths(repo) ==> p in pkg.state {
        UpdateEachFrame(pkg.state, PkgPaths(repo), DependencyUpdate(repo.npmName, v.versionOld, v.versionNew), MissingManifest);
      }
      assert deps.state.Keys == manifests.Keys;
      assert forall path :: (path in manifests && path != SrcManifestPath(repo) && path !in PkgPaths(repo)
        ==> deps.state[path] == manifests[path]);
    }
  }

  /** Only the version files and the manifests a release names are written,
      whether or not it succeeds, and no file or manifest is created. */
  lemma PrepareFrame(repo: Repository, cliArgs: seq<string>, files: map<string, string>, manifests: map<string, Manifest>)
    ensures var p := Prepare(repo, cliArgs, files, manifests);
      p.files.Keys == files.Keys && p.manifests.Keys == manifests.Keys &&
      (forall path :: path in files && path !in repo.versionFiles ==> p.files[path] == files[path]) &&
      (forall path ::
         path in manifests && path != SrcManifestPath(repo) && path != BoilerplatesManifestPath(repo) && path !in PkgPaths(repo)
         ==> p.manifests[path] == manifests[path])
  {
    var srcPath := SrcManifestPath(repo);
    if srcPath in manifests && SelectVersions(manifests[srcPath].version, cliArgs).Ok? {
      var v := SelectVersions(manifests[srcPath].version, cliArgs).value;
      UpdateEachFrame(files, repo.versionFiles, MacroUpdate(v.versionOld, v.versionNew), MissingFile);
      EditManifestsFrame(repo, v, manifests);
    }
  }

  /** After the edits, every version file holds the new version's snippet. */
  lemma PreparedMacros(repo: Repository, cliArgs: seq<string>, files: map<string, string>, manifests: map<string, Manifest>)
    requires Prepare(repo, cliArgs, files, manifests).error.None?
    requires forall i, j :: 0 <= i < j < |repo.versionFiles| ==> repo.versionFiles[i] != repo.versionFiles[j]
    ensures var p := Prepare(repo, cliArgs, files, manifests);
      forall path :: path in repo.versionFiles ==>
        path in p.files && Includes(p.files[path], CodeSnippet(p.versions.value.versionNew))
  {
    PrepareSucceeded(repo, cliArgs, files, manifests);
    var p := Prepare(repo, cliArgs, files, manifests);
    var v := p.versions.value;
    var update := MacroUpdate(v.versionOld, v.versionNew);
    UpdateEachSuccess(files, repo.versionFiles, update, MissingFile);
    forall path | path in repo.versionFiles
      ensures path in p.files && Includes(p.files[path], CodeSnippet(v.versionNew))
    {
      RewriteMacroWritesSnippet(path, files[path], v.versionOld, v.versionNew);
    }
  }

  /** After the edits, the package has the new version. */
  lemma PreparedPackageVersion(repo: Repository, cliArgs: seq<string>, files: map<string, string>, manifests: map<string, Manifest>)
    requires Prepare(repo, cliArgs, files, manifests).error.None?
    requires SrcManifestPath(repo) != BoilerplatesManifestPath(repo)
    ensures var p := Prepare(repo, cliArgs, files, manifests);
      SrcManifestPath(repo) in p.manifests && p.manifests[SrcManifestPath(repo)].version == p.versions.value.versionNew
  {
    PrepareSucceeded(repo, cliArgs, files, manifests);
    var v := Prepare(repo, cliArgs, files, manifests).versions.value;
    var pkg := UpdatePkg(manifests, SrcManifestPath(repo), VersionSetter(v.versionNew));
    DependenciesKeepVersions(pkg.state, PkgPaths(repo), repo.npmName, v.versionOld, v.versionNew);
  }

  /** After the edits, every boilerplate and example depends on the new
      version, with a caret range exactly for the boilerplates. */
  lemma PreparedDependencies(repo: Repository, cliArgs: seq<string>, files: map<string, string>, manifests: map<string, Manifest>)
    requires Prepare(repo, cliArgs, files, manifests).error.None?
    requires forall i, j :: 0 <= i < j < |PkgPaths(repo)| ==> PkgPaths(repo)[i] != PkgPaths(repo)[j]
    requires BoilerplatesManifestPath(repo) !in PkgPaths(repo)
    ensures var p := Prepare(repo, cliArgs, files, manifests);
      forall path :: path in PkgPaths(repo) ==>
        path in p.manifests && repo.npmName in p.manifests[path].dependencies &&
        p.manifests[path].dependencies[repo.npmName] == RangePrefix(path) + p.versions.value.versionNew
  {
    PrepareSucceeded(repo, cliArgs, files, manifests);
    var p := Prepare(repo, cliArgs, files, manifests);
    var v := p.versions.value;
    var pkg := UpdatePkg(manifests, SrcManifestPath(repo), VersionSetter(v.versionNew));
    var update := DependencyUpdate(repo.npmName, v.versionOld, v.versionNew);
    var deps := UpdateEach(pkg.state, PkgPaths(repo), update, MissingManifest);
    UpdateEachSuccess(pkg.state, PkgPaths(repo), update, MissingManifest);
    forall path | path in PkgPaths(repo)
      ensures path in p.manifests && repo.npmName in p.manifests[path].dependencies &&
        p.manifests[path].dependencies[repo.npmName] == RangePrefix(path) + v.versionNew
    {
      assert p.manifests[path] == deps.state[path];
      assert Ok(deps.state[path]) == UpdateDependency(path, pkg.state[path], repo.npmName, v.versionOld, v.versionNew);
    }
  }

  /** After the edits, the boilerplates package has its bumped version. */
  lemma PreparedBoilerplateVersion(repo: Repository, cliArgs: seq<string>, files: map<string, string>, manifests: map<string, Manifest>)
    requires Prepare(repo, cliArgs, files, manifests).error.None?
    requires SrcManifestPath(repo) != BoilerplatesManifestPath(repo)
    ensures var p := Prepare(repo, cliArgs, files, manifests);
      var path := BoilerplatesManifestPath(repo);
      path in manifests && path in p.manifests &&
      Ok(p.manifests[path].version) == BumpBoilerplate(manifests[path].version)
  {
    PrepareSucceeded(repo, cliArgs, files, manifests);
    var v := Prepare(repo, cliArgs, files, manifests).versions.value;
    var pkg := UpdatePkg(manifests, SrcManifestPath(repo), VersionSetter(v.versionNew));
    DependenciesKeepVersions(pkg.state, PkgPaths(repo), repo.npmName, v.versionOld, v.versionNew);
  }

  // ---------------------------------------------------------------------
  // Commands

  /** Whether a command succeeds: `succeeds(n, c)` is the outcome of `c`
      started as the `n`-th command of the workspace (counting from 0). Each
      start is a process of its own, so a command started twice, such as
      `git push`, can succeed once and fail the next time. */
  type Outcomes = (int, Command) -> bool

  /** The commands a fail-fast run of `cmds` starts, the first of them as
      the `at`-th command: each in turn, up to and including the first that
      fails. */
  function Ran(cmds: seq<Command>, at: nat, succeeds: Outcomes): seq<Command>
    decreases |cmds|
  {
    if cmds == [] then []
    else if !succeeds(at, cmds[0]) then [cmds[0]]
    else [cmds[0]] + Ran(cmds[1..], at + 1, succeeds)
  }

  /** The command that fails first, if any. */
  function FirstFailure(cmds: seq<Command>, at: nat, succeeds: Outcomes): Option<Command>
    decreases |cmds|
  {
    if cmds == [] then None
    else if !succeeds(at, cmds[0]) then Some(cmds[0])
    else FirstFailure(cmds[1..], at + 1, succeeds)
  }

  /** A fail-fast run starts a prefix of the commands, every one but the
      last of which succeeded. */
  lemma {:induction false} RanIsPrefix(cmds: seq<Command>, at: nat, succeeds: Outcomes)
    ensures Ran(cmds, at, succeeds) <= cmds
    ensures forall i :: 0 <= i < |Ran(cmds, at, succeeds)| - 1 ==> succeeds(at + i, Ran(cmds, at, succeeds)[i])
    decreases |cmds|
  {
    if cmds != [] && succeeds(at, cmds[0]) {
      var c, rest := cmds[0], cmds[1..];
      RanIsPrefix(rest, at + 1, succeeds);
      var ran := Ran(rest, at + 1, succeeds);
      assert cmds == [c] + rest;
      assert Ran(cmds, at, succeeds) == [c] + ran;
      forall i | 0 <= i < |[c] + ran| - 1
        ensures succeeds(at + i, ([c] + ran)[i])
      {
        if i > 0 {
          assert ([c] + ran)[i] == ran[i - 1];
          assert at + i == at + 1 + (i - 1);
        }
      }
    }
  }

  /** Nothing fails exactly when every command succeeds, and then all of
      them are started. */
  lemma {:induction false} NoFailureRunsAll(cmds: seq<Command>, at: nat, succeeds: Outcomes)
    ensures FirstFailure(cmds, at, succeeds).None? <==> forall i :: 0 <= i < |cmds| ==> succeeds(at + i, cmds[i])
    ensures FirstFailure(cmds, at, succeeds).None? ==> Ran(cmds, at, succeeds) == cmds
    decreases |cmds|
  {
    if cmds != [] && succeeds(at, cmds[0]) {
      var rest := cmds[1..];
      NoFailureRunsAll(rest, at + 1, succeeds);
      if FirstFailure(rest, at + 1, succeeds).None? {
        forall i | 0 <= i < |cmds|
          ensures succeeds(at + i, cmds[i])
        {
          if i > 0 {
            assert cmds[i] == rest[i - 1];
            assert succeeds(at + 1 + (i - 1), rest[i - 1]);
          }
        }
        assert cmds == [cmds[0]] + rest;
      } else {
        var j :| 0 <= j < |rest| && !succeeds(at + 1 + j, rest[j]);
        assert cmds[j + 1] == rest[j];
        assert !succeeds(at + (j + 1), cmds[j + 1]);
      }
    }
  }

  /** The first failure is the last command started. */
  lemma {:induction false} FailureEndsRun(cmds: seq<Command>, at: nat, succeeds: Outcomes)
    ensures FirstFailure(cmds, at, succeeds).Some? ==>
      Ran(cmds, at, succeeds) != [] &&
      FirstFailure(cmds, at, succeeds).value == Ran(cmds, at, succeeds)[|Ran(cmds, at, succeeds)| - 1] &&
      !succeeds(at + |Ran(cmds, at, succeeds)| - 1, FirstFailure(cmds, at, succeeds).value)
    decreases |cmds|
  {
    if cmds != [] && succeeds(at, cmds[0]) {
      FailureEndsRun(cmds[1..], at + 1, succeeds);
    }
  }

  /** A fail-fast run starts a prefix of the commands, every one but the
      last of which succeeded; it stops early exactly at the first failure,
      and runs everything when nothing fails. */
  lemma FailFast(cmds: seq<Command>, at: nat, succeeds: Outcomes)
    ensures Ran(cmds, at, succeeds) <= cmds
    ensures forall i :: 0 <= i < |Ran(cmds, at, succeeds)| - 1 ==> succeeds(at + i, Ran(cmds, at, succeeds)[i])
    ensures FirstFailure(cmds, at, succeeds).None? <==> forall i :: 0 <= i < |cmds| ==> succeeds(at + i, cmds[i])
    ensures FirstFailure(cmds, at, succeeds).None? ==> Ran(cmds, at, succeeds) == cmds
    ensures FirstFailure(cmds, at, succeeds).Some? ==>
      Ran(cmds, at, succeeds) != [] &&
      FirstFailure(cmds, at, succeeds).value == Ran(cmds, at, succeeds)[|Ran(cmds, at, succeeds)| - 1] &&
      !succeeds(at + |Ran(cmds, at, succeeds)| - 1, FirstFailure(cmds, at, succeeds).value)
  {
    RanIsPrefix(cmds, at, succeeds);
    NoFailureRunsAll(cmds, at, succeeds);
    FailureEndsRun(cmds, at, succeeds);
  }

  lemma RanOfSingle(c: Command, at: nat, succeeds: Outcomes)
    ensures Ran([c], at, succeeds) == [c]
    ensures FirstFailure([c], at, succeeds) == if succeeds(at, c) then None else Some(c)
  {
    assert [c][1..] == [];
  }

  lemma RanOfPair(c: Command, d: Command, at: nat, succeeds: Outcomes)
    ensures Ran([c, d], at, succeeds) == if succeeds(at, c) then [c, d] else [c]
    ensures FirstFailure([c, d], at, succeeds) ==
      if !succeeds(at, c) then Some(c) else if !succeeds(at + 1, d) then Some(d) else None
  {
    assert [c, d][1..] == [d];
    RanOfSingle(d, at + 1, succeeds);
  }

  /** A failed command aborts the release with that command as its error. */
  function CommandError(f: Option<Command>): Option<ReleaseError> {
    if f.Some? then Some(CommandFailed(f.value)) else None
  }

  /** Running `a` and then `b` fail-fast: `b` starts only when all of `a`
      succeeded, its first command as the one after the last of `a`. */
  lemma {:induction false} RanConcat(a: seq<Command>, b: seq<Command>, at: nat, succeeds: Outcomes)
    ensures FirstFailure(a, at, succeeds).None? ==>
      Ran(a + b, at, succeeds) == a + Ran(b, at + |a|, succeeds) &&
      FirstFailure(a + b, at, succeeds) == FirstFailure(b, at + |a|, succeeds)
    ensures FirstFailure(a, at, succeeds).Some? ==>
      Ran(a + b, at, succeeds) == Ran(a, at, succeeds) && FirstFailure(a + b, at, succeeds) == FirstFailure(a, at, succeeds)
    decreases |a|
  {
    if a == [] {
      assert a + b == b;
    } else {
      var c, rest := a[0], a[1..];
      assert (a + b)[0] == c && (a + b)[1..] == rest + b;
      RanConcat(rest, b, at + 1, succeeds);
      if succeeds(at, c) {
        assert Ran(a + b, at, succeeds) == [c] + Ran(rest + b, at + 1, succeeds);
        assert FirstFailure(a + b, at, succeeds) == FirstFailure(rest + b, at + 1, succeeds);
        assert Ran(a, at, succeeds) == [c] + Ran(rest, at + 1, succeeds);
        assert FirstFailure(a, at, succeeds) == FirstFailure(rest, at + 1, succeeds);
        assert at + 1 + |rest| == at + |a|;
        assert [c] + rest == a;
      }
    }
  }

  /** The steps of release() after the file edits, each one function of the script. */
  datatype Step =
    | UpdateLockFile | Changelog | Commit | CommitTag | Build | Publish | PublishBoilerplates
    | GitPush | TestRelease | CommitLockfileChanges | Link

  const CommandSteps: seq<Step> :=
    [UpdateLockFile, Changelog, Commit, CommitTag, Build, Publish, PublishBoilerplates,
     GitPush, TestRelease, CommitLockfileChanges, GitPush, Link]

  /** The commands a step runs; `run` defaults the working directory to the root. */
  function StepCommands(step: Step, repo: Repository, tag: string): seq<Command> {
    match step
    case UpdateLockFile => [Command("npm", ["install"], repo.dirRoot)]
    case Changelog =>
      [Command("npx", ["conventional-changelog", "-p", "angular", "-i", "CHANGELOG.md", "-s", "--pkg", repo.dirSrc], repo.dirRoot)]
    case Commit => [Command("git", ["commit", "-am", "release: " + tag], repo.dirRoot)]
    case CommitTag => [Command("git", ["tag", tag], repo.dirRoot)]
    case Build => [Command("npm", ["run", "build"], repo.dirRoot)]
    case Publish => [Command("npm", ["publish"], repo.dirSrc)]
    case PublishBoilerplates => [Command("npm", ["publish"], repo.dirBoilerplates)]
    case GitPush => [Command("git", ["push"], repo.dirRoot), Command("git", ["push", "--tags"], repo.dirRoot)]
    case TestRelease => [Command("npm", ["run", "release:test-post-release"], repo.dirRoot)]
    case CommitLockfileChanges => [Command("git", ["commit", "-am", "chore: update lockfiles"], repo.dirRoot)]
    case Link => [Command("npm", ["run", "link"], repo.dirRoot)]
  }

  /** commit and commitTag assert that the tag starts with `v0` before running anything. */
  function Guard(step: Step, tag: string): Option<ReleaseError> {
    if (step == Commit || step == CommitTag) && !StartsWith(tag, "v0") then Some(TagNotV0(tag)) else None
  }

  /** The commands started by a run, and the error that stopped it. */
  datatype Outcome = Outcome(ran: seq<Command>, failure: Option<ReleaseError>)

  /** One step, its first command started as the `at`-th command. */
  function StepRun(step: Step, repo: Repository, tag: string, at: nat, succeeds: Outcomes): Outcome {
    if Guard(step, tag).Some? then Outcome([], Guard(step, tag))
    else
      var cmds := StepCommands(step, repo, tag);
      Outcome(Ran(cmds, at, succeeds), CommandError(FirstFailure(cmds, at, succeeds)))
  }

  /** Awaiting the steps in order, the first command started as the `at`-th:
      a failure aborts the rest. */
  function RunSteps(steps: seq<Step>, repo: Repository, tag: string, at: nat, succeeds: Outcomes): Outcome
    decreases |steps|
  {
    if steps == [] then Outcome([], None)
    else
      var done := RunSteps(steps[..|steps| - 1], repo, tag, at, succeeds);
      if done.failure.Some? then done
      else
        var next := StepRun(steps[|steps| - 1], repo, tag, at + |done.ran|, succeeds);
        Outcome(done.ran + next.ran, next.failure)
  }

  /** All the commands of the steps, in order. */
  function Script(steps: seq<Step>, repo: Repository, tag: string): seq<Command>
    decreases |steps|
  {
    if steps == [] then []
    else Script(steps[..|steps| - 1], repo, tag) + StepCommands(steps[|steps| - 1], repo, tag)
  }

  lemma {:induction false} ScriptConcat(a: seq<Step>, b: seq<Step>, repo: Repository, tag: string)
    ensures Script(a + b, repo, tag) == Script(a, repo, tag) + Script(b, repo, tag)
    decreases |b|
  {
    if b == [] {
      assert a + b == a;
    } else {
      var init, last := b[..|b| - 1], b[|b| - 1];
      assert (a + b)[..|a + b| - 1] == a + init;
      assert (a + b)[|a + b| - 1] == last;
      ScriptConcat(a, init, repo, tag);
      ConcatAssociative(Script(a, repo, tag), Script(init, repo, tag), StepCommands(last, repo, tag));
    }
  }

  lemma ScriptSnoc(steps: seq<Step>, k: nat, repo: Repository, tag: string)
    requires k < |steps|
    ensures Script(steps[..k + 1], repo, tag) == Script(steps[..k], repo, tag) + StepCommands(steps[k], repo, tag)
  {
    assert steps[..k + 1][..k] == steps[..k];
  }

  /** Once a step has failed, the later steps run nothing. */
  lemma {:induction false} RunStepsStuck(steps: seq<Step>, k: nat, repo: Repository, tag: string, at: nat, succeeds: Outcomes)
    requires k <= |steps| && RunSteps(steps[..k], repo, tag, at, succeeds).failure.Some?
    ensures RunSteps(steps, repo, tag, at, succeeds) == RunSteps(steps[..k], repo, tag, at, succeeds)
    decreases |steps| - k
  {
    if k < |steps| {
      assert steps[..|steps| - 1][..k] == steps[..k];
      RunStepsStuck(steps[..|steps| - 1], k, repo, tag, at, succeeds);
    } else {
      assert steps[..k] == steps;
    }
  }

  lemma ConcatAssociative<T>(a: seq<T>, b: seq<T>, c: seq<T>)
    ensures (a + b) + c == a + (b + c)
  {
  }

  /** Running step `k` after the first `k` steps, whose run is `done`:
      nothing more when one of them failed, and otherwise the step's own run
      `next`, started after the commands of the steps before it. */
  lemma RunStepsAdvance(steps: seq<Step>, k: nat, repo: Repository, tag: string, at: nat, succeeds: Outcomes,
                        done: Outcome, next: Outcome)
    requires k < |steps|
    requires done == RunSteps(steps[..k], repo, tag, at, succeeds)
    requires next == StepRun(steps[k], repo, tag, at + |done.ran|, succeeds)
    ensures RunSteps(steps[..k + 1], repo, tag, at, succeeds) ==
      if done.failure.Some? then done else Outcome(done.ran + next.ran, next.failure)
  {
    assert steps[..k + 1] == steps[..k] + [steps[k]];
    RunStepsSnoc(steps[..k], steps[k], repo, tag, at, succeeds, done, next);
  }

  /** One more step after `init`, whose run is `done`. */
  lemma RunStepsSnoc(init: seq<Step>, last: Step, repo: Repository, tag: string, at: nat, succeeds: Outcomes,
                     done: Outcome, next: Outcome)
    requires done == RunSteps(init, repo, tag, at, succeeds)
    requires next == StepRun(last, repo, tag, at + |done.ran|, succeeds)
    ensures RunSteps(init + [last], repo, tag, at, succeeds) ==
      if done.failure.Some? then done else Outcome(done.ran + next.ran, next.failure)
  {
    var steps := init + [last];
    assert steps[..|steps| - 1] == init;
    assert steps[|steps| - 1] == last;
  }

  /** When the tag passes the guard, running the steps is running their
      script fail-fast. */
  lemma {:induction false} RunStepsOfScript(steps: seq<Step>, repo: Repository, tag: string, at: nat, succeeds: Outcomes)
    requires StartsWith(tag, "v0")
    ensures RunSteps(steps, repo, tag, at, succeeds).ran == Ran(Script(steps, repo, tag), at, succeeds)
    ensures RunSteps(steps, repo, tag, at, succeeds).failure == CommandError(FirstFailure(Script(steps, repo, tag), at, succeeds))
    decreases |steps|
  {
    if steps != [] {
      var init, last := steps[..|steps| - 1], steps[|steps| - 1];
      var before, cmds := Script(init, repo, tag), StepCommands(last, repo, tag);
      var done := RunSteps(init, repo, tag, at, succeeds);
      var next := StepRun(last, repo, tag, at + |done.ran|, succeeds);
      assert steps == init + [last];
      RunStepsSnoc(init, last, repo, tag, at, succeeds, done, next);
      RunStepsOfScript(init, repo, tag, at, succeeds);
      FailFast(before, at, succeeds);
      RanConcat(before, cmds, at, succeeds);
      assert Script(steps, repo, tag) == before + cmds;
    }
  }

  /** A step starts at most its own commands. */
  lemma StepRunBound(step: Step, repo: Repository, tag: string, at: nat, succeeds: Outcomes)
    ensures |StepRun(step, repo, tag, at, succeeds).ran| <= |StepCommands(step, repo, tag)|
  {
    FailFast(StepCommands(step, repo, tag), at, succeeds);
  }

  /** The first two steps start at most their own commands. */
  lemma FirstTwoStepsBound(steps: seq<Step>, repo: Repository, tag: string, at: nat, succeeds: Outcomes)
    requires |steps| >= 2
    ensures |RunSteps(steps[..2], repo, tag, at, succeeds).ran| <=
      |StepCommands(steps[0], repo, tag)| + |StepCommands(steps[1], repo, tag)|
  {
    assert steps[..0] == [];
    var first := StepRun(steps[0], repo, tag, at, succeeds);
    RunStepsAdvance(steps, 0, repo, tag, at, succeeds, Outcome([], None), first);
    StepRunBound(steps[0], repo, tag, at, succeeds);
    var one := RunSteps(steps[..1], repo, tag, at, succeeds);
    assert [] + first.ran == first.ran;
    assert one == first;
    var second := StepRun(steps[1], repo, tag, at + |one.ran|, succeeds);
    RunStepsAdvance(steps, 1, repo, tag, at, succeeds, one, second);
    if one.failure.None? {
      StepRunBound(steps[1], repo, tag, at + |one.ran|, succeeds);
    }
  }

  /** A guard that fires at the third step adds a failure and no command. */
  lemma GuardStopsThird(steps: seq<Step>, repo: Repository, tag: string, at: nat, succeeds: Outcomes)
    requires |steps| >= 3 && Guard(steps[2], tag).Some?
    ensures RunSteps(steps[..3], repo, tag, at, succeeds).failure.Some?
    ensures RunSteps(steps[..3], repo, tag, at, succeeds).ran == RunSteps(steps[..2], repo, tag, at, succeeds).ran
  {
    var two := RunSteps(steps[..2], repo, tag, at, succeeds);
    var third := StepRun(steps[2], repo, tag, at + |two.ran|, succeeds);
    RunStepsAdvance(steps, 2, repo, tag, at, succeeds, two, third);
    assert third == Outcome([], Guard(steps[2], tag));
    assert two.ran + third.ran == two.ran;
  }

  /** A guard that fires at the third step stops the run there, after at
      most the commands of the first two steps. */
  lemma GuardStopsSteps(steps: seq<Step>, repo: Repository, tag: string, at: nat, succeeds: Outcomes)
    requires |steps| >= 3 && Guard(steps[2], tag).Some?
    ensures RunSteps(steps, repo, tag, at, succeeds).failure.Some?
    ensures |RunSteps(steps, repo, tag, at, succeeds).ran| <=
      |StepCommands(steps[0], repo, tag)| + |StepCommands(steps[1], repo, tag)|
  {
    FirstTwoStepsBound(steps, repo, tag, at, succeeds);
    GuardStopsThird(steps, repo, tag, at, succeeds);
    RunStepsStuck(steps, 3, repo, tag, at, succeeds);
  }

  /** The same command started twice has an outcome each time: a push that
      succeeded can fail when the step runs again. */
  lemma RepeatedPushCanFail(repo: Repository, tag: string, at: nat)
    ensures var succeeds: Outcomes := (n: int, c: Command) => n < at + 2;
      var push := Command("git", ["push"], repo.dirRoot);
      RunSteps([GitPush, GitPush], repo, tag, at, succeeds) ==
        Outcome(StepCommands(GitPush, repo, tag) + [push], Some(CommandFailed(push)))
  {
    var succeeds: Outcomes := (n: int, c: Command) => n < at + 2;
    var cmds := StepCommands(GitPush, repo, tag);
    RanOfPair(cmds[0], cmds[1], at, succeeds);
    RanOfPair(cmds[0], cmds[1], at + 2, succeeds);
    assert [GitPush, GitPush][..1] == [GitPush];
    assert [GitPush][..0] == [];
  }

  /** A tag without the `v0` prefix stops the release at the commit, after
      at most the lockfile update and the changelog. */
  lemma GuardStopsRelease(repo: Repository, tag: string, at: nat, succeeds: Outcomes)
    requires !StartsWith(tag, "v0")
    ensures RunSteps(CommandSteps, repo, tag, at, succeeds).failure.Some?
    ensures |RunSteps(CommandSteps, repo, tag, at, succeeds).ran| <= 2
  {
    var steps := CommandSteps;
    assert steps[0] == UpdateLockFile && steps[1] == Changelog && steps[2] == Commit;
    GuardStopsSteps(steps, repo, tag, at, succeeds);
  }

  /** The first nine commands of a release: the lockfile update, the
      changelog, the commit, the tag, the build, both publishes and the push. */
  lemma ReleaseScriptStart(repo: Repository, tag: string)
    ensures var s := Script(CommandSteps, repo, tag);
      |s| >= 9 &&
      s[..9] == StepCommands(UpdateLockFile, repo, tag) + StepCommands(Changelog, repo, tag) +
                StepCommands(Commit, repo, tag) + StepCommands(CommitTag, repo, tag) +
                StepCommands(Build, repo, tag) + StepCommands(Publish, repo, tag) +
                StepCommands(PublishBoilerplates, repo, tag) + StepCommands(GitPush, repo, tag)
  {
    var steps := CommandSteps;
    ScriptOfEight(steps, repo, tag);
    assert steps[0] == UpdateLockFile && steps[1] == Changelog && steps[2] == Commit && steps[3] == CommitTag;
    assert steps[4] == Build && steps[5] == Publish && steps[6] == PublishBoilerplates && steps[7] == GitPush;
    assert steps == steps[..8] + steps[8..];
    ScriptConcat(steps[..8], steps[8..], repo, tag);
  }

  /** The commands of the first eight steps of any list, one step after
      another. */
  lemma ScriptOfEight(steps: seq<Step>, repo: Repository, tag: string)
    requires |steps| >= 8
    ensures Script(steps[..8], repo, tag) ==
      StepCommands(steps[0], repo, tag) + StepCommands(steps[1], repo, tag) +
      StepCommands(steps[2], repo, tag) + StepCommands(steps[3], repo, tag) +
      StepCommands(steps[4], repo, tag) + StepCommands(steps[5], repo, tag) +
      StepCommands(steps[6], repo, tag) + StepCommands(steps[7], repo, tag)
  {
    assert steps[..0] == [];
    ScriptSnoc(steps, 0, repo, tag);
    assert [] + StepCommands(steps[0], repo, tag) == StepCommands(steps[0], repo, tag);
    ScriptSnoc(steps, 1, repo, tag);
    ScriptSnoc(steps, 2, repo, tag);
    ScriptSnoc(steps, 3, repo, tag);
    ScriptSnoc(steps, 4, repo, tag);
    ScriptSnoc(steps, 5, repo, tag);
    ScriptSnoc(steps, 6, repo, tag);
    ScriptSnoc(steps, 7, repo, tag);
  }

  /** Every command the run got past, all but the last one run, succeeded. */
  lemma SucceededBeforeLast(cmds: seq<Command>, at: nat, succeeds: Outcomes, i: nat)
    requires i < |Ran(cmds, at, succeeds)| - 1
    ensures i < |cmds| && succeeds(at + i, cmds[i])
  {
    FailFast(cmds, at, succeeds);
    assert Ran(cmds, at, succeeds)[i] == cmds[i];
  }

  /** The package is published (the sixth command) only after the release
      commit and its tag have succeeded. */
  lemma PublishedAfterTagged(repo: Repository, tag: string, at: nat, succeeds: Outcomes)
    ensures |Script(CommandSteps, repo, tag)| >= 9
    ensures Script(CommandSteps, repo, tag)[5] == Command("npm", ["publish"], repo.dirSrc)
    ensures |Ran(Script(CommandSteps, repo, tag), at, succeeds)| > 5 ==>
      succeeds(at + 2, Command("git", ["commit", "-am", "release: " + tag], repo.dirRoot)) &&
      succeeds(at + 3, Command("git", ["tag", tag], repo.dirRoot))
  {
    var s := Script(CommandSteps, repo, tag);
    ReleaseScriptStart(repo, tag);
    var start := s[..9];
    assert s[2] == start[2] && s[3] == start[3] && s[5] == start[5];
    if |Ran(s, at, succeeds)| > 5 {
      SucceededBeforeLast(s, at, succeeds, 2);
      SucceededBeforeLast(s, at, succeeds, 3);
    }
  }

  /** The release is pushed (the eighth command) only after both packages
      were published. */
  lemma PushedAfterPublished(repo: Repository, tag: string, at: nat, succeeds: Outcomes)
    ensures |Script(CommandSteps, repo, tag)| >= 9
    ensures Script(CommandSteps, repo, tag)[7] == Command("git", ["push"], repo.dirRoot)
    ensures |Ran(Script(CommandSteps, repo, tag), at, succeeds)| > 7 ==>
      succeeds(at + 5, Command("npm", ["publish"], repo.dirSrc)) &&
      succeeds(at + 6, Command("npm", ["publish"], repo.dirBoilerplates))
  {
    var s := Script(CommandSteps, repo, tag);
    ReleaseScriptStart(repo, tag);
    var start := s[..9];
    assert s[5] == start[5] && s[6] == start[6] && s[7] == start[7];
    if |Ran(s, at, succeeds)| > 7 {
      SucceededBeforeLast(s, at, succeeds, 5);
      SucceededBeforeLast(s, at, succeeds, 6);
    }
  }

  // ---------------------------------------------------------------------
  // The script, step by step

  /** retrievePkgPaths: the loop that resolves the manifest of each listed
      directory, `present` being the manifests that exist. */
  method RetrievePkgPaths(rootDir: string, entries: seq<DirEntry>, present: set<string>)
    returns (r: Result<seq<string>, ReleaseError>)
    ensures r == ResolveManifests(PackagePaths(rootDir, entries), present)
  {
    var candidates := PackagePaths(rootDir, entries);
    var pkgPaths := [];
    var i := 0;
    while i < |candidates|
      invariant i <= |candidates|
      invariant pkgPaths == candidates[..i]
      invariant forall j :: 0 <= j < i ==> candidates[j] in present
    {
      if candidates[i] !in present {
        return Err(ManifestMissing(candidates[i]));
      }
      pkgPaths := pkgPaths + [candidates[i]];
      i := i + 1;
    }
    assert pkgPaths == candidates;
    return Ok(pkgPaths);
  }

  /** The repository's files and manifests as the script reads and writes
      them, and the commands it has run so far. */
  class Workspace {
    var files: map<string, string>
    var manifests: map<string, Manifest>
    var commands: seq<Command>

    constructor(files: map<string, string>, manifests: map<string, Manifest>)
      ensures this.files == files && this.manifests == manifests && commands == []
    {
      this.files := files;
      this.manifests := manifests;
      commands := [];
    }

    /** The loop shared by updateVersionMacro: `update` rewrites each file
        named by `paths` in turn, stopping at the first file missing or
        refused. */
    method UpdateFiles(paths: seq<string>, update: (string, string) -> Result<string, ReleaseError>)
      returns (failure: Option<ReleaseError>)
      modifies this
      ensures files == UpdateEach(old(files), paths, update, MissingFile).state
      ensures failure == UpdateEach(old(files), paths, update, MissingFile).error
      ensures manifests == old(manifests) && commands == old(commands)
    {
      var i := 0;
      while i < |paths|
        invariant i <= |paths|
        invariant UpdateEach(old(files), paths[..i], update, MissingFile) == Progress(files, None)
        invariant manifests == old(manifests) && commands == old(commands)
      {
        var path := paths[i];
        assert paths[..i + 1][..i] == paths[..i];
        if path !in files {
          failure := Some(FileMissing(path));
          UpdateEachStuck(old(files), paths, i + 1, update, MissingFile);
          return;
        }
        var contentNew := update(path, files[path]);
        if contentNew.Err? {
          failure := Some(contentNew.error);
          UpdateEachStuck(old(files), paths, i + 1, update, MissingFile);
          return;
        }
        files := files[path := contentNew.value];
        i := i + 1;
      }
      assert paths[..i] == paths;
      failure := None;
    }

    /** updateVersionMacro: each version file in turn gets the new snippet. */
    method UpdateVersionMacro(paths: seq<string>, versionOld: string, versionNew: string)
      returns (failure: Option<ReleaseError>)
      modifies this
      ensures files == RewriteMacros(old(files), paths, versionOld, versionNew).state
      ensures failure == RewriteMacros(old(files), paths, versionOld, versionNew).error
      ensures manifests == old(manifests) && commands == old(commands)
    {
      failure := UpdateFiles(paths, MacroUpdate(versionOld, versionNew));
    }

    /** updatePackageJsonVersion: the package's manifest gets the new version. */
    method UpdatePackageJsonVersion(path: string, versionNew: string) returns (failure: Option<ReleaseError>)
      modifies this
      ensures manifests == UpdatePkg(old(manifests), path, VersionSetter(versionNew)).state
      ensures failure == UpdatePkg(old(manifests), path, VersionSetter(versionNew)).error
      ensures files == old(files) && commands == old(commands)
    {
      if path !in manifests {
        return Some(ManifestMissing(path));
      }
      manifests := manifests[path := manifests[path].(version := versionNew)];
      failure := None;
    }

    /** updateDependencies: the boilerplates' and the examples' manifests are
        located, then each in turn moves to the new version. */
    method UpdateDependencies(repo: Repository, versionNew: string, versionOld: string) returns (failure: Option<ReleaseError>)
      modifies this
      ensures manifests == MoveDependencies(repo, old(manifests), versionOld, versionNew).state
      ensures failure == MoveDependencies(repo, old(manifests), versionOld, versionNew).error
      ensures files == old(files) && commands == old(commands)
    {
      var fromBoilerplates := RetrievePkgPaths(repo.dirBoilerplates, repo.boilerplateEntries, manifests.Keys);
      if fromBoilerplates.Err? {
        return Some(fromBoilerplates.error);
      }
      var fromExamples := RetrievePkgPaths(repo.dirExamples, repo.exampleEntries, manifests.Keys);
      if fromExamples.Err? {
        return Some(fromExamples.error);
      }
      failure := UpdateManifests(fromBoilerplates.value + fromExamples.value, DependencyUpdate(repo.npmName, versionOld, versionNew));
    }

    /** The loop shared by updateDependencies: `update` rewrites each
        manifest named by `pkgPaths` in turn, stopping at the first manifest
        missing or refused. */
    method UpdateManifests(pkgPaths: seq<string>, update: (string, Manifest) -> Result<Manifest, ReleaseError>)
      returns (failure: Option<ReleaseError>)
      modifies this
      ensures manifests == UpdateEach(old(manifests), pkgPaths, update, MissingManifest).state
      ensures failure == UpdateEach(old(manifests), pkgPaths, update, MissingManifest).error
      ensures files == old(files) && commands == old(commands)
    {
      var i := 0;
      while i < |pkgPaths|
        invariant i <= |pkgPaths|
        invariant UpdateEach(old(manifests), pkgPaths[..i], update, MissingManifest) == Progress(manifests, None)
        invariant files == old(files) && commands == old(commands)
      {
        var pkgPath := pkgPaths[i];
        assert pkgPaths[..i + 1][..i] == pkgPaths[..i];
        if pkgPath !in manifests {
          failure := Some(ManifestMissing(pkgPath));
          UpdateEachStuck(old(manifests), pkgPaths, i + 1, update, MissingManifest);
          return;
        }
        var pkg := update(pkgPath, manifests[pkgPath]);
        if pkg.Err? {
          failure := Some(pkg.error);
          UpdateEachStuck(old(manifests), pkgPaths, i + 1, update, MissingManifest);
          return;
        }
        manifests := manifests[pkgPath := pkg.value];
        i := i + 1;
      }
      assert pkgPaths[..i] == pkgPaths;
      failure := None;
    }

    /** bumpBoilerplateVersion on the boilerplates package's manifest. */
    method BumpBoilerplateVersion(path: string) returns (failure: Option<ReleaseError>)
      modifies this
      ensures manifests == UpdatePkg(old(manifests), path, BoilerplateBumper).state
      ensures failure == UpdatePkg(old(manifests), path, BoilerplateBumper).error
      ensures files == old(files) && commands == old(commands)
    {
      if path !in manifests {
        return Some(ManifestMissing(path));
      }
      var version := BumpBoilerplate(manifests[path].version);
      if version.Err? {
        return Some(version.error);
      }
      manifests := manifests[path := manifests[path].(version := version.value)];
      failure := None;
    }

    /** run: the command is started as the next command of the workspace;
        whether it succeeds is the caller's `succeeds` at that position, and
        a failure rejects the awaiting step. */
    method Run(command: Command, succeeds: Outcomes) returns (failure: Option<ReleaseError>)
      modifies this
      ensures commands == old(commands) + [command]
      ensures failure == CommandError(if succeeds(|old(commands)|, command) then None else Some(command))
      ensures files == old(files) && manifests == old(manifests)
    {
      failure := if succeeds(|commands|, command) then None else Some(CommandFailed(command));
      commands := commands + [command];
    }

    /** One of the command steps, after its guard. */
    method RunStep(step: Step, repo: Repository, tag: string, succeeds: Outcomes) returns (failure: Option<ReleaseError>)
      modifies this
      ensures commands == old(commands) + StepRun(step, repo, tag, |old(commands)|, succeeds).ran
      ensures failure == StepRun(step, repo, tag, |old(commands)|, succeeds).failure
      ensures files == old(files) && manifests == old(manifests)
    {
      failure := Guard(step, tag);
      if failure.Some? {
        return;
      }
      var cmds := StepCommands(step, repo, tag);
      if step == GitPush {
        var push, pushTags := cmds[0], cmds[1];
        RanOfPair(push, pushTags, |commands|, succeeds);
        failure := Run(push, succeeds);
        if failure.None? {
          failure := Run(pushTags, succeeds);
          ConcatAssociative(old(commands), [push], [pushTags]);
        }
      } else {
        RanOfSingle(cmds[0], |commands|, succeeds);
        failure := Run(cmds[0], succeeds);
      }
    }

    /** The commands of release(), from the lockfile update to the link,
        each awaited, the first failure aborting the rest. They come in three
        groups of four: recording the release (install, changelog, commit,
        tag), publishing it (build, both publishes, push) and the
        post-release steps (test, lockfile commit, push, link). */
    method RunCommandSteps(repo: Repository, tag: string, succeeds: Outcomes) returns (failure: Option<ReleaseError>)
      modifies this
      ensures commands == old(commands) + RunSteps(CommandSteps, repo, tag, |old(commands)|, succeeds).ran
      ensures failure == RunSteps(CommandSteps, repo, tag, |old(commands)|, succeeds).failure
      ensures files == old(files) && manifests == old(manifests)
    {
      failure := RunStepGroups(CommandSteps, repo, tag, succeeds);
    }

    /** Twelve steps, as three groups of four. This grouping, like
        `RunStepGroup` and `RunNextStep`, only structures the proof; the
        script awaits its steps one after another. */
    method RunStepGroups(steps: seq<Step>, repo: Repository, tag: string, succeeds: Outcomes) returns (failure: Option<ReleaseError>)
      requires |steps| == 12
      modifies this
      ensures commands == old(commands) + RunSteps(steps, repo, tag, |old(commands)|, succeeds).ran
      ensures failure == RunSteps(steps, repo, tag, |old(commands)|, succeeds).failure
      ensures files == old(files) && manifests == old(manifests)
    {
      ghost var before := commands;
      assert steps[..0] == [];
      failure := RunStepGroup(steps, 0, 4, before, None, repo, tag, succeeds);
      failure := RunStepGroup(steps, 4, 8, before, failure, repo, tag, succeeds);
      failure := RunStepGroup(steps, 8, 12, before, failure, repo, tag, succeeds);
      assert steps[..12] == steps;
    }

    /** Four consecutive steps of `steps`, from `first` up to `last`, once
        the steps before them have run. */
    method RunStepGroup(steps: seq<Step>, first: nat, ghost last: nat, ghost before: seq<Command>, pending: Option<ReleaseError>,
                        repo: Repository, tag: string, succeeds: Outcomes) returns (failure: Option<ReleaseError>)
      requires last == first + 4 <= |steps|
      requires pending == RunSteps(steps[..first], repo, tag, |before|, succeeds).failure
      requires commands == before + RunSteps(steps[..first], repo, tag, |before|, succeeds).ran
      modifies this
      ensures commands == before + RunSteps(steps[..last], repo, tag, |before|, succeeds).ran
      ensures failure == RunSteps(steps[..last], repo, tag, |before|, succeeds).failure
      ensures files == old(files) && manifests == old(manifests)
    {
      failure := RunNextStep(steps, first, before, pending, repo, tag, succeeds);
      failure := RunNextStep(steps, first + 1, before, failure, repo, tag, succeeds);
      failure := RunNextStep(steps, first + 2, before, failure, repo, tag, succeeds);
      failure := RunNextStep(steps, first + 3, before, failure, repo, tag, succeeds);
    }

    /** Step `k` of `steps`, once the steps before it have run: it runs
        nothing when one of them has failed (the rejection of an awaited
        step skips the rest of `release()`). */
    method RunNextStep(steps: seq<Step>, k: nat, ghost before: seq<Command>, pending: Option<ReleaseError>,
                       repo: Repository, tag: string, succeeds: Outcomes) returns (failure: Option<ReleaseError>)
      requires k < |steps|
      requires pending == RunSteps(steps[..k], repo, tag, |before|, succeeds).failure
      requires commands == before + RunSteps(steps[..k], repo, tag, |before|, succeeds).ran
      modifies this
      ensures files == old(files) && manifests == old(manifests)
      ensures commands == before + RunSteps(steps[..k + 1], repo, tag, |before|, succeeds).ran
      ensures failure == RunSteps(steps[..k + 1], repo, tag, |before|, succeeds).failure
    {
      ghost var done := RunSteps(steps[..k], repo, tag, |before|, succeeds);
      ghost var start := commands;
      ghost var next := StepRun(steps[k], repo, tag, |start|, succeeds);
      RunStepsAdvance(steps, k, repo, tag, |before|, succeeds, done, next);
      if pending.Some? {
        return pending;
      }
      failure := RunStep(steps[k], repo, tag, succeeds);
      ConcatAssociative(before, done.ran, next.ran);
    }

    /** release(): the file edits, then the commands. Nothing is run unless
        every edit succeeded; the tag guard never fires, since the new
        version starts with `0.`. */
    method Release(repo: Repository, cliArgs: seq<string>, succeeds: Outcomes) returns (failure: Option<ReleaseError>)
      modifies this
      ensures files == Prepare(repo, cliArgs, old(files), old(manifests)).files
      ensures manifests == Prepare(repo, cliArgs, old(files), old(manifests)).manifests
      ensures Prepare(repo, cliArgs, old(files), old(manifests)).error.Some? ==>
        failure == Prepare(repo, cliArgs, old(files), old(manifests)).error && commands == old(commands)
      ensures Prepare(repo, cliArgs, old(files), old(manifests)).error.None? ==>
        var script := Script(CommandSteps, repo, Tag(Prepare(repo, cliArgs, old(files), old(manifests)).versions.value.versionNew));
        commands == old(commands) + Ran(script, |old(commands)|, succeeds) &&
        failure == CommandError(FirstFailure(script, |old(commands)|, succeeds))
    {
      var srcPath := SrcManifestPath(repo);
      if srcPath !in manifests {
        return Some(ManifestMissing(srcPath));
      }
      var versions := SelectVersions(manifests[srcPath].version, cliArgs);
      if versions.Err? {
        return Some(versions.error);
      }
      var versionOld, versionNew := versions.value.versionOld, versions.value.versionNew;
      failure := UpdateVersionMacro(repo.versionFiles, versionOld, versionNew);
      if failure.Some? {
        return;
      }
      failure := UpdatePackageJsonVersion(srcPath, versionNew);
      if failure.Some? {
        return;
      }
      failure := UpdateDependencies(repo, versionNew, versionOld);
      if failure.Some? {
        return;
      }
      failure := BumpBoilerplateVersion(BoilerplatesManifestPath(repo));
      if failure.Some? {
        return;
      }
      var tag := Tag(versionNew);
      TagGuardHolds(versionNew);
      ghost var at := |commands|;
      failure := RunCommandSteps(repo, tag, succeeds);
      RunStepsOfScript(CommandSteps, repo, tag, at, succeeds);
    }
  }
}
