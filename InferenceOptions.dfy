/** The option builders of packages/esw/src/inference/options.ts: from a
    package.json and the user's esbuild options they infer, for each output
    field (`main`, `module`), the options of one build. The rxjs streams that
    compose them are modelled as the sequence of their outcomes. */
module InferenceOptions {
  import opened Wrappers
  import opened Strings
  import opened Build
  import ExternalMark

  /** `PRESET_JS_FORMAT` */
  const PresetFormats: seq<Format> := [Cjs, Esm]
  /** `ENTRY_POINTS_EXTS` */
  const EntryPointExts: seq<string> := [".js", ".jsx", ".ts", ".tsx"]
  /** `AVAILABLE_JS_EXTS`; the first is `DEFAULT_JS_EXTS`. */
  const AvailableJsExts: seq<string> := [".js", ".cjs", ".mjs"]

  /** What is known about one output of the package. */
  datatype InferenceMeta = InferenceMeta(
    outputPath: string,
    entryPointField: Field,
    format: Format,
    packageType: Option<string>,
    dependencies: Option<seq<string>>,
    peerDependencies: Option<seq<string>>)

  // ---------------------------------------------------------------------
  // getInferenceMeta

  /** The meta one format contributes: none when the format has no field or
      the package leaves that field out. */
  function MetaFor(pkg: PackageJson, format: Format): Option<InferenceMeta> {
    match FieldOf(format)
    case None => None
    case Some(field) =>
      match FieldValue(pkg, field)
      case None => None
      case Some(outputPath) =>
        Some(InferenceMeta(outputPath, field, format, pkg.packageType, pkg.dependencies, pkg.peerDependencies))
  }

  /** The metas of `formats`, in their order. */
  function Metas(pkg: PackageJson, formats: seq<Format>): seq<InferenceMeta>
  {
    if formats == [] then []
    else
      var before := Metas(pkg, formats[..|formats| - 1]);
      match MetaFor(pkg, formats[|formats| - 1])
      case None => before
      case Some(m) => before + [m]
  }

  /** `getInferenceMeta`: the reduce that pushes one meta per format whose
      field the package sets. Its throw needs a `module` field paired with a
      format other than 'esm', which `FieldOf` never produces. */
  method GetInferenceMeta(pkg: PackageJson, formats: seq<Format>) returns (metas: seq<InferenceMeta>)
    ensures metas == Metas(pkg, formats)
  {
    metas := [];
    for i := 0 to |formats|
      invariant metas == Metas(pkg, formats[..i])
    {
      assert formats[..i + 1][..i] == formats[..i];
      var format := formats[i];
      var field := FieldOf(format);
      if field.None? {
        continue;
      }
      var value := FieldValue(pkg, field.value);
      if value.None? {
        continue;
      }
      var isMainFieldMatched := field.value == Main;
      var isModuleFieldMatched := field.value == Module;
      if isMainFieldMatched || (isModuleFieldMatched && format == Esm) {
        metas := metas + [InferenceMeta(value.value, field.value, format, pkg.packageType,
                                        pkg.dependencies, pkg.peerDependencies)];
      } else {
        assert false;
      }
    }
    assert formats[..|formats|] == formats;
  }

  /** Every meta names a format, its field, and the path the package gives
      that field. */
  lemma {:induction false} MetaMatchesField(pkg: PackageJson, formats: seq<Format>, i: nat)
    requires i < |Metas(pkg, formats)|
    ensures var m := Metas(pkg, formats)[i];
      m.format in formats && FieldOf(m.format) == Some(m.entryPointField)
      && FieldValue(pkg, m.entryPointField) == Some(m.outputPath)
      && m.packageType == pkg.packageType
  {
    var before := Metas(pkg, formats[..|formats| - 1]);
    if i < |before| {
      MetaMatchesField(pkg, formats[..|formats| - 1], i);
    }
  }

  /** With the preset formats: the `main` build first, then the `module`
      build, each present exactly when the package sets its field. */
  lemma PresetMetas(pkg: PackageJson)
    ensures Metas(pkg, PresetFormats) ==
      (if pkg.mainField.Some? then [InferenceMeta(pkg.mainField.value, Main, Cjs, pkg.packageType, pkg.dependencies, pkg.peerDependencies)] else [])
      + (if pkg.moduleField.Some? then [InferenceMeta(pkg.moduleField.value, Module, Esm, pkg.packageType, pkg.dependencies, pkg.peerDependencies)] else [])
  {
    var main := MetaFor(pkg, Cjs);
    assert [Cjs][..0] == [];
    assert Metas(pkg, [Cjs]) == if main.Some? then [main.value] else [];
    assert PresetFormats[..1] == [Cjs];
  }

  // ---------------------------------------------------------------------
  // validateFormatIsMatchType and inferBuildFormat

  /** `validateFormatIsMatchType`: 'cjs' needs no `type` or "commonjs",
      'esm' needs "module", any other format passes. */
  function ValidateFormatIsMatchType(fmt: Format, packageType: Option<string>): (r: Option<Failure>)
    ensures r.None? <==>
      (fmt == Cjs ==> packageType.None? || packageType == Some("commonjs"))
      && (fmt == Esm ==> packageType == Some("module"))
    ensures r.Some? ==>
      r.value == (if fmt == Cjs then CommonJsTypeRequired(packageType) else ModuleTypeRequired(packageType))
  {
    if fmt == Cjs && !(packageType.None? || packageType == Some("commonjs")) then
      Some(CommonJsTypeRequired(packageType))
    else if fmt == Esm && packageType != Some("module") then
      Some(ModuleTypeRequired(packageType))
    else
      None
  }

  /** `inferBuildFormat` of the single-entry flow: the `module` field always
      builds its own format, whatever the user asked for; the `main` field
      keeps the user's format (by default 'cjs') once the package's `type`
      agrees with it. */
  function InferBuildFormat(meta: InferenceMeta, options: BuildOptions): (r: Result<BuildOptions, Failure>)
    ensures meta.entryPointField == Module ==> r == Ok(options.(format := Some(meta.format)))
    ensures meta.entryPointField == Main ==>
      var fmt := options.format.GetOr(Cjs);
      (r.Ok? <==> ValidateFormatIsMatchType(fmt, meta.packageType).None?)
      && (r.Ok? ==> r.value == options.(format := Some(fmt)))
      && (r.Err? ==> r.error == ValidateFormatIsMatchType(fmt, meta.packageType).value)
  {
    if meta.entryPointField == Module then
      Ok(options.(format := Some(meta.format)))
    else
      var fmt := options.format.GetOr(FormatOf(meta.entryPointField));
      match ValidateFormatIsMatchType(fmt, meta.packageType)
      case Some(failure) => Err(failure)
      case None => Ok(options.(format := Some(fmt)))
  }

  /** Inferring the format again changes nothing. */
  lemma InferBuildFormatIdempotent(meta: InferenceMeta, options: BuildOptions)
    requires InferBuildFormat(meta, options).Ok?
    ensures InferBuildFormat(meta, InferBuildFormat(meta, options).value) == InferBuildFormat(meta, options)
  {
  }

  /** A package with a `module` field builds it as ES modules even when the
      user asked for CommonJS. */
  lemma ModuleFieldOverridesUserFormat(pkg: PackageJson, options: BuildOptions)
    requires pkg.moduleField.Some? && options.format == Some(Cjs)
    ensures MetaFor(pkg, Esm).Some?
    ensures InferBuildFormat(MetaFor(pkg, Esm).value, options) == Ok(options.(format := Some(Esm)))
  {
  }

  /** `inferBuildFormat` of the multi-entry flow: the user's format, by
      default the one the package's `type` names, checked against `type`. */
  function InferMultiEntryFormat(packageType: Option<string>, options: BuildOptions): (r: Result<BuildOptions, Failure>)
    ensures r.Ok? <==> ValidateFormatIsMatchType(
      options.format.GetOr(if packageType == Some("module") then Esm else Cjs), packageType).None?
    ensures r.Ok? ==> r.value.format.Some? && r.value == options.(format := r.value.format)
    ensures options.format.Some? && r.Ok? ==> r.value == options
  {
    var fmt := options.format.GetOr(if packageType == Some("module") then Esm else Cjs);
    match ValidateFormatIsMatchType(fmt, packageType)
    case Some(failure) => Err(failure)
    case None => Ok(options.(format := Some(fmt)))
  }

  /** Without a user format the multi-entry flow fails exactly when `type`
      is neither "module" nor "commonjs". */
  lemma MultiEntryDefaultFormat(packageType: Option<string>, options: BuildOptions)
    requires options.format.None?
    ensures InferMultiEntryFormat(packageType, options).Err? <==>
      packageType.Some? && packageType.value != "module" && packageType.value != "commonjs"
  {
  }

  // ---------------------------------------------------------------------
  // mergeStaticBuildOptions

  /** `mergeStaticBuildOptions`: `bundle` and `incremental` default to true
      and false, `logLevel`, `write`, `metafile` and `absWorkingDir` are
      forced, and `splitting` defaults to whether the format is 'esm'. */
  function MergeStaticBuildOptions(cwd: string, options: BuildOptions): (r: BuildOptions)
    ensures r.bundle == Some(options.bundle.GetOr(true))
    ensures r.incremental == Some(options.incremental.GetOr(false))
    ensures r.logLevel == Some("silent") && r.write == Some(true) && r.metafile == Some(true)
    ensures r.absWorkingDir == Some(cwd)
    ensures r.splitting == Some(options.splitting.GetOr(options.format == Some(Esm)))
    ensures r.format == options.format && r.outExtension == options.outExtension
    ensures r.outdir == options.outdir && r.entryPoints == options.entryPoints && r.plugins == options.plugins
  {
    var options := options.(bundle := Some(options.bundle.GetOr(true)),
                            incremental := Some(options.incremental.GetOr(false)),
                            logLevel := Some("silent"), write := Some(true), metafile := Some(true));
    options.(absWorkingDir := Some(cwd), splitting := Some(options.splitting.GetOr(options.format == Some(Esm))))
  }

  /** Merging twice is merging once. */
  lemma MergeStaticBuildOptionsIdempotent(cwd: string, options: BuildOptions)
    ensures MergeStaticBuildOptions(cwd, MergeStaticBuildOptions(cwd, options)) == MergeStaticBuildOptions(cwd, options)
  {
  }

  // ---------------------------------------------------------------------
  // inferOut

  /** The output extension for an output path's extension: itself when it
      is one esbuild may write, else ".js". */
  function JsExtension(ext: string): (r: string)
    ensures r in AvailableJsExts
    ensures r == ext <==> ext in AvailableJsExts
  {
    if ext in AvailableJsExts then ext else AvailableJsExts[0]
  }

  /** `inferOut`: the output extension follows the output path, and the
      output directory defaults to the output path's directory. */
  function InferOut(paths: Paths, meta: InferenceMeta, options: BuildOptions): (r: BuildOptions)
    ensures r.outExtension == Some(map[".js" := JsExtension(paths.extname(meta.outputPath))])
    ensures r.outdir == Some(options.outdir.GetOr(paths.dirname(meta.outputPath)))
    ensures r == options.(outExtension := r.outExtension, outdir := r.outdir)
  {
    var ext := paths.extname(meta.outputPath);
    options.(outExtension := Some(map[".js" := JsExtension(ext)]),
             outdir := Some(options.outdir.GetOr(paths.dirname(meta.outputPath))))
  }

  /** After `inferOut` the output directory is known, so inferring it again
      changes nothing. */
  lemma InferOutIdempotent(paths: Paths, meta: InferenceMeta, options: BuildOptions)
    ensures InferOut(paths, meta, InferOut(paths, meta, options)) == InferOut(paths, meta, options)
  {
  }

  // ---------------------------------------------------------------------
  // ensureEntryPoints

  /** Whether `\..` matches at `p`: a dot, then a character other than a
      line terminator. */
  predicate DotRunAt(s: string, p: nat) {
    p + 1 < |s| && s[p] == '.' && !IsLineTerminator(s[p + 1])
  }

  /** The leftmost position at or after `i` where `\..` matches. */
  function FirstDotRun(s: string, i: nat): (p: Option<nat>)
    requires i <= |s|
    ensures p.Some? ==> i <= p.value && DotRunAt(s, p.value)
    ensures forall q :: i <= q && (p.None? || q < p.value) ==> !DotRunAt(s, q)
    decreases |s| - i
  {
    if i == |s| then None
    else if DotRunAt(s, i) then Some(i)
    else FirstDotRun(s, i + 1)
  }

  /** `s.replace(/\..+/, '')`: the first dot that has a character after it
      is removed with the rest of its line. */
  function EntryStem(s: string): (r: string)
    ensures FirstDotRun(s, 0).None? ==> r == s
  {
    match FirstDotRun(s, 0)
    case None => s
    case Some(p) => s[..p] + s[p + 1 + LineLength(s[p + 1..])..]
  }

  /** A file name `stem.ext` with a dot-free stem has the entry stem `stem`. */
  lemma EntryStemOfFileName(stem: string, ext: string)
    requires '.' !in stem && ext != [] && !HasLineTerminator(ext)
    ensures EntryStem(stem + "." + ext) == stem
  {
    var s := stem + "." + ext;
    assert DotRunAt(s, |stem|) by {
      assert s[|stem| + 1] == ext[0];
    }
    forall q | 0 <= q < |stem|
      ensures !DotRunAt(s, q)
    {
      assert s[q] == stem[q];
    }
    assert s[|stem| + 1..] == ext;
    RestOfLineWhole(ext);
  }

  /** The files esw looks for as the entry of an output path: its entry
      stem with each entry extension, resolved against `cwd`. */
  function Candidates(paths: Paths, cwd: string, outputPath: string): (files: seq<string>)
    ensures |files| == |EntryPointExts|
  {
    var stem := EntryStem(paths.basename(outputPath));
    seq(|EntryPointExts|, i requires 0 <= i < |EntryPointExts| => paths.resolve(cwd, stem + EntryPointExts[i]))
  }

  /** `files.filter(isFile)` */
  function Existing(files: seq<string>, isFile: string -> bool): (r: seq<string>)
    ensures |r| <= |files|
    ensures forall f :: f in r <==> f in files && isFile(f)
  {
    if files == [] then []
    else
      var before := Existing(files[..|files| - 1], isFile);
      var last := files[|files| - 1];
      assert files == files[..|files| - 1] + [last];
      if isFile(last) then before + [last] else before
  }

  /** `ensureEntryPoints`: options that name entry points are kept;
      otherwise the entry points are the candidate files that exist, and
      there must be one. `isFile` stands for `fs.existsSync`. */
  function EnsureEntryPoints(paths: Paths, isFile: string -> bool, cwd: string, outputPath: string,
                             options: BuildOptions): (r: Result<BuildOptions, Failure>)
    ensures options.entryPoints != Unset ==> r == Ok(options)
    ensures options.entryPoints == Unset ==>
      var candidates := Candidates(paths, cwd, outputPath);
      (r.Ok? <==> exists f :: f in candidates && isFile(f))
      && (r.Ok? ==> r.value == options.(entryPoints := EntryList(Existing(candidates, isFile))))
  {
    if options.entryPoints != Unset then Ok(options)
    else
      var candidates := Candidates(paths, cwd, outputPath);
      var matched := Existing(candidates, isFile);
      if |matched| > 0 then
        assert matched[0] in matched;
        Ok(options.(entryPoints := EntryList(matched)))
      else
        assert forall f :: f in candidates && isFile(f) ==> f in matched;
        Err(NoEntryPoint(seq(|candidates|, i requires 0 <= i < |candidates| => paths.basename(candidates[i])),
                         paths.realpath(cwd)))
  }

  // ---------------------------------------------------------------------
  // inferEntryPoints

  /** The record built by storing every entry, in order, under `key`. */
  function Recorded(key: string, entries: seq<string>): map<string, string> {
    if entries == [] then map[]
    else Recorded(key, entries[..|entries| - 1])[key := entries[|entries| - 1]]
  }

  /** All entries land on the one key, and the last one stays. */
  lemma {:induction false} RecordedHoldsLast(key: string, entries: seq<string>)
    ensures entries == [] ==> Recorded(key, entries) == map[]
    ensures entries != [] ==> Recorded(key, entries) == map[key := entries[|entries| - 1]]
  {
    if |entries| > 1 {
      RecordedHoldsLast(key, entries[..|entries| - 1]);
    }
  }

  /** The reduce of `inferEntryPoints`: each entry is stored under `key`,
      and storing onto a key already taken writes `warning` once more. The
      key does not depend on the entry, so it is computed once here. */
  method RecordEntries(key: string, entries: seq<string>, warning: string)
    returns (record: map<string, string>, warnings: seq<string>)
    ensures record == Recorded(key, entries)
    ensures warnings == seq(if entries == [] then 0 else |entries| - 1, _ => warning)
  {
    record := map[];
    warnings := [];
    for i := 0 to |entries|
      invariant record == Recorded(key, entries[..i])
      invariant warnings == seq(if i == 0 then 0 else i - 1, _ => warning)
    {
      assert entries[..i + 1][..i] == entries[..i];
      RecordedHoldsLast(key, entries[..i]);
      if key in record {
        warnings := warnings + [warning];
      }
      record := record[key := entries[i]];
    }
    assert entries[..|entries|] == entries;
  }

  /** The key of every entry: the output path relative to the output
      directory, without its extension. */
  function EntryKey(paths: Paths, outdir: string, outputPath: string): string {
    paths.basenameWithout(paths.relative(outdir, outputPath), paths.extname(outputPath))
  }

  /** The warning written for a repeated key. */
  function DuplicateWarning(paths: Paths, processCwd: string, options: BuildOptions, outputPath: string): string {
    "Duplicated outPath detected: " + paths.relative(options.absWorkingDir.GetOr(processCwd), outputPath) + "."
  }

  /** What `inferEntryPoints` makes of the options: entry points that are
      not a list are kept; a list becomes a record of one key at most. With
      no output directory, `path.relative` throws at the first entry. */
  function InferredEntryPoints(paths: Paths, meta: InferenceMeta, options: BuildOptions): Result<BuildOptions, Failure> {
    if !options.entryPoints.EntryList? then Ok(options)
    else if options.entryPoints.list == [] then Ok(options.(entryPoints := EntryRecord(map[])))
    else if options.outdir.None? then Err(RelativeFromUndefined)
    else
      var key := EntryKey(paths, options.outdir.value, meta.outputPath);
      Ok(options.(entryPoints := EntryRecord(Recorded(key, options.entryPoints.list))))
  }

  /** `inferEntryPoints`, with the warnings it writes. */
  method InferEntryPoints(paths: Paths, meta: InferenceMeta, processCwd: string, options: BuildOptions)
    returns (r: Result<BuildOptions, Failure>, warnings: seq<string>)
    ensures r == InferredEntryPoints(paths, meta, options)
    ensures warnings == if r.Ok? && options.entryPoints.EntryList? && options.entryPoints.list != []
      then seq(|options.entryPoints.list| - 1, _ => DuplicateWarning(paths, processCwd, options, meta.outputPath))
      else []
  {
    if !options.entryPoints.EntryList? {
      return Ok(options), [];
    }
    var entries := options.entryPoints.list;
    if entries == [] {
      return Ok(options.(entryPoints := EntryRecord(map[]))), [];
    }
    if options.outdir.None? {
      return Err(RelativeFromUndefined), [];
    }
    var key := EntryKey(paths, options.outdir.value, meta.outputPath);
    var record;
    record, warnings := RecordEntries(key, entries, DuplicateWarning(paths, processCwd, options, meta.outputPath));
    r := Ok(options.(entryPoints := EntryRecord(record)));
  }

  /** A list of entry points becomes a record holding only the last entry,
      under the key of the output path. */
  lemma EntryRecordHoldsLast(paths: Paths, meta: InferenceMeta, options: BuildOptions)
    requires options.entryPoints.EntryList? && options.entryPoints.list != [] && options.outdir.Some?
    ensures var entries := options.entryPoints.list;
      InferredEntryPoints(paths, meta, options)
      == Ok(options.(entryPoints := EntryRecord(
           map[EntryKey(paths, options.outdir.value, meta.outputPath) := entries[|entries| - 1]])))
  {
    RecordedHoldsLast(EntryKey(paths, options.outdir.value, meta.outputPath), options.entryPoints.list);
  }

  // ---------------------------------------------------------------------
  // markDepsAsExternalParts

  /** The names of the peer dependencies, then those of the dependencies. */
  function DependencyNames(dependencies: Option<seq<string>>, peerDependencies: Option<seq<string>>): (names: seq<string>)
    ensures |names| == |peerDependencies.GetOr([])| + |dependencies.GetOr([])|
    ensures names[..|peerDependencies.GetOr([])|] == peerDependencies.GetOr([])
    ensures names[|peerDependencies.GetOr([])|..] == dependencies.GetOr([])
  {
    peerDependencies.GetOr([]) + dependencies.GetOr([])
  }

  /** `markDepsAsExternalParts`: the dependency marker goes in front of the
      user's plugins. */
  function MarkDepsAsExternalParts(dependencies: Option<seq<string>>, peerDependencies: Option<seq<string>>,
                                   options: BuildOptions): (r: BuildOptions)
    ensures r.plugins.Some? && |r.plugins.value| == 1 + |options.plugins.GetOr([])|
    ensures r.plugins.value[0] == ExternalMarkPlugin(ExternalMark.Setup(DependencyNames(dependencies, peerDependencies)))
    ensures r.plugins.value[1..] == options.plugins.GetOr([])
    ensures r == options.(plugins := r.plugins)
  {
    options.(plugins := Some([ExternalMarkPlugin(ExternalMark.Setup(DependencyNames(dependencies, peerDependencies)))]
                             + options.plugins.GetOr([])))
  }

  /** The marker put first marks as external exactly the paths at or below
      a peer dependency or a dependency, and registers no resolver when the
      package has neither. */
  lemma MarkerCoversDependencies(dependencies: Option<seq<string>>, peerDependencies: Option<seq<string>>,
                                 options: BuildOptions, path: string)
    ensures var marker := MarkDepsAsExternalParts(dependencies, peerDependencies, options).plugins.value[0].marker;
      (marker.resolver.None? <==> dependencies.GetOr([]) == [] && peerDependencies.GetOr([]) == [])
      && (marker.resolver.Some? ==>
            (ExternalMark.OnResolve(marker.resolver.value, path).Some? <==>
               (exists name :: name in peerDependencies.GetOr([]) && ExternalMark.RuleMatches(name, path))
               || (exists name :: name in dependencies.GetOr([]) && ExternalMark.RuleMatches(name, path))))
  {
    var names := DependencyNames(dependencies, peerDependencies);
    var peers, deps := peerDependencies.GetOr([]), dependencies.GetOr([]);
    assert names == peers + deps;
    if ExternalMark.AnyRuleMatches(names, path) {
      var i :| 0 <= i < |names| && ExternalMark.RuleMatches(names[i], path);
      if i < |peers| {
        assert names[i] in peers;
      } else {
        assert names[i] == deps[i - |peers|];
      }
    }
    if exists name :: name in peers && ExternalMark.RuleMatches(name, path) {
      var name :| name in peers && ExternalMark.RuleMatches(name, path);
      var i :| 0 <= i < |peers| && peers[i] == name;
      assert names[i] == name;
    }
    if exists name :: name in deps && ExternalMark.RuleMatches(name, path) {
      var name :| name in deps && ExternalMark.RuleMatches(name, path);
      var i :| 0 <= i < |deps| && deps[i] == name;
      assert names[|peers| + i] == name;
    }
  }

  // ---------------------------------------------------------------------
  // checkForbiddenOptions

  /** `checkForbiddenOptions`: `incremental` is for the watch command only,
      and `splitting` for the 'esm' format only; the first rule broken is
      the one reported. */
  function CheckForbiddenOptions(command: Command, options: BuildOptions): (r: Option<Failure>)
    ensures r.None? <==>
      (!Truthy(options.incremental) || command == Watch)
      && (!Truthy(options.splitting) || options.format == Some(Esm))
    ensures r.Some? && Truthy(options.incremental) && command != Watch ==> r.value == IncrementalOutsideWatch
    ensures r.Some? && (!Truthy(options.incremental) || command == Watch) ==> r.value == SplittingWithoutEsm(options.format)
  {
    var isAllowIncremental := !Truthy(options.incremental) || command == Watch;
    var isAllowSplitting := !Truthy(options.splitting) || options.format == Some(Esm);
    if !isAllowIncremental then Some(IncrementalOutsideWatch)
    else if !isAllowSplitting then Some(SplittingWithoutEsm(options.format))
    else None
  }

  /** The `splitting` that `mergeStaticBuildOptions` fills in never breaks
      the splitting rule. */
  lemma DefaultSplittingAllowed(cwd: string, command: Command, options: BuildOptions)
    requires options.splitting.None?
    requires !Truthy(options.incremental) || command == Watch
    ensures CheckForbiddenOptions(command, MergeStaticBuildOptions(cwd, options)).None?
  {
  }

  // ---------------------------------------------------------------------
  // The flows and dispatchInference

  /** `distinctUntilChanged` on the output path: a meta whose output path
      is the one before it is dropped. */
  function DistinctOutputs<M>(metas: seq<M>, outputOf: M -> string): (r: seq<M>)
    ensures |r| <= |metas|
    ensures metas != [] ==>
      r != [] && r[0] == metas[0] && outputOf(r[|r| - 1]) == outputOf(metas[|metas| - 1])
    ensures forall i :: 0 < i < |r| ==> outputOf(r[i - 1]) != outputOf(r[i])
    ensures forall m :: m in r ==> m in metas
  {
    if |metas| < 2 then metas
    else
      var before := DistinctOutputs(metas[..|metas| - 1], outputOf);
      var last := metas[|metas| - 1];
      if outputOf(last) == outputOf(metas[|metas| - 2]) then before else before + [last]
  }

  /** A package whose `main` and `module` name the same file is built once
      (as CommonJS); different files give two builds. */
  lemma SameOutputBuildsOnce(pkg: PackageJson)
    requires pkg.mainField.Some? && pkg.moduleField.Some?
    ensures var builds := DistinctMetas(pkg);
      (pkg.mainField == pkg.moduleField ==> |builds| == 1 && builds[0].format == Cjs)
      && (pkg.mainField != pkg.moduleField ==> |builds| == 2)
  {
    PresetMetas(pkg);
  }

  /** The single-entry flow for one meta: `inferBuildFormat`,
      `mergeStaticBuildOptions`, `inferOut`, `ensureEntryPoints`,
      `inferEntryPoints` and `markDepsAsExternalParts`, then the
      forbidden-options check. */
  function MonoEntryBuild(paths: Paths, isFile: string -> bool, cwd: string, command: Command,
                          options: BuildOptions, meta: InferenceMeta): Result<BuildOptions, Failure>
  {
    var formatted := InferBuildFormat(meta, options);
    if formatted.Err? then Err(formatted.error) else
    var out := InferOut(paths, meta, MergeStaticBuildOptions(cwd, formatted.value));
    var ensured := EnsureEntryPoints(paths, isFile, cwd, meta.outputPath, out);
    if ensured.Err? then Err(ensured.error) else
    var entries := InferredEntryPoints(paths, meta, ensured.value);
    if entries.Err? then Err(entries.error) else
    var marked := MarkDepsAsExternalParts(meta.dependencies, meta.peerDependencies, entries.value);
    match CheckForbiddenOptions(command, marked)
    case Some(failure) => Err(failure)
    case None => Ok(marked)
  }

  /** `inferOut` runs before `inferEntryPoints`, so the single-entry flow
      never hands `path.relative` an undefined output directory. */
  lemma MonoEntryBuildHasOutdir(paths: Paths, isFile: string -> bool, cwd: string, command: Command,
                                options: BuildOptions, meta: InferenceMeta)
    ensures MonoEntryBuild(paths, isFile, cwd, command, options, meta) != Err(RelativeFromUndefined)
    ensures MonoEntryBuild(paths, isFile, cwd, command, options, meta).Ok? ==>
      MonoEntryBuild(paths, isFile, cwd, command, options, meta).value.outdir.Some?
  {
  }

  /** A `module` build of options that name their entry points, leave
      `splitting` unset and ask for `incremental` only when watching, always
      succeeds, as ES modules with code splitting. */
  lemma ModuleEntryBuildSucceeds(paths: Paths, isFile: string -> bool, cwd: string, command: Command,
                                 options: BuildOptions, meta: InferenceMeta)
    requires meta.entryPointField == Module && meta.format == Esm
    requires options.entryPoints != Unset && options.splitting.None?
    requires !Truthy(options.incremental) || command == Watch
    ensures var r := MonoEntryBuild(paths, isFile, cwd, command, options, meta);
      r.Ok? && r.value.format == Some(Esm) && r.value.splitting == Some(true)
  {
    var formatted := InferBuildFormat(meta, options).value;
    var out := InferOut(paths, meta, MergeStaticBuildOptions(cwd, formatted));
    assert EnsureEntryPoints(paths, isFile, cwd, meta.outputPath, out) == Ok(out);
  }

  /** The outcomes of `build` over `metas`, in order; the stream ends at the
      first failure. */
  function BuildsUntilFailure<T>(build: T -> Result<BuildOptions, Failure>, metas: seq<T>): (r: seq<Result<BuildOptions, Failure>>)
    ensures |r| <= |metas|
    ensures forall i :: 0 <= i < |r| ==> r[i] == build(metas[i])
    ensures forall i :: 0 <= i < |r| - 1 ==> r[i].Ok?
    ensures |r| < |metas| ==> r != [] && r[|r| - 1].Err?
  {
    if metas == [] then []
    else
      var first := build(metas[0]);
      if first.Err? then [first]
      else [first] + BuildsUntilFailure(build, metas[1..])
  }

  /** The single-entry builds of `metas`, in order; the stream ends at the
      first failure. */
  function MonoEntryBuilds(paths: Paths, isFile: string -> bool, cwd: string, command: Command,
                           options: BuildOptions, metas: seq<InferenceMeta>): (r: seq<Result<BuildOptions, Failure>>)
    ensures |r| <= |metas|
    ensures forall i :: 0 <= i < |r| ==> r[i] == MonoEntryBuild(paths, isFile, cwd, command, options, metas[i])
    ensures forall i :: 0 <= i < |r| - 1 ==> r[i].Ok?
    ensures |r| < |metas| ==> r != [] && r[|r| - 1].Err?
  {
    BuildsUntilFailure((meta: InferenceMeta) => MonoEntryBuild(paths, isFile, cwd, command, options, meta), metas)
  }

  /** The multi-entry flow: `inferBuildFormat` from the package's `type`,
      `mergeStaticBuildOptions` and `markDepsAsExternalParts`, then the
      forbidden-options check. */
  function MultiEntriesBuild(cwd: string, command: Command, options: BuildOptions, pkg: PackageJson): Result<BuildOptions, Failure> {
    var formatted := InferMultiEntryFormat(pkg.packageType, options);
    if formatted.Err? then Err(formatted.error) else
    var marked := MarkDepsAsExternalParts(pkg.dependencies, pkg.peerDependencies,
                                          MergeStaticBuildOptions(cwd, formatted.value));
    match CheckForbiddenOptions(command, marked)
    case Some(failure) => Err(failure)
    case None => Ok(marked)
  }

  /** The branch of `dispatchInference`: a list of more than one entry point. */
  predicate IsMultiEntry(options: BuildOptions) {
    options.entryPoints.EntryList? && |options.entryPoints.list| > 1
  }

  /** The metas the single-entry flow builds: the preset ones, one per
      distinct output path. */
  function DistinctMetas(pkg: PackageJson): seq<InferenceMeta> {
    DistinctOutputs(Metas(pkg, PresetFormats), (m: InferenceMeta) => m.outputPath)
  }

  /** Only a `module` field naming the `main` file is dropped: every other
      preset meta is built. */
  lemma DistinctMetasOfPackage(pkg: PackageJson)
    ensures DistinctMetas(pkg) ==
      if pkg.mainField.Some? && pkg.mainField == pkg.moduleField then Metas(pkg, PresetFormats)[..1]
      else Metas(pkg, PresetFormats)
  {
    PresetMetas(pkg);
  }

  /** `dispatchInference`: the outcomes of the builds it emits. Several entry
      points give the one multi-entry build; otherwise the i-th outcome is the
      single-entry build of the i-th distinct output, ending at the first
      failure. */
  function DispatchInference(paths: Paths, isFile: string -> bool, processCwd: string, command: Command,
                             options: BuildOptions, pkg: PackageJson): (r: seq<Result<BuildOptions, Failure>>)
    ensures IsMultiEntry(options) ==> |r| == 1
    ensures !IsMultiEntry(options) ==> |r| <= |DistinctMetas(pkg)| <= 2
    ensures !IsMultiEntry(options) ==> forall i :: 0 <= i < |r| ==>
      r[i] == MonoEntryBuild(paths, isFile, options.absWorkingDir.GetOr(processCwd), command, options, DistinctMetas(pkg)[i])
    ensures !IsMultiEntry(options) ==> forall i :: 0 <= i < |r| - 1 ==> r[i].Ok?
    ensures !IsMultiEntry(options) && |r| < |DistinctMetas(pkg)| ==> r != [] && r[|r| - 1].Err?
  {
    var cwd := options.absWorkingDir.GetOr(processCwd);
    if IsMultiEntry(options) then
      [MultiEntriesBuild(cwd, command, options, pkg)]
    else
      PresetMetas(pkg);
      MonoEntryBuilds(paths, isFile, cwd, command, options, DistinctMetas(pkg))
  }

  /** Several entry points are built once, with the package's own `type`
      deciding the format; otherwise every distinct output field is built
      from the one entry. */
  lemma DispatchByEntryCount(paths: Paths, isFile: string -> bool, processCwd: string, command: Command,
                             options: BuildOptions, pkg: PackageJson)
    ensures var r := DispatchInference(paths, isFile, processCwd, command, options, pkg);
      IsMultiEntry(options) ==> r == [MultiEntriesBuild(options.absWorkingDir.GetOr(processCwd), command, options, pkg)]
    ensures var r := DispatchInference(paths, isFile, processCwd, command, options, pkg);
      !IsMultiEntry(options) ==>
        r == MonoEntryBuilds(paths, isFile, options.absWorkingDir.GetOr(processCwd), command, options, DistinctMetas(pkg))
    ensures var r := DispatchInference(paths, isFile, processCwd, command, options, pkg);
      !IsMultiEntry(options) && pkg.mainField.None? && pkg.moduleField.None? ==> r == []
  {
    PresetMetas(pkg);
  }
}
