/** The option builders of packages/esw/src/bundle/options.ts, the older form
    of packages/esw/src/inference/options.ts: one builder, `createBuildOptions`,
    does the work of `inferBuildFormat`, `mergeStaticBuildOptions` and
    `inferOut` there, and the meta keeps the whole package.json. */
module BundleOptions {
  import opened Wrappers
  import opened Strings
  import opened Build
  import Inference = InferenceOptions

  /** What is known about one output of the package. */
  datatype InferenceMeta = InferenceMeta(
    outputPath: string,
    entryPointField: Field,
    format: Format,
    packageJson: PackageJson)

  /** The meta of this file for a meta of inference/options.ts. */
  function WithPackage(m: Inference.InferenceMeta, pkg: PackageJson): InferenceMeta {
    InferenceMeta(m.outputPath, m.entryPointField, m.format, pkg)
  }

  /** The metas of `formats`: the same outputs, fields and formats as in
      inference/options.ts, each holding the package. */
  function Metas(pkg: PackageJson, formats: seq<Format>): (metas: seq<InferenceMeta>)
    ensures |metas| == |Inference.Metas(pkg, formats)|
  {
    var inferred := Inference.Metas(pkg, formats);
    seq(|inferred|, i requires 0 <= i < |inferred| => WithPackage(inferred[i], pkg))
  }

  /** `getInferenceMeta`: the reduce that pushes one meta per format whose
      field the package sets; the throw is unreachable as in
      inference/options.ts. */
  method GetInferenceMeta(pkg: PackageJson, formats: seq<Format>) returns (metas: seq<InferenceMeta>)
    ensures metas == Metas(pkg, formats)
  {
    metas := [];
    for i := 0 to |formats|
      invariant metas == Metas(pkg, formats[..i])
    {
      assert formats[..i + 1][..i] == formats[..i];
      var format := formats[i];
      var field := FieldOf(format);
      if field.None? {
        continue;
      }
      var value := FieldValue(pkg, field.value);
      if value.None? {
        continue;
      }
      var isMainFieldMatched := field.value == Main;
      var isModuleFieldMatched := field.value == Module;
      if isMainFieldMatched || (isModuleFieldMatched && format == Esm) {
        metas := metas + [InferenceMeta(value.value, field.value, format, pkg)];
      } else {
        assert false;
      }
    }
    assert formats[..|formats|] == formats;
  }

  /** Every meta holds the whole package, and names a format, its field
      and the path the package gives that field. */
  lemma MetaKeepsPackage(pkg: PackageJson, formats: seq<Format>, i: nat)
    requires i < |Metas(pkg, formats)|
    ensures var m := Metas(pkg, formats)[i];
      m.packageJson == pkg && m.format in formats
      && FieldOf(m.format) == Some(m.entryPointField) && FieldValue(pkg, m.entryPointField) == Some(m.outputPath)
  {
    Inference.MetaMatchesField(pkg, formats, i);
  }

  // ---------------------------------------------------------------------
  // createBuildOptions

  /** The position of the first `.` at or after `a`, or `|s|`. */
  function DotAfter(s: string, a: nat): (j: nat)
    requires a <= |s|
    ensures a <= j <= |s|
  {
    a + IndexOf(s[a..], '.')
  }

  /** Whether `[^.]+\.(.+)` matches from `a`: a run of characters other
      than `.`, the dot that ends it, and one character `.` matches. */
  predicate ExtMatchAt(s: string, a: nat) {
    a < |s| && s[a] != '.' && DotAfter(s, a) + 1 < |s| && !IsLineTerminator(s[DotAfter(s, a) + 1])
  }

  /** The leftmost position at or after `i` where `[^.]+\.(.+)` matches. */
  function FirstExtMatch(s: string, i: nat): (p: Option<nat>)
    requires i <= |s|
    ensures p.Some? ==> i <= p.value && ExtMatchAt(s, p.value)
    ensures forall q :: i <= q && (p.None? || q < p.value) ==> !ExtMatchAt(s, q)
    decreases |s| - i
  {
    if i == |s| then None
    else if ExtMatchAt(s, i) then Some(i)
    else FirstExtMatch(s, i + 1)
  }

  /** `basename.replace(/[^.]+\.(.+)/i, '.$1')`: the first run of
      characters other than `.` that is followed by a dot and more text is
      dropped, keeping the dot and what follows it. */
  function OutExtensionOf(basename: string): string {
    match FirstExtMatch(basename, 0)
    case None => basename
    case Some(a) => basename[..a] + "." + basename[DotAfter(basename, a) + 1..]
  }

  /** A file name `stem.ext` gets the extension `.ext`, everything after
      the first dot: `index.esm.js` gives `.esm.js`. */
  lemma OutExtensionOfFileName(stem: string, ext: string)
    requires stem != [] && '.' !in stem && ext != [] && !IsLineTerminator(ext[0])
    ensures OutExtensionOf(stem + "." + ext) == "." + ext
  {
    var s := stem + "." + ext;
    var k := IndexOf(s, '.');
    assert s[|stem|] == '.';
    assert s[0..] == s;
    assert DotAfter(s, 0) == |stem|;
    assert s[0] == stem[0];
    assert s[|stem| + 1] == ext[0];
    assert ExtMatchAt(s, 0);
    assert s[|stem| + 1..] == ext;
  }

  /** A file name without a dot comes back whole, so it becomes the output
      extension as it is. */
  lemma OutExtensionWithoutDot(basename: string)
    requires '.' !in basename
    ensures OutExtensionOf(basename) == basename
  {
  }

  /** `createBuildOptions`: `bundle` and `incremental` default to true and
      false; `logLevel`, `write`, `metafile` and `absWorkingDir` are forced;
      the `module` field builds its own format and the `main` field the
      user's (by default its own); the output extension and directory
      default to those of the output path; and `splitting` defaults to
      whether the meta's format (not the chosen one) is 'esm'. No check
      against the package's `type` is made. */
  function CreateBuildOptions(paths: Paths, cwd: string, meta: InferenceMeta, options: BuildOptions): (r: BuildOptions)
    ensures r.bundle == Some(options.bundle.GetOr(true))
    ensures r.incremental == Some(options.incremental.GetOr(false))
    ensures r.logLevel == Some("silent") && r.write == Some(true) && r.metafile == Some(true)
    ensures r.absWorkingDir == Some(cwd)
    ensures r.format == Some(if meta.entryPointField == Module then meta.format else options.format.GetOr(meta.format))
    ensures r.outExtension == Some(options.outExtension.GetOr(map[".js" := OutExtensionOf(paths.basename(meta.outputPath))]))
    ensures r.splitting == Some(options.splitting.GetOr(meta.format == Esm))
    ensures r.outdir == Some(options.outdir.GetOr(paths.dirname(meta.outputPath)))
    ensures r.entryPoints == options.entryPoints && r.plugins == options.plugins
  {
    var options := options.(bundle := Some(options.bundle.GetOr(true)),
                            incremental := Some(options.incremental.GetOr(false)),
                            logLevel := Some("silent"), write := Some(true), metafile := Some(true));
    var fmt := if meta.entryPointField == Module then meta.format else options.format.GetOr(meta.format);
    var outExt := options.outExtension.GetOr(map[".js" := OutExtensionOf(paths.basename(meta.outputPath))]);
    var splitting := options.splitting.GetOr(meta.format == Esm);
    // `fmt ?? PKG_FIELD_TO_FORMAT.get(entryPointField)`: `fmt` is never undefined.
    options.(absWorkingDir := Some(cwd), outdir := Some(options.outdir.GetOr(paths.dirname(meta.outputPath))),
             format := Some(fmt), outExtension := Some(outExt), splitting := Some(splitting))
  }

  /** Building the options a second time changes nothing. */
  lemma CreateBuildOptionsIdempotent(paths: Paths, cwd: string, meta: InferenceMeta, options: BuildOptions)
    ensures CreateBuildOptions(paths, cwd, meta, CreateBuildOptions(paths, cwd, meta, options))
         == CreateBuildOptions(paths, cwd, meta, options)
  {
  }

  /** Where the two files part: for the `main` field with a user format of
      'esm' and no `splitting`, this file leaves splitting off (the meta's
      format is 'cjs') while inference/options.ts turns it on. */
  lemma SplittingFollowsMetaFormat(paths: Paths, cwd: string, pkg: PackageJson, options: BuildOptions)
    requires pkg.mainField.Some? && options.format == Some(Esm) && options.splitting.None?
    ensures Inference.MetaFor(pkg, Cjs).Some?
    ensures var m := Inference.MetaFor(pkg, Cjs).value;
      CreateBuildOptions(paths, cwd, WithPackage(m, pkg), options).splitting == Some(false)
      && (Inference.InferBuildFormat(m, options).Ok? ==>
            Inference.MergeStaticBuildOptions(cwd, Inference.InferBuildFormat(m, options).value).splitting == Some(true))
  {
  }

  // ---------------------------------------------------------------------
  // inferEntryPoints

  /** Whether `\..+$` matches at `p`: a dot, then at least one character,
      and no line terminator up to the end. */
  predicate TailDotAt(s: string, p: nat) {
    p + 1 < |s| && s[p] == '.' && !HasLineTerminator(s[p + 1..])
  }

  /** The leftmost position at or after `i` where `\..+$` matches. */
  function FirstTailDot(s: string, i: nat): (p: Option<nat>)
    requires i <= |s|
    ensures p.Some? ==> i <= p.value && TailDotAt(s, p.value)
    ensures forall q :: i <= q && (p.None? || q < p.value) ==> !TailDotAt(s, q)
    decreases |s| - i
  {
    if i == |s| then None
    else if TailDotAt(s, i) then Some(i)
    else FirstTailDot(s, i + 1)
  }

  /** `s.replace(/\..+$/, '')`: everything from the first dot that has
      text after it is cut. */
  function WithoutExtensions(s: string): (r: string)
    ensures StartsWith(s, r)
    ensures FirstTailDot(s, 0).None? ==> r == s
  {
    match FirstTailDot(s, 0)
    case None => s
    case Some(p) => s[..p]
  }

  /** `dist/index.esm.js` is cut to `dist/index`. */
  lemma WithoutExtensionsOfPath(stem: string, ext: string)
    requires '.' !in stem && ext != [] && !HasLineTerminator(ext)
    ensures WithoutExtensions(stem + "." + ext) == stem
  {
    var s := stem + "." + ext;
    assert s[|stem| + 1..] == ext;
    assert TailDotAt(s, |stem|);
    forall q | 0 <= q < |stem|
      ensures !TailDotAt(s, q)
    {
      assert s[q] == stem[q];
    }
  }

  /** An output path outside the output directory is relative with a
      leading `..`, so its whole relative path is cut and its key is empty. */
  lemma OutsideOutdirKeyIsEmpty(rest: string)
    requires !HasLineTerminator(rest)
    ensures WithoutExtensions("../" + rest) == ""
  {
    var s := "../" + rest;
    assert !HasLineTerminator(s[1..]) by {
      forall k | 0 <= k < |s[1..]|
        ensures !IsLineTerminator(s[1..][k])
      {
        if k >= 2 {
          assert s[1..][k] == rest[k - 2];
        }
      }
    }
    assert TailDotAt(s, 0);
  }

  /** The key of every entry: the output path relative to the output
      directory, cut at its first dot. */
  function EntryKey(paths: Paths, outdir: string, outputPath: string): string {
    WithoutExtensions(paths.relative(outdir, outputPath))
  }

  /** What `inferEntryPoints` makes of the options: entry points that are
      not a list are kept; a list becomes a record of one key at most. */
  function InferredEntryPoints(paths: Paths, meta: InferenceMeta, options: BuildOptions): Result<BuildOptions, Failure> {
    if !options.entryPoints.EntryList? then Ok(options)
    else if options.entryPoints.list == [] then Ok(options.(entryPoints := EntryRecord(map[])))
    else if options.outdir.None? then Err(RelativeFromUndefined)
    else
      var key := EntryKey(paths, options.outdir.value, meta.outputPath);
      Ok(options.(entryPoints := EntryRecord(Inference.Recorded(key, options.entryPoints.list))))
  }

  /** `inferEntryPoints`, with the warnings it writes. */
  method InferEntryPoints(paths: Paths, meta: InferenceMeta, processCwd: string, options: BuildOptions)
    returns (r: Result<BuildOptions, Failure>, warnings: seq<string>)
    ensures r == InferredEntryPoints(paths, meta, options)
    ensures warnings == if r.Ok? && options.entryPoints.EntryList? && options.entryPoints.list != []
      then seq(|options.entryPoints.list| - 1, _ => Inference.DuplicateWarning(paths, processCwd, options, meta.outputPath))
      else []
  {
    if !options.entryPoints.EntryList? {
      return Ok(options), [];
    }
    var entries := options.entryPoints.list;
    if entries == [] {
      return Ok(options.(entryPoints := EntryRecord(map[]))), [];
    }
    if options.outdir.None? {
      return Err(RelativeFromUndefined), [];
    }
    var key := EntryKey(paths, options.outdir.value, meta.outputPath);
    var record;
    record, warnings := Inference.RecordEntries(key, entries,
                                                Inference.DuplicateWarning(paths, processCwd, options, meta.outputPath));
    r := Ok(options.(entryPoints := EntryRecord(record)));
  }

  /** A list of entry points becomes a record holding only the last entry. */
  lemma EntryRecordHoldsLast(paths: Paths, meta: InferenceMeta, options: BuildOptions)
    requires options.entryPoints.EntryList? && options.entryPoints.list != [] && options.outdir.Some?
    ensures var entries := options.entryPoints.list;
      InferredEntryPoints(paths, meta, options)
      == Ok(options.(entryPoints := EntryRecord(
           map[EntryKey(paths, options.outdir.value, meta.outputPath) := entries[|entries| - 1]])))
  {
    Inference.RecordedHoldsLast(EntryKey(paths, options.outdir.value, meta.outputPath), options.entryPoints.list);
  }

  // ---------------------------------------------------------------------
  // createInference

  /** The working directory of `createInference`: `absWorkingDir ||
      process.cwd()`, so an empty directory also falls back. */
  function WorkingDir(options: BuildOptions, processCwd: string): (cwd: string)
    ensures cwd == processCwd <==>
      (options.absWorkingDir.None? || options.absWorkingDir == Some("") || options.absWorkingDir == Some(processCwd))
    ensures cwd != processCwd ==> Some(cwd) == options.absWorkingDir
  {
    if options.absWorkingDir.Some? && options.absWorkingDir.value != "" then options.absWorkingDir.value else processCwd
  }

  /** The build of one meta: `createBuildOptions`, `ensureEntryPoints`,
      `inferEntryPoints` and `markDepsAsExternalParts`, then the
      forbidden-options check of inference/options.ts, which this file
      repeats inside `createInference`. */
  function MetaBuild(paths: Paths, isFile: string -> bool, cwd: string, command: Command,
                 options: BuildOptions, meta: InferenceMeta): Result<BuildOptions, Failure>
  {
    var created := CreateBuildOptions(paths, cwd, meta, options);
    var ensured := Inference.EnsureEntryPoints(paths, isFile, cwd, meta.outputPath, created);
    if ensured.Err? then Err(ensured.error) else
    var entries := InferredEntryPoints(paths, meta, ensured.value);
    if entries.Err? then Err(entries.error) else
    var marked := Inference.MarkDepsAsExternalParts(meta.packageJson.dependencies,
                                                    meta.packageJson.peerDependencies, entries.value);
    match Inference.CheckForbiddenOptions(command, marked)
    case Some(failure) => Err(failure)
    case None => Ok(marked)
  }

  /** `createBuildOptions` runs first, so `path.relative` never gets an
      undefined output directory, and the `module` field with default
      splitting passes the splitting rule. */
  lemma BuildHasOutdir(paths: Paths, isFile: string -> bool, cwd: string, command: Command,
                       options: BuildOptions, meta: InferenceMeta)
    ensures MetaBuild(paths, isFile, cwd, command, options, meta) != Err(RelativeFromUndefined)
    ensures meta.entryPointField == Module && meta.format == Esm && options.splitting.None?
            && options.entryPoints != Unset && (!Truthy(options.incremental) || command == Watch)
            ==> MetaBuild(paths, isFile, cwd, command, options, meta).Ok?
  {
  }

  /** The builds of `metas`, in order; the stream ends at the first failure. */
  function Builds(paths: Paths, isFile: string -> bool, cwd: string, command: Command,
                  options: BuildOptions, metas: seq<InferenceMeta>): (r: seq<Result<BuildOptions, Failure>>)
    ensures |r| <= |metas|
    ensures forall i :: 0 <= i < |r| ==> r[i] == MetaBuild(paths, isFile, cwd, command, options, metas[i])
    ensures forall i :: 0 <= i < |r| - 1 ==> r[i].Ok?
    ensures |r| < |metas| ==> r != [] && r[|r| - 1].Err?
  {
    Inference.BuildsUntilFailure((meta: InferenceMeta) => MetaBuild(paths, isFile, cwd, command, options, meta), metas)
  }

  /** The metas `createInference` builds: the preset ones, one per distinct
      output path. */
  function DistinctMetas(pkg: PackageJson): seq<InferenceMeta> {
    Inference.DistinctOutputs(Metas(pkg, Inference.PresetFormats), (m: InferenceMeta) => m.outputPath)
  }

  /** `createInference`: the outcomes of the builds it emits. The i-th is the
      build of the i-th distinct output, in the working directory
      `absWorkingDir || process.cwd()`; every outcome but the last succeeds,
      and the stream stops short of the distinct outputs only after a failure. */
  function CreateInference(paths: Paths, isFile: string -> bool, processCwd: string, command: Command,
                           options: BuildOptions, pkg: PackageJson): (r: seq<Result<BuildOptions, Failure>>)
    ensures |r| <= |DistinctMetas(pkg)| <= 2
    ensures forall i :: 0 <= i < |r| ==>
      r[i] == MetaBuild(paths, isFile, WorkingDir(options, processCwd), command, options, DistinctMetas(pkg)[i])
    ensures forall i :: 0 <= i < |r| - 1 ==> r[i].Ok?
    ensures |r| < |DistinctMetas(pkg)| ==> r != [] && r[|r| - 1].Err?
  {
    Inference.PresetMetas(pkg);
    Builds(paths, isFile, WorkingDir(options, processCwd), command, options, DistinctMetas(pkg))
  }

  /** A package whose `main` and `module` name the same file is built once,
      from its `main` field. */
  lemma SameOutputBuildsOnce(pkg: PackageJson)
    requires pkg.mainField.Some? && pkg.mainField == pkg.moduleField
    ensures var builds := DistinctMetas(pkg);
      |builds| == 1 && builds[0].entryPointField == Main
  {
    Inference.PresetMetas(pkg);
  }
}
