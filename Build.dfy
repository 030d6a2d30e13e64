/** The esbuild and package.json records that the option builders of
    packages/esw/src/inference/options.ts and packages/esw/src/bundle/options.ts
    read and write, and the errors those builders throw. */
module Build {
  import opened Wrappers
  import opened Strings
  import ExternalMark

  /** esbuild's output formats. */
  datatype Format = Iife | Cjs | Esm

  /** The name esbuild gives a format; each name identifies its format. */
  function FormatName(f: Format): (name: string)
    ensures name == "iife" <==> f == Iife
    ensures name == "cjs" <==> f == Cjs
    ensures name == "esm" <==> f == Esm
  {
    match f
    case Iife => "iife"
    case Cjs => "cjs"
    case Esm => "esm"
  }

  /** The commands of the esw binary, as far as the builders tell them apart. */
  datatype Command = Watch | OtherCommand(name: string)

  /** The package.json fields that name an output file. */
  datatype Field = Main | Module

  /** `FORMAT_TO_PKG_FIELD`: 'cjs' is written to `main`, 'esm' to `module`. */
  function FieldOf(f: Format): (field: Option<Field>)
    ensures field.None? <==> f == Iife
  {
    match f
    case Cjs => Some(Main)
    case Esm => Some(Module)
    case Iife => None
  }

  /** `PKG_FIELD_TO_FORMAT`, the inverse of `FieldOf`. */
  function FormatOf(field: Field): (f: Format)
    ensures FieldOf(f) == Some(field)
  {
    match field
    case Main => Cjs
    case Module => Esm
  }

  /** The parts of package.json the builders read; a dependency record is
      the list of its keys, in their order. */
  datatype PackageJson = PackageJson(
    mainField: Option<string>,
    moduleField: Option<string>,
    packageType: Option<string>,
    dependencies: Option<seq<string>>,
    peerDependencies: Option<seq<string>>)

  /** `packageJson[field]` */
  function FieldValue(pkg: PackageJson, field: Field): Option<string> {
    match field
    case Main => pkg.mainField
    case Module => pkg.moduleField
  }

  /** esbuild's `entryPoints`: absent, a list of files, or a record from
      output name to file. */
  datatype EntryPoints = Unset | EntryList(list: seq<string>) | EntryRecord(record: map<string, string>)

  /** A plugin in `plugins`: the dependency marker, or one the user passed. */
  datatype Plugin = ExternalMarkPlugin(marker: ExternalMark.Plugin) | UserPlugin(name: string)

  /** The esbuild options the builders read or write; `None` is an absent
      (or undefined) option. */
  datatype BuildOptions = BuildOptions(
    bundle: Option<bool>,
    incremental: Option<bool>,
    logLevel: Option<string>,
    write: Option<bool>,
    metafile: Option<bool>,
    absWorkingDir: Option<string>,
    splitting: Option<bool>,
    format: Option<Format>,
    outExtension: Option<map<string, string>>,
    outdir: Option<string>,
    entryPoints: EntryPoints,
    plugins: Option<seq<Plugin>>)

  /** JavaScript truthiness of an optional boolean option. */
  predicate Truthy(b: Option<bool>) {
    b == Some(true)
  }

  /** Node's `path` helpers and `fs.realpathSync`, taken as given functions. */
  datatype Paths = Paths(
    dirname: string -> string,
    basename: string -> string,
    basenameWithout: (string, string) -> string,
    extname: string -> string,
    relative: (string, string) -> string,
    resolve: (string, string) -> string,
    realpath: string -> string)

  /** The errors the builders throw. */
  datatype Failure =
    | CommonJsTypeRequired(packageType: Option<string>)
    | ModuleTypeRequired(packageType: Option<string>)
    | IncrementalOutsideWatch
    | SplittingWithoutEsm(format: Option<Format>)
    | NoEntryPoint(candidateNames: seq<string>, realCwd: string)
    | RelativeFromUndefined

  /** How `util.format('%s')` and a template literal show an optional value. */
  function Shown(s: Option<string>): string {
    s.GetOr("undefined")
  }

  /** The message of each error. */
  function Message(f: Failure): (m: string)
  {
    match f
    case CommonJsTypeRequired(t) =>
      "\"type\": \"commonjs\" is required in the package.json, not \"" + Shown(t) + "\""
    case ModuleTypeRequired(t) =>
      "\"type\": \"module\" is required in the package.json, not \"" + Shown(t) + "\""
    case IncrementalOutsideWatch =>
      "\"incremental\" option only works with \"watch\" command."
    case SplittingWithoutEsm(format) =>
      "\"splitting\" currently only works with \"esm\" format, instead of '"
      + (if format.Some? then FormatName(format.value) else "undefined") + "'"
    case NoEntryPoint(names, realCwd) =>
      "esw couldn't infer the start point in the current scenario.\n"
      + "      1) Make sure entry file exists (support " + Join(names, ", ") + ") in " + realCwd + "\n"
      + "      2) Or specify start point cli argument, eg. esw build src/index.ts\n  "
    case RelativeFromUndefined =>
      "The \"from\" argument must be of type string. Received undefined"
  }
}
