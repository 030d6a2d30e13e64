# esw core, modelled in Dafny

esw is a zero-config JavaScript/TypeScript bundler built on esbuild. This
project models the parts of it that hold its logic and proves properties
of that model:

- **The command-line parser** (`packages/esw/src/cli/parser.ts`).
  `CliParser.parse` turns an argv array and a declarative spec into a
  result record. A spec maps each key to a handler or to an alias. The
  parser handles:
  - short-flag bundles (`-rf`);
  - inline values (`--a=b`, `--a:b`);
  - one level of aliases;
  - the negative-number exception for numeric handlers;
  - the default handler, which collects `--x:v` values into a list or a
    record.

  `CliParser` is a class holding its `argv`. `Parse` is a loop over the
  argv indices, proved equal to a fold `ParseArgv` over the argv suffixes.
  The lemmas in `ParserLemmas` are stated about that fold.
- **The diagnostic caret layout** (`packages/common/src/formatter/build-failure.ts`,
  and its older copy `packages/common/src/esbuild-msg.ts`). It covers:
  - tab-stop expansion;
  - splitting off the first line;
  - clamping the location in place (the location is a class, and the
    method modifies it);
  - marker clipping;
  - the line-number margins.
- **The text table** (`packages/common/src/table.ts`). It covers the column
  widths, padding for each alignment, joining, trimming trailing
  whitespace, and `printTable`'s header rule on an array.
- **The option builders that infer esbuild options from package.json**
  (`packages/esw/src/inference/options.ts` and the older
  `packages/esw/src/bundle/options.ts`). Each builder is a function from
  one record of build options to the next. A failing assertion is an
  `Err(Failure)`.
- **The dependency marker plugin** (`packages/esw/src/plugins/external-mark.ts`,
  duplicated in `packages/esw/src/plugins/external.ts`). It decides which
  import paths are left external.

Foreign functions are parameters of the model: Node's `path` helpers,
`fs.existsSync`, the ANSI-stripping regular expression, and the
`String`/`Number`/`BigInt` coercions. JavaScript's `undefined` is `None`.

Where the model departs from the code, or the code from its own comments:

- **A spec value that is neither a function nor an alias.** This covers an
  array entry such as `[String]`, or a string that does not start with
  `-`. The parser stores such a value as a handler (parser.ts:101). It
  fails with a `TypeError` only when the value is called. The model keeps
  this as the `NotAFunction` error and does not invent array accumulation.
- **A consumed value is parsed again.** A token taken as the previous
  flag's value is visited again by the `forEach`. So `["--name", "bar"]`
  also adds `bar` to `_`, and a consumed `-5` is stored again as an unknown
  flag (`NextTokenAlsoPositional`, `NegativeNumberValue`). The model
  follows the code here.
- **The serializer as written and corrected.** `SerializeMessage` and
  `Layout` of build-failure.ts, and `SerializeMessage` and
  `PrintBuildError` of esbuild-msg.ts, model the code as written, with its
  `URIError` and `RangeError`. The layout lemmas
  (`CaretUnderMarkedText`, `MarkedTextIsLocatedSpan`, `SourceRowIsFirstLine`)
  are stated about `Serialize`, the corrected layout of the first Findings
  row. `SerializeAsWrittenAgrees` ties the two together: they agree on every
  first line without `%` whose line number fits the margin.
- **The dependency marker.** `ExternalMark.OnResolve` and
  `MarkerCoversDependencies` state the intended literal-name rule. The
  code's unescaped pattern is `OnResolveAsWritten`, which also marks
  `lodash-get` for a dependency `lodash.get` (third Findings row). The two
  agree for dependency names without a `.`.

## Model

| member | source | states |
|---|---|---|
| Parser.ShortFlags | packages/esw/src/cli/parser.ts:39-43 | `-xyz` becomes one two-character flag `-c` per character, in order |
| Parser.CharStrings | packages/esw/src/cli/parser.ts:42 | `split('')` yields one single-character string per character, in order |
| Parser.DefaultHandler | packages/esw/src/cli/parser.ts:62-73 | fails (spreading a record into a list) exactly when a wrapped `:` value meets a stored record, with the not-iterable error; otherwise its result keeps the default handler's value shapes |
| Parser.DigitRun | packages/esw/src/cli/parser.ts:144 | the digit run of the numeric-literal pattern is the longest all-digit prefix |
| Parser.Store | packages/esw/src/cli/parser.ts:127-133 | storing under a key adds exactly that key, leaves `_` alone, and fails only by calling a non-function or spreading a non-iterable |
| Parser.ParseFlag | packages/esw/src/cli/parser.ts:112-173 | one separated flag never touches `_` and never raises the malformed-spec error |
| ParserLemmas.ParseFlagErrors | packages/esw/src/cli/parser.ts:115-154 | the short-argument error iff a non-presence flag has letters after it in its group; "option requires argument" iff such a flag is last, has no inline value, and the next token is missing or is a `-` token longer than one character that is not a number for a `Number`/`BigInt` handler; every other error comes from the handler call |
| Parser.ParseGroup | packages/esw/src/cli/parser.ts:111-174 | a group of separated flags never touches `_` and never raises the malformed-spec error |
| Parser.ParseToken | packages/esw/src/cli/parser.ts:104-107 | a token joins `_` exactly when it is shorter than 2 characters or lacks a leading `-` |
| Parser.ParseFrom | packages/esw/src/cli/parser.ts:103-175 | `_` gains exactly the positional tokens of the rest of argv, in order |
| Parser.ParseArgv | packages/esw/src/cli/parser.ts:86-178 | the malformed-spec error is raised iff some key does not start with `-`; on success `_` is exactly the positional tokens of argv |
| Parser.CliParser.constructor | packages/esw/src/cli/parser.ts:76 | the parser holds the argv it was given |
| Parser.CliParser.ValidateSpec | packages/esw/src/cli/parser.ts:78-84 | succeeds (with `true`) iff every key starts with `-`, else fails with the malformed-spec error |
| Parser.CliParser.Parse | packages/esw/src/cli/parser.ts:86-178 | the loop over the argv indices computes exactly the fold `ParseArgv` |
| Parser.CliParser.ParseTokenAt | packages/esw/src/cli/parser.ts:103-175 | the per-token step of the loop agrees with `ParseToken` on `argv[i]` and `argv[i+1]` |
| Parser.CliParser.ParseFlagAt | packages/esw/src/cli/parser.ts:111-174 | the per-flag step of the loop agrees with `ParseFlag` |
| ParserLemmas.PositionalStep | packages/esw/src/cli/parser.ts:104-107 | a positional token is appended to `_` and parsing continues with the rest |
| ParserLemmas.AllPositionalFrom | packages/esw/src/cli/parser.ts:103-107 | a run of positional tokens is appended to `_` verbatim and in order |
| ParserLemmas.OnlyPositionals | packages/esw/src/cli/parser.ts:86-107 | an argv of positionals parses to `_` equal to argv and no keys |
| ParserLemmas.FlagStoresCanonical | packages/esw/src/cli/parser.ts:113 | with one-level aliases, a flag never stores under an alias key |
| ParserLemmas.GroupStoresCanonical | packages/esw/src/cli/parser.ts:111-113 | a group of flags never stores under an alias key |
| ParserLemmas.FromStoresCanonical | packages/esw/src/cli/parser.ts:103-113 | the rest of argv never stores under an alias key |
| ParserLemmas.AliasKeysNeverStored | packages/esw/src/cli/parser.ts:113 | when no alias targets another alias, no alias key appears in a parse result (a chained alias does store under an alias key: `AliasOfAliasNotFollowed`) |
| ParserLemmas.PresenceIgnoresNext | packages/esw/src/cli/parser.ts:115-135 | a presence flag stores `'true'` whatever token follows and wherever it sits in its group |
| ParserLemmas.SingleFlagToken | packages/esw/src/cli/parser.ts:36-37 | a `--` token or a two-character token is parsed as one flag |
| ParserLemmas.PresenceGroupAsTokens | packages/esw/src/cli/parser.ts:109-135 | a group of presence flags parses like the same flags as separate tokens |
| ParserLemmas.BundleIsSeparateFlags | packages/esw/src/cli/parser.ts:32-44 | `-abc` made of presence flags parses exactly like `-a -b -c` |
| ParserLemmas.BundleOfShortFlags | packages/esw/src/cli/parser.ts:39-43 | joining the separated short flags back gives the bundle |
| ParserLemmas.ColonSplit | packages/esw/src/cli/parser.ts:49-55 | `--a:v` splits at the first `:`; `v` is kept as a string if it contains `=`, else wrapped in a one-element list |
| ParserLemmas.EqualsSplit | packages/esw/src/cli/parser.ts:56-57 | `--a=v` splits at the first `=` |
| ParserLemmas.InlineValueStopsAtLineEnd | packages/esw/src/cli/parser.ts:57 | the inline value ends at the first line terminator, because `.` in `/=(.*)/` does not match it |
| ParserLemmas.PlainSplit | packages/esw/src/cli/parser.ts:56-58 | a flag without `:` or `=` has no inline value |
| ParserLemmas.FlagIgnoresPositionals | packages/esw/src/cli/parser.ts:112-173 | what a flag stores does not depend on `_` |
| ParserLemmas.GroupIgnoresPositionals | packages/esw/src/cli/parser.ts:111-174 | what a group stores does not depend on `_` |
| ParserLemmas.FromIgnoresPositionals | packages/esw/src/cli/parser.ts:103-175 | parsing with extra earlier positionals only prefixes `_` |
| ParserLemmas.InlineFlagIsNextFlag | packages/esw/src/cli/parser.ts:137-173 | `--a=v` stores what `--a` stores when followed by `v` |
| ParserLemmas.InlineFromIsNextFrom | packages/esw/src/cli/parser.ts:103-173 | `--a v` stores what `--a=v` stores, and additionally lists `v` in `_` |
| ParserLemmas.InlineValueIsNextToken | packages/esw/src/cli/parser.ts:86-178 | for a whole parse: `--a v` is `--a=v` plus `v` among the positionals |
| ParserLemmas.Accumulate | packages/esw/src/cli/parser.ts:62-73 | repeated default-handler calls keep the value shapes and fail only with not-iterable |
| ParserLemmas.InlineValues | packages/esw/src/cli/parser.ts:49-55 | each `:` value becomes the raw value the split yields |
| ParserLemmas.ColonFlags | packages/esw/src/cli/parser.ts:49 | the tokens `key:x`, one per value |
| ParserLemmas.Assignments | packages/esw/src/cli/parser.ts:68-70 | the texts `k=v`, one per pair |
| ParserLemmas.WrappedValuesAppend | packages/esw/src/cli/parser.ts:64-65 | wrapped values are appended to the stored list in order |
| ParserLemmas.AssignmentStep | packages/esw/src/cli/parser.ts:68-70 | `k=v` is split at the first `=` and merged into the stored record, overwriting `k` |
| ParserLemmas.AssignmentHasNoLineTerminator | packages/esw/src/cli/parser.ts:69 | an assignment built from terminator-free parts has no line terminator |
| ParserLemmas.AssignmentsMerge | packages/esw/src/cli/parser.ts:68-70 | successive assignments merge into one record, later keys winning |
| ParserLemmas.UnknownColonFlagStep | packages/esw/src/cli/parser.ts:115-118 | an unknown `--key:x` goes through the default handler with the stored value |
| ParserLemmas.FromStep | packages/esw/src/cli/parser.ts:103 | the fold handles the first token and then the rest |
| ParserLemmas.UnknownColonFlags | packages/esw/src/cli/parser.ts:103-173 | repeated unknown `--key:x` tokens accumulate through the default handler |
| ParserLemmas.StoreOverwrites | packages/esw/src/cli/parser.ts:167 | a store replaces whatever an earlier store put under the key |
| ParserLemmas.RepeatedWrappedFlagCollects | packages/esw/src/cli/parser.ts:62-66 | `--inject:a --inject:b` collects `[a, b]` |
| ParserLemmas.RepeatedAssignmentFlagMerges | packages/esw/src/cli/parser.ts:62-70 | `--loader:.mjs=js --loader:.cjs=js` merges into one record |
| ParserLemmas.Dashes | packages/esw/src/cli/parser.ts:29-36 | `startsWith('-')` and `startsWith('--')` are the leading-character tests |
| ParserLemmas.NextTokenAlsoPositional | packages/esw/src/cli/parser.ts:103-107 | `--name bar` stores `bar` and also lists `bar` in `_` |
| ParserLemmas.NegativeNumberValue | packages/esw/src/cli/parser.ts:139-147 | a Number handler takes `-5` as its value, and `-5` is then stored again as a presence flag |
| ParserLemmas.NegativeNumberForStringFlag | packages/esw/src/cli/parser.ts:139-153 | a String handler refuses `-5` with "option requires argument" |
| ParserLemmas.AliasStoresUnderCanonical | packages/esw/src/cli/parser.ts:96-113 | `-h` aliased to a Boolean `--help` stores `--help: true` and no `-h` |
| ParserLemmas.AliasNamedInMessage | packages/esw/src/cli/parser.ts:149-153 | the missing-value error through an alias carries both the alias and its target |
| ParserLemmas.AliasMessage | packages/esw/src/cli/parser.ts:149-153 | that error's message names the alias and, in parentheses, its target |
| ParserLemmas.AliasOfAliasNotFollowed | packages/esw/src/cli/parser.ts:113 | aliases resolve by one lookup only |
| ParserLemmas.ArrayEntryThrows | packages/esw/src/cli/parser.ts:156-162 | a `[String]` spec entry fails when called |
| ParserLemmas.ValueFlagInsideBundle | packages/esw/src/cli/parser.ts:120-124 | a value-taking flag that is not last in its bundle fails with the short-argument message |
| ParserLemmas.RecordThenWrappedThrows | packages/esw/src/cli/parser.ts:64-70 | a wrapped value after a record fails: the record is not iterable |
| ParserLemmas.KeyWithoutDash | packages/esw/src/cli/parser.ts:80-87 | a key without `-` fails with "argument key must start with '-'" whatever argv holds |
| BuildFailure.RenderTabStops | packages/common/src/formatter/build-failure.ts:21-44 | the loop computes the left-to-right tab expansion `Expand` |
| BuildFailure.NoTabsUnchanged | packages/common/src/formatter/build-failure.ts:22-24 | text without tabs is returned unchanged |
| BuildFailure.NoTabsRemain | packages/common/src/formatter/build-failure.ts:29-41 | no tab survives expansion |
| BuildFailure.ExpandPrefix | packages/common/src/formatter/build-failure.ts:29-41 | expanding a prefix gives a prefix of the expansion |
| BuildFailure.TabReachesStop | packages/common/src/formatter/build-failure.ts:31-35 | each tab adds between 1 and `spacesPerTab` spaces and ends on a tab stop |
| BuildFailure.NextStop | packages/common/src/formatter/build-failure.ts:32 | the tab width is in `1..spacesPerTab` and reaches a multiple of it |
| BuildFailure.CharacterKeepsPlace | packages/common/src/formatter/build-failure.ts:36-39 | every non-tab character is copied, in order, at the expanded position of its prefix |
| BuildFailure.FindEndOfFirstLine | packages/common/src/formatter/build-failure.ts:68-84 | the scan stops at the first LF, CR, U+2028 or U+2029, else at the length |
| BuildFailure.FirstTerminator | packages/common/src/formatter/build-failure.ts:68-84 | the first-line end is characterised by the first line terminator |
| BuildFailure.FirstLineSplit | packages/common/src/formatter/build-failure.ts:87-88 | first line and remainder concatenate to the line text; the first line has no terminator and the remainder starts with one |
| BuildFailure.Location.constructor | packages/common/src/formatter/build-failure.ts:63-64 | a location holds the fields it is built from |
| BuildFailure.Clamp | packages/common/src/formatter/build-failure.ts:91-95 | after clamping, line ≥ 0, 0 ≤ column ≤ end of first line, and 0 ≤ length ≤ end of first line − column |
| BuildFailure.ClampKeepsInRange | packages/common/src/formatter/build-failure.ts:91-95 | clamping changes exactly the out-of-range locations and is idempotent |
| BuildFailure.MarginsAlign | packages/common/src/formatter/build-failure.ts:50-61 | the line-number margin right-aligns the number; both margins are `maxMargin + 7` wide; `╵` appears only on the last row |
| BuildFailure.MarginThrowsWhenTooNarrow | packages/common/src/formatter/build-failure.ts:50-53 | `' '.repeat` throws exactly when the number is wider than the margin |
| BuildFailure.NoteLines | packages/common/src/formatter/build-failure.ts:153-157 | the line of each note, if it has a location |
| BuildFailure.EstimateMaxMargin | packages/common/src/formatter/build-failure.ts:148-159 | the loop computes `MaxMargin` of the error's line and the note lines |
| BuildFailure.MaxMarginCoversError | packages/common/src/formatter/build-failure.ts:150-152 | the margin is at least as wide as the error's line number |
| BuildFailure.MaxMarginCoversNote | packages/common/src/formatter/build-failure.ts:153-157 | the margin is at least as wide as every non-zero note line |
| BuildFailure.MaxMarginAttained | packages/common/src/formatter/build-failure.ts:148-159 | the margin is 0 or the width of one of the counted lines |
| BuildFailure.EstimateSpacesPerTab | packages/common/src/formatter/build-failure.ts:46-48 | the corrected width estimate is the text's length |
| BuildFailure.EstimatesAgreeWithoutPercent | packages/common/src/formatter/build-failure.ts:46-48 | without `%`, `decodeURIComponent` leaves the length unchanged |
| BuildFailure.PercentBeforeColumnThrows | packages/common/src/formatter/build-failure.ts:46-48 | a stray `%` before the column makes `decodeURIComponent` throw |
| BuildFailure.MarkerSpan | packages/common/src/formatter/build-failure.ts:103-119 | after clipping, 0 ≤ markerStart ≤ markerEnd ≤ the expanded line's length |
| BuildFailure.SerializeMessage | packages/common/src/formatter/build-failure.ts:63-146 | as written: nothing without a location; otherwise the location is clamped in place before anything can throw, and the result is `SerializeAsWritten` of the old location: the details, a `URIError` from a bad escape, or a `RangeError` from too narrow a margin |
| BuildFailure.Layout | packages/common/src/formatter/build-failure.ts:97-128 | as written: the loop-based marker computation equals `LayoutAsWritten`, which throws `URIError` when the indent or the marked text holds a bad escape and `RangeError` when the line number is wider than the margin |
| BuildFailure.SerializeAsWrittenAgrees | packages/common/src/formatter/build-failure.ts:97-128 | when the first line holds no `%` and the line number fits, the serializer as written returns exactly the corrected details `Serialize`, about which the layout lemmas below hold |
| BuildFailure.FittingMarginOnlyURIError | packages/common/src/formatter/build-failure.ts:50-53 | when the line number fits the margin, the only thing the serializer can throw is the `URIError` |
| BuildFailure.NarrowMarginThrows | packages/common/src/formatter/build-failure.ts:50-53 | without `%`, a margin narrower than the clamped line number makes the serializer throw `RangeError` |
| BuildFailure.PercentBeforeColumnSerializeThrows | packages/common/src/formatter/build-failure.ts:99-105 | a message located at `y` in `x % y` makes the serializer throw `URIError`, whatever the margin |
| BuildFailure.ExpandKeepsOut | packages/common/src/formatter/build-failure.ts:21-44 | expansion adds only spaces, so any other character absent from the text stays absent |
| BuildFailure.MarkerSpanUnclipped | packages/common/src/formatter/build-failure.ts:103-119 | on clamped numbers, the markers are the expanded widths of the prefixes and clipping never bites |
| BuildFailure.SourceRowIsFirstLine | packages/common/src/formatter/build-failure.ts:130-145 | before, marked and after spell the margin plus the expanded first line; the first line plus `contentAfter` is the line text |
| BuildFailure.CaretUnderMarkedText | packages/common/src/formatter/build-failure.ts:105-128 | the caret row's indent is as wide as the text before the marked part; the marker is `^` for at most one column, else one `~` per column |
| BuildFailure.MarkedTextIsLocatedSpan | packages/common/src/formatter/build-failure.ts:91-137 | without tabs the marked text is exactly the clamped located span |
| BuildFailure.TabFreeSpan | packages/common/src/formatter/build-failure.ts:98-119 | without tabs the markers are column and column + length |
| BuildFailure.NoteAtLineZeroThrows | packages/common/src/formatter/build-failure.ts:50-53 | an unlocated error with a note at line 0 gets margin 0, and the note's margin throws; counting every located note gives the 1 column it needs |
| BuildFailure.MarginFitsCountedLines | packages/common/src/formatter/build-failure.ts:148-159 | a note line fits its margin whenever it is counted or the error has a location |
| BuildFailure.EveryPrintedRowFits | packages/common/src/formatter/build-failure.ts:148-159 | corrected: with every located note counted (line 0 included), the clamped line of the error and of every located note fits the margin, so no row's margin throws |
| BuildFailure.AllLocatedCoversNote | packages/common/src/formatter/build-failure.ts:153-157 | the corrected margin is at least as wide as every located note's line number |
| BuildFailure.AllLocatedCoversError | packages/common/src/formatter/build-failure.ts:150-152 | the corrected margin is at least as wide as the error's line number |
| BuildFailure.AllLocatedAgreesWithoutZeroNotes | packages/common/src/formatter/build-failure.ts:153-157 | without a note at line 0 the corrected margin is the one estimated as written |
| BuildFailure.ClampedLineNoWider | packages/common/src/formatter/build-failure.ts:91 | a clamped line number is never wider than the line number |
| EsbuildMsg.WithoutSuggestion | packages/common/src/esbuild-msg.ts:115-128 | the older details are the newer ones without the suggestion |
| EsbuildMsg.SerializeMessage | packages/common/src/esbuild-msg.ts:48-130 | as written: nothing without a location; otherwise the location is clamped in place and the result is the as-written serializer of build-failure.ts without the suggestion, or what it throws |
| EsbuildMsg.PrintBuildError | packages/common/src/esbuild-msg.ts:145-176 | as written: nothing for no errors; an unlocated first error is written as its text; otherwise the caret report of its serialised details, or the `URIError` of a bad escape, which is the only thing it can throw; a first line without `%` is always written, in the corrected layout |
| EsbuildMsg.MarginNeverThrows | packages/common/src/esbuild-msg.ts:132-143 | the margin is only estimated for a located error, so the clamped line always fits |
| EsbuildMsg.ReportCaretAligned | packages/common/src/esbuild-msg.ts:88-110 | the printed caret row lines up with the source row |
| Table.Stringify | packages/common/src/table.ts:28 | a string cell is kept as is; a non-negative number prints as digits |
| Table.StringifyMatrix | packages/common/src/table.ts:28 | the stringified matrix has the same shape |
| Table.Lengths | packages/common/src/table.ts:20-32 | each cell's visible length is the length of its stripped text |
| Table.Put | packages/common/src/table.ts:33-34 | writing a column past the end grows the widths by one |
| Table.Widen | packages/common/src/table.ts:31-35 | one row widens the widths to the longer of the two |
| Table.WidenIsLarger | packages/common/src/table.ts:33-34 | each widened width is the larger of the old width and the cell's length |
| Table.ColumnWidths | packages/common/src/table.ts:30-37 | the reduce loop computes `Widths` |
| Table.WidthsCount | packages/common/src/table.ts:30-37 | there are as many widths as cells in the longest row |
| Table.CellWithinWidth | packages/common/src/table.ts:30-37 | every cell's visible length is at most its column's width |
| Table.WidthAttained | packages/common/src/table.ts:30-37 | every width is the visible length of some cell in that column |
| Table.RowFits | packages/common/src/table.ts:43 | the pad of each cell of a row is never negative |
| Table.RowsFit | packages/common/src/table.ts:43 | the pad is never negative in any row |
| Table.Lead | packages/common/src/table.ts:44-56 | the spaces before a cell never exceed the pad |
| Table.CenterSplitsEvenly | packages/common/src/table.ts:48-54 | centring puts ceil(d/2) spaces before and floor(d/2) after, d in total |
| Table.PadCell | packages/common/src/table.ts:43-56 | a padded cell is exactly `pad` spaces longer |
| Table.PadCellLayout | packages/common/src/table.ts:44-56 | the cell sits after `Lead` spaces, with spaces only before and after it |
| Table.PadCellText | packages/common/src/table.ts:44-56 | the cell's text is intact inside its padding |
| Table.Padded | packages/common/src/table.ts:42-57 | padding keeps the number of cells |
| Table.PaddedAt | packages/common/src/table.ts:42-57 | each cell is padded by its column width minus its visible length |
| Table.TrimEnd | packages/common/src/table.ts:59 | the trimmed row is a prefix, does not end in whitespace, and only whitespace was removed |
| Table.CreateTable | packages/common/src/table.ts:24-62 | the method computes the stringified rows laid out by `TableText` |
| Table.PrintTable | packages/common/src/table.ts:64-73 | the headers are underlined in place only for more than one row; the other rows are untouched; the text written is the table between line feeds |
| Table.Underlined | packages/common/src/table.ts:70 | each header becomes its underlined text |
| Table.JoinedWidth | packages/common/src/table.ts:58 | joined cells as wide as their columns reach the next column's start |
| Table.CellAtColumnStart | packages/common/src/table.ts:58 | in the joined row each cell sits at its column's start |
| Table.PlainCellsAsWide | packages/common/src/table.ts:43-57 | without escape codes, each padded cell is exactly as wide as its column |
| Table.CellInColumn | packages/common/src/table.ts:42-58 | each cell's text appears in its column, after its alignment's lead |
| Table.RowHasNoTrailingWhitespace | packages/common/src/table.ts:58-59 | no output row ends in whitespace, and only trailing whitespace was cut |
| Table.UnderlineKeepsWidths | packages/common/src/table.ts:68-72 | underlining the headers does not change the column widths, since the codes are stripped |
| Table.SameLengthsSameWidths | packages/common/src/table.ts:30-37 | the widths depend only on the visible lengths |
| ExternalMark.Setup | packages/esw/src/plugins/external-mark.ts:6-9 | no resolver is registered for an empty dependency list, else one rule per name |
| ExternalMark.OnResolve | packages/esw/src/plugins/external-mark.ts:10-15 | corrected (the intended literal rule of the third Findings row): a path comes back unchanged and external iff some dependency is the path or a directory above it; otherwise undefined |
| ExternalMark.Matched | packages/esw/src/plugins/external-mark.ts:11 | `rules.some(test)` holds iff some rule matches |
| ExternalMark.AnyRuleMatchesCons | packages/esw/src/plugins/external-mark.ts:11 | `some` over a list is the first rule or `some` over the rest |
| ExternalMark.OnResolveAsWritten | packages/esw/src/plugins/external-mark.ts:9-15 | with the unescaped patterns, a path is external iff some pattern matches it |
| ExternalMark.RuleMatchesIsNameOrBelow | packages/esw/src/plugins/external-mark.ts:9 | a rule matches exactly the name, `name/…` and `name\…` |
| ExternalMark.AsWrittenAgreesWithoutDots | packages/esw/src/plugins/external-mark.ts:9 | for names without `.`, the unescaped pattern is the intended rule |
| ExternalMark.OnResolveAgreesWithoutDots | packages/esw/src/plugins/external-mark.ts:9-15 | when no dependency name holds a `.`, the resolver as written and the corrected one mark the same paths |
| ExternalMark.DotInNameOverMatches | packages/esw/src/plugins/external-mark.ts:9 | the unescaped `lodash.get` pattern marks `lodash-get` external; the intended rule does not |
| ExternalMark.SubpathMatches | packages/esw/src/plugins/external-mark.ts:9-12 | `rxjs/operators` is external when `rxjs` is a dependency |
| ExternalMark.LongerNameDoesNotMatch | packages/esw/src/plugins/external-mark.ts:9-14 | `react-dom` is not matched by `react` |
| ExternalMark.NameMidPathDoesNotMatch | packages/esw/src/plugins/external-mark.ts:9-14 | a dependency's name in the middle of a path does not match |
| External.Setup | packages/esw/src/plugins/external.ts:3-18 | the same plugin under the name `external-deps`: no resolver for no dependencies, else one rule per name |
| External.SameResolverAsExternalMark | packages/esw/src/plugins/external.ts:3-18 | both plugins register the same resolver and differ only in name |
| Build.FieldOf | packages/esw/src/inference/options.ts:30-33 | `cjs` maps to `main`, `esm` to `module`, and `iife` has no field |
| Build.FormatOf | packages/esw/src/inference/options.ts:34-37 | the field-to-format map inverts the format-to-field map |
| InferenceOptions.GetInferenceMeta | packages/esw/src/inference/options.ts:56-89 | the reduce loop computes `Metas`: one meta per format whose field is set, in order, and the throw is unreachable |
| InferenceOptions.MetaMatchesField | packages/esw/src/inference/options.ts:60-77 | every meta's output path is its field's value, its field is its format's field, and it keeps the package's type |
| InferenceOptions.PresetMetas | packages/esw/src/inference/options.ts:60-88 | with `['cjs','esm']`: the `main` meta if `main` is set, then the `module` meta if `module` is set |
| InferenceOptions.ValidateFormatIsMatchType | packages/esw/src/inference/options.ts:151-171 | passes iff (`cjs` ⇒ type nil or `commonjs`) and (`esm` ⇒ type `module`); otherwise the matching message |
| InferenceOptions.InferBuildFormat | packages/esw/src/inference/options.ts:173-206 | a `module` field forces the meta's format; a `main` field keeps the user's format (default `cjs`) and fails iff it does not match the type |
| InferenceOptions.InferBuildFormatIdempotent | packages/esw/src/inference/options.ts:173-206 | applying the builder twice is applying it once |
| InferenceOptions.ModuleFieldOverridesUserFormat | packages/esw/src/inference/options.ts:183-188 | a user's `cjs` is overridden to `esm` for the `module` build |
| InferenceOptions.InferMultiEntryFormat | packages/esw/src/inference/options.ts:317-331 | the format is the user's, else `esm` for type `module` and `cjs` otherwise; fails iff it does not match the type |
| InferenceOptions.MultiEntryDefaultFormat | packages/esw/src/inference/options.ts:323-325 | with no user format, it fails iff the type is set and is neither `module` nor `commonjs` |
| InferenceOptions.MergeStaticBuildOptions | packages/esw/src/inference/options.ts:208-227 | bundle and incremental are overridable defaults; logLevel, write, metafile and absWorkingDir are forced; splitting defaults to `format == esm`; the rest is kept |
| InferenceOptions.MergeStaticBuildOptionsIdempotent | packages/esw/src/inference/options.ts:208-227 | merging twice is merging once |
| InferenceOptions.JsExtension | packages/esw/src/inference/options.ts:28-29 | the chosen extension is one of `.js`, `.cjs`, `.mjs`, and equals the output's extension iff that is one of them |
| InferenceOptions.InferOut | packages/esw/src/inference/options.ts:229-241 | `.js` maps to the chosen extension; outdir is the user's, else the output's directory; nothing else changes |
| InferenceOptions.InferOutIdempotent | packages/esw/src/inference/options.ts:229-241 | inferring the output twice is inferring it once |
| InferenceOptions.FirstDotRun | packages/esw/src/inference/options.ts:97 | the leftmost match of `/\..+/` |
| InferenceOptions.EntryStem | packages/esw/src/inference/options.ts:97 | a basename without a match is kept whole |
| InferenceOptions.EntryStemOfFileName | packages/esw/src/inference/options.ts:97 | `stem.ext` loses everything from its first dot |
| InferenceOptions.Candidates | packages/esw/src/inference/options.ts:98-100 | one candidate per entry extension |
| InferenceOptions.Existing | packages/esw/src/inference/options.ts:102 | the existing candidates, no more and no fewer |
| InferenceOptions.EnsureEntryPoints | packages/esw/src/inference/options.ts:91-118 | set entry points are kept; otherwise it succeeds iff some candidate exists, with exactly the existing ones |
| InferenceOptions.RecordedHoldsLast | packages/esw/src/inference/options.ts:129-146 | the record is empty for no entries, else the one key holding the last entry |
| InferenceOptions.RecordEntries | packages/esw/src/inference/options.ts:129-146 | the loop builds the record and warns once per overwritten entry |
| InferenceOptions.InferEntryPoints | packages/esw/src/inference/options.ts:120-149 | non-array entry points are kept; an array becomes the record; one duplicate warning per overwrite |
| InferenceOptions.EntryRecordHoldsLast | packages/esw/src/inference/options.ts:129-146 | all entries land on one key and the last one wins |
| InferenceOptions.DependencyNames | packages/esw/src/inference/options.ts:245-249 | the peer dependency names, then the dependency names |
| InferenceOptions.MarkDepsAsExternalParts | packages/esw/src/inference/options.ts:243-264 | the marker plugin goes first, before the user's plugins; nothing else changes |
| InferenceOptions.MarkerCoversDependencies | packages/esw/src/inference/options.ts:243-264 | the marker goes first; it registers no resolver iff there are no dependencies, and under the corrected literal rule it marks a path iff a peer or plain dependency is the path or above it (as written for dot-free names, by `ExternalMark.OnResolveAgreesWithoutDots`) |
| InferenceOptions.CheckForbiddenOptions | packages/esw/src/inference/options.ts:266-283 | fails iff (incremental outside watch) or (splitting with a non-`esm` format), the incremental error first |
| InferenceOptions.DefaultSplittingAllowed | packages/esw/src/inference/options.ts:272 | the default splitting never trips the splitting check |
| InferenceOptions.DistinctOutputs | packages/esw/src/inference/options.ts:294-296 | the first meta is kept, no two adjacent outputs are equal, and nothing is invented |
| InferenceOptions.SameOutputBuildsOnce | packages/esw/src/inference/options.ts:294-296 | a package whose `main` and `module` name the same file builds once, as `cjs` |
| InferenceOptions.DistinctMetasOfPackage | packages/esw/src/inference/options.ts:294-296 | `distinctUntilChanged` drops only a `module` meta naming the `main` file; every other preset meta is built |
| InferenceOptions.MonoEntryBuildHasOutdir | packages/esw/src/inference/options.ts:299-306 | the single-entry flow always has an outdir before it records entries |
| InferenceOptions.ModuleEntryBuildSucceeds | packages/esw/src/inference/options.ts:183-188 | the `module` build with given entry points and default splitting passes every check |
| InferenceOptions.MonoEntryBuilds | packages/esw/src/inference/options.ts:297-308 | the i-th outcome is the single-entry build of the i-th distinct output; every outcome but the last succeeds, and the stream stops short only after a failure |
| InferenceOptions.DispatchInference | packages/esw/src/inference/options.ts:348-358 | several listed entry points give the one multi-entry build; otherwise the i-th outcome is the single-entry build of the i-th distinct output, in `absWorkingDir ?? cwd`, every outcome but the last succeeds, and the stream stops short of the distinct outputs only after a failure |
| InferenceOptions.DispatchByEntryCount | packages/esw/src/inference/options.ts:353-356 | more than one listed entry gives exactly the multi-entry build; otherwise exactly the single-entry builds of the distinct outputs, which is nothing for a package with neither field |
| BundleOptions.Metas | packages/esw/src/bundle/options.ts:44-77 | one meta per inference meta |
| BundleOptions.GetInferenceMeta | packages/esw/src/bundle/options.ts:44-77 | the reduce loop computes `Metas` |
| BundleOptions.MetaKeepsPackage | packages/esw/src/bundle/options.ts:48-76 | every meta keeps the whole package, and its output path is its field's value |
| BundleOptions.DotAfter | packages/esw/src/bundle/options.ts:155-157 | the first dot at or after a position |
| BundleOptions.FirstExtMatch | packages/esw/src/bundle/options.ts:155-157 | the leftmost match of `[^.]+\.(.+)` |
| BundleOptions.OutExtensionOfFileName | packages/esw/src/bundle/options.ts:155-157 | `stem.ext` gives `.ext`, so `index.esm.js` gives `.esm.js` |
| BundleOptions.CreateBuildOptions | packages/esw/src/bundle/options.ts:136-169 | format from a `module` field is forced, else user's ?? meta's; outExtension, outdir and splitting default as written; forced fields always win |
| BundleOptions.CreateBuildOptionsIdempotent | packages/esw/src/bundle/options.ts:136-169 | creating the options twice is creating them once |
| BundleOptions.SplittingFollowsMetaFormat | packages/esw/src/bundle/options.ts:159 | splitting follows the meta's format, not the chosen one, unlike the inference builders |
| BundleOptions.FirstTailDot | packages/esw/src/bundle/options.ts:118-120 | the leftmost match of `/\..+$/` |
| BundleOptions.WithoutExtensions | packages/esw/src/bundle/options.ts:118-120 | the key is a prefix of the relative path, the whole path without a match |
| BundleOptions.WithoutExtensionsOfPath | packages/esw/src/bundle/options.ts:118-120 | `stem.ext` is cut at its first dot |
| BundleOptions.OutsideOutdirKeyIsEmpty | packages/esw/src/bundle/options.ts:118-120 | an output outside outdir (`../…`) gets the empty key |
| BundleOptions.InferEntryPoints | packages/esw/src/bundle/options.ts:108-134 | non-array entry points are kept; an array becomes the record; one duplicate warning per overwrite |
| BundleOptions.EntryRecordHoldsLast | packages/esw/src/bundle/options.ts:116-131 | all entries land on one key and the last one wins |
| BundleOptions.WorkingDir | packages/esw/src/bundle/options.ts:197 | `absWorkingDir \|\| process.cwd()`: the process directory iff the option is unset or empty |
| BundleOptions.BuildHasOutdir | packages/esw/src/bundle/options.ts:199-230 | the flow always has an outdir; the `module` build with given entries passes every check |
| BundleOptions.Builds | packages/esw/src/bundle/options.ts:216-232 | the i-th outcome is the build of the i-th meta; every outcome but the last succeeds, and the stream stops short only after a failure |
| BundleOptions.CreateInference | packages/esw/src/bundle/options.ts:194-233 | the i-th outcome is the build of the i-th distinct output (at most two), in `absWorkingDir \|\| cwd`; every outcome but the last succeeds, and the stream stops short only after a failure |
| BundleOptions.SameOutputBuildsOnce | packages/esw/src/bundle/options.ts:220-222 | a package whose `main` and `module` name the same file builds once, from `main` |

## Left out

- Terminal output is not modelled: colours (`chalk`), `process.stderr`/`stdout` writes, `prettyMessage`/`printBuildError` of build-failure.ts (and the `debug` and `stdout.warn` calls). The written text is returned as a value, and warnings are a returned sequence.
- `decodeURIComponent` in `estimateSpacesPerTab` throws `URIError` on a malformed `%` escape in the model too; the decoded length of text whose escapes are well-formed is the parameter `decodedLength` (invalid UTF-8 behind well-formed escapes is its `None`), so how such escapes narrow the indent and the marker is not computed.
- Strings are sequences of Unicode scalar values, not UTF-16 code units: the model covers text of the Basic Multilingual Plane without surrogates. For other text, JavaScript's `.length`, indices and `split('')` count two code units per character, so columns, tab stops, marker widths, the spread of a string and table widths would differ.
- `stripAnsiCodes` and its regular expression are a parameter `strip`; Node's `path` functions, `fs.realpathSync` and `fs.existsSync` are parameters (`Paths`, `isFile`).
- `parsePackageJson` (`require` of package.json) is left out: the package record is an input.
- The rxjs streams of `createMonoEntryInference`, `createMultiEntriesInference`, `dispatchInference` and `createInference` are modelled as the ordered sequence of results they emit (ending at the first failure); scheduling, `defer` and `tap(debug)` are not.
- The other builders (packages/esw/src/build/options.ts, packages/esw/src/features/build/options.ts), the command runners, the watcher, the `arg`-based dispatchers and `serializeSize` are not part of this model.
- `undefined`, `null` and an absent key are one `None`: a key present with value `undefined` that a spread would copy over a default, and `Object.keys(null)` on a `null` dependency record, are not distinguished.
- Entry-point records are maps: a key such as `__proto__` that a plain object treats specially is not modelled.
- Table.Stringify: numbers are integers only; a fractional or non-finite number's `${n}` text is not modelled, and only non-negative numbers are promised digits.
- Table.Lead: `length >> 1` is a 32-bit shift; the model uses unbounded division, which agrees for any pad below 2^31.
- ExternalMark.RuleMatchesAsWritten: only the `.` metacharacter of an unescaped dependency name is modelled; names with other pattern characters (`+`, `(`, `[`…) are outside the model.
- The `String`/`Number`/`BigInt` coercions and user handlers are uninterpreted functions of the raw value (`Coercions`); the thrown exceptions of a user handler are not modelled.
- Only the esbuild options the builders read or write are fields of `BuildOptions`; the others pass through untouched and are not represented.

## Findings

| source | as written | input that shows it | evidently intended | confidence | as-written member | corrected member |
|---|---|---|---|---|---|---|
| packages/common/src/formatter/build-failure.ts:46-48 | the caret indent and marker widths are `decodeURIComponent(text).length` | a source line `x % y` with the error after the `%`: `decodeURIComponent("x % ")` throws `URIError` | the width of the text itself, so the caret sits under the located column (`BuildFailure.CaretUnderMarkedText`) | not executed | BuildFailure.PercentBeforeColumnSerializeThrows | BuildFailure.EstimateSpacesPerTab |
| packages/common/src/formatter/build-failure.ts:50-53 | `' '.repeat(maxMargin - line.length)`, with `estimateMaxMargin` skipping note lines that are 0 (148-159) | an error without a location whose note is located at line 0: the margin is 0, and `' '.repeat(-1)` throws `RangeError` | a margin wide enough for every line that is printed | not executed | BuildFailure.NoteAtLineZeroThrows | BuildFailure.EveryPrintedRowFits |
| packages/esw/src/plugins/external-mark.ts:9 | the dependency name is put into `new RegExp` unescaped (same in packages/esw/src/plugins/external.ts:9) | dependency `lodash.get`, import `lodash-get`: the `.` matches `-` and `lodash-get` is marked external | match the name literally: the name itself or a path below it | not executed | ExternalMark.DotInNameOverMatches | ExternalMark.RuleMatchesIsNameOrBelow |
