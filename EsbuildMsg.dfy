/** The older diagnostic printer of packages/common/src/esbuild-msg.ts. Its
    `renderTabStops`, `estimateSpacesPerTab`, `marginWithLineText`,
    `emptyMarginText` and `estimateMaxMargin` are the same text as in
    build-failure.ts and are taken from `BuildFailure`; its `serializeMessage`
    differs only in carrying no suggestion, and `printBuildError` prints the
    first error alone. Colours are the identity here. */
module EsbuildMsg {
  import opened Wrappers
  import opened Strings
  import BF = BuildFailure

  /** What this `serializeMessage` returns: no suggestion. */
  datatype Details = Details(
    path: string, line: int, column: int, message: string,
    sourceBefore: string, sourceMarked: string, sourceAfter: string,
    indent: string, marker: string, contentAfter: string)

  function WithoutSuggestion(d: BF.Details): (r: Details)
    ensures r.sourceBefore == d.sourceBefore && r.sourceMarked == d.sourceMarked && r.sourceAfter == d.sourceAfter
    ensures r.indent == d.indent && r.marker == d.marker && r.contentAfter == d.contentAfter
  {
    Details(d.path, d.line, d.column, d.message, d.sourceBefore, d.sourceMarked, d.sourceAfter,
            d.indent, d.marker, d.contentAfter)
  }

  /** `serializeMessage`: nothing without a location; otherwise the location
      is clamped in place and its first line laid out, or what the layout
      throws. */
  method SerializeMessage(message: BF.Message, maxMargin: nat, decodedLength: string -> Option<nat>)
    returns (r: Result<Option<Details>, BF.Thrown>)
    modifies BF.Frame(message.location)
    ensures message.location.None? ==> r == Ok(None)
    ensures message.location.Some? ==>
      message.location.value.Value() == BF.Clamp(old(message.location.value.Value()))
      && var s := BF.SerializeAsWritten(message.text, old(message.location.value.Value()), maxMargin, decodedLength);
         r == if s.Ok? then Ok(Some(WithoutSuggestion(s.value))) else Err(s.error)
  {
    var details := BF.SerializeMessage(BF.Note(message.text, message.location), maxMargin, decodedLength);
    if details.Err? {
      return Err(details.error);
    }
    if details.value.None? {
      return Ok(None);
    }
    return Ok(Some(WithoutSuggestion(details.value.value)));
  }

  /** `[plugin: name] ` when the error came from a plugin. */
  function PluginText(pluginName: string): string {
    if pluginName != "" then "[plugin: " + pluginName + "] " else ""
  }

  /** The text written for a located error: a header, the source row, and the caret row. */
  function Report(d: Details, pluginName: string, maxMargin: nat): string {
    " ERROR " + " " + d.path + ":" + IntToString(d.line) + ":" + IntToString(d.column) + " "
    + PluginText(pluginName) + d.message + "\n"
    + d.sourceBefore + d.sourceMarked + d.sourceAfter + "\n"
    + BF.EmptyMarginText(maxMargin, true) + d.indent + d.marker + d.contentAfter + "\n\n"
  }

  /** `printBuildError`: what is written to stderr, if anything, or what the
      serializer throws. Only the first error is printed; an error without a
      location is printed as its text alone. The margin is estimated from a
      located error, so the only error is the `URIError` of a bad escape, and
      a first line without '%' is always printed, in the corrected layout. */
  method PrintBuildError(errors: seq<BF.Message>, decodedLength: string -> Option<nat>)
    returns (written: Result<Option<string>, BF.Thrown>)
    modifies if errors == [] then {} else BF.Frame(errors[0].location)
    ensures errors == [] ==> written == Ok(None)
    ensures errors != [] && errors[0].location.None? ==>
      written == Ok(Some("\n" + PluginText(errors[0].pluginName) + " " + errors[0].text + "\n\n"))
    ensures errors != [] && errors[0].location.Some? ==>
      var error := errors[0];
      var maxMargin := BF.MaxMargin(Some(old(error.location.value.line)), old(BF.NoteLines(error.notes)));
      var s := BF.SerializeAsWritten(error.text, old(error.location.value.Value()), maxMargin, decodedLength);
      written == if s.Ok? then Ok(Some(Report(WithoutSuggestion(s.value), error.pluginName, maxMargin))) else Err(s.error)
    ensures written.Err? ==> written.error == BF.URIError
    ensures errors != [] && errors[0].location.Some? && '%' !in old(FirstLine(errors[0].location.value.lineText)) ==>
      var error := errors[0];
      var maxMargin := BF.MaxMargin(Some(old(error.location.value.line)), old(BF.NoteLines(error.notes)));
      written == Ok(Some(Report(WithoutSuggestion(BF.Serialize(error.text, old(error.location.value.Value()), maxMargin)),
                                error.pluginName, maxMargin)))
  {
    if errors == [] {
      return Ok(None);
    }
    var error := errors[0];
    var pluginText := PluginText(error.pluginName);
    if error.location.None? {
      return Ok(Some("\n" + pluginText + " " + error.text + "\n\n"));
    }
    ghost var v := error.location.value.Value();
    var maxMargin := BF.EstimateMaxMargin(error);
    MarginNeverThrows(v.line, BF.NoteLines(error.notes));
    assert BF.Clamp(v).line == Max(v.line, 0);
    BF.FittingMarginOnlyURIError(error.text, v, maxMargin, decodedLength);
    if '%' !in FirstLine(v.lineText) {
      BF.SerializeAsWrittenAgrees(error.text, v, maxMargin, decodedLength);
    }
    var details := SerializeMessage(error, maxMargin, decodedLength);
    if details.Err? {
      return Err(details.error);
    }
    var d := details.value.value;
    return Ok(Some(Report(d, error.pluginName, maxMargin)));
  }

  /** The text before the first line terminator. */
  function FirstLine(lineText: string): string {
    lineText[..LineLength(lineText)]
  }

  /** Here the error always has a location when its margin is estimated, so
      its clamped line number always fits: `' '.repeat` never sees a negative
      count, unlike in build-failure.ts. */
  lemma MarginNeverThrows(line: int, noteLines: seq<Option<int>>)
    ensures |IntToString(Max(line, 0))| <= BF.MaxMargin(Some(line), noteLines)
    ensures BF.MarginWithLineTextAsWritten(BF.MaxMargin(Some(line), noteLines), Max(line, 0))
         == Some(BF.MarginWithLineText(BF.MaxMargin(Some(line), noteLines), Max(line, 0)))
  {
    BF.MaxMarginCoversError(Some(line), noteLines);
    if line < 0 {
      assert IntToString(0) == "0";
    }
    BF.MarginsAlign(BF.MaxMargin(Some(line), noteLines), Max(line, 0), true);
  }

  /** The caret row of a printed error lines up with its source row. */
  lemma ReportCaretAligned(text: string, v: BF.LocationValue, noteLines: seq<Option<int>>)
    ensures var maxMargin := BF.MaxMargin(Some(v.line), noteLines);
      var d := WithoutSuggestion(BF.Serialize(text, v, maxMargin));
      |BF.EmptyMarginText(maxMargin, true) + d.indent| == |d.sourceBefore|
  {
    var maxMargin := BF.MaxMargin(Some(v.line), noteLines);
    MarginNeverThrows(v.line, noteLines);
    assert BF.Clamp(v).line == Max(v.line, 0);
    BF.CaretUnderMarkedText(text, v, maxMargin);
  }
}
