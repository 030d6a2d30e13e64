/** The caret layout of packages/common/src/formatter/build-failure.ts: how a
    bundler diagnostic's source line is cut at its first line break, how tabs
    are expanded to tab stops, how the location is clamped into the line (in
    place), and where the `^`/`~` marker goes under the margin. Colours and
    the writes to stderr are not part of this model. */
module BuildFailure {
  import opened Wrappers
  import opened Strings

  // ---------------------------------------------------------------------------
  // Tab stops
  // ---------------------------------------------------------------------------

  /** The spaces a tab becomes when `count` characters precede it: up to the
      next multiple of `spacesPerTab`. A width that is not positive makes the
      source's inner loop run zero times (its bound is `NaN` or negative). */
  function TabWidth(count: nat, spacesPerTab: int): nat {
    if spacesPerTab > 0 then spacesPerTab - count % spacesPerTab else 0
  }

  /** `renderTabStops`, as a function of the text: each tab is expanded on the
      running length of the output so far. */
  function Expand(s: string, spacesPerTab: int): string {
    if s == [] then []
    else
      var done := Expand(s[..|s| - 1], spacesPerTab);
      if s[|s| - 1] == '\t' then done + Spaces(TabWidth(|done|, spacesPerTab))
      else done + [s[|s| - 1]]
  }

  /** `renderTabStops`: a string accumulator and a running count, with an inner
      loop appending one space per step. */
  method RenderTabStops(withTabs: string, spacesPerTab: int) returns (withoutTabs: string)
    ensures withoutTabs == Expand(withTabs, spacesPerTab)
  {
    if '\t' !in withTabs {
      NoTabsUnchanged(withTabs, spacesPerTab);
      return withTabs;
    }
    withoutTabs := "";
    var count := 0;
    for i := 0 to |withTabs|
      invariant withoutTabs == Expand(withTabs[..i], spacesPerTab)
      invariant count == |withoutTabs|
    {
      var c := withTabs[i];
      assert withTabs[..i + 1][..i] == withTabs[..i];
      if c == '\t' {
        var spaces := TabWidth(count, spacesPerTab);
        ghost var before := withoutTabs;
        for j := 0 to spaces
          invariant withoutTabs == before + Spaces(j)
          invariant count == |withoutTabs|
        {
          assert Spaces(j + 1) == Spaces(j) + " ";
          withoutTabs := withoutTabs + " ";
          count := count + 1;
        }
      } else {
        withoutTabs := withoutTabs + [c];
        count := count + 1;
      }
    }
    assert withTabs[..|withTabs|] == withTabs;
  }

  /** A text without tabs is returned as it is. */
  lemma {:induction false} NoTabsUnchanged(s: string, spacesPerTab: int)
    requires '\t' !in s
    ensures Expand(s, spacesPerTab) == s
    decreases |s|
  {
    if s != [] {
      NoTabsUnchanged(s[..|s| - 1], spacesPerTab);
      assert s[..|s| - 1] + [s[|s| - 1]] == s;
    }
  }

  /** No tab survives the expansion. */
  lemma {:induction false} NoTabsRemain(s: string, spacesPerTab: int)
    ensures '\t' !in Expand(s, spacesPerTab)
    decreases |s|
  {
    if s != [] {
      NoTabsRemain(s[..|s| - 1], spacesPerTab);
    }
  }

  /** Expanding a prefix gives a prefix of the expansion: the output is built
      left to right on a running count. */
  lemma {:induction false} ExpandPrefix(s: string, k: nat, spacesPerTab: int)
    requires k <= |s|
    ensures |Expand(s[..k], spacesPerTab)| <= |Expand(s, spacesPerTab)|
    ensures Expand(s, spacesPerTab)[..|Expand(s[..k], spacesPerTab)|] == Expand(s[..k], spacesPerTab)
    decreases |s|
  {
    if k == |s| {
      assert s[..k] == s;
    } else {
      var n := |s|;
      assert s[..n - 1][..k] == s[..k];
      ExpandPrefix(s[..n - 1], k, spacesPerTab);
      var whole := Expand(s, spacesPerTab);
      var shorter := Expand(s[..n - 1], spacesPerTab);
      assert whole[..|shorter|] == shorter;
    }
  }

  /** A tab ends on a tab stop, and adds between 1 and `spacesPerTab` spaces. */
  lemma TabReachesStop(s: string, spacesPerTab: int)
    requires spacesPerTab >= 1
    requires s != [] && s[|s| - 1] == '\t'
    ensures |Expand(s, spacesPerTab)| % spacesPerTab == 0
    ensures 1 <= |Expand(s, spacesPerTab)| - |Expand(s[..|s| - 1], spacesPerTab)| <= spacesPerTab
  {
    var done := |Expand(s[..|s| - 1], spacesPerTab)|;
    assert |Expand(s, spacesPerTab)| == done + TabWidth(done, spacesPerTab);
    NextStop(done, spacesPerTab);
  }

  lemma NextStop(done: nat, w: int)
    requires w >= 1
    ensures 1 <= TabWidth(done, w) <= w
    ensures (done + TabWidth(done, w)) % w == 0
  {
    var q := done / w;
    assert done + TabWidth(done, w) == (q + 1) * w;
    MultipleHasNoRemainder(q + 1, w);
  }

  lemma MultipleHasNoRemainder(x: nat, w: int)
    requires w >= 1
    ensures (x * w) % w == 0
  {
    var d := (x * w) / w;
    assert (x - d) * w == (x * w) % w;
    MultiplyAtLeast(x - d, w);
    MultiplyAtLeast(d - x, w);
  }

  lemma MultiplyAtLeast(a: int, w: int)
    requires w >= 1
    ensures a >= 1 ==> a * w >= w
  {
  }

  /** Every other character is copied, in order, to the place the expansion of
      the text before it ends. */
  lemma CharacterKeepsPlace(s: string, i: nat, spacesPerTab: int)
    requires i < |s| && s[i] != '\t'
    ensures |Expand(s[..i], spacesPerTab)| < |Expand(s, spacesPerTab)|
    ensures Expand(s, spacesPerTab)[|Expand(s[..i], spacesPerTab)|] == s[i]
  {
    assert s[..i + 1][..i] == s[..i];
    ExpandPrefix(s, i + 1, spacesPerTab);
  }

  // ---------------------------------------------------------------------------
  // The first line
  // ---------------------------------------------------------------------------

  /** The scan at build-failure.ts:68-84: the index of the first line
      terminator, or the length. */
  method FindEndOfFirstLine(lineText: string) returns (endOfFirstLine: nat)
    ensures endOfFirstLine == LineLength(lineText)
  {
    endOfFirstLine := |lineText|;
    var i := 0;
    while i < |lineText|
      invariant 0 <= i <= |lineText|
      invariant forall k :: 0 <= k < i ==> !IsLineTerminator(lineText[k])
      invariant LineLength(lineText) >= i
    {
      if IsLineTerminator(lineText[i]) {
        endOfFirstLine := i;
        break;
      }
      i := i + 1;
    }
    FirstTerminator(lineText, endOfFirstLine);
  }

  /** `LineLength` is the unique end of a terminator-free prefix that is
      followed by a terminator or the end of the text. */
  lemma FirstTerminator(s: string, k: nat)
    requires k <= |s|
    requires forall i :: 0 <= i < k ==> !IsLineTerminator(s[i])
    requires k < |s| ==> IsLineTerminator(s[k])
    ensures k == LineLength(s)
  {
  }

  /** The first line and what follows it make up the text again; the first
      line holds no terminator, and what follows is empty or starts with one. */
  lemma FirstLineSplit(lineText: string)
    ensures lineText[..LineLength(lineText)] + lineText[LineLength(lineText)..] == lineText
    ensures !HasLineTerminator(lineText[..LineLength(lineText)])
    ensures lineText[LineLength(lineText)..] == [] || IsLineTerminator(lineText[LineLength(lineText)..][0])
  {
  }

  // ---------------------------------------------------------------------------
  // The location and its clamping
  // ---------------------------------------------------------------------------

  /** The fields of a location at one moment. */
  datatype LocationValue = LocationValue(
    file: string, line: int, column: int, length: int, lineText: string, suggestion: string)

  /** A diagnostic's location, whose numbers are clamped in place. */
  class Location {
    var file: string
    var line: int
    var column: int
    var length: int
    var lineText: string
    var suggestion: string

    constructor (file: string, line: int, column: int, length: int, lineText: string, suggestion: string)
      ensures Value() == LocationValue(file, line, column, length, lineText, suggestion)
    {
      this.file := file;
      this.line := line;
      this.column := column;
      this.length := length;
      this.lineText := lineText;
      this.suggestion := suggestion;
    }

    function Value(): LocationValue
      reads this
    {
      LocationValue(file, line, column, length, lineText, suggestion)
    }
  }

  /** A message or note: its text, and its location if it has one. */
  datatype Note = Note(text: string, location: Option<Location>)

  /** An error: a note with further notes. */
  datatype Message = Message(text: string, location: Option<Location>, notes: seq<Note>, pluginName: string)

  function Frame(location: Option<Location>): set<object> {
    if location.Some? then {location.value} else {}
  }

  /** The clamping at build-failure.ts:91-95: the line is not negative, the
      column lies within the first line, and the length within what is left. */
  function Clamp(v: LocationValue): (c: LocationValue)
    ensures c.file == v.file && c.lineText == v.lineText && c.suggestion == v.suggestion
    ensures c.line >= 0 && 0 <= c.column <= LineLength(v.lineText)
    ensures 0 <= c.length <= LineLength(v.lineText) - c.column
  {
    var endOfFirstLine := LineLength(v.lineText);
    var column := Min(Max(v.column, 0), endOfFirstLine);
    v.(line := Max(v.line, 0), column := column, length := Min(Max(v.length, 0), endOfFirstLine - column))
  }

  predicate InRange(v: LocationValue) {
    v.line >= 0 && 0 <= v.column <= LineLength(v.lineText) && 0 <= v.length <= LineLength(v.lineText) - v.column
  }

  /** A location already in range is left as it is, so clamping twice is clamping once. */
  lemma ClampKeepsInRange(v: LocationValue)
    ensures InRange(v) <==> Clamp(v) == v
    ensures Clamp(Clamp(v)) == Clamp(v)
  {
  }

  // ---------------------------------------------------------------------------
  // Margins
  // ---------------------------------------------------------------------------

  /** `marginWithLineText`, with the padding never negative: the line number
      right-aligned in `maxMargin` columns after four spaces. */
  function MarginWithLineText(maxMargin: nat, line: int): string {
    var digits := IntToString(line);
    "    " + Spaces(Max(maxMargin - |digits|, 0)) + digits + " │ "
  }

  /** `marginWithLineText` as written: `' '.repeat` of a negative count throws a `RangeError`. */
  function MarginWithLineTextAsWritten(maxMargin: nat, line: int): Option<string> {
    var digits := IntToString(line);
    if maxMargin - |digits| < 0 then None
    else Some("    " + Spaces(maxMargin - |digits|) + digits + " │ ")
  }

  /** `emptyMarginText`: the margin of the marker row, with a closing `╵` on the last row. */
  function EmptyMarginText(maxMargin: nat, isLast: bool): string {
    "    " + Spaces(maxMargin) + (if isLast then " ╵ " else " │ ")
  }

  /** When the number fits, both margins are `maxMargin + 7` wide, so the
      marker row lines up with the source row; the number ends just before
      the bar, and only the last row's bar is `╵`. */
  lemma MarginsAlign(maxMargin: nat, line: int, isLast: bool)
    requires |IntToString(line)| <= maxMargin
    ensures MarginWithLineTextAsWritten(maxMargin, line) == Some(MarginWithLineText(maxMargin, line))
    ensures |MarginWithLineText(maxMargin, line)| == |EmptyMarginText(maxMargin, isLast)| == maxMargin + 7
    ensures MarginWithLineText(maxMargin, line)[maxMargin + 4 - |IntToString(line)|..maxMargin + 4] == IntToString(line)
    ensures MarginWithLineText(maxMargin, line)[..maxMargin + 4 - |IntToString(line)|] == Spaces(maxMargin + 4 - |IntToString(line)|)
    ensures EmptyMarginText(maxMargin, isLast)[maxMargin + 5] == if isLast then '╵' else '│'
  {
    var digits := IntToString(line);
    var pad := maxMargin - |digits|;
    var m := MarginWithLineText(maxMargin, line);
    assert m == "    " + Spaces(pad) + digits + " │ ";
    assert m[..pad + 4] == "    " + Spaces(pad);
    assert "    " + Spaces(pad) == Spaces(pad + 4);
  }

  /** As written, a line number wider than the margin makes the margin throw. */
  lemma MarginThrowsWhenTooNarrow(maxMargin: nat, line: int)
    ensures MarginWithLineTextAsWritten(maxMargin, line).None? <==> maxMargin < |IntToString(line)|
  {
  }

  // ---------------------------------------------------------------------------
  // The widest line number
  // ---------------------------------------------------------------------------

  /** The line of a location, if there is one. */
  function LineOf(location: Option<Location>): Option<int>
    reads Frame(location)
  {
    if location.Some? then Some(location.value.line) else None
  }

  function NoteLines(notes: seq<Note>): (lines: seq<Option<int>>)
    reads set k | 0 <= k < |notes| && notes[k].location.Some? :: notes[k].location.value
    ensures |lines| == |notes|
    ensures forall k :: 0 <= k < |notes| ==> lines[k] == LineOf(notes[k].location)
  {
    if notes == [] then [] else NoteLines(notes[..|notes| - 1]) + [LineOf(notes[|notes| - 1].location)]
  }

  /** A note's line widens the margin only when it is not 0 (`note.location.line` is truthy). */
  predicate Counts(line: Option<int>) {
    line.Some? && line.value != 0
  }

  /** `estimateMaxMargin`, as a fold over the note lines. */
  function MaxMargin(errorLine: Option<int>, noteLines: seq<Option<int>>): nat {
    if noteLines == [] then (if errorLine.Some? then |IntToString(errorLine.value)| else 0)
    else
      var before := MaxMargin(errorLine, noteLines[..|noteLines| - 1]);
      var last := noteLines[|noteLines| - 1];
      if Counts(last) then Max(before, |IntToString(last.value)|) else before
  }

  /** `estimateMaxMargin` */
  method EstimateMaxMargin(message: Message) returns (maxMargin: nat)
    ensures maxMargin == MaxMargin(LineOf(message.location), NoteLines(message.notes))
  {
    maxMargin := 0;
    if message.location.Some? {
      maxMargin := |IntToString(message.location.value.line)|;
    }
    for k := 0 to |message.notes|
      invariant maxMargin == MaxMargin(LineOf(message.location), NoteLines(message.notes[..k]))
    {
      var note := message.notes[k];
      assert NoteLines(message.notes[..k + 1]) == NoteLines(message.notes[..k]) + [LineOf(note.location)] by {
        assert message.notes[..k + 1][..k] == message.notes[..k];
      }
      if note.location.Some? && note.location.value.line != 0 {
        maxMargin := Max(maxMargin, |IntToString(note.location.value.line)|);
      }
    }
    assert message.notes[..|message.notes|] == message.notes;
  }

  /** The margin is wide enough for the error's line ... */
  lemma {:induction false} MaxMarginCoversError(errorLine: Option<int>, noteLines: seq<Option<int>>)
    requires errorLine.Some?
    ensures |IntToString(errorLine.value)| <= MaxMargin(errorLine, noteLines)
    decreases |noteLines|
  {
    if noteLines != [] {
      MaxMarginCoversError(errorLine, noteLines[..|noteLines| - 1]);
    }
  }

  /** ... and for every non-zero note line. */
  lemma {:induction false} MaxMarginCoversNote(errorLine: Option<int>, noteLines: seq<Option<int>>, k: nat)
    requires k < |noteLines| && Counts(noteLines[k])
    ensures |IntToString(noteLines[k].value)| <= MaxMargin(errorLine, noteLines)
    decreases |noteLines|
  {
    var n := |noteLines|;
    if k < n - 1 {
      assert noteLines[..n - 1][k] == noteLines[k];
      MaxMarginCoversNote(errorLine, noteLines[..n - 1], k);
    }
  }

  /** ... and no wider than the widest of them (0 when there is none). */
  lemma {:induction false} MaxMarginAttained(errorLine: Option<int>, noteLines: seq<Option<int>>)
    ensures MaxMargin(errorLine, noteLines) == 0
         || (errorLine.Some? && MaxMargin(errorLine, noteLines) == |IntToString(errorLine.value)|)
         || exists k :: 0 <= k < |noteLines| && Counts(noteLines[k])
                     && MaxMargin(errorLine, noteLines) == |IntToString(noteLines[k].value)|
    decreases |noteLines|
  {
    if noteLines != [] {
      var n := |noteLines|;
      MaxMarginAttained(errorLine, noteLines[..n - 1]);
      if MaxMargin(errorLine, noteLines) != MaxMargin(errorLine, noteLines[..n - 1]) {
        assert Counts(noteLines[n - 1]);
      } else {
        assert forall k :: 0 <= k < n - 1 ==> noteLines[..n - 1][k] == noteLines[k];
      }
    }
  }

  // ---------------------------------------------------------------------------
  // The caret
  // ---------------------------------------------------------------------------

  /** `estimateSpacesPerTab` as written: `decodeURIComponent(text).length`.
      A '%' that is not followed by two hex digits makes it throw a `URIError`;
      the decoded length of text with well-formed escapes is left abstract. */
  function EstimateSpacesPerTabAsWritten(text: string, decodedLength: string -> Option<nat>): Option<nat> {
    if HasMalformedEscape(text) then None
    else if '%' !in text then Some(|text|)
    else decodedLength(text)
  }

  predicate IsHexDigit(c: char) {
    '0' <= c <= '9' || 'a' <= c <= 'f' || 'A' <= c <= 'F'
  }

  predicate MalformedEscapeAt(s: string, i: nat)
    requires i < |s|
  {
    s[i] == '%' && !(i + 2 < |s| && IsHexDigit(s[i + 1]) && IsHexDigit(s[i + 2]))
  }

  predicate HasMalformedEscape(s: string) {
    exists i: nat :: i < |s| && MalformedEscapeAt(s, i)
  }

  /** The width of text in the terminal: one column per character (one UTF-16
      code unit for the text this model covers). */
  function EstimateSpacesPerTab(text: string): (n: nat)
    ensures n == |text|
  {
    |text|
  }

  /** Text without '%' is estimated alike as written and as intended. */
  lemma EstimatesAgreeWithoutPercent(text: string, decodedLength: string -> Option<nat>)
    requires '%' !in text
    ensures EstimateSpacesPerTabAsWritten(text, decodedLength) == Some(EstimateSpacesPerTab(text))
  {
  }

  /** `x % y` with the error at `y`: the text before the column, `"x % "`, has a
      '%' followed by a space, so the estimate of the indent throws. */
  lemma PercentBeforeColumnThrows(decodedLength: string -> Option<nat>)
    ensures EstimateSpacesPerTabAsWritten("x % ", decodedLength).None?
  {
    assert MalformedEscapeAt("x % ", 2);
  }

  /** Where the marker starts and ends in the expanded first line (build-failure.ts:103-119). */
  function MarkerSpan(firstLine: string, column: nat, length: nat): (span: (nat, nat))
    requires column + length <= |firstLine|
    ensures span.0 <= span.1 <= |Expand(firstLine, 2)|
  {
    var lineText := Expand(firstLine, 2);
    var start := |Expand(firstLine[..column], 2)|;
    var end := if length > 0 then |Expand(firstLine[..column + length], 2)| else start;
    var clippedStart := Min(start, |lineText|);
    (clippedStart, Max(Min(end, |lineText|), clippedStart))
  }

  /** What `serializeMessage` returns. */
  datatype Details = Details(
    path: string, line: int, column: int, message: string,
    sourceBefore: string, sourceMarked: string, sourceAfter: string,
    indent: string, marker: string, suggestion: string, contentAfter: string)

  /** `serializeMessage` for a located message, from the location's fields
      before clamping. */
  function Serialize(text: string, v: LocationValue, maxMargin: nat): Details {
    var endOfFirstLine := LineLength(v.lineText);
    var firstLine := v.lineText[..endOfFirstLine];
    var c := Clamp(v);
    var lineText := Expand(firstLine, 2);
    var textUpToLoc := Expand(firstLine[..c.column], 2);
    var span := MarkerSpan(firstLine, c.column, c.length);
    var marker := if span.1 - span.0 > 1 then Repeat('~', EstimateSpacesPerTab(lineText[span.0..span.1])) else "^";
    Details(v.file, c.line, c.column, text,
            MarginWithLineText(maxMargin, c.line) + lineText[..span.0],
            lineText[span.0..span.1], lineText[span.1..],
            Spaces(EstimateSpacesPerTab(textUpToLoc)), marker, v.suggestion,
            v.lineText[endOfFirstLine..])
  }

  /** The errors the layout throws as written: `decodeURIComponent` on a bad
      escape, and `' '.repeat` of a negative count. */
  datatype Thrown = URIError | RangeError

  /** The marker computation of build-failure.ts:97-128 as written, on the
      clamped numbers: the indent, then the marker, then the margin, each of
      which may throw. */
  function LayoutAsWritten(firstLine: string, column: nat, length: nat, line: int, maxMargin: nat,
                           decodedLength: string -> Option<nat>): Result<(string, string, string, string, string), Thrown>
    requires column + length <= |firstLine|
  {
    var lineText := Expand(firstLine, 2);
    var span := MarkerSpan(firstLine, column, length);
    var indentWidth := EstimateSpacesPerTabAsWritten(Expand(firstLine[..column], 2), decodedLength);
    var markerWidth := if span.1 - span.0 > 1 then EstimateSpacesPerTabAsWritten(lineText[span.0..span.1], decodedLength)
                       else Some(1);
    var margin := MarginWithLineTextAsWritten(maxMargin, line);
    if indentWidth.None? || markerWidth.None? then Err(URIError)
    else if margin.None? then Err(RangeError)
    else Ok((margin.value + lineText[..span.0], lineText[span.0..span.1], lineText[span.1..],
             Spaces(indentWidth.value), if span.1 - span.0 > 1 then Repeat('~', markerWidth.value) else "^"))
  }

  /** `serializeMessage` as written for a located message, from the location's
      fields before clamping. */
  function SerializeAsWritten(text: string, v: LocationValue, maxMargin: nat,
                              decodedLength: string -> Option<nat>): Result<Details, Thrown>
  {
    var endOfFirstLine := LineLength(v.lineText);
    var c := Clamp(v);
    match LayoutAsWritten(v.lineText[..endOfFirstLine], c.column, c.length, c.line, maxMargin, decodedLength)
    case Err(e) => Err(e)
    case Ok(f) => Ok(Details(v.file, c.line, c.column, text, f.0, f.1, f.2, f.3, f.4, v.suggestion,
                             v.lineText[endOfFirstLine..]))
  }

  /** `serializeMessage`: nothing without a location; otherwise the location is
      clamped in place (before anything can throw) and the layout of its first
      line is returned, or what it throws. `decodedLength` stands for the length
      `decodeURIComponent` gives text with well-formed escapes. */
  method SerializeMessage(message: Note, maxMargin: nat, decodedLength: string -> Option<nat>)
    returns (r: Result<Option<Details>, Thrown>)
    modifies Frame(message.location)
    ensures message.location.None? ==> r == Ok(None)
    ensures message.location.Some? ==>
      message.location.value.Value() == Clamp(old(message.location.value.Value()))
      && var s := SerializeAsWritten(message.text, old(message.location.value.Value()), maxMargin, decodedLength);
         r == if s.Ok? then Ok(Some(s.value)) else Err(s.error)
  {
    if message.location.None? {
      return Ok(None);
    }
    var loc := message.location.value;
    ghost var v := loc.Value();

    var endOfFirstLine := FindEndOfFirstLine(loc.lineText);
    var firstLine := loc.lineText[..endOfFirstLine];
    var afterFirstLine := loc.lineText[endOfFirstLine..];

    loc.line := Max(loc.line, 0);
    loc.column := Max(loc.column, 0);
    loc.length := Max(loc.length, 0);
    loc.column := Min(loc.column, endOfFirstLine);
    loc.length := Min(loc.length, endOfFirstLine - loc.column);
    assert loc.Value() == Clamp(v);

    var details := Layout(firstLine, loc.column, loc.length, loc.line, maxMargin, decodedLength);
    if details.Err? {
      return Err(details.error);
    }
    var f := details.value;
    r := Ok(Some(Details(loc.file, loc.line, loc.column, message.text,
                         f.0, f.1, f.2, f.3, f.4, loc.suggestion, afterFirstLine)));
  }

  /** The marker computation of build-failure.ts:97-128, on the clamped numbers. */
  method Layout(firstLine: string, column: nat, length: nat, line: int, maxMargin: nat,
                decodedLength: string -> Option<nat>)
    returns (r: Result<(string, string, string, string, string), Thrown>)
    requires column + length <= |firstLine|
    ensures r == LayoutAsWritten(firstLine, column, length, line, maxMargin, decodedLength)
  {
    var spacesPerTab := 2;
    var lineText := RenderTabStops(firstLine, spacesPerTab);
    var textUpToLoc := RenderTabStops(firstLine[..column], spacesPerTab);
    var markerStart := |textUpToLoc|;
    var markerEnd := markerStart;
    var indentWidth := EstimateSpacesPerTabAsWritten(textUpToLoc, decodedLength);
    if indentWidth.None? {
      return Err(URIError);
    }
    var indent := Spaces(indentWidth.value);
    var marker := "^";

    if length > 0 {
      var upToEnd := RenderTabStops(firstLine[..column + length], spacesPerTab);
      markerEnd := |upToEnd|;
    }

    markerStart := Min(markerStart, |lineText|);
    markerEnd := Min(markerEnd, |lineText|);
    markerEnd := Max(markerEnd, markerStart);

    if markerEnd - markerStart > 1 {
      var markerWidth := EstimateSpacesPerTabAsWritten(lineText[markerStart..markerEnd], decodedLength);
      if markerWidth.None? {
        return Err(URIError);
      }
      marker := Repeat('~', markerWidth.value);
    }

    var margin := MarginWithLineTextAsWritten(maxMargin, line);
    if margin.None? {
      return Err(RangeError);
    }
    r := Ok((margin.value + lineText[..markerStart], lineText[markerStart..markerEnd], lineText[markerEnd..], indent, marker));
  }

  // ---------------------------------------------------------------------------
  // What the layout promises
  // ---------------------------------------------------------------------------

  /** The clipping is never needed: the expansion of a prefix is a prefix of
      the expansion, so both marker ends already lie within the line. */
  lemma MarkerSpanUnclipped(firstLine: string, column: nat, length: nat)
    requires column + length <= |firstLine|
    ensures MarkerSpan(firstLine, column, length).0 == |Expand(firstLine[..column], 2)|
    ensures length > 0 ==> MarkerSpan(firstLine, column, length).1 == |Expand(firstLine[..column + length], 2)|
    ensures length == 0 ==> MarkerSpan(firstLine, column, length).1 == MarkerSpan(firstLine, column, length).0
  {
    ExpandPrefix(firstLine, column, 2);
    ExpandPrefix(firstLine, column + length, 2);
    assert firstLine[..column + length][..column] == firstLine[..column];
    ExpandPrefix(firstLine[..column + length], column, 2);
  }

  /** The fields of the serialised details, one by one. */
  lemma SerializeFields(text: string, v: LocationValue, maxMargin: nat)
    ensures var d := Serialize(text, v, maxMargin);
      var firstLine := v.lineText[..LineLength(v.lineText)];
      var c := Clamp(v);
      var span := MarkerSpan(firstLine, c.column, c.length);
      var lineText := Expand(firstLine, 2);
      && d.sourceBefore == MarginWithLineText(maxMargin, c.line) + lineText[..span.0]
      && d.sourceMarked == lineText[span.0..span.1]
      && d.sourceAfter == lineText[span.1..]
      && d.contentAfter == v.lineText[LineLength(v.lineText)..]
      && d.line == c.line && d.column == c.column
  {
  }

  lemma Rejoin(m: string, s: string, a: nat, b: nat)
    requires a <= b <= |s|
    ensures m + s[..a] + s[a..b] + s[b..] == m + s
  {
    assert s[..a] + s[a..b] + s[b..] == s;
  }

  /** The source row shows the whole first line, tabs expanded, after the
      margin; the contents after the first line are kept aside. */
  lemma SourceRowIsFirstLine(text: string, v: LocationValue, maxMargin: nat)
    ensures var d := Serialize(text, v, maxMargin);
      d.sourceBefore + d.sourceMarked + d.sourceAfter
        == MarginWithLineText(maxMargin, Clamp(v).line) + Expand(v.lineText[..LineLength(v.lineText)], 2)
      && v.lineText[..LineLength(v.lineText)] + d.contentAfter == v.lineText
      && d.line == Clamp(v).line && d.column == Clamp(v).column
  {
    var firstLine := v.lineText[..LineLength(v.lineText)];
    var c := Clamp(v);
    var span := MarkerSpan(firstLine, c.column, c.length);
    SerializeFields(text, v, maxMargin);
    Rejoin(MarginWithLineText(maxMargin, c.line), Expand(firstLine, 2), span.0, span.1);
    FirstLineSplit(v.lineText);
  }

  /** The caret row lines up with the source row: the indent is exactly as
      wide as the text before the marked part, and the marker is `^` for a
      span of at most one column, else one `~` per marked column. */
  lemma CaretUnderMarkedText(text: string, v: LocationValue, maxMargin: nat)
    requires |IntToString(Clamp(v).line)| <= maxMargin
    ensures var d := Serialize(text, v, maxMargin);
      |EmptyMarginText(maxMargin, true) + d.indent| == |d.sourceBefore|
      && (|d.sourceMarked| <= 1 ==> d.marker == "^")
      && (|d.sourceMarked| > 1 ==> d.marker == Repeat('~', |d.sourceMarked|))
  {
    var c := Clamp(v);
    var firstLine := v.lineText[..LineLength(v.lineText)];
    MarkerSpanUnclipped(firstLine, c.column, c.length);
    MarginsAlign(maxMargin, c.line, true);
  }

  /** On a line without tabs, the marked text is exactly the located span of
      the first line (after clamping). */
  lemma MarkedTextIsLocatedSpan(text: string, v: LocationValue, maxMargin: nat)
    requires '\t' !in v.lineText
    ensures var c := Clamp(v);
      Serialize(text, v, maxMargin).sourceMarked == v.lineText[c.column..c.column + c.length]
  {
    var c := Clamp(v);
    var k := LineLength(v.lineText);
    var firstLine := v.lineText[..k];
    var span := MarkerSpan(firstLine, c.column, c.length);
    assert Serialize(text, v, maxMargin).sourceMarked == Expand(firstLine, 2)[span.0..span.1] by {
      SerializeFields(text, v, maxMargin);
    }
    TabFreeMarked(v.lineText, k, c.column, c.length);
  }

  /** The marked slice of a tab-free first line is the located text itself. */
  lemma TabFreeMarked(lineText: string, k: nat, column: nat, length: nat)
    requires '\t' !in lineText && column + length <= k <= |lineText|
    ensures var span := MarkerSpan(lineText[..k], column, length);
      Expand(lineText[..k], 2)[span.0..span.1] == lineText[column..column + length]
  {
    var firstLine := lineText[..k];
    NoTabsInSlices(lineText, k, column, column + length);
    TabFreeSpan(firstLine, column, length);
    NoTabsUnchanged(firstLine, 2);
    SliceOfPrefix(lineText, k, column, column + length);
  }

  // ---------------------------------------------------------------------------
  // The layout as written, against the corrected one
  // ---------------------------------------------------------------------------

  lemma NotInSlice(s: string, c: char, i: nat, j: nat)
    requires i <= j <= |s| && c !in s
    ensures c !in s[i..j]
  {
    assert forall k :: 0 <= k < j - i ==> s[i..j][k] == s[i + k];
  }

  /** Expansion only adds spaces, so a character other than a space that is
      absent from the text is absent from its expansion. */
  lemma {:induction false} ExpandKeepsOut(s: string, c: char, spacesPerTab: int)
    requires c != ' ' && c !in s
    ensures c !in Expand(s, spacesPerTab)
    decreases |s|
  {
    if s != [] {
      NotInSlice(s, c, 0, |s| - 1);
      assert s[0..|s| - 1] == s[..|s| - 1];
      ExpandKeepsOut(s[..|s| - 1], c, spacesPerTab);
    }
  }

  /** When the first line holds no '%' and the line number fits the margin,
      the serializer as written returns exactly the corrected details. */
  lemma SerializeAsWrittenAgrees(text: string, v: LocationValue, maxMargin: nat, decodedLength: string -> Option<nat>)
    requires '%' !in v.lineText[..LineLength(v.lineText)]
    requires |IntToString(Clamp(v).line)| <= maxMargin
    ensures SerializeAsWritten(text, v, maxMargin, decodedLength) == Ok(Serialize(text, v, maxMargin))
  {
    var firstLine := v.lineText[..LineLength(v.lineText)];
    var c := Clamp(v);
    var span := MarkerSpan(firstLine, c.column, c.length);
    assert '%' !in Expand(firstLine[..c.column], 2) by {
      NotInSlice(firstLine, '%', 0, c.column);
      assert firstLine[0..c.column] == firstLine[..c.column];
      ExpandKeepsOut(firstLine[..c.column], '%', 2);
    }
    assert '%' !in Expand(firstLine, 2)[span.0..span.1] by {
      ExpandKeepsOut(firstLine, '%', 2);
      NotInSlice(Expand(firstLine, 2), '%', span.0, span.1);
    }
    assert MarginWithLineTextAsWritten(maxMargin, c.line) == Some(MarginWithLineText(maxMargin, c.line)) by {
      MarginsAlign(maxMargin, c.line, true);
    }
  }

  /** A margin the line number fits never throws: the only error left is the
      `URIError` of a bad escape. */
  lemma FittingMarginOnlyURIError(text: string, v: LocationValue, maxMargin: nat, decodedLength: string -> Option<nat>)
    requires |IntToString(Clamp(v).line)| <= maxMargin
    ensures SerializeAsWritten(text, v, maxMargin, decodedLength).Err? ==>
      SerializeAsWritten(text, v, maxMargin, decodedLength).error == URIError
  {
    MarginThrowsWhenTooNarrow(maxMargin, Clamp(v).line);
  }

  /** Without a '%', a margin narrower than the line number throws the
      `RangeError` of `' '.repeat`. */
  lemma NarrowMarginThrows(text: string, v: LocationValue, maxMargin: nat, decodedLength: string -> Option<nat>)
    requires '%' !in v.lineText[..LineLength(v.lineText)]
    requires maxMargin < |IntToString(Clamp(v).line)|
    ensures SerializeAsWritten(text, v, maxMargin, decodedLength) == Err(RangeError)
  {
    var firstLine := v.lineText[..LineLength(v.lineText)];
    var c := Clamp(v);
    var span := MarkerSpan(firstLine, c.column, c.length);
    assert '%' !in Expand(firstLine[..c.column], 2) by {
      NotInSlice(firstLine, '%', 0, c.column);
      assert firstLine[0..c.column] == firstLine[..c.column];
      ExpandKeepsOut(firstLine[..c.column], '%', 2);
    }
    assert '%' !in Expand(firstLine, 2)[span.0..span.1] by {
      ExpandKeepsOut(firstLine, '%', 2);
      NotInSlice(Expand(firstLine, 2), '%', span.0, span.1);
    }
    MarginThrowsWhenTooNarrow(maxMargin, c.line);
  }

  /** `x % y` located at `y`: the text before the column holds a '%' followed
      by a space, so serializing the message throws a `URIError`, whatever the
      margin. */
  lemma PercentBeforeColumnSerializeThrows(text: string, file: string, line: int, length: int, suggestion: string,
                                           maxMargin: nat, decodedLength: string -> Option<nat>)
    ensures SerializeAsWritten(text, LocationValue(file, line, 4, length, "x % y", suggestion), maxMargin, decodedLength)
         == Err(URIError)
  {
    var lineText := "x % y";
    assert LineLength(lineText) == 5 by {
      FirstTerminator(lineText, 5);
    }
    assert lineText[..5][..4] == "x % ";
    NoTabsUnchanged("x % ", 2);
    PercentBeforeColumnThrows(decodedLength);
  }

  lemma SliceOfPrefix(s: string, n: nat, i: nat, j: nat)
    requires i <= j <= n <= |s|
    ensures s[..n][i..j] == s[i..j]
  {
  }

  /** Without tabs, the marker covers exactly the located columns. */
  lemma TabFreeSpan(firstLine: string, column: nat, length: nat)
    requires column + length <= |firstLine|
    requires '\t' !in firstLine && '\t' !in firstLine[..column] && '\t' !in firstLine[..column + length]
    ensures MarkerSpan(firstLine, column, length) == (column, column + length)
  {
    NoTabsUnchanged(firstLine, 2);
    NoTabsUnchanged(firstLine[..column], 2);
    NoTabsUnchanged(firstLine[..column + length], 2);
  }

  lemma NoTabsInSlices(s: string, n: nat, i: nat, j: nat)
    requires '\t' !in s && i <= j <= n <= |s|
    ensures '\t' !in s[..n] && '\t' !in s[..n][..i] && '\t' !in s[..n][..j]
  {
    assert forall k :: 0 <= k < n ==> s[..n][k] == s[k];
    assert forall k :: 0 <= k < i ==> s[..n][..i][k] == s[k];
    assert forall k :: 0 <= k < j ==> s[..n][..j][k] == s[k];
  }

  // ---------------------------------------------------------------------------
  // A note at line 0 under an error without a location
  // ---------------------------------------------------------------------------

  /** `printBuildError` prints each note with the error's margin. Lines of 0
      are skipped when the margin is estimated, so with an unlocated error and
      a note at line 0 the margin is 0 while the note's number needs 1 column:
      as written, `' '.repeat(-1)` throws. Counting every located note gives
      the column it needs. */
  lemma NoteAtLineZeroThrows()
    ensures MaxMargin(None, [Some(0)]) == 0
    ensures MarginWithLineTextAsWritten(MaxMargin(None, [Some(0)]), 0).None?
    ensures MaxMarginAllLocated(None, [Some(0)]) == 1
  {
    assert IntToString(0) == "0";
  }

  /** With the padding kept non-negative, every located message's row fits
      whenever its line counts towards the margin or the error is located. */
  lemma MarginFitsCountedLines(errorLine: Option<int>, noteLines: seq<Option<int>>, k: nat)
    requires k < |noteLines| && noteLines[k].Some?
    requires Counts(noteLines[k]) || errorLine.Some?
    ensures |IntToString(Max(noteLines[k].value, 0))| <= MaxMargin(errorLine, noteLines)
    ensures MarginWithLineTextAsWritten(MaxMargin(errorLine, noteLines), Max(noteLines[k].value, 0)).Some?
  {
    var l := noteLines[k].value;
    if Counts(noteLines[k]) {
      MaxMarginCoversNote(errorLine, noteLines, k);
    } else {
      MaxMarginCoversError(errorLine, noteLines);
    }
    if l < 0 {
      assert IntToString(0) == "0";
      assert |IntToString(l)| >= 1;
    } else if l == 0 {
      assert IntToString(0) == "0";
    }
  }

  /** The margin every printed row needs: `estimateMaxMargin` with every
      located note counted, a note at line 0 included. */
  function MaxMarginAllLocated(errorLine: Option<int>, noteLines: seq<Option<int>>): nat {
    if noteLines == [] then (if errorLine.Some? then |IntToString(errorLine.value)| else 0)
    else
      var before := MaxMarginAllLocated(errorLine, noteLines[..|noteLines| - 1]);
      var last := noteLines[|noteLines| - 1];
      if last.Some? then Max(before, |IntToString(last.value)|) else before
  }

  lemma {:induction false} AllLocatedCoversError(errorLine: Option<int>, noteLines: seq<Option<int>>)
    requires errorLine.Some?
    ensures |IntToString(errorLine.value)| <= MaxMarginAllLocated(errorLine, noteLines)
    decreases |noteLines|
  {
    if noteLines != [] {
      AllLocatedCoversError(errorLine, noteLines[..|noteLines| - 1]);
    }
  }

  lemma {:induction false} AllLocatedCoversNote(errorLine: Option<int>, noteLines: seq<Option<int>>, k: nat)
    requires k < |noteLines| && noteLines[k].Some?
    ensures |IntToString(noteLines[k].value)| <= MaxMarginAllLocated(errorLine, noteLines)
    decreases |noteLines|
  {
    var n := |noteLines|;
    if k < n - 1 {
      assert noteLines[..n - 1][k] == noteLines[k];
      AllLocatedCoversNote(errorLine, noteLines[..n - 1], k);
    }
  }

  /** A clamped line number is never wider than the line number itself. */
  lemma ClampedLineNoWider(line: int)
    ensures |IntToString(Max(line, 0))| <= |IntToString(line)|
  {
    if line < 0 {
      assert IntToString(0) == "0";
    }
  }

  /** With every located note counted, the clamped line of every printed row,
      the error's and each note's, fits the margin: `' '.repeat` never sees a
      negative count, and every row lines up. */
  lemma EveryPrintedRowFits(errorLine: Option<int>, noteLines: seq<Option<int>>)
    ensures var m := MaxMarginAllLocated(errorLine, noteLines);
      errorLine.Some? ==>
        MarginWithLineTextAsWritten(m, Max(errorLine.value, 0)) == Some(MarginWithLineText(m, Max(errorLine.value, 0)))
    ensures var m := MaxMarginAllLocated(errorLine, noteLines);
      forall k :: 0 <= k < |noteLines| && noteLines[k].Some? ==>
        MarginWithLineTextAsWritten(m, Max(noteLines[k].value, 0)) == Some(MarginWithLineText(m, Max(noteLines[k].value, 0)))
  {
    var m := MaxMarginAllLocated(errorLine, noteLines);
    if errorLine.Some? {
      AllLocatedCoversError(errorLine, noteLines);
      ClampedLineNoWider(errorLine.value);
      MarginsAlign(m, Max(errorLine.value, 0), true);
    }
    forall k | 0 <= k < |noteLines| && noteLines[k].Some?
      ensures MarginWithLineTextAsWritten(m, Max(noteLines[k].value, 0)) == Some(MarginWithLineText(m, Max(noteLines[k].value, 0)))
    {
      AllLocatedCoversNote(errorLine, noteLines, k);
      ClampedLineNoWider(noteLines[k].value);
      MarginsAlign(m, Max(noteLines[k].value, 0), true);
    }
  }

  /** Without a note at line 0 the corrected margin is the one estimated as
      written. */
  lemma {:induction false} AllLocatedAgreesWithoutZeroNotes(errorLine: Option<int>, noteLines: seq<Option<int>>)
    requires forall k :: 0 <= k < |noteLines| ==> noteLines[k] != Some(0)
    ensures MaxMarginAllLocated(errorLine, noteLines) == MaxMargin(errorLine, noteLines)
    decreases |noteLines|
  {
    if noteLines != [] {
      var n := |noteLines|;
      assert forall k :: 0 <= k < n - 1 ==> noteLines[..n - 1][k] == noteLines[k];
      AllLocatedAgreesWithoutZeroNotes(errorLine, noteLines[..n - 1]);
      assert noteLines[n - 1] != Some(0);
    }
  }
}
