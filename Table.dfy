/** The plain-text table of packages/common/src/table.ts. Cells are
    stringified, every column is as wide as its widest visible cell, cells
    are padded by alignment and joined by two spaces, and trailing whitespace
    is stripped from every row. The visible length of a cell is the length of
    the cell with its ANSI escape codes stripped; the stripping regular
    expression is a parameter `strip` here. */
module Table {
  import opened Strings

  /** `Align` */
  datatype Align = Left | Right | Center

  /** A matrix entry: a string or a number. */
  datatype Cell = Text(s: string) | Number(n: int)

  /** `COL_SEPARATOR` */
  const ColSeparator: string := "  "

  /** `${item}` */
  function Stringify(cell: Cell): (s: string)
    ensures cell.Text? ==> s == cell.s
    ensures cell.Number? && cell.n >= 0 ==> forall i :: 0 <= i < |s| ==> IsDigit(s[i])
  {
    match cell
    case Text(s) => s
    case Number(n) => IntToString(n)
  }

  function StringifyMatrix(matrix: seq<seq<Cell>>): (rows: seq<seq<string>>)
    ensures |rows| == |matrix|
    ensures forall r :: 0 <= r < |rows| ==> |rows[r]| == |matrix[r]|
  {
    seq(|matrix|, r requires 0 <= r < |matrix| =>
      seq(|matrix[r]|, c requires 0 <= c < |matrix[r]| => Stringify(matrix[r][c])))
  }

  /** The visible lengths of the cells of a row. */
  function Lengths(row: seq<string>, strip: string -> string): (lens: seq<nat>)
    ensures |lens| == |row|
    ensures forall c :: 0 <= c < |row| ==> lens[c] == |strip(row[c])|
  {
    seq(|row|, c requires 0 <= c < |row| => |strip(row[c])|)
  }

  /** One cell of the reduce: a column not reached yet is added, and a
      column whose width is 0 (falsy) or narrower than the cell takes the
      cell's length. */
  function Put(widths: seq<nat>, c: nat, length: nat): (r: seq<nat>)
    requires c <= |widths|
    ensures |r| == if c == |widths| then c + 1 else |widths|
  {
    if c == |widths| then widths + [length]
    else if widths[c] == 0 || length > widths[c] then widths[c := length]
    else widths
  }

  /** The widths after one more row, whose visible lengths are `lens`, is seen. */
  function Widen(widths: seq<nat>, lens: seq<nat>): (r: seq<nat>)
    ensures |r| == if |widths| >= |lens| then |widths| else |lens|
  {
    if lens == [] then widths
    else Put(Widen(widths, lens[..|lens| - 1]), |lens| - 1, lens[|lens| - 1])
  }

  /** The larger of the old width and the new length, where there are both. */
  function Larger(widths: seq<nat>, lens: seq<nat>, c: nat): nat
    requires c < |widths| || c < |lens|
  {
    if c < |widths| && c < |lens| then Max(widths[c], lens[c])
    else if c < |widths| then widths[c]
    else lens[c]
  }

  /** Seeing a row takes the larger width column by column. */
  lemma {:induction false} WidenIsLarger(widths: seq<nat>, lens: seq<nat>)
    ensures forall c :: 0 <= c < |Widen(widths, lens)| ==> Widen(widths, lens)[c] == Larger(widths, lens, c)
  {
    if lens != [] {
      var init := lens[..|lens| - 1];
      WidenIsLarger(widths, init);
      var before := Widen(widths, init);
      forall c | 0 <= c < |Widen(widths, lens)|
        ensures Widen(widths, lens)[c] == Larger(widths, lens, c)
      {
        if c < |lens| - 1 {
          assert before[c] == Larger(widths, init, c);
        } else if c > |lens| - 1 {
          assert before[c] == Larger(widths, init, c);
        }
      }
    }
  }

  /** `colWidths`: what the reduce over the rows computes. */
  function Widths(rows: seq<seq<string>>, strip: string -> string): seq<nat> {
    if rows == [] then []
    else Widen(Widths(rows[..|rows| - 1], strip), Lengths(rows[|rows| - 1], strip))
  }

  /** The widest row's length. */
  function MaxRowLength(rows: seq<seq<string>>): nat {
    if rows == [] then 0
    else Max(MaxRowLength(rows[..|rows| - 1]), |rows[|rows| - 1]|)
  }

  /** The reduce of `createTable`: the widths array starts empty and every
      cell of every row, in order, sets its column's width when the column
      has none yet, has width 0, or is narrower than the cell. */
  method ColumnWidths(rows: seq<seq<string>>, strip: string -> string) returns (widths: seq<nat>)
    ensures widths == Widths(rows, strip)
  {
    widths := [];
    for i := 0 to |rows|
      invariant widths == Widths(rows[..i], strip)
    {
      var row := rows[i];
      ghost var before := widths;
      ghost var lens := Lengths(row, strip);
      for c := 0 to |row|
        invariant widths == Widen(before, lens[..c])
      {
        var length := |strip(row[c])|;
        assert lens[..c + 1][..c] == lens[..c];
        if c >= |widths| {
          widths := widths + [length];
        } else if widths[c] == 0 || length > widths[c] {
          widths := widths[c := length];
        }
      }
      assert lens[..|row|] == lens;
      assert rows[..i + 1][..i] == rows[..i];
    }
    assert rows[..|rows|] == rows;
  }

  /** There are as many columns as the longest row has cells. */
  lemma {:induction false} WidthsCount(rows: seq<seq<string>>, strip: string -> string)
    ensures |Widths(rows, strip)| == MaxRowLength(rows)
  {
    if rows != [] {
      WidthsCount(rows[..|rows| - 1], strip);
    }
  }

  /** No cell is wider than its column. */
  lemma {:induction false} CellWithinWidth(rows: seq<seq<string>>, strip: string -> string, r: nat, c: nat)
    requires r < |rows| && c < |rows[r]|
    ensures c < |Widths(rows, strip)| && |strip(rows[r][c])| <= Widths(rows, strip)[c]
  {
    var init := rows[..|rows| - 1];
    var before := Widths(init, strip);
    var lens := Lengths(rows[|rows| - 1], strip);
    WidenIsLarger(before, lens);
    if r < |init| {
      assert rows[r] == init[r];
      CellWithinWidth(init, strip, r, c);
    }
    assert Widths(rows, strip)[c] == Larger(before, lens, c);
  }

  /** Every column is exactly as wide as some cell in it. */
  lemma {:induction false} WidthAttained(rows: seq<seq<string>>, strip: string -> string, c: nat)
    requires c < |Widths(rows, strip)|
    ensures exists r :: 0 <= r < |rows| && c < |rows[r]| && |strip(rows[r][c])| == Widths(rows, strip)[c]
  {
    var init := rows[..|rows| - 1];
    var last := rows[|rows| - 1];
    var before := Widths(init, strip);
    var lens := Lengths(last, strip);
    WidenIsLarger(before, lens);
    var w := Widths(rows, strip);
    assert w[c] == Larger(before, lens, c);
    if c < |before| && w[c] == before[c] {
      WidthAttained(init, strip, c);
      var r :| 0 <= r < |init| && c < |init[r]| && |strip(init[r][c])| == before[c];
      assert rows[r] == init[r];
    } else {
      assert |strip(rows[|rows| - 1][c])| == w[c];
    }
  }

  /** The cells of a row fit the widths. */
  predicate Fits(row: seq<string>, widths: seq<nat>, strip: string -> string) {
    |row| <= |widths| && forall c :: 0 <= c < |row| ==> |strip(row[c])| <= widths[c]
  }

  /** Every row fits the widths of its table. */
  lemma RowFits(rows: seq<seq<string>>, strip: string -> string, r: nat)
    requires r < |rows|
    ensures Fits(rows[r], Widths(rows, strip), strip)
  {
    var widths := Widths(rows, strip);
    var row := rows[r];
    if row != [] {
      CellWithinWidth(rows, strip, r, |row| - 1);
    }
    forall c | 0 <= c < |row|
      ensures |strip(row[c])| <= widths[c]
    {
      CellWithinWidth(rows, strip, r, c);
    }
  }

  lemma RowsFit(rows: seq<seq<string>>, strip: string -> string)
    ensures forall r :: 0 <= r < |rows| ==> Fits(rows[r], Widths(rows, strip), strip)
  {
    forall r | 0 <= r < |rows|
      ensures Fits(rows[r], Widths(rows, strip), strip)
    {
      RowFits(rows, strip, r);
    }
  }

  /** Where the cell text starts within a cell padded by `pad` spaces. */
  function Lead(pad: nat, align: Align): (lead: nat)
    ensures lead <= pad
  {
    match align
    case Left => 0
    case Right => pad
    case Center => (pad + 1) / 2
  }

  /** CENTER splits the padding evenly, the odd space going before the cell. */
  lemma CenterSplitsEvenly(pad: nat)
    ensures var before := Lead(pad, Center);
      before + (pad - before) == pad && (before == pad - before || before == pad - before + 1)
  {
  }

  /** One padded cell: `pad` spaces in all, after the cell for LEFT, before
      it for RIGHT, and the odd one before it for CENTER. (`Array(n + 1).join(' ')`
      is `n` spaces, `Math.ceil(n / 2 + 1)` is one more than the half rounded up
      and `(n >> 1) + 1` one more than the half rounded down.) */
  function PadCell(cell: string, pad: nat, align: Align): (r: string)
    ensures |r| == |cell| + pad
  {
    match align
    case Left => cell + Spaces(pad)
    case Right => Spaces(pad) + cell
    case Center => Spaces((pad + 1) / 2) + cell + Spaces(pad / 2)
  }

  lemma PadCellLayout(cell: string, pad: nat, align: Align)
    ensures var r := PadCell(cell, pad, align);
      && r[Lead(pad, align)..Lead(pad, align) + |cell|] == cell
      && (forall i :: 0 <= i < Lead(pad, align) ==> r[i] == ' ')
      && (forall i :: Lead(pad, align) + |cell| <= i < |r| ==> r[i] == ' ')
  {
  }

  /** Where the text of a padded cell sits. */
  lemma PadCellText(cell: string, pad: nat, align: Align)
    ensures PadCell(cell, pad, align)[Lead(pad, align)..Lead(pad, align) + |cell|] == cell
  {
    PadCellLayout(cell, pad, align);
  }

  /** A cell padded to `width` by its visible length. */
  function PadTo(cell: string, width: nat, strip: string -> string, align: Align): string
    requires |strip(cell)| <= width
  {
    PadCell(cell, width - |strip(cell)|, align)
  }

  /** `row.map(...)`: every cell padded by what its column has to spare. */
  function Padded(row: seq<string>, widths: seq<nat>, strip: string -> string, align: Align): (cells: seq<string>)
    requires Fits(row, widths, strip)
    ensures |cells| == |row|
  {
    if row == [] then []
    else
      var last := |row| - 1;
      Padded(row[..last], widths, strip, align) + [PadTo(row[last], widths[last], strip, align)]
  }

  /** Each cell is padded by what its column has to spare. */
  lemma {:induction false} PaddedAt(row: seq<string>, widths: seq<nat>, strip: string -> string, align: Align, c: nat)
    requires Fits(row, widths, strip) && c < |row|
    ensures Padded(row, widths, strip, align)[c] == PadCell(row[c], widths[c] - |strip(row[c])|, align)
  {
    var init := row[..|row| - 1];
    if c < |row| - 1 {
      var cell := PadCell(row[c], widths[c] - |strip(row[c])|, align);
      assert Fits(init, widths, strip) && Padded(row, widths, strip, align)[c] == Padded(init, widths, strip, align)[c] by {
        PaddedInit(row, widths, strip, align, c);
      }
      assert Padded(init, widths, strip, align)[c] == cell by {
        PaddedAt(init, widths, strip, align, c);
        assert init[c] == row[c];
      }
    } else {
      PaddedLast(row, widths, strip, align);
    }
  }

  /** The cells before the last are those of the row without its last cell. */
  lemma PaddedInit(row: seq<string>, widths: seq<nat>, strip: string -> string, align: Align, c: nat)
    requires Fits(row, widths, strip) && c < |row| - 1
    ensures Fits(row[..|row| - 1], widths, strip)
    ensures Padded(row, widths, strip, align)[c] == Padded(row[..|row| - 1], widths, strip, align)[c]
  {
  }

  /** The last cell is padded by what its column has to spare. */
  lemma PaddedLast(row: seq<string>, widths: seq<nat>, strip: string -> string, align: Align)
    requires Fits(row, widths, strip) && row != []
    ensures var last := |row| - 1;
      Padded(row, widths, strip, align)[last] == PadCell(row[last], widths[last] - |strip(row[last])|, align)
  {
  }

  /** JavaScript's `\s`: the characters `/\s+$/` strips. */
  predicate IsWhitespace(c: char) {
    c == '\t' || c == '\n' || c == '\U{000B}' || c == '\U{000C}' || c == '\r' || c == ' '
    || c == '\U{00A0}' || c == '\U{1680}' || ('\U{2000}' <= c <= '\U{200A}')
    || c == '\U{2028}' || c == '\U{2029}' || c == '\U{202F}' || c == '\U{205F}'
    || c == '\U{3000}' || c == '\U{FEFF}'
  }

  /** `.replace(/\s+$/, '')`: the longest prefix that does not end in whitespace. */
  function TrimEnd(s: string): (r: string)
    ensures |r| <= |s| && s[..|r|] == r
    ensures r == [] || !IsWhitespace(r[|r| - 1])
    ensures forall i :: |r| <= i < |s| ==> IsWhitespace(s[i])
  {
    if s != [] && IsWhitespace(s[|s| - 1]) then TrimEnd(s[..|s| - 1]) else s
  }

  /** One output line, before trimming. */
  function PaddedRow(row: seq<string>, widths: seq<nat>, strip: string -> string, align: Align): string
    requires Fits(row, widths, strip)
  {
    Join(Padded(row, widths, strip, align), ColSeparator)
  }

  function RenderRow(row: seq<string>, widths: seq<nat>, strip: string -> string, align: Align): string
    requires Fits(row, widths, strip)
  {
    TrimEnd(PaddedRow(row, widths, strip, align))
  }

  /** The text `createTable` returns for rows already stringified. */
  function TableText(rows: seq<seq<string>>, align: Align, strip: string -> string): string {
    var widths := Widths(rows, strip);
    RowsFit(rows, strip);
    Join(seq(|rows|, r requires 0 <= r < |rows| => RenderRow(rows[r], widths, strip, align)), "\n")
  }

  /** `createTable` */
  method CreateTable(matrix: seq<seq<Cell>>, align: Align, strip: string -> string) returns (text: string)
    ensures text == TableText(StringifyMatrix(matrix), align, strip)
  {
    var rows := StringifyMatrix(matrix);
    var widths := ColumnWidths(rows, strip);
    RowsFit(rows, strip);
    var lines := seq(|rows|, r requires 0 <= r < |rows| => RenderRow(rows[r], widths, strip, align));
    text := Join(lines, "\n");
  }

  /** `printTable`: with more than one row the header row is replaced, in
      place, by its underlined cells (`underline` stands for the colouring
      function); the text written is the table between two line feeds. */
  method PrintTable(matrix: array<seq<Cell>>, align: Align, strip: string -> string, underline: string -> string)
    returns (written: string)
    modifies matrix
    ensures matrix.Length > 1 ==> matrix[0] == Underlined(old(matrix[0]), underline)
    ensures matrix.Length > 1 ==> matrix[1..] == old(matrix[1..])
    ensures matrix.Length <= 1 ==> matrix[..] == old(matrix[..])
    ensures written == "\n" + TableText(StringifyMatrix(matrix[..]), align, strip) + "\n"
  {
    if matrix.Length > 1 {
      matrix[0] := Underlined(matrix[0], underline);
    }
    var table := CreateTable(matrix[..], align, strip);
    written := "\n" + table + "\n";
  }

  function Underlined(heads: seq<Cell>, underline: string -> string): (r: seq<Cell>)
    ensures |r| == |heads|
    ensures forall c :: 0 <= c < |r| ==> r[c] == Text(underline(Stringify(heads[c])))
  {
    seq(|heads|, c requires 0 <= c < |heads| => Text(underline(Stringify(heads[c]))))
  }

  /** Where column `c` starts in a padded row: the widths before it and two
      spaces after each of them. */
  function ColumnStart(widths: seq<nat>, c: nat): nat
    requires c <= |widths|
  {
    if c == 0 then 0 else ColumnStart(widths, c - 1) + widths[c - 1] + |ColSeparator|
  }

  /** A row whose cells carry no escape codes. */
  predicate Plain(row: seq<string>, strip: string -> string) {
    forall c :: 0 <= c < |row| ==> strip(row[c]) == row[c]
  }

  /** Cells as wide as their columns. */
  predicate AsWide(cells: seq<string>, widths: seq<nat>) {
    |cells| <= |widths| && forall i :: 0 <= i < |cells| ==> |cells[i]| == widths[i]
  }

  lemma {:induction false} JoinedWidth(cells: seq<string>, widths: seq<nat>, k: nat)
    requires AsWide(cells, widths)
    requires 1 <= k <= |cells|
    ensures |Join(cells[..k], ColSeparator)| == ColumnStart(widths, k) - |ColSeparator|
  {
    if k > 1 {
      JoinedWidth(cells, widths, k - 1);
      assert cells[..k][..k - 1] == cells[..k - 1];
    }
  }

  /** In a line of cells as wide as their columns, cell `c` starts at the
      column's start. */
  lemma {:induction false} CellAtColumnStart(cells: seq<string>, widths: seq<nat>, c: nat)
    requires AsWide(cells, widths) && c < |cells|
    ensures ColumnStart(widths, c) + widths[c] <= |Join(cells, ColSeparator)|
    ensures Join(cells, ColSeparator)[ColumnStart(widths, c)..ColumnStart(widths, c) + widths[c]] == cells[c]
  {
    var start := ColumnStart(widths, c);
    if |cells| == 1 {
      assert Join(cells, ColSeparator) == cells[0];
    } else {
      var init := cells[..|cells| - 1];
      var line := Join(cells, ColSeparator);
      JoinSnoc(cells, ColSeparator);
      assert line == Join(init, ColSeparator) + ColSeparator + cells[|cells| - 1];
      if c == |cells| - 1 {
        JoinedWidth(cells, widths, c);
        assert |Join(init, ColSeparator) + ColSeparator| == start;
      } else {
        assert AsWide(init, widths);
        CellAtColumnStart(init, widths, c);
        assert line[start..start + widths[c]] == Join(init, ColSeparator)[start..start + widths[c]];
      }
    }
  }

  lemma PlainCellsAsWide(row: seq<string>, widths: seq<nat>, strip: string -> string, align: Align)
    requires Fits(row, widths, strip) && Plain(row, strip)
    ensures AsWide(Padded(row, widths, strip, align), widths)
  {
    forall c | 0 <= c < |row|
      ensures |Padded(row, widths, strip, align)[c]| == widths[c]
    {
      PaddedAt(row, widths, strip, align, c);
    }
  }

  /** Columns line up: in a row of plain cells laid out on widths it fits
      (as every row of a table fits its `Widths`), the text of cell `c` sits
      at the left edge, the right edge or the middle of the stretch that
      starts at `ColumnStart(widths, c)`, which depends on the widths alone. */
  lemma CellInColumn(row: seq<string>, widths: seq<nat>, strip: string -> string, align: Align, c: nat)
    requires Fits(row, widths, strip) && Plain(row, strip) && c < |row|
    ensures ColumnStart(widths, c) + widths[c] <= |PaddedRow(row, widths, strip, align)|
    ensures TextAtOffset(PaddedRow(row, widths, strip, align), ColumnStart(widths, c) + Lead(widths[c] - |row[c]|, align), row[c])
  {
    var cells := Padded(row, widths, strip, align);
    var lead := Lead(widths[c] - |row[c]|, align);
    PlainCellsAsWide(row, widths, strip, align);
    PaddedCellText(row, widths, strip, align, c);
    TextAtColumn(PaddedRow(row, widths, strip, align), cells, widths, c, row[c], lead);
  }

  /** `text` occurs in `line` at offset `at`. */
  predicate TextAtOffset(line: string, at: nat, text: string) {
    at + |text| <= |line| && line[at..at + |text|] == text
  }

  /** Text at offset `lead` of cell `c` sits at `lead` past the column's start
      in the joined line. */
  lemma TextAtColumn(line: string, cells: seq<string>, widths: seq<nat>, c: nat, text: string, lead: nat)
    requires line == Join(cells, ColSeparator)
    requires AsWide(cells, widths) && c < |cells|
    requires lead + |text| <= |cells[c]| && cells[c][lead..lead + |text|] == text
    ensures ColumnStart(widths, c) + widths[c] <= |line|
    ensures TextAtOffset(line, ColumnStart(widths, c) + lead, text)
  {
    CellAtColumnStart(cells, widths, c);
    TextInColumn(line, text, cells[c], ColumnStart(widths, c), widths[c], lead);
  }

  lemma PaddedCellText(row: seq<string>, widths: seq<nat>, strip: string -> string, align: Align, c: nat)
    requires Fits(row, widths, strip) && Plain(row, strip) && c < |row|
    ensures var cell := Padded(row, widths, strip, align)[c];
      var lead := Lead(widths[c] - |row[c]|, align);
      lead + |row[c]| <= |cell| && cell[lead..lead + |row[c]|] == row[c]
  {
    PaddedCell(row, widths, strip, align, c);
    PadCellText(row[c], widths[c] - |row[c]|, align);
  }

  lemma TextInColumn(line: string, text: string, padded: string, start: nat, width: nat, lead: nat)
    requires start + width <= |line| && line[start..start + width] == padded
    requires lead + |text| <= |padded| && padded[lead..lead + |text|] == text
    ensures line[start + lead..start + lead + |text|] == text
  {
    SliceOfSlice(line, start, start + width, lead, lead + |text|);
  }

  lemma PaddedCell(row: seq<string>, widths: seq<nat>, strip: string -> string, align: Align, c: nat)
    requires Fits(row, widths, strip) && Plain(row, strip) && c < |row|
    ensures Padded(row, widths, strip, align)[c] == PadCell(row[c], widths[c] - |row[c]|, align)
  {
    PaddedAt(row, widths, strip, align, c);
    assert strip(row[c]) == row[c];
  }

  lemma SliceOfSlice(s: string, a: nat, b: nat, lo: nat, hi: nat)
    requires a <= b <= |s| && lo <= hi <= b - a
    ensures s[a..b][lo..hi] == s[a + lo..a + hi]
  {
    assert forall i :: 0 <= i < hi - lo ==> s[a..b][lo..hi][i] == s[a + lo + i];
  }

  /** No line of the table ends in whitespace, and trimming removes nothing else. */
  lemma RowHasNoTrailingWhitespace(row: seq<string>, widths: seq<nat>, strip: string -> string, align: Align)
    requires Fits(row, widths, strip)
    ensures var line := RenderRow(row, widths, strip, align);
      var padded := PaddedRow(row, widths, strip, align);
      && (line == [] || !IsWhitespace(line[|line| - 1]))
      && padded[..|line|] == line
      && forall i :: |line| <= i < |padded| ==> IsWhitespace(padded[i])
  {
  }

  /** Underlining the header leaves every width as it was when the escape
      codes the colouring adds are exactly what `strip` removes. */
  lemma {:induction false} UnderlineKeepsWidths(matrix: seq<seq<Cell>>, strip: string -> string, underline: string -> string)
    requires |matrix| > 1
    requires forall s :: strip(underline(s)) == strip(s)
    ensures Widths(StringifyMatrix([Underlined(matrix[0], underline)] + matrix[1..]), strip)
         == Widths(StringifyMatrix(matrix), strip)
  {
    var before := StringifyMatrix(matrix);
    var after := StringifyMatrix([Underlined(matrix[0], underline)] + matrix[1..]);
    assert Lengths(after[0], strip) == Lengths(before[0], strip);
    forall r | 1 <= r < |matrix|
      ensures after[r] == before[r]
    {
      assert ([Underlined(matrix[0], underline)] + matrix[1..])[r] == matrix[r];
    }
    SameLengthsSameWidths(after, before, strip);
  }

  lemma {:induction false} SameLengthsSameWidths(a: seq<seq<string>>, b: seq<seq<string>>, strip: string -> string)
    requires |a| == |b|
    requires forall r :: 0 <= r < |a| ==> Lengths(a[r], strip) == Lengths(b[r], strip)
    ensures Widths(a, strip) == Widths(b, strip)
  {
    if a != [] {
      SameLengthsSameWidths(a[..|a| - 1], b[..|b| - 1], strip);
    }
  }
}
