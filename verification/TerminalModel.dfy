/**
 The terminal screen as a value, and what each received character does to it.

 `Consume` returns None where the program raises ArrayIndexOutOfBoundsException. Characters are
 UTF-16 code units, numbers are 32-bit and wrap.
 */
module TerminalModel {
  import opened Numbers
  import opened Sequences
  import opened Utf16

  const MAX_INT := 0x7FFF_FFFF
  const MAX_SIDE := 0x4000_0000  // a larger screen cannot be allocated
  const MAX_SCROLLBACK := 2000
  const TAB_SIZE := 8
  const DEFAULT_FOREGROUND := 0xE8E3D8

  const SPACE: CodeUnit := 0x20
  const NEWLINE: CodeUnit := 0x0A
  const ESCAPE: CodeUnit := 0x1B
  const REPLACEMENT: CodeUnit := 0xFFFD
  const SEMICOLON: CodeUnit := 0x3B

  datatype Pen = Pen(foreground: int, ansiIndex: Option<int>, background: Option<int>,
                     bold: bool, underline: bool, reverse: bool)
  datatype Cell = Cell(character: CodeUnit, foreground: int, background: Option<int>,
                       bold: bool, underline: bool, reverse: bool)
  datatype Parser = InText | InEscape | InCsi | InOsc

  type Row = seq<Cell>

  const DEFAULT_PEN := Pen(DEFAULT_FOREGROUND, None, None, false, false, false)
  const BLANK := Cell(SPACE, DEFAULT_FOREGROUND, None, false, false, false)

  datatype Terminal = Terminal(
    columns: int, rows: int, parser: Parser, parameters: Text,
    column: int, row: int, savedColumn: int, savedRow: int,
    pen: Pen, visible: bool, highSurrogate: Option<CodeUnit>,
    grid: seq<Row>, scrollback: seq<Row>)

  predicate Int32(x: int) { -MAX_INT - 1 <= x <= MAX_INT }

  /** The grid always has `rows` rows of `columns` cells, whatever the cursor does. */
  ghost predicate Shaped(t: Terminal) {
    && 1 <= t.columns <= MAX_SIDE
    && 1 <= t.rows <= MAX_SIDE
    && |t.grid| == t.rows
    && (forall i :: 0 <= i < t.rows ==> |t.grid[i]| == t.columns)
    && |t.scrollback| <= MAX_SCROLLBACK
    && Int32(t.row) && Int32(t.column) && Int32(t.savedRow) && Int32(t.savedColumn)
  }

  ghost predicate SameShape(t: Terminal, u: Terminal) {
    Shaped(u) && u.columns == t.columns && u.rows == t.rows
  }

  predicate CursorInGrid(t: Terminal) {
    0 <= t.row < t.rows && 0 <= t.column <= t.columns
  }

  predicate SavedInGrid(t: Terminal) {
    0 <= t.savedRow < t.rows && 0 <= t.savedColumn <= t.columns
  }

  /** The value a 32-bit integer takes for `x`, the exact sum or difference of two of them. */
  function Wrap(x: int): int {
    if x > MAX_INT then x - 0x1_0000_0000 else if x < -MAX_INT - 1 then x + 0x1_0000_0000 else x
  }

  function TruncatedDiv(a: int, b: int): int
    requires b > 0
  {
    if a >= 0 then a / b else -((-a) / b)
  }

  function BlankRow(columns: int): (r: Row)
    requires columns >= 0
    ensures |r| == columns
  {
    seq(columns, _ => BLANK)
  }

  function BlankGrid(columns: int, rows: int): seq<Row>
    requires columns >= 0 && rows >= 0
  {
    seq(rows, _ => BlankRow(columns))
  }

  function Initial(columns: int, rows: int): (t: Terminal)
    requires 1 <= columns <= MAX_SIDE && 1 <= rows <= MAX_SIDE
    ensures Shaped(t)
  {
    Terminal(columns, rows, InText, [], 0, 0, 0, 0, DEFAULT_PEN, true, None, BlankGrid(columns, rows), [])
  }

  // ---- Scrolling and writing ----

  function PushScrollback(lines: seq<Row>, line: Row): seq<Row> {
    var longer := lines + [line];
    if |longer| > MAX_SCROLLBACK then longer[1..] else longer
  }

  function LineFeed(t: Terminal): (r: Terminal)
    requires Shaped(t)
    ensures SameShape(t, r)
  {
    if t.row == t.rows - 1 then
      t.(scrollback := PushScrollback(t.scrollback, t.grid[0]),
         grid := t.grid[1..] + [BlankRow(t.columns)])
    else
      t.(row := Wrap(t.row + 1))
  }

  function Drawn(pen: Pen, character: CodeUnit): Cell {
    var foreground := if pen.bold && pen.ansiIndex.Some? then AnsiColor(pen.ansiIndex.value, true)
                      else pen.foreground;
    Cell(character, foreground, pen.background, pen.bold, pen.underline, pen.reverse)
  }

  function Put(t: Terminal, character: CodeUnit): (r: Option<Terminal>)
    requires Shaped(t)
    ensures r.Some? ==> SameShape(t, r.value)
  {
    var u := if t.column >= t.columns then LineFeed(t.(column := 0)) else t;
    if 0 <= u.row < u.rows && 0 <= u.column then
      Some(u.(grid := u.grid[u.row := u.grid[u.row][u.column := Drawn(u.pen, character)]],
              column := u.column + 1))
    else None
  }

  // ---- Erasing and shifting ----

  /** `row` with the cells start..end blanked. */
  function Erased(row: Row, start: int, end: int): (r: Row)
    requires 0 <= start <= end <= |row|
    ensures |r| == |row|
  {
    row[..start] + BlankRow(end - start) + row[end..]
  }

  /** Blanks start..end of the cursor's row; an empty range touches nothing. */
  function EraseCells(t: Terminal, start: int, end: int): (r: Option<Terminal>)
    requires Shaped(t)
    ensures r.Some? ==> SameShape(t, r.value)
  {
    if start >= end then Some(t)
    else if 0 <= t.row < t.rows && 0 <= start && end <= t.columns then
      Some(t.(grid := t.grid[t.row := Erased(t.grid[t.row], start, end)]))
    else None
  }

  function EraseLine(t: Terminal, mode: int): (r: Option<Terminal>)
    requires Shaped(t)
    ensures r.Some? ==> SameShape(t, r.value)
  {
    EraseCells(t, if mode == 1 || mode == 2 then 0 else t.column,
                  if mode == 1 then t.column else t.columns)
  }

  function EraseCharacters(t: Terminal, count: int): (r: Option<Terminal>)
    requires Shaped(t)
    ensures r.Some? ==> SameShape(t, r.value)
  {
    EraseCells(t, t.column, Min(Wrap(t.column + count), t.columns))
  }

  /** Replaces the rows from..to by blank ones. */
  function BlankRows(grid: seq<Row>, columns: int, from: int, to: int): (r: seq<Row>)
    requires 0 <= from <= to <= |grid| && columns >= 0
    ensures |r| == |grid|
  {
    grid[..from] + BlankGrid(columns, to - from) + grid[to..]
  }

  function EraseDisplay(t: Terminal, mode: int): (r: Option<Terminal>)
    requires Shaped(t)
    ensures r.Some? ==> SameShape(t, r.value)
  {
    if mode == 2 then Some(t.(grid := BlankGrid(t.columns, t.rows)))
    else if mode == 0 then
      var u := EraseLine(t, 0);
      var next := Wrap(t.row + 1);
      if u.None? || next >= t.rows then u
      else if next < 0 then None
      else Some(u.value.(grid := BlankRows(u.value.grid, t.columns, next, t.rows)))
    else if mode == 1 then
      if t.row > t.rows then None
      else EraseLine(t.(grid := BlankRows(t.grid, t.columns, 0, Max(t.row, 0))), 1)
    else Some(t)
  }

  /** `s` with `n` copies of `blank` inserted at `at` and the last `n` items pushed out. */
  function Inserted<T>(s: seq<T>, at: int, n: int, blank: T): (r: seq<T>)
    requires 0 <= at && 0 <= n && at + n <= |s|
    ensures |r| == |s|
  {
    s[..at] + seq(n, _ => blank) + s[at..|s| - n]
  }

  /** `s` with `n` items removed at `at` and `n` copies of `blank` added at the end. */
  function Deleted<T>(s: seq<T>, at: int, n: int, blank: T): (r: seq<T>)
    requires 0 <= at && 0 <= n && at + n <= |s|
    ensures |r| == |s|
  {
    s[..at] + s[at + n..] + seq(n, _ => blank)
  }

  function InsertCharacters(t: Terminal, count: int): (r: Option<Terminal>)
    requires Shaped(t)
    ensures r.Some? ==> SameShape(t, r.value)
  {
    if t.column >= t.columns then Some(t)
    else if 0 <= t.column && 0 <= t.row < t.rows then
      var amount := Min(Max(count, 1), t.columns - t.column);
      Some(t.(grid := t.grid[t.row := Inserted(t.grid[t.row], t.column, amount, BLANK)]))
    else None
  }

  /** How many rows an insertion or deletion shifts; nothing happens when it is not positive. */
  function ShiftAmount(t: Terminal, count: int): int {
    Min(Max(count, 1), Wrap(t.rows - t.row))
  }

  function InsertLines(t: Terminal, count: int): (r: Option<Terminal>)
    requires Shaped(t)
    ensures r.Some? ==> SameShape(t, r.value)
  {
    var amount := ShiftAmount(t, count);
    if amount <= 0 then Some(t)
    else if 0 <= t.row < t.rows then Some(t.(grid := Inserted(t.grid, t.row, amount, BlankRow(t.columns))))
    else None
  }

  function DeleteLines(t: Terminal, count: int): (r: Option<Terminal>)
    requires Shaped(t)
    ensures r.Some? ==> SameShape(t, r.value)
  {
    var amount := ShiftAmount(t, count);
    if amount <= 0 then Some(t)
    else if 0 <= t.row < t.rows then Some(t.(grid := Deleted(t.grid, t.row, amount, BlankRow(t.columns))))
    else None
  }

  // ---- Control sequence parameters ----

  predicate AllDigits(s: Text) {
    forall i :: 0 <= i < |s| ==> 0x30 <= s[i] <= 0x39
  }

  function DigitsValue(digits: Text): int
    requires AllDigits(digits)
  {
    if digits == [] then 0
    else 10 * DigitsValue(digits[..|digits| - 1]) + (digits[|digits| - 1] as int) - 0x30
  }

  /** A signed decimal 32-bit number; None for anything else. */
  function ParseInt(s: Text): Option<int> {
    var signed := |s| > 1 && (s[0] == 0x2D || s[0] == 0x2B);
    var digits := if signed then s[1..] else s;
    if digits == [] || !AllDigits(digits) then None
    else
      var value := if signed && s[0] == 0x2D then -DigitsValue(digits) else DigitsValue(digits);
      if Int32(value) then Some(value) else None
  }

  function WithoutPrefix(s: Text, prefix: CodeUnit): Text {
    if s != [] && s[0] == prefix then s[1..] else s
  }

  predicate AllInt32(values: seq<int>) {
    forall i :: 0 <= i < |values| ==> Int32(values[i])
  }

  /** The numbers of a parameter string; a missing or unreadable one is 0. */
  function Values(raw: Text): (values: seq<int>)
    ensures |values| >= 1
    ensures AllInt32(values)
  {
    var fields := Split(WithoutPrefix(WithoutPrefix(raw, 0x3F), 0x3E), SEMICOLON);
    seq(|fields|, i requires 0 <= i < |fields| =>
          var v := ParseInt(fields[i]); if v.None? then 0 else v.value)
  }

  function ValueOr(values: seq<int>, index: nat, default: int): int {
    var v := if index < |values| then values[index] else 0;
    if v == 0 then default else v
  }

  // ---- Graphic rendition ----

  function AnsiColor(index: int, bright: bool): int {
    var colors := if bright then
                    [0x555555, 0xFF5555, 0x55FF55, 0xFFFF55, 0x5555FF, 0xFF55FF, 0x55FFFF, 0xFFFFFF]
                  else
                    [0x000000, 0xAA0000, 0x00AA00, 0xAA5500, 0x0000AA, 0xAA00AA, 0x00AAAA, 0xAAAAAA];
    colors[Clamp(index, 0, 7)]
  }

  function Rgb(r: int, g: int, b: int): int { r * 0x1_0000 + g * 0x100 + b }

  function Channel(component: int): int { if component == 0 then 0 else 55 + component * 40 }

  function Ansi256Color(value: int): int {
    if value < 16 then AnsiColor(if value < 0 then -(-value % 8) else value % 8, value >= 8)
    else if 232 <= value <= 255 then var gray := 8 + (value - 232) * 10; Rgb(gray, gray, gray)
    else
      var color := value - 16;
      Rgb(Channel(color / 36 % 6), Channel(color / 6 % 6), Channel(color % 6))
  }

  /** An extended colour at `index`: the colour, if any, and how many extra codes it used. */
  function ExtendedColor(codes: seq<int>, index: nat): (r: (Option<int>, nat)) {
    if index + 1 < |codes| && codes[index + 1] == 5 then
      (if index + 2 < |codes| then Some(Ansi256Color(codes[index + 2])) else None, 2)
    else if index + 4 < |codes| && codes[index + 1] == 2 then
      (Some(Rgb(Clamp(codes[index + 2], 0, 255), Clamp(codes[index + 3], 0, 255),
                Clamp(codes[index + 4], 0, 255))), 4)
    else (None, 0)
  }

  /** The pen after the code at `index`, and the index of the next code. */
  function SgrStep(codes: seq<int>, index: nat, pen: Pen): (r: (Pen, nat))
    requires index < |codes|
    ensures r.1 > index
  {
    var code := codes[index];
    if code == 38 || code == 48 then
      var (color, used) := ExtendedColor(codes, index);
      var next := if color.None? then pen
                  else if code == 48 then pen.(background := color)
                  else pen.(foreground := color.value, ansiIndex := None);
      (next, index + used + 1)
    else
      (if code == 0 then DEFAULT_PEN
       else if code == 1 then pen.(bold := true)
       else if code == 22 then pen.(bold := false)
       else if code == 4 then pen.(underline := true)
       else if code == 24 then pen.(underline := false)
       else if code == 7 then pen.(reverse := true)
       else if code == 27 then pen.(reverse := false)
       else if code == 39 then pen.(foreground := DEFAULT_FOREGROUND, ansiIndex := None)
       else if code == 49 then pen.(background := None)
       else if 30 <= code <= 37 then pen.(foreground := AnsiColor(code - 30, false), ansiIndex := Some(code - 30))
       else if 90 <= code <= 97 then pen.(foreground := AnsiColor(code - 90, true), ansiIndex := None)
       else if 40 <= code <= 47 then pen.(background := Some(AnsiColor(code - 40, false)))
       else if 100 <= code <= 107 then pen.(background := Some(AnsiColor(code - 100, true)))
       else pen, index + 1)
  }

  function Sgr(codes: seq<int>, index: nat, pen: Pen): Pen
    decreases |codes| - index
  {
    if index >= |codes| then pen
    else var (next, after) := SgrStep(codes, index, pen); Sgr(codes, after, next)
  }

  // ---- Characters and control sequences ----

  predicate IsPrintable(c: CodeUnit) {
    (0x20 <= c <= 0x7E || 0xA0 <= c) && !IsHighSurrogate(c) && !IsLowSurrogate(c)
  }

  datatype Cursor = Cursor(row: int, column: int)

  /** The sequences that move the cursor; None for any other. */
  function MoveCursor(columns: int, rows: int, at: Cursor, saved: Cursor, final: CodeUnit, values: seq<int>):
    (r: Option<Cursor>)
  {
    var n := ValueOr(values, 0, 1);
    if final == 0x41 then Some(at.(row := Max(Wrap(at.row - n), 0)))                                 // A
    else if final == 0x42 || final == 0x65 then Some(at.(row := Min(Wrap(at.row + n), rows - 1)))    // B, e
    else if final == 0x43 || final == 0x61 then Some(at.(column := Min(Wrap(at.column + n), columns - 1)))  // C, a
    else if final == 0x44 then Some(at.(column := Max(Wrap(at.column - n), 0)))                      // D
    else if final == 0x47 || final == 0x60 then Some(at.(column := Clamp(Wrap(n - 1), 0, columns - 1)))  // G, `
    else if final == 0x64 then Some(at.(row := Clamp(Wrap(n - 1), 0, rows - 1)))                     // d
    else if final == 0x48 || final == 0x66 then                                                      // H, f
      Some(Cursor(Clamp(Wrap(n - 1), 0, rows - 1), Clamp(Wrap(ValueOr(values, 1, 1) - 1), 0, columns - 1)))
    else if final == 0x75 then                                                                       // u
      Some(Cursor(Clamp(saved.row, 0, rows - 1), Clamp(saved.column, 0, columns - 1)))
    else None
  }

  lemma MoveCursorInt32(t: Terminal, final: CodeUnit, values: seq<int>)
    requires Shaped(t) && AllInt32(values)
    ensures var r := MovedCursor(t, final, values);
            r.Some? ==> Int32(r.value.row) && Int32(r.value.column)
  {
  }

  function MovedCursor(t: Terminal, final: CodeUnit, values: seq<int>): Option<Cursor> {
    MoveCursor(t.columns, t.rows, Cursor(t.row, t.column), Cursor(t.savedRow, t.savedColumn), final, values)
  }

  /** The sequences that change cells; any other leaves the terminal as it is. */
  function EditGrid(t: Terminal, final: CodeUnit, values: seq<int>): (r: Option<Terminal>)
    requires Shaped(t)
    ensures r.Some? ==> SameShape(t, r.value)
  {
    var n := ValueOr(values, 0, 1);
    var mode := ValueOr(values, 0, 0);
    if final == 0x4A then EraseDisplay(t, mode)             // J
    else if final == 0x4B then EraseLine(t, mode)           // K
    else if final == 0x50 then EraseCharacters(t, n)        // P
    else if final == 0x40 then InsertCharacters(t, n)       // @
    else if final == 0x4C then InsertLines(t, n)            // L
    else if final == 0x4D then DeleteLines(t, n)            // M
    else Some(t)
  }

  function SgrCodes(values: seq<int>): seq<int> {
    if forall v <- values :: v == 0 then [0] else values
  }

  function HandleCsi(t: Terminal, final: CodeUnit, raw: Text): (r: Option<Terminal>)
    requires Shaped(t)
    ensures r.Some? ==> SameShape(t, r.value)
  {
    var values := Values(raw);
    var move := MovedCursor(t, final, values);
    MoveCursorInt32(t, final, values);
    if move.Some? then Some(t.(row := move.value.row, column := move.value.column))
    else if final == 0x6D then Some(t.(pen := Sgr(SgrCodes(values), 0, t.pen)))        // m
    else if final == 0x68 || final == 0x6C then                                        // h, l
      Some(if raw != [] && raw[0] == 0x3F && values[0] == 25 then t.(visible := final == 0x68) else t)
    else if final == 0x73 then Some(t.(savedColumn := t.column, savedRow := t.row))    // s
    else EditGrid(t, final, values)
  }

  function ConsumeText(t: Terminal, c: CodeUnit): (r: Option<Terminal>)
    requires Shaped(t)
    ensures r.Some? ==> SameShape(t, r.value)
  {
    if c == ESCAPE then Some(t.(parser := InEscape))
    else if c == 0x9B then Some(t.(parameters := [], parser := InCsi))
    else if c == NEWLINE then Some(LineFeed(t.(column := 0)))
    else if c == 0x0D then Some(t.(column := 0))
    else if c == 0x08 then Some(t.(column := Max(Wrap(t.column - 1), 0)))
    else if c == 0x09 then
      Some(t.(column := Min(Wrap((TruncatedDiv(t.column, TAB_SIZE) + 1) * TAB_SIZE), t.columns - 1)))
    else if IsPrintable(c) then Put(t, c)
    else Some(t)
  }

  function ConsumeEscape(t: Terminal, c: CodeUnit): (r: Terminal)
    requires Shaped(t)
    ensures SameShape(t, r)
  {
    if c == 0x5B then t.(parameters := [], parser := InCsi)                             // [
    else if c == 0x5D then t.(parser := InOsc)                                          // ]
    else if c == 0x37 then t.(savedColumn := t.column, savedRow := t.row, parser := InText)   // 7
    else if c == 0x38 then t.(column := t.savedColumn, row := t.savedRow, parser := InText)   // 8
    else if c == 0x44 then LineFeed(t).(parser := InText)                               // D
    else if c == 0x4D then t.(row := if t.row > 0 then t.row - 1 else t.row, parser := InText)  // M
    else if c == 0x63 then Initial(t.columns, t.rows)                                   // c
    else t.(parser := InText)
  }

  function ConsumeCsi(t: Terminal, c: CodeUnit): (r: Option<Terminal>)
    requires Shaped(t)
    ensures r.Some? ==> SameShape(t, r.value)
  {
    if 0x40 <= c <= 0x7E then
      var r := HandleCsi(t, c, t.parameters);
      if r.None? then None else Some(r.value.(parameters := [], parser := InText))
    else if 0x20 <= c <= 0x3F then Some(t.(parameters := t.parameters + [c]))
    else Some(t.(parser := InText))
  }

  function ConsumeOsc(t: Terminal, c: CodeUnit): (r: Terminal) {
    if c == 0x07 then t.(parser := InText) else if c == ESCAPE then t.(parser := InEscape) else t
  }

  function ConsumeSurrogate(t: Terminal, c: CodeUnit): (r: Option<Terminal>)
    requires Shaped(t)
    ensures r.Some? ==> SameShape(t, r.value)
  {
    if t.highSurrogate.Some? && IsLowSurrogate(c) then Put(t.(highSurrogate := None), REPLACEMENT)
    else Some(t.(highSurrogate := if IsHighSurrogate(c) then Some(c) else None))
  }

  /** What one received code unit does. */
  function Consume(t: Terminal, c: CodeUnit): (r: Option<Terminal>)
    requires Shaped(t)
    ensures r.Some? ==> SameShape(t, r.value)
  {
    if IsHighSurrogate(c) || IsLowSurrogate(c) then ConsumeSurrogate(t, c)
    else
      var u := t.(highSurrogate := None);
      match u.parser
      case InText => ConsumeText(u, c)
      case InEscape => Some(ConsumeEscape(u, c))
      case InCsi => ConsumeCsi(u, c)
      case InOsc => Some(ConsumeOsc(u, c))
  }

  /** Feeding a whole text, one code unit after another. */
  function Run(t: Terminal, text: Text): (r: Option<Terminal>)
    requires Shaped(t)
    ensures r.Some? ==> SameShape(t, r.value)
    decreases |text|
  {
    if text == [] then Some(t)
    else
      var next := Run(t, text[..|text| - 1]);
      if next.None? then None else Consume(next.value, text[|text| - 1])
  }

  /** The overlap of the old grid with a grid of the new size; the saved position is kept as it was. */
  function Resize(t: Terminal, newColumns: int, newRows: int): (r: Terminal)
    requires Shaped(t)
    ensures Shaped(r)
  {
    var columns, rows := Clamp(newColumns, 20, 240), Clamp(newRows, 4, 400);
    if columns == t.columns && rows == t.rows then t
    else
      t.(columns := columns, rows := rows,
         grid := ResizedGrid(t, columns, rows),
         column := Min(t.column, columns - 1), row := Min(t.row, rows - 1))
  }

  function ResizedGrid(t: Terminal, columns: int, rows: int): (g: seq<Row>)
    requires Shaped(t) && rows >= 0 && columns >= 0
    ensures |g| == rows && forall i :: 0 <= i < rows ==> g[i] == ResizedRow(t, i, columns)
  {
    seq(rows, i requires 0 <= i < rows => ResizedRow(t, i, columns))
  }

  function ResizedRow(t: Terminal, row: int, columns: int): (r: Row)
    requires Shaped(t) && row >= 0 && columns >= 0
    ensures |r| == columns
  {
    seq(columns, j requires 0 <= j < columns =>
          if row < t.rows && j < t.columns then t.grid[row][j] else BLANK)
  }
}
