/**
 Plain text on a reset terminal: the screen and its history are the layout of the text.

 The layout is a pure function of the whole text: split it into lines, cut each line into rows of
 the screen's width, pad the last row of each line with blanks. A line that exactly fills its rows
 does not open another one (the wrap is deferred).
 */
module TerminalLayout {
  import opened Numbers
  import opened Sequences
  import opened Utf16
  import opened TerminalModel

  predicate IsPlain(text: Text) {
    forall i :: 0 <= i < |text| ==> text[i] == NEWLINE || IsPrintable(text[i])
  }

  function PlainCell(c: CodeUnit): Cell { BLANK.(character := c) }

  function PaddedRow(chunk: Text, columns: int): (r: Row)
    requires |chunk| <= columns
    ensures |r| == columns
  {
    seq(columns, j requires 0 <= j < columns => if j < |chunk| then PlainCell(chunk[j]) else BLANK)
  }

  function LineRows(line: Text, columns: int): (rows: seq<Row>)
    requires columns >= 1
    ensures |rows| >= 1
    ensures forall i :: 0 <= i < |rows| ==> |rows[i]| == columns
    decreases |line|
  {
    if |line| <= columns then [PaddedRow(line, columns)]
    else [PaddedRow(line[..columns], columns)] + LineRows(line[columns..], columns)
  }

  /** How many cells of a line's last row are written. */
  function LastWidth(line: Text, columns: int): (w: int)
    requires columns >= 1
    ensures 0 <= w <= columns
    decreases |line|
  {
    if |line| <= columns then |line| else LastWidth(line[columns..], columns)
  }

  function LinesRows(lines: seq<Text>, columns: int): seq<Row>
    requires columns >= 1
  {
    if lines == [] then []
    else LinesRows(lines[..|lines| - 1], columns) + LineRows(lines[|lines| - 1], columns)
  }

  function Layout(text: Text, columns: int): seq<Row>
    requires columns >= 1
  {
    LinesRows(Split(text, NEWLINE), columns)
  }

  function LastLine(text: Text): Text {
    var lines := Split(text, NEWLINE);
    lines[|lines| - 1]
  }

  // ---- The layout grows at its end ----

  /** `rows` with one more character after the `w` written cells of the last row. */
  function WithCharacter(rows: seq<Row>, w: int, columns: int, c: CodeUnit): seq<Row>
    requires |rows| >= 1 && columns >= 1 && 0 <= w <= columns
    requires |rows[|rows| - 1]| == columns
  {
    if w == columns then rows + [BlankRow(columns)[0 := PlainCell(c)]]
    else rows[..|rows| - 1] + [rows[|rows| - 1][w := PlainCell(c)]]
  }

  lemma {:induction false} LineRowsSnoc(line: Text, c: CodeUnit, columns: int)
    requires columns >= 1
    ensures LineRows(line + [c], columns) ==
            WithCharacter(LineRows(line, columns), LastWidth(line, columns), columns, c)
    ensures LastWidth(line + [c], columns) ==
            if LastWidth(line, columns) == columns then 1 else LastWidth(line, columns) + 1
    decreases |line|
  {
    var longer := line + [c];
    if |line| < columns {
      assert PaddedRow(longer, columns) == PaddedRow(line, columns)[|line| := PlainCell(c)];
    } else if |line| == columns {
      assert longer[..columns] == line && longer[columns..] == [c];
      assert PaddedRow([c], columns) == BlankRow(columns)[0 := PlainCell(c)];
    } else {
      LineRowsSnoc(line[columns..], c, columns);
      assert longer[..columns] == line[..columns];
      assert longer[columns..] == line[columns..] + [c];
    }
  }

  lemma LinesRowsSnoc(lines: seq<Text>, last: Text, columns: int)
    requires columns >= 1
    ensures LinesRows(lines + [last], columns) == LinesRows(lines, columns) + LineRows(last, columns)
  {
    assert (lines + [last])[..|lines|] == lines;
  }

  /** The layout is the rows of the earlier lines, then those of the last line. */
  lemma LayoutParts(text: Text, columns: int) returns (before: seq<Row>)
    requires columns >= 1
    ensures Layout(text, columns) == before + LineRows(LastLine(text), columns)
    ensures forall last: Text :: LinesRows(WithLast(Split(text, NEWLINE), last), columns) ==
                                 before + LineRows(last, columns)
  {
    var lines := Split(text, NEWLINE);
    var front := lines[..|lines| - 1];
    before := LinesRows(front, columns);
    forall last: Text
      ensures LinesRows(WithLast(lines, last), columns) == before + LineRows(last, columns)
    {
      LinesRowsSnoc(front, last, columns);
    }
  }

  lemma LayoutNewline(text: Text, columns: int)
    requires columns >= 1
    ensures Layout(text + [NEWLINE], columns) == Layout(text, columns) + [BlankRow(columns)]
    ensures LastLine(text + [NEWLINE]) == []
  {
    hide LinesRows, Split;
    SplitSnoc(text, NEWLINE, NEWLINE);
    LinesRowsSnoc(Split(text, NEWLINE), [], columns);
    assert PaddedRow([], columns) == BlankRow(columns);
  }

  lemma LayoutCharacter(text: Text, c: CodeUnit, columns: int)
    requires columns >= 1 && c != NEWLINE
    ensures Layout(text, columns) != [] && |Layout(text, columns)[|Layout(text, columns)| - 1]| == columns
    ensures Layout(text + [c], columns) ==
            WithCharacter(Layout(text, columns), LastWidth(LastLine(text), columns), columns, c)
    ensures LastLine(text + [c]) == LastLine(text) + [c]
  {
    hide LinesRows, Split, LineRows, LastWidth;
    var before := LayoutParts(text, columns);
    var last := LastLine(text);
    SplitSnoc(text, c, NEWLINE);
    LineRowsSnoc(last, c, columns);
    WithCharacterAfter(before, LineRows(last, columns), LastWidth(last, columns), columns, c);
  }

  lemma WithCharacterAfter(before: seq<Row>, rows: seq<Row>, w: int, columns: int, c: CodeUnit)
    requires |rows| >= 1 && columns >= 1 && 0 <= w <= columns && |rows[|rows| - 1]| == columns
    ensures WithCharacter(before + rows, w, columns, c) == before + WithCharacter(rows, w, columns, c)
  {
  }

  // ---- The terminal follows the layout ----

  /** The last `n` items of `s`, or all of them. */
  function Last<T>(s: seq<T>, n: nat): seq<T> {
    if |s| <= n then s else s[|s| - n..]
  }

  /** The terminal shows `layout`, with `width` cells written on its last row. */
  ghost predicate Shows(t: Terminal, layout: seq<Row>, width: int) {
    var kept := Min(|layout|, t.rows);
    && Shaped(t)
    && layout != []
    && t.parser == InText && t.highSurrogate == None && t.pen == DEFAULT_PEN
    && t.row == kept - 1
    && t.column == width && 0 <= width <= t.columns
    && t.grid == Last(layout, t.rows) + BlankGrid(t.columns, t.rows - kept)
    && t.scrollback == Last(layout[..|layout| - kept], MAX_SCROLLBACK)
  }

  lemma LastSnoc<T>(s: seq<T>, x: T, n: nat)
    requires n >= 1
    ensures Last(s + [x], n) == (if |s| < n then s else Last(s, n)[1..]) + [x]
  {
  }

  lemma LineFeedScrolls(t: Terminal, layout: seq<Row>, width: int)
    requires Shows(t, layout, width) && |layout| >= t.rows
    ensures Shows(LineFeed(t.(column := 0)), layout + [BlankRow(t.columns)], 0)
  {
    var u := LineFeed(t.(column := 0));
    var blank := BlankRow(t.columns);
    var longer := layout + [blank];
    var hidden := |layout| - t.rows;
    assert t.grid == Last(layout, t.rows);
    LastSnoc(layout, blank, t.rows);
    assert u.grid == Last(longer, t.rows) + BlankGrid(t.columns, 0);
    assert longer[..hidden + 1] == layout[..hidden] + [t.grid[0]];
    LastSnoc(layout[..hidden], t.grid[0], MAX_SCROLLBACK);
    assert u.scrollback == Last(longer[..hidden + 1], MAX_SCROLLBACK);
  }

  lemma LineFeedAdvances(t: Terminal, layout: seq<Row>, width: int)
    requires Shows(t, layout, width) && |layout| < t.rows
    ensures Shows(LineFeed(t.(column := 0)), layout + [BlankRow(t.columns)], 0)
  {
    var longer := layout + [BlankRow(t.columns)];
    var below := t.rows - |layout|;
    assert BlankGrid(t.columns, below) == [BlankRow(t.columns)] + BlankGrid(t.columns, below - 1);
    assert t.grid == longer + BlankGrid(t.columns, below - 1);
    assert longer[..0] == layout[..0];
  }

  lemma LineFeedShows(t: Terminal, layout: seq<Row>, width: int)
    requires Shows(t, layout, width)
    ensures Shows(LineFeed(t.(column := 0)), layout + [BlankRow(t.columns)], 0)
  {
    if |layout| >= t.rows {
      LineFeedScrolls(t, layout, width);
    } else {
      LineFeedAdvances(t, layout, width);
    }
  }

  lemma LastEnds<T>(s: seq<T>, n: nat)
    requires s != [] && n >= 1
    ensures |Last(s, n)| == Min(|s|, n) && Last(s, n)[Min(|s|, n) - 1] == s[|s| - 1]
  {
  }

  lemma WriteShows(t: Terminal, layout: seq<Row>, width: int, c: CodeUnit)
    requires Shows(t, layout, width) && width < t.columns && |layout[|layout| - 1]| == t.columns
    ensures Put(t, c).Some? &&
            Shows(Put(t, c).value, WithCharacter(layout, width, t.columns, c), width + 1)
  {
    var u := Put(t, c).value;
    var longer := WithCharacter(layout, width, t.columns, c);
    var kept := Min(|layout|, t.rows);
    LastEnds(layout, t.rows);
    assert t.grid[t.row] == Last(layout, t.rows)[kept - 1];
    assert Last(longer, t.rows) == Last(layout, t.rows)[kept - 1 := longer[|layout| - 1]];
    assert longer[..|layout| - kept] == layout[..|layout| - kept];
  }

  lemma PutShows(t: Terminal, layout: seq<Row>, width: int, c: CodeUnit)
    requires Shows(t, layout, width) && |layout[|layout| - 1]| == t.columns
    ensures Put(t, c).Some? &&
            Shows(Put(t, c).value, WithCharacter(layout, width, t.columns, c),
                  if width == t.columns then 1 else width + 1)
  {
    if width < t.columns {
      WriteShows(t, layout, width, c);
    } else {
      LineFeedShows(t, layout, width);
      var longer := layout + [BlankRow(t.columns)];
      var u := LineFeed(t.(column := 0));
      WriteShows(u, longer, 0, c);
      assert Put(t, c) == Put(u, c);
      assert WithCharacter(layout, width, t.columns, c) == WithCharacter(longer, 0, t.columns, c);
    }
  }

  lemma ConsumePlain(t: Terminal, c: CodeUnit)
    requires Shaped(t) && t.parser == InText && t.highSurrogate == None
    ensures c == NEWLINE ==> Consume(t, c) == Some(LineFeed(t.(column := 0)))
    ensures IsPrintable(c) ==> Consume(t, c) == Put(t, c)
  {
    assert t.(highSurrogate := None) == t;
  }

  lemma NewlineShows(t: Terminal, before: Text)
    requires t.columns >= 1
    requires Shows(t, Layout(before, t.columns), LastWidth(LastLine(before), t.columns))
    ensures var u := LineFeed(t.(column := 0));
            u.columns == t.columns &&
            Shows(u, Layout(before + [NEWLINE], t.columns), LastWidth(LastLine(before + [NEWLINE]), t.columns))
  {
    LayoutNewline(before, t.columns);
    LineFeedShows(t, Layout(before, t.columns), LastWidth(LastLine(before), t.columns));
  }

  lemma CharacterShows(t: Terminal, before: Text, c: CodeUnit)
    requires t.columns >= 1 && IsPrintable(c)
    requires Shows(t, Layout(before, t.columns), LastWidth(LastLine(before), t.columns))
    ensures Put(t, c).Some? && Put(t, c).value.columns == t.columns
    ensures Shows(Put(t, c).value, Layout(before + [c], t.columns),
                  LastWidth(LastLine(before + [c]), t.columns))
  {
    LayoutCharacter(before, c, t.columns);
    LineRowsSnoc(LastLine(before), c, t.columns);
    PutShows(t, Layout(before, t.columns), LastWidth(LastLine(before), t.columns), c);
  }

  lemma LayoutOfNothing(columns: int)
    requires columns >= 1
    ensures Layout([], columns) == [BlankRow(columns)] && LastLine([]) == []
  {
    var lines: seq<Text> := Split([], NEWLINE);
    assert lines == [] + [[]];
    LinesRowsSnoc([], [], columns);
    assert PaddedRow([], columns) == BlankRow(columns);
  }

  lemma InitialShows(columns: int, rows: int)
    requires 1 <= columns <= MAX_SIDE && 1 <= rows <= MAX_SIDE
    ensures LastWidth(LastLine([]), columns) == 0
    ensures Shows(Initial(columns, rows), Layout([], columns), 0)
  {
    hide Layout, LastLine;
    LayoutOfNothing(columns);
    assert BlankGrid(columns, rows) == [BlankRow(columns)] + BlankGrid(columns, rows - 1);
  }

  lemma ConsumeShows(t: Terminal, before: Text, c: CodeUnit)
    requires t.columns >= 1 && (c == NEWLINE || IsPrintable(c))
    requires Shows(t, Layout(before, t.columns), LastWidth(LastLine(before), t.columns))
    ensures Consume(t, c).Some? && Consume(t, c).value.columns == t.columns
    ensures Shows(Consume(t, c).value, Layout(before + [c], t.columns),
                  LastWidth(LastLine(before + [c]), t.columns))
  {
    ConsumePlain(t, c);
    if c == NEWLINE {
      NewlineShows(t, before);
    } else {
      CharacterShows(t, before, c);
    }
  }

  lemma {:induction false} RunShowsLayout(columns: int, rows: int, text: Text)
    requires 1 <= columns <= MAX_SIDE && 1 <= rows <= MAX_SIDE && IsPlain(text)
    ensures var r := Run(Initial(columns, rows), text);
            && r.Some? && Shows(r.value, Layout(text, columns), LastWidth(LastLine(text), columns))
    decreases |text|
  {
    hide Layout, LastWidth, LastLine, Shows, Consume;
    if text == [] {
      InitialShows(columns, rows);
    } else {
      var before, c := text[..|text| - 1], text[|text| - 1];
      RunShowsLayout(columns, rows, before);
      assert text == before + [c];
      ConsumeShows(Run(Initial(columns, rows), before).value, before, c);
    }
  }

  /**
   Scrollback followed by the screen down to the cursor is the layout of the text, less the oldest
   rows beyond the scrollback limit; the rows below the cursor are blank, and the cursor stands
   after the last character written.
   */
  lemma PlainTextLayout(columns: int, rows: int, text: Text)
    requires 1 <= columns <= MAX_SIDE && 1 <= rows <= MAX_SIDE && IsPlain(text)
    ensures Run(Initial(columns, rows), text).Some?
    ensures var t := Run(Initial(columns, rows), text).value;
            var layout := Layout(text, columns);
            && 0 <= t.row < rows
            && t.scrollback + t.grid[..t.row + 1] == Last(layout, rows + MAX_SCROLLBACK)
            && t.row == Min(|layout|, rows) - 1
            && (forall i :: t.row < i < rows ==> t.grid[i] == BlankRow(columns))
            && t.column == LastWidth(LastLine(text), columns)
  {
    RunShowsLayout(columns, rows, text);
    ShowsAll(Run(Initial(columns, rows), text).value, Layout(text, columns), LastWidth(LastLine(text), columns));
  }

  lemma ShowsAll(t: Terminal, layout: seq<Row>, width: int)
    requires Shows(t, layout, width)
    ensures t.scrollback + t.grid[..t.row + 1] == Last(layout, t.rows + MAX_SCROLLBACK)
    ensures forall i :: t.row < i < t.rows ==> t.grid[i] == BlankRow(t.columns)
  {
    var kept := Min(|layout|, t.rows);
    assert t.grid[..t.row + 1] == Last(layout, t.rows);
    assert layout == layout[..|layout| - kept] + Last(layout, t.rows);
  }
}
