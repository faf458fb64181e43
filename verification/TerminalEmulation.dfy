/**
 The terminal emulator with its row arrays updated and shifted in place.

 Every method is proved against `TerminalModel`. Rows are shifted by reference, so `Valid` keeps them
 pairwise distinct: a write to one row never shows up in another. `ok == false` stands for an
 ArrayIndexOutOfBoundsException.
 */
module TerminalEmulation {
  import opened Numbers
  import opened Sequences
  import opened Utf16
  import opened TerminalModel
  import TerminalSafety

  method NewRow(columns: int) returns (row: array<Cell>)
    requires columns >= 0
    ensures fresh(row) && row[..] == BlankRow(columns)
  {
    row := new Cell[columns](_ => BLANK);
  }

  method NewGrid(columns: int, rows: int) returns (g: array<array<Cell>>)
    requires columns >= 0 && rows >= 0
    ensures fresh(References(g)) && g.Length == rows
    ensures Backs(g[..], BlankGrid(columns, rows))
  {
    var unset := NewRow(columns);
    g := new array<Cell>[rows](_ => unset);
    for row := 0 to rows
      invariant forall i :: 0 <= i < row ==> fresh(g[i]) && g[i][..] == BlankRow(columns)
      invariant forall i, j :: 0 <= i < j < row ==> g[i] != g[j]
    {
      var next := NewRow(columns);
      g[row] := next;
    }
  }

  /** Blanks the cells start..end of one row. */
  method BlankCells(row: array<Cell>, start: int, end: int)
    requires 0 <= start <= end <= row.Length
    modifies row
    ensures row[..] == Erased(old(row[..]), start, end)
  {
    for column := start to end
      invariant forall j :: 0 <= j < row.Length ==>
                  row[j] == if start <= j < column then BLANK else old(row[j])
    {
      row[column] := BLANK;
    }
  }

  /** Shifts the cells of one row right by `amount` from `at`, and blanks the gap. */
  method ShiftCells(row: array<Cell>, at: int, amount: int)
    requires 0 <= at && 0 <= amount && at + amount <= row.Length
    modifies row
    ensures row[..] == Inserted(old(row[..]), at, amount, BLANK)
  {
    ghost var before := row[..];
    for column := row.Length downto at + amount
      invariant forall j :: 0 <= j < row.Length ==>
                  row[j] == before[if column <= j then j - amount else j]
    {
      row[column] := row[column - amount];
    }
    assert Erased(row[..], at, at + amount) == Inserted(before, at, amount, BLANK);
    BlankCells(row, at, at + amount);
  }

  /** Moves every row reference below `at` up by one and stores `last` at the bottom. */
  method ShiftUp(screen: array<array<Cell>>, at: int, last: array<Cell>)
    requires 0 <= at < screen.Length
    modifies screen
    ensures screen[..] == Without(old(screen[..]), at) + [last]
  {
    ghost var before := screen[..];
    for row := at to screen.Length - 1
      invariant screen[..row] == before[..at] + before[at + 1..row + 1]
      invariant screen[row..] == before[row..]
    {
      screen[row] := screen[row + 1];
    }
    assert before[at + 1..screen.Length] == before[at + 1..];
    screen[screen.Length - 1] := last;
    assert screen[..screen.Length - 1] == Without(before, at);
  }

  /** Moves every row reference from `at` down by one and stores `first` at `at`. */
  method ShiftDown(screen: array<array<Cell>>, at: int, first: array<Cell>)
    requires 0 <= at < screen.Length
    modifies screen
    ensures screen[..] == With(old(screen[..screen.Length - 1]), at, first)
  {
    ghost var before := screen[..];
    for row := screen.Length downto at + 1
      invariant screen[..row] == before[..row]
      invariant screen[row..] == before[row - 1..screen.Length - 1]
    {
      screen[row] := screen[row - 1];
    }
    screen[at] := first;
  }

  function Without<T>(s: seq<T>, at: int): (r: seq<T>)
    requires 0 <= at < |s|
    ensures |r| == |s| - 1
  {
    s[..at] + s[at + 1..]
  }

  function With<T>(s: seq<T>, at: int, x: T): (r: seq<T>)
    requires 0 <= at <= |s|
    ensures |r| == |s| + 1
  {
    s[..at] + [x] + s[at..]
  }

  /** The row arrays `refs` are pairwise distinct and hold the rows of `grid`. */
  ghost predicate Backs(refs: seq<array<Cell>>, grid: seq<Row>)
    reads refs
  {
    && |refs| == |grid|
    && (forall i :: 0 <= i < |refs| ==> refs[i][..] == grid[i])
    && (forall i, j :: 0 <= i < j < |refs| ==> refs[i] != refs[j])
  }

  lemma BacksWithout(refs: seq<array<Cell>>, grid: seq<Row>, at: int)
    requires Backs(refs, grid) && 0 <= at < |refs|
    ensures Backs(Without(refs, at), Without(grid, at))
  {
    var less := Without(refs, at);
    assert forall i :: 0 <= i < |less| ==> less[i] == refs[if i < at then i else i + 1];
  }

  lemma BacksWith(refs: seq<array<Cell>>, grid: seq<Row>, at: int, row: array<Cell>)
    requires Backs(refs, grid) && 0 <= at <= |refs| && row !in refs
    ensures Backs(With(refs, at, row), With(grid, at, row[..]))
  {
    var more := With(refs, at, row);
    assert forall i :: 0 <= i < |more| ==> more[i] == if i < at then refs[i] else if i == at then row else refs[i - 1];
  }

  ghost function References(screen: array<array<Cell>>): (all: set<object>)
    reads screen
    ensures screen in all && forall r :: r in screen[..] ==> r in all
  {
    var rows: set<object> := set r | r in screen[..];
    {screen} + rows
  }

  class TerminalEmulator {
    var columns: int
    var rows: int
    var parserState: Parser
    var parameters: Text
    var cursorColumn: int
    var cursorRow: int
    var savedColumn: int
    var savedRow: int
    var pen: Pen
    var cursorVisible: bool
    var pendingHighSurrogate: Option<CodeUnit>
    var screen: array<array<Cell>>
    var scrollback: seq<Row>

    ghost var grid: seq<Row>
    ghost var Repr: set<object>

    ghost predicate Valid()
      reads this, Repr
    {
      && this in Repr && screen in Repr
      && Shaped(Model())
      && screen.Length == rows
      && (forall r :: r in screen[..] ==> r in Repr)
      && Backs(screen[..], grid)
    }

    ghost function Model(): Terminal
      reads this
    {
      Terminal(columns, rows, parserState, parameters, cursorColumn, cursorRow, savedColumn, savedRow,
               pen, cursorVisible, pendingHighSurrogate, grid, scrollback)
    }

    constructor (columns: int, rows: int)
      requires 1 <= columns <= MAX_SIDE && 1 <= rows <= MAX_SIDE
      ensures Valid() && fresh(Repr)
      ensures Model() == Initial(columns, rows)
    {
      this.columns, this.rows := columns, rows;
      parserState, parameters := InText, [];
      cursorColumn, cursorRow, savedColumn, savedRow := 0, 0, 0, 0;
      pen, cursorVisible, pendingHighSurrogate := DEFAULT_PEN, true, None;
      scrollback := [];
      var blankScreen := NewGrid(columns, rows);
      screen := blankScreen;
      grid := BlankGrid(columns, rows);
      new;
      Repr := {this} + References(screen);
    }

    /** Replaces the whole grid by a new blank one. */
    method BlankScreen()
      requires Valid()
      modifies this`screen, this`grid, this`Repr
      ensures Valid() && fresh(Repr - old(Repr)) && old(Repr) <= Repr
      ensures grid == BlankGrid(columns, rows)
    {
      screen := NewGrid(columns, rows);
      grid := BlankGrid(columns, rows);
      Repr := Repr + References(screen);
    }

    method ResetState()
      modifies this`parserState, this`parameters, this`cursorColumn, this`cursorRow, this`savedColumn,
               this`savedRow, this`pen, this`cursorVisible, this`pendingHighSurrogate, this`scrollback
      ensures parserState == InText && parameters == [] && cursorColumn == 0 && cursorRow == 0
      ensures savedColumn == 0 && savedRow == 0 && pen == DEFAULT_PEN && cursorVisible
      ensures pendingHighSurrogate == None && scrollback == []
    {
      parserState, parameters := InText, [];
      cursorColumn, cursorRow, savedColumn, savedRow := 0, 0, 0, 0;
      pen, cursorVisible, pendingHighSurrogate := DEFAULT_PEN, true, None;
      scrollback := [];
    }

    method Reset()
      requires Valid()
      modifies this`parserState, this`parameters, this`cursorColumn, this`cursorRow, this`savedColumn,
               this`savedRow, this`pen, this`cursorVisible, this`pendingHighSurrogate, this`screen,
               this`scrollback, this`grid, this`Repr
      ensures Valid() && fresh(Repr - old(Repr)) && old(Repr) <= Repr
      ensures Model() == Initial(old(columns), old(rows))
    {
      hide Backs;
      ResetState();
      BlankScreen();
    }

    method LineFeed()
      requires Valid()
      modifies Repr
      ensures Valid() && fresh(Repr - old(Repr)) && old(Repr) <= Repr
      ensures Model() == TerminalModel.LineFeed(old(Model()))
    {
      if cursorRow == rows - 1 {
        scrollback := scrollback + [screen[0][..]];
        if |scrollback| > MAX_SCROLLBACK {
          scrollback := scrollback[1..];
        }
        DeleteLineAt(0);
      } else {
        cursorRow := Wrap(cursorRow + 1);
      }
    }

    /** Shifts the rows below `at` up by one, by reference, and puts a new blank row at the bottom. */
    method DeleteLineAt(at: int)
      requires Valid() && 0 <= at < rows
      modifies this`grid, this`Repr, screen
      ensures Valid() && fresh(Repr - old(Repr)) && old(Repr) <= Repr
      ensures grid == Deleted(old(grid), at, 1, BlankRow(columns))
    {
      hide Backs;
      var blank := NewRow(columns);
      ghost var refs, before := screen[..], grid;
      ShiftUp(screen, at, blank);
      grid := Without(before, at) + [BlankRow(columns)];
      Repr := Repr + {blank};
      BacksWithout(refs, before, at);
      BacksWith(Without(refs, at), Without(before, at), |refs| - 1, blank);
      assert screen[..] == With(Without(refs, at), |refs| - 1, blank);
      assert grid == With(Without(before, at), |refs| - 1, blank[..]);
      assert grid == Deleted(before, at, 1, BlankRow(columns));
    }

    /** Shifts the rows from `at` down by one, by reference, and puts a new blank row at `at`. */
    method InsertLineAt(at: int)
      requires Valid() && 0 <= at < rows
      modifies this`grid, this`Repr, screen
      ensures Valid() && fresh(Repr - old(Repr)) && old(Repr) <= Repr
      ensures grid == Inserted(old(grid), at, 1, BlankRow(columns))
    {
      hide Backs;
      var blank := NewRow(columns);
      ghost var refs, before := screen[..], grid;
      ShiftDown(screen, at, blank);
      grid := With(before[..rows - 1], at, BlankRow(columns));
      Repr := Repr + {blank};
      BacksWithout(refs, before, rows - 1);
      assert refs[..rows - 1] == Without(refs, rows - 1) && before[..rows - 1] == Without(before, rows - 1);
      BacksWith(refs[..rows - 1], before[..rows - 1], at, blank);
      assert grid == Inserted(before, at, 1, BlankRow(columns));
    }

    method InsertLines(count: int) returns (ok: bool)
      requires Valid()
      modifies this`grid, this`Repr, screen
      ensures Valid() && fresh(Repr - old(Repr)) && old(Repr) <= Repr
      ensures ok == TerminalModel.InsertLines(old(Model()), count).Some?
      ensures ok ==> Model() == TerminalModel.InsertLines(old(Model()), count).value
    {
      hide Backs;
      var amount := Min(Max(count, 1), Wrap(rows - cursorRow));
      ok := amount <= 0 || 0 <= cursorRow < rows;
      if !ok || amount <= 0 { return; }
      ghost var before := grid;
      assert Inserted(before, cursorRow, 0, BlankRow(columns)) == before;
      for done := 0 to amount
        invariant Valid() && fresh(Repr - old(Repr)) && old(Repr) <= Repr
        invariant grid == Inserted(before, cursorRow, done, BlankRow(columns))
      {
        InsertLineAt(cursorRow);
        TerminalSafety.InsertedTwice(before, cursorRow, done, BlankRow(columns));
      }
    }

    method DeleteLines(count: int) returns (ok: bool)
      requires Valid()
      modifies this`grid, this`Repr, screen
      ensures Valid() && fresh(Repr - old(Repr)) && old(Repr) <= Repr
      ensures ok == TerminalModel.DeleteLines(old(Model()), count).Some?
      ensures ok ==> Model() == TerminalModel.DeleteLines(old(Model()), count).value
    {
      hide Backs;
      var amount := Min(Max(count, 1), Wrap(rows - cursorRow));
      ok := amount <= 0 || 0 <= cursorRow < rows;
      if !ok || amount <= 0 { return; }
      ghost var before := grid;
      assert Deleted(before, cursorRow, 0, BlankRow(columns)) == before;
      for done := 0 to amount
        invariant Valid() && fresh(Repr - old(Repr)) && old(Repr) <= Repr
        invariant grid == Deleted(before, cursorRow, done, BlankRow(columns))
      {
        DeleteLineAt(cursorRow);
        TerminalSafety.DeletedTwice(before, cursorRow, done, BlankRow(columns));
      }
    }

    method EraseCells(start: int, end: int) returns (ok: bool)
      requires Valid()
      modifies this`grid, if 0 <= cursorRow < screen.Length then {screen[cursorRow]} else {}
      ensures Valid()
      ensures ok == TerminalModel.EraseCells(old(Model()), start, end).Some?
      ensures ok ==> Model() == TerminalModel.EraseCells(old(Model()), start, end).value
    {
      ok := start >= end || (0 <= cursorRow < rows && 0 <= start && end <= columns);
      if !ok || start >= end { return; }
      BlankCells(screen[cursorRow], start, end);
      grid := grid[cursorRow := Erased(grid[cursorRow], start, end)];
    }

    method InsertCharacters(count: int) returns (ok: bool)
      requires Valid()
      modifies this`grid, if 0 <= cursorRow < screen.Length then {screen[cursorRow]} else {}
      ensures Valid()
      ensures ok == TerminalModel.InsertCharacters(old(Model()), count).Some?
      ensures ok ==> Model() == TerminalModel.InsertCharacters(old(Model()), count).value
    {
      ok := cursorColumn >= columns || (0 <= cursorColumn && 0 <= cursorRow < rows);
      if !ok || cursorColumn >= columns { return; }
      var amount := Min(Max(count, 1), columns - cursorColumn);
      ShiftCells(screen[cursorRow], cursorColumn, amount);
      grid := grid[cursorRow := Inserted(grid[cursorRow], cursorColumn, amount, BLANK)];
    }

    /** Stores one cell at the cursor. */
    method Write(cell: Cell)
      requires Valid() && 0 <= cursorRow < rows && 0 <= cursorColumn < columns
      modifies this`grid, screen[cursorRow]
      ensures Valid()
      ensures grid == old(grid)[cursorRow := old(grid)[cursorRow][cursorColumn := cell]]
    {
      screen[cursorRow][cursorColumn] := cell;
      grid := grid[cursorRow := grid[cursorRow][cursorColumn := cell]];
    }

    method Put(character: CodeUnit) returns (ok: bool)
      requires Valid()
      modifies Repr
      ensures Valid() && fresh(Repr - old(Repr)) && old(Repr) <= Repr
      ensures ok == TerminalModel.Put(old(Model()), character).Some?
      ensures ok ==> Model() == TerminalModel.Put(old(Model()), character).value
    {
      hide Backs;
      if cursorColumn >= columns {
        cursorColumn := 0;
        LineFeed();
      }
      ok := 0 <= cursorRow < rows && 0 <= cursorColumn;
      if !ok { return; }
      Write(Drawn(pen, character));
      cursorColumn := cursorColumn + 1;
    }

    method EraseLine(mode: int) returns (ok: bool)
      requires Valid()
      modifies this`grid, if 0 <= cursorRow < screen.Length then {screen[cursorRow]} else {}
      ensures Valid()
      ensures ok == TerminalModel.EraseLine(old(Model()), mode).Some?
      ensures ok ==> Model() == TerminalModel.EraseLine(old(Model()), mode).value
    {
      hide Backs;
      var start := if mode == 1 || mode == 2 then 0 else cursorColumn;
      var end := if mode == 1 then cursorColumn else columns;
      ok := EraseCells(start, end);
    }

    method EraseCharacters(count: int) returns (ok: bool)
      requires Valid()
      modifies this`grid, if 0 <= cursorRow < screen.Length then {screen[cursorRow]} else {}
      ensures Valid()
      ensures ok == TerminalModel.EraseCharacters(old(Model()), count).Some?
      ensures ok ==> Model() == TerminalModel.EraseCharacters(old(Model()), count).value
    {
      hide Backs;
      ok := EraseCells(cursorColumn, Min(Wrap(cursorColumn + count), columns));
    }

    /** Stores a new blank row at each place from..to. */
    method ReplaceRows(from: int, to: int)
      requires Valid() && 0 <= from <= to <= rows
      modifies this`grid, this`Repr, screen
      ensures Valid() && fresh(Repr - old(Repr)) && old(Repr) <= Repr
      ensures grid == BlankRows(old(grid), columns, from, to)
    {
      for row := from to to
        invariant Valid() && fresh(Repr - old(Repr)) && old(Repr) <= Repr
        invariant grid == BlankRows(old(grid), columns, from, row)
      {
        ReplaceRow(row);
      }
    }

    method ReplaceRow(row: int)
      requires Valid() && 0 <= row < rows
      modifies this`grid, this`Repr, screen
      ensures Valid() && fresh(Repr - old(Repr)) && old(Repr) <= Repr
      ensures grid == old(grid)[row := BlankRow(columns)]
    {
      var blank := NewRow(columns);
      screen[row] := blank;
      grid := grid[row := BlankRow(columns)];
      Repr := Repr + {blank};
    }

    method EraseDisplay(mode: int) returns (ok: bool)
      requires Valid()
      modifies Repr
      ensures Valid() && fresh(Repr - old(Repr)) && old(Repr) <= Repr
      ensures ok == TerminalModel.EraseDisplay(old(Model()), mode).Some?
      ensures ok ==> Model() == TerminalModel.EraseDisplay(old(Model()), mode).value
    {
      hide Backs;
      ok := true;
      if mode == 2 {
        BlankScreen();
      } else if mode == 0 {
        ok := EraseLine(0);
        var next := Wrap(cursorRow + 1);
        if ok && next < rows {
          ok := 0 <= next;
          if ok {
            ReplaceRows(next, rows);
          }
        }
      } else if mode == 1 {
        ok := cursorRow <= rows;
        if ok {
          ReplaceRows(0, Max(cursorRow, 0));
          ok := EraseLine(1);
        }
      }
    }

    method ApplySgr(values: seq<int>)
      modifies this`pen
      ensures pen == Sgr(SgrCodes(values), 0, old(pen))
    {
      var codes := SgrCodes(values);
      var index := 0;
      while index < |codes|
        invariant Sgr(codes, index, pen) == Sgr(codes, 0, old(pen))
      {
        var (next, after) := SgrStep(codes, index, pen);
        pen, index := next, after;
      }
    }

    method EditGrid(final: CodeUnit, values: seq<int>) returns (ok: bool)
      requires Valid()
      modifies Repr
      ensures Valid() && fresh(Repr - old(Repr)) && old(Repr) <= Repr
      ensures ok == TerminalModel.EditGrid(old(Model()), final, values).Some?
      ensures ok ==> Model() == TerminalModel.EditGrid(old(Model()), final, values).value
    {
      hide Backs;
      ok := true;
      var n := ValueOr(values, 0, 1);
      if final == 0x4A {
        ok := EraseDisplay(ValueOr(values, 0, 0));
      } else if final == 0x4B {
        ok := EraseLine(ValueOr(values, 0, 0));
      } else if final == 0x50 {
        ok := EraseCharacters(n);
      } else if final == 0x40 {
        ok := InsertCharacters(n);
      } else if final == 0x4C {
        ok := InsertLines(n);
      } else if final == 0x4D {
        ok := DeleteLines(n);
      }
    }

    method HandleCsi(final: CodeUnit, raw: Text) returns (ok: bool)
      requires Valid()
      modifies Repr
      ensures Valid() && fresh(Repr - old(Repr)) && old(Repr) <= Repr
      ensures ok == TerminalModel.HandleCsi(old(Model()), final, raw).Some?
      ensures ok ==> Model() == TerminalModel.HandleCsi(old(Model()), final, raw).value
    {
      hide Backs, MoveCursor, Values, Sgr, SgrCodes, TerminalModel.EditGrid;
      ok := true;
      var values := Values(raw);
      var move := MoveCursor(columns, rows, Cursor(cursorRow, cursorColumn), Cursor(savedRow, savedColumn),
                             final, values);
      MoveCursorInt32(Model(), final, values);
      if move.Some? {
        cursorRow, cursorColumn := move.value.row, move.value.column;
      } else if final == 0x6D {
        ApplySgr(values);
      } else if final == 0x68 || final == 0x6C {
        if raw != [] && raw[0] == 0x3F && values[0] == 25 {
          cursorVisible := final == 0x68;
        }
      } else if final == 0x73 {
        savedColumn, savedRow := cursorColumn, cursorRow;
      } else {
        ok := EditGrid(final, values);
      }
    }

    method ConsumeText(c: CodeUnit) returns (ok: bool)
      requires Valid()
      modifies Repr
      ensures Valid() && fresh(Repr - old(Repr)) && old(Repr) <= Repr
      ensures ok == TerminalModel.ConsumeText(old(Model()), c).Some?
      ensures ok ==> Model() == TerminalModel.ConsumeText(old(Model()), c).value
    {
      hide Backs;
      ok := true;
      if c == ESCAPE {
        parserState := InEscape;
      } else if c == 0x9B {
        parameters, parserState := [], InCsi;
      } else if c == NEWLINE {
        cursorColumn := 0;
        LineFeed();
      } else if c == 0x0D {
        cursorColumn := 0;
      } else if c == 0x08 {
        cursorColumn := Max(Wrap(cursorColumn - 1), 0);
      } else if c == 0x09 {
        cursorColumn := Min(Wrap((TruncatedDiv(cursorColumn, TAB_SIZE) + 1) * TAB_SIZE), columns - 1);
      } else if IsPrintable(c) {
        ok := Put(c);
      }
    }

    method ConsumeEscape(c: CodeUnit)
      requires Valid()
      modifies Repr
      ensures Valid() && fresh(Repr - old(Repr)) && old(Repr) <= Repr
      ensures Model() == TerminalModel.ConsumeEscape(old(Model()), c)
    {
      hide Backs;
      if c == 0x5B {
        parameters, parserState := [], InCsi;
      } else if c == 0x5D {
        parserState := InOsc;
      } else if c == 0x37 {
        savedColumn, savedRow, parserState := cursorColumn, cursorRow, InText;
      } else if c == 0x38 {
        cursorColumn, cursorRow, parserState := savedColumn, savedRow, InText;
      } else if c == 0x44 {
        LineFeed();
        parserState := InText;
      } else if c == 0x4D {
        if cursorRow > 0 {
          cursorRow := cursorRow - 1;
        }
        parserState := InText;
      } else if c == 0x63 {
        Reset();
      } else {
        parserState := InText;
      }
    }

    method ConsumeCsi(c: CodeUnit) returns (ok: bool)
      requires Valid()
      modifies Repr
      ensures Valid() && fresh(Repr - old(Repr)) && old(Repr) <= Repr
      ensures ok == TerminalModel.ConsumeCsi(old(Model()), c).Some?
      ensures ok ==> Model() == TerminalModel.ConsumeCsi(old(Model()), c).value
    {
      hide Backs;
      ok := true;
      if 0x40 <= c <= 0x7E {
        ok := HandleCsi(c, parameters);
        if ok {
          parameters, parserState := [], InText;
        }
      } else if 0x20 <= c <= 0x3F {
        parameters := parameters + [c];
      } else {
        parserState := InText;
      }
    }

    method ConsumeSurrogate(c: CodeUnit) returns (ok: bool)
      requires Valid()
      modifies Repr
      ensures Valid() && fresh(Repr - old(Repr)) && old(Repr) <= Repr
      ensures ok == TerminalModel.ConsumeSurrogate(old(Model()), c).Some?
      ensures ok ==> Model() == TerminalModel.ConsumeSurrogate(old(Model()), c).value
    {
      hide Backs;
      ok := true;
      if pendingHighSurrogate.Some? && IsLowSurrogate(c) {
        pendingHighSurrogate := None;
        ok := Put(REPLACEMENT);
      } else {
        pendingHighSurrogate := if IsHighSurrogate(c) then Some(c) else None;
      }
    }

    method Consume(c: CodeUnit) returns (ok: bool)
      requires Valid()
      modifies Repr
      ensures Valid() && fresh(Repr - old(Repr)) && old(Repr) <= Repr
      ensures ok == TerminalModel.Consume(old(Model()), c).Some?
      ensures ok ==> Model() == TerminalModel.Consume(old(Model()), c).value
    {
      hide Backs;
      ok := true;
      if IsHighSurrogate(c) || IsLowSurrogate(c) {
        ok := ConsumeSurrogate(c);
        return;
      }
      pendingHighSurrogate := None;
      match parserState
      case InText => ok := ConsumeText(c);
      case InEscape => ConsumeEscape(c);
      case InCsi => ok := ConsumeCsi(c);
      case InOsc =>
        if c == 0x07 {
          parserState := InText;
        } else if c == ESCAPE {
          parserState := InEscape;
        }
    }

    /** Feeds a text; `ok` is false when some character failed, and the rest is then not read. */
    method Feed(text: Text) returns (ok: bool)
      requires Valid()
      modifies Repr
      ensures Valid() && fresh(Repr - old(Repr)) && old(Repr) <= Repr
      ensures ok == Run(old(Model()), text).Some?
      ensures ok ==> Model() == Run(old(Model()), text).value
    {
      hide Backs, TerminalModel.Consume, TerminalSafety.NeverLeaves, TerminalSafety.LeavesGrid;
      ok := true;
      for i := 0 to |text|
        invariant Valid() && fresh(Repr - old(Repr)) && old(Repr) <= Repr
        invariant Run(old(Model()), text[..i]) == Some(Model())
      {
        TerminalSafety.RunSnoc(old(Model()), text[..i], text[i]);
        assert text[..i + 1] == text[..i] + [text[i]];
        ok := Consume(text[i]);
        if !ok {
          TerminalSafety.RunInPieces(old(Model()), text[..i + 1], text[i + 1..]);
          assert text == text[..i + 1] + text[i + 1..];
          return;
        }
      }
      assert text[..|text|] == text;
    }

    /** One row of the new size: the cells of the old row that still fit, then blanks. */
    method CopyRow(row: int, safeColumns: int) returns (copy: array<Cell>)
      requires Valid() && row >= 0 && safeColumns >= 0
      ensures fresh(copy) && copy[..] == ResizedRow(Model(), row, safeColumns)
    {
      var kept := if row < rows then screen[row][..] else [];
      copy := new Cell[safeColumns](j requires 0 <= j => if j < |kept| then kept[j] else BLANK);
    }

    method CopyRows(safeColumns: int, safeRows: int) returns (next: array<array<Cell>>)
      requires Valid() && safeRows >= 0 && safeColumns >= 0
      ensures fresh(References(next)) && next.Length == safeRows
      ensures Backs(next[..], ResizedGrid(Model(), safeColumns, safeRows))
    {
      var unset := NewRow(safeColumns);
      next := new array<Cell>[safeRows](_ => unset);
      for row := 0 to safeRows
        modifies next
        invariant forall i :: 0 <= i < row ==>
                    fresh(next[i]) && next[i][..] == ResizedRow(Model(), i, safeColumns)
        invariant forall i, j :: 0 <= i < j < row ==> next[i] != next[j]
      {
        next[row] := CopyRow(row, safeColumns);
      }
    }

    /** Makes `next` the screen and brings the cursor, but not the saved position, inside it. */
    method Install(next: array<array<Cell>>, newColumns: int, newRows: int, ghost newGrid: seq<Row>)
      requires Valid() && 1 <= newColumns <= MAX_SIDE && 1 <= newRows <= MAX_SIDE
      requires next.Length == newRows && |newGrid| == newRows && Backs(next[..], newGrid)
      requires forall i :: 0 <= i < newRows ==> |newGrid[i]| == newColumns
      modifies this`columns, this`rows, this`screen, this`grid, this`Repr, this`cursorRow, this`cursorColumn
      ensures Valid() && Repr == old(Repr) + References(next)
      ensures Model() == old(Model()).(columns := newColumns, rows := newRows, grid := newGrid,
                                       column := Min(old(cursorColumn), newColumns - 1),
                                       row := Min(old(cursorRow), newRows - 1))
    {
      hide Backs;
      SetScreen(next, newColumns, newRows, newGrid);
    }

    method SetScreen(next: array<array<Cell>>, newColumns: int, newRows: int, ghost newGrid: seq<Row>)
      modifies this`columns, this`rows, this`screen, this`grid, this`Repr, this`cursorRow, this`cursorColumn
      ensures columns == newColumns && rows == newRows && screen == next && grid == newGrid
      ensures Repr == old(Repr) + References(next)
      ensures cursorColumn == Min(old(cursorColumn), columns - 1)
      ensures cursorRow == Min(old(cursorRow), rows - 1)
    {
      columns, rows, screen, grid := newColumns, newRows, next, newGrid;
      Repr := Repr + References(screen);
      cursorColumn, cursorRow := Min(cursorColumn, columns - 1), Min(cursorRow, rows - 1);
    }

    method Resize(newColumns: int, newRows: int)
      requires Valid()
      modifies this`columns, this`rows, this`screen, this`grid, this`Repr, this`cursorRow, this`cursorColumn
      ensures Valid() && fresh(Repr - old(Repr)) && old(Repr) <= Repr
      ensures Model() == TerminalModel.Resize(old(Model()), newColumns, newRows)
    {
      hide Backs;
      var safeColumns, safeRows := Clamp(newColumns, 20, 240), Clamp(newRows, 4, 400);
      if safeColumns != columns || safeRows != rows {
        var next := CopyRows(safeColumns, safeRows);
        Install(next, safeColumns, safeRows, ResizedGrid(Model(), safeColumns, safeRows));
      }
    }
  }
}
