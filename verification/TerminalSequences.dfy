/**
 Control sequences as they are written: an introducer, decimal numbers between semicolons and a final
 byte, fed as text to a terminal that is between sequences.
 */
module TerminalSequences {
  import opened Numbers
  import opened Sequences
  import opened Utf16
  import opened TerminalModel
  import opened TerminalSafety

  // ---- Printed numbers ----

  function Decimal(n: nat): (s: Text)
    ensures s != []
  {
    if n < 10 then [0x30 + n] else Decimal(n / 10) + [0x30 + n % 10]
  }

  lemma {:induction false} DecimalDigits(n: nat)
    ensures AllDigits(Decimal(n)) && DigitsValue(Decimal(n)) == n
  {
    if n < 10 {
      assert Decimal(n)[..0] == [];
    } else {
      DecimalDigits(n / 10);
      var front, last: Text := Decimal(n / 10), [0x30 + n % 10];
      assert (front + last)[..|front|] == front;
    }
  }

  lemma DecimalReadsBack(n: nat)
    requires n <= MAX_INT
    ensures ParseInt(Decimal(n)) == Some(n)
  {
    hide Decimal, DigitsValue;
    DecimalDigits(n);
    assert 0x30 <= Decimal(n)[0] <= 0x39;
  }

  function Decimals(numbers: seq<nat>): (s: seq<Text>)
    ensures |s| == |numbers|
  {
    seq(|numbers|, i requires 0 <= i < |numbers| => Decimal(numbers[i]))
  }

  /** Numbers with semicolons between them. */
  function Printed(numbers: seq<nat>): Text
    requires numbers != []
  {
    Join(Decimals(numbers), SEMICOLON)
  }

  predicate DigitsAndSemicolons(s: Text) {
    forall i :: 0 <= i < |s| ==> 0x30 <= s[i] <= 0x39 || s[i] == SEMICOLON
  }

  lemma {:induction false} JoinedUnits(pieces: seq<Text>)
    requires pieces != [] && forall i :: 0 <= i < |pieces| ==> AllDigits(pieces[i])
    ensures DigitsAndSemicolons(Join(pieces, SEMICOLON))
    decreases |pieces|
  {
    if |pieces| > 1 {
      JoinedUnits(pieces[..|pieces| - 1]);
    }
  }

  lemma PrintedUnits(numbers: seq<nat>)
    requires numbers != []
    ensures DigitsAndSemicolons(Printed(numbers)) && NoneHolds(Decimals(numbers), SEMICOLON)
  {
    hide Join, Decimal;
    forall i | 0 <= i < |numbers| ensures AllDigits(Decimals(numbers)[i]) && SEMICOLON !in Decimals(numbers)[i] {
      DecimalDigits(numbers[i]);
    }
    JoinedUnits(Decimals(numbers));
  }

  /** The parameters of a sequence are the numbers that were printed. */
  lemma ValuesReadBack(numbers: seq<nat>)
    requires numbers != [] && forall i :: 0 <= i < |numbers| ==> numbers[i] <= MAX_INT
    ensures Values(Printed(numbers)) == numbers
  {
    hide Join, Split, Decimal, ParseInt;
    PrintedUnits(numbers);
    var raw, fields := Printed(numbers), Decimals(numbers);
    assert WithoutPrefix(WithoutPrefix(raw, 0x3F), 0x3E) == raw;
    SplitJoin(fields, SEMICOLON);
    forall i | 0 <= i < |numbers| ensures ParseInt(fields[i]) == Some(numbers[i]) {
      DecimalReadsBack(numbers[i]);
    }
  }

  // ---- A sequence is handled when its final byte arrives ----

  predicate ParameterText(s: Text) {
    forall i :: 0 <= i < |s| ==> 0x20 <= s[i] <= 0x3F
  }

  /** Between sequences, with nothing pending. */
  function Quiet(t: Terminal): Terminal {
    t.(parser := InText, parameters := [], highSurrogate := None)
  }

  /** ESC [, parameters and a final byte. */
  function Control(parameters: Text, final: CodeUnit): Text {
    [ESCAPE, 0x5B] + parameters + [final]
  }

  lemma {:induction false} ParametersCollected(t: Terminal, s: Text)
    requires Shaped(t) && t.parser == InCsi && t.highSurrogate == None && ParameterText(s)
    ensures Run(t, s) == Some(t.(parameters := t.parameters + s))
    decreases |s|
  {
    if s == [] {
      assert t.parameters + [] == t.parameters;
    } else {
      var front, c := s[..|s| - 1], s[|s| - 1];
      ParametersCollected(t, front);
      hide Run, HandleCsi;
      assert s == front + [c];
      RunSnoc(t, front, c);
      assert (t.parameters + front) + [c] == t.parameters + s;
    }
  }

  lemma Opened(t: Terminal)
    requires Shaped(t) && t.parser == InText
    ensures Run(t, [ESCAPE, 0x5B]) == Some(t.(parser := InCsi, parameters := [], highSurrogate := None))
    ensures Run(t, [0x9B]) == Run(t, [ESCAPE, 0x5B])
  {
    hide Put, HandleCsi;
    assert [ESCAPE, 0x5B][..1] == [ESCAPE] && [ESCAPE][..0] == [] && [0x9B][..0] == [];
    assert Run(t, []) == Some(t);
    assert Run(t, [ESCAPE]) == Consume(t, ESCAPE);
  }

  /** The eight-bit introducer is the same as ESC [, whatever follows. */
  lemma OpenersAgree(t: Terminal, rest: Text)
    requires Shaped(t) && t.parser == InText
    ensures Run(t, [0x9B] + rest) == Run(t, [ESCAPE, 0x5B] + rest)
  {
    hide Run;
    Opened(t);
    RunInPieces(t, [0x9B], rest);
    RunInPieces(t, [ESCAPE, 0x5B], rest);
  }

  lemma FinalByte(t: Terminal, parameters: Text, final: CodeUnit)
    requires Shaped(t) && 0x40 <= final <= 0x7E
    ensures var r := HandleCsi(Quiet(t), final, parameters);
            Consume(Collecting(Quiet(t), parameters), final) ==
            if r.None? then None else Some(Quiet(r.value))
  {
    hide HandleCsi;
    HandledApart(Quiet(t), final, parameters);
    if HandleCsi(Quiet(t), final, parameters).Some? {
      SurrogateApart(Quiet(t), final, parameters);
    }
  }

  /** The terminal in the middle of a sequence. */
  function Collecting(t: Terminal, parameters: Text): Terminal {
    t.(parser := InCsi, parameters := parameters)
  }

  function CollectingOr(r: Option<Terminal>, parameters: Text): Option<Terminal> {
    if r.None? then None else Some(Collecting(r.value, parameters))
  }

  lemma ErasuresApart(t: Terminal, parameters: Text, n: int, mode: int)
    requires Shaped(t)
    ensures EraseDisplay(Collecting(t, parameters), mode) == CollectingOr(EraseDisplay(t, mode), parameters)
    ensures EraseLine(Collecting(t, parameters), mode) == CollectingOr(EraseLine(t, mode), parameters)
    ensures EraseCharacters(Collecting(t, parameters), n) == CollectingOr(EraseCharacters(t, n), parameters)
  {
    hide Erased, BlankRows, BlankGrid, BlankRow;
  }

  lemma ShiftsApart(t: Terminal, parameters: Text, n: int)
    requires Shaped(t)
    ensures InsertCharacters(Collecting(t, parameters), n) == CollectingOr(InsertCharacters(t, n), parameters)
    ensures InsertLines(Collecting(t, parameters), n) == CollectingOr(InsertLines(t, n), parameters)
    ensures DeleteLines(Collecting(t, parameters), n) == CollectingOr(DeleteLines(t, n), parameters)
  {
    hide Inserted, Deleted, BlankRow;
  }

  lemma EditApart(t: Terminal, final: CodeUnit, parameters: Text, values: seq<int>)
    requires Shaped(t)
    ensures EditGrid(Collecting(t, parameters), final, values) == CollectingOr(EditGrid(t, final, values), parameters)
  {
    hide EraseDisplay, EraseLine, EraseCharacters, InsertCharacters, InsertLines, DeleteLines, Collecting;
    ErasuresApart(t, parameters, ValueOr(values, 0, 1), ValueOr(values, 0, 0));
    ShiftsApart(t, parameters, ValueOr(values, 0, 1));
    hide ValueOr;
    assert Shaped(Collecting(t, parameters)) by { CollectingShaped(t, parameters); }
  }

  lemma CollectingShaped(t: Terminal, parameters: Text)
    requires Shaped(t)
    ensures Shaped(Collecting(t, parameters))
  {
  }

  /** What a sequence does depends on its parameters as handed over, not on the parser's state. */
  lemma HandledApart(t: Terminal, final: CodeUnit, parameters: Text)
    requires Shaped(t)
    ensures HandleCsi(Collecting(t, parameters), final, parameters) ==
            CollectingOr(HandleCsi(t, final, parameters), parameters)
  {
    hide Values, Sgr, SgrCodes, EditGrid, MoveCursor, AllInt32;
    EditApart(t, final, parameters, Values(parameters));
  }

  lemma SurrogateApart(t: Terminal, final: CodeUnit, parameters: Text)
    requires Shaped(t) && HandleCsi(t, final, parameters).Some?
    ensures HandleCsi(t, final, parameters).value.highSurrogate == t.highSurrogate
  {
    hide Values, Sgr, SgrCodes, MoveCursor, AllInt32, Erased, BlankRows, BlankGrid, BlankRow, Inserted, Deleted;
  }

  lemma ControlIsHandled(t: Terminal, parameters: Text, final: CodeUnit)
    requires Shaped(t) && t.parser == InText && ParameterText(parameters) && 0x40 <= final <= 0x7E
    ensures var r := HandleCsi(Quiet(t), final, parameters);
            Run(t, Control(parameters, final)) == if r.None? then None else Some(Quiet(r.value))
  {
    hide Run, Consume, HandleCsi;
    var opener: Text := [ESCAPE, 0x5B];
    Opened(t);
    var u := Quiet(t).(parser := InCsi);
    RunInPieces(t, opener, parameters);
    ParametersCollected(u, parameters);
    assert [] + parameters == parameters;
    RunSnoc(t, opener + parameters, final);
    FinalByte(t, parameters, final);
  }

  /** A sequence with printed numbers is handled with those numbers. */
  lemma NumbersHandled(t: Terminal, numbers: seq<nat>, final: CodeUnit)
    requires Shaped(t) && t.parser == InText && 0x40 <= final <= 0x7E
    requires numbers != [] && forall i :: 0 <= i < |numbers| ==> numbers[i] <= MAX_INT
    ensures Values(Printed(numbers)) == numbers && Printed(numbers) != [] && Printed(numbers)[0] != 0x3F
    ensures var r := HandleCsi(Quiet(t), final, Printed(numbers));
            Run(t, Control(Printed(numbers), final)) == if r.None? then None else Some(Quiet(r.value))
  {
    hide Run, HandleCsi, Printed, Values;
    PrintedUnits(numbers);
    ValuesReadBack(numbers);
    SomethingPrinted(numbers);
    ControlIsHandled(t, Printed(numbers), final);
  }

  lemma SomethingPrinted(numbers: seq<nat>)
    requires numbers != []
    ensures Printed(numbers) != []
  {
  }

  // ---- Moving the cursor ----

  /** `CSI r ; c H` puts the cursor on row r and column c, counted from 1, or as near as the screen allows. */
  lemma CursorAddressed(t: Terminal, r: nat, c: nat, final: CodeUnit)
    requires Shaped(t) && t.parser == InText && r <= MAX_INT && c <= MAX_INT && (final == 0x48 || final == 0x66)
    ensures Run(t, Control(Printed([r, c]), final)) ==
            Some(Quiet(t).(row := Min(Max(r, 1), t.rows) - 1, column := Min(Max(c, 1), t.columns) - 1))
  {
    hide Run, Printed, Values, EditGrid, Sgr, SgrCodes, AllInt32;
    NumbersHandled(t, [r, c], final);
  }

  lemma ColumnAddressed(t: Terminal, c: nat, final: CodeUnit)
    requires Shaped(t) && t.parser == InText && c <= MAX_INT && (final == 0x47 || final == 0x60)
    ensures Run(t, Control(Printed([c]), final)) == Some(Quiet(t).(column := Min(Max(c, 1), t.columns) - 1))
  {
    hide Run, Printed, Values, EditGrid, Sgr, SgrCodes, AllInt32;
    NumbersHandled(t, [c], final);
  }

  lemma RowAddressed(t: Terminal, r: nat)
    requires Shaped(t) && t.parser == InText && r <= MAX_INT
    ensures Run(t, Control(Printed([r]), 0x64)) == Some(Quiet(t).(row := Min(Max(r, 1), t.rows) - 1))
  {
    hide Run, Printed, Values, EditGrid, Sgr, SgrCodes, AllInt32;
    NumbersHandled(t, [r], 0x64);
  }

  /** Addressing row and column one after the other is addressing both. */
  lemma AddressedInParts(t: Terminal, r: nat, c: nat)
    requires Shaped(t) && t.parser == InText && r <= MAX_INT && c <= MAX_INT
    ensures Run(t, Control(Printed([r]), 0x64) + Control(Printed([c]), 0x47)) ==
            Run(t, Control(Printed([r, c]), 0x48))
  {
    hide Run, Printed, Control;
    RowAddressed(t, r);
    CursorAddressed(t, r, c, 0x48);
    RunInPieces(t, Control(Printed([r]), 0x64), Control(Printed([c]), 0x47));
    ColumnAddressed(Run(t, Control(Printed([r]), 0x64)).value, c, 0x47);
  }

  /** The relative moves, from a cursor in the grid, go by n, or by 1 for 0, and stop at the edge they go towards. */
  lemma CursorMoved(t: Terminal, n: nat, final: CodeUnit)
    requires Shaped(t) && t.parser == InText && CursorInGrid(t) && n <= MAX_INT - MAX_SIDE
    requires final in {0x41, 0x42, 0x65, 0x43, 0x61, 0x44}
    ensures var steps := Max(n, 1);
            Run(t, Control(Printed([n]), final)) ==
            Some(if final == 0x41 then Quiet(t).(row := Max(0, t.row - steps))
                 else if final == 0x42 || final == 0x65 then Quiet(t).(row := Min(t.rows - 1, t.row + steps))
                 else if final == 0x44 then Quiet(t).(column := Max(0, t.column - steps))
                 else Quiet(t).(column := Min(t.columns - 1, t.column + steps)))
  {
    hide Run, Printed, Values, EditGrid, Sgr, SgrCodes, AllInt32;
    NumbersHandled(t, [n], final);
  }

  /** Without a number, a sequence is as with 0. */
  lemma NoNumber(t: Terminal, final: CodeUnit)
    requires Shaped(t) && t.parser == InText && 0x40 <= final <= 0x7E
    ensures Run(t, Control([], final)) == Run(t, Control(Printed([0]), final))
  {
    hide Run, Printed, HandleCsi, Values;
    NumbersHandled(t, [0], final);
    ControlIsHandled(t, [], final);
    EmptyIsZero();
    SameNumbers(Quiet(t), final, [], Printed([0]));
  }

  lemma SameNumbers(t: Terminal, final: CodeUnit, a: Text, b: Text)
    requires Shaped(t) && Values(a) == Values(b) && (a == [] || a[0] != 0x3F) && (b == [] || b[0] != 0x3F)
    ensures HandleCsi(t, final, a) == HandleCsi(t, final, b)
  {
    hide Values, MoveCursor, EditGrid, Sgr, SgrCodes, AllInt32;
  }

  lemma EmptyIsZero()
    ensures Values([]) == [0]
  {
    assert WithoutPrefix(WithoutPrefix([], 0x3F), 0x3E) == [];
    assert Split<CodeUnit>([], SEMICOLON) == [[]];
  }

  // ---- Saving and restoring ----

  lemma SaveRemembers(t: Terminal, n: nat)
    requires Shaped(t) && t.parser == InText && n <= MAX_INT
    ensures Run(t, Control(Printed([n]), 0x73)) == Some(Quiet(t).(savedRow := t.row, savedColumn := t.column))
  {
    hide Run, Printed, Values;
    NumbersHandled(t, [n], 0x73);
  }

  lemma RestoreRecalls(t: Terminal, n: nat)
    requires Shaped(t) && t.parser == InText && n <= MAX_INT && SavedInGrid(t)
    ensures Run(t, Control(Printed([n]), 0x75)) ==
            Some(Quiet(t).(row := t.savedRow, column := Min(t.savedColumn, t.columns - 1)))
  {
    hide Run, Printed, Values;
    NumbersHandled(t, [n], 0x75);
  }

  lemma InTurn(t: Terminal, a: Text, b: Text, c: Text, u: Terminal, v: Terminal)
    requires Shaped(t) && Shaped(u) && Shaped(v) && Run(t, a) == Some(u) && Run(u, b) == Some(v)
    ensures Run(t, a + b + c) == Run(v, c)
  {
    hide Run, Shaped;
    RunInPieces(t, a, b);
    RunInPieces(t, a + b, c);
  }

  /** `CSI s`, a move to anywhere, `CSI u`: back where it was, but never right of the last column. */
  lemma SavedThenRestored(t: Terminal, r: nat, c: nat)
    requires Shaped(t) && t.parser == InText && CursorInGrid(t) && r <= MAX_INT && c <= MAX_INT
    ensures Run(t, Control(Printed([0]), 0x73) + Control(Printed([r, c]), 0x48) + Control(Printed([0]), 0x75)) ==
            Some(Quiet(t).(column := Min(t.column, t.columns - 1), savedRow := t.row, savedColumn := t.column))
  {
    hide Run, Printed, Control, Shaped;
    var save, move, restore := Control(Printed([0]), 0x73), Control(Printed([r, c]), 0x48), Control(Printed([0]), 0x75);
    SaveRemembers(t, 0);
    var u := Run(t, save).value;
    CursorAddressed(u, r, c, 0x48);
    var v := Run(u, move).value;
    RestoreRecalls(v, 0);
    InTurn(t, save, move, restore, u, v);
  }

  lemma EscapeThen(t: Terminal, c: CodeUnit)
    requires Shaped(t) && t.parser == InText && !IsHighSurrogate(c) && !IsLowSurrogate(c)
    ensures Run(t, [ESCAPE, c]) == Some(ConsumeEscape(t.(parser := InEscape, highSurrogate := None), c))
  {
    hide Put, ConsumeEscape;
    assert [ESCAPE, c][..1] == [ESCAPE] && [ESCAPE][..0] == [];
    assert Run(t, []) == Some(t);
    assert Run(t, [ESCAPE]) == Consume(t, ESCAPE);
    assert Run(t, [ESCAPE, c]) == Consume(Run(t, [ESCAPE]).value, c);
  }

  /** `ESC 7`, a move to anywhere, `ESC 8`: exactly where it was. */
  lemma EscSavedThenRestored(t: Terminal, r: nat, c: nat)
    requires Shaped(t) && t.parser == InText && r <= MAX_INT && c <= MAX_INT
    ensures Run(t, [ESCAPE, 0x37] + Control(Printed([r, c]), 0x48) + [ESCAPE, 0x38]) ==
            Some(Quiet(t).(savedRow := t.row, savedColumn := t.column))
  {
    hide Run, Printed, Control;
    var save: Text, restore: Text, move := [ESCAPE, 0x37], [ESCAPE, 0x38], Control(Printed([r, c]), 0x48);
    EscapeThen(t, 0x37);
    var u := Run(t, save).value;
    CursorAddressed(u, r, c, 0x48);
    var v := Run(u, move).value;
    EscapeThen(v, 0x38);
    InTurn(t, save, move, restore, u, v);
  }

  /** `ESC M` moves up, but not past the top. */
  lemma ReverseIndex(t: Terminal)
    requires Shaped(t) && t.parser == InText && CursorInGrid(t)
    ensures Run(t, [ESCAPE, 0x4D]) == Some(t.(highSurrogate := None, row := Max(t.row - 1, 0)))
  {
    hide Run, LineFeed;
    EscapeThen(t, 0x4D);
  }

  /** `ESC D` moves down and keeps the column; at the bottom the screen scrolls by one row. */
  lemma Index(t: Terminal)
    requires Shaped(t) && t.parser == InText && CursorInGrid(t)
    ensures Run(t, [ESCAPE, 0x44]).Some?
    ensures var u := Run(t, [ESCAPE, 0x44]).value;
            && u == Quiet(t).(parameters := t.parameters, row := u.row, grid := u.grid, scrollback := u.scrollback)
            && u.row == Min(t.row + 1, t.rows - 1)
            && (t.row < t.rows - 1 ==> u.grid == t.grid && u.scrollback == t.scrollback)
            && (t.row == t.rows - 1 ==>
                  u.grid == t.grid[1..] + [BlankRow(t.columns)]
                  && u.scrollback != [] && u.scrollback[|u.scrollback| - 1] == t.grid[0])
  {
    hide Run, BlankRow;
    EscapeThen(t, 0x44);
    hide Shaped, ConsumeEscape;
    var u := t.(parser := InEscape, highSurrogate := None);
    assert ConsumeEscape(u, 0x44) == LineFeed(u).(parser := InText) by { IndexIsLineFeed(u); }
  }

  lemma IndexIsLineFeed(t: Terminal)
    requires Shaped(t)
    ensures ConsumeEscape(t, 0x44) == LineFeed(t).(parser := InText)
  {
    hide LineFeed;
  }

  // ---- Inserting and deleting lines ----

  lemma OneLaw(t: Terminal, n: nat, final: CodeUnit)
    requires Shaped(t) && t.parser == InText && n <= MAX_INT && final in {0x4C, 0x4D, 0x40, 0x50, 0x4A, 0x4B}
    ensures var steps := Max(n, 1);
            var r := if final == 0x4C then InsertLines(Quiet(t), steps)
                     else if final == 0x4D then DeleteLines(Quiet(t), steps)
                     else if final == 0x40 then InsertCharacters(Quiet(t), steps)
                     else if final == 0x50 then EraseCharacters(Quiet(t), steps)
                     else if final == 0x4A then EraseDisplay(Quiet(t), n)
                     else EraseLine(Quiet(t), n);
            Run(t, Control(Printed([n]), final)) == if r.None? then None else Some(Quiet(r.value))
  {
    hide Run, Printed, Values, InsertLines, DeleteLines, InsertCharacters, EraseCharacters, EraseDisplay, EraseLine,
         AllInt32;
    NumbersHandled(t, [n], final);
  }

  /** `CSI n L` then `CSI n M`: only the rows pushed off the bottom are lost. */
  lemma LinesInsertedThenDeleted(t: Terminal, n: nat)
    requires Shaped(t) && t.parser == InText && CursorInGrid(t) && n <= MAX_INT
    ensures var lost := Min(Max(n, 1), t.rows - t.row);
            Run(t, Control(Printed([n]), 0x4C) + Control(Printed([n]), 0x4D)) ==
            Some(Quiet(t).(grid := t.grid[..t.rows - lost] + BlankGrid(t.columns, lost)))
  {
    hide Run, Printed, Control, InsertLines, DeleteLines, BlankGrid;
    OneLaw(t, n, 0x4C);
    InsertThenDeleteLines(Quiet(t), Max(n, 1));
    RunInPieces(t, Control(Printed([n]), 0x4C), Control(Printed([n]), 0x4D));
    var u := InsertLines(Quiet(t), Max(n, 1)).value;
    StillQuiet(t, n);
    assert Quiet(Quiet(u)) == Quiet(u) == u;
    OneLaw(Quiet(u), n, 0x4D);
  }

  /** `CSI n M` then `CSI n L`: exactly the deleted rows are blank. */
  lemma LinesDeletedThenInserted(t: Terminal, n: nat)
    requires Shaped(t) && t.parser == InText && CursorInGrid(t) && n <= MAX_INT
    ensures var gone := Min(Max(n, 1), t.rows - t.row);
            Run(t, Control(Printed([n]), 0x4D) + Control(Printed([n]), 0x4C)) ==
            Some(Quiet(t).(grid := BlankRows(t.grid, t.columns, t.row, t.row + gone)))
  {
    hide Run, Printed, Control, InsertLines, DeleteLines, BlankRows;
    OneLaw(t, n, 0x4D);
    DeleteThenInsertLines(Quiet(t), Max(n, 1));
    RunInPieces(t, Control(Printed([n]), 0x4D), Control(Printed([n]), 0x4C));
    var u := DeleteLines(Quiet(t), Max(n, 1)).value;
    StillQuiet(t, n);
    assert Quiet(Quiet(u)) == Quiet(u) == u;
    OneLaw(Quiet(u), n, 0x4C);
  }

  lemma StillQuiet(t: Terminal, n: nat)
    requires Shaped(t) && CursorInGrid(t)
    ensures var r := InsertLines(Quiet(t), Max(n, 1)); r.Some? && Quiet(r.value) == r.value
    ensures var r := DeleteLines(Quiet(t), Max(n, 1)); r.Some? && Quiet(r.value) == r.value
  {
    hide Inserted, Deleted, BlankRow;
  }

  // ---- Cell by cell ----

  /** Nothing but cells has changed, and the sequence is over. */
  ghost predicate OnlyCells(t: Terminal, r: Option<Terminal>) {
    r.Some? && Shaped(r.value) && r.value.rows == t.rows && r.value.columns == t.columns
    && r.value == Quiet(t).(grid := r.value.grid)
  }

  /** From `at` on everything has moved n places back; what came in is blank. */
  ghost predicate MovedBack<T>(before: seq<T>, after: seq<T>, at: int, n: int, blank: T) {
    |after| == |before| && 0 <= at && n >= 0 &&
    forall i :: 0 <= i < |after| ==>
      after[i] == if i < at then before[i] else if i < at + n then blank else before[i - n]
  }

  /** From `at` on n places have gone and the rest has moved up; what came in at the end is blank. */
  ghost predicate MovedUp<T>(before: seq<T>, after: seq<T>, at: int, n: int, blank: T) {
    |after| == |before| && 0 <= at && n >= 0 &&
    forall i :: 0 <= i < |after| ==>
      after[i] == if i < at then before[i] else if i + n < |before| then before[i + n] else blank
  }

  ghost predicate BlankedFrom(before: Row, after: Row, from: int, to: int) {
    |after| == |before| && forall j :: 0 <= j < |after| ==> after[j] == if from <= j < to then BLANK else before[j]
  }

  lemma InsertedMovesBack<T>(s: seq<T>, at: int, n: int, blank: T)
    requires 0 <= at <= |s| && n >= 0
    ensures MovedBack(s, Inserted(s, at, Min(n, |s| - at), blank), at, n, blank)
  {
    var m := Min(n, |s| - at);
    var r := Inserted(s, at, m, blank);
    forall i | 0 <= i < |s| ensures r[i] == if i < at then s[i] else if i < at + n then blank else s[i - n] {
      assert i >= at + m ==> r[i] == s[at..|s| - m][i - at - m];
    }
  }

  lemma DeletedMovesUp<T>(s: seq<T>, at: int, n: int, blank: T)
    requires 0 <= at <= |s| && n >= 0
    ensures MovedUp(s, Deleted(s, at, Min(n, |s| - at), blank), at, n, blank)
  {
    var m := Min(n, |s| - at);
    var r := Deleted(s, at, m, blank);
    forall i | 0 <= i < |s| ensures r[i] == if i < at then s[i] else if i + n < |s| then s[i + n] else blank {
      assert at <= i && i + m < |s| ==> r[i] == s[at + m..][i - at];
    }
  }

  lemma ErasedIsBlanked(row: Row, from: int, to: int)
    requires 0 <= from <= to <= |row|
    ensures BlankedFrom(row, Erased(row, from, to), from, to)
  {
  }

  lemma LinesMoved(t: Terminal, steps: int)
    requires Shaped(t) && CursorInGrid(t) && steps >= 1
    ensures var r := InsertLines(t, steps);
            r.Some? && r.value == t.(grid := r.value.grid)
            && MovedBack(t.grid, r.value.grid, t.row, steps, BlankRow(t.columns))
    ensures var r := DeleteLines(t, steps);
            r.Some? && r.value == t.(grid := r.value.grid)
            && MovedUp(t.grid, r.value.grid, t.row, steps, BlankRow(t.columns))
  {
    hide Inserted, Deleted, BlankRow, MovedBack, MovedUp;
    InsertedMovesBack(t.grid, t.row, steps, BlankRow(t.columns));
    DeletedMovesUp(t.grid, t.row, steps, BlankRow(t.columns));
    assert ShiftAmount(t, steps) == Min(steps, |t.grid| - t.row);
  }

  /** `CSI n L` pushes the rows from the cursor on down by n. */
  lemma LinesInserted(t: Terminal, n: nat)
    requires Shaped(t) && t.parser == InText && CursorInGrid(t) && n <= MAX_INT
    ensures var r := Run(t, Control(Printed([n]), 0x4C));
            OnlyCells(t, r) && MovedBack(t.grid, r.value.grid, t.row, Max(n, 1), BlankRow(t.columns))
  {
    hide Run, Printed, Control, BlankRow, InsertLines, MovedBack, MovedUp;
    OneLaw(t, n, 0x4C);
    LinesMoved(Quiet(t), Max(n, 1));
  }

  /** `CSI n M` takes n rows out from the cursor on; the rows below move up. */
  lemma LinesDeleted(t: Terminal, n: nat)
    requires Shaped(t) && t.parser == InText && CursorInGrid(t) && n <= MAX_INT
    ensures var r := Run(t, Control(Printed([n]), 0x4D));
            OnlyCells(t, r) && MovedUp(t.grid, r.value.grid, t.row, Max(n, 1), BlankRow(t.columns))
  {
    hide Run, Printed, Control, BlankRow, DeleteLines, MovedBack, MovedUp;
    OneLaw(t, n, 0x4D);
    LinesMoved(Quiet(t), Max(n, 1));
  }

  /** Only the cursor's row is another one. */
  ghost predicate OnlyCursorRow(t: Terminal, r: Option<Terminal>) {
    OnlyCells(t, r) && 0 <= t.row < t.rows == |t.grid| && r.value.grid == t.grid[t.row := r.value.grid[t.row]]
  }

  lemma OnlyRow(t: Terminal, r: Option<Terminal>, row: Row)
    requires Shaped(t) && CursorInGrid(t) && |row| == t.columns
    requires r == Some(Quiet(t).(grid := t.grid[t.row := row]))
    ensures OnlyCursorRow(t, r) && r.value.grid[t.row] == row
  {
    assert forall i :: 0 <= i < t.rows && i != t.row ==> r.value.grid[i] == t.grid[i];
  }

  lemma CharactersMoved(t: Terminal, steps: int) returns (row: Row)
    requires Shaped(t) && CursorInGrid(t) && steps >= 1
    ensures InsertCharacters(t, steps) == Some(t.(grid := t.grid[t.row := row]))
    ensures |row| == t.columns && MovedBack(t.grid[t.row], row, t.column, steps, BLANK)
  {
    hide Inserted, MovedBack;
    row := Inserted(t.grid[t.row], t.column, Min(steps, t.columns - t.column), BLANK);
    InsertedMovesBack(t.grid[t.row], t.column, steps, BLANK);
    if t.column == t.columns {
      assert row == t.grid[t.row] by { InsertedNone(t.grid[t.row], BLANK); }
      assert t.grid[t.row := row] == t.grid;
    }
  }

  lemma InsertedNone<T>(s: seq<T>, blank: T)
    ensures Inserted(s, |s|, 0, blank) == s
  {
  }

  /** `CSI n @` pushes the cells from the cursor on to the right by n. */
  lemma CharactersInserted(t: Terminal, n: nat)
    requires Shaped(t) && t.parser == InText && CursorInGrid(t) && n <= MAX_INT
    ensures var r := Run(t, Control(Printed([n]), 0x40));
            OnlyCursorRow(t, r) && MovedBack(t.grid[t.row], r.value.grid[t.row], t.column, Max(n, 1), BLANK)
  {
    hide Run, Printed, Control, InsertCharacters, MovedBack, OnlyCells;
    OneLaw(t, n, 0x40);
    var row := CharactersMoved(Quiet(t), Max(n, 1));
    OnlyRow(t, Run(t, Control(Printed([n]), 0x40)), row);
  }

  lemma CellsErased(t: Terminal, start: int, end: int) returns (row: Row)
    requires Shaped(t) && CursorInGrid(t) && 0 <= start <= end <= t.columns
    ensures EraseCells(t, start, end) == Some(t.(grid := t.grid[t.row := row]))
    ensures |row| == t.columns && BlankedFrom(t.grid[t.row], row, start, end)
  {
    hide Erased, BlankedFrom;
    row := Erased(t.grid[t.row], start, end);
    ErasedIsBlanked(t.grid[t.row], start, end);
    if start == end {
      assert row == t.grid[t.row] by { ErasedNone(t.grid[t.row], start); }
      assert t.grid[t.row := row] == t.grid;
    }
  }

  lemma ErasedNone(row: Row, at: int)
    requires 0 <= at <= |row|
    ensures Erased(row, at, at) == row
  {
  }

  lemma BlankedBeyond(before: Row, after: Row, from: int, to: int, beyond: int)
    requires BlankedFrom(before, after, from, to) && (to == beyond || |before| <= to <= beyond)
    ensures BlankedFrom(before, after, from, beyond)
  {
  }

  /** `CSI n P` blanks n cells from the cursor on. */
  lemma CharactersErased(t: Terminal, n: nat)
    requires Shaped(t) && t.parser == InText && CursorInGrid(t) && n <= MAX_INT - MAX_SIDE
    ensures var r := Run(t, Control(Printed([n]), 0x50));
            OnlyCursorRow(t, r)
            && BlankedFrom(t.grid[t.row], r.value.grid[t.row], t.column, t.column + Max(n, 1))
  {
    hide Run, Printed, Control, EraseCells, BlankedFrom, OnlyCells;
    OneLaw(t, n, 0x50);
    var end := Min(t.column + Max(n, 1), t.columns);
    var row := CellsErased(Quiet(t), t.column, end);
    OnlyRow(t, Run(t, Control(Printed([n]), 0x50)), row);
    BlankedBeyond(t.grid[t.row], row, t.column, end, t.column + Max(n, 1));
  }

  /** `CSI K`, `CSI 1 K` and `CSI 2 K` blank the cursor's row from the cursor on, before it, and all of it. */
  lemma LineErased(t: Terminal, mode: nat)
    requires Shaped(t) && t.parser == InText && CursorInGrid(t) && mode <= 2
    ensures var r := Run(t, Control(Printed([mode]), 0x4B));
            OnlyCursorRow(t, r)
            && BlankedFrom(t.grid[t.row], r.value.grid[t.row], if mode == 0 then t.column else 0,
                           if mode == 1 then t.column else t.columns)
  {
    hide Run, Printed, Control, EraseCells, BlankedFrom, OnlyCells;
    OneLaw(t, mode, 0x4B);
    var row := CellsErased(Quiet(t), if mode == 0 then t.column else 0, if mode == 1 then t.column else t.columns);
    OnlyRow(t, Run(t, Control(Printed([mode]), 0x4B)), row);
  }

  /** Whether `CSI mode J` blanks the cell: those from the cursor on, those before it, or all. */
  predicate InErased(t: Terminal, mode: nat, i: int, j: int) {
    mode == 2 || (i > t.row || (i == t.row && j >= t.column)) == (mode == 0)
  }

  ghost predicate DisplayBlanked(t: Terminal, grid: seq<Row>, mode: nat) {
    |grid| == |t.grid| && forall i :: 0 <= i < |grid| ==>
      |grid[i]| == |t.grid[i]| && forall j :: 0 <= j < |grid[i]| ==>
        grid[i][j] == if InErased(t, mode, i, j) then BLANK else t.grid[i][j]
  }

  lemma DisplayCells(t: Terminal, mode: nat)
    requires Shaped(t) && CursorInGrid(t) && mode <= 2
    ensures var r := EraseDisplay(t, mode);
            r.Some? && r.value == t.(grid := r.value.grid) && DisplayBlanked(t, r.value.grid, mode)
  {
    if mode < 2 {
      EraseDisplayRows(t, mode);
      hide EraseDisplay, BlankRows;
      ErasedIsBlanked(t.grid[t.row], t.column, t.columns);
      ErasedIsBlanked(t.grid[t.row], 0, t.column);
      hide Erased;
      var grid := EraseDisplay(t, mode).value.grid;
      forall i, j | 0 <= i < |grid| && 0 <= j < |grid[i]|
        ensures grid[i][j] == if InErased(t, mode, i, j) then BLANK else t.grid[i][j]
      {
      }
    }
  }

  /** `CSI J`, `CSI 1 J` and `CSI 2 J` blank the screen from the cursor on, before it, and all of it. */
  lemma DisplayErased(t: Terminal, mode: nat)
    requires Shaped(t) && t.parser == InText && CursorInGrid(t) && mode <= 2
    ensures var r := Run(t, Control(Printed([mode]), 0x4A));
            OnlyCells(t, r) && DisplayBlanked(t, r.value.grid, mode)
  {
    hide Run, Printed, Control, EraseDisplay, DisplayBlanked;
    OneLaw(t, mode, 0x4A);
    DisplayCells(Quiet(t), mode);
    DisplayOfQuiet(t, EraseDisplay(Quiet(t), mode).value.grid, mode);
  }

  lemma DisplayOfQuiet(t: Terminal, grid: seq<Row>, mode: nat)
    requires DisplayBlanked(Quiet(t), grid, mode)
    ensures DisplayBlanked(t, grid, mode)
  {
  }

  // ---- Graphic rendition and modes ----

  lemma PenChanged(t: Terminal, codes: seq<nat>)
    requires Shaped(t) && t.parser == InText && codes != [] && forall i :: 0 <= i < |codes| ==> codes[i] <= MAX_INT
    ensures Run(t, Control(Printed(codes), 0x6D)) == Some(Quiet(t).(pen := Sgr(SgrCodes(codes), 0, t.pen)))
  {
    hide Run, Printed, Values, Sgr, SgrCodes;
    NumbersHandled(t, codes, 0x6D);
  }

  /** `CSI m` puts the pen back to what it was at the start. */
  lemma PenReset(t: Terminal)
    requires Shaped(t) && t.parser == InText
    ensures Run(t, Control([], 0x6D)) == Some(Quiet(t).(pen := Initial(t.columns, t.rows).pen))
  {
    hide Run, Printed, Control;
    NoNumber(t, 0x6D);
    PenChanged(t, [0]);
    assert SgrCodes([0]) == [0];
    assert Sgr([0], 0, t.pen) == DEFAULT_PEN;
  }

  /** `CSI 38 ; 2 ; r ; g ; b m` colours what is written, `48` what is behind it. */
  lemma TrueColor(t: Terminal, r: nat, g: nat, b: nat)
    requires Shaped(t) && t.parser == InText && r <= 255 && g <= 255 && b <= 255
    ensures Run(t, Control(Printed([38, 2, r, g, b]), 0x6D)) ==
            Some(Quiet(t).(pen := t.pen.(foreground := r * 65536 + g * 256 + b, ansiIndex := None)))
    ensures Run(t, Control(Printed([48, 2, r, g, b]), 0x6D)) ==
            Some(Quiet(t).(pen := t.pen.(background := Some(r * 65536 + g * 256 + b))))
  {
    hide Run, Printed, Control;
    PenChanged(t, [38, 2, r, g, b]);
    PenChanged(t, [48, 2, r, g, b]);
    ExtendedPen(38, r, g, b, t.pen);
    ExtendedPen(48, r, g, b, t.pen);
  }

  lemma ExtendedPen(code: nat, r: nat, g: nat, b: nat, pen: Pen)
    requires (code == 38 || code == 48) && r <= 255 && g <= 255 && b <= 255
    ensures var color := r * 65536 + g * 256 + b;
            Sgr(SgrCodes([code, 2, r, g, b]), 0, pen) ==
            if code == 48 then pen.(background := Some(color)) else pen.(foreground := color, ansiIndex := None)
  {
    var codes: seq<int> := [code, 2, r, g, b];
    assert codes[0] in codes && SgrCodes(codes) == codes;
    assert SgrStep(codes, 0, pen).1 == 5;
    assert Sgr(codes, 5, SgrStep(codes, 0, pen).0) == SgrStep(codes, 0, pen).0;
  }

  /** Bold, underline and reverse are each set by one code and cleared by another. */
  lemma AttributesSetAndCleared(t: Terminal)
    requires Shaped(t) && t.parser == InText
    ensures Run(t, Control(Printed([1]), 0x6D)) == Some(Quiet(t).(pen := t.pen.(bold := true)))
    ensures Run(t, Control(Printed([4]), 0x6D)) == Some(Quiet(t).(pen := t.pen.(underline := true)))
    ensures Run(t, Control(Printed([7]), 0x6D)) == Some(Quiet(t).(pen := t.pen.(reverse := true)))
    ensures Run(t, Control(Printed([22]), 0x6D)) == Some(Quiet(t).(pen := t.pen.(bold := false)))
    ensures Run(t, Control(Printed([24]), 0x6D)) == Some(Quiet(t).(pen := t.pen.(underline := false)))
    ensures Run(t, Control(Printed([27]), 0x6D)) == Some(Quiet(t).(pen := t.pen.(reverse := false)))
  {
    hide Run, Printed, Control, Sgr, SgrStep;
    OneCode(t, 1);
    OneCode(t, 4);
    OneCode(t, 7);
    OneCode(t, 22);
    OneCode(t, 24);
    OneCode(t, 27);
    CodesOfAttributes(t.pen);
  }

  lemma OneCode(t: Terminal, code: nat)
    requires Shaped(t) && t.parser == InText && 0 < code <= MAX_INT && code != 38 && code != 48
    ensures Run(t, Control(Printed([code]), 0x6D)) == Some(Quiet(t).(pen := SgrStep([code], 0, t.pen).0))
  {
    hide Run, Printed, Control;
    PenChanged(t, [code]);
    var codes: seq<int> := [code];
    assert codes[0] in codes && SgrCodes(codes) == codes;
    assert SgrStep(codes, 0, t.pen).1 == 1;
    assert Sgr(codes, 1, SgrStep(codes, 0, t.pen).0) == SgrStep(codes, 0, t.pen).0;
  }

  lemma CodesOfAttributes(pen: Pen)
    ensures SgrStep([1], 0, pen).0 == pen.(bold := true) && SgrStep([22], 0, pen).0 == pen.(bold := false)
    ensures SgrStep([4], 0, pen).0 == pen.(underline := true) && SgrStep([24], 0, pen).0 == pen.(underline := false)
    ensures SgrStep([7], 0, pen).0 == pen.(reverse := true) && SgrStep([27], 0, pen).0 == pen.(reverse := false)
  {
  }

  /** Red, green and blue at full or not at all, by the bits of the colour's number. */
  function ColorBits(k: nat): nat {
    k % 2 * 0x1_0000 + k / 2 % 2 * 0x100 + k / 4 % 2
  }

  /** The eight basic colours; yellow is brown. */
  function Basic(k: nat): nat { if k == 3 then 0xAA_5500 else 0xAA * ColorBits(k) }

  function Bright(k: nat): nat { 0x55_5555 + 0xAA * ColorBits(k) }

  lemma TableOfColors(k: nat)
    requires k <= 7
    ensures AnsiColor(k, false) == Basic(k) && AnsiColor(k, true) == Bright(k)
  {
    assert k == 0 || k == 1 || k == 2 || k == 3 || k == 4 || k == 5 || k == 6 || k == 7;
  }

  /** The codes 30 to 37, 40 to 47, 90 to 97 and 100 to 107, and the defaults 39 and 49. */
  lemma BasicColors(t: Terminal, k: nat)
    requires Shaped(t) && t.parser == InText && k <= 7
    ensures Run(t, Control(Printed([30 + k]), 0x6D)) ==
            Some(Quiet(t).(pen := t.pen.(foreground := Basic(k), ansiIndex := Some(k))))
    ensures Run(t, Control(Printed([90 + k]), 0x6D)) ==
            Some(Quiet(t).(pen := t.pen.(foreground := Bright(k), ansiIndex := None)))
    ensures Run(t, Control(Printed([40 + k]), 0x6D)) == Some(Quiet(t).(pen := t.pen.(background := Some(Basic(k)))))
    ensures Run(t, Control(Printed([100 + k]), 0x6D)) == Some(Quiet(t).(pen := t.pen.(background := Some(Bright(k)))))
    ensures Run(t, Control(Printed([39]), 0x6D)) ==
            Some(Quiet(t).(pen := t.pen.(foreground := DEFAULT_PEN.foreground, ansiIndex := None)))
    ensures Run(t, Control(Printed([49]), 0x6D)) == Some(Quiet(t).(pen := t.pen.(background := None)))
  {
    hide Run, Printed, Control, Sgr, SgrStep, AnsiColor, Basic, Bright, Shaped;
    OneCode(t, 30 + k);
    OneCode(t, 90 + k);
    OneCode(t, 40 + k);
    OneCode(t, 100 + k);
    OneCode(t, 39);
    OneCode(t, 49);
    CodesOfColors(t.pen, k);
  }

  lemma CodesOfColors(pen: Pen, k: nat)
    requires k <= 7
    ensures SgrStep([30 + k], 0, pen).0 == pen.(foreground := Basic(k), ansiIndex := Some(k))
    ensures SgrStep([90 + k], 0, pen).0 == pen.(foreground := Bright(k), ansiIndex := None)
    ensures SgrStep([40 + k], 0, pen).0 == pen.(background := Some(Basic(k)))
    ensures SgrStep([100 + k], 0, pen).0 == pen.(background := Some(Bright(k)))
    ensures SgrStep([39], 0, pen).0 == pen.(foreground := DEFAULT_PEN.foreground, ansiIndex := None)
    ensures SgrStep([49], 0, pen).0 == pen.(background := None)
  {
    hide AnsiColor, Basic, Bright;
    TableOfColors(k);
  }

  /** The six levels of a channel of the colour cube. */
  function Level(x: nat): nat { if x == 0 then 0 else 55 + 40 * x }

  /** The 256 colours: eight basic, eight bright, a cube of six levels a side, and 24 grays. */
  lemma Palette(n: nat, r: nat, g: nat, b: nat)
    requires r <= 5 && g <= 5 && b <= 5
    ensures n <= 7 ==> Ansi256Color(n) == Basic(n) && Ansi256Color(8 + n) == Bright(n)
    ensures n <= 23 ==> Ansi256Color(232 + n) == (8 + 10 * n) * 0x1_0101
    ensures Ansi256Color(16 + 36 * r + 6 * g + b) == Level(r) * 0x1_0000 + Level(g) * 0x100 + Level(b)
  {
    hide AnsiColor, Basic, Bright;
    if n <= 7 { TableOfColors(n); }
    CubeParts(r, g, b);
  }

  lemma CubeParts(r: nat, g: nat, b: nat)
    requires r <= 5 && g <= 5 && b <= 5
    ensures var color := 36 * r + 6 * g + b; color / 36 % 6 == r && color / 6 % 6 == g && color % 6 == b
  {
  }

  /** `CSI 38 ; 5 ; n m` and `CSI 48 ; 5 ; n m` take a colour of that palette. */
  lemma PaletteColor(t: Terminal, n: nat)
    requires Shaped(t) && t.parser == InText && n <= 255
    ensures Run(t, Control(Printed([38, 5, n]), 0x6D)) ==
            Some(Quiet(t).(pen := t.pen.(foreground := Ansi256Color(n), ansiIndex := None)))
    ensures Run(t, Control(Printed([48, 5, n]), 0x6D)) ==
            Some(Quiet(t).(pen := t.pen.(background := Some(Ansi256Color(n)))))
  {
    hide Run, Printed, Control, Ansi256Color;
    PenChanged(t, [38, 5, n]);
    PenChanged(t, [48, 5, n]);
    PalettePen(38, n, t.pen);
    PalettePen(48, n, t.pen);
  }

  lemma PalettePen(code: nat, n: nat, pen: Pen)
    requires code == 38 || code == 48
    ensures Sgr(SgrCodes([code, 5, n]), 0, pen) ==
            if code == 48 then pen.(background := Some(Ansi256Color(n)))
            else pen.(foreground := Ansi256Color(n), ansiIndex := None)
  {
    hide Ansi256Color;
    var codes: seq<int> := [code, 5, n];
    assert codes[0] in codes && SgrCodes(codes) == codes;
    assert SgrStep(codes, 0, pen).1 == 3;
    assert Sgr(codes, 3, SgrStep(codes, 0, pen).0) == SgrStep(codes, 0, pen).0;
  }

  /** A character is written with the pen at the cursor, which moves on; bold makes a basic colour bright. */
  lemma CharacterWritten(t: Terminal, c: CodeUnit, k: nat)
    requires Shaped(t) && t.parser == InText && CursorInGrid(t) && t.column < t.columns && IsPrintable(c)
    requires k <= 7 && (t.pen.ansiIndex == None || t.pen.ansiIndex == Some(k))
    ensures var color := if t.pen.bold && t.pen.ansiIndex.Some? then Bright(k) else t.pen.foreground;
            var cell := Cell(c, color, t.pen.background, t.pen.bold, t.pen.underline, t.pen.reverse);
            Consume(t, c) ==
            Some(t.(highSurrogate := None, column := t.column + 1,
                    grid := t.grid[t.row := t.grid[t.row][t.column := cell]]))
  {
    hide AnsiColor, Bright;
    TableOfColors(k);
  }

  /** `CSI ? 25 h` shows the cursor and `CSI ? 25 l` hides it. */
  lemma CursorShownOrHidden(t: Terminal)
    requires Shaped(t) && t.parser == InText
    ensures Run(t, Control([0x3F] + Printed([25]), 0x68)) == Some(Quiet(t).(visible := true))
    ensures Run(t, Control([0x3F] + Printed([25]), 0x6C)) == Some(Quiet(t).(visible := false))
  {
    hide Run, Printed, Values;
    PrintedUnits([25]);
    PrivateValues([25]);
    ControlIsHandled(t, [0x3F] + Printed([25]), 0x68);
    ControlIsHandled(t, [0x3F] + Printed([25]), 0x6C);
  }

  lemma PrivateValues(numbers: seq<nat>)
    requires numbers != [] && forall i :: 0 <= i < |numbers| ==> numbers[i] <= MAX_INT
    ensures Values([0x3F] + Printed(numbers)) == numbers
  {
    hide Join, Split, Decimal, ParseInt, Printed;
    PrintedUnits(numbers);
    SomethingPrinted(numbers);
    ValuesReadBack(numbers);
    var raw := Printed(numbers);
    assert WithoutPrefix(raw, 0x3F) == raw;
    assert ([0x3F] + raw)[1..] == raw;
  }

  // ---- Single characters ----

  /** Carriage return, backspace and tab move within the row; a tab stops at the next multiple of eight. */
  lemma Controls(t: Terminal)
    requires Shaped(t) && t.parser == InText && CursorInGrid(t)
    ensures Consume(t, 0x0D) == Some(t.(highSurrogate := None, column := 0))
    ensures Consume(t, 0x08) == Some(t.(highSurrogate := None, column := Max(t.column - 1, 0)))
    ensures var r := Consume(t, 0x09);
            && r.Some? && r.value == t.(highSurrogate := None, column := r.value.column)
            && if t.column / 8 * 8 + 8 < t.columns then
                 r.value.column % 8 == 0 && t.column < r.value.column <= t.column + 8
               else r.value.column == t.columns - 1
  {
  }

  /** Every other control character is ignored. */
  lemma OtherControlsIgnored(t: Terminal, c: CodeUnit)
    requires Shaped(t) && t.parser == InText && (c < 0x20 || 0x7F <= c < 0xA0)
    requires c !in {0x08, 0x09, 0x0A, 0x0D, 0x1B, 0x9B}
    ensures Consume(t, c) == Some(t.(highSurrogate := None))
  {
  }

  /** Two halves of a pair print one replacement character; a half alone prints nothing. */
  lemma PairPrintsOnce(t: Terminal, high: CodeUnit, low: CodeUnit)
    requires Shaped(t) && 0xD800 <= high <= 0xDBFF && 0xDC00 <= low <= 0xDFFF
    ensures Run(t, [high, low]) == Put(t.(highSurrogate := None), 0xFFFD)
    ensures Run(t, [high]) == Some(t.(highSurrogate := Some(high)))
    ensures t.highSurrogate == None ==> Consume(t, low) == Some(t)
  {
    hide Put;
    assert [high, low][..1] == [high] && [high][..0] == [];
    assert Run(t, []) == Some(t);
    assert Run(t, [high]) == Consume(t, high);
    var u := t.(highSurrogate := Some(high));
    assert Run(t, [high, low]) == Consume(u, low);
  }

  /** `ESC c` blanks the screen, forgets the scrollback and puts everything back to the start. */
  lemma FullReset(t: Terminal)
    requires Shaped(t) && t.parser == InText
    ensures Run(t, [ESCAPE, 0x63]).Some?
    ensures var u := Run(t, [ESCAPE, 0x63]).value;
            && u.columns == t.columns && u.rows == t.rows && u.parser == InText && u.parameters == []
            && u.row == 0 && u.column == 0 && u.savedRow == 0 && u.savedColumn == 0
            && u.pen == Pen(0xE8E3D8, None, None, false, false, false) && u.visible && u.highSurrogate == None
            && u.scrollback == [] && |u.grid| == t.rows
            && forall i, j :: 0 <= i < t.rows && 0 <= j < t.columns ==>
                 |u.grid[i]| == t.columns && u.grid[i][j] == Cell(0x20, 0xE8E3D8, None, false, false, false)
  {
    hide Run;
    EscapeThen(t, 0x63);
  }

  /** An escape or a control sequence that is not known does nothing. */
  lemma UnknownIgnored(t: Terminal, c: CodeUnit, parameters: Text)
    requires Shaped(t) && t.parser == InText
    ensures !IsHighSurrogate(c) && !IsLowSurrogate(c) && c !in {0x5B, 0x5D, 0x37, 0x38, 0x44, 0x4D, 0x63} ==>
              Run(t, [ESCAPE, c]) == Some(t.(highSurrogate := None))
    ensures ParameterText(parameters) && 0x40 <= c <= 0x7E && c !in {0x40, 0x41, 0x42, 0x43, 0x44, 0x47, 0x48, 0x4A,
              0x4B, 0x4C, 0x4D, 0x50, 0x60, 0x61, 0x64, 0x65, 0x66, 0x68, 0x6C, 0x6D, 0x73, 0x75} ==>
              Run(t, Control(parameters, c)) == Some(Quiet(t))
  {
    hide Run, Values, Control, LineFeed;
    if !IsHighSurrogate(c) && !IsLowSurrogate(c) {
      EscapeThen(t, c);
    }
    if ParameterText(parameters) && 0x40 <= c <= 0x7E {
      ControlIsHandled(t, parameters, c);
    }
  }

  /** An operating system command is read past up to its BEL, whatever it says. */
  lemma CommandIgnored(t: Terminal, command: Text)
    requires Shaped(t) && t.parser == InText && 0x07 !in command && ESCAPE !in command
    requires forall i :: 0 <= i < |command| ==> !IsHighSurrogate(command[i]) && !IsLowSurrogate(command[i])
    ensures Run(t, [ESCAPE, 0x5D] + command + [0x07]) == Some(t.(highSurrogate := None))
  {
    hide Run;
    EscapeThen(t, 0x5D);
    RunInPieces(t, [ESCAPE, 0x5D], command);
    var u := t.(parser := InOsc, highSurrogate := None);
    CommandRead(u, command);
    RunSnoc(t, [ESCAPE, 0x5D] + command, 0x07);
  }

  lemma {:induction false} CommandRead(t: Terminal, command: Text)
    requires Shaped(t) && t.parser == InOsc && t.highSurrogate == None && 0x07 !in command && ESCAPE !in command
    requires forall i :: 0 <= i < |command| ==> !IsHighSurrogate(command[i]) && !IsLowSurrogate(command[i])
    ensures Run(t, command) == Some(t)
    decreases |command|
  {
    if command != [] {
      CommandRead(t, command[..|command| - 1]);
      assert command[|command| - 1] in command;
    }
  }

  // ---- Resizing ----

  /** What fits into the new size stays where it was; everything else of the new screen is blank. */
  lemma ResizeKeepsOverlap(t: Terminal, columns: int, rows: int)
    requires Shaped(t) && 20 <= t.columns <= 240 && 4 <= t.rows <= 400 && CursorInGrid(t)
    ensures var u := Resize(t, columns, rows);
            && u.columns == Max(20, Min(columns, 240)) && u.rows == Max(4, Min(rows, 400))
            && (forall i, j :: 0 <= i < u.rows && 0 <= j < u.columns ==>
                  u.grid[i][j] == if i < t.rows && j < t.columns then t.grid[i][j] else BLANK)
            && u.row == Min(t.row, u.rows - 1)
            && (u.columns != t.columns || u.rows != t.rows ==> u.column == Min(t.column, u.columns - 1))
            && u.scrollback == t.scrollback && u.savedRow == t.savedRow && u.savedColumn == t.savedColumn
            && u.pen == t.pen && u.parser == t.parser && u.visible == t.visible
  {
  }
}
