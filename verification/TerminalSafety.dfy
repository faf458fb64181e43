/** Which inputs keep the cursor inside the grid, and when the terminal can fail at all. */
module TerminalSafety {
  import opened Numbers
  import opened Sequences
  import opened Utf16
  import opened TerminalModel

  predicate InGrid(t: Terminal) {
    CursorInGrid(t) && SavedInGrid(t)
  }

  /**
   The received byte ends a relative cursor move whose 32-bit result passes the clamp on the wrong
   side: the move up and the move left are clamped at 0 only, the moves down and right at the last
   row and column only.
   */
  predicate LeavesGrid(t: Terminal, c: CodeUnit) {
    t.parser == InCsi &&
    var n := ValueOr(Values(t.parameters), 0, 1);
    || (c == 0x41 && Wrap(t.row - n) >= t.rows)
    || ((c == 0x42 || c == 0x65) && Wrap(t.row + n) < 0)
    || ((c == 0x43 || c == 0x61) && Wrap(t.column + n) < 0)
    || (c == 0x44 && Wrap(t.column - n) > t.columns)
  }

  lemma EditStaysInGrid(t: Terminal, c: CodeUnit, values: seq<int>)
    requires Shaped(t) && InGrid(t)
    ensures EditGrid(t, c, values).Some? && InGrid(EditGrid(t, c, values).value)
  {
    hide Inserted, Deleted, BlankRows, AllInt32, EraseDisplay, EraseLine, EraseCharacters, InsertCharacters,
         InsertLines, DeleteLines;
    var n := ValueOr(values, 0, 1);
    var mode := ValueOr(values, 0, 0);
    ErasuresStayInGrid(t, n, mode);
    ShiftsStayInGrid(t, n);
  }

  lemma ErasuresStayInGrid(t: Terminal, n: int, mode: int)
    requires Shaped(t) && InGrid(t)
    ensures EraseDisplay(t, mode).Some? && InGrid(EraseDisplay(t, mode).value)
    ensures EraseLine(t, mode).Some? && InGrid(EraseLine(t, mode).value)
    ensures EraseCharacters(t, n).Some? && InGrid(EraseCharacters(t, n).value)
  {
    hide Erased, BlankRows, BlankGrid;
  }

  lemma ShiftsStayInGrid(t: Terminal, n: int)
    requires Shaped(t) && InGrid(t)
    ensures InsertCharacters(t, n).Some? && InGrid(InsertCharacters(t, n).value)
    ensures InsertLines(t, n).Some? && InGrid(InsertLines(t, n).value)
    ensures DeleteLines(t, n).Some? && InGrid(DeleteLines(t, n).value)
  {
    hide Inserted, Deleted;
  }

  lemma MoveStaysInGrid(t: Terminal, c: CodeUnit)
    requires Shaped(t) && InGrid(t) && t.parser == InCsi
    ensures var move := MovedCursor(t, c, Values(t.parameters));
            if move.Some? then
              (0 <= move.value.row < t.rows && 0 <= move.value.column <= t.columns <==> !LeavesGrid(t, c))
            else !LeavesGrid(t, c)
  {
    hide Values, AllInt32;
  }

  lemma CsiStaysInGrid(t: Terminal, c: CodeUnit)
    requires Shaped(t) && InGrid(t) && t.parser == InCsi
    ensures HandleCsi(t, c, t.parameters).Some?
    ensures InGrid(HandleCsi(t, c, t.parameters).value) <==> !LeavesGrid(t, c)
  {
    MoveStaysInGrid(t, c);
    EditStaysInGrid(t, c, Values(t.parameters));
  }

  lemma PutStaysInGrid(t: Terminal, c: CodeUnit)
    requires Shaped(t) && InGrid(t)
    ensures Put(t, c).Some? && InGrid(Put(t, c).value)
  {
  }

  lemma TextStaysInGrid(t: Terminal, c: CodeUnit)
    requires Shaped(t) && InGrid(t)
    ensures ConsumeText(t, c).Some? && InGrid(ConsumeText(t, c).value)
  {
    PutStaysInGrid(t, c);
  }

  lemma EscapeStaysInGrid(t: Terminal, c: CodeUnit)
    requires Shaped(t) && InGrid(t)
    ensures InGrid(ConsumeEscape(t, c))
  {
  }

  lemma ConsumeCsiStaysInGrid(t: Terminal, c: CodeUnit)
    requires Shaped(t) && InGrid(t) && t.parser == InCsi
    ensures ConsumeCsi(t, c).Some?
    ensures InGrid(ConsumeCsi(t, c).value) <==> !LeavesGrid(t, c)
  {
    CsiStaysInGrid(t, c);
  }

  lemma SurrogateStaysInGrid(t: Terminal, c: CodeUnit)
    requires Shaped(t) && InGrid(t)
    ensures ConsumeSurrogate(t, c).Some? && InGrid(ConsumeSurrogate(t, c).value)
  {
    PutStaysInGrid(t.(highSurrogate := None), REPLACEMENT);
  }

  /** From inside the grid one character never fails, and it leaves the grid exactly when `LeavesGrid` says. */
  lemma StepStaysInGrid(t: Terminal, c: CodeUnit)
    requires Shaped(t) && InGrid(t)
    ensures Consume(t, c).Some?
    ensures InGrid(Consume(t, c).value) <==> !LeavesGrid(t, c)
  {
    hide Put, ConsumeText, ConsumeEscape, ConsumeCsi, ConsumeSurrogate, Values;
    var u := t.(highSurrogate := None);
    assert LeavesGrid(u, c) == LeavesGrid(t, c);
    if IsHighSurrogate(c) || IsLowSurrogate(c) {
      SurrogateStaysInGrid(t, c);
    } else {
      match t.parser
      case InText => TextStaysInGrid(u, c);
      case InEscape => EscapeStaysInGrid(u, c);
      case InCsi => ConsumeCsiStaysInGrid(u, c);
      case InOsc =>
    }
  }

  /** No character of `text` leaves the grid, as long as the run gets to it. */
  ghost predicate NeverLeaves(t: Terminal, text: Text)
    requires Shaped(t)
    decreases |text|
  {
    text != [] ==>
      var before := text[..|text| - 1];
      && NeverLeaves(t, before)
      && (Run(t, before).Some? ==> !LeavesGrid(Run(t, before).value, text[|text| - 1]))
  }

  lemma {:induction false} RunStaysInGrid(t: Terminal, text: Text)
    requires Shaped(t) && InGrid(t) && NeverLeaves(t, text)
    ensures Run(t, text).Some? && InGrid(Run(t, text).value)
    decreases |text|
  {
    if text != [] {
      RunStaysInGrid(t, text[..|text| - 1]);
      StepStaysInGrid(Run(t, text[..|text| - 1]).value, text[|text| - 1]);
    }
  }

  /** Unsigned numbers that cannot overflow the cursor addition never leave the grid. */
  lemma SmallUnsignedStays(t: Terminal, c: CodeUnit)
    requires Shaped(t) && InGrid(t)
    requires 0 <= Values(t.parameters)[0] <= MAX_INT - Max(t.rows, t.columns)
    ensures !LeavesGrid(t, c)
  {
  }

  // ---- Texts that cannot leave the grid ----

  /** The parser alone, without a screen. */
  datatype Scanner = Scanner(state: Parser, parameters: Text)

  function ScannerOf(t: Terminal): Scanner {
    Scanner(t.parser, t.parameters)
  }

  function ScanStep(s: Scanner, c: CodeUnit): Scanner {
    if IsHighSurrogate(c) || IsLowSurrogate(c) then s
    else
      match s.state
      case InText =>
        if c == ESCAPE then s.(state := InEscape) else if c == 0x9B then Scanner(InCsi, []) else s
      case InEscape =>
        if c == 0x5B then Scanner(InCsi, [])
        else if c == 0x5D then s.(state := InOsc)
        else if c == 0x63 then Scanner(InText, [])
        else s.(state := InText)
      case InCsi =>
        if 0x40 <= c <= 0x7E then Scanner(InText, [])
        else if 0x20 <= c <= 0x3F then s.(parameters := s.parameters + [c])
        else s.(state := InText)
      case InOsc =>
        if c == 0x07 then s.(state := InText) else if c == ESCAPE then s.(state := InEscape) else s
  }

  function Scanned(s: Scanner, text: Text): Scanner {
    if text == [] then s else ScanStep(Scanned(s, text[..|text| - 1]), text[|text| - 1])
  }

  predicate IsRelativeMove(c: CodeUnit) {
    c == 0x41 || c == 0x42 || c == 0x65 || c == 0x43 || c == 0x61 || c == 0x44
  }

  /** The number of a relative move, if `c` ends one, is unsigned and too small to overflow. */
  predicate SmallMove(s: Scanner, c: CodeUnit) {
    s.state == InCsi && IsRelativeMove(c) ==> 0 <= Values(s.parameters)[0] <= MAX_INT - MAX_SIDE
  }

  predicate SmallMoves(s: Scanner, text: Text)
    decreases |text|
  {
    text != [] ==>
      SmallMoves(s, text[..|text| - 1]) && SmallMove(Scanned(s, text[..|text| - 1]), text[|text| - 1])
  }

  lemma PutKeepsParser(t: Terminal, c: CodeUnit)
    requires Shaped(t)
    ensures Put(t, c).Some? ==> ScannerOf(Put(t, c).value) == ScannerOf(t)
  {
  }

  /** The screen has no influence on the parser. */
  lemma ScanFollows(t: Terminal, c: CodeUnit)
    requires Shaped(t) && Consume(t, c).Some?
    ensures ScannerOf(Consume(t, c).value) == ScanStep(ScannerOf(t), c)
  {
    hide Put, HandleCsi;
    var quiet := t.(highSurrogate := None);
    PutKeepsParser(quiet, c);
    PutKeepsParser(quiet, REPLACEMENT);
  }

  lemma SmallMoveStays(t: Terminal, c: CodeUnit)
    requires Shaped(t) && InGrid(t) && SmallMove(ScannerOf(t), c)
    ensures !LeavesGrid(t, c)
  {
    hide Values;
    if t.parser == InCsi && IsRelativeMove(c) {
      SmallUnsignedStays(t, c);
    }
  }

  /**
   If the numbers of its relative moves are unsigned and too small to overflow, a text never leaves
   the grid: from any terminal inside it, in the middle of a sequence or not, the run does not fail.
   */
  lemma {:induction false} SmallMovesStay(t: Terminal, text: Text)
    requires Shaped(t) && InGrid(t) && SmallMoves(ScannerOf(t), text)
    ensures NeverLeaves(t, text) && Run(t, text).Some? && InGrid(Run(t, text).value)
    ensures ScannerOf(Run(t, text).value) == Scanned(ScannerOf(t), text)
    decreases |text|
  {
    hide InGrid, LeavesGrid, Consume, SmallMove, ScanStep;
    if text != [] {
      var front, c := text[..|text| - 1], text[|text| - 1];
      SmallMovesStay(t, front);
      var u := Run(t, front).value;
      SmallMoveStays(u, c);
      StepStaysInGrid(u, c);
      ScanFollows(u, c);
    }
  }

  /** What the parser reads of a text: surrogates pass it by, and do not end a control sequence. */
  function Visible(text: Text): Text {
    if text == [] then []
    else Visible(text[..|text| - 1]) + VisibleUnit(text[|text| - 1])
  }

  function VisibleUnit(c: CodeUnit): Text {
    if IsHighSurrogate(c) || IsLowSurrogate(c) then [] else [c]
  }

  /** No minus sign, and no ten digits in a row. */
  ghost predicate Harmless(s: Text) {
    0x2D !in s && forall i :: !TenDigitsAt(s, i)
  }

  predicate TenDigitsAt(s: Text, i: int) {
    0 <= i <= |s| - 10 && AllDigits(s[i..i + 10])
  }

  /** The parameters collected so far by an open control sequence. */
  function Collected(s: Scanner): Text {
    if s.state == InCsi then s.parameters else []
  }

  lemma HarmlessPart(a: Text, b: Text, c: Text)
    requires Harmless(a + b + c)
    ensures Harmless(b)
  {
    var all := a + b + c;
    forall i ensures !TenDigitsAt(b, i) {
      if 0 <= i <= |b| - 10 {
        assert all[|a| + i..|a| + i + 10] == b[i..i + 10];
        assert !TenDigitsAt(all, |a| + i);
      }
    }
  }

  function Ten(n: nat): nat {
    if n == 0 then 1 else 10 * Ten(n - 1)
  }

  lemma {:induction false} DigitsBelow(digits: Text)
    requires AllDigits(digits)
    ensures 0 <= DigitsValue(digits) < Ten(|digits|)
    decreases |digits|
  {
    if digits != [] {
      DigitsBelow(digits[..|digits| - 1]);
    }
  }

  lemma {:induction false} TenGrows(m: nat, n: nat)
    requires m <= n
    ensures Ten(m) <= Ten(n)
  {
    if m < n { TenGrows(m, n - 1); }
  }

  lemma NineDigits(digits: Text)
    requires AllDigits(digits) && |digits| <= 9
    ensures 0 <= DigitsValue(digits) < 1_000_000_000
  {
    DigitsBelow(digits);
    TenGrows(|digits|, 9);
    assert Ten(9) == 1_000_000_000 by {
      assert Ten(3) == 1000;
      assert Ten(6) == 1_000_000;
    }
  }

  lemma HarmlessNumber(s: Text)
    requires Harmless(s) && ParseInt(s).Some?
    ensures 0 <= ParseInt(s).value < 1_000_000_000
  {
    hide DigitsValue;
    var signed := |s| > 1 && (s[0] == 0x2D || s[0] == 0x2B);
    var digits := if signed then s[1..] else s;
    var from := if signed then 1 else 0;
    assert digits == s[from..];
    if from + 10 <= |s| { TenDigits(s, from); }
    hide TenDigitsAt;
    NineDigits(digits);
  }

  lemma TenDigits(s: Text, from: nat)
    requires from + 10 <= |s| && AllDigits(s[from..])
    ensures TenDigitsAt(s, from)
  {
    assert s[from..from + 10] == s[from..][..10];
  }

  lemma PrefixStripped(s: Text, prefix: CodeUnit)
    requires Harmless(s)
    ensures Harmless(WithoutPrefix(s, prefix))
  {
    if s != [] && s[0] == prefix {
      assert s == s[..1] + s[1..] + [];
      HarmlessPart(s[..1], s[1..], []);
    }
  }

  lemma HarmlessValue(raw: Text)
    requires Harmless(raw)
    ensures 0 <= Values(raw)[0] < 1_000_000_000
  {
    hide Harmless, Split, ParseInt;
    var stripped := WithoutPrefix(WithoutPrefix(raw, 0x3F), 0x3E);
    PrefixStripped(raw, 0x3F);
    PrefixStripped(WithoutPrefix(raw, 0x3F), 0x3E);
    var field := Split(stripped, SEMICOLON)[0];
    FirstPiece(stripped, SEMICOLON);
    assert stripped == [] + field + stripped[|field|..];
    HarmlessPart([], field, stripped[|field|..]);
    if ParseInt(field).Some? { HarmlessNumber(field); }
  }

  /** The open sequence is the end of what was read. */
  lemma {:induction false} CollectedSuffix(s: Scanner, text: Text) returns (before: Text)
    ensures Collected(s) + Visible(text) == before + Collected(Scanned(s, text))
    decreases |text|
  {
    if text == [] {
      before := [];
    } else {
      var front, c := text[..|text| - 1], text[|text| - 1];
      before := CollectedSuffix(s, front);
      var u := Scanned(s, front);
      assert Collected(s) + Visible(text) == (Collected(s) + Visible(front)) + VisibleUnit(c);
      assert before + (Collected(u) + VisibleUnit(c)) == (before + Collected(u)) + VisibleUnit(c);
      assert Collected(u) + [] == Collected(u);
      if Collected(ScanStep(u, c)) == [] {
        before := Collected(s) + Visible(text);
      }
    }
  }

  lemma {:induction false} HarmlessIsSmall(s: Scanner, text: Text)
    requires Harmless(Collected(s) + Visible(text))
    ensures SmallMoves(s, text)
    decreases |text|
  {
    hide Harmless, Values, ScanStep;
    if text != [] {
      var front, c := text[..|text| - 1], text[|text| - 1];
      var read := Collected(s) + Visible(front);
      assert Collected(s) + Visible(text) == [] + read + VisibleUnit(c);
      HarmlessPart([], read, VisibleUnit(c));
      HarmlessIsSmall(s, front);
      var u := Scanned(s, front);
      if u.state == InCsi {
        var before := CollectedSuffix(s, front);
        assert before + u.parameters == before + u.parameters + [];
        HarmlessPart(before, u.parameters, []);
        HarmlessValue(u.parameters);
      }
    }
  }

  /** In particular, a text with no minus sign and no ten digits in a row, surrogates left out. */
  lemma HarmlessTextStays(t: Terminal, text: Text)
    requires Shaped(t) && InGrid(t) && Harmless(Collected(ScannerOf(t)) + Visible(text))
    ensures NeverLeaves(t, text) && Run(t, text).Some? && InGrid(Run(t, text).value)
  {
    HarmlessIsSmall(ScannerOf(t), text);
    SmallMovesStay(t, text);
  }

  /** One negative count leaves a screen of any height: moving up by -1 from the bottom row. */
  lemma NegativeCountLeaves(t: Terminal)
    requires Shaped(t) && InGrid(t) && t.row == t.rows - 1 && t.parser == InCsi && t.parameters == [0x2D, 0x31]
    ensures LeavesGrid(t, 0x41) && Consume(t, 0x41).Some? && Put(Consume(t, 0x41).value, SPACE).None?
  {
    hide Values, EditGrid, Sgr, AllInt32;
    NegativeDigit(1);
    assert t.(highSurrogate := None).parameters == t.parameters;
  }

  lemma NegativeDigit(n: int)
    requires 1 <= n <= 9
    ensures Values([0x2D, 0x30 + n]) == [-n]
  {
    hide Split;
    var raw: Text := [0x2D, 0x30 + n];
    SplitWhole(raw);
    assert ParseInt(raw) == Some(-n) by {
      var digits: Text := [0x30 + n];
      assert raw[1..] == digits && digits[..0] == [];
      assert DigitsValue(digits) == n;
    }
    hide ParseInt;
    assert WithoutPrefix(WithoutPrefix(raw, 0x3F), 0x3E) == raw;
  }

  lemma {:induction false} SplitWhole(s: Text)
    requires SEMICOLON !in s
    ensures Split(s, SEMICOLON) == [s]
  {
    SplitJoin([s], SEMICOLON);
  }

  // ---- Resizing ----

  /** No later text whose relative moves are small can make the terminal fail. */
  ghost predicate NeverFails(t: Terminal)
    requires Shaped(t)
  {
    forall text: Text :: SmallMoves(ScannerOf(t), text) ==> Run(t, text).Some?
  }

  lemma RunSnoc(t: Terminal, a: Text, c: CodeUnit)
    requires Shaped(t)
    ensures Run(t, a + [c]) == if Run(t, a).None? then None else Consume(Run(t, a).value, c)
    ensures NeverLeaves(t, a + [c]) <==>
            NeverLeaves(t, a) && (Run(t, a).Some? ==> !LeavesGrid(Run(t, a).value, c))
  {
    assert (a + [c])[..|a|] == a;
  }

  lemma {:induction false} ScannedRun(t: Terminal, text: Text)
    requires Shaped(t) && Run(t, text).Some?
    ensures Scanned(ScannerOf(t), text) == ScannerOf(Run(t, text).value)
    decreases |text|
  {
    hide Consume, ScanStep;
    if text != [] {
      var front, c := text[..|text| - 1], text[|text| - 1];
      ScannedRun(t, front);
      ScanFollows(Run(t, front).value, c);
    }
  }

  lemma SmallMovesSnoc(s: Scanner, text: Text, c: CodeUnit)
    ensures SmallMoves(s, text + [c]) <==> SmallMoves(s, text) && SmallMove(Scanned(s, text), c)
  {
    hide SmallMove, Scanned;
    assert (text + [c])[..|text|] == text;
  }

  /** Some text whose relative moves are small takes `t` to `u`. */
  ghost predicate Reaches(t: Terminal, u: Terminal)
    requires Shaped(t)
  {
    exists text: Text :: SmallMoves(ScannerOf(t), text) && Run(t, text) == Some(u)
  }

  lemma ReachesSelf(t: Terminal)
    requires Shaped(t)
    ensures Reaches(t, t)
  {
    assert SmallMoves(ScannerOf(t), []) && Run(t, []) == Some(t);
  }

  lemma ReachesNext(t: Terminal, u: Terminal, c: CodeUnit)
    requires Shaped(t) && Shaped(u) && Reaches(t, u)
    requires SmallMove(ScannerOf(u), c) && Consume(u, c).Some?
    ensures Reaches(t, Consume(u, c).value)
  {
    hide SmallMove, Consume;
    var text: Text :| SmallMoves(ScannerOf(t), text) && Run(t, text) == Some(u);
    RunSnoc(t, text, c);
    ScannedRun(t, text);
    SmallMovesSnoc(ScannerOf(t), text, c);
    assert SmallMoves(ScannerOf(t), text + [c]) && Run(t, text + [c]) == Consume(u, c);
  }

  lemma ReachesFailure(t: Terminal, u: Terminal, c: CodeUnit)
    requires Shaped(t) && Shaped(u) && Reaches(t, u)
    requires SmallMove(ScannerOf(u), c) && Consume(u, c).None?
    ensures !NeverFails(t)
  {
    hide SmallMove, Consume;
    var text: Text :| SmallMoves(ScannerOf(t), text) && Run(t, text) == Some(u);
    RunSnoc(t, text, c);
    ScannedRun(t, text);
    SmallMovesSnoc(ScannerOf(t), text, c);
    assert SmallMoves(ScannerOf(t), text + [c]) && Run(t, text + [c]).None?;
  }

  /** A BEL ends whatever sequence is open, and does nothing else. */
  lemma BellEndsSequence(t: Terminal)
    requires Shaped(t)
    ensures Consume(t, 0x07) == Some(t.(parser := InText, highSurrogate := None)) && !LeavesGrid(t, 0x07)
  {
  }

  /** ESC 8 puts the cursor on the saved position, wherever that is. */
  lemma RestoreSaved(t: Terminal)
    requires Shaped(t)
    ensures var u := t.(row := t.savedRow, column := t.savedColumn, parser := InText, highSurrogate := None);
            Shaped(u) && Reaches(t, u)
  {
    var quiet := t.(parser := InText, highSurrogate := None);
    BellEndsSequence(t);
    ReachesSelf(t);
    ReachesNext(t, t, 0x07);
    ReachesNext(t, quiet, ESCAPE);
    ReachesNext(t, Consume(quiet, ESCAPE).value, 0x38);
  }

  /** ESC 8 with a saved row below the grid, then any printable character: out of bounds. */
  lemma SavedRowFails(t: Terminal)
    requires Shaped(t) && t.rows <= t.savedRow < MAX_INT && t.savedColumn >= 0
    ensures !NeverFails(t)
  {
    RestoreSaved(t);
    var u := t.(row := t.savedRow, column := t.savedColumn, parser := InText, highSurrogate := None);
    assert u.(highSurrogate := None) == u;
    assert Put(u, SPACE).None?;
    ReachesFailure(t, u, SPACE);
  }

  /** Erasing to the start of the line fails when the cursor is right of the grid. */
  lemma EraseRightOfGridFails(t: Terminal)
    requires Shaped(t) && t.parser == InCsi && t.parameters == [0x31] && t.highSurrogate == None
    requires t.column > t.columns
    ensures !LeavesGrid(t, 0x4B) && Consume(t, 0x4B).None?
  {
    EraseModeOne();
    assert EraseLine(t, 1).None?;
    assert t.(highSurrogate := None) == t;
    assert EditGrid(t, 0x4B, [1]) == EraseLine(t, 1);
  }

  /** ESC 8 with a saved column right of the grid, then CSI 1 K: out of bounds. */
  lemma SavedColumnFails(t: Terminal)
    requires Shaped(t) && 0 <= t.savedRow < t.rows && t.savedColumn > t.columns
    ensures !NeverFails(t)
  {
    hide NeverFails, Reaches, EditGrid, MoveCursor;
    RestoreSaved(t);
    var u := t.(row := t.savedRow, column := t.savedColumn, parser := InText, highSurrogate := None);
    ReachesNext(t, u, 0x9B);
    var v := Consume(u, 0x9B).value;
    ReachesNext(t, v, 0x31);
    var w := Consume(v, 0x31).value;
    assert w.parameters == [0x31];
    EraseRightOfGridFails(w);
    ReachesFailure(t, w, 0x4B);
  }

  lemma EraseModeOne()
    ensures Values([0x31]) == [1]
  {
    hide Split;
    var one: Text := [0x31];
    SplitWhole(one);
    assert ParseInt(one) == Some(1) by {
      assert one[..0] == [];
      assert DigitsValue(one) == 1;
    }
    hide ParseInt;
    assert WithoutPrefix(WithoutPrefix(one, 0x3F), 0x3E) == one;
    assert Values(one) == [1];
  }

  /**
   Resizing always brings the cursor back into the grid but keeps the saved position as it was. A
   later text, however small its relative moves, can make the terminal fail exactly when that
   position no longer fits.
   */
  lemma ResizeSafeIffSavedFits(t: Terminal, columns: int, rows: int)
    requires Shaped(t) && InGrid(t)
    ensures var u := Resize(t, columns, rows);
            && CursorInGrid(u)
            && (NeverFails(u) <==> t.savedRow < u.rows && t.savedColumn <= u.columns)
  {
    var u := Resize(t, columns, rows);
    assert u.savedRow == t.savedRow && u.savedColumn == t.savedColumn;
    if t.savedRow >= u.rows {
      SavedRowFails(u);
    } else if t.savedColumn > u.columns {
      SavedColumnFails(u);
    } else {
      forall text: Text | SmallMoves(ScannerOf(u), text) ensures Run(u, text).Some? {
        SmallMovesStay(u, text);
      }
    }
  }

  // ---- Whole sessions ----

  /** What the owner of a terminal does with it. */
  datatype Use = Feed(text: Text) | SetSize(columns: int, rows: int) | StartOver

  function Used(t: Terminal, use: Use): (r: Option<Terminal>)
    requires Shaped(t)
    ensures r.Some? ==> Shaped(r.value)
  {
    match use
    case Feed(text) => Run(t, text)
    case SetSize(columns, rows) => Some(Resize(t, columns, rows))
    case StartOver => Some(Initial(t.columns, t.rows))
  }

  function AfterUses(t: Terminal, uses: seq<Use>): (r: Option<Terminal>)
    requires Shaped(t)
    ensures r.Some? ==> Shaped(r.value)
    decreases |uses|
  {
    if uses == [] then Some(t)
    else
      var before := AfterUses(t, uses[..|uses| - 1]);
      if before.None? then None else Used(before.value, uses[|uses| - 1])
  }

  /** Texts have small relative moves, and the new size still holds the saved position. */
  predicate Gentle(t: Terminal, use: Use) {
    match use
    case Feed(text) => SmallMoves(ScannerOf(t), text)
    case SetSize(columns, rows) => t.savedRow < Clamp(rows, 4, 400) && t.savedColumn <= Clamp(columns, 20, 240)
    case StartOver => true
  }

  predicate AllGentle(t: Terminal, uses: seq<Use>)
    requires Shaped(t)
    decreases |uses|
  {
    uses != [] ==>
      var before := AfterUses(t, uses[..|uses| - 1]);
      AllGentle(t, uses[..|uses| - 1]) && (before.Some? ==> Gentle(before.value, uses[|uses| - 1]))
  }

  lemma GentleStays(t: Terminal, use: Use)
    requires Shaped(t) && InGrid(t) && Gentle(t, use)
    ensures Used(t, use).Some? && InGrid(Used(t, use).value)
  {
    hide ResizedGrid, BlankGrid;
    if use.Feed? { SmallMovesStay(t, use.text); }
  }

  /**
   Any sequence of feeds whose relative moves are small, resizes that still hold the saved position,
   and resets: nothing fails, and the cursor and the saved position stay inside the grid.
   */
  lemma {:induction false} SessionStaysInGrid(t: Terminal, uses: seq<Use>)
    requires Shaped(t) && InGrid(t) && AllGentle(t, uses)
    ensures AfterUses(t, uses).Some? && InGrid(AfterUses(t, uses).value)
    decreases |uses|
  {
    hide Gentle, Used, InGrid;
    if uses != [] {
      SessionStaysInGrid(t, uses[..|uses| - 1]);
      GentleStays(AfterUses(t, uses[..|uses| - 1]).value, uses[|uses| - 1]);
    }
  }

  /** How the input is cut into pieces does not matter. */
  lemma {:induction false} RunInPieces(t: Terminal, a: Text, b: Text)
    requires Shaped(t)
    ensures Run(t, a + b) == if Run(t, a).None? then None else Run(Run(t, a).value, b)
    decreases |b|
  {
    if b == [] {
      assert a + b == a;
    } else {
      var before, c := b[..|b| - 1], b[|b| - 1];
      RunInPieces(t, a, before);
      assert a + b == (a + before) + [c];
      RunSnoc(t, a + before, c);
    }
  }

  // ---- Inserting and deleting lines and characters ----

  lemma InsertedTwice<T>(s: seq<T>, at: int, n: int, blank: T)
    requires 0 <= at && 0 <= n && at + n + 1 <= |s|
    ensures Inserted(Inserted(s, at, n, blank), at, 1, blank) == Inserted(s, at, n + 1, blank)
  {
    var once := Inserted(s, at, n, blank);
    assert once[at..|s| - 1] == seq(n, _ => blank) + s[at..|s| - n - 1];
    assert [blank] + seq(n, _ => blank) == seq(n + 1, _ => blank);
  }

  lemma DeletedTwice<T>(s: seq<T>, at: int, n: int, blank: T)
    requires 0 <= at && 0 <= n && at + n + 1 <= |s|
    ensures Deleted(Deleted(s, at, n, blank), at, 1, blank) == Deleted(s, at, n + 1, blank)
  {
  }

  lemma InsertedThenDeleted<T>(s: seq<T>, at: int, n: int, blank: T)
    requires 0 <= at && 0 <= n && at + n <= |s|
    ensures Deleted(Inserted(s, at, n, blank), at, n, blank) == s[..|s| - n] + seq(n, _ => blank)
  {
    var inserted := Inserted(s, at, n, blank);
    assert inserted[at + n..] == s[at..|s| - n];
  }

  lemma DeletedThenInserted<T>(s: seq<T>, at: int, n: int, blank: T)
    requires 0 <= at && 0 <= n && at + n <= |s|
    ensures Inserted(Deleted(s, at, n, blank), at, n, blank) == s[..at] + seq(n, _ => blank) + s[at + n..]
  {
    var deleted := Deleted(s, at, n, blank);
    assert deleted[at..|s| - n] == s[at + n..];
  }

  /** Inserting lines and deleting as many restores all but the last rows, which are gone. */
  lemma InsertThenDeleteLines(t: Terminal, count: int)
    requires Shaped(t) && CursorInGrid(t)
    ensures var n := Min(Max(count, 1), t.rows - t.row);
            && InsertLines(t, count).Some? && DeleteLines(InsertLines(t, count).value, count).Some?
            && DeleteLines(InsertLines(t, count).value, count).value ==
               t.(grid := t.grid[..t.rows - n] + BlankGrid(t.columns, n))
  {
    InsertedThenDeleted(t.grid, t.row, ShiftAmount(t, count), BlankRow(t.columns));
  }

  /** Deleting lines and inserting as many blanks exactly the deleted rows. */
  lemma DeleteThenInsertLines(t: Terminal, count: int)
    requires Shaped(t) && CursorInGrid(t)
    ensures var n := Min(Max(count, 1), t.rows - t.row);
            && DeleteLines(t, count).Some? && InsertLines(DeleteLines(t, count).value, count).Some?
            && InsertLines(DeleteLines(t, count).value, count).value ==
               t.(grid := BlankRows(t.grid, t.columns, t.row, t.row + n))
  {
    DeletedThenInserted(t.grid, t.row, ShiftAmount(t, count), BlankRow(t.columns));
  }

  // ---- Erasing and moving ----

  lemma ErasedHalves(row: Row, at: int)
    requires 0 <= at <= |row|
    ensures Erased(Erased(row, at, |row|), 0, at) == BlankRow(|row|)
    ensures Erased(row, 0, |row|) == BlankRow(|row|)
    ensures at == |row| ==> Erased(row, at, |row|) == row
    ensures at == 0 ==> Erased(row, 0, at) == row
  {
  }

  /** Erasing from the cursor on and then before it erases the whole line. */
  lemma EraseLineHalves(t: Terminal)
    requires Shaped(t) && CursorInGrid(t)
    ensures EraseLine(t, 0).Some? && EraseLine(EraseLine(t, 0).value, 1) == EraseLine(t, 2)
    ensures EraseLine(t, 2) == Some(t.(grid := t.grid[t.row := BlankRow(t.columns)]))
  {
    var row := t.grid[t.row];
    ErasedHalves(row, t.column);
    var once := EraseLine(t, 0).value.grid;
    assert once == t.grid[t.row := Erased(row, t.column, t.columns)];
    assert once[t.row := BlankRow(t.columns)] == t.grid[t.row := BlankRow(t.columns)];
  }

  /** The rows of the screen after erasing from the cursor on (mode 0) or before it (mode 1). */
  lemma EraseDisplayRows(t: Terminal, mode: int)
    requires Shaped(t) && CursorInGrid(t) && (mode == 0 || mode == 1)
    ensures EraseDisplay(t, mode).Some?
    ensures var u := EraseDisplay(t, mode).value;
            && u == t.(grid := u.grid)
            && u.grid[t.row] == (if mode == 0 then Erased(t.grid[t.row], t.column, t.columns)
                                 else Erased(t.grid[t.row], 0, t.column))
            && forall i :: 0 <= i < t.rows && i != t.row ==>
                 u.grid[i] == if (i > t.row) == (mode == 0) then BlankRow(t.columns) else t.grid[i]
  {
    ErasedHalves(t.grid[t.row], t.column);
    hide Erased, BlankRow;
  }

  /** Erasing the screen from the cursor on and then before it erases all of it. */
  lemma EraseDisplayHalves(t: Terminal)
    requires Shaped(t) && CursorInGrid(t)
    ensures EraseDisplay(t, 0).Some? && EraseDisplay(EraseDisplay(t, 0).value, 1) == EraseDisplay(t, 2)
  {
    EraseDisplayRows(t, 0);
    var once := EraseDisplay(t, 0).value;
    EraseDisplayRows(once, 1);
    ErasedHalves(t.grid[t.row], t.column);
    assert EraseDisplay(t, 2) == Some(t.(grid := BlankGrid(t.columns, t.rows)));
    var all := EraseDisplay(once, 1).value.grid;
    hide *;
    AllBlank(all, t.columns, t.rows);
  }

  lemma AllBlank(grid: seq<Row>, columns: int, rows: int)
    requires columns >= 0 && rows >= 0 && |grid| == rows && forall i :: 0 <= i < rows ==> grid[i] == BlankRow(columns)
    ensures grid == BlankGrid(columns, rows)
  {
  }

  /**
   A move down and the same move up cancel exactly when the first is not clamped, or both are; so
   right and left.
   */
  lemma MovesCancelIff(columns: int, rows: int, at: Cursor, saved: Cursor, n: int)
    requires 1 <= columns <= MAX_SIDE && 1 <= rows <= MAX_SIDE && 1 <= n <= MAX_INT - Max(columns, rows)
    requires 0 <= at.row < rows && 0 <= at.column <= columns
    ensures var down := MoveCursor(columns, rows, at, saved, 0x42, [n]).value;
            (MoveCursor(columns, rows, down, saved, 0x41, [n]) == Some(at)) <==> (at.row + n < rows || at.row == 0)
    ensures var right := MoveCursor(columns, rows, at, saved, 0x43, [n]).value;
            (MoveCursor(columns, rows, right, saved, 0x44, [n]) == Some(at)) <==>
            (at.column + n < columns || at.column == 0)
  {
  }
}
