/** Committed keyboard text sent to the host as text chunks and key taps. */
module ImeText {
  import opened Sequences
  import opened Utf16
  import opened RemoteInputs

  const LF: CodePoint := 0x0A
  const CR: CodePoint := 0x0D
  const HT: CodePoint := 0x09

  // ---- What the text means ----

  datatype Token = Character(point: CodePoint) | Enter | Tab

  /** CR LF and a lone CR each become one LF. */
  function FoldNewlines(points: seq<CodePoint>): seq<CodePoint> {
    if points == [] then []
    else if points[0] == CR then
      [LF] + FoldNewlines(if |points| > 1 && points[1] == LF then points[2..] else points[1..])
    else [points[0]] + FoldNewlines(points[1..])
  }

  function TokenOf(c: CodePoint): seq<Token> {
    if c == LF then [Enter] else if c == HT then [Tab] else if IsControl(c) then [] else [Character(c)]
  }

  function TokensOf(points: seq<CodePoint>): seq<Token> {
    if points == [] then [] else TokenOf(points[0]) + TokensOf(points[1..])
  }

  function Folded(text: Text): seq<CodePoint> {
    FoldNewlines(CodePoints(text))
  }

  function Meaning(text: Text): seq<Token> {
    TokensOf(Folded(text))
  }

  // ---- What is sent ----

  datatype Event = TextEvent(text: Text) | KeyEvent(keyCode: nat, action: nat)

  /** One decision of the sender: a chunk of whole code points, or a key tap. */
  datatype Sent = Chunk(points: seq<CodePoint>) | Tap(keyCode: nat)

  function EventsOf(s: Sent): seq<Event> {
    match s
    case Chunk(points) => [TextEvent(Encode(points))]
    case Tap(code) => [KeyEvent(code, ACTION_DOWN), KeyEvent(code, ACTION_UP)]
  }

  function AllEvents(log: seq<Sent>): seq<Event> {
    if log == [] then [] else AllEvents(log[..|log| - 1]) + EventsOf(log[|log| - 1])
  }

  function Characters(points: seq<CodePoint>): seq<Token> {
    seq(|points|, i requires 0 <= i < |points| => Character(points[i]))
  }

  function MeaningOf(s: Sent): seq<Token> {
    match s
    case Chunk(points) => Characters(points)
    case Tap(code) => if code == KEYCODE_ENTER then [Enter] else if code == KEYCODE_TAB then [Tab] else []
  }

  function LogMeaning(log: seq<Sent>): seq<Token> {
    if log == [] then [] else LogMeaning(log[..|log| - 1]) + MeaningOf(log[|log| - 1])
  }

  /** UTF-8 bytes of one code point; Java writes '?' for half a pair. */
  function EncodedSize(c: CodePoint): nat {
    if IsScalar(c) then Utf8Size(c) else 1
  }

  function ChunkSize(points: seq<CodePoint>): nat {
    if points == [] then 0 else ChunkSize(points[..|points| - 1]) + EncodedSize(points[|points| - 1])
  }

  predicate NoControls(points: seq<CodePoint>) {
    forall i :: 0 <= i < |points| ==> !IsControl(points[i])
  }

  predicate GoodSent(s: Sent) {
    match s
    case Chunk(points) => points != [] && NoControls(points) && ChunkSize(points) <= MAX_TEXT_BYTES
    case Tap(code) => code == KEYCODE_ENTER || code == KEYCODE_TAB
  }

  predicate GoodLog(log: seq<Sent>) {
    forall i :: 0 <= i < |log| ==> GoodSent(log[i])
  }

  lemma LogSnoc(log: seq<Sent>, s: Sent)
    ensures AllEvents(log + [s]) == AllEvents(log) + EventsOf(s)
    ensures LogMeaning(log + [s]) == LogMeaning(log) + MeaningOf(s)
  {
    assert (log + [s])[..|log|] == log;
  }

  lemma ChunkSnoc(points: seq<CodePoint>, c: CodePoint)
    ensures ChunkSize(points + [c]) == ChunkSize(points) + EncodedSize(c)
    ensures Characters(points + [c]) == Characters(points) + [Character(c)]
    ensures Encode(points + [c]) == Encode(points) + Units(c)
  {
    assert (points + [c])[..|points|] == points;
    EncodeAppend(points, [c]);
    assert [c][1..] == [];
    assert Encode([c]) == Units(c) + Encode([]);
  }

  // ---- Which chunks are sent ----

  /** What has been sent, and the points of the open chunk. */
  datatype Draft = Draft(log: seq<Sent>, points: seq<CodePoint>)

  function Flushed(d: Draft): Draft {
    if d.points == [] then d else Draft(d.log + [Chunk(d.points)], [])
  }

  function Tapped(d: Draft, code: nat): Draft {
    Draft(Flushed(d).log + [Tap(code)], [])
  }

  /** A character joins the open chunk while the counted size allows. */
  function Taken(d: Draft, c: CodePoint): Draft {
    if c == LF then Tapped(d, KEYCODE_ENTER)
    else if c == HT then Tapped(d, KEYCODE_TAB)
    else if IsControl(c) then d
    else if ChunkSize(d.points) + EncodedSize(c) > MAX_TEXT_BYTES then Draft(Flushed(d).log, [c])
    else d.(points := d.points + [c])
  }

  function Drafted(d: Draft, points: seq<CodePoint>): Draft
    decreases |points|
  {
    if points == [] then d else Drafted(Taken(d, points[0]), points[1..])
  }

  const NO_DRAFT := Draft([], [])

  /** Everything that is sent for a text. */
  function SentFor(text: Text): seq<Sent> {
    Flushed(Drafted(NO_DRAFT, Folded(text))).log
  }

  /** Reading one code point off the text, and the line feed that belongs to a carriage return. */
  lemma FoldedStep(text: Text)
    requires text != []
    ensures var c := FirstPoint(text);
            var rest := text[|Units(c)|..];
            Folded(text) ==
            if c == CR then [LF] + Folded(if rest != [] && rest[0] == LF then rest[1..] else rest)
            else [c] + Folded(rest)
  {
    var c := FirstPoint(text);
    var rest := text[|Units(c)|..];
    var points := CodePoints(rest);
    assert CodePoints(text) == [c] + points;
    assert CodePoints(text)[1..] == points;
    if rest != [] {
      assert FirstPoint(rest) == LF <==> rest[0] == LF;
      assert points[0] == LF ==> points[1..] == CodePoints(rest[1..]) && CodePoints(text)[2..] == points[1..];
    }
  }

  lemma MeaningStep(text: Text)
    requires text != []
    ensures var c := FirstPoint(text);
            var rest := text[|Units(c)|..];
            Meaning(text) ==
            if c == CR then [Enter] + Meaning(if rest != [] && rest[0] == LF then rest[1..] else rest)
            else TokenOf(c) + Meaning(rest)
  {
    hide CodePoints, FirstPoint, FoldNewlines, Folded;
    FoldedStep(text);
    var c := FirstPoint(text);
    var rest := text[|Units(c)|..];
    var more := Folded(if c == CR && rest != [] && rest[0] == LF then rest[1..] else rest);
    var first := if c == CR then LF else c;
    assert ([first] + more)[1..] == more;
  }

  /**
   Line feed, carriage return and the two together are one Enter, a tab is a Tab, a pair of surrogates is
   one character, other control characters are nothing, and everything else is itself.
   */
  lemma MeaningOfEach(c: CodeUnit, low: CodeUnit, rest: Text)
    ensures Meaning([0x0A] + rest) == [Enter] + Meaning(rest)
    ensures Meaning([0x0D, 0x0A] + rest) == [Enter] + Meaning(rest)
    ensures rest == [] || rest[0] != 0x0A ==> Meaning([0x0D] + rest) == [Enter] + Meaning(rest)
    ensures Meaning([0x09] + rest) == [Tab] + Meaning(rest)
    ensures (c < 0x20 || 0x7F <= c < 0xA0) && c !in {0x09, 0x0A, 0x0D} ==> Meaning([c] + rest) == Meaning(rest)
    ensures (0x20 <= c < 0x7F || 0xA0 <= c < 0xD800 || 0xE000 <= c) ==>
              Meaning([c] + rest) == [Character(c)] + Meaning(rest)
    ensures 0xD800 <= c < 0xDC00 && 0xDC00 <= low < 0xE000 ==>
              Meaning([c, low] + rest) ==
              [Character(0x1_0000 + 0x400 * (c - 0xD800) + (low - 0xDC00))] + Meaning(rest)
  {
    hide Meaning, Folded, CodePoints;
    OneUnitMeans(0x0A, rest);
    OneUnitMeans(0x0D, rest);
    OneUnitMeans(0x0D, [0x0A] + rest);
    OneUnitMeans(0x09, rest);
    assert [0x0D] + ([0x0A] + rest) == [0x0D, 0x0A] + rest;
    assert ([0x0A] + rest)[1..] == rest;
    if !IsHighSurrogate(c) && !IsLowSurrogate(c) {
      OneUnitMeans(c, rest);
    }
    if IsHighSurrogate(c) && IsLowSurrogate(low) {
      MeaningStep([c, low] + rest);
      assert ([c, low] + rest)[2..] == rest;
    }
  }

  lemma OneUnitMeans(c: CodeUnit, rest: Text)
    requires !IsHighSurrogate(c) && !IsLowSurrogate(c)
    ensures Meaning([c] + rest) ==
            if c == 0x0D then [Enter] + Meaning(if rest != [] && rest[0] == 0x0A then rest[1..] else rest)
            else if c == 0x0A then [Enter] + Meaning(rest)
            else if c == 0x09 then [Tab] + Meaning(rest)
            else if c < 0x20 || 0x7F <= c < 0xA0 then Meaning(rest)
            else [Character(c)] + Meaning(rest)
  {
    hide Meaning, Folded, CodePoints;
    MeaningStep([c] + rest);
    assert ([c] + rest)[1..] == rest;
    assert [] + Meaning(rest) == Meaning(rest);
  }

  /** Where reading goes on after the code point at `index`, and the line feed after a carriage return. */
  function NextIndex(text: Text, index: nat): (next: nat)
    requires index < |text|
    ensures index < next <= |text|
  {
    var c := FirstPoint(text[index..]);
    var next := index + |Units(c)|;
    if c == CR && next < |text| && text[next] == LF then next + 1 else next
  }

  lemma IndexStep(text: Text, index: nat)
    requires index < |text|
    ensures var c := FirstPoint(text[index..]);
            var first: CodePoint := if c == CR then LF else c;
            var next := NextIndex(text, index);
            && Folded(text[index..]) == [first] + Folded(text[next..])
            && Meaning(text[index..]) == TokenOf(first) + Meaning(text[next..])
  {
    hide FirstPoint, Folded, TokensOf, FoldNewlines, CodePoints, Meaning;
    FoldedStep(text[index..]);
    MeaningStep(text[index..]);
    var after := index + |Units(FirstPoint(text[index..]))|;
    assert text[index..][|Units(FirstPoint(text[index..]))|..] == text[after..];
    if after < |text| { assert text[after..][1..] == text[after + 1..]; }
  }

  lemma Regroup(a: seq<Token>, b: seq<Token>, c: seq<Token>)
    ensures a + (b + c) == (a + b) + c
  {
  }

  lemma NoMeaning()
    ensures Meaning([]) == [] && Folded([]) == []
  {
  }

  lemma DraftedStep(d: Draft, c: CodePoint, more: seq<CodePoint>)
    ensures Drafted(d, [c] + more) == Drafted(Taken(d, c), more)
  {
    assert ([c] + more)[1..] == more;
  }

  class Sender {
    var events: seq<Event>
    var chunk: Text
    var chunkBytes: nat
    ghost var log: seq<Sent>
    ghost var points: seq<CodePoint>

    ghost predicate Valid()
      reads this
    {
      && events == AllEvents(log) && GoodLog(log)
      && chunk == Encode(points) && chunkBytes == ChunkSize(points) <= MAX_TEXT_BYTES && NoControls(points)
    }

    /** What has been read so far. */
    ghost function Read(): seq<Token>
      reads this
    {
      LogMeaning(log) + Characters(points)
    }

    ghost function State(): Draft
      reads this
    {
      Draft(log, points)
    }

    constructor ()
      ensures Valid() && Read() == [] && State() == NO_DRAFT
    {
      events, chunk, chunkBytes, log, points := [], [], 0, [], [];
    }

    method Flush()
      requires Valid()
      modifies this
      ensures Valid() && chunkBytes == 0 && Read() == old(Read()) == LogMeaning(log)
      ensures State() == Flushed(old(State())) && points == []
    {
      hide AllEvents, LogMeaning;
      assert Characters([]) == [] && LogMeaning(log) + [] == LogMeaning(log);
      EncodeEmptyIff(points);
      if chunk != [] {
        LogSnoc(log, Chunk(points));
        events := events + [TextEvent(chunk)];
        log := log + [Chunk(points)];
        chunk, chunkBytes, points := [], 0, [];
      }
    }

    method SendKeyTap(code: nat)
      requires Valid() && points == [] && (code == KEYCODE_ENTER || code == KEYCODE_TAB)
      modifies this
      ensures Valid() && Read() == old(Read()) + MeaningOf(Tap(code))
      ensures State() == Draft(old(log) + [Tap(code)], [])
    {
      hide AllEvents, LogMeaning, Encode, ChunkSize, NoControls;
      LogSnoc(log, Tap(code));
      ghost var before := events;
      events := events + [KeyEvent(code, ACTION_DOWN)];
      events := events + [KeyEvent(code, ACTION_UP)];
      assert events == before + EventsOf(Tap(code));
      assert Characters([]) == [];
      log := log + [Tap(code)];
    }

    method Append(c: CodePoint)
      requires Valid() && !IsControl(c)
      modifies this
      ensures Valid() && Read() == old(Read()) + [Character(c)]
      ensures State() == Taken(old(State()), c)
    {
      hide AllEvents, LogMeaning, Encode, ChunkSize, Characters, EventsOf, GoodLog;
      var bytes := EncodedSize(c);
      if chunkBytes + bytes > MAX_TEXT_BYTES {
        Flush();
      }
      ChunkSnoc(points, c);
      assert [] + [c] == [c];
      chunk := chunk + Units(c);
      chunkBytes := chunkBytes + bytes;
      points := points + [c];
    }

    /** Acts on one code point other than a carriage return, or on a folded line end. */
    method Take(c: CodePoint)
      requires Valid()
      modifies this
      ensures Valid() && Read() == old(Read()) + TokenOf(c)
      ensures State() == Taken(old(State()), c)
    {
      hide AllEvents, LogMeaning, Encode, ChunkSize, Characters, EventsOf, GoodLog, NoControls, Read;
      assert Read() + [] == Read();
      if c == LF {
        Flush();
        SendKeyTap(KEYCODE_ENTER);
      } else if c == HT {
        Flush();
        SendKeyTap(KEYCODE_TAB);
      } else if !IsControl(c) {
        Append(c);
      }
    }

    /** Reads one code point, and the line feed after a carriage return. */
    method ReadOne(text: Text, index: nat) returns (next: nat)
      requires Valid() && index < |text|
      modifies this
      ensures Valid() && next == NextIndex(text, index)
      ensures Read() + Meaning(text[next..]) == old(Read()) + Meaning(text[index..])
      ensures Drafted(State(), Folded(text[next..])) == Drafted(old(State()), Folded(text[index..]))
    {
      hide AllEvents, LogMeaning, Encode, ChunkSize, Characters, EventsOf, GoodLog, FirstPoint, NoControls,
           Meaning, Read, Folded, Drafted, Taken, TokenOf;
      IndexStep(text, index);
      var c := FirstPoint(text[index..]);
      next := index + |Units(c)|;
      ghost var before, state, first := Read(), State(), if c == CR then LF else c;
      if c == CR {
        Take(LF);
        if next < |text| && text[next] == LF {
          next := next + 1;
        }
      } else {
        Take(c);
      }
      DraftedStep(state, first, Folded(text[next..]));
      Regroup(before, TokenOf(first), Meaning(text[next..]));
    }

    /**
     The events carry exactly the meaning of the text, as key taps and chunks of whole code points:
     none is empty or has a control character, and none is counted above the limit. If the text is
     well formed, the count is the size of the event.
     */
    method SendImeText(text: Text)
      requires Valid() && State() == NO_DRAFT
      modifies this
      ensures Valid() && points == [] && log == SentFor(text) && LogMeaning(log) == Meaning(text)
      ensures WellFormed(text) ==> AllWithinLimit(events)
      ensures Typed(events).held == {} && (WellFormed(text) ==> Typed(events).tokens == Meaning(text))
    {
      hide AllEvents, LogMeaning, Encode, ChunkSize, Characters, EventsOf, GoodLog, FirstPoint, NoControls, Meaning,
           Folded, Drafted, WellFormed, Typed;
      var index := 0;
      NothingRead();
      assert text[0..] == text && [] + Meaning(text) == Meaning(text);
      NoMeaning();
      while index < |text|
        invariant 0 <= index <= |text| && Valid()
        invariant Meaning(text) == Read() + Meaning(text[index..])
        invariant Drafted(State(), Folded(text[index..])) == Drafted(NO_DRAFT, Folded(text))
      {
        index := ReadOne(text, index);
      }
      assert text[index..] == [] && Read() + [] == Read();
      NothingDrafted(State());
      Flush();
      NoKeyStaysDown(log);
      if WellFormed(text) {
        WellFormedWithinLimit(text, log);
        TypedAsMeant(text, log);
      }
    }

    lemma NothingRead()
      requires State() == NO_DRAFT
      ensures Read() == []
    {
    }
  }

  lemma EncodeEmptyIff(points: seq<CodePoint>)
    ensures Encode(points) == [] <==> points == []
  {
  }

  lemma NothingDrafted(d: Draft)
    ensures Drafted(d, []) == d
  {
  }

  // ---- The daemon accepts it ----

  /** The event as the daemon decodes it. */
  function Decoded(e: Event): RemoteInput {
    match e
    case TextEvent(text) =>
      RemoteInput(TEXT, ACTION_NONE, 0, 0, 0.0, 0.0, if WellFormed(text) then Utf8(CodePoints(text)) else NotUtf8)
    case KeyEvent(code, action) => RemoteInput(KEY, action, code, 0, 0.0, 0.0, Utf8([]))
  }

  predicate IsSeparator(c: CodePoint) { c == 0x2028 || c == 0x2029 }

  ghost predicate Scalars(points: seq<CodePoint>) {
    forall i :: 0 <= i < |points| ==> IsScalar(points[i])
  }

  lemma {:induction false} SizesAgree(points: seq<CodePoint>)
    requires Scalars(points)
    ensures ChunkSize(points) == TextSize(points)
    decreases |points|
  {
    if points != [] {
      SizesAgree(points[..|points| - 1]);
      assert IsScalar(points[|points| - 1]);
    }
  }

  /** A chunk passes the daemon's validation exactly when it has no Unicode line or paragraph separator. */
  lemma ChunkAccepted(points: seq<CodePoint>)
    requires GoodSent(Chunk(points)) && Scalars(points)
    ensures Validate(Decoded(TextEvent(Encode(points)))) <==>
            forall i :: 0 <= i < |points| ==> !IsSeparator(points[i])
  {
    hide CodePoints, Encode, ChunkSize, TextSize, IsScalar;
    EncodeReadsBack(points);
    SizesAgree(points);
    assert WellFormed(Encode(points));
    hide WellFormed, NoControls;
    assert Decoded(TextEvent(Encode(points))).text == Utf8(points);
    assert forall i :: 0 <= i < |points| ==> (IsForbidden(points[i]) <==> IsSeparator(points[i])) by {
      OnlySeparators(points);
    }
  }

  lemma OnlySeparators(points: seq<CodePoint>)
    requires NoControls(points)
    ensures forall i :: 0 <= i < |points| ==> (IsForbidden(points[i]) <==> IsSeparator(points[i]))
  {
  }

  ghost predicate AllAccepted(events: seq<Event>) {
    forall i :: 0 <= i < |events| ==> Validate(Decoded(events[i]))
  }

  ghost predicate NoSeparators(tokens: seq<Token>) {
    forall i :: 0 <= i < |tokens| && tokens[i].Character? ==> !IsSeparator(tokens[i].point)
  }

  ghost predicate ScalarTokens(tokens: seq<Token>) {
    forall i :: 0 <= i < |tokens| && tokens[i].Character? ==> IsScalar(tokens[i].point)
  }

  lemma SentAccepted(s: Sent)
    requires GoodSent(s) && ScalarTokens(MeaningOf(s))
    ensures AllAccepted(EventsOf(s)) <==> NoSeparators(MeaningOf(s))
  {
    match s
    case Chunk(points) =>
      assert forall i :: 0 <= i < |points| ==> MeaningOf(s)[i] == Character(points[i]);
      ChunkAccepted(points);
      assert EventsOf(s)[0] == TextEvent(Encode(points));
    case Tap(code) =>
  }

  lemma {:induction false} LogAccepted(log: seq<Sent>)
    requires GoodLog(log) && ScalarTokens(LogMeaning(log))
    ensures AllAccepted(AllEvents(log)) <==> NoSeparators(LogMeaning(log))
    decreases |log|
  {
    if log != [] {
      var before, last := log[..|log| - 1], log[|log| - 1];
      TokensSplit(LogMeaning(before), MeaningOf(last));
      EventsSplit(AllEvents(before), EventsOf(last));
      LogAccepted(before);
      SentAccepted(last);
    }
  }

  lemma TokensSplit(a: seq<Token>, b: seq<Token>)
    ensures NoSeparators(a + b) <==> NoSeparators(a) && NoSeparators(b)
    ensures ScalarTokens(a + b) <==> ScalarTokens(a) && ScalarTokens(b)
  {
    assert forall i :: 0 <= i < |a| ==> a[i] == (a + b)[i];
    assert forall i :: 0 <= i < |b| ==> b[i] == (a + b)[|a| + i];
  }

  lemma EventsSplit(a: seq<Event>, b: seq<Event>)
    ensures AllAccepted(a + b) <==> AllAccepted(a) && AllAccepted(b)
  {
    assert forall i :: 0 <= i < |a| ==> a[i] == (a + b)[i];
    assert forall i :: 0 <= i < |b| ==> b[i] == (a + b)[|a| + i];
  }

  /** The meaning keeps every separator of the text and adds none. */
  lemma MeaningKeepsPoints(text: Text)
    ensures WellFormed(text) ==> ScalarTokens(Meaning(text))
    ensures NoSeparators(Meaning(text)) <==> SeparatorFree(CodePoints(text))
  {
    FoldKeepsPoints(CodePoints(text));
    TokensKeepPoints(FoldNewlines(CodePoints(text)));
  }

  ghost predicate SeparatorFree(points: seq<CodePoint>) {
    forall i :: 0 <= i < |points| ==> !IsSeparator(points[i])
  }

  lemma PointsCons(c: CodePoint, rest: seq<CodePoint>)
    ensures SeparatorFree([c] + rest) <==> !IsSeparator(c) && SeparatorFree(rest)
    ensures Scalars([c] + rest) <==> IsScalar(c) && Scalars(rest)
  {
    assert forall i :: 0 <= i < |rest| ==> rest[i] == ([c] + rest)[i + 1];
    assert ([c] + rest)[0] == c;
  }

  lemma {:induction false} FoldKeepsPoints(points: seq<CodePoint>)
    ensures SeparatorFree(FoldNewlines(points)) <==> SeparatorFree(points)
    ensures Scalars(points) ==> Scalars(FoldNewlines(points))
    decreases |points|
  {
    if points != [] {
      var rest := points[1..];
      assert points == [points[0]] + rest;
      PointsCons(points[0], rest);
      if points[0] == CR && |points| > 1 && points[1] == LF {
        assert rest == [LF] + points[2..];
        PointsCons(LF, points[2..]);
        FoldKeepsPoints(points[2..]);
        PointsCons(LF, FoldNewlines(points[2..]));
      } else {
        FoldKeepsPoints(rest);
        PointsCons(if points[0] == CR then LF else points[0], FoldNewlines(rest));
      }
    }
  }

  lemma {:induction false} TokensKeepPoints(points: seq<CodePoint>)
    ensures NoSeparators(TokensOf(points)) <==> SeparatorFree(points)
    ensures Scalars(points) ==> ScalarTokens(TokensOf(points))
    decreases |points|
  {
    if points != [] {
      assert points == [points[0]] + points[1..];
      PointsCons(points[0], points[1..]);
      TokensKeepPoints(points[1..]);
      TokensSplit(TokenOf(points[0]), TokensOf(points[1..]));
      var one := TokenOf(points[0]);
      assert one != [] && one[0].Character? ==> one[0].point == points[0];
    }
  }

  /**
   For well-formed text, the daemon accepts every event the phone sends exactly when the text has
   no U+2028 or U+2029, which the sender passes on and the daemon refuses.
   */
  lemma DaemonAcceptsIff(text: Text, log: seq<Sent>)
    requires WellFormed(text) && GoodLog(log) && LogMeaning(log) == Meaning(text)
    ensures AllAccepted(AllEvents(log)) <==> SeparatorFree(CodePoints(text))
  {
    MeaningKeepsPoints(text);
    LogAccepted(log);
  }

  // ---- What a keyboard at the other end types ----

  /** What has been typed, and the keys that are down. */
  datatype Keyboard = Keyboard(tokens: seq<Token>, held: set<nat>)

  function KeyTokens(code: nat): seq<Token> {
    if code == 66 then [Enter] else if code == 61 then [Tab] else []
  }

  /** A key types when it goes down, and not again before it has come up. */
  function Receive(k: Keyboard, e: Event): Keyboard {
    match e
    case TextEvent(text) => k.(tokens := k.tokens + Characters(CodePoints(text)))
    case KeyEvent(code, action) =>
      if action == 1 && code !in k.held then Keyboard(k.tokens + KeyTokens(code), k.held + {code})
      else if action == 2 then k.(held := k.held - {code})
      else k
  }

  function Typed(events: seq<Event>): Keyboard {
    if events == [] then Keyboard([], {})
    else Receive(Typed(events[..|events| - 1]), events[|events| - 1])
  }

  lemma TypedSnoc(events: seq<Event>, e: Event)
    ensures Typed(events + [e]) == Receive(Typed(events), e)
  {
    assert (events + [e])[..|events|] == events;
  }

  lemma TapTyped(events: seq<Event>, code: nat)
    requires GoodSent(Tap(code)) && Typed(events).held == {}
    ensures Typed(events + EventsOf(Tap(code))) == Keyboard(Typed(events).tokens + MeaningOf(Tap(code)), {})
  {
    hide Typed;
    var down, up := KeyEvent(code, ACTION_DOWN), KeyEvent(code, ACTION_UP);
    assert events + EventsOf(Tap(code)) == (events + [down]) + [up];
    TypedSnoc(events, down);
    TypedSnoc(events + [down], up);
  }

  /** Whatever the text, every key that went down has come up. */
  lemma {:induction false} NoKeyStaysDown(log: seq<Sent>)
    requires GoodLog(log)
    ensures Typed(AllEvents(log)).held == {}
    decreases |log|
  {
    hide Typed, GoodSent, CodePoints, Encode;
    if log == [] {
      NothingTyped();
    } else {
      var before, last := log[..|log| - 1], log[|log| - 1];
      NoKeyStaysDown(before);
      if last.Tap? {
        TapTyped(AllEvents(before), last.keyCode);
      } else {
        TypedSnoc(AllEvents(before), TextEvent(Encode(last.points)));
      }
    }
  }

  lemma NothingTyped()
    ensures Typed(AllEvents([])) == Keyboard([], {}) && LogMeaning([]) == []
  {
  }

  lemma {:induction false} LogTyped(log: seq<Sent>)
    requires GoodLog(log) && ScalarTokens(LogMeaning(log))
    ensures Typed(AllEvents(log)) == Keyboard(LogMeaning(log), {})
    decreases |log|
  {
    hide Typed, GoodSent, CodePoints, Encode, ScalarTokens, MeaningOf;
    if log == [] {
      NothingTyped();
    } else {
      var before, last := log[..|log| - 1], log[|log| - 1];
      TokensSplit(LogMeaning(before), MeaningOf(last));
      LogTyped(before);
      if last.Tap? {
        TapTyped(AllEvents(before), last.keyCode);
      } else {
        ChunkReadsBack(last.points);
        TypedSnoc(AllEvents(before), TextEvent(Encode(last.points)));
      }
    }
  }

  lemma ChunkReadsBack(points: seq<CodePoint>)
    requires ScalarTokens(MeaningOf(Chunk(points)))
    ensures CodePoints(Encode(points)) == points && MeaningOf(Chunk(points)) == Characters(points)
  {
    assert forall i :: 0 <= i < |points| ==> MeaningOf(Chunk(points))[i] == Character(points[i]);
    EncodeReadsBack(points);
  }

  /** Well-formed text is typed as it is meant, with no key left down. */
  lemma TypedAsMeant(text: Text, log: seq<Sent>)
    requires WellFormed(text) && GoodLog(log) && LogMeaning(log) == Meaning(text)
    ensures Typed(AllEvents(log)) == Keyboard(Meaning(text), {})
  {
    hide Typed;
    MeaningKeepsPoints(text);
    LogTyped(log);
  }

  // ---- Chunks are as long as they can be ----

  /** A chunk is followed by another one only because the next character would not have fitted. */
  ghost predicate Greedy(log: seq<Sent>) {
    forall i :: 0 <= i < |log| - 1 && log[i].Chunk? && log[i + 1].Chunk? ==>
      log[i + 1].points != [] && ChunkSize(log[i].points) + EncodedSize(log[i + 1].points[0]) > 4096
  }

  ghost predicate GreedyDraft(d: Draft) {
    Greedy(Flushed(d).log) && (d.points == [] && d.log != [] ==> d.log[|d.log| - 1].Tap?)
  }

  lemma TakenGreedy(d: Draft, c: CodePoint)
    requires GreedyDraft(d)
    ensures GreedyDraft(Taken(d, c))
  {
    hide ChunkSize, EncodedSize;
    var open := Flushed(d).log;
    if c == LF || c == HT {
      assert forall i :: 0 <= i < |open| ==> Taken(d, c).log[i] == open[i];
    } else if !IsControl(c) {
      SmallPoint(c);
      if ChunkSize(d.points) + EncodedSize(c) > MAX_TEXT_BYTES {
        GreedySnoc(open, Chunk([c]));
      } else if d.points == [] {
        GreedySnoc(open, Chunk([c]));
      } else {
        GreedyLonger(d.log, d.points, c);
      }
    }
  }

  lemma GreedySnoc(log: seq<Sent>, s: Sent)
    requires Greedy(log) && s.Chunk? && s.points != []
    requires log != [] && log[|log| - 1].Chunk? ==>
               ChunkSize(log[|log| - 1].points) + EncodedSize(s.points[0]) > 4096
    ensures Greedy(log + [s])
  {
    hide ChunkSize, EncodedSize;
  }

  lemma GreedyLonger(log: seq<Sent>, points: seq<CodePoint>, c: CodePoint)
    requires points != [] && Greedy(log + [Chunk(points)])
    ensures Greedy(log + [Chunk(points + [c])])
  {
    hide ChunkSize, EncodedSize;
    var a, b := log + [Chunk(points)], log + [Chunk(points + [c])];
    forall i | 0 <= i < |b| - 1 && b[i].Chunk? && b[i + 1].Chunk?
      ensures b[i + 1].points != [] && ChunkSize(b[i].points) + EncodedSize(b[i + 1].points[0]) > 4096
    {
      assert a[i] == b[i] == log[i] && a[i + 1].Chunk? && a[i + 1].points[0] == b[i + 1].points[0];
    }
  }

  lemma SmallPoint(c: CodePoint)
    ensures ChunkSize([]) == 0 && EncodedSize(c) <= 4
  {
  }

  lemma {:induction false} DraftedGreedy(d: Draft, points: seq<CodePoint>)
    requires GreedyDraft(d)
    ensures GreedyDraft(Drafted(d, points))
    decreases |points|
  {
    hide GreedyDraft, Taken;
    if points != [] {
      TakenGreedy(d, points[0]);
      DraftedGreedy(Taken(d, points[0]), points[1..]);
    }
  }

  /** No chunk that is sent for a text could have taken the first character of the chunk after it. */
  lemma GreedyChunks(text: Text)
    ensures Greedy(SentFor(text))
  {
    hide Folded, Drafted, Greedy;
    NothingSent();
    DraftedGreedy(NO_DRAFT, Folded(text));
  }

  lemma NothingSent()
    ensures GreedyDraft(NO_DRAFT)
  {
  }

  // ---- The size of an event ----

  /** UTF-8 bytes of the text of an event, Java writing '?' for half a pair. */
  function EventSize(text: Text): nat {
    ChunkSize(CodePoints(text))
  }

  ghost predicate AllWithinLimit(events: seq<Event>) {
    forall i :: 0 <= i < |events| && events[i].TextEvent? ==>
      && WellFormed(events[i].text)
      && EventSize(events[i].text) == TextSize(CodePoints(events[i].text)) <= MAX_TEXT_BYTES
  }

  lemma SentWithinLimit(s: Sent)
    requires GoodSent(s) && ScalarTokens(MeaningOf(s))
    ensures AllWithinLimit(EventsOf(s))
  {
    if s.Chunk? {
      assert forall i :: 0 <= i < |s.points| ==> MeaningOf(s)[i] == Character(s.points[i]);
      EncodeReadsBack(s.points);
      SizesAgree(s.points);
    }
  }

  lemma {:induction false} LogWithinLimit(log: seq<Sent>)
    requires GoodLog(log) && ScalarTokens(LogMeaning(log))
    ensures AllWithinLimit(AllEvents(log))
    decreases |log|
  {
    if log != [] {
      hide ScalarTokens, AllWithinLimit, GoodSent, EventsOf, MeaningOf;
      var before, last := log[..|log| - 1], log[|log| - 1];
      TokensSplit(LogMeaning(before), MeaningOf(last));
      LogWithinLimit(before);
      SentWithinLimit(last);
      WithinLimitSplit(AllEvents(before), EventsOf(last));
    } else {
      assert AllEvents(log) == [];
    }
  }

  lemma WithinLimitSplit(a: seq<Event>, b: seq<Event>)
    requires AllWithinLimit(a) && AllWithinLimit(b)
    ensures AllWithinLimit(a + b)
  {
    hide WellFormed, EventSize, TextSize;
  }

  /** For every well-formed text, no text event is above the limit in UTF-8 bytes. */
  lemma WellFormedWithinLimit(text: Text, log: seq<Sent>)
    requires WellFormed(text) && GoodLog(log) && LogMeaning(log) == Meaning(text)
    ensures AllWithinLimit(AllEvents(log))
  {
    MeaningKeepsPoints(text);
    LogWithinLimit(log);
  }

  /** High and low halves that stand side by side, and so become one code point when they are encoded. */
  function FusedPairs(points: seq<CodePoint>): nat {
    if |points| < 2 then 0
    else if IsHighSurrogate(points[0]) && IsLowSurrogate(points[1]) then 1 + FusedPairs(points[2..])
    else FusedPairs(points[1..])
  }

  lemma {:induction false} ChunkSizeCons(c: CodePoint, points: seq<CodePoint>)
    ensures ChunkSize([c] + points) == EncodedSize(c) + ChunkSize(points)
    decreases |points|
  {
    var all := [c] + points;
    if points == [] {
      assert all[..0] == [];
    } else {
      ChunkSizeCons(c, points[..|points| - 1]);
      assert all[..|all| - 1] == [c] + points[..|points| - 1];
    }
  }

  lemma EncodeCons(c: CodePoint, points: seq<CodePoint>)
    ensures Encode([c] + points) == Units(c) + Encode(points)
  {
    assert ([c] + points)[1..] == points;
  }

  /** A code point is read back unless it is a high half before a low half. */
  lemma ReadsBackUnfused(c: CodePoint, points: seq<CodePoint>)
    requires !(IsHighSurrogate(c) && points != [] && IsLowSurrogate(points[0]))
    ensures CodePoints(Encode([c] + points)) == [c] + CodePoints(Encode(points))
  {
    hide CodePoints;
    EncodeCons(c, points);
    var rest := Encode(points);
    assert rest != [] ==> rest[0] == Units(points[0])[0];
    assert FirstPoint(Units(c) + rest) == c;
    assert (Units(c) + rest)[|Units(c)|..] == rest;
    CodePointsStep(Units(c) + rest);
  }

  lemma CodePointsStep(text: Text)
    requires text != []
    ensures CodePoints(text) == [FirstPoint(text)] + CodePoints(text[|Units(FirstPoint(text))|..])
  {
  }

  lemma ReadsBackFused(high: CodePoint, low: CodePoint, points: seq<CodePoint>) returns (c: CodePoint)
    requires IsHighSurrogate(high) && IsLowSurrogate(low)
    ensures c >= 0x1_0000 && CodePoints(Encode([high, low] + points)) == [c] + CodePoints(Encode(points))
    ensures c == 0x1_0000 + (high - 0xD800) * 0x400 + (low - 0xDC00)
  {
    hide CodePoints, Encode;
    var rest := Encode(points);
    assert [high, low] + points == [high] + ([low] + points);
    EncodeCons(high, [low] + points);
    EncodeCons(low, points);
    var text := Units(high) + (Units(low) + rest);
    c := FirstPoint(text);
    assert text[2..] == rest;
    CodePointsStep(text);
  }

  /** The size of a chunk's event exceeds the counted size by two bytes for every fused pair. */
  lemma {:induction false} EventSizeExact(points: seq<CodePoint>)
    ensures EventSize(Encode(points)) == ChunkSize(points) + 2 * FusedPairs(points)
    decreases |points|
  {
    hide CodePoints, Encode, ChunkSize, FirstPoint;
    if points == [] {
      NothingSized();
    } else {
      var c, rest := points[0], points[1..];
      assert points == [c] + rest;
      ChunkSizeCons(c, rest);
      if rest != [] && IsHighSurrogate(c) && IsLowSurrogate(rest[0]) {
        var low, more := rest[0], rest[1..];
        assert rest == [low] + more && points == [c, low] + more && points[2..] == more;
        ChunkSizeCons(low, more);
        var fused := ReadsBackFused(c, low, more);
        ChunkSizeCons(fused, CodePoints(Encode(more)));
        EventSizeExact(more);
      } else {
        ReadsBackUnfused(c, rest);
        ChunkSizeCons(c, CodePoints(Encode(rest)));
        EventSizeExact(rest);
      }
    }
  }

  lemma NothingSized()
    ensures CodePoints(Encode([])) == [] && ChunkSize([]) == 0
  {
  }

  /** A chunk that is sent keeps the limit exactly when its counted size leaves room for its fused pairs. */
  lemma WithinLimitIff(points: seq<CodePoint>)
    requires GoodSent(Chunk(points))
    ensures EventSize(Encode(points)) <= MAX_TEXT_BYTES <==>
            2 * FusedPairs(points) <= MAX_TEXT_BYTES - ChunkSize(points)
  {
    EventSizeExact(points);
  }

  ghost predicate SizesKept(events: seq<Event>) {
    forall i :: 0 <= i < |events| && events[i].TextEvent? ==> EventSize(events[i].text) <= MAX_TEXT_BYTES
  }

  /** The counted size of a chunk leaves room for the bytes that fusing adds. */
  predicate LeavesRoom(s: Sent) {
    s.Chunk? ==> 2 * FusedPairs(s.points) <= MAX_TEXT_BYTES - ChunkSize(s.points)
  }

  lemma SizesSplit(a: seq<Event>, b: seq<Event>)
    ensures SizesKept(a + b) <==> SizesKept(a) && SizesKept(b)
  {
    hide EventSize;
    assert forall i :: 0 <= i < |a| ==> a[i] == (a + b)[i];
    assert forall i :: 0 <= i < |b| ==> b[i] == (a + b)[|a| + i];
  }

  /** For any text, well formed or not: no event is above the limit exactly when every chunk leaves that room. */
  lemma {:induction false} LimitKeptIff(log: seq<Sent>)
    requires GoodLog(log)
    ensures SizesKept(AllEvents(log)) <==> forall i :: 0 <= i < |log| ==> LeavesRoom(log[i])
    decreases |log|
  {
    hide SizesKept, LeavesRoom;
    if log == [] {
      assert SizesKept([]) by { NoEvents(); }
    } else {
      var before, last := log[..|log| - 1], log[|log| - 1];
      LimitKeptIff(before);
      SizesSplit(AllEvents(before), EventsOf(last));
      OneSizeKept(last);
      assert log == before + [last];
    }
  }

  lemma OneSizeKept(s: Sent)
    requires GoodSent(s)
    ensures SizesKept(EventsOf(s)) <==> LeavesRoom(s)
  {
    hide EventSize, ChunkSize, FusedPairs, Encode;
    if s.Chunk? {
      WithinLimitIff(s.points);
      assert EventsOf(s)[0] == TextEvent(Encode(s.points));
    }
  }

  lemma NoEvents()
    ensures SizesKept([])
  {
  }

  // ---- The limit, from the text ----

  lemma {:induction false} DraftedGood(d: Draft, points: seq<CodePoint>)
    requires GoodDraft(d)
    ensures GoodDraft(Drafted(d, points))
    decreases |points|
  {
    if points != [] {
      TakenGood(d, points[0]);
      DraftedGood(Taken(d, points[0]), points[1..]);
    }
  }

  predicate GoodDraft(d: Draft) {
    GoodLog(d.log) && NoControls(d.points) && ChunkSize(d.points) <= MAX_TEXT_BYTES
  }

  lemma TakenGood(d: Draft, c: CodePoint)
    requires GoodDraft(d)
    ensures GoodDraft(Taken(d, c))
  {
    hide Encode, ChunkSize, Characters;
    ChunkSnoc(d.points, c);
    ChunkSnoc([], c);
    NothingSized();
    assert [] + [c] == [c];
  }

  lemma SentForGood(text: Text)
    ensures GoodLog(SentFor(text))
  {
    hide Folded, Drafted;
    assert GoodDraft(NO_DRAFT) by { NothingSized(); }
    DraftedGood(NO_DRAFT, Folded(text));
  }

  /** For any text: no event is above the limit exactly when every chunk sent for it leaves room for fusing. */
  lemma TextKeepsLimitIff(text: Text)
    ensures SizesKept(AllEvents(SentFor(text))) <==>
            forall i :: 0 <= i < |SentFor(text)| ==> LeavesRoom(SentFor(text)[i])
  {
    hide SentFor;
    SentForGood(text);
    LimitKeptIff(SentFor(text));
  }

  /** The code points that are not dropped. */
  function Kept(points: seq<CodePoint>): seq<CodePoint> {
    if points == [] then []
    else (if IsDropped(points[0]) then [] else [points[0]]) + Kept(points[1..])
  }

  predicate IsDropped(c: CodePoint) {
    IsControl(c) && c != LF && c != HT
  }

  /** No high half stands directly before a low half. */
  ghost predicate NoneMeet(points: seq<CodePoint>) {
    forall i :: 0 <= i < |points| - 1 ==> !(IsHighSurrogate(points[i]) && IsLowSurrogate(points[i + 1]))
  }

  lemma NoneMeetPart(a: seq<CodePoint>, b: seq<CodePoint>, c: seq<CodePoint>)
    requires NoneMeet(a + b + c)
    ensures NoneMeet(b)
  {
    var all := a + b + c;
    forall i | 0 <= i < |b| - 1 ensures !(IsHighSurrogate(b[i]) && IsLowSurrogate(b[i + 1])) {
      assert all[|a| + i] == b[i] && all[|a| + i + 1] == b[i + 1];
    }
  }

  lemma {:induction false} NoneMeetNoPairs(points: seq<CodePoint>)
    requires NoneMeet(points)
    ensures FusedPairs(points) == 0
    decreases |points|
  {
    if |points| >= 2 {
      assert points == [points[0]] + points[1..] + [];
      NoneMeetPart([points[0]], points[1..], []);
      NoneMeetNoPairs(points[1..]);
    }
  }

  ghost predicate ApartLog(log: seq<Sent>) {
    forall i :: 0 <= i < |log| && log[i].Chunk? ==> NoneMeet(log[i].points)
  }

  /** The open chunk and what is still to come. */
  ghost predicate ApartDraft(d: Draft, more: seq<CodePoint>) {
    ApartLog(d.log) && NoneMeet(d.points + Kept(more))
  }

  lemma FlushedApart(d: Draft, more: seq<CodePoint>)
    requires ApartDraft(d, more)
    ensures ApartLog(Flushed(d).log)
  {
    hide Kept, NoneMeet;
    assert [] + d.points + Kept(more) == d.points + Kept(more);
    NoneMeetPart([], d.points, Kept(more));
  }

  lemma TakenApart(d: Draft, c: CodePoint, more: seq<CodePoint>)
    requires ApartDraft(d, [c] + more)
    ensures ApartDraft(Taken(d, c), more)
  {
    hide NoneMeet, ChunkSize, EncodedSize;
    FlushedApart(d, [c] + more);
    assert ([c] + more)[1..] == more;
    var rest := Kept(more);
    hide Kept;
    if IsDropped(c) {
      assert d.points + ([] + rest) == d.points + rest;
    } else {
      assert d.points + ([c] + rest) == d.points + ([c] + rest) + [];
      NoneMeetPart(d.points, [c] + rest, []);
      assert [c] + rest == [c] + ([] + rest) + [];
      NoneMeetPart([c], [] + rest, []);
      assert (d.points + [c]) + rest == d.points + ([c] + rest);
    }
  }

  lemma {:induction false} DraftedApart(d: Draft, points: seq<CodePoint>)
    requires ApartDraft(d, points)
    ensures ApartDraft(Drafted(d, points), [])
    decreases |points|
  {
    hide Kept, NoneMeet, Taken;
    if points != [] {
      assert points == [points[0]] + points[1..];
      TakenApart(d, points[0], points[1..]);
      DraftedApart(Taken(d, points[0]), points[1..]);
    }
  }

  /**
   A caller can see beforehand that the limit is kept: it is enough that no high half comes to stand
   before a low half when the dropped control characters are taken out.
   */
  lemma ApartTextKeepsLimit(text: Text)
    requires NoneMeet(Kept(Folded(text)))
    ensures SizesKept(AllEvents(SentFor(text)))
  {
    hide Kept, NoneMeet, Folded, Drafted;
    assert [] + Kept(Folded(text)) == Kept(Folded(text));
    DraftedApart(NO_DRAFT, Folded(text));
    FlushedApart(Drafted(NO_DRAFT, Folded(text)), []);
    SentForGood(text);
    var log := SentFor(text);
    forall i | 0 <= i < |log| ensures LeavesRoom(log[i]) {
      assert GoodSent(log[i]);
      if log[i].Chunk? { NoneMeetNoPairs(log[i].points); }
    }
    TextKeepsLimitIff(text);
  }

  lemma {:induction false} KeptScalars(points: seq<CodePoint>)
    requires Scalars(points)
    ensures Scalars(Kept(points))
    decreases |points|
  {
    if points != [] {
      assert points == [points[0]] + points[1..];
      PointsCons(points[0], points[1..]);
      KeptScalars(points[1..]);
      PointsCons(points[0], Kept(points[1..]));
    }
  }

  /** Well-formed text meets that condition. */
  lemma WellFormedApart(text: Text)
    requires WellFormed(text)
    ensures NoneMeet(Kept(Folded(text)))
  {
    hide Kept, FoldNewlines, CodePoints;
    FoldKeepsPoints(CodePoints(text));
    KeptScalars(Folded(text));
    assert forall i :: 0 <= i < |Kept(Folded(text))| ==> IsScalar(Kept(Folded(text))[i]);
  }

  // ---- A text whose event is above the limit ----

  const HIGH: CodeUnit := 0xD83D
  const LOW: CodeUnit := 0xDE80
  const WHOLE: CodePoint := 0x1_F680

  /** Two lone halves with a control character between them, over and over: as code units and as points. */
  function Apart(n: nat): Text {
    if n == 0 then [] else [HIGH] + ([0] + ([LOW] + Apart(n - 1)))
  }

  function ApartPoints(n: nat): seq<CodePoint> {
    if n == 0 then [] else [HIGH] + ([0] + ([LOW] + ApartPoints(n - 1)))
  }

  function Halves(n: nat): seq<CodePoint> {
    if n == 0 then [] else [HIGH, LOW] + Halves(n - 1)
  }

  function Wholes(n: nat): seq<CodePoint> {
    if n == 0 then [] else [WHOLE] + Wholes(n - 1)
  }

  lemma {:induction false} HalvesSnoc(n: nat)
    ensures Halves(n + 1) == Halves(n) + [HIGH, LOW]
  {
    if n > 0 {
      HalvesSnoc(n - 1);
      assert [HIGH, LOW] + (Halves(n - 1) + [HIGH, LOW]) == ([HIGH, LOW] + Halves(n - 1)) + [HIGH, LOW];
    } else {
      assert [HIGH, LOW] + [] == [] + [HIGH, LOW];
    }
  }

  lemma UnitFolded(c: CodeUnit, rest: Text)
    requires c != CR && !(IsHighSurrogate(c) && rest != [] && IsLowSurrogate(rest[0]))
    ensures Folded([c] + rest) == [c] + Folded(rest)
  {
    hide Folded;
    var text := [c] + rest;
    assert FirstPoint(text) == c && text[1..] == rest;
    FoldedStep(text);
  }

  lemma {:induction false} ApartFolded(n: nat)
    ensures Folded(Apart(n)) == ApartPoints(n)
  {
    if n == 0 {
      NoMeaning();
    } else {
      hide Folded;
      ApartFolded(n - 1);
      var rest, points := Apart(n - 1), ApartPoints(n - 1);
      hide Apart, ApartPoints;
      UnitFolded(LOW, rest);
      UnitFolded(0, [LOW] + rest);
      UnitFolded(HIGH, [0] + ([LOW] + rest));
      ApartStep(n);
    }
  }

  lemma ApartStep(n: nat)
    requires n > 0
    ensures Apart(n) == [HIGH] + ([0] + ([LOW] + Apart(n - 1)))
    ensures ApartPoints(n) == [HIGH] + ([0] + ([LOW] + ApartPoints(n - 1)))
  {
  }

  lemma {:induction false} PairsCounted(n: nat)
    ensures ChunkSize(Halves(n)) == 2 * n
  {
    if n > 0 {
      PairsCounted(n - 1);
      var rest := Halves(n - 1);
      assert [HIGH, LOW] + rest == [HIGH] + ([LOW] + rest);
      ChunkSizeCons(HIGH, [LOW] + rest);
      ChunkSizeCons(LOW, rest);
    }
  }

  lemma {:induction false} PairsDrafted(k: nat, n: nat)
    requires 2 * (k + n) <= MAX_TEXT_BYTES
    ensures Drafted(Draft([], Halves(k)), ApartPoints(n)) ==
            Draft([], Halves(k + n))
    decreases n
  {
    hide Drafted, ChunkSize;
    var d, pairs := Draft([], Halves(k)), Halves(k);
    if n == 0 {
      NothingDrafted(d);
    } else {
      var rest := ApartPoints(n - 1);
      PairsCounted(k);
      ChunkSnoc(pairs, HIGH);
      DraftedStep(d, HIGH, [0] + ([LOW] + rest));
      DraftedStep(Draft([], pairs + [HIGH]), 0, [LOW] + rest);
      DraftedStep(Draft([], pairs + [HIGH]), LOW, rest);
      assert (pairs + [HIGH]) + [LOW] == pairs + [HIGH, LOW];
      HalvesSnoc(k);
      PairsDrafted(k + 1, n - 1);
    }
  }

  lemma {:induction false} PairsFuse(n: nat)
    ensures CodePoints(Encode(Halves(n))) == Wholes(n)
    ensures ChunkSize(Wholes(n)) == 4 * n && Scalars(Wholes(n))
  {
    hide CodePoints, Encode, ChunkSize, Scalars;
    if n == 0 {
      NoHalves();
    } else {
      PairsFuse(n - 1);
      var c := ReadsBackFused(HIGH, LOW, Halves(n - 1));
      ChunkSizeCons(WHOLE, Wholes(n - 1));
      PointsCons(WHOLE, Wholes(n - 1));
    }
  }

  /** Dropping the control character between two lone halves joins them: counted as two bytes, sent as four. */
  lemma HalvesFuse()
    ensures var text: Text, halves: seq<CodePoint> := [HIGH, 0, LOW], [HIGH, LOW];
            && CodePoints(text) == [HIGH, 0, LOW]
            && Meaning(text) == [Character(HIGH), Character(LOW)]
            && SentFor(text) == [Chunk(halves)]
            && ChunkSize(halves) == 2
            && CodePoints(Encode(halves)) == [WHOLE] && TextSize([WHOLE]) == 4
  {
    OneApart();
    hide Apart, ApartPoints, Halves, Wholes, Drafted, CodePoints, Encode, ChunkSize, TextSize, FoldNewlines;
    ApartFolded(1);
    NoHalves();
    PairsDrafted(0, 1);
    PairsCounted(1);
    PairsFuse(1);
    SizesAgree(Wholes(1));
    assert [] + [Chunk([HIGH, LOW])] == [Chunk([HIGH, LOW])];
    OneApartRead();
    TokensOfHalves();
  }

  lemma OneApart()
    ensures Apart(1) == [HIGH, 0, LOW] && ApartPoints(1) == [HIGH, 0, LOW]
    ensures Halves(1) == [HIGH, LOW] && Wholes(1) == [WHOLE]
  {
  }

  lemma OneApartRead()
    ensures CodePoints([HIGH, 0, LOW]) == [HIGH, 0, LOW]
  {
    var text: Text := [HIGH, 0, LOW];
    assert text[1..] == [0, LOW] && text[2..] == [LOW] && text[3..] == [];
    assert CodePoints([LOW]) == [LOW];
    assert CodePoints([0, LOW]) == [0] + CodePoints([LOW]);
  }

  lemma TokensOfHalves()
    ensures TokensOf([HIGH, 0, LOW]) == [Character(HIGH), Character(LOW)]
  {
    var points: seq<CodePoint> := [HIGH, 0, LOW];
    assert points[1..] == [0, LOW] && points[2..] == [LOW];
    assert TokensOf([LOW]) == [Character(LOW)];
    assert TokensOf([0, LOW]) == [] + [Character(LOW)];
  }

  /**
   For 2048 times a lone high half, a control character and a lone low half, the phone sends one
   event. It is counted as 4096 bytes, has 8192, and is refused by the daemon.
   */
  lemma LimitBroken()
    ensures var text, pairs := Apart(2048), Halves(2048);
            && SentFor(text) == [Chunk(pairs)]
            && ChunkSize(pairs) == 4096
            && WellFormed(Encode(pairs)) && TextSize(CodePoints(Encode(pairs))) == 8192
            && !Validate(Decoded(TextEvent(Encode(pairs))))
  {
    hide ChunkSize, Apart, ApartPoints, Halves, Wholes, Drafted, CodePoints, Encode, TextSize;
    ApartFolded(2048);
    NoHalves();
    PairsDrafted(0, 2048);
    PairsCounted(2048);
    PairsFuse(2048);
    SizesAgree(Wholes(2048));
    var pairs := Halves(2048);
    assert pairs != [] by { if pairs == [] { NoHalves(); } }
    assert [] + [Chunk(pairs)] == [Chunk(pairs)];
  }

  lemma NoHalves()
    ensures Halves(0) == [] && CodePoints(Encode(Halves(0))) == Wholes(0)
    ensures ChunkSize(Wholes(0)) == 0 && Scalars(Wholes(0)) && ChunkSize([]) == 0
  {
  }
}
