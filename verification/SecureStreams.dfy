/**
 The phone's sealing streams: plain `[length][body]` bytes in, sealed records on the wire, and back.

 The writer collects bytes until a frame is complete and the reader loads one record at a time, so
 neither the pieces a caller writes nor the pieces the socket returns line up with frames.
 */
module SecureStreams {
  import opened Sequences
  import opened Wire

  const LEAST_SEALED := TAG_BYTES + 1

  // ---- Plain frames ----

  /** The plain bytes of `messages`: each preceded by its length. */
  function Plain(messages: seq<Bytes>): Bytes {
    if messages == [] then [] else Length(|messages[0]|) + messages[0] + Plain(messages[1..])
  }

  datatype First = Incomplete | BadFrame | Frame(body: Bytes, rest: Bytes)

  function FirstFrame(data: Bytes): (r: First)
    ensures r.Frame? ==> 1 <= |r.body| <= MAX_FRAME && |r.rest| + |r.body| + 4 == |data|
  {
    if |data| < 4 then Incomplete
    else
      var length := Number(data[..4]);
      if !(1 <= length <= MAX_FRAME) then BadFrame
      else if |data| < 4 + length then Incomplete
      else Frame(data[4..4 + length], data[4 + length..])
  }

  datatype Parsed = Parsed(messages: seq<Bytes>, rest: Bytes, bad: bool)

  /** The complete frames at the start of `data`, what follows them, and whether that is a bad length. */
  function Frames(data: Bytes): Parsed
    decreases |data|
  {
    match FirstFrame(data)
    case Incomplete => Parsed([], data, false)
    case BadFrame => Parsed([], data, true)
    case Frame(body, rest) => var more := Frames(rest); more.(messages := [body] + more.messages)
  }

  lemma FirstFrameGrows(a: Bytes, b: Bytes)
    ensures FirstFrame(a).Frame? ==>
              FirstFrame(a + b) == Frame(FirstFrame(a).body, FirstFrame(a).rest + b)
  {
    if FirstFrame(a).Frame? {
      var length := Number(a[..4]);
      assert (a + b)[..4] == a[..4];
      assert (a + b)[4..4 + length] == a[4..4 + length];
      assert (a + b)[4 + length..] == a[4 + length..] + b;
    }
  }

  lemma FirstFrameIs(data: Bytes)
    ensures FirstFrame(data).Frame? ==>
              data == Length(|FirstFrame(data).body|) + FirstFrame(data).body + FirstFrame(data).rest
  {
    if FirstFrame(data).Frame? {
      BigEndianOfNumber(data[..4]);
      assert data == data[..4] + FirstFrame(data).body + FirstFrame(data).rest;
    }
  }

  lemma FirstFrameOf(body: Bytes, rest: Bytes)
    requires 1 <= |body| <= MAX_FRAME
    ensures FirstFrame(Length(|body|) + body + rest) == Frame(body, rest)
  {
    LengthReadsBack(|body|);
    var data := Length(|body|) + body + rest;
    assert data[..4] == Length(|body|) && data[4..4 + |body|] == body && data[4 + |body|..] == rest;
  }

  /** Parsing in two pieces gives what parsing at once gives. */
  lemma {:induction false} FramesInPieces(a: Bytes, b: Bytes)
    requires !Frames(a).bad
    ensures var later := Frames(Frames(a).rest + b);
            Frames(a + b) == later.(messages := Frames(a).messages + later.messages)
    decreases |a|
  {
    hide FirstFrame;
    match FirstFrame(a)
    case Frame(body, rest) =>
      FirstFrameGrows(a, b);
      FramesInPieces(rest, b);
      var first, later := Frames(rest).messages, Frames(Frames(rest).rest + b);
      assert Frames(a + b).messages == [body] + (first + later.messages);
      assert [body] + (first + later.messages) == ([body] + first) + later.messages;
    case Incomplete =>
      assert [] + Frames(a + b).messages == Frames(a + b).messages;
    case BadFrame =>
  }

  /** A bad length is never made good by what follows it. */
  lemma {:induction false} BadStays(a: Bytes, b: Bytes)
    requires Frames(a).bad
    ensures Frames(a + b).bad && Frames(a + b).messages == Frames(a).messages
    decreases |a|
  {
    hide FirstFrame;
    BadFrameStays(a, b);
    if FirstFrame(a).Frame? {
      FirstFrameGrows(a, b);
      BadStays(FirstFrame(a).rest, b);
    }
  }

  lemma BadFrameStays(a: Bytes, b: Bytes)
    ensures FirstFrame(a).BadFrame? ==> FirstFrame(a + b).BadFrame?
  {
    if |a| >= 4 { assert (a + b)[..4] == a[..4]; }
  }

  lemma {:induction false} FramesSendable(data: Bytes)
    ensures Sendable(Frames(data).messages)
    decreases |data|
  {
    hide FirstFrame;
    if FirstFrame(data).Frame? {
      FramesSendable(FirstFrame(data).rest);
    }
  }

  /** Nothing is lost or altered: the frames found and the rest are the data. */
  lemma {:induction false} PlainOfFrames(data: Bytes)
    ensures Plain(Frames(data).messages) + Frames(data).rest == data
    decreases |data|
  {
    hide FirstFrame, BigEndian;
    if FirstFrame(data).Frame? {
      var body, rest := FirstFrame(data).body, FirstFrame(data).rest;
      FirstFrameIs(data);
      PlainOfFrames(rest);
      assert Frames(data).messages[1..] == Frames(rest).messages;
      assert Length(|body|) + body + (Plain(Frames(rest).messages) + Frames(rest).rest) ==
             (Length(|body|) + body + Plain(Frames(rest).messages)) + Frames(rest).rest;
    }
  }

  /** Well-formed frames parse back exactly. */
  lemma {:induction false} FramesOfPlain(messages: seq<Bytes>)
    requires Sendable(messages)
    ensures Frames(Plain(messages)) == Parsed(messages, [], false)
    decreases |messages|
  {
    hide FirstFrame, BigEndian;
    if messages != [] {
      FirstFrameOf(messages[0], Plain(messages[1..]));
      FramesOfPlain(messages[1..]);
    } else {
      assert FirstFrame([]) == Incomplete by { FirstFrameShort(); }
    }
  }

  lemma FirstFrameShort()
    ensures FirstFrame([]) == Incomplete
  {
  }

  lemma {:induction false} PlainAppend(xs: seq<Bytes>, ys: seq<Bytes>)
    ensures Plain(xs + ys) == Plain(xs) + Plain(ys)
    decreases |xs|
  {
    if xs == [] {
      assert xs + ys == ys;
    } else {
      PlainAppend(xs[1..], ys);
      assert (xs + ys)[1..] == xs[1..] + ys;
    }
  }

  lemma PlainSnoc(xs: seq<Bytes>, y: Bytes)
    ensures Plain(xs + [y]) == Plain(xs) + Length(|y|) + y
  {
    PlainAppend(xs, [y]);
    assert [y][1..] == [];
  }

  lemma EmptyWire(a: Aead, key: Bytes, counter: nat)
    ensures WireOf(a, key, counter, []) == []
  {
  }

  lemma FirstFrameAt(data: Bytes, position: nat)
    requires position <= |data|
    ensures FirstFrame(data[position..]) ==
            if |data| - position < 4 then Incomplete
            else
              var length := Number(data[position..position + 4]);
              if !(1 <= length <= MAX_FRAME) then BadFrame
              else if |data| - position < 4 + length then Incomplete
              else Frame(data[position + 4..position + 4 + length], data[position + 4 + length..])
  {
    var tail := data[position..];
    if |tail| >= 4 {
      assert tail[..4] == data[position..position + 4];
      var length := Number(tail[..4]);
      if |tail| >= 4 + length {
        assert tail[4..4 + length] == data[position + 4..position + 4 + length];
        assert tail[4 + length..] == data[position + 4 + length..];
      }
    }
  }

  // ---- The writer ----

  /** What the writer has put on the wire, what it still holds, and its counter. */
  datatype Sealer = Sealer(wire: Bytes, pending: Bytes, counter: nat)

  datatype Call = WriteCall(bytes: Bytes) | FlushCall

  const START := Sealer([], [], 0)

  /** Seals every complete frame; a bad length stops with the pending bytes kept as they were. */
  function Emitted(a: Aead, key: Bytes, s: Sealer): (Sealer, bool) {
    var parsed := Frames(s.pending);
    (Sealer(s.wire + WireOf(a, key, s.counter, parsed.messages),
            if parsed.bad then s.pending else parsed.rest,
            s.counter + |parsed.messages|),
     !parsed.bad)
  }

  function CallBytes(c: Call): Bytes {
    if c.WriteCall? then c.bytes else []
  }

  /** One call, and whether it succeeds. */
  function Called(a: Aead, key: Bytes, s: Sealer, c: Call): (Sealer, bool) {
    Emitted(a, key, s.(pending := s.pending + CallBytes(c)))
  }

  function AfterCalls(a: Aead, key: Bytes, calls: seq<Call>): Sealer {
    if calls == [] then START else Called(a, key, AfterCalls(a, key, calls[..|calls| - 1]), calls[|calls| - 1]).0
  }

  predicate AllSucceed(a: Aead, key: Bytes, calls: seq<Call>)
    decreases |calls|
  {
    calls != [] ==>
      && AllSucceed(a, key, calls[..|calls| - 1])
      && Called(a, key, AfterCalls(a, key, calls[..|calls| - 1]), calls[|calls| - 1]).1
  }

  function BytesOf(calls: seq<Call>): Bytes {
    if calls == [] then [] else BytesOf(calls[..|calls| - 1]) + CallBytes(calls[|calls| - 1])
  }

  lemma CallsSnoc(a: Aead, key: Bytes, calls: seq<Call>, c: Call)
    ensures AfterCalls(a, key, calls + [c]) == Called(a, key, AfterCalls(a, key, calls), c).0
    ensures AllSucceed(a, key, calls + [c]) <==>
            AllSucceed(a, key, calls) && Called(a, key, AfterCalls(a, key, calls), c).1
    ensures BytesOf(calls + [c]) == BytesOf(calls) + CallBytes(c)
  {
    assert (calls + [c])[..|calls|] == calls;
  }

  /** The wire carries exactly the complete frames of `written`. */
  function SealerOf(a: Aead, key: Bytes, written: Bytes): Sealer {
    var parsed := Frames(written);
    Sealer(WireOf(a, key, 0, parsed.messages), parsed.rest, |parsed.messages|)
  }

  lemma GoodCall(a: Aead, key: Bytes, written: Bytes, c: Call)
    requires !Frames(written).bad
    ensures var r := Called(a, key, SealerOf(a, key, written), c);
            && r.1 == !Frames(written + CallBytes(c)).bad
            && (r.1 ==> r.0 == SealerOf(a, key, written + CallBytes(c)))
  {
    hide Frames, WireOf;
    FramesInPieces(written, CallBytes(c));
    WireOfAppend(a, key, 0, Frames(written).messages, Frames(Frames(written).rest + CallBytes(c)).messages);
  }

  lemma NothingSealed(a: Aead, key: Bytes)
    ensures !Frames([]).bad && SealerOf(a, key, []) == START
  {
  }

  /**
   However the bytes are cut into writes, with flushes anywhere between: every call succeeds exactly
   when the bytes hold no bad length, and then the wire is that of their complete frames.
   */
  lemma {:induction false} CallsSucceedIff(a: Aead, key: Bytes, calls: seq<Call>)
    ensures AllSucceed(a, key, calls) <==> !Frames(BytesOf(calls)).bad
    ensures AllSucceed(a, key, calls) ==> AfterCalls(a, key, calls) == SealerOf(a, key, BytesOf(calls))
    decreases |calls|
  {
    hide Frames, SealerOf, Called;
    if calls == [] {
      NothingSealed(a, key);
    } else {
      var before, last := calls[..|calls| - 1], calls[|calls| - 1];
      CallsSucceedIff(a, key, before);
      if Frames(BytesOf(before)).bad {
        BadStays(BytesOf(before), CallBytes(last));
      } else {
        GoodCall(a, key, BytesOf(before), last);
      }
    }
  }

  /** A client that writes whole messages, in any pieces, never meets a bad length. */
  lemma MessagesSealed(a: Aead, key: Bytes, messages: seq<Bytes>, calls: seq<Call>)
    requires Sendable(messages) && BytesOf(calls) <= Plain(messages)
    ensures AllSucceed(a, key, calls) && !Frames(BytesOf(calls)).bad
    ensures BytesOf(calls) == Plain(messages) ==>
              AfterCalls(a, key, calls) == Sealer(WireOf(a, key, 0, messages), [], |messages|)
  {
    hide Frames, Plain, WireOf;
    var written := BytesOf(calls);
    FramesOfPlain(messages);
    assert Plain(messages) == written + Plain(messages)[|written|..];
    if Frames(written).bad { BadStays(written, Plain(messages)[|written|..]); }
    CallsSucceedIff(a, key, calls);
  }

  // ---- After a bad length ----

  lemma WireGrows(a: Aead, key: Bytes, counter: nat, messages: seq<Bytes>)
    ensures WireOf(a, key, counter, messages) == [] <==> messages == []
  {
    if messages != [] {
      assert |Record(a, key, counter, messages[0])| >= 4;
    }
  }

  /**
   The call that meets a bad length has sealed the frames before it, and every later call seals them
   again, under new nonces: records go out twice exactly when there are such frames.
   */
  lemma SealedAgain(a: Aead, key: Bytes, s: Sealer, c: Call, later: Call)
    requires !Called(a, key, s, c).1
    ensures var t := Called(a, key, s, c).0;
            var u := Called(a, key, t, later);
            var messages := Frames(s.pending + CallBytes(c)).messages;
            && t.wire == s.wire + WireOf(a, key, s.counter, messages)
            && u.0.wire == t.wire + WireOf(a, key, s.counter + |messages|, messages)
            && !u.1 && u.0.counter == s.counter + 2 * |messages|
            && (u.0.wire == t.wire <==> messages == [])
  {
    hide Frames, WireOf;
    var pending := s.pending + CallBytes(c);
    BadStays(pending, CallBytes(later));
    var messages := Frames(pending).messages;
    WireGrows(a, key, s.counter + |messages|, messages);
  }

  const FRAME_THEN_BAD: Bytes := [0, 0, 0, 1, 7, 0, 0, 0, 0]

  /** An input: a frame and a bad length in one write, then a flush; the peer receives the message twice. */
  lemma MessageSentTwice(a: Aead, key: Bytes, least: nat)
    requires Inverts(a) && least <= TAG_BYTES + 1
    ensures ReceiveAll(a, key, least, 0, AfterCalls(a, key, [WriteCall(FRAME_THEN_BAD), FlushCall]).wire) ==
            ([[7], [7]], AtEnd)
  {
    hide AfterCalls, WireOf, ReceiveAll, Frames;
    BadExample();
    WrittenThenFlushed(a, key, FRAME_THEN_BAD);
    assert [[7]] + [[7]] == [[7], [7]];
    WireReadsBack(a, key, least, 0, [[7], [7]], WireOf(a, key, 0, [[7], [7]]));
  }

  lemma BadExample()
    ensures var parsed := Frames(FRAME_THEN_BAD); parsed.bad && parsed.messages == [[7]]
  {
    var body: Bytes := [7];
    var tail: Bytes := [0, 0, 0, 0];
    assert Length(1) == [0, 0, 0, 1] && Length(0) == tail by { assert BigEndian(2, 0) == [0, 0]; }
    FirstFrameOf(body, tail);
    assert Length(|body|) + body + tail == FRAME_THEN_BAD;
    LengthReadsBack(0);
    assert tail[..4] == tail;
    assert FirstFrame(tail) == BadFrame;
  }

  lemma TwoCalls(a: Aead, key: Bytes, c: Call, d: Call)
    ensures AfterCalls(a, key, [c, d]) == Called(a, key, Called(a, key, START, c).0, d).0
  {
    hide Called;
    CallsSnoc(a, key, [], c);
    CallsSnoc(a, key, [c], d);
    assert [] + [c] == [c] && [c] + [d] == [c, d];
  }

  lemma WrittenThenFlushed(a: Aead, key: Bytes, bytes: Bytes)
    requires Frames(bytes).bad
    ensures var messages := Frames(bytes).messages;
            AfterCalls(a, key, [WriteCall(bytes), FlushCall]).wire == WireOf(a, key, 0, messages + messages)
  {
    hide Frames, WireOf, AfterCalls;
    var messages := Frames(bytes).messages;
    TwoCalls(a, key, WriteCall(bytes), FlushCall);
    assert START.pending + CallBytes(WriteCall(bytes)) == bytes;
    SealedAgain(a, key, START, WriteCall(bytes), FlushCall);
    hide Called;
    WireOfAppend(a, key, 0, messages, messages);
    assert START.wire + WireOf(a, key, 0, messages) == WireOf(a, key, 0, messages);
  }

  class SealingOutputStream {
    const aead: Aead
    const key: Bytes
    var wire: Bytes             // what the socket has been given
    var pending: Bytes
    var counter: nat
    ghost var calls: seq<Call>  // what callers have done

    ghost function Model(): Sealer
      reads this
    {
      Sealer(wire, pending, counter)
    }

    ghost predicate Valid()
      reads this
    {
      Model() == AfterCalls(aead, key, calls)
    }

    constructor (aead: Aead, key: Bytes)
      ensures Valid() && calls == [] && this.aead == aead && this.key == key
    {
      this.aead, this.key := aead, key;
      wire, pending, counter, calls := [], [], 0, [];
    }

    /** Seals every complete frame; a bad length stops with the pending bytes kept as they were. */
    method EmitCompleteFrames() returns (ok: bool)
      modifies this`wire, this`pending, this`counter
      ensures (Model(), ok) == Emitted(aead, key, old(Model()))
    {
      hide BigEndian, Number, Record, WireOf, FirstFrame;
      var data := pending;
      var position := 0;
      ghost var done: seq<Bytes> := [];
      EmptyWire(aead, key, counter);
      assert data[0..] == data && done + Frames(data).messages == Frames(data).messages;
      while |data| - position >= 4
        invariant 0 <= position <= |data| && pending == old(pending)
        invariant Frames(data) == Frames(data[position..]).(messages := done + Frames(data[position..]).messages)
        invariant counter == old(counter) + |done|
        invariant wire == old(wire) + WireOf(aead, key, old(counter), done)
      {
        FirstFrameAt(data, position);
        var length := Number(data[position..position + 4]);
        if !(1 <= length <= MAX_FRAME) {
          assert done + [] == done;
          return false;
        }
        if |data| - position < 4 + length {
          break;
        }
        var body := data[position + 4..position + 4 + length];
        WireOfSnoc(aead, key, old(counter), done, body);
        wire := wire + Record(aead, key, counter, body);
        counter := counter + 1;
        ghost var more := Frames(data[position + 4 + length..]).messages;
        assert done + ([body] + more) == (done + [body]) + more;
        done := done + [body];
        position := position + 4 + length;
      }
      pending := data[position..];
      FirstFrameAt(data, position);
      assert done + [] == done;
      return true;
    }

    /** As long as no bad length is written, the wire carries the complete frames of all bytes written. */
    method Write(bytes: Bytes) returns (ok: bool)
      requires Valid()
      modifies this
      ensures Valid() && calls == old(calls) + [WriteCall(bytes)]
      ensures (Model(), ok) == Called(aead, key, old(Model()), WriteCall(bytes))
      ensures !Frames(BytesOf(calls)).bad ==> ok && Model() == SealerOf(aead, key, BytesOf(calls))
    {
      pending := pending + bytes;
      ok := EmitCompleteFrames();
      NoteCall(WriteCall(bytes), ok);
    }

    method Flush() returns (ok: bool)
      requires Valid()
      modifies this
      ensures Valid() && calls == old(calls) + [FlushCall]
      ensures (Model(), ok) == Called(aead, key, old(Model()), FlushCall)
      ensures !Frames(BytesOf(old(calls))).bad ==> ok && Model() == old(Model())
    {
      assert pending + [] == pending && BytesOf(calls) + [] == BytesOf(calls);
      CallsSucceedIff(aead, key, calls);
      ok := EmitCompleteFrames();
      NoteCall(FlushCall, ok);
    }

    /** Notes a call that has been carried out. */
    ghost method NoteCall(c: Call, ok: bool)
      requires (Model(), ok) == Called(aead, key, AfterCalls(aead, key, calls), c)
      modifies this`calls
      ensures Valid() && calls == old(calls) + [c]
      ensures !Frames(BytesOf(calls)).bad ==> ok && Model() == SealerOf(aead, key, BytesOf(calls))
    {
      hide Called, SealerOf, Frames;
      CallsSnoc(aead, key, calls, c);
      calls := calls + [c];
      CallsSucceedIff(aead, key, calls);
    }
  }

  // ---- The reader ----

  /** A socket that hands out its bytes in pieces of its own choosing. */
  class Socket {
    var incoming: Bytes

    constructor (bytes: Bytes)
      ensures incoming == bytes
    {
      incoming := bytes;
    }

    /** At most `limit` bytes, at least one unless the stream has ended. */
    method Read(limit: nat) returns (chunk: Bytes)
      requires limit > 0
      modifies this
      ensures old(incoming) == chunk + incoming && |chunk| <= limit
      ensures chunk == [] <==> old(incoming) == []
    {
      if incoming == [] { return []; }
      var n: nat :| 1 <= n <= limit && n <= |incoming|;
      chunk, incoming := incoming[..n], incoming[n..];
    }

    /** Reads on until `size` bytes are there; None when the stream ends first. */
    method ReadFully(already: Bytes, size: nat) returns (r: Option<Bytes>)
      requires |already| <= size
      modifies this
      ensures var whole := already + old(incoming);
              if |whole| < size then r == None && incoming == []
              else r == Some(whole[..size]) && incoming == whole[size..]
    {
      var read := already;
      while |read| < size
        invariant |read| <= size && read + incoming == already + old(incoming)
        decreases size - |read|
      {
        var chunk := Read(size - |read|);
        if chunk == [] { return None; }
        read := read + chunk;
      }
      assert (read + incoming)[..size] == read && (read + incoming)[size..] == incoming;
      return Some(read);
    }
  }

  datatype ReadResult = Data(bytes: Bytes) | End | Error(kind: Received)

  class SealedInputStream {
    const aead: Aead
    const key: Bytes
    const input: Socket
    var buffer: Bytes
    var position: nat
    var counter: nat
    ghost var arriving: Bytes        // everything the socket will ever return
    ghost var accepted: seq<Bytes>   // messages opened so far
    ghost var delivered: Bytes       // bytes returned so far
    ghost var failed: bool

    ghost function Expected(): (seq<Bytes>, Received)
      reads this
    {
      ReceiveAll(aead, key, LEAST_SEALED, 0, arriving)
    }

    /** What was returned and what is buffered are the messages accepted; the rest is still to come. */
    ghost predicate Valid()
      reads this, input
    {
      && position <= |buffer|
      && Plain(accepted) == delivered + buffer[position..]
      && (!failed ==>
            var toCome := ReceiveAll(aead, key, LEAST_SEALED, counter, input.incoming);
            counter == |accepted| && Expected() == (accepted + toCome.0, toCome.1))
    }

    constructor (aead: Aead, key: Bytes, input: Socket)
      ensures Valid() && !failed && delivered == [] && arriving == input.incoming
      ensures this.aead == aead && this.key == key && this.input == input
    {
      this.aead, this.key, this.input := aead, key, input;
      buffer, position, counter := [], 0, 0;
      arriving, accepted, delivered, failed := input.incoming, [], [], false;
      new;
      assert accepted + Expected().0 == Expected().0;
    }

    /** Reads one record from the socket, in whatever pieces it comes. */
    method ReadRecord() returns (r: Received)
      modifies this`counter, input
      ensures var expected := Receive(aead, key, LEAST_SEALED, old(counter), old(input.incoming));
              && r.Message? == expected.Message?
              && (r.Message? ==> r == expected && input.incoming == r.rest)
              && (!r.Message? ==> r == expected)
              && counter == (if r.Message? || r.Forged? then old(counter) + 1 else old(counter))
              && (r.AtEnd? || r.Cut? ==> input.incoming == [])
              && (r.AtEnd? ==> old(input.incoming) == [])
              && (r.BadLength? ==> input.incoming == old(input.incoming)[4..])
              && (r.Forged? ==> input.incoming == old(input.incoming)[4 + Number(old(input.incoming)[..4])..])
    {
      hide BigEndian, Number;
      var first := input.Read(4);
      if first == [] { return AtEnd; }
      var header := input.ReadFully(first, 4);
      ghost var whole := first + old(input.incoming)[|first|..];
      assert whole == old(input.incoming);
      if header == None { return Cut; }
      var size := Number(header.value);
      if !(LEAST_SEALED <= size <= MAX_FRAME + TAG_BYTES) { return BadLength; }
      ghost var after := input.incoming;
      var sealed := input.ReadFully([], size);
      assert [] + after == after && whole[4..] == after;
      if sealed == None { return Cut; }
      assert whole[4..4 + size] == after[..size] && whole[4 + size..] == after[size..];
      var message := aead.open(key, Nonce(counter), sealed.value);
      counter := counter + 1;
      if message == None { return Forged; }
      return Message(message.value, input.incoming);
    }

    /**
     Loads the next record when the current one is used up; Message when there is something to read.
     After an error the reader goes on with whatever comes next, under the next nonce.
     */
    method Fill() returns (r: Received)
      requires Valid()
      modifies this`buffer, this`position, this`counter, this`accepted, this`failed, input
      ensures Valid() && old(accepted) <= accepted
      ensures failed <==> old(failed) || (!r.Message? && !r.AtEnd?)
      ensures r.Message? ==> position < |buffer|
      ensures !r.Message? ==> position == |buffer|
      ensures !old(failed) && !r.Message? ==> r == Expected().1 && Expected().0 == accepted
    {
      hide BigEndian, Number, Receive, Plain;
      r := Message([], []);
      while position >= |buffer|
        invariant Valid() && failed == old(failed) && r.Message? && old(accepted) <= accepted
        decreases |input.incoming|
      {
        ghost var before := accepted;
        r := ReadRecord();
        if !r.Message? {
          failed := failed || !r.AtEnd?;
          assert accepted + [] == accepted;
          return;
        }
        buffer, position := Length(|r.message|) + r.message, 0;
        accepted := accepted + [r.message];
        PlainSnoc(before, r.message);
        assert buffer[position..] == buffer && Plain(accepted) == Plain(before) + buffer;
        ghost var more := ReceiveAll(aead, key, LEAST_SEALED, counter, input.incoming).0;
        assert before + ([r.message] + more) == accepted + more;
      }
    }

    /**
     Up to `limit` bytes. Until the first error nothing is lost, repeated or reordered, and End comes
     after the last byte.
     */
    method Read(limit: nat) returns (r: ReadResult)
      requires Valid()
      modifies this`buffer, this`position, this`counter, this`accepted, this`delivered, this`failed, input
      ensures Valid()
      ensures delivered == if r.Data? then old(delivered) + r.bytes else old(delivered)
      ensures failed <==> old(failed) || r.Error?
      ensures r.Data? ==> |r.bytes| <= limit && (limit > 0 ==> r.bytes != [])
      ensures !failed ==> delivered <= Plain(Expected().0)
      ensures !old(failed) && !r.Data? ==> delivered == Plain(Expected().0)
      ensures !old(failed) && r.End? ==> Expected().1 == AtEnd
      ensures !old(failed) && r.Error? ==> r.kind == Expected().1
    {
      hide Plain, ReceiveAll, BigEndian, Number;
      if limit == 0 {
        DeliveredIsPrefix();
        return Data([]);
      }
      var filled := Fill();
      if !filled.Message? {
        assert buffer[position..] == [] && delivered + [] == delivered;
        return if filled == AtEnd then End else Error(filled);
      }
      var count := if limit <= |buffer| - position then limit else |buffer| - position;
      r := Data(buffer[position..position + count]);
      assert buffer[position..] == r.bytes + buffer[position + count..];
      position := position + count;
      delivered := delivered + r.bytes;
      DeliveredIsPrefix();
    }

    lemma DeliveredIsPrefix()
      requires Valid()
      ensures !failed ==> delivered <= Plain(Expected().0)
    {
      hide Plain, ReceiveAll;
      if !failed {
        PlainAppend(accepted, Expected().0[|accepted|..]);
        assert Expected().0 == accepted + Expected().0[|accepted|..];
      }
    }
  }

  // ---- Both ends ----

  /**
   Whatever was written and however it was cut, a reader of any initial piece of the wire gets a
   prefix of the written bytes; of the whole wire, all of them but an incomplete last frame.
   */
  lemma EndToEnd(a: Aead, key: Bytes, written: Bytes, arriving: Bytes)
    requires Inverts(a) && !Frames(written).bad
    requires arriving <= WireOf(a, key, 0, Frames(written).messages)
    ensures var received := ReceiveAll(a, key, LEAST_SEALED, 0, arriving);
            && Plain(received.0) <= written
            && (received.1 == AtEnd || received.1 == Cut)
            && (arriving == WireOf(a, key, 0, Frames(written).messages) ==>
                  received.1 == AtEnd && Plain(received.0) + Frames(written).rest == written)
  {
    hide Receive, WireOf, Plain, Frames;
    var messages := Frames(written).messages;
    FramesSendable(written);
    WireReadsBack(a, key, LEAST_SEALED, 0, messages, arriving);
    var accepted := ReceiveAll(a, key, LEAST_SEALED, 0, arriving).0;
    PlainOfFrames(written);
    PlainAppend(accepted, messages[|accepted|..]);
    assert messages == accepted + messages[|accepted|..];
  }

  /**
   For any messages, any cutting of their plain bytes across writes with any flushes between, and any
   initial piece of the wire: no call fails, and a reader gets a prefix of the messages, all of them
   when all was written and has arrived.
   */
  lemma MessagesEndToEnd(a: Aead, key: Bytes, messages: seq<Bytes>, calls: seq<Call>, arriving: Bytes)
    requires Inverts(a) && Sendable(messages) && BytesOf(calls) <= Plain(messages)
    requires arriving <= AfterCalls(a, key, calls).wire
    ensures AllSucceed(a, key, calls)
    ensures var received := ReceiveAll(a, key, LEAST_SEALED, 0, arriving);
            && received.0 <= messages && Plain(received.0) <= BytesOf(calls)
            && (received.1 == AtEnd || received.1 == Cut)
            && (arriving == AfterCalls(a, key, calls).wire && BytesOf(calls) == Plain(messages) ==>
                  received == (messages, AtEnd))
  {
    hide Receive, WireOf, Plain, Frames;
    var written := BytesOf(calls);
    MessagesSealed(a, key, messages, calls);
    CallsSucceedIff(a, key, calls);
    EndToEnd(a, key, written, arriving);
    FramesOfPlain(messages);
    assert Plain(messages) == written + Plain(messages)[|written|..];
    FramesInPieces(written, Plain(messages)[|written|..]);
    FramesSendable(written);
    WireReadsBack(a, key, LEAST_SEALED, 0, Frames(written).messages, arriving);
  }

  /** With no forgery, the bytes a reader gets from any wire are a prefix of the sender's plain bytes. */
  lemma HostileWire(a: Aead, key: Bytes, sent: seq<Bytes>, arriving: Bytes)
    requires |sent| <= LAST_COUNTER && Unforged(a, key, sent, arriving)
    ensures Plain(ReceiveAll(a, key, LEAST_SEALED, 0, arriving).0) <= Plain(sent)
  {
    hide Unforged, Receive, Plain;
    AcceptedInOrder(a, key, LEAST_SEALED, sent, 0, arriving);
    var accepted := ReceiveAll(a, key, LEAST_SEALED, 0, arriving).0;
    assert sent[0..] == sent;
    PlainAppend(accepted, sent[|accepted|..]);
    assert sent == accepted + sent[|accepted|..];
  }
}
