/** The daemon's framed connection: nonces, sealed writes under a lock, and reads. */
module Framing {
  import opened Sequences
  import opened Wire
  import SecureStreams

  // ---- The nonce loop ----

  /** Byte i of a number, counted from the low end, is what a shift by 8i and a truncation give. */
  function ByteOf(value: nat, i: nat): Byte {
    value / Pow256(i) % 0x100
  }

  lemma DivDiv(v: nat, b: nat)
    requires b > 0
    ensures v / 0x100 / b == v / (0x100 * b)
  {
    var q, r := v / 0x100 / b, v / 0x100 % b;
    var s := v % 0x100;
    assert v == 0x100 * (b * q + r) + s;
    assert v == (0x100 * b) * q + (0x100 * r + s);
    assert 0 <= 0x100 * r + s < 0x100 * b;
    QuotientUnique(v, 0x100 * b, q, 0x100 * r + s);
  }

  lemma QuotientUnique(v: nat, d: nat, q: nat, r: nat)
    requires d > 0 && v == d * q + r && r < d
    ensures v / d == q
  {
    var p := v / d;
    assert d * p <= v < d * p + d;
    assert p < q + 1 by {
      if p >= q + 1 { Scaled(d, q + 1, p); }
    }
    assert q < p + 1 by {
      if q >= p + 1 { Scaled(d, p + 1, q); }
    }
  }

  lemma Scaled(d: nat, a: nat, b: nat)
    requires a <= b
    ensures d * a <= d * b
  {
  }

  lemma {:induction false} BigEndianCons(n: nat, value: nat)
    ensures BigEndian(n + 1, value) == [ByteOf(value, n)] + BigEndian(n, value)
  {
    if n > 0 {
      BigEndianCons(n - 1, value / 0x100);
      DivDiv(value, Pow256(n - 1));
      assert ByteOf(value / 0x100, n - 1) == ByteOf(value, n);
      assert [ByteOf(value, n)] + BigEndian(n - 1, value / 0x100) + [value % 0x100] ==
             [ByteOf(value, n)] + (BigEndian(n - 1, value / 0x100) + [value % 0x100]);
    } else {
      assert BigEndian(0, value / 0x100) == [];
    }
  }

  class FrameCipher {
    const aead: Aead
    const key: Bytes
    var counter: nat

    constructor (aead: Aead, key: Bytes)
      ensures this.aead == aead && this.key == key && counter == 0
    {
      this.aead, this.key, counter := aead, key, 0;
    }

    /** The next nonce, until the counter is exhausted. */
    method NextNonce() returns (nonce: Option<Bytes>)
      requires counter <= LAST_COUNTER
      modifies this
      ensures old(counter) == LAST_COUNTER ==> nonce == None && counter == old(counter)
      ensures old(counter) < LAST_COUNTER ==>
                nonce == Some(Nonce(old(counter))) && counter == old(counter) + 1
    {
      if counter == LAST_COUNTER { return None; }
      var buffer := new Byte[12](_ => 0);
      for i := 0 to 8
        modifies buffer
        invariant buffer[..12 - i] == seq(12 - i, _ => 0)
        invariant buffer[12 - i..] == BigEndian(i, counter)
      {
        BigEndianCons(i, counter);
        buffer[12 - 1 - i] := ByteOf(counter, i);
        assert buffer[12 - (i + 1)..] == [ByteOf(counter, i)] + buffer[12 - i..];
      }
      assert buffer[..] == buffer[..4] + buffer[4..];
      assert buffer[..4] == [0, 0, 0, 0];
      counter := counter + 1;
      return Some(buffer[..]);
    }

    method Seal(plaintext: Bytes) returns (r: Option<Bytes>)
      requires counter <= LAST_COUNTER
      modifies this
      ensures r == if old(counter) == LAST_COUNTER then None
                   else Some(aead.seal(key, Nonce(old(counter)), plaintext))
      ensures counter == if old(counter) == LAST_COUNTER then old(counter) else old(counter) + 1
    {
      var nonce := NextNonce();
      if nonce == None { return None; }
      return Some(aead.seal(key, nonce.value, plaintext));
    }

    /** A failed opening uses up the nonce too. */
    method Open(sealed: Bytes) returns (r: Option<Bytes>)
      requires counter <= LAST_COUNTER
      modifies this
      ensures r == if old(counter) == LAST_COUNTER then None
                   else aead.open(key, Nonce(old(counter)), sealed)
      ensures counter == if old(counter) == LAST_COUNTER then old(counter) else old(counter) + 1
    {
      var nonce := NextNonce();
      if nonce == None { return None; }
      return aead.open(key, nonce.value, sealed);
    }
  }

  /** An unencrypted frame, as the handshake sends it. */
  function PlainFrame(payload: Bytes): Bytes {
    Length(|payload|) + payload
  }

  /** Reading one frame from the bytes to come. */
  function ReceiveFrame(limit: nat, wire: Bytes): Received {
    if |wire| < 4 then Cut
    else
      var size := Number(wire[..4]);
      if size == 0 || size > limit then BadLength
      else if |wire| < 4 + size then Cut
      else Message(wire[4..4 + size], wire[4 + size..])
  }

  class Conn {
    var send: FrameCipher?
    var recv: FrameCipher?
    const input: SecureStreams.Socket
    var wire: Bytes                 // what the peer has been sent
    ghost var sealed: seq<Bytes>    // messages sent since encryption was enabled
    ghost var handshake: Bytes      // what was sent before

    ghost predicate Valid()
      reads this, send, recv
    {
      && ((send == null) == (recv == null))
      && (send == null ==> sealed == [] && wire == handshake)
      && (send != null ==>
            && send != recv && Inverts(send.aead)
            && send.counter <= LAST_COUNTER && recv.counter <= LAST_COUNTER
            && send.counter == |sealed| && Sendable(sealed)
            && wire == handshake + WireOf(send.aead, send.key, 0, sealed))
    }

    constructor (input: SecureStreams.Socket)
      ensures Valid() && send == null && this.input == input && wire == []
    {
      this.input := input;
      send, recv, wire, sealed, handshake := null, null, [], [], [];
    }

    method EnableEncryption(aead: Aead, sendKey: Bytes, recvKey: Bytes) returns (ok: bool)
      requires Valid() && Inverts(aead)
      modifies this
      ensures Valid() && wire == old(wire)
      ensures ok == (|sendKey| == 32 && |recvKey| == 32 && old(send) == null)
      ensures ok ==> send != null && send.aead == aead && send.key == sendKey &&
                     recv.aead == aead && recv.key == recvKey &&
                     send.counter == 0 && recv.counter == 0 && handshake == wire && sealed == []
      ensures !ok ==> send == old(send) && recv == old(recv) && sealed == old(sealed)
    {
      if |sendKey| != 32 || |recvKey| != 32 || send != null { return false; }
      send := new FrameCipher(aead, sendKey);
      recv := new FrameCipher(aead, recvKey);
      handshake := wire;
      assert WireOf(send.aead, send.key, 0, []) == [];
      return true;
    }

    /**
     Seals and writes one message. An oversized one is refused before a nonce is taken, so it leaves
     no gap. Messages are CBOR maps, never empty, and their lengths fit in 32 bits.
     */
    method WriteMessage(payload: Bytes) returns (ok: bool)
      requires Valid() && 1 <= |payload| < 0x1_0000_0000
      modifies this, send
      ensures Valid() && send == old(send) && recv == old(recv)
      ensures send == null ==> ok == (|payload| <= MAX_FRAME)
      ensures send != null ==> ok == (|payload| <= MAX_FRAME && |old(sealed)| < LAST_COUNTER)
      ensures !ok ==> unchanged(this) && (send != null ==> send.counter == old(send.counter))
      ensures send != null ==> sealed == if ok then old(sealed) + [payload] else old(sealed)
      ensures send == null ==> wire == if ok then old(wire) + PlainFrame(payload) else old(wire)
    {
      hide WireOf, BigEndian;
      if send == null {
        ok := WriteFrame(MAX_FRAME, payload);
        handshake := wire;
        return;
      }
      ok := WriteSealed(payload);
    }

    method WriteSealed(payload: Bytes) returns (ok: bool)
      requires Valid() && send != null && 1 <= |payload|
      modifies this`wire, this`sealed, send
      ensures Valid()
      ensures ok == (|payload| <= MAX_FRAME && |old(sealed)| < LAST_COUNTER)
      ensures !ok ==> unchanged(this) && send.counter == old(send.counter)
      ensures ok ==> sealed == old(sealed) + [payload]
    {
      hide WireOf, BigEndian;
      if |payload| > MAX_FRAME { return false; }
      var record := send.Seal(payload);
      if record == None { return false; }
      assert |record.value| == |payload| + TAG_BYTES;
      assert PlainFrame(record.value) == Record(send.aead, send.key, |sealed|, payload);
      ok := WriteFrame(MAX_FRAME + TAG_BYTES, record.value);
      WireOfSnoc(send.aead, send.key, 0, sealed, payload);
      sealed := sealed + [payload];
    }

    method WriteFrame(limit: nat, payload: Bytes) returns (ok: bool)
      requires |payload| < 0x1_0000_0000
      modifies this`wire
      ensures ok == (|payload| <= limit)
      ensures wire == if ok then old(wire) + PlainFrame(payload) else old(wire)
    {
      if |payload| > limit { return false; }
      WriteExact(PlainFrame(payload));
      return true;
    }

    /** The socket takes the frame in pieces of its own choosing; turns that write nothing are left out. */
    method WriteExact(frame: Bytes)
      modifies this`wire
      ensures wire == old(wire) + frame
    {
      var written := 0;
      while written < |frame|
        invariant written <= |frame| && wire == old(wire) + frame[..written]
      {
        var n: nat :| 1 <= n <= |frame| - written;
        wire := wire + frame[written..written + n];
        assert frame[..written + n] == frame[..written] + frame[written..written + n];
        written := written + n;
      }
    }

    /** Reads one frame, in whatever pieces it comes; the stream's end is never a clean one. */
    method ReadFrame(limit: nat) returns (r: Received)
      modifies input
      ensures r == ReceiveFrame(limit, old(input.incoming))
      ensures r.Message? ==> input.incoming == r.rest
    {
      hide BigEndian, Number;
      ghost var whole := input.incoming;
      assert [] + whole == whole;
      var header := input.ReadFully([], 4);
      if header == None { return Cut; }
      var size := Number(header.value);
      if size == 0 || size > limit { return BadLength; }
      ghost var after := input.incoming;
      assert [] + after == after && whole[4..] == after;
      var payload := input.ReadFully([], size);
      if payload == None { return Cut; }
      assert whole[4..4 + size] == after[..size] && whole[4 + size..] == after[size..];
      return Message(payload.value, input.incoming);
    }

    /**
     Reads one message. Once encryption is enabled a forgery and an exhausted counter fail too, and
     use up the nonce or leave it.
     */
    method ReadMessage() returns (r: Received)
      requires Valid()
      modifies recv, input
      ensures Valid()
      ensures r.Message? ==> input.incoming == r.rest
      ensures recv == null ==> r == ReceiveFrame(MAX_FRAME, old(input.incoming))
      ensures recv != null ==>
                var expected := Receive(recv.aead, recv.key, 1, old(recv.counter), old(input.incoming));
                && r == (if expected.AtEnd? then Cut
                         else if expected.Message? && old(recv.counter) == LAST_COUNTER then Forged
                         else expected)
                && recv.counter == (if (r.Message? || r.Forged?) && old(recv.counter) < LAST_COUNTER
                                    then old(recv.counter) + 1 else old(recv.counter))
    {
      if recv == null {
        r := ReadFrame(MAX_FRAME);
        return;
      }
      var sealed := ReadFrame(MAX_FRAME + TAG_BYTES);
      if !sealed.Message? { return sealed; }
      var message := recv.Open(sealed.message);
      if message == None { return Forged; }
      return Message(message.value, sealed.rest);
    }
  }

  lemma PlainFrameReadsBack(payload: Bytes, limit: nat, rest: Bytes)
    requires 1 <= |payload| <= limit < 0x1_0000_0000
    ensures ReceiveFrame(limit, PlainFrame(payload) + rest) == Message(payload, rest)
  {
    hide BigEndian, Number;
    LengthReadsBack(|payload|);
    var wire := Length(|payload|) + payload + rest;
    assert wire[..4] == Length(|payload|) && wire[4..4 + |payload|] == payload && wire[4 + |payload|..] == rest;
  }

  // ---- The two programs speak the same format ----

  /**
   The phone's stream and the daemon's connection put the same bytes on the wire for the same
   messages, and each accepts the other's, in full and in order.
   */
  lemma Interoperate(a: Aead, key: Bytes, messages: seq<Bytes>)
    requires Inverts(a) && Sendable(messages)
    ensures var phone := WireOf(a, key, 0, SecureStreams.Frames(SecureStreams.Plain(messages)).messages);
            var daemon := WireOf(a, key, 0, messages);
            && phone == daemon
            && ReceiveAll(a, key, 1, 0, phone) == (messages, AtEnd)
            && ReceiveAll(a, key, SecureStreams.LEAST_SEALED, 0, daemon) == (messages, AtEnd)
  {
    hide Receive, WireOf;
    SecureStreams.FramesOfPlain(messages);
    WireReadsBack(a, key, 1, 0, messages, WireOf(a, key, 0, messages));
    WireReadsBack(a, key, SecureStreams.LEAST_SEALED, 0, messages, WireOf(a, key, 0, messages));
  }
}
