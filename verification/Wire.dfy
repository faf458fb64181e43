/**
 The sealed wire format both programs speak, as functions on bytes.

 A record is a 4-byte big-endian length followed by the sealed message; the nonce is the record's
 number. The cipher is a parameter (ChaCha20-Poly1305, section 2.8 of RFC 8439): nothing is assumed
 of it but what `Inverts` and `Unforged` say.
 */
module Wire {
  import opened Sequences

  type Byte = b: int | 0 <= b < 0x100
  type Bytes = seq<Byte>

  const TAG_BYTES := 16
  const MAX_FRAME := 0x1_0000
  const LAST_COUNTER: nat := 0xFFFF_FFFF_FFFF_FFFF

  // ---- Big-endian numbers ----

  function Pow256(n: nat): (p: nat)
    ensures p >= 1
  {
    if n == 0 then 1 else 0x100 * Pow256(n - 1)
  }

  function BigEndian(n: nat, value: nat): (r: Bytes)
    ensures |r| == n
  {
    if n == 0 then [] else BigEndian(n - 1, value / 0x100) + [value % 0x100]
  }

  function Number(bytes: Bytes): nat {
    if bytes == [] then 0 else 0x100 * Number(bytes[..|bytes| - 1]) + bytes[|bytes| - 1]
  }

  lemma {:induction false} NumberOfBigEndian(n: nat, value: nat)
    requires value < Pow256(n)
    ensures Number(BigEndian(n, value)) == value
  {
    if n > 0 {
      NumberOfBigEndian(n - 1, value / 0x100);
    }
  }

  lemma {:induction false} BigEndianOfNumber(bytes: Bytes)
    ensures Number(bytes) < Pow256(|bytes|)
    ensures BigEndian(|bytes|, Number(bytes)) == bytes
  {
    if bytes != [] {
      BigEndianOfNumber(bytes[..|bytes| - 1]);
    }
  }

  lemma PowersOf256()
    ensures Pow256(4) == 0x1_0000_0000
    ensures Pow256(8) == 0x1_0000_0000_0000_0000
  {
    assert Pow256(2) == 0x1_0000;
    assert Pow256(6) == 0x1_0000_0000_0000;
  }

  function Length(n: nat): (r: Bytes)
    ensures |r| == 4
  {
    BigEndian(4, n)
  }

  lemma LengthReadsBack(n: nat)
    requires n < 0x1_0000_0000
    ensures Number(Length(n)) == n
  {
    PowersOf256();
    NumberOfBigEndian(4, n);
  }

  /** Four zero bytes, then the counter. */
  function Nonce(counter: nat): (r: Bytes)
    ensures |r| == 12
  {
    [0, 0, 0, 0] + BigEndian(8, counter)
  }

  /** No two records of one key share a nonce. */
  lemma NonceInjective(i: nat, j: nat)
    requires i <= LAST_COUNTER && j <= LAST_COUNTER && Nonce(i) == Nonce(j)
    ensures i == j
  {
    PowersOf256();
    NumberOfBigEndian(8, i);
    NumberOfBigEndian(8, j);
    assert Nonce(i)[4..] == BigEndian(8, i) && Nonce(j)[4..] == BigEndian(8, j);
  }

  /** A nonce is twelve bytes that spell the record's number, its high-order bytes first. */
  lemma NonceNumber(counter: nat)
    requires counter < 0x1_0000_0000_0000_0000
    ensures Nonce(counter)[..4] == [0, 0, 0, 0]
    ensures Number(Nonce(counter)[4..]) == counter && Nonce(counter)[11] == counter % 0x100
  {
    PowersOf256();
    NumberOfBigEndian(8, counter);
    assert Nonce(counter)[4..] == BigEndian(8, counter);
  }

  // ---- The cipher ----

  /** Seal and open under (key, nonce, text); the associated data is constant. */
  datatype Aead = Aead(seal: (Bytes, Bytes, Bytes) -> Bytes, open: (Bytes, Bytes, Bytes) -> Option<Bytes>)

  /** Opening undoes sealing, and a sealed message is a tag longer. */
  ghost predicate Inverts(a: Aead) {
    && (forall k, n, m :: a.open(k, n, a.seal(k, n, m)) == Some(m))
    && (forall k, n, m :: |a.seal(k, n, m)| == |m| + TAG_BYTES)
    && (forall k, n, c :: a.open(k, n, c).Some? ==> |c| == |a.open(k, n, c).value| + TAG_BYTES)
  }

  /** No piece of `wire` opens under `key`, except as a message sealed with that key and nonce. */
  ghost predicate Unforged(a: Aead, key: Bytes, sent: seq<Bytes>, wire: Bytes) {
    forall i, j, c: nat :: 0 <= i <= j <= |wire| && a.open(key, Nonce(c), wire[i..j]).Some? ==>
      SealedAs(sent, Nonce(c), a.open(key, Nonce(c), wire[i..j]).value)
  }

  ghost predicate SealedAs(sent: seq<Bytes>, nonce: Bytes, message: Bytes) {
    exists k: nat :: k < |sent| && Nonce(k) == nonce && sent[k] == message
  }

  // ---- Sending ----

  function Record(a: Aead, key: Bytes, counter: nat, message: Bytes): Bytes {
    var sealed := a.seal(key, Nonce(counter), message);
    Length(|sealed|) + sealed
  }

  /** The wire that carries `messages`, numbered from `counter`. */
  function WireOf(a: Aead, key: Bytes, counter: nat, messages: seq<Bytes>): Bytes
    decreases |messages|
  {
    if messages == [] then []
    else Record(a, key, counter, messages[0]) + WireOf(a, key, counter + 1, messages[1..])
  }

  lemma {:induction false} WireOfAppend(a: Aead, key: Bytes, counter: nat, xs: seq<Bytes>, ys: seq<Bytes>)
    ensures WireOf(a, key, counter, xs + ys) ==
            WireOf(a, key, counter, xs) + WireOf(a, key, counter + |xs|, ys)
    decreases |xs|
  {
    hide Record;
    if xs == [] {
      assert xs + ys == ys;
    } else {
      var first := Record(a, key, counter, xs[0]);
      WireOfAppend(a, key, counter + 1, xs[1..], ys);
      assert (xs + ys)[1..] == xs[1..] + ys && (xs + ys)[0] == xs[0];
      assert first + (WireOf(a, key, counter + 1, xs[1..]) + WireOf(a, key, counter + |xs|, ys)) ==
             (first + WireOf(a, key, counter + 1, xs[1..])) + WireOf(a, key, counter + |xs|, ys);
    }
  }

  lemma WireOfSnoc(a: Aead, key: Bytes, counter: nat, xs: seq<Bytes>, y: Bytes)
    ensures WireOf(a, key, counter, xs + [y]) ==
            WireOf(a, key, counter, xs) + Record(a, key, counter + |xs|, y)
  {
    WireOfAppend(a, key, counter, xs, [y]);
    var end := counter + |xs|;
    assert [y][1..] == [];
    assert WireOf(a, key, end, [y]) == Record(a, key, end, y) + WireOf(a, key, end + 1, []);
  }

  predicate Sendable(messages: seq<Bytes>) {
    forall i :: 0 <= i < |messages| ==> 1 <= |messages[i]| <= MAX_FRAME
  }

  // ---- Receiving ----

  datatype Received =
    | Message(message: Bytes, rest: Bytes)  // one record read, `rest` not yet
    | AtEnd                                 // the stream ended between records
    | Cut                                   // the stream ended inside a record
    | BadLength
    | Forged

  /** Reads one record; sealed lengths below `least` or above the frame limit are refused. */
  function Receive(a: Aead, key: Bytes, least: nat, counter: nat, wire: Bytes): (r: Received)
    ensures r.Message? ==> |r.rest| < |wire|
  {
    if wire == [] then AtEnd
    else if |wire| < 4 then Cut
    else
      var size := Number(wire[..4]);
      if !(least <= size <= MAX_FRAME + TAG_BYTES) then BadLength
      else if |wire| < 4 + size then Cut
      else
        var unsealed := a.open(key, Nonce(counter), wire[4..4 + size]);
        if unsealed.None? then Forged else Message(unsealed.value, wire[4 + size..])
  }

  /** The messages read until the first record that fails, and how that reading ended. */
  function ReceiveAll(a: Aead, key: Bytes, least: nat, counter: nat, wire: Bytes): (r: (seq<Bytes>, Received))
    ensures !r.1.Message?
    decreases |wire|
  {
    var one := Receive(a, key, least, counter, wire);
    if !one.Message? then ([], one)
    else
      var more := ReceiveAll(a, key, least, counter + 1, one.rest);
      ([one.message] + more.0, more.1)
  }

  lemma RecordReadsBack(a: Aead, key: Bytes, least: nat, counter: nat, message: Bytes, rest: Bytes)
    requires Inverts(a) && 1 <= |message| <= MAX_FRAME && least <= TAG_BYTES + 1
    ensures Receive(a, key, least, counter, Record(a, key, counter, message) + rest) == Message(message, rest)
  {
    var sealed := a.seal(key, Nonce(counter), message);
    var wire := Length(|sealed|) + sealed + rest;
    LengthReadsBack(|sealed|);
    assert wire[..4] == Length(|sealed|);
    assert wire[4..4 + |sealed|] == sealed;
    assert wire[4 + |sealed|..] == rest;
  }

  /** A shorter piece of the same record is not a message: the reader sees the stream cut. */
  lemma PartialRecord(a: Aead, key: Bytes, least: nat, counter: nat, message: Bytes, wire: Bytes)
    requires Inverts(a) && 1 <= |message| <= MAX_FRAME && least <= TAG_BYTES + 1
    requires wire < Record(a, key, counter, message)
    ensures Receive(a, key, least, counter, wire) == if wire == [] then AtEnd else Cut
  {
    var sealed := a.seal(key, Nonce(counter), message);
    LengthReadsBack(|sealed|);
    if |wire| >= 4 {
      assert wire[..4] == Record(a, key, counter, message)[..4] == Length(|sealed|);
    }
  }

  /**
   Whatever initial piece of the wire arrives, the receiver accepts exactly a prefix of the
   messages; if all of it arrives, all of them, and the end is clean.
   */
  lemma {:induction false} WireReadsBack(a: Aead, key: Bytes, least: nat, counter: nat,
                                         messages: seq<Bytes>, wire: Bytes)
    requires Inverts(a) && Sendable(messages) && least <= TAG_BYTES + 1
    requires wire <= WireOf(a, key, counter, messages)
    ensures var r := ReceiveAll(a, key, least, counter, wire);
            && r.0 <= messages
            && (r.1 == AtEnd <==> wire == WireOf(a, key, counter, r.0))
            && (r.1 == AtEnd || r.1 == Cut)
            && (wire == WireOf(a, key, counter, messages) ==> r == (messages, AtEnd))
    decreases |messages|
  {
    if messages == [] {
      assert wire == [];
    } else {
      var record := Record(a, key, counter, messages[0]);
      if |wire| < |record| {
        assert wire == (record + WireOf(a, key, counter + 1, messages[1..]))[..|wire|] == record[..|wire|];
        PartialRecord(a, key, least, counter, messages[0], wire);
      } else {
        var rest := wire[|record|..];
        assert wire == record + rest;
        RecordReadsBack(a, key, least, counter, messages[0], rest);
        WireReadsBack(a, key, least, counter + 1, messages[1..], rest);
        var accepted := ReceiveAll(a, key, least, counter, wire).0;
        assert accepted == [messages[0]] + accepted[1..] && messages == [messages[0]] + messages[1..];
      }
    }
  }

  // ---- A hostile wire ----

  lemma SealedInPlace(sent: seq<Bytes>, counter: nat, message: Bytes)
    requires |sent| <= LAST_COUNTER && counter <= LAST_COUNTER
    requires SealedAs(sent, Nonce(counter), message)
    ensures counter < |sent| && sent[counter] == message
  {
    hide BigEndian, Nonce;
    var k: nat :| k < |sent| && Nonce(k) == Nonce(counter) && sent[k] == message;
    NonceInjective(k, counter);
  }

  lemma UnforgedRest(a: Aead, key: Bytes, sent: seq<Bytes>, wire: Bytes, n: nat)
    requires n <= |wire| && Unforged(a, key, sent, wire)
    ensures Unforged(a, key, sent, wire[n..])
  {
    hide Nonce, SealedAs;
    forall i, j, c: nat | 0 <= i <= j <= |wire| - n && a.open(key, Nonce(c), wire[n..][i..j]).Some?
      ensures SealedAs(sent, Nonce(c), a.open(key, Nonce(c), wire[n..][i..j]).value)
    {
      assert wire[n..][i..j] == wire[n + i..n + j];
    }
  }

  /**
   For any bytes on the wire, with records repeated, reordered, left out, altered or made for the
   other direction, a receiver that stands at `counter` accepts only messages number `counter`,
   `counter + 1`, ... in order: from 0, a prefix of the sent ones.
   */
  lemma {:induction false} AcceptedInOrder(a: Aead, key: Bytes, least: nat, sent: seq<Bytes>,
                                           counter: nat, wire: Bytes)
    requires |sent| <= LAST_COUNTER && Unforged(a, key, sent, wire) && counter <= |sent|
    ensures ReceiveAll(a, key, least, counter, wire).0 <= sent[counter..]
    decreases |wire|
  {
    hide Unforged, SealedAs, Nonce;
    var one := Receive(a, key, least, counter, wire);
    if one.Message? {
      var size := Number(wire[..4]);
      OpenedPiece(a, key, sent, counter, wire, 4, 4 + size);
      UnforgedRest(a, key, sent, wire, 4 + size);
      AcceptedInOrder(a, key, least, sent, counter + 1, one.rest);
      assert sent[counter..] == [sent[counter]] + sent[counter + 1..];
    }
  }

  lemma OpenedPiece(a: Aead, key: Bytes, sent: seq<Bytes>, counter: nat, wire: Bytes, i: nat, j: nat)
    requires |sent| <= LAST_COUNTER && counter <= LAST_COUNTER && Unforged(a, key, sent, wire)
    requires i <= j <= |wire| && a.open(key, Nonce(counter), wire[i..j]).Some?
    ensures counter < |sent| && a.open(key, Nonce(counter), wire[i..j]).value == sent[counter]
  {
    SealedInPlace(sent, counter, a.open(key, Nonce(counter), wire[i..j]).value);
  }

  // ---- Recorded records played back ----

  /** A record someone sealed: by the sender under `key`, or under another key, as the other direction's. */
  datatype Recorded = Recorded(key: Bytes, counter: nat, message: Bytes)

  function WireOfRecorded(a: Aead, picks: seq<Recorded>): Bytes {
    if picks == [] then []
    else Record(a, picks[0].key, picks[0].counter, picks[0].message) + WireOfRecorded(a, picks[1..])
  }

  /** This one sealed text opens under no other key and under no other nonce. */
  ghost predicate OpensOnlyAsSealed(a: Aead, key: Bytes, r: Recorded) {
    forall c: nat :: a.open(key, Nonce(c), a.seal(r.key, Nonce(r.counter), r.message)).Some? ==>
      r.key == key && Nonce(c) == Nonce(r.counter)
  }

  /** What the sender sealed under `key` is what it sent. */
  predicate FromSender(key: Bytes, sent: seq<Bytes>, r: Recorded) {
    1 <= |r.message| <= MAX_FRAME && (r.key == key ==> r.counter < |sent| && r.message == sent[r.counter])
  }

  lemma PlayedRecord(a: Aead, key: Bytes, least: nat, sent: seq<Bytes>, counter: nat, r: Recorded, rest: Bytes)
    requires Inverts(a) && |sent| <= LAST_COUNTER && counter <= LAST_COUNTER
    requires OpensOnlyAsSealed(a, key, r) && FromSender(key, sent, r)
    ensures var one := Receive(a, key, least, counter, Record(a, r.key, r.counter, r.message) + rest);
            one.Message? ==> counter < |sent| && one == Message(sent[counter], rest)
  {
    hide Nonce, BigEndian;
    var sealed := a.seal(r.key, Nonce(r.counter), r.message);
    var wire := Length(|sealed|) + sealed + rest;
    LengthReadsBack(|sealed|);
    assert wire[..4] == Length(|sealed|) && wire[4..4 + |sealed|] == sealed && wire[4 + |sealed|..] == rest;
    if Receive(a, key, least, counter, wire).Message? {
      NonceInjective(counter, r.counter);
    }
  }

  /**
   Any wire made of recorded records, each repeated, moved or left out at will, with records of the
   other direction among them: a receiver that stands at `counter` accepts only messages number
   `counter`, `counter + 1`, ... in order. All that is asked of the cipher is that each recorded
   text opens only as it was sealed.
   */
  lemma {:induction false} PlayedBackInOrder(a: Aead, key: Bytes, least: nat, sent: seq<Bytes>,
                                             counter: nat, picks: seq<Recorded>)
    requires Inverts(a) && |sent| <= LAST_COUNTER && counter <= |sent|
    requires forall i :: 0 <= i < |picks| ==> OpensOnlyAsSealed(a, key, picks[i]) && FromSender(key, sent, picks[i])
    ensures ReceiveAll(a, key, least, counter, WireOfRecorded(a, picks)).0 <= sent[counter..]
    decreases |picks|
  {
    hide Record, Receive, OpensOnlyAsSealed, FromSender, Nonce;
    if picks == [] {
      assert Receive(a, key, least, counter, []) == AtEnd by { NothingToReceive(a, key, least, counter); }
    } else {
      PlayedRecord(a, key, least, sent, counter, picks[0], WireOfRecorded(a, picks[1..]));
      if Receive(a, key, least, counter, WireOfRecorded(a, picks)).Message? {
        PlayedBackInOrder(a, key, least, sent, counter + 1, picks[1..]);
        assert sent[counter..] == [sent[counter]] + sent[counter + 1..];
      }
    }
  }

  lemma NothingToReceive(a: Aead, key: Bytes, least: nat, counter: nat)
    ensures Receive(a, key, least, counter, []) == AtEnd
  {
  }
}
