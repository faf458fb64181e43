/**
 The session handshake: the daemon's side in Go, the phone's in Kotlin, and the keys both derive.

 Each side has its own transcript, labels and key derivation, as each program does. HMAC, HKDF and
 SHA-256 are parameters. Messages carry the fields their handlers read.
 */
module Handshake {
  import opened Sequences
  import opened Wire

  const ID_BYTES := 16
  const TRANSACTION_BYTES := 16
  const NONCE_BYTES := 32
  const PUBLIC_BYTES := 32
  const PROTOCOL_VERSION := 2

  datatype Primitives = Primitives(
    hmac: (Bytes, Bytes) -> Bytes,          // key, text
    hkdf: (Bytes, Bytes, Bytes) -> Bytes,   // salt, secret, label; 32 bytes
    sha256: Bytes -> Bytes)

  /** The bytes of a string of ASCII characters. */
  function Ascii(s: string): (b: Bytes)
    ensures |b| == |s|
  {
    seq(|s|, i requires 0 <= i < |s| => (s[i] as int) % 0x100)
  }

  ghost predicate Sized(p: Primitives) {
    && (forall k, t :: |p.hmac(k, t)| == 32)
    && (forall s, k, l :: |p.hkdf(s, k, l)| == 32)
    && (forall t :: |p.sha256(t)| == 32)
  }

  datatype Identity = Identity(publicKey: Bytes)
  datatype Trust = Trust(publicKey: Bytes, credential: Bytes)
  datatype Keys = Keys(send: Bytes, recv: Bytes)

  datatype Hello = Hello(transaction: Bytes, id: Bytes, publicKey: Bytes, nonce: Bytes, version: nat)
  datatype Challenge = Challenge(version: nat, transaction: Bytes, id: Bytes, publicKey: Bytes,
                                 nonce: Bytes, mac: Bytes)
  datatype Proof = Proof(version: nat, transaction: Bytes, mac: Bytes)

  function DeviceId(p: Primitives, publicKey: Bytes): Bytes
    requires Sized(p)
  {
    p.sha256(publicKey)[..ID_BYTES]
  }

  // ---- The daemon ----

  const SESSION_PROTOCOL_NAME := "quava-session"
  const SESSION_KEY_HOST_TO_PEER := "quava-session-frames-host-to-peer-v1"
  const SESSION_KEY_PEER_TO_HOST := "quava-session-frames-peer-to-host-v1"

  function Transcript(txId: Bytes, localId: Bytes, remoteId: Bytes, localPub: Bytes, remotePub: Bytes,
                      localNonce: Bytes, remoteNonce: Bytes): Bytes
  {
    Ascii(SESSION_PROTOCOL_NAME) + txId + localId + remoteId + localPub + remotePub + localNonce + remoteNonce
  }

  function Mac(p: Primitives, credential: Bytes, purpose: string, transcript: Bytes): Bytes {
    p.hmac(credential, Ascii(purpose) + transcript)
  }

  /** The key from host to peer, and the key from peer to host. */
  function SessionKeys(p: Primitives, credential: Bytes, transcript: Bytes): (Bytes, Bytes) {
    var salt := p.sha256(transcript);
    (p.hkdf(salt, credential, Ascii(SESSION_KEY_HOST_TO_PEER)),
     p.hkdf(salt, credential, Ascii(SESSION_KEY_PEER_TO_HOST)))
  }

  datatype Host = Host(transaction: Bytes, nonce: Bytes, self: Identity, peer: Trust)

  function HostHello(p: Primitives, h: Host): Hello
    requires Sized(p)
  {
    Hello(h.transaction, DeviceId(p, h.self.publicKey), h.self.publicKey, h.nonce, PROTOCOL_VERSION)
  }

  /** The transcript as the daemon computes it from the challenge it received. */
  function HostTranscript(p: Primitives, h: Host, c: Challenge): Bytes
    requires Sized(p)
  {
    Transcript(h.transaction, DeviceId(p, h.self.publicKey), c.id, h.self.publicKey, c.publicKey,
               h.nonce, c.nonce)
  }

  /** The daemon's proof, or None when it refuses the challenge. */
  function HostAuthenticate(p: Primitives, h: Host, c: Challenge): Option<Proof>
    requires Sized(p)
  {
    if c.version != PROTOCOL_VERSION || c.transaction != h.transaction then None
    else if |c.publicKey| != PUBLIC_BYTES || c.id != DeviceId(p, c.publicKey)
            || c.id != DeviceId(p, h.peer.publicKey) then None
    else
      var transcript := HostTranscript(p, h, c);
      if c.mac != Mac(p, h.peer.credential, "challenge", transcript) then None
      else Some(Proof(PROTOCOL_VERSION, h.transaction, Mac(p, h.peer.credential, "authenticate", transcript)))
  }

  /** The daemon's keys, or None when it refuses the phone's proof. */
  function HostFinish(p: Primitives, h: Host, c: Challenge, ready: Proof): Option<Keys>
    requires Sized(p) && HostAuthenticate(p, h, c).Some?
  {
    var transcript := HostTranscript(p, h, c);
    if ready.version != PROTOCOL_VERSION || ready.transaction != h.transaction
       || ready.mac != Mac(p, h.peer.credential, "ready", transcript) then None
    else
      var (hostToPeer, peerToHost) := SessionKeys(p, h.peer.credential, transcript);
      Some(Keys(hostToPeer, peerToHost))
  }

  // ---- The phone ----

  const PHONE_KEY_HOST_TO_PEER := "quava-session-frames-host-to-peer-v1"
  const PHONE_KEY_PEER_TO_HOST := "quava-session-frames-peer-to-host-v1"

  function SessionTranscript(txId: Bytes, initiatorId: Bytes, responderId: Bytes, initiatorPublic: Bytes,
                             responderPublic: Bytes, initiatorNonce: Bytes, responderNonce: Bytes): Bytes
  {
    Ascii("quava-session") + txId + initiatorId + responderId + initiatorPublic + responderPublic
    + initiatorNonce + responderNonce
  }

  datatype Phone = Phone(nonce: Bytes, self: Identity, peers: map<Bytes, Trust>)

  function PhoneTranscript(p: Primitives, ph: Phone, hello: Hello): Bytes
    requires Sized(p)
  {
    SessionTranscript(hello.transaction, hello.id, DeviceId(p, ph.self.publicKey), hello.publicKey,
               ph.self.publicKey, hello.nonce, ph.nonce)
  }

  /** The credential of the peer a hello comes from, or None when the phone refuses it. */
  function PhoneTrusts(p: Primitives, ph: Phone, hello: Hello): Option<Bytes>
    requires Sized(p)
  {
    if hello.version != PROTOCOL_VERSION || |hello.transaction| != TRANSACTION_BYTES then None
    else if |hello.id| != ID_BYTES || |hello.publicKey| != PUBLIC_BYTES || |hello.nonce| != NONCE_BYTES then None
    else if hello.id != DeviceId(p, hello.publicKey) || hello.id !in ph.peers then None
    else if ph.peers[hello.id].publicKey != hello.publicKey then None
    else Some(ph.peers[hello.id].credential)
  }

  function PhoneChallenge(p: Primitives, ph: Phone, hello: Hello): Challenge
    requires Sized(p) && PhoneTrusts(p, ph, hello).Some?
  {
    Challenge(PROTOCOL_VERSION, hello.transaction, DeviceId(p, ph.self.publicKey), ph.self.publicKey, ph.nonce,
              p.hmac(PhoneTrusts(p, ph, hello).value, Ascii("challenge") + PhoneTranscript(p, ph, hello)))
  }

  /** The phone's proof and keys, or None when it refuses the daemon's proof. */
  function PhoneFinish(p: Primitives, ph: Phone, hello: Hello, auth: Proof): Option<(Proof, Keys)>
    requires Sized(p) && PhoneTrusts(p, ph, hello).Some?
  {
    var credential, transcript := PhoneTrusts(p, ph, hello).value, PhoneTranscript(p, ph, hello);
    if auth.version != PROTOCOL_VERSION || auth.transaction != hello.transaction
       || auth.mac != p.hmac(credential, Ascii("authenticate") + transcript) then None
    else
      var salt := p.sha256(transcript);
      var hostToPeer := p.hkdf(salt, credential, Ascii(PHONE_KEY_HOST_TO_PEER));
      var peerToHost := p.hkdf(salt, credential, Ascii(PHONE_KEY_PEER_TO_HOST));
      Some((Proof(PROTOCOL_VERSION, hello.transaction, p.hmac(credential, Ascii("ready") + transcript)),
            Keys(peerToHost, hostToPeer)))
  }

  // ---- Agreement ----

  /** Each side holds the other's public key and both the same credential. */
  ghost predicate Paired(p: Primitives, h: Host, ph: Phone)
    requires Sized(p)
  {
    && |h.transaction| == TRANSACTION_BYTES && |h.nonce| == NONCE_BYTES && |ph.nonce| == NONCE_BYTES
    && |h.self.publicKey| == PUBLIC_BYTES && |ph.self.publicKey| == PUBLIC_BYTES
    && h.peer.publicKey == ph.self.publicKey
    && DeviceId(p, h.self.publicKey) in ph.peers
    && ph.peers[DeviceId(p, h.self.publicKey)] == Trust(h.self.publicKey, h.peer.credential)
  }

  /** Each side sends under the key the other receives under. */
  predicate Crossed(host: Keys, phone: Keys) {
    host.send == phone.recv && host.recv == phone.send
  }

  /** The two programs put the fields in the same order under the same name. */
  lemma SameTranscript(x: Bytes, a: Bytes, b: Bytes, c: Bytes, d: Bytes, m: Bytes, n: Bytes)
    ensures SessionTranscript(x, a, b, c, d, m, n) == Transcript(x, a, b, c, d, m, n)
  {
  }

  /** An honest handshake completes on both sides, with crossed keys. */
  lemma HonestHandshake(p: Primitives, h: Host, ph: Phone)
    requires Sized(p) && Paired(p, h, ph)
    ensures var hello := HostHello(p, h);
            && PhoneTrusts(p, ph, hello).Some?
            && var challenge := PhoneChallenge(p, ph, hello);
            && HostAuthenticate(p, h, challenge).Some?
            && var phone := PhoneFinish(p, ph, hello, HostAuthenticate(p, h, challenge).value);
            && phone.Some?
            && var host := HostFinish(p, h, challenge, phone.value.0);
            && host.Some? && Crossed(host.value, phone.value.1)
  {
    hide Ascii;
    var hello := HostHello(p, h);
    var challenge := PhoneChallenge(p, ph, hello);
    assert HostTranscript(p, h, challenge) == PhoneTranscript(p, ph, hello);
  }

  lemma SplitAt(a: Bytes, b: Bytes, c: Bytes, d: Bytes)
    requires |a| == |c| && a + b == c + d
    ensures a == c && b == d
  {
    assert a == (a + b)[..|a|] && b == (a + b)[|a|..];
    assert c == (c + d)[..|c|] && d == (c + d)[|c|..];
  }

  lemma TranscriptParts(x: Bytes, a: Bytes, b: Bytes, c: Bytes, d: Bytes, m: Bytes, n: Bytes)
    ensures Transcript(x, a, b, c, d, m, n) ==
            Ascii(SESSION_PROTOCOL_NAME) + (x + (a + (b + (c + (d + (m + n))))))
  {
    hide Ascii;
    assert c + (d + (m + n)) == c + d + m + n;
    assert x + (a + (b + (c + d + m + n))) == x + a + b + c + d + m + n;
  }

  /** Only the last field has a length of its own, so a transcript fixes all its fields. */
  lemma TranscriptInjective(x: Bytes, a: Bytes, b: Bytes, c: Bytes, d: Bytes, m: Bytes, n: Bytes,
                            x': Bytes, a': Bytes, b': Bytes, c': Bytes, d': Bytes, m': Bytes, n': Bytes)
    requires |x| == |x'| && |a| == |a'| && |b| == |b'| && |c| == |c'| && |d| == |d'| && |m| == |m'|
    requires Transcript(x, a, b, c, d, m, n) == Transcript(x', a', b', c', d', m', n')
    ensures x == x' && a == a' && b == b' && c == c' && d == d' && m == m' && n == n'
  {
    hide Transcript, Ascii;
    TranscriptParts(x, a, b, c, d, m, n);
    TranscriptParts(x', a', b', c', d', m', n');
    var name := Ascii(SESSION_PROTOCOL_NAME);
    SplitAt(name, x + (a + (b + (c + (d + (m + n))))), name, x' + (a' + (b' + (c' + (d' + (m' + n'))))));
    SplitAt(x, a + (b + (c + (d + (m + n)))), x', a' + (b' + (c' + (d' + (m' + n')))));
    SplitAt(a, b + (c + (d + (m + n))), a', b' + (c' + (d' + (m' + n'))));
    SplitAt(b, c + (d + (m + n)), b', c' + (d' + (m' + n')));
    SplitAt(c, d + (m + n), c', d' + (m' + n'));
    SplitAt(d, m + n, d', m' + n');
    SplitAt(m, n, m', n');
  }

  /** Equal transcripts mean the same handshake. */
  lemma SameHandshake(p: Primitives, h: Host, c: Challenge, ph: Phone, hello: Hello)
    requires Sized(p) && |h.transaction| == TRANSACTION_BYTES && |h.self.publicKey| == PUBLIC_BYTES
    requires |h.nonce| == NONCE_BYTES && |ph.self.publicKey| == PUBLIC_BYTES
    requires HostAuthenticate(p, h, c).Some? && PhoneTrusts(p, ph, hello).Some?
    requires HostTranscript(p, h, c) == PhoneTranscript(p, ph, hello)
    ensures hello == HostHello(p, h)
    ensures c.id == DeviceId(p, ph.self.publicKey) && c.publicKey == ph.self.publicKey && c.nonce == ph.nonce
  {
    hide Transcript, SessionTranscript, Mac, Ascii;
    SameTranscript(hello.transaction, hello.id, DeviceId(p, ph.self.publicKey), hello.publicKey,
                   ph.self.publicKey, hello.nonce, ph.nonce);
    TranscriptInjective(h.transaction, DeviceId(p, h.self.publicKey), c.id, h.self.publicKey, c.publicKey,
                        h.nonce, c.nonce,
                        hello.transaction, hello.id, DeviceId(p, ph.self.publicKey), hello.publicKey,
                        ph.self.publicKey, hello.nonce, ph.nonce);
  }

  /**
   Whatever messages the two sides were actually given: if the phone accepts the proof the daemon
   made, and the texts the two sides put under that MAC do not collide, then both saw the same
   handshake and hold crossed keys.
   */
  lemma ProofMeansAgreement(p: Primitives, h: Host, c: Challenge, ph: Phone, hello: Hello)
    requires Sized(p) && |h.transaction| == TRANSACTION_BYTES && |h.self.publicKey| == PUBLIC_BYTES
    requires |h.nonce| == NONCE_BYTES && |ph.self.publicKey| == PUBLIC_BYTES
    requires HostAuthenticate(p, h, c).Some? && PhoneTrusts(p, ph, hello) == Some(h.peer.credential)
    requires PhoneFinish(p, ph, hello, HostAuthenticate(p, h, c).value).Some?
    requires var s, t := HostTranscript(p, h, c), PhoneTranscript(p, ph, hello);
             Mac(p, h.peer.credential, "authenticate", s) == Mac(p, h.peer.credential, "authenticate", t) ==> s == t
    ensures hello == HostHello(p, h)
    ensures c.id == DeviceId(p, ph.self.publicKey) && c.publicKey == ph.self.publicKey && c.nonce == ph.nonce
    ensures var phone := PhoneFinish(p, ph, hello, HostAuthenticate(p, h, c).value).value;
            && HostFinish(p, h, c, phone.0).Some?
            && Crossed(HostFinish(p, h, c, phone.0).value, phone.1)
  {
    hide Transcript, SessionTranscript, Ascii;
    SameHandshake(p, h, c, ph, hello);
  }

  /**
   If the daemon accepts a challenge with the MAC the phone made, and the texts the two sides put
   under that MAC do not collide, then the challenge is the phone's own, made for the daemon's own
   hello, and the phone has the identity the daemon is paired with.
   */
  lemma ChallengeMeansAgreement(p: Primitives, h: Host, c: Challenge, ph: Phone, hello: Hello)
    requires Sized(p) && |h.transaction| == TRANSACTION_BYTES && |h.self.publicKey| == PUBLIC_BYTES
    requires |h.nonce| == NONCE_BYTES && |ph.self.publicKey| == PUBLIC_BYTES
    requires HostAuthenticate(p, h, c).Some? && PhoneTrusts(p, ph, hello) == Some(h.peer.credential)
    requires c.mac == PhoneChallenge(p, ph, hello).mac
    requires var s, t := HostTranscript(p, h, c), PhoneTranscript(p, ph, hello);
             Mac(p, h.peer.credential, "challenge", s) == Mac(p, h.peer.credential, "challenge", t) ==> s == t
    ensures hello == HostHello(p, h) && c == PhoneChallenge(p, ph, hello)
    ensures DeviceId(p, ph.self.publicKey) == DeviceId(p, h.peer.publicKey)
  {
    hide Transcript, SessionTranscript, Ascii;
    SameHandshake(p, h, c, ph, hello);
  }

  /**
   If the daemon accepts a final proof with the MAC the phone made, and the texts under it do not
   collide, then the proof is the one the phone sent with its keys, and the keys are crossed.
   */
  lemma ReadyMeansAgreement(p: Primitives, h: Host, c: Challenge, ready: Proof, ph: Phone, hello: Hello, auth: Proof)
    requires Sized(p) && |h.transaction| == TRANSACTION_BYTES && |h.self.publicKey| == PUBLIC_BYTES
    requires |h.nonce| == NONCE_BYTES && |ph.self.publicKey| == PUBLIC_BYTES
    requires HostAuthenticate(p, h, c).Some? && HostFinish(p, h, c, ready).Some?
    requires PhoneTrusts(p, ph, hello) == Some(h.peer.credential) && PhoneFinish(p, ph, hello, auth).Some?
    requires ready.mac == PhoneFinish(p, ph, hello, auth).value.0.mac
    requires var s, t := HostTranscript(p, h, c), PhoneTranscript(p, ph, hello);
             Mac(p, h.peer.credential, "ready", s) == Mac(p, h.peer.credential, "ready", t) ==> s == t
    ensures hello == HostHello(p, h) && ready == PhoneFinish(p, ph, hello, auth).value.0
    ensures auth == HostAuthenticate(p, h, c).value
    ensures Crossed(HostFinish(p, h, c, ready).value, PhoneFinish(p, ph, hello, auth).value.1)
  {
    hide Transcript, SessionTranscript, Ascii;
    SameHandshake(p, h, c, ph, hello);
  }

  // ---- What acceptance takes ----

  /** No one is answered without the MAC of the right purpose, under the credential, over one's own view. */
  lemma AcceptanceNeedsMac(p: Primitives, h: Host, c: Challenge, ready: Proof, ph: Phone, hello: Hello, auth: Proof)
    requires Sized(p)
    ensures HostAuthenticate(p, h, c).Some? ==>
              && c.mac == p.hmac(h.peer.credential, Ascii("challenge") + HostTranscript(p, h, c))
              && c.version == 2 && c.transaction == h.transaction
              && c.id == DeviceId(p, c.publicKey) == DeviceId(p, h.peer.publicKey)
    ensures HostAuthenticate(p, h, c).Some? && HostFinish(p, h, c, ready).Some? ==>
              && ready.mac == p.hmac(h.peer.credential, Ascii("ready") + HostTranscript(p, h, c))
              && ready.version == 2 && ready.transaction == h.transaction
    ensures PhoneTrusts(p, ph, hello).Some? ==>
              && hello.version == 2 && hello.id == DeviceId(p, hello.publicKey) && hello.id in ph.peers
              && ph.peers[hello.id] == Trust(hello.publicKey, PhoneTrusts(p, ph, hello).value)
    ensures PhoneTrusts(p, ph, hello).Some? && PhoneFinish(p, ph, hello, auth).Some? ==>
              && auth.mac ==
                 p.hmac(ph.peers[hello.id].credential, Ascii("authenticate") + PhoneTranscript(p, ph, hello))
              && auth.version == 2 && auth.transaction == hello.transaction
  {
    hide Transcript, SessionTranscript, Ascii;
  }

  /** The three purposes put different texts under the MAC. */
  lemma PurposesDiffer(t: Bytes)
    ensures Ascii("challenge") + t != Ascii("authenticate") + t
    ensures Ascii("authenticate") + t != Ascii("ready") + t
    ensures Ascii("ready") + t != Ascii("challenge") + t
  {
    assert |Ascii("challenge") + t| == 9 + |t|;
    assert |Ascii("authenticate") + t| == 12 + |t|;
    assert |Ascii("ready") + t| == 5 + |t|;
  }

  /** A MAC made for another purpose, the daemon's own proof among them, is not taken for the phone's final proof. */
  lemma PlayedBackProofRefused(p: Primitives, h: Host, c: Challenge, ready: Proof)
    requires Sized(p) && HostAuthenticate(p, h, c).Some?
    requires ready.mac == HostAuthenticate(p, h, c).value.mac || ready.mac == c.mac
    requires var t := HostTranscript(p, h, c);
             forall a, b :: a in {"challenge", "authenticate", "ready"} &&
                            b in {"challenge", "authenticate", "ready"} &&
                            p.hmac(h.peer.credential, Ascii(a) + t) == p.hmac(h.peer.credential, Ascii(b) + t) ==>
                            Ascii(a) + t == Ascii(b) + t
    ensures HostFinish(p, h, c, ready) == None
  {
    hide Transcript, Ascii;
    PurposesDiffer(HostTranscript(p, h, c));
  }

  // ---- One key for each direction ----

  lemma LabelsDiffer()
    ensures Ascii("quava-session-frames-host-to-peer-v1") != Ascii("quava-session-frames-peer-to-host-v1")
  {
    var there, back := "quava-session-frames-host-to-peer-v1", "quava-session-frames-peer-to-host-v1";
    assert there[21] == 'h' && back[21] == 'p';
    assert Ascii(there)[21] == 0x68 && Ascii(back)[21] == 0x70;
  }

  /** The key derivation keeps the two direction labels apart, for this transcript and credential. */
  ghost predicate KeepsDirectionsApart(p: Primitives, credential: Bytes, transcript: Bytes) {
    var salt := p.sha256(transcript);
    var there := Ascii("quava-session-frames-host-to-peer-v1");
    var back := Ascii("quava-session-frames-peer-to-host-v1");
    p.hkdf(salt, credential, there) == p.hkdf(salt, credential, back) ==> there == back
  }

  /** After a completed handshake the daemon does not send under the key it receives under. */
  lemma HostDirectionsDiffer(p: Primitives, h: Host, c: Challenge, ready: Proof)
    requires Sized(p) && HostAuthenticate(p, h, c).Some? && HostFinish(p, h, c, ready).Some?
    requires KeepsDirectionsApart(p, h.peer.credential, HostTranscript(p, h, c))
    ensures HostFinish(p, h, c, ready).value.send != HostFinish(p, h, c, ready).value.recv
  {
    hide Transcript, Ascii;
    LabelsDiffer();
  }

  /** Nor does the phone. */
  lemma PhoneDirectionsDiffer(p: Primitives, ph: Phone, hello: Hello, auth: Proof)
    requires Sized(p) && PhoneTrusts(p, ph, hello).Some? && PhoneFinish(p, ph, hello, auth).Some?
    requires KeepsDirectionsApart(p, PhoneTrusts(p, ph, hello).value, PhoneTranscript(p, ph, hello))
    ensures PhoneFinish(p, ph, hello, auth).value.1.send != PhoneFinish(p, ph, hello, auth).value.1.recv
  {
    hide SessionTranscript, Ascii;
    LabelsDiffer();
  }

  /** A record of this session: sealed by the peer as its message of that number, or by this side itself. */
  predicate FromSession(k: Keys, sent: seq<Bytes>, r: Recorded) {
    && 1 <= |r.message| <= MAX_FRAME
    && ((r.key == k.recv && r.counter < |sent| && r.message == sent[r.counter]) || r.key == k.send)
  }

  /**
   With different keys, whatever records of a session are played to one side, its own among them, it
   accepts only the peer's messages in order.
   */
  lemma OwnRecordsRefused(a: Aead, k: Keys, least: nat, sent: seq<Bytes>, picks: seq<Recorded>)
    requires Inverts(a) && k.send != k.recv && |sent| <= LAST_COUNTER
    requires forall i :: 0 <= i < |picks| ==> FromSession(k, sent, picks[i]) && OpensOnlyAsSealed(a, k.recv, picks[i])
    ensures ReceiveAll(a, k.recv, least, 0, WireOfRecorded(a, picks)).0 <= sent
    ensures (forall i :: 0 <= i < |picks| ==> picks[i].key == k.send) ==>
              ReceiveAll(a, k.recv, least, 0, WireOfRecorded(a, picks)).0 == []
  {
    hide OpensOnlyAsSealed, ReceiveAll;
    PlayedBackInOrder(a, k.recv, least, sent, 0, picks);
    assert sent[0..] == sent;
    if forall i :: 0 <= i < |picks| ==> picks[i].key == k.send {
      PlayedBackInOrder(a, k.recv, least, [], 0, picks);
    }
  }

  /** For the daemon of a completed handshake: no record it sealed itself is ever accepted. */
  lemma HostRefusesItsOwn(p: Primitives, h: Host, c: Challenge, ready: Proof, a: Aead, least: nat,
                          sent: seq<Bytes>, picks: seq<Recorded>)
    requires Sized(p) && HostAuthenticate(p, h, c).Some? && HostFinish(p, h, c, ready).Some?
    requires KeepsDirectionsApart(p, h.peer.credential, HostTranscript(p, h, c))
    requires Inverts(a) && |sent| <= LAST_COUNTER
    requires var k := HostFinish(p, h, c, ready).value;
             forall i :: 0 <= i < |picks| ==> FromSession(k, sent, picks[i]) && OpensOnlyAsSealed(a, k.recv, picks[i])
    ensures var k := HostFinish(p, h, c, ready).value;
            ReceiveAll(a, k.recv, least, 0, WireOfRecorded(a, picks)).0 <= sent
  {
    var k := HostFinish(p, h, c, ready).value;
    HostDirectionsDiffer(p, h, c, ready);
    hide HostFinish, FromSession, OpensOnlyAsSealed, ReceiveAll, HostAuthenticate, KeepsDirectionsApart, Inverts;
    OwnRecordsRefused(a, k, least, sent, picks);
  }

  /** So for the phone. */
  lemma PhoneRefusesItsOwn(p: Primitives, ph: Phone, hello: Hello, auth: Proof, a: Aead, least: nat,
                           sent: seq<Bytes>, picks: seq<Recorded>)
    requires Sized(p) && PhoneTrusts(p, ph, hello).Some? && PhoneFinish(p, ph, hello, auth).Some?
    requires KeepsDirectionsApart(p, PhoneTrusts(p, ph, hello).value, PhoneTranscript(p, ph, hello))
    requires Inverts(a) && |sent| <= LAST_COUNTER
    requires var k := PhoneFinish(p, ph, hello, auth).value.1;
             forall i :: 0 <= i < |picks| ==> FromSession(k, sent, picks[i]) && OpensOnlyAsSealed(a, k.recv, picks[i])
    ensures var k := PhoneFinish(p, ph, hello, auth).value.1;
            ReceiveAll(a, k.recv, least, 0, WireOfRecorded(a, picks)).0 <= sent
  {
    var k := PhoneFinish(p, ph, hello, auth).value.1;
    PhoneDirectionsDiffer(p, ph, hello, auth);
    hide PhoneFinish, FromSession, OpensOnlyAsSealed, ReceiveAll, PhoneTrusts, KeepsDirectionsApart, Inverts;
    OwnRecordsRefused(a, k, least, sent, picks);
  }
}
