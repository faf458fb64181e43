/**
 Any number of calls of `WriteMessage` on one encrypted connection, interleaved step by step. A
 caller stands for one call.

 Taking the lock, sealing, each piece the socket accepts, and releasing the lock are separate steps,
 so other callers' steps may come between any two of them.
 */
module ConcurrentWriters {
  import opened Sequences
  import opened Wire

  type Caller = nat

  datatype Phase =
    | Waiting(payload: Bytes)
    | Locked(payload: Bytes)
    | Writing(payload: Bytes, left: Bytes)

  datatype State = State(
    calls: map<Caller, Bytes>,    // every call made, with its payload
    results: map<Caller, bool>,   // what the calls that have returned reported
    phases: map<Caller, Phase>,   // callers inside WriteMessage
    lock: Option<Caller>,
    counter: nat,
    wire: Bytes,
    sent: seq<(Caller, Bytes)>)   // messages sealed, in order

  datatype Event =
    | Call(caller: Caller, payload: Bytes)
    | Lock(caller: Caller)
    | Seal(caller: Caller)           // or refusal of an oversized message, or of an exhausted counter
    | Write(caller: Caller, n: nat)
    | Unlock(caller: Caller)

  const INITIAL := State(map[], map[], map[], None, 0, [], [])

  predicate Enabled(s: State, e: Event) {
    match e
    case Call(c, payload) => c !in s.calls && payload != []
    case Lock(c) => c in s.phases && s.phases[c].Waiting? && s.lock == None
    case Seal(c) => c in s.phases && s.phases[c].Locked?
    case Write(c, n) => c in s.phases && s.phases[c].Writing? && 1 <= n <= |s.phases[c].left|
    case Unlock(c) => c in s.phases && s.phases[c].Writing? && s.phases[c].left == []
  }

  function Step(a: Aead, key: Bytes, s: State, e: Event): State
    requires Enabled(s, e)
  {
    match e
    case Call(c, payload) => s.(calls := s.calls[c := payload], phases := s.phases[c := Waiting(payload)])
    case Lock(c) => s.(phases := s.phases[c := Locked(s.phases[c].payload)], lock := Some(c))
    case Seal(c) =>
      var payload := s.phases[c].payload;
      if |payload| > MAX_FRAME || s.counter >= LAST_COUNTER then
        s.(phases := s.phases - {c}, results := s.results[c := false], lock := None)
      else
        s.(phases := s.phases[c := Writing(payload, Record(a, key, s.counter, payload))],
           counter := s.counter + 1, sent := s.sent + [(c, payload)])
    case Write(c, n) =>
      var left := s.phases[c].left;
      s.(wire := s.wire + left[..n], phases := s.phases[c := s.phases[c].(left := left[n..])])
    case Unlock(c) => s.(phases := s.phases - {c}, results := s.results[c := true], lock := None)
  }

  function Payloads(sent: seq<(Caller, Bytes)>): (r: seq<Bytes>)
    ensures |r| == |sent|
  {
    seq(|sent|, i requires 0 <= i < |sent| => sent[i].1)
  }

  /** What the caller holding the lock still has to put on the wire. */
  function Unwritten(s: State): Bytes {
    if s.lock.Some? && s.lock.value in s.phases && s.phases[s.lock.value].Writing?
    then s.phases[s.lock.value].left else []
  }

  ghost predicate Invariant(a: Aead, key: Bytes, s: State) {
    && (s.lock.Some? ==> s.lock.value in s.phases && !s.phases[s.lock.value].Waiting?)
    && (forall c :: c in s.phases && !s.phases[c].Waiting? ==> s.lock == Some(c))
    && (forall c :: c in s.phases ==> c in s.calls && s.phases[c].payload != [])
    && s.counter == |s.sent| <= LAST_COUNTER
    && Sendable(Payloads(s.sent))
    && s.wire + Unwritten(s) == WireOf(a, key, 0, Payloads(s.sent))
  }

  lemma LockingKeeps(a: Aead, key: Bytes, s: State, e: Event)
    requires Invariant(a, key, s) && Enabled(s, e) && (e.Call? || e.Lock? || e.Unlock?)
    ensures Invariant(a, key, Step(a, key, s, e))
  {
    hide WireOf, Record;
    if e.Call? { assert s.lock != Some(e.caller); }
  }

  lemma SealKeeps(a: Aead, key: Bytes, s: State, c: Caller)
    requires Invariant(a, key, s) && Enabled(s, Seal(c))
    ensures Invariant(a, key, Step(a, key, s, Seal(c)))
  {
    hide WireOf, Record;
    var t := Step(a, key, s, Seal(c));
    var payload := s.phases[c].payload;
    assert s.lock == Some(c);
    assert s.wire + [] == s.wire;
    if t.sent != s.sent {
      WireOfSnoc(a, key, 0, Payloads(s.sent), payload);
      assert Payloads(t.sent) == Payloads(s.sent) + [payload];
    }
  }

  lemma WriteKeeps(a: Aead, key: Bytes, s: State, c: Caller, n: nat)
    requires Invariant(a, key, s) && Enabled(s, Write(c, n))
    ensures Invariant(a, key, Step(a, key, s, Write(c, n)))
  {
    hide WireOf, Record;
    var left := s.phases[c].left;
    assert left == left[..n] + left[n..];
    assert s.wire + (left[..n] + left[n..]) == (s.wire + left[..n]) + left[n..];
  }

  lemma StepKeepsInvariant(a: Aead, key: Bytes, s: State, e: Event)
    requires Invariant(a, key, s) && Enabled(s, e)
    ensures Invariant(a, key, Step(a, key, s, e))
  {
    hide Invariant;
    match e
    case Seal(c) => SealKeeps(a, key, s, c);
    case Write(c, n) => WriteKeeps(a, key, s, c, n);
    case Call(_, _) => LockingKeeps(a, key, s, e);
    case Lock(_) => LockingKeeps(a, key, s, e);
    case Unlock(_) => LockingKeeps(a, key, s, e);
  }

  /** The state after a run of events; None when one of them cannot happen there. */
  function After(a: Aead, key: Bytes, events: seq<Event>): Option<State>
    decreases |events|
  {
    if events == [] then Some(INITIAL)
    else
      var before, e := After(a, key, events[..|events| - 1]), events[|events| - 1];
      if before.None? || !Enabled(before.value, e) then None else Some(Step(a, key, before.value, e))
  }

  lemma {:induction false} RunKeepsInvariant(a: Aead, key: Bytes, events: seq<Event>)
    requires After(a, key, events).Some?
    ensures Invariant(a, key, After(a, key, events).value)
    decreases |events|
  {
    if events != [] {
      var before := events[..|events| - 1];
      RunKeepsInvariant(a, key, before);
      StepKeepsInvariant(a, key, After(a, key, before).value, events[|events| - 1]);
    } else {
      assert INITIAL.wire + Unwritten(INITIAL) == WireOf(a, key, 0, Payloads(INITIAL.sent));
    }
  }

  /**
   For every interleaving: at any moment a reader of the wire accepts messages in the order their
   nonces were taken, with none left out; whenever the lock is free, all of them.
   */
  lemma WireInCounterOrder(a: Aead, key: Bytes, events: seq<Event>, least: nat)
    requires Inverts(a) && After(a, key, events).Some? && least <= TAG_BYTES + 1
    ensures var s := After(a, key, events).value;
            && s.counter == |s.sent|
            && ReceiveAll(a, key, least, 0, s.wire).0 <= Payloads(s.sent)
            && (s.lock == None ==>
                  s.wire == WireOf(a, key, 0, Payloads(s.sent)) &&
                  ReceiveAll(a, key, least, 0, s.wire) == (Payloads(s.sent), AtEnd))
  {
    hide WireOf, Receive, After;
    RunKeepsInvariant(a, key, events);
    var s := After(a, key, events).value;
    assert s.lock == None ==> s.wire + [] == s.wire;
    WireReadsBack(a, key, least, 0, Payloads(s.sent), s.wire);
  }

  // ---- What became of each call ----

  /** The call has been sealed: it is writing, or has returned and reported success. */
  predicate Accepted(s: State, c: Caller) {
    (c in s.phases && s.phases[c].Writing?) || (c in s.results && s.results[c])
  }

  ghost predicate IsSent(s: State, c: Caller) {
    exists i :: 0 <= i < |s.sent| && s.sent[i].0 == c
  }

  /** Every call is inside or has returned, and keeps its payload. */
  ghost predicate Recorded(s: State) {
    && (forall c :: c in s.calls <==> c in s.phases || c in s.results)
    && (forall c :: c in s.phases ==> c !in s.results && s.phases[c].payload == s.calls[c])
  }

  /** The sealed messages are those of accepted calls, one for each. */
  ghost predicate SentMatches(s: State) {
    && (forall i :: 0 <= i < |s.sent| ==>
          Accepted(s, s.sent[i].0) && s.sent[i].0 in s.calls && s.sent[i].1 == s.calls[s.sent[i].0])
    && (forall i, j :: 0 <= i < j < |s.sent| ==> s.sent[i].0 != s.sent[j].0)
  }

  ghost predicate AllSent(s: State) {
    forall c :: Accepted(s, c) ==> IsSent(s, c)
  }

  ghost predicate RefusedRightly(s: State) {
    forall c :: c in s.results && !s.results[c] ==>
      c in s.calls && (|s.calls[c]| > MAX_FRAME || s.counter >= LAST_COUNTER)
  }

  ghost predicate CallsKept(s: State) {
    Recorded(s) && SentMatches(s) && AllSent(s) && RefusedRightly(s)
  }

  lemma AcceptedAfter(a: Aead, key: Bytes, s: State, e: Event, c: Caller)
    requires Recorded(s) && Enabled(s, e)
    ensures var t := Step(a, key, s, e);
            Accepted(t, c) == (Accepted(s, c) || (e.Seal? && e.caller == c && t.sent != s.sent))
    ensures e.Seal? ==> !Accepted(s, e.caller)
    ensures Step(a, key, s, e).sent == s.sent ||
            (e.Seal? && e.caller in s.calls &&
             Step(a, key, s, e).sent == s.sent + [(e.caller, s.calls[e.caller])])
  {
    hide Record;
  }

  lemma RecordedKept(a: Aead, key: Bytes, s: State, e: Event)
    requires Recorded(s) && Enabled(s, e)
    ensures Recorded(Step(a, key, s, e))
    ensures forall c :: c in s.calls ==> c in Step(a, key, s, e).calls && Step(a, key, s, e).calls[c] == s.calls[c]
  {
    hide Record;
  }

  lemma SentMatchesKept(a: Aead, key: Bytes, s: State, e: Event)
    requires Recorded(s) && SentMatches(s) && Enabled(s, e)
    ensures SentMatches(Step(a, key, s, e))
  {
    RecordedKept(a, key, s, e);
    forall c ensures Accepted(s, c) ==> Accepted(Step(a, key, s, e), c) {
      AcceptedAfter(a, key, s, e, c);
    }
    if e.Seal? { AcceptedAfter(a, key, s, e, e.caller); }
    AcceptedAfter(a, key, s, e, 0);
    hide Record, Recorded, Accepted, Step, Enabled;
  }

  lemma AllSentKept(a: Aead, key: Bytes, s: State, e: Event)
    requires Recorded(s) && AllSent(s) && Enabled(s, e)
    ensures AllSent(Step(a, key, s, e))
  {
    hide Recorded, Accepted, Step, Enabled;
    var t := Step(a, key, s, e);
    forall c | Accepted(t, c) ensures IsSent(t, c) {
      AcceptedAfter(a, key, s, e, c);
      if Accepted(s, c) {
        var i :| 0 <= i < |s.sent| && s.sent[i].0 == c;
        assert t.sent[i].0 == c;
      } else {
        assert t.sent[|s.sent|].0 == c;
      }
    }
  }

  lemma RefusedRightlyKept(a: Aead, key: Bytes, s: State, e: Event)
    requires Recorded(s) && RefusedRightly(s) && Enabled(s, e)
    ensures RefusedRightly(Step(a, key, s, e))
  {
    hide Record;
  }

  lemma StepKeepsCalls(a: Aead, key: Bytes, s: State, e: Event)
    requires CallsKept(s) && Enabled(s, e)
    ensures CallsKept(Step(a, key, s, e))
  {
    hide Recorded, SentMatches, AllSent, RefusedRightly, Step;
    RecordedKept(a, key, s, e);
    SentMatchesKept(a, key, s, e);
    AllSentKept(a, key, s, e);
    RefusedRightlyKept(a, key, s, e);
  }

  lemma {:induction false} RunKeepsCalls(a: Aead, key: Bytes, events: seq<Event>)
    requires After(a, key, events).Some?
    ensures CallsKept(After(a, key, events).value)
    ensures forall c, payload :: Call(c, payload) in events <==>
              c in After(a, key, events).value.calls && After(a, key, events).value.calls[c] == payload
    decreases |events|
  {
    hide CallsKept, Record;
    if events == [] {
      NoCalls();
    } else {
      var before, last := events[..|events| - 1], events[|events| - 1];
      RunKeepsCalls(a, key, before);
      StepKeepsCalls(a, key, After(a, key, before).value, last);
      assert events == before + [last];
    }
  }

  lemma NoCalls()
    ensures CallsKept(INITIAL)
  {
  }

  /**
   For every interleaving: a call that reported success is among the sealed messages exactly once,
   with the payload it was called with; one that was refused is not, and was oversized or came after
   the last counter; and nothing else is sealed but what is being written.
   */
  lemma EachCallOnce(a: Aead, key: Bytes, events: seq<Event>, c: Caller, payload: Bytes)
    requires After(a, key, events).Some? && Call(c, payload) in events
    requires c in After(a, key, events).value.results
    ensures var s := After(a, key, events).value;
            if s.results[c] then
              exists i :: 0 <= i < |s.sent| && s.sent[i] == (c, payload) &&
                          forall j :: 0 <= j < |s.sent| && s.sent[j].0 == c ==> j == i
            else
              && (forall j :: 0 <= j < |s.sent| ==> s.sent[j].0 != c)
              && (|payload| > MAX_FRAME || s.counter >= LAST_COUNTER)
  {
    RunKeepsCalls(a, key, events);
    hide After;
    var s := After(a, key, events).value;
    if s.results[c] {
      assert Accepted(s, c) && IsSent(s, c);
      var i :| 0 <= i < |s.sent| && s.sent[i].0 == c;
      assert s.sent[i] == (c, payload);
      forall j | 0 <= j < |s.sent| && s.sent[j].0 == c ensures j == i {
      }
    } else {
      assert !Accepted(s, c);
    }
  }

  /** Every sealed message comes from a call with that payload, which succeeded or is still writing. */
  lemma NothingElseSent(a: Aead, key: Bytes, events: seq<Event>, i: nat)
    requires After(a, key, events).Some? && i < |After(a, key, events).value.sent|
    ensures var s := After(a, key, events).value;
            Call(s.sent[i].0, s.sent[i].1) in events && Accepted(s, s.sent[i].0)
  {
    RunKeepsCalls(a, key, events);
  }
}
