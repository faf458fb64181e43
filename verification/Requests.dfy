/**
 Requests and replies on one session: any number of requesters, timeouts, and the single reader.

 Registering, writing, receiving, timing out and cleaning up are separate steps of a requester;
 reading, looking up and delivering are separate steps of the reader. A requester may therefore give
 up between the reader's lookup and its delivery.
 */
module Requests {
  import opened Sequences

  type RequestId = nat
  type Transaction = nat

  datatype Phase =
    | Registered
    | Waiting                            // the request has been written
    | Closing(result: Option<nat>)       // a reply was taken, or none; not yet unregistered
    | Done(result: Option<nat>)

  /** A message is its number in the order of reading. The channel holds one. */
  datatype Request = Request(transaction: Transaction, channel: Option<nat>, phase: Phase)

  datatype Reader =
    | Idle
    | Looking(message: nat)
    | Found(message: nat, request: RequestId)
    | Unclaimed(message: nat)

  datatype Place = ToRequest(request: RequestId) | ToQueue | Dropped

  datatype State = State(
    requests: map<RequestId, Request>,
    pending: map<Transaction, RequestId>,
    reader: Reader,
    received: seq<Transaction>,          // the transaction of every message read
    places: seq<Place>,                  // where each message went
    firstReply: map<RequestId, nat>)     // the first message looked up while a request was registered

  datatype Event =
    | Register(request: RequestId, transaction: Transaction)
    | Write(request: RequestId, ok: bool)
    | Receive(request: RequestId)
    | TimeOut(request: RequestId)
    | Cleanup(request: RequestId)
    | Read(transaction: Transaction)
    | Lookup
    | Deliver
    | Dispatch(queued: bool)

  const INITIAL := State(map[], map[], Idle, [], [], map[])

  predicate InPhase(s: State, r: RequestId, phase: Phase) {
    r in s.requests && s.requests[r].phase == phase
  }

  /** Transaction identifiers are fresh; everything else is what the code allows. */
  predicate Enabled(s: State, e: Event) {
    match e
    case Register(r, t) => r !in s.requests && forall q :: q in s.requests ==> s.requests[q].transaction != t
    case Write(r, _) => InPhase(s, r, Registered)
    case Receive(r) => InPhase(s, r, Waiting) && s.requests[r].channel.Some?
    case TimeOut(r) => InPhase(s, r, Waiting)
    case Cleanup(r) => r in s.requests && s.requests[r].phase.Closing?
    case Read(_) => s.reader == Idle
    case Lookup => s.reader.Looking? && s.reader.message < |s.received|
    case Deliver => s.reader.Found? && s.reader.request in s.requests
    case Dispatch(_) => s.reader.Unclaimed?
  }

  function Step(s: State, e: Event): State
    requires Enabled(s, e)
  {
    match e
    case Register(r, t) =>
      s.(requests := s.requests[r := Request(t, None, Registered)], pending := s.pending[t := r])
    case Write(r, ok) =>
      s.(requests := s.requests[r := s.requests[r].(phase := if ok then Waiting else Closing(None))])
    case Receive(r) =>
      s.(requests := s.requests[r := s.requests[r].(channel := None, phase := Closing(s.requests[r].channel))])
    case TimeOut(r) => s.(requests := s.requests[r := s.requests[r].(phase := Closing(None))])
    case Cleanup(r) =>
      s.(requests := s.requests[r := s.requests[r].(phase := Done(s.requests[r].phase.result))],
         pending := s.pending - {s.requests[r].transaction})
    case Read(t) => s.(received := s.received + [t], reader := Looking(|s.received|))
    case Lookup =>
      var m := s.reader.message;
      if s.received[m] in s.pending then
        var r := s.pending[s.received[m]];
        s.(reader := Found(m, r), firstReply := if r in s.firstReply then s.firstReply else s.firstReply[r := m])
      else s.(reader := Unclaimed(m))
    case Deliver =>
      var m, r := s.reader.message, s.reader.request;
      if s.requests[r].channel == None then
        s.(requests := s.requests[r := s.requests[r].(channel := Some(m))], places := s.places + [ToRequest(r)],
           reader := Idle)
      else s.(reader := Unclaimed(m))
    case Dispatch(queued) => s.(places := s.places + [if queued then ToQueue else Dropped], reader := Idle)
  }

  // ---- What holds in every reachable state ----

  /** Every message but the one in the reader's hands has a place. */
  predicate ReaderConsistent(s: State) {
    match s.reader
    case Idle => |s.places| == |s.received|
    case Looking(m) => |s.places| == m && |s.received| == m + 1
    case Found(m, r) => |s.places| == m && |s.received| == m + 1
                        && r in s.requests && s.requests[r].transaction == s.received[m]
                        && r in s.firstReply
    case Unclaimed(m) => |s.places| == m && |s.received| == m + 1
  }

  /** `pending` holds exactly the requests that are not done. */
  ghost predicate PendingConsistent(s: State) {
    && (forall t :: t in s.pending ==>
          s.pending[t] in s.requests && s.requests[s.pending[t]].transaction == t
          && !s.requests[s.pending[t]].phase.Done?)
    && (forall r :: r in s.requests && !s.requests[r].phase.Done? ==>
          s.requests[r].transaction in s.pending && s.pending[s.requests[r].transaction] == r)
  }

  /** A message in a request's hands went to that request and answers it. */
  predicate Owns(s: State, r: RequestId, m: nat)
    requires r in s.requests
  {
    m < |s.places| && m < |s.received| && s.places[m] == ToRequest(r) && s.received[m] == s.requests[r].transaction
  }

  function Result(q: Request): Option<nat> {
    if q.phase.Closing? || q.phase.Done? then q.phase.result else None
  }

  ghost predicate RequestConsistent(s: State, r: RequestId)
    requires r in s.requests
  {
    var q := s.requests[r];
    && (q.channel.Some? ==> Owns(s, r, q.channel.value) && r in s.firstReply)
    && (Result(q).Some? ==> Owns(s, r, Result(q).value) && r in s.firstReply && Result(q).value == s.firstReply[r])
    && (r in s.firstReply ==>
          || (s.reader == Found(s.firstReply[r], r) && q.channel == None && Result(q) == None)
          || (Owns(s, r, s.firstReply[r]) &&
              (q.phase == Registered || q.phase == Waiting ==> q.channel == Some(s.firstReply[r]))))
  }

  ghost predicate Invariant(s: State) {
    && ReaderConsistent(s)
    && PendingConsistent(s)
    && DistinctTransactions(s)
    && (forall r :: r in s.firstReply ==> r in s.requests)
    && (forall r :: r in s.requests ==> RequestConsistent(s, r))
  }

  ghost predicate DistinctTransactions(s: State) {
    forall q, r :: q in s.requests && r in s.requests && q != r ==>
      s.requests[q].transaction != s.requests[r].transaction
  }

  /** What a step leaves alone in the requests it is not about. */
  ghost predicate OthersUnchanged(s: State, t: State, r: RequestId) {
    && (forall q :: q in s.requests && q != r ==> q in t.requests && t.requests[q] == s.requests[q])
    && (forall q :: q in t.requests && q != r ==> q in s.requests)
  }

  lemma RegisterKeeps(s: State, r: RequestId, transaction: Transaction)
    requires Invariant(s) && Enabled(s, Register(r, transaction))
    ensures Invariant(Step(s, Register(r, transaction)))
  {
    hide PendingConsistent;
    var t := Step(s, Register(r, transaction));
    PendingKept(s, Register(r, transaction), r);
    assert r !in s.firstReply && r !in s.requests;
    forall q | q in t.requests ensures RequestConsistent(t, q) {
      assert q != r ==> RequestConsistent(s, q);
    }
  }

  /** A later step of a requester keeps the invariant when it keeps it for that request. */
  lemma RequesterStep(s: State, e: Event, r: RequestId)
    requires Invariant(s) && Enabled(s, e)
    requires e.Write? || e.Receive? || e.TimeOut? || e.Cleanup?
    requires r == e.request
    ensures Invariant(Step(s, e))
  {
    hide PendingConsistent, RequestConsistent, OthersUnchanged;
    var t := Step(s, e);
    PendingKept(s, e, r);
    OthersKept(s, e, r);
    SameButOne(s, t, r);
    RequesterKept(s, e, r);
  }

  lemma OthersKept(s: State, e: Event, r: RequestId)
    requires Enabled(s, e) && (e.Write? || e.Receive? || e.TimeOut? || e.Cleanup?) && r == e.request
    ensures OthersUnchanged(s, Step(s, e), r)
  {
  }

  lemma RequesterKept(s: State, e: Event, r: RequestId)
    requires Invariant(s) && Enabled(s, e)
    requires e.Write? || e.Receive? || e.TimeOut? || e.Cleanup?
    requires r == e.request
    ensures RequestConsistent(Step(s, e), r)
  {
    hide PendingConsistent, DistinctTransactions;
    assert RequestConsistent(s, r);
  }

  lemma SameButOne(s: State, t: State, r: RequestId)
    requires Invariant(s) && OthersUnchanged(s, t, r) && r in s.requests && r in t.requests
    requires t.requests[r].transaction == s.requests[r].transaction
    requires t.reader == s.reader && t.received == s.received && t.places == s.places
    requires t.firstReply == s.firstReply
    ensures ReaderConsistent(t) && DistinctTransactions(t)
    ensures forall q :: q in t.requests && q != r ==> RequestConsistent(t, q)
  {
    hide PendingConsistent;
    forall q | q in t.requests && q != r ensures RequestConsistent(t, q) {
      assert RequestConsistent(s, q);
    }
  }

  lemma PendingKept(s: State, e: Event, r: RequestId)
    requires Invariant(s) && Enabled(s, e)
    requires e.Register? || e.Write? || e.Receive? || e.TimeOut? || e.Cleanup?
    requires r == e.request
    ensures PendingConsistent(Step(s, e))
  {
    hide RequestConsistent, ReaderConsistent;
  }

  lemma LookupKeeps(s: State)
    requires Invariant(s) && s.reader.Looking?
    ensures Invariant(Step(s, Lookup))
  {
    var t := Step(s, Lookup);
    forall q | q in t.requests ensures RequestConsistent(t, q) {
      assert RequestConsistent(s, q);
    }
  }

  lemma DeliverKeeps(s: State)
    requires Invariant(s) && Enabled(s, Deliver)
    ensures Invariant(Step(s, Deliver))
  {
    hide PendingConsistent, RequestConsistent;
    var t, r := Step(s, Deliver), s.reader.request;
    PendingSame(s, t, r);
    forall q | q in t.requests ensures RequestConsistent(t, q) {
      DeliverKeepsRequest(s, q);
    }
  }

  lemma DeliverKeepsRequest(s: State, q: RequestId)
    requires Invariant(s) && Enabled(s, Deliver) && q in s.requests
    ensures RequestConsistent(Step(s, Deliver), q)
  {
    hide PendingConsistent, DistinctTransactions;
    assert RequestConsistent(s, q) && RequestConsistent(s, s.reader.request);
  }

  lemma PendingSame(s: State, t: State, r: RequestId)
    requires PendingConsistent(s) && t.pending == s.pending && OthersUnchanged(s, t, r)
    requires r in s.requests && r in t.requests && t.requests[r].transaction == s.requests[r].transaction
    requires t.requests[r].phase == s.requests[r].phase
    ensures PendingConsistent(t)
  {
  }

  lemma ReadOrDispatchKeeps(s: State, e: Event)
    requires Invariant(s) && Enabled(s, e) && (e.Read? || e.Dispatch?)
    ensures Invariant(Step(s, e))
  {
    hide PendingConsistent;
    var t := Step(s, e);
    PendingUntouched(s, t);
    forall q | q in t.requests ensures RequestConsistent(t, q) {
      assert RequestConsistent(s, q);
    }
  }

  lemma PendingUntouched(s: State, t: State)
    requires PendingConsistent(s) && t.pending == s.pending && t.requests == s.requests
    ensures PendingConsistent(t)
  {
  }

  lemma StepKeepsInvariant(s: State, e: Event)
    requires Invariant(s) && Enabled(s, e)
    ensures Invariant(Step(s, e))
  {
    hide Invariant;
    match e
    case Lookup => LookupKeeps(s);
    case Deliver => DeliverKeeps(s);
    case Read(_) => ReadOrDispatchKeeps(s, e);
    case Dispatch(_) => ReadOrDispatchKeeps(s, e);
    case Register(r, t) => RegisterKeeps(s, r, t);
    case _ => RequesterStep(s, e, e.request);
  }

  // ---- Runs ----

  /** The state after a run of events; None when one of them cannot happen there. */
  function After(events: seq<Event>): Option<State>
    decreases |events|
  {
    if events == [] then Some(INITIAL)
    else
      var before, e := After(events[..|events| - 1]), events[|events| - 1];
      if before.None? || !Enabled(before.value, e) then None
      else Some(Step(before.value, e))
  }

  lemma {:induction false} RunKeepsInvariant(events: seq<Event>)
    requires After(events).Some?
    ensures Invariant(After(events).value)
    decreases |events|
  {
    if events != [] {
      var before := events[..|events| - 1];
      RunKeepsInvariant(before);
      StepKeepsInvariant(After(before).value, events[|events| - 1]);
    }
  }

  /** `sendRequest` returns only the reply that bears its own transaction, and the first one at that. */
  lemma ReplyIsOwn(events: seq<Event>, r: RequestId)
    requires After(events).Some? && r in After(events).value.requests
    requires Result(After(events).value.requests[r]).Some?
    ensures var s := After(events).value;
            var m := Result(s.requests[r]).value;
            && m < |s.received| && s.received[m] == s.requests[r].transaction
            && r in s.firstReply && m == s.firstReply[r]
  {
    RunKeepsInvariant(events);
    assert RequestConsistent(After(events).value, r);
  }

  /** No message is in two requests' hands, and none that is was queued as well. */
  lemma OnePlaceEach(events: seq<Event>, q: RequestId, r: RequestId, m: nat)
    requires After(events).Some?
    requires var s := After(events).value;
             && q in s.requests && (s.requests[q].channel == Some(m) || Result(s.requests[q]) == Some(m))
             && r in s.requests && (s.requests[r].channel == Some(m) || Result(s.requests[r]) == Some(m))
    ensures q == r && m < |After(events).value.places| && After(events).value.places[m] == ToRequest(r)
  {
    RunKeepsInvariant(events);
    assert RequestConsistent(After(events).value, q) && RequestConsistent(After(events).value, r);
  }

  /** Once the reader has dealt with it, the first reply read while a request is registered is that request's. */
  lemma FirstReplyArrives(events: seq<Event>, r: RequestId)
    requires After(events).Some? && r in After(events).value.firstReply
    ensures var s := After(events).value;
            var m := s.firstReply[r];
            || s.reader == Found(m, r)
            || (m < |s.places| && s.places[m] == ToRequest(r))
  {
    RunKeepsInvariant(events);
    assert RequestConsistent(After(events).value, r);
  }

  // ---- The same, told by the events alone ----

  /** The transactions of the messages read, in order. */
  function Reads(events: seq<Event>): seq<Transaction> {
    if events == [] then []
    else
      var e := events[|events| - 1];
      Reads(events[..|events| - 1]) + (if e.Read? then [e.transaction] else [])
  }

  /** The event at `at` is the lookup of message `m`. */
  predicate LooksUp(events: seq<Event>, m: nat, at: nat) {
    at < |events| && events[at] == Lookup && |Reads(events[..at])| == m + 1
  }

  /** At `at`, request `r` had been registered, at `from`, for the transaction and not yet cleaned up. */
  predicate RegisteredAt(events: seq<Event>, r: RequestId, t: Transaction, from: nat, at: nat) {
    from < at <= |events| && events[from] == Register(r, t) && Cleanup(r) !in events[..at]
  }

  /** A message bearing the transaction was looked up between `from` and `at`. */
  ghost predicate AnsweredBetween(events: seq<Event>, t: Transaction, from: nat, at: nat) {
    exists m: nat, k: nat :: from < k < at && LooksUp(events, m, k) && m < |Reads(events)| && Reads(events)[m] == t
  }

  lemma {:induction false} ReadsPrefix(events: seq<Event>, n: nat)
    requires n <= |events|
    ensures Reads(events[..n]) <= Reads(events)
    decreases |events|
  {
    if n < |events| {
      var before := events[..|events| - 1];
      ReadsPrefix(before, n);
      assert before[..n] == events[..n];
    } else {
      assert events[..n] == events;
    }
  }

  lemma {:induction false} PrefixRuns(events: seq<Event>, n: nat)
    requires After(events).Some? && n <= |events|
    ensures After(events[..n]).Some?
    decreases |events|
  {
    if n < |events| {
      var before := events[..|events| - 1];
      PrefixRuns(before, n);
      assert before[..n] == events[..n];
    } else {
      assert events[..n] == events;
    }
  }

  lemma LooksUpLater(before: seq<Event>, e: Event, m: nat, at: nat)
    requires at < |before|
    ensures LooksUp(before + [e], m, at) == LooksUp(before, m, at)
    ensures Reads(before) <= Reads(before + [e])
  {
    assert (before + [e])[..at] == before[..at];
    assert (before + [e])[..|before|] == before;
  }

  lemma RegisteredLater(before: seq<Event>, e: Event, r: RequestId, t: Transaction, from: nat, at: nat)
    requires at <= |before|
    ensures RegisteredAt(before + [e], r, t, from, at) == RegisteredAt(before, r, t, from, at)
  {
    assert (before + [e])[..at] == before[..at];
  }

  /** The requests of a state are those registered, and the finished ones those cleaned up. */
  lemma {:induction false} RequestsAreRegistered(events: seq<Event>, r: RequestId, t: Transaction)
    requires After(events).Some?
    ensures var s := After(events).value;
            && s.received == Reads(events)
            && (Register(r, t) in events <==> r in s.requests && s.requests[r].transaction == t)
            && (Cleanup(r) in events <==> r in s.requests && s.requests[r].phase.Done?)
    decreases |events|
  {
    if events != [] {
      var before, e := events[..|events| - 1], events[|events| - 1];
      RequestsAreRegistered(before, r, t);
      RunKeepsInvariant(before);
      assert events == before + [e];
      OneRequestStep(After(before).value, e, r, t);
    }
  }

  lemma OneRequestStep(s: State, e: Event, r: RequestId, t: Transaction)
    requires Invariant(s) && Enabled(s, e)
    ensures var u := Step(s, e);
            && u.received == s.received + (if e.Read? then [e.transaction] else [])
            && (r in u.requests && u.requests[r].transaction == t <==>
                  (r in s.requests && s.requests[r].transaction == t) || e == Register(r, t))
            && (r in u.requests && u.requests[r].phase.Done? <==>
                  (r in s.requests && s.requests[r].phase.Done?) || e == Cleanup(r))
  {
    hide PendingConsistent, RequestConsistent, DistinctTransactions;
  }

  /** Some request was registered for the message's transaction when the message was looked up, at `at`. */
  ghost predicate MatchedAt(events: seq<Event>, m: nat, r: RequestId, at: nat) {
    && LooksUp(events, m, at) && m < |Reads(events)|
    && exists from: nat :: RegisteredAt(events, r, Reads(events)[m], from, at)
  }

  ghost predicate Matched(events: seq<Event>, m: nat, r: RequestId) {
    exists at: nat :: MatchedAt(events, m, r, at)
  }

  lemma MatchedLater(before: seq<Event>, e: Event, m: nat, r: RequestId)
    requires Matched(before, m, r)
    ensures Matched(before + [e], m, r)
  {
    hide LooksUp, RegisteredAt, Reads;
    var at: nat :| MatchedAt(before, m, r, at);
    assert at < |before| by { AtInside(before, m, at); }
    LooksUpLater(before, e, m, at);
    var from: nat :| RegisteredAt(before, r, Reads(before)[m], from, at);
    RegisteredLater(before, e, r, Reads(before)[m], from, at);
    assert MatchedAt(before + [e], m, r, at);
  }

  lemma AtInside(events: seq<Event>, m: nat, at: nat)
    requires LooksUp(events, m, at)
    ensures at < |events|
  {
  }

  /** The pending requests are those registered and not cleaned up. */
  lemma PendingIffRegistered(events: seq<Event>, r: RequestId, t: Transaction)
    requires After(events).Some?
    ensures var s := After(events).value;
            (t in s.pending && s.pending[t] == r) <==>
            (exists from: nat :: RegisteredAt(events, r, t, from, |events|))
  {
    RunKeepsInvariant(events);
    RequestsAreRegistered(events, r, t);
    hide After, RequestConsistent, ReaderConsistent;
    assert events[..|events|] == events;
    var s := After(events).value;
    if t in s.pending && s.pending[t] == r {
      var from: nat :| from < |events| && events[from] == Register(r, t);
      assert RegisteredAt(events, r, t, from, |events|);
    }
  }

  /** The lookup that the run is about to make, of the last message read. */
  lemma LookupNow(before: seq<Event>, r: RequestId)
    requires After(before + [Lookup]).Some?
    ensures After(before).Some? && Enabled(After(before).value, Lookup) && Invariant(After(before).value)
    ensures var s := After(before).value;
            var m := s.reader.message;
            && s.received == Reads(before) && LooksUp(before + [Lookup], m, |before|) && m < |Reads(before)|
            && Reads(before + [Lookup]) == Reads(before)
            && (s.received[m] in s.pending && s.pending[s.received[m]] == r <==>
                  exists from: nat :: RegisteredAt(before + [Lookup], r, Reads(before)[m], from, |before|))
  {
    var events := before + [Lookup];
    assert events[..|before|] == before;
    RunKeepsInvariant(before);
    hide RequestConsistent, PendingConsistent;
    var s := After(before).value;
    var t := s.received[s.reader.message];
    RequestsAreRegistered(before, r, t);
    PendingIffRegistered(before, r, t);
    forall from: nat ensures RegisteredAt(events, r, t, from, |before|) == RegisteredAt(before, r, t, from, |before|) {
      RegisteredLater(before, Lookup, r, t, from, |before|);
    }
  }

  ghost predicate Looked(events: seq<Event>, m: nat) {
    exists at: nat :: LooksUp(events, m, at)
  }

  lemma LookedLater(before: seq<Event>, e: Event, m: nat)
    requires Looked(before, m)
    ensures Looked(before + [e], m)
  {
    hide LooksUp, Reads;
    var at: nat :| LooksUp(before, m, at);
    AtInside(before, m, at);
    LooksUpLater(before, e, m, at);
  }

  /** Where the messages are, told by the events. */
  ghost predicate Told(events: seq<Event>, s: State) {
    && (forall m: nat :: m < |s.places| ==> Looked(events, m))
    && (s.reader.Found? || s.reader.Unclaimed? ==> Looked(events, s.reader.message))
    && (forall m: nat, r :: m < |s.places| && s.places[m] == ToRequest(r) ==> Matched(events, m, r))
    && (s.reader.Found? ==> Matched(events, s.reader.message, s.reader.request))
    && (forall r :: r in s.firstReply ==> Matched(events, s.firstReply[r], r))
  }

  lemma ToldLookup(before: seq<Event>)
    requires After(before + [Lookup]).Some? && After(before).Some? && Told(before, After(before).value)
    ensures Told(before + [Lookup], After(before + [Lookup]).value)
  {
    hide Looked, Matched, LooksUp, Reads;
    var s, events := After(before).value, before + [Lookup];
    assert events[..|before|] == before;
    LookupNow(before, 0);
    var m := s.reader.message;
    assert Looked(events, m) by { Witness(events, m, |before|); }
    forall k: nat | Looked(before, k) ensures Looked(events, k) { LookedLater(before, Lookup, k); }
    forall k: nat, r | Matched(before, k, r) ensures Matched(events, k, r) { MatchedLater(before, Lookup, k, r); }
    if s.received[m] in s.pending {
      var r := s.pending[s.received[m]];
      LookupNow(before, r);
      MatchedNow(events, m, r, |before|);
    }
  }

  lemma Witness(events: seq<Event>, m: nat, at: nat)
    requires LooksUp(events, m, at)
    ensures Looked(events, m)
  {
  }

  lemma MatchedNow(events: seq<Event>, m: nat, r: RequestId, at: nat)
    requires LooksUp(events, m, at) && m < |Reads(events)|
    requires exists from: nat :: RegisteredAt(events, r, Reads(events)[m], from, at)
    ensures Matched(events, m, r)
  {
    assert MatchedAt(events, m, r, at);
  }

  /** What the other steps do to the reader and to the places. */
  lemma OtherEffects(s: State, e: Event)
    requires ReaderConsistent(s) && Enabled(s, e) && e != Lookup
    ensures var u := Step(s, e);
            && u.firstReply == s.firstReply
            && (u.reader.Found? ==> s.reader == u.reader)
            && (u.reader.Unclaimed? ==>
                  (s.reader.Found? || s.reader.Unclaimed?) && s.reader.message == u.reader.message)
            && (u.places == s.places ||
                ((s.reader.Found? || s.reader.Unclaimed?) && s.reader.message == |s.places| &&
                 exists place :: u.places == s.places + [place] &&
                                 (place.ToRequest? ==> s.reader == Found(s.reader.message, place.request))))
  {
    if e.Deliver? && s.requests[s.reader.request].channel == None {
      assert Step(s, e).places == s.places + [ToRequest(s.reader.request)];
    }
    if e.Dispatch? {
      assert Step(s, e).places == s.places + [if e.queued then ToQueue else Dropped];
    }
  }

  lemma ToldOther(before: seq<Event>, e: Event)
    requires e != Lookup && After(before + [e]).Some? && After(before).Some? && Told(before, After(before).value)
    ensures Told(before + [e], After(before + [e]).value)
  {
    var s, events := After(before).value, before + [e];
    assert events[..|before|] == before;
    RunKeepsInvariant(before);
    OtherEffects(s, e);
    forall k: nat | Looked(before, k) ensures Looked(events, k) { LookedLater(before, e, k); }
    forall k: nat, r | Matched(before, k, r) ensures Matched(events, k, r) { MatchedLater(before, e, k, r); }
    ToldFrom(before, s, events, Step(s, e));
  }

  lemma ToldFrom(before: seq<Event>, s: State, events: seq<Event>, u: State)
    requires Told(before, s)
    requires forall k: nat :: Looked(before, k) ==> Looked(events, k)
    requires forall k: nat, r :: Matched(before, k, r) ==> Matched(events, k, r)
    requires u.firstReply == s.firstReply && (u.reader.Found? ==> s.reader == u.reader)
    requires u.reader.Unclaimed? ==> (s.reader.Found? || s.reader.Unclaimed?) && s.reader.message == u.reader.message
    requires u.places == s.places ||
             ((s.reader.Found? || s.reader.Unclaimed?) && s.reader.message == |s.places| &&
              exists place :: u.places == s.places + [place] &&
                              (place.ToRequest? ==> s.reader == Found(s.reader.message, place.request)))
    ensures Told(events, u)
  {
    hide Looked, Matched;
  }

  lemma {:induction false} RunIsTold(events: seq<Event>)
    requires After(events).Some?
    ensures Told(events, After(events).value)
    decreases |events|
  {
    hide Told;
    if events == [] {
      assert Told([], INITIAL) by { NothingTold(); }
    } else {
      var before, e := events[..|events| - 1], events[|events| - 1];
      assert events == before + [e];
      RunIsTold(before);
      if e == Lookup { ToldLookup(before); } else { ToldOther(before, e); }
    }
  }

  lemma NothingTold()
    ensures Told([], INITIAL)
  {
  }

  lemma RegisteredOnce(events: seq<Event>, r: RequestId, t: Transaction, u: Transaction, i: nat, j: nat)
    requires After(events).Some? && i < |events| && j < |events|
    requires events[i] == Register(r, t) && events[j] == Register(r, u)
    ensures i == j && t == u
  {
    if i != j {
      var a, b := if i < j then i else j, if i < j then j else i;
      PrefixRuns(events, b + 1);
      PrefixRuns(events, b);
      assert events[..b + 1][..b] == events[..b];
      var v := events[a].transaction;
      assert events[..b][a] == Register(r, v);
      RequestsAreRegistered(events[..b], r, v);
    }
  }

  lemma {:induction false} FirstReplyStays(events: seq<Event>, n: nat, r: RequestId)
    requires After(events).Some? && n <= |events| && After(events[..n]).Some?
    requires r in After(events[..n]).value.firstReply
    ensures r in After(events).value.firstReply
    ensures After(events).value.firstReply[r] == After(events[..n]).value.firstReply[r]
    decreases |events|
  {
    hide Step, Enabled;
    if n == |events| {
      assert events[..n] == events;
    } else {
      var before := events[..|events| - 1];
      assert before[..n] == events[..n];
      FirstReplyStays(before, n, r);
      FirstReplyStep(After(before).value, events[|events| - 1], r);
    }
  }

  lemma FirstReplyStep(s: State, e: Event, r: RequestId)
    requires Enabled(s, e) && r in s.firstReply
    ensures r in Step(s, e).firstReply && Step(s, e).firstReply[r] == s.firstReply[r]
  {
  }

  /** If the request had already been answered in the state before, an earlier lookup had found it. */
  lemma AnsweredBefore(events: seq<Event>, r: RequestId, t: Transaction, from: nat, at: nat)
    requires After(events).Some? && at <= |events| && After(events[..at]).Some?
    requires RegisteredAt(events, r, t, from, at) && r in After(events[..at]).value.firstReply
    ensures AnsweredBetween(events, t, from, at)
  {
    hide Reads, After;
    var before := events[..at];
    RunIsTold(before);
    var n := After(before).value.firstReply[r];
    var k: nat :| MatchedAt(before, n, r, k);
    var from': nat :| RegisteredAt(before, r, Reads(before)[n], from', k);
    assert before[from] == events[from];
    RegisteredOnce(before, r, t, Reads(before)[n], from, from');
    ReadsPrefix(events, at);
    assert before[..k] == events[..k];
    assert LooksUp(events, n, k);
  }

  lemma LookupStep(p: State, r: RequestId)
    requires Enabled(p, Lookup) && p.reader.message < |p.received|
    requires p.received[p.reader.message] in p.pending && p.pending[p.received[p.reader.message]] == r
    requires r !in p.firstReply
    ensures var u := Step(p, Lookup); r in u.firstReply && u.firstReply[r] == p.reader.message
  {
  }

  /** The lookup that finds a request unanswered makes the message its first reply. */
  lemma LookupFinds(events: seq<Event>, r: RequestId, t: Transaction, from: nat, m: nat, at: nat)
    requires After(events).Some? && LooksUp(events, m, at) && RegisteredAt(events, r, t, from, at)
    requires m < |Reads(events)| && Reads(events)[m] == t && !AnsweredBetween(events, t, from, at)
    ensures After(events[..at + 1]).Some? && r in After(events[..at + 1]).value.firstReply
    ensures After(events[..at + 1]).value.firstReply[r] == m
  {
    hide AnsweredBetween, Reads, Step, Invariant;
    var before, looked := events[..at], events[..at + 1];
    assert looked == before + [Lookup] && looked[..at] == before;
    PrefixRuns(events, at + 1);
    LookupNow(before, r);
    var p := After(before).value;
    SameLookup(events, looked, m, p.reader.message, at);
    ReadsPrefix(events, at);
    assert RegisteredAt(looked, r, t, from, at);
    if r in p.firstReply { AnsweredBefore(events, r, t, from, at); }
    LookupStep(p, r);
  }

  lemma FirstReplyInChannel(s: State, r: RequestId, m: nat)
    requires Invariant(s) && r in s.firstReply && s.firstReply[r] == m < |s.places|
    ensures r in s.requests && s.places[m] == ToRequest(r)
    ensures s.requests[r].phase == Registered || s.requests[r].phase == Waiting ==> s.requests[r].channel == Some(m)
  {
    assert RequestConsistent(s, r);
  }

  /**
   A reply finds its request. Request `r` has been registered for transaction `t` and not cleaned up
   when message `m`, which bears `t`, is looked up, and no message bearing `t` was looked up in
   between. Then, once `m` has been put anywhere, it has been put in that request's channel, and
   there it stays until the requester takes it.
   */
  lemma FirstReplyReachesRequest(events: seq<Event>, r: RequestId, t: Transaction, from: nat, m: nat, at: nat)
    requires After(events).Some? && LooksUp(events, m, at) && RegisteredAt(events, r, t, from, at)
    requires m < |Reads(events)| && Reads(events)[m] == t && !AnsweredBetween(events, t, from, at)
    requires m < |After(events).value.places|
    ensures var s := After(events).value;
            && s.places[m] == ToRequest(r)
            && r in s.requests
            && (s.requests[r].phase == Registered || s.requests[r].phase == Waiting ==>
                  s.requests[r].channel == Some(m))
  {
    hide AnsweredBetween, Reads, RegisteredAt, After, Invariant;
    LookupFinds(events, r, t, from, m, at);
    FirstReplyStays(events, at + 1, r);
    RunKeepsInvariant(events);
    FirstReplyInChannel(After(events).value, r, m);
  }

  lemma SameLookup(events: seq<Event>, looked: seq<Event>, m: nat, n: nat, at: nat)
    requires at < |events| && looked == events[..at + 1] && LooksUp(events, m, at) && LooksUp(looked, n, at)
    ensures m == n
  {
    assert looked[..at] == events[..at];
  }

  /**
   A message goes elsewhere only if no request was registered for it when it was looked up, or the
   request had been answered: every message that has been put anywhere was looked up, and one that is
   not in a channel found each registered request answered.
   */
  lemma ElsewhereOnlyIfAnswered(events: seq<Event>, m: nat) returns (at: nat)
    requires After(events).Some? && m < |After(events).value.places|
    ensures LooksUp(events, m, at) && m < |Reads(events)|
    ensures !After(events).value.places[m].ToRequest? ==>
              forall r, from: nat :: RegisteredAt(events, r, Reads(events)[m], from, at) ==>
                AnsweredBetween(events, Reads(events)[m], from, at)
  {
    hide LooksUp, RegisteredAt, AnsweredBetween, Reads;
    RunIsTold(events);
    RunKeepsInvariant(events);
    RequestsAreRegistered(events, 0, 0);
    assert Looked(events, m);
    at :| LooksUp(events, m, at);
    if !After(events).value.places[m].ToRequest? {
      forall r, from: nat | RegisteredAt(events, r, Reads(events)[m], from, at)
        ensures AnsweredBetween(events, Reads(events)[m], from, at)
      {
        if !AnsweredBetween(events, Reads(events)[m], from, at) {
          FirstReplyReachesRequest(events, r, Reads(events)[m], from, m, at);
        }
      }
    }
  }

  /** A message is put in a channel only if that request was registered for it when it was looked up. */
  lemma DeliveredWasRegistered(events: seq<Event>, m: nat, r: RequestId)
    requires After(events).Some? && m < |After(events).value.places|
    requires After(events).value.places[m] == ToRequest(r)
    ensures Matched(events, m, r)
  {
    RunIsTold(events);
  }

  // ---- Nothing waits for ever on the model ----

  /** A request returns a message exactly when it received one; a failed write or a timeout returns none. */
  lemma {:induction false} ResultIffReceived(events: seq<Event>, r: RequestId)
    requires After(events).Some?
    ensures var s := After(events).value;
            Receive(r) in events <==> r in s.requests && Result(s.requests[r]).Some?
    decreases |events|
  {
    if events != [] {
      var before, e := events[..|events| - 1], events[|events| - 1];
      ResultIffReceived(before, r);
      assert events == before + [e];
      OneResultStep(After(before).value, e, r);
    }
  }

  lemma OneResultStep(s: State, e: Event, r: RequestId)
    requires Enabled(s, e)
    ensures var u := Step(s, e);
            r in u.requests && Result(u.requests[r]).Some? <==>
            (r in s.requests && Result(s.requests[r]).Some?) || e == Receive(r)
  {
  }

  /** In every reachable state the reader can go on. */
  lemma ReaderNeverStuck(events: seq<Event>)
    requires After(events).Some?
    ensures var s := After(events).value;
            || Enabled(s, Read(0)) || Enabled(s, Lookup) || Enabled(s, Deliver) || Enabled(s, Dispatch(true))
  {
    RunKeepsInvariant(events);
  }

  /** So can every request that is not done; with a reply in its channel, it can receive it. */
  lemma RequesterNeverStuck(events: seq<Event>, r: RequestId)
    requires After(events).Some? && r in After(events).value.requests
    requires !After(events).value.requests[r].phase.Done?
    ensures var s := After(events).value;
            && (Enabled(s, Write(r, true)) || Enabled(s, TimeOut(r)) || Enabled(s, Cleanup(r)))
            && (s.requests[r].phase == Waiting && s.requests[r].channel.Some? ==> Enabled(s, Receive(r)))
  {
  }
}
