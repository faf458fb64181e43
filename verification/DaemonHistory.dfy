/**
 What the daemon holds, told by the history of events alone: who is paired, who is always allowed input,
 which worker serves whom, who is connected, who owns input, and who was told to stop.
 */
module DaemonHistory {
  import opened Sequences
  import opened DaemonModel

  type Events = seq<Event>

  function StateAt(events: Events, n: nat): Option<State>
    requires n <= |events|
  {
    After(events[..n])
  }

  /** A run that is possible is possible up to every event, and the event is possible there. */
  lemma {:induction false} StepAt(events: Events, n: nat)
    requires n < |events| && StateAt(events, n + 1).Some?
    ensures StateAt(events, n).Some? && Enabled(StateAt(events, n).value, events[n])
    ensures StateAt(events, n + 1).value == Step(StateAt(events, n).value, events[n])
    ensures Invariant(StateAt(events, n).value)
  {
    hide Enabled, Step, Invariant;
    assert events[..n + 1][..n] == events[..n];
    RunKeepsInvariant(events[..n]);
  }

  // ---- The history ----

  ghost predicate PairedBy(events: Events, n: nat, id: Id)
    requires n <= |events|
  {
    exists i :: 0 <= i < n && events[i] == Pair(id) && forall j :: i < j < n ==> events[j] != Forget(id)
  }

  predicate AllowsAlways(e: Event, id: Id) {
    e.SetInputAuto? && e.id == id && e.enabled
  }

  predicate EndsAlways(e: Event, id: Id) {
    e == Forget(id) || (e.SetInputAuto? && e.id == id && !e.enabled)
  }

  /** The phone was paired when the user chose to always allow it, and that choice still stands. */
  ghost predicate AllowedBy(events: Events, n: nat, id: Id)
    requires n <= |events|
  {
    exists i :: 0 <= i < n && AllowsAlways(events[i], id) && PairedBy(events, i, id)
                && forall j :: i < j < n ==> !EndsAlways(events[j], id)
  }

  /** The phone that a worker was last started for. */
  function PeerBy(events: Events, n: nat, w: Worker): Option<Id>
    requires n <= |events|
  {
    if n == 0 then None
    else if events[n - 1].Start? && events[n - 1].worker == w then Some(events[n - 1].id)
    else PeerBy(events, n - 1, w)
  }

  /** The worker was started while the phone was paired and had no session, and has not been cleared. */
  ghost predicate SessionBy(events: Events, n: nat, id: Id, w: Worker)
    requires n <= |events|
    decreases n
  {
    exists i :: 0 <= i < n && events[i] == Start(id, w) && PairedBy(events, i, id)
                && (forall v :: !SessionBy(events, i, id, v)) && forall j :: i < j < n ==> events[j] != Clear(w)
  }

  predicate ConnectsPeer(events: Events, i: nat, id: Id)
    requires i < |events|
  {
    events[i].Connect? && PeerBy(events, i, events[i].worker) == Some(id)
  }

  predicate EndsConnection(events: Events, i: nat, id: Id)
    requires i < |events|
  {
    (events[i].DialFailed? || events[i].Lost? || events[i].Clear?) && PeerBy(events, i, events[i].worker) == Some(id)
  }

  /** The phone's latest connection is `c`, and it still stands. */
  ghost predicate ConnectedBy(events: Events, n: nat, id: Id, c: nat)
    requires n <= |events|
  {
    exists i :: 0 <= i < n && ConnectsPeer(events, i, id) && events[i].connection == c
                && forall j :: i < j < n ==> !ConnectsPeer(events, j, id) && !EndsConnection(events, j, id)
  }

  predicate TakesInput(events: Events, i: nat, id: Id)
    requires i < |events|
  {
    events[i] == SetInputEnabled(id, false) || events[i] == Forget(id) || events[i] == Shutdown
    || EndsConnection(events, i, id)
  }

  /**
   The event asks for input for the phone and may have it: the user enables it, or always allows it from now
   on, while the phone is paired and connected; or the phone connects and is always allowed.
   */
  ghost predicate AsksForInput(events: Events, i: nat, id: Id)
    requires i < |events|
  {
    var enables := events[i] == SetInputEnabled(id, true) || events[i] == SetInputAuto(id, true, true);
    || (enables && PairedBy(events, i, id) && exists c :: ConnectedBy(events, i, id, c))
    || (ConnectsPeer(events, i, id) && AllowedBy(events, i, id))
  }

  /** The phone asked while no other phone owned input, and nothing has taken input from it since. */
  ghost predicate OwnsBy(events: Events, n: nat, id: Id)
    requires n <= |events|
    decreases n
  {
    exists i :: 0 <= i < n && AsksForInput(events, i, id) && (forall x :: x != id ==> !OwnsBy(events, i, x))
                && forall j :: i < j < n ==> !TakesInput(events, j, id)
  }

  /** The worker had a session when its phone was disconnected or forgotten, or the daemon shut down. */
  ghost predicate CancelledBy(events: Events, n: nat, w: Worker)
    requires n <= |events|
  {
    exists i, id :: 0 <= i < n && SessionBy(events, i, id, w)
                    && (events[i] == Disconnect(id) || events[i] == Forget(id) || events[i] == Shutdown)
  }

  // ---- One event more ----

  lemma PairedStep(events: Events, n: nat, id: Id)
    requires n < |events|
    ensures PairedBy(events, n + 1, id) <==>
            events[n] == Pair(id) || (PairedBy(events, n, id) && events[n] != Forget(id))
  {
    if PairedBy(events, n, id) && events[n] != Forget(id) {
      var i :| 0 <= i < n && events[i] == Pair(id) && forall j :: i < j < n ==> events[j] != Forget(id);
      assert forall j :: i < j < n + 1 ==> events[j] != Forget(id);
    }
  }

  lemma AllowedStep(events: Events, n: nat, id: Id)
    requires n < |events|
    ensures AllowedBy(events, n + 1, id) <==>
            || (AllowsAlways(events[n], id) && PairedBy(events, n, id))
            || (AllowedBy(events, n, id) && !EndsAlways(events[n], id))
  {
    hide PairedBy, AllowsAlways, EndsAlways;
    if AllowedBy(events, n, id) && !EndsAlways(events[n], id) {
      var i :| 0 <= i < n && AllowsAlways(events[i], id) && PairedBy(events, i, id)
               && forall j :: i < j < n ==> !EndsAlways(events[j], id);
      assert forall j :: i < j < n + 1 ==> !EndsAlways(events[j], id);
    }
  }

  ghost predicate NoSessionBy(events: Events, n: nat, id: Id)
    requires n <= |events|
  {
    forall v :: !SessionBy(events, n, id, v)
  }

  lemma SessionStarts(events: Events, n: nat, id: Id, w: Worker)
    requires n < |events| && events[n] == Start(id, w) && PairedBy(events, n, id) && NoSessionBy(events, n, id)
    ensures SessionBy(events, n + 1, id, w)
  {
    hide PairedBy;
    forall v ensures !SessionBy(events, n, id, v) {
    }
  }

  lemma SessionStep(events: Events, n: nat, id: Id, w: Worker)
    requires n < |events|
    ensures SessionBy(events, n + 1, id, w) <==>
            || (events[n] == Start(id, w) && PairedBy(events, n, id) && NoSessionBy(events, n, id))
            || (SessionBy(events, n, id, w) && events[n] != Clear(w))
  {
    hide PairedBy;
    if SessionBy(events, n + 1, id, w) {
      var i :| 0 <= i < n + 1 && events[i] == Start(id, w) && PairedBy(events, i, id)
               && (forall v :: !SessionBy(events, i, id, v)) && forall j :: i < j < n + 1 ==> events[j] != Clear(w);
      assert i < n ==> events[n] != Clear(w);
    } else if SessionBy(events, n, id, w) {
      var i :| 0 <= i < n && events[i] == Start(id, w) && PairedBy(events, i, id)
               && (forall v :: !SessionBy(events, i, id, v)) && forall j :: i < j < n ==> events[j] != Clear(w);
      assert events[n] == Clear(w);
    } else if events[n] == Start(id, w) && PairedBy(events, n, id) && NoSessionBy(events, n, id) {
      SessionStarts(events, n, id, w);
    }
  }

  lemma ConnectedStep(events: Events, n: nat, id: Id, c: nat)
    requires n < |events|
    ensures ConnectsPeer(events, n, id) ==> events[n].Connect?
    ensures ConnectedBy(events, n + 1, id, c) <==>
            || (ConnectsPeer(events, n, id) && events[n].connection == c)
            || (ConnectedBy(events, n, id, c) && !ConnectsPeer(events, n, id) && !EndsConnection(events, n, id))
  {
    hide EndsConnection, PeerBy;
    if ConnectedBy(events, n, id, c) && !ConnectsPeer(events, n, id) && !EndsConnection(events, n, id) {
      var i :| 0 <= i < n && ConnectsPeer(events, i, id) && events[i].connection == c
               && forall j :: i < j < n ==> !ConnectsPeer(events, j, id) && !EndsConnection(events, j, id);
      assert forall j :: i < j < n + 1 ==> !ConnectsPeer(events, j, id) && !EndsConnection(events, j, id);
    }
  }

  ghost predicate NoOtherBy(events: Events, n: nat, id: Id)
    requires n <= |events|
  {
    forall x :: x != id ==> !OwnsBy(events, n, x)
  }

  lemma AskedAndGiven(events: Events, n: nat, id: Id)
    requires n < |events| && AsksForInput(events, n, id) && NoOtherBy(events, n, id)
    ensures OwnsBy(events, n + 1, id)
  {
    hide AsksForInput, TakesInput;
    forall x | x != id ensures !OwnsBy(events, n, x) {
    }
  }

  lemma OwnsStep(events: Events, n: nat, id: Id)
    requires n < |events|
    ensures OwnsBy(events, n + 1, id) <==>
            || (AsksForInput(events, n, id) && NoOtherBy(events, n, id))
            || (OwnsBy(events, n, id) && !TakesInput(events, n, id))
  {
    hide AsksForInput, TakesInput;
    if OwnsBy(events, n + 1, id) {
      var i :| 0 <= i < n + 1 && AsksForInput(events, i, id) && (forall x :: x != id ==> !OwnsBy(events, i, x))
               && forall j :: i < j < n + 1 ==> !TakesInput(events, j, id);
      assert i < n ==> !TakesInput(events, n, id);
    } else if OwnsBy(events, n, id) {
      var i :| 0 <= i < n && AsksForInput(events, i, id) && (forall x :: x != id ==> !OwnsBy(events, i, x))
               && forall j :: i < j < n ==> !TakesInput(events, j, id);
      assert TakesInput(events, n, id);
    }
    if AsksForInput(events, n, id) && NoOtherBy(events, n, id) {
      AskedAndGiven(events, n, id);
    }
  }

  lemma CancelledStep(events: Events, n: nat, w: Worker)
    requires n < |events|
    ensures CancelledBy(events, n + 1, w) <==>
            || CancelledBy(events, n, w)
            || exists id :: SessionBy(events, n, id, w)
                 && (events[n] == Disconnect(id) || events[n] == Forget(id) || events[n] == Shutdown)
  {
    hide SessionBy;
    if CancelledBy(events, n + 1, w) {
      var i, id :| 0 <= i < n + 1 && SessionBy(events, i, id, w)
                   && (events[i] == Disconnect(id) || events[i] == Forget(id) || events[i] == Shutdown);
      assert i < n ==> CancelledBy(events, n, w);
    } else if CancelledBy(events, n, w) {
      var i, id :| 0 <= i < n && SessionBy(events, i, id, w)
                   && (events[i] == Disconnect(id) || events[i] == Forget(id) || events[i] == Shutdown);
      assert false;
    }
  }

  // ---- The state follows the history ----

  lemma NothingAtFirst(events: Events, id: Id, w: Worker, c: nat)
    ensures StateAt(events, 0) == Some(INITIAL)
    ensures id !in INITIAL.paired && id !in INITIAL.inputAuto && w !in INITIAL.workers && w !in INITIAL.cancelled
    ensures INITIAL.inputOwner == "" && !HasSession(INITIAL, id, w) && !HasConnection(INITIAL, id, c)
    ensures !PairedBy(events, 0, id) && !AllowedBy(events, 0, id) && !SessionBy(events, 0, id, w)
    ensures !ConnectedBy(events, 0, id, c) && !OwnsBy(events, 0, id) && !CancelledBy(events, 0, w)
  {
  }

  lemma PairedAfter(s: State, e: Event, id: Id)
    requires Enabled(s, e)
    ensures id in Step(s, e).paired <==> e == Pair(id) || (id in s.paired && e != Forget(id))
  {
    hide IsEnabled, IsConnected, InPhase;
  }

  lemma {:induction false} PairedIff(events: Events, n: nat, id: Id)
    requires n <= |events| && StateAt(events, n).Some?
    ensures id in StateAt(events, n).value.paired <==> PairedBy(events, n, id)
  {
    hide *;
    if n == 0 {
      NothingAtFirst(events, id, 0, 0);
    } else {
      StepAt(events, n - 1);
      PairedIff(events, n - 1, id);
      PairedStep(events, n - 1, id);
      PairedAfter(StateAt(events, n - 1).value, events[n - 1], id);
    }
  }

  lemma AllowedAfter(s: State, e: Event, id: Id)
    requires Enabled(s, e) && IdsProper(s)
    ensures id in Step(s, e).inputAuto <==>
            (AllowsAlways(e, id) && id in s.paired) || (id in s.inputAuto && !EndsAlways(e, id))
  {
    hide IsEnabled, IsConnected, InPhase;
  }

  lemma {:induction false} AllowedIff(events: Events, n: nat, id: Id)
    requires n <= |events| && StateAt(events, n).Some?
    ensures id in StateAt(events, n).value.inputAuto <==> AllowedBy(events, n, id)
  {
    hide PairedBy, AllowedBy, StateAt, Step, Enabled, AllowsAlways, EndsAlways, OneWorkerEach, ActiveWhileConnected,
         InputConsistent, IdsProper;
    if n == 0 {
      NothingAtFirst(events, id, 0, 0);
    } else {
      StepAt(events, n - 1);
      AllowedIff(events, n - 1, id);
      PairedIff(events, n - 1, id);
      AllowedStep(events, n - 1, id);
      AllowedAfter(StateAt(events, n - 1).value, events[n - 1], id);
    }
  }

  predicate WorksFor(s: State, w: Worker, id: Id) {
    w in s.workers && s.workers[w].peer == id
  }

  lemma WorkersAfter(s: State, e: Event, w: Worker)
    requires Enabled(s, e) && w in Step(s, e).workers
    ensures if w in s.workers then Step(s, e).workers[w].peer == s.workers[w].peer && !(e.Start? && e.worker == w)
            else e == Start(Step(s, e).workers[w].peer, w)
  {
    hide IsEnabled, IsConnected;
  }

  lemma {:induction false} PeerKnown(events: Events, n: nat, w: Worker)
    requires n <= |events| && StateAt(events, n).Some?
    requires w in StateAt(events, n).value.workers
    ensures PeerBy(events, n, w) == Some(StateAt(events, n).value.workers[w].peer)
  {
    hide StateAt, Step, Enabled, Invariant;
    if n == 0 {
      NothingAtFirst(events, "", 0, 0);
    } else {
      StepAt(events, n - 1);
      var s := StateAt(events, n - 1).value;
      WorkersAfter(s, events[n - 1], w);
      if w in s.workers {
        PeerKnown(events, n - 1, w);
      }
    }
  }

  predicate HasSession(s: State, id: Id, w: Worker) {
    id in s.sessions && s.sessions[id].worker == w
  }

  lemma SessionAfter(s: State, e: Event, id: Id, w: Worker)
    requires Enabled(s, e) && OneWorkerEach(s)
    ensures HasSession(Step(s, e), id, w) <==>
            || (e == Start(id, w) && id in s.paired && id !in s.sessions)
            || (HasSession(s, id, w) && e != Clear(w))
  {
    hide IsEnabled, IsConnected;
    if e.Clear? {
      assert Live(s, e.worker);
    }
  }

  lemma NoSessionIff(s: State, events: Events, n: nat, id: Id)
    requires n <= |events| && forall v :: HasSession(s, id, v) <==> SessionBy(events, n, id, v)
    ensures id !in s.sessions <==> NoSessionBy(events, n, id)
  {
    hide SessionBy;
    assert id in s.sessions ==> HasSession(s, id, s.sessions[id].worker);
  }

  lemma {:induction false} SessionIff(events: Events, n: nat, id: Id, w: Worker)
    requires n <= |events| && StateAt(events, n).Some?
    ensures HasSession(StateAt(events, n).value, id, w) <==> SessionBy(events, n, id, w)
    decreases n
  {
    hide SessionBy, PairedBy, StateAt, Step, Enabled, HasSession, OneWorkerEach, ActiveWhileConnected, IdsProper,
         InputConsistent;
    if n == 0 {
      NothingAtFirst(events, id, w, 0);
    } else {
      StepAt(events, n - 1);
      var s := StateAt(events, n - 1).value;
      forall v ensures HasSession(s, id, v) <==> SessionBy(events, n - 1, id, v) {
        SessionIff(events, n - 1, id, v);
      }
      NoSessionIff(s, events, n - 1, id);
      PairedIff(events, n - 1, id);
      SessionStep(events, n - 1, id, w);
      SessionAfter(s, events[n - 1], id, w);
    }
  }

  predicate HasConnection(s: State, id: Id, c: nat) {
    id in s.sessions && s.sessions[id].active == Some(c)
  }

  predicate PeerConnects(s: State, e: Event, id: Id) {
    e.Connect? && WorksFor(s, e.worker, id)
  }

  predicate PeerEnds(s: State, e: Event, id: Id) {
    (e.DialFailed? || e.Lost? || e.Clear?) && WorksFor(s, e.worker, id)
  }

  lemma ConnectionAfter(s: State, e: Event, id: Id, c: nat)
    requires Enabled(s, e) && Invariant(s)
    ensures PeerConnects(s, e, id) ==> e.Connect?
    ensures HasConnection(Step(s, e), id, c) <==>
            || (PeerConnects(s, e, id) && e.connection == c)
            || (HasConnection(s, id, c) && !PeerConnects(s, e, id) && !PeerEnds(s, e, id))
  {
    hide IsEnabled, IsConnected, InputConsistent, ActiveWhileConnected;
    if e.Connect? || e.DialFailed? || e.Lost? || e.Clear? {
      assert Live(s, e.worker);
    }
  }

  lemma WorkerEventIff(events: Events, n: nat, id: Id)
    requires n < |events| && StateAt(events, n).Some? && Enabled(StateAt(events, n).value, events[n])
    ensures PeerConnects(StateAt(events, n).value, events[n], id) <==> ConnectsPeer(events, n, id)
    ensures PeerEnds(StateAt(events, n).value, events[n], id) <==> EndsConnection(events, n, id)
  {
    hide StateAt, PeerBy;
    var e := events[n];
    if e.Connect? || e.DialFailed? || e.Lost? || e.Clear? {
      PeerKnown(events, n, e.worker);
    }
  }

  lemma {:induction false} ConnectedIff(events: Events, n: nat, id: Id, c: nat)
    requires n <= |events| && StateAt(events, n).Some?
    ensures HasConnection(StateAt(events, n).value, id, c) <==> ConnectedBy(events, n, id, c)
  {
    hide ConnectedBy, StateAt, Step, Enabled, Invariant, PeerConnects, PeerEnds, ConnectsPeer, EndsConnection;
    if n == 0 {
      NothingAtFirst(events, id, 0, c);
    } else {
      StepAt(events, n - 1);
      var s, e := StateAt(events, n - 1).value, events[n - 1];
      ConnectedIff(events, n - 1, id, c);
      ConnectedStep(events, n - 1, id, c);
      WorkerEventIff(events, n - 1, id);
      ConnectionAfter(s, e, id, c);
    }
  }

  predicate Asks(s: State, e: Event, id: Id) {
    || ((e == SetInputEnabled(id, true) || e == SetInputAuto(id, true, true)) && id in s.paired && IsConnected(s, id))
    || (PeerConnects(s, e, id) && id in s.inputAuto)
  }

  predicate Takes(s: State, e: Event, id: Id) {
    e == SetInputEnabled(id, false) || e == Forget(id) || e == Shutdown || PeerEnds(s, e, id)
  }

  lemma OwnerAfterConnect(s: State, w: Worker, c: nat, id: Id)
    requires Enabled(s, Connect(w, c)) && id != ""
    ensures Step(s, Connect(w, c)).inputOwner == id <==>
            || (WorksFor(s, w, id) && id in s.inputAuto && (s.inputOwner == "" || s.inputOwner == id))
            || s.inputOwner == id
  {
  }

  lemma OwnerAfter(s: State, e: Event, id: Id)
    requires Enabled(s, e) && Invariant(s) && id != ""
    ensures Step(s, e).inputOwner == id <==>
            || (Asks(s, e, id) && (s.inputOwner == "" || s.inputOwner == id))
            || (s.inputOwner == id && !Takes(s, e, id))
  {
    hide OneWorkerEach, ActiveWhileConnected, IsEnabled;
    if e.Connect? {
      OwnerAfterConnect(s, e.worker, e.connection, id);
    }
  }

  lemma AsksIff(events: Events, n: nat, id: Id)
    requires n < |events| && StateAt(events, n).Some? && Enabled(StateAt(events, n).value, events[n])
    ensures Asks(StateAt(events, n).value, events[n], id) <==> AsksForInput(events, n, id)
    ensures Takes(StateAt(events, n).value, events[n], id) <==> TakesInput(events, n, id)
  {
    hide PairedBy, AllowedBy, ConnectedBy, StateAt, Enabled, PeerConnects, PeerEnds, ConnectsPeer, EndsConnection;
    var s := StateAt(events, n).value;
    PairedIff(events, n, id);
    AllowedIff(events, n, id);
    WorkerEventIff(events, n, id);
    forall c ensures HasConnection(s, id, c) <==> ConnectedBy(events, n, id, c) {
      ConnectedIff(events, n, id, c);
    }
    assert IsConnected(s, id) ==> HasConnection(s, id, s.sessions[id].active.value);
  }

  lemma {:induction false} PossibleBefore(events: Events, m: nat, n: nat)
    requires m < n <= |events| && StateAt(events, n).Some?
    ensures StateAt(events, m).Some? && Invariant(StateAt(events, m).value)
    ensures Enabled(StateAt(events, m).value, events[m])
    decreases n
  {
    hide StateAt, Enabled, Invariant;
    StepAt(events, n - 1);
    if m < n - 1 {
      PossibleBefore(events, m, n - 1);
    }
  }

  /** "" is no phone. */
  lemma NobodyIsUnnamed(events: Events, n: nat)
    requires n <= |events| && StateAt(events, n).Some?
    ensures !OwnsBy(events, n, "")
  {
    hide StateAt, AsksForInput, TakesInput, Enabled, OneWorkerEach, ActiveWhileConnected, InputConsistent;
    if OwnsBy(events, n, "") {
      var i :| 0 <= i < n && AsksForInput(events, i, "");
      PossibleBefore(events, i, n);
      AsksIff(events, i, "");
      assert false;
    }
  }

  lemma NobodyElse(s: State, events: Events, n: nat, id: Id)
    requires n <= |events| && id != "" && !OwnsBy(events, n, "")
    requires forall x: Id {:trigger OwnsBy(events, n, x)} :: x != "" ==> (s.inputOwner == x <==> OwnsBy(events, n, x))
    ensures s.inputOwner == "" || s.inputOwner == id <==> NoOtherBy(events, n, id)
  {
    hide OwnsBy;
    if s.inputOwner != "" && s.inputOwner != id {
      assert OwnsBy(events, n, s.inputOwner);
    }
  }

  /** Exactly the phone that the history gives input to owns it. */
  lemma {:induction false} OwnerIff(events: Events, n: nat, id: Id)
    requires n <= |events| && StateAt(events, n).Some? && id != ""
    ensures StateAt(events, n).value.inputOwner == id <==> OwnsBy(events, n, id)
    decreases n
  {
    hide *;
    if n == 0 {
      NothingAtFirst(events, id, 0, 0);
    } else {
      StepAt(events, n - 1);
      var s := StateAt(events, n - 1).value;
      forall x: Id {:trigger OwnsBy(events, n - 1, x)} | x != ""
        ensures s.inputOwner == x <==> OwnsBy(events, n - 1, x)
      {
        OwnerIff(events, n - 1, x);
      }
      NobodyIsUnnamed(events, n - 1);
      NobodyElse(s, events, n - 1, id);
      OwnsStep(events, n - 1, id);
      AsksIff(events, n - 1, id);
      OwnerAfter(s, events[n - 1], id);
    }
  }

  lemma CancelledAfter(s: State, e: Event, w: Worker)
    requires Enabled(s, e)
    ensures w in Step(s, e).cancelled <==>
            || w in s.cancelled
            || exists id :: HasSession(s, id, w) && (e == Disconnect(id) || e == Forget(id) || e == Shutdown)
  {
    hide IsEnabled, IsConnected, InPhase;
    if e.Disconnect? || e.Forget? {
      assert HasSession(s, e.id, w) <==> e.id in s.sessions && s.sessions[e.id].worker == w;
    } else if e.Shutdown? && w in Step(s, e).cancelled && w !in s.cancelled {
      var id :| id in s.sessions && s.sessions[id].worker == w;
      assert HasSession(s, id, w);
    }
  }

  /** Exactly the workers that had a session when they were told to stop are cancelled. */
  lemma {:induction false} CancelledIff(events: Events, n: nat, w: Worker)
    requires n <= |events| && StateAt(events, n).Some?
    ensures w in StateAt(events, n).value.cancelled <==> CancelledBy(events, n, w)
  {
    hide *;
    if n == 0 {
      NothingAtFirst(events, "", w, 0);
    } else {
      StepAt(events, n - 1);
      var s := StateAt(events, n - 1).value;
      CancelledIff(events, n - 1, w);
      CancelledStep(events, n - 1, w);
      forall id ensures HasSession(s, id, w) <==> SessionBy(events, n - 1, id, w) {
        SessionIff(events, n - 1, id, w);
      }
      CancelledAfter(s, events[n - 1], w);
    }
  }

  // ---- Who may have input ----

  lemma AlwaysChosen(events: Events, k: nat, n: nat, id: Id)
    requires k < n <= |events| && AllowedBy(events, k, id)
    requires forall j :: k <= j < n ==> events[j] != Forget(id)
    ensures exists i :: 0 <= i < n && AllowsAlways(events[i], id) && forall j :: i < j < n ==> events[j] != Forget(id)
  {
    hide PairedBy, AllowsAlways;
    var i :| 0 <= i < k && AllowsAlways(events[i], id) && forall j :: i < j < k ==> !EndsAlways(events[j], id);
    forall j | i < j < n ensures events[j] != Forget(id) {
      assert j < k ==> !EndsAlways(events[j], id);
    }
  }

  /** The user enabled input for the owner, or chose to always allow it, and has not forgotten it since. */
  lemma OwnerWasAllowed(events: Events, n: nat, id: Id)
    requires n <= |events| && StateAt(events, n).Some? && StateAt(events, n).value.inputOwner == id != ""
    ensures exists i :: 0 <= i < n && (events[i] == SetInputEnabled(id, true) || AllowsAlways(events[i], id))
                        && forall j :: i < j < n ==> events[j] != Forget(id)
  {
    hide StateAt, AllowedBy, PairedBy, ConnectedBy, PeerBy;
    OwnerIff(events, n, id);
    var k :| 0 <= k < n && AsksForInput(events, k, id) && forall j :: k < j < n ==> !TakesInput(events, j, id);
    forall j | k < j < n ensures events[j] != Forget(id) {
      assert !TakesInput(events, j, id);
    }
    if ConnectsPeer(events, k, id) && AllowedBy(events, k, id) {
      AlwaysChosen(events, k, n, id);
    }
  }

  /** A phone that connects while nobody owns input has it at once exactly when it is always allowed. */
  lemma InputOnConnecting(events: Events, n: nat, id: Id)
    requires n < |events| && StateAt(events, n + 1).Some? && ConnectsPeer(events, n, id) && id != ""
    requires NoOtherBy(events, n, id) && !OwnsBy(events, n, id)
    ensures StateAt(events, n + 1).value.inputOwner == id <==> AllowedBy(events, n, id)
  {
    hide StateAt, AllowedBy, OwnsBy, PeerBy, ConnectedBy, PairedBy, EndsConnection;
    OwnerIff(events, n + 1, id);
    OwnsStep(events, n, id);
  }
}
