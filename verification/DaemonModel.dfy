/**
 The daemon's sessions and the ownership of remote input, one lock section per step.

 Each `runSession` is a worker of its own: between any two of its lock sections the sections of other
 workers and of requests may run. Device IDs arrive normalised; "" means no device.
 */
module DaemonModel {
  import opened Sequences

  type Id = string
  type Worker = nat

  datatype Phase =
    | Dialing      // before the first connection, between connections, or while waiting to retry
    | Connected
    | Stopping     // the retry loop has returned; the session is not yet cleared
    | Ended

  datatype WorkerState = WorkerState(peer: Id, phase: Phase)

  /** A session of the table: the worker its cancel function stops, and the live connection, if any. */
  datatype Managed = Managed(worker: Worker, active: Option<nat>)

  datatype State = State(
    paired: set<Id>,
    inputAuto: set<Id>,
    sessions: map<Id, Managed>,
    inputOwner: Id,
    inputEnabled: map<Id, bool>,
    workers: map<Worker, WorkerState>,
    cancelled: set<Worker>)

  datatype Event =
    | Pair(id: Id)
    | Start(id: Id, worker: Worker)
    | NoClient(worker: Worker)                    // no network to discover on: the worker gives up
    | DialFailed(worker: Worker)
    | Connect(worker: Worker, connection: nat)
    | Lost(worker: Worker)
    | Stop(worker: Worker)                        // the worker notices that it, or the whole daemon, was cancelled
    | Clear(worker: Worker)
    | Disconnect(id: Id)
    | SetInputEnabled(id: Id, enabled: bool)
    | SetInputAuto(id: Id, enabled: bool, saved: bool)  // `saved`: the trust store could be written
    | Forget(id: Id)
    | Shutdown

  const INITIAL := State({}, {}, map[], "", map[], map[], {})

  predicate IsEnabled(s: State, id: Id) {
    id in s.inputEnabled && s.inputEnabled[id]
  }

  predicate IsConnected(s: State, id: Id) {
    id in s.sessions && s.sessions[id].active.Some?
  }

  predicate InPhase(s: State, w: Worker, phase: Phase) {
    w in s.workers && s.workers[w].phase == phase
  }

  predicate Enabled(s: State, e: Event) {
    match e
    case Pair(id) => id != ""
    case Start(_, w) => w !in s.workers
    case NoClient(w) => InPhase(s, w, Dialing)
    case DialFailed(w) => InPhase(s, w, Dialing)
    case Connect(w, _) => InPhase(s, w, Dialing)
    case Lost(w) => InPhase(s, w, Connected)
    case Stop(w) => InPhase(s, w, Dialing) || InPhase(s, w, Connected)
    case Clear(w) => InPhase(s, w, Stopping)
    case _ => true
  }

  function WithPhase(s: State, w: Worker, phase: Phase): State
    requires w in s.workers
  {
    s.(workers := s.workers[w := s.workers[w].(phase := phase)])
  }

  /** Takes input away from `id`, if it has it. */
  function Released(s: State, id: Id): State {
    if s.inputOwner == id then s.(inputOwner := "", inputEnabled := s.inputEnabled[id := false]) else s
  }

  function Granted(s: State, id: Id): State {
    s.(inputOwner := id, inputEnabled := s.inputEnabled[id := true])
  }

  function WithActive(s: State, id: Id, active: Option<nat>): State {
    if id in s.sessions then s.(sessions := s.sessions[id := s.sessions[id].(active := active)]) else s
  }

  function Cancelled(s: State, id: Id): State {
    if id in s.sessions then s.(cancelled := s.cancelled + {s.sessions[id].worker}) else s
  }

  function Step(s: State, e: Event): State
    requires Enabled(s, e)
  {
    match e
    case Pair(id) => s.(paired := s.paired + {id})
    case Start(id, w) =>
      if id !in s.paired || id in s.sessions then s
      else s.(sessions := s.sessions[id := Managed(w, None)], workers := s.workers[w := WorkerState(id, Dialing)])
    case NoClient(w) => WithPhase(s, w, Stopping)
    case DialFailed(w) => Released(WithActive(s, s.workers[w].peer, None), s.workers[w].peer)
    case Connect(w, connection) =>
      var id := s.workers[w].peer;
      var t := WithActive(WithPhase(s, w, Connected), id, Some(connection));
      if id in s.inputAuto && (s.inputOwner == "" || s.inputOwner == id) then Granted(t, id) else t
    case Lost(w) => Released(WithActive(WithPhase(s, w, Dialing), s.workers[w].peer, None), s.workers[w].peer)
    case Stop(w) => WithPhase(s, w, Stopping)
    case Clear(w) =>
      var id := s.workers[w].peer;
      Released(WithPhase(s, w, Ended).(sessions := s.sessions - {id}), id)
    case Disconnect(id) => Cancelled(s, id)
    case SetInputEnabled(id, enabled) =>
      if id !in s.paired then s
      else if !enabled then Released(s, id).(inputEnabled := s.inputEnabled[id := false])
      else if !IsConnected(s, id) || (s.inputOwner != "" && s.inputOwner != id) then s
      else Granted(s, id)
    case SetInputAuto(id, enabled, saved) =>
      if id !in s.paired then s
      else
        var t := s.(inputAuto := if enabled then s.inputAuto + {id} else s.inputAuto - {id});
        if saved && enabled && IsConnected(s, id) && (s.inputOwner == "" || s.inputOwner == id) then Granted(t, id)
        else t
    case Forget(id) =>
      Cancelled(s, id).(inputOwner := if s.inputOwner == id then "" else s.inputOwner,
                        inputEnabled := s.inputEnabled - {id},
                        paired := s.paired - {id}, inputAuto := s.inputAuto - {id})
    case Shutdown =>
      s.(cancelled := s.cancelled + (set id | id in s.sessions :: s.sessions[id].worker),
         inputOwner := "", inputEnabled := map id | id in s.inputEnabled :: false)
  }

  // ---- What holds in every reachable state ----

  predicate Live(s: State, w: Worker) {
    w in s.workers && s.workers[w].phase != Ended
  }

  /** A session is in the table exactly while its worker lives. */
  ghost predicate OneWorkerEach(s: State) {
    && (forall id :: id in s.sessions ==> Live(s, s.sessions[id].worker) && s.workers[s.sessions[id].worker].peer == id)
    && (forall w :: Live(s, w) ==> s.workers[w].peer in s.sessions && s.sessions[s.workers[w].peer].worker == w)
  }

  /** The table shows a connection while the worker is connected, and none while it dials. */
  ghost predicate ActiveWhileConnected(s: State) {
    forall w :: Live(s, w) && s.workers[w].peer in s.sessions ==>
      && (s.workers[w].phase == Connected ==> s.sessions[s.workers[w].peer].active.Some?)
      && (s.workers[w].phase == Dialing ==> s.sessions[s.workers[w].peer].active.None?)
  }

  ghost predicate InputConsistent(s: State) {
    && (forall id :: IsEnabled(s, id) <==> id != "" && s.inputOwner == id)
    && (s.inputOwner != "" ==> IsConnected(s, s.inputOwner) && s.inputOwner in s.paired)
  }

  ghost predicate IdsProper(s: State) {
    && "" !in s.paired && "" !in s.sessions
    && s.inputAuto <= s.paired
  }

  ghost predicate Invariant(s: State) {
    OneWorkerEach(s) && ActiveWhileConnected(s) && InputConsistent(s) && IdsProper(s)
  }

  /** One worker changes phase, and at most its own session's connection changes with it. */
  lemma PhaseChange(s: State, t: State, w: Worker, phase: Phase)
    requires OneWorkerEach(s) && ActiveWhileConnected(s) && Live(s, w) && phase != Ended
    requires var id := s.workers[w].peer;
             && t.workers == s.workers[w := WorkerState(id, phase)]
             && id in t.sessions && t.sessions == s.sessions[id := t.sessions[id]] && t.sessions[id].worker == w
             && (phase == Connected ==> t.sessions[id].active.Some?)
             && (phase == Dialing ==> t.sessions[id].active.None?)
    ensures OneWorkerEach(t) && ActiveWhileConnected(t)
  {
    var id := s.workers[w].peer;
    assert forall v :: v != w ==> Live(t, v) == Live(s, v);
    assert forall v :: Live(s, v) && v != w ==> s.workers[v].peer != id;
  }

  /** A worker ends and takes its session with it. */
  lemma WorkerGone(s: State, t: State, w: Worker)
    requires OneWorkerEach(s) && ActiveWhileConnected(s) && Live(s, w)
    requires t.sessions == s.sessions - {s.workers[w].peer}
    requires t.workers == s.workers[w := s.workers[w].(phase := Ended)]
    ensures OneWorkerEach(t) && ActiveWhileConnected(t)
  {
    assert forall v :: v != w ==> Live(t, v) == Live(s, v);
    assert forall v :: Live(s, v) && v != w ==> s.workers[v].peer != s.workers[w].peer;
  }

  lemma ClearKeeps(s: State, w: Worker)
    requires Invariant(s) && InPhase(s, w, Stopping)
    ensures var t := Step(s, Clear(w)); OneWorkerEach(t) && ActiveWhileConnected(t) && IdsProper(t)
  {
    hide InputConsistent, OneWorkerEach, ActiveWhileConnected;
    WorkerGone(s, Step(s, Clear(w)), w);
  }

  lemma WorkerChanges(s: State, e: Event, w: Worker)
    requires Invariant(s) && Enabled(s, e)
    requires e.NoClient? || e.DialFailed? || e.Connect? || e.Lost? || e.Stop?
    requires w == e.worker
    ensures OneWorkerEach(Step(s, e)) && ActiveWhileConnected(Step(s, e)) && IdsProper(Step(s, e))
  {
    hide InputConsistent, IsEnabled, IsConnected;
    var t := Step(s, e);
    assert Live(s, w) && s.sessions[s.workers[w].peer].worker == w;
    PhaseChange(s, t, w, t.workers[w].phase);
  }

  /** A new worker with a session of its own. */
  lemma NewWorker(s: State, t: State, id: Id, w: Worker)
    requires OneWorkerEach(s) && ActiveWhileConnected(s) && id !in s.sessions && w !in s.workers
    requires t.sessions == s.sessions[id := Managed(w, None)]
    requires t.workers == s.workers[w := WorkerState(id, Dialing)]
    ensures OneWorkerEach(t) && ActiveWhileConnected(t)
  {
    assert forall v :: v != w ==> Live(t, v) == Live(s, v);
    assert forall v :: Live(s, v) ==> s.workers[v].peer in s.sessions;
  }

  lemma StartKeeps(s: State, id: Id, w: Worker)
    requires Invariant(s) && Enabled(s, Start(id, w))
    ensures var t := Step(s, Start(id, w)); OneWorkerEach(t) && ActiveWhileConnected(t) && IdsProper(t)
  {
    hide InputConsistent, OneWorkerEach, ActiveWhileConnected;
    var t := Step(s, Start(id, w));
    if t != s {
      NewWorker(s, t, id, w);
    }
  }

  /** The steps that leave sessions and workers alone. */
  lemma SettingKeeps(s: State, t: State)
    requires OneWorkerEach(s) && ActiveWhileConnected(s) && t.sessions == s.sessions && t.workers == s.workers
    ensures OneWorkerEach(t) && ActiveWhileConnected(t)
  {
    assert forall w :: Live(t, w) == Live(s, w);
  }

  lemma StepKeepsWorkers(s: State, e: Event)
    requires Invariant(s) && Enabled(s, e)
    ensures OneWorkerEach(Step(s, e)) && ActiveWhileConnected(Step(s, e)) && IdsProper(Step(s, e))
  {
    hide InputConsistent, OneWorkerEach, ActiveWhileConnected;
    match e
    case Start(id, w) => StartKeeps(s, id, w);
    case NoClient(w) => WorkerChanges(s, e, w);
    case DialFailed(w) => WorkerChanges(s, e, w);
    case Connect(w, _) => WorkerChanges(s, e, w);
    case Lost(w) => WorkerChanges(s, e, w);
    case Stop(w) => WorkerChanges(s, e, w);
    case Clear(w) => ClearKeeps(s, w);
    case _ => SettingKeeps(s, Step(s, e));
  }

  /** Input is consistent but for what `id` may have lost: its connection or its pairing. */
  ghost predicate InputConsistentBut(s: State, id: Id) {
    && (forall x :: IsEnabled(s, x) <==> x != "" && s.inputOwner == x)
    && (s.inputOwner != "" && s.inputOwner != id ==> IsConnected(s, s.inputOwner) && s.inputOwner in s.paired)
  }

  lemma ReleaseRestores(s: State, id: Id)
    requires InputConsistentBut(s, id)
    ensures InputConsistent(Released(s, id))
  {
    assert forall x :: x != id ==> IsEnabled(Released(s, id), x) == IsEnabled(s, x);
  }

  lemma GrantKeeps(s: State, id: Id)
    requires InputConsistent(s) && id != "" && IsConnected(s, id) && id in s.paired
    requires s.inputOwner == "" || s.inputOwner == id
    ensures InputConsistent(Granted(s, id))
  {
    assert forall x :: x != id ==> IsEnabled(Granted(s, id), x) == IsEnabled(s, x);
  }

  /** Without a change of owner or flags, only a lost connection or pairing could hurt. */
  lemma InputUntouched(s: State, t: State, id: Id)
    requires InputConsistent(s) && t.inputOwner == s.inputOwner && t.inputEnabled == s.inputEnabled
    requires forall x :: x != id && IsConnected(s, x) ==> IsConnected(t, x)
    requires forall x :: x != id && x in s.paired ==> x in t.paired
    ensures InputConsistentBut(t, id)
    ensures (IsConnected(s, id) ==> IsConnected(t, id)) && (id in s.paired ==> id in t.paired) ==> InputConsistent(t)
  {
    assert forall x :: IsEnabled(t, x) == IsEnabled(s, x);
  }

  lemma WorkerStepKeepsInput(s: State, e: Event, w: Worker)
    requires Invariant(s) && Enabled(s, e)
    requires e.NoClient? || e.DialFailed? || e.Connect? || e.Lost? || e.Stop? || e.Clear?
    requires w == e.worker
    ensures InputConsistent(Step(s, e))
  {
    hide InputConsistent, InputConsistentBut, ActiveWhileConnected;
    var id := s.workers[w].peer;
    assert Live(s, w) && id in s.sessions && id != "";
    if e.DialFailed? {
      InputUntouched(s, WithActive(s, id, None), id);
      ReleaseRestores(WithActive(s, id, None), id);
    } else if e.Lost? {
      var t := WithActive(WithPhase(s, w, Dialing), id, None);
      InputUntouched(s, t, id);
      ReleaseRestores(t, id);
    } else if e.Clear? {
      var t := WithPhase(s, w, Ended).(sessions := s.sessions - {id});
      InputUntouched(s, t, id);
      ReleaseRestores(t, id);
    } else if e.Connect? {
      var t := WithActive(WithPhase(s, w, Connected), id, Some(e.connection));
      InputUntouched(s, t, id);
      if id in s.inputAuto && (s.inputOwner == "" || s.inputOwner == id) {
        GrantKeeps(t, id);
      }
    } else {
      InputUntouched(s, Step(s, e), id);
    }
  }

  lemma SettingKeepsInput(s: State, e: Event)
    requires Invariant(s) && Enabled(s, e)
    requires e.Pair? || e.Start? || e.Disconnect? || e.SetInputEnabled? || e.SetInputAuto? || e.Forget? || e.Shutdown?
    ensures InputConsistent(Step(s, e))
  {
    hide OneWorkerEach, ActiveWhileConnected;
    var t := Step(s, e);
    if e.SetInputEnabled? {
      if e.id in s.paired && e.enabled && t != s {
        GrantKeeps(s, e.id);
      } else {
        assert forall x :: x != e.id ==> IsEnabled(t, x) == IsEnabled(s, x);
      }
    } else if e.SetInputAuto? {
      if e.id in s.paired {
        var u := s.(inputAuto := t.inputAuto);
        InputUntouched(s, u, e.id);
        if u != t {
          GrantKeeps(u, e.id);
        }
      }
    } else if e.Forget? {
      assert forall x :: x != e.id ==> IsEnabled(t, x) == IsEnabled(s, x);
    } else if e.Shutdown? {
      assert forall x :: !IsEnabled(t, x);
    } else {
      InputUntouched(s, t, "");
    }
  }

  lemma StepKeepsInvariant(s: State, e: Event)
    requires Invariant(s) && Enabled(s, e)
    ensures Invariant(Step(s, e))
  {
    hide OneWorkerEach, ActiveWhileConnected, InputConsistent, IdsProper;
    StepKeepsWorkers(s, e);
    if e.NoClient? || e.DialFailed? || e.Connect? || e.Lost? || e.Stop? || e.Clear? {
      WorkerStepKeepsInput(s, e, e.worker);
    } else {
      SettingKeepsInput(s, e);
    }
  }

  /** The state after a run of lock sections; None when one of them cannot happen there. */
  function After(events: seq<Event>): Option<State>
    decreases |events|
  {
    if events == [] then Some(INITIAL)
    else
      var before, e := After(events[..|events| - 1]), events[|events| - 1];
      if before.None? || !Enabled(before.value, e) then None else Some(Step(before.value, e))
  }

  lemma {:induction false} RunKeepsInvariant(events: seq<Event>)
    requires After(events).Some?
    ensures Invariant(After(events).value)
    decreases |events|
  {
    if events != [] {
      RunKeepsInvariant(events[..|events| - 1]);
      StepKeepsInvariant(After(events[..|events| - 1]).value, events[|events| - 1]);
    }
  }

  /** At most one worker lives for a peer, and it lives exactly while the peer is in the table. */
  lemma OneSessionPerPeer(events: seq<Event>, id: Id)
    requires After(events).Some?
    ensures var s := After(events).value;
            && (id in s.sessions <==> exists w :: Live(s, w) && s.workers[w].peer == id)
            && (forall v, w :: Live(s, v) && Live(s, w) && s.workers[v].peer == id && s.workers[w].peer == id ==>
                  v == w)
  {
    RunKeepsInvariant(events);
    var s := After(events).value;
    if id in s.sessions {
      assert Live(s, s.sessions[id].worker);
    }
  }

  /** Input is enabled for the owner and no one else, and the owner is a paired phone with a connection. */
  lemma OneInputOwner(events: seq<Event>, id: Id)
    requires After(events).Some?
    ensures var s := After(events).value;
            && (IsEnabled(s, id) <==> id != "" && s.inputOwner == id)
            && (IsEnabled(s, id) ==> IsConnected(s, id) && id in s.paired)
            && (IsEnabled(s, id) ==> exists w :: Live(s, w) && s.workers[w].peer == id && s.workers[w].phase != Dialing)
  {
    RunKeepsInvariant(events);
    var s := After(events).value;
    if IsEnabled(s, id) {
      assert Live(s, s.sessions[id].worker);
    }
  }

  // ---- Forgotten phones ----

  /** A phone that is no longer paired may still be in the table, but its worker has been told to stop. */
  ghost predicate ForgottenStop(s: State) {
    forall id :: id in s.sessions && id !in s.paired ==> s.sessions[id].worker in s.cancelled
  }

  lemma StepKeepsForgottenStop(s: State, e: Event)
    requires ForgottenStop(s) && Enabled(s, e)
    ensures ForgottenStop(Step(s, e))
  {
    hide IsEnabled, InPhase;
  }

  lemma {:induction false} RunKeepsForgottenStop(events: seq<Event>)
    requires After(events).Some?
    ensures ForgottenStop(After(events).value)
    decreases |events|
  {
    if events != [] {
      hide ForgottenStop, Step, Enabled;
      RunKeepsForgottenStop(events[..|events| - 1]);
      StepKeepsForgottenStop(After(events[..|events| - 1]).value, events[|events| - 1]);
    } else {
      assert ForgottenStop(INITIAL);
    }
  }

  /** In every reachable state, every live worker of a phone that is not paired is cancelled. */
  lemma UnpairedIsCancelled(events: seq<Event>, w: Worker)
    requires After(events).Some? && Live(After(events).value, w)
    requires After(events).value.workers[w].peer !in After(events).value.paired
    ensures w in After(events).value.cancelled
  {
    RunKeepsInvariant(events);
    RunKeepsForgottenStop(events);
  }
}
