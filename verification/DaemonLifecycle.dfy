/** The daemon object: each method is one section under its lock, proved to be the step of `DaemonModel`. */
module DaemonLifecycle {
  import opened Sequences
  import opened DaemonModel

  class Daemon {
    var paired: set<Id>                 // the trust store
    var inputAuto: set<Id>
    var sessions: map<Id, Managed>
    var inputOwner: Id
    var inputEnabled: map<Id, bool>
    ghost var workers: map<Worker, WorkerState>
    ghost var cancelled: set<Worker>

    ghost function Model(): State
      reads this
    {
      State(paired, inputAuto, sessions, inputOwner, inputEnabled, workers, cancelled)
    }

    constructor ()
      ensures Model() == INITIAL
    {
      paired, inputAuto, sessions, inputOwner, inputEnabled := {}, {}, map[], "", map[];
      workers, cancelled := map[], {};
    }

    /**
     False, and nothing changes, when the peer is not paired or the store has no identity of its own;
     a session that is already running is left alone.
     */
    method StartSession(id: Id, worker: Worker, hasIdentity: bool) returns (ok: bool)
      requires worker !in workers
      modifies this
      ensures Model() == if hasIdentity then Step(old(Model()), Start(id, worker)) else old(Model())
      ensures ok == (id in old(paired) && hasIdentity)
    {
      if id !in paired { return false; }
      if !hasIdentity { return false; }
      if id in sessions { return true; }
      sessions := sessions[id := Managed(worker, None)];
      workers := workers[worker := WorkerState(id, Dialing)];
      return true;
    }

    /** The first connection of a worker, or a later one, is live. */
    method OnConnect(id: Id, ghost worker: Worker, connection: nat)
      requires InPhase(Model(), worker, Dialing) && workers[worker].peer == id
      modifies this
      ensures Model() == Step(old(Model()), Connect(worker, connection))
      ensures id in sessions ==> sessions[id].active == Some(connection)
      ensures old(id in inputAuto && (inputOwner == "" || inputOwner == id)) ==> inputOwner == id && inputEnabled[id]
      ensures inputOwner != old(inputOwner) ==> inputOwner == id && id in old(inputAuto) && old(inputOwner) == ""
    {
      workers := workers[worker := workers[worker].(phase := Connected)];
      if id in sessions {
        sessions := sessions[id := sessions[id].(active := Some(connection))];
      }
      if id in inputAuto && (inputOwner == "" || inputOwner == id) {
        inputOwner := id;
        inputEnabled := inputEnabled[id := true];
      }
    }

    /** A dial failed or a connection was lost; `reset` says that the emulator has to be reset. */
    method OnDisconnect(id: Id, ghost worker: Worker) returns (reset: bool)
      requires InPhase(Model(), worker, Dialing) || InPhase(Model(), worker, Connected)
      requires workers[worker].peer == id
      modifies this
      ensures old(workers[worker].phase) == Dialing ==> Model() == Step(old(Model()), DialFailed(worker))
      ensures old(workers[worker].phase) == Connected ==> Model() == Step(old(Model()), Lost(worker))
      ensures reset == (old(inputOwner) == id)
      ensures id in sessions ==> sessions[id].active == None
      ensures inputOwner == if reset then "" else old(inputOwner)
    {
      workers := workers[worker := workers[worker].(phase := Dialing)];
      if id in sessions {
        sessions := sessions[id := sessions[id].(active := None)];
      }
      reset := inputOwner == id;
      if reset {
        inputOwner := "";
        inputEnabled := inputEnabled[id := false];
      }
    }

    method ClearSession(id: Id, ghost worker: Worker) returns (reset: bool)
      requires InPhase(Model(), worker, Stopping) && workers[worker].peer == id
      modifies this
      ensures Model() == Step(old(Model()), Clear(worker)) && reset == (old(inputOwner) == id)
      ensures id !in sessions && inputOwner == if reset then "" else old(inputOwner)
    {
      workers := workers[worker := workers[worker].(phase := Ended)];
      sessions := sessions - {id};
      reset := inputOwner == id;
      if reset {
        inputOwner := "";
        inputEnabled := inputEnabled[id := false];
      }
    }

    method Disconnect(id: Id) returns (ok: bool)
      modifies this
      ensures Model() == Step(old(Model()), DaemonModel.Disconnect(id)) && ok == (id in old(sessions))
    {
      if id !in sessions { return false; }
      cancelled := cancelled + {sessions[id].worker};
      return true;
    }

    /** Refused unless the phone is paired and, to enable, connected with input free or its own. */
    method SetInputEnabled(id: Id, enabled: bool) returns (ok: bool, reset: bool)
      modifies this
      ensures Model() == Step(old(Model()), DaemonModel.SetInputEnabled(id, enabled))
      ensures ok ==> IsEnabled(Model(), id) == enabled
      ensures !ok ==> Model() == old(Model()) && !reset
      ensures reset == (ok && !enabled && old(inputOwner) == id)
      ensures enabled ==> ok == old(id in paired && IsConnected(Model(), id) && (inputOwner == "" || inputOwner == id))
      ensures enabled && ok ==> inputOwner == id
      ensures !enabled ==> ok == old(id in paired)
    {
      reset := false;
      if id !in paired { return false, false; }
      if enabled && (id !in sessions || sessions[id].active == None) { return false, false; }
      if enabled && inputOwner != "" && inputOwner != id { return false, false; }
      if enabled {
        inputOwner := id;
        inputEnabled := inputEnabled[id := true];
        return true, false;
      }
      inputEnabled := inputEnabled[id := false];
      reset := inputOwner == id;
      if reset {
        inputOwner := "";
      }
      return true, reset;
    }

    /** A choice that cannot be saved is remembered until the daemon ends, and grants nothing now. */
    method SetInputAuto(id: Id, enabled: bool, saved: bool) returns (ok: bool)
      modifies this
      ensures Model() == Step(old(Model()), DaemonModel.SetInputAuto(id, enabled, saved))
      ensures ok == (id in old(paired) && saved)
      ensures inputOwner != old(inputOwner) ==> inputOwner == id && ok && enabled && old(IsConnected(Model(), id))
    {
      if id !in paired { return false; }
      inputAuto := if enabled then inputAuto + {id} else inputAuto - {id};
      if !saved { return false; }
      if enabled && id in sessions && sessions[id].active.Some? && (inputOwner == "" || inputOwner == id) {
        inputOwner := id;
        inputEnabled := inputEnabled[id := true];
      }
      return true;
    }

    /** Ends the phone's session and removes all trust in it; the table entry goes when its worker ends. */
    method ForgetDevice(id: Id) returns (reset: bool)
      modifies this
      ensures Model() == Step(old(Model()), Forget(id)) && reset == (old(inputOwner) == id)
      ensures id !in paired && id !in inputAuto && inputOwner == if reset then "" else old(inputOwner)
      ensures id in sessions ==> sessions[id].worker in cancelled
    {
      reset := inputOwner == id;
      if reset {
        inputOwner := "";
      }
      inputEnabled := inputEnabled - {id};
      paired, inputAuto := paired - {id}, inputAuto - {id};
      if id in sessions {
        cancelled := cancelled + {sessions[id].worker};
      }
    }

    method Shutdown()
      modifies this
      ensures Model() == Step(old(Model()), DaemonModel.Shutdown)
      ensures inputOwner == "" && forall id :: id in sessions ==> sessions[id].worker in cancelled
    {
      cancelled := cancelled + (set id | id in sessions :: sessions[id].worker);
      inputOwner := "";
      var todo := inputEnabled.Keys;
      while todo != {}
        modifies this`inputEnabled
        invariant todo <= inputEnabled.Keys == old(inputEnabled).Keys
        invariant forall id :: id in inputEnabled.Keys - todo ==> !inputEnabled[id]
        decreases todo
      {
        var id :| id in todo;
        inputEnabled := inputEnabled[id := false];
        todo := todo - {id};
      }
      assert inputEnabled == map id | id in old(inputEnabled) :: false;
    }

    /** Whether an input event from a phone is let through to the emulator. */
    method MayApplyInput(id: Id) returns (allowed: bool)
      requires Invariant(Model()) && id != ""
      ensures allowed == (inputOwner == id)
    {
      allowed := id in inputEnabled && inputEnabled[id] && inputOwner == id;
      assert IsEnabled(Model(), id) <==> inputOwner == id;
    }
  }
}
