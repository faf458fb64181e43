/**
 The input worker: queued pointer moves are merged into one, everything else is applied as it came.

 The connection reader runs beside the worker: before each receive and each acknowledgement it may
 queue or refuse any number of the events still to come. `Valid` therefore speaks of every moment,
 not only of the end of a round.
 */
module InputWorker {
  import opened Sequences
  import opened RemoteInputs

  const QUEUE_CAPACITY := 128

  /** One received event: its transaction, and the input it decodes to, if it does. */
  datatype Job = Job(id: nat, input: Option<RemoteInput>)

  datatype Ack = Ack(id: nat, accepted: bool)

  /** What one turn of the worker handled. */
  datatype Round = Single(job: Job, ok: bool) | Merged(jobs: seq<Job>, ok: bool)

  predicate IsMove(j: Job) {
    j.input.Some? && j.input.value.kind == POINTER_MOVE
  }

  /** A decoded event has passed validation. */
  predicate Decoded(j: Job) {
    j.input.Some? ==> Validate(j.input.value)
  }

  ghost predicate AllMoves(jobs: seq<Job>) {
    forall i :: 0 <= i < |jobs| ==> IsMove(jobs[i])
  }

  function SumX(jobs: seq<Job>): real {
    if jobs == [] then 0.0
    else SumX(jobs[..|jobs| - 1]) + (if IsMove(jobs[|jobs| - 1]) then jobs[|jobs| - 1].input.value.x else 0.0)
  }

  function SumY(jobs: seq<Job>): real {
    if jobs == [] then 0.0
    else SumY(jobs[..|jobs| - 1]) + (if IsMove(jobs[|jobs| - 1]) then jobs[|jobs| - 1].input.value.y else 0.0)
  }

  function ClampDelta(d: real): real {
    if d < -MAX_DELTA then -MAX_DELTA else if d > MAX_DELTA then MAX_DELTA else d
  }

  /** The first move with the clamped sum of all of them. */
  function Combined(jobs: seq<Job>): RemoteInput
    requires jobs != [] && IsMove(jobs[0])
  {
    jobs[0].input.value.(x := ClampDelta(SumX(jobs)), y := ClampDelta(SumY(jobs)))
  }

  // ---- What a sequence of rounds handled, acknowledged and applied ----

  ghost predicate WellFormed(r: Round) {
    match r
    case Single(job, ok) => !IsMove(job) && (job.input.None? ==> !ok)
    case Merged(jobs, ok) =>
      && jobs != [] && AllMoves(jobs)
      && (ClampDelta(SumX(jobs)) == 0.0 && ClampDelta(SumY(jobs)) == 0.0 ==> ok)
  }

  function JobsIn(r: Round): seq<Job> {
    if r.Single? then [r.job] else r.jobs
  }

  function AcksIn(r: Round): (a: seq<Ack>)
    ensures |a| == |JobsIn(r)|
  {
    var jobs := JobsIn(r);
    seq(|jobs|, i requires 0 <= i < |jobs| => Ack(jobs[i].id, r.ok))
  }

  function AppliedIn(r: Round): seq<RemoteInput>
    requires r.Merged? ==> r.jobs != [] && IsMove(r.jobs[0])
  {
    match r
    case Single(job, _) => if job.input.Some? then [job.input.value] else []
    case Merged(jobs, _) =>
      var c := Combined(jobs);
      if c.x != 0.0 || c.y != 0.0 then [c] else []
  }

  /** What the handler answered in a round, if it was called. */
  function AnswersIn(r: Round): (a: seq<bool>)
    requires r.Merged? ==> r.jobs != [] && IsMove(r.jobs[0])
    ensures |a| == |AppliedIn(r)| <= 1
  {
    if AppliedIn(r) == [] then [] else [r.ok]
  }

  ghost predicate AllWellFormed(rounds: seq<Round>) {
    forall i :: 0 <= i < |rounds| ==> WellFormed(rounds[i])
  }

  ghost function JobsOf(rounds: seq<Round>): seq<Job> {
    if rounds == [] then [] else JobsOf(rounds[..|rounds| - 1]) + JobsIn(rounds[|rounds| - 1])
  }

  ghost function AcksOf(rounds: seq<Round>): (a: seq<Ack>)
    ensures |a| == |JobsOf(rounds)|
  {
    if rounds == [] then [] else AcksOf(rounds[..|rounds| - 1]) + AcksIn(rounds[|rounds| - 1])
  }

  ghost function AppliedOf(rounds: seq<Round>): seq<RemoteInput>
    requires AllWellFormed(rounds)
  {
    if rounds == [] then [] else AppliedOf(rounds[..|rounds| - 1]) + AppliedIn(rounds[|rounds| - 1])
  }

  ghost function AnswersOf(rounds: seq<Round>): (a: seq<bool>)
    requires AllWellFormed(rounds)
    ensures |a| == |AppliedOf(rounds)|
  {
    if rounds == [] then [] else AnswersOf(rounds[..|rounds| - 1]) + AnswersIn(rounds[|rounds| - 1])
  }

  lemma RoundsSnoc(rounds: seq<Round>, r: Round)
    requires AllWellFormed(rounds) && WellFormed(r)
    ensures AllWellFormed(rounds + [r])
    ensures JobsOf(rounds + [r]) == JobsOf(rounds) + JobsIn(r)
    ensures AcksOf(rounds + [r]) == AcksOf(rounds) + AcksIn(r)
    ensures AppliedOf(rounds + [r]) == AppliedOf(rounds) + AppliedIn(r)
    ensures AnswersOf(rounds + [r]) == AnswersOf(rounds) + AnswersIn(r)
  {
    assert (rounds + [r])[..|rounds|] == rounds;
  }

  lemma AckAt(r: Round, k: nat)
    requires k < |JobsIn(r)|
    ensures AcksIn(r)[k] == Ack(JobsIn(r)[k].id, r.ok)
  {
  }

  ghost function Refusals(jobs: seq<Job>): seq<Ack> {
    seq(|jobs|, i requires 0 <= i < |jobs| => Ack(jobs[i].id, false))
  }

  lemma RefusalsSnoc(jobs: seq<Job>, job: Job)
    ensures Refusals(jobs + [job]) == Refusals(jobs) + [Ack(job.id, false)]
  {
  }

  lemma TakeFirst<T>(done: seq<T>, held: seq<T>, rest: seq<T>)
    requires held != []
    ensures done + (held + rest) == (done + [held[0]]) + (held[1..] + rest)
  {
  }

  /** The arrivals that were queued, or those that were not, in order. */
  ghost function Chosen(arrived: seq<(Job, bool)>, queued: bool): seq<Job> {
    if arrived == [] then []
    else
      var last := arrived[|arrived| - 1];
      Chosen(arrived[..|arrived| - 1], queued) + (if last.1 == queued then [last.0] else [])
  }

  ghost function Arrivals(arrived: seq<(Job, bool)>): seq<Job> {
    seq(|arrived|, i requires 0 <= i < |arrived| => arrived[i].0)
  }

  lemma ChosenSnoc(arrived: seq<(Job, bool)>, job: Job, queued: bool)
    ensures Chosen(arrived + [(job, queued)], queued) == Chosen(arrived, queued) + [job]
    ensures Chosen(arrived + [(job, queued)], !queued) == Chosen(arrived, !queued)
  {
    assert (arrived + [(job, queued)])[..|arrived|] == arrived;
  }

  lemma ArrivalsSnoc(arrived: seq<(Job, bool)>, job: Job, queued: bool, future: seq<Job>)
    requires future != [] && future[0] == job
    ensures Arrivals(arrived + [(job, queued)]) + future[1..] == Arrivals(arrived) + future
  {
  }

  lemma PrefixSnoc<T>(a: seq<T>, b: seq<T>)
    requires a <= b && |a| < |b|
    ensures a + [b[|a|]] <= b
  {
  }

  lemma SumsSnoc(jobs: seq<Job>, job: Job)
    requires IsMove(job)
    ensures SumX(jobs + [job]) == SumX(jobs) + job.input.value.x
    ensures SumY(jobs + [job]) == SumY(jobs) + job.input.value.y
  {
    assert (jobs + [job])[..|jobs|] == jobs;
  }

  /**
   Every event of a round is told what the handler answered to the round's input; where nothing was applied,
   moves that cancel out are acknowledged as done, and an event that did not decode as failed.
   */
  lemma AckTellsAnswer(r: Round, k: nat)
    requires WellFormed(r) && k < |JobsIn(r)|
    ensures AcksIn(r)[k].id == JobsIn(r)[k].id
    ensures AcksIn(r)[k].accepted == if AppliedIn(r) != [] then AnswersIn(r)[0] else IsMove(JobsIn(r)[k])
  {
    AckAt(r, k);
  }

  // ---- The worker ----

  class InputWorker {
    var inputQueue: seq<Job>
    var pending: Option<Job>
    var acks: seq<Ack>               // sent by the worker
    var refusals: seq<Ack>           // sent by the reader for events it did not queue
    var applied: seq<RemoteInput>    // given to the input handler
    var answers: seq<bool>           // whether it took each of them

    var future: seq<Job>             // events still to arrive
    ghost var arrived: seq<(Job, bool)>  // events in the order of arrival, and whether they were queued
    ghost var accepted: seq<Job>     // events that were queued
    ghost var refused: seq<Job>      // events that were not
    ghost var handled: seq<Job>      // acknowledged by the worker
    ghost var batch: seq<Job>        // taken by the worker, not yet acknowledged
    ghost var rounds: seq<Round>     // turns whose input has been applied
    ghost var acking: bool           // the batch is the rest of the last of them

    ghost predicate Valid()
      reads this
    {
      && AllWellFormed(rounds)
      && applied == AppliedOf(rounds) && answers == AnswersOf(rounds)
      && JobsOf(rounds) == handled + (if acking then batch else [])
      && |acks| == |handled| && acks <= AcksOf(rounds)
      && accepted == handled + InFlight()
      && (pending.Some? ==> !IsMove(pending.value))
      && |inputQueue| <= QUEUE_CAPACITY
      && refusals == Refusals(refused)
      && accepted == Chosen(arrived, true) && refused == Chosen(arrived, false)
    }

    /** What the worker holds, then what it put aside, then what is queued. */
    ghost function InFlight(): seq<Job>
      reads this`batch, this`pending, this`inputQueue
    {
      batch + (Waiting() + inputQueue)
    }

    ghost function Waiting(): seq<Job>
      reads this`pending
    {
      if pending.Some? then [pending.value] else []
    }

    /** Every event of the run in the order of arrival: those that have arrived, then those to come. */
    ghost function Script(): seq<Job>
      reads this`arrived, this`future
    {
      Arrivals(arrived) + future
    }

    /** Events that are yet to be taken by the worker. */
    ghost function Remaining(): nat
      reads this`future, this`inputQueue, this`pending
    {
      |future| + |inputQueue| + |Waiting()|
    }

    constructor (future: seq<Job>)
      ensures Valid() && batch == [] && !acking && this.future == future
      ensures arrived == [] && accepted == [] && refused == [] && handled == [] && Script() == future
    {
      inputQueue, pending, acks, refusals, applied, answers := [], None, [], [], [], [];
      this.future, arrived, accepted, refused, handled, batch, rounds := future, [], [], [], [], [], [];
      acking := false;
    }

    /** The reader runs for a while: it queues each arriving event, or refuses it with an acknowledgement. */
    method Interfere()
      requires Valid()
      modifies this`inputQueue, this`refusals, this`future, this`accepted, this`refused, this`arrived
      ensures Valid()
      ensures Remaining() <= old(Remaining())
      ensures old(arrived) <= arrived && old(accepted) <= accepted && old(refused) <= refused
      ensures Script() == old(Script())
    {
      hide Chosen, Arrivals, JobsOf, AcksOf, AppliedOf, AnswersOf, AllWellFormed, IsMove, Refusals;
      var busy: bool := *;
      while busy && future != []
        invariant Valid() && Remaining() <= old(Remaining())
        invariant old(arrived) <= arrived && old(accepted) <= accepted && old(refused) <= refused
        invariant Script() == old(Script())
        decreases |future|
      {
        var allowed: bool := *;
        Arrive(allowed);
        busy := *;
      }
    }

    method Arrive(allowed: bool)
      requires Valid() && future != []
      modifies this`inputQueue, this`refusals, this`future, this`accepted, this`refused, this`arrived
      ensures Valid()
      ensures future == old(future)[1..]
      ensures if allowed && |old(inputQueue)| < QUEUE_CAPACITY
              then accepted == old(accepted) + [old(future)[0]] && refused == old(refused) &&
                   inputQueue == old(inputQueue) + [old(future)[0]]
              else refused == old(refused) + [old(future)[0]] && accepted == old(accepted) &&
                   inputQueue == old(inputQueue)
      ensures Script() == old(Script()) && old(arrived) <= arrived
    {
      hide Chosen, Arrivals, JobsOf, AcksOf, AppliedOf, AnswersOf, AllWellFormed, IsMove, Refusals, Waiting, InFlight;
      var job := future[0];
      ArrivalsSnoc(arrived, job, allowed && |inputQueue| < QUEUE_CAPACITY, future);
      if allowed && |inputQueue| < QUEUE_CAPACITY {
        Enqueue(job);
      } else {
        Refuse(job);
      }
      future := future[1..];
    }

    method Enqueue(job: Job)
      requires Valid() && |inputQueue| < QUEUE_CAPACITY
      modifies this`inputQueue, this`accepted, this`arrived
      ensures Valid() && inputQueue == old(inputQueue) + [job] && accepted == old(accepted) + [job]
      ensures arrived == old(arrived) + [(job, true)]
    {
      hide Chosen, Arrivals, JobsOf, AcksOf, AppliedOf, AnswersOf, AllWellFormed, IsMove, Refusals, Waiting;
      ChosenSnoc(arrived, job, true);
      ghost var line := InFlight();
      assert line + [job] == batch + (Waiting() + (inputQueue + [job]));
      assert accepted + [job] == handled + (line + [job]);
      inputQueue := inputQueue + [job];
      accepted := accepted + [job];
      arrived := arrived + [(job, true)];
    }

    method Refuse(job: Job)
      requires Valid()
      modifies this`refusals, this`refused, this`arrived
      ensures Valid() && refused == old(refused) + [job]
      ensures arrived == old(arrived) + [(job, false)]
    {
      hide Chosen, Arrivals, JobsOf, AcksOf, AppliedOf, AnswersOf, AllWellFormed, IsMove, Refusals, Waiting;
      ChosenSnoc(arrived, job, false);
      RefusalsSnoc(refused, job);
      refusals := refusals + [Ack(job.id, false)];
      refused := refused + [job];
      arrived := arrived + [(job, false)];
    }

    /** The input handler, outside this model: it takes an input or fails. */
    method CallHandler(input: RemoteInput) returns (taken: bool) {
      taken := *;
    }

    /** Records a round whose events are the batch: the inputs given to the handler, and what it answered. */
    method Apply(round: Round, inputs: seq<RemoteInput>, said: seq<bool>)
      requires Valid() && !acking && WellFormed(round) && batch == JobsIn(round)
      requires inputs == AppliedIn(round) && said == AnswersIn(round)
      modifies this`applied, this`answers, this`rounds, this`acking
      ensures Valid() && acking && rounds == old(rounds) + [round]
      ensures applied == old(applied) + inputs && answers == old(answers) + said
      ensures AcksOf(rounds)[|acks|..] == AcksIn(round)
    {
      hide Chosen, Arrivals, JobsOf, AcksOf, AppliedOf, AnswersOf, AllWellFormed, IsMove, Refusals, WellFormed,
           AppliedIn, AnswersIn;
      RoundsSnoc(rounds, round);
      assert acks == AcksOf(rounds);
      applied, answers := applied + inputs, answers + said;
      rounds, acking := rounds + [round], true;
    }

    /** Acknowledges every event of the batch with its round's outcome, the reader running in between. */
    method AcknowledgeAll(jobs: seq<Job>, round: Round)
      requires Valid() && acking && batch == jobs == JobsIn(round) && AcksOf(rounds)[|acks|..] == AcksIn(round)
      modifies this`acks, this`handled, this`batch, this`acking,
               this`inputQueue, this`refusals, this`future, this`accepted, this`refused, this`arrived
      ensures Valid() && batch == [] && !acking
      ensures Remaining() <= old(Remaining()) && Script() == old(Script()) && old(arrived) <= arrived
    {
      hide Chosen, Arrivals, JobsOf, AcksOf, AppliedOf, AnswersOf, AllWellFormed, IsMove, Refusals, AcksIn, JobsIn,
           Script, InFlight, Waiting;
      assert batch == jobs[0..];
      ghost var start, due := |acks|, AcksOf(rounds);
      for k := 0 to |jobs|
        invariant Valid() && acking && batch == jobs[k..]
        invariant Remaining() <= old(Remaining()) && Script() == old(Script()) && old(arrived) <= arrived
        invariant AcksOf(rounds) == due && |acks| == start + k
      {
        Interfere();
        AckAt(round, k);
        assert due[start + k] == due[start..][k];
        Acknowledge(jobs[k], round.ok);
      }
      EndRound();
    }

    method EndRound()
      requires Valid() && batch == []
      modifies this`acking
      ensures Valid() && !acking
    {
      acking := false;
    }

    /** Acknowledges the first event of the batch. */
    method Acknowledge(job: Job, ok: bool)
      requires Valid() && acking && batch != [] && batch[0] == job
      requires AcksOf(rounds)[|acks|] == Ack(job.id, ok)
      modifies this`acks, this`handled, this`batch
      ensures Remaining() == old(Remaining()) && Script() == old(Script())
      ensures Valid() && batch == old(batch)[1..] && acks == old(acks) + [Ack(job.id, ok)]
    {
      hide Chosen, Arrivals, JobsOf, AcksOf, AppliedOf, AnswersOf, AllWellFormed, IsMove, Refusals, Remaining,
           Script, Waiting;
      TakeFirst(handled, batch, Waiting() + inputQueue);
      PrefixSnoc(acks, AcksOf(rounds));
      assert acking ==> handled + batch == (handled + [job]) + batch[1..];
      acks := acks + [Ack(job.id, ok)];
      handled, batch := handled + [job], batch[1..];
    }

    /** Takes the next event into the batch. */
    method Take() returns (job: Job)
      requires Valid() && inputQueue != [] && pending == None && !acking
      modifies this`inputQueue, this`batch
      ensures Valid() && job == old(inputQueue)[0] && batch == old(batch) + [job]
      ensures inputQueue == old(inputQueue)[1..]
    {
      hide Chosen, Arrivals, JobsOf, AcksOf, AppliedOf, AnswersOf, AllWellFormed, IsMove, Refusals;
      job := inputQueue[0];
      assert batch + inputQueue == (batch + [job]) + inputQueue[1..];
      inputQueue := inputQueue[1..];
      batch := batch + [job];
      assert Waiting() == [] && InFlight() == batch + inputQueue;
    }

    /** Puts the last event of the batch aside for the next turn. */
    method PutAside(job: Job)
      requires Valid() && |batch| > 1 && batch[|batch| - 1] == job && pending == None && !acking && !IsMove(job)
      modifies this`pending, this`batch
      ensures Valid() && pending == Some(job) && batch == old(batch)[..|old(batch)| - 1]
    {
      hide Chosen, Arrivals, JobsOf, AcksOf, AppliedOf, AnswersOf, AllWellFormed, Refusals;
      assert batch + ([] + inputQueue) == batch[..|batch| - 1] + ([job] + inputQueue);
      pending := Some(job);
      batch := batch[..|batch| - 1];
    }

    /** Takes back the event put aside. */
    method Resume() returns (job: Job)
      requires Valid() && pending.Some? && batch == [] && !acking
      modifies this`pending, this`batch
      ensures Valid() && pending == None && batch == [job] && !IsMove(job)
    {
      hide Chosen, Arrivals, JobsOf, AcksOf, AppliedOf, AnswersOf, AllWellFormed, Refusals;
      job := pending.value;
      assert [] + ([job] + inputQueue) == [job] + ([] + inputQueue);
      pending := None;
      batch := [job];
    }

    /** An event that is not a move is applied unchanged, if it decoded, and acknowledged. */
    method HandleSingle(job: Job)
      requires Valid() && batch == [job] && !acking && !IsMove(job)
      modifies this`applied, this`answers, this`rounds, this`acking, this`acks, this`handled, this`batch,
               this`inputQueue, this`refusals, this`future, this`accepted, this`refused, this`arrived
      ensures Valid() && batch == [] && !acking
      ensures Remaining() <= old(Remaining()) && Script() == old(Script()) && old(arrived) <= arrived
    {
      hide Chosen, Arrivals, JobsOf, AcksOf, AppliedOf, AnswersOf, AllWellFormed, IsMove, Refusals, Remaining, Script,
           InFlight, Validate;
      var said: seq<bool>, ok := [], false;
      if job.input.Some? {
        ok := CallHandler(job.input.value);
        said := [ok];
      }
      var round := Single(job, ok);
      Apply(round, if job.input.Some? then [job.input.value] else [], said);
      AcknowledgeAll([job], round);
    }

    /**
     Queued moves are taken until the queue is empty or holds something else, which is put aside.
     Their clamped sum is applied once, unless it is zero, and each is acknowledged.
     */
    method HandleMoves(first: Job)
      requires Valid() && batch == [first] && !acking && IsMove(first) && pending == None
      modifies this
      ensures Valid() && batch == [] && !acking
      ensures Remaining() <= old(Remaining()) && Script() == old(Script()) && old(arrived) <= arrived
    {
      hide Chosen, Arrivals, JobsOf, AcksOf, AppliedOf, AnswersOf, AllWellFormed, Refusals, Remaining, Script, InFlight,
           Validate, AllMoves;
      var jobs, dx, dy := Coalesce(first);
      var combined := first.input.value.(x := ClampDelta(dx), y := ClampDelta(dy));
      var said: seq<bool>, ok := [], true;
      if combined.x != 0.0 || combined.y != 0.0 {
        ok := CallHandler(combined);
        said := [ok];
      }
      var round := Merged(jobs, ok);
      Apply(round, if combined.x != 0.0 || combined.y != 0.0 then [combined] else [], said);
      AcknowledgeAll(jobs, round);
    }

    method Coalesce(first: Job) returns (jobs: seq<Job>, dx: real, dy: real)
      requires Valid() && batch == [first] && !acking && IsMove(first) && pending == None
      modifies this`pending, this`batch, this`inputQueue, this`refusals, this`future, this`accepted, this`refused,
               this`arrived
      ensures Valid() && batch == jobs && !acking
      ensures jobs != [] && jobs[0] == first && AllMoves(jobs) && dx == SumX(jobs) && dy == SumY(jobs)
      ensures Remaining() <= old(Remaining()) && Script() == old(Script()) && old(arrived) <= arrived
    {
      hide Chosen, Arrivals, JobsOf, AcksOf, AppliedOf, AnswersOf, AllWellFormed, Refusals, Script, InFlight, Validate;
      jobs, dx, dy := [first], first.input.value.x, first.input.value.y;
      SumsSnoc([], first);
      while true
        invariant Valid() && batch == jobs && !acking && pending == None
        invariant jobs != [] && jobs[0] == first && AllMoves(jobs) && dx == SumX(jobs) && dy == SumY(jobs)
        invariant Remaining() <= old(Remaining()) && Script() == old(Script()) && old(arrived) <= arrived
        decreases Remaining()
      {
        Interfere();
        if inputQueue == [] { break; }
        var next := Take();
        if !IsMove(next) {
          PutAside(next);
          break;
        }
        SumsSnoc(jobs, next);
        jobs := jobs + [next];
        dx := dx + next.input.value.x;
        dy := dy + next.input.value.y;
      }
    }

    lemma NothingInFlight()
      requires Valid() && batch == [] && !acking && pending == None && inputQueue == []
      ensures handled == accepted && acks == AcksOf(rounds)
    {
      hide Chosen, JobsOf, AppliedOf, AllWellFormed, Refusals;
      assert handled + InFlight() == handled && handled + [] == handled;
    }

    /**
     The worker, until it is cancelled or there is nothing left to receive; then every accepted event
     has been acknowledged.
     */
    method RunInputWorker() returns (cancelled: bool)
      requires Valid() && batch == [] && !acking
      modifies this
      ensures Valid() && batch == [] && !acking
      ensures !cancelled ==> handled == accepted && acks == AcksOf(rounds)
      ensures Script() == old(Script()) && old(arrived) <= arrived
    {
      hide Chosen, Arrivals, JobsOf, AcksOf, AppliedOf, AnswersOf, AllWellFormed, Refusals, Script, InFlight, Validate;
      while true
        invariant Valid() && batch == [] && !acking && Script() == old(Script()) && old(arrived) <= arrived
        decreases Remaining()
      {
        var job: Job;
        if pending.Some? {
          job := Resume();
        } else {
          Interfere();
          cancelled := *;
          if cancelled { return; }
          if inputQueue == [] {
            NothingInFlight();
            return;
          }
          job := Take();
        }
        if IsMove(job) {
          HandleMoves(job);
        } else {
          HandleSingle(job);
        }
      }
    }
  }
}
