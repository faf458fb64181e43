/**
 What merging pointer moves preserves.

 A path records the events other than moves, in order, with the displacement made before each. It is
 what the user sees: two event sequences with the same path leave the pointer in the same place at
 every click and key press.
 */
module InputOrder {
  import opened Sequences
  import opened RemoteInputs
  import opened InputWorker

  datatype Stop = Stop(dx: real, dy: real, event: RemoteInput)
  datatype Path = Path(stops: seq<Stop>, dx: real, dy: real)

  function Extend(p: Path, e: RemoteInput): Path {
    if e.kind == POINTER_MOVE then p.(dx := p.dx + e.x, dy := p.dy + e.y)
    else Path(p.stops + [Stop(p.dx, p.dy, e)], 0.0, 0.0)
  }

  function PathOf(events: seq<RemoteInput>): Path {
    if events == [] then Path([], 0.0, 0.0)
    else Extend(PathOf(events[..|events| - 1]), events[|events| - 1])
  }

  /** The inputs that decoded, in order. */
  function Inputs(jobs: seq<Job>): seq<RemoteInput> {
    if jobs == [] then []
    else
      var last := jobs[|jobs| - 1];
      Inputs(jobs[..|jobs| - 1]) + (if last.input.Some? then [last.input.value] else [])
  }

  lemma PathSnoc(events: seq<RemoteInput>, e: RemoteInput)
    ensures PathOf(events + [e]) == Extend(PathOf(events), e)
  {
    assert (events + [e])[..|events|] == events;
  }

  lemma {:induction false} InputsAppend(a: seq<Job>, b: seq<Job>)
    ensures Inputs(a + b) == Inputs(a) + Inputs(b)
    decreases |b|
  {
    if b == [] {
      assert a + b == a;
    } else {
      InputsAppend(a, b[..|b| - 1]);
      assert (a + b)[..|a + b| - 1] == a + b[..|b| - 1];
    }
  }

  lemma InputsSnoc(jobs: seq<Job>, job: Job)
    requires IsMove(job)
    ensures Inputs(jobs + [job]) == Inputs(jobs) + [job.input.value]
  {
    assert (jobs + [job])[..|jobs|] == jobs;
  }

  /** A run of moves adds its sum to the displacement. */
  lemma {:induction false} MovesAddUp(events: seq<RemoteInput>, jobs: seq<Job>)
    requires AllMoves(jobs)
    ensures var p := PathOf(events);
            PathOf(events + Inputs(jobs)) == p.(dx := p.dx + SumX(jobs), dy := p.dy + SumY(jobs))
    decreases |jobs|
  {
    if jobs == [] {
      assert events + [] == events;
    } else {
      hide PathOf, Inputs, SumX, SumY;
      var before, last := jobs[..|jobs| - 1], jobs[|jobs| - 1];
      assert IsMove(last) && jobs == before + [last];
      MovesAddUp(events, before);
      InputsSnoc(before, last);
      SumsSnoc(before, last);
      assert events + (Inputs(before) + [last.input.value]) == (events + Inputs(before)) + [last.input.value];
      PathSnoc(events + Inputs(before), last.input.value);
    }
  }

  /** The sum of the round's moves is one the handler accepts as it is. */
  ghost predicate Unclamped(r: Round) {
    r.Merged? ==> WithinDelta(SumX(r.jobs)) && WithinDelta(SumY(r.jobs))
  }

  lemma InputsOne(job: Job)
    ensures Inputs([job]) == if job.input.Some? then [job.input.value] else []
  {
    assert [job][..0] == [];
  }

  lemma RoundKeepsPath(events: seq<RemoteInput>, r: Round)
    requires WellFormed(r) && Unclamped(r)
    ensures PathOf(events + AppliedIn(r)) == PathOf(events + Inputs(JobsIn(r)))
  {
    hide PathOf, SumX, SumY, Validate;
    match r
    case Single(job, _) => InputsOne(job);
    case Merged(jobs, _) =>
      MovesAddUp(events, jobs);
      if AppliedIn(r) == [] {
        assert events + [] == events;
      } else {
        PathSnoc(events, Combined(jobs));
      }
  }

  lemma NothingToPath()
    ensures PathOf([]) == PathOf(Inputs([]))
  {
  }

  /** Unless a sum is clamped, what is applied has the same path as what was handled. */
  lemma {:induction false} AppliedKeepsPath(rounds: seq<Round>)
    requires AllWellFormed(rounds)
    requires forall i :: 0 <= i < |rounds| ==> Unclamped(rounds[i])
    ensures PathOf(AppliedOf(rounds)) == PathOf(Inputs(JobsOf(rounds)))
    decreases |rounds|
  {
    hide PathOf, Inputs, SumX, SumY, JobsIn, AppliedIn, WellFormed;
    if rounds == [] {
      NothingToPath();
    } else {
      var before, last := rounds[..|rounds| - 1], rounds[|rounds| - 1];
      AppliedKeepsPath(before);
      assert rounds == before + [last];
      assert WellFormed(last);
      RoundsSnoc(before, last);
      InputsAppend(JobsOf(before), JobsIn(last));
      RoundKeepsPath(AppliedOf(before), last);
      SamePathExtended(AppliedOf(before), Inputs(JobsOf(before)), Inputs(JobsIn(last)));
    }
  }

  lemma {:induction false} SamePathExtended(a: seq<RemoteInput>, b: seq<RemoteInput>, more: seq<RemoteInput>)
    requires PathOf(a) == PathOf(b)
    ensures PathOf(a + more) == PathOf(b + more)
    decreases |more|
  {
    hide PathOf;
    if more == [] {
      assert a + more == a && b + more == b;
    } else {
      var before, last := more[..|more| - 1], more[|more| - 1];
      SamePathExtended(a, b, before);
      PathSnoc(a + before, last);
      PathSnoc(b + before, last);
      assert a + more == (a + before) + [last] && b + more == (b + before) + [last];
    }
  }

  /** How the queue happened to be cut into rounds makes no difference to the path. */
  lemma ScheduleIndependent(r: seq<Round>, s: seq<Round>)
    requires AllWellFormed(r) && AllWellFormed(s) && JobsOf(r) == JobsOf(s)
    requires forall i :: 0 <= i < |r| ==> Unclamped(r[i])
    requires forall i :: 0 <= i < |s| ==> Unclamped(s[i])
    ensures PathOf(AppliedOf(r)) == PathOf(AppliedOf(s))
  {
    AppliedKeepsPath(r);
    AppliedKeepsPath(s);
  }

  /** The clamp is the only loss: a merged round keeps its path exactly when its sums fit. */
  lemma PathKeptIffUnclamped(r: Round)
    requires WellFormed(r)
    ensures PathOf(AppliedIn(r)) == PathOf(Inputs(JobsIn(r))) <==> Unclamped(r)
  {
    hide PathOf, SumX, SumY, Validate, Inputs;
    var none: seq<RemoteInput> := [];
    assert none + AppliedIn(r) == AppliedIn(r) && none + Inputs(JobsIn(r)) == Inputs(JobsIn(r));
    if Unclamped(r) {
      RoundKeepsPath(none, r);
    } else {
      MovesAddUp(none, r.jobs);
      PathSnoc(none, Combined(r.jobs));
      assert AppliedIn(r) == [Combined(r.jobs)];
      assert none + [Combined(r.jobs)] == [Combined(r.jobs)];
    }
  }

  // ---- Every schedule ----

  /** A schedule: turns of the worker that handle these events, in order. */
  ghost predicate IsSchedule(rounds: seq<Round>, jobs: seq<Job>) {
    AllWellFormed(rounds) && JobsOf(rounds) == jobs
  }

  /** However the worker gets to merge the moves, the path is that of the arrivals. */
  ghost predicate PathAlwaysKept(jobs: seq<Job>) {
    forall rounds :: IsSchedule(rounds, jobs) ==> PathOf(AppliedOf(rounds)) == PathOf(Inputs(jobs))
  }

  ghost predicate Fits(run: seq<Job>) {
    WithinDelta(SumX(run)) && WithinDelta(SumY(run))
  }

  /** No run of moves standing side by side adds up to more than the handler accepts, on either axis. */
  ghost predicate RunsFit(jobs: seq<Job>) {
    forall i, j :: 0 <= i < j <= |jobs| && AllMoves(jobs[i..j]) ==> Fits(jobs[i..j])
  }

  lemma RunsFitPrefix(jobs: seq<Job>, n: nat)
    requires RunsFit(jobs) && n <= |jobs|
    ensures RunsFit(jobs[..n])
  {
    hide Fits, AllMoves;
    forall i, j | 0 <= i < j <= n && AllMoves(jobs[..n][i..j]) ensures Fits(jobs[..n][i..j]) {
      assert jobs[..n][i..j] == jobs[i..j];
    }
  }

  lemma RunsFitSplit(jobs: seq<Job>, before: seq<Job>, r: Round)
    requires RunsFit(jobs) && jobs == before + JobsIn(r) && WellFormed(r)
    ensures RunsFit(before) && Unclamped(r)
  {
    hide RunsFit, WellFormed, Unclamped, JobsIn;
    var n := |before|;
    assert jobs[..n] == before && jobs[n..|jobs|] == JobsIn(r);
    RunsFitPrefix(jobs, n);
    LastFits(jobs, n, r);
  }

  lemma {:induction false} RunsFitUnclamped(rounds: seq<Round>)
    requires AllWellFormed(rounds) && RunsFit(JobsOf(rounds))
    ensures forall i :: 0 <= i < |rounds| ==> Unclamped(rounds[i])
    decreases |rounds|
  {
    hide RunsFit, WellFormed, Unclamped, JobsIn;
    if rounds != [] {
      var before, last := rounds[..|rounds| - 1], rounds[|rounds| - 1];
      assert WellFormed(last);
      RunsFitSplit(JobsOf(rounds), JobsOf(before), last);
      RunsFitUnclamped(before);
      assert rounds == before + [last];
    }
  }

  lemma LastFits(jobs: seq<Job>, n: nat, r: Round)
    requires RunsFit(jobs) && n <= |jobs| && jobs[n..|jobs|] == JobsIn(r) && WellFormed(r)
    ensures Unclamped(r)
  {
    hide SumX, SumY;
    if r.Merged? { assert Fits(jobs[n..|jobs|]); }
  }

  /** One turn for one event. */
  function Alone(job: Job): Round {
    if IsMove(job) then Merged([job], true) else Single(job, job.input.Some?)
  }

  function OneByOne(jobs: seq<Job>): seq<Round> {
    if jobs == [] then [] else OneByOne(jobs[..|jobs| - 1]) + [Alone(jobs[|jobs| - 1])]
  }

  lemma AloneApplies(job: Job)
    requires Decoded(job)
    ensures WellFormed(Alone(job)) && JobsIn(Alone(job)) == [job] && AppliedIn(Alone(job)) == Inputs([job])
  {
    InputsOne(job);
    if IsMove(job) {
      assert AllMoves([job]);
      assert [] + [job] == [job];
      SumOfNone();
      SumsSnoc([], job);
      assert Combined([job]) == job.input.value;
    }
  }

  lemma OneMoreAlone(rounds: seq<Round>, front: seq<Job>, last: Job)
    requires IsSchedule(rounds, front) && AppliedOf(rounds) == Inputs(front) && Decoded(last)
    ensures IsSchedule(rounds + [Alone(last)], front + [last])
    ensures AppliedOf(rounds + [Alone(last)]) == Inputs(front + [last])
  {
    AloneApplies(last);
    hide Decoded, Inputs, JobsOf, AppliedOf, AllWellFormed, WellFormed, AppliedIn, JobsIn, Alone;
    RoundsSnoc(rounds, Alone(last));
    InputsAppend(front, [last]);
  }

  /** Events handled one by one are applied as they came. */
  lemma {:induction false} OneByOneApplies(jobs: seq<Job>)
    requires forall i :: 0 <= i < |jobs| ==> Decoded(jobs[i])
    ensures IsSchedule(OneByOne(jobs), jobs) && AppliedOf(OneByOne(jobs)) == Inputs(jobs)
    decreases |jobs|
  {
    hide Decoded, Inputs, Alone, AppliedOf, IsSchedule;
    if jobs == [] {
      NoRounds();
    } else {
      var front, last := jobs[..|jobs| - 1], jobs[|jobs| - 1];
      OneByOneApplies(front);
      OneMoreAlone(OneByOne(front), front, last);
      assert jobs == front + [last];
    }
  }

  lemma NoRounds()
    ensures IsSchedule([], []) && AppliedOf([]) == [] && OneByOne([]) == [] && Inputs([]) == []
  {
  }

  lemma Regroup<T>(a: seq<T>, b: seq<T>, c: seq<T>)
    ensures a + (b + c) == (a + b) + c
  {
  }

  lemma {:induction false} RoundsAppend(a: seq<Round>, b: seq<Round>)
    requires AllWellFormed(a) && AllWellFormed(b)
    ensures AllWellFormed(a + b)
    ensures JobsOf(a + b) == JobsOf(a) + JobsOf(b)
    ensures AppliedOf(a + b) == AppliedOf(a) + AppliedOf(b)
    decreases |b|
  {
    hide JobsIn, AppliedIn, SumX, SumY;
    if b == [] {
      assert a + b == a;
    } else {
      var front, last := b[..|b| - 1], b[|b| - 1];
      assert b == front + [last] && a + b == (a + front) + [last] && WellFormed(last);
      RoundsAppend(a, front);
      hide JobsOf, AppliedOf;
      RoundsSnoc(front, last);
      RoundsSnoc(a + front, last);
      Regroup(JobsOf(a), JobsOf(front), JobsIn(last));
      Regroup(AppliedOf(a), AppliedOf(front), AppliedIn(last));
    }
  }

  /** Paths that differ stay different under whatever follows. */
  lemma {:induction false} PathsStayApart(a: seq<RemoteInput>, b: seq<RemoteInput>, more: seq<RemoteInput>)
    requires PathOf(a + more) == PathOf(b + more)
    ensures PathOf(a) == PathOf(b)
    decreases |more|
  {
    hide PathOf;
    if more == [] {
      assert a + more == a && b + more == b;
    } else {
      var before, last := more[..|more| - 1], more[|more| - 1];
      assert a + more == (a + before) + [last] && b + more == (b + before) + [last];
      PathSnoc(a + before, last);
      PathSnoc(b + before, last);
      ExtendInjective(PathOf(a + before), PathOf(b + before), last);
      PathsStayApart(a, b, before);
    }
  }

  lemma ExtendInjective(p: Path, q: Path, e: RemoteInput)
    requires Extend(p, e) == Extend(q, e)
    ensures p == q
  {
    if e.kind != POINTER_MOVE {
      assert Extend(p, e).stops[|p.stops|] == Extend(q, e).stops[|q.stops|];
      assert p.stops == Extend(p, e).stops[..|p.stops|] && q.stops == Extend(q, e).stops[..|q.stops|];
    }
  }

  /** A merged round that is clamped changes the path, wherever it stands. */
  lemma ClampedChangesPath(events: seq<RemoteInput>, jobs: seq<Job>)
    requires jobs != [] && AllMoves(jobs) && !Fits(jobs)
    ensures PathOf(events + AppliedIn(Merged(jobs, true))) != PathOf(events + Inputs(jobs))
  {
    hide PathOf, SumX, SumY, Validate, Inputs;
    MovesAddUp(events, jobs);
    PathSnoc(events, Combined(jobs));
    assert IsMove(jobs[0]);
    assert AppliedIn(Merged(jobs, true)) == [Combined(jobs)];
  }

  lemma OneRound(r: Round)
    requires WellFormed(r)
    ensures AllWellFormed([r]) && JobsOf([r]) == JobsIn(r) && AppliedOf([r]) == AppliedIn(r)
  {
    hide AppliedIn, JobsIn, SumX, SumY;
    NoRounds();
    RoundsSnoc([], r);
    assert [] + [r] == [r] && [] + JobsIn(r) == JobsIn(r) && [] + AppliedIn(r) == AppliedIn(r);
  }

  lemma ThreeParts(a: seq<Round>, r: Round, c: seq<Round>)
    requires AllWellFormed(a) && WellFormed(r) && AllWellFormed(c)
    ensures AllWellFormed(a + [r] + c)
    ensures JobsOf(a + [r] + c) == JobsOf(a) + JobsIn(r) + JobsOf(c)
    ensures AppliedOf(a + [r] + c) == AppliedOf(a) + AppliedIn(r) + AppliedOf(c)
  {
    OneRound(r);
    hide AppliedIn, JobsIn, JobsOf, AppliedOf, AllWellFormed, SumX, SumY;
    RoundsAppend(a, [r]);
    RoundsAppend(a + [r], c);
  }

  /** The schedule that handles the run i..j at once and everything else one by one. */
  lemma OneMerge(jobs: seq<Job>, i: nat, j: nat) returns (rounds: seq<Round>)
    requires forall k :: 0 <= k < |jobs| ==> Decoded(jobs[k])
    requires i < j <= |jobs| && AllMoves(jobs[i..j]) && !Fits(jobs[i..j])
    ensures IsSchedule(rounds, jobs)
    ensures AppliedOf(rounds) == Inputs(jobs[..i]) + AppliedIn(Merged(jobs[i..j], true)) + Inputs(jobs[j..])
  {
    hide Decoded, Inputs, OneByOne, JobsOf, AppliedOf, AllWellFormed;
    var before, merged, after := OneByOne(jobs[..i]), Merged(jobs[i..j], true), OneByOne(jobs[j..]);
    OneByOneApplies(jobs[..i]);
    OneByOneApplies(jobs[j..]);
    assert WellFormed(merged);
    hide WellFormed, Fits;
    ThreeParts(before, merged, after);
    rounds := before + [merged] + after;
    assert jobs == jobs[..i] + jobs[i..j] + jobs[j..];
  }

  lemma MergeChangesPath(jobs: seq<Job>, i: nat, j: nat)
    requires forall k :: 0 <= k < |jobs| ==> Decoded(jobs[k])
    requires i < j <= |jobs| && AllMoves(jobs[i..j]) && !Fits(jobs[i..j])
    ensures !PathAlwaysKept(jobs)
  {
    hide PathOf, Inputs, AppliedOf, AppliedIn, Fits, Decoded, AllWellFormed;
    var rounds := OneMerge(jobs, i, j);
    var before, run, after := Inputs(jobs[..i]), jobs[i..j], Inputs(jobs[j..]);
    InputsAppend(jobs[..i], run);
    InputsAppend(jobs[..i] + run, jobs[j..]);
    assert jobs == jobs[..i] + run + jobs[j..];
    ClampedChangesPath(before, run);
    if PathOf(AppliedOf(rounds)) == PathOf(Inputs(jobs)) {
      PathsStayApart(before + AppliedIn(Merged(run, true)), before + Inputs(run), after);
    }
  }

  /**
   Whatever the schedule, the path of the arrivals is kept: exactly when no run of moves standing
   side by side adds up to more than 10000 on an axis.
   */
  lemma PathAlwaysKeptIff(jobs: seq<Job>)
    requires forall i :: 0 <= i < |jobs| ==> Decoded(jobs[i])
    ensures PathAlwaysKept(jobs) <==> RunsFit(jobs)
  {
    hide PathOf, AppliedOf, Inputs, Decoded, Fits, AllMoves;
    if RunsFit(jobs) {
      forall rounds | IsSchedule(rounds, jobs) ensures PathOf(AppliedOf(rounds)) == PathOf(Inputs(jobs)) {
        RunsFitUnclamped(rounds);
        AppliedKeepsPath(rounds);
      }
    } else {
      var i, j :| 0 <= i < j <= |jobs| && AllMoves(jobs[i..j]) && !Fits(jobs[i..j]);
      MergeChangesPath(jobs, i, j);
    }
  }

  function MoveBy(x: real): RemoteInput {
    RemoteInput(POINTER_MOVE, ACTION_NONE, 0, 0, x, 0.0, Utf8([]))
  }

  /** Two valid moves of 10000 that are merged come out as one of 10000. */
  lemma ClampLoses(a: nat, b: nat)
    ensures var job := Job(a, Some(MoveBy(MAX_DELTA)));
            var jobs := [job, Job(b, Some(MoveBy(MAX_DELTA)))];
            && Decoded(job) && WellFormed(Merged(jobs, true))
            && PathOf(Inputs(jobs)).dx == 20000.0
            && PathOf(AppliedIn(Merged(jobs, true))).dx == 10000.0
  {
    hide PathOf, Inputs, SumX, SumY, Validate;
    var first, second := Job(a, Some(MoveBy(MAX_DELTA))), Job(b, Some(MoveBy(MAX_DELTA)));
    assert Validate(MoveBy(MAX_DELTA)) by { MoveByIsValid(); }
    SumOfNone();
    SumsSnoc([], first);
    SumsSnoc([first], second);
    assert [] + [first] == [first] && [first] + [second] == [first, second];
    MovesFromRest([first, second]);
    PathSnoc([], Combined([first, second]));
    assert [] + [Combined([first, second])] == [Combined([first, second])];
    assert AppliedIn(Merged([first, second], true)) == [Combined([first, second])];
  }

  lemma MoveByIsValid()
    ensures Validate(MoveBy(MAX_DELTA))
  {
  }

  lemma MovesFromRest(jobs: seq<Job>)
    requires AllMoves(jobs)
    ensures PathOf(Inputs(jobs)).dx == SumX(jobs) && PathOf([]).dx == 0.0
  {
    MovesAddUp([], jobs);
    assert [] + Inputs(jobs) == Inputs(jobs);
  }

  lemma SumOfNone()
    ensures SumX([]) == 0.0 && SumY([]) == 0.0
  {
  }

  /** Every input given to the handler passes the daemon's validation, merged moves included. */
  lemma {:induction false} AppliedIsValid(rounds: seq<Round>)
    requires AllWellFormed(rounds)
    requires forall i :: 0 <= i < |JobsOf(rounds)| ==> Decoded(JobsOf(rounds)[i])
    ensures forall i :: 0 <= i < |AppliedOf(rounds)| ==> Validate(AppliedOf(rounds)[i])
    decreases |rounds|
  {
    if rounds != [] {
      var before, last := rounds[..|rounds| - 1], rounds[|rounds| - 1];
      assert rounds == before + [last];
      RoundsSnoc(before, last);
      var earlier := JobsOf(before);
      assert forall i :: 0 <= i < |earlier| ==> JobsOf(rounds)[i] == earlier[i];
      AppliedIsValid(before);
      assert JobsOf(rounds)[|earlier|] == JobsIn(last)[0];
      assert Decoded(JobsIn(last)[0]);
    }
  }
}
