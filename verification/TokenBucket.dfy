/**
 The limit on input events: a bucket of 100 tokens, filled at 500 a second.

 Time is in seconds, as a real number; rounding is not modelled.
 */
module TokenBucket {
  import opened Sequences

  const RATE := 500.0
  const BURST := 100.0

  datatype Bucket = Bucket(tokens: real, last: Option<real>)

  const NEW_BUCKET := Bucket(0.0, None)

  function Filled(b: Bucket, now: real): real {
    var tokens := if b.last == None then BURST
                  else if now > b.last.value then b.tokens + (now - b.last.value) * RATE
                  else b.tokens;
    if tokens > BURST then BURST else tokens
  }

  /** Whether an event at `now` is let through, and the bucket after it. */
  function Allow(b: Bucket, now: real): (bool, Bucket) {
    var tokens := Filled(b, now);
    if tokens < 1.0 then (false, Bucket(tokens, Some(now))) else (true, Bucket(tokens - 1.0, Some(now)))
  }

  class Limiter {
    var inputTokens: real
    var inputLast: Option<real>

    ghost function Model(): Bucket
      reads this
    {
      Bucket(inputTokens, inputLast)
    }

    constructor ()
      ensures Model() == NEW_BUCKET
    {
      inputTokens, inputLast := 0.0, None;
    }

    method AllowInputEvent(now: real) returns (allowed: bool)
      modifies this
      ensures (allowed, Model()) == Allow(old(Model()), now)
    {
      if inputLast == None {
        inputLast := Some(now);
        inputTokens := BURST;
      }
      var elapsed := now - inputLast.value;
      if elapsed > 0.0 {
        inputTokens := inputTokens + elapsed * RATE;
      }
      if inputTokens > BURST {
        inputTokens := BURST;
      }
      inputLast := Some(now);
      if inputTokens < 1.0 { return false; }
      inputTokens := inputTokens - 1.0;
      return true;
    }
  }

  // ---- Streams of events ----

  ghost predicate Nondecreasing(times: seq<real>) {
    forall i, j :: 0 <= i < j < |times| ==> times[i] <= times[j]
  }

  /** The bucket after the first `n` events. */
  function After(times: seq<real>, n: nat): Bucket
    requires n <= |times|
  {
    if n == 0 then NEW_BUCKET else Allow(After(times, n - 1), times[n - 1]).1
  }

  predicate Admitted(times: seq<real>, k: nat)
    requires k < |times|
  {
    Allow(After(times, k), times[k]).0
  }

  /** How many of the events i..j are let through. */
  function Count(times: seq<real>, i: nat, j: nat): nat
    requires i <= j <= |times|
  {
    if i == j then 0 else Count(times, i, j - 1) + (if Admitted(times, j - 1) then 1 else 0)
  }

  /** What the bucket allows in the window from event i to event j, both included. */
  function Allowance(times: seq<real>, i: nat, j: nat): real
    requires i <= j < |times|
  {
    100.0 + 500.0 * (times[j] - times[i])
  }

  lemma {:induction false} TokensPlusCount(times: seq<real>, i: nat, j: nat)
    requires Nondecreasing(times) && i < j <= |times|
    ensures After(times, j).tokens + Count(times, i, j) as real <= Allowance(times, i, j - 1)
    decreases j
  {
    if j == i + 1 {
      assert Count(times, i, i) == 0;
    } else {
      TokensPlusCount(times, i, j - 1);
      assert times[j - 2] <= times[j - 1];
      LastIs(times, j - 1);
      assert Filled(After(times, j - 1), times[j - 1]) <=
             After(times, j - 1).tokens + RATE * (times[j - 1] - times[j - 2]);
    }
  }

  lemma LastIs(times: seq<real>, n: nat)
    requires 1 <= n <= |times|
    ensures After(times, n).last == Some(times[n - 1])
  {
  }

  lemma {:induction false} TokensNotNegative(times: seq<real>, n: nat)
    requires n <= |times|
    ensures After(times, n).tokens >= 0.0
  {
    if n > 0 {
      TokensNotNegative(times, n - 1);
    }
  }

  /** In every window of a stream, at most 100 events and 500 for each second of it are let through. */
  lemma NeverAbove(times: seq<real>, i: nat, j: nat)
    requires Nondecreasing(times) && i <= j < |times|
    ensures Count(times, i, j + 1) as real <= Allowance(times, i, j)
  {
    TokensPlusCount(times, i, j + 1);
    TokensNotNegative(times, j + 1);
  }

  /** The stream itself stays within the allowance of every window. */
  ghost predicate Conforming(times: seq<real>) {
    forall i, j :: 0 <= i <= j < |times| ==> (j - i + 1) as real <= Allowance(times, i, j)
  }

  /**
   While a conforming stream is admitted in full, the bucket holds exactly what some window of it
   has left over; so the next event is admitted as well.
   */
  lemma {:induction false} ConformingIsAdmitted(times: seq<real>, n: nat) returns (start: nat)
    requires Nondecreasing(times) && Conforming(times) && 1 <= n <= |times|
    ensures start < n
    ensures After(times, n).tokens == Allowance(times, start, n - 1) - (n - start) as real
    ensures forall k: nat :: k < n ==> Admitted(times, k)
  {
    if n == 1 {
      start := 0;
    } else {
      start := ConformingIsAdmitted(times, n - 1);
      LastIs(times, n - 1);
      assert times[n - 2] <= times[n - 1];
      assert (n - start) as real <= Allowance(times, start, n - 1);
      if Filled(After(times, n - 1), times[n - 1]) == BURST {
        start := n - 1;
      }
    }
  }

  /** Nothing of a stream is refused exactly when every window of it is within its allowance. */
  lemma AdmittedIffConforming(times: seq<real>)
    requires Nondecreasing(times)
    ensures (forall k: nat :: k < |times| ==> Admitted(times, k)) <==> Conforming(times)
  {
    if Conforming(times) {
      if times != [] {
        var start := ConformingIsAdmitted(times, |times|);
      }
    } else {
      var i, j :| 0 <= i <= j < |times| && !((j - i + 1) as real <= Allowance(times, i, j));
      NeverAbove(times, i, j);
      if forall k: nat :: k < |times| ==> Admitted(times, k) {
        AllCount(times, i, j + 1);
      }
    }
  }

  lemma {:induction false} AllCount(times: seq<real>, i: nat, j: nat)
    requires i <= j <= |times| && forall k: nat :: k < |times| ==> Admitted(times, k)
    ensures Count(times, i, j) == j - i
    decreases j - i
  {
    if i < j {
      AllCount(times, i, j - 1);
    }
  }
}
