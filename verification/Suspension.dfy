/** Suspension of workers after low scores, with doubling periods
    (internal/service/scoring.go:210-228). Times are in seconds. */
module Suspension {
  import opened Wrappers
  import opened Powers

  datatype Worker = Worker(suspendedUntil: Option<int>, violations: nat)

  predicate IsSuspended(w: Worker, now: int)
  {
    w.suspendedUntil.Some? && w.suspendedUntil.value > now
  }

  /** The period of the `v`-th violation, in minutes. */
  function Minutes(base: nat, v: nat): nat
  {
    if v <= 1 then base else 2 * Minutes(base, v - 1)
  }

  /** One more violation: the period is added to a suspension still running, or
      starts now. Disabled by a threshold of zero or less. */
  function Punished(w: Worker, threshold: int, base: nat, now: int): Worker
  {
    if threshold <= 0 then w
    else
      var from := if IsSuspended(w, now) then w.suspendedUntil.value else now;
      Worker(Some(from + 60 * Minutes(base, w.violations + 1)), w.violations + 1)
  }

  method MaybeSuspend(w: Worker, threshold: int, base: nat, now: int) returns (after: Worker)
    ensures after == Punished(w, threshold, base, now)
  {
    if threshold <= 0 {
      return w;
    }
    var violations := w.violations + 1;
    var minutes := base;
    for i := 1 to violations
      invariant minutes == Minutes(base, i)
    {
      minutes := minutes * 2;
    }
    var until := now + 60 * minutes;
    if IsSuspended(w, now) {
      until := w.suspendedUntil.value + 60 * minutes;
    }
    after := Worker(Some(until), violations);
  }

  /** A running suspension never gets shorter. */
  lemma NeverShorter(w: Worker, threshold: int, base: nat, now: int)
    requires IsSuspended(w, now)
    ensures IsSuspended(Punished(w, threshold, base, now), now)
    ensures Punished(w, threshold, base, now).suspendedUntil.value >= w.suspendedUntil.value
  {
  }

  /// ## Repeated violations

  /** A worker with a clean record after violations at these times. */
  function Repeated(times: seq<int>, threshold: int, base: nat): Worker
  {
    if times == [] then Worker(None, 0)
    else Punished(Repeated(times[..|times| - 1], threshold, base), threshold, base, times[|times| - 1])
  }

  /** The periods of the first `k` violations together, in seconds. */
  function Backoff(base: nat, k: nat): nat
  {
    if k == 0 then 0 else Backoff(base, k - 1) + 60 * Minutes(base, k)
  }

  lemma {:induction false} BackoffIsGeometric(base: nat, k: nat)
    ensures k > 0 ==> Minutes(base, k) == base * Pow2(k - 1)
    ensures Backoff(base, k) == 60 * (base * (Pow2(k) - 1))
    decreases k
  {
    if k > 0 {
      BackoffIsGeometric(base, k - 1);
      DoubleStep(base, Pow2(k - 1));
    }
  }

  lemma DoubleStep(base: nat, p: nat)
    ensures base * (2 * p - 1) == base * (p - 1) + base * p
    ensures 2 * (base * p) == base * (2 * p)
  {
  }

  /** One more violation: with a threshold, the worker is suspended for 2^v times the
      base period of minutes, `v` the violations before, from now or from the end of a
      suspension that still runs; without one nothing happens. */
  lemma PunishmentLaw(w: Worker, threshold: int, base: nat, now: int)
    ensures var after := Punished(w, threshold, base, now);
      && (threshold <= 0 ==> after == w)
      && (threshold > 0 ==>
            && after.violations == w.violations + 1 && after.suspendedUntil.Some?
            && after.suspendedUntil.value - 60 * (base * Pow2(w.violations))
               == if w.suspendedUntil.Some? && w.suspendedUntil.value > now then w.suspendedUntil.value else now)
  {
    BackoffIsGeometric(base, w.violations + 1);
  }

  /** Every violation falls into, or at the end of, the periods before it. */
  predicate WhileSuspended(times: seq<int>, base: nat)
  {
    forall i :: 0 < i < |times| ==> times[i] <= times[0] + Backoff(base, i)
  }

  lemma {:induction false} RepeatedAtLeast(times: seq<int>, threshold: int, base: nat)
    requires times != [] && threshold > 0
    ensures var w, end := Repeated(times, threshold, base), times[0] + Backoff(base, |times|);
      && w.violations == |times| && w.suspendedUntil.Some? && w.suspendedUntil.value >= end
      && (w.suspendedUntil.value == end <==> WhileSuspended(times, base))
    decreases |times|
  {
    var front, k := times[..|times| - 1], |times|;
    if k == 1 {
      assert Repeated(front, threshold, base) == Worker(None, 0);
    } else {
      RepeatedAtLeast(front, threshold, base);
      assert WhileSuspended(times, base) <==>
        (WhileSuspended(front, base) && times[k - 1] <= times[0] + Backoff(base, k - 1));
    }
  }

  /** `k` violations from a clean record suspend until base * (2^k - 1) minutes
      after the first, exactly when each one lands before the periods so far have
      run out; otherwise they suspend for longer. */
  lemma BackoffClosedForm(times: seq<int>, threshold: int, base: nat)
    requires times != [] && threshold > 0
    ensures var w, end := Repeated(times, threshold, base), times[0] + 60 * (base * (Pow2(|times|) - 1));
      && w.violations == |times| && w.suspendedUntil.Some? && w.suspendedUntil.value >= end
      && (w.suspendedUntil.value == end <==> WhileSuspended(times, base))
  {
    RepeatedAtLeast(times, threshold, base);
    BackoffIsGeometric(base, |times|);
  }
}
