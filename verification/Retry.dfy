/** Exponential backoff (internal/infrastructure/resilience/retry.go). Durations are int64 nanoseconds. */
module Retry {
  import opened Text

  const UINT64: nat := 0x1_0000_0000_0000_0000
  const INT64_MAX: int := 0x7fff_ffff_ffff_ffff

  type uint64 = n: nat | n < UINT64

  /** An atomic counter after n increments. */
  function Bumped(c: uint64, n: nat): uint64 {
    (c + n) % UINT64
  }

  /** atomic.Uint64.Add(1). */
  function Increment(c: uint64): uint64 {
    (c + 1) % UINT64
  }

  lemma BumpedZero(c: uint64)
    ensures Bumped(c, 0) == c
  {
  }

  lemma BumpedOnce(c: uint64, n: nat)
    ensures Increment(Bumped(c, n)) == Bumped(c, n + 1)
  {
  }

  function RetriesCounted(sleeps: nat): nat {
    if sleeps == 0 then 0 else sleeps - 1
  }

  /** Two's-complement wrap-around of an int64 result. */
  function Wrap64(x: int): int {
    (x + INT64_MAX + 1) % UINT64 - INT64_MAX - 1
  }

  /** Doubled, then capped if a cap is set. */
  function NextDelay(delay: int, maxDelay: int): int {
    var d := Wrap64(delay * 2);
    if maxDelay > 0 && d > maxDelay then maxDelay else d
  }

  function DelayAt(initialDelay: int, maxDelay: int, k: nat): int {
    if k == 0 then initialDelay else NextDelay(DelayAt(initialDelay, maxDelay, k - 1), maxDelay)
  }

  /** The first n sleeps. */
  function Delays(initialDelay: int, maxDelay: int, n: nat): (s: seq<int>)
    ensures |s| == n && forall k :: 0 <= k < n ==> s[k] == DelayAt(initialDelay, maxDelay, k)
  {
    if n == 0 then [] else Delays(initialDelay, maxDelay, n - 1) + [DelayAt(initialDelay, maxDelay, n - 1)]
  }

  /** The number of calls made when call k fails with `outcome(k)`, from attempt `from` on. */
  function CallsMade(outcome: nat -> Option<string>, from: nat, maxAttempts: int): (n: nat)
    ensures from < maxAttempts ==> from < n <= maxAttempts
    ensures from >= maxAttempts ==> n == from
    ensures forall k :: from <= k < n - 1 ==> outcome(k).Some?
    ensures from < n < maxAttempts ==> outcome(n - 1).None?
    decreases maxAttempts - from
  {
    if from >= maxAttempts then from
    else if outcome(from).None? then from + 1
    else CallsMade(outcome, from + 1, maxAttempts)
  }

  class RetryPolicy {
    const maxAttempts: int
    const initialDelay: int
    const maxDelay: int
    var totalRetries: uint64
    var totalAttempts: uint64

    constructor (maxAttempts: int, initialDelay: int, maxDelay: int)
      ensures this.maxAttempts == maxAttempts && this.initialDelay == initialDelay && this.maxDelay == maxDelay
      ensures totalRetries == 0 && totalAttempts == 0
    {
      this.maxAttempts, this.initialDelay, this.maxDelay := maxAttempts, initialDelay, maxDelay;
      totalRetries, totalAttempts := 0, 0;
    }

    /** `outcome(k)` is the error of call k, if any; `sleeps` are the durations slept. */
    method Retry(outcome: nat -> Option<string>) returns (err: Option<string>, calls: nat, sleeps: seq<int>)
      modifies this
      ensures calls == CallsMade(outcome, 0, maxAttempts)
      ensures err == if calls == 0 then None else outcome(calls - 1)
      ensures sleeps == Delays(initialDelay, maxDelay, if calls == 0 then 0 else calls - 1)
      ensures totalAttempts == Bumped(old(totalAttempts), calls)
      ensures totalRetries == Bumped(old(totalRetries), RetriesCounted(|sleeps|))
    {
      hide Wrap64, Bumped, Increment, DelayAt, Delays, CallsMade, RetriesCounted;
      BumpedZero(totalAttempts);
      BumpedZero(totalRetries);
      err, calls, sleeps := None, 0, [];
      var delay := initialDelay;
      var attempt := 0;
      DelayStart(initialDelay, maxDelay);
      CallsDone(outcome, maxAttempts);
      while attempt < maxAttempts
        invariant 0 <= attempt == calls && (attempt > 0 ==> attempt <= maxAttempts)
        invariant |sleeps| == if attempt == 0 || attempt < maxAttempts then attempt else attempt - 1
        invariant delay == DelayAt(initialDelay, maxDelay, |sleeps|)
        invariant err == if calls == 0 then None else outcome(calls - 1)
        invariant CallsMade(outcome, attempt, maxAttempts) == CallsMade(outcome, 0, maxAttempts)
        invariant sleeps == Delays(initialDelay, maxDelay, |sleeps|)
        invariant totalAttempts == Bumped(old(totalAttempts), calls)
        invariant totalRetries == Bumped(old(totalRetries), RetriesCounted(|sleeps|))
      {
        CallsStep(outcome, attempt, maxAttempts);
        BumpedOnce(old(totalAttempts), calls);
        totalAttempts := Increment(totalAttempts);
        err := outcome(attempt);
        calls := calls + 1;
        if err.None? {
          return;
        }
        if attempt < maxAttempts - 1 {
          DelayStep(initialDelay, maxDelay, |sleeps|);
          CountedStep(|sleeps|);
          if attempt > 0 {
            BumpedOnce(old(totalRetries), |sleeps| - 1);
            totalRetries := Increment(totalRetries);
          }
          sleeps := sleeps + [delay];
          delay := Wrap64(delay * 2);
          if maxDelay > 0 && delay > maxDelay {
            delay := maxDelay;
          }
        }
        attempt := attempt + 1;
        CallsDone(outcome, maxAttempts);
      }
    }
  }

  lemma DelayStart(initialDelay: int, maxDelay: int)
    ensures DelayAt(initialDelay, maxDelay, 0) == initialDelay && RetriesCounted(0) == 0
    ensures Delays(initialDelay, maxDelay, 0) == []
  {
  }

  lemma DelayStep(initialDelay: int, maxDelay: int, k: nat)
    ensures DelayAt(initialDelay, maxDelay, k + 1) == NextDelay(DelayAt(initialDelay, maxDelay, k), maxDelay)
    ensures Delays(initialDelay, maxDelay, k + 1)
         == Delays(initialDelay, maxDelay, k) + [DelayAt(initialDelay, maxDelay, k)]
  {
  }

  lemma CountedStep(sleeps: nat)
    ensures RetriesCounted(sleeps) == (if sleeps > 0 then sleeps - 1 else 0) && RetriesCounted(sleeps + 1) == sleeps
  {
  }

  lemma CallsStep(outcome: nat -> Option<string>, from: nat, maxAttempts: int)
    requires from < maxAttempts
    ensures CallsMade(outcome, from, maxAttempts)
         == if outcome(from).None? then from + 1 else CallsMade(outcome, from + 1, maxAttempts)
  {
  }

  lemma CallsDone(outcome: nat -> Option<string>, maxAttempts: int)
    ensures maxAttempts >= 0 ==> CallsMade(outcome, maxAttempts, maxAttempts) == maxAttempts
    ensures maxAttempts <= 0 ==> CallsMade(outcome, 0, maxAttempts) == 0
  {
  }

  // ---------- closed forms ----------

  function Pow2(k: nat): (r: int)
    ensures r >= 1
  {
    if k == 0 then 1 else 2 * Pow2(k - 1)
  }

  predicate FitsInt64(x: int) {
    -INT64_MAX - 1 <= x <= INT64_MAX
  }

  lemma WrapIdentity(x: int)
    ensures FitsInt64(Wrap64(x)) && (Wrap64(x) == x <==> FitsInt64(x))
  {
  }

  lemma {:induction false} Pow2Monotone(j: nat, k: nat)
    requires j <= k
    ensures Pow2(j) <= Pow2(k)
    decreases k
  {
    if j < k {
      Pow2Monotone(j, k - 1);
    }
  }

  lemma {:induction false} Pow2Exceeds(k: nat)
    ensures Pow2(k) > k
  {
    if k > 0 {
      Pow2Exceeds(k - 1);
    }
  }

  lemma ScaleMonotone(a: int, x: int, y: int)
    requires a >= 0 && x <= y
    ensures a * x <= a * y
  {
  }

  /** The undisturbed doubling: sleep k as the documentation has it. */
  function Doubled(initialDelay: int, k: nat): int {
    initialDelay * Pow2(k)
  }

  lemma DoubledStep(initialDelay: int, k: nat)
    ensures Doubled(initialDelay, 0) == initialDelay && Doubled(initialDelay, k + 1) == 2 * Doubled(initialDelay, k)
  {
    assert Pow2(0) == 1 && Pow2(k + 1) == 2 * Pow2(k);
  }

  /** Without a cap sleep k is initialDelay * 2^k exactly if that fits an int64. */
  lemma {:induction false} UncappedDelay(initialDelay: int, maxDelay: int, k: nat)
    requires FitsInt64(initialDelay) && maxDelay <= 0
    ensures FitsInt64(DelayAt(initialDelay, maxDelay, k))
    ensures DelayAt(initialDelay, maxDelay, k) == Doubled(initialDelay, k) <==> FitsInt64(Doubled(initialDelay, k))
  {
    hide Wrap64, Doubled;
    DoubledStep(initialDelay, if k > 0 then k - 1 else 0);
    if k > 0 {
      UncappedDelay(initialDelay, maxDelay, k - 1);
      WrapIdentity(2 * DelayAt(initialDelay, maxDelay, k - 1));
    }
  }

  /** Sleep k with a cap: the smaller of the doubled delay and the cap, but the first is never capped. */
  function CappedForm(initialDelay: int, maxDelay: int, k: nat): int {
    var d := Doubled(initialDelay, k);
    if k > 0 && d > maxDelay then maxDelay else d
  }

  lemma {:induction false} CapHolds(initialDelay: int, maxDelay: int, k: nat)
    requires FitsInt64(initialDelay) && 0 < maxDelay <= INT64_MAX
    requires initialDelay == 0 || (initialDelay > 0 && FitsInt64(2 * initialDelay) && FitsInt64(2 * maxDelay))
    ensures DelayAt(initialDelay, maxDelay, k) == CappedForm(initialDelay, maxDelay, k)
    ensures 0 <= DelayAt(initialDelay, maxDelay, k) && Doubled(initialDelay, k) >= 0
    ensures initialDelay == 0 ==> Doubled(initialDelay, k) == 0
  {
    hide Wrap64, Doubled;
    DoubledStep(initialDelay, if k > 0 then k - 1 else 0);
    if k > 0 {
      CapHolds(initialDelay, maxDelay, k - 1);
      WrapIdentity(2 * DelayAt(initialDelay, maxDelay, k - 1));
    }
  }

  /** Some sleep k >= 1 is not the smaller of the two when a doubling leaves the int64 range. */
  lemma CapFails(initialDelay: int, maxDelay: int) returns (k: nat)
    requires FitsInt64(initialDelay) && 0 < maxDelay <= INT64_MAX
    requires !(initialDelay == 0 || (initialDelay > 0 && FitsInt64(2 * initialDelay) && FitsInt64(2 * maxDelay)))
    ensures k >= 1 && DelayAt(initialDelay, maxDelay, k) != CappedForm(initialDelay, maxDelay, k)
  {
    if initialDelay > 0 && !FitsInt64(2 * initialDelay) {
      k := 1;
      DoubledStep(initialDelay, 0);
      OverflowIsNegative(initialDelay);
      assert DelayAt(initialDelay, maxDelay, 1) == NextDelay(initialDelay, maxDelay);
    } else if initialDelay > 0 {
      k := maxDelay;
      Pow2Exceeds(k);
      ReachesCap(initialDelay, maxDelay, k);
      if DelayAt(initialDelay, maxDelay, k) == maxDelay {
        DoubledStep(initialDelay, k);
        OverflowIsNegative(maxDelay);
        k := k + 1;
      }
    } else {
      k := INT64_MAX + 1;
      NegativeLeaves(initialDelay, k);
      DelayFits(initialDelay, maxDelay, k);
    }
  }

  lemma OverflowIsNegative(x: int)
    requires 0 < x <= INT64_MAX && !FitsInt64(2 * x)
    ensures Wrap64(2 * x) < 0
  {
  }

  lemma ReachesCap(initialDelay: int, maxDelay: int, k: nat)
    requires initialDelay > 0 && Pow2(k) > maxDelay
    ensures Doubled(initialDelay, k) > maxDelay
  {
    ScaleMonotone(Pow2(k), 1, initialDelay);
  }

  lemma NegativeLeaves(x: int, k: nat)
    requires x < 0 && k > INT64_MAX
    ensures !FitsInt64(Doubled(x, k)) && Doubled(x, k) < 0
  {
    var p := Pow2(k);
    Pow2Exceeds(k);
    ScaleMonotone(p, x, -1);
  }

  lemma {:induction false} DelayFits(initialDelay: int, maxDelay: int, k: nat)
    requires FitsInt64(initialDelay) && 0 < maxDelay <= INT64_MAX
    ensures FitsInt64(DelayAt(initialDelay, maxDelay, k))
  {
    if k > 0 {
      DelayFits(initialDelay, maxDelay, k - 1);
    }
  }

  /** With a cap all sleeps after the first are the smaller of the doubled delay and the cap exactly if
      the first delay is zero, or is positive and its double and the cap's double fit an int64. */
  lemma CappedDelay(initialDelay: int, maxDelay: int)
    requires FitsInt64(initialDelay) && 0 < maxDelay <= INT64_MAX
    ensures (forall k: nat :: k >= 1 ==> DelayAt(initialDelay, maxDelay, k) == CappedForm(initialDelay, maxDelay, k))
       <==> initialDelay == 0 || (initialDelay > 0 && FitsInt64(2 * initialDelay) && FitsInt64(2 * maxDelay))
  {
    if initialDelay == 0 || (initialDelay > 0 && FitsInt64(2 * initialDelay) && FitsInt64(2 * maxDelay)) {
      forall k: nat ensures DelayAt(initialDelay, maxDelay, k) == CappedForm(initialDelay, maxDelay, k) {
        CapHolds(initialDelay, maxDelay, k);
      }
    } else {
      var k := CapFails(initialDelay, maxDelay);
    }
  }

  function TotalSleep(initialDelay: int, maxDelay: int, n: nat): int {
    if n == 0 then 0 else TotalSleep(initialDelay, maxDelay, n - 1) + DelayAt(initialDelay, maxDelay, n - 1)
  }

  /** The sum of the first n doubled delays. */
  lemma DoubledSum(initialDelay: int, n: nat)
    ensures initialDelay * (Pow2(n + 1) - 1) == initialDelay * (Pow2(n) - 1) + Doubled(initialDelay, n)
    ensures initialDelay * (Pow2(0) - 1) == 0
  {
    var p := Pow2(n);
    assert Pow2(n + 1) - 1 == (p - 1) + p;
  }

  /** How far the sleeps fall short of the closed form, away from zero. */
  lemma {:induction false} TotalFallsShort(initialDelay: int, maxDelay: int, n: nat)
    requires FitsInt64(initialDelay) && maxDelay <= 0
    ensures var missing := initialDelay * (Pow2(n) - 1) - TotalSleep(initialDelay, maxDelay, n);
            && (initialDelay >= 0 ==> missing >= 0) && (initialDelay <= 0 ==> missing <= 0)
            && (n > 0 ==> (missing == 0 <==> FitsInt64(Doubled(initialDelay, n - 1))))
            && (n == 0 ==> missing == 0)
  {
    hide Doubled, DelayAt, Pow2;
    DoubledSum(initialDelay, if n > 0 then n - 1 else 0);
    if n > 0 {
      TotalFallsShort(initialDelay, maxDelay, n - 1);
      UncappedDelay(initialDelay, maxDelay, n - 1);
      DoubledSign(initialDelay, n - 1);
      if n > 1 {
        DoubledStep(initialDelay, n - 2);
      }
    }
  }

  lemma DoubledSign(initialDelay: int, k: nat)
    ensures initialDelay >= 0 ==> Doubled(initialDelay, k) >= 0
    ensures initialDelay <= 0 ==> Doubled(initialDelay, k) <= 0
  {
    if initialDelay >= 0 {
      ScaleMonotone(initialDelay, 0, Pow2(k));
    } else {
      ScaleMonotone(-initialDelay, 0, Pow2(k));
      assert (-initialDelay) * Pow2(k) == -(initialDelay * Pow2(k));
    }
  }

  /** The uncapped sleeps between n failed attempts add up to initialDelay * (2^(n-1) - 1) exactly if the
      last of them, initialDelay * 2^(n-2), fits an int64. */
  lemma UncappedTotal(initialDelay: int, maxDelay: int, n: nat)
    requires n >= 1 && FitsInt64(initialDelay) && maxDelay <= 0
    ensures TotalSleep(initialDelay, maxDelay, n - 1) == initialDelay * (Pow2(n - 1) - 1)
       <==> n == 1 || FitsInt64(Doubled(initialDelay, n - 2))
  {
    TotalFallsShort(initialDelay, maxDelay, n - 1);
  }

  /** The first doubling that leaves the int64 range gives a negative sleep, for every positive delay. */
  lemma DelayOverflows(initialDelay: int, maxDelay: int, k: nat)
    requires 0 < initialDelay && FitsInt64(Doubled(initialDelay, k)) && !FitsInt64(Doubled(initialDelay, k + 1))
    requires FitsInt64(initialDelay) && maxDelay <= 0
    ensures DelayAt(initialDelay, maxDelay, k + 1) < 0
  {
    hide Doubled;
    UncappedDelay(initialDelay, maxDelay, k);
    DoubledStep(initialDelay, k);
    DoubledSign(initialDelay, k);
    OverflowIsNegative(Doubled(initialDelay, k));
  }

  /** `Retry` returns no error exactly if some call succeeded or no attempt was allowed. */
  lemma RetrySucceedsIff(outcome: nat -> Option<string>, maxAttempts: int)
    ensures var n := CallsMade(outcome, 0, maxAttempts);
            (n == 0 || outcome(n - 1).None?)
                <==> maxAttempts <= 0 || exists k: nat :: k < maxAttempts && outcome(k).None?
  {
    var n := CallsMade(outcome, 0, maxAttempts);
    if n > 0 && outcome(n - 1).Some? {
      assert n == maxAttempts;
      forall k: nat | k < maxAttempts ensures outcome(k).Some? {
        assert k == n - 1 || k < n - 1;
      }
    }
  }
}
