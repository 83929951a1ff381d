/** Retry policy: error classes, capped exponential delays with jitter, and the retry loop. */
module Retry {

  import opened Results

  // ---------------------------------------------------------------- error classes

  /** The exceptions an operation may raise, as far as retrying tells them apart. */
  datatype Failure =
    | ConfigurationFailure
    | PermanentProtocolFailure
    | TransientCommunicationFailure
    | StorageFailure
    | TimeoutFailure
    | OtherFailure

  datatype ErrorClass = Configuration | Permanent | Transient | Unknown

  function ClassifyError(f: Failure): ErrorClass {
    match f
    case ConfigurationFailure => Configuration
    case PermanentProtocolFailure => Permanent
    case TransientCommunicationFailure => Transient
    case StorageFailure => Transient
    case TimeoutFailure => Transient
    case OtherFailure => Unknown
  }

  predicate IsRetryable(f: Failure) {
    ClassifyError(f) == Transient
  }

  /** Exactly the transient errors, storage errors and timeouts are worth another attempt. */
  lemma RetriedFailures(f: Failure)
    ensures IsRetryable(f) <==> f in {TransientCommunicationFailure, StorageFailure, TimeoutFailure}
    ensures ClassifyError(f) == Configuration <==> f == ConfigurationFailure
    ensures ClassifyError(f) == Permanent <==> f == PermanentProtocolFailure
  {
  }

  // ---------------------------------------------------------------- delays

  datatype RetryPolicy = RetryPolicy(
    maxAttempts: int,
    initialDelay: real,
    maxDelay: real,
    multiplier: real,
    jitterRatio: real)
  {
    predicate Valid() {
      && maxAttempts > 0
      && 0.0 <= initialDelay <= maxDelay
      && multiplier >= 1.0
      && 0.0 <= jitterRatio <= 1.0
    }
  }

  function Power(x: real, n: nat): real {
    if n == 0 then 1.0 else x * Power(x, n - 1)
  }

  function Min(a: real, b: real): real {
    if a <= b then a else b
  }

  function Max(a: real, b: real): real {
    if a >= b then a else b
  }

  /** The delay before jitter. */
  function CappedDelay(p: RetryPolicy, retry: nat): real
    requires p.Valid() && retry >= 1
  {
    Min(p.initialDelay * Power(p.multiplier, retry - 1), p.maxDelay)
  }

  /** Delay before the `retry`-th retry, counted from one; None for arguments the source rejects. */
  function DelayForRetry(p: RetryPolicy, retry: int, random: real): (r: Option<real>)
    requires p.Valid()
    ensures r.Some? <==> retry >= 1 && 0.0 <= random <= 1.0
  {
    if retry <= 0 || !(0.0 <= random <= 1.0) then None
    else Some(Jittered(p, CappedDelay(p, retry), random * 2.0 - 1.0))
  }

  /** `u` is the random value scaled to -1..1. */
  function Jittered(p: RetryPolicy, capped: real, u: real): real {
    if capped == 0.0 || p.jitterRatio == 0.0 then capped
    else Max(0.0, Min(p.maxDelay, capped + u * (capped * p.jitterRatio)))
  }

  // Small multiplication facts.

  lemma TimesMonotone(a: real, b: real, c: real)
    requires a <= b && 0.0 <= c
    ensures a * c <= b * c
  {
  }

  lemma {:induction false} PowerGrows(x: real, n: nat, m: nat)
    requires x >= 1.0 && n <= m
    ensures 1.0 <= Power(x, n) <= Power(x, m)
    decreases m
  {
    if m > 0 {
      if n == m {
        PowerGrows(x, n - 1, m - 1);
        TimesMonotone(1.0, x, Power(x, m - 1));
      } else {
        PowerGrows(x, n, m - 1);
        TimesMonotone(1.0, x, Power(x, m - 1));
      }
    }
  }

  lemma CappedGrows(p: RetryPolicy, n: nat, m: nat)
    requires p.Valid() && 1 <= n <= m
    ensures 0.0 <= CappedDelay(p, n) <= CappedDelay(p, m) <= p.maxDelay
  {
    PowerGrows(p.multiplier, n - 1, m - 1);
    TimesMonotone(0.0, Power(p.multiplier, n - 1), p.initialDelay);
    TimesMonotone(Power(p.multiplier, n - 1), Power(p.multiplier, m - 1), p.initialDelay);
  }

  /** The factor jitter applies to the capped delay. */
  function Factor(p: RetryPolicy, u: real): real {
    1.0 + u * p.jitterRatio
  }

  lemma FactorBand(p: RetryPolicy, u: real)
    requires p.Valid() && -1.0 <= u <= 1.0
    ensures 0.0 <= 1.0 - p.jitterRatio <= Factor(p, u)
    ensures Factor(p, u) <= 1.0 + p.jitterRatio
  {
    ProductBand(u, p.jitterRatio);
    assert Factor(p, u) == 1.0 + u * p.jitterRatio;
  }

  lemma ProductBand(u: real, ratio: real)
    requires -1.0 <= u <= 1.0 && 0.0 <= ratio
    ensures -ratio <= u * ratio <= ratio
  {
    assert (1.0 - u) * ratio >= 0.0;
    assert (1.0 + u) * ratio >= 0.0;
  }

  lemma JitterIsFactor(capped: real, u: real, ratio: real)
    ensures capped + u * (capped * ratio) == (1.0 + u * ratio) * capped
  {
  }

  /** One formula for all branches: the jittered delay, cut off at the maximum. */
  lemma JitterFormula(p: RetryPolicy, capped: real, u: real)
    requires p.Valid() && 0.0 <= capped <= p.maxDelay && -1.0 <= u <= 1.0
    ensures Jittered(p, capped, u) == Min(p.maxDelay, Factor(p, u) * capped)
  {
    FactorBand(p, u);
    JitterIsFactor(capped, u, p.jitterRatio);
    TimesMonotone(0.0, Factor(p, u), capped);
    if capped == 0.0 {
      assert Factor(p, u) * capped == 0.0;
    } else if p.jitterRatio == 0.0 {
      assert Factor(p, u) == 1.0;
    }
  }

  lemma DelayFormula(p: RetryPolicy, retry: nat, random: real)
    requires p.Valid() && retry >= 1 && 0.0 <= random <= 1.0
    ensures DelayForRetry(p, retry, random)
            == Some(Min(p.maxDelay, Factor(p, random * 2.0 - 1.0) * CappedDelay(p, retry)))
  {
    hide Jittered, Factor, CappedDelay;
    var capped, u := CappedDelay(p, retry), random * 2.0 - 1.0;
    CappedGrows(p, retry, retry);
    JitterFormula(p, capped, u);
    assert DelayForRetry(p, retry, random) == Some(Jittered(p, capped, u));
    assert Factor(p, u) * capped == Factor(p, random * 2.0 - 1.0) * CappedDelay(p, retry);
    assert Jittered(p, capped, u) == Min(p.maxDelay, Factor(p, u) * capped);
  }

  /** Every delay is within the bounds and within the jitter band of the capped delay. */
  lemma DelayBand(p: RetryPolicy, retry: nat, random: real)
    requires p.Valid() && retry >= 1 && 0.0 <= random <= 1.0
    ensures
      var d := DelayForRetry(p, retry, random).value;
      var capped := CappedDelay(p, retry);
      && 0.0 <= d <= p.maxDelay
      && (1.0 - p.jitterRatio) * capped <= d <= (1.0 + p.jitterRatio) * capped
  {
    hide DelayForRetry, CappedDelay, Factor;
    var capped, f := CappedDelay(p, retry), Factor(p, random * 2.0 - 1.0);
    DelayFormula(p, retry, random);
    CappedGrows(p, retry, retry);
    FactorBand(p, random * 2.0 - 1.0);
    TimesMonotone(1.0 - p.jitterRatio, f, capped);
    TimesMonotone(f, 1.0 + p.jitterRatio, capped);
    TimesMonotone(1.0 - p.jitterRatio, 1.0, capped);
    TimesMonotone(0.0, 1.0 - p.jitterRatio, capped);
  }

  lemma DelayWith(p: RetryPolicy, retry: nat, random: real, u: real)
    requires p.Valid() && retry >= 1 && 0.0 <= random <= 1.0 && u == random * 2.0 - 1.0
    ensures DelayForRetry(p, retry, random).value == Min(p.maxDelay, Factor(p, u) * CappedDelay(p, retry))
  {
    hide Jittered, Factor, CappedDelay;
    CappedGrows(p, retry, retry);
    JitterFormula(p, CappedDelay(p, retry), u);
  }

  lemma MiddleDelay(p: RetryPolicy, retry: nat)
    requires p.Valid() && retry >= 1
    ensures DelayForRetry(p, retry, 0.5).value == CappedDelay(p, retry)
  {
    hide DelayForRetry, CappedDelay;
    DelayWith(p, retry, 0.5, 0.0);
    CappedGrows(p, retry, retry);
    assert Factor(p, 0.0) == 1.0;
  }

  lemma CapStep(d: real, m: real, power: real, cap: real)
    requires 0.0 <= d * power && 0.0 <= d <= cap && m >= 1.0
    ensures Min(d * (m * power), cap) == Min(cap, m * Min(d * power, cap))
  {
    assert d * (m * power) == m * (d * power);
    TimesMonotone(1.0, m, cap);
    if d * power >= cap {
      TimesMonotone(1.0, m, d * power);
    }
  }

  lemma CappedStep(p: RetryPolicy, retry: nat)
    requires p.Valid() && retry >= 1
    ensures CappedDelay(p, 1) == p.initialDelay
    ensures CappedDelay(p, retry + 1) == Min(p.maxDelay, p.multiplier * CappedDelay(p, retry))
  {
    hide Power;
    var power := Power(p.multiplier, retry - 1);
    PowerGrows(p.multiplier, 0, retry - 1);
    PowerSteps(p.multiplier, retry - 1);
    TimesMonotone(0.0, power, p.initialDelay);
    CapStep(p.initialDelay, p.multiplier, power, p.maxDelay);
  }

  lemma PowerSteps(x: real, n: nat)
    ensures Power(x, 0) == 1.0 && Power(x, n + 1) == x * Power(x, n)
  {
  }

  /** Without jitter the first delay is the initial one, and each later one the last times the multiplier, capped. */
  lemma BackoffSteps(p: RetryPolicy, retry: nat)
    requires p.Valid() && retry >= 1
    ensures DelayForRetry(p, 1, 0.5).value == p.initialDelay
    ensures DelayForRetry(p, retry + 1, 0.5).value
            == Min(p.maxDelay, p.multiplier * DelayForRetry(p, retry, 0.5).value)
  {
    hide DelayForRetry, CappedDelay;
    MiddleDelay(p, 1);
    MiddleDelay(p, retry);
    MiddleDelay(p, retry + 1);
    CappedStep(p, retry);
  }

  /** At the two ends of the random range the jitter is the whole ratio, down or up, cut off at the maximum. */
  lemma JitterEnds(p: RetryPolicy, retry: nat)
    requires p.Valid() && retry >= 1
    ensures
      var middle := DelayForRetry(p, retry, 0.5).value;
      && DelayForRetry(p, retry, 0.0).value == (1.0 - p.jitterRatio) * middle
      && DelayForRetry(p, retry, 1.0).value == Min(p.maxDelay, (1.0 + p.jitterRatio) * middle)
  {
    hide DelayForRetry, CappedDelay, Factor;
    MiddleDelay(p, retry);
    DelayWith(p, retry, 0.0, -1.0);
    DelayWith(p, retry, 1.0, 1.0);
    CappedGrows(p, retry, retry);
    TimesMonotone(1.0 - p.jitterRatio, 1.0, CappedDelay(p, retry));
    FactorEnds(p);
  }

  lemma FactorEnds(p: RetryPolicy)
    ensures Factor(p, -1.0) == 1.0 - p.jitterRatio && Factor(p, 1.0) == 1.0 + p.jitterRatio
  {
  }

  /** Later retries and larger random values never wait less. */
  lemma DelayMonotone(p: RetryPolicy, n: nat, m: nat, r1: real, r2: real)
    requires p.Valid() && 1 <= n <= m && 0.0 <= r1 <= r2 <= 1.0
    ensures DelayForRetry(p, n, r1).value <= DelayForRetry(p, m, r2).value
  {
    hide DelayForRetry, CappedDelay;
    var u1, u2 := r1 * 2.0 - 1.0, r2 * 2.0 - 1.0;
    DelayFormula(p, n, r1);
    DelayFormula(p, m, r2);
    CappedGrows(p, n, m);
    FactorBand(p, u1);
    TimesMonotone(u1, u2, p.jitterRatio);
    var f1, f2 := Factor(p, u1), Factor(p, u2);
    assert f1 <= f2;
    ProductMonotone(f1, f2, CappedDelay(p, n), CappedDelay(p, m));
  }

  lemma ProductMonotone(f1: real, f2: real, c1: real, c2: real)
    requires 0.0 <= f1 <= f2 && 0.0 <= c1 <= c2
    ensures f1 * c1 <= f2 * c2
  {
    TimesMonotone(f1, f2, c1);
    TimesMonotone(c1, c2, f2);
  }

  // ---------------------------------------------------------------- the writer's policy

  /** Policy built from a retry count and a first delay. */
  function LegacyPolicy(maxRetries: nat, retryDelay: real): (p: RetryPolicy)
    requires retryDelay >= 0.0
    ensures p.Valid()
  {
    var delays := if maxRetries > 1 then maxRetries else 1;
    PowerGrows(2.0, 0, delays - 1);
    TimesMonotone(1.0, Power(2.0, delays - 1), retryDelay);
    RetryPolicy(maxRetries + 1, retryDelay, retryDelay * Power(2.0, delays - 1), 2.0,
      if retryDelay > 0.0 then 0.2 else 0.0)
  }

  /** No retry that can happen reaches the cap, and the default random value adds no jitter. */
  lemma LegacyDelay(maxRetries: nat, retryDelay: real, retry: nat)
    requires retryDelay >= 0.0 && 1 <= retry <= maxRetries
    ensures DelayForRetry(LegacyPolicy(maxRetries, retryDelay), retry, 0.5) == Some(retryDelay * Power(2.0, retry - 1))
  {
    hide DelayForRetry;
    var p := LegacyPolicy(maxRetries, retryDelay);
    PowerGrows(2.0, retry - 1, maxRetries - 1);
    TimesMonotone(Power(2.0, retry - 1), Power(2.0, maxRetries - 1), retryDelay);
    assert CappedDelay(p, retry) == retryDelay * Power(2.0, retry - 1);
    DelayFormula(p, retry, 0.5);
    CappedGrows(p, retry, retry);
    assert Factor(p, 0.5 * 2.0 - 1.0) == 1.0;
  }

  /** One attempt more than retries, and a jitter of a fifth. */
  lemma LegacyJitter(maxRetries: nat, retryDelay: real, retry: nat)
    requires retryDelay >= 0.0 && 1 <= retry <= maxRetries
    ensures LegacyPolicy(maxRetries, retryDelay).maxAttempts == maxRetries + 1
    ensures DelayForRetry(LegacyPolicy(maxRetries, retryDelay), retry, 0.0).value
            == 0.8 * DelayForRetry(LegacyPolicy(maxRetries, retryDelay), retry, 0.5).value
  {
    hide DelayForRetry;
    var p := LegacyPolicy(maxRetries, retryDelay);
    JitterEnds(p, retry);
    if retryDelay == 0.0 {
      BackoffZero(p, retry);
    }
  }

  lemma BackoffZero(p: RetryPolicy, retry: nat)
    requires p.Valid() && retry >= 1 && p.maxDelay == 0.0
    ensures DelayForRetry(p, retry, 0.5).value == 0.0
  {
    MiddleDelay(p, retry);
    CappedGrows(p, retry, retry);
  }

  function Sum(delays: seq<real>): real {
    if delays == [] then 0.0 else Sum(delays[..|delays| - 1]) + delays[|delays| - 1]
  }

  /** The waits of `n` retries add up to the closed form of the doubling series. */
  lemma {:induction false} LegacyTotalWait(maxRetries: nat, retryDelay: real, delays: seq<real>)
    requires retryDelay >= 0.0 && |delays| <= maxRetries
    requires forall k :: 0 <= k < |delays| ==>
               DelayForRetry(LegacyPolicy(maxRetries, retryDelay), k + 1, 0.5) == Some(delays[k])
    ensures Sum(delays) == retryDelay * (Power(2.0, |delays|) - 1.0)
  {
    hide DelayForRetry, LegacyPolicy;
    if delays != [] {
      var n := |delays|;
      LegacyTotalWait(maxRetries, retryDelay, delays[..n - 1]);
      LegacyDelay(maxRetries, retryDelay, n);
      assert delays[n - 1] == retryDelay * Power(2.0, n - 1);
      Doubling(retryDelay, Power(2.0, n - 1));
    } else {
      assert retryDelay * (Power(2.0, 0) - 1.0) == 0.0;
    }
  }

  lemma Doubling(d: real, power: real)
    ensures d * (2.0 * power - 1.0) == d * (power - 1.0) + d * power
  {
  }

  // ---------------------------------------------------------------- the retry loop

  /** What one call of the operation does. */
  datatype Attempt<+T> = Returned(value: T) | Threw(failure: Failure)

  /** How the loop ended. `Raised` is the last failure, re-raised. */
  datatype RetryOutcome<+T> =
    | Completed(value: T, attempts: nat, retries: nat)
    | Raised(failure: Failure, attempts: nat, retries: nat)

  /** The attempt at which the loop stops: the first success, the first failure not worth retrying, or the last. */
  predicate StopsAt<T>(maxAttempts: int, calls: nat -> Attempt<T>, n: nat) {
    && 1 <= n <= maxAttempts
    && (forall k: nat :: k < n - 1 ==> calls(k).Threw? && IsRetryable(calls(k).failure))
    && (calls(n - 1).Threw? ==> !IsRetryable(calls(n - 1).failure) || n == maxAttempts)
  }

  lemma StopsOnce<T>(maxAttempts: int, calls: nat -> Attempt<T>, n: nat, m: nat)
    requires StopsAt(maxAttempts, calls, n) && StopsAt(maxAttempts, calls, m)
    ensures n == m
  {
    assert calls(n - 1).Threw? && IsRetryable(calls(n - 1).failure) ==> n == maxAttempts;
    assert calls(m - 1).Threw? && IsRetryable(calls(m - 1).failure) ==> m == maxAttempts;
  }

  /** The stopping attempt as a function of what the calls would do, from attempt `k` on. */
  function StopPoint<T>(maxAttempts: nat, calls: nat -> Attempt<T>, k: nat): (n: nat)
    requires k < maxAttempts
    ensures k < n <= maxAttempts
    decreases maxAttempts - k
  {
    if calls(k).Threw? && IsRetryable(calls(k).failure) && k + 1 < maxAttempts then StopPoint(maxAttempts, calls, k + 1)
    else k + 1
  }

  lemma {:induction false} StopPointStops<T>(maxAttempts: nat, calls: nat -> Attempt<T>, k: nat)
    requires k < maxAttempts && forall i: nat :: i < k ==> calls(i).Threw? && IsRetryable(calls(i).failure)
    ensures StopsAt(maxAttempts, calls, StopPoint(maxAttempts, calls, k))
    decreases maxAttempts - k
  {
    hide IsRetryable;
    if calls(k).Threw? && IsRetryable(calls(k).failure) && k + 1 < maxAttempts {
      StopPointStops(maxAttempts, calls, k + 1);
    }
  }

  /** An attempt is where the loop stops exactly when it is the stopping attempt. */
  lemma StopsExactlyAt<T>(maxAttempts: nat, calls: nat -> Attempt<T>, n: nat)
    requires maxAttempts > 0
    ensures StopsAt(maxAttempts, calls, n) <==> n == StopPoint(maxAttempts, calls, 0)
  {
    hide StopsAt, StopPoint;
    StopPointStops(maxAttempts, calls, 0);
    if StopsAt(maxAttempts, calls, n) {
      StopsOnce(maxAttempts, calls, n, StopPoint(maxAttempts, calls, 0));
    }
  }

  /**
   * `run_with_retry`. `calls(k)` is what the k-th call of the operation would do and `randoms` is the
   * jitter source. The loop always ends by returning or re-raising, never by running out.
   */
  method RunWithRetry<T>(p: RetryPolicy, calls: nat -> Attempt<T>, randoms: nat -> real)
    returns (outcome: RetryOutcome<T>, delays: seq<real>)
    requires p.Valid() && forall k: nat :: 0.0 <= randoms(k) <= 1.0
    ensures StopsAt(p.maxAttempts, calls, outcome.attempts)
    ensures outcome.retries == outcome.attempts - 1 == |delays|
    ensures
      match calls(outcome.attempts - 1)
      case Returned(v) => outcome.Completed? && outcome.value == v
      case Threw(f) => outcome.Raised? && outcome.failure == f
    ensures forall k :: 0 <= k < |delays| ==> DelayForRetry(p, k + 1, randoms(k)) == Some(delays[k])
  {
    hide DelayForRetry;
    var attempts, retries := 0, 0;
    delays := [];
    while attempts < p.maxAttempts
      invariant 0 <= attempts < p.maxAttempts && retries == attempts == |delays|
      invariant forall k: nat :: k < attempts ==> calls(k).Threw? && IsRetryable(calls(k).failure)
      invariant forall k :: 0 <= k < |delays| ==> DelayForRetry(p, k + 1, randoms(k)) == Some(delays[k])
      decreases p.maxAttempts - attempts
    {
      var call := calls(attempts);
      attempts := attempts + 1;
      match call {
        case Returned(value) =>
          return Completed(value, attempts, retries), delays;
        case Threw(failure) =>
          if !IsRetryable(failure) || attempts >= p.maxAttempts {
            return Raised(failure, attempts, retries), delays;
          }
          retries := retries + 1;
          var delay := DelayForRetry(p, retries, randoms(retries - 1));
          assert delay.Some?;
          delays := delays + [delay.value];
      }
    }
    assert false;
  }
}
