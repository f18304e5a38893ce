/** Retry delays (src/runtime/mod.rs, src/runtime/delivery.rs). Seconds are
    reals and the random jitter multiplier is a parameter in [1-f, 1+f]. */
module Backoff {
  import opened Numbers
  import opened Outcomes

  const MAX_RETRY_BACKOFF: real := 300.0
  const MAX_RETRY_JITTER_PERCENT := 50

  datatype LimitError = InvalidLimits

  /** base * 2^n */
  function Doubled(base: real, n: nat): real { if n == 0 then base else 2.0 * Doubled(base, n - 1) }

  function Lesser(a: real, b: real): real { if a <= b then a else b }

  predicate InJitterRange(multiplier: real, fraction: real) { 1.0 - fraction <= multiplier <= 1.0 + fraction }

  /** The delay before jitter: doubling, capped at 2^30 doublings and at `maximum`. */
  function Bounded(attempt: nat, base: real, maximum: real): real {
    Lesser(Doubled(base, if attempt <= 30 then attempt else 30), maximum)
  }

  function Jittered(delay: real, multiplier: real): real { delay * multiplier }

  /** The jittered delay, capped again after jitter. */
  function Delay(attempt: nat, base: real, maximum: real, multiplier: real): real {
    Lesser(Jittered(Bounded(attempt, base, maximum), multiplier), maximum)
  }

  /** What jitter makes of a delay that is within the maximum. */
  lemma JitteredWithin(plain: real, maximum: real, multiplier: real)
    requires 0.0 < plain <= maximum
    ensures var delay := Lesser(Jittered(plain, multiplier), maximum);
            && delay <= maximum && delay <= plain * multiplier
            && (delay == maximum || delay == plain * multiplier)
            && (multiplier >= 1.0 ==> delay >= plain) && (multiplier <= 1.0 ==> delay <= plain)
  {
    TimesOne(plain);
    if multiplier >= 1.0 { ScaleMonotone(plain, 1.0, multiplier); }
    if multiplier <= 1.0 { ScaleMonotone(plain, multiplier, 1.0); }
  }

  function ExponentialBackoff(attempt: nat, base: real, maximum: real, fraction: real, multiplier: real)
    : (r: Result<real, LimitError>)
    ensures r.Ok? <==> 0.0 < base <= maximum <= 300.0 && 0.0 <= fraction <= 1.0
    ensures r.Ok? ==>
              var plain := Lesser(Doubled(base, if attempt <= 30 then attempt else 30), maximum);
              && r.value <= maximum && r.value <= plain * multiplier
              && (r.value == maximum || r.value == plain * multiplier)
              && (multiplier >= 1.0 ==> r.value >= plain) && (multiplier <= 1.0 ==> r.value <= plain)
  {
    hide Bounded, Lesser, Jittered;
    if base <= 0.0 || maximum < base || maximum > 300.0 || !(0.0 <= fraction <= 1.0) then Err(InvalidLimits)
    else
      BoundedGrows(attempt, base, maximum);
      BoundedMost(attempt, base, maximum);
      JitteredWithin(Lesser(Doubled(base, if attempt <= 30 then attempt else 30), maximum), maximum, multiplier);
      Ok(Delay(attempt, base, maximum, multiplier))
  }

  lemma BoundedMost(attempt: nat, base: real, maximum: real)
    ensures Bounded(attempt, base, maximum) == Lesser(Doubled(base, if attempt <= 30 then attempt else 30), maximum)
    ensures Bounded(attempt, base, maximum) <= maximum
  {
  }

  class RetryBackoff {
    const base: real
    const maximum: real
    const jitterPercent: nat
    var attempt: nat

    ghost predicate Valid()
      reads this
    {
      0.0 < base <= maximum <= MAX_RETRY_BACKOFF && jitterPercent <= MAX_RETRY_JITTER_PERCENT && attempt <= U32_MAX
    }

    constructor (base: real, maximum: real, jitterPercent: nat)
      requires 0.0 < base <= maximum <= MAX_RETRY_BACKOFF && jitterPercent <= MAX_RETRY_JITTER_PERCENT
      ensures Valid() && attempt == 0
      ensures this.base == base && this.maximum == maximum && this.jitterPercent == jitterPercent
    {
      this.base, this.maximum, this.jitterPercent, attempt := base, maximum, jitterPercent, 0;
    }

    method Reset()
      requires Valid()
      modifies this
      ensures Valid() && attempt == 0
    {
      attempt := 0;
    }

    method NextDelay(multiplier: real) returns (r: Result<real, LimitError>)
      requires Valid() && InJitterRange(multiplier, jitterPercent as real / 100.0)
      modifies this
      ensures Valid() && r == Ok(Delay(old(attempt), base, maximum, multiplier))
      ensures attempt == NextAttempt(old(attempt))
    {
      var fraction := jitterPercent as real / 100.0;
      assert 0.0 <= fraction <= 1.0;
      r := ExponentialBackoff(attempt, base, maximum, fraction, multiplier);
      if r.Err? { return; }
      attempt := if attempt < U32_MAX then attempt + 1 else attempt;
    }
  }

  /** `RetryBackoff::new`. */
  method NewRetryBackoff(base: real, maximum: real, jitterPercent: nat) returns (r: Result<RetryBackoff, LimitError>)
    ensures r.Ok? <==> 0.0 < base <= maximum <= MAX_RETRY_BACKOFF && jitterPercent <= MAX_RETRY_JITTER_PERCENT
    ensures r.Ok? ==> fresh(r.value) && r.value.Valid() && r.value.attempt == 0
    ensures r.Ok? ==> r.value.base == base && r.value.maximum == maximum && r.value.jitterPercent == jitterPercent
  {
    if base <= 0.0 || base > maximum || maximum > MAX_RETRY_BACKOFF || jitterPercent > MAX_RETRY_JITTER_PERCENT {
      return Err(InvalidLimits);
    }
    var backoff := new RetryBackoff(base, maximum, jitterPercent);
    return Ok(backoff);
  }

  /** Saturating increment of the failure count. */
  function NextAttempt(attempt: nat): nat { if attempt < U32_MAX then attempt + 1 else attempt }

  /** The failure count after `n` delays since the last reset. */
  function AttemptAfter(n: nat): nat { if n == 0 then 0 else NextAttempt(AttemptAfter(n - 1)) }

  lemma {:induction false} AttemptCounts(n: nat)
    ensures AttemptAfter(n) == if n <= U32_MAX then n else U32_MAX
  {
    if n > 0 { AttemptCounts(n - 1); }
  }

  /** Without jitter the nth delay since a reset is min(base * 2^min(n,30), maximum),
      also after the 32-bit counter has saturated. */
  lemma NthDelayWithoutJitter(n: nat, base: real, maximum: real)
    ensures Delay(AttemptAfter(n), base, maximum, 1.0) == Lesser(Doubled(base, if n <= 30 then n else 30), maximum)
  {
    AttemptCounts(n);
    var bounded := Bounded(AttemptAfter(n), base, maximum);
    TimesOne(bounded);
  }

  /** More failures never shorten the unjittered delay, which starts at `base`. */
  lemma BoundedGrows(attempt: nat, base: real, maximum: real)
    requires 0.0 < base <= maximum
    ensures base <= Bounded(attempt, base, maximum) <= Bounded(attempt + 1, base, maximum)
  {
    DoubledGrows(base, if attempt <= 30 then attempt else 30);
  }

  lemma {:induction false} DoubledGrows(base: real, n: nat)
    requires base > 0.0
    ensures base <= Doubled(base, n) <= Doubled(base, n + 1)
  {
    if n > 0 { DoubledGrows(base, n - 1); }
  }

  /** With jitter no delay exceeds the cap or collapses below the jittered base. */
  lemma DelayBounds(attempt: nat, base: real, maximum: real, fraction: real, multiplier: real)
    requires 0.0 < base <= maximum && 0.0 <= fraction <= 0.5 && InJitterRange(multiplier, fraction)
    ensures base * (1.0 - fraction) <= Delay(attempt, base, maximum, multiplier) <= maximum
  {
    hide Bounded;
    BoundedGrows(attempt, base, maximum);
    var bounded := Bounded(attempt, base, maximum);
    var least := 1.0 - fraction;
    ProductMonotone(base, bounded, least, multiplier);
    ProductMonotone(base, base, least, 1.0);
    TimesOne(base);
  }

  lemma ProductMonotone(a: real, b: real, x: real, y: real)
    requires 0.0 <= a <= b && 0.0 <= x <= y
    ensures a * x <= b * y
  {
    ScaleMonotone(b, x, y);
    ScaleMonotone(x, a, b);
    assert b * x == x * b && a * x == x * a;
  }

  lemma TimesOne(x: real)
    ensures x * 1.0 == x
  {
  }

  lemma ScaleMonotone(x: real, a: real, b: real)
    requires x >= 0.0 && a <= b
    ensures x * a <= x * b
  {
    assert x * (b - a) >= 0.0;
  }
}
