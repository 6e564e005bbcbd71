// The delay before each retry. Durations are whole nanoseconds; a fractional
// product is truncated.
module Backoff {

  datatype RetryConfig = RetryConfig(maxAttempts: int, idempotentOnly: bool,
                                     backoffInitial: int, backoffMultiplier: real, backoffMax: int)

  function WithDefaults(c: RetryConfig): (r: RetryConfig)
    ensures r.backoffInitial > 0 && r.backoffMultiplier > 0.0 && r.backoffMax > 0
  {
    c.(backoffInitial := if c.backoffInitial <= 0 then 100_000_000 else c.backoffInitial,
       backoffMultiplier := if c.backoffMultiplier <= 0.0 then 2.0 else c.backoffMultiplier,
       backoffMax := if c.backoffMax <= 0 then 2_000_000_000 else c.backoffMax)
  }

  function Grow(d: int, m: real): int {
    (d as real * m).Floor
  }

  /** The loop as written: it stops growing for good the first time the cap is passed. */
  function EarlyBreak(d: int, m: real, max: int, steps: nat): int
    decreases steps
  {
    if steps == 0 then d
    else if Grow(d, m) > max then max
    else EarlyBreak(Grow(d, m), m, max, steps - 1)
  }

  /** The textbook form: multiply and clamp, every time. */
  function Clamped(d: int, m: real, max: int, steps: nat): int
    decreases steps
  {
    if steps == 0 then d
    else Clamped(if Grow(d, m) > max then max else Grow(d, m), m, max, steps - 1)
  }

  function Delay(c: RetryConfig, attempt: int): int {
    var w := WithDefaults(c);
    EarlyBreak(w.backoffInitial, w.backoffMultiplier, w.backoffMax, if attempt >= 1 then attempt - 1 else 0)
  }

  method CalculateBackoff(c: RetryConfig, attempt: int) returns (delay: int)
    ensures delay == Delay(c, attempt)
  {
    var w := WithDefaults(c);
    delay := w.backoffInitial;
    ghost var steps := if attempt >= 1 then attempt - 1 else 0;
    var i := 1;
    while i < attempt
      invariant 1 <= i
      invariant i <= attempt || attempt < 1
      invariant Delay(c, attempt) ==
                EarlyBreak(delay, w.backoffMultiplier, w.backoffMax, if i <= attempt then attempt - i else 0)
    {
      delay := Grow(delay, w.backoffMultiplier);
      if delay > w.backoffMax {
        delay := w.backoffMax;
        return;
      }
      i := i + 1;
    }
  }

  // ---------- arithmetic of one step ----------

  lemma GrowUp(d: int, m: real)
    requires d >= 0 && m >= 1.0
    ensures Grow(d, m) >= d
  {
    assert d as real * m >= d as real * 1.0;
  }

  lemma GrowDown(d: int, m: real)
    requires d >= 0 && 0.0 < m <= 1.0
    ensures 0 <= Grow(d, m) <= d
  {
    assert 0.0 <= d as real * m <= d as real * 1.0;
  }

  lemma GrowStrictlyDown(d: int, m: real)
    requires d > 0 && 0.0 < m < 1.0
    ensures 0 <= Grow(d, m) < d
  {
    assert d as real * m < d as real * 1.0;
    GrowDown(d, m);
  }

  lemma GrowNonNegative(d: int, m: real)
    requires d >= 0 && m > 0.0
    ensures Grow(d, m) >= 0
  {
    assert d as real * m >= 0.0;
  }

  // ---------- bounds ----------

  lemma {:induction false} EarlyBreakBounds(d: int, m: real, max: int, steps: nat)
    requires d >= 0 && m > 0.0 && max > 0
    ensures 0 <= EarlyBreak(d, m, max, steps)
    ensures EarlyBreak(d, m, max, steps) <= if steps == 0 then d else max
    decreases steps
  {
    GrowNonNegative(d, m);
    if steps > 0 && Grow(d, m) <= max {
      EarlyBreakBounds(Grow(d, m), m, max, steps - 1);
    }
  }

  /** The larger of the two limits. */
  function Bound(c: RetryConfig): int {
    var w := WithDefaults(c);
    if w.backoffInitial > w.backoffMax then w.backoffInitial else w.backoffMax
  }

  /** Every delay stays under the larger of the two limits, and from the second retry on under the maximum alone. */
  lemma DelayBounds(c: RetryConfig, attempt: int)
    ensures var w := WithDefaults(c);
            && 0 <= Delay(c, attempt) <= Bound(c)
            && (attempt >= 2 ==> Delay(c, attempt) <= w.backoffMax)
            && (attempt == 1 ==> Delay(c, attempt) == w.backoffInitial)
  {
    var w := WithDefaults(c);
    EarlyBreakBounds(w.backoffInitial, w.backoffMultiplier, w.backoffMax, if attempt >= 1 then attempt - 1 else 0);
  }

  /** The first two delays in full, with the defaults of 100 ms, 2 and 2 s for settings that are not positive. */
  lemma FirstDelays(c: RetryConfig)
    ensures var initial := if c.backoffInitial <= 0 then 100_000_000 else c.backoffInitial;
            var multiplier := if c.backoffMultiplier <= 0.0 then 2.0 else c.backoffMultiplier;
            var max := if c.backoffMax <= 0 then 2_000_000_000 else c.backoffMax;
            var grown := (initial as real * multiplier).Floor;
            && Delay(c, 1) == initial
            && Delay(c, 2) == if grown > max then max else grown
  {
  }

  /** The maximum is a limit on all delays exactly when the initial backoff, which is never clamped, respects it. */
  lemma CappedExactly(c: RetryConfig)
    ensures (forall attempt :: attempt >= 1 ==> Delay(c, attempt) <= WithDefaults(c).backoffMax)
            <==> WithDefaults(c).backoffInitial <= WithDefaults(c).backoffMax
  {
    hide Delay;
    forall attempt | attempt >= 1 { DelayBounds(c, attempt); }
    DelayBounds(c, 1);
  }

  // ---------- the loop against the textbook form ----------

  lemma {:induction false} ClampedAtMax(m: real, max: int, steps: nat)
    requires m >= 1.0 && max > 0
    ensures Clamped(max, m, max, steps) == max
    decreases steps
  {
    if steps > 0 {
      GrowUp(max, m);
      ClampedAtMax(m, max, steps - 1);
    }
  }

  lemma {:induction false} GrowingAgrees(d: int, m: real, max: int, steps: nat)
    requires d >= 0 && m >= 1.0 && max > 0
    ensures EarlyBreak(d, m, max, steps) == Clamped(d, m, max, steps)
    decreases steps
  {
    if steps > 0 {
      GrowUp(d, m);
      if Grow(d, m) > max {
        ClampedAtMax(m, max, steps - 1);
      } else {
        GrowingAgrees(Grow(d, m), m, max, steps - 1);
      }
    }
  }

  lemma {:induction false} ShrinkingAgrees(d: int, m: real, max: int, steps: nat)
    requires d >= 0 && 0.0 < m <= 1.0 && max > 0 && Grow(d, m) <= max
    ensures EarlyBreak(d, m, max, steps) == Clamped(d, m, max, steps)
    decreases steps
  {
    if steps > 0 {
      GrowDown(d, m);
      GrowDown(Grow(d, m), m);
      ShrinkingAgrees(Grow(d, m), m, max, steps - 1);
    }
  }

  /** Breaking early never changes a delay exactly when delays grow, or the first product is within the maximum. */
  lemma EarlyBreakExact(d: int, m: real, max: int)
    requires d > 0 && m > 0.0 && max > 0
    ensures (forall steps: nat :: EarlyBreak(d, m, max, steps) == Clamped(d, m, max, steps))
            <==> m >= 1.0 || Grow(d, m) <= max
  {
    if m >= 1.0 {
      forall steps: nat { GrowingAgrees(d, m, max, steps); }
    } else if Grow(d, m) <= max {
      forall steps: nat { ShrinkingAgrees(d, m, max, steps); }
    } else {
      GrowStrictlyDown(max, m);
      assert EarlyBreak(d, m, max, 2) == max;
      assert Clamped(d, m, max, 2) == Clamped(max, m, max, 1) == Clamped(Grow(max, m), m, max, 0) == Grow(max, m);
    }
  }

  // ---------- growth and total ----------

  lemma {:induction false} EarlyBreakGrows(d: int, m: real, max: int, steps: nat)
    requires 0 <= d <= max && m >= 1.0 && max > 0
    ensures d <= EarlyBreak(d, m, max, steps) <= EarlyBreak(d, m, max, steps + 1)
    decreases steps
  {
    GrowUp(d, m);
    if Grow(d, m) <= max {
      if steps > 0 {
        EarlyBreakGrows(Grow(d, m), m, max, steps - 1);
      }
    }
  }

  /** With a multiplier of at least one and an initial delay within the maximum, delays never shrink. */
  lemma DelaysNonDecreasing(c: RetryConfig, attempt: int)
    requires attempt >= 1
    requires WithDefaults(c).backoffMultiplier >= 1.0
    requires WithDefaults(c).backoffInitial <= WithDefaults(c).backoffMax
    ensures Delay(c, attempt) <= Delay(c, attempt + 1)
  {
    var w := WithDefaults(c);
    EarlyBreakGrows(w.backoffInitial, w.backoffMultiplier, w.backoffMax, attempt - 1);
  }

  /** Waiting before attempts 1 .. n-1. */
  function TotalDelay(c: RetryConfig, attempts: nat): int {
    if attempts <= 1 then 0 else TotalDelay(c, attempts - 1) + Delay(c, attempts - 1)
  }

  lemma {:induction false} TotalDelayBound(c: RetryConfig, attempts: nat)
    ensures attempts >= 1 ==> 0 <= TotalDelay(c, attempts) <= (attempts - 1) * Bound(c)
  {
    hide Delay, Bound;
    if attempts > 1 {
      TotalDelayBound(c, attempts - 1);
      DelayBounds(c, attempts - 1);
      assert (attempts - 1) * Bound(c) == (attempts - 2) * Bound(c) + Bound(c);
    }
  }
}
