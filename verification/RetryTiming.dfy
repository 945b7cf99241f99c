/** Effective timeouts and retry backoff (pkg/core/core.go), in nanoseconds and 64-bit arithmetic. */
module RetryTiming {
  import opened StateMachine

  const SECOND: int := 1_000_000_000
  const TWO_63: int := 0x8000_0000_0000_0000
  const TWO_64: int := 0x1_0000_0000_0000_0000

  /** The largest number of seconds a duration can hold. */
  const MAX_SECONDS: int := 9_223_372_036

  /** A duration that does not parse, or is not positive, counts as thirty minutes. */
  function DefaultTimeout(configured: Option<int>): int {
    if configured.Some? && configured.value > 0 then configured.value else 30 * 60 * SECOND
  }

  /** The rule's timeout if it is set and shorter than the default. */
  function EffectiveTimeout(rule: Option<int>, configured: Option<int>): (d: int)
    ensures d > 0
    ensures var limit := if configured.Some? && configured.value > 0 then configured.value else 1_800_000_000_000;
      if rule.Some? && 0 < rule.value < limit then d == rule.value else d == limit
  {
    if rule.Some? && 0 < rule.value < DefaultTimeout(configured) then rule.value else DefaultTimeout(configured)
  }

  function Pow2(n: nat): (p: nat)
    ensures p > 0
  {
    if n == 0 then 1 else 2 * Pow2(n - 1)
  }

  /** The value a 64-bit signed integer holds. */
  function Wrap(x: int): (r: int)
    ensures -TWO_63 <= r < TWO_63
  {
    (x + TWO_63) % TWO_64 - TWO_63
  }

  function ShiftOne(n: nat): int {
    if n >= 64 then 0 else Wrap(Pow2(n))
  }

  function BackoffCap(configured: int): (cap: int)
    ensures cap > 0 && (configured > 0 ==> cap == configured)
  {
    if configured <= 0 then 60 else configured
  }

  function Backoff(retries: nat, configured: int): int {
    var n := ShiftOne(retries);
    Wrap((if n > BackoffCap(configured) then BackoffCap(configured) else n) * SECOND)
  }

  /** What the backoff is meant to be: seconds double with every retry, up to the cap. */
  function Intended(retries: nat, configured: int): int {
    (if Pow2(retries) < BackoffCap(configured) then Pow2(retries) else BackoffCap(configured)) * SECOND
  }

  lemma {:induction false} Pow2Grows(m: nat, n: nat)
    requires m <= n
    ensures Pow2(m) <= Pow2(n)
  {
    if m < n {
      Pow2Grows(m, n - 1);
    }
  }

  lemma {:induction false} Pow2Adds(a: nat, b: nat)
    ensures Pow2(a + b) == Pow2(a) * Pow2(b)
  {
    if b > 0 {
      Pow2Adds(a, b - 1);
    }
  }

  lemma Pow2Values()
    ensures Pow2(62) == 0x4000_0000_0000_0000 && Pow2(63) == TWO_63
  {
    assert Pow2(7) == 128;
    Pow2Adds(7, 7);
    Pow2Adds(14, 14);
    Pow2Adds(28, 28);
    assert Pow2(6) == 64;
    Pow2Adds(56, 6);
  }

  lemma WrapSmall(x: int)
    requires -TWO_63 <= x < TWO_63
    ensures Wrap(x) == x
  {
  }

  /** The number of seconds does not overflow a duration. */
  predicate FitsDuration(retries: nat, configured: int) {
    Pow2(retries) <= MAX_SECONDS || BackoffCap(configured) <= MAX_SECONDS
  }

  lemma BackoffSmall(retries: nat, configured: int)
    requires retries <= 62
    ensures Backoff(retries, configured) == Wrap(Intended(retries, configured))
  {
    Pow2Values();
    Pow2Grows(retries, 62);
    WrapSmall(Pow2(retries));
  }

  lemma BackoffLarge(retries: nat, configured: int)
    requires retries > 62
    ensures Backoff(retries, configured) == 0
  {
    Pow2Values();
    if retries == 63 {
      assert Wrap(Pow2(63)) == -TWO_63;
      assert -TWO_63 * SECOND == -(SECOND / 2) * TWO_64;
    }
  }

  lemma SixtySeconds(retries: nat)
    ensures Pow2(retries) < 60 <==> retries < 6
  {
    assert Pow2(5) == 32 && Pow2(6) == 64;
    if retries < 6 {
      Pow2Grows(retries, 5);
    } else {
      Pow2Grows(6, retries);
    }
  }

  /**
   * The backoff is the intended one exactly up to 62 retries and while its seconds fit a duration:
   * from 63 on the shift leaves the positive range and there is no wait at all; before that, a cap
   * of more than 9_223_372_036 seconds lets the conversion to nanoseconds overflow.
   */
  lemma BackoffIsIntended(retries: nat, configured: int)
    ensures Backoff(retries, configured) == Intended(retries, configured) <==>
      retries <= 62 && FitsDuration(retries, configured)
    ensures retries > 62 ==> Backoff(retries, configured) == 0
    ensures Intended(retries, configured) ==
      SECOND * if configured <= 0 then (if retries < 6 then Pow2(retries) else 60)
               else (if Pow2(retries) < configured then Pow2(retries) else configured)
  {
    SixtySeconds(retries);
    if retries > 62 {
      BackoffLarge(retries, configured);
      assert Intended(retries, configured) > 0;
    } else {
      BackoffSmall(retries, configured);
      if FitsDuration(retries, configured) {
        WrapSmall(Intended(retries, configured));
      }
    }
  }
}
