/** 64-bit duration arithmetic: the Go backoff helper and the adaptive poll interval. */
module Timing {
  import opened Prelude

  const TWO63 := 0x8000_0000_0000_0000
  const TWO64 := 0x1_0000_0000_0000_0000

  predicate Int64(x: int) { -TWO63 <= x < TWO63 }

  /** Two's complement wrap-around. */
  function Wrap(x: int): (w: int)
    ensures Int64(w) && (Int64(x) ==> w == x)
  {
    var m := x % TWO64;
    if m < TWO63 then m else m - TWO64
  }

  /** `1 << uint(n)` on a 64-bit int; a negative n converts to a huge shift. */
  function ShiftedOne(n: int): int
  {
    if 0 <= n < 64 then Wrap(Pow2(n)) else 0
  }

  /** The capped delay of CalculateNextRetryAt before jitter. */
  function GoBackoff(base: int, max: int, n: int): int
  {
    Min(Wrap(base * ShiftedOne(n)), max)
  }

  lemma {:induction false} Pow2Grows(m: nat, n: nat)
    requires m <= n
    ensures Pow2(m) <= Pow2(n)
    decreases n
  {
    if m < n { Pow2Grows(m, n - 1); }
  }

  lemma {:induction false} Pow2Square(n: nat, p: nat)
    requires Pow2(n) == p
    ensures Pow2(n + n) == p * p
  {
    Pow2Adds(n, n);
  }

  lemma {:induction false} Pow2At63()
    ensures Pow2(63) == TWO63
  {
    var one := 1;
    Pow2Square(one, 2);
    Pow2Square(2 * one, 4);
    Pow2Square(4 * one, 16);
    Pow2Square(8 * one, 256);
    Pow2Square(16 * one, 0x1_0000);
    Pow2Square(32 * one, 0x1_0000_0000);
    assert Pow2(64 * one) == TWO64;
  }

  lemma {:induction false} Pow2Adds(m: nat, n: nat)
    ensures Pow2(m + n) == Pow2(m) * Pow2(n)
    decreases n
  {
    if n == 0 {
    } else {
      Pow2Adds(m, n - 1);
    }
  }

  lemma {:induction false} FactorsStaySmall(a: int, b: int, limit: int)
    requires a >= 1 && b >= 0 && a * b < limit
    ensures b < limit
  {
    assert a * b >= b;
  }

  /** Below 2^63 the shift and the product are exact, so the result is the intended min(base * 2^n, max). */
  lemma {:induction false} BackoffIsExact(base: nat, max: int, n: nat)
    requires base * Pow2(n) < TWO63
    ensures GoBackoff(base, max, n) == Min(base * Pow2(n), max)
  {
    if base == 0 {
      assert base * ShiftedOne(n) == 0;
    } else {
      FactorsStaySmall(base, Pow2(n), TWO63);
      if n >= 63 { Pow2At63(); Pow2Grows(63, n); }
      assert ShiftedOne(n) == Pow2(n);
    }
  }

  lemma {:induction false} WrapIsPeriodic(x: int, k: int)
    ensures Wrap(x + k * TWO64) == Wrap(x)
  {
  }

  lemma {:induction false} Pow2At64()
    ensures Pow2(64) == TWO64
  {
    Pow2At63();
  }

  /** Whatever the attempt, the shift and the product together wrap base * 2^n once. */
  lemma {:induction false} BackoffIsWrapped(base: nat, max: int, n: nat)
    ensures GoBackoff(base, max, n) == Min(Wrap(base * Pow2(n)), max)
  {
    if n < 63 {
      Pow2At63();
      Pow2Grows(n + 1, 63);
    } else if n == 63 {
      Pow2At63();
      var k: int := 0 - base;
      assert base * ShiftedOne(n) == base * Pow2(n) + k * TWO64;
      WrapIsPeriodic(base * Pow2(n), k);
    } else {
      Pow2At64();
      Pow2Adds(n - 64, 64);
      Reassociate(base, Pow2(n - 64), TWO64);
      WrapIsPeriodic(0, base * Pow2(n - 64));
      assert base * ShiftedOne(n) == 0;
    }
  }

  lemma {:induction false} Reassociate(a: int, b: int, c: int)
    ensures a * (b * c) == a * b * c
  {
  }

  /**
   The result is the intended one if and only if base * 2^n stays below 2^63, or what is left of it modulo 2^64 happens
   to lie between the cap and 2^63.
   */
  lemma {:induction false} BackoffExactIff(base: nat, max: nat, n: nat)
    requires Int64(max)
    ensures GoBackoff(base, max, n) == Min(base * Pow2(n), max) <==>
              base * Pow2(n) < TWO63 || max <= base * Pow2(n) % TWO64 < TWO63
  {
    BackoffIsWrapped(base, max, n);
  }

  /** The next retry lies in the past if and only if base * 2^n modulo 2^64 has its top bit set. */
  lemma {:induction false} BackoffNegativeIff(base: nat, max: nat, n: nat)
    ensures GoBackoff(base, max, n) < 0 <==> base * Pow2(n) % TWO64 >= TWO63
  {
    BackoffIsWrapped(base, max, n);
  }

  /** There is no delay left if and only if 2^64 divides base * 2^n. */
  lemma {:induction false} BackoffVanishesIff(base: nat, max: nat, n: nat)
    requires max > 0
    ensures GoBackoff(base, max, n) == 0 <==> base * Pow2(n) % TWO64 == 0
  {
    BackoffIsWrapped(base, max, n);
  }

  lemma {:induction false} PullOut64(c: nat, k: nat, n: nat)
    requires n + k >= 64
    ensures c * Pow2(k) * Pow2(n) == c * Pow2(n + k - 64) * TWO64
  {
    var m := n + k - 64;
    Pow2At64();
    Pow2Adds(k, n);
    Pow2Adds(m, 64);
    Reassociate(c, Pow2(k), Pow2(n));
    Reassociate(c, Pow2(m), TWO64);
  }

  /** With a base divisible by 2^k that is the case from attempt 64 - k on. */
  lemma {:induction false} BackoffVanishes(c: nat, k: nat, max: nat, n: nat)
    requires max > 0 && n + k >= 64
    ensures GoBackoff(c * Pow2(k), max, n) == 0
  {
    PullOut64(c, k, n);
    MultipleHasNoRemainder(c * Pow2(n + k - 64));
    BackoffVanishesIff(c * Pow2(k), max, n);
  }

  lemma {:induction false} MultipleHasNoRemainder(c: nat)
    ensures c * TWO64 % TWO64 == 0
  {
  }

  /** The default base of one second gives a negative delay at attempt 34 and none at all from attempt 55 on. */
  lemma {:induction false} OneSecondFailsEarly(max: nat, n: nat)
    requires max > 0 && n >= 55
    ensures GoBackoff(1_000_000_000, max, 34) == -1_266_874_889_709_551_616
    ensures GoBackoff(1_000_000_000, max, n) == 0
  {
    SmallPowers();
    BackoffIsWrapped(1_000_000_000, max, 34);
    BackoffVanishes(1_953_125, 9, max, n);
  }

  lemma {:induction false} SmallPowers()
    ensures Pow2(9) == 512 && Pow2(34) == 0x4_0000_0000
  {
    var one := 1;
    Pow2Square(one, 2);
    Pow2Square(2 * one, 4);
    Pow2Square(4 * one, 16);
    Pow2Adds(8 * one, 1);
    Pow2Square(8 * one, 256);
    Pow2Square(16 * one, 0x1_0000);
    Pow2Adds(32 * one, 2);
    assert Pow2(8 * one + 1) == 512 && Pow2(32 * one + 2) == 0x4_0000_0000;
  }

  lemma {:induction false} BackoffIsMonotone(base: nat, max: int, m: nat, n: nat)
    requires m <= n && base * Pow2(n) < TWO63
    ensures GoBackoff(base, max, m) <= GoBackoff(base, max, n)
  {
    Pow2Grows(m, n);
    assert base * Pow2(m) <= base * Pow2(n);
    BackoffIsExact(base, max, m);
    BackoffIsExact(base, max, n);
  }

  /** `a` is a float64 result for `exact`: off by no more than 2e-16 of it, more than the unit roundoff 2^-53. */
  predicate Near(a: real, exact: real) { exact * 0.9999999999999998 <= a <= exact * 1.0000000000000002 }

  lemma {:induction false} JitterScales(b: real, jitter: real)
    requires 0.0 <= b && 0.5 <= jitter <= 1.0
    ensures b * 0.5 <= b * jitter <= b
  {
    assert b * (jitter - 0.5) >= 0.0;
    assert b * (1.0 - jitter) >= 0.0;
  }

  /** Two roundings around a jitter between half and all. */
  lemma {:induction false} FloatJitter(b: real, x: real, y: real, z: real)
    requires 0.0 <= b && Near(x, b) && x * 0.5 <= y <= x && Near(z, y)
    ensures b * 0.4999999999999998 <= z <= b * 1.0000000000000005
  {
  }

  /**
   `time.Duration(float64(backoff) * jitter)`, where the conversion gives `x` and the product gives `z`, each rounded,
   and whole nanoseconds are kept. The result exceeds the backoff and falls short of its half by no more than roundoff
   and a nanosecond.
   */
  function Jittered(backoff: real, jitter: real, x: real, z: real): (d: int)
    requires backoff >= 0.0 && 0.5 <= jitter <= 1.0 && Near(x, backoff) && Near(z, x * jitter)
    ensures backoff * 0.4999999999999998 - 1.0 < d as real <= backoff * 1.0000000000000005
  {
    JitterScales(x, jitter);
    FloatJitter(backoff, x, x * jitter, z);
    z.Floor
  }

  /** Below 2^63 the delay of CalculateNextRetryAt is between half and all of min(base * 2^n, max), up to rounding. */
  lemma {:induction false} DelayBounds(base: nat, max: nat, n: nat, jitter: real, x: real, z: real)
    requires base * Pow2(n) < TWO63 && 0.5 <= jitter <= 1.0
    requires Near(x, GoBackoff(base, max, n) as real) && Near(z, x * jitter)
    ensures var exact := Min(base * Pow2(n), max);
            && GoBackoff(base, max, n) == exact
            && var delay := Jittered(exact as real, jitter, x, z) as real;
               exact as real * 0.4999999999999998 - 1.0 < delay <= exact as real * 1.0000000000000005
  {
    BackoffIsExact(base, max, n);
  }

  // ---------- adaptive polling ----------

  /** Idle polls since the last one that found a message (or since the start). */
  function IdleStreak(hits: seq<bool>): nat
  {
    if hits == [] || hits[|hits| - 1] then 0 else 1 + IdleStreak(hits[..|hits| - 1])
  }

  /** The interval a worker should be waiting after this history of polls. */
  function Interval(poll: int, maxPoll: int, hits: seq<bool>): int
  {
    var k := IdleStreak(hits);
    if k == 0 then poll else Min(poll * Pow2(k), maxPoll)
  }

  /**
   The worker loop over a history of polls: the interval is reset by a hit and doubled in 64-bit arithmetic otherwise.
   It is always exactly min(PollInterval * 2^k, MaxPollInterval) after k idle polls, and never overflows.
   */
  method Poll(poll: int, maxPoll: int, hits: seq<bool>) returns (interval: int)
    requires 0 < poll < 0x4000_0000_0000_0000 && 0 < maxPoll < 0x4000_0000_0000_0000
    ensures interval == Interval(poll, maxPoll, hits)
    ensures 0 < interval < 0x4000_0000_0000_0000
  {
    interval := poll;
    for i := 0 to |hits|
      invariant interval == Interval(poll, maxPoll, hits[..i])
      invariant 0 < interval < 0x4000_0000_0000_0000
    {
      assert hits[..i + 1][..i] == hits[..i];
      if hits[i] {
        interval := poll;
      } else {
        DoubleInterval(poll, maxPoll, IdleStreak(hits[..i]));
        interval := Min(Wrap(interval * 2), maxPoll);
      }
    }
    assert hits[..|hits|] == hits;
  }

  /** A poll that finds something resets the interval; one that does not doubles it, up to the maximum. */
  lemma {:induction false} IntervalAfterPoll(poll: int, maxPoll: int, hits: seq<bool>)
    requires 0 < poll && 0 < maxPoll
    ensures Interval(poll, maxPoll, []) == poll
    ensures Interval(poll, maxPoll, hits + [true]) == poll
    ensures Interval(poll, maxPoll, hits + [false]) == Min(2 * Interval(poll, maxPoll, hits), maxPoll)
  {
    assert (hits + [false])[..|hits|] == hits;
    DoubleInterval(poll, maxPoll, IdleStreak(hits));
  }

  lemma {:induction false} DoubleInterval(poll: int, maxPoll: int, k: nat)
    requires 0 < poll && 0 < maxPoll
    ensures Min(Min(poll * Pow2(k), maxPoll) * 2, maxPoll) == Min(poll * Pow2(k + 1), maxPoll)
    ensures poll * Pow2(k + 1) == 2 * (poll * Pow2(k))
    ensures poll * Pow2(k) > 0 && poll * Pow2(0) == poll
  {
    var p := Pow2(k);
    assert poll * (2 * p) == 2 * (poll * p);
    assert poll * p > 0;
  }
}
