/** Full-jitter exponential backoff in 64-bit arithmetic. */
module Backoff {

  /** Go's int64; leaving its range anywhere below is a verification error. */
  newtype int64 = x: int | -0x8000_0000_0000_0000 <= x <= 0x7fff_ffff_ffff_ffff

  const MAX_INT64: int64 := 0x7fff_ffff_ffff_ffff
  const MAX_SHIFT: int64 := 30

  function Pow2(n: nat): nat {
    if n == 0 then 1 else 2 * Pow2(n - 1)
  }

  lemma {:induction false} Pow2Monotone(m: nat, n: nat)
    requires m <= n
    ensures 1 <= Pow2(m) <= Pow2(n)
    decreases n
  {
    if m < n {
      Pow2Monotone(m, n - 1);
    } else if n > 0 {
      Pow2Monotone(m - 1, n - 1);
    }
  }

  lemma Pow2Of30()
    ensures Pow2(30) == 0x4000_0000
  {
    assert Pow2(10) == 1024;
    assert Pow2(20) == 1024 * 1024;
  }

  /** int64(1) << attempt */
  function OneShifted(attempt: int64): (r: int64)
    requires 0 <= attempt <= MAX_SHIFT
    ensures r as int == Pow2(attempt as int)
  {
    Pow2Of30();
    Pow2Monotone(attempt as int, 30);
    if attempt == 0 then 1
    else
      Pow2Monotone(attempt as int - 1, 29);
      2 * OneShifted(attempt - 1)
  }

  function Clamped(attempt: int64): (a: int64)
    ensures 0 <= a <= MAX_SHIFT
  {
    if attempt < 0 then 0 else if attempt > MAX_SHIFT then MAX_SHIFT else attempt
  }

  lemma ProductFits(a: int, b: int, m: int)
    requires 0 < b && 0 <= m && 0 <= a <= m / b
    ensures 0 <= b * a <= m
  {
    assert b * (m / b) <= m;
    assert b * a <= b * (m / b) by {
      MulLeft(b, a, m / b);
    }
  }

  lemma MulLeft(k: int, a: int, b: int)
    requires 0 <= k && a <= b
    ensures k * a <= k * b
  {
  }

  /** base * multiplier, or the largest int64 where that would overflow. */
  function Raw(multiplier: int64, base: int64): (r: int64)
    requires 0 < base && 1 <= multiplier
    ensures 0 < r
  {
    if multiplier > MAX_INT64 / base then MAX_INT64
    else
      ProductFits(multiplier as int, base as int, MAX_INT64 as int);
      MulLeft(base as int, 1, multiplier as int);
      base * multiplier
  }

  /** The largest delay the attempt allows. */
  function Ceiling(attempt: int64, base: int64, maxDelay: int64): (c: int64)
    requires 0 < base
    ensures 0 < c
  {
    var multiplier := OneShifted(Clamped(attempt));
    Pow2Monotone(0, Clamped(attempt) as int);
    var raw: int64 := Raw(multiplier, base);
    if maxDelay > 0 && raw > maxDelay then maxDelay else raw
  }

  /** rand.Int64N: a value below its argument, which must be positive. */
  ghost predicate IsDraw(rng: int64 --> int64) {
    forall n: int64 :: n > 0 ==> rng.requires(n) && 0 <= rng(n) < n
  }

  function BackoffWithJitter(attempt: int64, base: int64, maxDelay: int64, rng: int64 --> int64): (d: int64)
    requires IsDraw(rng)
    ensures 0 <= d
    ensures base <= 0 ==> d == 0
    ensures 0 < base ==> d <= Ceiling(attempt, base, maxDelay)
  {
    if base <= 0 then 0
    else
      // The ceiling is positive, so the source's guard for a ceiling of zero or less is never taken.
      var ceiling := Ceiling(attempt, base, maxDelay);
      if ceiling == MAX_INT64 then rng(MAX_INT64)
      else rng(ceiling + 1)
  }

  /** A generator that draws d wherever that is a value it may draw. */
  function Drawing(d: int64): int64 --> int64 {
    (n: int64) requires n > 0 => if 0 <= d < n then d else 0
  }

  /** Full jitter: every delay up to the ceiling can come out, but for the largest int64, which no draw reaches. */
  lemma EveryDelayDrawn(attempt: int64, base: int64, maxDelay: int64, d: int64) returns (rng: int64 --> int64)
    requires 0 < base && 0 <= d <= Ceiling(attempt, base, maxDelay) && d < MAX_INT64
    ensures IsDraw(rng) && BackoffWithJitter(attempt, base, maxDelay, rng) == d
  {
    rng := Drawing(d);
  }

  function Min(a: int, b: int): int {
    if a < b then a else b
  }

  /** Attempts below zero count as zero, attempts above 30 as 30. */
  function Exponent(attempt: int): nat {
    if attempt < 0 then 0 else Min(attempt, 30)
  }

  /** base * 2^attempt in unbounded arithmetic. */
  function Unbounded(attempt: int, base: int): int {
    base * Pow2(Exponent(attempt))
  }

  /** The ceiling is base * 2^min(attempt, 30), saturated at the largest int64 and then at a positive maxDelay. */
  lemma CeilingExact(attempt: int64, base: int64, maxDelay: int64)
    requires 0 < base
    ensures var saturated := Min(Unbounded(attempt as int, base as int), MAX_INT64 as int);
            Ceiling(attempt, base, maxDelay) as int
            == if maxDelay > 0 then Min(saturated, maxDelay as int) else saturated
  {
    var m := OneShifted(Clamped(attempt));
    if m > MAX_INT64 / base {
      Overflows(m as int, base as int, MAX_INT64 as int);
    } else {
      ProductFits(m as int, base as int, MAX_INT64 as int);
    }
  }

  lemma Overflows(a: int, b: int, m: int)
    requires 0 < b && 0 <= m && m / b < a
    ensures m < b * a
  {
    assert m < b * (m / b + 1);
    MulLeft(b, m / b + 1, a);
  }

  /** Later attempts never have a lower ceiling. */
  lemma CeilingMonotone(a1: int64, a2: int64, base: int64, maxDelay: int64)
    requires 0 < base && a1 <= a2
    ensures Ceiling(a1, base, maxDelay) <= Ceiling(a2, base, maxDelay)
  {
    CeilingExact(a1, base, maxDelay);
    CeilingExact(a2, base, maxDelay);
    Pow2Monotone(Exponent(a1 as int), Exponent(a2 as int));
    MulLeft(base as int, Pow2(Exponent(a1 as int)), Pow2(Exponent(a2 as int)));
  }

  function Sum(delays: seq<int>): int {
    if delays == [] then 0 else Sum(delays[..|delays| - 1]) + delays[|delays| - 1]
  }

  /** The delays of one event's successive failures: the k-th is drawn for attempt k. */
  ghost predicate Backoffs(delays: seq<int>, base: int64, maxDelay: int64)
    requires 0 < base
  {
    && |delays| <= MAX_INT64 as int
    && forall k | 0 <= k < |delays| :: 0 <= delays[k] <= Ceiling(k as int64, base, maxDelay) as int
  }

  /** The first k backoffs of an event add up to at most base * (2^k - 1), and to at most k * maxDelay. */
  lemma {:induction false} TotalBackoff(delays: seq<int>, base: int64, maxDelay: int64)
    requires 0 < base && Backoffs(delays, base, maxDelay)
    ensures 0 <= Sum(delays) <= base as int * (Pow2(|delays|) - 1)
    ensures 0 < maxDelay ==> Sum(delays) <= |delays| * maxDelay as int
  {
    if delays != [] {
      var n := |delays| - 1;
      TotalBackoff(delays[..n], base, maxDelay);
      OneBackoff(n, delays[n], base, maxDelay);
      Doubling(base as int, Pow2(n));
      OneMore(n, maxDelay as int);
    }
  }

  lemma OneBackoff(n: nat, d: int, base: int64, maxDelay: int64)
    requires 0 < base && n <= MAX_INT64 as int && d <= Ceiling(n as int64, base, maxDelay) as int
    ensures d <= base as int * Pow2(n)
    ensures 0 < maxDelay ==> d <= maxDelay as int
  {
    CeilingExact(n as int64, base, maxDelay);
    Pow2Monotone(Exponent(n), n);
    MulLeft(base as int, Pow2(Exponent(n)), Pow2(n));
  }

  lemma Doubling(b: int, p: int)
    ensures b * (p - 1) + b * p == b * (2 * p - 1)
  {
  }

  lemma OneMore(n: int, k: int)
    ensures n * k + k == (n + 1) * k
  {
  }
}
