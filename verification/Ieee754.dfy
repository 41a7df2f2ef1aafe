/** Integer-valued binary64 numbers and roundTiesToEven, section 4.3.1 of IEEE 754-2019. */
module Ieee754 {
  import opened Common

  /** 2^53: from here on not every integer is a binary64 number. */
  const PRECISION: int := 0x20_0000_0000_0000
  const MAX_SAFE_INTEGER: int := 0x1f_ffff_ffff_ffff

  datatype Double = Finite(value: int) | Infinite(negative: bool)

  predicate IsSafe(n: int) {
    Abs(n) <= MAX_SAFE_INTEGER
  }

  /** The multiple of `unit` nearest n; of two equally near ones, the even multiple. */
  function HalfEven(n: nat, unit: nat): nat
    requires unit > 0
  {
    var q, r := n / unit, n % unit;
    if 2 * r < unit || (2 * r == unit && q % 2 == 0) then q * unit else (q + 1) * unit
  }

  /** Rounds to 53 significant bits, the unit in the last place being at least `unit`. */
  function RoundFrom(n: nat, unit: nat): nat
    requires unit > 0
    decreases n - unit
  {
    if n < PRECISION * unit then HalfEven(n, unit) else RoundFrom(n, 2 * unit)
  }

  function RoundMagnitude(n: nat): nat {
    RoundFrom(n, 1)
  }

  /** The binary64 number an exact integer result is rounded to. */
  function Round(n: int): Double {
    var magnitude: int := RoundMagnitude(Abs(n));
    if magnitude >= Pow2(1024) then Infinite(n < 0)
    else Finite(if n < 0 then -magnitude else magnitude)
  }

  // ------------------------------------------------------------------ nearest

  predicate Holds(x: nat, significand: nat, exponent: nat) {
    significand <= PRECISION && x == significand * Pow2(exponent)
  }

  /** Magnitudes that 53 significant bits can hold. */
  ghost predicate Representable(x: nat) {
    exists m: nat, e: nat :: Holds(x, m, e)
  }

  lemma Multiples(a: int, b: int, unit: nat)
    requires a <= b
    ensures a * unit <= b * unit
  {
  }

  /** The two multiples around n, and which of them is taken. */
  lemma HalfEvenCases(n: nat, unit: nat) returns (low: nat)
    requires unit > 0
    ensures low == (n / unit) * unit && low + unit == (n / unit + 1) * unit && low <= n < low + unit
    ensures HalfEven(n, unit) == low || HalfEven(n, unit) == low + unit
    ensures 2 * Abs(n - HalfEven(n, unit)) <= unit
  {
    low := (n / unit) * unit;
    assert n == low + n % unit;
  }

  lemma HalfEvenIsNearest(n: nat, unit: nat, k: int)
    requires unit > 0
    ensures Abs(n - HalfEven(n, unit)) <= Abs(n - k * unit)
  {
    hide HalfEven;
    var low := HalfEvenCases(n, unit);
    if k <= n / unit {
      Multiples(k, n / unit, unit);
    } else {
      Multiples(n / unit + 1, k, unit);
    }
  }

  /** The unit at which rounding stops, and the bounds it stops within. */
  lemma {:induction false} RoundFromStops(n: nat, e: nat) returns (k: nat)
    requires e > 0 ==> n >= (PRECISION / 2) * Pow2(e)
    ensures k >= e && RoundFrom(n, Pow2(e)) == HalfEven(n, Pow2(k)) && n < PRECISION * Pow2(k)
    ensures k > 0 ==> n >= (PRECISION / 2) * Pow2(k)
    decreases n - Pow2(e)
  {
    if n < PRECISION * Pow2(e) {
      k := e;
    } else {
      k := RoundFromStops(n, e + 1);
    }
  }

  lemma {:induction false} Pow2Sum(a: nat, b: nat)
    ensures Pow2(a + b) == Pow2(a) * Pow2(b)
  {
    if a > 0 {
      assert Pow2(a + b) == 2 * Pow2((a - 1) + b) && Pow2(a) == 2 * Pow2(a - 1);
      hide Pow2;
      Pow2Sum(a - 1, b);
      MulAssociative(2, Pow2(a - 1), Pow2(b));
    }
  }

  /** Rounding gives a 53-bit magnitude, and no other such magnitude is nearer. */
  lemma RoundsToNearest(n: nat, m: nat, e: nat)
    requires m <= PRECISION
    ensures Representable(RoundMagnitude(n))
    ensures Abs(n - RoundMagnitude(n)) <= Abs(n - m * Pow2(e))
  {
    hide HalfEven, Representable, RoundFrom;
    assert Pow2(0) == 1;
    var k := RoundFromStops(n, 0);
    hide Pow2;
    RoundingIsRepresentable(n, k);
    if e >= k {
      Rescale(m, e, k);
      HalfEvenIsNearest(n, Pow2(k), m * Pow2(e - k));
    } else {
      HalfEvenIsNearest(n, Pow2(k), PRECISION / 2);
      FinerIsSmaller(m, e, k);
    }
  }

  /** A magnitude exactly between two neighbouring 53-bit numbers goes to the one whose last significant
      bit is 0: the result is an even multiple of the unit in the last place, 2^k. */
  lemma TiesGoToEven(n: nat, m: nat, e: nat) returns (q: nat, k: nat)
    requires m <= PRECISION && m * Pow2(e) != RoundMagnitude(n)
    requires Abs(n - m * Pow2(e)) == Abs(n - RoundMagnitude(n))
    ensures RoundMagnitude(n) == q * Pow2(k) && q % 2 == 0
    ensures n < PRECISION * Pow2(k) && (k > 0 ==> n >= (PRECISION / 2) * Pow2(k))
  {
    hide RoundFrom;
    assert Pow2(0) == 1;
    k := RoundFromStops(n, 0);
    hide Pow2;
    if e >= k {
      Rescale(m, e, k);
      q := EvenOfTie(n, Pow2(k), m * Pow2(e - k));
    } else {
      FinerIsSmaller(m, e, k);
      NoTieBelowTheRange(n, Pow2(k), m * Pow2(e));
      assert false;
    }
  }

  lemma NextMultiple(j: nat, unit: nat)
    ensures (j + 1) * unit == j * unit + unit
  {
  }

  /** Two multiples equally near: the even one was taken. */
  lemma EvenOfTie(n: nat, unit: nat, j: nat) returns (q: nat)
    requires unit > 0 && j * unit != HalfEven(n, unit) && Abs(n - j * unit) == Abs(n - HalfEven(n, unit))
    ensures HalfEven(n, unit) == q * unit && q % 2 == 0
    ensures 2 * (n % unit) == unit
  {
    var p := n / unit;
    var low := HalfEvenCases(n, unit);
    HalfEvenOfHalf(n, unit);
    hide HalfEven;
    MultiplesAround(j, p, unit);
    TieIsHalfway(n, low, unit, HalfEven(n, unit), j * unit);
    q := if p % 2 == 0 then p else p + 1;
  }

  /** Where a multiple stands that is neither of two neighbouring ones. */
  lemma MultiplesAround(j: nat, p: nat, unit: nat)
    ensures j * unit + unit <= p * unit || j * unit == p * unit || j * unit == p * unit + unit
            || j * unit >= p * unit + 2 * unit
  {
    NextMultiple(j, unit);
    NextMultiple(p, unit);
    NextMultiple(p + 1, unit);
    if j < p {
      Multiples(j + 1, p, unit);
    } else if j > p + 1 {
      Multiples(p + 2, j, unit);
    }
  }

  lemma HalfEvenOfHalf(n: nat, unit: nat)
    requires unit > 0
    ensures n == (n / unit) * unit + n % unit
    ensures 2 * (n % unit) == unit ==>
              HalfEven(n, unit) == (if (n / unit) % 2 == 0 then n / unit else n / unit + 1) * unit
  {
  }

  lemma TieIsHalfway(n: nat, low: nat, unit: nat, taken: nat, x: nat)
    requires low <= n < low + unit && (taken == low || taken == low + unit) && 2 * Abs(n - taken) <= unit
    requires x + unit <= low || x == low || x == low + unit || x >= low + 2 * unit
    requires x != taken && Abs(n - x) == Abs(n - taken)
    ensures 2 * (n - low) == unit
  {
  }

  /** Below the range of a unit nothing is as near as the number taken but that number itself: the
      smallest multiple in the range is even, and would be taken in a tie. */
  lemma NoTieBelowTheRange(n: nat, unit: nat, x: nat)
    requires unit > 0 && x <= (PRECISION / 2) * unit <= n
    requires Abs(n - x) == Abs(n - HalfEven(n, unit))
    ensures x == HalfEven(n, unit)
  {
    var j := PRECISION / 2;
    hide HalfEven;
    HalfEvenIsNearest(n, unit, j);
    if j * unit != HalfEven(n, unit) {
      var q := EvenOfTie(n, unit, j);
      HalfEvenOfHalf(n, unit);
      EvenFloorIsTaken(n, unit, j, n / unit);
    }
  }

  lemma EvenFloorIsTaken(n: nat, unit: nat, j: nat, p: nat)
    requires unit > 0 && p == n / unit && n == p * unit + n % unit && 2 * (n % unit) == unit
    requires j % 2 == 0 && j * unit <= n
    requires HalfEven(n, unit) == (if p % 2 == 0 then p else p + 1) * unit
    requires Abs(n - j * unit) == Abs(n - HalfEven(n, unit))
    ensures HalfEven(n, unit) == j * unit
  {
    hide HalfEven;
    NextMultiple(p, unit);
    NextMultiple(j, unit);
    if j < p {
      Multiples(j + 1, p, unit);
    } else if j > p {
      Multiples(p + 1, j, unit);
    }
  }

  lemma Rescale(m: nat, e: nat, k: nat)
    requires k <= e
    ensures m * Pow2(e) == (m * Pow2(e - k)) * Pow2(k)
  {
    hide Pow2;
    Pow2Sum(e - k, k);
    MulAssociative(m, Pow2(e - k), Pow2(k));
  }

  lemma RoundingIsRepresentable(n: nat, k: nat)
    requires n < PRECISION * Pow2(k)
    ensures Representable(HalfEven(n, Pow2(k)))
  {
    hide HalfEven, Pow2;
    var q := n / Pow2(k);
    var low := HalfEvenCases(n, Pow2(k));
    QuotientBelow(n, PRECISION, Pow2(k));
    assert (q + 1) * Pow2(k) == low + Pow2(k);
    assert Holds(HalfEven(n, Pow2(k)), q, k) || Holds(HalfEven(n, Pow2(k)), q + 1, k);
  }

  lemma QuotientBelow(n: nat, bound: nat, unit: nat)
    requires unit > 0 && n < bound * unit
    ensures n / unit < bound
  {
  }

  /** A 53-bit magnitude in a finer unit is at most half the range of the coarser one. */
  lemma FinerIsSmaller(m: nat, e: nat, k: nat)
    requires m <= PRECISION && e < k
    ensures m * Pow2(e) <= (PRECISION / 2) * Pow2(k)
  {
    assert Pow2(k) == 2 * Pow2(k - 1);
    hide Pow2;
    Pow2Grows(e, k - 1);
    Multiples(m, PRECISION, Pow2(e));
  }

  // ------------------------------------------------------------------ the range guard

  lemma RoundMagnitudeOfSafe(n: nat)
    ensures n < PRECISION ==> RoundMagnitude(n) == n
    ensures n >= PRECISION ==> RoundMagnitude(n) >= PRECISION
  {
    hide HalfEven, RoundFrom;
    assert Pow2(0) == 1;
    var k := RoundFromStops(n, 0);
    if k == 0 {
      var low := HalfEvenCases(n, 1);
    } else {
      Pow2Grows(1, k);
      assert Pow2(1) == 2;
      hide Pow2;
      var low := HalfEvenCases(n, Pow2(k));
      HalfRange(n, Pow2(k), n / Pow2(k));
    }
  }

  lemma HalfRange(n: nat, unit: nat, q: nat)
    requires unit >= 2 && (PRECISION / 2) * unit <= n < (q + 1) * unit
    ensures n >= PRECISION && q * unit >= PRECISION
  {
  }

  /** 2^1024 is far beyond the guard. */
  /** A rounded number keeps its sign; it is infinite exactly when its magnitude rounds to 2^1024 or more. */
  lemma OverflowIsDecided(n: int)
    ensures Round(n).Infinite? <==> !(RoundMagnitude(Abs(n)) < Pow2(1024))
    ensures n >= 0 && Round(n).Finite? ==> 0 <= Round(n).value == RoundMagnitude(n)
    ensures n < 0 && Round(n).Finite? ==> 0 <= -Round(n).value == RoundMagnitude(-n)
    ensures Round(n).Infinite? ==> Round(n).negative == (n < 0)
  {
    hide Pow2, RoundFrom;
  }

  lemma OverflowIsFar()
    ensures Pow2(1024) >= 2 * PRECISION
  {
    assert Pow2(9) == 512;
    hide Pow2;
    Pow2Sum(9, 9);
    assert Pow2(18) == 0x4_0000;
    Pow2Sum(18, 18);
    assert Pow2(36) == 0x10_0000_0000;
    Pow2Sum(36, 18);
    assert Pow2(54) == 0x40_0000_0000_0000;
    Pow2Grows(54, 1024);
  }

  /** Comparing a rounded result with MAX_SAFE_INTEGER decides about the exact result, and lets only
      exact results through. */
  lemma GuardDecidesExactly(n: int)
    ensures IsSafe(n) <==> Round(n).Finite? && IsSafe(Round(n).value)
    ensures IsSafe(n) ==> Round(n) == Finite(n)
  {
    hide RoundMagnitude, Pow2;
    RoundMagnitudeOfSafe(Abs(n));
    OverflowIsFar();
  }
}
