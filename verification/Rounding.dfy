/** Fixed-point arithmetic: the rounding that `toFixed` and `toDecimalPlaces` perform. */
module Rounding {
  function Min(a: int, b: int): int { if a <= b then a else b }

  function Max(a: int, b: int): int { if a >= b then a else b }

  function Abs(a: int): int { if a < 0 then -a else a }

  function Pow10(n: nat): (r: nat)
    ensures r > 0
  {
    if n == 0 then 1 else 10 * Pow10(n - 1)
  }

  /** `n / d` to the nearest integer, ties away from zero (the Decimal default, ROUND_HALF_UP). */
  function RoundDiv(n: int, d: int): (r: int)
    requires d > 0
    ensures 2 * (d * r) - d <= 2 * n <= 2 * (d * r) + d
    ensures n >= 0 ==> r >= 0 && 2 * n < 2 * (d * r) + d
    ensures n <= 0 ==> r <= 0 && 2 * (d * r) - d < 2 * n
  {
    if n >= 0 then HalfUp(n, d) else
      assert d * -HalfUp(-n, d) == -(d * HalfUp(-n, d));
      -HalfUp(-n, d)
  }

  function HalfUp(n: nat, d: int): (r: int)
    requires d > 0
    ensures r >= 0
    ensures 2 * (d * r) - d <= 2 * n < 2 * (d * r) + d
    ensures n == 0 ==> r == 0
  {
    Quotient(2 * n + d, 2 * d);
    (2 * n + d) / (2 * d)
  }

  lemma Quotient(a: nat, b: int)
    requires b > 0
    ensures 0 <= a / b && b * (a / b) <= a < b * (a / b) + b
    ensures a < b ==> a / b == 0
  {
    assert a == b * (a / b) + a % b;
    if a / b < 0 { Scale(b, a / b, -1); }
  }

  lemma Scale(d: int, a: int, b: int)
    requires d >= 0 && a <= b
    ensures d * a <= d * b
  {
    assert d * (b - a) >= 0;
    assert d * b == d * a + d * (b - a);
  }

  /** The same rounding of an exact real quantity. */
  function RoundReal(x: real): (r: int)
    ensures r as real - 0.5 <= x <= r as real + 0.5
    ensures x >= 0.0 ==> x < r as real + 0.5
    ensures x <= 0.0 ==> r as real - 0.5 < x
  {
    if x >= 0.0 then (x + 0.5).Floor else -((0.5 - x).Floor)
  }

  /** Rounding reaches a positive `k` exactly when the quotient reaches `k - 1/2`. */
  lemma RoundDivAtLeast(n: int, d: int, k: int)
    requires d > 0 && k >= 1
    ensures RoundDiv(n, d) >= k <==> 2 * n >= 2 * (d * k) - d
  {
    hide RoundDiv;
    var r := RoundDiv(n, d);
    if r >= k {
      Scale(d, k, r);
    } else {
      Scale(d, r, k - 1);
      assert d * (k - 1) == d * k - d;
      if n < 0 {
        Scale(d, 1, k);
      }
    }
  }

  /** And stays at or above a `k` that is not positive exactly when it exceeds `k - 1/2`. */
  lemma RoundDivAtLeastNonPositive(n: int, d: int, k: int)
    requires d > 0 && k <= 0
    ensures RoundDiv(n, d) >= k <==> 2 * n > 2 * (d * k) - d
  {
    hide RoundDiv;
    var r := RoundDiv(n, d);
    if r >= k {
      Scale(d, k, r);
      Scale(d, k, 0);
    } else {
      Scale(d, r, k - 1);
    }
  }

  lemma RoundDivMonotone(n1: int, n2: int, d: int)
    requires d > 0 && n1 <= n2
    ensures RoundDiv(n1, d) <= RoundDiv(n2, d)
  {
    hide RoundDiv;
    var r1, r2 := RoundDiv(n1, d), RoundDiv(n2, d);
    if r1 > r2 {
      Scale(d, r2 + 1, r1);
    }
  }

  lemma OddMultiple(d: int, r: int)
    ensures 2 * (d * r) - d == (2 * r - 1) * d
  {
  }

  /** A larger denominator never rounds to more. */
  lemma RoundDivAntitone(n: int, d1: int, d2: int)
    requires n >= 0 && 0 < d1 <= d2
    ensures RoundDiv(n, d2) <= RoundDiv(n, d1)
  {
    hide RoundDiv;
    var r2 := RoundDiv(n, d2);
    if r2 >= 1 {
      RoundDivAtLeast(n, d2, r2);
      RoundDivAtLeast(n, d1, r2);
      OddMultiple(d1, r2);
      OddMultiple(d2, r2);
      Scale(2 * r2 - 1, d1, d2);
    }
  }

  /** `Pow10` is the power of ten. */
  lemma {:induction false} Pow10Law(m: nat, n: nat)
    ensures Pow10(0) == 1 && Pow10(1) == 10 && Pow10(m + n) == Pow10(m) * Pow10(n)
  {
    assert Pow10(1) == 10 * Pow10(0);
    if m > 0 {
      Pow10Law(m - 1, n);
      assert Pow10(m + n) == 10 * Pow10(m - 1 + n);
      assert Pow10(m) == 10 * Pow10(m - 1);
    }
  }
}
