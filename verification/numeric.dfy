/** Numeric conversions the game relies on: Python's `int()` of a float,
    `round(x, 2)`, and the power behind the difficulty multiplier. */
module Numeric {

  /** Python's `int(x)` for a float: truncation toward zero. */
  function Trunc(x: real): (n: int)
    ensures 0.0 <= x ==> n as real <= x < n as real + 1.0
    ensures x < 0.0 ==> n as real - 1.0 < x <= n as real
  {
    if x >= 0.0 then x.Floor else -((-x).Floor)
  }

  /** Truncating a whole number gives it back. */
  lemma TruncOfWhole(n: int)
    ensures Trunc(n as real) == n
  {
  }

  /** Scaling a non-negative whole number by a factor of at least one and
      truncating never loses ground. */
  lemma TruncOfGrowth(n: int, k: real)
    requires 0 <= n && 1.0 <= k
    ensures n <= Trunc(n as real * k)
  {
    assert n as real * k - n as real == n as real * (k - 1.0);
    assert n as real * (k - 1.0) >= 0.0;
  }

  /** `b ** n` for a natural exponent. */
  function Pow(b: real, n: nat): real
  {
    if n == 0 then 1.0 else b * Pow(b, n - 1)
  }

  lemma {:induction false} PowAtLeastOne(b: real, n: nat)
    requires 1.0 <= b
    ensures 1.0 <= Pow(b, n)
  {
    if n > 0 {
      PowAtLeastOne(b, n - 1);
      var p := Pow(b, n - 1);
      assert b * p - p == (b - 1.0) * p;
      assert (b - 1.0) * p >= 0.0;
    }
  }

  /** `round(x, 2)`, abstracted as rounding half up to the nearest hundredth. */
  function Round2(x: real): (r: real)
    ensures (r * 100.0).Floor as real == r * 100.0
    ensures x - 0.005 < r <= x + 0.005
  {
    ((x * 100.0 + 0.5).Floor as real) / 100.0
  }

  /** Values already on a hundredth are left alone by rounding. */
  lemma Round2OfHundredths(k: int)
    ensures Round2(k as real / 100.0) == k as real / 100.0
  {
    var x := k as real / 100.0;
    assert x * 100.0 == k as real;
    assert (x * 100.0 + 0.5).Floor == k;
  }
}
