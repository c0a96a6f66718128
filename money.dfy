/**
 * Monetary arithmetic of the reports. Amounts are exact reals: the engines'
 * 64-bit floating point is not modelled, only the tolerance constant and the
 * two-decimal rounding the queries apply.
 */
module Money {

  /** The tolerance 0.00001 the polars report compares magnitudes with. */
  const Epsilon: real := 0.00001

  function Abs(x: real): (r: real)
    ensures r >= 0.0
    ensures r == x || r == -x
  {
    if x < 0.0 then -x else x
  }

  /** `x` is a whole number of cents. */
  predicate IsCents(x: real)
  {
    (x * 100.0).Floor as real == x * 100.0
  }

  /** `x` lies exactly halfway between two whole numbers of cents. */
  predicate IsHalfCent(x: real)
  {
    IsCents(x - 0.005)
  }

  /**
   * `round(x, 2)` as Polars and PySpark compute it: the nearest whole number
   * of cents, with halves rounded away from zero.
   */
  function Round2(x: real): (r: real)
    ensures IsCents(r)
    ensures -0.005 <= r - x <= 0.005
  {
    var cents := if x >= 0.0 then (x * 100.0 + 0.5).Floor else -((-x * 100.0 + 0.5).Floor);
    assert (cents as real / 100.0) * 100.0 == cents as real;
    cents as real / 100.0
  }

  /** A whole number of cents is left as it is by rounding. */
  lemma Round2OfCents(x: real)
    requires IsCents(x)
    ensures Round2(x) == x
  {
    var r := Round2(x);
    var d := (r * 100.0).Floor - (x * 100.0).Floor;
    assert d as real == r * 100.0 - x * 100.0;
    assert -1 < d < 1;
  }

  /** Rounding is idempotent. */
  lemma Round2Idempotent(x: real)
    ensures Round2(Round2(x)) == Round2(x)
  {
    Round2OfCents(Round2(x));
  }

  /** Anything closer to zero than half a cent rounds to zero. */
  lemma Round2NearZero(x: real)
    requires Abs(x) < 0.005
    ensures Round2(x) == 0.0
  {
    var r := Round2(x);
    var c := (r * 100.0).Floor;
    assert c as real == r * 100.0;
    assert -1 < c < 1;
  }

  /** Anything more than half a cent above zero rounds to at least one cent. */
  lemma Round2Positive(x: real)
    requires x > 0.005
    ensures Round2(x) >= 0.01
  {
    var r := Round2(x);
    var c := (r * 100.0).Floor;
    assert c as real == r * 100.0;
    assert c > 0;
  }

  /** At a half cent, `Round2` moves away from zero. */
  lemma Round2HalfAwayFromZero(x: real)
    requires IsHalfCent(x)
    ensures Abs(Round2(x)) == Abs(x) + 0.005
  {
    var n := ((x - 0.005) * 100.0).Floor;
    assert x * 100.0 == n as real + 0.5;
    if x >= 0.0 {
      assert (x * 100.0 + 0.5).Floor == n + 1;
    } else {
      assert (-x * 100.0 + 0.5).Floor == -n;
    }
  }

  /** A non-negative amount rounds to a positive number of cents exactly when it is at least half a cent. */
  lemma Round2PositiveIff(x: real)
    requires x >= 0.0
    ensures Round2(x) > 0.0 <==> x >= 0.005
  {
    var c := (x * 100.0 + 0.5).Floor;
    assert Round2(x) == c as real / 100.0;
    if x >= 0.005 {
      assert c >= 1;
    } else {
      assert c <= 0;
    }
  }

  /** The whole number nearest `c`, an even one when `c` is exactly halfway. */
  function NearestEven(c: real): (n: int)
    ensures -0.5 <= n as real - c <= 0.5
    ensures (c - 0.5).Floor as real == c - 0.5 ==> n % 2 == 0
  {
    var f := c.Floor;
    assert (c - 0.5).Floor as real == c - 0.5 ==> c - f as real == 0.5 by {
      if (c - 0.5).Floor as real == c - 0.5 {
        HalfwayFloor(c);
      }
    }
    if c - f as real < 0.5 then f
    else if c - f as real > 0.5 then f + 1
    else if f % 2 == 0 then f
    else f + 1
  }

  /** A number halfway between two whole numbers sits half above its floor. */
  lemma HalfwayFloor(c: real)
    requires (c - 0.5).Floor as real == c - 0.5
    ensures c - c.Floor as real == 0.5
  {
    var g := (c - 0.5).Floor;
    var f := c.Floor;
    assert f as real <= c < f as real + 1.0;
    assert f as real - 0.5 <= g as real < f as real + 0.5;
    assert g - f < 1 && f - g < 1;
  }

  /**
   * `Series.round(2)` as pandas computes it (numpy's rule): the nearest whole
   * number of cents, with halves rounded to an even number of cents.
   */
  function Round2Even(x: real): (r: real)
    ensures IsCents(r)
    ensures -0.005 <= r - x <= 0.005
    ensures IsHalfCent(x) ==> (r * 100.0).Floor % 2 == 0
  {
    var n := NearestEven(x * 100.0);
    assert (n as real / 100.0) * 100.0 == n as real;
    assert IsHalfCent(x) ==> (x * 100.0 - 0.5).Floor as real == x * 100.0 - 0.5 by {
      assert (x - 0.005) * 100.0 == x * 100.0 - 0.5;
    }
    n as real / 100.0
  }

  /** Two whole numbers of cents within half a cent of `x` are equal, unless `x` is a half cent. */
  lemma NearestCentsUnique(a: real, b: real, x: real)
    requires IsCents(a) && IsCents(b)
    requires -0.005 <= a - x <= 0.005 && -0.005 <= b - x <= 0.005
    requires !IsHalfCent(x)
    ensures a == b
  {
    var m := (a * 100.0).Floor;
    var n := (b * 100.0).Floor;
    assert -1 <= m - n <= 1;
  }

  /** Away from half cents, the two tie rules agree. */
  lemma Round2EvenAgrees(x: real)
    requires !IsHalfCent(x)
    ensures Round2Even(x) == Round2(x)
  {
    NearestCentsUnique(Round2Even(x), Round2(x), x);
  }

  /** A non-negative amount rounds half-to-even to a positive number of cents exactly when it exceeds half a cent. */
  lemma Round2EvenPositiveIff(x: real)
    requires x >= 0.0
    ensures Round2Even(x) > 0.0 <==> x > 0.005
  {
    var c := x * 100.0;
    var f := c.Floor;
    if x > 0.005 {
      assert f >= 1 || c - f as real > 0.5;
    } else {
      assert f == 0;
    }
  }

  /** Half a cent is where the tie rules part: away from zero gives a cent, half-to-even gives nothing. */
  lemma HalfCentTieRules()
    ensures Round2(0.005) == 0.01
    ensures Round2Even(0.005) == 0.0
  {
    assert (0.005 * 100.0 + 0.5).Floor == 1;
    assert (0.005 * 100.0).Floor == 0;
  }
}
