/**
 * Exact decimal arithmetic as `java.math.BigDecimal` does it for this system:
 * amounts are exact rationals, and results are rounded to two fractional
 * digits with `RoundingMode.HALF_UP` (nearest cent, ties away from zero).
 */
module Decimal {
  import opened Wrappers

  /** `x` has at most two fractional digits. */
  predicate IsCents(x: real) {
    (x * 100.0).Floor as real == x * 100.0
  }

  /**
   * `setScale(2, HALF_UP)` and `divide(d, 2, HALF_UP)`: the nearest multiple
   * of 0.01; on a tie the one farther from zero.
   */
  function RoundHalfUp2(x: real): (r: real)
    ensures IsCents(r)
    ensures x >= 0.0 ==> r * 100.0 - 0.5 <= x * 100.0 < r * 100.0 + 0.5
    ensures x < 0.0 ==> r * 100.0 - 0.5 < x * 100.0 <= r * 100.0 + 0.5
  {
    if x >= 0.0 then
      var n := (x * 100.0 + 0.5).Floor;
      assert (n as real / 100.0) * 100.0 == n as real;
      n as real / 100.0
    else
      var n := (-x * 100.0 + 0.5).Floor;
      assert (-(n as real / 100.0)) * 100.0 == (-n) as real;
      -(n as real / 100.0)
  }

  /** Rounding moves a value by at most half a cent. */
  lemma RoundHalfUp2Error(x: real)
    ensures -0.005 <= RoundHalfUp2(x) - x <= 0.005
  {
    var r := RoundHalfUp2(x);
    assert -0.5 <= r * 100.0 - x * 100.0 <= 0.5;
  }

  /** A value that already has two fractional digits is left unchanged. */
  lemma RoundHalfUp2OfCents(x: real)
    requires IsCents(x)
    ensures RoundHalfUp2(x) == x
  {
    var n := (x * 100.0).Floor;
    assert x * 100.0 == n as real;
    if x >= 0.0 {
      assert (x * 100.0 + 0.5).Floor == n;
    } else {
      assert (-x * 100.0 + 0.5).Floor == -n;
    }
  }

  /** Rounding is idempotent. */
  lemma RoundHalfUp2Idempotent(x: real)
    ensures RoundHalfUp2(RoundHalfUp2(x)) == RoundHalfUp2(x)
  {
    RoundHalfUp2OfCents(RoundHalfUp2(x));
  }

  /** HALF_UP is symmetric about zero. */
  lemma RoundHalfUp2Odd(x: real)
    ensures RoundHalfUp2(-x) == -RoundHalfUp2(x)
  {
    if x == 0.0 {
      assert -x == 0.0;
    }
  }

  /** A value exactly half-way between two cents goes to the one farther from zero. */
  lemma RoundHalfUp2Tie(x: real, n: int)
    requires x * 100.0 == n as real + 0.5
    ensures x >= 0.0 ==> RoundHalfUp2(x) * 100.0 == (n + 1) as real
    ensures x < 0.0 ==> RoundHalfUp2(x) * 100.0 == n as real
  {
    if x >= 0.0 {
      assert (x * 100.0 + 0.5).Floor == n + 1;
    } else {
      assert (-x * 100.0 + 0.5).Floor == -n;
    }
  }

  /** Rounding is monotone. */
  lemma RoundHalfUp2Monotone(x: real, y: real)
    requires x <= y
    ensures RoundHalfUp2(x) <= RoundHalfUp2(y)
  {
    if x >= 0.0 {
      assert (x * 100.0 + 0.5).Floor <= (y * 100.0 + 0.5).Floor;
    } else if y < 0.0 {
      assert (-y * 100.0 + 0.5).Floor <= (-x * 100.0 + 0.5).Floor;
    }
  }

  function Max(a: real, b: real): real { if a >= b then a else b }

  function Min(a: real, b: real): real { if a <= b then a else b }

  /** `BigDecimal.max` of two possibly-null values, where a null is ignored. */
  function MaxOpt(a: Option<real>, b: Option<real>): (r: Option<real>)
    ensures r.None? <==> a.None? && b.None?
    ensures r.Some? ==> r == a || r == b
    ensures a.Some? ==> r.Some? && a.value <= r.value
    ensures b.Some? ==> r.Some? && b.value <= r.value
  {
    if a.None? then b else if b.None? then a else Some(Max(a.value, b.value))
  }

  /** `BigDecimal.min` of two possibly-null values, where a null is ignored. */
  function MinOpt(a: Option<real>, b: Option<real>): (r: Option<real>)
    ensures r.None? <==> a.None? && b.None?
    ensures r.Some? ==> r == a || r == b
    ensures a.Some? ==> r.Some? && r.value <= a.value
    ensures b.Some? ==> r.Some? && r.value <= b.value
  {
    if a.None? then b else if b.None? then a else Some(Min(a.value, b.value))
  }
}
