/**
 * Exact arithmetic helpers: `Math.min`/`Math.max` on reals and
 * `BigDecimal.setScale(2, RoundingMode.HALF_UP)`.
 */
module Numbers {

  function Min(a: real, b: real): (r: real)
    ensures r <= a && r <= b && (r == a || r == b)
  {
    if a <= b then a else b
  }

  function Max(a: real, b: real): (r: real)
    ensures r >= a && r >= b && (r == a || r == b)
  {
    if a >= b then a else b
  }

  lemma MulNonneg(a: real, b: real)
    requires a >= 0.0 && b >= 0.0
    ensures a * b >= 0.0
  {
  }

  /** A value that is a whole number of hundredths, as a scale-2 decimal column holds. */
  ghost predicate IsCents(x: real) {
    (x * 100.0).Floor as real == x * 100.0
  }

  lemma HundredthsAreCents(k: int)
    ensures IsCents(k as real / 100.0)
  {
    assert (k as real / 100.0) * 100.0 == k as real;
  }

  /** Rounds a non-negative value to the nearest hundredth, ties upwards. */
  function RoundUpHalf(y: real): (r: real)
    requires y >= 0.0
    ensures 0.0 <= r && y - 0.005 < r <= y + 0.005
    ensures IsCents(r)
  {
    var k := (y * 100.0 + 0.5).Floor;
    HundredthsAreCents(k);
    k as real / 100.0
  }

  /** Rounds to two decimals, ties away from zero: `setScale(2, RoundingMode.HALF_UP)`. */
  function Round2(x: real): (r: real)
    ensures -0.005 <= r - x <= 0.005
    ensures x >= 0.0 ==> r >= 0.0
    ensures IsCents(r)
  {
    if x >= 0.0 then RoundUpHalf(x)
    else
      var m := RoundUpHalf(-x);
      HundredthsAreCents(-((m * 100.0).Floor));
      assert -m == -((m * 100.0).Floor) as real / 100.0;
      -m
  }

  lemma Round2Monotone(x: real, y: real)
    requires x <= y
    ensures Round2(x) <= Round2(y)
  {
    if 0.0 <= x {
      assert (x * 100.0 + 0.5).Floor <= (y * 100.0 + 0.5).Floor;
    } else if y < 0.0 {
      assert ((-y) * 100.0 + 0.5).Floor <= ((-x) * 100.0 + 0.5).Floor;
    }
  }

  /** A value already on two decimals is left as it is. */
  lemma Round2Exact(x: real)
    requires IsCents(x)
    ensures Round2(x) == x
  {
    var k := (x * 100.0).Floor;
    if x >= 0.0 {
      assert (x * 100.0 + 0.5).Floor == k;
    } else {
      assert ((-x) * 100.0 + 0.5).Floor == -k;
    }
  }

  /** Rounding keeps a value inside any interval whose ends are on two decimals. */
  lemma Round2Within(x: real, lo: real, hi: real)
    requires IsCents(lo) && IsCents(hi) && lo <= x <= hi
    ensures lo <= Round2(x) <= hi
  {
    Round2Monotone(lo, x);
    Round2Monotone(x, hi);
    Round2Exact(lo);
    Round2Exact(hi);
  }
}
