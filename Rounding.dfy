/** Python's `round(x, n)` on exact reals: the nearest multiple of
    1 / 10^n, a tie going to the even multiple. `scale` stands for 10^n
    (100.0 for two decimals, 10.0 for one). */
module Rounding {

  /** The integer nearest to `y`, ties to the even one. */
  function RoundHalfEven(y: real): (n: int)
    ensures y - 0.5 <= n as real <= y + 0.5
    ensures y - 0.5 == n as real ==> n % 2 == 0
    ensures y + 0.5 == n as real ==> n % 2 == 0
  {
    var f := y.Floor;
    var frac := y - f as real;
    if frac > 0.5 then f + 1
    else if frac < 0.5 then f
    else if f % 2 == 0 then f
    else f + 1
  }

  /** `x` rounded to the nearest multiple of `1 / scale`. */
  function RoundTo(x: real, scale: real): (r: real)
    requires scale > 0.0
    ensures x - 0.5 / scale <= r <= x + 0.5 / scale
  {
    var n := RoundHalfEven(x * scale);
    DivideBounds(x, n, scale);
    n as real / scale
  }

  /** Dividing the rounding bound of `x * scale` by `scale`. */
  lemma DivideBounds(x: real, n: int, scale: real)
    requires scale > 0.0
    requires x * scale - 0.5 <= n as real <= x * scale + 0.5
    ensures x - 0.5 / scale <= n as real / scale <= x + 0.5 / scale
  {
    assert (x * scale - 0.5) / scale == x - 0.5 / scale;
    assert (x * scale + 0.5) / scale == x + 0.5 / scale;
  }

  /** Rounding to the nearest integer never reverses an order. */
  lemma RoundHalfEvenMonotone(y1: real, y2: real)
    requires y1 <= y2
    ensures RoundHalfEven(y1) <= RoundHalfEven(y2)
  {
    var f1, f2 := y1.Floor, y2.Floor;
    if f1 < f2 {
      assert RoundHalfEven(y1) <= f1 + 1 <= f2 <= RoundHalfEven(y2);
    } else {
      assert f1 == f2;
    }
  }

  /** Rounding to `1 / scale` never reverses an order. */
  lemma RoundToMonotone(x1: real, x2: real, scale: real)
    requires scale > 0.0
    requires x1 <= x2
    ensures RoundTo(x1, scale) <= RoundTo(x2, scale)
  {
    ScaleMonotone(x1, x2, scale);
    RoundHalfEvenMonotone(x1 * scale, x2 * scale);
    DivideMonotone(RoundHalfEven(x1 * scale) as real, RoundHalfEven(x2 * scale) as real, scale);
  }

  /** Multiplying both sides by a non-negative factor keeps the order. */
  lemma ScaleMonotone(a: real, b: real, s: real)
    requires a <= b && s >= 0.0
    ensures a * s <= b * s
  {
    assert b * s - a * s == (b - a) * s;
  }

  /** Dividing both sides by a positive divisor keeps the order. */
  lemma DivideMonotone(a: real, b: real, s: real)
    requires a <= b && s > 0.0
    ensures a / s <= b / s
  {
    assert b / s - a / s == (b - a) / s;
  }

  /** Rounding a non-negative value gives a non-negative value. */
  lemma RoundToNonNegative(x: real, scale: real)
    requires scale > 0.0
    requires x >= 0.0
    ensures RoundTo(x, scale) >= 0.0
  {
    RoundToMonotone(0.0, x, scale);
    assert RoundHalfEven(0.0) == 0;
  }
}
