/**
 * The few pieces of JavaScript arithmetic the reading-time engine relies on,
 * stated over Dafny's unbounded `int` and exact `real`:
 * `Math.round`, `Math.max`, `Math.min` and the truncating `%` operator.
 * An optional value stands for a JavaScript `null`.
 */
module Numeric {

  datatype Option<T> = None | Some(value: T)

  /** `Math.max` of two numbers. */
  function Max(a: real, b: real): (m: real)
    ensures m >= a && m >= b
    ensures m == a || m == b
  {
    if a >= b then a else b
  }

  /** `Math.min` of two numbers. */
  function Min(a: real, b: real): (m: real)
    ensures m <= a && m <= b
    ensures m == a || m == b
  {
    if a <= b then a else b
  }

  /** `Math.max(lo, Math.min(hi, x))`: the value clamped into `[lo, hi]`. */
  function Clamp(lo: real, hi: real, x: real): (c: real)
    requires lo <= hi
    ensures lo <= c <= hi
    ensures lo <= x <= hi ==> c == x
    ensures x < lo ==> c == lo
    ensures x > hi ==> c == hi
  {
    Max(lo, Min(hi, x))
  }

  /**
   * `Math.round(x)`: the nearest integer, a half rounding up (towards
   * positive infinity), which is `floor(x + 1/2)`.
   */
  function Round(x: real): (r: int)
    ensures r as real - 0.5 <= x < r as real + 0.5
  {
    (x + 0.5).Floor
  }

  /** `Math.floor(x)`: the greatest integer not above `x`. */
  function Floor(x: real): (r: int)
    ensures r as real <= x < r as real + 1.0
  {
    x.Floor
  }

  /**
   * The quotient of JavaScript's integer division `a / b` truncated towards
   * zero (`Math.trunc(a / b)`), for a positive divisor.
   */
  function TruncQuot(a: int, b: int): (q: int)
    requires b > 0
    ensures a >= 0 ==> q >= 0
    ensures a < 0 ==> q <= 0
  {
    if a >= 0 then a / b else -((-a) / b)
  }

  /**
   * JavaScript's `a % b` on integers: the remainder of the division that
   * truncates towards zero, so it takes the sign of `a` (Dafny's `%` is
   * Euclidean and never negative).
   */
  function JsRem(a: int, b: int): (r: int)
    requires b > 0
    ensures a >= 0 ==> 0 <= r < b
    ensures a < 0 ==> -b < r <= 0
    ensures a == TruncQuot(a, b) * b + r
  {
    if a >= 0 then a % b else -((-a) % b)
  }

  /** Floor of `n / d` for a positive integer `d` agrees with Dafny's integer division. */
  lemma {:induction false} FloorOfQuotient(n: int, d: int)
    requires d > 0
    ensures Floor(n as real / d as real) == n / d
  {
    var q := n / d;
    var r := n % d;
    assert n == q * d + r && 0 <= r < d;
    assert (n as real) / (d as real) == q as real + (r as real) / (d as real);
    assert 0.0 <= (r as real) / (d as real) < 1.0;
  }

  /** The sign and size of a quotient, from its numerator and its non-zero denominator. */
  lemma {:induction false} QuotientSigns(x: real, d: real)
    requires d != 0.0
    ensures d > 0.0 && x <= 0.0 ==> x / d <= 0.0
    ensures d > 0.0 && x >= d ==> x / d >= 1.0
    ensures d > 0.0 && 0.0 <= x <= d ==> 0.0 <= x / d <= 1.0
    ensures d < 0.0 && x >= 0.0 ==> x / d <= 0.0
    ensures d < 0.0 && x <= d ==> x / d >= 1.0
  {
    var q := x / d;
    assert q * d == x;
    if d > 0.0 {
      if x <= 0.0 { assert q <= 0.0; }
      if x >= d { assert q >= 1.0; }
    } else {
      if x >= 0.0 { assert q <= 0.0; }
      if x <= d { assert q >= 1.0; }
    }
  }

  /** `((x * 100) / d) / 100`, the source's way of writing a fraction, is `x / d`. */
  lemma {:induction false} PercentQuotient(x: real, d: real)
    requires d != 0.0
    ensures ((x * 100.0) / d) / 100.0 == x / d
  {
    var q := x / d;
    assert q * d == x;
    assert (x * 100.0) / d == q * 100.0 by {
      assert (q * 100.0) * d == x * 100.0;
    }
  }

  /** Dividing by a positive number, and multiplying by a non-negative one, keep order. */
  lemma {:induction false} ScalingMonotone(a: real, b: real, d: real, w: real)
    requires a <= b && d > 0.0 && w >= 0.0
    ensures a / d <= b / d
    ensures a / d * w <= b / d * w
  {
    assert b / d - a / d == (b - a) / d;
    QuotientSigns(b - a, d);
    assert (b / d - a / d) * w >= 0.0;
  }

  /** A non-negative amount divided by a larger positive number gives no more. */
  lemma {:induction false} QuotientAntitone(a: real, v1: real, v2: real)
    requires a >= 0.0 && 0.0 < v2 <= v1
    ensures a / v1 <= a / v2
  {
    var q, r := a / v2, v2 / v1;
    assert q * v2 == a;
    assert r * v1 == v2;
    assert (q * r) * v1 == a by {
      assert (q * r) * v1 == q * (r * v1);
    }
    assert a / v1 == q * r;
    QuotientSigns(v2, v1);
    QuotientSigns(a, v2);
    assert q - q * r == q * (1.0 - r);
  }
}
