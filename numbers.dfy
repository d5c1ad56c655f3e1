/**
 * The `Math` functions the model uses, over exact reals: `Math.round`, the
 * rounding to cents (`Math.round(x * 100) / 100`) of the settlement and
 * balance code, `Math.min` and `Math.abs`.
 */
module Numbers {

  /** `Math.min(a, b)`. */
  function Min(a: real, b: real): (r: real)
    ensures r <= a && r <= b && (r == a || r == b)
  {
    if a <= b then a else b
  }

  /** `Math.abs(x)`. */
  function Abs(x: real): (r: real)
    ensures r >= 0.0 && (r == x || r == -x)
  {
    if x < 0.0 then -x else x
  }

  /** `Math.round(x)`: the nearest integer, halves rounded up (towards +infinity). */
  function RoundHalfUp(x: real): (r: int)
    ensures r as real - 0.5 <= x < r as real + 0.5
  {
    (x + 0.5).Floor
  }

  /** `x` is a whole number of cents. */
  predicate WholeCents(x: real) {
    (x * 100.0).Floor as real == x * 100.0
  }

  /** `Math.round(x * 100) / 100`: `x` rounded to whole cents. */
  function RoundCents(x: real): (r: real)
    ensures r - 0.005 <= x < r + 0.005
    ensures WholeCents(r)
  {
    var k := RoundHalfUp(x * 100.0);
    k as real / 100.0
  }

  /** An amount above one cent never rounds below one cent. */
  lemma RoundCentsAboveCent(x: real)
    requires x > 0.01
    ensures RoundCents(x) >= 0.01
  {
    var k := RoundHalfUp(x * 100.0);
    assert x * 100.0 > 1.0;
    assert k >= 1;
  }

  /** Rounding is monotone: a larger input never rounds to a smaller integer. */
  lemma RoundHalfUpMonotone(x: real, y: real)
    requires x <= y
    ensures RoundHalfUp(x) <= RoundHalfUp(y)
  {
  }
}
