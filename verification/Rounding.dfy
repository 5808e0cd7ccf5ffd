/** Python's `round(x, digits)` on exact values: to the nearest, ties to even. */
module Rounding {

  function RoundToInt(x: real): int {
    var below := x.Floor;
    var rest := x - below as real;
    if rest < 0.5 then below
    else if rest > 0.5 then below + 1
    else if below % 2 == 0 then below
    else below + 1
  }

  /** `round(x, digits)` with `scale` ten to the power `digits`. */
  function Round(x: real, scale: real): real
    requires scale > 0.0
  {
    RoundToInt(x * scale) as real / scale
  }

  lemma RoundToIntMonotone(x: real, y: real)
    requires x <= y
    ensures RoundToInt(x) <= RoundToInt(y)
  {
    assert x.Floor <= y.Floor;
  }

  lemma ProductNonNegative(a: real, b: real)
    requires a >= 0.0 && b >= 0.0
    ensures a * b >= 0.0
  {
  }

  lemma TimesMonotone(a: real, b: real, scale: real)
    requires a <= b && scale >= 0.0
    ensures a * scale <= b * scale
  {
    ProductNonNegative(b - a, scale);
    assert (b - a) * scale == b * scale - a * scale;
  }

  lemma OverMonotone(a: real, b: real, scale: real)
    requires a <= b && scale > 0.0
    ensures a / scale <= b / scale
  {
  }

  lemma RoundMonotone(x: real, y: real, scale: real)
    requires x <= y && scale > 0.0
    ensures Round(x, scale) <= Round(y, scale)
  {
    TimesMonotone(x, y, scale);
    var low, high := x * scale, y * scale;
    RoundToIntMonotone(low, high);
    OverMonotone(RoundToInt(low) as real, RoundToInt(high) as real, scale);
  }

  function Distance(x: real, y: real): real {
    if x <= y then y - x else x - y
  }

  /** A nearest integer, and of two the even one; no other function has this property. */
  lemma RoundToIntNearest(x: real, n: int)
    ensures RoundToInt(x) == n <==>
            Distance(x, n as real) < 0.5 || (Distance(x, n as real) == 0.5 && n % 2 == 0)
  {
  }

  /** The rounded value is a multiple of the last place, no further away than half of it. */
  lemma RoundNearest(x: real, scale: real)
    requires scale > 0.0
    ensures Round(x, scale) * scale == RoundToInt(x * scale) as real
    ensures Distance(x * scale, Round(x, scale) * scale) <= 0.5
  {
    RoundToIntNearest(x * scale, RoundToInt(x * scale));
  }
}
