/** `round(x, n)`: to the nearest multiple, ties to even, in exact arithmetic. */
module Rounding {

  function RoundHalfEven(x: real): int {
    var below := x.Floor;
    var part := x - below as real;
    if part < 0.5 then below
    else if part > 0.5 then below + 1
    else if below % 2 == 0 then below
    else below + 1
  }

  /** `round(x, n)` with `scale` standing for ten to the `n`. */
  function Round(x: real, scale: real): real
    requires scale > 0.0
  {
    RoundHalfEven(x * scale) as real / scale
  }

  lemma NearestInteger(x: real)
    ensures -0.5 <= RoundHalfEven(x) as real - x <= 0.5
  {
  }

  lemma HalfEvenMonotone(x: real, y: real)
    requires x <= y
    ensures RoundHalfEven(x) <= RoundHalfEven(y)
  {
  }

  lemma HalfEvenInteger(k: int)
    ensures RoundHalfEven(k as real) == k
  {
  }

  lemma ScaleUp(a: real, b: real, scale: real)
    requires scale > 0.0 && a <= b
    ensures a * scale <= b * scale
  {
  }

  lemma ScaleDown(a: real, b: real, scale: real)
    requires scale > 0.0 && a <= b
    ensures a / scale <= b / scale
  {
  }

  lemma Unscale(x: real, scale: real)
    requires scale > 0.0
    ensures (x * scale) / scale == x && (x / scale) * scale == x
  {
  }

  lemma DifferenceOver(a: real, b: real, scale: real)
    requires scale > 0.0
    ensures (a - b) / scale == a / scale - b / scale
  {
  }

  /** Rounding moves a value by at most half a unit. */
  lemma RoundError(x: real, scale: real)
    requires scale > 0.0
    ensures -0.5 / scale <= Round(x, scale) - x <= 0.5 / scale
  {
    hide Round, RoundHalfEven;
    var y := RoundScaled(x, scale);
    ScaledBack(x, y, scale);
    NearestOver(y, scale);
  }

  lemma RoundScaled(x: real, scale: real) returns (y: real)
    requires scale > 0.0
    ensures Round(x, scale) == RoundHalfEven(y) as real / scale && y == x * scale
  {
    y := x * scale;
  }

  lemma ScaledBack(x: real, y: real, scale: real)
    requires scale > 0.0 && y == x * scale
    ensures y / scale == x
  {
  }

  lemma NearestOver(y: real, scale: real)
    requires scale > 0.0
    ensures -0.5 / scale <= RoundHalfEven(y) as real / scale - y / scale <= 0.5 / scale
  {
    hide RoundHalfEven;
    NearestInteger(y);
    var nearest := RoundHalfEven(y) as real;
    DifferenceOver(nearest, y, scale);
    ScaleDown(-0.5, nearest - y, scale);
    ScaleDown(nearest - y, 0.5, scale);
  }

  lemma RoundMonotone(x: real, y: real, scale: real)
    requires scale > 0.0 && x <= y
    ensures Round(x, scale) <= Round(y, scale)
  {
    hide RoundHalfEven;
    ScaleUp(x, y, scale);
    HalfEvenMonotone(x * scale, y * scale);
    ScaleDown(RoundHalfEven(x * scale) as real, RoundHalfEven(y * scale) as real, scale);
  }

  /** A value between two multiples of the unit rounds to a value between them. */
  lemma RoundWithin(x: real, low: int, high: int, scale: real)
    requires scale > 0.0 && low as real <= x * scale <= high as real
    ensures low as real / scale <= Round(x, scale) <= high as real / scale
  {
    hide RoundHalfEven;
    HalfEvenMonotone(low as real, x * scale);
    HalfEvenMonotone(x * scale, high as real);
    HalfEvenInteger(low);
    HalfEvenInteger(high);
    ScaleDown(low as real, RoundHalfEven(x * scale) as real, scale);
    ScaleDown(RoundHalfEven(x * scale) as real, high as real, scale);
  }

  /** Multiples of the unit are left alone. */
  lemma RoundExact(k: int, scale: real)
    requires scale > 0.0
    ensures Round(k as real / scale, scale) == k as real / scale
  {
    Unscale(k as real, scale);
    RoundWithin(k as real / scale, k, k, scale);
  }

  /** A rate to four places; zero when there is nothing to divide by. */
  function Rate(numerator: nat, denominator: nat): real {
    if denominator == 0 then 0.0 else Round(numerator as real / denominator as real, 10000.0)
  }

  lemma RateBounds(numerator: nat, denominator: nat)
    requires numerator <= denominator
    ensures 0.0 <= Rate(numerator, denominator) <= 1.0
  {
    if denominator > 0 {
      var x := numerator as real / denominator as real;
      assert 0.0 <= x <= 1.0;
      RoundWithin(x, 0, 10000, 10000.0);
    }
  }

  lemma RateError(numerator: nat, denominator: nat)
    requires denominator > 0
    ensures -0.00005 <= Rate(numerator, denominator) - numerator as real / denominator as real <= 0.00005
  {
  }

  /** Within half a unit of the fourth decimal of part over whole, and nothing of nothing. */
  predicate Near(rate: real, part: nat, whole: nat) {
    if whole == 0 then rate == 0.0
    else -0.00005 <= rate - part as real / whole as real <= 0.00005
  }

  lemma RateIsNear(part: nat, whole: nat)
    ensures Near(Rate(part, whole), part, whole)
  {
    if whole > 0 { RateError(part, whole); }
  }

  /** Halfway between two integers, the even one is taken. */
  lemma HalvesGoToEven(k: int)
    ensures var r := RoundHalfEven(k as real + 0.5);
            (r == k || r == k + 1) && r % 2 == 0
  {
    assert (k as real + 0.5).Floor == k;
  }
}
