/** Rounding to two places: Python's, ties to even, and PostgreSQL's, ties away from zero. */
module Rounding {

  function Abs(x: real): real { if x < 0.0 then -x else x }

  function HalfEven(x: real): int {
    var f := x.Floor;
    var frac := x - f as real;
    if frac < 0.5 then f else if frac > 0.5 then f + 1 else if f % 2 == 0 then f else f + 1
  }

  /** To two places, ties to even. */
  function Cents(x: real): real { HalfEven(x * 100.0) as real / 100.0 }

  function AwayFromZero(x: real): int { if x >= 0.0 then (x + 0.5).Floor else -((-x + 0.5).Floor) }

  /** A value as a `Numeric(_, 2)` column stores it. */
  function Numeric2(x: real): real { AwayFromZero(x * 100.0) as real / 100.0 }

  lemma FloorBetween(x: real)
    ensures x - 1.0 < x.Floor as real <= x
  {
  }

  lemma FloorIs(x: real, n: int)
    requires n as real <= x < n as real + 1.0
    ensures x.Floor == n
  {
  }

  lemma HalfEvenError(x: real)
    ensures Abs(HalfEven(x) as real - x) <= 0.5
  {
    FloorBetween(x);
  }

  /** The nearest integer, and of two equally near the even one. */
  lemma HalfEvenIff(x: real, n: int)
    ensures HalfEven(x) == n <==> Abs(x - n as real) < 0.5 || (Abs(x - n as real) == 0.5 && n % 2 == 0)
  {
    FloorBetween(x);
  }

  /** Negating a number negates its rounding: ties to even is symmetric. */
  lemma HalfEvenOdd(x: real)
    ensures HalfEven(-x) == -HalfEven(x)
  {
    var f := x.Floor;
    var frac := x - f as real;
    if frac == 0.0 {
      FloorIs(-x, -f);
    } else {
      FloorIs(-x, -f - 1);
    }
  }

  lemma HalfEvenOfInt(n: int)
    ensures HalfEven(n as real) == n
  {
    FloorIs(n as real, n);
  }

  lemma HalfEvenMonotone(x: real, y: real)
    requires x <= y
    ensures HalfEven(x) <= HalfEven(y)
  {
    FloorBetween(x);
    FloorBetween(y);
    assert x.Floor <= y.Floor;
  }

  /** Adding an even number commutes with rounding, ties included. */
  lemma HalfEvenShift(x: real, n: int)
    requires n % 2 == 0
    ensures HalfEven(x + n as real) == HalfEven(x) + n
  {
    FloorBetween(x);
    FloorIs(x + n as real, x.Floor + n);
  }

  /** Figures half a unit apart are at most half a unit apart once in cents. */
  lemma CentsWithinHalf(x: real, y: real)
    requires x <= y <= x + 0.5
    ensures 0.0 <= Cents(y) - Cents(x) <= 0.5
  {
    HalfEvenMonotone(x * 100.0, y * 100.0);
    HalfEvenMonotone(y * 100.0, x * 100.0 + 50 as real);
    HalfEvenShift(x * 100.0, 50);
    hide HalfEven;
  }

  lemma CentsError(x: real)
    ensures Abs(Cents(x) - x) <= 0.005
  {
    HalfEvenError(x * 100.0);
  }

  lemma CentsOdd(x: real)
    ensures Cents(-x) == -Cents(x)
  {
    HalfEvenOdd(x * 100.0);
    assert (-x) * 100.0 == -(x * 100.0);
  }

  lemma NumericError(x: real)
    ensures Abs(Numeric2(x) - x) <= 0.005
  {
    FloorBetween(x * 100.0 + 0.5);
    FloorBetween(-x * 100.0 + 0.5);
  }

  lemma NumericIsCents(x: real) returns (n: int)
    ensures Numeric2(x) == n as real / 100.0
  {
    n := AwayFromZero(x * 100.0);
  }

  /** The nearest integer, and of two equally near the one further from zero. */
  lemma AwayFromZeroIff(x: real, n: int)
    ensures AwayFromZero(x) == n <==> Abs(x - n as real) < 0.5 || (Abs(x - n as real) == 0.5 && Abs(n as real) > Abs(x))
  {
    FloorBetween(x + 0.5);
    FloorBetween(-x + 0.5);
  }

  /** Storing a figure that is already in cents does not change it. */
  lemma NumericOfCents(x: real)
    requires x >= 0.0
    ensures Numeric2(Cents(x)) == Cents(x)
  {
    var n := HalfEven(x * 100.0);
    FloorBetween(x * 100.0);
    assert n >= 0;
    assert Cents(x) * 100.0 == n as real;
    FloorIs(n as real + 0.5, n);
  }

  /** A cent apart before storage is apart after it. */
  lemma NumericSeparates(a: real, b: real)
    requires 0.0 <= a && a + 0.01 <= b
    ensures Numeric2(a) < Numeric2(b)
  {
    var x, y := a * 100.0 + 0.5, b * 100.0 + 0.5;
    assert x + 1.0 <= y;
    FloorBetween(x);
    FloorBetween(y);
    assert (x.Floor + 1) as real <= y;
    assert x.Floor + 1 <= y.Floor;
  }
}
