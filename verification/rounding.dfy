/** `Series.round(0)`: numpy rounds to the nearest integer and breaks
    ties toward the even neighbour. Computed here on exact reals. */
module Rounding {

  /** `n` is a nearest integer to `x`, and on a tie the even one. */
  predicate NearestEven(x: real, n: int) {
    var d := x - n as real;
    -0.5 <= d <= 0.5 && ((d == 0.5 || d == -0.5) ==> n % 2 == 0)
  }

  function RoundHalfEven(x: real): (n: int)
    ensures NearestEven(x, n)
  {
    var f := x.Floor;
    var d := x - f as real;
    if d < 0.5 then f
    else if d > 0.5 then f + 1
    else if f % 2 == 0 then f
    else f + 1
  }

  /** Round-half-even is THE integer meeting NearestEven: no other choice. */
  lemma RoundHalfEvenUnique(x: real, n: int)
    requires NearestEven(x, n)
    ensures n == RoundHalfEven(x)
  {
  }

  /** Whole numbers are left alone. */
  lemma RoundWhole(n: int)
    ensures RoundHalfEven(n as real) == n
  {
    RoundHalfEvenUnique(n as real, n);
  }

  /** Rounding never reverses the order of two numbers. */
  lemma RoundMonotone(x: real, y: real)
    requires x <= y
    ensures RoundHalfEven(x) <= RoundHalfEven(y)
  {
  }
}
