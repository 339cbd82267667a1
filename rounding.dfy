/** Integer conversions of reals that the generator relies on: Python's round()
    and numpy's np.round (both round half to even), truncation toward zero
    (numpy's astype(int)) and numpy's clip. */
module Rounding {

  function Abs(x: real): (r: real)
    ensures r >= 0.0 && (r == x || r == -x)
  {
    if x < 0.0 then -x else x
  }

  /** round(x): the nearest integer, a tie going to the even neighbour. */
  function RoundHalfEven(x: real): (r: int)
    ensures Abs(x - r as real) <= 0.5
    ensures Abs(x - r as real) == 0.5 ==> r % 2 == 0
  {
    var f := x.Floor;
    var frac := x - f as real;
    if frac < 0.5 then f
    else if frac > 0.5 then f + 1
    else if f % 2 == 0 then f
    else f + 1
  }

  /** The two properties in RoundHalfEven's contract pin its result down:
      no other integer is as close to x with the tie rule respected. */
  lemma RoundHalfEvenUnique(x: real, k: int)
    requires Abs(x - k as real) <= 0.5
    requires Abs(x - k as real) == 0.5 ==> k % 2 == 0
    ensures k == RoundHalfEven(x)
  {
  }

  /** The nearest integer is at least as close as every other integer. */
  lemma RoundHalfEvenNearest(x: real, k: int)
    ensures Abs(x - RoundHalfEven(x) as real) <= Abs(x - k as real)
  {
    var r := RoundHalfEven(x);
    if k < r {
      // x - k = (x - r) + (r - k) >= -1/2 + 1
      assert x - k as real >= 0.5;
    } else if k > r {
      assert k as real - x >= 0.5;
    }
  }

  /** numpy's astype(int) on a float: truncation toward zero. */
  function Trunc(x: real): (r: int)
    ensures Abs(r as real) <= Abs(x)
    ensures Abs(x - r as real) < 1.0
    ensures (r as real) * x >= 0.0
  {
    if x >= 0.0 then x.Floor else -((-x).Floor)
  }

  /** np.clip(v, lo, hi) for lo <= hi. */
  function Clip(v: int, lo: int, hi: int): (r: int)
    requires lo <= hi
    ensures lo <= r <= hi
    ensures lo <= v <= hi ==> r == v
    ensures v < lo ==> r == lo
    ensures v > hi ==> r == hi
  {
    if v < lo then lo else if v > hi then hi else v
  }

  /** round() never decreases: a larger value rounds to at least as large an integer. */
  lemma RoundHalfEvenMonotone(x: real, y: real)
    requires x <= y
    ensures RoundHalfEven(x) <= RoundHalfEven(y)
  {
  }
}
