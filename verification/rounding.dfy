/** Python 3's built-in `round`, taken over exact reals.

    `round(x)` returns the nearest integer and breaks ties towards the even
    neighbour; `round(x, 3)` rounds to the nearest thousandth.  Both are used by
    the coordinate converter to snap degrees onto its quarter-degree lattices. */
module Rounding {

  /** `round(x)`: the nearest integer, ties to even. */
  function Round(x: real): (n: int)
    ensures -0.5 <= n as real - x <= 0.5
    ensures (n as real - x == 0.5 || x - n as real == 0.5) ==> n % 2 == 0
  {
    var f := x.Floor;
    var frac := x - f as real;
    if frac < 0.5 then f
    else if frac > 0.5 then f + 1
    else if f % 2 == 0 then f else f + 1
  }

  /** An integer is its own rounding. */
  lemma RoundOfInteger(k: int)
    ensures Round(k as real) == k
  {
  }

  /** The unique integer closer than one half is the rounding. */
  lemma RoundNearest(x: real, k: int)
    requires -0.5 < x - k as real < 0.5
    ensures Round(x) == k
  {
  }

  /** Rounding never reverses the order of its arguments. */
  lemma RoundMonotone(a: real, b: real)
    requires a <= b
    ensures Round(a) <= Round(b)
  {
  }

  /** `round(v, 3)`: the nearest multiple of 0.001. */
  function RoundTo3(v: real): (r: real)
    ensures -0.0005 <= r - v <= 0.0005
  {
    Round(v * 1000.0) as real / 1000.0
  }

  /** A value with at most three decimals is left alone by `round(v, 3)`. */
  lemma RoundTo3OfThousandths(v: real, k: int)
    requires v * 1000.0 == k as real
    ensures RoundTo3(v) == v
  {
    RoundOfInteger(k);
  }
}
