/** Python's built-in `round` on one argument, as used by `int(round(x))`:
    round to the nearest integer, ties to the even neighbour. The model takes
    the argument as an exact `real`; the double-precision product the Python
    code rounds is not modelled. */
module Rounding {

  function Round(x: real): (r: int)
    ensures x - 0.5 <= r as real <= x + 0.5
    ensures (r as real == x - 0.5 || r as real == x + 0.5) ==> r % 2 == 0
  {
    var f := x.Floor;
    var d := x - f as real;
    if d < 0.5 then f
    else if d > 0.5 then f + 1
    else if f % 2 == 0 then f
    else f + 1
  }

  /** `ratio * n` for an integer `n`. Naming the product lets the solver
      match two occurrences of it whose factors are only provably equal. */
  function Times(ratio: real, n: int): (p: real)
    ensures p == ratio * n as real
  {
    ratio * n as real
  }

  /** Any integer strictly closer than one half to `x` is its rounding. */
  lemma RoundNearest(x: real, n: int)
    requires x - 0.5 < n as real < x + 0.5
    ensures Round(x) == n
  {
  }

  lemma RoundOfInteger(n: int)
    ensures Round(n as real) == n
  {
    RoundNearest(n as real, n);
  }

  /** Rounding never crosses an integer bound the argument respects. */
  lemma RoundAtMost(x: real, n: int)
    requires x <= n as real
    ensures Round(x) <= n
  {
  }

  /** Python rounds halves to even: 0.5 -> 0, 1.5 -> 2, 2.5 -> 2. */
  lemma RoundHalvesToEven()
    ensures Round(0.5) == 0 && Round(1.5) == 2 && Round(2.5) == 2 && Round(-0.5) == 0
  {
  }
}
