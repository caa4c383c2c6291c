/** Shared result types and rounding. */
module Prelude {

  datatype Option<+T> = None | Some(value: T)

  datatype Result<+T, +E> = Ok(value: T) | Err(error: E)

  function Max(a: int, b: int): int { if a >= b then a else b }

  function MinReal(a: real, b: real): real { if a <= b then a else b }

  function MaxReal(a: real, b: real): real { if a >= b then a else b }

  /** Python's `round`: to the nearest integer, ties to the even neighbour. */
  function RoundHalfEven(x: real): (r: int)
    ensures -0.5 <= x - r as real <= 0.5
    ensures x - r as real == 0.5 || x - r as real == -0.5 ==> r % 2 == 0
  {
    var f := x.Floor;
    var d := x - f as real;
    if d < 0.5 then f
    else if d > 0.5 then f + 1
    else if f % 2 == 0 then f else f + 1
  }

  lemma RoundMonotone(x: real, y: real)
    requires x <= y
    ensures RoundHalfEven(x) <= RoundHalfEven(y)
  {
    var r, q := RoundHalfEven(x), RoundHalfEven(y);
    if x < y {
      assert r as real - 0.5 <= x < y <= q as real + 0.5;
      assert (q + 1) as real > r as real;
    }
  }

  /** Python's `round(x, 3)`. */
  function Round3(x: real): real { RoundHalfEven(x * 1000.0) as real / 1000.0 }

  /** The nearest number with three decimals. */
  lemma Round3Exact(x: real) returns (n: int)
    ensures 1000.0 * Round3(x) == n as real && -0.0005 <= x - Round3(x) <= 0.0005
  {
    n := RoundHalfEven(x * 1000.0);
  }

  lemma Round3Monotone(x: real, y: real)
    requires x <= y
    ensures Round3(x) <= Round3(y)
  {
    RoundMonotone(x * 1000.0, y * 1000.0);
  }
}
