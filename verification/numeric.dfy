/** The real-number helpers the analyzers share: Python's `max`, `min` and `abs` on two floats. */
module Numeric {

  function MaxReal(a: real, b: real): (m: real)
    ensures a <= m && b <= m
    ensures m == a || m == b
  {
    if a < b then b else a
  }

  function MinReal(a: real, b: real): (m: real)
    ensures m <= a && m <= b
    ensures m == a || m == b
  {
    if b < a then b else a
  }

  function Abs(x: real): (r: real)
    ensures 0.0 <= r
    ensures r == x || r == -x
  {
    if x < 0.0 then -x else x
  }
}
