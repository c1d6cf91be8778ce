/** Python's numeric conversions, as the people counter uses them. */
module Conversions {

  /** Python's `int(x)` on a float: truncation toward zero, so that
      `int(2.7) == 2` and `int(-2.7) == -2` (not the floor, -3). */
  function Trunc(x: real): (n: int)
    ensures 0.0 <= x ==> 0 <= n && n as real <= x < n as real + 1.0
    ensures x < 0.0 ==> n <= 0 && n as real - 1.0 < x <= n as real
  {
    if 0.0 <= x then x.Floor else -((-x).Floor)
  }
}
