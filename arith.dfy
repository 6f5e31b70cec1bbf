/** Integer helpers shared by the grid and geometry days. */
module Arith {

  /** The absolute value (`abs`, `abs_diff`). */
  function Abs(n: int): nat {
    if n < 0 then -n else n
  }

  /** `signum`: -1, 0 or 1 by the sign of `n`. */
  function Signum(n: int): int {
    if n < 0 then -1 else if n > 0 then 1 else 0
  }

  /** `min` of two integers. */
  function Min(a: int, b: int): int {
    if a <= b then a else b
  }

  /** `max` of two integers. */
  function Max(a: int, b: int): int {
    if a >= b then a else b
  }
}
