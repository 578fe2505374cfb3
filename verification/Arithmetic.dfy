/** Integer division as BigInt does it, in use in several components. */
module Arithmetic {
  function Abs(a: int): nat { if a >= 0 then a else -a }

  /** Truncation toward zero. */
  function TruncDiv(a: int, b: int): int
    requires b != 0
  {
    if (a >= 0) == (b > 0) then Abs(a) / Abs(b) else -(Abs(a) / Abs(b))
  }
}
