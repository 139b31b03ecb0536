/** Small definitions shared by the modules. */
module Prelude {

  datatype Option<+T> = None | Some(value: T)

  /** The unit of 64.64 binary fixed point. */
  const ONE_64x64 := 0x1_0000_0000_0000_0000

  function Min(a: int, b: int): int { if a < b then a else b }
  function Max(a: int, b: int): int { if a < b then b else a }
  function Abs(x: int): nat { if x < 0 then -x else x }
  function Sign(x: int): int { if x < 0 then -1 else 1 }

  /** BigInt division: toward zero. */
  function DivTrunc(x: int, y: int): int
    requires y > 0
  {
    Sign(x) * (Abs(x) / y)
  }

  function Pow10(n: nat): (r: nat)
    ensures r >= 1
  {
    if n == 0 then 1 else 10 * Pow10(n - 1)
  }
}
