/**
 Machine words. The model works on unbounded integers and writes out every
 truncation that the C++ types perform.
 */
module Words {

  const TWO16: int := 0x1_0000
  const TWO31: int := 0x8000_0000
  const TWO32: int := 0x1_0000_0000
  const TWO64: int := 0x1_0000_0000_0000_0000

  type Byte = x: int | 0 <= x < 0x100
  type U16 = x: int | 0 <= x < 0x1_0000
  type U32 = x: int | 0 <= x < 0x1_0000_0000
  type U64 = x: int | 0 <= x < 0x1_0000_0000_0000_0000

  datatype Option<+T> = None | Some(value: T)

  function Min(a: int, b: int): int {
    if a <= b then a else b
  }

  function Max(a: int, b: int): int {
    if a >= b then a else b
  }

  /** The low 64 bits of a sum. */
  function Low64(x: nat): (r: U64)
    ensures TWO64 <= x < 2 * TWO64 ==> r == x - TWO64
  {
    if x < TWO64 then x else x % TWO64
  }

  /** 64-bit unsigned subtraction. */
  function Sub64(a: U64, b: U64): U64 {
    if a >= b then a - b else a - b + TWO64
  }

  /** Two to the power k. */
  function Pow2(k: nat): (p: nat)
    ensures p >= 1
  {
    if k == 0 then 1 else 2 * Pow2(k - 1)
  }
}
