/**
 * Kotlin's `Int`: 32-bit two's complement. Arithmetic in the source wraps
 * around silently; the model writes that wrap-around out with `Wrap`.
 * Bitwise operations on an `Int` are modelled on its 32 bits, in
 * `Int32Bits`.
 */
module Int32Math {

  const MIN: int := -0x8000_0000
  const MAX: int := 0x7fff_ffff
  const MODULUS: int := 0x1_0000_0000

  type Int32 = x: int | MIN <= x <= MAX

  /** The Kotlin `Int` that the mathematical integer `x` becomes after overflow. */
  function Wrap(x: int): (r: Int32)
    ensures (r - x) % MODULUS == 0
    ensures MIN <= x <= MAX ==> r == x
  {
    (x - MIN) % MODULUS + MIN
  }
}
