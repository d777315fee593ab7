/** C# `int` arithmetic inside `unchecked { }`: results wrap modulo 2^32.
    A hash code is kept as its 32 bits, so that `(hashCode * 397) ^ field`
    is plain `bv32` arithmetic. */
module Int32 {

  const Two32: int := 0x1_0000_0000
  const Two31: int := 0x8000_0000

  type int32 = x: int | -0x8000_0000 <= x < 0x8000_0000

  /** The `int` with the same low 32 bits as `x`. */
  function Wrap(x: int): (r: int32)
    ensures (r - x) % Two32 == 0
    ensures -Two31 <= x < Two31 ==> r == x
  {
    var m := x % Two32;
    if m >= Two31 then m - Two32 else m
  }

  /** Adding a multiple of 2^32 does not change the wrapped value. */
  lemma WrapPeriodic(x: int, k: int)
    ensures Wrap(x + k * Two32) == Wrap(x)
  {
    assert (x + k * Two32) % Two32 == x % Two32;
  }

  /** The two's-complement bits of `x`: what `(int)` and `GetHashCode` give
      for an `int` or an enumeration constant. */
  function Bits(x: int32): bv32 {
    (if x < 0 then x + Two32 else x) as bv32
  }

  /** One step of the generated `GetHashCode`: `(h * 397) ^ x`. */
  function Combine(h: bv32, x: bv32): bv32 {
    (h * 397) ^ x
  }

  /** `bool.GetHashCode()`. */
  function BoolHash(b: bool): bv32 {
    if b then 1 else 0
  }
}
