/** Java's fixed-width integer types, written out over Dafny's unbounded `int`. */
module Numerics {

  const TWO_31: int := 0x8000_0000
  const TWO_32: int := 0x1_0000_0000

  /** A Java `byte`. */
  newtype int8 = x: int | -128 <= x < 128

  /** True iff `v` is representable as a Java `int`. */
  predicate IsInt32(v: int) {
    -TWO_31 <= v < TWO_31
  }

  /** The Java `int` that an exact result `v` wraps around to (two's complement). */
  function Wrap32(v: int): (r: int)
    ensures IsInt32(r)
    ensures (r - v) % TWO_32 == 0
    ensures IsInt32(v) ==> r == v
  {
    (v + TWO_31) % TWO_32 - TWO_31
  }

  /** The narrowing cast `(byte) v` of Java: keep the low eight bits, read them signed. */
  function ToByte(v: int): (r: int8)
    ensures (r as int - v) % 256 == 0
    ensures -128 <= v < 128 ==> r as int == v
  {
    ((v + 128) % 256 - 128) as int8
  }
}
