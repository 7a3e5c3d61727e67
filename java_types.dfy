/** Fixed-width integer types of Java and C, with the wrap-around the source relies on. */
module JavaTypes {

  const TWO_TO_THE_32: int := 0x1_0000_0000

  /** Java `int` and JNI `jint`. */
  newtype int32 = x: int | -0x8000_0000 <= x < 0x8000_0000

  /** C `uint32_t`. */
  newtype uint32 = x: int | 0 <= x < 0x1_0000_0000

  /** Java `byte` and JNI `jbyte` as raw bits. */
  type byte = bv8

  /** Java `int` arithmetic: the two's-complement value congruent to `x` modulo 2^32. */
  function Wrap32(x: int): (r: int32)
    ensures (r as int - x) % TWO_TO_THE_32 == 0
    ensures -0x8000_0000 <= x < 0x8000_0000 ==> r as int == x
  {
    (((x + 0x8000_0000) % TWO_TO_THE_32) - 0x8000_0000) as int32
  }

  /** Adding a multiple of 2^32 does not change the wrapped value. */
  lemma Wrap32Periodic(x: int, k: int)
    ensures Wrap32(x + k * TWO_TO_THE_32) == Wrap32(x)
  {
    var a := (x + 0x8000_0000) % TWO_TO_THE_32;
    var b := (x + k * TWO_TO_THE_32 + 0x8000_0000) % TWO_TO_THE_32;
    var qa := (x + 0x8000_0000) / TWO_TO_THE_32;
    var qb := (x + k * TWO_TO_THE_32 + 0x8000_0000) / TWO_TO_THE_32;
    assert b - a == (qa + k - qb) * TWO_TO_THE_32;
  }

  /** One step of Java's `31 * code + x` may wrap early or late: the result is the same. */
  lemma Wrap32MulAdd31(x: int, y: int)
    ensures Wrap32(31 * Wrap32(x) as int + y) == Wrap32(31 * x + y)
  {
    var w := Wrap32(x) as int;
    var k := (w - x) / TWO_TO_THE_32;
    assert w == x + k * TWO_TO_THE_32;
    assert 31 * w + y == (31 * x + y) + (31 * k) * TWO_TO_THE_32;
    Wrap32Periodic(31 * x + y, 31 * k);
  }
}
