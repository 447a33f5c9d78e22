/** Java's fixed-width integers: `short` and `int`, and the two's-complement
    wrap-around of their arithmetic and casts. */
module JavaInt {

  /** A Java `short`. */
  type Short = x: int | -0x8000 <= x < 0x8000
  /** A Java `int`. */
  type Int32 = x: int | -0x8000_0000 <= x < 0x8000_0000

  /** Java `int` arithmetic: the two's-complement value of x modulo 2^32. */
  function Wrap32(x: int): (r: Int32)
    ensures -0x8000_0000 <= x < 0x8000_0000 ==> r == x
  {
    (x + 0x8000_0000) % 0x1_0000_0000 - 0x8000_0000
  }

  /** A `(short)` cast. */
  function ToShort(x: int): (r: Short)
    ensures -0x8000 <= x < 0x8000 ==> r == x
  {
    (x + 0x8000) % 0x1_0000 - 0x8000
  }

  lemma Wrap32Add(x: int, y: int)
    ensures Wrap32(Wrap32(x) + y) == Wrap32(x + y)
  {
    var k := (x + 0x8000_0000) / 0x1_0000_0000;
    assert Wrap32(x) == x - k * 0x1_0000_0000;
  }

  /** `Integer.MAX_VALUE`. */
  const INT_MAX: Int32 := 0x7FFF_FFFF
}
