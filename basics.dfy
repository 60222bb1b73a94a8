/** Small value types shared by the model: an optional value (Java's null) and Java's 32-bit `int`. */
module Basics {

  /** A value that may be absent; `None` stands for Java's `null`. */
  datatype Option<T> = None | Some(value: T)

  /** The values of Java's `int`. */
  type int32 = x: int | -0x8000_0000 <= x < 0x8000_0000

  const TwoTo32: int := 0x1_0000_0000

  /** Java's two's-complement truncation of an exact integer result to 32 bits. */
  function Wrap32(x: int): (r: int32)
    ensures (x - r) % TwoTo32 == 0
    ensures -0x8000_0000 <= x < 0x8000_0000 ==> r == x
  {
    (x + 0x8000_0000) % TwoTo32 - 0x8000_0000
  }
}
