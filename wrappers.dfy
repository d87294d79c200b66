/** Option stands for a Java reference that may be null, and for the outcome of an
    operation that may throw: `None` is the null reference or the exception. */
module Wrappers {
  datatype Option<+T> = None | Some(value: T)
}

/** Java's 32-bit `int`. */
module JavaInts {
  const MinValue: int := -0x8000_0000
  const MaxValue: int := 0x7FFF_FFFF

  type Int32 = x: int | MinValue <= x <= MaxValue

  /** Two's-complement wrap-around of an unbounded integer into `int`. */
  function Wrap32(x: int): (r: Int32)
    ensures MinValue <= x <= MaxValue ==> r == x
    ensures (r - x) % 0x1_0000_0000 == 0
  {
    (x - MinValue) % 0x1_0000_0000 + MinValue
  }
}
