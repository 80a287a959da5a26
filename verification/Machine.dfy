/**
 The types and limits of the machine that several components share.
 */
module Machine {
  type Byte = b: int | 0 <= b < 256

  const LONG_MAX := 2147483647

  /** One more than the largest 32 bit word. */
  const WORD := 0x1_0000_0000
}
