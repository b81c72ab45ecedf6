/** Types that several modules share. */
module Common {
  /** A value that may be missing: a pointer that may be NULL, the result of a search. */
  datatype Option<T> = None | Some(value: T)

  type Byte = b: int | 0 <= b < 256

  /** The number of values of a 32-bit and of a 64-bit word. */
  const WORD32: nat := 0x1_0000_0000
  const WORD64: nat := 0x1_0000_0000_0000_0000

  /** The end of a C string. */
  const NUL: char := '\0'
}
