/** Bytes, and the size of a 64 bit word, shared by the cache, the buffers and the legion messages. */
module Bytes {
  newtype byte = x: int | 0 <= x < 256

  const WORD: nat := 0x1_0000_0000_0000_0000
}
