/** Bytes and 16-bit words in network order. */
module Octets {
  type Byte = x: int | 0 <= x < 256

  type Word = x: int | 0 <= x < 65536

  function WordBytes(w: Word): (b: seq<Byte>)
    ensures |b| == 2
  {
    [w / 256, w % 256]
  }
}
