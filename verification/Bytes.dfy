/** Bytes, and byte sequences given in pieces. */
module Bytes {
  newtype byte = x: int | 0 <= x < 0x100
  type bytes = seq<byte>

  function Concat(parts: seq<bytes>): bytes {
    if parts == [] then [] else parts[0] + Concat(parts[1..])
  }
}
