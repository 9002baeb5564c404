/** Bytes, numbers made of bytes, and sequence bookkeeping. */
module Bytes {
  type byte = x: nat | x < 256

  /** An unsigned number in the given byte order. */
  function Number(s: seq<byte>, bigEndian: bool): nat {
    if s == [] then 0
    else if bigEndian then 256 * Number(s[..|s| - 1], true) + s[|s| - 1]
    else s[0] + 256 * Number(s[1..], false)
  }

  function Concat<T>(chunks: seq<seq<T>>): seq<T> {
    if chunks == [] then [] else Concat(chunks[..|chunks| - 1]) + chunks[|chunks| - 1]
  }

  lemma Regroup<T>(x: seq<T>, y: seq<T>, z: seq<T>)
    ensures x + (y + z) == x + y + z
  {
  }
}
