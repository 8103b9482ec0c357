/** Bytes, and copying them between buffers. */
module Bytes {
  type Byte = b: int | 0 <= b < 256

  /** memcpy between regions that do not overlap. */
  method Copy(dst: array<Byte>, to: nat, src: seq<Byte>)
    requires to + |src| <= dst.Length
    modifies dst
    ensures forall k :: 0 <= k < dst.Length ==> dst[k] == if to <= k < to + |src| then src[k - to] else old(dst[k])
  {
    forall k | 0 <= k < |src| {
      dst[to + k] := src[k];
    }
  }
}
