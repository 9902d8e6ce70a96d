// Bytes, and copying them into arrays.
module Bytes {
  type byte = x: int | 0 <= x < 256

  function Overwrite(bytes: seq<byte>, at: nat, src: seq<byte>): (r: seq<byte>)
    requires at + |src| <= |bytes|
    ensures |r| == |bytes|
  {
    bytes[..at] + src + bytes[at + |src|..]
  }

  // dst[at..at+|src|] = src
  method Memcpy(dst: array<byte>, at: nat, src: seq<byte>)
    requires at + |src| <= dst.Length
    modifies dst
    ensures dst[..] == Overwrite(old(dst[..]), at, src)
  {
    forall i | 0 <= i < |src| {
      dst[at + i] := src[i];
    }
  }

  // dst[ptr..] = bytes, and the place behind them
  method Put(dst: array<byte>, ptr: nat, bytes: seq<byte>) returns (next: nat)
    requires ptr + |bytes| <= dst.Length
    modifies dst
    ensures next == ptr + |bytes| && dst[..next] == old(dst[..ptr]) + bytes
    ensures dst[next..] == old(dst[next..])
  {
    Memcpy(dst, ptr, bytes);
    next := ptr + |bytes|;
  }
}
