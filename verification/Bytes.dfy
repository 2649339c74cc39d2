/** Bytes, byte buffers and the in-place copy the C sources do with memcpy and memmove. */
module Bytes {
  type byte = x: int | 0 <= x < 256

  function Min(a: int, b: int): int {
    if a <= b then a else b
  }

  function Zeros(n: nat): (z: seq<byte>)
    ensures |z| == n && forall i :: 0 <= i < n ==> z[i] == 0
  {
    seq(n, _ => 0)
  }

  /** The buffer after `memcpy(buf + at, src, |src|)`. */
  function Write(buf: seq<byte>, at: nat, src: seq<byte>): (r: seq<byte>)
    requires at + |src| <= |buf|
    ensures |r| == |buf|
    ensures r[at..at + |src|] == src
    ensures forall i :: 0 <= i < |buf| && !(at <= i < at + |src|) ==> r[i] == buf[i]
  {
    buf[..at] + src + buf[at + |src|..]
  }

  /** A write right behind a known prefix extends that prefix. */
  lemma WriteExtendsPrefix(buf: seq<byte>, at: nat, src: seq<byte>, known: seq<byte>)
    requires at + |src| <= |buf| && |known| == at && buf[..at] == known
    ensures Write(buf, at, src)[..at + |src|] == known + src
  {
    var r := Write(buf, at, src);
    assert r[..at] == buf[..at];
    assert r[..at + |src|] == r[..at] + r[at..at + |src|];
  }

  lemma SplitPrefix(s: seq<byte>, i: nat, j: nat)
    requires i <= j <= |s|
    ensures s[..i] + s[i..j] == s[..j]
  {
  }

  /** `memcpy(dst + at, src, |src|)`, byte by byte. */
  method CopyInto(dst: array<byte>, at: nat, src: seq<byte>)
    requires at + |src| <= dst.Length
    modifies dst
    ensures dst[..] == Write(old(dst[..]), at, src)
  {
    ghost var was := dst[..];
    for k := 0 to |src|
      invariant forall i :: 0 <= i < dst.Length ==> dst[i] == if at <= i < at + k then src[i - at] else was[i]
    {
      dst[at + k] := src[k];
    }
  }
}
