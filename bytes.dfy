/** Bytes, fixed-width integers and the little-endian readers and writers that every
    wire layout of the system is built from.  The DSDL getters of the CAN stack
    (canardDSDLGetU8/U16/U32/U64) are modelled here: they read a little-endian field
    and yield zero for every bit past the end of the payload. */
module Bytes {

  type byte = x: int | 0 <= x < 0x100
  type u16 = x: int | 0 <= x < 0x1_0000
  type u32 = x: int | 0 <= x < 0x1_0000_0000
  type u64 = x: int | 0 <= x < 0x1_0000_0000_0000_0000

  function Pow256(n: nat): (r: nat)
    ensures r >= 1
  {
    if n == 0 then 1 else 256 * Pow256(n - 1)
  }

  /** Byte i of a payload, or 0 past its end. */
  function ByteAt(buf: seq<byte>, i: nat): byte
  {
    if i < |buf| then buf[i] else 0
  }

  /** The unsigned little-endian value of the n bytes at offset off. */
  function GetLE(buf: seq<byte>, off: nat, n: nat): (v: nat)
    ensures v < Pow256(n)
    decreases n
  {
    if n == 0 then 0 else ByteAt(buf, off) + 256 * GetLE(buf, off + 1, n - 1)
  }

  /** canardDSDLGetU8 of a field narrower than a byte at a byte-aligned offset:
      its low `bits` bits, zero past the end of the payload.  Wider fields are
      whole little-endian byte groups and read with GetLE. */
  function GetBits(buf: seq<byte>, off: nat, bits: nat): (v: byte)
    requires bits <= 8
    ensures v < LOW_BITS[bits]
  {
    ByteAt(buf, off) % LOW_BITS[bits]
  }

  /** 2 to the power of 0..8: the range of a field of that many bits. */
  const LOW_BITS: seq<nat> := [1, 2, 4, 8, 16, 32, 64, 128, 256]

  /** The widths the wire layouts use. */
  lemma Pow256Values()
    ensures Pow256(1) == 0x100 && Pow256(2) == 0x1_0000
    ensures Pow256(4) == 0x1_0000_0000 && Pow256(8) == 0x1_0000_0000_0000_0000
  {
    assert Pow256(2) == 256 * Pow256(1);
    assert Pow256(4) == 256 * (256 * Pow256(2));
    assert Pow256(8) == 256 * (256 * (256 * (256 * Pow256(4))));
  }

  /** The n-byte little-endian encoding of v (the low n bytes when v is wider). */
  function PutLE(v: nat, n: nat): (s: seq<byte>)
    ensures |s| == n
  {
    if n == 0 then [] else [v % 256] + PutLE(v / 256, n - 1)
  }

  /** Reading back a little-endian field placed between any two byte strings
      yields the value that was written, provided it fits. */
  lemma {:induction false} GetPutLE(v: nat, n: nat, pre: seq<byte>, post: seq<byte>)
    requires v < Pow256(n)
    ensures GetLE(pre + PutLE(v, n) + post, |pre|, n) == v
  {
    if n > 0 {
      var pre' := pre + [v % 256];
      assert pre + PutLE(v, n) + post == pre' + PutLE(v / 256, n - 1) + post;
      GetPutLE(v / 256, n - 1, pre', post);
    }
  }

  /** A little-endian field depends only on the bytes it covers. */
  lemma {:induction false} GetLEOnly(a: seq<byte>, b: seq<byte>, off: nat, n: nat)
    requires forall i :: off <= i < off + n ==> ByteAt(a, i) == ByteAt(b, i)
    ensures GetLE(a, off, n) == GetLE(b, off, n)
    decreases n
  {
    if n > 0 {
      GetLEOnly(a, b, off + 1, n - 1);
    }
  }

  /** Zero bytes read as zero. */
  function Zeros(n: nat): (s: seq<byte>)
    ensures |s| == n && forall i :: 0 <= i < n ==> s[i] == 0
  {
    seq(n, i => 0)
  }

  /** `s` followed by zeros up to n bytes (Python's struct pads an `s` field this
      way, and `memset` followed by `memcpy` leaves a C buffer this way). */
  function PadTo(s: seq<byte>, n: nat): (r: seq<byte>)
    ensures |r| == n
    ensures forall i :: 0 <= i < n ==> r[i] == (if i < |s| then s[i] else 0)
  {
    if |s| >= n then s[..n] else s + Zeros(n - |s|)
  }

  /** A packed little-endian array: each value in w bytes, contiguously. */
  function PackLE(vs: seq<nat>, w: nat): (s: seq<byte>)
    ensures |s| == |vs| * w
  {
    if vs == [] then [] else PutLE(vs[0], w) + PackLE(vs[1..], w)
  }

  /** `count` little-endian values of w bytes each, read from offset off. */
  function UnpackLE(buf: seq<byte>, off: nat, count: nat, w: nat): (vs: seq<nat>)
    ensures |vs| == count
  {
    seq(count, i requires 0 <= i < count => GetLE(buf, off + i * w, w))
  }

  /** Unpacking what was packed, wherever it sits, gives the values back. */
  lemma {:induction false} UnpackPackLE(vs: seq<nat>, w: nat, pre: seq<byte>, post: seq<byte>)
    requires forall i :: 0 <= i < |vs| ==> vs[i] < Pow256(w)
    ensures UnpackLE(pre + PackLE(vs, w) + post, |pre|, |vs|, w) == vs
    decreases |vs|
  {
    if vs != [] {
      var rest := PackLE(vs[1..], w);
      var pre' := pre + PutLE(vs[0], w);
      var buf := pre + PackLE(vs, w) + post;
      assert buf == pre + PutLE(vs[0], w) + (rest + post);
      assert buf == pre' + rest + post;
      GetPutLE(vs[0], w, pre, rest + post);
      UnpackPackLE(vs[1..], w, pre', post);
      UnpackStep(buf, |pre|, |vs|, w);
      assert vs == [vs[0]] + vs[1..];
    }
  }

  /** Unpacking splits into the first value and the rest, one width along. */
  lemma UnpackStep(buf: seq<byte>, off: nat, count: nat, w: nat)
    requires count > 0
    ensures UnpackLE(buf, off, count, w) == [GetLE(buf, off, w)] + UnpackLE(buf, off + w, count - 1, w)
  {
    var got, rest := UnpackLE(buf, off, count, w), UnpackLE(buf, off + w, count - 1, w);
    assert got[0] == GetLE(buf, off + 0 * w, w);
    forall i | 0 < i < count
      ensures got[i] == rest[i - 1]
    {
      assert off + i * w == off + w + (i - 1) * w;
    }
  }

  function Min(a: int, b: int): int
  {
    if a <= b then a else b
  }
}
