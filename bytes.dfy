/** Little-endian integer fields in a reply buffer, as read by Python's
    `struct.unpack_from` with the codes H, I, h and i on a little-endian host,
    and the inverse encoders used to build buffers with known field values. */
module Bytes {

  type byte = x: int | 0 <= x < 256

  const TwoTo16: nat := 0x1_0000
  const TwoTo32: nat := 0x1_0000_0000

  /** Unsigned 16-bit field (struct code H) at `off`. */
  function U16At(s: seq<byte>, off: nat): (r: nat)
    requires off + 2 <= |s|
    ensures r < TwoTo16
  {
    s[off] as int + 256 * s[off + 1] as int
  }

  /** Unsigned 32-bit field (struct code I) at `off`: low half first. */
  function U32At(s: seq<byte>, off: nat): (r: nat)
    requires off + 4 <= |s|
    ensures r < TwoTo32
  {
    U16At(s, off) + TwoTo16 * U16At(s, off + 2)
  }

  /** Signed 16-bit field (struct code h): two's complement of the U16. */
  function I16At(s: seq<byte>, off: nat): (r: int)
    requires off + 2 <= |s|
    ensures -0x8000 <= r < 0x8000
    ensures r >= 0 <==> s[off + 1] < 0x80
  {
    var u := U16At(s, off);
    if u < 0x8000 then u else u - TwoTo16
  }

  /** Signed 32-bit field (struct code i): two's complement of the U32. */
  function I32At(s: seq<byte>, off: nat): (r: int)
    requires off + 4 <= |s|
    ensures -0x8000_0000 <= r < 0x8000_0000
    ensures r >= 0 <==> s[off + 3] < 0x80
  {
    var u := U32At(s, off);
    if u < 0x8000_0000 then u else u - TwoTo32
  }

  /** The two bytes that encode `v` as an unsigned 16-bit field. */
  function Le16(v: nat): (b: seq<byte>)
    requires v < TwoTo16
    ensures |b| == 2 && U16At(b, 0) == v
  {
    [v % 256, v / 256]
  }

  /** The four bytes that encode `v` as an unsigned 32-bit field. */
  function Le32(v: nat): (b: seq<byte>)
    requires v < TwoTo32
    ensures |b| == 4 && U32At(b, 0) == v
  {
    Le16(v % TwoTo16) + Le16(v / TwoTo16)
  }

  /** Two's-complement representation of a signed 16-bit value. */
  function FromI16(v: int): (u: nat)
    requires -0x8000 <= v < 0x8000
    ensures u < TwoTo16
    ensures (if u < 0x8000 then u else u - TwoTo16) == v
  {
    if v >= 0 then v else v + TwoTo16
  }

  /** Two's-complement representation of a signed 32-bit value. */
  function FromI32(v: int): (u: nat)
    requires -0x8000_0000 <= v < 0x8000_0000
    ensures u < TwoTo32
    ensures (if u < 0x8000_0000 then u else u - TwoTo32) == v
  {
    if v >= 0 then v else v + TwoTo32
  }

  /** A field read depends only on the bytes it covers: reading inside a
      slice at a shifted offset gives the same value. */
  lemma U32AtSlice(s: seq<byte>, from: nat, off: nat)
    requires from + off + 4 <= |s|
    ensures U32At(s[from..], off) == U32At(s, from + off)
    ensures U16At(s[from..], off) == U16At(s, from + off)
    ensures U16At(s[from..], off + 2) == U16At(s, from + off + 2)
  {
  }

  /** Re-encoding the value read at `off` gives back the bytes it was read from. */
  lemma Le16OfRead(s: seq<byte>, off: nat)
    requires off + 2 <= |s|
    ensures Le16(U16At(s, off)) == s[off..off + 2]
  {
    var u := U16At(s, off);
    assert u % 256 == s[off] && u / 256 == s[off + 1];
  }

  lemma Le32OfRead(s: seq<byte>, off: nat)
    requires off + 4 <= |s|
    ensures Le32(U32At(s, off)) == s[off..off + 4]
  {
    var lo, hi := U16At(s, off), U16At(s, off + 2);
    var u := U32At(s, off);
    assert u % TwoTo16 == lo && u / TwoTo16 == hi;
    Le16OfRead(s, off);
    Le16OfRead(s, off + 2);
    assert s[off..off + 4] == s[off..off + 2] + s[off + 2..off + 4];
  }
}
