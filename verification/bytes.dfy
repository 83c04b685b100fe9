/**
 * Unsigned integer types of the header record and their little-endian byte
 * encoding. The header's multi-byte fields are read in the byte order of the
 * host; this model fixes that order to little-endian.
 */
module Bytes {

  type u8 = x: nat | x < 0x100
  type u16 = x: nat | x < 0x1_0000
  type u32 = x: nat | x < 0x1_0000_0000
  type u64 = x: nat | x < 0x1_0000_0000_0000_0000

  /** 256 to the power k: the number of values that k bytes can hold. */
  function Pow256(k: nat): nat
  {
    if k == 0 then 1 else 256 * Pow256(k - 1)
  }

  /** The ranges of the 1-, 2-, 4- and 8-byte integers. */
  lemma Pow256Widths()
    ensures Pow256(1) == 0x100
    ensures Pow256(2) == 0x1_0000
    ensures Pow256(4) == 0x1_0000_0000
    ensures Pow256(8) == 0x1_0000_0000_0000_0000
  {
  }

  /** The unsigned value of the bytes s, least significant byte first. */
  function FromLE(s: seq<u8>): (n: nat)
    ensures n < Pow256(|s|)
  {
    if |s| == 0 then 0 else s[0] + 256 * FromLE(s[1..])
  }

  /** The width bytes that hold n, least significant byte first. */
  function ToLE(n: nat, width: nat): (s: seq<u8>)
    requires n < Pow256(width)
    ensures |s| == width
    ensures FromLE(s) == n
  {
    if width == 0 then []
    else
      var rest := ToLE(n / 256, width - 1);
      assert ([n % 256] + rest)[1..] == rest;
      [n % 256] + rest
  }

  /** Encoding the value of a byte string, at the same width, gives the bytes back. */
  lemma {:induction false} ToLEFromLE(s: seq<u8>)
    ensures ToLE(FromLE(s), |s|) == s
  {
    if |s| > 0 {
      ToLEFromLE(s[1..]);
      assert FromLE(s) / 256 == FromLE(s[1..]);
      assert FromLE(s) % 256 == s[0];
    }
  }

  /** Two byte strings of one width with the same value are the same bytes. */
  lemma FromLEInjective(a: seq<u8>, b: seq<u8>)
    requires |a| == |b| && FromLE(a) == FromLE(b)
    ensures a == b
  {
  }
}
