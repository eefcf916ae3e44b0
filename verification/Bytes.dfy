/** Octets, octet strings and the two octets of a checksum. */
module Bytes {

  type byte = bv8
  type bytes = seq<byte>

  /** The two octets of a checksum register, low octet first. */
  function PackCrc(c: bv16): (r: bytes)
    ensures |r| == 2
  {
    [(c & 0xFF) as byte, (c >> 8) as byte]
  }

  function UnpackCrc(lo: byte, hi: byte): bv16 {
    ((hi as bv16) << 8) | (lo as bv16)
  }

  lemma UnpackOfPackCrc(c: bv16)
    ensures UnpackCrc(PackCrc(c)[0], PackCrc(c)[1]) == c
  {
  }

  lemma PackOfUnpackCrc(lo: byte, hi: byte)
    ensures PackCrc(UnpackCrc(lo, hi)) == [lo, hi]
  {
    LowHalf(lo, hi);
    HighHalf(lo, hi);
  }

  lemma LowHalf(lo: byte, hi: byte)
    ensures (UnpackCrc(lo, hi) & 0xFF) as byte == lo
  {
  }

  lemma HighHalf(lo: byte, hi: byte)
    ensures (UnpackCrc(lo, hi) >> 8) as byte == hi
  {
  }

  /** Octet-wise exclusive or of two strings of one length. */
  function Xor(a: bytes, b: bytes): (r: bytes)
    requires |a| == |b|
    ensures |r| == |a|
    ensures forall i :: 0 <= i < |a| ==> r[i] == a[i] ^ b[i]
  {
    seq(|a|, i requires 0 <= i < |a| => a[i] ^ b[i])
  }

  lemma XorTwice(a: bytes, b: bytes)
    requires |a| == |b|
    ensures Xor(Xor(a, b), b) == a
  {
    forall i | 0 <= i < |a|
      ensures Xor(Xor(a, b), b)[i] == a[i]
    {
      assert (a[i] ^ b[i]) ^ b[i] == a[i];
    }
  }

  /** A run of `n` zero octets. */
  function Zeros(n: nat): (r: bytes)
    ensures |r| == n
    ensures forall i :: 0 <= i < n ==> r[i] == 0
  {
    seq(n, _ => 0)
  }

  /** Concatenation of a list of octet strings. */
  function Concat(parts: seq<bytes>): bytes {
    if parts == [] then [] else parts[0] + Concat(parts[1..])
  }
}
