/** The little-endian 16-bit length fields of the wire formats. */
module Lengths {
  import opened Bytes

  /** An integer reduced to one octet. */
  function LowOctet(n: int): byte {
    (n % 256) as byte
  }

  function HighOctet(n: int): byte
    requires 0 <= n <= 0xFFFF
  {
    (n / 256) as byte
  }

  /** The two octets of a length field, low octet first. */
  function PackU16(n: int): (r: bytes)
    requires 0 <= n <= 0xFFFF
    ensures |r| == 2
  {
    [LowOctet(n), HighOctet(n)]
  }

  function UnpackU16(lo: byte, hi: byte): (n: nat)
    ensures n <= 0xFFFF
  {
    lo as int + 256 * (hi as int)
  }

  lemma UnpackOfPackU16(n: int)
    requires 0 <= n <= 0xFFFF
    ensures UnpackU16(LowOctet(n), HighOctet(n)) == n
  {
    IntOfOctet(n % 256);
    IntOfOctet(n / 256);
  }

  lemma OctetOfInt(b: byte, n: int)
    requires n == b as int
    ensures n as byte == b
  {
  }

  lemma NextOctet(b: byte)
    requires b != 255
    ensures (b + 1) as int == b as int + 1
  {
  }

  lemma LastOctet()
    ensures (255 as byte) as int == 255
  {
  }

  /** Every number below 256 is the value of an octet. */
  lemma {:induction false} OctetWithValue(n: nat) returns (b: byte)
    requires n < 256
    ensures b as int == n
  {
    if n == 0 {
      b := 0;
    } else {
      var p := OctetWithValue(n - 1);
      LastOctet();
      NextOctet(p);
      b := p + 1;
    }
  }

  lemma IntOfOctet(n: nat)
    requires n < 256
    ensures (n as byte) as int == n
  {
    var b := OctetWithValue(n);
    OctetOfInt(b, n);
  }

  lemma LowOfUnpack(lo: byte, hi: byte)
    ensures LowOctet(UnpackU16(lo, hi)) == lo
  {
    assert UnpackU16(lo, hi) % 256 == lo as int;
  }

  lemma HighOfUnpack(lo: byte, hi: byte)
    ensures HighOctet(UnpackU16(lo, hi)) == hi
  {
    assert UnpackU16(lo, hi) / 256 == hi as int;
  }

  /** An octet read as an integer and reduced again is itself. */
  lemma LowOctetOfOctet(b: byte)
    ensures LowOctet(b as int) == b
  {
    assert (b as int) % 256 == b as int;
  }

  lemma LowOctetValue(n: int)
    ensures LowOctet(n) as int == n % 256
  {
    IntOfOctet(n % 256);
  }

  lemma OctetValue(n: int)
    requires 0 <= n < 256
    ensures LowOctet(n) as int == n
  {
    LowOctetValue(n);
  }
}
