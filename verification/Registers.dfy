/** Single bits of 8-bit and 16-bit registers. */
module Registers {

  // ----- what the checksum loops do with a register -----

  function Xor8(a: bv8, b: bv8): bv8 {
    a ^ b
  }

  function Xor16(a: bv16, b: bv16): bv16 {
    a ^ b
  }

  function Octet8(b: bv8): bv8 {
    b
  }

  function Octet16(b: bv8): bv16 {
    b as bv16
  }

  function HighOctet16(b: bv8): bv16 {
    (b as bv16) << 8
  }

  /** The bit that drops out of the register in one step. */
  predicate Out8(r: bv8) {
    r & 0x80 != 0
  }

  function Half8(r: bv8): bv8 {
    r << 1
  }

  function Shift8(r: bv8): bv8 {
    if Out8(r) then Xor8(Half8(r), 0x07) else Half8(r)
  }

  /** The bit that drops out of the register in one step. */
  predicate Out16(r: bv16) {
    r & 0x0001 != 0
  }

  function Half16(r: bv16): bv16 {
    r >> 1
  }

  function Shift16(r: bv16): bv16 {
    if Out16(r) then Xor16(Half16(r), 0xA001) else Half16(r)
  }

  // ----- bits -----

  function Mask8(i: nat): bv8 {
    if i == 0 then 1 else Mask8(i - 1) << 1
  }

  function Mask16(i: nat): bv16 {
    if i == 0 then 1 else Mask16(i - 1) << 1
  }

  predicate Bit8(r: bv8, i: nat)
    requires i < 8
  {
    r & Mask8(i) != 0
  }

  predicate Bit16(r: bv16, i: nat)
    requires i < 16
  {
    r & Mask16(i) != 0
  }

  // ----- exclusive or -----

  lemma OneHotXor8(a: bv8, b: bv8, m: bv8)
    requires m & (m - 1) == 0
    ensures (a ^ b) & m != 0 <==> (a & m != 0) != (b & m != 0)
  {
  }

  lemma OneHotXor16(a: bv16, b: bv16, m: bv16)
    requires m & (m - 1) == 0
    ensures (a ^ b) & m != 0 <==> (a & m != 0) != (b & m != 0)
  {
  }

  lemma {:induction false} OneHot8(i: nat)
    ensures Mask8(i) & (Mask8(i) - 1) == 0
  {
    if i != 0 {
      OneHot8(i - 1);
      DoubledOneHot8(Mask8(i - 1));
    }
  }

  lemma {:induction false} OneHot16(i: nat)
    ensures Mask16(i) & (Mask16(i) - 1) == 0
  {
    if i != 0 {
      OneHot16(i - 1);
      DoubledOneHot16(Mask16(i - 1));
    }
  }

  lemma DoubledOneHot8(m: bv8)
    requires m & (m - 1) == 0
    ensures (m << 1) & ((m << 1) - 1) == 0
  {
  }

  lemma DoubledOneHot16(m: bv16)
    requires m & (m - 1) == 0
    ensures (m << 1) & ((m << 1) - 1) == 0
  {
  }

  lemma Bit8Xor(a: bv8, b: bv8, i: nat)
    requires i < 8
    ensures Bit8(a ^ b, i) <==> Bit8(a, i) != Bit8(b, i)
  {
    OneHot8(i);
    OneHotXor8(a, b, Mask8(i));
  }

  lemma Bit16Xor(a: bv16, b: bv16, i: nat)
    requires i < 16
    ensures Bit16(a ^ b, i) <==> Bit16(a, i) != Bit16(b, i)
  {
    OneHot16(i);
    OneHotXor16(a, b, Mask16(i));
  }

  // ----- shifting -----

  lemma MaskShift8(r: bv8, m: bv8)
    requires m <= 0x40
    ensures (r << 1) & (m << 1) == 0 <==> r & m == 0
  {
  }

  lemma MaskShift16(r: bv16, m: bv16)
    ensures (r >> 1) & m == 0 <==> r & (m << 1) == 0
  {
  }

  lemma MaskValues8()
    ensures Mask8(0) == 0x01 && Mask8(1) == 0x02 && Mask8(2) == 0x04 && Mask8(3) == 0x08
    ensures Mask8(4) == 0x10 && Mask8(5) == 0x20 && Mask8(6) == 0x40 && Mask8(7) == 0x80
  {
  }

  lemma MaskValues16()
    ensures Mask16(0) == 0x0001 && Mask16(1) == 0x0002 && Mask16(2) == 0x0004 && Mask16(3) == 0x0008
    ensures Mask16(4) == 0x0010 && Mask16(5) == 0x0020 && Mask16(6) == 0x0040 && Mask16(7) == 0x0080
    ensures Mask16(8) == 0x0100 && Mask16(9) == 0x0200 && Mask16(10) == 0x0400 && Mask16(11) == 0x0800
    ensures Mask16(12) == 0x1000 && Mask16(13) == 0x2000 && Mask16(14) == 0x4000 && Mask16(15) == 0x8000
  {
  }

  /** Shifting left moves every bit one place up. */
  lemma Bit8Left(r: bv8, i: nat)
    requires i < 7
    ensures Bit8(r << 1, i + 1) <==> Bit8(r, i)
  {
    MaskValues8();
    MaskShift8(r, Mask8(i));
  }

  /** Shifting right moves every bit one place down. */
  lemma Bit16Right(r: bv16, i: nat)
    requires i < 15
    ensures Bit16(r >> 1, i) <==> Bit16(r, i + 1)
  {
    MaskShift16(r, Mask16(i));
  }

  lemma Bit16RightHigh(r: bv16)
    ensures !Bit16(r >> 1, 15)
  {
    MaskValues16();
  }

  // ----- widening -----

  lemma Widen(b: bv8, m: bv8)
    ensures (b as bv16) & (m as bv16) == 0 <==> b & m == 0
  {
  }

  lemma WidenMask(i: nat)
    requires i < 8
    ensures Mask16(i) == Mask8(i) as bv16
  {
    MaskValues8();
    MaskValues16();
  }

  lemma Bit16Widen(b: bv8, i: nat)
    requires i < 8
    ensures Bit16(b as bv16, i) <==> Bit8(b, i)
  {
    WidenMask(i);
    Widen(b, Mask8(i));
  }

  lemma WidenHigh(b: bv8, m: bv16)
    requires m & 0xFF == 0
    ensures (b as bv16) & m == 0
  {
  }

  lemma Bit16WidenHigh(b: bv8, i: nat)
    requires 8 <= i < 16
    ensures !Bit16(b as bv16, i)
  {
    MaskValues16();
    assert Mask16(i) & 0xFF == 0;
    WidenHigh(b, Mask16(i));
  }

  // ----- a register is determined by its bits -----

  lemma NoBits8(d: bv8)
    requires d & 0x01 == 0 && d & 0x02 == 0 && d & 0x04 == 0 && d & 0x08 == 0
    requires d & 0x10 == 0 && d & 0x20 == 0 && d & 0x40 == 0 && d & 0x80 == 0
    ensures d == 0
  {
  }

  lemma NoBits16(d: bv16)
    requires d & 0x0001 == 0 && d & 0x0002 == 0 && d & 0x0004 == 0 && d & 0x0008 == 0
    requires d & 0x0010 == 0 && d & 0x0020 == 0 && d & 0x0040 == 0 && d & 0x0080 == 0
    requires d & 0x0100 == 0 && d & 0x0200 == 0 && d & 0x0400 == 0 && d & 0x0800 == 0
    requires d & 0x1000 == 0 && d & 0x2000 == 0 && d & 0x4000 == 0 && d & 0x8000 == 0
    ensures d == 0
  {
  }

  lemma SameBits8(a: bv8, b: bv8)
    requires forall i: nat :: i < 8 ==> Bit8(a, i) == Bit8(b, i)
    ensures a == b
  {
    var d := a ^ b;
    forall i: nat | i < 8
      ensures d & Mask8(i) == 0
    {
      Bit8Xor(a, b, i);
    }
    MaskValues8();
    assert d & Mask8(0) == 0 && d & Mask8(1) == 0 && d & Mask8(2) == 0 && d & Mask8(3) == 0;
    assert d & Mask8(4) == 0 && d & Mask8(5) == 0 && d & Mask8(6) == 0 && d & Mask8(7) == 0;
    NoBits8(d);
    XorZero8(a, b);
  }

  lemma SameBits16(a: bv16, b: bv16)
    requires forall i: nat :: i < 16 ==> Bit16(a, i) == Bit16(b, i)
    ensures a == b
  {
    var d := a ^ b;
    forall i: nat | i < 16
      ensures d & Mask16(i) == 0
    {
      Bit16Xor(a, b, i);
    }
    MaskValues16();
    assert d & Mask16(0) == 0 && d & Mask16(1) == 0 && d & Mask16(2) == 0 && d & Mask16(3) == 0;
    assert d & Mask16(4) == 0 && d & Mask16(5) == 0 && d & Mask16(6) == 0 && d & Mask16(7) == 0;
    assert d & Mask16(8) == 0 && d & Mask16(9) == 0 && d & Mask16(10) == 0 && d & Mask16(11) == 0;
    assert d & Mask16(12) == 0 && d & Mask16(13) == 0 && d & Mask16(14) == 0 && d & Mask16(15) == 0;
    NoBits16(d);
    XorZero16(a, b);
  }

  lemma XorZero8(a: bv8, b: bv8)
    ensures a ^ b == 0 <==> a == b
  {
  }

  lemma XorZero16(a: bv16, b: bv16)
    ensures a ^ b == 0 <==> a == b
  {
  }

  // ----- exclusive or as addition -----

  lemma XorAssociates8(a: bv8, b: bv8, c: bv8)
    ensures Xor8(Xor8(a, b), c) == Xor8(a, Xor8(b, c))
  {
  }

  lemma XorAssociates16(a: bv16, b: bv16, c: bv16)
    ensures Xor16(Xor16(a, b), c) == Xor16(a, Xor16(b, c))
  {
  }

  lemma XorCommutes8(a: bv8, b: bv8)
    ensures Xor8(a, b) == Xor8(b, a)
  {
  }

  lemma XorCommutes16(a: bv16, b: bv16)
    ensures Xor16(a, b) == Xor16(b, a)
  {
  }

  lemma XorNeutral8(a: bv8)
    ensures Xor8(0, a) == a
  {
  }

  lemma XorNeutral16(a: bv16)
    ensures Xor16(0, a) == a
  {
  }

  lemma XorCancels8(c: bv8, x: bv8, y: bv8)
    ensures Xor8(c, x) == Xor8(c, y) ==> x == y
    ensures Xor8(x, c) == Xor8(y, c) ==> x == y
  {
  }

  lemma XorCancels16(c: bv16, x: bv16, y: bv16)
    ensures Xor16(c, x) == Xor16(c, y) ==> x == y
    ensures Xor16(x, c) == Xor16(y, c) ==> x == y
  {
  }

  lemma HalfXor8(a: bv8, b: bv8)
    ensures Half8(Xor8(a, b)) == Xor8(Half8(a), Half8(b))
  {
  }

  lemma HalfXor16(a: bv16, b: bv16)
    ensures Half16(Xor16(a, b)) == Xor16(Half16(a), Half16(b))
  {
  }

  lemma OutXor8(a: bv8, b: bv8)
    ensures Out8(Xor8(a, b)) == (Out8(a) != Out8(b))
  {
  }

  lemma OutXor16(a: bv16, b: bv16)
    ensures Out16(Xor16(a, b)) == (Out16(a) != Out16(b))
  {
  }

  /** One step is injective. */
  lemma Shift8Apart(a: bv8, b: bv8)
    ensures Shift8(a) == Shift8(b) ==> a == b
  {
  }

  lemma Shift16Apart(a: bv16, b: bv16)
    ensures Shift16(a) == Shift16(b) ==> a == b
  {
  }

  lemma EightShifts(y: bv8)
    ensures var v := Octet16(y);
      && HighOctet16(y) == v << 8
      && Shift16(v << 8) == v << 7 && Shift16(v << 7) == v << 6 && Shift16(v << 6) == v << 5
      && Shift16(v << 5) == v << 4 && Shift16(v << 4) == v << 3 && Shift16(v << 3) == v << 2
      && Shift16(v << 2) == v << 1 && Shift16(v << 1) == v
  {
  }

  lemma WidenXor(x: bv8, y: bv8)
    ensures Octet16(x ^ y) == Xor16(Octet16(x), Octet16(y))
  {
  }

  lemma WidenApart(x: bv8, y: bv8)
    ensures Octet16(x) == Octet16(y) ==> x == y
  {
  }

  /** Two octets side by side. */
  lemma JoinApart(x: bv8, y: bv8, v: bv8, w: bv8)
    ensures Xor16(Octet16(x), HighOctet16(y)) == Xor16(Octet16(v), HighOctet16(w)) ==> x == v && y == w
  {
  }

  lemma JoinByXor(x: bv8, y: bv8)
    ensures Xor16(Octet16(x), HighOctet16(y)) == ((y as bv16) << 8) | (x as bv16)
  {
  }
}
