/**
 The two checksums of the PowerStream protocol: the bit loops, the registers they drive, and what the
 loops therefore compute.  Both are remainders of polynomial division over GF(2), hence linear, and
 every register update is a bijection, which is where their error detection comes from.
 */
module Crc {
  import opened Bytes
  import opened Gf2
  import opened Registers
  import opened ShiftRegister

  // ----- CRC-8, polynomial x^8 + x^2 + x + 1, most significant bit first -----

  /** Bit e of the register is the coefficient of x^e. */
  predicate Coefficient8(r: bv8, e: nat) {
    e < 8 && Bit8(r, e)
  }

  function Poly8(r: bv8): (p: Poly)
    ensures DegreeBelow(p, 8)
  {
    set e: nat | e < 8 && Coefficient8(r, e)
  }

  const UNIT8: Unit<bv8> :=
    Unit(Shift8, Xor8, Octet8, 0, Poly8, Poly8, 8, [8, 2, 1, 0])

  function Crc8(data: bytes): bv8 {
    Checksum(UNIT8, data)
  }

  method ComputeCrc8(data: bytes) returns (crc: bv8)
    ensures crc == Crc8(data)
  {
    crc := 0x00;
    for i := 0 to |data|
      invariant crc == Crc8(data[..i])
    {
      ghost var start := crc ^ data[i];
      crc := crc ^ data[i];
      for k := 0 to 8
        invariant crc == Iterate(UNIT8, start, k)
      {
        if crc & 0x80 != 0 {
          crc := (crc << 1) ^ 0x07;
        } else {
          crc := crc << 1;
        }
      }
      assert data[..i + 1] == data[..i] + [data[i]];
      ChecksumSnoc(UNIT8, data[..i], data[i]);
    }
    assert data[..|data|] == data;
  }

  // ----- CRC-16/IBM, polynomial x^16 + x^15 + x^2 + 1, bit-reflected -----

  /** Reflected: bit 15 - e of the register is the coefficient of x^e. */
  predicate Coefficient16(r: bv16, e: nat) {
    e < 16 && Bit16(r, 15 - e)
  }

  function Poly16(r: bv16): (p: Poly)
    ensures DegreeBelow(p, 16)
  {
    set e: nat | e < 16 && Coefficient16(r, e)
  }

  /** A message octet is read least significant bit leading. */
  predicate CoefficientReflected(b: byte, e: nat) {
    e < 8 && Bit8(b, 7 - e)
  }

  function PolyReflected(b: byte): (p: Poly)
    ensures DegreeBelow(p, 8)
  {
    set e: nat | e < 8 && CoefficientReflected(b, e)
  }

  const UNIT16: Unit<bv16> :=
    Unit(Shift16, Xor16, Octet16, 0, Poly16, PolyReflected, 16, [16, 15, 2, 0])

  function Crc16(data: bytes): bv16 {
    Checksum(UNIT16, data)
  }

  method ComputeCrc16(data: bytes) returns (crc: bv16)
    ensures crc == Crc16(data)
  {
    crc := 0x0000;
    for i := 0 to |data|
      invariant crc == Crc16(data[..i])
    {
      ghost var start := crc ^ (data[i] as bv16);
      crc := crc ^ (data[i] as bv16);
      for k := 0 to 8
        invariant crc == Iterate(UNIT16, start, k)
      {
        if crc & 0x0001 != 0 {
          crc := (crc >> 1) ^ 0xA001;
        } else {
          crc := crc >> 1;
        }
      }
      assert data[..i + 1] == data[..i] + [data[i]];
      ChecksumSnoc(UNIT16, data[..i], data[i]);
    }
    assert data[..|data|] == data;
    assert crc & 0xFFFF == crc;
    crc := crc & 0xFFFF;
  }

  // ----- registers as polynomials -----

  lemma Coefficient8Xor(a: bv8, b: bv8, c: bv8, e: nat)
    requires c == a ^ b
    ensures Coefficient8(c, e) <==> Coefficient8(a, e) != Coefficient8(b, e)
  {
    if e < 8 {
      Bit8Xor(a, b, e);
    }
  }

  lemma Poly8Xor(a: bv8, b: bv8)
    ensures Poly8(a ^ b) == Add(Poly8(a), Poly8(b))
  {
    var c := a ^ b;
    forall e: nat
      ensures e in Poly8(c) <==> e in Add(Poly8(a), Poly8(b))
    {
      Coefficient8Xor(a, b, c, e);
    }
  }

  lemma Coefficient16Xor(a: bv16, b: bv16, c: bv16, e: nat)
    requires c == a ^ b
    ensures Coefficient16(c, e) <==> Coefficient16(a, e) != Coefficient16(b, e)
  {
    if e < 16 {
      Bit16Xor(a, b, 15 - e);
    }
  }

  lemma Poly16Xor(a: bv16, b: bv16)
    ensures Poly16(a ^ b) == Add(Poly16(a), Poly16(b))
  {
    var c := a ^ b;
    forall e: nat
      ensures e in Poly16(c) <==> e in Add(Poly16(a), Poly16(b))
    {
      Coefficient16Xor(a, b, c, e);
    }
  }

  lemma Poly8Injective(a: bv8, b: bv8)
    requires Poly8(a) == Poly8(b)
    ensures a == b
  {
    forall i: nat | i < 8
      ensures Bit8(a, i) == Bit8(b, i)
    {
      assert i in Poly8(a) <==> i in Poly8(b);
    }
    SameBits8(a, b);
  }

  lemma Poly16Injective(a: bv16, b: bv16)
    requires Poly16(a) == Poly16(b)
    ensures a == b
  {
    forall i: nat | i < 16
      ensures Bit16(a, i) == Bit16(b, i)
    {
      var e: nat := 15 - i;
      assert e in Poly16(a) <==> e in Poly16(b);
    }
    SameBits16(a, b);
  }

  // ----- one register step multiplies by x modulo the generator -----

  lemma Coefficient8Left(r: bv8, s: bv8, e: nat)
    requires s == r << 1
    ensures 1 <= e < 8 ==> (Coefficient8(s, e) <==> Coefficient8(r, e - 1))
    ensures !Coefficient8(s, 0)
    ensures Coefficient8(r, 7) <==> r & 0x80 != 0
  {
    MaskValues8();
    if 1 <= e < 8 {
      Bit8Left(r, e - 1);
    }
  }

  lemma Poly8Left(r: bv8)
    ensures Shift(Poly8(r), 1) == Add(Poly8(r << 1), if r & 0x80 != 0 then {8} else {})
  {
    var s, lead: Poly := r << 1, if r & 0x80 != 0 then {8} else {};
    forall e: nat
      ensures e in Shift(Poly8(r), 1) <==> e in Add(Poly8(s), lead)
    {
      Coefficient8Left(r, s, e);
    }
  }

  lemma Coefficient16Right(r: bv16, s: bv16, e: nat)
    requires s == r >> 1
    ensures 1 <= e < 16 ==> (Coefficient16(s, e) <==> Coefficient16(r, e - 1))
    ensures !Coefficient16(s, 0)
    ensures Coefficient16(r, 15) <==> r & 0x0001 != 0
  {
    Bit16RightHigh(r);
    if 1 <= e < 16 {
      Bit16Right(r, 15 - e);
    }
  }

  lemma Poly16Right(r: bv16)
    ensures Shift(Poly16(r), 1) == Add(Poly16(r >> 1), if r & 0x0001 != 0 then {16} else {})
  {
    var s, lead: Poly := r >> 1, if r & 0x0001 != 0 then {16} else {};
    forall e: nat
      ensures e in Shift(Poly16(r), 1) <==> e in Add(Poly16(s), lead)
    {
      Coefficient16Right(r, s, e);
    }
  }

  lemma Generator8()
    ensures Mul({0}, [8, 2, 1, 0]) == Add({8}, {2, 1, 0})
  {
    assert [8, 2, 1, 0][1..] == [2, 1, 0] && [2, 1, 0][1..] == [1, 0] && [1, 0][1..] == [0] && [0][1..] == [];
    assert Mul({0}, [0]) == {0};
    assert Mul({0}, [1, 0]) == Add(Shift({0}, 1), {0}) == {1, 0};
    assert Mul({0}, [2, 1, 0]) == Add(Shift({0}, 2), {1, 0}) == {2, 1, 0};
    assert Shift({0}, 8) == {8};
  }

  lemma Generator16()
    ensures Mul({0}, [16, 15, 2, 0]) == Add({16}, {15, 2, 0})
  {
    assert [16, 15, 2, 0][1..] == [15, 2, 0] && [15, 2, 0][1..] == [2, 0] && [2, 0][1..] == [0] && [0][1..] == [];
    assert Mul({0}, [0]) == {0};
    assert Mul({0}, [2, 0]) == Add(Shift({0}, 2), {0}) == {2, 0};
    assert Mul({0}, [15, 2, 0]) == Add(Shift({0}, 15), {2, 0}) == {15, 2, 0};
    assert Shift({0}, 16) == {16};
  }

  lemma FeedbackPoly8()
    ensures Poly8(0x07) == {2, 1, 0}
  {
    MaskValues8();
  }

  lemma FeedbackPoly16()
    ensures Poly16(0xA001) == {15, 2, 0}
  {
    MaskValues16();
  }

  lemma Shift8Poly(r: bv8)
    ensures Congruent(Shift(Poly8(r), 1), Poly8(Shift8(r)), [8, 2, 1, 0])
  {
    var s := r << 1;
    Poly8Left(r);
    if r & 0x80 == 0 {
      assert Add(Poly8(s), {}) == Poly8(s);
      CongruentReflexive(Poly8(s), [8, 2, 1, 0]);
    } else {
      Generator8();
      FeedbackPoly8();
      Poly8Xor(s, 0x07);
      ReduceOnce(Shift(Poly8(r), 1), Poly8(s), {2, 1, 0}, 8, [8, 2, 1, 0]);
    }
  }

  lemma Shift16Poly(r: bv16)
    ensures Congruent(Shift(Poly16(r), 1), Poly16(Shift16(r)), [16, 15, 2, 0])
  {
    var s := r >> 1;
    Poly16Right(r);
    if r & 0x0001 == 0 {
      assert Add(Poly16(s), {}) == Poly16(s);
      CongruentReflexive(Poly16(s), [16, 15, 2, 0]);
    } else {
      Generator16();
      FeedbackPoly16();
      Poly16Xor(s, 0xA001);
      ReduceOnce(Shift(Poly16(r), 1), Poly16(s), {15, 2, 0}, 16, [16, 15, 2, 0]);
    }
  }

  /** The low half of the 16-bit register holds the next octet times x^8. */
  lemma OctetInRegister(b: byte)
    ensures Poly16(b as bv16) == Shift(PolyReflected(b), 8)
  {
    var w := b as bv16;
    forall e: nat
      ensures e in Poly16(w) <==> e in Shift(PolyReflected(b), 8)
    {
      if e < 8 {
        Bit16WidenHigh(b, 15 - e);
      } else if e < 16 {
        Bit16Widen(b, 15 - e);
        assert CoefficientReflected(b, e - 8) <==> Bit8(b, 15 - e);
      }
    }
  }

  lemma Divides8()
    ensures Divides(UNIT8)
  {
    forall r ensures StepDivides(UNIT8, r) {
      Shift8Poly(r);
    }
    forall a, b ensures AddIsSum(UNIT8, a, b) {
      Poly8Xor(a, b);
    }
    forall b ensures LoadIsOctet(UNIT8, b) {
      assert Shift(Poly8(b), 0) == Poly8(b);
    }
    forall a, b ensures PolyApart(UNIT8, a, b) {
      if Poly8(a) == Poly8(b) {
        Poly8Injective(a, b);
      }
    }
    Poly8Xor(0, 0);
  }

  lemma Divides16()
    ensures Divides(UNIT16)
  {
    forall r ensures StepDivides(UNIT16, r) {
      Shift16Poly(r);
    }
    forall a, b ensures AddIsSum(UNIT16, a, b) {
      Poly16Xor(a, b);
    }
    forall b ensures LoadIsOctet(UNIT16, b) {
      OctetInRegister(b);
    }
    forall a, b ensures PolyApart(UNIT16, a, b) {
      if Poly16(a) == Poly16(b) {
        Poly16Injective(a, b);
      }
    }
    Poly16Xor(0, 0);
  }

  // ----- the laws of the two registers -----

  lemma Half8Adds(a: bv8, b: bv8)
    ensures HalfAdds(UNIT8, Half8, a, b) && OutAdds(UNIT8, Out8, a, b)
  {
    HalfXor8(a, b);
    OutXor8(a, b);
  }

  lemma Half16Adds(a: bv16, b: bv16)
    ensures HalfAdds(UNIT16, Half16, a, b) && OutAdds(UNIT16, Out16, a, b)
  {
    HalfXor16(a, b);
    OutXor16(a, b);
  }

  lemma Feedback8()
    ensures Feedback(UNIT8, Half8, Out8, 0x07)
  {
    forall a, b ensures HalfAdds(UNIT8, Half8, a, b) && OutAdds(UNIT8, Out8, a, b) {
      Half8Adds(a, b);
    }
    forall a ensures StepFeeds(UNIT8, Half8, Out8, 0x07, a) && Neutral(UNIT8, a) {
      Step8Feeds(a);
    }
    forall c, d, x ensures Associates(UNIT8, c, d, x) {
      Adds8(c, d, x);
    }
    forall c, d ensures Commutes(UNIT8, c, d) {
      Adds8(c, d, d);
    }
  }

  lemma Step8Feeds(a: bv8)
    ensures StepFeeds(UNIT8, Half8, Out8, 0x07, a) && Neutral(UNIT8, a)
  {
    XorNeutral8(a);
  }

  lemma Feedback16()
    ensures Feedback(UNIT16, Half16, Out16, 0xA001)
  {
    forall a, b ensures HalfAdds(UNIT16, Half16, a, b) && OutAdds(UNIT16, Out16, a, b) {
      Half16Adds(a, b);
    }
    forall a ensures StepFeeds(UNIT16, Half16, Out16, 0xA001, a) && Neutral(UNIT16, a) {
      Step16Feeds(a);
    }
    forall c, d, x ensures Associates(UNIT16, c, d, x) {
      Adds16(c, d, x);
    }
    forall c, d ensures Commutes(UNIT16, c, d) {
      Adds16(c, d, d);
    }
  }

  lemma Step16Feeds(a: bv16)
    ensures StepFeeds(UNIT16, Half16, Out16, 0xA001, a) && Neutral(UNIT16, a)
  {
    XorNeutral16(a);
  }

  lemma Adds8(c: bv8, d: bv8, x: bv8)
    ensures Associates(UNIT8, c, d, x) && Commutes(UNIT8, c, d) && LoadAdds(UNIT8, c, d)
  {
    XorAssociates8(c, d, x);
    XorCommutes8(c, d);
  }

  lemma Adds16(c: bv16, d: bv16, x: bv16)
    ensures Associates(UNIT16, c, d, x) && Commutes(UNIT16, c, d)
  {
    XorAssociates16(c, d, x);
    XorCommutes16(c, d);
  }

  lemma Load16Adds(x: byte, y: byte)
    ensures LoadAdds(UNIT16, x, y)
  {
    WidenXor(x, y);
  }

  lemma Linear8()
    ensures Linear(UNIT8)
  {
    Feedback8();
    forall a, b ensures StepAdds(UNIT8, a, b) {
      FeedbackAdds(UNIT8, Half8, Out8, 0x07, a, b);
    }
    forall c, d ensures LoadAdds(UNIT8, c, d) {
      Adds8(c, d, d);
    }
  }

  lemma Linear16()
    ensures Linear(UNIT16)
  {
    Feedback16();
    forall a, b ensures StepAdds(UNIT16, a, b) {
      FeedbackAdds(UNIT16, Half16, Out16, 0xA001, a, b);
    }
    forall x, y ensures LoadAdds(UNIT16, x, y) {
      Load16Adds(x, y);
    }
  }

  lemma Bijective8()
    ensures Bijective(UNIT8)
  {
    forall a, b ensures StepApart(UNIT8, a, b) {
      Shift8Apart(a, b);
    }
    forall c, x, y ensures Cancels(UNIT8, c, x, y) {
      XorCancels8(c, x, y);
    }
  }

  lemma Bijective16()
    ensures Bijective(UNIT16)
  {
    forall a, b ensures StepApart(UNIT16, a, b) {
      Shift16Apart(a, b);
    }
    forall c, x, y ensures Cancels(UNIT16, c, x, y) {
      XorCancels16(c, x, y);
    }
    forall x, y ensures LoadApart(UNIT16, x, y) {
      WidenApart(x, y);
    }
  }

  lemma HighMovesDown(y: byte)
    ensures MovesDown(UNIT16, HighOctet16, y)
  {
    var w := (y as bv16) << 8;
    assert Iterate(UNIT16, w, 0) == w;
    EightShifts(y);
    assert Iterate(UNIT16, w, 1) == Shift16(w);
    assert Iterate(UNIT16, w, 2) == Shift16(Iterate(UNIT16, w, 1));
    assert Iterate(UNIT16, w, 3) == Shift16(Iterate(UNIT16, w, 2));
    assert Iterate(UNIT16, w, 4) == Shift16(Iterate(UNIT16, w, 3));
    assert Iterate(UNIT16, w, 5) == Shift16(Iterate(UNIT16, w, 4));
    assert Iterate(UNIT16, w, 6) == Shift16(Iterate(UNIT16, w, 5));
    assert Iterate(UNIT16, w, 7) == Shift16(Iterate(UNIT16, w, 6));
    assert Iterate(UNIT16, w, 8) == Shift16(Iterate(UNIT16, w, 7));
  }

  lemma TwoOctetsWide16()
    ensures TwoOctetsWide(UNIT16, HighOctet16)
  {
    Linear16();
    Bijective16();
    forall y ensures MovesDown(UNIT16, HighOctet16, y) {
      HighMovesDown(y);
    }
    forall x, y, v, w ensures WordApart(UNIT16, HighOctet16, x, y, v, w) {
      JoinApart(x, y, v, w);
    }
    forall c, x ensures SelfInverse(UNIT16, c, x) {
      XorZero16(c, x);
    }
  }

  // ----- Main results -----

  /** crc8 is the remainder of M(x) x^8 by x^8 + x^2 + x + 1, and no other value is. */
  lemma Crc8IsRemainder(data: bytes, r: bv8)
    ensures IsRemainder(Poly8(r), Shift(Message(UNIT8.octet, data), 8), [8, 2, 1, 0]) <==> r == Crc8(data)
  {
    Divides8();
    ChecksumCharacterized(UNIT8, data, r);
  }

  /** crc16 is the bit-reflected remainder of M(x) x^16 by x^16 + x^15 + x^2 + 1, and no other value is. */
  lemma Crc16IsRemainder(data: bytes, r: bv16)
    ensures IsRemainder(Poly16(r), Shift(Message(UNIT16.octet, data), 16), [16, 15, 2, 0]) <==> r == Crc16(data)
  {
    Divides16();
    ChecksumCharacterized(UNIT16, data, r);
  }

  lemma Crc8Linear(a: bytes, b: bytes)
    requires |a| == |b|
    ensures Crc8(Xor(a, b)) == Crc8(a) ^ Crc8(b)
  {
    Linear8();
    ChecksumLinear(UNIT8, a, b);
  }

  lemma Crc16Linear(a: bytes, b: bytes)
    requires |a| == |b|
    ensures Crc16(Xor(a, b)) == Crc16(a) ^ Crc16(b)
  {
    Linear16();
    ChecksumLinear(UNIT16, a, b);
  }

  /** Two messages of one length that differ in exactly one octet have different CRC-8 values. */
  lemma Crc8DetectsOneOctet(a: bytes, b: bytes, i: nat)
    requires |a| == |b| && i < |a| && a[i] != b[i]
    requires forall k :: 0 <= k < |a| && k != i ==> a[k] == b[k]
    ensures Crc8(a) != Crc8(b)
  {
    Bijective8();
    DetectsOneOctet(UNIT8, a, b, i);
  }

  /** Two messages of one length that differ only within two adjacent octets have different CRC-16 values. */
  lemma Crc16DetectsTwoOctets(a: bytes, b: bytes, i: nat)
    requires |a| == |b| && i + 1 < |a| && a != b
    requires forall k :: 0 <= k < |a| && k != i && k != i + 1 ==> a[k] == b[k]
    ensures Crc16(a) != Crc16(b)
  {
    TwoOctetsWide16();
    DetectsTwoOctets(UNIT16, HighOctet16, a, b, i);
  }

  /**
   A message followed by two octets passes the tail check exactly when the register, run over
   everything including the tail, ends at zero.
   */
  lemma Crc16Residue(data: bytes, lo: byte, hi: byte)
    ensures Crc16(data + [lo, hi]) == 0 <==> UnpackCrc(lo, hi) == Crc16(data)
  {
    TwoOctetsWide16();
    Residue(UNIT16, HighOctet16, data, lo, hi);
    JoinByXor(lo, hi);
  }
}
