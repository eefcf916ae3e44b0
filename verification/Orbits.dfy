/**
 Long runs of a shift register without input.  A linear register that meets a two-term recurrence at one
 point meets it everywhere and, coefficients being in GF(2), at every doubling, so that distant values
 come down to a few near ones.
 */
module Orbits {
  import opened Bytes
  import opened Crc
  import opened Registers
  import opened ShiftRegister

  // ----- any linear register -----

  ghost predicate RecursAt<R>(u: Unit<R>, r: R, a: nat, b: nat, n: nat) {
    Iterate(u, r, n + a) == u.add(Iterate(u, r, n + b), Iterate(u, r, n))
  }

  ghost predicate Recurs<R>(u: Unit<R>, r: R, a: nat, b: nat) {
    forall n :: RecursAt(u, r, a, b, n)
  }

  ghost predicate Folds<R>(u: Unit<R>, x: R, y: R, z: R) {
    u.add(u.add(x, y), u.add(y, z)) == u.add(x, z)
  }

  lemma {:induction false} RecursEverywhere<R(!new)>(u: Unit<R>, r: R, a: nat, b: nat, n: nat)
    requires Linear(u) && RecursAt(u, r, a, b, 0)
    ensures RecursAt(u, r, a, b, n)
  {
    if n > 0 {
      RecursEverywhere(u, r, a, b, n - 1);
      assert StepAdds(u, Iterate(u, r, n - 1 + b), Iterate(u, r, n - 1));
    }
  }

  lemma RecursDoubled<R(!new)>(u: Unit<R>, r: R, a: nat, b: nat)
    requires Recurs(u, r, a, b) && forall x, y, z :: Folds(u, x, y, z)
    ensures Recurs(u, r, 2 * a, 2 * b)
  {
    forall n: nat
      ensures RecursAt(u, r, 2 * a, 2 * b, n)
    {
      assert RecursAt(u, r, a, b, n + a) && RecursAt(u, r, a, b, n + b) && RecursAt(u, r, a, b, n);
      assert n + b + a == n + a + b && n + a + a == n + 2 * a && n + b + b == n + 2 * b;
      assert Folds(u, Iterate(u, r, n + 2 * b), Iterate(u, r, n + b), Iterate(u, r, n));
    }
  }

  lemma {:induction false} IteratePlus<R>(u: Unit<R>, r: R, m: nat, n: nat)
    ensures Iterate(u, Iterate(u, r, m), n) == Iterate(u, r, m + n)
  {
    if n > 0 {
      IteratePlus(u, r, m, n - 1);
    }
  }

  /** Next to a register that runs on by itself, an octet is absorbed as if it were not there. */
  lemma AbsorbBeside<R(!new)>(u: Unit<R>, r: R, n: nat, s: R, c: byte)
    requires Linear(u)
    ensures Absorb(u, u.add(Iterate(u, r, n), s), c) == u.add(Iterate(u, r, n + 8), Absorb(u, s, c))
  {
    assert Associates(u, Iterate(u, r, n), s, u.load(c));
    IterateLinear(u, Iterate(u, r, n), u.add(s, u.load(c)), 8);
    IteratePlus(u, r, n, 8);
  }

  /** What a leading octet contributes to a checksum is the octet alone, run on for the rest of the message. */
  lemma {:induction false} LeadingOctet<R(!new)>(u: Unit<R>, b: byte, data: bytes)
    requires Linear(u) && forall x :: Neutral(u, x)
    ensures Checksum(u, [b] + data) == u.add(Iterate(u, u.load(b), 8 * (|data| + 1)), Checksum(u, data))
    decreases |data|
  {
    if data == [] {
      assert [b] + data == [] + [b];
      ChecksumSnoc(u, [], b);
      assert Neutral(u, u.load(b)) && Commutes(u, u.zero, Iterate(u, u.load(b), 8));
      assert Neutral(u, Iterate(u, u.load(b), 8));
    } else {
      var init, c := data[..|data| - 1], data[|data| - 1];
      assert [b] + data == ([b] + init) + [c];
      LeadingOctet(u, b, init);
      ChecksumSnoc(u, [b] + init, c);
      AbsorbBeside(u, u.load(b), 8 * |data|, Checksum(u, init), c);
    }
  }

  /**
   A message that ends at zero, moved one octet along behind a new leading octet, ends at zero again just
   when that octet, run on, becomes the octet pushed out.
   */
  lemma MovedAlong<R(!new)>(u: Unit<R>, b: byte, data: bytes, last: byte)
    requires Linear(u) && Bijective(u) && u.step(u.zero) == u.zero
    requires (forall x :: Neutral(u, x)) && forall c, x :: SelfInverse(u, c, x)
    requires Checksum(u, data + [last]) == u.zero
    ensures Checksum(u, [b] + data) == u.zero <==> Iterate(u, u.load(b), 8 * (|data| + 1)) == u.load(last)
  {
    var s := Checksum(u, data);
    ChecksumSnoc(u, data, last);
    IterateZero(u, u.add(s, u.load(last)), 8);
    assert SelfInverse(u, s, u.load(last));
    LeadingOctet(u, b, data);
    assert SelfInverse(u, Iterate(u, u.load(b), 8 * (|data| + 1)), s);
  }

  // ----- the CRC-16 register, started at 5A -----

  function Orbit(n: nat): bv16 {
    Iterate(UNIT16, 0x005A, n)
  }

  lemma FifteenShifts()
    ensures Shift16(0x005A) == 0x002D
         && Shift16(0x002D) == 0xA017
         && Shift16(0xA017) == 0xF00A
         && Shift16(0xF00A) == 0x7805
         && Shift16(0x7805) == 0x9C03
    ensures Shift16(0x9C03) == 0xEE00
         && Shift16(0xEE00) == 0x7700
         && Shift16(0x7700) == 0x3B80
         && Shift16(0x3B80) == 0x1DC0
         && Shift16(0x1DC0) == 0x0EE0
    ensures Shift16(0x0EE0) == 0x0770
         && Shift16(0x0770) == 0x03B8
         && Shift16(0x03B8) == 0x01DC
         && Shift16(0x01DC) == 0x00EE
         && Shift16(0x00EE) == 0x0077
  {
  }

  lemma OrbitNext(n: nat, r: bv16)
    requires Orbit(n) == r
    ensures Orbit(n + 1) == Shift16(r)
  {
  }

  lemma OrbitStarts()
    ensures Orbit(0) == 0x005A && Orbit(1) == 0x002D && Orbit(2) == 0xA017 && Orbit(8) == 0x3B80
    ensures Orbit(13) == 0x01DC && Orbit(14) == 0x00EE && Orbit(15) == 0x0077
  {
    FifteenShifts();
    OrbitNext(0, 0x005A);
    OrbitNext(1, 0x002D);
    OrbitNext(2, 0xA017);
    OrbitNext(3, 0xF00A);
    OrbitNext(4, 0x7805);
    OrbitNext(5, 0x9C03);
    OrbitNext(6, 0xEE00);
    OrbitNext(7, 0x7700);
    OrbitNext(8, 0x3B80);
    OrbitNext(9, 0x1DC0);
    OrbitNext(10, 0x0EE0);
    OrbitNext(11, 0x0770);
    OrbitNext(12, 0x03B8);
    OrbitNext(13, 0x01DC);
    OrbitNext(14, 0x00EE);
  }

  lemma Folds16(x: bv16, y: bv16, z: bv16)
    ensures Xor16(Xor16(x, y), Xor16(y, z)) == Xor16(x, z)
  {
  }

  lemma OrbitRecurs()
    ensures Recurs(UNIT16, 0x005A, 15, 1)
  {
    OrbitStarts();
    Linear16();
    assert Xor16(0x002D, 0x005A) == 0x0077;
    assert RecursAt(UNIT16, 0x005A, 15, 1, 0);
    forall n: nat ensures RecursAt(UNIT16, 0x005A, 15, 1, n) {
      RecursEverywhere(UNIT16, 0x005A, 15, 1, n);
    }
  }

  lemma Doubled16(a: nat, b: nat)
    requires Recurs(UNIT16, 0x005A, a, b)
    ensures Recurs(UNIT16, 0x005A, 2 * a, 2 * b)
  {
    forall x, y, z ensures Folds(UNIT16, x, y, z) {
      Folds16(x, y, z);
    }
    RecursDoubled(UNIT16, 0x005A, a, b);
  }

  lemma OrbitDoublings()
    ensures Recurs(UNIT16, 0x005A, 15, 1) && Recurs(UNIT16, 0x005A, 30, 2) && Recurs(UNIT16, 0x005A, 60, 4)
    ensures Recurs(UNIT16, 0x005A, 120, 8) && Recurs(UNIT16, 0x005A, 240, 16)
    ensures Recurs(UNIT16, 0x005A, 1920, 128)
  {
    OrbitRecurs();
    Doubled16(15, 1);
    Doubled16(30, 2);
    Doubled16(60, 4);
    Doubled16(120, 8);
    Doubled16(240, 16);
    Doubled16(480, 32);
    Doubled16(960, 64);
  }

  lemma OrbitAt(a: nat, b: nat, n: nat)
    requires Recurs(UNIT16, 0x005A, a, b)
    ensures Orbit(n + a) == Xor16(Orbit(n + b), Orbit(n))
  {
    assert RecursAt(UNIT16, 0x005A, a, b, n);
  }

  /** 263 octets later. */
  lemma OrbitFarOut()
    ensures Orbit(2104) == 0x9AA5
  {
    OrbitStarts();
    OrbitDoublings();
    OrbitAt(1920, 128, 184);
    OrbitAt(240, 16, 72);
    OrbitAt(120, 8, 64);
    OrbitAt(60, 4, 28);
    OrbitAt(60, 4, 4);
    OrbitAt(30, 2, 2);
    OrbitAt(15, 1, 13);
    FarOut(Orbit(72), Orbit(4));
  }

  lemma FarOut(m: bv16, q: bv16)
    ensures var s64, s28, s32 := Xor16(0x3B80, q), Xor16(0x00EE, 0x01DC), Xor16(q, 0xA017);
            var s312, s184 := Xor16(Xor16(s32, s28), m), Xor16(m, s64);
            Xor16(s312, s184) == 0x9AA5
  {
  }

  lemma HighOctetIsClear(b: byte)
    ensures Octet16(b) != 0x9AA5
  {
  }

  /** 262 octets and a last one that together end at zero do not end at zero when moved behind an octet 5A. */
  lemma MovedFrameFails(data: bytes, last: byte)
    requires |data| == 262 && Crc16(data + [last]) == 0
    ensures Crc16([0x5A] + data) != 0
  {
    Linear16();
    Bijective16();
    Laws16();
    MovedAlong(UNIT16, 0x5A, data, last);
    OrbitFarOut();
    HighOctetIsClear(last);
    FirstOctet();
  }

  lemma FirstOctet()
    ensures Octet16(0x5A) == 0x005A
  {
  }

  lemma Laws16()
    ensures UNIT16.step(UNIT16.zero) == UNIT16.zero
    ensures forall x :: Neutral(UNIT16, x)
    ensures forall c, x :: SelfInverse(UNIT16, c, x)
  {
    forall x ensures Neutral(UNIT16, x) {
      XorNeutral16(x);
    }
    forall c, x ensures SelfInverse(UNIT16, c, x) {
      XorZero16(c, x);
    }
  }
}
