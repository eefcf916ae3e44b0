/**
 Linear feedback shift registers of any width, fed one octet at a time.  The results hold for every
 register whose step multiplies by x modulo its generator, and are instantiated for the two checksums
 in module Crc.
 */
module ShiftRegister {
  import opened Bytes
  import opened Gf2

  /** How a register of type R steps, absorbs an octet, and reads as a polynomial. */
  datatype Unit<!R> = Unit(
    step: R -> R,
    add: (R, R) -> R,
    load: byte -> R,
    zero: R,
    poly: R -> Poly,
    octet: byte -> Poly,
    width: nat,
    generator: seq<nat>)

  function Iterate<R>(u: Unit<R>, r: R, n: nat): R {
    if n == 0 then r else u.step(Iterate(u, r, n - 1))
  }

  /** The register after `b` has been absorbed by the register `c`. */
  function Absorb<R>(u: Unit<R>, c: R, b: byte): R {
    Iterate(u, u.add(c, u.load(b)), 8)
  }

  function Checksum<R>(u: Unit<R>, data: bytes): R {
    if data == [] then u.zero
    else Absorb(u, Checksum(u, data[..|data| - 1]), data[|data| - 1])
  }

  lemma ChecksumSnoc<R>(u: Unit<R>, init: bytes, b: byte)
    ensures Checksum(u, init + [b]) == Absorb(u, Checksum(u, init), b)
  {
    assert (init + [b])[..|init|] == init;
  }

  // ----- what a register must satisfy, one named law at a time -----

  ghost predicate Associates<R>(u: Unit<R>, a: R, b: R, c: R) {
    u.add(u.add(a, b), c) == u.add(a, u.add(b, c))
  }

  ghost predicate Commutes<R>(u: Unit<R>, a: R, b: R) {
    u.add(a, b) == u.add(b, a)
  }

  ghost predicate Cancels<R>(u: Unit<R>, c: R, x: R, y: R) {
    && (u.add(c, x) == u.add(c, y) ==> x == y)
    && (u.add(x, c) == u.add(y, c) ==> x == y)
  }

  ghost predicate SelfInverse<R>(u: Unit<R>, c: R, x: R) {
    u.add(c, x) == u.zero <==> c == x
  }

  ghost predicate StepAdds<R>(u: Unit<R>, a: R, b: R) {
    u.step(u.add(a, b)) == u.add(u.step(a), u.step(b))
  }

  ghost predicate LoadAdds<R>(u: Unit<R>, x: byte, y: byte) {
    u.load(x ^ y) == u.add(u.load(x), u.load(y))
  }

  ghost predicate StepApart<R>(u: Unit<R>, a: R, b: R) {
    u.step(a) == u.step(b) ==> a == b
  }

  ghost predicate LoadApart<R>(u: Unit<R>, x: byte, y: byte) {
    u.load(x) == u.load(y) ==> x == y
  }

  ghost predicate Linear<R(!new)>(u: Unit<R>) {
    && (forall a, b, c :: Associates(u, a, b, c))
    && (forall a, b :: Commutes(u, a, b))
    && (forall a, b :: StepAdds(u, a, b))
    && (forall x, y :: LoadAdds(u, x, y))
    && u.add(u.zero, u.zero) == u.zero
  }

  ghost predicate Bijective<R(!new)>(u: Unit<R>) {
    && (forall c, x, y :: Cancels(u, c, x, y))
    && (forall a, b :: StepApart(u, a, b))
    && (forall x, y :: LoadApart(u, x, y))
  }

  ghost predicate StepDivides<R>(u: Unit<R>, r: R) {
    && DegreeBelow(u.poly(r), u.width)
    && Congruent(Shift(u.poly(r), 1), u.poly(u.step(r)), u.generator)
  }

  ghost predicate AddIsSum<R>(u: Unit<R>, a: R, b: R) {
    u.poly(u.add(a, b)) == Add(u.poly(a), u.poly(b))
  }

  ghost predicate LoadIsOctet<R>(u: Unit<R>, b: byte)
    requires u.width >= 8
  {
    && u.poly(u.load(b)) == Shift(u.octet(b), u.width - 8)
    && DegreeBelow(u.octet(b), 8)
  }

  ghost predicate PolyApart<R>(u: Unit<R>, a: R, b: R) {
    u.poly(a) == u.poly(b) ==> a == b
  }

  /** The register computes in the ring of polynomials modulo its generator. */
  ghost predicate Divides<R(!new)>(u: Unit<R>) {
    && Leading(u.generator) && u.generator[0] == u.width >= 8
    && (forall r :: StepDivides(u, r))
    && (forall a, b :: AddIsSum(u, a, b))
    && (forall b :: LoadIsOctet(u, b))
    && (forall a, b :: PolyApart(u, a, b))
    && u.poly(u.zero) == {}
  }

  // ----- the message as a polynomial -----

  /** The term x^e occurs in the message: octets are read with the first one leading. */
  predicate Term(octet: byte -> Poly, data: bytes, e: nat) {
    e < 8 * |data| && e % 8 in octet(data[|data| - 1 - e / 8])
  }

  function Message(octet: byte -> Poly, data: bytes): Poly {
    set e: nat | e < 8 * |data| && Term(octet, data, e)
  }

  lemma MessageSnoc(octet: byte -> Poly, init: bytes, b: byte)
    requires DegreeBelow(octet(b), 8)
    ensures Message(octet, init + [b]) == Add(Shift(Message(octet, init), 8), octet(b))
  {
    var data := init + [b];
    forall e: nat
      ensures e in Message(octet, data) <==> e in Add(Shift(Message(octet, init), 8), octet(b))
    {
      if 8 <= e < 8 * |data| {
        assert (e - 8) / 8 == e / 8 - 1 && (e - 8) % 8 == e % 8;
        assert data[|data| - 1 - e / 8] == init[|init| - 1 - (e - 8) / 8];
      }
    }
  }

  // ----- division -----

  lemma {:induction false} IteratePoly<R(!new)>(u: Unit<R>, r: R, n: nat)
    requires Divides(u)
    ensures Congruent(Shift(u.poly(r), n), u.poly(Iterate(u, r, n)), u.generator)
  {
    if n == 0 {
      assert Shift(u.poly(r), 0) == u.poly(r);
      CongruentReflexive(u.poly(r), u.generator);
    } else {
      var s := Iterate(u, r, n - 1);
      IteratePoly(u, r, n - 1);
      assert StepDivides(u, s);
      CongruentStep(u.poly(r), n, u.poly(s), u.poly(u.step(s)), u.generator);
    }
  }

  /** Absorbing an octet appends it to the message polynomial. */
  lemma AbsorbPoly<R(!new)>(u: Unit<R>, init: Poly, c: R, b: byte)
    requires Divides(u)
    requires Congruent(Shift(init, u.width), u.poly(c), u.generator)
    ensures Congruent(Shift(Add(Shift(init, 8), u.octet(b)), u.width), u.poly(Absorb(u, c, b)), u.generator)
  {
    var r := u.add(c, u.load(b));
    assert LoadIsOctet(u, b) && AddIsSum(u, c, u.load(b));
    IteratePoly(u, r, 8);
    FeedAndReduce(init, u.octet(b), u.poly(c), u.poly(r), u.poly(Iterate(u, r, 8)), u.width, u.generator);
  }

  /** The register ends on the remainder of M(x) x^width by the generator, for messages of any length. */
  lemma {:induction false} ChecksumIsRemainder<R(!new)>(u: Unit<R>, data: bytes)
    requires Divides(u)
    ensures IsRemainder(u.poly(Checksum(u, data)), Shift(Message(u.octet, data), u.width), u.generator)
  {
    assert StepDivides(u, Checksum(u, data));
    if data == [] {
      assert Shift(Message(u.octet, data), u.width) == {};
      CongruentReflexive({}, u.generator);
    } else {
      var init, b := data[..|data| - 1], data[|data| - 1];
      ChecksumIsRemainder(u, init);
      assert data == init + [b];
      assert LoadIsOctet(u, b);
      MessageSnoc(u.octet, init, b);
      AbsorbPoly(u, Message(u.octet, init), Checksum(u, init), b);
    }
  }

  /** No other register value is that remainder. */
  lemma ChecksumCharacterized<R(!new)>(u: Unit<R>, data: bytes, r: R)
    requires Divides(u)
    ensures IsRemainder(u.poly(r), Shift(Message(u.octet, data), u.width), u.generator) <==> r == Checksum(u, data)
  {
    var a := Shift(Message(u.octet, data), u.width);
    ChecksumIsRemainder(u, data);
    if IsRemainder(u.poly(r), a, u.generator) {
      RemainderUnique(u.poly(r), u.poly(Checksum(u, data)), a, u.generator);
      assert PolyApart(u, r, Checksum(u, data));
    }
  }

  // ----- linearity -----

  ghost predicate HalfAdds<R>(u: Unit<R>, half: R -> R, a: R, b: R) {
    half(u.add(a, b)) == u.add(half(a), half(b))
  }

  ghost predicate OutAdds<R>(u: Unit<R>, out: R -> bool, a: R, b: R) {
    out(u.add(a, b)) == (out(a) != out(b))
  }

  ghost predicate StepFeeds<R>(u: Unit<R>, half: R -> R, out: R -> bool, k: R, a: R) {
    u.step(a) == if out(a) then u.add(half(a), k) else half(a)
  }

  ghost predicate Neutral<R>(u: Unit<R>, a: R) {
    u.add(u.zero, a) == a
  }

  /** The step moves the register by one bit and adds k when a bit drops out. */
  ghost predicate Feedback<R(!new)>(u: Unit<R>, half: R -> R, out: R -> bool, k: R) {
    && (forall a, b, c :: Associates(u, a, b, c))
    && (forall a, b :: Commutes(u, a, b))
    && (forall a :: Neutral(u, a))
    && (forall a, b :: HalfAdds(u, half, a, b))
    && (forall a, b :: OutAdds(u, out, a, b))
    && (forall a :: StepFeeds(u, half, out, k, a))
    && u.add(k, k) == u.zero
  }

  lemma FeedbackAdds<R(!new)>(u: Unit<R>, half: R -> R, out: R -> bool, k: R, a: R, b: R)
    requires Feedback(u, half, out, k)
    ensures StepAdds(u, a, b)
  {
    var s, t := half(a), half(b);
    assert StepFeeds(u, half, out, k, a) && StepFeeds(u, half, out, k, b);
    assert StepFeeds(u, half, out, k, u.add(a, b)) && HalfAdds(u, half, a, b) && OutAdds(u, out, a, b);
    assert u.add(u.add(s, k), t) == u.add(u.add(s, t), k) == u.add(s, u.add(t, k)) by {
      assert Associates(u, s, k, t) && Associates(u, s, t, k) && Commutes(u, k, t);
    }
    assert u.add(u.add(s, k), u.add(t, k)) == u.add(s, t) by {
      assert Associates(u, s, k, u.add(t, k)) && Commutes(u, t, k) && Associates(u, k, k, t) && Neutral(u, t);
    }
  }

  lemma {:induction false} IterateLinear<R(!new)>(u: Unit<R>, a: R, b: R, n: nat)
    requires Linear(u)
    ensures Iterate(u, u.add(a, b), n) == u.add(Iterate(u, a, n), Iterate(u, b, n))
  {
    if n != 0 {
      IterateLinear(u, a, b, n - 1);
      assert StepAdds(u, Iterate(u, a, n - 1), Iterate(u, b, n - 1));
    }
  }

  lemma Regroup<R(!new)>(u: Unit<R>, c: R, d: R, x: R, y: R)
    requires Linear(u)
    ensures u.add(u.add(c, d), u.add(x, y)) == u.add(u.add(c, x), u.add(d, y))
  {
    assert Associates(u, c, d, u.add(x, y)) && Associates(u, d, x, y) && Commutes(u, d, x);
    assert Associates(u, x, d, y) && Associates(u, c, x, u.add(d, y));
  }

  lemma AbsorbLinear<R(!new)>(u: Unit<R>, c: R, d: R, x: byte, y: byte)
    requires Linear(u)
    ensures Absorb(u, u.add(c, d), x ^ y) == u.add(Absorb(u, c, x), Absorb(u, d, y))
  {
    assert LoadAdds(u, x, y);
    Regroup(u, c, d, u.load(x), u.load(y));
    IterateLinear(u, u.add(c, u.load(x)), u.add(d, u.load(y)), 8);
  }

  /** Checksums of messages of one length add up. */
  lemma {:induction false} ChecksumLinear<R(!new)>(u: Unit<R>, a: bytes, b: bytes)
    requires Linear(u) && |a| == |b|
    ensures Checksum(u, Xor(a, b)) == u.add(Checksum(u, a), Checksum(u, b))
  {
    if a != [] {
      var n := |a| - 1;
      ChecksumLinear(u, a[..n], b[..n]);
      assert Xor(a, b)[..n] == Xor(a[..n], b[..n]);
      AbsorbLinear(u, Checksum(u, a[..n]), Checksum(u, b[..n]), a[n], b[n]);
    }
  }

  // ----- detection -----

  /** The update for any number of steps is a bijection on the register. */
  lemma {:induction false} IterateApart<R(!new)>(u: Unit<R>, a: R, b: R, n: nat)
    requires Bijective(u) && a != b
    ensures Iterate(u, a, n) != Iterate(u, b, n)
  {
    if n != 0 {
      IterateApart(u, a, b, n - 1);
      assert StepApart(u, Iterate(u, a, n - 1), Iterate(u, b, n - 1));
    }
  }

  /** Distinct registers stay distinct under one octet; distinct octets separate one register. */
  lemma AbsorbApart<R(!new)>(u: Unit<R>, c: R, d: R, x: byte, y: byte)
    requires Bijective(u)
    requires (c != d && x == y) || (c == d && x != y)
    ensures Absorb(u, c, x) != Absorb(u, d, y)
  {
    assert Cancels(u, u.load(x), c, d) && Cancels(u, c, u.load(x), u.load(y)) && LoadApart(u, x, y);
    IterateApart(u, u.add(c, u.load(x)), u.add(d, u.load(y)), 8);
  }

  /** Two registers that differ are never brought together again by a common continuation. */
  lemma {:induction false} StaysApart<R(!new)>(u: Unit<R>, a: bytes, b: bytes, rest: bytes)
    requires Bijective(u) && Checksum(u, a) != Checksum(u, b)
    ensures Checksum(u, a + rest) != Checksum(u, b + rest)
  {
    if rest == [] {
      assert a + rest == a && b + rest == b;
    } else {
      var init, x := rest[..|rest| - 1], rest[|rest| - 1];
      var p, q := a + init, b + init;
      StaysApart(u, a, b, init);
      AbsorbApart(u, Checksum(u, p), Checksum(u, q), x, x);
      assert a + rest == p + [x] && b + rest == q + [x];
      ChecksumSnoc(u, p, x);
      ChecksumSnoc(u, q, x);
    }
  }

  /** A change confined to one octet changes the checksum, whatever the length. */
  lemma DetectsOneOctet<R(!new)>(u: Unit<R>, a: bytes, b: bytes, i: nat)
    requires Bijective(u)
    requires |a| == |b| && i < |a| && a[i] != b[i]
    requires forall k :: 0 <= k < |a| && k != i ==> a[k] == b[k]
    ensures Checksum(u, a) != Checksum(u, b)
  {
    var p, rest := a[..i], a[i + 1..];
    assert a == p + [a[i]] + rest && b == p + [b[i]] + rest;
    ChecksumSnoc(u, p, a[i]);
    ChecksumSnoc(u, p, b[i]);
    AbsorbApart(u, Checksum(u, p), Checksum(u, p), a[i], b[i]);
    StaysApart(u, p + [a[i]], p + [b[i]], rest);
  }

  // ----- registers of two octets -----

  /** Eight steps bring an octet placed by `high` to where `load` puts the next one. */
  ghost predicate MovesDown<R>(u: Unit<R>, high: byte -> R, y: byte) {
    Iterate(u, high(y), 8) == u.load(y)
  }

  function Word<R>(u: Unit<R>, high: byte -> R, x: byte, y: byte): R {
    u.add(u.load(x), high(y))
  }

  ghost predicate WordApart<R>(u: Unit<R>, high: byte -> R, x: byte, y: byte, v: byte, w: byte) {
    Word(u, high, x, y) == Word(u, high, v, w) ==> x == v && y == w
  }

  ghost predicate TwoOctetsWide<R(!new)>(u: Unit<R>, high: byte -> R) {
    && Linear(u) && Bijective(u)
    && (forall y :: MovesDown(u, high, y))
    && (forall x, y, v, w :: WordApart(u, high, x, y, v, w))
    && (forall c, x :: SelfInverse(u, c, x))
    && u.step(u.zero) == u.zero
  }

  /** Absorbing two octets is absorbing the word they form. */
  lemma AbsorbPair<R(!new)>(u: Unit<R>, high: byte -> R, c: R, x: byte, y: byte)
    requires TwoOctetsWide(u, high)
    ensures Absorb(u, Absorb(u, c, x), y) == Iterate(u, Iterate(u, u.add(c, Word(u, high, x, y)), 8), 8)
  {
    assert MovesDown(u, high, y) && Associates(u, c, u.load(x), high(y));
    IterateLinear(u, u.add(c, u.load(x)), high(y), 8);
  }

  lemma ChecksumPair<R(!new)>(u: Unit<R>, high: byte -> R, p: bytes, x: byte, y: byte)
    requires TwoOctetsWide(u, high)
    ensures Checksum(u, p + [x, y]) == Iterate(u, Iterate(u, u.add(Checksum(u, p), Word(u, high, x, y)), 8), 8)
  {
    assert p + [x, y] == (p + [x]) + [y];
    ChecksumSnoc(u, p, x);
    ChecksumSnoc(u, p + [x], y);
    AbsorbPair(u, high, Checksum(u, p), x, y);
  }

  lemma PairApart<R(!new)>(u: Unit<R>, high: byte -> R, p: bytes, x: byte, y: byte, v: byte, w: byte)
    requires TwoOctetsWide(u, high)
    requires x != v || y != w
    ensures Checksum(u, p + [x, y]) != Checksum(u, p + [v, w])
  {
    var c, s, t := Checksum(u, p), Word(u, high, x, y), Word(u, high, v, w);
    ChecksumPair(u, high, p, x, y);
    ChecksumPair(u, high, p, v, w);
    assert WordApart(u, high, x, y, v, w) && Cancels(u, c, s, t);
    IterateApart(u, u.add(c, s), u.add(c, t), 8);
    IterateApart(u, Iterate(u, u.add(c, s), 8), Iterate(u, u.add(c, t), 8), 8);
  }

  /** A change confined to two adjacent octets changes the checksum, whatever the length. */
  lemma DetectsTwoOctets<R(!new)>(u: Unit<R>, high: byte -> R, a: bytes, b: bytes, i: nat)
    requires TwoOctetsWide(u, high)
    requires |a| == |b| && i + 1 < |a| && a != b
    requires forall k :: 0 <= k < |a| && k != i && k != i + 1 ==> a[k] == b[k]
    ensures Checksum(u, a) != Checksum(u, b)
  {
    var p, rest := a[..i], a[i + 2..];
    assert a == p + [a[i], a[i + 1]] + rest && b == p + [b[i], b[i + 1]] + rest;
    PairApart(u, high, p, a[i], a[i + 1], b[i], b[i + 1]);
    StaysApart(u, p + [a[i], a[i + 1]], p + [b[i], b[i + 1]], rest);
  }

  lemma {:induction false} IterateZero<R(!new)>(u: Unit<R>, r: R, n: nat)
    requires Bijective(u) && u.step(u.zero) == u.zero
    ensures Iterate(u, r, n) == u.zero <==> r == u.zero
  {
    if n != 0 {
      IterateZero(u, r, n - 1);
      assert StepApart(u, Iterate(u, r, n - 1), u.zero);
    }
  }

  /** The register ends at zero exactly when the last two octets are the checksum of the rest. */
  lemma Residue<R(!new)>(u: Unit<R>, high: byte -> R, p: bytes, x: byte, y: byte)
    requires TwoOctetsWide(u, high)
    ensures Checksum(u, p + [x, y]) == u.zero <==> Checksum(u, p) == Word(u, high, x, y)
  {
    var c, s := Checksum(u, p), Word(u, high, x, y);
    ChecksumPair(u, high, p, x, y);
    IterateZero(u, Iterate(u, u.add(c, s), 8), 8);
    IterateZero(u, u.add(c, s), 8);
    assert SelfInverse(u, c, s);
  }
}
