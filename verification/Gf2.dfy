/**
 Polynomials over the two-element field, written as the finite set of exponents whose coefficient
 is one.  Division with remainder by a fixed generator is what both checksums of the PowerStream
 protocol are meant to compute; here it is defined without reference to any shift register.
 */
module Gf2 {

  type Poly = set<nat>

  /** Sum, which is also difference. */
  function Add(a: Poly, b: Poly): (r: Poly)
    ensures forall e: nat :: e in r <==> (e in a) != (e in b)
  {
    (a - b) + (b - a)
  }

  /** Product with the monomial x^k. */
  function Shift(p: Poly, k: nat): (r: Poly)
    ensures forall e: nat :: e in r <==> e >= k && e - k in p
  {
    var r := set e | e in p :: e + k;
    assert forall e: nat | e >= k && e - k in p :: e in r by {
      forall e: nat | e >= k && e - k in p
        ensures e in r
      {
        ShiftReaches(p, k, r, e);
      }
    }
    r
  }

  lemma ShiftReaches(p: Poly, k: nat, r: Poly, e: nat)
    requires r == set d | d in p :: d + k
    requires e >= k && e - k in p
    ensures e in r
  {
    var d: nat := e - k;
    assert d + k == e;
  }

  /** Product of q with the polynomial whose exponents are listed in g. */
  function Mul(q: Poly, g: seq<nat>): Poly {
    if g == [] then {} else Add(Shift(q, g[0]), Mul(q, g[1..]))
  }

  /** a and b differ by a multiple of g. */
  ghost predicate Congruent(a: Poly, b: Poly, g: seq<nat>) {
    exists q: Poly :: a == Add(Mul(q, g), b)
  }

  /** r is the remainder of a modulo g: congruent to a and of smaller degree than g. */
  ghost predicate IsRemainder(r: Poly, a: Poly, g: seq<nat>)
    requires g != []
  {
    Congruent(a, r, g) && DegreeBelow(r, g[0])
  }

  ghost predicate DegreeBelow(p: Poly, n: nat) {
    forall e :: e in p ==> e < n
  }

  /** The exponents of a generator are listed leading one first. */
  ghost predicate Leading(g: seq<nat>) {
    g != [] && forall i :: 1 <= i < |g| ==> g[i] < g[0]
  }

  lemma ShiftAdd(a: Poly, b: Poly, k: nat)
    ensures Shift(Add(a, b), k) == Add(Shift(a, k), Shift(b, k))
  {
  }

  lemma ShiftShift(a: Poly, j: nat, k: nat)
    ensures Shift(Shift(a, j), k) == Shift(a, j + k)
  {
  }

  lemma {:induction false} MulAdd(p: Poly, q: Poly, g: seq<nat>)
    ensures Mul(Add(p, q), g) == Add(Mul(p, g), Mul(q, g))
  {
    if g != [] {
      MulAdd(p, q, g[1..]);
      ShiftAdd(p, q, g[0]);
    }
  }

  lemma {:induction false} MulShift(q: Poly, k: nat, g: seq<nat>)
    ensures Mul(Shift(q, k), g) == Shift(Mul(q, g), k)
  {
    if g != [] {
      MulShift(q, k, g[1..]);
      ShiftAdd(Shift(q, g[0]), Mul(q, g[1..]), k);
      ShiftShift(q, k, g[0]);
      ShiftShift(q, g[0], k);
    }
  }

  lemma {:induction false} MulZero(g: seq<nat>)
    ensures Mul({}, g) == {}
  {
    if g != [] {
      MulZero(g[1..]);
    }
  }

  lemma CongruentReflexive(a: Poly, g: seq<nat>)
    ensures Congruent(a, a, g)
  {
    MulZero(g);
    assert a == Add(Mul({}, g), a);
  }

  lemma CongruentTransitive(a: Poly, b: Poly, c: Poly, g: seq<nat>)
    requires Congruent(a, b, g) && Congruent(b, c, g)
    ensures Congruent(a, c, g)
  {
    var p :| a == Add(Mul(p, g), b);
    var q :| b == Add(Mul(q, g), c);
    MulAdd(p, q, g);
    assert a == Add(Mul(Add(p, q), g), c);
  }

  lemma CongruentShift(a: Poly, b: Poly, k: nat, g: seq<nat>)
    requires Congruent(a, b, g)
    ensures Congruent(Shift(a, k), Shift(b, k), g)
  {
    var q :| a == Add(Mul(q, g), b);
    MulShift(q, k, g);
    ShiftAdd(Mul(q, g), b, k);
    assert Shift(a, k) == Add(Mul(Shift(q, k), g), Shift(b, k));
  }

  lemma CongruentAdd(a: Poly, b: Poly, c: Poly, g: seq<nat>)
    requires Congruent(a, b, g)
    ensures Congruent(Add(a, c), Add(b, c), g)
  {
    var q :| a == Add(Mul(q, g), b);
    assert Add(a, c) == Add(Mul(q, g), Add(b, c));
  }

  /** One step of long division: a leading term is traded for the rest of the generator. */
  lemma ReduceOnce(a: Poly, kept: Poly, rest: Poly, lead: nat, g: seq<nat>)
    requires a == Add(kept, {lead})
    requires Mul({0}, g) == Add({lead}, rest)
    ensures Congruent(a, Add(kept, rest), g)
  {
    assert a == Add(Mul({0}, g), Add(kept, rest));
  }

  lemma CongruentStep(a: Poly, n: nat, p: Poly, q: Poly, g: seq<nat>)
    requires n >= 1
    requires Congruent(Shift(a, n - 1), p, g) && Congruent(Shift(p, 1), q, g)
    ensures Congruent(Shift(a, n), q, g)
  {
    CongruentShift(Shift(a, n - 1), p, 1, g);
    ShiftShift(a, n - 1, 1);
    CongruentTransitive(Shift(a, n), Shift(p, 1), q, g);
  }

  /** Appending the octet m to a message whose remainder is c, in a register of n bits. */
  lemma FeedOctet(init: Poly, m: Poly, c: Poly, n: nat, g: seq<nat>)
    requires n >= 8
    requires Congruent(Shift(init, n), c, g)
    ensures Congruent(Shift(Add(Shift(init, 8), m), n), Shift(Add(c, Shift(m, n - 8)), 8), g)
  {
    var k := n - 8;
    var a, b := Add(Shift(init, n), Shift(m, k)), Add(c, Shift(m, k));
    CongruentAdd(Shift(init, n), c, Shift(m, k), g);
    CongruentShift(a, b, 8, g);
    AppendOctet(init, m, k);
  }

  /** ... and reducing what comes out further. */
  lemma FeedAndReduce(init: Poly, m: Poly, c: Poly, r: Poly, out: Poly, n: nat, g: seq<nat>)
    requires n >= 8
    requires Congruent(Shift(init, n), c, g)
    requires r == Add(c, Shift(m, n - 8)) && Congruent(Shift(r, 8), out, g)
    ensures Congruent(Shift(Add(Shift(init, 8), m), n), out, g)
  {
    FeedOctet(init, m, c, n, g);
    CongruentTransitive(Shift(Add(Shift(init, 8), m), n), Shift(r, 8), out, g);
  }

  lemma AppendOctet(init: Poly, m: Poly, k: nat)
    ensures Shift(Add(Shift(init, k + 8), Shift(m, k)), 8) == Shift(Add(Shift(init, 8), m), k + 8)
  {
    ShiftAdd(Shift(init, k + 8), Shift(m, k), 8);
    ShiftAdd(Shift(init, 8), m, k + 8);
    ShiftShift(init, k + 8, 8);
    ShiftShift(init, 8, k + 8);
    ShiftShift(m, k, 8);
  }

  lemma {:induction false} MulDegree(q: Poly, m: nat, n: nat, g: seq<nat>)
    requires forall e :: e in q ==> e <= m
    requires forall i :: 0 <= i < |g| ==> g[i] < n
    ensures DegreeBelow(Mul(q, g), m + n)
  {
    if g != [] {
      MulDegree(q, m, n, g[1..]);
    }
  }

  lemma {:induction false} MaxExponent(q: Poly) returns (m: nat)
    requires q != {}
    ensures m in q && forall e :: e in q ==> e <= m
    decreases q
  {
    var d :| d in q;
    if q == {d} {
      m := d;
    } else {
      var k := MaxExponent(q - {d});
      m := if k > d then k else d;
      assert forall e :: e in q ==> e == d || e in q - {d};
    }
  }

  /** A nonzero multiple of g has at least the degree of g. */
  lemma MultipleHasDegree(q: Poly, g: seq<nat>)
    requires Leading(g) && q != {}
    ensures !DegreeBelow(Mul(q, g), g[0])
  {
    var m := MaxExponent(q);
    MulDegree(q, m, g[0], g[1..]);
    assert m + g[0] in Mul(q, g);
  }

  /** Division with remainder has at most one remainder. */
  lemma RemainderUnique(r: Poly, s: Poly, a: Poly, g: seq<nat>)
    requires Leading(g)
    requires IsRemainder(r, a, g) && IsRemainder(s, a, g)
    ensures r == s
  {
    var p :| a == Add(Mul(p, g), r);
    var q :| a == Add(Mul(q, g), s);
    MulAdd(p, q, g);
    assert Add(r, s) == Mul(Add(p, q), g);
    if Add(p, q) == {} {
      MulZero(g);
      assert forall e: nat :: e in r <==> e in s;
    } else {
      assert DegreeBelow(Add(r, s), g[0]);
      MultipleHasDegree(Add(p, q), g);
      assert false;
    }
  }
}
