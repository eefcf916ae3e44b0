/** The waits between connection attempts: the recurrence the retry loop runs, and its closed form. */
module Backoff {

  function Min(a: real, b: real): real {
    if a <= b then a else b
  }

  /** The k-th wait, as the loop updates it: doubled, then capped. */
  function Wait(first: real, cap: real, k: nat): real {
    if k == 0 then first else Min(Wait(first, cap, k - 1) * 2.0, cap)
  }

  /** The waits after n failed attempts; a zero backoff never waits. */
  function Waits(first: real, cap: real, n: nat): (r: seq<real>)
    ensures |r| == if first > 0.0 then n else 0
  {
    if n == 0 || first <= 0.0 then [] else Waits(first, cap, n - 1) + [Wait(first, cap, n - 1)]
  }

  function Sum(waits: seq<real>): real {
    if waits == [] then 0.0 else Sum(waits[..|waits| - 1]) + waits[|waits| - 1]
  }

  function Pow2(k: nat): real {
    if k == 0 then 1.0 else 2.0 * Pow2(k - 1)
  }

  /** b doubled k times, and M added n times, without multiplication. */
  function Doubled(b: real, k: nat): real {
    if k == 0 then b else 2.0 * Doubled(b, k - 1)
  }

  function Repeated(m: real, n: nat): real {
    if n == 0 then 0.0 else Repeated(m, n - 1) + m
  }

  lemma {:induction false} DoubledIsProduct(b: real, k: nat)
    ensures Doubled(b, k) == b * Pow2(k)
  {
    if k == 0 {
      assert b * 1.0 == b;
    } else {
      DoubledIsProduct(b, k - 1);
      Distribute(b, Pow2(k - 1));
      assert Pow2(k) == 2.0 * Pow2(k - 1);
    }
  }

  lemma Distribute(b: real, p: real)
    ensures b * (2.0 * p) == 2.0 * (b * p)
  {
  }

  lemma {:induction false} RepeatedIsProduct(m: real, n: nat)
    ensures Repeated(m, n) == (n as real) * m
  {
    if n != 0 {
      RepeatedIsProduct(m, n - 1);
      assert (n as real) == ((n - 1) as real) + 1.0;
      OneMore((n - 1) as real, m);
    }
  }

  lemma OneMore(a: real, m: real)
    ensures (a + 1.0) * m == a * m + m
  {
  }

  lemma {:induction false} WaitIsCapped(first: real, cap: real, k: nat)
    requires 0.0 <= first <= cap
    ensures Wait(first, cap, k) == Min(Doubled(first, k), cap)
    ensures Doubled(first, k) >= first
  {
    if k != 0 {
      WaitIsCapped(first, cap, k - 1);
    }
  }

  lemma {:induction false} TotalIsCapped(first: real, cap: real, n: nat)
    requires 0.0 <= first <= cap
    ensures Sum(Waits(first, cap, n)) <= Repeated(cap, n)
    ensures Sum(Waits(first, cap, n)) <= Doubled(first, n) - first
  {
    if n != 0 {
      TotalIsCapped(first, cap, n - 1);
      WaitIsCapped(first, cap, n - 1);
      if first > 0.0 {
        var waits, w := Waits(first, cap, n - 1), Wait(first, cap, n - 1);
        SumSnoc(waits, w);
        assert Waits(first, cap, n) == waits + [w];
        assert w <= cap && w <= Doubled(first, n - 1);
      } else {
        assert Waits(first, cap, n) == [];
      }
    }
  }

  lemma SumSnoc(waits: seq<real>, w: real)
    ensures Sum(waits + [w]) == Sum(waits) + w
  {
    assert (waits + [w])[..|waits|] == waits;
  }

  /** How many waits lie behind an attempt; one beyond the last attempt there is none more than at it. */
  function Slept(attempt: int, attempts: int): nat
    requires 1 <= attempt <= attempts + 1 && attempts >= 1
  {
    if attempt <= attempts then attempt - 1 else attempts - 1
  }

  /** The retry loop never stops waiting once it waits. */
  lemma WaitSign(first: real, cap: real, k: nat)
    requires 0.0 <= first <= cap
    ensures Wait(first, cap, k) > 0.0 <==> first > 0.0
    ensures first == 0.0 ==> Wait(first, cap, k) == Wait(first, cap, k + 1)
  {
    WaitIsCapped(first, cap, k);
    WaitIsCapped(first, cap, k + 1);
    if first == 0.0 {
      DoubledZero(k);
      DoubledZero(k + 1);
    }
  }

  lemma {:induction false} DoubledZero(k: nat)
    ensures Doubled(0.0, k) == 0.0
  {
    if k != 0 {
      DoubledZero(k - 1);
    }
  }

  // ----- main results -----

  /** The k-th of any number of waits is min(b 2^k, M). */
  lemma {:induction false} WaitClosedForm(first: real, cap: real, n: nat, k: nat)
    requires 0.0 < first <= cap && k < n
    ensures Waits(first, cap, n)[k] == Min(first * Pow2(k), cap)
  {
    if k == n - 1 {
      WaitIsCapped(first, cap, k);
      DoubledIsProduct(first, k);
    } else {
      WaitClosedForm(first, cap, n - 1, k);
    }
  }

  /** The wait over n retries is at most n M and at most b (2^n - 1). */
  lemma TotalWaitBound(first: real, cap: real, n: nat)
    requires 0.0 <= first <= cap
    ensures Sum(Waits(first, cap, n)) <= (n as real) * cap
    ensures Sum(Waits(first, cap, n)) <= first * Pow2(n) - first
  {
    TotalIsCapped(first, cap, n);
    DoubledIsProduct(first, n);
    RepeatedIsProduct(cap, n);
  }

  /** With the defaults the waits are 1, 2, 4, 8 and 16 seconds, and then 30 each time. */
  lemma DefaultWaits()
    ensures Waits(1.0, 30.0, 7) == [1.0, 2.0, 4.0, 8.0, 16.0, 30.0, 30.0]
  {
    assert Wait(1.0, 30.0, 0) == 1.0;
    assert Wait(1.0, 30.0, 1) == 2.0;
    assert Wait(1.0, 30.0, 2) == 4.0;
    assert Wait(1.0, 30.0, 3) == 8.0;
    assert Wait(1.0, 30.0, 4) == 16.0;
    assert Wait(1.0, 30.0, 5) == 30.0;
    assert Wait(1.0, 30.0, 6) == 30.0;
    assert Waits(1.0, 30.0, 3) == [1.0, 2.0, 4.0];
    assert Waits(1.0, 30.0, 5) == [1.0, 2.0, 4.0, 8.0, 16.0];
  }
}
