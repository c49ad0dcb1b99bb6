/** The capacity policy of cVector: every capacity the vector asks for is
    rounded up to the least power of two that is at least the request
    (UTIL_get_new_cap). */
module Pow2 {

  /** The factor by which UTIL_get_new_cap multiplies its candidate. */
  const GROWTH_FACTOR: nat := 2

  /** n is one of 1, 2, 4, 8, ... */
  ghost predicate IsPow2(n: int)
    decreases n
  {
    n == 1 || (n > 1 && n % 2 == 0 && IsPow2(n / 2))
  }

  /** Reference definition of the normalised capacity: halve the request
      (rounding up) until it is at most 1, then double back. */
  function CeilPow2(c: int): (r: nat)
    ensures IsPow2(r) && r >= c && r >= 1
    decreases c
  {
    if c <= 1 then 1 else 2 * CeilPow2((c + 1) / 2)
  }

  /** Between two powers of two, the smaller one at least doubles to reach
      the larger one. */
  lemma {:induction false} Pow2Gap(a: int, b: int)
    requires IsPow2(a) && IsPow2(b) && a < b
    ensures 2 * a <= b
    decreases a
  {
    if a != 1 {
      Pow2Gap(a / 2, b / 2);
    }
  }

  /** CeilPow2(c) is the LEAST power of two that is at least c. */
  lemma {:induction false} CeilPow2IsLeast(c: int, p: int)
    requires IsPow2(p) && p >= c
    ensures CeilPow2(c) <= p
    decreases c
  {
    if c > 1 {
      assert IsPow2(p / 2);
      CeilPow2IsLeast((c + 1) / 2, p / 2);
    }
  }

  /** Normalising a power of two leaves it unchanged. */
  lemma CeilPow2OfPow2(c: int)
    requires IsPow2(c)
    ensures CeilPow2(c) == c
  {
    CeilPow2IsLeast(c, c);
  }

  /** Normalising one more than a power of two doubles it: this is the
      growth step of an insertion into a full vector. */
  lemma CeilPow2Next(c: int)
    requires IsPow2(c)
    ensures CeilPow2(c + 1) == GROWTH_FACTOR * c
  {
    assert IsPow2(2 * c);
    CeilPow2IsLeast(c + 1, 2 * c);
    Pow2Gap(c, CeilPow2(c + 1));
  }

  /** Normalisation is monotone. */
  lemma CeilPow2Monotone(a: int, b: int)
    requires a <= b
    ensures CeilPow2(a) <= CeilPow2(b)
  {
    CeilPow2IsLeast(a, CeilPow2(b));
  }

  /** UTIL_get_new_cap: start at 1 and multiply by the growth factor until
      the candidate reaches the request. */
  method GetNewCap(capacity: int) returns (newCap: nat)
    ensures IsPow2(newCap) && newCap >= capacity
    ensures forall p :: IsPow2(p) && p >= capacity ==> newCap <= p
    ensures newCap == CeilPow2(capacity)
  {
    newCap := 1;
    while newCap < capacity
      invariant IsPow2(newCap)
      invariant forall p :: IsPow2(p) && p >= capacity ==> newCap <= p
      decreases capacity - newCap
    {
      forall p | IsPow2(p) && p >= capacity
        ensures newCap * GROWTH_FACTOR <= p
      {
        Pow2Gap(newCap, p);
      }
      assert IsPow2(newCap * GROWTH_FACTOR);
      newCap := newCap * GROWTH_FACTOR;
    }
    CeilPow2IsLeast(capacity, newCap);
  }
}
