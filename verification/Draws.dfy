/**
Rejection-sampled draws: a 64-bit value below the wrapping negation of the range,
reduced by the range, is thrown away, and what is left covers every remainder
equally often.
*/
module Draws {
  import opened Machine

  function Threshold(range: nat): (t: nat)
    requires 0 < range < U64
    ensures t == U64 % range && t < range
  {
    Remainder(U64, range);
    (U64 - range) % range
  }

  lemma {:induction false} DivModUnique(x: int, r: int, q: int, m: int)
    requires r > 0 && x == q * r + m && 0 <= m < r
    ensures x / r == q && x % r == m
  {
    var d := x / r - q;
    assert d * r == m - x % r;
    Multiple(d, r);
  }

  lemma {:induction false} Multiple(d: int, r: int)
    requires r > 0 && -r < d * r < r
    ensures d == 0
  {
  }

  lemma {:induction false} Remainder(a: nat, r: nat)
    requires 0 < r <= a
    ensures (a - r) % r == a % r
  {
    var q := a / r;
    assert a - r == (q - 1) * r + a % r;
    DivModUnique(a - r, r, q - 1, a % r);
  }

  /** How many of lo, ..., hi - 1 leave remainder k. */
  function Hits(lo: nat, hi: nat, r: nat, k: nat): nat
    requires r > 0 && lo <= hi
    decreases hi - lo
  {
    if lo == hi then 0 else Hits(lo, hi - 1, r, k) + if (hi - 1) % r == k then 1 else 0
  }

  lemma {:induction false} HitsJoin(lo: nat, mid: nat, hi: nat, r: nat, k: nat)
    requires r > 0 && lo <= mid <= hi
    ensures Hits(lo, hi, r, k) == Hits(lo, mid, r, k) + Hits(mid, hi, r, k)
    decreases hi - mid
  {
    if mid < hi {
      HitsJoin(lo, mid, hi - 1, r, k);
    }
  }

  // The first m numbers of a block meet remainder k once, if m is past k.
  lemma {:induction false} HitsPartial(q: nat, r: nat, k: nat, m: nat)
    requires 0 < r && k < r && m <= r
    ensures Hits(q * r, q * r + m, r, k) == if k < m then 1 else 0
    decreases m
  {
    if m > 0 {
      HitsPartial(q, r, k, m - 1);
      DivModUnique(q * r + (m - 1), r, q, m - 1);
    }
  }

  lemma {:induction false} HitsBlocks(n: nat, r: nat, k: nat)
    requires 0 < r && k < r
    ensures Hits(0, n * r, r, k) == n
    decreases n
  {
    if n > 0 {
      HitsBlocks(n - 1, r, k);
      var mid := (n - 1) * r;
      assert n * r == mid + r;
      HitsPartial(n - 1, r, k, r);
      HitsJoin(0, mid, mid + r, r, k);
    }
  }

  // What is left of n whole blocks and a rest t once the first t are dropped.
  lemma {:induction false} HitsAfterRest(n: nat, r: nat, k: nat, t: nat)
    requires k < r && t < r && 0 < n
    ensures t <= n * r + t && Hits(t, n * r + t, r, k) == n
  {
    HitsBlocks(n, r, k);
    HitsPartial(n, r, k, t);
    HitsPartial(0, r, k, t);
    HitsJoin(0, n * r, n * r + t, r, k);
    HitsJoin(0, t, n * r + t, r, k);
  }

  lemma {:induction false} WholeBlocks(a: nat, r: nat)
    requires 0 < r <= a
    ensures 0 < a / r && a == (a / r) * r + a % r
  {
  }

  /** Of all the 64-bit draws that pass the threshold, equally many leave each
      remainder, for every range. */
  lemma {:induction false} EveryRemainderEquallyLikely(range: nat, k: nat)
    requires 0 < range < U64 && k < range
    ensures Hits(Threshold(range), U64, range, k) == U64 / range
  {
    WholeBlocks(U64, range);
    HitsAfterRest(U64 / range, range, k, Threshold(range));
  }

  /** A generator whose draws keep passing the threshold of every range up to n. */
  ghost predicate Fair(draws: nat -> nat, n: nat)
  {
    forall range: nat, p: nat :: 2 <= range <= n < U64 ==> Passes(draws, range, p)
  }

  ghost predicate Passes(draws: nat -> nat, range: nat, p: nat)
    requires 0 < range < U64
  {
    exists q: nat :: p <= q && draws(q) >= Threshold(range)
  }

  /** Position q holds the first draw from p on that is not rejected. */
  ghost predicate FirstAccepted(draws: nat -> nat, range: nat, p: nat, q: nat)
    requires 0 < range < U64
  {
    && p <= q && draws(q) >= Threshold(range)
    && forall j: nat :: p <= j < q ==> draws(j) < Threshold(range)
  }

  /** Draws until a value is accepted. */
  method Accept(draws: nat -> nat, range: nat, p: nat) returns (value: nat, q: nat)
    requires 0 < range < U64 && Passes(draws, range, p)
    ensures FirstAccepted(draws, range, p, q) && value == draws(q)
  {
    var threshold := Threshold(range);
    ghost var last: nat :| p <= last && draws(last) >= threshold;
    q := p;
    value := draws(q);
    while value < threshold
      invariant p <= q <= last && value == draws(q)
      invariant forall j: nat :: p <= j < q ==> draws(j) < threshold
      decreases last - q
    {
      q := q + 1;
      value := draws(q);
    }
  }
}
