/** The descending swap loop, as a map from choices to orders. */
module Shuffle {

  /** One choice at most i for each position i. */
  ghost predicate Choices(c: seq<nat>)
  {
    forall i :: 0 <= i < |c| ==> c[i] <= i
  }

  ghost predicate Distinct(s: seq<nat>)
  {
    forall i, j :: 0 <= i < j < |s| ==> s[i] != s[j]
  }

  function Swap(s: seq<nat>, i: nat, j: nat): (r: seq<nat>)
    requires i < |s| && j < |s|
    ensures |r| == |s| && r[i] == s[j] && r[j] == s[i]
    ensures forall k {:trigger r[k]} :: 0 <= k < |s| && k != i && k != j ==> r[k] == s[k]
  {
    s[i := s[j]][j := s[i]]
  }

  /** Swaps positions |s| - 1 down to 1 with their choices, in that order. */
  function Shuffled(s: seq<nat>, c: seq<nat>): (r: seq<nat>)
    requires |c| == |s| && Choices(c)
    ensures |r| == |s|
    decreases |s|
  {
    if |s| < 2 then s
    else
      var n := |s| - 1;
      var t := Swap(s, n, c[n]);
      Shuffled(t[..n], c[..n]) + [t[n]]
  }

  lemma {:induction false} SwapKeeps(s: seq<nat>, i: nat, j: nat)
    requires i < |s| && j < |s|
    ensures multiset(Swap(s, i, j)) == multiset(s)
    ensures Distinct(s) ==> Distinct(Swap(s, i, j))
  {
    if i == j {
      assert Swap(s, i, j) == s;
    }
  }

  lemma {:induction false} ShuffledIsPermutation(s: seq<nat>, c: seq<nat>)
    requires |c| == |s| && Choices(c)
    ensures multiset(Shuffled(s, c)) == multiset(s)
    decreases |s|
  {
    if |s| >= 2 {
      var n := |s| - 1;
      var t := Swap(s, n, c[n]);
      SwapKeeps(s, n, c[n]);
      assert t == t[..n] + [t[n]];
      ShuffledIsPermutation(t[..n], c[..n]);
    }
  }

  /** Different choices give different orders. */
  lemma {:induction false} ShuffledInjective(s: seq<nat>, c: seq<nat>, d: seq<nat>)
    requires |c| == |s| == |d| && Choices(c) && Choices(d) && Distinct(s)
    requires Shuffled(s, c) == Shuffled(s, d)
    ensures c == d
    decreases |s|
  {
    if |s| >= 2 {
      var n := |s| - 1;
      var t, u := Swap(s, n, c[n]), Swap(s, n, d[n]);
      assert t[n] == Shuffled(s, c)[n] && u[n] == Shuffled(s, d)[n];
      assert c[n] == d[n];
      assert Shuffled(t[..n], c[..n]) == Shuffled(s, c)[..n];
      assert Shuffled(u[..n], d[..n]) == Shuffled(s, d)[..n];
      SwapKeeps(s, n, c[n]);
      ShuffledInjective(t[..n], c[..n], d[..n]);
      assert c == c[..n] + [c[n]] && d == d[..n] + [d[n]];
    }
  }

  lemma {:induction false} SameLength(s: seq<nat>, r: seq<nat>)
    requires multiset(r) == multiset(s)
    ensures |r| == |s|
  {
    assert |multiset(r)| == |r| && |multiset(s)| == |s|;
  }

  lemma {:induction false} Single(s: seq<nat>, r: seq<nat>)
    requires multiset(r) == multiset(s) && |s| < 2
    ensures r == s
  {
    SameLength(s, r);
    if |s| == 1 {
      assert r[0] in multiset(r);
    }
  }

  lemma {:induction false} Locate(s: seq<nat>, x: nat) returns (k: nat)
    requires x in multiset(s)
    ensures k < |s| && s[k] == x
  {
    assert x in s;
    k :| k < |s| && s[k] == x;
  }

  lemma {:induction false} SameFronts(t: seq<nat>, r: seq<nat>, n: nat)
    requires |t| == |r| == n + 1 && t[n] == r[n] && multiset(t) == multiset(r)
    ensures multiset(t[..n]) == multiset(r[..n])
  {
    assert t == t[..n] + [t[n]] && r == r[..n] + [r[n]];
    assert multiset(t[..n]) == multiset(t) - multiset{t[n]};
    assert multiset(r[..n]) == multiset(r) - multiset{r[n]};
  }

  lemma {:induction false} ShuffledLast(s: seq<nat>, k: nat, d: seq<nat>, n: nat)
    requires |s| == n + 1 >= 2 && k <= n && |d| == n && Choices(d)
    ensures Choices(d + [k])
    ensures Shuffled(s, d + [k]) == Shuffled(Swap(s, n, k)[..n], d) + [s[k]]
  {
    var c := d + [k];
    assert c[..n] == d;
  }

  /** Every order is reached by some choices. */
  lemma {:induction false} ShuffledSurjective(s: seq<nat>, r: seq<nat>) returns (c: seq<nat>)
    requires multiset(r) == multiset(s)
    ensures |c| == |s| && Choices(c) && Shuffled(s, c) == r
    decreases |s|
  {
    SameLength(s, r);
    if |s| < 2 {
      Single(s, r);
      c := seq(|s|, _ => 0);
    } else {
      var n := |s| - 1;
      assert r[n] in multiset(r);
      var k := Locate(s, r[n]);
      SwapKeeps(s, n, k);
      var t := Swap(s, n, k);
      SameFronts(t, r, n);
      var d := ShuffledSurjective(t[..n], r[..n]);
      ShuffledLast(s, k, d, n);
      c := d + [k];
      assert r == r[..n] + [r[n]];
    }
  }

  // ----- the loop that computes it -----

  /** The swaps of positions |s| - 1 down to k. */
  ghost function SwapDown(s: seq<nat>, c: seq<nat>, k: nat): (r: seq<nat>)
    requires |c| == |s| && Choices(c)
    ensures |r| == |s|
    decreases |s| - k
  {
    if k >= |s| then s else Swap(SwapDown(s, c, k + 1), k, c[k])
  }

  // The swaps done so far do not look at the choices still to be made.
  lemma {:induction false} SwapDownLocal(s: seq<nat>, c: seq<nat>, d: seq<nat>, k: nat)
    requires |c| == |s| == |d| && Choices(c) && Choices(d)
    requires forall i :: k <= i < |s| ==> c[i] == d[i]
    ensures SwapDown(s, c, k) == SwapDown(s, d, k)
    decreases |s| - k
  {
    if k < |s| {
      SwapDownLocal(s, c, d, k + 1);
    }
  }

  lemma {:induction false} SwapInFront(s: seq<nat>, x: nat, i: nat, j: nat)
    requires i < |s| && j < |s|
    ensures Swap(s + [x], i, j) == Swap(s, i, j) + [x]
  {
  }

  lemma {:induction false} SwapDownPeel(s: seq<nat>, c: seq<nat>, n: nat, k: nat)
    requires |c| == |s| == n + 1 && Choices(c) && k <= n
    ensures Choices(c[..n])
    ensures SwapDown(s, c, k) == SwapDown(Swap(s, n, c[n])[..n], c[..n], k) + [s[c[n]]]
    decreases n - k
  {
    var t := Swap(s, n, c[n]);
    if k == n {
      assert SwapDown(s, c, n + 1) == s;
      assert t == t[..n] + [t[n]];
    } else {
      SwapDownPeel(s, c, n, k + 1);
      SwapInFront(SwapDown(t[..n], c[..n], k + 1), s[c[n]], k, c[k]);
    }
  }

  lemma {:induction false} SwapDownIsShuffled(s: seq<nat>, c: seq<nat>)
    requires |c| == |s| && Choices(c)
    ensures SwapDown(s, c, 1) == Shuffled(s, c)
    decreases |s|
  {
    if |s| >= 2 {
      var n := |s| - 1;
      SwapDownPeel(s, c, n, 1);
      SwapDownIsShuffled(Swap(s, n, c[n])[..n], c[..n]);
    }
  }
}
