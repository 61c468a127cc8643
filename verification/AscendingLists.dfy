/** Strictly ascending lists of numbers, and the library's sort-and-deduplicate. */
module AscendingLists {

  function Elements(s: seq<nat>): set<nat> {
    set x | x in s
  }

  ghost predicate Ascending(s: seq<nat>) {
    forall i, j :: 0 <= i < j < |s| ==> s[i] < s[j]
  }

  lemma {:induction false} ElementsCount(s: seq<nat>)
    requires Ascending(s)
    ensures |Elements(s)| == |s|
  {
    if s != [] {
      var n := |s| - 1;
      ElementsCount(s[..n]);
      assert s[n] !in s[..n];
      assert Elements(s) == Elements(s[..n]) + {s[n]};
    }
  }

  // Keep `r` strictly ascending while adding `x`.
  function InsertUnique(r: seq<nat>, x: nat): (t: seq<nat>)
    requires Ascending(r)
    ensures Ascending(t)
    ensures forall y :: y in t <==> y in r || y == x
  {
    if r == [] then [x]
    else if x < r[0] then [x] + r
    else if x == r[0] then r
    else
      var t := InsertUnique(r[1..], x);
      assert forall y :: y in r <==> y == r[0] || y in r[1..];
      assert forall j :: 0 <= j < |t| ==> t[j] in t;
      assert forall y :: y in t ==> r[0] < y;
      [r[0]] + t
  }

  /** Sort and drop repeats. */
  function SortUnique(xs: seq<nat>): (r: seq<nat>)
    ensures Ascending(r)
    ensures forall y :: y in r <==> y in xs
  {
    if xs == [] then [] else InsertUnique(SortUnique(xs[1..]), xs[0])
  }

  /** Ascending lists with the same elements are equal. */
  lemma {:induction false} SameAscending(a: seq<nat>, b: seq<nat>)
    requires Ascending(a) && Ascending(b)
    requires forall x :: x in a <==> x in b
    ensures a == b
    decreases |a|
  {
    assert b != [] ==> b[0] in b;
    if a != [] {
      assert a[0] in b;
      var i :| 0 <= i < |b| && b[i] == a[0];
      assert b[0] in a;
      var j :| 0 <= j < |a| && a[j] == b[0];
      assert a[0] == b[0];
      forall x ensures x in a[1..] <==> x in b[1..] {
        TailElements(a, x);
        TailElements(b, x);
      }
      SameAscending(a[1..], b[1..]);
    }
  }

  lemma {:induction false} TailElements(a: seq<nat>, x: nat)
    requires Ascending(a) && a != []
    ensures x in a[1..] <==> x in a && x != a[0]
  {
    assert a == [a[0]] + a[1..];
    assert forall i :: 1 <= i < |a| ==> a[0] < a[i];
  }
}
