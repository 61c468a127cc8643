/**
The library's stable sort by a numeric key, and the fact that a strictly ordered
list is determined by its elements.
*/
module Sorting {

  ghost predicate Ordered<T(!new)>(s: seq<T>, key: T -> nat)
  {
    forall i, j :: 0 <= i < j < |s| ==> key(s[i]) <= key(s[j])
  }

  ghost predicate Strict<T(!new)>(s: seq<T>, key: T -> nat)
  {
    forall i, j :: 0 <= i < j < |s| ==> key(s[i]) < key(s[j])
  }

  function Insert<T(!new)>(s: seq<T>, x: T, key: T -> nat): (r: seq<T>)
    ensures |r| == |s| + 1
    ensures forall y :: y in r <==> y in s || y == x
  {
    if s == [] then [x]
    else
      var n := |s| - 1;
      assert s == s[..n] + [s[n]];
      if key(s[n]) <= key(x) then s + [x] else Insert(s[..n], x, key) + [s[n]]
  }

  lemma {:induction false} InsertOrdered<T(!new)>(s: seq<T>, x: T, key: T -> nat)
    requires Ordered(s, key)
    ensures Ordered(Insert(s, x, key), key)
  {
    if s != [] {
      var n := |s| - 1;
      InsertOrdered(s[..n], x, key);
      if key(s[n]) > key(x) {
        var t := Insert(s[..n], x, key);
        forall i | 0 <= i < |t| ensures key(t[i]) <= key(s[n]) {
          assert t[i] in t;
        }
      }
    }
  }

  /** A stable insertion sort stands for `sort_by`. */
  function SortBy<T(!new)>(s: seq<T>, key: T -> nat): (r: seq<T>)
    ensures |r| == |s|
    ensures forall x :: x in r <==> x in s
  {
    if s == [] then []
    else
      var n := |s| - 1;
      assert s == s[..n] + [s[n]];
      Insert(SortBy(s[..n], key), s[n], key)
  }

  lemma {:induction false} SortOrdered<T(!new)>(s: seq<T>, key: T -> nat)
    ensures Ordered(SortBy(s, key), key)
  {
    if s != [] {
      SortOrdered(s[..|s| - 1], key);
      InsertOrdered(SortBy(s[..|s| - 1], key), s[|s| - 1], key);
    }
  }

  // ----- sorting again keeps the earlier order among equal keys -----

  ghost predicate Follows<T(!new)>(s: seq<T>, le: (T, T) -> bool)
  {
    forall i, j :: 0 <= i < j < |s| ==> le(s[i], s[j])
  }

  /** By key, and by an earlier order where keys are equal. */
  ghost predicate Refined<T(!new)>(key: T -> nat, le: (T, T) -> bool, a: T, b: T)
  {
    key(a) < key(b) || (key(a) == key(b) && le(a, b))
  }

  ghost predicate FollowsWithin<T(!new)>(s: seq<T>, key: T -> nat, le: (T, T) -> bool)
  {
    forall i, j :: 0 <= i < j < |s| ==> Refined(key, le, s[i], s[j])
  }

  lemma {:induction false} WithinSnoc<T(!new)>(s: seq<T>, x: T, key: T -> nat, le: (T, T) -> bool)
    requires FollowsWithin(s, key, le) && forall y :: y in s ==> Refined(key, le, y, x)
    ensures FollowsWithin(s + [x], key, le)
  {
    assert forall i :: 0 <= i < |s| ==> s[i] in s;
  }

  lemma {:induction false} InsertWithin<T(!new)>(s: seq<T>, x: T, key: T -> nat, le: (T, T) -> bool)
    requires FollowsWithin(s, key, le) && forall y :: y in s ==> le(y, x)
    ensures FollowsWithin(Insert(s, x, key), key, le)
  {
    if s == [] {
    } else {
      var n := |s| - 1;
      assert s == s[..n] + [s[n]];
      assert s[n] in s;
      if key(s[n]) <= key(x) {
        forall y | y in s ensures Refined(key, le, y, x) {
          var i :| 0 <= i < |s| && s[i] == y;
          assert i < n ==> Refined(key, le, s[i], s[n]);
        }
        WithinSnoc(s, x, key, le);
      } else {
        InsertWithin(s[..n], x, key, le);
        forall y | y in Insert(s[..n], x, key) ensures Refined(key, le, y, s[n]) {
          if y in s[..n] {
            var i :| 0 <= i < n && s[i] == y;
            assert Refined(key, le, s[i], s[n]);
          }
        }
        WithinSnoc(Insert(s[..n], x, key), s[n], key, le);
      }
    }
  }

  /** The sort is stable. */
  lemma {:induction false} SortWithin<T(!new)>(s: seq<T>, key: T -> nat, le: (T, T) -> bool)
    requires Follows(s, le)
    ensures FollowsWithin(SortBy(s, key), key, le)
  {
    if s != [] {
      var n := |s| - 1;
      SortWithin(s[..n], key, le);
      InsertWithin(SortBy(s[..n], key), s[n], key, le);
    }
  }

  // Distinct keys make the order strict.
  ghost predicate DistinctKeys<T(!new)>(s: seq<T>, key: T -> nat)
  {
    forall i, j :: 0 <= i < j < |s| ==> key(s[i]) != key(s[j])
  }

  lemma {:induction false} StrictSnoc<T(!new)>(s: seq<T>, x: T, key: T -> nat)
    requires Strict(s, key) && forall y :: y in s ==> key(y) < key(x)
    ensures Strict(s + [x], key)
  {
    assert forall i :: 0 <= i < |s| ==> s[i] in s;
  }

  lemma {:induction false} InsertStrict<T(!new)>(s: seq<T>, x: T, key: T -> nat)
    requires Strict(s, key)
    requires forall y :: y in s ==> key(y) != key(x)
    ensures Strict(Insert(s, x, key), key)
  {
    if s != [] {
      var n := |s| - 1;
      assert s[n] in s;
      if key(s[n]) > key(x) {
        InsertStrict(s[..n], x, key);
        assert forall y :: y in s[..n] ==> key(y) < key(s[n]);
        StrictSnoc(Insert(s[..n], x, key), s[n], key);
      } else {
        assert forall y :: y in s ==> key(y) < key(x);
        StrictSnoc(s, x, key);
      }
    }
  }

  lemma {:induction false} SortStrict<T(!new)>(s: seq<T>, key: T -> nat)
    requires DistinctKeys(s, key)
    ensures Strict(SortBy(s, key), key)
  {
    if s != [] {
      var n := |s| - 1;
      SortStrict(s[..n], key);
      var t := SortBy(s[..n], key);
      forall y | y in t ensures key(y) != key(s[n]) {
        assert y in s[..n];
      }
      InsertStrict(t, s[n], key);
    }
  }

  lemma {:induction false} DistinctSnoc<T(!new)>(s: seq<T>, x: T, key: T -> nat)
    requires DistinctKeys(s, key) && forall y :: y in s ==> key(y) != key(x)
    ensures DistinctKeys(s + [x], key)
  {
  }

  lemma {:induction false} InsertDistinct<T(!new)>(s: seq<T>, x: T, key: T -> nat, other: T -> nat)
    requires DistinctKeys(s, other) && forall y :: y in s ==> other(y) != other(x)
    ensures DistinctKeys(Insert(s, x, key), other)
  {
    if s != [] {
      var n := |s| - 1;
      InsertDistinct(s[..n], x, key, other);
      assert s[n] in s;
      if key(s[n]) <= key(x) {
        DistinctSnoc(s, x, other);
      } else {
        assert forall y :: y in s[..n] ==> other(y) != other(s[n]);
        DistinctSnoc(Insert(s[..n], x, key), s[n], other);
      }
    }
  }

  /** Sorting by one key keeps another key's values distinct. */
  lemma {:induction false} SortDistinct<T(!new)>(s: seq<T>, key: T -> nat, other: T -> nat)
    requires DistinctKeys(s, other)
    ensures DistinctKeys(SortBy(s, key), other)
  {
    if s != [] {
      var n := |s| - 1;
      SortDistinct(s[..n], key, other);
      var t := SortBy(s[..n], key);
      forall y | y in t ensures other(y) != other(s[n]) {
        assert y in s[..n];
      }
      InsertDistinct(t, s[n], key, other);
    }
  }

  lemma {:induction false} StrictCount<T(!new)>(s: seq<T>, key: T -> nat)
    requires Strict(s, key)
    ensures |set x | x in s| == |s|
  {
    if s != [] {
      var n := |s| - 1;
      StrictCount(s[..n], key);
      assert s[n] !in s[..n] by {
        assert forall i :: 0 <= i < n ==> key(s[i]) < key(s[n]);
      }
      assert (set x | x in s) == (set x | x in s[..n]) + {s[n]};
    }
  }

  lemma {:induction false} LastIsLargest<T(!new)>(s: seq<T>, key: T -> nat, x: T)
    requires Strict(s, key) && x in s
    ensures x == s[|s| - 1] || key(x) < key(s[|s| - 1])
  {
  }

  lemma {:induction false} FrontElements<T(!new)>(s: seq<T>, key: T -> nat, x: T)
    requires Strict(s, key) && s != []
    ensures x in s[..|s| - 1] <==> x in s && x != s[|s| - 1]
  {
    assert s == s[..|s| - 1] + [s[|s| - 1]];
    assert forall i :: 0 <= i < |s| - 1 ==> key(s[i]) < key(s[|s| - 1]);
  }

  lemma {:induction false} SameLength<T(!new)>(a: seq<T>, b: seq<T>, key: T -> nat)
    requires Strict(a, key) && Strict(b, key)
    requires forall x :: x in a <==> x in b
    ensures |a| == |b|
  {
    StrictCount(a, key);
    StrictCount(b, key);
    assert (set x | x in a) == (set x | x in b);
  }

  lemma {:induction false} SameLast<T(!new)>(a: seq<T>, b: seq<T>, key: T -> nat)
    requires Strict(a, key) && Strict(b, key) && a != [] && b != []
    requires forall x :: x in a <==> x in b
    ensures a[|a| - 1] == b[|b| - 1]
  {
    LastIsLargest(a, key, b[|b| - 1]);
    LastIsLargest(b, key, a[|a| - 1]);
  }

  lemma {:induction false} SameFront<T(!new)>(a: seq<T>, b: seq<T>, key: T -> nat, n: nat)
    requires Strict(a, key) && Strict(b, key) && |a| == |b| == n + 1 && a[n] == b[n]
    requires forall x :: x in a <==> x in b
    ensures forall x :: x in a[..n] <==> x in b[..n]
  {
    forall x ensures x in a[..n] <==> x in b[..n] {
      FrontElements(a, key, x);
      FrontElements(b, key, x);
    }
  }

  /** Two strictly ordered lists with the same elements are equal. */
  lemma {:induction false} StrictIsUnique<T(!new)>(a: seq<T>, b: seq<T>, key: T -> nat)
    requires Strict(a, key) && Strict(b, key)
    requires forall x :: x in a <==> x in b
    ensures a == b
    decreases |a|
  {
    SameLength(a, b, key);
    if a != [] {
      var n := |a| - 1;
      SameLast(a, b, key);
      SameFront(a, b, key, n);
      StrictIsUnique(a[..n], b[..n], key);
      assert a == a[..n] + [a[n]] && b == b[..n] + [b[n]];
    }
  }
}
