/**
Checkpoint retention: which generations survive pruning, and why pruning after every
publication leaves what pruning the whole history once would leave.
*/
module Retention {
  import opened AscendingLists

  // ----- what is retained -----

  /** At most one generation is newer. */
  ghost predicate AmongNewestTwo(all: set<nat>, g: nat) {
    forall h, k :: h in all && k in all && h > g && k > g ==> h == k
  }

  /** The first generation at or past an anchor. */
  ghost predicate FirstPast(all: set<nat>, anchor: nat, g: nat) {
    anchor <= g && forall h :: h in all && anchor <= h ==> g <= h
  }

  ghost predicate Anchored(all: set<nat>, anchors: seq<nat>, g: nat) {
    exists i :: 0 <= i < |anchors| && FirstPast(all, anchors[i], g)
  }

  ghost predicate Keeps(all: set<nat>, anchors: seq<nat>, g: nat) {
    g in all && (AmongNewestTwo(all, g) || Anchored(all, anchors, g))
  }

  ghost function Retained(all: set<nat>, anchors: seq<nat>): set<nat> {
    set g | g in all && Keeps(all, anchors, g)
  }

  // ----- computing it -----

  lemma {:induction false} ElementsNext(s: seq<nat>, i: nat)
    requires i < |s|
    ensures Elements(s[..i + 1]) == Elements(s[..i]) + {s[i]}
  {
    assert s[..i + 1] == s[..i] + [s[i]];
  }

  ghost function PastAnchor(all: set<nat>, anchor: nat): set<nat> {
    set g | g in all && FirstPast(all, anchor, g)
  }

  method FindPast(sorted: seq<nat>, anchor: nat) returns (found: set<nat>)
    requires Ascending(sorted)
    ensures found == PastAnchor(Elements(sorted), anchor)
  {
    var i := 0;
    while i < |sorted|
      invariant i <= |sorted| && forall j :: 0 <= j < i ==> sorted[j] < anchor
    {
      if sorted[i] >= anchor {
        assert sorted[i] in Elements(sorted);
        return {sorted[i]};
      }
      i := i + 1;
    }
    found := {};
  }

  lemma {:induction false} NewestAreLast(sorted: seq<nat>, g: nat)
    requires Ascending(sorted) && g in sorted
    ensures AmongNewestTwo(Elements(sorted), g)
       <==> g == sorted[|sorted| - 1] || (|sorted| > 1 && g == sorted[|sorted| - 2])
  {
    var i :| 0 <= i < |sorted| && sorted[i] == g;
    if i < |sorted| - 2 {
      assert sorted[|sorted| - 1] in Elements(sorted) && sorted[|sorted| - 2] in Elements(sorted);
    }
  }

  /** The last two of an ascending list. */
  method NewestTwo(sorted: seq<nat>) returns (newest: set<nat>)
    requires Ascending(sorted)
    ensures newest == Retained(Elements(sorted), [])
  {
    newest := {};
    if |sorted| > 0 {
      newest := newest + {sorted[|sorted| - 1]};
    }
    if |sorted| > 1 {
      newest := newest + {sorted[|sorted| - 2]};
    }
    forall g ensures g in newest <==> g in Retained(Elements(sorted), []) {
      if g in sorted {
        NewestAreLast(sorted, g);
      }
    }
  }

  method SortAndDedup(generations: seq<nat>) returns (sorted: seq<nat>)
    ensures Ascending(sorted) && Elements(sorted) == Elements(generations)
  {
    sorted := SortUnique(generations);
  }

  lemma {:induction false} RetainedNext(all: set<nat>, anchors: seq<nat>, i: nat)
    requires i < |anchors|
    ensures Retained(all, anchors[..i + 1]) == Retained(all, anchors[..i]) + PastAnchor(all, anchors[i])
  {
    forall g | g in all
      ensures Keeps(all, anchors[..i + 1], g) <==> Keeps(all, anchors[..i], g) || FirstPast(all, anchors[i], g)
    {
      AnchoredNext(all, anchors, i, g);
    }
  }

  /** The generations to keep: the newest two, and the first at or past each anchor. */
  method RetainedTargets(generations: seq<nat>, anchors: seq<nat>) returns (retained: set<nat>)
    ensures retained == Retained(Elements(generations), anchors)
  {
    var sorted := SortAndDedup(generations);
    ghost var all := Elements(sorted);
    retained := NewestTwo(sorted);
    var i := 0;
    while i < |anchors|
      invariant i <= |anchors| && retained == Retained(all, anchors[..i])
    {
      var found := FindPast(sorted, anchors[i]);
      RetainedNext(all, anchors, i);
      retained := retained + found;
      i := i + 1;
    }
    assert anchors[..i] == anchors;
  }

  lemma {:induction false} AnchoredNext(all: set<nat>, anchors: seq<nat>, i: nat, g: nat)
    requires i < |anchors|
    ensures Anchored(all, anchors[..i + 1], g) <==> Anchored(all, anchors[..i], g) || FirstPast(all, anchors[i], g)
  {
    var less, more := anchors[..i], anchors[..i + 1];
    assert more[i] == anchors[i];
    assert forall j :: 0 <= j < i ==> more[j] == less[j];
  }

  /** Pruning a directory, in whatever order it lists its generations. */
  method Prune(listing: seq<nat>, anchors: seq<nat>) returns (left: set<nat>)
    ensures left == Retained(Elements(listing), anchors)
  {
    var retained := RetainedTargets(listing, anchors);
    left := Elements(listing);
    var i := 0;
    while i < |listing|
      invariant i <= |listing|
      invariant left == Elements(listing) - (Elements(listing[..i]) - retained)
    {
      ElementsNext(listing, i);
      if listing[i] !in retained {
        left := left - {listing[i]};
      }
      i := i + 1;
    }
    assert listing[..i] == listing;
  }

  // ----- pruning again and again -----

  lemma {:induction false} Newest(all: set<nat>) returns (g: nat)
    requires all != {}
    ensures g in all && forall h :: h in all ==> h <= g
    decreases all
  {
    var x :| x in all;
    var rest := all - {x};
    assert forall h :: h in all ==> h == x || h in rest;
    g := x;
    if rest != {} {
      var y := Newest(rest);
      g := if x > y then x else y;
    }
  }

  lemma {:induction false} Oldest(all: set<nat>) returns (g: nat)
    requires all != {}
    ensures g in all && forall h :: h in all ==> g <= h
    decreases all
  {
    var x :| x in all;
    var rest := all - {x};
    assert forall h :: h in all ==> h == x || h in rest;
    g := x;
    if rest != {} {
      var y := Oldest(rest);
      g := if x < y then x else y;
    }
  }

  // Two newer generations leave two newer ones among the survivors.
  lemma {:induction false} NewestSurvive(all: set<nat>, some: set<nat>, anchors: seq<nat>, g: nat)
    requires some <= all && Retained(all, anchors) <= some && g in some
    ensures AmongNewestTwo(some, g) <==> AmongNewestTwo(all, g)
  {
    if !AmongNewestTwo(all, g) {
      var h, k :| h in all && k in all && h > g && k > g && h != k;
      var first := Newest(all);
      var rest := all - {first};
      assert h in rest || k in rest;
      var second := Newest(rest);
      assert forall h :: h in all && h > second ==> h == first || h in rest;
      assert AmongNewestTwo(all, first) && AmongNewestTwo(all, second);
      assert first in Retained(all, anchors) && second in Retained(all, anchors);
    }
  }

  lemma {:induction false} FirstSurvives(all: set<nat>, some: set<nat>, anchors: seq<nat>, i: nat, g: nat)
    requires some <= all && Retained(all, anchors) <= some && g in some && i < |anchors|
    ensures FirstPast(some, anchors[i], g) <==> FirstPast(all, anchors[i], g)
  {
    if anchors[i] <= g {
      var past := set h | h in all && anchors[i] <= h;
      assert g in past;
      var first := Oldest(past);
      assert forall h :: h in all && anchors[i] <= h ==> h in past;
      assert FirstPast(all, anchors[i], first);
      assert Keeps(all, anchors, first);
      assert first in Retained(all, anchors);
    }
  }

  /** Nothing that is dropped early can matter: any set between the survivors and the
      whole has the same survivors. */
  lemma {:induction false} SurvivorsDecide(all: set<nat>, some: set<nat>, anchors: seq<nat>)
    requires Retained(all, anchors) <= some <= all
    ensures Retained(some, anchors) == Retained(all, anchors)
  {
    forall g | g in some ensures Keeps(some, anchors, g) <==> Keeps(all, anchors, g) {
      NewestSurvive(all, some, anchors, g);
      forall i | 0 <= i < |anchors| ensures FirstPast(some, anchors[i], g) <==> FirstPast(all, anchors[i], g) {
        FirstSurvives(all, some, anchors, i, g);
      }
    }
  }

  /** Pruning what pruning left changes nothing. */
  lemma {:induction false} PruningIsIdempotent(all: set<nat>, anchors: seq<nat>)
    ensures Retained(Retained(all, anchors), anchors) == Retained(all, anchors)
  {
    SurvivorsDecide(all, Retained(all, anchors), anchors);
  }

  // A newer generation brings back nothing that was dropped.
  lemma {:induction false} DroppedForGood(all: set<nat>, anchors: seq<nat>, newer: nat, g: nat)
    requires forall h :: h in all ==> h < newer
    requires Keeps(all + {newer}, anchors, g)
    ensures g == newer || Keeps(all, anchors, g)
  {
    var more := all + {newer};
    if g != newer {
      if AmongNewestTwo(more, g) {
        assert newer in more;
        assert forall h :: h in all ==> h in more;
        assert AmongNewestTwo(all, g);
      } else {
        var i :| 0 <= i < |anchors| && FirstPast(more, anchors[i], g);
        assert FirstPast(all, anchors[i], g);
      }
    }
  }

  /** Survivors of publishing these generations one by one, pruning after each. */
  ghost function PrunedEachTime(history: seq<nat>, anchors: seq<nat>): set<nat> {
    if history == [] then {}
    else
      var n := |history| - 1;
      Retained(PrunedEachTime(history[..n], anchors) + {history[n]}, anchors)
  }

  /** Pruning after every publication equals pruning the full history once. */
  lemma {:induction false} PruningOftenIsPruningOnce(history: seq<nat>, anchors: seq<nat>)
    requires Ascending(history)
    ensures PrunedEachTime(history, anchors) == Retained(Elements(history), anchors)
  {
    if history == [] {
      assert Elements(history) == {};
    } else {
      var n := |history| - 1;
      var before, newer := Elements(history[..n]), history[n];
      PruningOftenIsPruningOnce(history[..n], anchors);
      assert history == history[..n] + [newer];
      assert Elements(history) == before + {newer};
      forall g | g in Retained(before + {newer}, anchors) ensures g in Retained(before, anchors) + {newer} {
        DroppedForGood(before, anchors, newer, g);
      }
      SurvivorsDecide(before + {newer}, Retained(before, anchors) + {newer}, anchors);
    }
  }

  // ----- how many survive -----

  lemma {:induction false} AtMostOne(s: set<nat>)
    requires forall x, y :: x in s && y in s ==> x == y
    ensures |s| <= 1
  {
    if s != {} {
      var x :| x in s;
      assert s == {x};
    }
  }

  lemma {:induction false} NewestTwoAreTwo(all: set<nat>)
    ensures |Retained(all, [])| <= 2
  {
    var two := Retained(all, []);
    if two != {} {
      var g := Oldest(two);
      var newer := two - {g};
      AtMostOne(newer);
      assert two == newer + {g};
    }
  }

  /** At most two generations and one for each anchor survive, however many there
      were; and the newest always does. */
  lemma {:induction false} FewSurvive(all: set<nat>, anchors: seq<nat>)
    ensures |Retained(all, anchors)| <= 2 + |anchors|
    ensures forall g :: g in all && (forall h :: h in all ==> h <= g) ==> g in Retained(all, anchors)
    decreases |anchors|
  {
    if anchors == [] {
      NewestTwoAreTwo(all);
    } else {
      var n := |anchors| - 1;
      FewSurvive(all, anchors[..n]);
      AtMostOne(PastAnchor(all, anchors[n]));
      assert anchors[..n + 1] == anchors;
      RetainedNext(all, anchors, n);
    }
  }
}
