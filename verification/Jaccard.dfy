/**
The exact Jaccard test: one merge pass over two ascending shingle lists. Shingles
are elements of some ordered type, here numbers.
*/
module Jaccard {
  import opened AscendingLists

  /** Strictly more than 85 hundredths of the union is shared. */
  ghost predicate Exceeds(a: set<nat>, b: set<nat>)
  {
    |a * b| * 100 > |a + b| * 85
  }

  lemma {:induction false} UnionCount(a: set<nat>, b: set<nat>)
    ensures |a + b| == |a| + |b| - |a * b|
  {
  }

  // Everything before the cursors is below everything after them.
  ghost predicate Separated(left: seq<nat>, right: seq<nat>, i: nat, j: nat)
    requires i <= |left| && j <= |right|
  {
    && (forall a, b :: 0 <= a < i && j <= b < |right| ==> left[a] < right[b])
    && (forall a, b :: i <= a < |left| && 0 <= b < j ==> right[b] < left[a])
  }

  /** How many shingles the parts before the cursors share. */
  ghost function SharedCount(left: seq<nat>, right: seq<nat>, i: nat, j: nat): nat
    requires i <= |left| && j <= |right|
  {
    |Elements(left[..i]) * Elements(right[..j])|
  }

  lemma {:induction false} NothingShared(left: seq<nat>, right: seq<nat>)
    ensures SharedCount(left, right, 0, 0) == 0 && Separated(left, right, 0, 0)
  {
    assert Elements(left[..0]) == {};
  }

  lemma {:induction false} SeparatedNext(left: seq<nat>, right: seq<nat>, i: nat, j: nat)
    requires Ascending(left) && Ascending(right) && i < |left| && j < |right| && Separated(left, right, i, j)
    ensures left[i] < right[j] ==> Separated(left, right, i + 1, j)
    ensures left[i] > right[j] ==> Separated(left, right, i, j + 1)
    ensures left[i] == right[j] ==> Separated(left, right, i + 1, j + 1)
  {
  }

  lemma {:induction false} SharedLower(left: seq<nat>, right: seq<nat>, i: nat, j: nat)
    requires i < |left| && j <= |right| && Separated(left, right, i, j)
    ensures SharedCount(left, right, i + 1, j) == SharedCount(left, right, i, j)
  {
    assert left[..i + 1] == left[..i] + [left[i]];
    assert left[i] !in right[..j];
    assert Elements(left[..i + 1]) * Elements(right[..j]) == Elements(left[..i]) * Elements(right[..j]);
  }

  lemma {:induction false} SharedHigher(left: seq<nat>, right: seq<nat>, i: nat, j: nat)
    requires i <= |left| && j < |right| && Separated(left, right, i, j)
    ensures SharedCount(left, right, i, j + 1) == SharedCount(left, right, i, j)
  {
    assert right[..j + 1] == right[..j] + [right[j]];
    assert right[j] !in left[..i];
    assert Elements(left[..i]) * Elements(right[..j + 1]) == Elements(left[..i]) * Elements(right[..j]);
  }

  lemma {:induction false} SharedBoth(left: seq<nat>, right: seq<nat>, i: nat, j: nat)
    requires Ascending(left) && Ascending(right)
    requires i < |left| && j < |right| && Separated(left, right, i, j) && left[i] == right[j]
    ensures SharedCount(left, right, i + 1, j + 1) == SharedCount(left, right, i, j) + 1
  {
    assert left[..i + 1] == left[..i] + [left[i]];
    assert right[..j + 1] == right[..j] + [right[j]];
    assert left[i] !in right[..j] && right[j] !in left[..i];
    assert Elements(left[..i + 1]) * Elements(right[..j + 1])
        == Elements(left[..i]) * Elements(right[..j]) + {left[i]};
    assert left[i] !in Elements(left[..i]) * Elements(right[..j]);
  }

  // One step of the merge keeps the cursors apart and the count right.
  lemma {:induction false} CountStep(left: seq<nat>, right: seq<nat>, i: nat, j: nat)
    requires Ascending(left) && Ascending(right) && i < |left| && j < |right| && Separated(left, right, i, j)
    ensures var i', j' := if left[i] <= right[j] then i + 1 else i, if left[i] >= right[j] then j + 1 else j;
      && Separated(left, right, i', j')
      && SharedCount(left, right, i', j') == SharedCount(left, right, i, j) + if left[i] == right[j] then 1 else 0
  {
    SeparatedNext(left, right, i, j);
    if left[i] < right[j] {
      SharedLower(left, right, i, j);
    } else if left[i] > right[j] {
      SharedHigher(left, right, i, j);
    } else {
      SharedBoth(left, right, i, j);
    }
  }

  lemma {:induction false} SharedAtEnd(left: seq<nat>, right: seq<nat>, i: nat, j: nat)
    requires i <= |left| && j <= |right| && Separated(left, right, i, j)
    requires i == |left| || j == |right|
    ensures |Elements(left) * Elements(right)| == SharedCount(left, right, i, j)
  {
    forall x | x in Elements(left) * Elements(right) ensures x in left[..i] && x in right[..j] {
      var a :| 0 <= a < |left| && left[a] == x;
      var b :| 0 <= b < |right| && right[b] == x;
      assert a < i && b < j;
      assert left[..i][a] == x && right[..j][b] == x;
    }
    assert Elements(left) * Elements(right) == Elements(left[..i]) * Elements(right[..j]);
  }

  lemma {:induction false} CountsDecide(left: seq<nat>, right: seq<nat>, shared: nat)
    requires Ascending(left) && Ascending(right) && shared == |Elements(left) * Elements(right)|
    ensures Exceeds(Elements(left), Elements(right)) <==> shared * 100 > (|left| + |right| - shared) * 85
  {
    ElementsCount(left);
    ElementsCount(right);
    UnionCount(Elements(left), Elements(right));
  }

  /** The merge pass counts what the two sets share. */
  method CountShared(left: seq<nat>, right: seq<nat>) returns (shared: nat)
    requires Ascending(left) && Ascending(right)
    ensures shared == |Elements(left) * Elements(right)|
  {
    var i, j := 0, 0;
    shared := 0;
    NothingShared(left, right);
    while i < |left| && j < |right|
      invariant i <= |left| && j <= |right| && Separated(left, right, i, j)
      invariant shared == SharedCount(left, right, i, j)
      decreases |left| - i + |right| - j
    {
      CountStep(left, right, i, j);
      if left[i] < right[j] {
        i := i + 1;
      } else if left[i] > right[j] {
        j := j + 1;
      } else {
        shared := shared + 1;
        i, j := i + 1, j + 1;
      }
    }
    SharedAtEnd(left, right, i, j);
  }

  /** The count decides the threshold on the two sets exactly. */
  method JaccardExceeds(left: seq<nat>, right: seq<nat>) returns (exceeds: bool)
    requires Ascending(left) && Ascending(right)
    ensures exceeds <==> Exceeds(Elements(left), Elements(right))
  {
    var intersection := CountShared(left, right);
    CountsDecide(left, right, intersection);
    var union := |left| + |right| - intersection;
    return intersection * 100 > union * 85;
  }
}
