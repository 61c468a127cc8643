/**
Union-find with path compression and union by rank: the roots it computes, why
ranks stay small, and the classes it represents.
*/
module UnionFind {
  import Machine

  function Largest(ranks: seq<nat>): (m: nat)
    ensures forall i :: 0 <= i < |ranks| ==> ranks[i] <= m
  {
    if ranks == [] then 0
    else
      var m := Largest(ranks[1..]);
      assert forall i :: 1 <= i < |ranks| ==> ranks[i] == ranks[1..][i - 1];
      if ranks[0] > m then ranks[0] else m
  }

  /** Parents point at nodes of strictly greater rank, so there are no cycles. */
  ghost predicate Forest(parents: seq<nat>, ranks: seq<nat>)
  {
    && |parents| == |ranks|
    && (forall x :: 0 <= x < |parents| ==> parents[x] < |parents|)
    && (forall x :: 0 <= x < |parents| && parents[x] != x ==> ranks[x] < ranks[parents[x]])
  }

  function Root(parents: seq<nat>, ranks: seq<nat>, x: nat): (r: nat)
    requires Forest(parents, ranks) && x < |parents|
    ensures r < |parents| && parents[r] == r
    ensures ranks[x] <= ranks[r]
    decreases Largest(ranks) - ranks[x]
  {
    if parents[x] == x then x else Root(parents, ranks, parents[x])
  }

  // ----- compression -----

  ghost predicate SameRoots(parents: seq<nat>, ranks: seq<nat>, parents': seq<nat>)
    requires Forest(parents, ranks) && Forest(parents', ranks)
  {
    forall x :: 0 <= x < |parents| ==> Root(parents', ranks, x) == Root(parents, ranks, x)
  }

  lemma {:induction false} CompressedRoot(parents: seq<nat>, ranks: seq<nat>, v: nat, x: nat)
    requires Forest(parents, ranks) && v < |parents| && x < |parents| && parents[v] != v
    ensures var parents' := parents[v := Root(parents, ranks, v)];
      Forest(parents', ranks) && Root(parents', ranks, x) == Root(parents, ranks, x)
    decreases Largest(ranks) - ranks[x]
  {
    var r := Root(parents, ranks, v);
    var parents' := parents[v := r];
    assert ranks[v] < ranks[parents[v]] <= ranks[r];
    if x == v {
      assert Root(parents', ranks, v) == Root(parents', ranks, r) == r;
    } else if parents[x] != x {
      CompressedRoot(parents, ranks, v, parents[x]);
    }
  }

  lemma {:induction false} CompressKeepsRoots(parents: seq<nat>, ranks: seq<nat>, v: nat)
    requires Forest(parents, ranks) && v < |parents| && parents[v] != v
    ensures var parents' := parents[v := Root(parents, ranks, v)];
      Forest(parents', ranks) && SameRoots(parents, ranks, parents')
  {
    CompressedRoot(parents, ranks, v, v);
    forall x | 0 <= x < |parents|
      ensures Root(parents[v := Root(parents, ranks, v)], ranks, x) == Root(parents, ranks, x)
    {
      CompressedRoot(parents, ranks, v, x);
    }
  }

  // ----- linking two roots -----

  // `child` hangs under `top`; only top's rank may rise, and only by one.
  ghost predicate Hung(parents: seq<nat>, ranks: seq<nat>, parents': seq<nat>, ranks': seq<nat>, child: nat, top: nat)
  {
    && Forest(parents, ranks) && child < |parents| && top < |parents| && child != top
    && parents[child] == child && parents[top] == top
    && parents' == parents[child := top]
    && (|| (ranks[child] < ranks[top] && ranks' == ranks)
        || (ranks[child] == ranks[top] && ranks' == ranks[top := ranks[top] + 1]))
  }

  lemma {:induction false} HungForest(parents: seq<nat>, ranks: seq<nat>, parents': seq<nat>, ranks': seq<nat>, child: nat, top: nat)
    requires Hung(parents, ranks, parents', ranks', child, top)
    ensures Forest(parents', ranks')
  {
  }

  lemma {:induction false} HungRoot(parents: seq<nat>, ranks: seq<nat>, parents': seq<nat>, ranks': seq<nat>,
                                   child: nat, top: nat, x: nat)
    requires Hung(parents, ranks, parents', ranks', child, top) && Forest(parents', ranks') && x < |parents|
    ensures Root(parents', ranks', x)
         == if Root(parents, ranks, x) == child then top else Root(parents, ranks, x)
    decreases Largest(ranks) - ranks[x]
  {
    if x == child {
      assert Root(parents', ranks', top) == top;
    } else if parents[x] != x {
      HungRoot(parents, ranks, parents', ranks', child, top, parents[x]);
    }
  }

  // What the link does to every root.
  ghost predicate Relabelled(parents: seq<nat>, ranks: seq<nat>, parents': seq<nat>, ranks': seq<nat>, child: nat, top: nat)
    requires Forest(parents, ranks) && Forest(parents', ranks') && |parents| == |parents'|
  {
    forall x :: 0 <= x < |parents| ==>
      Root(parents', ranks', x) == if Root(parents, ranks, x) == child then top else Root(parents, ranks, x)
  }

  lemma {:induction false} HungRelabels(parents: seq<nat>, ranks: seq<nat>, parents': seq<nat>, ranks': seq<nat>, child: nat, top: nat)
    requires Hung(parents, ranks, parents', ranks', child, top)
    ensures Forest(parents', ranks') && Relabelled(parents, ranks, parents', ranks', child, top)
  {
    HungForest(parents, ranks, parents', ranks', child, top);
    forall x | 0 <= x < |parents|
      ensures Root(parents', ranks', x) == if Root(parents, ranks, x) == child then top else Root(parents, ranks, x)
    {
      HungRoot(parents, ranks, parents', ranks', child, top, x);
    }
  }

  // ----- sizes and ranks -----

  ghost function Members(parents: seq<nat>, ranks: seq<nat>, r: nat, upto: nat): set<nat>
    requires Forest(parents, ranks) && upto <= |parents|
  {
    set x | 0 <= x < upto && Root(parents, ranks, x) == r
  }

  ghost predicate Heavy(parents: seq<nat>, ranks: seq<nat>, r: nat)
    requires Forest(parents, ranks) && r < |parents|
  {
    Machine.Power(2, ranks[r]) <= |Members(parents, ranks, r, |parents|)|
  }

  /** A tree of rank k has at least 2^k nodes. */
  ghost predicate Balanced(parents: seq<nat>, ranks: seq<nat>)
    requires Forest(parents, ranks)
  {
    forall r :: 0 <= r < |parents| && parents[r] == r ==> Heavy(parents, ranks, r)
  }

  lemma {:induction false} DisjointSize(a: set<nat>, b: set<nat>)
    requires a !! b
    ensures |a + b| == |a| + |b|
  {
  }

  lemma {:induction false} LinkedPower(parents: seq<nat>, ranks: seq<nat>, parents': seq<nat>, ranks': seq<nat>, child: nat, top: nat)
    requires Hung(parents, ranks, parents', ranks', child, top)
    ensures Machine.Power(2, ranks'[top]) <= Machine.Power(2, ranks[top]) + Machine.Power(2, ranks[child])
  {
    if ranks' != ranks {
      assert ranks'[top] == ranks[top] + 1;
    }
  }

  lemma {:induction false} TopTakesBoth(parents: seq<nat>, ranks: seq<nat>, parents': seq<nat>, ranks': seq<nat>, child: nat, top: nat)
    requires Hung(parents, ranks, parents', ranks', child, top) && Forest(parents', ranks')
    requires Relabelled(parents, ranks, parents', ranks', child, top)
    ensures var n := |parents|;
      && Members(parents', ranks', top, n) == Members(parents, ranks, top, n) + Members(parents, ranks, child, n)
      && Members(parents, ranks, top, n) !! Members(parents, ranks, child, n)
  {
  }

  lemma {:induction false} TopIsHeavy(parents: seq<nat>, ranks: seq<nat>, parents': seq<nat>, ranks': seq<nat>, child: nat, top: nat)
    requires Hung(parents, ranks, parents', ranks', child, top) && Forest(parents', ranks')
    requires Relabelled(parents, ranks, parents', ranks', child, top)
    requires Heavy(parents, ranks, child) && Heavy(parents, ranks, top)
    ensures Heavy(parents', ranks', top)
  {
    var n := |parents|;
    LinkedPower(parents, ranks, parents', ranks', child, top);
    TopTakesBoth(parents, ranks, parents', ranks', child, top);
    DisjointSize(Members(parents, ranks, top, n), Members(parents, ranks, child, n));
  }

  lemma {:induction false} OthersStayHeavy(parents: seq<nat>, ranks: seq<nat>, parents': seq<nat>, ranks': seq<nat>, child: nat, top: nat, r: nat)
    requires Hung(parents, ranks, parents', ranks', child, top) && Forest(parents', ranks')
    requires Relabelled(parents, ranks, parents', ranks', child, top)
    requires r < |parents| && r != child && r != top && Heavy(parents, ranks, r)
    ensures Heavy(parents', ranks', r)
  {
    assert Members(parents', ranks', r, |parents|) == Members(parents, ranks, r, |parents|);
  }

  lemma {:induction false} HungBalanced(parents: seq<nat>, ranks: seq<nat>, parents': seq<nat>, ranks': seq<nat>, child: nat, top: nat)
    requires Hung(parents, ranks, parents', ranks', child, top) && Forest(parents', ranks')
    requires Relabelled(parents, ranks, parents', ranks', child, top)
    requires Balanced(parents, ranks)
    ensures Balanced(parents', ranks')
  {
    forall r | 0 <= r < |parents| && parents'[r] == r ensures Heavy(parents', ranks', r) {
      assert Heavy(parents, ranks, r);
      if r == top {
        assert Heavy(parents, ranks, child);
        TopIsHeavy(parents, ranks, parents', ranks', child, top);
      } else {
        OthersStayHeavy(parents, ranks, parents', ranks', child, top, r);
      }
    }
  }

  lemma {:induction false} CompressBalanced(parents: seq<nat>, ranks: seq<nat>, parents': seq<nat>)
    requires Forest(parents, ranks) && Forest(parents', ranks) && SameRoots(parents, ranks, parents')
    requires Balanced(parents, ranks)
    ensures Balanced(parents', ranks)
  {
    forall r | 0 <= r < |parents| && parents'[r] == r ensures Heavy(parents', ranks, r) {
      assert Root(parents', ranks, r) == r == Root(parents, ranks, r);
      assert Heavy(parents, ranks, r);
      assert Members(parents', ranks, r, |parents|) == Members(parents, ranks, r, |parents|);
    }
  }

  lemma {:induction false} PowerGrows(a: nat, b: nat)
    requires a <= b
    ensures Machine.Power(2, a) <= Machine.Power(2, b)
    decreases b
  {
    if a < b {
      PowerGrows(a, b - 1);
    }
  }

  lemma {:induction false} MembersFit(parents: seq<nat>, ranks: seq<nat>, r: nat, upto: nat)
    requires Forest(parents, ranks) && upto <= |parents|
    ensures |Members(parents, ranks, r, upto)| <= upto
  {
    if upto == 0 {
      assert Members(parents, ranks, r, 0) == {};
    } else {
      MembersFit(parents, ranks, r, upto - 1);
      var fewer := Members(parents, ranks, r, upto - 1);
      assert Members(parents, ranks, r, upto)
          == if Root(parents, ranks, upto - 1) == r then fewer + {upto - 1} else fewer;
    }
  }

  /** No rank ever exceeds the binary logarithm of the node count: a u8 holds the
      rank of any forest that fits a 64-bit address space. */
  lemma {:induction false} RanksStaySmall(parents: seq<nat>, ranks: seq<nat>, x: nat)
    requires Forest(parents, ranks) && Balanced(parents, ranks) && x < |parents|
    ensures Machine.Power(2, ranks[x]) <= |parents|
    ensures |parents| < Machine.Power(2, 64) ==> ranks[x] < 64
  {
    var r := Root(parents, ranks, x);
    PowerGrows(ranks[x], ranks[r]);
    assert Heavy(parents, ranks, r);
    MembersFit(parents, ranks, r, |parents|);
    if ranks[x] >= 64 {
      PowerGrows(64, ranks[x]);
    }
  }

  // ----- the structure -----

  /** Two nodes in one tree. */
  ghost predicate Together(parents: seq<nat>, ranks: seq<nat>, x: nat, y: nat)
    requires Forest(parents, ranks) && x < |parents| && y < |parents|
  {
    Root(parents, ranks, x) == Root(parents, ranks, y)
  }

  // The recursive call of find has run; now point `v` at the root it found.
  lemma {:induction false} CompressStep(parents0: seq<nat>, parents1: seq<nat>, ranks: seq<nat>, v: nat, top: nat)
    requires Forest(parents0, ranks) && Forest(parents1, ranks) && SameRoots(parents0, ranks, parents1)
    requires |parents1| == |parents0| && Balanced(parents1, ranks)
    requires v < |parents0| && parents0[v] != v && top == Root(parents0, ranks, parents0[v])
    ensures var parents2 := parents1[v := top];
      && Forest(parents2, ranks) && SameRoots(parents0, ranks, parents2) && Balanced(parents2, ranks)
      && top == Root(parents0, ranks, v)
  {
    assert top == Root(parents0, ranks, v) == Root(parents1, ranks, v);
    CompressKeepsRoots(parents1, ranks, v);
    CompressBalanced(parents1, ranks, parents1[v := top]);
  }

  // How one union changes who is together with whom.
  ghost predicate Joined(parents: seq<nat>, ranks: seq<nat>, parents': seq<nat>, ranks': seq<nat>, left: nat, right: nat)
    requires Forest(parents, ranks) && Forest(parents', ranks') && |parents'| == |parents|
    requires left < |parents| && right < |parents|
  {
    forall x, y :: 0 <= x < |parents| && 0 <= y < |parents| ==>
      (Together(parents', ranks', x, y) <==>
         || Together(parents, ranks, x, y)
         || (Together(parents, ranks, x, left) && Together(parents, ranks, y, right))
         || (Together(parents, ranks, x, right) && Together(parents, ranks, y, left)))
  }

  lemma {:induction false} RelabelledJoins(parents0: seq<nat>, parents: seq<nat>, ranks: seq<nat>, parents': seq<nat>, ranks': seq<nat>,
                        left: nat, right: nat, child: nat, top: nat)
    requires Forest(parents0, ranks) && Forest(parents, ranks) && SameRoots(parents0, ranks, parents) && |parents| == |parents0|
    requires left < |parents| && right < |parents| && Forest(parents', ranks') && |parents'| == |parents|
    requires Relabelled(parents, ranks, parents', ranks', child, top) && child != top
    requires (child == Root(parents0, ranks, left) && top == Root(parents0, ranks, right))
          || (top == Root(parents0, ranks, left) && child == Root(parents0, ranks, right))
    ensures Joined(parents0, ranks, parents', ranks', left, right)
  {
  }

  lemma {:induction false} LinkJoins(parents0: seq<nat>, parents: seq<nat>, ranks: seq<nat>, parents': seq<nat>, ranks': seq<nat>,
                  left: nat, right: nat, child: nat, top: nat)
    requires Forest(parents0, ranks) && Forest(parents, ranks) && SameRoots(parents0, ranks, parents) && |parents| == |parents0|
    requires left < |parents| && right < |parents|
    requires Balanced(parents, ranks) && Hung(parents, ranks, parents', ranks', child, top)
    requires {child, top} == {Root(parents0, ranks, left), Root(parents0, ranks, right)}
    ensures Forest(parents', ranks') && Balanced(parents', ranks')
    ensures Joined(parents0, ranks, parents', ranks', left, right)
  {
    HungRelabels(parents, ranks, parents', ranks', child, top);
    HungBalanced(parents, ranks, parents', ranks', child, top);
    assert top in {child, top} && child in {child, top};
    RelabelledJoins(parents0, parents, ranks, parents', ranks', left, right, child, top);
  }

  class UnionFind {
    var parents: seq<nat>
    var ranks: seq<nat>

    ghost predicate Valid()
      reads this
    {
      Forest(parents, ranks) && Balanced(parents, ranks)
    }

    constructor (length: nat)
      ensures Valid() && |parents| == length
      ensures forall x, y :: 0 <= x < length && 0 <= y < length ==> (Together(parents, ranks, x, y) <==> x == y)
    {
      parents := seq(length, i => i);
      ranks := seq(length, _ => 0);
      new;
      forall r | 0 <= r < length ensures Heavy(parents, ranks, r) {
        assert Members(parents, ranks, r, length) == {r};
      }
    }

    /** Find with path compression: the root, and no root changes. */
    method Find(value: nat) returns (root: nat)
      requires Valid() && value < |parents|
      modifies this`parents
      ensures Valid() && |parents| == |old(parents)|
      ensures root == Root(old(parents), ranks, value)
      ensures SameRoots(old(parents), ranks, parents)
      decreases Largest(ranks) - ranks[value]
    {
      if parents[value] == value {
        return value;
      }
      root := Find(parents[value]);
      CompressStep(old(parents), parents, ranks, value, root);
      parents := parents[value := root];
    }

    /** Union by rank: exactly the two classes become one. */
    method Union(left: nat, right: nat)
      requires Valid() && left < |parents| && right < |parents|
      modifies this
      ensures Valid() && |parents| == |old(parents)|
      ensures Joined(old(parents), old(ranks), parents, ranks, left, right)
    {
      var a := Find(left);
      var b := Find(right);
      if a == b {
        return;
      }
      var child, top := b, a;
      if ranks[a] < ranks[b] {
        child, top := a, b;
      }
      ghost var parents0, ranks0 := parents, ranks;
      parents := parents[child := top];
      if ranks[a] == ranks[b] {
        ranks := ranks[a := ranks[a] + 1];
      }
      LinkJoins(old(parents), parents0, ranks0, parents, ranks, left, right, child, top);
    }
  }
}
