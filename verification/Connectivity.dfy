/**
Walks in an undirected graph given by a set of edges, and how adding one edge
changes which nodes are connected.
*/
module Connectivity {
  import opened Sequences
  import opened UnionFind

  type Edge = (nat, nat)

  ghost predicate Adjacent(edges: set<Edge>, x: nat, y: nat)
  {
    (x, y) in edges || (y, x) in edges
  }

  ghost predicate Walk(edges: set<Edge>, w: seq<nat>)
  {
    && w != []
    && forall i: nat :: i + 1 < |w| ==> Adjacent(edges, w[i], w[i + 1])
  }

  ghost predicate WalkBetween(edges: set<Edge>, w: seq<nat>, x: nat, y: nat)
  {
    Walk(edges, w) && w[0] == x && w[|w| - 1] == y
  }

  /** `y` can be reached from `x` along edges in either direction. */
  ghost predicate Connected(edges: set<Edge>, x: nat, y: nat)
  {
    exists w :: WalkBetween(edges, w, x, y)
  }

  lemma {:induction false} Reflexive(edges: set<Edge>, x: nat)
    ensures Connected(edges, x, x)
  {
    assert WalkBetween(edges, [x], x, x);
  }

  lemma {:induction false} Step(edges: set<Edge>, x: nat, y: nat)
    requires Adjacent(edges, x, y)
    ensures Connected(edges, x, y)
  {
    assert WalkBetween(edges, [x, y], x, y);
  }

  lemma {:induction false} Symmetric(edges: set<Edge>, x: nat, y: nat)
    requires Connected(edges, x, y)
    ensures Connected(edges, y, x)
  {
    var w :| WalkBetween(edges, w, x, y);
    var r := Reversed(w);
    forall i: nat | i + 1 < |r| ensures Adjacent(edges, r[i], r[i + 1]) {
      var j := |w| - 2 - i;
      assert Adjacent(edges, w[j], w[j + 1]);
    }
    assert WalkBetween(edges, r, y, x);
  }

  lemma {:induction false} Transitive(edges: set<Edge>, x: nat, y: nat, z: nat)
    requires Connected(edges, x, y) && Connected(edges, y, z)
    ensures Connected(edges, x, z)
  {
    var v :| WalkBetween(edges, v, x, y);
    var w :| WalkBetween(edges, w, y, z);
    var u := v + w[1..];
    forall i: nat | i + 1 < |u| ensures Adjacent(edges, u[i], u[i + 1]) {
      if i + 1 < |v| {
        assert Adjacent(edges, v[i], v[i + 1]);
      } else {
        var j := i + 1 - |v|;
        assert Adjacent(edges, w[j], w[j + 1]);
        assert u[i + 1] == w[j + 1];
        assert u[i] == w[j];
      }
    }
    assert WalkBetween(edges, u, x, z);
  }

  lemma {:induction false} Monotone(edges: set<Edge>, more: set<Edge>, x: nat, y: nat)
    requires edges <= more && Connected(edges, x, y)
    ensures Connected(more, x, y)
  {
    var w :| WalkBetween(edges, w, x, y);
    assert WalkBetween(more, w, x, y);
  }

  // ----- one more edge -----

  // Connected before, or through the new edge.
  ghost predicate Through(edges: set<Edge>, l: nat, r: nat, x: nat, y: nat)
  {
    || Connected(edges, x, y)
    || (Connected(edges, x, l) && Connected(edges, y, r))
    || (Connected(edges, x, r) && Connected(edges, y, l))
  }

  lemma {:induction false} ThroughStep(edges: set<Edge>, l: nat, r: nat, x: nat, z: nat, y: nat)
    requires Through(edges, l, r, x, z) && Adjacent(edges + {(l, r)}, z, y)
    ensures Through(edges, l, r, x, y)
  {
    Reflexive(edges, l);
    Reflexive(edges, r);
    if Adjacent(edges, z, y) {
      Step(edges, y, z);
      Step(edges, z, y);
      if Connected(edges, x, z) {
        Transitive(edges, x, z, y);
      } else if Connected(edges, x, l) && Connected(edges, z, r) {
        Transitive(edges, y, z, r);
      } else {
        Transitive(edges, y, z, l);
      }
    }
  }

  lemma {:induction false} ThroughWalk(edges: set<Edge>, l: nat, r: nat, w: seq<nat>)
    requires Walk(edges + {(l, r)}, w)
    ensures Through(edges, l, r, w[0], w[|w| - 1])
    decreases |w|
  {
    if |w| == 1 {
      Reflexive(edges, w[0]);
    } else {
      var v := w[..|w| - 1];
      forall i: nat | i + 1 < |v| ensures Adjacent(edges + {(l, r)}, v[i], v[i + 1]) {
        assert Adjacent(edges + {(l, r)}, w[i], w[i + 1]);
      }
      ThroughWalk(edges, l, r, v);
      assert Adjacent(edges + {(l, r)}, w[|w| - 2], w[|w| - 2 + 1]);
      ThroughStep(edges, l, r, w[0], w[|w| - 2], w[|w| - 1]);
    }
  }

  lemma {:induction false} OneMoreEdge(edges: set<Edge>, l: nat, r: nat, x: nat, y: nat)
    ensures Connected(edges + {(l, r)}, x, y) <==> Through(edges, l, r, x, y)
  {
    var more := edges + {(l, r)};
    if Connected(more, x, y) {
      var w :| WalkBetween(more, w, x, y);
      ThroughWalk(edges, l, r, w);
    }
    Step(more, l, r);
    Step(more, r, l);
    if Connected(edges, x, y) {
      Monotone(edges, more, x, y);
    } else if Connected(edges, x, l) && Connected(edges, y, r) {
      Monotone(edges, more, x, l);
      Monotone(edges, more, y, r);
      Symmetric(more, y, r);
      Transitive(more, x, l, r);
      Transitive(more, x, r, y);
    } else if Connected(edges, x, r) && Connected(edges, y, l) {
      Monotone(edges, more, x, r);
      Monotone(edges, more, y, l);
      Symmetric(more, y, l);
      Transitive(more, x, r, l);
      Transitive(more, x, l, y);
    }
  }

  lemma {:induction false} NoEdges(x: nat, y: nat)
    ensures Connected({}, x, y) <==> x == y
  {
    Reflexive({}, x);
    if Connected({}, x, y) {
      var w :| WalkBetween({}, w, x, y);
      assert |w| > 1 ==> Adjacent({}, w[0], w[0 + 1]);
    }
  }

  // ----- union-find represents connectivity -----

  /** Trees are exactly the connected components. */
  ghost predicate Represents(parents: seq<nat>, ranks: seq<nat>, edges: set<Edge>)
    requires Forest(parents, ranks)
  {
    forall x, y :: 0 <= x < |parents| && 0 <= y < |parents| ==>
      (Together(parents, ranks, x, y) <==> Connected(edges, x, y))
  }

  lemma {:induction false} UnionAddsEdge(parents: seq<nat>, ranks: seq<nat>, parents': seq<nat>, ranks': seq<nat>,
                      edges: set<Edge>, l: nat, r: nat)
    requires Forest(parents, ranks) && Forest(parents', ranks') && |parents'| == |parents|
    requires l < |parents| && r < |parents|
    requires Represents(parents, ranks, edges) && Joined(parents, ranks, parents', ranks', l, r)
    ensures Represents(parents', ranks', edges + {(l, r)})
  {
    forall x, y | 0 <= x < |parents| && 0 <= y < |parents|
      ensures Together(parents', ranks', x, y) <==> Connected(edges + {(l, r)}, x, y)
    {
      OneMoreEdge(edges, l, r, x, y);
    }
  }

  lemma {:induction false} FindKeepsEdges(parents: seq<nat>, ranks: seq<nat>, parents': seq<nat>, edges: set<Edge>)
    requires Forest(parents, ranks) && Forest(parents', ranks) && |parents'| == |parents|
    requires Represents(parents, ranks, edges) && SameRoots(parents, ranks, parents')
    ensures Represents(parents', ranks, edges)
  {
    forall x, y | 0 <= x < |parents| && 0 <= y < |parents|
      ensures Together(parents', ranks, x, y) <==> Connected(edges, x, y)
    {
      assert Together(parents', ranks, x, y) <==> Together(parents, ranks, x, y);
    }
  }
}
