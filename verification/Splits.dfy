/**
Split assignment: kept groups and shared repositories are joined into components,
and a component is filed under one split by its identity. The identity and bucket
hashes are arbitrary functions.
*/
module Splits {
  import opened CorpusSplit
  import opened UnionFind
  import opened Connectivity
  import opened Dedup
  import opened Groups
  import opened Representatives

  function SplitForBucket(bucket: nat): Split
  {
    if bucket <= 9_799 then Train else if bucket <= 9_899 then Validation else Test
  }

  datatype Hashes = Hashes(componentId: seq<nat> -> nat, bucket: nat -> nat)

  datatype Component = Component(members: seq<nat>, representatives: seq<nat>, id: nat, bucket: nat, split: Split)

  datatype Assignment = Assignment(document: nat, component: Component)

  // ----- which documents belong together -----

  ghost predicate Kept(groups: seq<seq<nat>>, rejected: set<nat>, x: nat)
  {
    exists g :: KeptIn(groups, rejected, g, x)
  }

  ghost predicate KeptIn(groups: seq<seq<nat>>, rejected: set<nat>, g: nat, x: nat)
  {
    g < |groups| && g !in rejected && x in groups[g]
  }

  ghost predicate SameGroup(groups: seq<seq<nat>>, rejected: set<nat>, x: nat, y: nat)
  {
    exists g :: KeptIn(groups, rejected, g, x) && KeptIn(groups, rejected, g, y)
  }

  /** Two kept documents share a duplicate group or a repository. */
  ghost predicate Linked(docs: seq<Document>, groups: seq<seq<nat>>, rejected: set<nat>, x: nat, y: nat)
  {
    && x < |docs| && y < |docs|
    && Kept(groups, rejected, x) && Kept(groups, rejected, y)
    && (SameGroup(groups, rejected, x, y) || docs[x].repositoryGroup == docs[y].repositoryGroup)
  }

  ghost function LinkEdges(docs: seq<Document>, groups: seq<seq<nat>>, rejected: set<nat>): set<Edge>
  {
    set x, y | 0 <= x < |docs| && 0 <= y < |docs| && Linked(docs, groups, rejected, x, y) :: (x, y)
  }

  ghost predicate GroupsInRange(docs: seq<Document>, groups: seq<seq<nat>>)
  {
    forall g :: 0 <= g < |groups| ==> groups[g] != [] && Bounded(groups[g], |docs|)
  }

  // ----- joining groups and repositories -----

  // What the edges found so far achieve: nothing but links, whole groups
  // connected, and every document seen connected to the first of its repository.
  ghost predicate Joining(docs: seq<Document>, groups: seq<seq<nat>>, rejected: set<nat>, edges: set<Edge>,
                          first: map<nat, nat>, seen: set<nat>)
  {
    && (forall e: Edge :: e in edges ==> Linked(docs, groups, rejected, e.0, e.1))
    && (forall r :: r in first ==> first[r] in seen && first[r] < |docs| && docs[first[r]].repositoryGroup == r)
    && (forall x :: x in seen ==> x < |docs| && Kept(groups, rejected, x) && docs[x].repositoryGroup in first
                                  && Connected(edges, first[docs[x].repositoryGroup], x))
  }

  ghost predicate GroupsJoined(groups: seq<seq<nat>>, rejected: set<nat>, edges: set<Edge>, seen: set<nat>, cluster: nat)
  {
    && (forall g: nat, x: nat :: g < cluster && KeptIn(groups, rejected, g, x) ==>
          x in seen && groups[g] != [] && Connected(edges, groups[g][0], x))
  }

  method JoinRepository(uf: UnionFind, docs: seq<Document>, ghost groups: seq<seq<nat>>, ghost rejected: set<nat>,
                        index: nat, first: map<nat, nat>, ghost edges: set<Edge>, ghost seen: set<nat>)
    returns (first': map<nat, nat>, ghost edges': set<Edge>)
    requires uf.Valid() && |uf.parents| == |docs| && Represents(uf.parents, uf.ranks, edges)
    requires Joining(docs, groups, rejected, edges, first, seen)
    requires index < |docs| && Kept(groups, rejected, index)
    modifies uf
    ensures uf.Valid() && |uf.parents| == |docs| && Represents(uf.parents, uf.ranks, edges')
    ensures edges <= edges' && Joining(docs, groups, rejected, edges', first', seen + {index})
  {
    first', edges' := first, edges;
    var repository := docs[index].repositoryGroup;
    if repository in first {
      ghost var parents, ranks := uf.parents, uf.ranks;
      uf.Union(first[repository], index);
      UnionAddsEdge(parents, ranks, uf.parents, uf.ranks, edges, first[repository], index);
      edges' := edges + {(first[repository], index)};
      Step(edges', first[repository], index);
      forall x | x in seen ensures Connected(edges', first[docs[x].repositoryGroup], x) {
        Monotone(edges, edges', first[docs[x].repositoryGroup], x);
      }
    } else {
      first' := first[repository := index];
      Reflexive(edges, index);
    }
  }

  method JoinRepositories(uf: UnionFind, docs: seq<Document>, ghost groups: seq<seq<nat>>, ghost rejected: set<nat>,
                          group: seq<nat>, first: map<nat, nat>, ghost edges: set<Edge>, ghost seen: set<nat>)
    returns (first': map<nat, nat>, ghost edges': set<Edge>, ghost seen': set<nat>)
    requires uf.Valid() && |uf.parents| == |docs| && Represents(uf.parents, uf.ranks, edges)
    requires Joining(docs, groups, rejected, edges, first, seen)
    requires forall i :: 0 <= i < |group| ==> group[i] < |docs| && Kept(groups, rejected, group[i])
    modifies uf
    ensures uf.Valid() && |uf.parents| == |docs| && Represents(uf.parents, uf.ranks, edges')
    ensures edges <= edges' && Joining(docs, groups, rejected, edges', first', seen')
    ensures seen <= seen' && forall i :: 0 <= i < |group| ==> group[i] in seen'
  {
    first', edges', seen' := first, edges, seen;
    for i := 0 to |group|
      invariant uf.Valid() && |uf.parents| == |docs| && Represents(uf.parents, uf.ranks, edges')
      invariant edges <= edges' && Joining(docs, groups, rejected, edges', first', seen')
      invariant seen <= seen' && forall j :: 0 <= j < i ==> group[j] in seen'
    {
      first', edges' := JoinRepository(uf, docs, groups, rejected, group[i], first', edges', seen');
      seen' := seen' + {group[i]};
    }
  }

  method JoinGroup(uf: UnionFind, docs: seq<Document>, ghost groups: seq<seq<nat>>, ghost rejected: set<nat>,
                   group: seq<nat>, ghost cluster: nat, first: map<nat, nat>, ghost edges: set<Edge>, ghost seen: set<nat>)
    returns (first': map<nat, nat>, ghost edges': set<Edge>, ghost seen': set<nat>)
    requires uf.Valid() && |uf.parents| == |docs| && Represents(uf.parents, uf.ranks, edges)
    requires Joining(docs, groups, rejected, edges, first, seen) && GroupsInRange(docs, groups)
    requires cluster < |groups| && cluster !in rejected && group == groups[cluster]
    requires GroupsJoined(groups, rejected, edges, seen, cluster)
    modifies uf
    ensures uf.Valid() && |uf.parents| == |docs| && Represents(uf.parents, uf.ranks, edges')
    ensures Joining(docs, groups, rejected, edges', first', seen')
    ensures GroupsJoined(groups, rejected, edges', seen', cluster + 1)
  {
    assert Bounded(group, |docs|);
    ghost var windows := UnionWindows(uf, group, edges);
    WindowsAreLinks(docs, groups, rejected, group, cluster, edges, windows, first, seen);
    first', edges', seen' := JoinRepositories(uf, docs, groups, rejected, group, first, windows, seen);
    GroupIsJoined(groups, rejected, group, cluster, edges, windows, edges', seen, seen');
  }

  lemma {:induction false} WindowsAreLinks(docs: seq<Document>, groups: seq<seq<nat>>, rejected: set<nat>, group: seq<nat>, cluster: nat,
                        edges: set<Edge>, windows: set<Edge>, first: map<nat, nat>, seen: set<nat>)
    requires Joining(docs, groups, rejected, edges, first, seen) && edges <= windows
    requires cluster < |groups| && cluster !in rejected && group == groups[cluster] && Bounded(group, |docs|)
    requires forall e :: e in windows ==> e in edges || (e.0 in group && e.1 in group)
    ensures Joining(docs, groups, rejected, windows, first, seen)
    ensures forall i :: 0 <= i < |group| ==> group[i] < |docs| && Kept(groups, rejected, group[i])
  {
    forall i | 0 <= i < |group| ensures group[i] < |docs| && Kept(groups, rejected, group[i]) {
      assert group[i] in group && KeptIn(groups, rejected, cluster, group[i]);
    }
    forall e: Edge | e in windows ensures Linked(docs, groups, rejected, e.0, e.1) {
      if e !in edges {
        assert KeptIn(groups, rejected, cluster, e.0) && KeptIn(groups, rejected, cluster, e.1);
      }
    }
    forall x | x in seen ensures Connected(windows, first[docs[x].repositoryGroup], x) {
      Monotone(edges, windows, first[docs[x].repositoryGroup], x);
    }
  }

  lemma {:induction false} GroupIsJoined(groups: seq<seq<nat>>, rejected: set<nat>, group: seq<nat>, cluster: nat,
                      edges: set<Edge>, windows: set<Edge>, edges': set<Edge>, seen: set<nat>, seen': set<nat>)
    requires cluster < |groups| && cluster !in rejected && group == groups[cluster] && group != []
    requires GroupsJoined(groups, rejected, edges, seen, cluster)
    requires edges <= windows <= edges' && seen <= seen'
    requires forall k :: 0 <= k < |group| ==> Connected(windows, group[0], group[k])
    requires forall j :: 0 <= j < |group| ==> group[j] in seen'
    ensures GroupsJoined(groups, rejected, edges', seen', cluster + 1)
  {
    forall g: nat, x: nat | g < cluster + 1 && KeptIn(groups, rejected, g, x)
      ensures x in seen' && groups[g] != [] && Connected(edges', groups[g][0], x)
    {
      if g < cluster {
        Monotone(edges, edges', groups[g][0], x);
      } else {
        var k :| 0 <= k < |group| && group[k] == x;
        Monotone(windows, edges', group[0], x);
      }
    }
  }

  method JoinAll(uf: UnionFind, docs: seq<Document>, groups: seq<seq<nat>>, rejected: set<nat>)
    returns (ghost edges: set<Edge>)
    requires uf.Valid() && |uf.parents| == |docs| && Represents(uf.parents, uf.ranks, {})
    requires GroupsInRange(docs, groups)
    modifies uf
    ensures uf.Valid() && |uf.parents| == |docs| && Represents(uf.parents, uf.ranks, edges)
    ensures forall x: nat, y: nat :: Connected(edges, x, y) <==> Connected(LinkEdges(docs, groups, rejected), x, y)
  {
    edges := {};
    var first: map<nat, nat> := map[];
    ghost var seen: set<nat> := {};
    for cluster := 0 to |groups|
      invariant uf.Valid() && |uf.parents| == |docs| && Represents(uf.parents, uf.ranks, edges)
      invariant Joining(docs, groups, rejected, edges, first, seen)
      invariant GroupsJoined(groups, rejected, edges, seen, cluster)
    {
      if cluster in rejected {
        assert forall x: nat :: !KeptIn(groups, rejected, cluster, x);
        continue;
      }
      first, edges, seen := JoinGroup(uf, docs, groups, rejected, groups[cluster], cluster, first, edges, seen);
    }
    forall x: nat, y: nat ensures Connected(edges, x, y) <==> Connected(LinkEdges(docs, groups, rejected), x, y) {
      JoinedEdgesAreLinks(docs, groups, rejected, edges, first, seen, x, y);
    }
  }

  lemma {:induction false} JoinedEdgesAreLinks(docs: seq<Document>, groups: seq<seq<nat>>, rejected: set<nat>, edges: set<Edge>,
                            first: map<nat, nat>, seen: set<nat>, x: nat, y: nat)
    requires Joining(docs, groups, rejected, edges, first, seen)
    requires GroupsJoined(groups, rejected, edges, seen, |groups|)
    ensures Connected(edges, x, y) <==> Connected(LinkEdges(docs, groups, rejected), x, y)
  {
    var all := LinkEdges(docs, groups, rejected);
    if Connected(edges, x, y) {
      var w :| WalkBetween(edges, w, x, y);
      assert forall e: Edge :: e in edges ==> e in all;
      assert WalkBetween(all, w, x, y);
    }
    if Connected(all, x, y) {
      var w :| WalkBetween(all, w, x, y);
      forall i: nat | i + 1 < |w| ensures Connected(edges, w[i], w[i + 1]) {
        assert Adjacent(all, w[i], w[i + 1]);
        LinkIsConnected(docs, groups, rejected, edges, first, seen, w[i], w[i + 1]);
      }
      StepsConnect(edges, w);
    }
  }

  lemma {:induction false} LinkIsConnected(docs: seq<Document>, groups: seq<seq<nat>>, rejected: set<nat>, edges: set<Edge>,
                        first: map<nat, nat>, seen: set<nat>, x: nat, y: nat)
    requires Joining(docs, groups, rejected, edges, first, seen)
    requires GroupsJoined(groups, rejected, edges, seen, |groups|)
    requires Linked(docs, groups, rejected, x, y) || Linked(docs, groups, rejected, y, x)
    ensures Connected(edges, x, y)
  {
    if SameGroup(groups, rejected, x, y) || SameGroup(groups, rejected, y, x) {
      var g: nat :| KeptIn(groups, rejected, g, x) && KeptIn(groups, rejected, g, y);
      Symmetric(edges, groups[g][0], x);
      Transitive(edges, x, groups[g][0], y);
    } else {
      var g: nat :| KeptIn(groups, rejected, g, x);
      var h: nat :| KeptIn(groups, rejected, h, y);
      var f := first[docs[x].repositoryGroup];
      Symmetric(edges, f, x);
      Transitive(edges, x, f, y);
    }
  }

  // ----- filing members and representatives under roots -----

  ghost predicate KeptBefore(groups: seq<seq<nat>>, rejected: set<nat>, cluster: nat, x: nat)
  {
    exists g: nat :: g < cluster && KeptIn(groups, rejected, g, x)
  }

  // Group g is kept, starts in the tree of r, and d represents it.
  ghost predicate Represented(docs: seq<Document>, groups: seq<seq<nat>>, rejected: set<nat>, roots: seq<nat>,
                              g: nat, r: nat, d: nat)
    requires GroupsInRange(docs, groups) && |roots| == |docs|
  {
    && g < |groups| && g !in rejected
    && groups[g][0] in groups[g]
    && roots[groups[g][0]] == r
    && d == PositionOfPreferred(docs, groups[g])
  }

  ghost predicate RepresentedBefore(docs: seq<Document>, groups: seq<seq<nat>>, rejected: set<nat>, roots: seq<nat>,
                                    cluster: nat, r: nat, d: nat)
    requires GroupsInRange(docs, groups) && |roots| == |docs|
  {
    exists g: nat :: g < cluster && Represented(docs, groups, rejected, roots, g, r, d)
  }

  ghost predicate Filing(docs: seq<Document>, groups: seq<seq<nat>>, rejected: set<nat>, roots: seq<nat>, cluster: nat,
                         components: map<nat, seq<nat>>, filed: map<nat, seq<nat>>)
    requires GroupsInRange(docs, groups) && |roots| == |docs|
  {
    && (forall r: nat, x: nat :: Has(components, r, x) <==>
          x < |docs| && roots[x] == r && KeptBefore(groups, rejected, cluster, x))
    && (forall r: nat, d: nat :: Has(filed, r, d) <==> RepresentedBefore(docs, groups, rejected, roots, cluster, r, d))
    && (forall r :: r in components ==> components[r] != [])
  }

  function Filed(m: map<nat, seq<nat>>, r: nat, x: nat): (m': map<nat, seq<nat>>)
    ensures forall s: nat, y: nat :: Has(m', s, y) <==> Has(m, s, y) || (s == r && y == x)
    ensures forall s :: s in m' ==> s in m || s == r
    ensures (forall s :: s in m ==> m[s] != []) ==> forall s :: s in m' ==> m'[s] != []
  {
    m[r := (if r in m then m[r] else []) + [x]]
  }

  method FileMembers(uf: UnionFind, group: seq<nat>, components: map<nat, seq<nat>>, ghost roots: seq<nat>)
    returns (components': map<nat, seq<nat>>)
    requires uf.Valid() && RootsAre(uf.parents, uf.ranks, roots)
    requires forall i :: 0 <= i < |group| ==> group[i] < |roots|
    requires forall r :: r in components ==> components[r] != []
    modifies uf`parents
    ensures uf.Valid() && RootsAre(uf.parents, uf.ranks, roots)
    ensures forall r: nat, x: nat :: Has(components', r, x) <==>
      Has(components, r, x) || (x in group && x < |roots| && roots[x] == r)
    ensures forall r :: r in components' ==> components'[r] != []
  {
    components' := components;
    for i := 0 to |group|
      invariant uf.Valid() && RootsAre(uf.parents, uf.ranks, roots)
      invariant forall r: nat, x: nat :: Has(components', r, x) <==>
        Has(components, r, x) || (x in group[..i] && x < |roots| && roots[x] == r)
      invariant forall r :: r in components' ==> components'[r] != []
    {
      var root := uf.Find(group[i]);
      assert group[..i + 1] == group[..i] + [group[i]];
      components' := Filed(components', root, group[i]);
    }
    assert group[..|group|] == group;
  }

  lemma {:induction false} KeptNext(groups: seq<seq<nat>>, rejected: set<nat>, cluster: nat, x: nat)
    requires cluster < |groups| && cluster !in rejected
    ensures KeptBefore(groups, rejected, cluster + 1, x)
       <==> KeptBefore(groups, rejected, cluster, x) || x in groups[cluster]
  {
    assert KeptIn(groups, rejected, cluster, x) <==> x in groups[cluster];
  }

  lemma {:induction false} RepresentedNext(docs: seq<Document>, groups: seq<seq<nat>>, rejected: set<nat>, roots: seq<nat>, cluster: nat,
                        r: nat, d: nat)
    requires GroupsInRange(docs, groups) && |roots| == |docs|
    ensures RepresentedBefore(docs, groups, rejected, roots, cluster + 1, r, d)
       <==> RepresentedBefore(docs, groups, rejected, roots, cluster, r, d)
            || Represented(docs, groups, rejected, roots, cluster, r, d)
  {
  }

  lemma {:induction false} FilingStep(docs: seq<Document>, groups: seq<seq<nat>>, rejected: set<nat>, roots: seq<nat>, cluster: nat,
                   components: map<nat, seq<nat>>, filed: map<nat, seq<nat>>,
                   components': map<nat, seq<nat>>, filed': map<nat, seq<nat>>)
    requires GroupsInRange(docs, groups) && |roots| == |docs| && cluster < |groups| && cluster !in rejected
    requires Filing(docs, groups, rejected, roots, cluster, components, filed)
    requires groups[cluster][0] < |docs|
    requires forall r: nat, x: nat :: Has(components', r, x) <==>
      Has(components, r, x) || (x in groups[cluster] && x < |roots| && roots[x] == r)
    requires forall r :: r in components' ==> components'[r] != []
    requires forall r: nat, d: nat :: Has(filed', r, d) <==>
      Has(filed, r, d) || (r == roots[groups[cluster][0]] && d == PositionOfPreferred(docs, groups[cluster]))
    ensures Filing(docs, groups, rejected, roots, cluster + 1, components', filed')
  {
    forall r: nat, x: nat ensures Has(components', r, x) <==>
      x < |docs| && roots[x] == r && KeptBefore(groups, rejected, cluster + 1, x)
    {
      KeptNext(groups, rejected, cluster, x);
    }
    forall r: nat, d: nat
      ensures Has(filed', r, d) <==> RepresentedBefore(docs, groups, rejected, roots, cluster + 1, r, d)
    {
      RepresentedNext(docs, groups, rejected, roots, cluster, r, d);
      assert groups[cluster][0] in groups[cluster];
    }
  }

  lemma {:induction false} FilingSkips(docs: seq<Document>, groups: seq<seq<nat>>, rejected: set<nat>, roots: seq<nat>, cluster: nat,
                    components: map<nat, seq<nat>>, filed: map<nat, seq<nat>>)
    requires GroupsInRange(docs, groups) && |roots| == |docs| && cluster < |groups| && cluster in rejected
    requires Filing(docs, groups, rejected, roots, cluster, components, filed)
    ensures Filing(docs, groups, rejected, roots, cluster + 1, components, filed)
  {
    forall x: nat ensures KeptBefore(groups, rejected, cluster + 1, x) <==> KeptBefore(groups, rejected, cluster, x) {
      assert !KeptIn(groups, rejected, cluster, x);
    }
    forall r: nat, d: nat ensures RepresentedBefore(docs, groups, rejected, roots, cluster + 1, r, d)
      <==> RepresentedBefore(docs, groups, rejected, roots, cluster, r, d)
    {
      assert !Represented(docs, groups, rejected, roots, cluster, r, d);
    }
  }

  /** Files one kept group: its members, and its representative. */
  method FileGroup(uf: UnionFind, docs: seq<Document>, groups: seq<seq<nat>>, ghost rejected: set<nat>, cluster: nat,
                   components: map<nat, seq<nat>>, filed: map<nat, seq<nat>>, ghost roots: seq<nat>)
    returns (components': map<nat, seq<nat>>, filed': map<nat, seq<nat>>)
    requires uf.Valid() && RootsAre(uf.parents, uf.ranks, roots) && |roots| == |docs| && GroupsInRange(docs, groups)
    requires cluster < |groups| && cluster !in rejected
    requires Filing(docs, groups, rejected, roots, cluster, components, filed)
    modifies uf`parents
    ensures uf.Valid() && RootsAre(uf.parents, uf.ranks, roots)
    ensures Filing(docs, groups, rejected, roots, cluster + 1, components', filed')
  {
    var group := groups[cluster];
    assert Bounded(group, |docs|);
    assert forall i :: 0 <= i < |group| ==> group[i] in group;
    var root := uf.Find(group[0]);
    filed' := Filed(filed, root, PositionOfPreferred(docs, group));
    components' := FileMembers(uf, group, components, roots);
    FilingStep(docs, groups, rejected, roots, cluster, components, filed, components', filed');
  }

  /** The one pass that files every kept member and every kept group's
      representative under its root. */
  method FileAll(uf: UnionFind, docs: seq<Document>, groups: seq<seq<nat>>, rejected: set<nat>, ghost roots: seq<nat>)
    returns (components: map<nat, seq<nat>>, filed: map<nat, seq<nat>>)
    requires uf.Valid() && RootsAre(uf.parents, uf.ranks, roots) && |roots| == |docs| && GroupsInRange(docs, groups)
    modifies uf`parents
    ensures Filing(docs, groups, rejected, roots, |groups|, components, filed)
  {
    components, filed := map[], map[];
    for cluster := 0 to |groups|
      invariant uf.Valid() && RootsAre(uf.parents, uf.ranks, roots)
      invariant Filing(docs, groups, rejected, roots, cluster, components, filed)
    {
      if cluster in rejected {
        FilingSkips(docs, groups, rejected, roots, cluster, components, filed);
        continue;
      }
      components, filed := FileGroup(uf, docs, groups, rejected, cluster, components, filed, roots);
    }
  }
}
