/**
From union-find classes to the sorted duplicate groups of the manifest, and why
those groups do not depend on the order in which documents arrive.
*/
module Groups {
  import opened UnionFind
  import opened Connectivity
  import opened Dedup
  import Sorting

  ghost predicate Bounded(group: seq<nat>, n: nat)
  {
    forall x :: x in group ==> x < n
  }

  // ----- collecting classes -----

  ghost predicate Has(grouped: map<nat, seq<nat>>, r: nat, x: nat)
  {
    r in grouped && x in grouped[r]
  }

  ghost predicate Collected(grouped: map<nat, seq<nat>>, roots: seq<nat>, index: nat)
    requires index <= |roots|
  {
    && (forall r, x: nat :: Has(grouped, r, x) <==> x < index && roots[x] == r)
    && (forall r :: r in grouped ==> grouped[r] != [] && Sorting.Strict(grouped[r], Self))
  }

  function Self(x: nat): nat { x }

  ghost predicate RootsAre(parents: seq<nat>, ranks: seq<nat>, roots: seq<nat>)
    requires Forest(parents, ranks)
  {
    |roots| == |parents| && forall x :: 0 <= x < |parents| ==> Root(parents, ranks, x) == roots[x]
  }

  lemma {:induction false} CollectStep(grouped: map<nat, seq<nat>>, roots: seq<nat>, index: nat)
    requires index < |roots| && Collected(grouped, roots, index)
    ensures var r := roots[index];
      Collected(grouped[r := (if r in grouped then grouped[r] else []) + [index]], roots, index + 1)
  {
    var r := roots[index];
    var grouped' := grouped[r := (if r in grouped then grouped[r] else []) + [index]];
    forall s, x: nat ensures Has(grouped', s, x) <==> x < index + 1 && roots[x] == s {
      assert Has(grouped', s, x) <==> Has(grouped, s, x) || (s == r && x == index);
    }
    if r in grouped {
      forall i | 0 <= i < |grouped[r]| ensures grouped[r][i] < index {
        assert Has(grouped, r, grouped[r][i]);
      }
    }
  }

  method Collect(uf: UnionFind) returns (grouped: map<nat, seq<nat>>, ghost roots: seq<nat>)
    requires uf.Valid()
    modifies uf`parents
    ensures uf.Valid() && |uf.parents| == |old(uf.parents)|
    ensures SameRoots(old(uf.parents), uf.ranks, uf.parents)
    ensures RootsAre(uf.parents, uf.ranks, roots) && Collected(grouped, roots, |roots|)
  {
    roots := seq(|uf.parents|, x requires 0 <= x < |uf.parents| && Forest(uf.parents, uf.ranks) reads uf =>
      Root(uf.parents, uf.ranks, x));
    grouped := map[];
    for index := 0 to |uf.parents|
      invariant uf.Valid() && |uf.parents| == |old(uf.parents)|
      invariant SameRoots(old(uf.parents), uf.ranks, uf.parents)
      invariant RootsAre(uf.parents, uf.ranks, roots) && Collected(grouped, roots, index)
    {
      var r := uf.Find(index);
      CollectStep(grouped, roots, index);
      grouped := grouped[r := (if r in grouped then grouped[r] else []) + [index]];
    }
  }

  ghost predicate Placed(groups: seq<seq<nat>>, x: nat)
  {
    exists g :: 0 <= g < |groups| && x in groups[g]
  }

  /** The groups are the connected components of `edges` on 0..n. */
  ghost predicate Partition(groups: seq<seq<nat>>, n: nat, edges: set<Edge>)
  {
    && (forall g :: 0 <= g < |groups| ==> groups[g] != [] && Bounded(groups[g], n))
    && (forall x: nat :: x < n ==> Placed(groups, x))
    && (forall g, x, y: nat :: 0 <= g < |groups| && x in groups[g] && y < n ==> (y in groups[g] <==> Connected(edges, x, y)))
    && (forall g, h, x :: 0 <= g < h < |groups| && x in groups[g] ==> x !in groups[h])
  }

  // The classes of the roots already listed.
  ghost predicate Listed(groups: seq<seq<nat>>, keys: seq<nat>, grouped: map<nat, seq<nat>>, done: set<nat>)
  {
    && |groups| == |keys|
    && (forall g :: 0 <= g < |keys| ==> keys[g] in done && keys[g] in grouped && groups[g] == grouped[keys[g]])
    && (forall g, h :: 0 <= g < h < |keys| ==> keys[g] != keys[h])
    && (forall r :: r in done ==> r in keys)
  }

  method ListGroups(grouped: map<nat, seq<nat>>) returns (groups: seq<seq<nat>>, ghost keys: seq<nat>)
    ensures Listed(groups, keys, grouped, grouped.Keys)
  {
    groups, keys := [], [];
    var pending := grouped.Keys;
    while pending != {}
      invariant pending <= grouped.Keys
      invariant Listed(groups, keys, grouped, grouped.Keys - pending)
      decreases |pending|
    {
      var r :| r in pending;
      groups, keys := groups + [grouped[r]], keys + [r];
      pending := pending - {r};
    }
  }

  // Exactly the nodes whose root is `r`.
  ghost predicate IsClass(group: seq<nat>, roots: seq<nat>, r: nat)
  {
    forall x: nat :: x in group <==> x < |roots| && roots[x] == r
  }

  lemma {:induction false} ClassesPartition(groups: seq<seq<nat>>, keys: seq<nat>, grouped: map<nat, seq<nat>>,
                         parents: seq<nat>, ranks: seq<nat>, roots: seq<nat>, edges: set<Edge>)
    requires Forest(parents, ranks) && RootsAre(parents, ranks, roots) && Represents(parents, ranks, edges)
    requires Collected(grouped, roots, |roots|) && Listed(groups, keys, grouped, grouped.Keys)
    ensures Partition(groups, |roots|, edges)
  {
    forall g | 0 <= g < |groups| ensures groups[g] != [] && IsClass(groups[g], roots, keys[g]) {
      forall x: nat ensures x in groups[g] <==> x < |roots| && roots[x] == keys[g] {
        assert Has(grouped, keys[g], x) <==> x in groups[g];
      }
    }
    forall x: nat | x < |roots| ensures Placed(groups, x) {
      assert Has(grouped, roots[x], x);
      var g :| 0 <= g < |keys| && keys[g] == roots[x];
      assert IsClass(groups[g], roots, keys[g]);
    }
    forall g, x, y: nat | 0 <= g < |groups| && x in groups[g] && y < |roots|
      ensures y in groups[g] <==> Connected(edges, x, y)
    {
      assert IsClass(groups[g], roots, keys[g]);
      assert Together(parents, ranks, x, y) <==> Connected(edges, x, y);
    }
    forall g, h, x | 0 <= g < h < |groups| && x in groups[g] ensures x !in groups[h] {
      assert IsClass(groups[g], roots, keys[g]) && IsClass(groups[h], roots, keys[h]);
    }
    forall g | 0 <= g < |groups| ensures groups[g] != [] && Bounded(groups[g], |roots|) {
      assert IsClass(groups[g], roots, keys[g]);
    }
  }

  method GroupClasses(uf: UnionFind, ghost edges: set<Edge>) returns (groups: seq<seq<nat>>)
    requires uf.Valid() && Represents(uf.parents, uf.ranks, edges)
    modifies uf`parents
    ensures Partition(groups, |old(uf.parents)|, edges)
    ensures forall g :: 0 <= g < |groups| ==> Sorting.Strict(groups[g], Self)
  {
    var grouped;
    ghost var roots, keys;
    grouped, roots := Collect(uf);
    FindKeepsEdges(old(uf.parents), uf.ranks, uf.parents, edges);
    groups, keys := ListGroups(grouped);
    ClassesPartition(groups, keys, grouped, uf.parents, uf.ranks, roots, edges);
  }

  // ----- sorting the groups -----

  function IdOf(docs: seq<Document>): nat -> nat
  {
    (x: nat) => if x < |docs| then docs[x].sourceId else 0
  }

  function FirstId(docs: seq<Document>): seq<nat> -> nat
  {
    (group: seq<nat>) => if group == [] || group[0] >= |docs| then 0 else docs[group[0]].sourceId
  }

  /** The duplicate groups as the manifest lists them. */
  ghost predicate Grouping(groups: seq<seq<nat>>, docs: seq<Document>)
  {
    && Partition(groups, |docs|, DuplicateEdges(docs))
    && (forall g :: 0 <= g < |groups| ==> Sorting.Strict(groups[g], IdOf(docs)))
    && Sorting.Strict(groups, FirstId(docs))
  }

  /** Each group by ascending source ids, and the groups by their first ids. */
  ghost predicate ListedById(groups: seq<seq<nat>>, docs: seq<Document>)
    requires forall g :: 0 <= g < |groups| ==> groups[g] != [] && Bounded(groups[g], |docs|)
  {
    && (forall g, i, j :: 0 <= g < |groups| && 0 <= i < j < |groups[g]| ==>
          IdAt(docs, groups[g], i) < IdAt(docs, groups[g], j))
    && (forall g, h :: 0 <= g < h < |groups| ==> IdAt(docs, groups[g], 0) < IdAt(docs, groups[h], 0))
  }

  ghost function IdAt(docs: seq<Document>, group: seq<nat>, i: nat): nat
    requires Bounded(group, |docs|) && i < |group|
  {
    assert group[i] in group;
    docs[group[i]].sourceId
  }

  lemma {:induction false} GroupingListedById(groups: seq<seq<nat>>, docs: seq<Document>)
    requires Grouping(groups, docs)
    ensures ListedById(groups, docs)
  {
    forall g, i, j | 0 <= g < |groups| && 0 <= i < j < |groups[g]|
      ensures IdAt(docs, groups[g], i) < IdAt(docs, groups[g], j)
    {
      assert IdOf(docs)(groups[g][i]) < IdOf(docs)(groups[g][j]);
      assert groups[g][i] in groups[g] && groups[g][j] in groups[g];
    }
    forall g, h | 0 <= g < h < |groups| ensures IdAt(docs, groups[g], 0) < IdAt(docs, groups[h], 0) {
      assert FirstId(docs)(groups[g]) < FirstId(docs)(groups[h]);
      assert groups[g][0] in groups[g] && groups[h][0] in groups[h];
    }
  }

  lemma {:induction false} PartitionTransfers(groups: seq<seq<nat>>, groups': seq<seq<nat>>, n: nat, edges: set<Edge>, edges': set<Edge>)
    requires Partition(groups, n, edges)
    requires |groups'| == |groups|
    requires forall g :: 0 <= g < |groups| ==> |groups'[g]| == |groups[g]| && forall x: nat :: x in groups'[g] <==> x in groups[g]
    requires forall x: nat, y: nat :: Connected(edges, x, y) <==> Connected(edges', x, y)
    ensures Partition(groups', n, edges')
  {
    forall x: nat | x < n ensures Placed(groups', x) {
      assert Placed(groups, x);
      var g :| 0 <= g < |groups| && x in groups[g];
      assert x in groups'[g];
    }
    forall g | 0 <= g < |groups'| ensures groups'[g] != [] && Bounded(groups'[g], n) {
      assert Bounded(groups[g], n);
    }
  }

  lemma {:induction false} PartitionReorders(groups: seq<seq<nat>>, groups': seq<seq<nat>>, n: nat, edges: set<Edge>, key: seq<nat> -> nat)
    requires Partition(groups, n, edges) && Sorting.Strict(groups', key)
    requires forall g :: g in groups' <==> g in groups
    ensures Partition(groups', n, edges)
  {
    forall g | 0 <= g < |groups'| ensures groups'[g] in groups {
      assert groups'[g] in groups';
    }
    forall x: nat | x < n ensures Placed(groups', x) {
      assert Placed(groups, x);
      var g :| 0 <= g < |groups| && x in groups[g];
      assert groups[g] in groups';
    }
    forall g, h, x | 0 <= g < h < |groups'| && x in groups'[g] ensures x !in groups'[h] {
      var i :| 0 <= i < |groups| && groups[i] == groups'[g];
      var j :| 0 <= j < |groups| && groups[j] == groups'[h];
      assert key(groups'[g]) < key(groups'[h]);
      assert i != j;
    }
  }

  // First members of distinct groups have distinct ids.
  lemma {:induction false} FirstIdsDiffer(groups: seq<seq<nat>>, docs: seq<Document>, edges: set<Edge>)
    requires WellFormed(docs) && Partition(groups, |docs|, edges)
    ensures Sorting.DistinctKeys(groups, FirstId(docs))
  {
    forall g, h | 0 <= g < h < |groups| ensures FirstId(docs)(groups[g]) != FirstId(docs)(groups[h]) {
      var x, y := groups[g][0], groups[h][0];
      assert x in groups[g] && y in groups[h];
      assert Bounded(groups[g], |docs|) && Bounded(groups[h], |docs|);
      assert x != y;
    }
  }

  lemma {:induction false} IdsDiffer(group: seq<nat>, docs: seq<Document>)
    requires WellFormed(docs) && Bounded(group, |docs|) && Sorting.Strict(group, Self)
    ensures Sorting.DistinctKeys(group, IdOf(docs))
  {
    forall i, j | 0 <= i < j < |group| ensures IdOf(docs)(group[i]) != IdOf(docs)(group[j]) {
      assert group[i] in group && group[j] in group;
      assert Self(group[i]) < Self(group[j]);
    }
  }

  method SortGroups(groups: seq<seq<nat>>, docs: seq<Document>, ghost edges: set<Edge>) returns (sorted: seq<seq<nat>>)
    requires WellFormed(docs) && Partition(groups, |docs|, edges)
    requires forall g :: 0 <= g < |groups| ==> Sorting.Strict(groups[g], Self)
    requires forall x: nat, y: nat :: Connected(edges, x, y) <==> Connected(DuplicateEdges(docs), x, y)
    ensures Grouping(sorted, docs)
  {
    var each := seq(|groups|, g requires 0 <= g < |groups| => Sorting.SortBy(groups[g], IdOf(docs)));
    PartitionTransfers(groups, each, |docs|, edges, DuplicateEdges(docs));
    forall g | 0 <= g < |each| ensures Sorting.Strict(each[g], IdOf(docs)) {
      assert Bounded(groups[g], |docs|);
      IdsDiffer(groups[g], docs);
      Sorting.SortStrict(groups[g], IdOf(docs));
    }
    sorted := Sorting.SortBy(each, FirstId(docs));
    FirstIdsDiffer(each, docs, DuplicateEdges(docs));
    Sorting.SortStrict(each, FirstId(docs));
    PartitionReorders(each, sorted, |docs|, DuplicateEdges(docs), FirstId(docs));
    forall g | 0 <= g < |sorted| ensures Sorting.Strict(sorted[g], IdOf(docs)) {
      assert sorted[g] in sorted;
      assert sorted[g] in each;
    }
  }

  // ----- deduplication -----

  datatype DedupResult =
    | Grouped(groups: seq<seq<nat>>, exactEdges: nat, nearEdges: nat)
    | CandidateCapacityExceeded

  /**
  Groups are exactly the classes generated by equal hashes and confirmed
  near-duplicate candidates, and the edges are counted; the only refusal is for too
  many candidates.
  */
  method Deduplicate(docs: seq<Document>, maximumCandidatePairs: nat) returns (r: DedupResult, candidates: set<Edge>)
    requires WellFormed(docs)
    ensures AllCandidates(docs, candidates)
    ensures r.Grouped? <==> |candidates| <= maximumCandidatePairs
    ensures r.Grouped? ==> Grouping(r.groups, docs) && ListedById(r.groups, docs)
    ensures r.Grouped? ==> r.exactEdges + |Hashes(docs)| == |docs| && r.nearEdges == |NearEdges(docs, candidates)|
  {
    var uf := new UnionFind(|docs|);
    forall x: nat, y: nat | x < |docs| && y < |docs|
      ensures Together(uf.parents, uf.ranks, x, y) <==> Connected({}, x, y)
    {
      NoEdges(x, y);
    }
    ghost var exact;
    var exactEdges;
    exact, exactEdges := UnionExact(uf, docs);
    candidates := Propose(docs);
    if |candidates| > maximumCandidatePairs {
      return CandidateCapacityExceeded, candidates;
    }
    ghost var edges;
    var nearEdges;
    edges, nearEdges := UnionNear(uf, docs, candidates, exact);
    var groups := GroupClasses(uf, edges);
    forall x: nat, y: nat ensures Connected(edges, x, y) <==> Connected(DuplicateEdges(docs), x, y) {
      EdgesMakeDuplicates(docs, exact, candidates, edges, x, y);
    }
    groups := SortGroups(groups, docs, edges);
    GroupingListedById(groups, docs);
    r := Grouped(groups, exactEdges, nearEdges);
  }
}
