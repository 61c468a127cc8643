/**
The components and assignments of the split manifest, and why nothing leaks
between splits.
*/
module SplitManifest {
  import opened CorpusSplit
  import opened UnionFind
  import opened Connectivity
  import opened Dedup
  import opened Groups
  import opened Representatives
  import opened Splits
  import Sorting

  // ----- one component -----

  // Drop consecutive repeats.
  function Unrepeated(s: seq<nat>): (r: seq<nat>)
    ensures forall x :: x in r <==> x in s
    ensures s != [] ==> r != [] && r[|r| - 1] == s[|s| - 1]
  {
    if |s| < 2 then s
    else
      var n := |s| - 1;
      assert s == s[..n] + [s[n]];
      if s[n - 1] == s[n] then Unrepeated(s[..n]) else Unrepeated(s[..n]) + [s[n]]
  }

  lemma {:induction false} UnrepeatedStrict(s: seq<nat>, key: nat -> nat)
    requires Sorting.Ordered(s, key)
    requires forall i, j :: 0 <= i < j < |s| && key(s[i]) == key(s[j]) ==> s[i] == s[j]
    ensures Sorting.Strict(Unrepeated(s), key)
    decreases |s|
  {
    if |s| >= 2 {
      var n := |s| - 1;
      UnrepeatedStrict(s[..n], key);
      if s[n - 1] != s[n] {
        assert key(s[n - 1]) < key(s[n]);
        AppendStrict(Unrepeated(s[..n]), s[n], key);
      }
    }
  }

  lemma {:induction false} AppendStrict(t: seq<nat>, x: nat, key: nat -> nat)
    requires t != [] && Sorting.Strict(t, key) && key(t[|t| - 1]) < key(x)
    ensures Sorting.Strict(t + [x], key)
  {
    forall i | 0 <= i < |t| ensures key(t[i]) < key(x) {
      assert t[i] in t;
      Sorting.LastIsLargest(t, key, t[i]);
    }
  }

  /** Sorted by source id, without repeats. */
  function Tidy(s: seq<nat>, docs: seq<Document>): (r: seq<nat>)
    ensures forall x :: x in r <==> x in s
  {
    Unrepeated(Sorting.SortBy(s, IdOf(docs)))
  }

  lemma {:induction false} TidyStrict(s: seq<nat>, docs: seq<Document>)
    requires WellFormed(docs) && Bounded(s, |docs|)
    ensures Sorting.Strict(Tidy(s, docs), IdOf(docs))
  {
    Sorting.SortOrdered(s, IdOf(docs));
    var t := Sorting.SortBy(s, IdOf(docs));
    forall i, j | 0 <= i < j < |t| && IdOf(docs)(t[i]) == IdOf(docs)(t[j]) ensures t[i] == t[j] {
      assert t[i] in t && t[j] in t;
    }
    UnrepeatedStrict(t, IdOf(docs));
  }

  function IdsOf(docs: seq<Document>, members: seq<nat>): seq<nat>
  {
    seq(|members|, i requires 0 <= i < |members| => if members[i] < |docs| then docs[members[i]].sourceId else 0)
  }

  /** A component is a whole connected component of kept documents, filed under
      its own identity, with the representatives of exactly the groups in it. */
  ghost predicate IsComponent(docs: seq<Document>, groups: seq<seq<nat>>, rejected: set<nat>, hashes: Hashes, c: Component)
    requires GroupsInRange(docs, groups)
  {
    && c.members != [] && Sorting.Strict(c.members, IdOf(docs))
    && Sorting.Strict(c.representatives, IdOf(docs))
    && (forall x :: x in c.members ==> x < |docs| && Kept(groups, rejected, x))
    && (forall x, y: nat :: x in c.members && y < |docs| && Kept(groups, rejected, y) ==>
          (y in c.members <==> Connected(LinkEdges(docs, groups, rejected), x, y)))
    && (forall d: nat :: d in c.representatives <==> RepresentsGroupIn(docs, groups, rejected, c, d))
    && c.id == hashes.componentId(IdsOf(docs, c.members))
    && c.bucket == hashes.bucket(c.id) % 10_000
    && c.split == SplitForBucket(c.bucket)
  }

  // Asking the component which kept groups touch it.
  ghost predicate RepresentsGroupIn(docs: seq<Document>, groups: seq<seq<nat>>, rejected: set<nat>, c: Component, d: nat)
    requires GroupsInRange(docs, groups)
  {
    exists g: nat :: Touches(docs, groups, rejected, c, g) && d == PositionOfPreferred(docs, groups[g])
  }

  ghost predicate Touches(docs: seq<Document>, groups: seq<seq<nat>>, rejected: set<nat>, c: Component, g: nat)
  {
    g < |groups| && g !in rejected && exists x: nat :: x in groups[g] && x in c.members
  }

  // A component built from what was filed under root `r`.
  ghost predicate BuiltFrom(docs: seq<Document>, groups: seq<seq<nat>>, rejected: set<nat>, roots: seq<nat>, r: nat, c: Component)
    requires GroupsInRange(docs, groups) && |roots| == |docs|
  {
    && (forall x: nat :: x in c.members <==> x < |docs| && roots[x] == r && Kept(groups, rejected, x))
    && (forall d: nat :: d in c.representatives <==> exists g: nat :: Represented(docs, groups, rejected, roots, g, r, d))
  }

  method BuildComponent(docs: seq<Document>, hashes: Hashes, members: seq<nat>, filed: seq<nat>) returns (c: Component)
    requires WellFormed(docs) && Bounded(members, |docs|) && Bounded(filed, |docs|) && members != []
    ensures forall x :: x in c.members <==> x in members
    ensures forall d :: d in c.representatives <==> d in filed
    ensures c.members != [] && Sorting.Strict(c.members, IdOf(docs)) && Sorting.Strict(c.representatives, IdOf(docs))
    ensures c.id == hashes.componentId(IdsOf(docs, c.members))
    ensures c.bucket == hashes.bucket(c.id) % 10_000 && c.split == SplitForBucket(c.bucket)
  {
    TidyStrict(members, docs);
    TidyStrict(filed, docs);
    var tidy := Tidy(members, docs);
    assert members[0] in tidy;
    var id := hashes.componentId(IdsOf(docs, tidy));
    var bucket := hashes.bucket(id) % 10_000;
    c := Component(tidy, Tidy(filed, docs), id, bucket, SplitForBucket(bucket));
  }

  // Whole groups lie in one tree.
  ghost predicate GroupsShareRoot(groups: seq<seq<nat>>, rejected: set<nat>, roots: seq<nat>)
  {
    forall g: nat, x: nat :: KeptIn(groups, rejected, g, x) && x < |roots| && groups[g] != [] && groups[g][0] < |roots|
      ==> roots[x] == roots[groups[g][0]]
  }

  lemma {:induction false} BuiltTouches(docs: seq<Document>, groups: seq<seq<nat>>, rejected: set<nat>, roots: seq<nat>, r: nat, c: Component)
    requires GroupsInRange(docs, groups) && |roots| == |docs| && GroupsShareRoot(groups, rejected, roots)
    requires BuiltFrom(docs, groups, rejected, roots, r, c)
    ensures forall d: nat :: d in c.representatives <==> RepresentsGroupIn(docs, groups, rejected, c, d)
  {
    forall g: nat, d: nat
      ensures Represented(docs, groups, rejected, roots, g, r, d)
        <==> Touches(docs, groups, rejected, c, g) && d == PositionOfPreferred(docs, groups[g])
    {
      if Represented(docs, groups, rejected, roots, g, r, d) {
        assert Bounded(groups[g], |docs|);
        assert KeptIn(groups, rejected, g, groups[g][0]);
        assert groups[g][0] in c.members;
      }
      if Touches(docs, groups, rejected, c, g) {
        assert Bounded(groups[g], |docs|);
        var x: nat :| x in groups[g] && x in c.members;
        assert KeptIn(groups, rejected, g, x);
        assert groups[g][0] in groups[g];
      }
    }
    forall d: nat ensures d in c.representatives <==> RepresentsGroupIn(docs, groups, rejected, c, d) {
      if d in c.representatives {
        var g: nat :| Represented(docs, groups, rejected, roots, g, r, d);
        assert Touches(docs, groups, rejected, c, g);
      }
      if RepresentsGroupIn(docs, groups, rejected, c, d) {
        var g: nat :| Touches(docs, groups, rejected, c, g) && d == PositionOfPreferred(docs, groups[g]);
        assert Represented(docs, groups, rejected, roots, g, r, d);
      }
    }
  }

  lemma {:induction false} BuiltIsComponent(docs: seq<Document>, groups: seq<seq<nat>>, rejected: set<nat>, hashes: Hashes,
                         parents: seq<nat>, ranks: seq<nat>, roots: seq<nat>, edges: set<Edge>, r: nat, c: Component)
    requires GroupsInRange(docs, groups) && Forest(parents, ranks) && RootsAre(parents, ranks, roots) && |roots| == |docs|
    requires Represents(parents, ranks, edges)
    requires forall x: nat, y: nat :: Connected(edges, x, y) <==> Connected(LinkEdges(docs, groups, rejected), x, y)
    requires GroupsShareRoot(groups, rejected, roots) && BuiltFrom(docs, groups, rejected, roots, r, c)
    requires c.members != [] && Sorting.Strict(c.members, IdOf(docs)) && Sorting.Strict(c.representatives, IdOf(docs))
    requires c.id == hashes.componentId(IdsOf(docs, c.members))
    requires c.bucket == hashes.bucket(c.id) % 10_000 && c.split == SplitForBucket(c.bucket)
    ensures IsComponent(docs, groups, rejected, hashes, c)
  {
    BuiltTouches(docs, groups, rejected, roots, r, c);
    forall x, y: nat | x in c.members && y < |docs| && Kept(groups, rejected, y)
      ensures y in c.members <==> Connected(LinkEdges(docs, groups, rejected), x, y)
    {
      assert Together(parents, ranks, x, y) <==> Connected(edges, x, y);
    }
  }

  lemma {:induction false} RootsShared(docs: seq<Document>, groups: seq<seq<nat>>, rejected: set<nat>,
                    parents: seq<nat>, ranks: seq<nat>, roots: seq<nat>, edges: set<Edge>)
    requires GroupsInRange(docs, groups) && Forest(parents, ranks) && RootsAre(parents, ranks, roots) && |roots| == |docs|
    requires Represents(parents, ranks, edges)
    requires forall x: nat, y: nat :: Connected(edges, x, y) <==> Connected(LinkEdges(docs, groups, rejected), x, y)
    ensures GroupsShareRoot(groups, rejected, roots)
  {
    forall g: nat, x: nat | KeptIn(groups, rejected, g, x) && x < |roots| && groups[g] != [] && groups[g][0] < |roots|
      ensures roots[x] == roots[groups[g][0]]
    {
      var y := groups[g][0];
      assert KeptIn(groups, rejected, g, y);
      assert Linked(docs, groups, rejected, x, y);
      Step(LinkEdges(docs, groups, rejected), x, y);
      assert Together(parents, ranks, x, y) <==> Connected(edges, x, y);
    }
  }

  // ----- the whole manifest -----

  /** What the split manifest and the assignment list promise. */
  ghost predicate IsManifest(docs: seq<Document>, groups: seq<seq<nat>>, rejected: set<nat>, hashes: Hashes,
                             components: seq<Component>, assignments: seq<Assignment>)
    requires GroupsInRange(docs, groups)
  {
    && (forall c :: c in components ==> IsComponent(docs, groups, rejected, hashes, c))
    && (forall x: nat :: x < |docs| && Kept(groups, rejected, x) ==> InComponent(components, x))
    && (forall c, d, x :: c in components && d in components && x in c.members && x in d.members ==> c == d)
    && (forall a :: a in assignments ==> a.component in components && a.document in a.component.representatives)
    && (forall c, d :: c in components && d in c.representatives ==> Assignment(d, c) in assignments)
    && |set c | c in components| == |components|
    && |set a | a in assignments| == |assignments|
  }

  ghost predicate InComponent(components: seq<Component>, x: nat)
  {
    exists c :: c in components && x in c.members
  }

  // Components listed so far, each with the root it was built from.
  ghost predicate ListedComponents(docs: seq<Document>, groups: seq<seq<nat>>, rejected: set<nat>, hashes: Hashes,
                                   roots: seq<nat>, components: seq<Component>, keys: seq<nat>, done: set<nat>)
    requires GroupsInRange(docs, groups) && |roots| == |docs|
  {
    && |components| == |keys|
    && (forall k :: 0 <= k < |keys| ==> keys[k] in done && BuiltFrom(docs, groups, rejected, roots, keys[k], components[k])
                                        && IsComponent(docs, groups, rejected, hashes, components[k]))
    && (forall j, k :: 0 <= j < k < |keys| ==> keys[j] != keys[k])
    && (forall r :: r in done ==> r in keys)
  }

  // Assignments listed so far: one for each representative of each component.
  ghost predicate ListedAssignments(components: seq<Component>, assignments: seq<Assignment>)
  {
    && (forall a :: a in assignments ==> a.component in components && a.document in a.component.representatives)
    && (forall c, d :: c in components && d in c.representatives ==> Assignment(d, c) in assignments)
    && (forall i, j :: 0 <= i < j < |assignments| ==> assignments[i].document != assignments[j].document)
  }

  lemma {:induction false} RepresentativeHasRoot(docs: seq<Document>, groups: seq<seq<nat>>, rejected: set<nat>, roots: seq<nat>, r: nat,
                              c: Component, d: nat)
    requires GroupsInRange(docs, groups) && |roots| == |docs| && GroupsShareRoot(groups, rejected, roots)
    requires BuiltFrom(docs, groups, rejected, roots, r, c) && d in c.representatives
    ensures d < |docs| && roots[d] == r && d in c.members
  {
    var g: nat :| Represented(docs, groups, rejected, roots, g, r, d);
    assert Bounded(groups[g], |docs|);
    assert KeptIn(groups, rejected, g, d);
  }

  lemma {:induction false} AssignmentsExtend(docs: seq<Document>, groups: seq<seq<nat>>, rejected: set<nat>, hashes: Hashes, roots: seq<nat>,
                          components: seq<Component>, keys: seq<nat>, done: set<nat>, assignments: seq<Assignment>,
                          r: nat, c: Component, more: seq<Assignment>)
    requires GroupsInRange(docs, groups) && |roots| == |docs| && GroupsShareRoot(groups, rejected, roots)
    requires ListedComponents(docs, groups, rejected, hashes, roots, components, keys, done)
    requires ListedAssignments(components, assignments) && r !in done
    requires BuiltFrom(docs, groups, rejected, roots, r, c) && IsComponent(docs, groups, rejected, hashes, c)
    requires |more| == |c.representatives|
    requires forall i :: 0 <= i < |more| ==> more[i] == Assignment(c.representatives[i], c)
    ensures ListedAssignments(components + [c], assignments + more)
  {
    var all := assignments + more;
    forall e, d | e in components + [c] && d in e.representatives ensures Assignment(d, e) in all {
      if e !in components {
        var i :| 0 <= i < |c.representatives| && c.representatives[i] == d;
        assert more[i] in more;
      }
    }
    forall i, j | 0 <= i < j < |all| ensures all[i].document != all[j].document {
      if j >= |assignments| {
        var b := more[j - |assignments|];
        assert b.document in c.representatives;
        RepresentativeHasRoot(docs, groups, rejected, roots, r, c, b.document);
        if i < |assignments| {
          var a := assignments[i];
          assert a in assignments;
          var k :| 0 <= k < |components| && components[k] == a.component;
          RepresentativeHasRoot(docs, groups, rejected, roots, keys[k], components[k], a.document);
        } else {
          assert IdOf(docs)(c.representatives[i - |assignments|]) < IdOf(docs)(c.representatives[j - |assignments|]);
        }
      }
    }
  }

  lemma {:induction false} DistinctCount<T(!new)>(s: seq<T>)
    requires forall i, j :: 0 <= i < j < |s| ==> s[i] != s[j]
    ensures |set x | x in s| == |s|
  {
    if s != [] {
      var n := |s| - 1;
      DistinctCount(s[..n]);
      assert (set x | x in s) == (set x | x in s[..n]) + {s[n]};
    }
  }

  lemma {:induction false} ListingIsManifest(docs: seq<Document>, groups: seq<seq<nat>>, rejected: set<nat>, hashes: Hashes, roots: seq<nat>,
                          members: map<nat, seq<nat>>, filed: map<nat, seq<nat>>,
                          components: seq<Component>, keys: seq<nat>, assignments: seq<Assignment>)
    requires GroupsInRange(docs, groups) && |roots| == |docs|
    requires Filing(docs, groups, rejected, roots, |groups|, members, filed)
    requires ListedComponents(docs, groups, rejected, hashes, roots, components, keys, members.Keys)
    requires ListedAssignments(components, assignments)
    ensures IsManifest(docs, groups, rejected, hashes, components, assignments)
  {
    forall x: nat | x < |docs| && Kept(groups, rejected, x) ensures InComponent(components, x) {
      assert KeptBefore(groups, rejected, |groups|, x);
      assert Has(members, roots[x], x);
      var k :| 0 <= k < |keys| && keys[k] == roots[x];
      assert components[k] in components && x in components[k].members;
    }
    forall j, k, x | 0 <= j < |components| && 0 <= k < |components| && x in components[j].members && x in components[k].members
      ensures j == k
    {
      assert keys[j] == roots[x] == keys[k];
    }
    forall j, k | 0 <= j < k < |components| ensures components[j] != components[k] {
      assert components[j].members[0] in components[j].members;
    }
    DistinctCount(components);
    DistinctCount(assignments);
  }

  lemma {:induction false} Resorted(docs: seq<Document>, groups: seq<seq<nat>>, rejected: set<nat>, hashes: Hashes,
                 components: seq<Component>, assignments: seq<Assignment>,
                 components': seq<Component>, assignments': seq<Assignment>)
    requires GroupsInRange(docs, groups) && IsManifest(docs, groups, rejected, hashes, components, assignments)
    requires |components'| == |components| && forall c :: c in components' <==> c in components
    requires |assignments'| == |assignments| && forall a :: a in assignments' <==> a in assignments
    ensures IsManifest(docs, groups, rejected, hashes, components', assignments')
  {
    assert (set c | c in components') == (set c | c in components);
    assert (set a | a in assignments') == (set a | a in assignments);
  }

  lemma {:induction false} FiledUnderRoot(docs: seq<Document>, groups: seq<seq<nat>>, rejected: set<nat>, roots: seq<nat>,
                       members: map<nat, seq<nat>>, filed: map<nat, seq<nat>>, r: nat)
    requires GroupsInRange(docs, groups) && |roots| == |docs| && GroupsShareRoot(groups, rejected, roots)
    requires Filing(docs, groups, rejected, roots, |groups|, members, filed) && r in members
    ensures Bounded(members[r], |docs|)
    ensures forall x: nat :: x in members[r] <==> x < |docs| && roots[x] == r && Kept(groups, rejected, x)
    ensures var reps := if r in filed then filed[r] else [];
      && Bounded(reps, |docs|)
      && forall d: nat :: d in reps <==> exists g: nat :: Represented(docs, groups, rejected, roots, g, r, d)
  {
    forall x: nat ensures x in members[r] <==> x < |docs| && roots[x] == r && Kept(groups, rejected, x) {
      assert Has(members, r, x) <==> x in members[r];
      assert KeptBefore(groups, rejected, |groups|, x) <==> Kept(groups, rejected, x);
    }
    var reps := if r in filed then filed[r] else [];
    forall d: nat ensures d in reps <==> exists g: nat :: Represented(docs, groups, rejected, roots, g, r, d) {
      assert Has(filed, r, d) <==> d in reps;
      if g: nat :| Represented(docs, groups, rejected, roots, g, r, d) {
        assert RepresentedBefore(docs, groups, rejected, roots, |groups|, r, d);
      }
    }
  }

  method ListOne(docs: seq<Document>, ghost groups: seq<seq<nat>>, ghost rejected: set<nat>, hashes: Hashes,
                 members: map<nat, seq<nat>>, filed: map<nat, seq<nat>>,
                 ghost parents: seq<nat>, ghost ranks: seq<nat>, ghost roots: seq<nat>, ghost edges: set<Edge>, root: nat)
    returns (c: Component)
    requires WellFormed(docs) && GroupsInRange(docs, groups)
    requires Forest(parents, ranks) && RootsAre(parents, ranks, roots) && |roots| == |docs|
    requires Represents(parents, ranks, edges) && GroupsShareRoot(groups, rejected, roots)
    requires forall x: nat, y: nat :: Connected(edges, x, y) <==> Connected(LinkEdges(docs, groups, rejected), x, y)
    requires Filing(docs, groups, rejected, roots, |groups|, members, filed) && root in members
    ensures BuiltFrom(docs, groups, rejected, roots, root, c) && IsComponent(docs, groups, rejected, hashes, c)
  {
    FiledUnderRoot(docs, groups, rejected, roots, members, filed, root);
    c := BuildComponent(docs, hashes, members[root], if root in filed then filed[root] else []);
    BuiltIsComponent(docs, groups, rejected, hashes, parents, ranks, roots, edges, root, c);
  }

  function AssignmentsOf(c: Component): (more: seq<Assignment>)
    ensures |more| == |c.representatives|
    ensures forall i :: 0 <= i < |more| ==> more[i] == Assignment(c.representatives[i], c)
  {
    seq(|c.representatives|, i requires 0 <= i < |c.representatives| => Assignment(c.representatives[i], c))
  }

  ghost predicate Listing(docs: seq<Document>, groups: seq<seq<nat>>, rejected: set<nat>, hashes: Hashes, roots: seq<nat>,
                          components: seq<Component>, keys: seq<nat>, done: set<nat>, assignments: seq<Assignment>)
    requires GroupsInRange(docs, groups) && |roots| == |docs|
  {
    && ListedComponents(docs, groups, rejected, hashes, roots, components, keys, done)
    && ListedAssignments(components, assignments)
  }

  lemma {:induction false} ListingExtends(docs: seq<Document>, groups: seq<seq<nat>>, rejected: set<nat>, hashes: Hashes, roots: seq<nat>,
                       components: seq<Component>, keys: seq<nat>, done: set<nat>, assignments: seq<Assignment>,
                       r: nat, c: Component)
    requires GroupsInRange(docs, groups) && |roots| == |docs| && GroupsShareRoot(groups, rejected, roots)
    requires Listing(docs, groups, rejected, hashes, roots, components, keys, done, assignments) && r !in done
    requires BuiltFrom(docs, groups, rejected, roots, r, c) && IsComponent(docs, groups, rejected, hashes, c)
    ensures Listing(docs, groups, rejected, hashes, roots, components + [c], keys + [r], done + {r},
                    assignments + AssignmentsOf(c))
  {
    AssignmentsExtend(docs, groups, rejected, hashes, roots, components, keys, done, assignments, r, c, AssignmentsOf(c));
  }

  ghost predicate Shared(all: set<nat>, pending: set<nat>, done: set<nat>)
  {
    done + pending == all && done !! pending
  }

  lemma {:induction false} MoveOne(all: set<nat>, pending: set<nat>, done: set<nat>, x: nat)
    requires Shared(all, pending, done) && x in pending
    ensures Shared(all, pending - {x}, done + {x})
    ensures x in all && x !in done
  {
  }

  method ListComponents(docs: seq<Document>, ghost groups: seq<seq<nat>>, ghost rejected: set<nat>, hashes: Hashes,
                        members: map<nat, seq<nat>>, filed: map<nat, seq<nat>>,
                        ghost parents: seq<nat>, ghost ranks: seq<nat>, ghost roots: seq<nat>, ghost edges: set<Edge>)
    returns (components: seq<Component>, assignments: seq<Assignment>)
    requires WellFormed(docs) && GroupsInRange(docs, groups)
    requires Forest(parents, ranks) && RootsAre(parents, ranks, roots) && |roots| == |docs|
    requires Represents(parents, ranks, edges)
    requires forall x: nat, y: nat :: Connected(edges, x, y) <==> Connected(LinkEdges(docs, groups, rejected), x, y)
    requires Filing(docs, groups, rejected, roots, |groups|, members, filed)
    ensures IsManifest(docs, groups, rejected, hashes, components, assignments)
  {
    RootsShared(docs, groups, rejected, parents, ranks, roots, edges);
    components, assignments := [], [];
    ghost var keys: seq<nat> := [];
    ghost var done: set<nat> := {};
    var pending := members.Keys;
    while pending != {}
      invariant Shared(members.Keys, pending, done)
      invariant Listing(docs, groups, rejected, hashes, roots, components, keys, done, assignments)
      decreases pending
    {
      var root :| root in pending;
      var c := ListOne(docs, groups, rejected, hashes, members, filed, parents, ranks, roots, edges, root);
      ListingExtends(docs, groups, rejected, hashes, roots, components, keys, done, assignments, root, c);
      components, keys, assignments := components + [c], keys + [root], assignments + AssignmentsOf(c);
      MoveOne(members.Keys, pending, done, root);
      pending, done := pending - {root}, done + {root};
    }
    assert done == members.Keys;
    ListingIsManifest(docs, groups, rejected, hashes, roots, members, filed, components, keys, assignments);
  }

  function SplitOrder(a: Assignment): nat
  {
    match a.component.split
    case Train => 0
    case Validation => 1
    case Test => 2
  }

  function ComponentId(c: Component): nat { c.id }

  function AssignedId(a: Assignment): nat { a.component.id }

  function SourceIdOf(docs: seq<Document>): Assignment -> nat
  {
    (a: Assignment) => if a.document < |docs| then docs[a.document].sourceId else 0
  }

  /** By split, then component, then source id. */
  ghost predicate AssignmentsOrdered(docs: seq<Document>, assignments: seq<Assignment>)
  {
    forall i, j :: 0 <= i < j < |assignments| ==> AssignmentOrder(docs, assignments[i], assignments[j])
  }

  ghost predicate AssignmentOrder(docs: seq<Document>, a: Assignment, b: Assignment)
  {
    if SplitOrder(a) != SplitOrder(b) then SplitOrder(a) < SplitOrder(b)
    else if AssignedId(a) != AssignedId(b) then AssignedId(a) < AssignedId(b)
    else SourceIdOf(docs)(a) <= SourceIdOf(docs)(b)
  }

  /** Three stable passes order by split, then component, then source id. */
  lemma {:induction false} ThreePasses(docs: seq<Document>, assignments: seq<Assignment>)
    ensures var bySource := Sorting.SortBy(assignments, SourceIdOf(docs));
      AssignmentsOrdered(docs, Sorting.SortBy(Sorting.SortBy(bySource, AssignedId), SplitOrder))
  {
    var sourceOf := SourceIdOf(docs);
    var byPlace := (a: Assignment, b: Assignment) => sourceOf(a) <= sourceOf(b);
    var byId := (a: Assignment, b: Assignment) =>
      AssignedId(a) < AssignedId(b) || (AssignedId(a) == AssignedId(b) && sourceOf(a) <= sourceOf(b));
    var first := Sorting.SortBy(assignments, sourceOf);
    Sorting.SortOrdered(assignments, sourceOf);
    assert Sorting.Follows(first, byPlace);
    Sorting.SortWithin(first, AssignedId, byPlace);
    var second := Sorting.SortBy(first, AssignedId);
    forall i, j | 0 <= i < j < |second| ensures byId(second[i], second[j]) {
      assert Sorting.Refined(AssignedId, byPlace, second[i], second[j]);
    }
    Sorting.SortWithin(second, SplitOrder, byId);
    var third := Sorting.SortBy(second, SplitOrder);
    forall i, j | 0 <= i < j < |third| ensures AssignmentOrder(docs, third[i], third[j]) {
      assert Sorting.Refined(SplitOrder, byId, third[i], third[j]);
    }
  }

  method PutInOrder(docs: seq<Document>, components: seq<Component>, assignments: seq<Assignment>)
    returns (components': seq<Component>, assignments': seq<Assignment>)
    ensures Sorting.Ordered(components', ComponentId) && AssignmentsOrdered(docs, assignments')
    ensures |components'| == |components| && forall c :: c in components' <==> c in components
    ensures |assignments'| == |assignments| && forall a :: a in assignments' <==> a in assignments
  {
    components' := Sorting.SortBy(components, ComponentId);
    Sorting.SortOrdered(components, ComponentId);
    assignments' := Sorting.SortBy(assignments, SourceIdOf(docs));
    assignments' := Sorting.SortBy(assignments', AssignedId);
    assignments' := Sorting.SortBy(assignments', SplitOrder);
    ThreePasses(docs, assignments);
  }

  // ----- splits and orders in plain numbers -----

  /** The split of a component by its bucket of ten thousand. */
  ghost predicate FiledByBucket(c: Component)
  {
    && c.bucket < 10_000
    && (c.split == Train <==> c.bucket < 9_800)
    && (c.split == Validation <==> 9_800 <= c.bucket < 9_900)
    && (c.split == Test <==> 9_900 <= c.bucket < 10_000)
  }

  lemma {:induction false} ComponentFiledByBucket(docs: seq<Document>, groups: seq<seq<nat>>, rejected: set<nat>, hashes: Hashes, c: Component)
    requires GroupsInRange(docs, groups) && IsComponent(docs, groups, rejected, hashes, c)
    ensures FiledByBucket(c) && ById(docs, c.members) && ById(docs, c.representatives)
  {
    assert forall x :: SourceAt(docs, x) == IdOf(docs)(x);
  }

  /** The order of the manifest: components by id; assignments training first, then
      validation, then test, within a split by component, and then by source id. */
  ghost predicate ManifestOrder(docs: seq<Document>, components: seq<Component>, assignments: seq<Assignment>)
  {
    && (forall i, j :: 0 <= i < j < |components| ==> components[i].id <= components[j].id)
    && (forall i, j :: 0 <= i < j < |assignments| ==> Earlier(docs, assignments[i], assignments[j]))
  }

  ghost predicate Earlier(docs: seq<Document>, a: Assignment, b: Assignment)
  {
    if a.component.split != b.component.split then a.component.split == Train || b.component.split == Test
    else if a.component.id != b.component.id then a.component.id < b.component.id
    else SourceAt(docs, a.document) <= SourceAt(docs, b.document)
  }

  ghost predicate ById(docs: seq<Document>, members: seq<nat>)
  {
    forall i, j :: 0 <= i < j < |members| ==> SourceAt(docs, members[i]) < SourceAt(docs, members[j])
  }

  ghost function SourceAt(docs: seq<Document>, x: nat): nat
  {
    if x < |docs| then docs[x].sourceId else 0
  }

  lemma {:induction false} OrderedIsManifestOrder(docs: seq<Document>, components: seq<Component>, assignments: seq<Assignment>)
    requires Sorting.Ordered(components, ComponentId) && AssignmentsOrdered(docs, assignments)
    ensures ManifestOrder(docs, components, assignments)
  {
    forall i, j | 0 <= i < j < |components| ensures components[i].id <= components[j].id {
      assert ComponentId(components[i]) <= ComponentId(components[j]);
    }
    forall i, j | 0 <= i < j < |assignments| ensures Earlier(docs, assignments[i], assignments[j]) {
      assert AssignmentOrder(docs, assignments[i], assignments[j]);
    }
  }

  ghost function Buckets(low: nat, high: nat): (r: set<nat>)
    requires low <= high
    ensures |r| == high - low && forall b {:trigger b in r} :: b in r <==> low <= b < high
    decreases high - low
  {
    if low == high then {} else Buckets(low, high - 1) + {high - 1}
  }

  lemma {:induction false} ShareOf(split: Split, low: nat, high: nat)
    requires low <= high <= 10_000
    requires forall b: nat :: b < 10_000 ==> (SplitForBucket(b) == split <==> low <= b < high)
    ensures |set b: nat | b < 10_000 && SplitForBucket(b) == split| == high - low
  {
    assert (set b: nat | b < 10_000 && SplitForBucket(b) == split) == Buckets(low, high);
  }

  /** Of ten thousand buckets, 9,800 are for training and a hundred each for the rest. */
  lemma {:induction false} BucketShares()
    ensures |set b: nat | b < 10_000 && SplitForBucket(b) == Train| == 9_800
    ensures |set b: nat | b < 10_000 && SplitForBucket(b) == Validation| == 100
    ensures |set b: nat | b < 10_000 && SplitForBucket(b) == Test| == 100
  {
    ShareOf(Train, 0, 9_800);
    ShareOf(Validation, 9_800, 9_900);
    ShareOf(Test, 9_900, 10_000);
  }

  /**
  Split assignment: components are the connected components of kept documents
  under shared groups and repositories, and every kept group's representative is
  assigned exactly once, to the split of its component. Both lists are in order.
  */
  method AssignSplits(docs: seq<Document>, groups: seq<seq<nat>>, rejected: set<nat>, hashes: Hashes)
    returns (components: seq<Component>, assignments: seq<Assignment>)
    requires WellFormed(docs) && GroupsInRange(docs, groups)
    ensures IsManifest(docs, groups, rejected, hashes, components, assignments)
    ensures forall c :: c in components ==>
      FiledByBucket(c) && ById(docs, c.members) && ById(docs, c.representatives)
    ensures ManifestOrder(docs, components, assignments)
  {
    var uf := new UnionFind(|docs|);
    forall x: nat, y: nat | x < |docs| && y < |docs|
      ensures Together(uf.parents, uf.ranks, x, y) <==> Connected({}, x, y)
    {
      NoEdges(x, y);
    }
    ghost var edges := JoinAll(uf, docs, groups, rejected);
    ghost var parents, ranks := uf.parents, uf.ranks;
    ghost var roots: seq<nat> := seq(|docs|, x requires 0 <= x < |docs| && Forest(parents, ranks) && |parents| == |docs| =>
      Root(parents, ranks, x));
    var members, filed := FileAll(uf, docs, groups, rejected, roots);
    components, assignments := ListComponents(docs, groups, rejected, hashes, members, filed, parents, ranks, roots, edges);
    ghost var components0, assignments0 := components, assignments;
    components, assignments := PutInOrder(docs, components, assignments);
    Resorted(docs, groups, rejected, hashes, components0, assignments0, components, assignments);
    OrderedIsManifestOrder(docs, components, assignments);
    forall c | c in components
      ensures FiledByBucket(c) && ById(docs, c.members) && ById(docs, c.representatives)
    {
      assert IsComponent(docs, groups, rejected, hashes, c);
      ComponentFiledByBucket(docs, groups, rejected, hashes, c);
    }
  }

  // ----- what follows for callers -----

  ghost predicate SplitOf(components: seq<Component>, x: nat, split: Split)
  {
    exists c :: c in components && x in c.members && c.split == split
  }

  /** Kept documents joined by any chain of shared groups and repositories are in
      one component, hence in one split; and a component holds nothing else. */
  lemma {:induction false} ComponentIsChain(docs: seq<Document>, groups: seq<seq<nat>>, rejected: set<nat>, hashes: Hashes,
                         components: seq<Component>, assignments: seq<Assignment>, x: nat, y: nat)
    requires GroupsInRange(docs, groups) && IsManifest(docs, groups, rejected, hashes, components, assignments)
    requires x < |docs| && y < |docs| && Kept(groups, rejected, x) && Kept(groups, rejected, y)
    ensures Connected(LinkEdges(docs, groups, rejected), x, y)
      <==> exists c :: c in components && x in c.members && y in c.members
  {
    assert InComponent(components, x);
    var c :| c in components && x in c.members;
    assert IsComponent(docs, groups, rejected, hashes, c);
    if d :| d in components && x in d.members && y in d.members {
      assert IsComponent(docs, groups, rejected, hashes, d);
    }
  }

  /** No repository and no duplicate group spans two splits. */
  lemma {:induction false} NothingLeaks(docs: seq<Document>, groups: seq<seq<nat>>, rejected: set<nat>, hashes: Hashes,
                     components: seq<Component>, assignments: seq<Assignment>, x: nat, y: nat, s: Split, t: Split)
    requires GroupsInRange(docs, groups) && IsManifest(docs, groups, rejected, hashes, components, assignments)
    requires Linked(docs, groups, rejected, x, y)
    requires SplitOf(components, x, s) && SplitOf(components, y, t)
    ensures s == t
  {
    Step(LinkEdges(docs, groups, rejected), x, y);
    ComponentIsChain(docs, groups, rejected, hashes, components, assignments, x, y);
    var c :| c in components && x in c.members && y in c.members;
  }

  // A component that holds one member of a kept group holds them all.
  lemma {:induction false} WholeGroupInside(docs: seq<Document>, groups: seq<seq<nat>>, rejected: set<nat>, hashes: Hashes, c: Component,
                         g: nat, d: nat, x: nat)
    requires GroupsInRange(docs, groups) && IsComponent(docs, groups, rejected, hashes, c)
    requires KeptIn(groups, rejected, g, d) && d in c.members && x in groups[g]
    ensures x in c.members
  {
    assert Bounded(groups[g], |docs|);
    assert KeptIn(groups, rejected, g, x);
    assert Linked(docs, groups, rejected, d, x);
    Step(LinkEdges(docs, groups, rejected), d, x);
  }

  lemma {:induction false} RepresentativeIsMember(docs: seq<Document>, groups: seq<seq<nat>>, rejected: set<nat>, hashes: Hashes, c: Component, d: nat)
    returns (h: nat)
    requires GroupsInRange(docs, groups) && IsComponent(docs, groups, rejected, hashes, c) && d in c.representatives
    ensures h < |groups| && h !in rejected && d in groups[h] && d == PositionOfPreferred(docs, groups[h])
    ensures d in c.members
  {
    h :| Touches(docs, groups, rejected, c, h) && d == PositionOfPreferred(docs, groups[h]);
    var x: nat :| x in groups[h] && x in c.members;
    WholeGroupInside(docs, groups, rejected, hashes, c, h, x, d);
  }

  lemma {:induction false} AssignedDocumentRepresents(docs: seq<Document>, groups: seq<seq<nat>>, rejected: set<nat>, hashes: Hashes,
                                   edges: set<Edge>, c: Component, d: nat, g: nat)
    requires GroupsInRange(docs, groups) && Partition(groups, |docs|, edges)
    requires IsComponent(docs, groups, rejected, hashes, c) && d in c.representatives
    requires g < |groups| && d in groups[g]
    ensures g !in rejected && d == PositionOfPreferred(docs, groups[g]) && d in c.members
  {
    var h := RepresentativeIsMember(docs, groups, rejected, hashes, c, d);
    assert g == h;
  }

  lemma {:induction false} MembersHaveIds(docs: seq<Document>, groups: seq<seq<nat>>, g: nat)
    requires Grouping(groups, docs) && g < |groups|
    ensures Bounded(groups[g], |docs|) && DistinctIds(DocsOf(docs, groups[g]))
  {
    GroupingListedById(groups, docs);
    forall i, j | 0 <= i < j < |groups[g]|
      ensures DocsOf(docs, groups[g])[i].sourceId != DocsOf(docs, groups[g])[j].sourceId
    {
      assert IdAt(docs, groups[g], i) < IdAt(docs, groups[g], j);
    }
  }

  /** A kept group has exactly one assignment among its members: its
      representative's, in the component that contains the whole group. */
  lemma {:induction false} KeptGroupAssignedOnce(docs: seq<Document>, groups: seq<seq<nat>>, rejected: set<nat>, hashes: Hashes,
                              components: seq<Component>, assignments: seq<Assignment>, g: nat)
    returns (a: Assignment)
    requires Grouping(groups, docs) && GroupsInRange(docs, groups)
    requires IsManifest(docs, groups, rejected, hashes, components, assignments)
    requires g < |groups| && g !in rejected
    ensures a in assignments && Bounded(groups[g], |docs|) && a.document == PositionOfPreferred(docs, groups[g])
    ensures forall x :: x in groups[g] ==> x in a.component.members
    ensures forall b :: b in assignments && b.document in groups[g] ==> b == a
    ensures (forall x :: x in groups[g] ==> docs[x].canonicalBytes > 0) ==>
      StandsFor(DocsOf(docs, groups[g]), docs[a.document])
  {
    assert Bounded(groups[g], |docs|);
    var d := PositionOfPreferred(docs, groups[g]);
    assert KeptIn(groups, rejected, g, d);
    assert InComponent(components, d);
    var c :| c in components && d in c.members;
    assert Touches(docs, groups, rejected, c, g);
    assert RepresentsGroupIn(docs, groups, rejected, c, d);
    assert IsComponent(docs, groups, rejected, hashes, c);
    a := Assignment(d, c);
    if forall x :: x in groups[g] ==> docs[x].canonicalBytes > 0 {
      MembersHaveIds(docs, groups, g);
      PositionRepresents(docs, groups[g]);
    }
    forall x | x in groups[g] ensures x in c.members {
      WholeGroupInside(docs, groups, rejected, hashes, c, g, d, x);
    }
    forall b | b in assignments && b.document in groups[g] ensures b == a {
      AssignedDocumentRepresents(docs, groups, rejected, hashes, DuplicateEdges(docs), b.component, b.document, g);
    }
  }

  /** A rejected group has no assignment at all. */
  lemma {:induction false} RejectedGroupUnassigned(docs: seq<Document>, groups: seq<seq<nat>>, rejected: set<nat>, hashes: Hashes,
                                components: seq<Component>, assignments: seq<Assignment>, g: nat, b: Assignment)
    requires Grouping(groups, docs) && GroupsInRange(docs, groups)
    requires IsManifest(docs, groups, rejected, hashes, components, assignments)
    requires g < |groups| && g in rejected && b in assignments
    ensures b.document !in groups[g]
  {
    if b.document in groups[g] {
      AssignedDocumentRepresents(docs, groups, rejected, hashes, DuplicateEdges(docs), b.component, b.document, g);
    }
  }
}
