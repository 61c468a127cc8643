/**
The member that stands for a duplicate group, the rule that rejects protected
groups, and the independence of both from input order.
*/
module Representatives {
  import opened AscendingLists
  import opened Connectivity
  import opened Dedup
  import opened Groups
  import Sorting

  // ----- the preference order -----

  /** `a` is preferred to `b`: complete provenance first, then the lower share of
      comment bytes (compared by cross-multiplication), then more tokens, then
      the lower id. */
  predicate Preferred(a: Document, b: Document)
  {
    if a.provenanceComplete != b.provenanceComplete then a.provenanceComplete
    else if a.commentBytes * b.canonicalBytes != b.commentBytes * a.canonicalBytes then
      a.commentBytes * b.canonicalBytes < b.commentBytes * a.canonicalBytes
    else if a.tokenCount != b.tokenCount then a.tokenCount > b.tokenCount
    else a.sourceId < b.sourceId
  }

  /** First minimal element in list order, as an iterator minimum finds it. */
  function FirstPreferred(docs: seq<Document>): (best: Document)
    requires docs != []
    ensures best in docs
  {
    if |docs| == 1 then docs[0]
    else
      var n := |docs| - 1;
      var best := FirstPreferred(docs[..n]);
      if Preferred(docs[n], best) then docs[n] else best
  }

  function PositionOfPreferred(docs: seq<Document>, group: seq<nat>): (x: nat)
    requires group != [] && Bounded(group, |docs|)
    ensures x in group && x < |docs|
  {
    if |group| == 1 then assert group[0] in group; group[0]
    else
      var n := |group| - 1;
      assert forall y :: y in group[..n] ==> y in group;
      assert group[n] in group;
      var best := PositionOfPreferred(docs, group[..n]);
      if Preferred(docs[group[n]], docs[best]) then group[n] else best
  }

  function DocsOf(docs: seq<Document>, group: seq<nat>): (r: seq<Document>)
    requires Bounded(group, |docs|)
    ensures |r| == |group|
    ensures forall i :: 0 <= i < |group| ==> group[i] in group && r[i] == docs[group[i]]
  {
    seq(|group|, i requires 0 <= i < |group| => assert group[i] in group; docs[group[i]])
  }

  lemma {:induction false} PositionIsFirstPreferred(docs: seq<Document>, group: seq<nat>)
    requires group != [] && Bounded(group, |docs|)
    ensures docs[PositionOfPreferred(docs, group)] == FirstPreferred(DocsOf(docs, group))
  {
    if |group| > 1 {
      var n := |group| - 1;
      assert forall y :: y in group[..n] ==> y in group;
      PositionIsFirstPreferred(docs, group[..n]);
      assert DocsOf(docs, group)[..n] == DocsOf(docs, group[..n]);
    }
  }

  lemma {:induction false} Scale(x: nat, y: nat, k: nat)
    requires k > 0
    ensures x * k <= y * k <==> x <= y
    ensures x * k < y * k <==> x < y
  {
  }

  lemma {:induction false} Regroup(x: nat, y: nat, z: nat)
    ensures (x * y) * z == (x * z) * y
  {
  }

  // Comparing p/a with r/c through q/b, without dividing.
  lemma {:induction false} CrossMultiply(p: nat, q: nat, r: nat, a: nat, b: nat, c: nat)
    requires p * b <= q * a && q * c <= r * b && a > 0 && b > 0 && c > 0
    ensures p * c <= r * a
    ensures p * b < q * a || q * c < r * b ==> p * c < r * a
  {
    Scale(p * b, q * a, c);
    Scale(q * c, r * b, a);
    Regroup(p, b, c);
    Regroup(q, a, c);
    Regroup(r, b, a);
    Scale(p * c, r * a, b);
  }

  lemma {:induction false} PreferredTransitive(a: Document, b: Document, c: Document)
    requires a.canonicalBytes > 0 && b.canonicalBytes > 0 && c.canonicalBytes > 0
    requires Preferred(a, b) && Preferred(b, c)
    ensures Preferred(a, c)
  {
    if a.provenanceComplete == b.provenanceComplete == c.provenanceComplete {
      var p, q, r := a.commentBytes, b.commentBytes, c.commentBytes;
      CrossMultiply(p, q, r, a.canonicalBytes, b.canonicalBytes, c.canonicalBytes);
      if p * b.canonicalBytes == q * a.canonicalBytes && q * c.canonicalBytes == r * b.canonicalBytes {
        CrossMultiply(r, q, p, c.canonicalBytes, b.canonicalBytes, a.canonicalBytes);
      }
    }
  }

  // ----- when the representative is least -----

  ghost predicate DistinctIds(docs: seq<Document>) {
    forall i, j :: 0 <= i < j < |docs| ==> docs[i].sourceId != docs[j].sourceId
  }

  /** The representative is preferred to every other member. */
  ghost predicate LeastFound(docs: seq<Document>) {
    docs != [] ==> forall d :: d in docs ==> d == FirstPreferred(docs) || Preferred(FirstPreferred(docs), d)
  }

  ghost predicate OrderTransitive(docs: seq<Document>) {
    forall a, b, c :: a in docs && b in docs && c in docs && Preferred(a, b) && Preferred(b, c) ==> Preferred(a, c)
  }

  lemma {:induction false} TransitiveFindsLeast(docs: seq<Document>)
    requires DistinctIds(docs) && OrderTransitive(docs)
    ensures LeastFound(docs)
    decreases |docs|
  {
    if |docs| > 1 {
      var n := |docs| - 1;
      var front := docs[..n];
      assert docs == front + [docs[n]];
      TransitiveFindsLeast(front);
      var best := FirstPreferred(front);
      assert best in front && best.sourceId != docs[n].sourceId;
    }
  }

  /** No empty document, or at most one that is not empty. */
  ghost predicate LengthsAgree(lengths: seq<nat>) {
    || (forall i :: 0 <= i < |lengths| ==> lengths[i] > 0)
    || (forall i, j :: 0 <= i < j < |lengths| ==> lengths[i] == 0 || lengths[j] == 0)
  }

  function Lengths(docs: seq<Document>): (lengths: seq<nat>)
    ensures |lengths| == |docs| && forall i :: 0 <= i < |docs| ==> lengths[i] == docs[i].canonicalBytes
  {
    seq(|docs|, i requires 0 <= i < |docs| => docs[i].canonicalBytes)
  }

  /** What a document brings: no more comment than text, no token in an empty text,
      and at least one shingle. */
  ghost predicate Measured(d: Document) {
    && d.commentBytes <= d.canonicalBytes && (d.canonicalBytes == 0 ==> d.tokenCount == 0)
    && d.shingles != [] && Ascending(d.shingles)
  }

  /** Documents that meet in one duplicate group. */
  ghost predicate OneGroup(docs: seq<Document>) {
    && DistinctIds(docs) && (forall d :: d in docs ==> Measured(d))
    && (forall d, e :: d in docs && e in docs ==> Duplicates(d, e))
    && (forall d, e :: d in docs && e in docs && d.canonicalHash == e.canonicalHash ==> d.canonicalBytes == e.canonicalBytes)
  }

  // Two members of which one is empty have no ratio to compare.
  lemma {:induction false} TransitiveWhenAgreed(docs: seq<Document>)
    requires LengthsAgree(Lengths(docs)) && forall d :: d in docs && d.canonicalBytes == 0 ==> d.commentBytes == 0
    ensures OrderTransitive(docs)
  {
    var lengths := Lengths(docs);
    forall a, b, c | a in docs && b in docs && c in docs && Preferred(a, b) && Preferred(b, c) ensures Preferred(a, c) {
      if forall i :: 0 <= i < |lengths| ==> lengths[i] > 0 {
        PositiveMember(docs, a);
        PositiveMember(docs, b);
        PositiveMember(docs, c);
        PreferredTransitive(a, b, c);
      } else {
        RatiosTie(docs, a, b);
        RatiosTie(docs, b, c);
        RatiosTie(docs, a, c);
      }
    }
  }

  lemma {:induction false} PositiveMember(docs: seq<Document>, d: Document)
    requires d in docs && forall i :: 0 <= i < |Lengths(docs)| ==> Lengths(docs)[i] > 0
    ensures d.canonicalBytes > 0
  {
    var i :| 0 <= i < |docs| && docs[i] == d;
    assert Lengths(docs)[i] > 0;
  }

  lemma {:induction false} RatiosTie(docs: seq<Document>, a: Document, b: Document)
    requires a in docs && b in docs && forall d :: d in docs && d.canonicalBytes == 0 ==> d.commentBytes == 0
    requires forall i, j :: 0 <= i < j < |docs| ==> Lengths(docs)[i] == 0 || Lengths(docs)[j] == 0
    ensures a.commentBytes * b.canonicalBytes == b.commentBytes * a.canonicalBytes
  {
    var i :| 0 <= i < |docs| && docs[i] == a;
    var j :| 0 <= j < |docs| && docs[j] == b;
    if i != j {
      assert Lengths(docs)[i] == 0 || Lengths(docs)[j] == 0;
    }
  }

  /** Distinct ids and agreeing lengths make the representative least. */
  lemma {:induction false} RepresentativeIsLeast(docs: seq<Document>)
    requires DistinctIds(docs) && forall d :: d in docs && d.canonicalBytes == 0 ==> d.commentBytes == 0
    requires LengthsAgree(Lengths(docs))
    ensures LeastFound(docs)
  {
    TransitiveWhenAgreed(docs);
    TransitiveFindsLeast(docs);
  }

  /** What the representative of some documents is, in plain numbers: complete provenance
      if any has it; among those with its provenance the lowest share of comment bytes;
      then the most tokens; then the lowest id. */
  ghost predicate StandsFor(docs: seq<Document>, r: Document) {
    r in docs && forall d :: d in docs ==> Outdoes(r, d)
  }

  ghost predicate Outdoes(r: Document, d: Document) {
    var ours, theirs := r.commentBytes * d.canonicalBytes, d.commentBytes * r.canonicalBytes;
    && (d.provenanceComplete ==> r.provenanceComplete)
    && (d.provenanceComplete == r.provenanceComplete ==> ours <= theirs)
    && (d.provenanceComplete == r.provenanceComplete && ours == theirs ==> r.tokenCount >= d.tokenCount)
    && (d.provenanceComplete == r.provenanceComplete && ours == theirs && r.tokenCount == d.tokenCount ==>
          r.sourceId <= d.sourceId)
  }

  /** The representative of a group of documents that each have some text. */
  lemma {:induction false} PositionRepresents(docs: seq<Document>, group: seq<nat>)
    requires group != [] && Bounded(group, |docs|) && DistinctIds(DocsOf(docs, group))
    requires forall x :: x in group ==> docs[x].canonicalBytes > 0
    ensures StandsFor(DocsOf(docs, group), docs[PositionOfPreferred(docs, group)])
  {
    var members := DocsOf(docs, group);
    RepresentativeIsLeast(members);
    PositionIsFirstPreferred(docs, group);
    var r := FirstPreferred(members);
    forall d | d in members ensures Outdoes(r, d) {
      assert d == r || Preferred(r, d);
    }
  }

  /** A group of an empty document and two others without tokens: the first is preferred
      to the second, that to the third, and that to the first. */
  lemma {:induction false} EmptyDocumentCycle()
    ensures var a := Document(1, 0, 10, [5], [7], true, 1, 2, 0, false);
      var b := Document(2, 0, 11, [5], [7], true, 0, 0, 0, false);
      var c := Document(3, 0, 12, [5], [7], true, 0, 1, 0, false);
      && OneGroup([a, b, c]) && Preferred(a, b) && Preferred(b, c) && Preferred(c, a)
      && FirstPreferred([a, b, c]) == c && !LeastFound([a, b, c])
  {
    var a := Document(1, 0, 10, [5], [7], true, 1, 2, 0, false);
    var b := Document(2, 0, 11, [5], [7], true, 0, 0, 0, false);
    var c := Document(3, 0, 12, [5], [7], true, 0, 1, 0, false);
    forall d, e | d in [a, b, c] && e in [a, b, c] ensures Duplicates(d, e) {
      SameShinglesDuplicate(d, e);
    }
    assert [a, b, c][..2] == [a, b];
    assert [a, b][..1] == [a];
    assert FirstPreferred([a, b]) == a;
    assert b in [a, b, c] && !Preferred(c, b);
  }

  lemma {:induction false} SameShinglesDuplicate(d: Document, e: Document)
    requires 5 in d.keys && 5 in e.keys && d.shingles == e.shingles == [7]
    ensures Duplicates(d, e)
  {
    assert Elements([7]) == {7};
    assert {7} * {7} == {7} && {7} + {7} == {7};
  }

  // A document of a given length: the a-th, b-th and c-th form a cycle, and are
  // preferred to all others.
  function Cyclic(lengths: seq<nat>, a: nat, b: nat, c: nat, p: nat): Document
    requires p < |lengths|
  {
    Document(if p == a then 0 else if p == b then 1 else if p == c then 2 else p + 3, 0, p, [5], [7],
      p == a || p == b || p == c, if p == a then 1 else 0, lengths[p], 0, false)
  }

  function CyclicGroup(lengths: seq<nat>, a: nat, b: nat, c: nat): (docs: seq<Document>)
    ensures |docs| == |lengths| && forall p :: 0 <= p < |docs| ==> docs[p] == Cyclic(lengths, a, b, c, p)
  {
    seq(|lengths|, p requires 0 <= p < |lengths| => Cyclic(lengths, a, b, c, p))
  }

  lemma {:induction false} CyclicIsGroup(lengths: seq<nat>, a: nat, b: nat, c: nat)
    requires a < |lengths| && b < |lengths| && c < |lengths| && a != b && b != c && a != c && lengths[a] > 0
    ensures OneGroup(CyclicGroup(lengths, a, b, c)) && Lengths(CyclicGroup(lengths, a, b, c)) == lengths
  {
    var docs := CyclicGroup(lengths, a, b, c);
    forall d, e | d in docs && e in docs ensures Duplicates(d, e) {
      SameShinglesDuplicate(d, e);
    }
  }

  lemma {:induction false} CyclicHasNoLeast(lengths: seq<nat>, a: nat, b: nat, c: nat)
    requires a < |lengths| && b < |lengths| && c < |lengths| && a != b && b != c && a != c
    requires lengths[a] > 0 && lengths[b] == 0 && lengths[c] > 0
    ensures !LeastFound(CyclicGroup(lengths, a, b, c))
  {
    var docs := CyclicGroup(lengths, a, b, c);
    var x, y, z := docs[a], docs[b], docs[c];
    assert x in docs && y in docs && z in docs;
    assert Preferred(x, y) && Preferred(y, z) && Preferred(z, x);
    var best := FirstPreferred(docs);
    var p :| 0 <= p < |docs| && docs[p] == best;
    if p != a && p != b && p != c {
      assert Preferred(x, best) && !Preferred(best, x);
    } else if p == a {
      assert !Preferred(best, z);
    } else if p == b {
      assert !Preferred(best, x);
    } else {
      assert !Preferred(best, y);
    }
  }

  ghost predicate AllLeast(lengths: seq<nat>) {
    forall docs: seq<Document> :: OneGroup(docs) && Lengths(docs) == lengths ==> LeastFound(docs)
  }

  /** The exact condition: every duplicate group with these lengths has a least
      representative if and only if no document is empty or at most one is not. */
  lemma {:induction false} LeastExactlyWhen(lengths: seq<nat>)
    ensures AllLeast(lengths) <==> LengthsAgree(lengths)
  {
    if LengthsAgree(lengths) {
      forall docs: seq<Document> | OneGroup(docs) && Lengths(docs) == lengths ensures LeastFound(docs) {
        RepresentativeIsLeast(docs);
      }
    } else {
      var b :| 0 <= b < |lengths| && lengths[b] == 0;
      var a, c :| 0 <= a < c < |lengths| && lengths[a] != 0 && lengths[c] != 0;
      CyclicIsGroup(lengths, a, b, c);
      CyclicHasNoLeast(lengths, a, b, c);
    }
  }

  // ----- protected groups -----

  ghost predicate Protected(docs: seq<Document>, group: seq<nat>)
    requires Bounded(group, |docs|)
  {
    exists x :: x in group && docs[x].protectedMatch
  }

  method AnyProtected(docs: seq<Document>, group: seq<nat>) returns (any: bool)
    requires Bounded(group, |docs|)
    ensures any <==> Protected(docs, group)
  {
    for i := 0 to |group|
      invariant forall j :: 0 <= j < i ==> group[j] in group && !docs[group[j]].protectedMatch
    {
      assert group[i] in group;
      if docs[group[i]].protectedMatch {
        return true;
      }
    }
    return false;
  }

  /** One protected member rejects its whole group. */
  method Decontaminate(docs: seq<Document>, groups: seq<seq<nat>>) returns (rejected: set<nat>)
    requires forall g :: 0 <= g < |groups| ==> Bounded(groups[g], |docs|)
    ensures forall g :: g in rejected <==> 0 <= g < |groups| && Protected(docs, groups[g])
  {
    rejected := {};
    for cluster := 0 to |groups|
      invariant forall g :: g in rejected <==> 0 <= g < cluster && Protected(docs, groups[g])
    {
      var any := AnyProtected(docs, groups[cluster]);
      if any {
        rejected := rejected + {cluster};
      }
    }
  }

  // ----- input order does not matter -----

  ghost predicate DocWalk(all: set<Document>, w: seq<Document>, a: Document, b: Document)
  {
    && w != [] && w[0] == a && w[|w| - 1] == b
    && (forall i :: 0 <= i < |w| ==> w[i] in all)
    && (forall i: nat :: i + 1 < |w| ==> Duplicates(w[i], w[i + 1]))
  }

  /** Joined by a chain of duplicates within the document set. */
  ghost predicate Related(all: set<Document>, a: Document, b: Document)
  {
    exists w :: DocWalk(all, w, a, b)
  }

  ghost function All(docs: seq<Document>): set<Document>
  {
    set d | d in docs
  }

  lemma {:induction false} ConnectedIsRelated(docs: seq<Document>, x: nat, y: nat)
    requires WellFormed(docs) && x < |docs| && y < |docs|
    ensures Connected(DuplicateEdges(docs), x, y) <==> Related(All(docs), docs[x], docs[y])
  {
    if Connected(DuplicateEdges(docs), x, y) {
      IndexWalk(docs, x, y);
    }
    if Related(All(docs), docs[x], docs[y]) {
      DocumentWalk(docs, x, y);
    }
  }

  lemma {:induction false} IndexWalk(docs: seq<Document>, x: nat, y: nat)
    requires x < |docs| && Connected(DuplicateEdges(docs), x, y)
    ensures y < |docs| && Related(All(docs), docs[x], docs[y])
  {
    var edges := DuplicateEdges(docs);
    var w :| WalkBetween(edges, w, x, y);
    forall i | 0 <= i < |w| ensures w[i] < |docs| {
      if i > 0 {
        assert Adjacent(edges, w[i - 1], w[i - 1 + 1]);
      }
    }
    var v := seq(|w|, i requires 0 <= i < |w| => docs[w[i]]);
    forall i: nat | i + 1 < |v| ensures Duplicates(v[i], v[i + 1]) {
      assert Adjacent(edges, w[i], w[i + 1]);
      DuplicatesSymmetric(v[i], v[i + 1]);
    }
    assert DocWalk(All(docs), v, docs[x], docs[y]);
  }

  lemma {:induction false} DocumentWalk(docs: seq<Document>, x: nat, y: nat)
    requires WellFormed(docs) && x < |docs| && y < |docs| && Related(All(docs), docs[x], docs[y])
    ensures Connected(DuplicateEdges(docs), x, y)
  {
    var w :| DocWalk(All(docs), w, docs[x], docs[y]);
    var v: seq<nat> := seq(|w|, i requires 0 <= i < |w| =>
      assert w[i] in docs; var k: nat :| k < |docs| && docs[k] == w[i]; k);
    assert forall i :: 0 <= i < |v| ==> v[i] < |docs| && docs[v[i]] == w[i];
    assert v[0] == x && v[|v| - 1] == y;
    forall i: nat | i + 1 < |v| ensures Adjacent(DuplicateEdges(docs), v[i], v[i + 1]) {
      assert Duplicates(w[i], w[i + 1]);
    }
    assert WalkBetween(DuplicateEdges(docs), v, x, y);
  }

  function IdKey(d: Document): nat { d.sourceId }

  function FirstIdKey(g: seq<Document>): nat { if g == [] then 0 else g[0].sourceId }

  // The groups as lists of documents, free of positions in the input.
  ghost predicate DocGrouping(gs: seq<seq<Document>>, all: set<Document>)
  {
    && (forall g :: 0 <= g < |gs| ==> gs[g] != [] && Sorting.Strict(gs[g], IdKey) && forall d :: d in gs[g] ==> d in all)
    && (forall d :: d in all ==> InSome(gs, d))
    && (forall g, d, e :: 0 <= g < |gs| && d in gs[g] && e in all ==> (e in gs[g] <==> Related(all, d, e)))
    && Sorting.Strict(gs, FirstIdKey)
  }

  ghost predicate InSome(gs: seq<seq<Document>>, d: Document)
  {
    exists g :: 0 <= g < |gs| && d in gs[g]
  }

  lemma {:induction false} DocGroupingIncludes(a: seq<seq<Document>>, b: seq<seq<Document>>, all: set<Document>, g: seq<Document>)
    requires DocGrouping(a, all) && DocGrouping(b, all) && g in a
    ensures g in b
  {
    var i :| 0 <= i < |a| && a[i] == g;
    var d := g[0];
    assert d in a[i];
    assert InSome(b, d);
    var j :| 0 <= j < |b| && d in b[j];
    forall e ensures e in g <==> e in b[j] {
      assert e in a[i] ==> e in all;
      assert e in b[j] ==> e in all;
      assert e in all ==> (e in a[i] <==> Related(all, d, e)) && (e in b[j] <==> Related(all, d, e));
    }
    Sorting.StrictIsUnique(a[i], b[j], IdKey);
  }

  lemma {:induction false} DocGroupingIsUnique(a: seq<seq<Document>>, b: seq<seq<Document>>, all: set<Document>)
    requires DocGrouping(a, all) && DocGrouping(b, all)
    ensures a == b
  {
    forall g ensures g in a <==> g in b {
      if g in a {
        DocGroupingIncludes(a, b, all, g);
      }
      if g in b {
        DocGroupingIncludes(b, a, all, g);
      }
    }
    Sorting.StrictIsUnique(a, b, FirstIdKey);
  }

  ghost function GroupDocs(docs: seq<Document>, groups: seq<seq<nat>>): (gs: seq<seq<Document>>)
    requires forall g :: 0 <= g < |groups| ==> Bounded(groups[g], |docs|)
    ensures |gs| == |groups|
    ensures forall g :: 0 <= g < |groups| ==> gs[g] == DocsOf(docs, groups[g])
  {
    seq(|groups|, g requires 0 <= g < |groups| => DocsOf(docs, groups[g]))
  }

  lemma {:induction false} MemberDocs(docs: seq<Document>, group: seq<nat>, y: nat)
    requires WellFormed(docs) && Bounded(group, |docs|) && y < |docs|
    ensures docs[y] in DocsOf(docs, group) <==> y in group
  {
    var g := DocsOf(docs, group);
    if docs[y] in g {
      var i :| 0 <= i < |g| && g[i] == docs[y];
      assert group[i] == y;
    }
    if y in group {
      var i :| 0 <= i < |group| && group[i] == y;
      assert g[i] == docs[y];
    }
  }

  lemma {:induction false} StrictDocs(docs: seq<Document>, group: seq<nat>)
    requires Bounded(group, |docs|) && Sorting.Strict(group, IdOf(docs))
    ensures Sorting.Strict(DocsOf(docs, group), IdKey)
  {
    var g := DocsOf(docs, group);
    forall i, j | 0 <= i < j < |g| ensures IdKey(g[i]) < IdKey(g[j]) {
      assert IdOf(docs)(group[i]) < IdOf(docs)(group[j]);
    }
  }

  lemma {:induction false} GroupingIsDocGrouping(docs: seq<Document>, groups: seq<seq<nat>>)
    requires WellFormed(docs) && Grouping(groups, docs)
    ensures forall g :: 0 <= g < |groups| ==> Bounded(groups[g], |docs|)
    ensures DocGrouping(GroupDocs(docs, groups), All(docs))
  {
    var gs, all := GroupDocs(docs, groups), All(docs);
    forall g | 0 <= g < |gs|
      ensures gs[g] != [] && Sorting.Strict(gs[g], IdKey) && forall d :: d in gs[g] ==> d in all
    {
      StrictDocs(docs, groups[g]);
    }
    forall d | d in all ensures InSome(gs, d) {
      var y: nat :| y < |docs| && docs[y] == d;
      assert Placed(groups, y);
      var g :| 0 <= g < |groups| && y in groups[g];
      MemberDocs(docs, groups[g], y);
      assert d in gs[g];
    }
    forall g, d, e | 0 <= g < |gs| && d in gs[g] && e in all ensures e in gs[g] <==> Related(all, d, e) {
      var i :| 0 <= i < |gs[g]| && gs[g][i] == d;
      var x := groups[g][i];
      var y: nat :| y < |docs| && docs[y] == e;
      MemberDocs(docs, groups[g], y);
      assert x in groups[g];
      ConnectedIsRelated(docs, x, y);
    }
    forall g, h | 0 <= g < h < |gs| ensures FirstIdKey(gs[g]) < FirstIdKey(gs[h]) {
      assert FirstId(docs)(groups[g]) < FirstId(docs)(groups[h]);
      assert groups[g][0] in groups[g] && groups[h][0] in groups[h];
    }
  }

  /** The same documents in any order give the same groups, listed in the same
      order, with the same representatives. */
  lemma {:induction false} OrderDoesNotMatter(docs: seq<Document>, groups: seq<seq<nat>>, docs': seq<Document>, groups': seq<seq<nat>>)
    requires WellFormed(docs) && WellFormed(docs') && All(docs) == All(docs')
    requires Grouping(groups, docs) && Grouping(groups', docs')
    ensures |groups| == |groups'|
    ensures forall g :: 0 <= g < |groups| ==>
      && groups[g] != [] && groups'[g] != [] && Bounded(groups[g], |docs|) && Bounded(groups'[g], |docs'|)
      && DocsOf(docs, groups[g]) == DocsOf(docs', groups'[g])
      && docs[PositionOfPreferred(docs, groups[g])] == docs'[PositionOfPreferred(docs', groups'[g])]
  {
    GroupingIsDocGrouping(docs, groups);
    GroupingIsDocGrouping(docs', groups');
    var gs, gs' := GroupDocs(docs, groups), GroupDocs(docs', groups');
    DocGroupingIsUnique(gs, gs', All(docs));
    forall g | 0 <= g < |groups|
      ensures groups[g] != [] && groups'[g] != [] && Bounded(groups[g], |docs|) && Bounded(groups'[g], |docs'|)
      ensures DocsOf(docs, groups[g]) == DocsOf(docs', groups'[g])
      ensures docs[PositionOfPreferred(docs, groups[g])] == docs'[PositionOfPreferred(docs', groups'[g])]
    {
      assert gs[g] == gs'[g];
      PositionIsFirstPreferred(docs, groups[g]);
      PositionIsFirstPreferred(docs', groups'[g]);
    }
  }
}
