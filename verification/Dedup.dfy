/**
Duplicate groups: exact hashes and confirmed near-duplicates, joined by union-find
and sorted. Hashes, band keys and shingles are arbitrary; nothing depends on how
they collide.
*/
module Dedup {
  import opened AscendingLists
  import opened UnionFind
  import opened Connectivity
  import opened Jaccard

  datatype Document = Document(
    sourceId: nat, repositoryGroup: nat, canonicalHash: nat, keys: seq<nat>, shingles: seq<nat>,
    provenanceComplete: bool, commentBytes: nat, canonicalBytes: nat, tokenCount: nat, protectedMatch: bool)

  // ----- which documents are duplicates -----

  ghost predicate ShareKey(a: Document, b: Document)
  {
    exists k :: k in a.keys && k in b.keys
  }

  ghost predicate Near(a: Document, b: Document)
  {
    ShareKey(a, b) && Exceeds(Elements(a.shingles), Elements(b.shingles))
  }

  /** Equal bytes, or proposed by a shared band key and confirmed by the exact
      Jaccard of the shingle sets. */
  ghost predicate Duplicates(a: Document, b: Document)
  {
    a.canonicalHash == b.canonicalHash || Near(a, b)
  }

  lemma {:induction false} DuplicatesSymmetric(a: Document, b: Document)
    ensures Duplicates(a, b) <==> Duplicates(b, a)
  {
    var s, t := Elements(a.shingles), Elements(b.shingles);
    assert s * t == t * s && s + t == t + s;
  }

  ghost function DuplicateEdges(docs: seq<Document>): set<Edge>
  {
    set i, j | 0 <= i < |docs| && 0 <= j < |docs| && Duplicates(docs[i], docs[j]) :: (i, j)
  }

  ghost predicate WellFormed(docs: seq<Document>)
  {
    && (forall i :: 0 <= i < |docs| ==> Ascending(docs[i].shingles))
    && (forall i, j :: 0 <= i < j < |docs| ==> docs[i].sourceId != docs[j].sourceId)
  }

  ghost predicate InBounds(edges: set<Edge>, n: nat)
  {
    forall e :: e in edges ==> e.0 < n && e.1 < n
  }

  // ----- exact duplicates -----

  // `members` lists the documents before `index` that have hash `h`, in order.
  ghost predicate ListsHash(docs: seq<Document>, members: seq<nat>, h: nat, index: nat)
    requires index <= |docs|
  {
    && (forall x: nat :: x in members <==> x < index && docs[x].canonicalHash == h)
    && members != [] && Ascending(members)
  }

  ghost predicate HashIndex(docs: seq<Document>, groups: map<nat, seq<nat>>, index: nat)
    requires index <= |docs|
  {
    && (forall h :: h in groups ==> ListsHash(docs, groups[h], h, index))
    && (forall i :: 0 <= i < index ==> docs[i].canonicalHash in groups)
  }

  lemma {:induction false} HashIndexMore(docs: seq<Document>, groups: map<nat, seq<nat>>, index: nat)
    requires index < |docs| && HashIndex(docs, groups, index)
    ensures var h := docs[index].canonicalHash;
      HashIndex(docs, groups[h := (if h in groups then groups[h] else []) + [index]], index + 1)
  {
    var h := docs[index].canonicalHash;
    var members := if h in groups then groups[h] else [];
    var more := groups[h := members + [index]];
    if h in groups {
      assert ListsHash(docs, members, h, index);
    }
    ListsMore(docs, members, h, index);
    forall k | k in more ensures ListsHash(docs, more[k], k, index + 1) {
      if k != h {
        assert ListsHash(docs, groups[k], k, index);
      }
    }
  }

  lemma {:induction false} ListsMore(docs: seq<Document>, members: seq<nat>, h: nat, index: nat)
    requires index < |docs| && docs[index].canonicalHash == h && Ascending(members)
    requires forall x: nat :: x in members <==> x < index && docs[x].canonicalHash == h
    ensures ListsHash(docs, members + [index], h, index + 1)
  {
    assert forall j :: 0 <= j < |members| ==> members[j] in members;
    var more := members + [index];
    forall x: nat ensures x in more <==> x < index + 1 && docs[x].canonicalHash == h {
      assert x in more <==> x in members || x == index;
    }
  }

  method IndexHashes(docs: seq<Document>) returns (groups: map<nat, seq<nat>>)
    ensures HashIndex(docs, groups, |docs|)
  {
    groups := map[];
    for index := 0 to |docs|
      invariant HashIndex(docs, groups, index)
    {
      var h := docs[index].canonicalHash;
      HashIndexMore(docs, groups, index);
      groups := groups[h := (if h in groups then groups[h] else []) + [index]];
    }
  }

  /** The union of consecutive members makes the whole list one component. */
  method UnionWindows(uf: UnionFind, group: seq<nat>, ghost edges: set<Edge>) returns (ghost more: set<Edge>)
    requires uf.Valid() && forall x :: x in group ==> x < |uf.parents|
    requires Represents(uf.parents, uf.ranks, edges)
    modifies uf
    ensures uf.Valid() && |uf.parents| == |old(uf.parents)|
    ensures edges <= more && Represents(uf.parents, uf.ranks, more)
    ensures forall e :: e in more ==> e in edges || (e.0 in group && e.1 in group)
    ensures forall k :: 0 <= k < |group| ==> Connected(more, group[0], group[k])
  {
    more := edges;
    if group == [] {
      return;
    }
    Reflexive(more, group[0]);
    for k := 0 to |group| - 1
      invariant uf.Valid() && |uf.parents| == |old(uf.parents)|
      invariant edges <= more && Represents(uf.parents, uf.ranks, more)
      invariant forall e :: e in more ==> e in edges || (e.0 in group && e.1 in group)
      invariant forall i :: 0 <= i <= k ==> Connected(more, group[0], group[i])
    {
      ghost var parents, ranks, less := uf.parents, uf.ranks, more;
      assert group[k] in group && group[k + 1] in group;
      uf.Union(group[k], group[k + 1]);
      UnionAddsEdge(parents, ranks, uf.parents, uf.ranks, more, group[k], group[k + 1]);
      more := more + {(group[k], group[k + 1])};
      WindowConnects(less, more, group, k);
    }
  }

  lemma {:induction false} WindowConnects(less: set<Edge>, more: set<Edge>, group: seq<nat>, k: nat)
    requires k + 1 < |group| && more == less + {(group[k], group[k + 1])}
    requires forall i :: 0 <= i <= k ==> Connected(less, group[0], group[i])
    ensures forall i :: 0 <= i <= k + 1 ==> Connected(more, group[0], group[i])
  {
    forall i | 0 <= i <= k + 1 ensures Connected(more, group[0], group[i]) {
      if i <= k {
        Monotone(less, more, group[0], group[i]);
      } else {
        Monotone(less, more, group[0], group[k]);
        Step(more, group[k], group[k + 1]);
        Transitive(more, group[0], group[k], group[k + 1]);
      }
    }
  }

  ghost predicate SameHash(docs: seq<Document>, i: nat, j: nat)
    requires i < |docs| && j < |docs|
  {
    docs[i].canonicalHash == docs[j].canonicalHash
  }

  // The edges so far are all between equal hashes, and connect all equal hashes in `done`.
  ghost predicate ExactEdges(docs: seq<Document>, edges: set<Edge>, done: set<nat>)
  {
    && InBounds(edges, |docs|)
    && (forall e :: e in edges ==> docs[e.0].canonicalHash == docs[e.1].canonicalHash)
    && (forall i, j :: 0 <= i < |docs| && 0 <= j < |docs| && SameHash(docs, i, j) && docs[i].canonicalHash in done
                       ==> Connected(edges, i, j))
  }

  lemma {:induction false} ExactEdgesStep(docs: seq<Document>, edges: set<Edge>, more: set<Edge>, done: set<nat>, h: nat, group: seq<nat>)
    requires ExactEdges(docs, edges, done) && edges <= more && ListsHash(docs, group, h, |docs|)
    requires forall e :: e in more ==> e in edges || (e.0 in group && e.1 in group)
    requires forall k :: 0 <= k < |group| ==> Connected(more, group[0], group[k])
    ensures ExactEdges(docs, more, done + {h})
  {
    forall i, j | 0 <= i < |docs| && 0 <= j < |docs| && SameHash(docs, i, j) && docs[i].canonicalHash in done + {h}
      ensures Connected(more, i, j)
    {
      if docs[i].canonicalHash in done {
        Monotone(edges, more, i, j);
      } else {
        assert i in group && j in group;
        Symmetric(more, group[0], i);
        Transitive(more, i, group[0], j);
      }
    }
  }

  ghost function Hashes(docs: seq<Document>): set<nat> {
    set i | 0 <= i < |docs| :: docs[i].canonicalHash
  }

  // The documents whose hash is in `done`.
  ghost function HashedBy(docs: seq<Document>, done: set<nat>): set<nat> {
    set i | 0 <= i < |docs| && docs[i].canonicalHash in done
  }

  // Of the lists in `done`, n neighbouring pairs have been joined.
  ghost predicate Paired(docs: seq<Document>, done: set<nat>, n: nat) {
    n + |done| == |HashedBy(docs, done)|
  }

  lemma {:induction false} NonePaired(docs: seq<Document>)
    ensures Paired(docs, {}, 0)
  {
    assert HashedBy(docs, {}) == {};
  }

  lemma {:induction false} MorePaired(docs: seq<Document>, done: set<nat>, h: nat, group: seq<nat>, n: nat)
    requires h !in done && ListsHash(docs, group, h, |docs|) && Paired(docs, done, n)
    ensures |group| > 0 && Paired(docs, done + {h}, n + (|group| - 1))
  {
    assert |done + {h}| == |done| + 1;
    ElementsCount(group);
    assert HashedBy(docs, done + {h}) == HashedBy(docs, done) + Elements(group);
    assert HashedBy(docs, done) !! Elements(group);
    DisjointSize(HashedBy(docs, done), Elements(group));
  }

  lemma {:induction false} EveryHashed(docs: seq<Document>, done: set<nat>)
    requires forall i :: 0 <= i < |docs| ==> docs[i].canonicalHash in done
    ensures |HashedBy(docs, done)| == |docs|
  {
    if docs == [] {
      assert HashedBy(docs, done) == {};
    } else {
      var n := |docs| - 1;
      EveryHashed(docs[..n], done);
      assert HashedBy(docs, done) == HashedBy(docs[..n], done) + {n};
    }
  }

  lemma {:induction false} AllHashed(docs: seq<Document>, groups: map<nat, seq<nat>>)
    requires HashIndex(docs, groups, |docs|)
    ensures groups.Keys == Hashes(docs) && |HashedBy(docs, groups.Keys)| == |docs|
  {
    forall h | h in groups ensures h in Hashes(docs) {
      assert ListsHash(docs, groups[h], h, |docs|) && groups[h][0] in groups[h];
    }
    EveryHashed(docs, groups.Keys);
  }

  ghost predicate Visited(all: set<nat>, pending: set<nat>, done: set<nat>) {
    pending <= all && done == all - pending
  }

  lemma {:induction false} VisitOne(all: set<nat>, pending: set<nat>, done: set<nat>, x: nat)
    requires Visited(all, pending, done) && x in pending
    ensures x in all && x !in done && Visited(all, pending - {x}, done + {x})
  {
  }

  /** Joins one list; one edge is counted for each neighbouring pair in it. */
  method JoinHash(uf: UnionFind, docs: seq<Document>, group: seq<nat>, n: nat, ghost h: nat, ghost edges: set<Edge>,
                  ghost done: set<nat>)
    returns (ghost more: set<Edge>, n': nat)
    requires uf.Valid() && |uf.parents| == |docs| && Represents(uf.parents, uf.ranks, edges)
    requires ListsHash(docs, group, h, |docs|) && h !in done
    requires ExactEdges(docs, edges, done) && Paired(docs, done, n)
    modifies uf
    ensures uf.Valid() && |uf.parents| == |docs| && Represents(uf.parents, uf.ranks, more)
    ensures ExactEdges(docs, more, done + {h}) && Paired(docs, done + {h}, n')
  {
    more := UnionWindows(uf, group, edges);
    ExactEdgesStep(docs, edges, more, done, h, group);
    MorePaired(docs, done, h, group, n);
    n' := n + (|group| - 1);
  }

  method JoinHashes(uf: UnionFind, docs: seq<Document>, groups: map<nat, seq<nat>>)
    returns (ghost edges: set<Edge>, exactEdges: nat)
    requires uf.Valid() && |uf.parents| == |docs| && Represents(uf.parents, uf.ranks, {})
    requires forall h :: h in groups ==> ListsHash(docs, groups[h], h, |docs|)
    modifies uf
    ensures uf.Valid() && |uf.parents| == |docs| && Represents(uf.parents, uf.ranks, edges)
    ensures ExactEdges(docs, edges, groups.Keys) && Paired(docs, groups.Keys, exactEdges)
  {
    edges, exactEdges := {}, 0;
    var hashes := groups.Keys;
    ghost var done: set<nat> := {};
    NonePaired(docs);
    while hashes != {}
      invariant uf.Valid() && |uf.parents| == |docs| && Represents(uf.parents, uf.ranks, edges)
      invariant ExactEdges(docs, edges, done) && Paired(docs, done, exactEdges)
      invariant Visited(groups.Keys, hashes, done)
      decreases |hashes|
    {
      var h :| h in hashes;
      VisitOne(groups.Keys, hashes, done, h);
      edges, exactEdges := JoinHash(uf, docs, groups[h], exactEdges, h, edges, done);
      hashes, done := hashes - {h}, done + {h};
    }
    assert done == groups.Keys;
  }

  /** Joins equal hashes: an edge for every document beyond the first of its hash. */
  method UnionExact(uf: UnionFind, docs: seq<Document>) returns (ghost edges: set<Edge>, exactEdges: nat)
    requires uf.Valid() && |uf.parents| == |docs| && Represents(uf.parents, uf.ranks, {})
    modifies uf
    ensures uf.Valid() && |uf.parents| == |docs| && Represents(uf.parents, uf.ranks, edges)
    ensures InBounds(edges, |docs|)
    ensures forall e :: e in edges ==> docs[e.0].canonicalHash == docs[e.1].canonicalHash
    ensures forall i, j :: 0 <= i < |docs| && 0 <= j < |docs| && SameHash(docs, i, j) ==> Connected(edges, i, j)
    ensures exactEdges + |Hashes(docs)| == |docs|
  {
    var groups := IndexHashes(docs);
    edges, exactEdges := JoinHashes(uf, docs, groups);
    AllHashed(docs, groups);
  }

  // ----- candidates from shared band keys -----

  ghost predicate HasKey(d: Document, t: nat, key: nat)
    requires t <= |d.keys|
  {
    key in d.keys[..t]
  }

  ghost predicate InBand(bands: map<nat, seq<nat>>, key: nat, x: nat)
  {
    key in bands && x in bands[key]
  }

  // The band index after all documents before `index` and the first `t` keys of
  // document `index`.
  ghost predicate BandIndex(docs: seq<Document>, bands: map<nat, seq<nat>>, index: nat, t: nat)
    requires index < |docs| && t <= |docs[index].keys|
  {
    forall key, x: nat :: InBand(bands, key, x) <==>
      (x < index && key in docs[x].keys) || (x == index && HasKey(docs[index], t, key))
  }

  ghost predicate ShareEarlyKey(a: Document, d: Document, t: nat)
    requires t <= |d.keys|
  {
    exists k :: k in a.keys && HasKey(d, t, k)
  }

  // One of the first t keys of `d` already stands before it.
  ghost predicate RepeatsKey(d: Document, t: nat)
    requires t <= |d.keys|
  {
    exists s: nat :: s < t && HasKey(d, s, d.keys[s])
  }

  ghost predicate Candidates(docs: seq<Document>, candidates: set<Edge>, index: nat, t: nat)
    requires index < |docs| && t <= |docs[index].keys|
  {
    && (forall e :: e in candidates ==> e.0 <= e.1 <= index)
    && (forall i, j :: 0 <= i < j < index ==> ((i, j) in candidates <==> ShareKey(docs[i], docs[j])))
    && (forall i :: 0 <= i < index ==> ((i, index) in candidates <==> ShareEarlyKey(docs[i], docs[index], t)))
    && (forall i :: 0 <= i < index ==> ((i, i) in candidates <==> RepeatsKey(docs[i], |docs[i].keys|)))
    && ((index, index) in candidates <==> RepeatsKey(docs[index], t))
  }

  lemma {:induction false} BandStep(docs: seq<Document>, bands: map<nat, seq<nat>>, index: nat, t: nat)
    requires index < |docs| && t < |docs[index].keys| && BandIndex(docs, bands, index, t)
    ensures var key := docs[index].keys[t];
      BandIndex(docs, bands[key := (if key in bands then bands[key] else []) + [index]], index, t + 1)
  {
    var d := docs[index];
    var key := d.keys[t];
    var bands' := bands[key := (if key in bands then bands[key] else []) + [index]];
    assert d.keys[..t + 1] == d.keys[..t] + [key];
    forall k, x: nat
      ensures InBand(bands', k, x) <==> (x < index && k in docs[x].keys) || (x == index && HasKey(d, t + 1, k))
    {
      assert InBand(bands', k, x) <==> InBand(bands, k, x) || (k == key && x == index);
      assert HasKey(d, t + 1, k) <==> HasKey(d, t, k) || k == key;
    }
  }

  lemma {:induction false} CandidateStep(docs: seq<Document>, bands: map<nat, seq<nat>>, candidates: set<Edge>, candidates': set<Edge>,
                      index: nat, t: nat)
    requires index < |docs| && t < |docs[index].keys|
    requires BandIndex(docs, bands, index, t) && Candidates(docs, candidates, index, t)
    requires var key := docs[index].keys[t];
      forall e :: e in candidates' <==>
        e in candidates || (InBand(bands, key, e.0) && e.1 == index)
    ensures Candidates(docs, candidates', index, t + 1)
  {
    var d := docs[index];
    var key := d.keys[t];
    assert d.keys[..t + 1] == d.keys[..t] + [key];
    forall e | e in candidates' ensures e.0 <= e.1 <= index {
      assert e in candidates || InBand(bands, key, e.0);
    }
    forall i | 0 <= i < index ensures (i, index) in candidates' <==> ShareEarlyKey(docs[i], d, t + 1) {
      assert InBand(bands, key, i) <==> key in docs[i].keys;
      assert HasKey(d, t + 1, key);
      assert forall k :: HasKey(d, t + 1, k) <==> HasKey(d, t, k) || k == key;
    }
    assert InBand(bands, key, index) <==> HasKey(d, t, key);
    assert RepeatsKey(d, t + 1) <==> RepeatsKey(d, t) || HasKey(d, t, key);
  }

  method ProposeFor(docs: seq<Document>, index: nat, bands: map<nat, seq<nat>>, candidates: set<Edge>)
    returns (bands': map<nat, seq<nat>>, candidates': set<Edge>)
    requires index < |docs|
    requires BandIndex(docs, bands, index, 0) && Candidates(docs, candidates, index, 0)
    ensures BandIndex(docs, bands', index, |docs[index].keys|)
    ensures Candidates(docs, candidates', index, |docs[index].keys|)
  {
    bands', candidates' := bands, candidates;
    for t := 0 to |docs[index].keys|
      invariant BandIndex(docs, bands', index, t) && Candidates(docs, candidates', index, t)
    {
      var key := docs[index].keys[t];
      ghost var less := candidates';
      if key in bands' {
        // Earlier documents come first in a pair. A key repeated within one
        // document pairs it with itself: that joins nothing, but it is counted.
        candidates' := candidates' + set c | c in bands'[key] :: if c < index then (c, index) else (index, c);
        assert forall c: nat :: c in bands'[key] ==> InBand(bands', key, c);
      }
      CandidateStep(docs, bands', less, candidates', index, t);
      BandStep(docs, bands', index, t);
      bands' := bands'[key := (if key in bands' then bands'[key] else []) + [index]];
    }
  }

  ghost predicate AllCandidates(docs: seq<Document>, candidates: set<Edge>)
  {
    && InBounds(candidates, |docs|)
    && (forall e :: e in candidates ==> e.0 <= e.1)
    && (forall i, j :: 0 <= i < j < |docs| ==> ((i, j) in candidates <==> ShareKey(docs[i], docs[j])))
    && (forall i :: 0 <= i < |docs| ==> ((i, i) in candidates <==> RepeatsKey(docs[i], |docs[i].keys|)))
  }

  lemma {:induction false} NextDocument(docs: seq<Document>, bands: map<nat, seq<nat>>, candidates: set<Edge>, index: nat)
    requires index < |docs|
    requires BandIndex(docs, bands, index, |docs[index].keys|) && Candidates(docs, candidates, index, |docs[index].keys|)
    ensures AllCandidates(docs[..index + 1], candidates)
    ensures index + 1 < |docs| ==> BandIndex(docs, bands, index + 1, 0) && Candidates(docs, candidates, index + 1, 0)
  {
    var d := docs[index];
    assert d.keys[..|d.keys|] == d.keys;
    assert forall k :: HasKey(d, |d.keys|, k) <==> k in d.keys;
    forall i, j | 0 <= i < j < index + 1 ensures (i, j) in candidates <==> ShareKey(docs[i], docs[j]) {
      if j == index {
        assert ShareEarlyKey(docs[i], d, |d.keys|) <==> ShareKey(docs[i], d);
      }
    }
    if index + 1 < |docs| {
      assert docs[index + 1].keys[..0] == [];
    }
  }

  /** Every pair of documents that shares a band key, every document that repeats
      one of its own, and nothing else. */
  method Propose(docs: seq<Document>) returns (candidates: set<Edge>)
    ensures AllCandidates(docs, candidates)
  {
    candidates := {};
    var bands: map<nat, seq<nat>> := map[];
    for index := 0 to |docs|
      invariant index < |docs| ==> BandIndex(docs, bands, index, 0) && Candidates(docs, candidates, index, 0)
      invariant AllCandidates(docs[..index], candidates)
    {
      bands, candidates := ProposeFor(docs, index, bands, candidates);
      NextDocument(docs, bands, candidates, index);
    }
    assert docs[..|docs|] == docs;
  }

  // ----- near duplicates -----

  /** Candidate pairs with different bytes whose exact Jaccard exceeds the threshold. */
  ghost predicate NearEdge(docs: seq<Document>, e: Edge)
    requires e.0 < |docs| && e.1 < |docs|
  {
    && docs[e.0].canonicalHash != docs[e.1].canonicalHash
    && Exceeds(Elements(docs[e.0].shingles), Elements(docs[e.1].shingles))
  }

  ghost function NearEdges(docs: seq<Document>, candidates: set<Edge>): set<Edge>
    requires InBounds(candidates, |docs|)
  {
    set e | e in candidates && NearEdge(docs, e)
  }

  lemma {:induction false} NearEdgesMore(docs: seq<Document>, candidates: set<Edge>, pending: set<Edge>, e: Edge)
    requires InBounds(candidates, |docs|) && pending <= candidates && e in pending
    ensures var seen, found := candidates - (pending - {e}), NearEdges(docs, candidates - pending);
      && e !in found && NearEdges(docs, seen) == if NearEdge(docs, e) then found + {e} else found
  {
    assert candidates - (pending - {e}) == (candidates - pending) + {e};
  }

  method UnionNear(uf: UnionFind, docs: seq<Document>, candidates: set<Edge>, ghost edges: set<Edge>)
    returns (ghost more: set<Edge>, nearEdges: nat)
    requires uf.Valid() && |uf.parents| == |docs| && Represents(uf.parents, uf.ranks, edges)
    requires WellFormed(docs) && InBounds(candidates, |docs|)
    modifies uf
    ensures uf.Valid() && |uf.parents| == |docs| && Represents(uf.parents, uf.ranks, more)
    ensures forall e: Edge :: e in more <==> e in edges || (e in candidates && NearEdge(docs, e))
    ensures nearEdges == |NearEdges(docs, candidates)|
  {
    more, nearEdges := edges, 0;
    ghost var found: set<Edge> := {};
    var pending := candidates;
    while pending != {}
      invariant uf.Valid() && |uf.parents| == |docs| && Represents(uf.parents, uf.ranks, more)
      invariant pending <= candidates
      invariant forall e: Edge :: e in more <==> e in edges || (e in candidates && e !in pending && NearEdge(docs, e))
      invariant found == NearEdges(docs, candidates - pending) && nearEdges == |found|
      decreases |pending|
    {
      var e :| e in pending;
      NearEdgesMore(docs, candidates, pending, e);
      pending := pending - {e};
      var left, right := docs[e.0], docs[e.1];
      if left.canonicalHash == right.canonicalHash {
        continue;
      }
      var exceeds := JaccardExceeds(left.shingles, right.shingles);
      if exceeds {
        ghost var parents, ranks := uf.parents, uf.ranks;
        uf.Union(e.0, e.1);
        UnionAddsEdge(parents, ranks, uf.parents, uf.ranks, more, e.0, e.1);
        more := more + {e};
        found, nearEdges := found + {e}, nearEdges + 1;
      }
    }
    assert candidates - pending == candidates;
  }

  // The edges found connect the same documents as the duplicate relation.
  lemma {:induction false} EdgesMakeDuplicates(docs: seq<Document>, exact: set<Edge>, candidates: set<Edge>, edges: set<Edge>,
                                               x: nat, y: nat)
    requires AllCandidates(docs, candidates) && InBounds(exact, |docs|)
    requires forall e :: e in exact ==> docs[e.0].canonicalHash == docs[e.1].canonicalHash
    requires forall i, j :: 0 <= i < |docs| && 0 <= j < |docs| && SameHash(docs, i, j) ==> Connected(exact, i, j)
    requires forall e: Edge :: e in edges <==> e in exact || (e in candidates && NearEdge(docs, e))
    ensures Connected(edges, x, y) <==> Connected(DuplicateEdges(docs), x, y)
  {
    var all := DuplicateEdges(docs);
    if Connected(edges, x, y) {
      var w :| WalkBetween(edges, w, x, y);
      forall e: Edge | e in edges ensures e in all {
        FoundEdgeIsDuplicate(docs, exact, candidates, e);
      }
      assert WalkBetween(all, w, x, y);
    }
    if Connected(all, x, y) {
      var w :| WalkBetween(all, w, x, y);
      forall i: nat | i + 1 < |w| ensures Connected(edges, w[i], w[i + 1]) {
        assert Adjacent(all, w[i], w[i + 1]);
        DuplicateIsConnected(docs, exact, candidates, edges, w[i], w[i + 1]);
      }
      StepsConnect(edges, w);
    }
  }

  lemma {:induction false} FoundEdgeIsDuplicate(docs: seq<Document>, exact: set<Edge>, candidates: set<Edge>, e: Edge)
    requires AllCandidates(docs, candidates) && InBounds(exact, |docs|)
    requires forall e :: e in exact ==> docs[e.0].canonicalHash == docs[e.1].canonicalHash
    requires e in exact || (e in candidates && NearEdge(docs, e))
    ensures e in DuplicateEdges(docs)
  {
    assert Duplicates(docs[e.0], docs[e.1]) by {
      if e !in exact {
        assert e == (e.0, e.1) && e.0 < e.1;
      }
    }
  }

  lemma {:induction false} DuplicateIsConnected(docs: seq<Document>, exact: set<Edge>, candidates: set<Edge>, edges: set<Edge>, i: nat, j: nat)
    requires AllCandidates(docs, candidates) && InBounds(exact, |docs|)
    requires forall i, j :: 0 <= i < |docs| && 0 <= j < |docs| && SameHash(docs, i, j) ==> Connected(exact, i, j)
    requires forall e: Edge :: e in edges <==> e in exact || (e in candidates && NearEdge(docs, e))
    requires Adjacent(DuplicateEdges(docs), i, j)
    ensures Connected(edges, i, j)
  {
    DuplicatesSymmetric(docs[i], docs[j]);
    if SameHash(docs, i, j) {
      Monotone(exact, edges, i, j);
    } else {
      var e: Edge := if i < j then (i, j) else (j, i);
      assert ShareKey(docs[e.0], docs[e.1]);
      assert e in candidates;
      var s, t := Elements(docs[i].shingles), Elements(docs[j].shingles);
      assert s * t == t * s && s + t == t + s;
      assert NearEdge(docs, e);
      Step(edges, i, j);
    }
  }

  lemma {:induction false} StepsConnect(edges: set<Edge>, w: seq<nat>)
    requires w != [] && forall i: nat :: i + 1 < |w| ==> Connected(edges, w[i], w[i + 1])
    ensures Connected(edges, w[0], w[|w| - 1])
    decreases |w|
  {
    if |w| == 1 {
      Reflexive(edges, w[0]);
    } else {
      var v := w[..|w| - 1];
      forall i: nat | i + 1 < |v| ensures Connected(edges, v[i], v[i + 1]) {
        assert Connected(edges, w[i], w[i + 1]);
      }
      StepsConnect(edges, v);
      assert Connected(edges, w[|w| - 2], w[|w| - 2 + 1]);
      Transitive(edges, w[0], w[|w| - 2], w[|w| - 1]);
    }
  }
}
