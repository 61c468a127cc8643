/**
One round of the incremental trainer. A round takes the first pair of the ranking and
merges its remembered starts in position order, skipping the stale ones.
*/
module Rounds {
  import opened AscendingLists
  import opened Bpe
  import opened Links
  import opened Counting
  import opened PairAccounts

  datatype State = State(n: Nodes, counts: Counts, occurrences: Occurrences, ranking: Ranking)

  /** Lists, counts and ranking all describe the documents `docs`. */
  ghost predicate Sound(st: State, home: seq<nat>, chains: seq<Chain>, docs: seq<seq<nat>>)
  {
    && Linked(st.n, home, chains)
    && docs == Spellings(st.n.tokens, chains)
    && Ranked(st.counts, st.ranking)
    && Counted(docs, st.counts)
    && Size(docs) <= NONE
    && (forall q, y: nat :: Noted(st.occurrences, q, y) ==> y < |home|)
  }

  ghost predicate PairAt(docs: seq<seq<nat>>, d: nat, i: nat, q: Pair)
  {
    d < |docs| && i + 1 < |docs[d]| && Matches(docs[d], i, q)
  }

  // Every live pair other than `p` has its start remembered.
  ghost predicate NotedExcept(docs: seq<seq<nat>>, chains: seq<Chain>, occurrences: Occurrences, p: Pair)
    requires |docs| == |chains| && forall d :: 0 <= d < |docs| ==> |docs[d]| == |chains[d]|
  {
    forall d: nat, i: nat, q :: PairAt(docs, d, i, q) && q != p ==> Noted(occurrences, q, chains[d][i])
  }

  ghost predicate InFrom(starts: seq<nat>, m: nat, x: nat)
  {
    exists j :: m <= j < |starts| && starts[j] == x
  }

  // Every live occurrence of `p` is still to be visited.
  ghost predicate Pending(docs: seq<seq<nat>>, chains: seq<Chain>, starts: seq<nat>, m: nat, p: Pair)
    requires |docs| == |chains| && forall d :: 0 <= d < |docs| ==> |docs[d]| == |chains[d]|
  {
    forall d: nat, i: nat :: PairAt(docs, d, i, p) ==> InFrom(starts, m, chains[d][i])
  }

  ghost predicate Shaped(docs: seq<seq<nat>>, chains: seq<Chain>)
  {
    && |docs| == |chains|
    && (forall d :: 0 <= d < |docs| ==> |docs[d]| == |chains[d]|)
    && (forall d :: 0 <= d < |chains| ==> Ascending(chains[d]))
  }

  // ----- one merge, seen on documents and chains -----

  function MergedDocs(docs: seq<seq<nat>>, d: nat, i: nat, id: nat): seq<seq<nat>>
    requires d < |docs| && i + 1 < |docs[d]|
  {
    docs[d := docs[d][..i] + [id] + docs[d][i + 2..]]
  }

  ghost function MergedChains(chains: seq<Chain>, d: nat, i: nat): seq<Chain>
    requires d < |chains| && i + 1 < |chains[d]|
  {
    chains[d := Without(chains[d], i + 1)]
  }

  lemma {:induction false} MergedShaped(docs: seq<seq<nat>>, chains: seq<Chain>, d: nat, i: nat, id: nat)
    requires Shaped(docs, chains) && d < |docs| && i + 1 < |docs[d]|
    ensures Shaped(MergedDocs(docs, d, i, id), MergedChains(chains, d, i))
  {
    AscendingWithout(chains[d], i + 1);
  }

  // A pair of the merged documents is one of the two new ones, or an old pair
  // with its old start.
  lemma {:induction false} MergedPair(docs: seq<seq<nat>>, chains: seq<Chain>, d: nat, i: nat, id: nat, e: nat, j: nat, q: Pair)
    returns (k: nat)
    requires Shaped(docs, chains) && d < |docs| && i + 1 < |docs[d]|
    requires Shaped(MergedDocs(docs, d, i, id), MergedChains(chains, d, i))
    requires PairAt(MergedDocs(docs, d, i, id), e, j, q)
    requires e != d || (j + 1 != i && j != i)
    ensures PairAt(docs, e, k, q)
    ensures MergedChains(chains, d, i)[e][j] == chains[e][k]
    ensures e == d ==> k < i || k > i + 1
  {
    k := if e == d && j > i then j + 1 else j;
    var s' := MergedDocs(docs, d, i, id)[e];
    if e == d {
      assert s'[j] == docs[d][k] && s'[j + 1] == docs[d][k + 1];
    }
  }

  // The occurrence table after a merge keeps its entries and has the two new starts.
  ghost predicate NotesMerge(occurrences: Occurrences, occurrences': Occurrences, bound: nat,
                             s: seq<nat>, c: Chain, i: nat, id: nat)
    requires |s| == |c|
  {
    && (forall q, y :: Noted(occurrences, q, y) ==> Noted(occurrences', q, y))
    && (forall q, y: nat :: Noted(occurrences', q, y) ==> Noted(occurrences, q, y) || y < bound)
    && (0 < i < |s| ==> Noted(occurrences', (s[i - 1], id), c[i - 1]))
    && (i + 2 < |s| ==> Noted(occurrences', (id, s[i + 2]), c[i]))
  }

  lemma {:induction false} NotedAfterMerge(docs: seq<seq<nat>>, chains: seq<Chain>, occurrences: Occurrences, occurrences': Occurrences,
                        bound: nat, p: Pair, d: nat, i: nat, id: nat)
    requires Shaped(docs, chains) && d < |docs| && i + 1 < |docs[d]|
    requires Shaped(MergedDocs(docs, d, i, id), MergedChains(chains, d, i))
    requires NotedExcept(docs, chains, occurrences, p)
    requires NotesMerge(occurrences, occurrences', bound, docs[d], chains[d], i, id)
    ensures NotedExcept(MergedDocs(docs, d, i, id), MergedChains(chains, d, i), occurrences', p)
  {
    var docs', chains' := MergedDocs(docs, d, i, id), MergedChains(chains, d, i);
    forall e: nat, j: nat, q | PairAt(docs', e, j, q) && q != p ensures Noted(occurrences', q, chains'[e][j]) {
      if e == d && j + 1 == i {
        assert docs'[d][j] == docs[d][i - 1] && docs'[d][j + 1] == id;
        assert chains'[d][j] == chains[d][i - 1];
      } else if e == d && j == i {
        assert docs'[d][j] == id && docs'[d][j + 1] == docs[d][i + 2];
        assert chains'[d][j] == chains[d][i];
      } else {
        var k := MergedPair(docs, chains, d, i, id, e, j, q);
        assert Noted(occurrences, q, chains[e][k]);
      }
    }
  }

  lemma {:induction false} PendingAfterMerge(docs: seq<seq<nat>>, chains: seq<Chain>, home: seq<nat>, starts: seq<nat>, m: nat,
                          p: Pair, d: nat, i: nat, id: nat)
    requires Shaped(docs, chains) && d < |docs| && i + 1 < |docs[d]|
    requires Shaped(MergedDocs(docs, d, i, id), MergedChains(chains, d, i))
    requires Pending(docs, chains, starts, m, p) && m < |starts| && starts[m] == chains[d][i]
    requires p.0 != id && p.1 != id
    requires forall e, j :: 0 <= e < |chains| && 0 <= j < |chains[e]| ==> chains[e][j] < |home| && home[chains[e][j]] == e
    ensures Pending(MergedDocs(docs, d, i, id), MergedChains(chains, d, i), starts, m + 1, p)
  {
    var docs', chains' := MergedDocs(docs, d, i, id), MergedChains(chains, d, i);
    forall e: nat, j: nat | PairAt(docs', e, j, p) ensures InFrom(starts, m + 1, chains'[e][j]) {
      assert e == d ==> docs'[d][i] == id;
      var k := MergedPair(docs, chains, d, i, id, e, j, p);
      assert InFrom(starts, m, chains[e][k]);
      assert chains[e][k] != chains[d][i];
    }
  }

  // The start being visited is the leftmost live occurrence in its document.
  lemma {:induction false} VisitedIsLeftmost(docs: seq<seq<nat>>, chains: seq<Chain>, starts: seq<nat>, m: nat, p: Pair, d: nat, i: nat)
    requires Shaped(docs, chains) && PairAt(docs, d, i, p)
    requires Pending(docs, chains, starts, m, p) && m < |starts| && starts[m] == chains[d][i]
    requires Ascending(starts)
    ensures NoMatch(docs[d][..i] + [p.0], p)
  {
    var w := docs[d][..i] + [p.0];
    forall t: nat | t + 1 < |w| ensures !Matches(w, t, p) {
      assert w[t] == docs[d][t] && w[t + 1] == docs[d][t + 1];
      assert chains[d][t] < chains[d][i];
      assert PairAt(docs, d, t, p) ==> InFrom(starts, m, chains[d][t]);
      assert forall j :: m <= j < |starts| ==> starts[m] <= starts[j];
    }
  }

  // So the merge leaves what the rule makes of each document alone.
  lemma {:induction false} MergeKeepsReplacement(docs: seq<seq<nat>>, d: nat, i: nat, p: Pair, id: nat)
    requires PairAt(docs, d, i, p) && NoMatch(docs[d][..i] + [p.0], p)
    requires p.0 != id && p.1 != id
    ensures ReplaceDocs(MergedDocs(docs, d, i, id), p, id) == ReplaceDocs(docs, p, id)
  {
    var s := docs[d];
    SplitPair(s, i);
    ReplaceLeftmost(s[..i], s[i + 2..], p, id);
  }

  lemma {:induction false} SizeAfterMerge(docs: seq<seq<nat>>, d: nat, i: nat, id: nat)
    requires d < |docs| && i + 1 < |docs[d]|
    ensures Size(MergedDocs(docs, d, i, id)) + 1 == Size(docs)
  {
    SizeUpdate(docs, d, docs[d][..i] + [id] + docs[d][i + 2..]);
  }

  // ----- one merge on the state -----

  /** Everything the visit of `starts[m..]` relies on and re-establishes. */
  ghost predicate Visiting(st: State, home: seq<nat>, chains: seq<Chain>, docs: seq<seq<nat>>,
                           starts: seq<nat>, m: nat, p: Pair)
  {
    && Sound(st, home, chains, docs)
    && Shaped(docs, chains)
    && NotedExcept(docs, chains, st.occurrences, p)
    && Pending(docs, chains, starts, m, p)
  }

  lemma {:induction false} ChainNeighbours(n: Nodes, home: seq<nat>, c: Chain, d: nat, s: seq<nat>, i: nat)
    requires Sized(n, home) && ChainOk(n, home, c, d) && s == Spelling(n.tokens, c)
    requires i + 1 < |c|
    ensures Neighbours(n.tokens, PreviousOf(c, i), NextOf(c, i + 1), s[..i], s[i + 2..])
  {
    if i > 0 {
      assert NodeOk(n, home, c, d, i - 1);
      assert s[..i][i - 1] == s[i - 1];
    }
    if i + 2 < |c| {
      assert NodeOk(n, home, c, d, i + 2);
    }
  }

  lemma {:induction false} Surroundings(st: State, home: seq<nat>, chains: seq<Chain>, docs: seq<seq<nat>>, d: nat, i: nat)
    requires Sound(st, home, chains, docs)
    requires d < |docs| && i + 1 < |docs[d]|
    ensures d < |chains| && i + 1 < |chains[d]|
    ensures chains[d][i] < |home| && chains[d][i + 1] < |home| && chains[d][i] != chains[d][i + 1]
    ensures st.n.next[chains[d][i]] == chains[d][i + 1]
    ensures st.n.tokens[chains[d][i]] == docs[d][i] && st.n.tokens[chains[d][i + 1]] == docs[d][i + 1]
    ensures st.n.previous[chains[d][i]] == PreviousOf(chains[d], i)
    ensures st.n.next[chains[d][i + 1]] == NextOf(chains[d], i + 1)
    ensures Neighbours(st.n.tokens, PreviousOf(chains[d], i), NextOf(chains[d], i + 1), docs[d][..i], docs[d][i + 2..])
  {
    var c := chains[d];
    assert ChainOk(st.n, home, c, d);
    assert NodeOk(st.n, home, c, d, i) && NodeOk(st.n, home, c, d, i + 1);
    assert docs[d] == Spelling(st.n.tokens, c);
    ChainNeighbours(st.n, home, c, d, docs[d], i);
  }

  // The splice does not touch the neighbours' tokens.
  lemma {:induction false} NeighboursAfterSplice(n: Nodes, n': Nodes, x: nat, y: nat, before: nat, after: nat, id: nat,
                              pre: seq<nat>, suf: seq<nat>)
    requires Neighbours(n.tokens, before, after, pre, suf) && |n.tokens| <= NONE
    requires Spliced(n, n', x, y, after, id)
    requires before != x && before != y && after != x && after != y
    ensures Neighbours(n'.tokens, before, after, pre, suf)
  {
  }

  lemma {:induction false} DestroyedIsCounted(docs: seq<seq<nat>>, counts: Counts, d: nat, i: nat)
    requires Counted(docs, counts) && Size(docs) <= NONE
    requires d < |docs| && i + 1 < |docs[d]|
    ensures forall q :: Destroyed(docs[d][..i], docs[d][i], docs[d][i + 1], docs[d][i + 2..], q) <= Get(counts, q) <= NONE
  {
    forall q
      ensures Destroyed(docs[d][..i], docs[d][i], docs[d][i + 1], docs[d][i + 2..], q) <= Get(counts, q) <= NONE
    {
      MergeTotals(docs, d, i, 0, q);
      TotalBound(docs, q);
      assert Get(counts, q) == Total(docs, q);
    }
  }

  lemma {:induction false} CountedAfterMerge(docs: seq<seq<nat>>, counts: Counts, counts': Counts, d: nat, i: nat, id: nat)
    requires Counted(docs, counts)
    requires d < |docs| && i + 1 < |docs[d]|
    requires forall q ::
      Get(counts', q) == Get(counts, q)
                         - Destroyed(docs[d][..i], docs[d][i], docs[d][i + 1], docs[d][i + 2..], q)
                         + Created(docs[d][..i], id, docs[d][i + 2..], q)
    ensures Counted(MergedDocs(docs, d, i, id), counts')
  {
    forall q ensures Get(counts', q) == Total(MergedDocs(docs, d, i, id), q) {
      MergeTotals(docs, d, i, id, q);
      assert Get(counts, q) == Total(docs, q);
    }
  }

  lemma {:induction false} ChainsAtHome(n: Nodes, home: seq<nat>, chains: seq<Chain>)
    requires Linked(n, home, chains)
    ensures forall e, j :: 0 <= e < |chains| && 0 <= j < |chains[e]| ==> chains[e][j] < |home| && home[chains[e][j]] == e
  {
    forall e, j | 0 <= e < |chains| && 0 <= j < |chains[e]|
      ensures chains[e][j] < |home| && home[chains[e][j]] == e
    {
      assert ChainOk(n, home, chains[e], e);
      assert NodeOk(n, home, chains[e], e, j);
    }
  }

  lemma {:induction false} VisitingAfterMerge(st: State, st': State, home: seq<nat>, chains: seq<Chain>, docs: seq<seq<nat>>,
                           starts: seq<nat>, m: nat, p: Pair, d: nat, i: nat, id: nat)
    requires Visiting(st, home, chains, docs, starts, m, p)
    requires PairAt(docs, d, i, p) && m < |starts| && starts[m] == chains[d][i]
    requires p.0 < id && p.1 < id && id < NONE
    requires Spliced(st.n, st'.n, chains[d][i], chains[d][i + 1], NextOf(chains[d], i + 1), id)
    requires Ranked(st'.counts, st'.ranking)
    requires forall q ::
      Get(st'.counts, q) == Get(st.counts, q)
                            - Destroyed(docs[d][..i], docs[d][i], docs[d][i + 1], docs[d][i + 2..], q)
                            + Created(docs[d][..i], id, docs[d][i + 2..], q)
    requires NotesMerge(st.occurrences, st'.occurrences, |home|, docs[d], chains[d], i, id)
    ensures Visiting(st', home, MergedChains(chains, d, i), MergedDocs(docs, d, i, id), starts, m + 1, p)
  {
    var chains' := SpliceLinked(st.n, st'.n, home, chains, d, i, id);
    CountedAfterMerge(docs, st.counts, st'.counts, d, i, id);
    SizeAfterMerge(docs, d, i, id);
    MergedShaped(docs, chains, d, i, id);
    NotedAfterMerge(docs, chains, st.occurrences, st'.occurrences, |home|, p, d, i, id);
    ChainsAtHome(st.n, home, chains);
    PendingAfterMerge(docs, chains, home, starts, m, p, d, i, id);
  }

  /** The body of the visit once the start has proved live. */
  method MergeOccurrence(st: State, left: nat, p: Pair, id: nat,
                         ghost home: seq<nat>, ghost chains: seq<Chain>, ghost docs: seq<seq<nat>>,
                         ghost starts: seq<nat>, ghost m: nat, ghost d: nat, ghost i: nat)
    returns (st': State)
    requires Visiting(st, home, chains, docs, starts, m, p)
    requires PairAt(docs, d, i, p) && m < |starts| && left == starts[m] == chains[d][i]
    requires p.0 < id && p.1 < id && id < NONE
    requires left < |home| && st.n.next[left] < |home|
    ensures Visiting(st', home, MergedChains(chains, d, i), MergedDocs(docs, d, i, id), starts, m + 1, p)
  {
    Surroundings(st, home, chains, docs, d, i);
    ghost var pre, suf := docs[d][..i], docs[d][i + 2..];
    var right := st.n.next[left];
    var before, after := st.n.previous[left], st.n.next[right];
    DestroyedIsCounted(docs, st.counts, d, i);
    var counts, ranking := ForgetPairs(st.n.tokens, before, p, after, st.counts, st.ranking, pre, suf);
    var n := Splice(st.n, left, right, id);
    NeighboursAfterSplice(st.n, n, left, right, before, after, id, pre, suf);
    var occurrences;
    counts, occurrences, ranking := AddPairs(n.tokens, before, left, id, after, counts, st.occurrences, ranking, pre, suf);
    st' := State(n, counts, occurrences, ranking);
    VisitingAfterMerge(st, st', home, chains, docs, starts, m, p, d, i, id);
  }

  // ----- visiting all remembered starts of one pair -----

  // A start that is no longer a live occurrence may be skipped.
  lemma {:induction false} PendingSkips(st: State, home: seq<nat>, chains: seq<Chain>, docs: seq<seq<nat>>, starts: seq<nat>, m: nat, p: Pair)
    requires Visiting(st, home, chains, docs, starts, m, p) && m < |starts| && starts[m] < |home|
    requires var x := starts[m];
      || st.n.tokens[x] != p.0
      || st.n.next[x] >= |home|
      || st.n.tokens[st.n.next[x]] != p.1
    ensures Visiting(st, home, chains, docs, starts, m + 1, p)
  {
    forall d: nat, i: nat | PairAt(docs, d, i, p) ensures InFrom(starts, m + 1, chains[d][i]) {
      Surroundings(st, home, chains, docs, d, i);
      assert InFrom(starts, m, chains[d][i]);
    }
  }

  lemma {:induction false} LiveOccurrence(st: State, home: seq<nat>, chains: seq<Chain>, docs: seq<seq<nat>>, x: nat)
    returns (d: nat, i: nat)
    requires Sound(st, home, chains, docs) && Shaped(docs, chains)
    requires x < |home| && st.n.tokens[x] != NONE
    ensures d < |docs| && i < |docs[d]| && chains[d][i] == x && docs[d][i] == st.n.tokens[x]
    ensures st.n.next[x] == NextOf(chains[d], i)
    ensures i + 1 < |docs[d]| ==>
      chains[d][i + 1] < |home| <= NONE && docs[d][i + 1] == st.n.tokens[chains[d][i + 1]]
  {
    d, i := Locate(st.n, home, chains, x);
    assert docs[d] == Spelling(st.n.tokens, chains[d]);
  }

  method VisitStarts(st: State, starts: seq<nat>, p: Pair, id: nat,
                     ghost home: seq<nat>, ghost chains: seq<Chain>, ghost docs: seq<seq<nat>>)
    returns (st': State, ghost chains': seq<Chain>, ghost docs': seq<seq<nat>>)
    requires Visiting(st, home, chains, docs, starts, 0, p)
    requires Ascending(starts) && forall x :: x in starts ==> x < |home|
    requires p.0 < id && p.1 < id && id < NONE
    ensures docs' == ReplaceDocs(docs, p, id)
    ensures Visiting(st', home, chains', docs', starts, |starts|, p)
  {
    st', chains', docs' := st, chains, docs;
    for m := 0 to |starts|
      invariant Visiting(st', home, chains', docs', starts, m, p)
      invariant ReplaceDocs(docs', p, id) == ReplaceDocs(docs, p, id)
    {
      var left := starts[m];
      assert left in starts;
      if st'.n.tokens[left] != p.0 {
        PendingSkips(st', home, chains', docs', starts, m, p);
        continue;
      }
      ghost var d, i := LiveOccurrence(st', home, chains', docs', left);
      var right := st'.n.next[left];
      if right == NONE || st'.n.tokens[right] != p.1 {
        PendingSkips(st', home, chains', docs', starts, m, p);
        continue;
      }
      VisitedIsLeftmost(docs', chains', starts, m, p, d, i);
      MergeKeepsReplacement(docs', d, i, p, id);
      st' := MergeOccurrence(st', left, p, id, home, chains', docs', starts, m, d, i);
      chains', docs' := MergedChains(chains', d, i), MergedDocs(docs', d, i, id);
    }
    NothingPending(docs', chains', starts, p, id);
  }

  lemma {:induction false} NothingPending(docs: seq<seq<nat>>, chains: seq<Chain>, starts: seq<nat>, p: Pair, id: nat)
    requires Shaped(docs, chains) && Pending(docs, chains, starts, |starts|, p)
    ensures forall d :: 0 <= d < |docs| ==> NoMatch(docs[d], p)
    ensures ReplaceDocs(docs, p, id) == docs
  {
    forall d | 0 <= d < |docs| ensures NoMatch(docs[d], p) {
      forall i: nat | i + 1 < |docs[d]| ensures !Matches(docs[d], i, p) {
        assert PairAt(docs, d, i, p) == Matches(docs[d], i, p);
        assert !InFrom(starts, |starts|, chains[d][i]);
      }
    }
    forall d | 0 <= d < |docs| ensures ReplaceDocs(docs, p, id)[d] == docs[d] {
      ReplaceNothing(docs[d], p, id);
    }
  }

  // ----- one round -----

  ghost predicate NotedAll(docs: seq<seq<nat>>, chains: seq<Chain>, occurrences: Occurrences)
    requires |docs| == |chains| && forall d :: 0 <= d < |docs| ==> |docs[d]| == |chains[d]|
  {
    forall d: nat, i: nat, q :: PairAt(docs, d, i, q) ==> Noted(occurrences, q, chains[d][i])
  }

  /** What holds between rounds. */
  ghost predicate Settled(st: State, home: seq<nat>, chains: seq<Chain>, docs: seq<seq<nat>>)
  {
    && Sound(st, home, chains, docs)
    && Shaped(docs, chains)
    && NotedAll(docs, chains, st.occurrences)
  }

  lemma {:induction false} RoundStarts(st: State, home: seq<nat>, chains: seq<Chain>, docs: seq<seq<nat>>, p: Pair, starts: seq<nat>)
    requires Settled(st, home, chains, docs)
    requires forall x :: x in starts <==> Noted(st.occurrences, p, x)
    ensures Visiting(st.(occurrences := st.occurrences - {p}), home, chains, docs, starts, 0, p)
    ensures forall x :: x in starts ==> x < |home|
  {
    var st' := st.(occurrences := st.occurrences - {p});
    assert forall q, x :: Noted(st'.occurrences, q, x) <==> Noted(st.occurrences, q, x) && q != p;
    forall d: nat, i: nat | PairAt(docs, d, i, p) ensures InFrom(starts, 0, chains[d][i]) {
      assert Noted(st.occurrences, p, chains[d][i]);
      assert chains[d][i] in starts;
    }
  }

  method TrainRound(st: State, p: Pair, id: nat,
                    ghost home: seq<nat>, ghost chains: seq<Chain>, ghost docs: seq<seq<nat>>)
    returns (st': State, ghost chains': seq<Chain>)
    requires Settled(st, home, chains, docs)
    requires p.0 < id && p.1 < id && id < NONE
    ensures Settled(st', home, chains', ReplaceDocs(docs, p, id))
    ensures p !in st'.counts
  {
    var starts := SortUnique(if p in st.occurrences then st.occurrences[p] else []);
    RoundStarts(st, home, chains, docs, p, starts);
    ghost var docs';
    st', chains', docs' := VisitStarts(st.(occurrences := st.occurrences - {p}), starts, p, id, home, chains, docs);
    NothingPending(docs', chains', starts, p, id);
    assert forall d: nat, i: nat :: !PairAt(docs', d, i, p);
    TotalNoMatch(docs', p);
    assert Get(st'.counts, p) == 0;
  }
}
