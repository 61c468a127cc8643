/**
The merge checks of a tokenizer artifact, the rank table built from it, and the
encoder: a heap of candidate merges, many of them stale, over a linked list.
*/
module Tokenizer {
  import opened AscendingLists
  import opened Outcomes
  import opened Bpe
  import opened Links

  // ----- artifacts -----

  /** What artifact validation asks of the merge list. The bound is the u32
      range of token ids. */
  ghost predicate ValidMerges(merges: seq<Rule>)
  {
    && BASE_VOCABULARY_SIZE + |merges| <= NONE
    && (forall k :: 0 <= k < |merges| ==> ValidRule(merges[k], k))
    && (forall j, k :: 0 <= j < k < |merges| ==> merges[j].Pair() != merges[k].Pair())
  }

  predicate ValidRule(rule: Rule, offset: nat)
  {
    && rule.id == BASE_VOCABULARY_SIZE + offset
    && rule.left < rule.id
    && rule.right < rule.id
    && rule.trainingFrequency >= MIN_MERGE_FREQUENCY
  }

  lemma {:induction false} ValidMergesAreLayered(merges: seq<Rule>)
    requires ValidMerges(merges)
    ensures Layered(merges)
  {
    assert forall k :: 0 <= k < |merges| ==> ValidRule(merges[k], k);
  }

  method ValidateMerges(merges: seq<Rule>) returns (ok: bool)
    requires BASE_VOCABULARY_SIZE + |merges| <= NONE
    ensures ok <==> ValidMerges(merges)
    ensures ok <==>
      && (forall k :: 0 <= k < |merges| ==>
            merges[k].id == 260 + k && merges[k].left < 260 + k && merges[k].right < 260 + k
            && merges[k].trainingFrequency >= 2)
      && (forall j, k :: 0 <= j < k < |merges| ==>
            merges[j].left != merges[k].left || merges[j].right != merges[k].right)
  {
    var seenPairs: set<Pair> := {};
    for offset := 0 to |merges|
      invariant forall k :: 0 <= k < offset ==> ValidRule(merges[k], k) && merges[k].Pair() in seenPairs
      invariant forall p :: p in seenPairs ==> exists k :: 0 <= k < offset && merges[k].Pair() == p
      invariant forall j, k :: 0 <= j < k < offset ==> merges[j].Pair() != merges[k].Pair()
    {
      var rule := merges[offset];
      if !ValidRule(rule, offset) || rule.Pair() in seenPairs {
        return false;
      }
      seenPairs := seenPairs + {rule.Pair()};
    }
    return true;
  }

  ghost predicate RanksOf(merges: seq<Rule>, ranks: map<Pair, nat>)
  {
    && (forall k :: 0 <= k < |merges| ==> merges[k].Pair() in ranks && ranks[merges[k].Pair()] == merges[k].id)
    && (forall p :: p in ranks ==> exists k :: 0 <= k < |merges| && merges[k].Pair() == p)
  }


  lemma {:induction false} RanksExtend(merges: seq<Rule>, ranks: map<Pair, nat>, rule: Rule)
    requires RanksOf(merges, ranks) && rule.Pair() !in ranks
    ensures RanksOf(merges + [rule], ranks[rule.Pair() := rule.id])
  {
    var more := merges + [rule];
    forall p | p in ranks || p == rule.Pair() ensures exists k :: 0 <= k < |more| && more[k].Pair() == p {
      if p == rule.Pair() {
        assert more[|merges|].Pair() == p;
      } else {
        var k :| 0 <= k < |merges| && merges[k].Pair() == p;
        assert more[k].Pair() == p;
      }
    }
  }

  /** The rank table; `None` stands for the duplicate-pair error. */
  method BuildRanks(merges: seq<Rule>) returns (r: Option<map<Pair, nat>>)
    ensures r.Some? ==> RanksOf(merges, r.value)
    ensures r.None? <==> exists j, k :: 0 <= j < k < |merges| && merges[j].Pair() == merges[k].Pair()
  {
    var ranks: map<Pair, nat> := map[];
    for i := 0 to |merges|
      invariant RanksOf(merges[..i], ranks)
      invariant forall j, k :: 0 <= j < k < i ==> merges[j].Pair() != merges[k].Pair()
    {
      var pair := merges[i].Pair();
      if pair in ranks {
        ghost var k :| 0 <= k < i && merges[..i][k].Pair() == pair;
        assert merges[k].Pair() == merges[i].Pair();
        return None;
      }
      forall j | 0 <= j < i ensures merges[j].Pair() != pair {
        assert merges[..i][j].Pair() in ranks;
      }
      ghost var ranks0 := ranks;
      ranks := ranks[pair := merges[i].id];
      RanksExtend(merges[..i], ranks0, merges[i]);
      assert merges[..i + 1] == merges[..i] + [merges[i]];
    }
    assert merges[..|merges|] == merges;
    return Some(ranks);
  }

  // ----- the candidate heap -----

  datatype Candidate = Candidate(rank: nat, left: nat, right: nat)
  {
    predicate AtMost(c: Candidate)
    {
      || rank < c.rank
      || (rank == c.rank && left < c.left)
      || (rank == c.rank && left == c.left && right <= c.right)
    }
  }

  ghost predicate Least(c: Candidate, heap: multiset<Candidate>)
  {
    c in heap && forall d :: d in heap ==> c.AtMost(d)
  }

  lemma {:induction false} LeastOf(heap: multiset<Candidate>) returns (c: Candidate)
    requires |heap| > 0
    ensures Least(c, heap)
    decreases |heap|
  {
    var x :| x in heap;
    var rest := heap - multiset{x};
    assert forall d :: d in heap ==> d == x || d in rest;
    assert forall d :: d in rest ==> d in heap;
    if |rest| == 0 {
      c := x;
    } else {
      var m := LeastOf(rest);
      c := if x.AtMost(m) then x else m;
    }
  }

  /** Pop of the reversed binary heap: some least entry, one copy of it. */
  method PopLeast(heap: multiset<Candidate>) returns (least: Candidate, rest: multiset<Candidate>)
    requires |heap| > 0
    ensures Least(least, heap)
    ensures rest == heap - multiset{least}
  {
    ghost var m := LeastOf(heap);
    least :| least in heap && forall d :: d in heap ==> least.AtMost(d);
    rest := heap - multiset{least};
  }

  // The entry for the pair starting at `x`, if any rule merges it, is on the heap.
  ghost predicate HasEntry(n: Nodes, x: nat, ranks: map<Pair, nat>, heap: multiset<Candidate>)
    requires x < |n.tokens| == |n.next|
  {
    var y := n.next[x];
    y != NONE && y < |n.tokens| && (n.tokens[x], n.tokens[y]) in ranks
    ==> Candidate(ranks[(n.tokens[x], n.tokens[y])], x, y) in heap
  }

  ghost predicate InRange(heap: multiset<Candidate>, bound: nat)
  {
    forall d :: d in heap ==> d.left < bound && d.right < bound
  }

  method PushCandidate(start: nat, n: Nodes, ranks: map<Pair, nat>, heap: multiset<Candidate>)
    returns (heap': multiset<Candidate>)
    requires start < |n.tokens| == |n.next|
    requires n.next[start] == NONE || n.next[start] < |n.tokens|
    requires InRange(heap, |n.tokens|)
    ensures HasEntry(n, start, ranks, heap')
    ensures InRange(heap', |n.tokens|)
    ensures |heap'| <= |heap| + 1 && forall d :: d in heap ==> d in heap'
  {
    var end := n.next[start];
    if end == NONE {
      return heap;
    }
    if (n.tokens[start], n.tokens[end]) in ranks {
      return heap + multiset{Candidate(ranks[(n.tokens[start], n.tokens[end])], start, end)};
    }
    return heap;
  }

  /** Every adjacent pair that some rule merges has its entry on the heap. */
  ghost predicate Covered(s: seq<nat>, c: Chain, ranks: map<Pair, nat>, heap: multiset<Candidate>)
  {
    && |s| == |c|
    && (forall i: nat {:trigger s[i]} {:trigger c[i]} :: i + 1 < |s| ==> EntryFor(s, c, ranks, heap, i))
  }

  ghost predicate EntryFor(s: seq<nat>, c: Chain, ranks: map<Pair, nat>, heap: multiset<Candidate>, i: nat)
    requires |s| == |c| && i + 1 < |s|
  {
    (s[i], s[i + 1]) in ranks ==> Candidate(ranks[(s[i], s[i + 1])], c[i], c[i + 1]) in heap
  }

  // With nothing on the heap no rule applies anywhere.
  lemma {:induction false} CoveredEmpty(s: seq<nat>, c: Chain, merges: seq<Rule>, ranks: map<Pair, nat>)
    requires RanksOf(merges, ranks) && Covered(s, c, ranks, multiset{})
    ensures Quiet(s, merges, |merges|)
  {
    forall j, i: nat | 0 <= j < |merges| && i + 1 < |s| ensures !Matches(s, i, merges[j].Pair()) {
      assert EntryFor(s, c, ranks, multiset{}, i);
      assert merges[j].Pair() in ranks;
    }
  }

  // The least entry, once it proves live, is the leftmost match of the lowest
  // matching rule.
  lemma {:induction false} LeastIsLowest(s: seq<nat>, c: Chain, merges: seq<Rule>, ranks: map<Pair, nat>, heap: multiset<Candidate>,
                      least: Candidate, i: nat) returns (k: nat)
    requires ValidMerges(merges) && RanksOf(merges, ranks) && Ascending(c) && Covered(s, c, ranks, heap)
    requires Least(least, heap)
    requires i + 1 < |s| && least.left == c[i]
    requires (s[i], s[i + 1]) in ranks && ranks[(s[i], s[i + 1])] == least.rank
    ensures k < |merges| && merges[k].id == least.rank && merges[k].Pair() == (s[i], s[i + 1])
    ensures Quiet(s, merges, k)
    ensures NoMatch(s[..i] + [s[i]], (s[i], s[i + 1]))
  {
    var p := (s[i], s[i + 1]);
    k :| 0 <= k < |merges| && merges[k].Pair() == p;
    assert ValidRule(merges[k], k);
    forall j, t: nat | 0 <= j < k && t + 1 < |s| ensures !Matches(s, t, merges[j].Pair()) {
      assert ValidRule(merges[j], j);
      assert merges[j].Pair() in ranks && ranks[merges[j].Pair()] == merges[j].id;
      assert EntryFor(s, c, ranks, heap, t);
    }
    var pre := s[..i] + [s[i]];
    forall t: nat | t + 1 < |pre| ensures !Matches(pre, t, p) {
      assert pre[t] == s[t] && pre[t + 1] == s[t + 1];
      assert EntryFor(s, c, ranks, heap, t);
      assert c[t] < c[i];
    }
  }

  // ----- reading the surviving tokens off the vector -----

  function Survivors(tokens: seq<nat>): seq<nat>
  {
    if tokens == [] then []
    else
      var n := |tokens| - 1;
      Survivors(tokens[..n]) + if tokens[n] != NONE then [tokens[n]] else []
  }

  // `c` lists exactly the live positions, in order.
  ghost predicate Lists(tokens: seq<nat>, c: Chain)
  {
    && Ascending(c)
    && (forall i :: 0 <= i < |c| ==> c[i] < |tokens| && tokens[c[i]] != NONE)
    && (forall x :: 0 <= x < |tokens| && tokens[x] != NONE ==> x in c)
  }

  lemma {:induction false} LastIsGreatest(c: Chain, k: nat)
    requires Ascending(c) && k < |c|
    ensures c[k] <= c[|c| - 1]
  {
  }

  lemma {:induction false} AscendingFits(c: Chain, n: nat)
    requires Ascending(c) && forall i :: 0 <= i < |c| ==> c[i] < n
    ensures |c| <= n
    decreases |c|
  {
    if c != [] {
      AscendingFits(c[..|c| - 1], c[|c| - 1]);
    }
  }

  lemma {:induction false} ListsFront(tokens: seq<nat>, c: Chain) returns (b: Chain)
    requires Lists(tokens, c) && tokens != [] && tokens[|tokens| - 1] != NONE
    ensures c == b + [|tokens| - 1] && Lists(tokens[..|tokens| - 1], b)
  {
    var n := |tokens| - 1;
    var k :| 0 <= k < |c| && c[k] == n;
    LastIsGreatest(c, k);
    b := c[..k];
    forall x | 0 <= x < n && tokens[x] != NONE ensures x in b {
      var t :| 0 <= t < |c| && c[t] == x;
      assert b[t] == x;
    }
  }

  lemma {:induction false} SurvivorsSpell(tokens: seq<nat>, c: Chain)
    requires Lists(tokens, c)
    ensures Survivors(tokens) == Spelling(tokens, c)
    decreases |tokens|
  {
    if tokens == [] {
      AscendingFits(c, 0);
    } else {
      var n := |tokens| - 1;
      var front := tokens[..n];
      if tokens[n] == NONE {
        assert forall i :: 0 <= i < |c| ==> c[i] != n;
        SurvivorsSpell(front, c);
        assert Spelling(front, c) == Spelling(tokens, c);
      } else {
        var b := ListsFront(tokens, c);
        SurvivorsSpell(front, b);
        assert Spelling(tokens, c) == Spelling(front, b) + [tokens[n]];
      }
    }
  }

  // ----- the encoder -----

  datatype Tokenizer = Tokenizer(merges: seq<Rule>, mergeRanks: map<Pair, nat>)
  {
    /** What a tokenizer built from a validated artifact satisfies. */
    ghost predicate Valid()
    {
      ValidMerges(merges) && RanksOf(merges, mergeRanks)
    }
  }

  /** A tokenizer for validated merges. */
  method FromMerges(merges: seq<Rule>) returns (t: Tokenizer)
    requires ValidMerges(merges)
    ensures t.Valid() && t.merges == merges
  {
    var ranks := BuildRanks(merges);
    t := Tokenizer(merges, ranks.value);
  }

  ghost function Identity(n: nat): (c: Chain)
    ensures |c| == n && Ascending(c)
    ensures forall i :: 0 <= i < n ==> c[i] == i
  {
    seq(n, i => i)
  }

  ghost function Zeros(n: nat): seq<nat>
  {
    seq(n, _ => 0)
  }

  ghost predicate OneChain(n: Nodes, c: Chain)
  {
    Linked(n, Zeros(|n.tokens|), [c])
  }

  lemma {:induction false} OneChainFacts(n: Nodes, c: Chain)
    requires OneChain(n, c)
    ensures Sized(n, Zeros(|n.tokens|)) && ChainOk(n, Zeros(|n.tokens|), c, 0)
    ensures Lists(n.tokens, c)
  {
    var home := Zeros(|n.tokens|);
    assert [c][0] == c;
    assert ChainOk(n, home, [c][0], 0);
    forall i | 0 <= i < |c| ensures n.tokens[c[i]] != NONE {
      assert NodeOk(n, home, c, 0, i);
    }
    assert forall x :: 0 <= x < |n.tokens| ==> home[x] == 0;
  }

  lemma {:induction false} FreshChain(n: Nodes, c: Chain)
    requires |n.tokens| == |n.previous| == |n.next| == |c| <= NONE
    requires c == Identity(|c|)
    requires forall i :: 0 <= i < |c| ==> n.tokens[i] != NONE && n.next[i] == NextOf(c, i) && n.previous[i] == PreviousOf(c, i)
    ensures OneChain(n, c)
  {
    var home := Zeros(|c|);
    assert forall i :: 0 <= i < |c| ==> NodeOk(n, home, c, 0, i);
    assert ChainOk(n, home, c, 0);
    forall x | 0 <= x < |c| ensures x in [c][home[x]] {
      assert c[x] == x;
    }
  }

  lemma {:induction false} OneChainAscends(n: Nodes, c: Chain)
    requires OneChain(n, c)
    ensures Ascending(c)
  {
    assert [c][0] == c;
    assert ChainOk(n, Zeros(|n.tokens|), [c][0], 0);
  }

  // One merge of the encoder: the chain loses position i + 1.
  lemma {:induction false} OneChainSpliced(n: Nodes, n': Nodes, c: Chain, i: nat, id: nat)
    requires OneChain(n, c) && i + 1 < |c| && id != NONE
    requires Spliced(n, n', c[i], c[i + 1], NextOf(c, i + 1), id)
    ensures OneChain(n', Without(c, i + 1))
    ensures var s := Spelling(n.tokens, c);
      Spelling(n'.tokens, Without(c, i + 1)) == s[..i] + [id] + s[i + 2..]
  {
    var home := Zeros(|n.tokens|);
    assert [c][0] == c;
    var chains := SpliceLinked(n, n', home, [c], 0, i, id);
    assert chains == [Without(c, i + 1)];
    assert Spellings(n.tokens, [c])[0] == Spelling(n.tokens, c);
    assert Spellings(n'.tokens, chains)[0] == Spelling(n'.tokens, Without(c, i + 1));
  }

  // A candidate that passes the staleness test names two neighbours on the chain.
  lemma {:induction false} LiveCandidate(n: Nodes, c: Chain, left: nat, right: nat) returns (i: nat)
    requires OneChain(n, c)
    requires left < |n.tokens| && right < |n.tokens|
    requires n.tokens[left] != NONE && n.next[left] == right
    ensures i + 1 < |c| && c[i] == left && c[i + 1] == right
    ensures n.next[right] == NextOf(c, i + 1) && n.previous[left] == PreviousOf(c, i)
    ensures i > 0 ==> c[i - 1] < |n.tokens| && n.next[c[i - 1]] == left
    ensures i + 2 < |c| ==> c[i + 2] < |n.tokens|
  {
    var home := Zeros(|n.tokens|);
    var d;
    d, i := Locate(n, home, [c], left);
    assert [c][0] == c;
    OneChainFacts(n, c);
    assert i + 1 < |c| ==> NodeOk(n, home, c, 0, i + 1);
    assert i > 0 ==> NodeOk(n, home, c, 0, i - 1);
  }

  // After the merge and the two pushes every mergeable pair is on the heap again.
  lemma {:induction false} CoveredAfterMerge(s: seq<nat>, c: Chain, ranks: map<Pair, nat>, heap: multiset<Candidate>,
                          heap': multiset<Candidate>, least: Candidate, i: nat, id: nat)
    requires Covered(s, c, ranks, heap) && Ascending(c)
    requires i + 1 < |c| && least.left == c[i]
    requires forall d :: d in heap && d != least ==> d in heap'
    requires var s', c' := s[..i] + [id] + s[i + 2..], Without(c, i + 1);
      && (i > 0 ==> EntryFor(s', c', ranks, heap', i - 1))
      && (i + 1 < |c'| ==> EntryFor(s', c', ranks, heap', i))
    ensures Covered(s[..i] + [id] + s[i + 2..], Without(c, i + 1), ranks, heap')
  {
    var s', c' := s[..i] + [id] + s[i + 2..], Without(c, i + 1);
    forall j: nat | j + 1 < |s'| ensures EntryFor(s', c', ranks, heap', j) {
      if j + 1 < i {
        assert EntryFor(s, c, ranks, heap, j);
        assert c'[j] == c[j] < c[i];
        assert c'[j + 1] == c[j + 1];
      } else if j > i {
        assert EntryFor(s, c, ranks, heap, j + 1);
        assert c'[j] == c[j + 1] > c[i];
        assert c'[j + 1] == c[j + 2];
      }
    }
  }

  lemma {:induction false} EntryOnChain(n: Nodes, c: Chain, ranks: map<Pair, nat>, heap: multiset<Candidate>, i: nat)
    requires OneChain(n, c) && i + 1 < |c| && c[i] < |n.tokens| && HasEntry(n, c[i], ranks, heap)
    ensures EntryFor(Spelling(n.tokens, c), c, ranks, heap, i)
  {
    OneChainFacts(n, c);
    assert NodeOk(n, Zeros(|n.tokens|), c, 0, i);
  }

  /** The encoder's loop invariant. */
  ghost predicate Encoding(t: Tokenizer, bytes: seq<Byte>, n: Nodes, c: Chain, heap: multiset<Candidate>)
  {
    && OneChain(n, c)
    && InRange(heap, |n.tokens|)
    && Covered(Spelling(n.tokens, c), c, t.mergeRanks, heap)
    && ReplaceAll(Spelling(n.tokens, c), t.merges) == ReferenceEncode(bytes, t.merges)
  }

  // Dropping a stale entry loses nothing.
  lemma {:induction false} EncodingSkips(t: Tokenizer, bytes: seq<Byte>, n: Nodes, c: Chain, heap: multiset<Candidate>, least: Candidate)
    requires Encoding(t, bytes, n, c, heap) && least in heap
    requires n.tokens[least.left] == NONE || n.next[least.left] != least.right
          || (n.tokens[least.left], n.tokens[least.right]) !in t.mergeRanks
          || t.mergeRanks[(n.tokens[least.left], n.tokens[least.right])] != least.rank
    ensures Encoding(t, bytes, n, c, heap - multiset{least})
  {
    var rest := heap - multiset{least};
    var s := Spelling(n.tokens, c);
    OneChainFacts(n, c);
    forall i: nat | i + 1 < |s| ensures EntryFor(s, c, t.mergeRanks, rest, i) {
      assert EntryFor(s, c, t.mergeRanks, heap, i);
      assert NodeOk(n, Zeros(|n.tokens|), c, 0, i);
    }
  }

  // The merge the least entry asks for does not change the reference encoding.
  lemma {:induction false} LeastMergeIsHarmless(s: seq<nat>, c: Chain, merges: seq<Rule>, ranks: map<Pair, nat>,
                             heap: multiset<Candidate>, least: Candidate, i: nat)
    requires ValidMerges(merges) && RanksOf(merges, ranks) && Ascending(c) && Covered(s, c, ranks, heap)
    requires Least(least, heap)
    requires i + 1 < |s| && least.left == c[i]
    requires (s[i], s[i + 1]) in ranks && ranks[(s[i], s[i + 1])] == least.rank
    ensures least.rank < NONE
    ensures ReplaceAll(s[..i] + [least.rank] + s[i + 2..], merges) == ReplaceAll(s, merges)
  {
    var k := LeastIsLowest(s, c, merges, ranks, heap, least, i);
    assert ValidRule(merges[k], k);
    SplitPair(s, i);
    ValidMergesAreLayered(merges);
    ReplaceAllLowest(s[..i], s[i + 2..], merges, k);
  }

  lemma {:induction false} EncodingMerges(t: Tokenizer, bytes: seq<Byte>, n: Nodes, n': Nodes, c: Chain, i: nat,
                       heap: multiset<Candidate>, heap': multiset<Candidate>, least: Candidate)
    requires t.Valid() && Encoding(t, bytes, n, c, heap) && Least(least, heap)
    requires i + 1 < |c| && c[i] == least.left < |n.tokens| && c[i + 1] < |n.tokens|
    requires (n.tokens[c[i]], n.tokens[c[i + 1]]) in t.mergeRanks
    requires t.mergeRanks[(n.tokens[c[i]], n.tokens[c[i + 1]])] == least.rank
    requires Spliced(n, n', c[i], c[i + 1], NextOf(c, i + 1), least.rank)
    requires InRange(heap', |n'.tokens|) && forall d :: d in heap && d != least ==> d in heap'
    requires i > 0 ==> c[i - 1] < |n.tokens| && HasEntry(n', c[i - 1], t.mergeRanks, heap')
    requires HasEntry(n', c[i], t.mergeRanks, heap')
    ensures Encoding(t, bytes, n', Without(c, i + 1), heap')
  {
    var s, c' := Spelling(n.tokens, c), Without(c, i + 1);
    assert s[i] == n.tokens[c[i]] && s[i + 1] == n.tokens[c[i + 1]];
    OneChainAscends(n, c);
    LeastMergeIsHarmless(s, c, t.merges, t.mergeRanks, heap, least, i);
    OneChainSpliced(n, n', c, i, least.rank);
    if i > 0 {
      EntryOnChain(n', c', t.mergeRanks, heap', i - 1);
    }
    if i + 1 < |c'| {
      EntryOnChain(n', c', t.mergeRanks, heap', i);
    }
    CoveredAfterMerge(s, c, t.mergeRanks, heap, heap', least, i, least.rank);
  }

  lemma {:induction false} EncodingStarts(t: Tokenizer, bytes: seq<Byte>, n: Nodes, c: Chain, heap: multiset<Candidate>)
    requires OneChain(n, c) && c == Identity(|bytes|) && n.tokens == FromBytes(bytes)
    requires InRange(heap, |n.tokens|)
    requires forall i: nat :: i + 1 < |n.tokens| ==> HasEntry(n, i, t.mergeRanks, heap)
    ensures Encoding(t, bytes, n, c, heap)
  {
    var s := Spelling(n.tokens, c);
    assert s == n.tokens;
    forall i: nat | i + 1 < |s| ensures EntryFor(s, c, t.mergeRanks, heap, i) {
      assert HasEntry(n, i, t.mergeRanks, heap);
      EntryOnChain(n, c, t.mergeRanks, heap, i);
    }
  }

  lemma {:induction false} EncodingEnds(t: Tokenizer, bytes: seq<Byte>, n: Nodes, c: Chain)
    requires t.Valid() && Encoding(t, bytes, n, c, multiset{})
    ensures Survivors(n.tokens) == ReferenceEncode(bytes, t.merges)
  {
    OneChainFacts(n, c);
    CoveredEmpty(Spelling(n.tokens, c), c, t.merges, t.mergeRanks);
    ReplaceAllQuiet(Spelling(n.tokens, c), t.merges);
    SurvivorsSpell(n.tokens, c);
  }

  method InitialCandidates(n: Nodes, ranks: map<Pair, nat>) returns (candidates: multiset<Candidate>)
    requires 0 < |n.tokens| == |n.next|
    requires forall i :: 0 <= i < |n.next| ==> n.next[i] == NONE || n.next[i] < |n.tokens|
    ensures InRange(candidates, |n.tokens|)
    ensures forall i: nat :: i + 1 < |n.tokens| ==> HasEntry(n, i, ranks, candidates)
  {
    candidates := multiset{};
    for index := 0 to |n.tokens| - 1
      invariant InRange(candidates, |n.tokens|)
      invariant forall i: nat :: i < index ==> HasEntry(n, i, ranks, candidates)
    {
      ghost var heap := candidates;
      candidates := PushCandidate(index, n, ranks, candidates);
      assert forall i: nat :: i < index && HasEntry(n, i, ranks, heap) ==> HasEntry(n, i, ranks, candidates);
    }
  }

  /** One turn of the encoder's loop: pop, drop a stale entry or merge and push. */
  method EncodeStep(t: Tokenizer, n: Nodes, heap: multiset<Candidate>, ghost bytes: seq<Byte>, ghost c: Chain)
    returns (n': Nodes, candidates: multiset<Candidate>, ghost c': Chain)
    requires t.Valid() && |heap| > 0
    requires Encoding(t, bytes, n, c, heap)
    ensures |n'.tokens| == |n.tokens|
    ensures Encoding(t, bytes, n', c', candidates)
    ensures 2 * |c'| + |candidates| < 2 * |c| + |heap|
  {
    var least;
    least, candidates := PopLeast(heap);
    n', c' := n, c;
    var left, right := least.left, least.right;
    if n.tokens[left] == NONE || n.tokens[right] == NONE || n.next[left] != right {
      EncodingSkips(t, bytes, n, c, heap, least);
      return;
    }
    if (n.tokens[left], n.tokens[right]) !in t.mergeRanks || t.mergeRanks[(n.tokens[left], n.tokens[right])] != least.rank {
      EncodingSkips(t, bytes, n, c, heap, least);
      return;
    }
    ghost var i := LiveCandidate(n, c, left, right);
    var before := n.previous[left];
    n' := Splice(n, left, right, least.rank);
    if before != NONE {
      candidates := PushCandidate(before, n', t.mergeRanks, candidates);
    }
    candidates := PushCandidate(left, n', t.mergeRanks, candidates);
    EncodingMerges(t, bytes, n, n', c, i, heap, candidates, least);
    c' := Without(c, i + 1);
  }

  /**
  The encoder equals the reference: each rule in id order, left to right over the
  whole document, although it merges one heap entry at a time.
  */
  method Encode(t: Tokenizer, bytes: seq<Byte>) returns (ids: seq<nat>)
    requires t.Valid()
    requires |bytes| <= NONE
    ensures ids == ReferenceEncode(bytes, t.merges)
  {
    if bytes == [] {
      ReplaceAllQuiet([], t.merges);
      return [];
    }
    var n := Nodes(FromBytes(bytes),
                   seq(|bytes|, i requires 0 <= i < |bytes| => if i == 0 then NONE else i - 1),
                   seq(|bytes|, i requires 0 <= i < |bytes| => if i + 1 == |bytes| then NONE else i + 1));
    ghost var c := Identity(|bytes|);
    FreshChain(n, c);
    var candidates := InitialCandidates(n, t.mergeRanks);
    EncodingStarts(t, bytes, n, c, candidates);
    while |candidates| > 0
      invariant Encoding(t, bytes, n, c, candidates)
      decreases 2 * |c| + |candidates|
    {
      n, candidates, c := EncodeStep(t, n, candidates, bytes, c);
    }
    assert candidates == multiset{};
    EncodingEnds(t, bytes, n, c);
    return Survivors(n.tokens);
  }
}
