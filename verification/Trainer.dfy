/**
The incremental trainer as a whole: lay the corpus out as linked lists, count its
pairs once, then run rounds that never recount.
*/
module Trainer {
  import opened AscendingLists
  import opened Outcomes
  import opened Bpe
  import opened Links
  import opened Counting
  import opened PairAccounts
  import opened Rounds

  // ----- laying out one document -----

  ghost function Run(start: nat, length: nat): (c: Chain)
    ensures |c| == length && Ascending(c)
    ensures forall i :: 0 <= i < length ==> c[i] == start + i
  {
    seq(length, i => start + i)
  }

  ghost function Same(d: nat, length: nat): (s: seq<nat>)
    ensures |s| == length && forall i :: 0 <= i < length ==> s[i] == d
  {
    seq(length, _ => d)
  }

  // `n'` is `n` with one document's fresh list appended.
  ghost predicate Appended(n: Nodes, n': Nodes, document: seq<Byte>)
  {
    var start := |n.tokens|;
    && |n.tokens| == |n.previous| == |n.next|
    && |n'.tokens| == |n'.previous| == |n'.next| == start + |document|
    && (forall x :: 0 <= x < start ==>
          n'.tokens[x] == n.tokens[x] && n'.previous[x] == n.previous[x] && n'.next[x] == n.next[x])
    && (forall k :: 0 <= k < |document| ==> Fresh(n', start, k, document))
  }

  ghost predicate Fresh(n: Nodes, start: nat, k: nat, document: seq<Byte>)
    requires k < |document| && start + k < |n.tokens| && |n.tokens| == |n.previous| == |n.next|
  {
    && n.tokens[start + k] == FIRST_BYTE_ID + document[k]
    && n.previous[start + k] == (if k == 0 then NONE else start + k - 1)
    && n.next[start + k] == (if k + 1 == |document| then NONE else start + k + 1)
  }

  method AppendNodes(n: Nodes, document: seq<Byte>) returns (n': Nodes)
    requires |n.tokens| == |n.previous| == |n.next|
    ensures Appended(n, n', document)
  {
    var tokens: seq<nat>, previous: seq<nat>, next: seq<nat> := n.tokens, n.previous, n.next;
    var start := |tokens|;
    for offset := 0 to |document|
      invariant |tokens| == |previous| == |next| == start + offset
      invariant forall x :: 0 <= x < start ==>
        tokens[x] == n.tokens[x] && previous[x] == n.previous[x] && next[x] == n.next[x]
      invariant forall k :: 0 <= k < offset ==> Fresh(Nodes(tokens, previous, next), start, k, document)
    {
      var index := |tokens|;
      ghost var before := Nodes(tokens, previous, next);
      tokens := tokens + [FIRST_BYTE_ID + document[offset]];
      previous := previous + [if offset == 0 then NONE else index - 1];
      next := next + [if offset + 1 == |document| then NONE else index + 1];
      assert forall k :: 0 <= k < offset && Fresh(before, start, k, document) ==>
        Fresh(Nodes(tokens, previous, next), start, k, document);
    }
    n' := Nodes(tokens, previous, next);
  }

  lemma {:induction false} OldChainKept(n: Nodes, n': Nodes, home: seq<nat>, home': seq<nat>, c: Chain, d: nat, document: seq<Byte>)
    requires Sized(n, home) && Sized(n', home') && ChainOk(n, home, c, d)
    requires Appended(n, n', document) && home <= home'
    ensures ChainOk(n', home', c, d)
    ensures Spelling(n'.tokens, c) == Spelling(n.tokens, c)
  {
    forall i | 0 <= i < |c| ensures NodeOk(n', home', c, d, i) {
      assert NodeOk(n, home, c, d, i);
    }
  }

  lemma {:induction false} NewChainOk(n: Nodes, n': Nodes, home': seq<nat>, d: nat, document: seq<Byte>)
    requires Sized(n', home') && Appended(n, n', document)
    requires forall x :: |n.tokens| <= x < |home'| ==> home'[x] == d
    ensures ChainOk(n', home', Run(|n.tokens|, |document|), d)
    ensures Spelling(n'.tokens, Run(|n.tokens|, |document|)) == FromBytes(document)
  {
    var start := |n.tokens|;
    var c := Run(start, |document|);
    forall i | 0 <= i < |c| ensures NodeOk(n', home', c, d, i) && n'.tokens[c[i]] == FIRST_BYTE_ID + document[i] {
      assert Fresh(n', start, i, document);
    }
    assert Spelling(n'.tokens, c) == FromBytes(document);
  }

  lemma {:induction false} AppendedLinked(n: Nodes, n': Nodes, home: seq<nat>, chains: seq<Chain>, document: seq<Byte>)
    requires Linked(n, home, chains) && Appended(n, n', document) && |n'.tokens| <= NONE
    ensures Linked(n', home + Same(|chains|, |document|), chains + [Run(|n.tokens|, |document|)])
    ensures Spellings(n'.tokens, chains + [Run(|n.tokens|, |document|)]) == Spellings(n.tokens, chains) + [FromBytes(document)]
  {
    var d := |chains|;
    var home' := home + Same(d, |document|);
    var c := Run(|n.tokens|, |document|);
    var chains' := chains + [c];
    NewChainOk(n, n', home', d, document);
    forall e | 0 <= e < |chains|
      ensures ChainOk(n', home', chains'[e], e) && Spelling(n'.tokens, chains'[e]) == Spelling(n.tokens, chains[e])
    {
      assert ChainOk(n, home, chains[e], e);
      OldChainKept(n, n', home, home', chains[e], e, document);
    }
    forall x | 0 <= x < |home'| && n'.tokens[x] != NONE ensures home'[x] < |chains'| && x in chains'[home'[x]] {
      if x < |home| {
        assert n.tokens[x] != NONE && home[x] < |chains| && x in chains[home[x]];
      } else {
        assert c[x - |home|] == x;
      }
    }
  }

  // ----- counting one document -----

  ghost predicate CountsUpTo(docs: seq<seq<nat>>, document: seq<nat>, k: nat, counts: Counts)
    requires k <= |document|
  {
    && (forall p :: Get(counts, p) == Total(docs, p) + PairCount(document[..k], p))
    && (forall p :: p in counts ==> counts[p] > 0)
  }

  lemma {:induction false} CountsStep(docs: seq<seq<nat>>, document: seq<nat>, k: nat, counts: Counts)
    requires 0 < k < |document| && CountsUpTo(docs, document, k, counts)
    ensures var pair := (document[k - 1], document[k]);
      CountsUpTo(docs, document, k + 1, counts[pair := Get(counts, pair) + 1])
  {
    var pair := (document[k - 1], document[k]);
    var counts' := counts[pair := Get(counts, pair) + 1];
    forall p ensures Get(counts', p) == Total(docs, p) + PairCount(document[..k + 1], p) {
      assert document[..k + 1] == document[..k] + [document[k]];
      PairCountConcat(document[..k], [document[k]], p);
    }
  }

  lemma {:induction false} SizeSnoc(docs: seq<seq<nat>>, s: seq<nat>)
    ensures Size(docs + [s]) == Size(docs) + |s|
  {
    if docs == [] {
      assert (docs + [s])[1..] == [];
    } else {
      assert (docs + [s])[1..] == docs[1..] + [s];
      SizeSnoc(docs[1..], s);
    }
  }

  // Starts of the first `k` tokens of the new document are remembered.
  ghost predicate NotesUpTo(occurrences: Occurrences, occurrences': Occurrences, document: seq<nat>, start: nat, k: nat)
  {
    && (forall q, y :: Noted(occurrences, q, y) ==> Noted(occurrences', q, y))
    && (forall q, y: nat :: Noted(occurrences', q, y) ==> Noted(occurrences, q, y) || y < start + |document|)
    && (forall i: nat, q :: i + 1 < |document| && i < k && Matches(document, i, q) ==> Noted(occurrences', q, start + i))
  }

  ghost predicate Laid(n: Nodes, start: nat, k: nat, document: seq<nat>)
    requires k < |document| && |n.tokens| == |n.next| == start + |document|
  {
    && n.tokens[start + k] == document[k]
    && n.next[start + k] == (if k + 1 == |document| then NONE else start + k + 1)
  }

  method CountDocument(n: Nodes, start: nat, counts: Counts, occurrences: Occurrences,
                       ghost docs: seq<seq<nat>>, ghost document: seq<nat>)
    returns (counts': Counts, occurrences': Occurrences)
    requires |n.tokens| == |n.previous| == |n.next| == start + |document|
    requires forall k :: 0 <= k < |document| ==> Laid(n, start, k, document)
    requires CountsUpTo(docs, document, 0, counts)
    ensures CountsUpTo(docs, document, |document|, counts')
    ensures NotesUpTo(occurrences, occurrences', document, start, |document|)
  {
    counts', occurrences' := counts, occurrences;
    var end := if |n.tokens| == 0 then 0 else |n.tokens| - 1;
    var index := start;
    assert document != [] ==> document[..1] == [document[0]];
    while index < end
      invariant start <= index && (document != [] ==> index <= end)
      invariant document != [] ==> CountsUpTo(docs, document, index - start + 1, counts')
      invariant document == [] ==> CountsUpTo(docs, document, 0, counts')
      invariant NotesUpTo(occurrences, occurrences', document, start, index - start)
      decreases end - index
    {
      ghost var k := index - start;
      // Within a document only the last token has no successor, so the test for
      // NONE never skips anything here.
      assert Laid(n, start, k, document) && Laid(n, start, k + 1, document);
      var pair := (n.tokens[index], n.tokens[n.next[index]]);
      CountsStep(docs, document, k + 1, counts');
      counts' := counts'[pair := Get(counts', pair) + 1];
      occurrences' := Push(occurrences', pair, index);
      assert forall q :: Matches(document, k, q) <==> q == pair;
      index := index + 1;
    }
    assert document != [] ==> document[..|document|] == document;
  }

  // ----- laying out and counting the corpus -----

  /** The state before the ranking is built. */
  ghost predicate Loaded(st: State, home: seq<nat>, chains: seq<Chain>, docs: seq<seq<nat>>)
  {
    && Linked(st.n, home, chains)
    && docs == Spellings(st.n.tokens, chains)
    && Shaped(docs, chains)
    && CountsUpTo(docs, [], 0, st.counts)
    && Size(docs) == |home|
    && NotedAll(docs, chains, st.occurrences)
    && (forall q, y: nat :: Noted(st.occurrences, q, y) ==> y < |home|)
  }

  method LoadDocument(st: State, document: seq<Byte>, ghost home: seq<nat>, ghost chains: seq<Chain>, ghost docs: seq<seq<nat>>)
    returns (st': State, ghost home': seq<nat>, ghost chains': seq<Chain>)
    requires Loaded(st, home, chains, docs) && |home| + |document| <= NONE
    ensures |home'| == |home| + |document|
    ensures Loaded(st', home', chains', docs + [FromBytes(document)])
  {
    ghost var s := FromBytes(document);
    var start := |st.n.tokens|;
    var n := AppendNodes(st.n, document);
    home' := home + Same(|chains|, |document|);
    chains' := chains + [Run(start, |document|)];
    AppendedLinked(st.n, n, home, chains, document);
    forall k | 0 <= k < |s| ensures Laid(n, start, k, s) {
      assert Fresh(n, start, k, document);
    }
    var counts, occurrences := CountDocument(n, start, st.counts, st.occurrences, docs, s);
    st' := State(n, counts, occurrences, {});
    LoadedCounts(docs, s, counts);
    SizeSnoc(docs, s);
    LoadedNotes(docs, chains, st.occurrences, occurrences, s, start);
  }

  lemma {:induction false} LoadedCounts(docs: seq<seq<nat>>, s: seq<nat>, counts: Counts)
    requires CountsUpTo(docs, s, |s|, counts)
    ensures CountsUpTo(docs + [s], [], 0, counts)
  {
    assert s[..|s|] == s;
    forall p ensures Get(counts, p) == Total(docs + [s], p) {
      TotalSnoc(docs, s, p);
    }
  }

  lemma {:induction false} LoadedNotes(docs: seq<seq<nat>>, chains: seq<Chain>, occurrences: Occurrences, occurrences': Occurrences,
                    s: seq<nat>, start: nat)
    requires Shaped(docs, chains) && NotedAll(docs, chains, occurrences)
    requires NotesUpTo(occurrences, occurrences', s, start, |s|)
    ensures Shaped(docs + [s], chains + [Run(start, |s|)])
    ensures NotedAll(docs + [s], chains + [Run(start, |s|)], occurrences')
  {
    var docs', chains' := docs + [s], chains + [Run(start, |s|)];
    forall d: nat, i: nat, q | PairAt(docs', d, i, q) ensures Noted(occurrences', q, chains'[d][i]) {
      if d < |docs| {
        assert PairAt(docs, d, i, q);
      } else {
        assert Matches(s, i, q);
      }
    }
  }

  lemma {:induction false} DocumentsPrefix(corpus: seq<seq<Byte>>, d: nat)
    requires d < |corpus|
    ensures Documents(corpus[..d + 1]) == Documents(corpus[..d]) + [FromBytes(corpus[d])]
    ensures Size(Documents(corpus[..d + 1])) == Size(Documents(corpus[..d])) + |corpus[d]|
  {
    SizeSnoc(Documents(corpus[..d]), FromBytes(corpus[d]));
  }

  lemma {:induction false} SizePrefix(docs: seq<seq<nat>>, d: nat)
    requires d <= |docs|
    ensures Size(docs[..d]) <= Size(docs)
  {
    if d > 0 {
      assert docs[..d][1..] == docs[1..][..d - 1];
      SizePrefix(docs[1..], d - 1);
    }
  }

  method CountNodes(corpus: seq<seq<Byte>>) returns (count: nat)
    ensures count == Size(Documents(corpus))
  {
    count := 0;
    for d := 0 to |corpus|
      invariant count == Size(Documents(corpus[..d]))
    {
      DocumentsPrefix(corpus, d);
      count := count + |corpus[d]|;
    }
    assert corpus[..|corpus|] == corpus;
  }

  method LoadCorpus(corpus: seq<seq<Byte>>)
    returns (st: State, ghost home: seq<nat>, ghost chains: seq<Chain>)
    requires Size(Documents(corpus)) <= NONE
    ensures Loaded(st, home, chains, Documents(corpus))
  {
    st := State(Nodes([], [], []), map[], map[], {});
    home, chains := [], [];
    for d := 0 to |corpus|
      invariant Loaded(st, home, chains, Documents(corpus[..d]))
    {
      DocumentsPrefix(corpus, d);
      assert Documents(corpus[..d + 1]) == Documents(corpus)[..d + 1];
      SizePrefix(Documents(corpus), d + 1);
      st, home, chains := LoadDocument(st, corpus[d], home, chains, Documents(corpus[..d]));
    }
    assert corpus[..|corpus|] == corpus;
  }

  lemma {:induction false} RankedFromCounts(counts: Counts)
    requires forall p :: p in counts ==> counts[p] > 0
    ensures Ranked(counts, set p | p in counts :: Entry(counts[p], p.0, p.1))
  {
    var ranking := set p | p in counts :: Entry(counts[p], p.0, p.1);
    forall e: Entry | e.Pair() in counts && counts[e.Pair()] == e.count ensures e in ranking {
      assert Entry(counts[e.Pair()], e.Pair().0, e.Pair().1) == e;
    }
  }

  // ----- the rounds -----

  ghost predicate TokensBelow(docs: seq<seq<nat>>, bound: nat)
  {
    forall d, i :: 0 <= d < |docs| && 0 <= i < |docs[d]| ==> docs[d][i] < bound
  }

  lemma {:induction false} ReplaceBelow(s: seq<nat>, p: Pair, id: nat)
    requires forall i :: 0 <= i < |s| ==> s[i] < id
    ensures forall i :: 0 <= i < |Replace(s, p, id)| ==> Replace(s, p, id)[i] < id + 1
  {
    if |s| >= 2 {
      if Matches(s, 0, p) {
        ReplaceBelow(s[2..], p, id);
      } else {
        ReplaceBelow(s[1..], p, id);
      }
    }
  }

  lemma {:induction false} ReplaceDocsBelow(docs: seq<seq<nat>>, p: Pair, id: nat)
    requires TokensBelow(docs, id)
    ensures TokensBelow(ReplaceDocs(docs, p, id), id + 1)
  {
    forall d | 0 <= d < |docs|
      ensures forall i :: 0 <= i < |Replace(docs[d], p, id)| ==> Replace(docs[d], p, id)[i] < id + 1
    {
      ReplaceBelow(docs[d], p, id);
    }
  }

  lemma {:induction false} CountedTokens(s: seq<nat>, p: Pair)
    requires PairCount(s, p) > 0
    ensures p.0 in s && p.1 in s
  {
    if One(s[0], s[1], p) == 0 {
      CountedTokens(s[1..], p);
    }
  }

  lemma {:induction false} TotalBelow(docs: seq<seq<nat>>, p: Pair, bound: nat)
    requires TokensBelow(docs, bound) && Total(docs, p) > 0
    ensures p.0 < bound && p.1 < bound
  {
    if PairCount(docs[0], p) > 0 {
      CountedTokens(docs[0], p);
    } else {
      TotalBelow(docs[1..], p, bound);
    }
  }

  // ----- the run of the textbook trainer, round by round -----

  ghost predicate IsBestRule(docs: seq<seq<nat>>, rule: Rule, offset: nat)
  {
    && Best(docs) == Some(rule.Pair())
    && Total(docs, rule.Pair()) == rule.trainingFrequency >= MIN_MERGE_FREQUENCY
    && rule.id == BASE_VOCABULARY_SIZE + offset
  }

  ghost predicate Exhausted(docs: seq<seq<nat>>)
  {
    Best(docs).None? || Total(docs, Best(docs).value) < MIN_MERGE_FREQUENCY
  }

  ghost predicate NaiveRound(docs: seq<seq<nat>>, rule: Rule, offset: nat, docs': seq<seq<nat>>)
  {
    IsBestRule(docs, rule, offset) && docs' == ReplaceDocs(docs, rule.Pair(), rule.id)
  }

  /** `trace` lists the documents before each rule and after the last one. */
  ghost predicate NaiveTrace(trace: seq<seq<seq<nat>>>, rules: seq<Rule>, offset: nat)
  {
    && |trace| == |rules| + 1
    && (forall k :: 0 <= k < |rules| ==> NaiveRound(trace[k], rules[k], offset + k, trace[k + 1]))
  }

  lemma {:induction false} TraceExtends(trace: seq<seq<seq<nat>>>, rules: seq<Rule>, rule: Rule, docs': seq<seq<nat>>)
    requires NaiveTrace(trace, rules, 0) && NaiveRound(trace[|rules|], rule, |rules|, docs')
    ensures NaiveTrace(trace + [docs'], rules + [rule], 0)
  {
  }

  lemma {:induction false} TraceIsNaive(trace: seq<seq<seq<nat>>>, rules: seq<Rule>, offset: nat, remaining: nat)
    requires NaiveTrace(trace, rules, offset) && |rules| <= remaining
    requires |rules| < remaining ==> Exhausted(trace[|rules|])
    ensures NaiveRounds(trace[0], offset, remaining)
         == if |rules| == remaining then Ok(rules) else Err(VocabularyUnderfilled)
    decreases |rules|
  {
    if rules != [] {
      assert NaiveRound(trace[0], rules[0], offset + 0, trace[1]);
      forall k | 0 <= k < |rules[1..]| ensures NaiveRound(trace[1..][k], rules[1..][k], offset + 1 + k, trace[1..][k + 1]) {
        assert NaiveRound(trace[k + 1], rules[k + 1], offset + (k + 1), trace[k + 1 + 1]);
      }
      TraceIsNaive(trace[1..], rules[1..], offset + 1, remaining - 1);
      assert rules == [rules[0]] + rules[1..];
    }
  }

  /** After k merges the live tokens of every training document are its encoding
      under the first k rules. */
  lemma {:induction false} TrainingAgreesWithEncoding(corpus: seq<seq<Byte>>, trace: seq<seq<seq<nat>>>, rules: seq<Rule>, k: nat)
    requires NaiveTrace(trace, rules, 0) && trace[0] == Documents(corpus) && k <= |rules|
    ensures |trace[k]| == |corpus|
    ensures forall d :: 0 <= d < |corpus| ==> trace[k][d] == ReferenceEncode(corpus[d], rules[..k])
  {
    if k > 0 {
      TrainingAgreesWithEncoding(corpus, trace, rules, k - 1);
      assert NaiveRound(trace[k - 1], rules[k - 1], 0 + (k - 1), trace[k - 1 + 1]);
      assert rules[..k] == rules[..k - 1] + [rules[k - 1]];
      forall d | 0 <= d < |corpus| ensures trace[k][d] == ReferenceEncode(corpus[d], rules[..k]) {
        ReplaceAllSnoc(FromBytes(corpus[d]), rules[..k - 1], rules[k - 1]);
      }
    }
  }

  // ----- what was learned, in plain numbers -----

  /** The corpus as it reads under some rules. */
  ghost function Reading(corpus: seq<seq<Byte>>, rules: seq<Rule>): (docs: seq<seq<nat>>)
    ensures |docs| == |corpus| && forall d :: 0 <= d < |corpus| ==> docs[d] == ReferenceEncode(corpus[d], rules)
  {
    seq(|corpus|, d requires 0 <= d < |corpus| => ReferenceEncode(corpus[d], rules))
  }

  /** The k-th rule has the k-th id after the bytes', and merges the most frequent pair
      of the corpus as it reads under the rules before it. */
  ghost predicate Learned(corpus: seq<seq<Byte>>, rules: seq<Rule>, k: nat)
    requires k < |rules|
  {
    var docs := Reading(corpus, rules[..k]);
    && rules[k].id == 260 + k
    && rules[k].trainingFrequency == |Places(docs, (rules[k].left, rules[k].right))| >= 2
    && MostFrequent(docs, rules[k].left, rules[k].right)
  }

  ghost predicate AllLearned(corpus: seq<seq<Byte>>, rules: seq<Rule>)
  {
    forall k :: 0 <= k < |rules| ==> Learned(corpus, rules, k)
  }

  /** No pair is left in two places. */
  ghost predicate NothingLeft(corpus: seq<seq<Byte>>, rules: seq<Rule>)
  {
    forall q :: |Places(Reading(corpus, rules), q)| < 2
  }

  lemma {:induction false} TraceIsLearned(corpus: seq<seq<Byte>>, trace: seq<seq<seq<nat>>>, rules: seq<Rule>)
    requires NaiveTrace(trace, rules, 0) && trace[0] == Documents(corpus)
    ensures AllLearned(corpus, rules)
    ensures Exhausted(trace[|rules|]) ==> NothingLeft(corpus, rules)
  {
    forall k | 0 <= k < |rules| ensures Learned(corpus, rules, k) {
      TrainingAgreesWithEncoding(corpus, trace, rules, k);
      assert trace[k] == Reading(corpus, rules[..k]);
      assert NaiveRound(trace[k], rules[k], 0 + k, trace[k + 1]);
      BestIsMostFrequent(trace[k]);
      TotalCountsPlaces(trace[k], rules[k].Pair());
    }
    TrainingAgreesWithEncoding(corpus, trace, rules, |rules|);
    assert rules[..|rules|] == rules;
    assert trace[|rules|] == Reading(corpus, rules);
    if Exhausted(trace[|rules|]) {
      ExhaustedHasNone(trace[|rules|]);
    }
  }

  lemma {:induction false} ExhaustedHasNone(docs: seq<seq<nat>>)
    requires Exhausted(docs)
    ensures forall q :: |Places(docs, q)| < 2
  {
    BestIsBest(docs);
    forall q ensures |Places(docs, q)| < 2 {
      TotalCountsPlaces(docs, q);
    }
  }

  /** One turn of the loop over rounds: the rule it adds, or `None` when the
      ranking is empty or its first count too small. */
  method NextRule(st: State, offset: nat, ghost home: seq<nat>, ghost chains: seq<Chain>, ghost docs: seq<seq<nat>>)
    returns (rule: Option<Rule>, st': State, ghost chains': seq<Chain>, ghost docs': seq<seq<nat>>)
    requires BASE_VOCABULARY_SIZE + offset < NONE
    requires Settled(st, home, chains, docs) && TokensBelow(docs, BASE_VOCABULARY_SIZE + offset)
    ensures rule.None? ==> Exhausted(docs) && docs' == docs
    ensures rule.Some? ==> NaiveRound(docs, rule.value, offset, docs')
    ensures Settled(st', home, chains', docs')
    ensures rule.Some? ==> TokensBelow(docs', BASE_VOCABULARY_SIZE + offset + 1)
  {
    st', chains', docs' := st, chains, docs;
    var first := First(st.ranking);
    if first.None? {
      EmptyHasNoBest(docs, st.counts, st.ranking);
      return None, st', chains', docs';
    }
    var entry := first.value;
    FirstIsBest(docs, st.counts, st.ranking, entry);
    if entry.count < MIN_MERGE_FREQUENCY {
      return None, st', chains', docs';
    }
    var newId := BASE_VOCABULARY_SIZE + offset;
    TotalBelow(docs, entry.Pair(), newId);
    st', chains' := TrainRound(st, entry.Pair(), newId, home, chains, docs);
    ReplaceDocsBelow(docs, entry.Pair(), newId);
    docs' := ReplaceDocs(docs, entry.Pair(), newId);
    rule := Some(Rule(newId, entry.left, entry.right, entry.count));
  }

  /** The loop over rounds. */
  method RunRounds(st0: State, mergeCount: nat, ghost home: seq<nat>, ghost chains0: seq<Chain>, ghost docs0: seq<seq<nat>>)
    returns (full: bool, rules: seq<Rule>, st: State, ghost chains: seq<Chain>, ghost trace: seq<seq<seq<nat>>>)
    requires BASE_VOCABULARY_SIZE + mergeCount <= NONE
    requires Settled(st0, home, chains0, docs0) && TokensBelow(docs0, BASE_VOCABULARY_SIZE)
    ensures NaiveTrace(trace, rules, 0) && trace[0] == docs0
    ensures if full then |rules| == mergeCount else |rules| < mergeCount && Exhausted(trace[|rules|])
    ensures Settled(st, home, chains, trace[|rules|])
  {
    st, chains := st0, chains0;
    ghost var docs := docs0;
    rules, trace := [], [docs0];
    for offset := 0 to mergeCount
      invariant |rules| == offset && NaiveTrace(trace, rules, 0) && trace[0] == docs0
      invariant docs == trace[offset]
      invariant Settled(st, home, chains, docs) && TokensBelow(docs, BASE_VOCABULARY_SIZE + offset)
    {
      var rule;
      rule, st, chains, docs := NextRule(st, offset, home, chains, docs);
      if rule.None? {
        return false, rules, st, chains, trace;
      }
      TraceExtends(trace, rules, rule.value, docs);
      rules, trace := rules + [rule.value], trace + [docs];
    }
    return true, rules, st, chains, trace;
  }

  /** Lay out the corpus, build the ranking, run the rounds. */
  method TrainLoaded(corpus: seq<seq<Byte>>, mergeCount: nat)
    returns (full: bool, rules: seq<Rule>, st: State, ghost home: seq<nat>, ghost chains: seq<Chain>,
             ghost trace: seq<seq<seq<nat>>>)
    requires Size(Documents(corpus)) <= NONE && BASE_VOCABULARY_SIZE + mergeCount <= NONE
    ensures NaiveTrace(trace, rules, 0) && trace[0] == Documents(corpus)
    ensures if full then |rules| == mergeCount else |rules| < mergeCount && Exhausted(trace[|rules|])
    ensures Settled(st, home, chains, trace[|rules|])
  {
    st, home, chains := LoadCorpus(corpus);
    RankedFromCounts(st.counts);
    st := st.(ranking := set p | p in st.counts :: Entry(st.counts[p], p.0, p.1));
    full, rules, st, chains, trace := RunRounds(st, mergeCount, home, chains, Documents(corpus));
  }

  /**
  The incremental trainer is the textbook trainer: the same rules with the same
  frequencies, or the same error, for every corpus and every target. Each rule merges
  the pair found in the most places, the lowest one on ties.
  */
  method TrainRules(corpus: seq<seq<Byte>>, target: nat) returns (r: Result<seq<Rule>, TrainError>)
    requires target <= NONE
    ensures r == NaiveTrain(corpus, target)
    ensures r.Ok? ==> |r.value| == target - 260 && AllLearned(corpus, r.value)
    ensures r == Err(TargetInvalid) <==> target < 260
    ensures r == Err(SampleTooLarge) <==> target >= 260 && !(0 < Size(Documents(corpus)) <= 0xFFFF_FFFE)
    ensures r == Err(VocabularyUnderfilled) ==>
      exists rules :: |rules| < target - 260 && AllLearned(corpus, rules) && NothingLeft(corpus, rules)
    ensures r != Err(PairAccountingFailed)
  {
    if target < BASE_VOCABULARY_SIZE {
      return Err(TargetInvalid);
    }
    var nodeCount := CountNodes(corpus);
    if nodeCount == 0 || nodeCount > NONE - 1 {
      return Err(SampleTooLarge);
    }
    var full, rules, st;
    ghost var home, chains, trace;
    full, rules, st, home, chains, trace := TrainLoaded(corpus, target - BASE_VOCABULARY_SIZE);
    TraceIsNaive(trace, rules, 0, target - BASE_VOCABULARY_SIZE);
    TraceIsLearned(corpus, trace, rules);
    return if full then Ok(rules) else Err(VocabularyUnderfilled);
  }
}
