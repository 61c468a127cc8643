/**
What training and encoding promise each other: learned rules always make a valid
artifact, their frequencies never rise, and after any number of merges each
training document reads exactly as the encoder would encode it.
*/
module Agreement {
  import opened Bpe
  import opened Counting
  import opened Links
  import opened Rounds
  import opened Tokenizer
  import opened Trainer

  // ----- what one replacement leaves behind -----

  // An adjacent pair of the result that avoids the new token was adjacent before,
  // and is not the pair just replaced.
  lemma {:induction false} ReplaceCreatesNothingOld(s: seq<nat>, p: Pair, id: nat, q: Pair)
    requires q.0 != id && q.1 != id
    ensures PairCount(Replace(s, p, id), q) <= PairCount(s, q)
    ensures q == p ==> PairCount(Replace(s, p, id), q) == 0
    ensures s != [] ==> Replace(s, p, id) != [] && (Replace(s, p, id)[0] == s[0] || Replace(s, p, id)[0] == id)
    decreases |s|
  {
    if |s| >= 2 {
      if Matches(s, 0, p) {
        var t := Replace(s[2..], p, id);
        ReplaceCreatesNothingOld(s[2..], p, id, q);
        assert ([id] + t)[1..] == t;
        assert s[1..][1..] == s[2..];
      } else {
        var t := Replace(s[1..], p, id);
        ReplaceCreatesNothingOld(s[1..], p, id, q);
        assert ([s[0]] + t)[1..] == t;
      }
    }
  }

  function Tally(s: seq<nat>, x: nat): nat
  {
    if s == [] then 0 else (if s[0] == x then 1 else 0) + Tally(s[1..], x)
  }

  // Each new token consumes an occurrence of the pair.
  lemma {:induction false} NewTokensAreCounted(s: seq<nat>, p: Pair, id: nat)
    requires id !in s
    ensures Tally(Replace(s, p, id), id) <= PairCount(s, p)
    decreases |s|
  {
    if |s| >= 2 {
      if Matches(s, 0, p) {
        var t := Replace(s[2..], p, id);
        NewTokensAreCounted(s[2..], p, id);
        assert ([id] + t)[1..] == t;
        assert s[1..][1..] == s[2..];
      } else {
        var t := Replace(s[1..], p, id);
        NewTokensAreCounted(s[1..], p, id);
        assert ([s[0]] + t)[1..] == t;
      }
    } else {
      assert s == [] || s[1..] == [];
    }
  }

  lemma {:induction false} PairsNeedTokens(s: seq<nat>, q: Pair)
    ensures PairCount(s, q) <= Tally(s, q.0)
    ensures s != [] ==> PairCount(s, q) <= Tally(s[1..], q.1)
    ensures PairCount(s, q) <= Tally(s, q.1)
  {
    if |s| >= 2 {
      PairsNeedTokens(s[1..], q);
    }
  }

  // So no pair of the result is more frequent than both its old self and the
  // pair replaced.
  lemma {:induction false} ReplaceBoundsCounts(s: seq<nat>, p: Pair, id: nat, q: Pair)
    requires id !in s && (q.0 == id || q.1 == id)
    ensures PairCount(Replace(s, p, id), q) <= PairCount(s, p)
  {
    NewTokensAreCounted(s, p, id);
    PairsNeedTokens(Replace(s, p, id), q);
  }

  lemma {:induction false} TotalsAfterReplace(docs: seq<seq<nat>>, p: Pair, id: nat, q: Pair)
    requires TokensBelow(docs, id)
    ensures q.0 != id && q.1 != id ==> Total(ReplaceDocs(docs, p, id), q) <= Total(docs, q)
    ensures q.0 != id && q.1 != id && q == p ==> Total(ReplaceDocs(docs, p, id), q) == 0
    ensures q.0 == id || q.1 == id ==> Total(ReplaceDocs(docs, p, id), q) <= Total(docs, p)
    decreases |docs|
  {
    if docs != [] {
      assert ReplaceDocs(docs, p, id)[1..] == ReplaceDocs(docs[1..], p, id);
      TotalsAfterReplace(docs[1..], p, id, q);
      if q.0 == id || q.1 == id {
        assert id !in docs[0];
        ReplaceBoundsCounts(docs[0], p, id, q);
      } else {
        ReplaceCreatesNothingOld(docs[0], p, id, q);
      }
    }
  }

  // ----- along a run of the textbook trainer -----

  // What holds after k rules.
  ghost predicate AfterRules(docs: seq<seq<nat>>, rules: seq<Rule>, k: nat)
    requires k <= |rules|
  {
    && TokensBelow(docs, BASE_VOCABULARY_SIZE + k)
    && (forall j :: 0 <= j < k ==> ValidRule(rules[j], j) && Total(docs, rules[j].Pair()) == 0)
    && (k > 0 ==> forall q :: Total(docs, q) <= rules[k - 1].trainingFrequency)
  }

  lemma {:induction false} NextRuleIsValid(docs: seq<seq<nat>>, rules: seq<Rule>, k: nat, docs': seq<seq<nat>>)
    requires k < |rules| && AfterRules(docs, rules, k) && NaiveRound(docs, rules[k], k, docs')
    ensures AfterRules(docs', rules, k + 1)
    ensures ValidRule(rules[k], k)
    ensures forall j :: 0 <= j < k ==> rules[j].Pair() != rules[k].Pair()
    ensures k > 0 ==> rules[k].trainingFrequency <= rules[k - 1].trainingFrequency
  {
    var p, id := rules[k].Pair(), rules[k].id;
    BestIsBest(docs);
    TotalBelow(docs, p, id);
    ReplaceDocsBelow(docs, p, id);
    forall q ensures Total(docs', q) <= Total(docs, p) {
      TotalsAfterReplace(docs, p, id, q);
    }
    forall j | 0 <= j < k + 1 ensures Total(docs', rules[j].Pair()) == 0 {
      TotalsAfterReplace(docs, p, id, rules[j].Pair());
    }
  }

  lemma {:induction false} TraceInvariant(corpus: seq<seq<Byte>>, trace: seq<seq<seq<nat>>>, rules: seq<Rule>, k: nat)
    requires NaiveTrace(trace, rules, 0) && trace[0] == Documents(corpus) && k <= |rules|
    ensures AfterRules(trace[k], rules, k)
  {
    if k > 0 {
      TraceInvariant(corpus, trace, rules, k - 1);
      assert NaiveRound(trace[k - 1], rules[k - 1], 0 + (k - 1), trace[k - 1 + 1]);
      NextRuleIsValid(trace[k - 1], rules, k - 1, trace[k]);
    }
  }

  // A successful run of the textbook trainer has a trace.
  lemma {:induction false} NaiveHasTrace(docs: seq<seq<nat>>, offset: nat, remaining: nat) returns (trace: seq<seq<seq<nat>>>)
    requires NaiveRounds(docs, offset, remaining).Ok?
    ensures var rules := NaiveRounds(docs, offset, remaining).value;
      |rules| == remaining && NaiveTrace(trace, rules, offset) && trace[0] == docs
    decreases remaining
  {
    if remaining == 0 {
      trace := [docs];
    } else {
      var rules := NaiveRounds(docs, offset, remaining).value;
      var docs' := ReplaceDocs(docs, rules[0].Pair(), rules[0].id);
      var rest := NaiveHasTrace(docs', offset + 1, remaining - 1);
      var more := NaiveRounds(docs', offset + 1, remaining - 1).value;
      assert rules == [rules[0]] + more;
      trace := [docs] + rest;
      forall k | 0 <= k < |rules| ensures NaiveRound(trace[k], rules[k], offset + k, trace[k + 1]) {
        if k > 0 {
          assert NaiveRound(rest[k - 1], more[k - 1], offset + 1 + (k - 1), rest[k - 1 + 1]);
        }
      }
    }
  }

  // ----- the promises -----

  lemma {:induction false} TraceIsValid(corpus: seq<seq<Byte>>, trace: seq<seq<seq<nat>>>, rules: seq<Rule>)
    requires NaiveTrace(trace, rules, 0) && trace[0] == Documents(corpus) && BASE_VOCABULARY_SIZE + |rules| <= NONE
    ensures ValidMerges(rules)
    ensures forall j, k :: 0 <= j <= k < |rules| ==> rules[k].trainingFrequency <= rules[j].trainingFrequency
  {
    forall k | 0 <= k < |rules|
      ensures ValidRule(rules[k], k)
      ensures forall j :: 0 <= j < k ==> rules[j].Pair() != rules[k].Pair()
      ensures k > 0 ==> rules[k].trainingFrequency <= rules[k - 1].trainingFrequency
    {
      TraceInvariant(corpus, trace, rules, k);
      assert NaiveRound(trace[k], rules[k], 0 + k, trace[k + 1]);
      NextRuleIsValid(trace[k], rules, k, trace[k + 1]);
    }
    forall j, k | 0 <= j <= k < |rules| ensures rules[k].trainingFrequency <= rules[j].trainingFrequency {
      Descends(rules, j, k);
    }
  }

  /** Whatever the trainer learns passes the merge checks of artifact validation,
      fills the vocabulary exactly, and lists rules by non-increasing frequency. */
  lemma {:induction false} TrainedRulesAreValid(corpus: seq<seq<Byte>>, target: nat)
    requires target <= NONE && NaiveTrain(corpus, target).Ok?
    ensures var rules := NaiveTrain(corpus, target).value;
      && BASE_VOCABULARY_SIZE + |rules| == target
      && ValidMerges(rules)
      && (forall j, k :: 0 <= j <= k < |rules| ==> rules[k].trainingFrequency <= rules[j].trainingFrequency)
  {
    var trace := NaiveHasTrace(Documents(corpus), 0, target - BASE_VOCABULARY_SIZE);
    TraceIsValid(corpus, trace, NaiveTrain(corpus, target).value);
  }

  lemma {:induction false} Descends(rules: seq<Rule>, j: nat, k: nat)
    requires j <= k < |rules|
    requires forall i :: 0 < i < |rules| ==> rules[i].trainingFrequency <= rules[i - 1].trainingFrequency
    ensures rules[k].trainingFrequency <= rules[j].trainingFrequency
    decreases k - j
  {
    if j < k {
      Descends(rules, j, k - 1);
    }
  }

  lemma {:induction false} DocumentFits(corpus: seq<seq<Byte>>, d: nat)
    requires d < |corpus| && Size(Documents(corpus)) <= NONE
    ensures |corpus[d]| <= NONE
  {
    SizePrefix(Documents(corpus), d + 1);
    var front := Documents(corpus)[..d + 1];
    assert front[..d] + [FromBytes(corpus[d])] == front;
    SizeSnoc(front[..d], FromBytes(corpus[d]));
  }

  /** Trains for a number of rounds and encodes a training document with what was
      learned: the encoder returns what the trainer's own linked list spells. */
  method TrainAndEncode(corpus: seq<seq<Byte>>, rounds: nat, d: nat)
    returns (rules: seq<Rule>, st: State, ids: seq<nat>, ghost home: seq<nat>, ghost chains: seq<Chain>)
    requires Size(Documents(corpus)) <= NONE && BASE_VOCABULARY_SIZE + rounds <= NONE && d < |corpus|
    ensures |rules| <= rounds && ValidMerges(rules)
    ensures Linked(st.n, home, chains) && |chains| == |corpus|
    ensures ids == Spelling(st.n.tokens, chains[d]) == ReferenceEncode(corpus[d], rules)
  {
    var full;
    ghost var trace;
    full, rules, st, home, chains, trace := TrainLoaded(corpus, rounds);
    TraceIsValid(corpus, trace, rules);
    TrainingAgreesWithEncoding(corpus, trace, rules, |rules|);
    assert rules[..|rules|] == rules;
    DocumentFits(corpus, d);
    var t := FromMerges(rules);
    ids := Encode(t, corpus[d]);
  }
}
