/**
How often each adjacent pair occurs in a list of documents, the textbook trainer
that recounts from scratch each round, and how one merge moves the counts.
*/
module Counting {
  import opened Outcomes
  import opened Bpe

  function One(x: nat, y: nat, p: Pair): nat
  {
    if x == p.0 && y == p.1 then 1 else 0
  }

  /** Overlapping occurrences: `aaa` holds the pair `aa` twice. */
  function PairCount(s: seq<nat>, p: Pair): nat
  {
    if |s| < 2 then 0 else One(s[0], s[1], p) + PairCount(s[1..], p)
  }

  function Total(docs: seq<seq<nat>>, p: Pair): nat
  {
    if docs == [] then 0 else PairCount(docs[0], p) + Total(docs[1..], p)
  }

  function Size(docs: seq<seq<nat>>): nat
  {
    if docs == [] then 0 else |docs[0]| + Size(docs[1..])
  }

  function ReplaceDocs(docs: seq<seq<nat>>, p: Pair, id: nat): (r: seq<seq<nat>>)
    ensures |r| == |docs|
    ensures forall d :: 0 <= d < |docs| ==> r[d] == Replace(docs[d], p, id)
  {
    seq(|docs|, d requires 0 <= d < |docs| => Replace(docs[d], p, id))
  }

  // ----- the textbook trainer -----

  datatype TrainError = TargetInvalid | SampleTooLarge | VocabularyUnderfilled | PairAccountingFailed

  predicate Below(p: Pair, q: Pair)
  {
    p.0 < q.0 || (p.0 == q.0 && p.1 < q.1)
  }

  /** Highest count first, then the lowest pair of token ids. */
  predicate Outranks(m: nat, p: Pair, n: nat, q: Pair)
  {
    m > n || (m == n && Below(p, q))
  }

  function AdjacentPairs(s: seq<nat>): seq<Pair>
  {
    if |s| < 2 then [] else [(s[0], s[1])] + AdjacentPairs(s[1..])
  }

  function AllPairs(docs: seq<seq<nat>>): seq<Pair>
  {
    if docs == [] then [] else AdjacentPairs(docs[0]) + AllPairs(docs[1..])
  }

  function BestAmong(docs: seq<seq<nat>>, pairs: seq<Pair>): Option<Pair>
  {
    if pairs == [] then None
    else
      match BestAmong(docs, pairs[1..])
      case None => Some(pairs[0])
      case Some(q) =>
        if Outranks(Total(docs, q), q, Total(docs, pairs[0]), pairs[0]) then Some(q) else Some(pairs[0])
  }

  function Best(docs: seq<seq<nat>>): Option<Pair>
  {
    BestAmong(docs, AllPairs(docs))
  }

  function NaiveRounds(docs: seq<seq<nat>>, offset: nat, remaining: nat): Result<seq<Rule>, TrainError>
    decreases remaining
  {
    if remaining == 0 then Ok([])
    else
      match Best(docs)
      case None => Err(VocabularyUnderfilled)
      case Some(p) =>
        if Total(docs, p) < MIN_MERGE_FREQUENCY then Err(VocabularyUnderfilled)
        else
          var id := BASE_VOCABULARY_SIZE + offset;
          match NaiveRounds(ReplaceDocs(docs, p, id), offset + 1, remaining - 1)
          case Err(e) => Err(e)
          case Ok(rules) => Ok([Rule(id, p.0, p.1, Total(docs, p))] + rules)
  }

  function Documents(corpus: seq<seq<Byte>>): (docs: seq<seq<nat>>)
    ensures |docs| == |corpus|
    ensures forall d :: 0 <= d < |corpus| ==> docs[d] == FromBytes(corpus[d])
  {
    seq(|corpus|, d requires 0 <= d < |corpus| => FromBytes(corpus[d]))
  }

  function NaiveTrain(corpus: seq<seq<Byte>>, target: nat): Result<seq<Rule>, TrainError>
  {
    var docs := Documents(corpus);
    if target < BASE_VOCABULARY_SIZE then Err(TargetInvalid)
    else if Size(docs) == 0 || Size(docs) > NONE - 1 then Err(SampleTooLarge)
    else NaiveRounds(docs, 0, target - BASE_VOCABULARY_SIZE)
  }

  // ----- what Best means -----

  lemma {:induction false} PairsConcat(a: seq<Pair>, b: seq<Pair>, p: Pair)
    ensures p in a + b <==> p in a || p in b
  {
  }

  lemma {:induction false} CountedIffAdjacent(s: seq<nat>, p: Pair)
    ensures PairCount(s, p) > 0 <==> p in AdjacentPairs(s)
  {
    if |s| >= 2 {
      CountedIffAdjacent(s[1..], p);
      PairsConcat([(s[0], s[1])], AdjacentPairs(s[1..]), p);
    }
  }

  lemma {:induction false} TotalIffPresent(docs: seq<seq<nat>>, p: Pair)
    ensures Total(docs, p) > 0 <==> p in AllPairs(docs)
  {
    if docs != [] {
      CountedIffAdjacent(docs[0], p);
      TotalIffPresent(docs[1..], p);
      PairsConcat(AdjacentPairs(docs[0]), AllPairs(docs[1..]), p);
    }
  }

  lemma {:induction false} BestAmongIsBest(docs: seq<seq<nat>>, pairs: seq<Pair>)
    ensures BestAmong(docs, pairs).None? <==> pairs == []
    ensures BestAmong(docs, pairs).Some? ==>
      var b := BestAmong(docs, pairs).value;
      && b in pairs
      && forall q :: q in pairs ==> q == b || Outranks(Total(docs, b), b, Total(docs, q), q)
  {
    if pairs != [] {
      BestAmongIsBest(docs, pairs[1..]);
      assert forall q :: q in pairs ==> q == pairs[0] || q in pairs[1..];
    }
  }

  /** The chosen pair occurs, and outranks every other pair that occurs. */
  lemma {:induction false} BestIsBest(docs: seq<seq<nat>>)
    ensures Best(docs).None? ==> forall q :: Total(docs, q) == 0
    ensures Best(docs).Some? ==>
      var b := Best(docs).value;
      Total(docs, b) > 0 && forall q :: q == b || Outranks(Total(docs, b), b, Total(docs, q), q)
  {
    BestAmongIsBest(docs, AllPairs(docs));
    forall q ensures Total(docs, q) > 0 <==> q in AllPairs(docs) {
      TotalIffPresent(docs, q);
    }
  }

  lemma {:induction false} BestIsUnique(docs: seq<seq<nat>>, b: Pair)
    requires Total(docs, b) > 0
    requires forall q :: Total(docs, q) > 0 ==> q == b || Outranks(Total(docs, b), b, Total(docs, q), q)
    ensures Best(docs) == Some(b)
  {
    BestIsBest(docs);
  }

  // ----- how counts move under one merge -----

  // The pair that straddles two adjoining pieces.
  function Seam(a: seq<nat>, b: seq<nat>, p: Pair): nat
  {
    if a == [] || b == [] then 0 else One(a[|a| - 1], b[0], p)
  }

  lemma {:induction false} PairCountConcat(a: seq<nat>, b: seq<nat>, p: Pair)
    ensures PairCount(a + b, p) == PairCount(a, p) + Seam(a, b, p) + PairCount(b, p)
  {
    if a == [] {
      assert a + b == b;
    } else if b == [] {
      assert a + b == a;
    } else {
      assert (a + b)[1..] == a[1..] + b;
      PairCountConcat(a[1..], b, p);
    }
  }

  // The pairs that a merge of `l`, `r` between `pre` and `suf` destroys and creates.
  function Destroyed(pre: seq<nat>, l: nat, r: nat, suf: seq<nat>, p: Pair): nat
  {
    Seam(pre, [l], p) + One(l, r, p) + Seam([r], suf, p)
  }

  function Created(pre: seq<nat>, id: nat, suf: seq<nat>, p: Pair): nat
  {
    Seam(pre, [id], p) + Seam([id], suf, p)
  }

  lemma {:induction false} MergeCounts(pre: seq<nat>, l: nat, r: nat, suf: seq<nat>, id: nat, p: Pair)
    ensures var rest := PairCount(pre, p) + PairCount(suf, p);
      && PairCount(pre + [l, r] + suf, p) == rest + Destroyed(pre, l, r, suf, p)
      && PairCount(pre + [id] + suf, p) == rest + Created(pre, id, suf, p)
  {
    assert pre + [l, r] + suf == pre + [l] + ([r] + suf);
    PairCountConcat(pre + [l], [r] + suf, p);
    PairCountConcat(pre, [l], p);
    PairCountConcat([r], suf, p);
    PairCountConcat(pre + [id], suf, p);
    PairCountConcat(pre, [id], p);
  }

  lemma {:induction false} TotalUpdate(docs: seq<seq<nat>>, d: nat, s: seq<nat>, p: Pair)
    requires d < |docs|
    ensures Total(docs[d := s], p) + PairCount(docs[d], p) == Total(docs, p) + PairCount(s, p)
    ensures PairCount(docs[d], p) <= Total(docs, p)
  {
    if d == 0 {
      assert docs[0 := s][1..] == docs[1..];
    } else {
      assert docs[d := s][1..] == docs[1..][d - 1 := s];
      TotalUpdate(docs[1..], d - 1, s, p);
    }
  }

  lemma {:induction false} SizeUpdate(docs: seq<seq<nat>>, d: nat, s: seq<nat>)
    requires d < |docs|
    ensures Size(docs[d := s]) + |docs[d]| == Size(docs) + |s|
  {
    if d == 0 {
      assert docs[0 := s][1..] == docs[1..];
    } else {
      assert docs[d := s][1..] == docs[1..][d - 1 := s];
      SizeUpdate(docs[1..], d - 1, s);
    }
  }

  /** One merge in one document: the total of every pair moves by exactly the
      pairs destroyed and created around it. */
  lemma {:induction false} MergeTotals(docs: seq<seq<nat>>, d: nat, i: nat, id: nat, p: Pair)
    requires d < |docs| && i + 1 < |docs[d]|
    ensures var s := docs[d];
      var pre, suf := s[..i], s[i + 2..];
      && Destroyed(pre, s[i], s[i + 1], suf, p) <= Total(docs, p)
      && Total(docs[d := pre + [id] + suf], p)
         == Total(docs, p) - Destroyed(pre, s[i], s[i + 1], suf, p) + Created(pre, id, suf, p)
  {
    var s := docs[d];
    SplitPair(s, i);
    MergeCounts(s[..i], s[i], s[i + 1], s[i + 2..], id, p);
    TotalUpdate(docs, d, s[..i] + [id] + s[i + 2..], p);
  }

  lemma {:induction false} PairCountBound(s: seq<nat>, p: Pair)
    ensures PairCount(s, p) <= |s|
  {
    if |s| >= 2 {
      PairCountBound(s[1..], p);
    }
  }

  lemma {:induction false} TotalBound(docs: seq<seq<nat>>, p: Pair)
    ensures Total(docs, p) <= Size(docs)
  {
    if docs != [] {
      PairCountBound(docs[0], p);
      TotalBound(docs[1..], p);
    }
  }

  lemma {:induction false} TotalNoMatch(docs: seq<seq<nat>>, p: Pair)
    requires forall d :: 0 <= d < |docs| ==> NoMatch(docs[d], p)
    ensures Total(docs, p) == 0
  {
    if docs != [] {
      CountNoMatch(docs[0], p);
      TotalNoMatch(docs[1..], p);
    }
  }

  lemma {:induction false} CountNoMatch(s: seq<nat>, p: Pair)
    ensures PairCount(s, p) == 0 <==> NoMatch(s, p)
  {
    if |s| >= 2 {
      CountNoMatch(s[1..], p);
      assert forall i: nat :: i + 1 < |s[1..]| ==> Matches(s[1..], i, p) == Matches(s, i + 1, p);
      if NoMatch(s[1..], p) && !Matches(s, 0, p) {
        forall i: nat | i + 1 < |s| ensures !Matches(s, i, p) {
          assert i > 0 ==> !Matches(s[1..], i - 1, p);
        }
      }
    }
  }

  lemma {:induction false} TotalSnoc(docs: seq<seq<nat>>, s: seq<nat>, p: Pair)
    ensures Total(docs + [s], p) == Total(docs, p) + PairCount(s, p)
  {
    if docs == [] {
      assert (docs + [s])[1..] == [];
    } else {
      assert (docs + [s])[1..] == docs[1..] + [s];
      TotalSnoc(docs[1..], s, p);
    }
  }

  // ----- counts and the best pair in plain numbers -----

  ghost function Starts(s: seq<nat>, p: Pair): set<nat>
  {
    set i: nat {:trigger s[i]} | i < |s| && i + 1 < |s| && s[i] == p.0 && s[i + 1] == p.1
  }

  /** Every place, by document and index, where two neighbouring tokens are the pair. */
  ghost function Places(docs: seq<seq<nat>>, p: Pair): set<(nat, nat)>
  {
    set d: nat, i: nat
      | d < |docs| && i < |docs[d]| && i + 1 < |docs[d]| && docs[d][i] == p.0 && docs[d][i + 1] == p.1 :: (d, i)
  }

  lemma {:induction false} PairCountCountsStarts(s: seq<nat>, p: Pair)
    ensures PairCount(s, p) == |Starts(s, p)|
    decreases |s|
  {
    if |s| < 2 {
      assert Starts(s, p) == {};
    } else {
      var n := |s| - 1;
      PairCountCountsStarts(s[..n], p);
      assert s == s[..n] + [s[n]];
      PairCountConcat(s[..n], [s[n]], p);
      if s[n - 1] == p.0 && s[n] == p.1 {
        assert Starts(s, p) == Starts(s[..n], p) + {n - 1};
      } else {
        assert Starts(s, p) == Starts(s[..n], p);
      }
    }
  }

  lemma {:induction false} InDocument(starts: set<nat>, d: nat)
    ensures |set i: nat | i in starts :: (d, i)| == |starts|
  {
    var there := set i: nat | i in starts :: (d, i);
    if starts == {} {
      assert there == {};
    } else {
      var x :| x in starts;
      InDocument(starts - {x}, d);
      assert there == (set i: nat | i in starts - {x} :: (d, i)) + {(d, x)};
    }
  }

  lemma {:induction false} TotalCountsPlaces(docs: seq<seq<nat>>, p: Pair)
    ensures Total(docs, p) == |Places(docs, p)|
  {
    if docs == [] {
      assert Places(docs, p) == {};
    } else {
      var n := |docs| - 1;
      var front, s := docs[..n], docs[n];
      assert docs == front + [s];
      TotalCountsPlaces(front, p);
      TotalSnoc(front, s, p);
      PairCountCountsStarts(s, p);
      InDocument(Starts(s, p), n);
      var there := set i: nat | i in Starts(s, p) :: (n, i);
      assert Places(docs, p) == Places(front, p) + there && Places(front, p) !! there;
    }
  }

  /** The pair in the most places; of several such, the one with the lowest left
      token, and of those the one with the lowest right token. */
  ghost predicate MostFrequent(docs: seq<seq<nat>>, left: nat, right: nat)
  {
    forall q: Pair {:trigger Places(docs, q)} :: q == (left, right)
      || |Places(docs, q)| < |Places(docs, (left, right))|
      || (|Places(docs, q)| == |Places(docs, (left, right))| && (left < q.0 || (left == q.0 && right < q.1)))
  }

  lemma {:induction false} BestIsMostFrequent(docs: seq<seq<nat>>)
    ensures Best(docs).None? ==> forall q :: Places(docs, q) == {}
    ensures Best(docs).Some? ==> MostFrequent(docs, Best(docs).value.0, Best(docs).value.1)
  {
    BestIsBest(docs);
    forall q ensures Total(docs, q) == |Places(docs, q)| {
      TotalCountsPlaces(docs, q);
    }
  }
}
