/**
The pair accounts the trainer keeps: a pair-count table, an occurrence table
with stale entries, and an ordered ranking of the counts.
*/
module PairAccounts {
  import opened Outcomes
  import opened Bpe
  import opened Counting
  import Machine

  type Counts = map<Pair, nat>
  type Occurrences = map<Pair, seq<nat>>

  datatype Entry = Entry(count: nat, left: nat, right: nat)
  {
    function Pair(): Pair { (left, right) }

    predicate Precedes(e: Entry)
    {
      Outranks(count, Pair(), e.count, e.Pair())
    }
  }

  type Ranking = set<Entry>

  function Get(counts: Counts, p: Pair): nat
  {
    if p in counts then counts[p] else 0
  }

  /** The ranking is the count table read the other way round; zero is absence. */
  ghost predicate Ranked(counts: Counts, ranking: Ranking)
  {
    && (forall p :: p in counts ==> counts[p] > 0)
    && (forall e :: e in ranking <==> e.Pair() in counts && counts[e.Pair()] == e.count)
  }

  ghost predicate Counted(docs: seq<seq<nat>>, counts: Counts)
  {
    forall p :: Get(counts, p) == Total(docs, p)
  }

  // ----- the count table -----

  method AdjustCount(pair: Pair, delta: int, counts: Counts, ranking: Ranking)
    returns (ok: bool, counts': Counts, ranking': Ranking)
    requires delta == 1 || delta == -1
    requires Ranked(counts, ranking)
    ensures ok <==> 0 <= Get(counts, pair) + delta <= Machine.U64_MAX
    ensures ok ==> Ranked(counts', ranking')
    ensures ok ==> forall p :: Get(counts', p) == Get(counts, p) + if p == pair then delta else 0
  {
    counts', ranking' := counts, ranking;
    var old_ := Get(counts, pair);
    if old_ > 0 {
      ranking' := ranking' - {Entry(old_, pair.0, pair.1)};
    }
    var new_ := old_ + delta;
    if new_ < 0 || new_ > Machine.U64_MAX {
      return false, counts', ranking';
    }
    if new_ == 0 {
      counts' := counts' - {pair};
    } else {
      counts' := counts'[pair := new_];
      ranking' := ranking' + {Entry(new_, pair.0, pair.1)};
    }
    assert forall e: Entry :: e.Pair() == pair <==> e == Entry(e.count, pair.0, pair.1);
    return true, counts', ranking';
  }

  ghost predicate Noted(occurrences: Occurrences, p: Pair, x: nat)
  {
    p in occurrences && x in occurrences[p]
  }

  method Push(occurrences: Occurrences, p: Pair, x: nat) returns (occurrences': Occurrences)
    ensures forall q, y :: Noted(occurrences', q, y) <==> Noted(occurrences, q, y) || (q == p && y == x)
  {
    if p in occurrences {
      occurrences' := occurrences[p := occurrences[p] + [x]];
    } else {
      occurrences' := occurrences[p := [x]];
    }
  }

  // What the linked list says about the surroundings of a pair.
  ghost predicate Neighbours(tokens: seq<nat>, before: nat, after: nat, pre: seq<nat>, suf: seq<nat>)
  {
    && (before == NONE <==> pre == [])
    && (pre != [] ==> before < |tokens| && tokens[before] == pre[|pre| - 1])
    && (after == NONE <==> suf == [])
    && (suf != [] ==> after < |tokens| && tokens[after] == suf[0])
  }

  method ForgetPairs(tokens: seq<nat>, before: nat, p: Pair, after: nat, counts: Counts, ranking: Ranking,
                     ghost pre: seq<nat>, ghost suf: seq<nat>)
    returns (counts': Counts, ranking': Ranking)
    requires Neighbours(tokens, before, after, pre, suf)
    requires Ranked(counts, ranking)
    requires forall q :: Destroyed(pre, p.0, p.1, suf, q) <= Get(counts, q) <= NONE
    ensures Ranked(counts', ranking')
    ensures forall q :: Get(counts', q) == Get(counts, q) - Destroyed(pre, p.0, p.1, suf, q)
  {
    counts', ranking' := counts, ranking;
    var ok;
    if before != NONE {
      assert Destroyed(pre, p.0, p.1, suf, (tokens[before], p.0)) <= Get(counts, (tokens[before], p.0));
      ok, counts', ranking' := AdjustCount((tokens[before], p.0), -1, counts', ranking');
      assert ok;
    }
    assert Destroyed(pre, p.0, p.1, suf, p) <= Get(counts, p);
    ok, counts', ranking' := AdjustCount(p, -1, counts', ranking');
    assert ok;
    if after != NONE {
      assert Destroyed(pre, p.0, p.1, suf, (p.1, tokens[after])) <= Get(counts, (p.1, tokens[after]));
      ok, counts', ranking' := AdjustCount((p.1, tokens[after]), -1, counts', ranking');
      assert ok;
    }
  }

  method AddOccurrence(pair: Pair, start: nat, counts: Counts, occurrences: Occurrences, ranking: Ranking)
    returns (ok: bool, counts': Counts, occurrences': Occurrences, ranking': Ranking)
    requires Ranked(counts, ranking)
    ensures ok <==> Get(counts, pair) + 1 <= Machine.U64_MAX
    ensures ok ==> Ranked(counts', ranking')
    ensures ok ==> forall p :: Get(counts', p) == Get(counts, p) + if p == pair then 1 else 0
    ensures ok ==> forall q, y :: Noted(occurrences', q, y) <==> Noted(occurrences, q, y) || (q == pair && y == start)
  {
    occurrences' := occurrences;
    ok, counts', ranking' := AdjustCount(pair, 1, counts, ranking);
    if ok {
      occurrences' := Push(occurrences, pair, start);
    }
  }

  method AddPairs(tokens: seq<nat>, before: nat, left: nat, id: nat, after: nat,
                  counts: Counts, occurrences: Occurrences, ranking: Ranking,
                  ghost pre: seq<nat>, ghost suf: seq<nat>)
    returns (counts': Counts, occurrences': Occurrences, ranking': Ranking)
    requires Neighbours(tokens, before, after, pre, suf)
    requires Ranked(counts, ranking)
    requires forall q :: Get(counts, q) <= NONE
    ensures Ranked(counts', ranking')
    ensures forall q :: Get(counts', q) == Get(counts, q) + Created(pre, id, suf, q)
    ensures forall q, y :: Noted(occurrences, q, y) ==> Noted(occurrences', q, y)
    ensures forall q, y :: Noted(occurrences', q, y) ==>
      Noted(occurrences, q, y) || (y == before && before != NONE) || y == left
    ensures pre != [] ==> Noted(occurrences', (pre[|pre| - 1], id), before)
    ensures suf != [] ==> Noted(occurrences', (id, suf[0]), left)
  {
    counts', occurrences', ranking' := counts, occurrences, ranking;
    var ok;
    if before != NONE {
      ok, counts', occurrences', ranking' :=
        AddOccurrence((tokens[before], id), before, counts', occurrences', ranking');
      assert ok;
    }
    if after != NONE {
      ok, counts', occurrences', ranking' :=
        AddOccurrence((id, tokens[after]), left, counts', occurrences', ranking');
      assert ok;
    }
  }

  // ----- the ranking -----

  lemma {:induction false} FirstOf(ranking: Ranking) returns (e: Entry)
    requires ranking != {}
    ensures e in ranking && forall f :: f in ranking ==> f == e || e.Precedes(f)
  {
    var x :| x in ranking;
    var rest := ranking - {x};
    if rest == {} {
      e := x;
    } else {
      var m := FirstOf(rest);
      e := if x.Precedes(m) then x else m;
    }
    assert forall f :: f in ranking ==> f == x || f in rest;
  }

  /** First of the ordered set. */
  method First(ranking: Ranking) returns (e: Option<Entry>)
    ensures e.None? <==> ranking == {}
    ensures e.Some? ==> e.value in ranking && forall f :: f in ranking ==> f == e.value || e.value.Precedes(f)
  {
    if ranking == {} {
      return None;
    }
    ghost var m := FirstOf(ranking);
    var first :| first in ranking && forall f :: f in ranking ==> f == first || first.Precedes(f);
    return Some(first);
  }

  lemma {:induction false} FirstIsBest(docs: seq<seq<nat>>, counts: Counts, ranking: Ranking, e: Entry)
    requires Counted(docs, counts) && Ranked(counts, ranking)
    requires e in ranking && forall f :: f in ranking ==> f == e || e.Precedes(f)
    ensures Best(docs) == Some(e.Pair()) && Total(docs, e.Pair()) == e.count > 0
  {
    assert Get(counts, e.Pair()) == Total(docs, e.Pair());
    forall q | Total(docs, q) > 0
      ensures q == e.Pair() || Outranks(Total(docs, e.Pair()), e.Pair(), Total(docs, q), q)
    {
      assert Get(counts, q) == Total(docs, q);
      assert Entry(counts[q], q.0, q.1) in ranking;
    }
    BestIsUnique(docs, e.Pair());
  }

  lemma {:induction false} EmptyHasNoBest(docs: seq<seq<nat>>, counts: Counts, ranking: Ranking)
    requires Counted(docs, counts) && Ranked(counts, ranking) && ranking == {}
    ensures Best(docs).None?
  {
    BestIsBest(docs);
    forall q ensures Total(docs, q) == 0 {
      assert Get(counts, q) == Total(docs, q);
      assert Entry(Get(counts, q), q.0, q.1) !in ranking;
    }
  }
}
