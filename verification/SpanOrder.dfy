/**
Training span order: building it from a stream of 64-bit draws, the check every
order passes before it is published, and why a checked order tiles the targets.
*/
module SpanOrder {
  import opened Draws
  import opened Machine
  import opened Shuffle

  const TARGET_SPAN: nat := 2_048

  datatype Span = Span(order: nat, first: nat, targets: nat)

  datatype Manifest = OperandsInvalid | Manifest(validTargets: nat, complete: nat, spans: seq<Span>)

  // ----- the order drawn -----

  function Offsets(count: nat): (s: seq<nat>)
    ensures |s| == count && forall i :: 0 <= i < count ==> s[i] == i * TARGET_SPAN
  {
    seq(count, i requires 0 <= i => i * TARGET_SPAN)
  }

  /** Where the draw for position i starts. */
  function Resume(at: seq<nat>, i: nat): nat
    requires i < |at|
  {
    if i + 1 == |at| then 0 else at[i + 1] + 1
  }

  /** Choice i is made by the first draw accepted after the one for i + 1. */
  ghost predicate DrawnAt(draws: nat -> nat, c: seq<nat>, at: seq<nat>, i: nat)
    requires |c| == |at| && 1 <= i < |c| < U64
  {
    FirstAccepted(draws, i + 1, Resume(at, i), at[i]) && c[i] == draws(at[i]) % (i + 1)
  }

  ghost predicate Drawn(draws: nat -> nat, c: seq<nat>, at: seq<nat>, from: nat)
  {
    && |c| == |at| < U64 && Choices(c) && 1 <= from
    && forall i :: from <= i < |c| ==> DrawnAt(draws, c, at, i)
  }

  // One position's choice is added below the ones already made.
  lemma {:induction false} DrawnMore(draws: nat -> nat, c: seq<nat>, at: seq<nat>, i: nat, choice: nat, q: nat)
    requires Drawn(draws, c, at, i + 1) && 1 <= i < |c|
    requires FirstAccepted(draws, i + 1, Resume(at, i), q) && choice == draws(q) % (i + 1)
    ensures Drawn(draws, c[i := choice], at[i := q], i)
  {
    var d, b := c[i := choice], at[i := q];
    forall j | i <= j < |d| ensures DrawnAt(draws, d, b, j) {
      if j > i {
        assert DrawnAt(draws, c, at, j);
        assert Resume(b, j) == Resume(at, j);
      }
    }
  }

  /** The whole swap loop: the offsets end up shuffled by the drawn choices. */
  method DrawOrder(draws: nat -> nat, count: nat)
    returns (order: seq<nat>, ghost c: seq<nat>, ghost at: seq<nat>)
    requires count < U64 && Fair(draws, count)
    ensures |c| == count && Drawn(draws, c, at, 1)
    ensures order == Shuffled(Offsets(count), c)
  {
    order := Offsets(count);
    ghost var offsets := order;
    c := seq(count, _ => 0);
    at := seq(count, _ => 0);
    var i := count;
    var position := 0;
    while i > 1
      invariant i <= count && |c| == |at| == |order| == count
      invariant Drawn(draws, c, at, if i == 0 then 1 else i)
      invariant order == SwapDown(offsets, c, i)
      invariant 0 < i ==> position == Resume(at, i - 1)
    {
      i := i - 1;
      assert Passes(draws, i + 1, position);
      var value, q := Accept(draws, i + 1, position);
      var choice := value % (i + 1);
      position := q + 1;
      DrawnMore(draws, c, at, i, choice, q);
      SwapDownLocal(offsets, c, c[i := choice], i + 1);
      order := Swap(order, i, choice);
      c, at := c[i := choice], at[i := q];
    }
    SwapDownIsShuffled(offsets, c);
    if count == 0 {
      assert SwapDown(offsets, c, 0) == SwapDown(offsets, c, 1);
    }
  }

  // ----- the check -----

  predicate Whole(s: Span) {
    s.targets == TARGET_SPAN
  }

  ghost predicate SpanFits(spans: seq<Span>, validTargets: nat, count: nat, i: nat)
    requires i < |spans|
  {
    var s := spans[i];
    && s.order == i && s.first < validTargets && 0 < s.targets <= TARGET_SPAN
    && (if Whole(s) then s.first % TARGET_SPAN == 0
        else i + 1 == |spans| && s.first == count * TARGET_SPAN)
  }

  ghost function WholeOffsets(spans: seq<Span>, n: nat): set<nat>
    requires n <= |spans|
  {
    set i | 0 <= i < n && Whole(spans[i]) :: spans[i].first
  }

  ghost predicate WholeDistinct(spans: seq<Span>, n: nat)
    requires n <= |spans|
  {
    forall i, j :: 0 <= i < j < n && Whole(spans[i]) && Whole(spans[j]) ==> spans[i].first != spans[j].first
  }

  ghost function Sum(spans: seq<Span>, n: nat): nat
    requires n <= |spans|
  {
    if n == 0 then 0 else Sum(spans, n - 1) + spans[n - 1].targets
  }

  lemma {:induction false} SumGrows(spans: seq<Span>, m: nat, n: nat)
    requires m <= n <= |spans|
    ensures Sum(spans, m) <= Sum(spans, n)
    decreases n - m
  {
    if m < n {
      SumGrows(spans, m, n - 1);
    }
  }

  function OffsetSet(count: nat): set<nat> {
    set i | 0 <= i < count :: i * TARGET_SPAN
  }

  /** What the check accepts. */
  ghost predicate IsSpanOrder(spans: seq<Span>, validTargets: nat, count: nat)
  {
    && (forall i :: 0 <= i < |spans| ==> SpanFits(spans, validTargets, count, i))
    && WholeDistinct(spans, |spans|)
    && WholeOffsets(spans, |spans|) == OffsetSet(count)
    && Sum(spans, |spans|) == validTargets
  }

  lemma {:induction false} WholeOffsetsNext(spans: seq<Span>, n: nat)
    requires n < |spans|
    ensures WholeOffsets(spans, n + 1)
         == if Whole(spans[n]) then WholeOffsets(spans, n) + {spans[n].first} else WholeOffsets(spans, n)
    ensures WholeDistinct(spans, n)
         ==> (WholeDistinct(spans, n + 1) <==> !Whole(spans[n]) || spans[n].first !in WholeOffsets(spans, n))
  {
  }

  /** Accepts exactly the span orders. The running total is refused where it
      would leave 64 bits. */
  method Validate(validTargets: nat, count: nat, spans: seq<Span>) returns (ok: bool)
    requires validTargets < U64
    ensures ok <==> IsSpanOrder(spans, validTargets, count)
  {
    var complete: set<nat> := {};
    var observed := 0;
    var i := 0;
    while i < |spans|
      invariant i <= |spans|
      invariant forall j :: 0 <= j < i ==> SpanFits(spans, validTargets, count, j)
      invariant WholeDistinct(spans, i) && complete == WholeOffsets(spans, i)
      invariant observed == Sum(spans, i)
    {
      var s := spans[i];
      WholeOffsetsNext(spans, i);
      if s.order != i || s.first >= validTargets || s.targets == 0 || s.targets > TARGET_SPAN {
        assert !SpanFits(spans, validTargets, count, i);
        return false;
      }
      observed := observed + s.targets;
      if observed >= U64 {
        SumGrows(spans, i + 1, |spans|);
        return false;
      }
      if Whole(s) {
        if s.first % TARGET_SPAN != 0 {
          assert !SpanFits(spans, validTargets, count, i);
          return false;
        }
        if s.first in complete {
          assert !WholeDistinct(spans, i + 1);
          return false;
        }
        complete := complete + {s.first};
      } else if i + 1 != |spans| || s.first != count * TARGET_SPAN {
        assert !SpanFits(spans, validTargets, count, i);
        return false;
      }
      i := i + 1;
    }
    ok := complete == OffsetSet(count) && observed == validTargets;
  }

  // ----- building -----

  /** What the order lists: the shuffled whole spans, then the rest if any. */
  function Listed(order: seq<nat>, rest: nat): (spans: seq<Span>)
    ensures |spans| == |order| + if rest > 0 then 1 else 0
    ensures forall i :: 0 <= i < |order| ==> spans[i] == Span(i, order[i], TARGET_SPAN)
    ensures rest > 0 ==> spans[|order|] == Span(|order|, |order| * TARGET_SPAN, rest)
  {
    seq(|order|, i requires 0 <= i < |order| => Span(i, order[i], TARGET_SPAN))
    + if rest > 0 then [Span(|order|, |order| * TARGET_SPAN, rest)] else []
  }

  lemma {:induction false} SumListed(order: seq<nat>, rest: nat, n: nat)
    requires n <= |order|
    ensures Sum(Listed(order, rest), n) == n * TARGET_SPAN
    decreases n
  {
    if n > 0 {
      SumListed(order, rest, n - 1);
    }
  }

  lemma {:induction false} SameMembers(a: seq<nat>, b: seq<nat>, x: nat)
    requires multiset(a) == multiset(b)
    ensures x in a <==> x in b
  {
    assert x in multiset(a) <==> x in a;
    assert x in multiset(b) <==> x in b;
  }

  lemma {:induction false} DistinctCounts(s: seq<nat>, x: nat)
    requires Distinct(s)
    ensures multiset(s)[x] <= 1
    decreases |s|
  {
    if |s| > 0 {
      var n := |s| - 1;
      assert s == s[..n] + [s[n]];
      DistinctCounts(s[..n], x);
      if x == s[n] {
        assert x !in s[..n];
        assert multiset(s[..n])[x] == 0;
      }
    }
  }

  lemma {:induction false} TwiceCounts(s: seq<nat>, i: nat, j: nat)
    requires i < j < |s| && s[i] == s[j]
    ensures multiset(s)[s[i]] >= 2
  {
    assert s == s[..j] + s[j..];
    assert s[i] in s[..j] && s[j] in s[j..];
    assert multiset(s[..j])[s[i]] >= 1;
    assert multiset(s[j..])[s[i]] >= 1;
  }

  lemma {:induction false} PermutationDistinct(s: seq<nat>, r: seq<nat>)
    requires Distinct(s) && multiset(s) == multiset(r)
    ensures Distinct(r)
  {
    forall i, j | 0 <= i < j < |r| ensures r[i] != r[j] {
      if r[i] == r[j] {
        DistinctCounts(s, r[i]);
        TwiceCounts(r, i, j);
      }
    }
  }

  // An order of the whole offsets.
  ghost predicate OrdersOffsets(order: seq<nat>, count: nat)
  {
    && |order| == count && Distinct(order)
    && forall x :: x in order <==> x in OffsetSet(count)
  }

  lemma {:induction false} ShuffledOrdersOffsets(count: nat, c: seq<nat>)
    requires |c| == count && Choices(c)
    ensures OrdersOffsets(Shuffled(Offsets(count), c), count)
  {
    var s, r := Offsets(count), Shuffled(Offsets(count), c);
    ShuffledIsPermutation(s, c);
    PermutationDistinct(s, r);
    forall x ensures x in r <==> x in OffsetSet(count) {
      SameMembers(s, r, x);
      if x in OffsetSet(count) {
        var i :| 0 <= i < count && x == i * TARGET_SPAN;
        assert s[i] == x;
      }
    }
  }

  lemma {:induction false} OffsetFits(x: nat, count: nat, rest: nat)
    requires x in OffsetSet(count)
    ensures x % TARGET_SPAN == 0 && x < count * TARGET_SPAN + rest
  {
  }

  lemma {:induction false} ListedFits(order: seq<nat>, rest: nat, i: nat)
    requires OrdersOffsets(order, |order|) && rest < TARGET_SPAN
    requires i < |Listed(order, rest)|
    ensures SpanFits(Listed(order, rest), |order| * TARGET_SPAN + rest, |order|, i)
  {
    if i < |order| {
      OffsetFits(order[i], |order|, rest);
    }
  }

  lemma {:induction false} ListedWhole(order: seq<nat>, rest: nat)
    requires OrdersOffsets(order, |order|) && rest < TARGET_SPAN
    ensures WholeOffsets(Listed(order, rest), |Listed(order, rest)|) == OffsetSet(|order|)
    ensures WholeDistinct(Listed(order, rest), |Listed(order, rest)|)
  {
    var spans := Listed(order, rest);
    assert forall i :: 0 <= i < |spans| ==> (Whole(spans[i]) <==> i < |order|);
    forall x | x in OffsetSet(|order|) ensures x in WholeOffsets(spans, |spans|) {
      assert x in order;
      var i :| 0 <= i < |order| && order[i] == x;
      assert Whole(spans[i]) && spans[i].first == x;
    }
  }

  /** Listing the whole offsets in any order, then the rest, passes the check. */
  lemma {:induction false} ListedIsSpanOrder(order: seq<nat>, rest: nat)
    requires OrdersOffsets(order, |order|) && rest < TARGET_SPAN
    ensures IsSpanOrder(Listed(order, rest), |order| * TARGET_SPAN + rest, |order|)
  {
    var spans, total, count := Listed(order, rest), |order| * TARGET_SPAN + rest, |order|;
    forall i | 0 <= i < |spans| ensures SpanFits(spans, total, count, i) {
      ListedFits(order, rest, i);
    }
    ListedWhole(order, rest);
    SumListed(order, rest, |order|);
  }

  /** Builds the order for a prefix of the training ids. Every prefix of at least
      two ids succeeds, for every generator that keeps passing the thresholds. */
  method Build(prefix: nat, draws: nat -> nat) returns (m: Manifest, ghost c: seq<nat>, ghost at: seq<nat>)
    requires prefix < U64 && Fair(draws, prefix / TARGET_SPAN)
    ensures m.OperandsInvalid? <==> prefix < 2
    ensures m.Manifest? ==>
      && m.validTargets == prefix - 1 && m.complete == m.validTargets / 2_048 == |c|
      && Drawn(draws, c, at, 1)
      && m.spans == Listed(Shuffled(Offsets(|c|), c), m.validTargets % TARGET_SPAN)
      && IsSpanOrder(m.spans, m.validTargets, m.complete)
  {
    c, at := [], [];
    if prefix < 2 {
      return OperandsInvalid, c, at;
    }
    var validTargets := prefix - 1;
    var complete := validTargets / TARGET_SPAN;
    var rest := validTargets % TARGET_SPAN;
    var order: seq<nat>;
    order, c, at := DrawOrder(draws, complete);
    var spans := Listed(order, rest);
    ShuffledOrdersOffsets(complete, c);
    ListedIsSpanOrder(order, rest);
    var ok := Validate(validTargets, complete, spans);
    assert ok;
    m := Manifest(validTargets, complete, spans);
  }

  // ----- what a checked order means -----

  predicate Holds(s: Span, t: nat) {
    s.first <= t < s.first + s.targets
  }

  lemma {:induction false} OffsetSetSize(count: nat)
    ensures |OffsetSet(count)| == count
  {
    if count > 0 {
      OffsetSetSize(count - 1);
      assert OffsetSet(count) == OffsetSet(count - 1) + {(count - 1) * TARGET_SPAN};
    }
  }

  // While only whole spans have been listed, the total is theirs.
  lemma {:induction false} WholeSum(spans: seq<Span>, n: nat)
    requires n <= |spans| && WholeDistinct(spans, n)
    requires forall i :: 0 <= i < n ==> Whole(spans[i])
    ensures Sum(spans, n) == |WholeOffsets(spans, n)| * TARGET_SPAN
    decreases n
  {
    if n > 0 {
      WholeSum(spans, n - 1);
      WholeOffsetsNext(spans, n - 1);
    } else {
      assert WholeOffsets(spans, 0) == {};
    }
  }

  /** The targets are the whole spans' and the rest, if one is listed, is last. */
  lemma {:induction false} SizesAddUp(spans: seq<Span>, validTargets: nat, count: nat)
    requires IsSpanOrder(spans, validTargets, count)
    ensures forall i :: 0 <= i < |spans| - 1 ==> spans[i].targets == 2_048
    ensures count == validTargets / TARGET_SPAN
    ensures validTargets % TARGET_SPAN > 0 ==>
      && |spans| > 0
      && spans[|spans| - 1].first == count * TARGET_SPAN
      && spans[|spans| - 1].targets == validTargets % TARGET_SPAN
  {
    OffsetSetSize(count);
    forall i | 0 <= i < |spans| - 1 ensures Whole(spans[i]) {
      assert SpanFits(spans, validTargets, count, i);
    }
    if |spans| > 0 && !Whole(spans[|spans| - 1]) {
      var n := |spans| - 1;
      WholeSum(spans, n);
      WholeOffsetsNext(spans, n);
      assert SpanFits(spans, validTargets, count, n);
    } else {
      WholeSum(spans, |spans|);
    }
  }

  lemma {:induction false} Covered(spans: seq<Span>, validTargets: nat, count: nat, t: nat) returns (i: nat)
    requires IsSpanOrder(spans, validTargets, count) && t < validTargets
    ensures i < |spans| && Holds(spans[i], t)
  {
    SizesAddUp(spans, validTargets, count);
    var k := t / TARGET_SPAN;
    if k < count {
      assert k * TARGET_SPAN in OffsetSet(count);
      assert k * TARGET_SPAN in WholeOffsets(spans, |spans|);
      i :| 0 <= i < |spans| && Whole(spans[i]) && spans[i].first == k * TARGET_SPAN;
    } else {
      i := |spans| - 1;
    }
  }

  lemma {:induction false} WholePlace(spans: seq<Span>, validTargets: nat, count: nat, i: nat, t: nat)
    requires IsSpanOrder(spans, validTargets, count) && i < |spans| && Whole(spans[i]) && Holds(spans[i], t)
    ensures spans[i].first == t / TARGET_SPAN * TARGET_SPAN && t < count * TARGET_SPAN
  {
    assert SpanFits(spans, validTargets, count, i);
    assert spans[i].first in WholeOffsets(spans, |spans|);
    var k :| 0 <= k < count && spans[i].first == k * TARGET_SPAN;
  }

  lemma {:induction false} HeldOnce(spans: seq<Span>, validTargets: nat, count: nat, t: nat, i: nat, j: nat)
    requires IsSpanOrder(spans, validTargets, count)
    requires i <= j < |spans| && Holds(spans[i], t) && Holds(spans[j], t)
    ensures i == j
  {
    if i < j {
      assert SpanFits(spans, validTargets, count, i);
      assert SpanFits(spans, validTargets, count, j);
      WholePlace(spans, validTargets, count, i, t);
      if Whole(spans[j]) {
        WholePlace(spans, validTargets, count, j, t);
      }
    }
  }

  /** An accepted order tiles the targets: every one of them lies in exactly one
      span, nothing else does, and only the last span listed can be short. */
  lemma {:induction false} AcceptedTiles(spans: seq<Span>, validTargets: nat, count: nat, t: nat)
    requires IsSpanOrder(spans, validTargets, count)
    ensures t < validTargets <==> exists i :: 0 <= i < |spans| && Holds(spans[i], t)
    ensures forall i, j :: 0 <= i < |spans| && 0 <= j < |spans| && Holds(spans[i], t) && Holds(spans[j], t)
              ==> i == j
    ensures forall i :: 0 <= i < |spans| - 1 ==> spans[i].targets == 2_048
  {
    SizesAddUp(spans, validTargets, count);
    if t < validTargets {
      var i := Covered(spans, validTargets, count, t);
    }
    forall i | 0 <= i < |spans| && Holds(spans[i], t) ensures t < validTargets {
      assert SpanFits(spans, validTargets, count, i);
      if Whole(spans[i]) {
        WholePlace(spans, validTargets, count, i, t);
      } else {
        ShortFits(spans, validTargets, count);
      }
    }
    forall i, j | 0 <= i < |spans| && 0 <= j < |spans| && Holds(spans[i], t) && Holds(spans[j], t)
      ensures i == j
    {
      if i <= j {
        HeldOnce(spans, validTargets, count, t, i, j);
      } else {
        HeldOnce(spans, validTargets, count, t, j, i);
      }
    }
  }

  lemma {:induction false} ShortFits(spans: seq<Span>, validTargets: nat, count: nat)
    requires IsSpanOrder(spans, validTargets, count)
    requires |spans| > 0 && !Whole(spans[|spans| - 1])
    ensures spans[|spans| - 1].first + spans[|spans| - 1].targets == validTargets
  {
    var n := |spans| - 1;
    OffsetSetSize(count);
    assert SpanFits(spans, validTargets, count, n);
    forall i | 0 <= i < n ensures Whole(spans[i]) {
      assert SpanFits(spans, validTargets, count, i);
    }
    WholeSum(spans, n);
    WholeOffsetsNext(spans, n);
  }
}
