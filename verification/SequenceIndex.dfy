/** The sequence index: fixed-length training spans over each split's stream. */
module SequenceIndex {
  import opened CorpusSplit
  import opened Machine

  const SEQUENCE_TARGETS: nat := 2_048

  datatype Entry = Entry(split: Split, sequence: nat, firstId: nat, logicalIds: nat, validTargets: nat)

  function EntrySplit(e: Entry): Split { e.split }

  /** One split's spans. */
  function OfSplit(entries: seq<Entry>, split: Split): seq<Entry> {
    Part(entries, EntrySplit, split)
  }

  ghost function Targets(entries: seq<Entry>, n: nat): nat
    requires n <= |entries|
  {
    if n == 0 then 0 else Targets(entries, n - 1) + entries[n - 1].validTargets
  }

  ghost predicate EntryFits(entries: seq<Entry>, i: nat)
    requires i < |entries|
  {
    var e := entries[i];
    && e.sequence == i && e.firstId == Targets(entries, i)
    && 0 < e.validTargets <= SEQUENCE_TARGETS && e.logicalIds == e.validTargets + 1
  }

  /** Sequences numbered from 0 whose targets follow each other without a gap. */
  ghost predicate Contiguous(entries: seq<Entry>) {
    && (forall i :: 0 <= i < |entries| ==> EntryFits(entries, i))
    && |entries| <= U64_MAX && Targets(entries, |entries|) <= U64_MAX
  }

  lemma {:induction false} TargetsGrow(entries: seq<Entry>, m: nat, n: nat)
    requires m <= n <= |entries|
    ensures Targets(entries, m) <= Targets(entries, n)
    decreases n - m
  {
    if m < n {
      TargetsGrow(entries, m, n - 1);
    }
  }

  // ----- building -----

  /** The i-th span of a stream with that many targets. */
  function SpanAt(split: Split, targets: nat, i: nat): Entry
    requires i * SEQUENCE_TARGETS < targets
  {
    var valid := Least(targets - i * SEQUENCE_TARGETS, SEQUENCE_TARGETS);
    Entry(split, i, i * SEQUENCE_TARGETS, valid + 1, valid)
  }

  function SpanCount(targets: nat): (n: nat)
    ensures (n - 1) * SEQUENCE_TARGETS < targets <= n * SEQUENCE_TARGETS || n == targets == 0
  {
    (targets + SEQUENCE_TARGETS - 1) / SEQUENCE_TARGETS
  }

  function Tiling(split: Split, targets: nat): (entries: seq<Entry>)
    ensures |entries| == SpanCount(targets)
  {
    seq(SpanCount(targets), i requires 0 <= i < SpanCount(targets) => SpanAt(split, targets, i))
  }

  /** A stream of n ids offers each id but the first as a target. */
  function TargetsOf(ids: nat): nat {
    if ids == 0 then 0 else ids - 1
  }

  /** The spans of one split's usable ids, appended to the index. */
  method AppendSpans(entries: seq<Entry>, split: Split, usable: nat) returns (r: seq<Entry>)
    ensures r == entries + Tiling(split, TargetsOf(usable))
  {
    ghost var tiling := Tiling(split, TargetsOf(usable));
    var added: seq<Entry> := [];
    var firstId, sequence := 0, 0;
    while firstId + 1 < usable
      invariant sequence == |added| <= |tiling| && added == tiling[..sequence]
      invariant firstId == Least(sequence * SEQUENCE_TARGETS, TargetsOf(usable))
      decreases usable - firstId
    {
      var valid := Least(usable - firstId - 1, SEQUENCE_TARGETS);
      added := added + [Entry(split, sequence, firstId, valid + 1, valid)];
      assert added[sequence] == tiling[sequence];
      firstId := firstId + valid;
      sequence := sequence + 1;
    }
    assert added == tiling;
    r := entries + added;
  }

  lemma {:induction false} TilingTargets(split: Split, targets: nat, n: nat)
    requires n <= SpanCount(targets)
    ensures Targets(Tiling(split, targets), n) == Least(n * SEQUENCE_TARGETS, targets)
    decreases n
  {
    if n > 0 {
      TilingTargets(split, targets, n - 1);
    }
  }

  /** The tiling is a contiguous index that covers every target once. */
  lemma {:induction false} TilingCovers(split: Split, targets: nat)
    requires targets <= U64_MAX
    ensures Contiguous(Tiling(split, targets))
    ensures Targets(Tiling(split, targets), SpanCount(targets)) == targets
    ensures forall i :: 0 <= i < SpanCount(targets) ==> Tiling(split, targets)[i].split == split
    ensures forall i :: 0 <= i < SpanCount(targets) ==>
      Tiling(split, targets)[i].validTargets == if i + 1 < SpanCount(targets) then 2_048 else targets - 2_048 * i
  {
    var entries := Tiling(split, targets);
    TilingTargets(split, targets, |entries|);
    forall i | 0 <= i < |entries| ensures EntryFits(entries, i) {
      TilingTargets(split, targets, i);
    }
  }

  // ----- checking -----

  /** Contiguous spans that stay within the usable ids and cover all targets. */
  ghost predicate CoversUsable(entries: seq<Entry>, usable: nat) {
    Contiguous(entries) && Targets(entries, |entries|) == TargetsOf(usable)
  }

  /** Accepts the spans of one split exactly when they cover its usable ids. */
  method ValidateSpans(entries: seq<Entry>, usable: nat) returns (ok: bool)
    requires usable <= U64_MAX
    ensures ok <==> CoversUsable(entries, usable)
  {
    var expectedFirst, i := 0, 0;
    while i < |entries|
      invariant i <= |entries| && expectedFirst == Targets(entries, i) && i <= expectedFirst
      invariant forall j :: 0 <= j < i ==> EntryFits(entries, j)
      invariant 0 < i ==> expectedFirst < usable
    {
      var e := entries[i];
      TargetsGrow(entries, i + 1, |entries|);
      if e.sequence != i || e.firstId != expectedFirst || e.logicalIds != e.validTargets + 1
         || e.validTargets == 0 || e.validTargets > SEQUENCE_TARGETS
      {
        assert !EntryFits(entries, i);
        return false;
      }
      if e.firstId + e.logicalIds > usable {
        assert Targets(entries, i + 1) > TargetsOf(usable);
        return false;
      }
      expectedFirst := expectedFirst + e.validTargets;
      i := i + 1;
    }
    ok := expectedFirst == TargetsOf(usable);
  }

  /** Neighbouring spans share exactly one id: the last of one is the first of the
      next. */
  lemma {:induction false} NeighboursShareOneId(entries: seq<Entry>, i: nat)
    requires Contiguous(entries) && i + 1 < |entries|
    ensures entries[i].firstId + entries[i].logicalIds == entries[i + 1].firstId + 1
  {
    assert EntryFits(entries, i) && EntryFits(entries, i + 1);
  }
}
