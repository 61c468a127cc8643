/** Loading training spans in index order, with cancellation and failure. */
module SpanLoader {
  import opened CorpusSplit
  import opened Machine
  import opened Outcomes
  import opened SequenceIndex

  datatype LoadError =
    | CapacityInvalid
    | SequenceOrderInvalid
    | SequenceAccountingOverflow
    | Cancelled
    | LengthMismatch
    | Other(code: nat)

  datatype LoadedSpan = LoadedSpan(split: Split, sequence: nat, firstId: nat, validTargets: nat, tokenIds: seq<nat>)
  {
    function InputIds(): seq<nat>
      requires validTargets <= |tokenIds|
    {
      tokenIds[..validTargets]
    }

    function TargetIds(): seq<nat>
      requires validTargets < |tokenIds|
    {
      tokenIds[1..validTargets + 1]
    }
  }

  // ----- the index a loader accepts -----

  /** Accepts exactly the contiguous indexes. */
  method CheckIndex(entries: seq<Entry>) returns (r: Result<(), LoadError>)
    ensures r.Ok? <==> Contiguous(entries)
    ensures r.Err? ==> r.error == SequenceOrderInvalid || r.error == SequenceAccountingOverflow
  {
    var expectedSequence, expectedFirst, i := 0, 0, 0;
    while i < |entries|
      invariant i <= |entries| && expectedSequence == i <= U64_MAX
      invariant expectedFirst == Targets(entries, i) <= U64_MAX
      invariant forall j :: 0 <= j < i ==> EntryFits(entries, j)
    {
      var e := entries[i];
      if e.sequence != expectedSequence || e.firstId != expectedFirst || e.validTargets == 0
         || e.validTargets > SEQUENCE_TARGETS || e.logicalIds != e.validTargets + 1
      {
        assert !EntryFits(entries, i);
        return Err(SequenceOrderInvalid);
      }
      TargetsGrow(entries, i + 1, |entries|);
      if expectedSequence + 1 > U64_MAX || expectedFirst + e.validTargets > U64_MAX {
        return Err(SequenceAccountingOverflow);
      }
      expectedSequence := expectedSequence + 1;
      expectedFirst := expectedFirst + e.validTargets;
      i := i + 1;
    }
    r := Ok(());
  }

  // ----- the world outside -----

  /** Where tokens come from: the answer to each read and to each look at the
      cancellation flag is arbitrary, and may differ from call to call. */
  class Source {
    const read: (nat, nat) -> Result<seq<nat>, LoadError>
    const cancelled: nat -> bool
    var readCount: nat
    var pollCount: nat

    constructor (read: (nat, nat) -> Result<seq<nat>, LoadError>, cancelled: nat -> bool)
      ensures this.read == read && this.cancelled == cancelled && readCount == 0 && pollCount == 0
    {
      this.read, this.cancelled := read, cancelled;
      readCount, pollCount := 0, 0;
    }

    method IsCancelled() returns (b: bool)
      modifies `pollCount
      ensures b == cancelled(old(pollCount)) && pollCount == old(pollCount) + 1
    {
      b := cancelled(pollCount);
      pollCount := pollCount + 1;
    }

    method ReadSequence(sequence: nat) returns (r: Result<seq<nat>, LoadError>)
      modifies `readCount
      ensures r == read(sequence, old(readCount)) && readCount == old(readCount) + 1
    {
      r := read(sequence, readCount);
      readCount := readCount + 1;
    }
  }

  /** The span for an entry, as the source's k-th read delivered it. */
  ghost predicate SpanOf(read: (nat, nat) -> Result<seq<nat>, LoadError>, span: LoadedSpan, e: Entry, k: nat) {
    && span.split == e.split && span.sequence == e.sequence && span.firstId == e.firstId
    && span.validTargets == e.validTargets && |span.tokenIds| == e.logicalIds
    && read(e.sequence, k) == Ok(span.tokenIds)
  }

  /** The spans of the first entries, in index order. */
  ghost predicate SpansOf(read: (nat, nat) -> Result<seq<nat>, LoadError>, spans: seq<LoadedSpan>,
      entries: seq<Entry>)
  {
    |spans| <= |entries| && forall i :: 0 <= i < |spans| ==> SpanOf(read, spans[i], entries[i], i)
  }

  // ----- the loader -----

  class Loader {
    const source: Source
    const entries: seq<Entry>
    const split: Split
    const capacity: nat
    var nextEntry: nat
    var buffer: seq<LoadedSpan>
    var terminal: bool
    ghost var emitted: seq<LoadedSpan>
    ghost var failed: bool

    ghost predicate Valid()
      reads this, source
    {
      && 0 < capacity && |buffer| <= capacity && nextEntry <= |entries|
      && Contiguous(entries) && (forall i :: 0 <= i < |entries| ==> entries[i].split == split)
      && SpansOf(source.read, emitted + buffer, entries)
      && (!terminal ==> |emitted| + |buffer| == nextEntry == source.readCount)
      && (terminal ==> buffer == [] && (failed || |emitted| == |entries|))
      && (failed ==> terminal)
    }

    /** The newest answer from outside explains the error. */
    ghost predicate Blame(e: LoadError)
      reads this, source
    {
      || (e == Cancelled && source.pollCount > 0 && source.cancelled(source.pollCount - 1))
      || (&& nextEntry < |entries| && source.readCount > 0
          && var answer := source.read(entries[nextEntry].sequence, source.readCount - 1);
             if answer.Err? then e == answer.error
             else e == LengthMismatch && |answer.value| != entries[nextEntry].logicalIds)
    }

    constructor (source: Source, entries: seq<Entry>, split: Split, capacity: nat)
      requires capacity > 0 && Contiguous(entries) && source.readCount == 0
      requires forall i :: 0 <= i < |entries| ==> entries[i].split == split
      ensures Valid() && !terminal && !failed && emitted == [] && buffer == []
      ensures this.source == source && this.entries == entries && this.split == split && this.capacity == capacity
    {
      this.source, this.entries, this.split, this.capacity := source, entries, split, capacity;
      nextEntry, buffer, terminal, emitted, failed := 0, [], false, [], false;
    }

    method Fail()
      requires Valid()
      modifies this
      ensures Valid() && terminal && failed && buffer == []
      ensures emitted == old(emitted) && nextEntry == old(nextEntry)
    {
      assert emitted == (emitted + buffer)[..|emitted|];
      buffer, terminal, failed := [], true, true;
      assert emitted + [] == emitted;
    }

    method RequireActive() returns (r: Result<(), LoadError>)
      requires Valid()
      modifies this, source`pollCount
      ensures Valid() && source.pollCount == old(source.pollCount) + 1
      ensures emitted == old(emitted) && nextEntry == old(nextEntry)
      ensures r.Ok? <==> !source.cancelled(old(source.pollCount))
      ensures r.Ok? ==> unchanged(this)
      ensures r.Err? ==> r.error == Cancelled && failed
    {
      var stop := source.IsCancelled();
      if stop {
        Fail();
        return Err(Cancelled);
      }
      r := Ok(());
    }

    method LoadNext() returns (r: Result<(), LoadError>)
      requires Valid() && !terminal && |buffer| < capacity && nextEntry < |entries|
      modifies this, source`readCount
      ensures Valid() && emitted == old(emitted)
      ensures r.Ok? ==> !terminal && nextEntry == old(nextEntry) + 1 && |buffer| == old(|buffer|) + 1
      ensures r.Ok? ==> buffer[..old(|buffer|)] == old(buffer)
      ensures r.Err? ==> failed && Blame(r.error)
    {
      var e := entries[nextEntry];
      var answer := source.ReadSequence(e.sequence);
      if answer.Err? {
        buffer, terminal, failed := [], true, true;
        assert emitted + buffer == (old(emitted) + old(buffer))[..|emitted|];
        return Err(answer.error);
      }
      if |answer.value| != e.logicalIds {
        buffer, terminal, failed := [], true, true;
        assert emitted + buffer == (old(emitted) + old(buffer))[..|emitted|];
        return Err(LengthMismatch);
      }
      buffer := buffer + [LoadedSpan(split, e.sequence, e.firstId, e.validTargets, answer.value)];
      nextEntry := nextEntry + 1;
      assert emitted + buffer == (old(emitted) + old(buffer)) + [buffer[|buffer| - 1]];
      r := Ok(());
    }

    method Fill() returns (r: Result<(), LoadError>)
      requires Valid() && !terminal
      modifies this, source
      ensures Valid() && emitted == old(emitted)
      ensures r.Ok? ==> !terminal && old(buffer) <= buffer
      ensures r.Ok? ==> |buffer| == capacity || nextEntry == |entries|
      ensures r.Ok? ==> source.pollCount > old(source.pollCount) && NotCancelled(old(source.pollCount), source.pollCount)
      ensures r.Err? ==> failed && Blame(r.error)
    {
      r := RequireActive();
      if r.Err? {
        return;
      }
      while |buffer| < capacity && nextEntry < |entries|
        invariant Valid() && !terminal && emitted == old(emitted) && old(buffer) <= buffer
        invariant source.pollCount > old(source.pollCount) && NotCancelled(old(source.pollCount), source.pollCount)
        decreases |entries| - nextEntry
      {
        r := RequireActive();
        if r.Err? {
          return;
        }
        r := LoadNext();
        if r.Err? {
          return;
        }
      }
      r := Ok(());
    }

    ghost predicate NotCancelled(from: nat, to: nat)
      reads this
    {
      forall p: nat :: from <= p < to ==> !source.cancelled(p)
    }

    /** The next span in index order; None only once every span is out, or after
        a failure was reported. */
    method NextSpan() returns (r: Result<Option<LoadedSpan>, LoadError>)
      requires Valid()
      modifies this, source
      ensures Valid()
      ensures old(terminal) ==> r == Ok(None) && unchanged(this) && unchanged(source)
      ensures !old(terminal) && r == Ok(None) ==> terminal && !failed && emitted == old(emitted)
      ensures r.Ok? && r.value.Some? ==> !terminal && emitted == old(emitted) + [r.value.value]
      ensures !old(terminal) && r.Ok? ==> NotCancelled(old(source.pollCount), source.pollCount)
      ensures r.Err? ==> !old(terminal) && failed && Blame(r.error) && emitted == old(emitted)
    {
      if terminal {
        return Ok(None);
      }
      var filled := Fill();
      if filled.Err? {
        return Err(filled.error);
      }
      if buffer != [] {
        var span := buffer[0];
        assert emitted + buffer == (emitted + [span]) + buffer[1..];
        buffer, emitted := buffer[1..], emitted + [span];
        return Ok(Some(span));
      }
      if nextEntry == |entries| {
        terminal, failed := true, false;
      }
      r := Ok(None);
    }
  }

  /** Opens a loader on the split's part of the index. */
  method Open(source: Source, all: seq<Entry>, split: Split, capacity: nat)
    returns (r: Result<Loader, LoadError>)
    requires source.readCount == 0
    ensures r.Ok? <==> capacity > 0 && Contiguous(OfSplit(all, split))
    ensures r.Err? && r.error == CapacityInvalid <==> capacity == 0
    ensures r.Ok? ==> fresh(r.value) && r.value.Valid() && !r.value.terminal && !r.value.failed
    ensures r.Ok? ==> r.value.emitted == [] && r.value.source == source && r.value.capacity == capacity
    ensures r.Ok? ==> r.value.entries == OfSplit(all, split)
  {
    if capacity == 0 {
      return Err(CapacityInvalid);
    }
    var entries := OfSplit(all, split);
    var checked := CheckIndex(entries);
    if checked.Err? {
      return Err(checked.error);
    }
    PartSelects(all, EntrySplit, split);
    assert forall i :: 0 <= i < |entries| ==> EntrySplit(entries[i]) == split;
    var loader := new Loader(source, entries, split, capacity);
    r := Ok(loader);
  }
}
