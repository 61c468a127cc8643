/**
From a stored corpus to a device: the batches of a split, read through the loader and
the transfer pipeline, carry the stored stream.
*/
module Delivery {
  import opened CorpusSplit
  import opened Outcomes
  import opened SequenceIndex
  import opened Shards
  import opened SpanLoader
  import opened Streams
  import opened TokenCorpus
  import opened TransferPipeline
  import opened VerifiedCorpus

  /** A read that succeeds brings what the corpus answers. */
  ghost predicate ReadsCorpus(read: (nat, nat) -> Result<seq<nat>, LoadError>, stream: seq<nat>, split: Split, targets: nat) {
    forall sequence: nat, k: nat :: read(sequence, k).Ok? ==> AnswersSequence(Ok(read(sequence, k).value), stream, split, targets, sequence)
  }

  lemma {:induction false} CorpusReadsStream(m: Manifest, kept: seq<Document>, split: Split,
      read: (nat, nat) -> Result<seq<nat>, LoadError>)
    requires SpansUpTo(m.sequences, kept, 3) && Sound(kept, m.limits)
    requires ReadsCorpus(read, Stream(DocumentsOf(kept, split)), split, TargetsOf(Usable(kept, split)))
    ensures ReadsStream(read, OfSplit(m.sequences, split), Stream(DocumentsOf(kept, split)))
  {
    var entries, stream := OfSplit(m.sequences, split), Stream(DocumentsOf(kept, split));
    forall i | 0 <= i < |entries| ensures ReadsSlice(read, entries[i], stream, i) {
      SpanIsReadable(m, kept, split, entries[i]);
    }
  }

  /** Every span handed to the device pairs each id with the one that follows it, and
      the targets of the first n, joined in order, are the stream from its second id on. */
  ghost predicate CarriesStream(sent: seq<LoadedSpan>, entries: seq<Entry>, stream: seq<nat>, n: nat) {
    && n <= |sent| <= |entries| && (forall i :: 0 <= i < |sent| ==> Sliced(sent[i]) && Paired(sent[i], entries, stream, i))
    && (if stream == [] then n == 0
        else Targets(entries, n) < |stream| && JoinTargets(sent, n) == stream[1..Targets(entries, n) + 1])
  }

  ghost predicate Paired(span: LoadedSpan, entries: seq<Entry>, stream: seq<nat>, i: nat)
    requires i < |entries| && Sliced(span)
  {
    && Targets(entries, i) <= Targets(entries, i + 1) < |stream|
    && span.InputIds() == stream[Targets(entries, i)..Targets(entries, i + 1)]
    && span.TargetIds() == stream[Targets(entries, i) + 1..Targets(entries, i + 1) + 1]
  }

  lemma {:induction false} SentCarriesStream(read: (nat, nat) -> Result<seq<nat>, LoadError>, sent: seq<LoadedSpan>,
      entries: seq<Entry>, stream: seq<nat>, n: nat)
    requires Contiguous(entries) && SpansOf(read, sent, entries) && n <= |sent| && ReadsStream(read, entries, stream)
    ensures CarriesStream(sent, entries, stream, n)
  {
    AllSliced(read, sent, entries);
    forall i | 0 <= i < |sent| ensures Paired(sent[i], entries, stream, i) {
      assert EntryFits(entries, i) && SpanOf(read, sent[i], entries[i], i) && ReadsSlice(read, entries[i], stream, i);
      SpanTargets(read, sent[i], entries, stream, i);
    }
    assert n > 0 ==> Paired(sent[0], entries, stream, 0);
    if stream != [] {
      TargetsAreTheStream(read, sent, entries, stream, n);
    }
  }

  /** Transfers a split of a stored corpus to a device. Whatever the source, the flag and
      the device do, the batches delivered carry the stream's ids from the second on, and
      when the end is reached without an error they carry all usable ones. */
  method DeliverSplit(source: Source, m: Manifest, split: Split, capacity: nat, device: Device, maximum: nat, calls: nat,
      ghost kept: seq<Document>)
    returns (results: seq<Result<Option<nat>, LoadError>>, ghost delivered: nat, ghost error: Option<LoadError>)
    requires SpansUpTo(m.sequences, kept, 3) && Sound(kept, m.limits) && capacity > 0 && maximum > 0
    requires source.readCount == 0 && source as object != device
    requires device.sent == [] && device.waited == [] && device.cancelled == [] && device.peak == 0
    requires ReadsCorpus(source.read, Stream(DocumentsOf(kept, split)), split, TargetsOf(Usable(kept, split)))
    modifies source, device
    ensures |results| == calls && IsRun(results, delivered, error)
    ensures CarriesStream(device.sent, OfSplit(m.sequences, split), Stream(DocumentsOf(kept, split)), delivered)
    ensures delivered < calls && error.None? ==>
      Targets(OfSplit(m.sequences, split), delivered) == TargetsOf(Usable(kept, split))
    ensures Accounted(device.waited, device.cancelled, [], |device.sent|) && device.peak <= maximum
  {
    LoaderAccepts(m, kept, split);
    CorpusReadsStream(m, kept, split, source.read);
    var loader := SpanLoader.Open(source, m.sequences, split, capacity);
    var p := TransferPipeline.Open(loader.value, device, maximum);
    results := Run(p.value, calls);
    delivered, error := p.value.delivered, p.value.terminalError;
    SentCarriesStream(source.read, device.sent, OfSplit(m.sequences, split), Stream(DocumentsOf(kept, split)), delivered);
  }

  ghost predicate Tabled(table: seq<seq<nat>>, stream: seq<nat>, split: Split, targets: nat) {
    forall i :: 0 <= i < |table| ==> AnswersSequence(Ok(table[i]), stream, split, targets, i)
  }

  lemma {:induction false} TabledMore(table: seq<seq<nat>>, ids: seq<nat>, stream: seq<nat>, split: Split, targets: nat)
    requires Tabled(table, stream, split, targets) && AnswersSequence(Ok(ids), stream, split, targets, |table|)
    ensures Tabled(table + [ids], stream, split, targets)
  {
  }

  method ReadOne(m: Manifest, files: Files, split: Split, sequence: nat, ghost kept: seq<Document>) returns (ids: seq<nat>)
    requires Faithful(m, kept, files) && Sound(kept, m.limits) && sequence < |OfSplit(m.sequences, split)|
    ensures AnswersSequence(Ok(ids), Stream(DocumentsOf(kept, split)), split, TargetsOf(Usable(kept, split)), sequence)
  {
    SequenceWidths(m, kept, files);
    var r := ReadSequence(m, files, split, sequence, kept);
    ids := r.value;
  }

  method ReadAll(m: Manifest, files: Files, split: Split, ghost kept: seq<Document>) returns (table: seq<seq<nat>>)
    requires Faithful(m, kept, files) && Sound(kept, m.limits)
    ensures |table| == |OfSplit(m.sequences, split)|
    ensures Tabled(table, Stream(DocumentsOf(kept, split)), split, TargetsOf(Usable(kept, split)))
  {
    table := [];
    while |table| < |OfSplit(m.sequences, split)|
      invariant |table| <= |OfSplit(m.sequences, split)|
      invariant Tabled(table, Stream(DocumentsOf(kept, split)), split, TargetsOf(Usable(kept, split)))
    {
      var ids := ReadOne(m, files, split, |table|, kept);
      TabledMore(table, ids, Stream(DocumentsOf(kept, split)), split, TargetsOf(Usable(kept, split)));
      table := table + [ids];
    }
  }

  method TableSource(table: seq<seq<nat>>, cancelled: nat -> bool, ghost stream: seq<nat>, ghost split: Split, ghost targets: nat)
    returns (source: Source)
    requires Tabled(table, stream, split, targets)
    ensures fresh(source) && source.readCount == 0 && source.cancelled == cancelled
    ensures ReadsCorpus(source.read, stream, split, targets)
    ensures forall i: nat, k: nat :: i < |table| ==> source.read(i, k).Ok?
  {
    source := new Source((i: nat, k: nat) => if i < |table| then Ok(table[i]) else Err(Other(0)), cancelled);
  }

  /** A source over a stored corpus: the files do not change, so a sequence is the same
      whenever it is read. */
  method CorpusSource(m: Manifest, files: Files, split: Split, cancelled: nat -> bool, ghost kept: seq<Document>)
    returns (source: Source)
    requires Faithful(m, kept, files) && Sound(kept, m.limits)
    ensures fresh(source) && source.readCount == 0 && source.cancelled == cancelled
    ensures ReadsCorpus(source.read, Stream(DocumentsOf(kept, split)), split, TargetsOf(Usable(kept, split)))
    ensures forall i: nat, k: nat :: i < |OfSplit(m.sequences, split)| ==> source.read(i, k).Ok?
  {
    var table := ReadAll(m, files, split, kept);
    source := TableSource(table, cancelled, Stream(DocumentsOf(kept, split)), split, TargetsOf(Usable(kept, split)));
  }

  /** The whole way: a materialized corpus is read, loaded and transferred. */
  method DeliverCorpus(m: Manifest, files: Files, split: Split, cancelled: nat -> bool, capacity: nat, device: Device,
      maximum: nat, calls: nat, ghost kept: seq<Document>)
    returns (results: seq<Result<Option<nat>, LoadError>>, ghost delivered: nat, ghost error: Option<LoadError>)
    requires Faithful(m, kept, files) && Sound(kept, m.limits) && capacity > 0 && maximum > 0
    requires device.sent == [] && device.waited == [] && device.cancelled == [] && device.peak == 0
    modifies device
    ensures |results| == calls && IsRun(results, delivered, error)
    ensures CarriesStream(device.sent, OfSplit(m.sequences, split), Stream(DocumentsOf(kept, split)), delivered)
    ensures delivered < calls && error.None? ==>
      Targets(OfSplit(m.sequences, split), delivered) == TargetsOf(Usable(kept, split))
    ensures Accounted(device.waited, device.cancelled, [], |device.sent|) && device.peak <= maximum
  {
    var source := CorpusSource(m, files, split, cancelled, kept);
    results, delivered, error := DeliverSplit(source, m, split, capacity, device, maximum, calls, kept);
  }
}
