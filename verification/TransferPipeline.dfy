/**
Bounded asynchronous transfer of loaded spans to a device. Every ticket the
device hands out is given back exactly once, to a wait or to a cancellation.
*/
module TransferPipeline {
  import opened Outcomes
  import opened SequenceIndex
  import opened SpanLoader

  /** A device: the outcome of each submission and of each wait is arbitrary. The
      n-th accepted span is given ticket n. */
  class Device {
    const submitting: nat -> Result<(), LoadError>
    const waiting: nat -> Result<(), LoadError>
    var submissions: nat
    var sent: seq<LoadedSpan>
    var waited: seq<nat>
    var cancelled: seq<nat>
    ghost var peak: nat  // the most tickets ever out at once

    ghost function Outstanding(): int
      reads this
    {
      |sent| - |waited| - |cancelled|
    }

    constructor (submitting: nat -> Result<(), LoadError>, waiting: nat -> Result<(), LoadError>)
      ensures this.submitting == submitting && this.waiting == waiting
      ensures submissions == 0 && sent == [] && waited == [] && cancelled == [] && peak == 0
    {
      this.submitting, this.waiting := submitting, waiting;
      submissions, sent, waited, cancelled, peak := 0, [], [], [], 0;
    }

    method Submit(span: LoadedSpan) returns (r: Result<nat, LoadError>)
      modifies `submissions, `sent, `peak
      ensures submissions == old(submissions) + 1
      ensures r == match submitting(old(submissions))
                   case Ok(_) => Ok(old(|sent|))
                   case Err(e) => Err(e)
      ensures sent == if r.Ok? then old(sent) + [span] else old(sent)
      ensures peak == if Outstanding() > old(peak) then Outstanding() else old(peak)
    {
      var outcome := submitting(submissions);
      submissions := submissions + 1;
      match outcome {
        case Ok(_) =>
          r := Ok(|sent|);
          sent := sent + [span];
        case Err(e) =>
          r := Err(e);
      }
      peak := if Outstanding() > peak then Outstanding() else peak;
    }

    /** Takes the ticket, whether or not the transfer worked. */
    method Wait(ticket: nat) returns (r: Result<nat, LoadError>)
      requires ticket < |sent| && ticket !in waited && ticket !in cancelled
      modifies `waited
      ensures waited == old(waited) + [ticket]
      ensures r == match waiting(ticket)
                   case Ok(_) => Ok(ticket)
                   case Err(e) => Err(e)
    {
      waited := waited + [ticket];
      match waiting(ticket)
      case Ok(_) => r := Ok(ticket);
      case Err(e) => r := Err(e);
    }

    method Cancel(ticket: nat)
      requires ticket < |sent| && ticket !in waited && ticket !in cancelled
      modifies `cancelled
      ensures cancelled == old(cancelled) + [ticket]
    {
      cancelled := cancelled + [ticket];
    }
  }

  function Tickets(n: nat): (s: seq<nat>)
    ensures |s| == n && forall i :: 0 <= i < n ==> s[i] == i
  {
    seq(n, i requires 0 <= i => i)
  }

  /** The tickets given back by waiting, those given back by cancelling and those
      still held are, in this order, all that were handed out. */
  ghost predicate Accounted(waited: seq<nat>, cancelled: seq<nat>, held: seq<nat>, sent: nat) {
    waited + cancelled + held == Tickets(sent)
  }

  lemma {:induction false} NextHeld(waited: seq<nat>, cancelled: seq<nat>, held: seq<nat>, sent: nat)
    requires Accounted(waited, cancelled, held, sent) && held != []
    ensures held[0] == |waited| + |cancelled| < sent
    ensures held[0] !in waited && held[0] !in cancelled
    ensures Accounted(waited, cancelled + [held[0]], held[1..], sent)
    ensures cancelled == [] ==> Accounted(waited + [held[0]], [], held[1..], sent)
  {
    var all := waited + cancelled + held;
    assert all[|waited| + |cancelled|] == held[0];
    forall i | 0 <= i < |waited| ensures waited[i] == i {
      assert all[i] == waited[i];
    }
    forall i | 0 <= i < |cancelled| ensures cancelled[i] == |waited| + i {
      assert all[|waited| + i] == cancelled[i];
    }
    assert waited + (cancelled + [held[0]]) + held[1..] == all;
    assert cancelled == [] ==> (waited + [held[0]]) + [] + held[1..] == all;
  }

  lemma {:induction false} HeldCount(waited: seq<nat>, cancelled: seq<nat>, held: seq<nat>, sent: nat)
    requires Accounted(waited, cancelled, held, sent)
    ensures |waited| + |cancelled| + |held| == sent
  {
    assert |waited + cancelled + held| == |Tickets(sent)|;
  }

  lemma {:induction false} HeldMore(waited: seq<nat>, cancelled: seq<nat>, held: seq<nat>, sent: nat)
    requires Accounted(waited, cancelled, held, sent)
    ensures Accounted(waited, cancelled, held + [sent], sent + 1)
  {
    assert waited + cancelled + (held + [sent]) == Tickets(sent) + [sent];
  }

  class Pipeline {
    const loader: Loader
    const device: Device
    const maximum: nat
    var inFlight: seq<nat>
    var sourceExhausted: bool
    var terminalError: Option<LoadError>
    ghost var delivered: nat

    ghost predicate Owned()
      reads this, loader, loader.source, device
    {
      && (loader as object) != device && loader.source as object != device
      && (this as object) !in {loader as object, loader.source as object, device as object}
      && loader.Valid()
    }

    ghost predicate Valid()
      reads this, loader, loader.source, device
    {
      && Owned()
      && 0 < maximum && |inFlight| <= maximum && device.peak <= maximum
      && Accounted(device.waited, device.cancelled, inFlight, |device.sent|)
      && device.sent <= loader.emitted
      && delivered <= |device.waited|
      && (forall i: nat :: i < delivered ==> device.waiting(i).Ok?)
      && (terminalError.None? ==> Running())
      && (terminalError.Some? ==> inFlight == [])
    }

    // Nothing has gone wrong so far.
    ghost predicate Running()
      reads this, loader, device
    {
      && device.sent == loader.emitted && device.cancelled == []
      && delivered == |device.waited| && !loader.failed
      && (sourceExhausted <==> loader.terminal)
    }

    constructor (loader: Loader, device: Device, maximum: nat)
      requires loader.Valid() && !loader.terminal && loader.emitted == [] && maximum > 0
      requires loader as object != device && loader.source as object != device
      requires device.sent == [] && device.waited == [] && device.cancelled == [] && device.peak == 0
      ensures Valid() && terminalError.None? && !sourceExhausted && delivered == 0
      ensures this.loader == loader && this.device == device && this.maximum == maximum
    {
      this.loader, this.device, this.maximum := loader, device, maximum;
      inFlight, sourceExhausted, terminalError, delivered := [], false, None, 0;
    }

    /** Gives back every ticket still held. */
    method CancelPending()
      requires Owned() && Accounted(device.waited, device.cancelled, inFlight, |device.sent|)
      modifies `inFlight, device`cancelled
      ensures Owned() && inFlight == []
      ensures device.cancelled == old(device.cancelled) + old(inFlight)
      ensures Accounted(device.waited, device.cancelled, [], |device.sent|)
    {
      while inFlight != []
        invariant Owned() && Accounted(device.waited, device.cancelled, inFlight, |device.sent|)
        invariant device.cancelled + inFlight == old(device.cancelled) + old(inFlight)
        decreases |inFlight|
      {
        NextHeld(device.waited, device.cancelled, inFlight, |device.sent|);
        var ticket := inFlight[0];
        inFlight := inFlight[1..];
        device.Cancel(ticket);
      }
    }

    /** Stops for good: what is outstanding is cancelled, and the error is kept. */
    method Stop(e: LoadError)
      requires Owned() && 0 < maximum && terminalError.None? && device.peak <= maximum
      requires Accounted(device.waited, device.cancelled, inFlight, |device.sent|)
      requires device.sent <= loader.emitted && delivered <= |device.waited|
      requires forall i: nat :: i < delivered ==> device.waiting(i).Ok?
      modifies `inFlight, `terminalError, device`cancelled
      ensures Valid() && terminalError == Some(e)
      ensures device.cancelled == old(device.cancelled) + old(inFlight)
    {
      CancelPending();
      terminalError := Some(e);
    }

    /** Loads and submits one span, or learns that there are no more. */
    method SubmitNext() returns (r: Result<(), LoadError>)
      requires Valid() && terminalError.None? && !sourceExhausted && |inFlight| < maximum
      modifies this, loader, loader.source, device
      ensures Valid() && delivered == old(delivered)
      ensures r.Ok? <==> terminalError.None?
      ensures r.Err? ==> terminalError == Some(r.error)
      ensures device.waited == old(device.waited)
      ensures r.Ok? ==> sourceExhausted || |loader.emitted| == old(|loader.emitted|) + 1
    {
      var loaded := loader.NextSpan();
      if loaded.Err? {
        Stop(loaded.error);
        return Err(loaded.error);
      }
      if loaded.value.None? {
        sourceExhausted := true;
        return Ok(());
      }
      HeldCount(device.waited, device.cancelled, inFlight, |device.sent|);
      var submitted := device.Submit(loaded.value.value);
      if submitted.Err? {
        Stop(submitted.error);
        return Err(submitted.error);
      }
      HeldMore(device.waited, device.cancelled, inFlight, |device.sent| - 1);
      inFlight := inFlight + [submitted.value];
      r := Ok(());
    }

    method Fill() returns (r: Result<(), LoadError>)
      requires Valid() && terminalError.None?
      modifies this, loader, loader.source, device
      ensures Valid() && delivered == old(delivered)
      ensures r.Ok? <==> terminalError.None?
      ensures r.Err? ==> terminalError == Some(r.error)
      ensures device.waited == old(device.waited)
      ensures r.Ok? ==> |inFlight| == maximum || sourceExhausted
      ensures old(sourceExhausted) ==> r.Ok? && sourceExhausted && inFlight == old(inFlight)
    {
      r := Ok(());
      while |inFlight| < maximum && !sourceExhausted
        invariant Valid() && terminalError.None? && delivered == old(delivered)
        invariant device.waited == old(device.waited)
        invariant old(sourceExhausted) ==> sourceExhausted && inFlight == old(inFlight)
        decreases |loader.entries| - |loader.emitted|, !sourceExhausted
      {
        r := SubmitNext();
        if r.Err? {
          return;
        }
      }
      r := Ok(());
    }

    /** Whether every entry of the index has been delivered. */
    ghost predicate Finished()
      reads this, loader
    {
      terminalError.None? && sourceExhausted && inFlight == [] && delivered == |loader.entries|
    }

    /** The next batch. Batches come out in index order; after the first error
        every call returns that error; None means that everything was delivered. */
    method NextDeviceBatch() returns (r: Result<Option<nat>, LoadError>)
      requires Valid()
      modifies this, loader, loader.source, device
      ensures Valid()
      ensures old(terminalError).Some? ==> r == Err(old(terminalError).value) && terminalError == old(terminalError)
      ensures old(terminalError).Some? ==> delivered == old(delivered)
      ensures r.Err? ==> terminalError == Some(r.error) && delivered == old(delivered)
      ensures r.Ok? ==> terminalError.None?
      ensures r.Ok? && r.value.Some? ==> r.value.value == old(delivered) && delivered == old(delivered) + 1
      ensures r == Ok(None) ==> Finished() && delivered == old(delivered)
      ensures old(Finished()) ==> r == Ok(None)
    {
      if terminalError.Some? {
        return Err(terminalError.value);
      }
      var filled := Fill();
      if filled.Err? {
        return Err(filled.error);
      }
      if inFlight == [] {
        HeldCount(device.waited, device.cancelled, inFlight, |device.sent|);
        return Ok(None);
      }
      r := WaitFirst();
    }

    method WaitFirst() returns (r: Result<Option<nat>, LoadError>)
      requires Valid() && terminalError.None? && inFlight != []
      modifies this, device`waited, device`cancelled
      ensures Valid()
      ensures r.Err? ==> terminalError == Some(r.error) && delivered == old(delivered)
      ensures r.Ok? ==> terminalError.None? && r.value == Some(old(delivered)) && delivered == old(delivered) + 1
    {
      NextHeld(device.waited, device.cancelled, inFlight, |device.sent|);
      var ticket := inFlight[0];
      inFlight := inFlight[1..];
      var outcome := device.Wait(ticket);
      if outcome.Err? {
        Stop(outcome.error);
        return Err(outcome.error);
      }
      delivered := delivered + 1;
      r := Ok(Some(outcome.value));
    }

    /** Dropping the pipeline: no ticket is left behind, and none is given back
        twice. */
    method Drop()
      requires Valid()
      modifies `inFlight, device`cancelled
      ensures Accounted(device.waited, device.cancelled, [], |device.sent|)
      ensures Owned() && device.cancelled == old(device.cancelled) + old(inFlight)
    {
      CancelPending();
    }
  }

  /** Opens a pipeline; a capacity of zero is refused. */
  method Open(loader: Loader, device: Device, maximum: nat) returns (r: Result<Pipeline, LoadError>)
    requires loader.Valid() && !loader.terminal && loader.emitted == []
    requires loader as object != device && loader.source as object != device
    requires device.sent == [] && device.waited == [] && device.cancelled == [] && device.peak == 0
    ensures r == Err(CapacityInvalid) <==> maximum == 0
    ensures r.Ok? <==> maximum > 0
    ensures r.Ok? ==> fresh(r.value) && Fresh(r.value) && r.value.loader == loader && r.value.device == device
    ensures r.Ok? ==> r.value.maximum == maximum
  {
    if maximum == 0 {
      return Err(CapacityInvalid);
    }
    var pipeline := new Pipeline(loader, device, maximum);
    r := Ok(pipeline);
  }

  /** A pipeline nothing has been asked of yet. */
  ghost predicate Fresh(p: Pipeline)
    reads p, p.loader, p.loader.source, p.device
  {
    p.Valid() && p.terminalError.None? && p.delivered == 0
  }

  /** What the calls of a run return: the batches in index order, and then the
      same answer for ever. */
  ghost predicate IsRun(results: seq<Result<Option<nat>, LoadError>>, delivered: nat, error: Option<LoadError>) {
    && delivered <= |results|
    && (forall i :: 0 <= i < delivered ==> results[i] == Ok(Some(i)))
    && forall i :: delivered <= i < |results| ==>
         results[i] == if error.Some? then Err(error.value) else Ok(None)
  }

  /** Any number of calls, and then the drop: batches come out once each and in
      index order, an error is repeated for ever, an end without error comes only
      after every entry, no more tickets than the maximum are ever out, and each has
      been given back exactly once. */
  method Run(p: Pipeline, calls: nat) returns (results: seq<Result<Option<nat>, LoadError>>)
    requires Fresh(p)
    modifies p, p.loader, p.loader.source, p.device
    ensures |results| == calls && IsRun(results, p.delivered, p.terminalError)
    ensures p.delivered < calls && p.terminalError.None? ==> p.delivered == |p.loader.entries|
    ensures p.delivered <= |p.device.sent| && SpansOf(p.loader.source.read, p.device.sent, p.loader.entries)
    ensures Accounted(p.device.waited, p.device.cancelled, [], |p.device.sent|) && p.device.peak <= p.maximum
  {
    results := [];
    while |results| < calls
      invariant p.Valid() && |results| <= calls && IsRun(results, p.delivered, p.terminalError)
      invariant p.delivered < |results| && p.terminalError.None? ==> p.Finished()
    {
      ghost var before, delivered, error := results, p.delivered, p.terminalError;
      var r := p.NextDeviceBatch();
      results := results + [r];
      RunGrows(before, delivered, error, r, p.delivered, p.terminalError);
    }
    SentAreSpans(p);
    p.Drop();
  }

  // One more answer, of the kind a pipeline gives.
  lemma {:induction false} RunGrows(results: seq<Result<Option<nat>, LoadError>>, delivered: nat, error: Option<LoadError>,
      r: Result<Option<nat>, LoadError>, delivered': nat, error': Option<LoadError>)
    requires IsRun(results, delivered, error)
    requires error.Some? ==> r == Err(error.value) && error' == error
    requires delivered < |results| && error.None? ==> r == Ok(None)
    requires r.Err? ==> error' == Some(r.error) && delivered' == delivered
    requires r == Ok(None) ==> error'.None? && delivered' == delivered
    requires r.Ok? && r.value.Some? ==> error'.None? && r.value.value == delivered && delivered' == delivered + 1
    ensures IsRun(results + [r], delivered', error')
  {
    var grown := results + [r];
    forall i | 0 <= i < delivered' ensures grown[i] == Ok(Some(i)) {
      if i < delivered {
        assert grown[i] == results[i];
      } else {
        assert i == |results| && grown[i] == r;
        assert r == Ok(Some(r.value.value));
      }
    }
    forall i | delivered' <= i < |grown|
      ensures grown[i] == if error'.Some? then Err(error'.value) else Ok(None)
    {
      if i < |results| {
        assert grown[i] == results[i];
      }
    }
  }

  lemma {:induction false} SentAreSpans(p: Pipeline)
    requires p.Valid()
    ensures p.delivered <= |p.device.sent|
    ensures SpansOf(p.loader.source.read, p.device.sent, p.loader.entries)
  {
    HeldCount(p.device.waited, p.device.cancelled, p.inFlight, |p.device.sent|);
    var loaded := p.loader.emitted + p.loader.buffer;
    assert forall i :: 0 <= i < |p.device.sent| ==> p.device.sent[i] == loaded[i];
  }

  // ----- the stream the batches carry -----

  predicate Sliced(span: LoadedSpan) {
    span.validTargets < |span.tokenIds|
  }

  ghost function JoinTargets(spans: seq<LoadedSpan>, n: nat): seq<nat>
    requires n <= |spans| && forall i :: 0 <= i < |spans| ==> Sliced(spans[i])
  {
    if n == 0 then []
    else
      assert Sliced(spans[n - 1]);
      JoinTargets(spans, n - 1) + spans[n - 1].TargetIds()
  }

  lemma {:induction false} JoinNext(spans: seq<LoadedSpan>, n: nat)
    requires 0 < n <= |spans| && forall i :: 0 <= i < |spans| ==> Sliced(spans[i])
    ensures JoinTargets(spans, n) == JoinTargets(spans, n - 1) + spans[n - 1].TargetIds()
  {
  }

  /** Every read of entry i answers with the entry's slice of one stream. */
  ghost predicate ReadsStream(read: (nat, nat) -> Result<seq<nat>, LoadError>, entries: seq<Entry>,
      stream: seq<nat>)
  {
    forall i :: 0 <= i < |entries| ==> ReadsSlice(read, entries[i], stream, i)
  }

  ghost predicate ReadsSlice(read: (nat, nat) -> Result<seq<nat>, LoadError>, e: Entry, stream: seq<nat>, k: nat) {
    read(e.sequence, k).Ok? ==> CarriesSlice(e, read(e.sequence, k).value, stream)
  }

  ghost predicate CarriesSlice(e: Entry, ids: seq<nat>, stream: seq<nat>) {
    e.firstId + e.logicalIds <= |stream| && ids == stream[e.firstId..e.firstId + e.logicalIds]
  }

  lemma {:induction false} SpanTargets(read: (nat, nat) -> Result<seq<nat>, LoadError>, span: LoadedSpan, entries: seq<Entry>,
      stream: seq<nat>, n: nat)
    requires n < |entries| && EntryFits(entries, n) && SpanOf(read, span, entries[n], n)
    requires ReadsSlice(read, entries[n], stream, n)
    ensures Targets(entries, n + 1) < |stream| && Sliced(span)
    ensures span.InputIds() == stream[Targets(entries, n)..Targets(entries, n + 1)]
    ensures span.TargetIds() == stream[Targets(entries, n) + 1..Targets(entries, n + 1) + 1]
  {
    SliceEnds(stream, Targets(entries, n), Targets(entries, n + 1));
  }

  lemma {:induction false} SliceEnds(stream: seq<nat>, m: nat, n: nat)
    requires m <= n < |stream|
    ensures stream[m..n + 1][..n - m] == stream[m..n] && stream[m..n + 1][1..] == stream[m + 1..n + 1]
  {
  }

  lemma {:induction false} SlicesJoin(stream: seq<nat>, m: nat, n: nat)
    requires m <= n < |stream|
    ensures stream[1..m + 1] + stream[m + 1..n + 1] == stream[1..n + 1]
  {
  }

  lemma {:induction false} NextSpanJoins(read: (nat, nat) -> Result<seq<nat>, LoadError>, span: LoadedSpan, entries: seq<Entry>,
      stream: seq<nat>, n: nat)
    requires Contiguous(entries) && n < |entries| && SpanOf(read, span, entries[n], n)
    requires ReadsStream(read, entries, stream) && Targets(entries, n) < |stream|
    ensures Targets(entries, n + 1) < |stream| && Sliced(span)
    ensures stream[1..Targets(entries, n) + 1] + span.TargetIds() == stream[1..Targets(entries, n + 1) + 1]
  {
    assert EntryFits(entries, n);
    SpanTargets(read, span, entries, stream, n);
    SlicesJoin(stream, Targets(entries, n), Targets(entries, n + 1));
  }

  lemma {:induction false} AllSliced(read: (nat, nat) -> Result<seq<nat>, LoadError>, spans: seq<LoadedSpan>, entries: seq<Entry>)
    requires Contiguous(entries) && SpansOf(read, spans, entries)
    ensures forall i :: 0 <= i < |spans| ==> Sliced(spans[i])
  {
    forall i | 0 <= i < |spans| ensures Sliced(spans[i]) {
      assert SpanOf(read, spans[i], entries[i], i);
      assert EntryFits(entries, i);
    }
  }

  /** If the source reads slices of one stream, the targets of the first n spans
      handed out are, joined in order, the stream from its second id on: none is
      lost or repeated. */
  lemma {:induction false} TargetsAreTheStream(read: (nat, nat) -> Result<seq<nat>, LoadError>,
      spans: seq<LoadedSpan>, entries: seq<Entry>, stream: seq<nat>, n: nat)
    requires Contiguous(entries) && SpansOf(read, spans, entries) && n <= |spans|
    requires ReadsStream(read, entries, stream) && stream != []
    ensures forall i :: 0 <= i < |spans| ==> Sliced(spans[i])
    ensures Targets(entries, n) < |stream|
    ensures JoinTargets(spans, n) == stream[1..Targets(entries, n) + 1]
    decreases n
  {
    AllSliced(read, spans, entries);
    if n > 0 {
      TargetsAreTheStream(read, spans, entries, stream, n - 1);
      assert SpanOf(read, spans[n - 1], entries[n - 1], n - 1);
      NextSpanJoins(read, spans[n - 1], entries, stream, n - 1);
      JoinNext(spans, n);
    } else {
      assert stream[1..Targets(entries, 0) + 1] == [];
    }
  }
}
