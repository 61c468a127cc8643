/**
Materializing governed documents: they are put in order, encoded, checked, and
stored by their split's writer until the training prefix is complete.
*/
module Materialize {
  import opened CorpusSplit
  import opened Machine
  import opened Outcomes
  import opened SequenceIndex
  import opened Shards
  import opened Streams
  import opened TokenIndex
  import Bpe
  import Decoder
  import Sorting
  import Tokenizer

  const VOCABULARY_SIZE: nat := 32_000

  datatype Governed = Governed(split: Split, key: nat, source: seq<Bpe.Byte>)

  // ----- encoding one document -----

  function EncodedDocument(merges: seq<Bpe.Rule>, g: Governed): Document {
    Document(g.split, g.key, |g.source|, Bpe.ReferenceEncode(g.source, merges))
  }

  ghost predicate FullTokenizer(t: Tokenizer.Tokenizer) {
    t.Valid() && Bpe.BASE_VOCABULARY_SIZE + |t.merges| <= VOCABULARY_SIZE
  }

  /** A document that is stored: nonempty, and short enough to be decoded again. */
  predicate Storable(bytes: nat) {
    0 < bytes <= Decoder.DOCUMENT_LIMIT
  }

  predicate Ordinary(ids: seq<nat>) {
    forall k :: 0 <= k < |ids| ==> 3 < ids[k] <= MAX_TOKEN_ID
  }

  lemma {:induction false} EncodingIsStorable(merges: seq<Bpe.Rule>, source: seq<Bpe.Byte>)
    requires Tokenizer.ValidMerges(merges) && Bpe.BASE_VOCABULARY_SIZE + |merges| <= VOCABULARY_SIZE
    ensures var ids := Bpe.ReferenceEncode(source, merges);
      && SixteenBit(ids) && StoredIds(ids) && EOS_ID !in ids
      && Ordinary(ids)
      && (ids == [] <==> source == [])
      && (Decoder.DecodeIds(merges, ids, []) == Decoder.Source(source) <==> |source| <= Decoder.DOCUMENT_LIMIT)
  {
    Decoder.RoundTrip(merges, source);
    var ids := Bpe.ReferenceEncode(source, merges);
    if source == [] {
      Bpe.ReplaceAllQuiet([], merges);
    }
  }

  /** An empty document has no ids; one over the limit is refused by the decoder. */
  function RoundTripError(bytes: nat): StorageError {
    if bytes == 0 then TokenRoundTripFailed else DecodeRefused
  }

  /** Encodes, and checks that the ids are ordinary ids that decode to the bytes.
      The check fails exactly for documents that are empty or over the limit. */
  method EncodeChecked(t: Tokenizer.Tokenizer, source: seq<Bpe.Byte>) returns (ids: seq<nat>, r: Result<(), StorageError>)
    requires FullTokenizer(t) && |source| <= Bpe.NONE
    ensures ids == Bpe.ReferenceEncode(source, t.merges)
    ensures r == if Storable(|source|) then Ok(()) else Err(RoundTripError(|source|))
  {
    ids := Tokenizer.Encode(t, source);
    EncodingIsStorable(t.merges, source);
    if ids == [] || !Ordinary(ids) {
      return ids, Err(TokenRoundTripFailed);
    }
    Decoder.RoundTrip(t.merges, source);
    var decoded := Decoder.DecodeSource(t.merges, ids);
    match decoded
    case Refused(_) => r := Err(DecodeRefused);
    case Source(bytes) => r := if bytes == source then Ok(()) else Err(TokenRoundTripFailed);
  }

  // ----- order -----

  function GovernedSplit(g: Governed): Split { g.split }

  function GovernedKey(g: Governed): nat { g.key }

  function SplitRank(g: Governed): nat {
    match g.split
    case Train => 0
    case Validation => 1
    case Test => 2
  }

  /** By split, then by key. */
  function InOrder(governed: seq<Governed>): seq<Governed> {
    Sorting.SortBy(Sorting.SortBy(governed, GovernedKey), SplitRank)
  }

  lemma {:induction false} InsertPart(s: seq<Governed>, x: Governed, split: Split)
    ensures Part(Sorting.Insert(s, x, SplitRank), GovernedSplit, split)
         == Part(s, GovernedSplit, split) + if x.split == split then [x] else []
  {
    if s == [] {
      PartSnoc([], x, GovernedSplit, split);
      assert [] + [x] == [x];
    } else {
      var n := |s| - 1;
      if SplitRank(s[n]) <= SplitRank(x) {
        PartSnoc(s, x, GovernedSplit, split);
      } else {
        InsertPart(s[..n], x, split);
        PartSnoc(Sorting.Insert(s[..n], x, SplitRank), s[n], GovernedSplit, split);
      }
    }
  }

  // Sorting by split keeps each split's documents in their order.
  lemma {:induction false} SortKeepsParts(s: seq<Governed>, split: Split)
    ensures Part(Sorting.SortBy(s, SplitRank), GovernedSplit, split) == Part(s, GovernedSplit, split)
  {
    if s != [] {
      var n := |s| - 1;
      SortKeepsParts(s[..n], split);
      InsertPart(Sorting.SortBy(s[..n], SplitRank), s[n], split);
    }
  }

  lemma {:induction false} PartStrict(s: seq<Governed>, split: Split)
    requires Sorting.Strict(s, GovernedKey)
    ensures Sorting.Strict(Part(s, GovernedSplit, split), GovernedKey)
  {
    if s != [] {
      var n := |s| - 1;
      PartStrict(s[..n], split);
      var front := Part(s[..n], GovernedSplit, split);
      forall i | 0 <= i < |front| ensures front[i].key < s[n].key {
        PartContains(s[..n], GovernedSplit, split, front[i]);
        var j :| 0 <= j < n && s[j] == front[i];
        assert GovernedKey(s[j]) < GovernedKey(s[n]);
      }
    }
  }

  /** Each split's documents come out in strictly ascending key order, and they are
      the same for every input order. */
  lemma {:induction false} SplitsAscend(governed: seq<Governed>, split: Split)
    requires Sorting.DistinctKeys(governed, GovernedKey)
    ensures Sorting.Strict(Part(InOrder(governed), GovernedSplit, split), GovernedKey)
    ensures forall g :: g in Part(InOrder(governed), GovernedSplit, split) <==> g in governed && g.split == split
  {
    var byKey := Sorting.SortBy(governed, GovernedKey);
    Sorting.SortStrict(governed, GovernedKey);
    SortKeepsParts(byKey, split);
    PartStrict(byKey, split);
    forall g ensures g in Part(byKey, GovernedSplit, split) <==> g in governed && g.split == split {
      PartContains(byKey, GovernedSplit, split, g);
    }
  }

  /** Training documents come first, then validation, then test, each by key. */
  ghost predicate ComesBefore(a: Governed, b: Governed) {
    if a.split == b.split then a.key <= b.key else a.split == Train || b.split == Test
  }

  lemma {:induction false} InOrderIsOrdered(governed: seq<Governed>)
    ensures forall i, j :: 0 <= i < j < |InOrder(governed)| ==> ComesBefore(InOrder(governed)[i], InOrder(governed)[j])
  {
    var byKey := (a: Governed, b: Governed) => GovernedKey(a) <= GovernedKey(b);
    var first := Sorting.SortBy(governed, GovernedKey);
    Sorting.SortOrdered(governed, GovernedKey);
    assert Sorting.Follows(first, byKey);
    Sorting.SortWithin(first, SplitRank, byKey);
    var second := Sorting.SortBy(first, SplitRank);
    forall i, j | 0 <= i < j < |second| ensures ComesBefore(second[i], second[j]) {
      assert Sorting.Refined(SplitRank, byKey, second[i], second[j]);
    }
  }

  lemma {:induction false} InputOrderDoesNotMatter(a: seq<Governed>, b: seq<Governed>, split: Split)
    requires Sorting.DistinctKeys(a, GovernedKey) && Sorting.DistinctKeys(b, GovernedKey)
    requires forall g :: g in a <==> g in b
    ensures Part(InOrder(a), GovernedSplit, split) == Part(InOrder(b), GovernedSplit, split)
  {
    SplitsAscend(a, split);
    SplitsAscend(b, split);
    Sorting.StrictIsUnique(Part(InOrder(a), GovernedSplit, split), Part(InOrder(b), GovernedSplit, split), GovernedKey);
  }

  /** The documents in order, encoded. */
  function EncodedAll(merges: seq<Bpe.Rule>, sorted: seq<Governed>): (docs: seq<Document>)
    ensures |docs| == |sorted|
    ensures forall i :: 0 <= i < |sorted| ==> docs[i] == EncodedDocument(merges, sorted[i])
  {
    seq(|sorted|, i requires 0 <= i < |sorted| => EncodedDocument(merges, sorted[i]))
  }

  lemma {:induction false} EncodedParts(merges: seq<Bpe.Rule>, sorted: seq<Governed>, split: Split)
    ensures DocumentsOf(EncodedAll(merges, sorted), split) == EncodedAll(merges, Part(sorted, GovernedSplit, split))
  {
    if sorted != [] {
      var n := |sorted| - 1;
      EncodedParts(merges, sorted[..n], split);
      assert EncodedAll(merges, sorted)[..n] == EncodedAll(merges, sorted[..n]);
    }
  }

  lemma {:induction false} EncodedAscend(merges: seq<Bpe.Rule>, governed: seq<Governed>, split: Split)
    requires Sorting.DistinctKeys(governed, GovernedKey)
    ensures KeysAscend(DocumentsOf(EncodedAll(merges, InOrder(governed)), split))
  {
    SplitsAscend(governed, split);
    var own := Part(InOrder(governed), GovernedSplit, split);
    EncodedParts(merges, InOrder(governed), split);
    forall i, j | 0 <= i < j < |own| ensures EncodedAll(merges, own)[i].key < EncodedAll(merges, own)[j].key {
      assert GovernedKey(own[i]) < GovernedKey(own[j]);
    }
  }

  // ----- storing -----

  /** A writer that has taken in exactly these documents of its split. */
  ghost predicate Tracks(writer: ShardWriter, own: seq<Document>, files: Files)
    reads writer
  {
    && writer.Holds(Stream(own), files)
    && writer.documents == |own| && writer.sourceBytes == Streams.Bytes(own) && writer.sourceTokenIds == SourceIds(own)
  }

  lemma {:induction false} HoldsElsewhere(writer: ShardWriter, stream: seq<nat>, before: Files, after: Files, split: Split)
    requires writer.Holds(stream, before) && OnlySplit(before, after, split) && writer.split != split
    ensures writer.Holds(stream, after)
  {
    forall i | 0 <= i < |writer.shards|
      ensures Carries(writer.shards[i], writer.split, i, Start(writer.maximumIds, i), writer.maximumIds, stream, after)
    {
      assert Path(writer.split, i) in before;
    }
  }

  /** Stores a document's ids and its end mark, and gives its index entry. */
  method StoreDocument(writer: ShardWriter, d: Document, generation: Generation, ghost own: seq<Document>)
    returns (entry: DocumentEntry)
    requires generation as object != writer && Tracks(writer, own, generation.files)
    requires d.split == writer.split && SixteenBit(d.ids)
    modifies writer, generation
    ensures Tracks(writer, own + [d], generation.files) && entry == EntryFor(own, d)
    ensures OnlySplit(old(generation.files), generation.files, writer.split)
  {
    var firstId, order := writer.storedIds, writer.documents;
    Streams.Next(own, d);
    var appended := writer.Append(d.ids, generation, Stream(own));
    var ended := writer.Append([EOS_ID], generation, Stream(own) + d.ids);
    assert appended.Ok? && ended.Ok?;
    writer.documents := writer.documents + 1;
    writer.sourceBytes := writer.sourceBytes + d.bytes;
    writer.sourceTokenIds := writer.sourceTokenIds + |d.ids|;
    entry := DocumentEntry(d.split, order, d.key, d.bytes, firstId, |d.ids|, |d.ids| + 1, EOS_ID);
  }

  type Writers = map<Split, ShardWriter>

  ghost predicate Separate(writers: Writers, generation: Generation, max: nat) {
    forall s: Split :: s in writers && writers[s].split == s && writers[s].maximumIds == max
      && generation as object != writers[s]
  }

  /** Every split's writer has taken in that split's part of the kept documents. */
  ghost predicate Stored(writers: Writers, kept: seq<Document>, files: Files)
    reads writers.Values
  {
    forall s: Split :: s in writers && Tracks(writers[s], DocumentsOf(kept, s), files)
  }

  /** The ids stored for documents, their end marks included. */
  ghost function StoredTotal(docs: seq<Document>): nat {
    SourceIds(docs) + |docs|
  }

  lemma {:induction false} TotalNext(kept: seq<Document>, d: Document)
    ensures StoredTotal(kept + [d]) == StoredTotal(kept) + |d.ids| + 1
  {
    Streams.Next(kept, d);
  }

  // What one kept document adds.
  method StoreKept(writers: Writers, d: Document, generation: Generation, ghost kept: seq<Document>, ghost max: nat)
    returns (entry: DocumentEntry)
    requires Separate(writers, generation, max) && Stored(writers, kept, generation.files) && SixteenBit(d.ids)
    modifies writers.Values, generation
    ensures Stored(writers, kept + [d], generation.files)
    ensures entry == EntryFor(DocumentsOf(kept, d.split), d)
  {
    var writer := writers[d.split];
    entry := StoreDocument(writer, d, generation, DocumentsOf(kept, d.split));
    forall s: Split ensures Tracks(writers[s], DocumentsOf(kept + [d], s), generation.files) {
      DocumentsNext(kept, d, s);
      if s != d.split {
        assert writers[s] != writer;
        HoldsElsewhere(writers[s], Stream(DocumentsOf(kept, s)), old(generation.files), generation.files, d.split);
      }
    }
  }

  /** The new total, unless it outgrows 64 bits or the capacity. */
  function Counted(total: nat, added: nat, maximum: nat): Result<nat, StorageError> {
    if total + added > U64_MAX then Err(AccountingOverflow)
    else if total + added > maximum then Err(TokenCapacityExceeded)
    else Ok(total + added)
  }

  method EncodeDocument(t: Tokenizer.Tokenizer, g: Governed) returns (d: Document, r: Result<(), StorageError>)
    requires FullTokenizer(t) && |g.source| <= Bpe.NONE
    ensures d == EncodedDocument(t.merges, g) && SixteenBit(d.ids)
    ensures r == if Storable(d.bytes) then Ok(()) else Err(RoundTripError(d.bytes))
  {
    var ids, checked := EncodeChecked(t, g.source);
    EncodingIsStorable(t.merges, g.source);
    d, r := Document(g.split, g.key, |g.source|, ids), checked;
  }

  /** One document of the loop: encode, check, count, store. */
  method TakeDocument(t: Tokenizer.Tokenizer, g: Governed, writers: Writers, generation: Generation, maximum: nat,
      total: nat, ghost kept: seq<Document>, ghost d: Document, ghost max: nat)
    returns (r: Result<DocumentEntry, StorageError>, total': nat)
    requires FullTokenizer(t) && |g.source| <= Bpe.NONE && maximum <= U64_MAX && total == StoredTotal(kept)
    requires Separate(writers, generation, max) && Stored(writers, kept, generation.files)
    requires d == EncodedDocument(t.merges, g)
    modifies writers.Values, generation
    ensures r.Ok? <==> Storable(d.bytes) && StoredTotal(kept + [d]) <= maximum
    ensures r.Ok? ==> r.value == EntryFor(DocumentsOf(kept, d.split), d) && total' == StoredTotal(kept + [d])
    ensures r.Ok? ==> Stored(writers, kept + [d], generation.files)
    ensures r.Err? ==>
      r.error == if Storable(d.bytes) then CapacityError(StoredTotal(kept + [d])) else RoundTripError(d.bytes)
  {
    TotalNext(kept, d);
    var encoded, checked := EncodeDocument(t, g);
    if checked.Err? {
      return Err(checked.error), total;
    }
    var counted := Counted(total, |encoded.ids| + 1, maximum);
    if counted.Err? {
      return Err(counted.error), total;
    }
    var entry := StoreKept(writers, encoded, generation, kept, max);
    r, total' := Ok(entry), counted.value;
  }

  function CapacityError(total: nat): StorageError {
    if total > U64_MAX then AccountingOverflow else TokenCapacityExceeded
  }

  // ----- the loop -----

  ghost predicate AllStorable(docs: seq<Document>) {
    forall k :: 0 <= k < |docs| ==> Storable(docs[k].bytes)
  }

  /** When storing these documents goes through. */
  ghost predicate Fits(kept: seq<Document>, maximum: nat) {
    AllStorable(kept) && StoredTotal(kept) <= maximum
  }

  lemma {:induction false} FitsPrefix(kept: seq<Document>, n: nat, maximum: nat)
    requires n <= |kept| && Fits(kept, maximum)
    ensures Fits(kept[..n], maximum)
    decreases |kept| - n
  {
    if n < |kept| {
      FitsPrefix(kept, n + 1, maximum);
      assert kept[..n + 1][..n] == kept[..n];
    } else {
      assert kept[..n] == kept;
    }
  }

  lemma {:induction false} RefusedForGood(docs: seq<Document>, i: nat, maximum: nat)
    requires i < |docs| && Takes(Kept(docs[..i]), docs[i]) && !Fits(Kept(docs[..i]) + [docs[i]], maximum)
    ensures !Fits(Kept(docs), maximum)
  {
    KeptNext(docs, i);
    KeptPrefix(docs, i + 1);
    var taken := Kept(docs[..i]) + [docs[i]];
    assert Kept(docs)[..|taken|] == taken;
    if Fits(Kept(docs), maximum) {
      FitsPrefix(Kept(docs), |taken|, maximum);
    }
  }

  lemma {:induction false} BytesNext(docs: seq<Document>, i: nat)
    requires i < |docs|
    ensures Streams.Bytes(docs[..i + 1]) == Streams.Bytes(docs[..i]) + docs[i].bytes
  {
    assert docs[..i + 1] == docs[..i] + [docs[i]];
    Streams.Next(docs[..i], docs[i]);
  }

  datatype Progress = Progress(entries: seq<DocumentEntry>, total: nat, unmaterialized: nat, unmaterializedBytes: nat)

  /** What has been recorded after these documents, of which some were kept. */
  ghost predicate Recorded(p: Progress, seen: seq<Document>, kept: seq<Document>) {
    && p.entries == Entries(kept) && p.total == StoredTotal(kept)
    && p.unmaterialized + |kept| == |seen|
    && p.unmaterializedBytes + Streams.Bytes(kept) == Streams.Bytes(seen)
  }

  lemma {:induction false} FitsMore(kept: seq<Document>, d: Document, maximum: nat)
    requires AllStorable(kept)
    ensures Fits(kept + [d], maximum) <==> Storable(d.bytes) && StoredTotal(kept + [d]) <= maximum
  {
    var grown := kept + [d];
    assert grown[|kept|] == d;
    assert forall k :: 0 <= k < |kept| ==> grown[k] == kept[k];
  }

  /** One turn of the loop over the ordered documents. */
  method StoreNext(t: Tokenizer.Tokenizer, g: Governed, writers: Writers, generation: Generation, maximum: nat,
      closed: bool, p: Progress, ghost docs: seq<Document>, ghost i: nat, ghost max: nat)
    returns (r: Result<Progress, StorageError>, closed': bool)
    requires FullTokenizer(t) && |g.source| <= Bpe.NONE && maximum <= U64_MAX
    requires i < |docs| && docs[i] == EncodedDocument(t.merges, g)
    requires Separate(writers, generation, max) && Stored(writers, Kept(docs[..i]), generation.files)
    requires Recorded(p, docs[..i], Kept(docs[..i])) && AllStorable(Kept(docs[..i]))
    requires closed <==> Closed(Kept(docs[..i]))
    modifies writers.Values, generation
    ensures r.Ok? ==> Stored(writers, Kept(docs[..i + 1]), generation.files)
    ensures r.Ok? ==> Recorded(r.value, docs[..i + 1], Kept(docs[..i + 1])) && AllStorable(Kept(docs[..i + 1]))
    ensures r.Ok? && p.total <= maximum ==> r.value.total <= maximum
    ensures r.Ok? ==> (closed' <==> Closed(Kept(docs[..i + 1])))
    ensures r.Err? ==> !Fits(Kept(docs), maximum)
  {
    ghost var kept, d := Kept(docs[..i]), docs[i];
    KeptNext(docs, i);
    BytesNext(docs, i);
    closed' := closed;
    if g.split == Train && closed {
      return Ok(p.(unmaterialized := p.unmaterialized + 1,
                   unmaterializedBytes := p.unmaterializedBytes + |g.source|)), closed;
    }
    FitsMore(kept, d, maximum);
    var taken, total := TakeDocument(t, g, writers, generation, maximum, p.total, kept, d, max);
    if taken.Err? {
      RefusedForGood(docs, i, maximum);
      return Err(taken.error), closed;
    }
    Streams.Next(kept, d);
    EntriesNext(kept, d);
    DocumentsNext(kept, d, Train);
    if g.split == Train && writers[Train].storedIds >= TRAINING_PREFIX_IDS {
      closed' := true;
    }
    r := Ok(p.(entries := p.entries + [taken.value], total := total));
  }

  /** Stores the ordered documents. It goes through exactly when every kept document
      is storable and they fit the capacity together. */
  method StoreAll(t: Tokenizer.Tokenizer, sorted: seq<Governed>, writers: Writers, generation: Generation,
      maximum: nat, ghost max: nat)
    returns (r: Result<Progress, StorageError>)
    requires FullTokenizer(t) && (forall g :: g in sorted ==> |g.source| <= Bpe.NONE) && maximum <= U64_MAX
    requires Separate(writers, generation, max) && Stored(writers, [], generation.files)
    modifies writers.Values, generation
    ensures var docs := EncodedAll(t.merges, sorted);
      && (r.Ok? <==> Fits(Kept(docs), maximum))
      && (r.Ok? ==> Recorded(r.value, docs, Kept(docs)) && Stored(writers, Kept(docs), generation.files))
  {
    ghost var docs := EncodedAll(t.merges, sorted);
    var p := Progress([], 0, 0, 0);
    var closed := false;
    var i := 0;
    while i < |sorted|
      invariant i <= |sorted| && Stored(writers, Kept(docs[..i]), generation.files)
      invariant Recorded(p, docs[..i], Kept(docs[..i])) && AllStorable(Kept(docs[..i])) && p.total <= maximum
      invariant closed <==> Closed(Kept(docs[..i]))
    {
      var next: Result<Progress, StorageError>;
      next, closed := StoreNext(t, sorted[i], writers, generation, maximum, closed, p, docs, i, max);
      if next.Err? {
        return next;
      }
      p := next.value;
      i := i + 1;
    }
    assert docs[..i] == docs;
    r := Ok(p);
  }
}
