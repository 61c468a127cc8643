/** Opening a token generation, and reading documents and sequences from it. */
module VerifiedCorpus {
  import opened CorpusSplit
  import opened Machine
  import opened Materialize
  import opened Outcomes
  import opened SequenceIndex
  import opened Shards
  import opened Streams
  import opened TokenCorpus
  import opened TokenIndex
  import Bpe
  import Decoder
  import Sorting
  import Tokenizer

  // ----- the index checks -----

  /** The fields of a manifest fit their 64 bits. */
  ghost predicate Wide(m: Manifest) {
    && (forall i :: 0 <= i < |m.streams| ==> m.streams[i].storedIds <= U64_MAX && m.streams[i].sourceBytes <= U64_MAX)
    && m.accounting.prefixIds <= U64_MAX
  }

  /** One split's shards, documents and spans each cover its stream. */
  ghost predicate SplitIndexed(m: Manifest, s: Split) {
    var accounts := Part(m.streams, AccountSplit, s);
    && accounts != []
    && ShardsCover(Part(m.shards, ShardSplit, s), accounts[0].storedIds)
    && DocumentsCover(Part(m.documents, DocumentEntrySplit, s), accounts[0].storedIds, accounts[0].sourceBytes)
    && CoversUsable(OfSplit(m.sequences, s),
                    if s == Train then m.accounting.prefixIds else accounts[0].storedIds)
  }

  method ValidateSplit(m: Manifest, s: Split) returns (ok: bool)
    requires Wide(m)
    ensures ok <==> SplitIndexed(m, s)
  {
    var accounts := Part(m.streams, AccountSplit, s);
    if accounts == [] {
      return false;
    }
    var account := accounts[0];
    PartContains(m.streams, AccountSplit, s, account);
    ok := ValidateShardOrder(Part(m.shards, ShardSplit, s), account.storedIds);
    if ok {
      ok := ValidateDocuments(Part(m.documents, DocumentEntrySplit, s), account.storedIds, account.sourceBytes);
    }
    if ok {
      ok := ValidateSpans(OfSplit(m.sequences, s),
                          if s == Train then m.accounting.prefixIds else account.storedIds);
    }
  }

  method ValidateIndexes(m: Manifest) returns (ok: bool)
    requires Wide(m)
    ensures ok <==> forall s: Split :: SplitIndexed(m, s)
  {
    var train := ValidateSplit(m, Train);
    var validation := ValidateSplit(m, Validation);
    var test := ValidateSplit(m, Test);
    ok := train && validation && test;
  }

  lemma {:induction false} AccountOf(m: Manifest, kept: seq<Document>, s: Split)
    requires m.streams == Accounts(kept)
    ensures Part(m.streams, AccountSplit, s) == [AccountFor(s, DocumentsOf(kept, s))]
  {
    PartOfThree(AccountFor(Train, DocumentsOf(kept, Train)), AccountFor(Validation, DocumentsOf(kept, Validation)),
                AccountFor(Test, DocumentsOf(kept, Test)), AccountSplit, s);
  }

  /** A faithful manifest passes the index check for every split. */
  lemma {:induction false} FaithfulIsIndexed(m: Manifest, kept: seq<Document>, files: Files, s: Split)
    requires Faithful(m, kept, files) && Sound(kept, m.limits)
    ensures SplitIndexed(m, s)
  {
    var own := DocumentsOf(kept, s);
    AccountOf(m, kept, s);
    SoundSplit(kept, m.limits, s);
    RepresentedShardsCover(Part(m.shards, ShardSplit, s), s, m.limits.shardMaximumIds, Stream(own), files);
    EntriesOfSplit(kept, s);
    SplitEntriesCover(own);
    TilingCovers(s, TargetsOf(Usable(kept, s)));
  }

  // ----- the shard checks -----

  /** A shard whose file holds stored ids, with end marks where documents end. */
  ghost predicate ShardVerified(m: Manifest, shard: Shard, files: Files) {
    && Path(shard.split, shard.sequence) in files
    && var bytes := files[Path(shard.split, shard.sequence)];
       && 2 * shard.ids == shard.bytes <= U64_MAX && |bytes| == shard.bytes && StoredIds(Words(bytes))
       && PositionsFit(shard.firstId, shard.ids)
       && MarksMatch(Words(bytes), shard.firstId, EosPositions(Part(m.documents, DocumentEntrySplit, shard.split)))
  }

  method VerifyShard(m: Manifest, shard: Shard, files: Files) returns (r: Result<(), StorageError>)
    ensures r.Ok? <==> ShardVerified(m, shard, files)
  {
    if Path(shard.split, shard.sequence) !in files {
      return Err(ArtifactMissing);
    }
    var bytes := files[Path(shard.split, shard.sequence)];
    var ok := ValidateShardBytes(shard, bytes);
    if !ok {
      return Err(ShardInvalid);
    }
    r := ValidateShardEos(shard, bytes, EosPositions(Part(m.documents, DocumentEntrySplit, shard.split)));
  }

  /** Every document's end position fits 64 bits. */
  ghost predicate EndsFit(documents: seq<DocumentEntry>) {
    forall i :: 0 <= i < |documents| ==> documents[i].firstId + documents[i].sourceTokenIds <= U64_MAX
  }

  method CheckEnds(documents: seq<DocumentEntry>) returns (r: Result<(), StorageError>)
    ensures r == if EndsFit(documents) then Ok(()) else Err(AccountingOverflow)
  {
    var i := 0;
    while i < |documents|
      invariant i <= |documents|
      invariant forall j :: 0 <= j < i ==> documents[j].firstId + documents[j].sourceTokenIds <= U64_MAX
    {
      if documents[i].firstId + documents[i].sourceTokenIds > U64_MAX {
        return Err(AccountingOverflow);
      }
      i := i + 1;
    }
    r := Ok(());
  }

  /** What opening a generation establishes. */
  ghost predicate Verified(m: Manifest, files: Files) {
    && Relations(m) && EndsFit(m.documents)
    && (forall i :: 0 <= i < |m.shards| ==> ShardVerified(m, m.shards[i], files))
    && forall s: Split :: SplitIndexed(m, s)
  }

  /** Opens a generation: the totals, every shard, and the indexes are checked. */
  method Open(m: Manifest, files: Files) returns (r: Result<(), StorageError>)
    requires Wide(m)
    ensures r.Ok? <==> Verified(m, files)
  {
    if !Relations(m) {
      return Err(ManifestRelationInvalid);
    }
    r := CheckEnds(m.documents);
    if r.Err? {
      return;
    }
    var i := 0;
    while i < |m.shards|
      invariant i <= |m.shards| && forall j :: 0 <= j < i ==> ShardVerified(m, m.shards[j], files)
    {
      r := VerifyShard(m, m.shards[i], files);
      if r.Err? {
        return;
      }
      i := i + 1;
    }
    var indexed := ValidateIndexes(m);
    r := if indexed then Ok(()) else Err(IndexInvalid);
  }

  lemma {:induction false} PartPosition<T>(s: seq<T>, of: T -> Split, i: nat) returns (j: nat)
    requires i < |s|
    ensures j < |Part(s, of, of(s[i]))| && Part(s, of, of(s[i]))[j] == s[i]
  {
    PartContains(s, of, of(s[i]), s[i]);
    assert s[i] in Part(s, of, of(s[i]));
    j :| 0 <= j < |Part(s, of, of(s[i]))| && Part(s, of, of(s[i]))[j] == s[i];
  }

  lemma {:induction false} FaithfulShard(m: Manifest, kept: seq<Document>, files: Files, i: nat)
    requires Faithful(m, kept, files) && Sound(kept, m.limits) && i < |m.shards|
    ensures Readable(m.shards[i], Stream(DocumentsOf(kept, m.shards[i].split)), files)
  {
    var s := m.shards[i].split;
    var j := PartPosition(m.shards, ShardSplit, i);
    SoundSplit(kept, m.limits, s);
    RepresentedShard(Part(m.shards, ShardSplit, s), s, m.limits.shardMaximumIds, Stream(DocumentsOf(kept, s)), files, j);
  }

  lemma {:induction false} ReadableIsVerified(m: Manifest, shard: Shard, own: seq<Document>, files: Files)
    requires Encoded(own) && Readable(shard, Stream(own), files)
    requires Part(m.documents, DocumentEntrySplit, shard.split) == SplitEntries(own)
    ensures ShardVerified(m, shard, files)
  {
    ReadableBytes(shard, Stream(own), files);
    MarksWhereIndexed(own);
    var words := WordsOf(shard, Stream(own), files);
    MarksOfPart(Stream(own), shard.firstId, words, EosPositions(SplitEntries(own)));
  }

  lemma {:induction false} FaithfulEndsFit(m: Manifest, kept: seq<Document>, files: Files)
    requires Faithful(m, kept, files) && Sound(kept, m.limits)
    ensures EndsFit(m.documents)
  {
    StreamWidths(kept, m.limits);
    forall k | 0 <= k < |kept| ensures Entries(kept)[k].firstId + Entries(kept)[k].sourceTokenIds <= U64_MAX {
      EntryAt(kept, k);
      EntryDescribes(kept, k);
    }
  }

  /** A faithful manifest is always accepted on opening. */
  lemma {:induction false} FaithfulIsVerified(m: Manifest, kept: seq<Document>, files: Files)
    requires Faithful(m, kept, files) && Sound(kept, m.limits) && Relations(m)
    ensures Verified(m, files)
  {
    forall s: Split ensures SplitIndexed(m, s) {
      FaithfulIsIndexed(m, kept, files, s);
    }
    FaithfulEndsFit(m, kept, files);
    forall i | 0 <= i < |m.shards| ensures ShardVerified(m, m.shards[i], files) {
      var s := m.shards[i].split;
      FaithfulShard(m, kept, files, i);
      SoundSplit(kept, m.limits, s);
      EntriesOfSplit(kept, s);
      ReadableIsVerified(m, m.shards[i], DocumentsOf(kept, s), files);
    }
  }

  // ----- reading -----

  method FindSpan(entries: seq<Entry>, split: Split, sequence: nat) returns (r: Option<Entry>)
    ensures r.Some? ==> r.value in OfSplit(entries, split) && r.value.sequence == sequence
    ensures r.None? ==> forall e :: e in OfSplit(entries, split) ==> e.sequence != sequence
  {
    var i := 0;
    while i < |entries|
      invariant i <= |entries|
      invariant forall j :: 0 <= j < i ==> entries[j].split != split || entries[j].sequence != sequence
    {
      if entries[i].split == split && entries[i].sequence == sequence {
        PartContains(entries, EntrySplit, split, entries[i]);
        return Some(entries[i]);
      }
      i := i + 1;
    }
    forall e | e in OfSplit(entries, split) ensures e.sequence != sequence {
      PartContains(entries, EntrySplit, split, e);
    }
    r := None;
  }

  ghost predicate IsSpan(ids: seq<nat>, stream: seq<nat>, e: Entry) {
    e.firstId + e.logicalIds <= |stream| && ids == stream[e.firstId..e.firstId + e.logicalIds]
  }

  lemma {:induction false} SpanIsReadable(m: Manifest, kept: seq<Document>, split: Split, e: Entry)
    requires SpansUpTo(m.sequences, kept, 3) && Sound(kept, m.limits)
    requires e in OfSplit(m.sequences, split)
    ensures var targets := TargetsOf(Usable(kept, split));
      && e.sequence < SpanCount(targets) && e == SpanAt(split, targets, e.sequence) && e.logicalIds > 0
      && e.firstId + e.logicalIds <= |Stream(DocumentsOf(kept, split))|
      && Measured(Stream(DocumentsOf(kept, split)), m.limits.shardMaximumIds)
  {
    SoundSplit(kept, m.limits, split);
    var targets := TargetsOf(Usable(kept, split));
    var tiling := Tiling(split, targets);
    var j :| 0 <= j < |tiling| && tiling[j] == e;
    assert e == SpanAt(split, targets, j);
  }

  lemma {:induction false} ServesSplit(m: Manifest, kept: seq<Document>, files: Files, s: Split)
    requires Faithful(m, kept, files) && Sound(kept, m.limits)
    ensures Serves(Part(m.shards, ShardSplit, s), s, m.limits.shardMaximumIds, Stream(DocumentsOf(kept, s)), files)
  {
    SoundSplit(kept, m.limits, s);
  }

  method ReadSpan(m: Manifest, files: Files, split: Split, e: Entry, ghost kept: seq<Document>)
    returns (r: Result<seq<nat>, StorageError>)
    requires e.firstId <= U64_MAX && e.logicalIds <= U64_MAX
    ensures Faithful(m, kept, files) && Sound(kept, m.limits) && e in OfSplit(m.sequences, split) ==>
      r.Ok? && IsSpan(r.value, Stream(DocumentsOf(kept, split)), e)
  {
    r := ReadRange(m.shards, files, split, e.firstId, e.logicalIds, Stream(DocumentsOf(kept, split)),
                   m.limits.shardMaximumIds);
    if Faithful(m, kept, files) && Sound(kept, m.limits) && e in OfSplit(m.sequences, split) {
      SpanIsReadable(m, kept, split, e);
      ServesSplit(m, kept, files, split);
    }
  }

  /** The answer of a faithful generation to a request for a sequence: the slice of
      the stream that the sequence covers, one id longer than its targets. */
  ghost predicate AnswersSequence(r: Result<seq<nat>, StorageError>, stream: seq<nat>, split: Split, targets: nat,
      sequence: nat)
  {
    if sequence < SpanCount(targets) then r.Ok? && IsSpan(r.value, stream, SpanAt(split, targets, sequence))
    else r == Err(SequenceNotFound)
  }

  lemma {:induction false} SequenceFound(m: Manifest, kept: seq<Document>, split: Split, sequence: nat, found: Option<Entry>)
    requires SpansUpTo(m.sequences, kept, 3) && Sound(kept, m.limits)
    requires found.Some? ==> found.value in OfSplit(m.sequences, split) && found.value.sequence == sequence
    requires found.None? ==> forall e :: e in OfSplit(m.sequences, split) ==> e.sequence != sequence
    ensures var targets := TargetsOf(Usable(kept, split));
      if sequence < SpanCount(targets) then found == Some(SpanAt(split, targets, sequence)) else found.None?
  {
    var tiling := Tiling(split, TargetsOf(Usable(kept, split)));
    if found.Some? {
      SpanIsReadable(m, kept, split, found.value);
    } else if sequence < |tiling| {
      assert tiling[sequence] in OfSplit(m.sequences, split);
    }
  }

  method ReadSequence(m: Manifest, files: Files, split: Split, sequence: nat, ghost kept: seq<Document>)
    returns (r: Result<seq<nat>, StorageError>)
    requires forall e :: e in m.sequences ==> e.firstId <= U64_MAX && e.logicalIds <= U64_MAX
    ensures Faithful(m, kept, files) && Sound(kept, m.limits) ==>
      AnswersSequence(r, Stream(DocumentsOf(kept, split)), split, TargetsOf(Usable(kept, split)), sequence)
  {
    var found := FindSpan(m.sequences, split, sequence);
    if Faithful(m, kept, files) && Sound(kept, m.limits) {
      SequenceFound(m, kept, split, sequence, found);
    }
    if found.None? {
      return Err(SequenceNotFound);
    }
    PartContains(m.sequences, EntrySplit, split, found.value);
    r := ReadSpan(m, files, split, found.value, kept);
  }

  lemma {:induction false} SequenceWidths(m: Manifest, kept: seq<Document>, files: Files)
    requires Faithful(m, kept, files) && Sound(kept, m.limits)
    ensures forall e :: e in m.sequences ==> e.firstId <= U64_MAX && e.logicalIds <= U64_MAX
  {
    forall e | e in m.sequences ensures e.firstId <= U64_MAX && e.logicalIds <= U64_MAX {
      PartContains(m.sequences, EntrySplit, e.split, e);
      SpanIsReadable(m, kept, e.split, e);
    }
  }

  /** A span loader accepts every split of a faithful index. */
  lemma {:induction false} LoaderAccepts(m: Manifest, kept: seq<Document>, split: Split)
    requires SpansUpTo(m.sequences, kept, 3) && Sound(kept, m.limits)
    ensures Contiguous(OfSplit(m.sequences, split))
    ensures Targets(OfSplit(m.sequences, split), |OfSplit(m.sequences, split)|) == TargetsOf(Usable(kept, split))
  {
    SoundSplit(kept, m.limits, split);
    TilingCovers(split, TargetsOf(Usable(kept, split)));
  }

  // ----- reading documents -----

  method FindDocument(entries: seq<DocumentEntry>, key: nat) returns (r: Option<DocumentEntry>)
    ensures r.Some? ==> r.value in entries && r.value.key == key
    ensures r.None? ==> forall e :: e in entries ==> e.key != key
  {
    var i := 0;
    while i < |entries|
      invariant i <= |entries| && forall j :: 0 <= j < i ==> entries[j].key != key
    {
      if entries[i].key == key {
        return Some(entries[i]);
      }
      i := i + 1;
    }
    r := None;
  }

  /** The entry describes this document and where it lies in its split's stream. */
  ghost predicate Describes(e: DocumentEntry, d: Document, stream: seq<nat>) {
    && e.split == d.split && e.key == d.key && e.storedIds == |d.ids| + 1
    && LiesAt(stream, e.firstId, d.ids)
  }

  lemma {:induction false} DocumentDescribed(own: seq<Document>, j: nat)
    requires j < |own|
    ensures Describes(EntryFor(own[..j], own[j]), own[j], Stream(own))
  {
    DocumentLies(own, j);
  }

  lemma {:induction false} PlaceInSplit(kept: seq<Document>, k: nat) returns (j: nat)
    requires k < |kept|
    ensures var own := DocumentsOf(kept, kept[k].split);
      j < |own| && own[j] == kept[k] && own[..j] == DocumentsOf(kept[..k], kept[k].split)
  {
    PartPlace(kept, DocumentSplit, kept[k].split, k);
    PartPrefix(kept, DocumentSplit, kept[k].split, k);
    j := |DocumentsOf(kept[..k], kept[k].split)|;
  }

  lemma {:induction false} EntryDescribes(kept: seq<Document>, k: nat)
    requires k < |kept|
    ensures Entries(kept)[k].split == kept[k].split
    ensures Describes(Entries(kept)[k], kept[k], Stream(DocumentsOf(kept, kept[k].split)))
  {
    EntryAt(kept, k);
    var j := PlaceInSplit(kept, k);
    DocumentDescribed(DocumentsOf(kept, kept[k].split), j);
  }

  lemma {:induction false} EntryAt(kept: seq<Document>, k: nat)
    requires k < |kept|
    ensures Entries(kept)[k] == EntryFor(DocumentsOf(kept[..k], kept[k].split), kept[k])
  {
    var n := |kept| - 1;
    if k < n {
      EntryAt(kept[..n], k);
      assert kept[..n][..k] == kept[..k];
    }
  }

  ghost predicate DistinctDocuments(kept: seq<Document>) {
    forall i, j :: 0 <= i < j < |kept| ==> kept[i].key != kept[j].key
  }

  lemma {:induction false} DocumentFound(kept: seq<Document>, d: Document, found: Option<DocumentEntry>)
    requires d in kept && DistinctDocuments(kept)
    requires found.Some? ==> found.value in Entries(kept) && found.value.key == d.key
    requires found.None? ==> forall e :: e in Entries(kept) ==> e.key != d.key
    ensures found.Some? && Describes(found.value, d, Stream(DocumentsOf(kept, d.split)))
  {
    var k :| 0 <= k < |kept| && kept[k] == d;
    EntryDescribes(kept, k);
    assert Entries(kept)[k] in Entries(kept);
    var j :| 0 <= j < |kept| && Entries(kept)[j] == found.value;
    EntryDescribes(kept, j);
  }

  /** Reads a stored document: its encoding and one end mark. */
  method ReadDocumentTokens(m: Manifest, files: Files, key: nat, ghost kept: seq<Document>, ghost d: Document)
    returns (r: Result<seq<nat>, StorageError>)
    requires forall e :: e in m.documents ==> e.firstId <= U64_MAX && e.storedIds <= U64_MAX
    ensures Faithful(m, kept, files) && Sound(kept, m.limits) && DistinctDocuments(kept) && d in kept && d.key == key ==>
      r.Ok? && r.value == d.ids + [EOS_ID]
    ensures (forall e :: e in m.documents ==> e.key != key) ==> r == Err(DocumentNotFound)
  {
    var found := FindDocument(m.documents, key);
    if Faithful(m, kept, files) && Sound(kept, m.limits) && DistinctDocuments(kept) && d in kept && d.key == key {
      DocumentFound(kept, d, found);
      ServesSplit(m, kept, files, d.split);
    }
    if found.None? {
      return Err(DocumentNotFound);
    }
    r := ReadEntry(m, files, found.value, Stream(DocumentsOf(kept, d.split)), d);
  }

  lemma {:induction false} EntryAnswer(e: DocumentEntry, d: Document, stream: seq<nat>, r: Result<seq<nat>, StorageError>)
    requires Describes(e, d, stream)
    requires r.Ok? <==> e.firstId + e.storedIds <= |stream| || e.storedIds == 0
    requires r.Ok? && e.storedIds > 0 ==> r.value == stream[e.firstId..e.firstId + e.storedIds]
    ensures r.Ok? && r.value == d.ids + [EOS_ID]
  {
  }

  ghost predicate EntryServed(m: Manifest, files: Files, e: DocumentEntry, stream: seq<nat>, d: Document) {
    && Describes(e, d, stream)
    && Serves(Part(m.shards, ShardSplit, e.split), e.split, m.limits.shardMaximumIds, stream, files)
  }

  method ReadEntry(m: Manifest, files: Files, e: DocumentEntry, ghost stream: seq<nat>, ghost d: Document)
    returns (r: Result<seq<nat>, StorageError>)
    requires e.firstId <= U64_MAX && e.storedIds <= U64_MAX
    ensures EntryServed(m, files, e, stream, d) ==> r.Ok? && r.value == d.ids + [EOS_ID]
  {
    r := ReadRange(m.shards, files, e.split, e.firstId, e.storedIds, stream, m.limits.shardMaximumIds);
    if EntryServed(m, files, e, stream, d) {
      EntryAnswer(e, d, stream, r);
    }
    if r.Ok? && (r.value == [] || r.value[|r.value| - 1] != EOS_ID) {
      r := Err(DocumentEosMissing);
    }
  }

  // ----- the whole chain -----

  lemma {:induction false} KeptDistinct(docs: seq<Document>)
    requires DistinctDocuments(docs)
    ensures DistinctDocuments(Kept(docs))
  {
    if docs != [] {
      var n := |docs| - 1;
      KeptDistinct(docs[..n]);
      var kept := Kept(docs[..n]);
      forall i | 0 <= i < |kept| ensures kept[i].key != docs[n].key {
        KeptAreDocuments(docs[..n], kept[i]);
      }
    }
  }

  lemma {:induction false} OrderedDistinct(t: Tokenizer.Tokenizer, governed: seq<Governed>)
    requires Sorting.DistinctKeys(governed, GovernedKey)
    ensures DistinctDocuments(Ordered(t, governed))
  {
    var byKey := Sorting.SortBy(governed, GovernedKey);
    Sorting.SortStrict(governed, GovernedKey);
    assert forall i, j :: 0 <= i < j < |byKey| ==> GovernedKey(byKey[i]) < GovernedKey(byKey[j]);
    Sorting.SortDistinct(byKey, SplitRank, GovernedKey);
    var sorted := InOrder(governed);
    assert forall i, j :: 0 <= i < j < |sorted| ==> GovernedKey(sorted[i]) != GovernedKey(sorted[j]);
  }

  lemma {:induction false} StreamWidths(kept: seq<Document>, limits: Limits)
    requires Sound(kept, limits)
    ensures forall s: Split ::
      |Stream(DocumentsOf(kept, s))| <= U64_MAX && Streams.Bytes(DocumentsOf(kept, s)) <= U64_MAX
  {
    SplitTotals(kept);
  }

  lemma {:induction false} AccountWidths(kept: seq<Document>, limits: Limits)
    requires Sound(kept, limits)
    ensures forall i :: 0 <= i < 3 ==>
      Accounts(kept)[i].storedIds <= U64_MAX && Accounts(kept)[i].sourceBytes <= U64_MAX
  {
    StreamWidths(kept, limits);
    var accounts := Accounts(kept);
    assert accounts[0] == AccountFor(Train, DocumentsOf(kept, Train));
    assert accounts[1] == AccountFor(Validation, DocumentsOf(kept, Validation));
    assert accounts[2] == AccountFor(Test, DocumentsOf(kept, Test));
  }

  lemma {:induction false} PrefixWidth(kept: seq<Document>, limits: Limits)
    requires Sound(kept, limits)
    ensures Usable(kept, Train) <= U64_MAX
  {
    StreamWidths(kept, limits);
  }

  lemma {:induction false} FaithfulIsWide(m: Manifest, kept: seq<Document>, files: Files)
    requires Faithful(m, kept, files) && Sound(kept, m.limits)
    ensures Wide(m)
  {
    AccountWidths(kept, m.limits);
    PrefixWidth(kept, m.limits);
  }

  /** A materialized corpus always opens. */
  method TokenizeAndOpen(t: Tokenizer.Tokenizer, governed: seq<Governed>, limits: Limits)
    returns (m: Manifest, generation: Generation, checked: Result<(), StorageError>)
    requires FullTokenizer(t) && Accepted(governed, limits) && Fits(Kept(Ordered(t, governed)), limits.maximumStoredIds)
    ensures fresh(generation) && checked.Ok? && m.limits == limits
    ensures Faithful(m, Kept(Ordered(t, governed)), generation.files) && Wide(m)
    ensures Sound(Kept(Ordered(t, governed)), limits) && DistinctDocuments(Kept(Ordered(t, governed)))
  {
    ghost var kept := Kept(Ordered(t, governed));
    OrderedDistinct(t, governed);
    KeptDistinct(Ordered(t, governed));
    var result: Result<Manifest, StorageError>;
    result, generation := Tokenize(t, governed, limits);
    m := result.value;
    FaithfulIsWide(m, kept, generation.files);
    FaithfulIsVerified(m, kept, generation.files);
    checked := Open(m, generation.files);
  }

  lemma {:induction false} DocumentWidths(m: Manifest, kept: seq<Document>, files: Files)
    requires Faithful(m, kept, files) && Sound(kept, m.limits)
    ensures forall e :: e in m.documents ==> e.firstId <= U64_MAX && e.storedIds <= U64_MAX
  {
    StreamWidths(kept, m.limits);
    forall e | e in m.documents ensures e.firstId <= U64_MAX && e.storedIds <= U64_MAX {
      var k :| 0 <= k < |kept| && Entries(kept)[k] == e;
      EntryDescribes(kept, k);
    }
  }

  /** Every document that was kept reads back as its encoding and one end mark, and
      the encoding decodes to the document. */
  method ReadBack(t: Tokenizer.Tokenizer, g: Governed, m: Manifest, files: Files, ghost kept: seq<Document>)
    returns (tokens: Result<seq<nat>, StorageError>)
    requires FullTokenizer(t) && Faithful(m, kept, files) && Sound(kept, m.limits) && DistinctDocuments(kept)
    requires EncodedDocument(t.merges, g) in kept && Storable(|g.source|)
    ensures tokens.Ok? && tokens.value == Bpe.ReferenceEncode(g.source, t.merges) + [EOS_ID]
    ensures Decoder.DecodeIds(t.merges, tokens.value[..|tokens.value| - 1], []) == Decoder.Source(g.source)
  {
    ghost var d := EncodedDocument(t.merges, g);
    DocumentWidths(m, kept, files);
    tokens := ReadDocumentTokens(m, files, g.key, kept, d);
    EncodingIsStorable(t.merges, g.source);
    assert tokens.value[..|tokens.value| - 1] == d.ids;
  }
}
