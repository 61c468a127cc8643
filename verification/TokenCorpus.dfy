/**
A token generation: the stored documents with their shards, indexes and accounting,
the checks a reader runs on it, and reading from it.
*/
module TokenCorpus {
  import opened CorpusSplit
  import opened Machine
  import opened Materialize
  import opened Outcomes
  import opened SequenceIndex
  import opened Shards
  import opened Streams
  import opened TokenIndex
  import Bpe
  import Sorting
  import Tokenizer

  datatype Limits = Limits(maximumDocuments: nat, maximumBytes: nat, maximumStoredIds: nat, shardMaximumIds: nat)

  datatype Account = Account(
    split: Split, documents: nat, sourceBytes: nat, sourceTokenIds: nat, eosIds: nat, storedIds: nat, validTargets: nat)

  datatype Accounting = Accounting(
    inputDocuments: nat, inputBytes: nat, materialized: nat, storedIds: nat, prefixIds: nat, prefixTargets: nat,
    unusedTailIds: nat, unmaterialized: nat, unmaterializedBytes: nat, targetSatisfied: bool)

  datatype Manifest = Manifest(
    shards: seq<Shard>, documents: seq<DocumentEntry>, sequences: seq<Entry>, streams: seq<Account>,
    accounting: Accounting, limits: Limits)

  // ----- closing the shards -----

  ghost function AccountFor(split: Split, own: seq<Document>): Account {
    Account(split, |own|, Streams.Bytes(own), SourceIds(own), |own|, |Stream(own)|, TargetsOf(|Stream(own)|))
  }

  lemma {:induction false} RepresentsElsewhere(shards: seq<Shard>, own: Split, max: nat, stream: seq<nat>, before: Files, after: Files,
      split: Split)
    requires Represents(shards, own, max, stream, before) && OnlySplit(before, after, split) && own != split
    ensures Represents(shards, own, max, stream, after)
  {
    forall i | 0 <= i < |shards| - 1
      ensures Carries(shards[i], own, i, Start(max, i), max, stream, after)
    {
      assert Carries(shards[i], own, i, Start(max, i), max, stream, before);
      assert Path(own, i) in before;
    }
    if shards != [] {
      assert Path(own, |shards| - 1) in before;
    }
  }

  lemma {:induction false} RepresentsOwnSplit(shards: seq<Shard>, split: Split, max: nat, stream: seq<nat>, files: Files)
    requires Represents(shards, split, max, stream, files)
    ensures forall i :: 0 <= i < |shards| ==> ShardSplit(shards[i]) == split
  {
    forall i | 0 <= i < |shards| ensures ShardSplit(shards[i]) == split {
      if i < |shards| - 1 {
        assert Carries(shards[i], split, i, Start(max, i), max, stream, files);
      }
    }
  }

  /** Closes one split's stream: what is left is written, and the account is taken. */
  method FinishSplit(writer: ShardWriter, generation: Generation, ghost own: seq<Document>) returns (account: Account)
    requires generation as object != writer && Tracks(writer, own, generation.files)
    modifies writer`buffer, writer`flushedIds, writer`shards, generation
    ensures account == AccountFor(writer.split, own)
    ensures Represents(writer.shards, writer.split, writer.maximumIds, Stream(own), generation.files)
    ensures OnlySplit(old(generation.files), generation.files, writer.split)
  {
    var finished := writer.Finish(generation, Stream(own));
    assert finished.Ok?;
    account := Account(writer.split, writer.documents, writer.sourceBytes, writer.sourceTokenIds, writer.documents,
                       writer.storedIds, TargetsOf(writer.storedIds));
  }

  /** Each split's shards are its kept documents' stream. */
  ghost predicate AllRepresented(shards: seq<Shard>, max: nat, kept: seq<Document>, files: Files) {
    forall s: Split :: Represents(Part(shards, ShardSplit, s), s, max, Stream(DocumentsOf(kept, s)), files)
  }

  ghost function Accounts(kept: seq<Document>): seq<Account> {
    [AccountFor(Train, DocumentsOf(kept, Train)), AccountFor(Validation, DocumentsOf(kept, Validation)),
     AccountFor(Test, DocumentsOf(kept, Test))]
  }

  lemma {:induction false} JoinedParts(a: seq<Shard>, b: seq<Shard>, c: seq<Shard>, s: Split)
    requires forall i :: 0 <= i < |a| ==> ShardSplit(a[i]) == Train
    requires forall i :: 0 <= i < |b| ==> ShardSplit(b[i]) == Validation
    requires forall i :: 0 <= i < |c| ==> ShardSplit(c[i]) == Test
    ensures Part(a + b + c, ShardSplit, s) == match s case Train => a case Validation => b case Test => c
  {
    PartJoin(a + b, c, ShardSplit, s);
    PartJoin(a, b, ShardSplit, s);
    PartUniform(a, ShardSplit, s, Train);
    PartUniform(b, ShardSplit, s, Validation);
    PartUniform(c, ShardSplit, s, Test);
  }

  method FinishAll(writers: Writers, generation: Generation, ghost kept: seq<Document>, ghost max: nat)
    returns (shards: seq<Shard>, streams: seq<Account>)
    requires Separate(writers, generation, max) && Stored(writers, kept, generation.files)
    modifies writers.Values, generation
    ensures AllRepresented(shards, max, kept, generation.files) && streams == Accounts(kept)
  {
    var train, validation, test := writers[Train], writers[Validation], writers[Test];
    ghost var a, b, c := Stream(DocumentsOf(kept, Train)), Stream(DocumentsOf(kept, Validation)),
                         Stream(DocumentsOf(kept, Test));
    ghost var start := generation.files;
    var first := FinishSplit(train, generation, DocumentsOf(kept, Train));
    ghost var one := generation.files;
    HoldsElsewhere(validation, b, start, one, Train);
    HoldsElsewhere(test, c, start, one, Train);
    var second := FinishSplit(validation, generation, DocumentsOf(kept, Validation));
    ghost var two := generation.files;
    RepresentsElsewhere(train.shards, Train, max, a, one, two, Validation);
    HoldsElsewhere(test, c, one, two, Validation);
    var third := FinishSplit(test, generation, DocumentsOf(kept, Test));
    RepresentsElsewhere(train.shards, Train, max, a, two, generation.files, Test);
    RepresentsElsewhere(validation.shards, Validation, max, b, two, generation.files, Test);
    shards, streams := train.shards + validation.shards + test.shards, [first, second, third];
    RepresentsOwnSplit(train.shards, Train, max, a, generation.files);
    RepresentsOwnSplit(validation.shards, Validation, max, b, generation.files);
    RepresentsOwnSplit(test.shards, Test, max, c, generation.files);
    forall s: Split
      ensures Represents(Part(shards, ShardSplit, s), s, max, Stream(DocumentsOf(kept, s)), generation.files)
    {
      JoinedParts(train.shards, validation.shards, test.shards, s);
    }
  }

  // ----- the sequence index -----

  function UsableIds(split: Split, storedIds: nat): nat {
    if split == Train then Least(storedIds, TRAINING_PREFIX_IDS) else storedIds
  }

  ghost function Usable(kept: seq<Document>, s: Split): nat {
    UsableIds(s, |Stream(DocumentsOf(kept, s))|)
  }

  function Place(s: Split): nat {
    match s
    case Train => 0
    case Validation => 1
    case Test => 2
  }

  /** The spans of the first i streams. */
  ghost predicate SpansUpTo(entries: seq<Entry>, kept: seq<Document>, i: nat) {
    forall s: Split ::
      OfSplit(entries, s) == if Place(s) < i then Tiling(s, TargetsOf(Usable(kept, s))) else []
  }

  lemma {:induction false} SpansMoreOf(entries: seq<Entry>, targets: nat, own: Split, s: Split)
    ensures OfSplit(entries + Tiling(own, targets), s)
         == if s == own then OfSplit(entries, s) + Tiling(own, targets) else OfSplit(entries, s)
  {
    var tiling := Tiling(own, targets);
    PartJoin(entries, tiling, EntrySplit, s);
    PartUniform(tiling, EntrySplit, s, own);
    assert OfSplit(entries, s) + [] == OfSplit(entries, s);
  }

  lemma {:induction false} SpansMore(entries: seq<Entry>, kept: seq<Document>, own: Split)
    requires SpansUpTo(entries, kept, Place(own))
    ensures SpansUpTo(entries + Tiling(own, TargetsOf(Usable(kept, own))), kept, Place(own) + 1)
  {
    var targets := TargetsOf(Usable(kept, own));
    var grown := entries + Tiling(own, targets);
    forall s: Split
      ensures OfSplit(grown, s) == if Place(s) < Place(own) + 1 then Tiling(s, TargetsOf(Usable(kept, s))) else []
    {
      SpansMoreOf(entries, targets, own, s);
      assert [] + Tiling(own, targets) == Tiling(own, targets);
    }
  }

  lemma {:induction false} AccountAt(kept: seq<Document>, i: nat)
    requires i < 3
    ensures var account := Accounts(kept)[i];
      Place(account.split) == i && UsableIds(account.split, account.storedIds) == Usable(kept, account.split)
  {
  }

  /** The spans of all streams, in the streams' order. */
  method BuildSequences(streams: seq<Account>, prefix: nat, ghost kept: seq<Document>) returns (entries: seq<Entry>)
    requires streams == Accounts(kept) && prefix == Usable(kept, Train)
    ensures SpansUpTo(entries, kept, 3)
  {
    entries := [];
    var i := 0;
    while i < |streams|
      invariant i <= |streams| == 3 && SpansUpTo(entries, kept, i)
    {
      var stream := streams[i];
      AccountAt(kept, i);
      SpansMore(entries, kept, stream.split);
      entries := AppendSpans(entries, stream.split, if stream.split == Train then prefix else stream.storedIds);
      i := i + 1;
    }
  }

  // ----- totals over the splits -----

  lemma {:induction false} SplitTotals(kept: seq<Document>)
    ensures var a, b, c := DocumentsOf(kept, Train), DocumentsOf(kept, Validation), DocumentsOf(kept, Test);
      && |Stream(a)| + |Stream(b)| + |Stream(c)| == StoredTotal(kept)
      && Streams.Bytes(a) + Streams.Bytes(b) + Streams.Bytes(c) == Streams.Bytes(kept)
      && |a| + |b| + |c| == |kept|
  {
    if kept != [] {
      var n := |kept| - 1;
      var front, d := kept[..n], kept[n];
      SplitTotals(front);
      assert kept == front + [d];
      Streams.Next(front, d);
      DocumentsNext(front, d, Train);
      DocumentsNext(front, d, Validation);
      DocumentsNext(front, d, Test);
      Streams.Next(DocumentsOf(front, d.split), d);
    }
  }

  function SumShards(shards: seq<Shard>): nat {
    ShardIds(shards, |shards|)
  }

  lemma {:induction false} ShardIdsPrefix(a: seq<Shard>, b: seq<Shard>, n: nat)
    requires n <= |a| && n <= |b| && a[..n] == b[..n]
    ensures ShardIds(a, n) == ShardIds(b, n)
    decreases n
  {
    if n > 0 {
      assert a[..n][n - 1] == b[..n][n - 1];
      assert a[..n - 1] == a[..n][..n - 1] && b[..n - 1] == b[..n][..n - 1];
      ShardIdsPrefix(a, b, n - 1);
    }
  }

  lemma {:induction false} SumShardsNext(shards: seq<Shard>, shard: Shard)
    ensures SumShards(shards + [shard]) == SumShards(shards) + shard.ids
  {
    ShardIdsPrefix(shards + [shard], shards, |shards|);
  }

  lemma {:induction false} SumShardsBySplit(shards: seq<Shard>)
    ensures SumShards(shards) == SumShards(Part(shards, ShardSplit, Train))
      + SumShards(Part(shards, ShardSplit, Validation)) + SumShards(Part(shards, ShardSplit, Test))
  {
    if shards != [] {
      var n := |shards| - 1;
      SumShardsBySplit(shards[..n]);
      assert shards == shards[..n] + [shards[n]];
      SumShardsNext(shards[..n], shards[n]);
      SumShardsNext(Part(shards[..n], ShardSplit, shards[n].split), shards[n]);
      forall s: Split ensures Part(shards, ShardSplit, s)
          == if s == shards[n].split then Part(shards[..n], ShardSplit, s) + [shards[n]] else Part(shards[..n], ShardSplit, s)
      {
        PartSnoc(shards[..n], shards[n], ShardSplit, s);
      }
    }
  }

  // ----- accounting -----

  function AccountSplit(a: Account): Split { a.split }

  /** Three streams, one for each split, each adding up by itself. */
  predicate StreamsAddUp(streams: seq<Account>, a: Accounting) {
    && |streams| == 3
    && streams[0].split != streams[1].split && streams[0].split != streams[2].split
    && streams[1].split != streams[2].split
    && StreamAddsUp(streams[0]) && StreamAddsUp(streams[1]) && StreamAddsUp(streams[2])
    && streams[0].storedIds + streams[1].storedIds + streams[2].storedIds == a.storedIds
    && streams[0].sourceBytes + streams[1].sourceBytes + streams[2].sourceBytes + a.unmaterializedBytes == a.inputBytes
    && (forall i :: 0 <= i < 3 && streams[i].split == Train ==> PrefixAddsUp(streams[i], a))
  }

  predicate TotalsAddUp(a: Accounting, limits: Limits) {
    && a.storedIds <= limits.maximumStoredIds
    && a.inputDocuments <= limits.maximumDocuments && a.inputBytes <= limits.maximumBytes
    && a.materialized + a.unmaterialized == a.inputDocuments
    && a.prefixTargets == TargetsOf(a.prefixIds) && (a.targetSatisfied <==> a.prefixIds == TRAINING_PREFIX_IDS)
  }

  /** The relations between a manifest's totals. */
  predicate Relations(m: Manifest) {
    && SumShards(m.shards) == m.accounting.storedIds && |m.documents| == m.accounting.materialized
    && StreamsAddUp(m.streams, m.accounting) && TotalsAddUp(m.accounting, m.limits)
  }

  predicate StreamAddsUp(s: Account) {
    s.sourceTokenIds + s.eosIds == s.storedIds && s.eosIds == s.documents && s.validTargets == TargetsOf(s.storedIds)
  }

  predicate PrefixAddsUp(train: Account, a: Accounting) {
    a.prefixIds == Least(train.storedIds, TRAINING_PREFIX_IDS) && train.storedIds - a.prefixIds == a.unusedTailIds
  }

  /** A stream's account, recounted from its documents and ids. */
  ghost predicate Recounted(s: Account) {
    && s.documents <= s.storedIds
    && s == Account(s.split, s.documents, s.sourceBytes, s.storedIds - s.documents, s.documents, s.storedIds,
                    if s.storedIds == 0 then 0 else s.storedIds - 1)
  }

  ghost function TrainIds(streams: seq<Account>): nat
    requires |streams| == 3
  {
    if streams[0].split == Train then streams[0].storedIds
    else if streams[1].split == Train then streams[1].storedIds
    else streams[2].storedIds
  }

  /** The accounting, recounted from the shards, the document index and the streams; only
      what was left out of training is taken on trust. */
  ghost predicate AccountingRecounted(m: Manifest)
    requires |m.streams| == 3
  {
    var a, streams, train := m.accounting, m.streams, TrainIds(m.streams);
    var prefix := if train < 2_000_000_001 then train else 2_000_000_001;
    a == Accounting(|m.documents| + a.unmaterialized,
      streams[0].sourceBytes + streams[1].sourceBytes + streams[2].sourceBytes + a.unmaterializedBytes,
      |m.documents|, SumShards(m.shards), prefix, if prefix == 0 then 0 else prefix - 1, train - prefix,
      a.unmaterialized, a.unmaterializedBytes, train >= 2_000_000_001)
  }

  /** The relation check accepts exactly the manifests of three streams, one for each
      split, whose accounts are what recounting gives and stay within the limits. */
  lemma {:induction false} RelationsRecount(m: Manifest)
    ensures Relations(m) <==>
      && |m.streams| == 3 && {m.streams[0].split, m.streams[1].split, m.streams[2].split} == {Train, Validation, Test}
      && (forall i :: 0 <= i < 3 ==> Recounted(m.streams[i]))
      && AccountingRecounted(m)
      && m.streams[0].storedIds + m.streams[1].storedIds + m.streams[2].storedIds == m.accounting.storedIds
      && m.accounting.storedIds <= m.limits.maximumStoredIds
      && m.accounting.inputDocuments <= m.limits.maximumDocuments && m.accounting.inputBytes <= m.limits.maximumBytes
  {
    if |m.streams| == 3 {
      var a, b, c := m.streams[0].split, m.streams[1].split, m.streams[2].split;
      ThreeSplits(a, b, c);
      assert forall i :: 0 <= i < 3 ==> (StreamAddsUp(m.streams[i]) <==> Recounted(m.streams[i]));
      if a != b && b != c && a != c {
        TrainPrefix(m);
      }
    }
  }

  lemma {:induction false} ThreeSplits(a: Split, b: Split, c: Split)
    ensures a != b && a != c && b != c <==> {a, b, c} == {Train, Validation, Test}
  {
    if {a, b, c} == {Train, Validation, Test} {
      assert Train in {a, b, c} && Validation in {a, b, c} && Test in {a, b, c};
    }
  }

  lemma {:induction false} TrainPrefix(m: Manifest)
    requires |m.streams| == 3
    requires var s := m.streams; {s[0].split, s[1].split, s[2].split} == {Train, Validation, Test}
    requires var s := m.streams; s[0].split != s[1].split && s[1].split != s[2].split && s[0].split != s[2].split
    ensures (forall i :: 0 <= i < 3 && m.streams[i].split == Train ==> PrefixAddsUp(m.streams[i], m.accounting))
      <==> m.accounting.prefixIds == Least(TrainIds(m.streams), TRAINING_PREFIX_IDS)
           && m.accounting.unusedTailIds == TrainIds(m.streams) - m.accounting.prefixIds
  {
    assert Train in {m.streams[0].split, m.streams[1].split, m.streams[2].split};
  }

  /** The manifest is the record of these kept documents, and its shards hold them. */
  ghost predicate Faithful(m: Manifest, kept: seq<Document>, files: Files) {
    && AllRepresented(m.shards, m.limits.shardMaximumIds, kept, files)
    && m.documents == Entries(kept) && SpansUpTo(m.sequences, kept, 3) && m.streams == Accounts(kept)
    && m.accounting.prefixIds == Usable(kept, Train)
  }

  /** What storing guarantees of the documents themselves. */
  ghost predicate Sound(kept: seq<Document>, limits: Limits) {
    && 0 < limits.shardMaximumIds <= MAX_SHARD_IDS && Encoded(kept)
    && (forall s: Split :: KeysAscend(DocumentsOf(kept, s)) && StoredIds(Stream(DocumentsOf(kept, s))))
    && StoredTotal(kept) <= U64_MAX && Streams.Bytes(kept) <= U64_MAX
  }

  lemma {:induction false} SoundSplit(kept: seq<Document>, limits: Limits, s: Split)
    requires Sound(kept, limits)
    ensures Measured(Stream(DocumentsOf(kept, s)), limits.shardMaximumIds)
    ensures Streams.Bytes(DocumentsOf(kept, s)) <= U64_MAX && Encoded(DocumentsOf(kept, s))
  {
    SplitTotals(kept);
    var own := DocumentsOf(kept, s);
    forall k | 0 <= k < |own| ensures EOS_ID !in own[k].ids {
      PartContains(kept, DocumentSplit, s, own[k]);
    }
  }

  lemma {:induction false} ShardsAddUp(m: Manifest, kept: seq<Document>, files: Files)
    requires Faithful(m, kept, files) && Sound(kept, m.limits)
    ensures SumShards(m.shards) == StoredTotal(kept)
  {
    SumShardsBySplit(m.shards);
    SplitTotals(kept);
    forall s: Split ensures SumShards(Part(m.shards, ShardSplit, s)) == |Stream(DocumentsOf(kept, s))| {
      SoundSplit(kept, m.limits, s);
      RepresentedShardsCover(Part(m.shards, ShardSplit, s), s, m.limits.shardMaximumIds, Stream(DocumentsOf(kept, s)), files);
    }
  }

  lemma {:induction false} AccountAddsUp(s: Split, own: seq<Document>)
    ensures StreamAddsUp(AccountFor(s, own))
  {
    StreamLength(own);
  }

  /** The totals that the loop counted. */
  ghost predicate Counted(a: Accounting, seen: seq<Document>, kept: seq<Document>, limits: Limits) {
    var train := |Stream(DocumentsOf(kept, Train))|;
    && a.inputDocuments == |seen| <= limits.maximumDocuments
    && a.inputBytes == Streams.Bytes(seen) <= limits.maximumBytes
    && a.materialized == |kept| && a.storedIds == StoredTotal(kept) <= limits.maximumStoredIds
    && a.prefixIds == Usable(kept, Train) && a.prefixTargets == TargetsOf(a.prefixIds)
    && a.unusedTailIds == train - a.prefixIds
    && a.unmaterialized + |kept| == |seen| && a.unmaterializedBytes + Streams.Bytes(kept) == Streams.Bytes(seen)
    && (a.targetSatisfied <==> train >= TRAINING_PREFIX_IDS)
  }

  lemma {:induction false} CountedStreams(a: Accounting, seen: seq<Document>, kept: seq<Document>, limits: Limits)
    requires Counted(a, seen, kept, limits)
    ensures StreamsAddUp(Accounts(kept), a)
  {
    SplitTotals(kept);
    AccountAddsUp(Train, DocumentsOf(kept, Train));
    AccountAddsUp(Validation, DocumentsOf(kept, Validation));
    AccountAddsUp(Test, DocumentsOf(kept, Test));
    var train := AccountFor(Train, DocumentsOf(kept, Train));
    assert PrefixAddsUp(train, a);
    assert Accounts(kept)[0] == train && Accounts(kept)[1].split == Validation && Accounts(kept)[2].split == Test;
  }

  /** What the loop counted always passes the relation check. */
  lemma {:induction false} CountedRelates(m: Manifest, seen: seq<Document>, kept: seq<Document>, files: Files)
    requires Faithful(m, kept, files) && Sound(kept, m.limits) && Counted(m.accounting, seen, kept, m.limits)
    ensures Relations(m)
  {
    ShardsAddUp(m, kept, files);
    CountedStreams(m.accounting, seen, kept, m.limits);
  }

  // ----- the whole materialization -----

  /** The limits and the corpus as they are once the configuration and the corpus
      manifest have been accepted. */
  ghost predicate Accepted(governed: seq<Governed>, limits: Limits) {
    && 0 < limits.shardMaximumIds <= MAX_SHARD_IDS && limits.maximumStoredIds <= U64_MAX
    && |governed| <= limits.maximumDocuments && GovernedBytes(governed) <= limits.maximumBytes <= U64_MAX
    && Sorting.DistinctKeys(governed, GovernedKey)
    && forall g :: g in governed ==> 0 < |g.source| <= Bpe.NONE
  }

  function GovernedBytes(governed: seq<Governed>): nat {
    if governed == [] then 0 else GovernedBytes(governed[..|governed| - 1]) + |governed[|governed| - 1].source|
  }

  lemma {:induction false} GovernedBytesNext(s: seq<Governed>, x: Governed)
    ensures GovernedBytes(s + [x]) == GovernedBytes(s) + |x.source|
  {
    assert (s + [x])[..|s|] == s;
  }

  lemma {:induction false} InsertBytes(s: seq<Governed>, x: Governed, key: Governed -> nat)
    ensures GovernedBytes(Sorting.Insert(s, x, key)) == GovernedBytes(s) + |x.source|
  {
    if s == [] {
      GovernedBytesNext([], x);
    } else {
      var n := |s| - 1;
      GovernedBytesNext(s, x);
      InsertBytes(s[..n], x, key);
      GovernedBytesNext(Sorting.Insert(s[..n], x, key), s[n]);
    }
  }

  lemma {:induction false} SortBytes(s: seq<Governed>, key: Governed -> nat)
    ensures GovernedBytes(Sorting.SortBy(s, key)) == GovernedBytes(s)
  {
    if s != [] {
      var n := |s| - 1;
      SortBytes(s[..n], key);
      InsertBytes(Sorting.SortBy(s[..n], key), s[n], key);
    }
  }

  lemma {:induction false} EncodedBytes(merges: seq<Bpe.Rule>, sorted: seq<Governed>)
    ensures Streams.Bytes(EncodedAll(merges, sorted)) == GovernedBytes(sorted)
  {
    if sorted != [] {
      var n := |sorted| - 1;
      EncodedBytes(merges, sorted[..n]);
      assert EncodedAll(merges, sorted)[..n] == EncodedAll(merges, sorted[..n]);
    }
  }

  /** The documents a corpus stands for, in order and encoded. */
  ghost function Ordered(t: Tokenizer.Tokenizer, governed: seq<Governed>): seq<Document> {
    EncodedAll(t.merges, InOrder(governed))
  }

  lemma {:induction false} OrderedBytes(t: Tokenizer.Tokenizer, governed: seq<Governed>)
    ensures Streams.Bytes(Ordered(t, governed)) == GovernedBytes(governed) && |Ordered(t, governed)| == |governed|
  {
    EncodedBytes(t.merges, InOrder(governed));
    SortBytes(governed, GovernedKey);
    SortBytes(Sorting.SortBy(governed, GovernedKey), SplitRank);
  }

  lemma {:induction false} KeptKeysAscend(docs: seq<Document>, s: Split)
    requires KeysAscend(DocumentsOf(docs, s))
    ensures KeysAscend(DocumentsOf(Kept(docs), s))
  {
    if s == Train {
      TrainingKeepsARun(docs);
      var own, all := DocumentsOf(Kept(docs), s), DocumentsOf(docs, s);
      assert forall i :: 0 <= i < |own| ==> own[i] == all[i];
    } else {
      OtherSplitsKeepAll(docs, s);
    }
  }

  ghost predicate OrdinaryDocument(d: Document) {
    EOS_ID !in d.ids && StoredIds(d.ids)
  }

  lemma {:induction false} StreamStored(own: seq<Document>)
    requires forall d :: d in own ==> OrdinaryDocument(d)
    ensures StoredIds(Stream(own))
  {
    if own != [] {
      var n := |own| - 1;
      assert own[n] in own && forall d :: d in own[..n] ==> d in own;
      StreamStored(own[..n]);
    }
  }

  lemma {:induction false} KeptOrdinary(t: Tokenizer.Tokenizer, governed: seq<Governed>, d: Document)
    requires FullTokenizer(t) && d in Kept(Ordered(t, governed))
    ensures OrdinaryDocument(d)
  {
    KeptAreDocuments(Ordered(t, governed), d);
    var i :| 0 <= i < |InOrder(governed)| && d == EncodedDocument(t.merges, InOrder(governed)[i]);
    EncodingIsStorable(t.merges, InOrder(governed)[i].source);
  }

  lemma {:induction false} KeptBytes(docs: seq<Document>)
    ensures Streams.Bytes(Kept(docs)) <= Streams.Bytes(docs)
  {
    if docs != [] {
      var n := |docs| - 1;
      KeptBytes(docs[..n]);
      Streams.Next(Kept(docs[..n]), docs[n]);
    }
  }

  lemma {:induction false} KeptIsSound(t: Tokenizer.Tokenizer, governed: seq<Governed>, limits: Limits)
    requires FullTokenizer(t) && Accepted(governed, limits)
    requires StoredTotal(Kept(Ordered(t, governed))) <= limits.maximumStoredIds
    ensures Sound(Kept(Ordered(t, governed)), limits)
  {
    var docs := Ordered(t, governed);
    var kept := Kept(docs);
    OrderedBytes(t, governed);
    KeptBytes(docs);
    forall d | d in kept ensures OrdinaryDocument(d) {
      KeptOrdinary(t, governed, d);
    }
    forall s: Split ensures KeysAscend(DocumentsOf(kept, s)) && StoredIds(Stream(DocumentsOf(kept, s))) {
      EncodedAscend(t.merges, governed, s);
      KeptKeysAscend(docs, s);
      forall d | d in DocumentsOf(kept, s) ensures OrdinaryDocument(d) {
        PartContains(kept, DocumentSplit, s, d);
      }
      StreamStored(DocumentsOf(kept, s));
    }
    assert forall k :: 0 <= k < |kept| ==> kept[k] in kept;
  }

  /** Fresh writers, one for each split. */
  method NewWriters(max: nat) returns (writers: Writers)
    requires 0 < max
    ensures fresh(writers.Values)
    ensures forall s: Split :: s in writers && writers[s].split == s && writers[s].maximumIds == max
    ensures Stored(writers, [], map[])
  {
    var train := new ShardWriter(Train, max);
    var validation := new ShardWriter(Validation, max);
    var test := new ShardWriter(Test, max);
    writers := map[Train := train, Validation := validation, Test := test];
    assert writers[Train] == train && writers[Validation] == validation && writers[Test] == test;
    forall s: Split ensures s in writers && Tracks(writers[s], DocumentsOf([], s), map[]) {
      match s
      case Train =>
      case Validation =>
      case Test =>
    }
  }

  // The record of what was stored.
  method BuildManifest(writers: Writers, generation: Generation, p: Progress, inputDocuments: nat, inputBytes: nat,
      limits: Limits, ghost docs: seq<Document>)
    returns (m: Manifest)
    requires Separate(writers, generation, limits.shardMaximumIds)
    requires Stored(writers, Kept(docs), generation.files) && Recorded(p, docs, Kept(docs))
    requires inputDocuments == |docs| <= limits.maximumDocuments
    requires inputBytes == Streams.Bytes(docs) <= limits.maximumBytes && p.total <= limits.maximumStoredIds
    modifies writers.Values, generation
    ensures m.limits == limits && Faithful(m, Kept(docs), generation.files)
    ensures Counted(m.accounting, docs, Kept(docs), limits)
  {
    ghost var kept := Kept(docs);
    var shards, streams := FinishAll(writers, generation, kept, limits.shardMaximumIds);
    var trainIds := streams[0].storedIds;
    var prefix := Least(trainIds, TRAINING_PREFIX_IDS);
    var sequences := BuildSequences(streams, prefix, kept);
    var accounting := Accounting(inputDocuments, inputBytes, |p.entries|, p.total, prefix, TargetsOf(prefix),
                                 trainIds - prefix, p.unmaterialized, p.unmaterializedBytes,
                                 trainIds >= TRAINING_PREFIX_IDS);
    m := Manifest(shards, p.entries, sequences, streams, accounting, limits);
  }

  /** Materializes a corpus. It goes through exactly when the documents kept are all
      storable and fit the capacity; the manifest then records them faithfully, and
      its own relation check cannot fail. */
  method Tokenize(t: Tokenizer.Tokenizer, governed: seq<Governed>, limits: Limits)
    returns (r: Result<Manifest, StorageError>, generation: Generation)
    requires FullTokenizer(t) && Accepted(governed, limits)
    ensures fresh(generation)
    ensures r.Ok? <==> Fits(Kept(Ordered(t, governed)), limits.maximumStoredIds)
    ensures r.Ok? ==>
      && r.value.limits == limits && Sound(Kept(Ordered(t, governed)), limits)
      && Faithful(r.value, Kept(Ordered(t, governed)), generation.files) && Relations(r.value)
  {
    ghost var docs := Ordered(t, governed);
    OrderedBytes(t, governed);
    generation := new Generation();
    var writers := NewWriters(limits.shardMaximumIds);
    var sorted := InOrder(governed);
    var stored := StoreAll(t, sorted, writers, generation, limits.maximumStoredIds, limits.shardMaximumIds);
    if stored.Err? {
      return Err(stored.error), generation;
    }
    KeptIsSound(t, governed, limits);
    var m := BuildManifest(writers, generation, stored.value, |governed|, GovernedBytes(governed), limits, docs);
    CountedRelates(m, docs, Kept(docs), generation.files);
    r := if Relations(m) then Ok(m) else Err(ManifestRelationInvalid);
  }
}
