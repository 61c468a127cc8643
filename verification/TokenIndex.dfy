/** What a token generation records beside its shards, and the checks on it. */
module TokenIndex {
  import opened CorpusSplit
  import opened Machine
  import opened Outcomes
  import opened Shards
  import opened Streams
  import opened SequenceIndex
  import Bpe

  datatype DocumentEntry = DocumentEntry(
    split: Split, order: nat, key: nat, bytes: nat, firstId: nat, sourceTokenIds: nat, storedIds: nat, eosId: nat)

  function DocumentEntrySplit(e: DocumentEntry): Split { e.split }

  // ----- the document index -----

  /** The entry of a document that follows the given ones in its split. */
  ghost function EntryFor(own: seq<Document>, d: Document): DocumentEntry {
    DocumentEntry(d.split, |own|, d.key, d.bytes, |Stream(own)|, |d.ids|, |d.ids| + 1, EOS_ID)
  }

  ghost function Entries(kept: seq<Document>): (r: seq<DocumentEntry>)
    ensures |r| == |kept|
  {
    if kept == [] then []
    else
      var n := |kept| - 1;
      Entries(kept[..n]) + [EntryFor(DocumentsOf(kept[..n], kept[n].split), kept[n])]
  }

  lemma {:induction false} EntriesNext(kept: seq<Document>, d: Document)
    ensures Entries(kept + [d]) == Entries(kept) + [EntryFor(DocumentsOf(kept, d.split), d)]
  {
    assert (kept + [d])[..|kept|] == kept;
  }

  /** The entries of one split's documents. */
  ghost function SplitEntries(own: seq<Document>): (r: seq<DocumentEntry>)
    ensures |r| == |own|
  {
    seq(|own|, i requires 0 <= i < |own| => EntryFor(own[..i], own[i]))
  }

  lemma {:induction false} SplitEntriesNext(own: seq<Document>, d: Document)
    ensures SplitEntries(own + [d]) == SplitEntries(own) + [EntryFor(own, d)]
  {
    var grown := own + [d];
    assert grown[..|own|] == own;
    forall i | 0 <= i < |own| ensures SplitEntries(grown)[i] == SplitEntries(own)[i] {
      assert grown[..i] == own[..i];
    }
  }

  lemma {:induction false} EntriesOfSplit(kept: seq<Document>, split: Split)
    ensures Part(Entries(kept), DocumentEntrySplit, split) == SplitEntries(DocumentsOf(kept, split))
  {
    if kept != [] {
      var n := |kept| - 1;
      EntriesOfSplit(kept[..n], split);
      assert kept == kept[..n] + [kept[n]];
      var e := EntryFor(DocumentsOf(kept[..n], kept[n].split), kept[n]);
      EntriesNext(kept[..n], kept[n]);
      PartSnoc(Entries(kept[..n]), e, DocumentEntrySplit, split);
      DocumentsNext(kept[..n], kept[n], split);
      SplitEntriesNext(DocumentsOf(kept[..n], split), kept[n]);
    }
  }

  ghost function StoredBefore(entries: seq<DocumentEntry>, n: nat): nat
    requires n <= |entries|
  {
    if n == 0 then 0 else StoredBefore(entries, n - 1) + entries[n - 1].storedIds
  }

  ghost function BytesBefore(entries: seq<DocumentEntry>, n: nat): nat
    requires n <= |entries|
  {
    if n == 0 then 0 else BytesBefore(entries, n - 1) + entries[n - 1].bytes
  }

  ghost predicate DocumentFits(entries: seq<DocumentEntry>, i: nat)
    requires i < |entries|
  {
    var e := entries[i];
    && e.order == i && e.firstId == StoredBefore(entries, i) && e.sourceTokenIds + 1 == e.storedIds
    && e.eosId == EOS_ID && (i > 0 ==> entries[i - 1].key < e.key)
  }

  /** Entries in key order that follow each other without a gap and cover a stream
      of the given size. */
  ghost predicate DocumentsCover(entries: seq<DocumentEntry>, stored: nat, bytes: nat) {
    && (forall i :: 0 <= i < |entries| ==> DocumentFits(entries, i))
    && StoredBefore(entries, |entries|) == stored && BytesBefore(entries, |entries|) == bytes
  }

  lemma {:induction false} BeforeGrows(entries: seq<DocumentEntry>, m: nat, n: nat)
    requires m <= n <= |entries|
    ensures StoredBefore(entries, m) <= StoredBefore(entries, n) && BytesBefore(entries, m) <= BytesBefore(entries, n)
    decreases n - m
  {
    if m < n {
      BeforeGrows(entries, m, n - 1);
    }
  }

  /** Accepts one split's entries exactly when they cover its stream. */
  method ValidateDocuments(entries: seq<DocumentEntry>, stored: nat, bytes: nat) returns (ok: bool)
    requires stored <= U64_MAX && bytes <= U64_MAX
    ensures ok <==> DocumentsCover(entries, stored, bytes)
  {
    var expectedFirst, indexedBytes, i := 0, 0, 0;
    while i < |entries|
      invariant i <= |entries| && expectedFirst == StoredBefore(entries, i) && indexedBytes == BytesBefore(entries, i)
      invariant forall j :: 0 <= j < i ==> DocumentFits(entries, j)
    {
      var e := entries[i];
      if e.order != i || e.firstId != expectedFirst || e.sourceTokenIds + 1 != e.storedIds
         || e.eosId != EOS_ID || (i > 0 && entries[i - 1].key >= e.key)
      {
        assert !DocumentFits(entries, i);
        return false;
      }
      expectedFirst := expectedFirst + e.storedIds;
      indexedBytes := indexedBytes + e.bytes;
      i := i + 1;
      BeforeGrows(entries, i, |entries|);
      if expectedFirst > U64_MAX || indexedBytes > U64_MAX {
        return false;
      }
    }
    ok := expectedFirst == stored && indexedBytes == bytes;
  }

  ghost predicate KeysAscend(own: seq<Document>) {
    forall i, j :: 0 <= i < j < |own| ==> own[i].key < own[j].key
  }

  lemma {:induction false} SplitEntriesBefore(own: seq<Document>, n: nat)
    requires n <= |own|
    ensures StoredBefore(SplitEntries(own), n) == |Stream(own[..n])|
    ensures BytesBefore(SplitEntries(own), n) == Streams.Bytes(own[..n])
    decreases n
  {
    if n > 0 {
      SplitEntriesBefore(own, n - 1);
      assert own[..n] == own[..n - 1] + [own[n - 1]];
      Streams.Next(own[..n - 1], own[n - 1]);
    }
  }

  /** What is recorded for documents in key order covers their stream. */
  lemma {:induction false} SplitEntriesCover(own: seq<Document>)
    requires KeysAscend(own)
    ensures DocumentsCover(SplitEntries(own), |Stream(own)|, Streams.Bytes(own))
  {
    forall i | 0 <= i < |own| ensures DocumentFits(SplitEntries(own), i) {
      SplitEntriesBefore(own, i);
    }
    SplitEntriesBefore(own, |own|);
    assert own[..|own|] == own;
  }

  // ----- the shard list -----

  function ShardIds(shards: seq<Shard>, n: nat): nat
    requires n <= |shards|
  {
    if n == 0 then 0 else ShardIds(shards, n - 1) + shards[n - 1].ids
  }

  ghost predicate ShardFits(shards: seq<Shard>, i: nat)
    requires i < |shards|
  {
    shards[i].sequence == i && shards[i].firstId == ShardIds(shards, i)
  }

  ghost predicate ShardsCover(shards: seq<Shard>, stored: nat) {
    (forall i :: 0 <= i < |shards| ==> ShardFits(shards, i)) && ShardIds(shards, |shards|) == stored
  }

  lemma {:induction false} ShardIdsGrow(shards: seq<Shard>, m: nat, n: nat)
    requires m <= n <= |shards|
    ensures ShardIds(shards, m) <= ShardIds(shards, n)
    decreases n - m
  {
    if m < n {
      ShardIdsGrow(shards, m, n - 1);
    }
  }

  method ValidateShardOrder(shards: seq<Shard>, stored: nat) returns (ok: bool)
    requires stored <= U64_MAX
    ensures ok <==> ShardsCover(shards, stored)
  {
    var expectedFirst, i := 0, 0;
    while i < |shards|
      invariant i <= |shards| && expectedFirst == ShardIds(shards, i)
      invariant forall j :: 0 <= j < i ==> ShardFits(shards, j)
    {
      if shards[i].sequence != i || shards[i].firstId != expectedFirst {
        assert !ShardFits(shards, i);
        return false;
      }
      expectedFirst := expectedFirst + shards[i].ids;
      i := i + 1;
      ShardIdsGrow(shards, i, |shards|);
      if expectedFirst > U64_MAX {
        return false;
      }
    }
    ok := expectedFirst == stored;
  }

  lemma {:induction false} RepresentedIds(shards: seq<Shard>, split: Split, max: nat, stream: seq<nat>, files: Files, j: nat)
    requires Serves(shards, split, max, stream, files) && j <= |shards|
    ensures ShardIds(shards, j) == if shards == [] then 0 else Covered(shards, max, stream, j)
    decreases j
  {
    if j > 0 {
      RepresentedIds(shards, split, max, stream, files, j - 1);
      RepresentedShard(shards, split, max, stream, files, j - 1);
    }
  }

  lemma {:induction false} RepresentedShardsCover(shards: seq<Shard>, split: Split, max: nat, stream: seq<nat>, files: Files)
    requires Serves(shards, split, max, stream, files)
    ensures ShardsCover(shards, |stream|)
  {
    forall i | 0 <= i < |shards| ensures ShardFits(shards, i) {
      RepresentedShard(shards, split, max, stream, files, i);
      RepresentedIds(shards, split, max, stream, files, i);
      assert shards[i].sequence == i by {
        if i < |shards| - 1 {
          assert Carries(shards[i], split, i, Start(max, i), max, stream, files);
        }
      }
    }
    RepresentedIds(shards, split, max, stream, files, |shards|);
  }

  // ----- end marks -----

  ghost predicate MarksMatch(words: seq<nat>, first: nat, eos: set<nat>) {
    forall k :: 0 <= k < |words| ==> (words[k] == EOS_ID <==> first + k in eos)
  }

  /** Every position of n words from a first one on fits 64 bits. */
  predicate PositionsFit(first: nat, n: nat) {
    n == 0 || first + n - 1 <= U64_MAX
  }

  // The positions that fit bear marks where they should.
  ghost predicate MarksMatchBelow(words: seq<nat>, first: nat, eos: set<nat>) {
    forall k :: 0 <= k < |words| && first + k <= U64_MAX ==> (words[k] == EOS_ID <==> first + k in eos)
  }

  /** Accepts a shard exactly when its positions fit 64 bits and its end marks stand at
      the given ones; a misplaced mark is found before an overflow. */
  method ValidateShardEos(shard: Shard, bytes: seq<Bpe.Byte>, eos: set<nat>) returns (r: Result<(), StorageError>)
    ensures r.Ok? <==> PositionsFit(shard.firstId, |bytes| / 2) && MarksMatch(Words(bytes), shard.firstId, eos)
    ensures r == Err(AccountingOverflow) <==>
      !PositionsFit(shard.firstId, |bytes| / 2) && MarksMatchBelow(Words(bytes), shard.firstId, eos)
    ensures r.Err? ==> r.error in {AccountingOverflow, BoundaryInvalid}
  {
    var words := Words(bytes);
    var k := 0;
    while k < |words|
      invariant k <= |words| && PositionsFit(shard.firstId, k)
      invariant forall j :: 0 <= j < k ==> (words[j] == EOS_ID <==> shard.firstId + j in eos)
    {
      if shard.firstId + k > U64_MAX {
        return Err(AccountingOverflow);
      }
      if (words[k] == EOS_ID) != (shard.firstId + k in eos) {
        return Err(BoundaryInvalid);
      }
      k := k + 1;
    }
    r := Ok(());
  }

  /** Where the entries of a split say that its documents end. */
  function EosPositions(entries: seq<DocumentEntry>): set<nat> {
    set i | 0 <= i < |entries| :: entries[i].firstId + entries[i].sourceTokenIds
  }

  lemma {:induction false} EosPosition(own: seq<Document>, p: nat)
    ensures p in EosPositions(SplitEntries(own)) <==> exists k: nat :: k < |own| && EndsAt(own, k, p)
  {
    var entries := SplitEntries(own);
    assert forall k :: 0 <= k < |own| ==>
      entries[k].firstId + entries[k].sourceTokenIds == |Stream(own[..k])| + |own[k].ids|;
    if p in EosPositions(entries) {
      var i :| 0 <= i < |entries| && p == entries[i].firstId + entries[i].sourceTokenIds;
      assert EndsAt(own, i, p);
    }
    if k: nat :| k < |own| && EndsAt(own, k, p) {
      assert entries[k].firstId + entries[k].sourceTokenIds == p;
    }
  }

  /** The end marks of a stream are exactly where its document index says. */
  lemma {:induction false} MarksWhereIndexed(own: seq<Document>)
    requires Encoded(own)
    ensures MarksMatch(Stream(own), 0, EosPositions(SplitEntries(own)))
  {
    forall p | 0 <= p < |Stream(own)|
      ensures Stream(own)[p] == EOS_ID <==> 0 + p in EosPositions(SplitEntries(own))
    {
      EndMarks(own, p);
      EosPosition(own, p);
    }
  }

  lemma {:induction false} MarksOfPart(stream: seq<nat>, first: nat, words: seq<nat>, eos: set<nat>)
    requires MarksMatch(stream, 0, eos) && first + |words| <= |stream|
    requires words == stream[first..first + |words|]
    ensures MarksMatch(words, first, eos)
  {
    forall k | 0 <= k < |words| ensures words[k] == EOS_ID <==> first + k in eos {
      assert words[k] == stream[first + k];
      assert 0 + (first + k) == first + k;
    }
  }
}
