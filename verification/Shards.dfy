/**
Token shards: one stream of ids per split, cut into files of two-byte words. A
writer fills them, and a range of the stream is read back from whichever shards
it touches.
*/
module Shards {
  import opened CorpusSplit
  import opened LittleEndian
  import opened Machine
  import opened Outcomes
  import opened WordBytes
  import Bpe

  const MAX_TOKEN_ID: nat := 31_999

  datatype StorageError =
    | TokenIdOutOfRange
    | ShardAccountingFailed
    | AccountingOverflow
    | ArtifactMissing
    | ShardInvalid
    | SequenceIncomplete
    | SequenceNotFound
    | DocumentNotFound
    | DocumentEosMissing
    | TokenRoundTripFailed
    | DecodeRefused
    | TokenCapacityExceeded
    | ManifestRelationInvalid
    | BoundaryInvalid
    | IndexInvalid

  datatype Path = Path(split: Split, sequence: nat)

  type Files = map<Path, seq<Bpe.Byte>>

  datatype Shard = Shard(split: Split, sequence: nat, firstId: nat, ids: nat, bytes: nat)

  // ----- two-byte words -----

  /** Each id as two bytes, the low one first. */
  function Bytes(ids: seq<nat>): (b: seq<Bpe.Byte>)
    ensures |b| == 2 * |ids|
  {
    WordsSize(ids, 2);
    SizeIsProduct(|ids|, 2);
    WordBytes.Words(ids, 2)
  }

  function Words(b: seq<Bpe.Byte>): (ids: seq<nat>)
    ensures |ids| == |b| / 2
  {
    SizeIsProduct(|b| / 2, 2);
    Read(b, 2, 0, |b| / 2)
  }

  /** The ids at positions m to n of the bytes. */
  function ReadWords(b: seq<Bpe.Byte>, m: nat, n: nat): (ids: seq<nat>)
    requires m <= n && 2 * n <= |b|
    ensures |ids| == n - m
  {
    Words(b[2 * m..2 * n])
  }

  ghost predicate SixteenBit(ids: seq<nat>) {
    forall k :: 0 <= k < |ids| ==> ids[k] < U16
  }

  lemma {:induction false} WholeReadsBack(ids: seq<nat>)
    requires SixteenBit(ids)
    ensures Words(Bytes(ids)) == ids
  {
    assert Values(1) == 0x100 * Values(0);
    assert Values(2) == U16;
    WordsReadBack(ids, 2);
  }

  /** Reading any part of the bytes gives that part of the ids. */
  lemma {:induction false} SliceReadsBack(ids: seq<nat>, m: nat, n: nat)
    requires m <= n <= |ids| && SixteenBit(ids)
    ensures ReadWords(Bytes(ids), m, n) == ids[m..n]
  {
    SliceOfBytes(ids, m, n);
    WholeReadsBack(ids[m..n]);
  }

  lemma {:induction false} SliceOfBytes(ids: seq<nat>, m: nat, n: nat)
    requires m <= n <= |ids|
    ensures Bytes(ids)[2 * m..2 * n] == Bytes(ids[m..n])
  {
    var front, middle, back := ids[..m], ids[m..n], ids[n..];
    assert ids == front + (middle + back);
    WordsJoin(front, middle + back, 2);
    WordsJoin(middle, back, 2);
    Middle(Bytes(front), Bytes(middle), Bytes(back));
  }

  lemma {:induction false} Middle<T>(a: seq<T>, b: seq<T>, c: seq<T>)
    ensures (a + (b + c))[|a|..|a| + |b|] == b
  {
  }

  // ----- what shards stand for -----

  /** Shard i of a split carries the stream's ids from first on. */
  ghost predicate Carries(shard: Shard, split: Split, i: nat, first: nat, ids: nat, stream: seq<nat>, files: Files) {
    && shard == Shard(split, i, first, ids, 2 * ids) && first + ids <= |stream|
    && Path(split, i) in files && files[Path(split, i)] == Bytes(stream[first..first + ids])
  }

  function Start(max: nat, i: nat): (n: nat)
    ensures i == 0 ==> n == 0
  {
    max * i
  }

  lemma {:induction false} StartNext(max: nat, i: nat)
    ensures Start(max, i + 1) == Start(max, i) + max
  {
  }

  /** The first shards are full. */
  ghost predicate FullShards(shards: seq<Shard>, n: nat, split: Split, max: nat, stream: seq<nat>, files: Files)
    requires n <= |shards|
  {
    forall i :: 0 <= i < n ==> Carries(shards[i], split, i, Start(max, i), max, stream, files)
  }

  /** The shards are the whole stream in order: all but the last are full, and the
      last holds what is left, which is never nothing. */
  ghost predicate Represents(shards: seq<Shard>, split: Split, max: nat, stream: seq<nat>, files: Files) {
    if shards == [] then stream == []
    else
      var n := |shards| - 1;
      && Start(max, n) < |stream| <= Start(max, n) + max
      && FullShards(shards, n, split, max, stream, files)
      && Carries(shards[n], split, n, Start(max, n), |stream| - Start(max, n), stream, files)
  }

  lemma {:induction false} CarriesMore(shard: Shard, split: Split, i: nat, first: nat, ids: nat, stream: seq<nat>, more: seq<nat>,
      files: Files)
    requires Carries(shard, split, i, first, ids, stream, files)
    ensures Carries(shard, split, i, first, ids, stream + more, files)
  {
    assert (stream + more)[first..first + ids] == stream[first..first + ids];
  }

  lemma {:induction false} FullShardsMore(shards: seq<Shard>, n: nat, split: Split, max: nat, stream: seq<nat>, more: seq<nat>,
      files: Files)
    requires n <= |shards| && FullShards(shards, n, split, max, stream, files)
    ensures FullShards(shards, n, split, max, stream + more, files)
  {
    forall i | 0 <= i < n ensures Carries(shards[i], split, i, Start(max, i), max, stream + more, files) {
      CarriesMore(shards[i], split, i, Start(max, i), max, stream, more, files);
    }
  }

  lemma {:induction false} TakeOneMore(stream: seq<nat>, ids: seq<nat>, i: nat)
    requires i < |ids|
    ensures stream + ids[..i] + [ids[i]] == stream + ids[..i + 1]
  {
  }

  // ----- writing -----

  class Generation {
    var files: Files

    constructor ()
      ensures files == map[]
    {
      files := map[];
    }

    method WriteFile(path: Path, bytes: seq<Bpe.Byte>)
      modifies this
      ensures files == old(files)[path := bytes]
    {
      files := files[path := bytes];
    }
  }

  /** Files of other splits stay as they are. */
  ghost predicate OnlySplit(before: Files, after: Files, split: Split) {
    forall p: Path :: p.split != split ==> (p in after <==> p in before) && (p in after ==> after[p] == before[p])
  }

  class ShardWriter {
    const split: Split
    const maximumIds: nat
    var buffer: seq<nat>
    var storedIds: nat
    var flushedIds: nat
    var documents: nat
    var sourceBytes: nat
    var sourceTokenIds: nat
    var shards: seq<Shard>

    /** The writer has taken in exactly this stream: full shards on disk, and the
        rest, shorter than a shard, in the buffer. */
    ghost predicate Holds(stream: seq<nat>, files: Files)
      reads this
    {
      && 0 < maximumIds && storedIds == |stream| && SixteenBit(stream)
      && flushedIds == Start(maximumIds, |shards|) <= |stream|
      && buffer == stream[flushedIds..] && |buffer| < maximumIds
      && FullShards(shards, |shards|, split, maximumIds, stream, files)
    }

    constructor (split: Split, maximumIds: nat)
      requires 0 < maximumIds
      ensures this.split == split && this.maximumIds == maximumIds && Holds([], map[])
      ensures documents == sourceBytes == sourceTokenIds == 0 && shards == []
    {
      this.split, this.maximumIds := split, maximumIds;
      buffer, storedIds, flushedIds, documents, sourceBytes, sourceTokenIds, shards := [], 0, 0, 0, 0, 0, [];
    }

    /** Writes the buffer as the next shard. */
    method Flush(generation: Generation, ghost stream: seq<nat>)
      requires generation as object != this
      requires flushedIds == Start(maximumIds, |shards|) <= |stream| == storedIds && 0 < maximumIds
      requires buffer == stream[flushedIds..] && |buffer| <= maximumIds
      requires FullShards(shards, |shards|, split, maximumIds, stream, generation.files)
      modifies `buffer, `flushedIds, `shards, generation
      ensures buffer == [] && flushedIds == |stream| && OnlySplit(old(generation.files), generation.files, split)
      ensures old(buffer) == [] ==> shards == old(shards) && generation.files == old(generation.files)
      ensures old(buffer) != [] ==> |shards| == old(|shards|) + 1 && shards[..|shards| - 1] == old(shards)
      ensures old(buffer) != [] ==>
        Carries(shards[|shards| - 1], split, |shards| - 1, old(flushedIds), |old(buffer)|, stream, generation.files)
      ensures FullShards(shards, old(|shards|), split, maximumIds, stream, generation.files)
    {
      if buffer == [] {
        return;
      }
      var sequence := |shards|;
      ghost var before := generation.files;
      var bytes := Bytes(buffer);
      generation.WriteFile(Path(split, sequence), bytes);
      ghost var written := shards;
      assert stream[flushedIds..flushedIds + |buffer|] == buffer;
      shards := shards + [Shard(split, sequence, flushedIds, |buffer|, |bytes|)];
      flushedIds := flushedIds + |buffer|;
      buffer := [];
      forall i | 0 <= i < sequence
        ensures Carries(shards[i], split, i, Start(maximumIds, i), maximumIds, stream, generation.files)
      {
        assert Carries(written[i], split, i, Start(maximumIds, i), maximumIds, stream, before);
      }
    }

    /** Adds one id, and a shard whenever the buffer is full. */
    method Push(id: nat, generation: Generation, ghost stream: seq<nat>)
      requires generation as object != this && Holds(stream, generation.files) && id < U16
      modifies `buffer, `storedIds, `flushedIds, `shards, generation
      ensures Holds(stream + [id], generation.files)
      ensures OnlySplit(old(generation.files), generation.files, split)
    {
      ghost var grown := stream + [id];
      buffer := buffer + [id];
      storedIds := storedIds + 1;
      assert buffer == grown[flushedIds..];
      FullShardsMore(shards, |shards|, split, maximumIds, stream, [id], generation.files);
      if |buffer| == maximumIds {
        StartNext(maximumIds, |shards|);
        Flush(generation, grown);
      }
    }

    /** Adds ids one by one; the first that does not fit 16 bits stops it. */
    method Append(ids: seq<nat>, generation: Generation, ghost stream: seq<nat>) returns (r: Result<(), StorageError>)
      requires generation as object != this && Holds(stream, generation.files)
      modifies `buffer, `storedIds, `flushedIds, `shards, generation
      ensures r.Ok? <==> SixteenBit(ids)
      ensures r.Ok? ==> Holds(stream + ids, generation.files)
      ensures r.Err? ==> r.error == TokenIdOutOfRange
      ensures OnlySplit(old(generation.files), generation.files, split)
    {
      var i := 0;
      ghost var taken := stream;
      while i < |ids|
        invariant i <= |ids| && Holds(taken, generation.files) && taken == stream + ids[..i]
        invariant forall j :: 0 <= j < i ==> ids[j] < U16
        invariant OnlySplit(old(generation.files), generation.files, split)
      {
        if ids[i] >= U16 {
          return Err(TokenIdOutOfRange);
        }
        Push(ids[i], generation, taken);
        TakeOneMore(stream, ids, i);
        taken := taken + [ids[i]];
        i := i + 1;
      }
      assert ids[..i] == ids;
      assert SixteenBit(ids);
      r := Ok(());
    }

    /** Writes what is left. The accounting check cannot fail. */
    method Finish(generation: Generation, ghost stream: seq<nat>) returns (r: Result<(), StorageError>)
      requires generation as object != this && Holds(stream, generation.files)
      modifies `buffer, `flushedIds, `shards, generation
      ensures r == Ok(())
      ensures Represents(shards, split, maximumIds, stream, generation.files)
      ensures OnlySplit(old(generation.files), generation.files, split)
    {
      ghost var n := |shards|;
      if buffer == [] && n > 0 {
        StartNext(maximumIds, n - 1);
      }
      Flush(generation, stream);
      r := if flushedIds != storedIds then Err(ShardAccountingFailed) else Ok(());
    }
  }

  // ----- reading -----

  predicate StoredId(id: nat) {
    id == EOS_ID || 4 <= id <= MAX_TOKEN_ID
  }

  ghost predicate StoredIds(ids: seq<nat>) {
    forall k :: 0 <= k < |ids| ==> StoredId(ids[k])
  }

  /** Accepts bytes of the declared length whose words are all stored ids. */
  method ValidateShardBytes(shard: Shard, bytes: seq<Bpe.Byte>) returns (ok: bool)
    ensures ok <==> 2 * shard.ids == shard.bytes <= U64_MAX && |bytes| == shard.bytes && StoredIds(Words(bytes))
    ensures ok ==> forall k :: 0 <= k < |Words(bytes)| ==> Words(bytes)[k] == 2 || 4 <= Words(bytes)[k] < 32_000
    ensures !ok && 2 * shard.ids == shard.bytes == |bytes| <= U64_MAX ==>
      exists k :: 0 <= k < |Words(bytes)| && (Words(bytes)[k] in {0, 1, 3} || Words(bytes)[k] >= 32_000)
  {
    if 2 * shard.ids > U64_MAX || 2 * shard.ids != shard.bytes || |bytes| != shard.bytes || |bytes| % 2 != 0 {
      return false;
    }
    var words := Words(bytes);
    var k := 0;
    while k < |words|
      invariant k <= |words| && forall j :: 0 <= j < k ==> StoredId(words[j])
    {
      if words[k] > MAX_TOKEN_ID || words[k] in {0, 1, 3} {
        return false;
      }
      k := k + 1;
    }
    ok := true;
  }

  ghost function Share(stream: seq<nat>, low: nat, high: nat, firstId: nat, end: nat): seq<nat>
    requires low <= high <= |stream|
  {
    if Greatest(firstId, low) >= Least(end, high) then [] else stream[Greatest(firstId, low)..Least(end, high)]
  }

  lemma {:induction false} SliceOfSlice(stream: seq<nat>, low: nat, high: nat, start: nat, finish: nat)
    requires low <= start <= finish <= high <= |stream|
    ensures stream[low..high][start - low..finish - low] == stream[start..finish]
  {
    var part := stream[low..high];
    forall k | 0 <= k < finish - start
      ensures part[start - low..finish - low][k] == stream[start..finish][k]
    {
      assert part[start - low + k] == stream[start + k];
    }
  }

  lemma {:induction false} ShareReadsBack(stream: seq<nat>, low: nat, high: nat, start: nat, finish: nat)
    requires low <= start <= finish <= high <= |stream| && StoredIds(stream)
    ensures ReadWords(Bytes(stream[low..high]), start - low, finish - low) == stream[start..finish]
  {
    SliceReadsBack(stream[low..high], start - low, finish - low);
    SliceOfSlice(stream, low, high, start, finish);
  }

  lemma {:induction false} SliceStored(stream: seq<nat>, low: nat, high: nat)
    requires low <= high <= |stream| && StoredIds(stream)
    ensures StoredIds(stream[low..high])
  {
  }

  lemma {:induction false} ReadableBytes(shard: Shard, stream: seq<nat>, files: Files)
    requires Readable(shard, stream, files)
    ensures var bytes := files[Path(shard.split, shard.sequence)];
      |bytes| == shard.bytes == 2 * shard.ids && StoredIds(Words(bytes))
  {
    SliceStored(stream, shard.firstId, shard.firstId + shard.ids);
    WholeReadsBack(stream[shard.firstId..shard.firstId + shard.ids]);
  }

  /** A shard that carries its part of the stream, small enough to be measured. */
  ghost predicate Readable(shard: Shard, stream: seq<nat>, files: Files) {
    && Carries(shard, shard.split, shard.sequence, shard.firstId, shard.ids, stream, files)
    && StoredIds(stream) && |stream| <= U64_MAX && shard.bytes <= U64_MAX
  }

  lemma {:induction false} WordsOf(shard: Shard, stream: seq<nat>, files: Files) returns (words: seq<nat>)
    requires Readable(shard, stream, files)
    ensures words == Words(files[Path(shard.split, shard.sequence)])
    ensures words == stream[shard.firstId..shard.firstId + |words|] && |words| == shard.ids
  {
    words := stream[shard.firstId..shard.firstId + shard.ids];
    WholeReadsBack(words);
  }

  lemma {:induction false} ReadableShare(shard: Shard, stream: seq<nat>, files: Files, start: nat, finish: nat)
    requires Readable(shard, stream, files)
    requires shard.firstId <= start <= finish <= shard.firstId + shard.ids
    ensures ReadWords(files[Path(shard.split, shard.sequence)], start - shard.firstId, finish - shard.firstId)
         == stream[start..finish]
  {
    ShareReadsBack(stream, shard.firstId, shard.firstId + shard.ids, start, finish);
  }

  /** One shard's share of a range: nothing if they do not meet. */
  method ReadShard(shard: Shard, files: Files, firstId: nat, end: nat, ghost stream: seq<nat>)
    returns (r: Result<seq<nat>, StorageError>)
    requires firstId <= end
    ensures Readable(shard, stream, files) ==>
      r == Ok(Share(stream, shard.firstId, shard.firstId + shard.ids, firstId, end))
    ensures r == Err(AccountingOverflow) <==> shard.firstId + shard.ids > U64_MAX
  {
    if shard.firstId + shard.ids > U64_MAX {
      return Err(AccountingOverflow);
    }
    var start, finish := Greatest(firstId, shard.firstId), Least(end, shard.firstId + shard.ids);
    if start >= finish {
      return Ok([]);
    }
    if Path(shard.split, shard.sequence) !in files {
      return Err(ArtifactMissing);
    }
    var bytes := files[Path(shard.split, shard.sequence)];
    var ok := ValidateShardBytes(shard, bytes);
    if Readable(shard, stream, files) {
      ReadableBytes(shard, stream, files);
      ReadableShare(shard, stream, files, start, finish);
    }
    if !ok {
      return Err(ShardInvalid);
    }
    r := Ok(ReadWords(bytes, start - shard.firstId, finish - shard.firstId));
  }

  // ----- ranges -----

  const MAX_SHARD_IDS: nat := 67_108_864

  function ShardSplit(s: Shard): Split { s.split }

  ghost predicate Measured(stream: seq<nat>, max: nat) {
    StoredIds(stream) && |stream| <= U64_MAX && max <= MAX_SHARD_IDS
  }

  /** How much of the stream the first j shards hold. */
  ghost function Covered(shards: seq<Shard>, max: nat, stream: seq<nat>, j: nat): nat
    requires j <= |shards|
  {
    if j == |shards| then |stream| else Start(max, j)
  }

  lemma {:induction false} RepresentedShard(shards: seq<Shard>, split: Split, max: nat, stream: seq<nat>, files: Files, j: nat)
    requires Represents(shards, split, max, stream, files) && Measured(stream, max) && j < |shards|
    ensures Readable(shards[j], stream, files)
    ensures shards[j].firstId == Covered(shards, max, stream, j)
    ensures shards[j].firstId + shards[j].ids == Covered(shards, max, stream, j + 1)
    ensures Covered(shards, max, stream, 0) == 0
  {
    if j < |shards| - 1 {
      assert Carries(shards[j], split, j, Start(max, j), max, stream, files);
      StartNext(max, j);
    }
  }

  // Neighbouring shares join.
  lemma {:induction false} SharesJoin(stream: seq<nat>, low: nat, high: nat, first: nat, end: nat)
    requires low <= high <= |stream| && first <= end
    ensures Share(stream, 0, low, first, end) + Share(stream, low, high, first, end) == Share(stream, 0, high, first, end)
  {
  }

  lemma {:induction false} WholeShare(stream: seq<nat>, first: nat, end: nat)
    requires first <= end
    ensures var share := Share(stream, 0, |stream|, first, end);
      && (|share| == end - first <==> end <= |stream| || end == first)
      && (|share| == end - first ==> share == if end == first then [] else stream[first..end])
  {
  }

  /** The shards of a split stand for a stream a reader accepts. */
  ghost predicate Serves(own: seq<Shard>, split: Split, max: nat, stream: seq<nat>, files: Files) {
    Represents(own, split, max, stream, files) && Measured(stream, max)
  }

  /** The first j shards have been read, and the range ends at end. */
  ghost predicate ReadSoFar(own: seq<Shard>, split: Split, max: nat, stream: seq<nat>, files: Files, j: nat,
      firstId: nat, end: nat, output: seq<nat>)
  {
    Serves(own, split, max, stream, files) ==>
      && firstId <= end && j <= |own| && Covered(own, max, stream, j) <= |stream|
      && output == Share(stream, 0, Covered(own, max, stream, j), firstId, end)
  }

  lemma {:induction false} CoveredGrows(own: seq<Shard>, split: Split, max: nat, stream: seq<nat>, files: Files, j: nat,
      firstId: nat, end: nat)
    requires j < |own| && Serves(own, split, max, stream, files) && firstId <= end
    ensures Readable(own[j], stream, files)
    ensures own[j].firstId == Covered(own, max, stream, j) <= Covered(own, max, stream, j + 1) <= |stream|
    ensures own[j].firstId + own[j].ids == Covered(own, max, stream, j + 1)
    ensures Share(stream, 0, Covered(own, max, stream, j), firstId, end)
         + Share(stream, Covered(own, max, stream, j), Covered(own, max, stream, j + 1), firstId, end)
         == Share(stream, 0, Covered(own, max, stream, j + 1), firstId, end)
  {
    RepresentedShard(own, split, max, stream, files, j);
    SharesJoin(stream, Covered(own, max, stream, j), Covered(own, max, stream, j + 1), firstId, end);
  }

  lemma {:induction false} ReadOneMore(own: seq<Shard>, split: Split, max: nat, stream: seq<nat>, files: Files, j: nat,
      firstId: nat, end: nat, output: seq<nat>, share: Result<seq<nat>, StorageError>)
    requires j < |own| && ReadSoFar(own, split, max, stream, files, j, firstId, end, output) && firstId <= end
    requires Readable(own[j], stream, files) ==>
      share == Ok(Share(stream, own[j].firstId, own[j].firstId + own[j].ids, firstId, end))
    ensures Serves(own, split, max, stream, files) ==> share.Ok?
    ensures share.Ok? ==> ReadSoFar(own, split, max, stream, files, j + 1, firstId, end, output + share.value)
  {
    if Serves(own, split, max, stream, files) {
      CoveredGrows(own, split, max, stream, files, j, firstId, end);
    }
  }

  lemma {:induction false} ReadNothing(own: seq<Shard>, split: Split, max: nat, stream: seq<nat>, files: Files, firstId: nat, end: nat)
    requires firstId <= end
    ensures ReadSoFar(own, split, max, stream, files, 0, firstId, end, [])
  {
    if own == [] && Serves(own, split, max, stream, files) {
      assert stream == [];
    }
  }

  lemma {:induction false} ReadAll(own: seq<Shard>, split: Split, max: nat, stream: seq<nat>, files: Files, firstId: nat, end: nat,
      output: seq<nat>)
    requires ReadSoFar(own, split, max, stream, files, |own|, firstId, end, output) && firstId <= end
    ensures Serves(own, split, max, stream, files) ==>
      (|output| == end - firstId <==> end <= |stream| || end == firstId)
    ensures Serves(own, split, max, stream, files) && |output| == end - firstId && firstId < end ==>
      end <= |stream| && output == stream[firstId..end]
  {
    WholeShare(stream, firstId, end);
  }

  /** Takes in the next shard, if it is of the split. */
  method ReadNext(shards: seq<Shard>, i: nat, files: Files, split: Split, firstId: nat, end: nat,
      output: seq<nat>, ghost stream: seq<nat>, ghost max: nat)
    returns (r: Result<seq<nat>, StorageError>)
    requires i < |shards| && firstId <= end
    requires ReadSoFar(Part(shards, ShardSplit, split), split, max, stream, files,
                       |Part(shards[..i], ShardSplit, split)|, firstId, end, output)
    ensures Serves(Part(shards, ShardSplit, split), split, max, stream, files) ==> r.Ok?
    ensures r.Ok? ==> ReadSoFar(Part(shards, ShardSplit, split), split, max, stream, files,
                                |Part(shards[..i + 1], ShardSplit, split)|, firstId, end, r.value)
  {
    PartNext(shards, ShardSplit, split, i);
    if shards[i].split != split {
      return Ok(output);
    }
    PartPlace(shards, ShardSplit, split, i);
    var share := ReadShard(shards[i], files, firstId, end, stream);
    ReadOneMore(Part(shards, ShardSplit, split), split, max, stream, files,
                |Part(shards[..i], ShardSplit, split)|, firstId, end, output, share);
    r := if share.Err? then share else Ok(output + share.value);
  }

  /** Reads ids of one split from whichever shards hold them. When the shards stand
      for a stream, the answer is exactly that slice of it, and a range that leaves
      the stream is refused. */
  method ReadRange(shards: seq<Shard>, files: Files, split: Split, firstId: nat, ids: nat,
      ghost stream: seq<nat>, ghost max: nat)
    returns (r: Result<seq<nat>, StorageError>)
    requires firstId <= U64_MAX && ids <= U64_MAX
    ensures r.Ok? ==> |r.value| == ids
    ensures Serves(Part(shards, ShardSplit, split), split, max, stream, files) ==>
      && (r.Ok? <==> firstId + ids <= |stream| || ids == 0)
      && (r.Ok? && ids > 0 ==> r.value == stream[firstId..firstId + ids])
  {
    var end := firstId + ids;
    if end > U64_MAX {
      return Err(AccountingOverflow);
    }
    ghost var own := Part(shards, ShardSplit, split);
    var output: seq<nat> := [];
    ReadNothing(own, split, max, stream, files, firstId, end);
    var i := 0;
    while i < |shards|
      invariant i <= |shards|
      invariant ReadSoFar(own, split, max, stream, files, |Part(shards[..i], ShardSplit, split)|, firstId, end, output)
    {
      var next := ReadNext(shards, i, files, split, firstId, end, output, stream, max);
      if next.Err? {
        return next;
      }
      output := next.value;
      i := i + 1;
    }
    assert shards[..i] == shards;
    ReadAll(own, split, max, stream, files, firstId, end, output);
    if |output| != ids {
      return Err(SequenceIncomplete);
    }
    r := Ok(output);
  }
}
