/** The id stream that a list of encoded documents stands for, and its index. */
module Streams {
  import opened CorpusSplit

  const TRAINING_PREFIX_IDS: nat := 2_000_000_001

  /** A governed document and its token ids; the key is its place in the order of
      component, repository group, source and hash. */
  datatype Document = Document(split: Split, key: nat, bytes: nat, ids: seq<nat>)

  function DocumentSplit(d: Document): Split { d.split }

  function DocumentsOf(docs: seq<Document>, split: Split): seq<Document> {
    Part(docs, DocumentSplit, split)
  }

  /** Every document's ids followed by one end mark. */
  ghost function Stream(docs: seq<Document>): seq<nat> {
    if docs == [] then []
    else
      var n := |docs| - 1;
      Stream(docs[..n]) + docs[n].ids + [EOS_ID]
  }

  ghost function Bytes(docs: seq<Document>): nat {
    if docs == [] then 0 else Bytes(docs[..|docs| - 1]) + docs[|docs| - 1].bytes
  }

  ghost function SourceIds(docs: seq<Document>): nat {
    if docs == [] then 0 else SourceIds(docs[..|docs| - 1]) + |docs[|docs| - 1].ids|
  }

  lemma {:induction false} Next(docs: seq<Document>, d: Document)
    ensures Stream(docs + [d]) == Stream(docs) + d.ids + [EOS_ID]
    ensures Bytes(docs + [d]) == Bytes(docs) + d.bytes
    ensures SourceIds(docs + [d]) == SourceIds(docs) + |d.ids|
  {
    assert (docs + [d])[..|docs|] == docs;
  }

  /** A stream is its documents' ids and one end mark each. */
  lemma {:induction false} StreamLength(docs: seq<Document>)
    ensures |Stream(docs)| == SourceIds(docs) + |docs|
  {
    if docs != [] {
      StreamLength(docs[..|docs| - 1]);
    }
  }

  // ----- where a document lies -----

  lemma {:induction false} StreamPrefix(docs: seq<Document>, n: nat)
    requires n <= |docs|
    ensures Stream(docs[..n]) <= Stream(docs)
    decreases |docs| - n
  {
    if n < |docs| {
      StreamPrefix(docs, n + 1);
      assert docs[..n + 1] == docs[..n] + [docs[n]];
      Next(docs[..n], docs[n]);
    } else {
      assert docs[..n] == docs;
    }
  }

  /** From that position on stand the ids and their end mark. */
  ghost predicate LiesAt(stream: seq<nat>, first: nat, ids: seq<nat>) {
    first + |ids| + 1 <= |stream| && stream[first..first + |ids| + 1] == ids + [EOS_ID]
  }

  lemma {:induction false} DocumentLies(docs: seq<Document>, k: nat)
    requires k < |docs|
    ensures |Stream(docs[..k])| + |docs[k].ids| + 1 == |Stream(docs[..k + 1])| <= |Stream(docs)|
    ensures LiesAt(Stream(docs), |Stream(docs[..k])|, docs[k].ids)
  {
    var stream, first := Stream(docs), |Stream(docs[..k])|;
    assert docs[..k + 1] == docs[..k] + [docs[k]];
    Next(docs[..k], docs[k]);
    StreamPrefix(docs, k + 1);
    TailOfPrefix(stream, Stream(docs[..k]), docs[k].ids + [EOS_ID], Stream(docs[..k + 1]));
  }

  lemma {:induction false} TailOfPrefix(s: seq<nat>, front: seq<nat>, tail: seq<nat>, both: seq<nat>)
    requires both <= s && both == front + tail
    ensures s[|front|..|front| + |tail|] == tail
  {
    assert both[|front|..|front| + |tail|] == tail;
  }

  /** Encoded ids never include the end mark. */
  ghost predicate Encoded(docs: seq<Document>) {
    forall k :: 0 <= k < |docs| ==> EOS_ID !in docs[k].ids
  }

  ghost predicate EndsAt(docs: seq<Document>, k: nat, p: nat)
    requires k < |docs|
  {
    p == |Stream(docs[..k])| + |docs[k].ids|
  }

  lemma {:induction false} EndNext(docs: seq<Document>, k: nat, p: nat)
    requires k < |docs| - 1
    ensures EndsAt(docs, k, p) <==> EndsAt(docs[..|docs| - 1], k, p)
  {
    assert docs[..|docs| - 1][..k] == docs[..k];
  }

  /** The end marks of a stream are exactly the ends of its documents. */
  lemma {:induction false} EndMarks(docs: seq<Document>, p: nat)
    requires Encoded(docs) && p < |Stream(docs)|
    ensures Stream(docs)[p] == EOS_ID <==> exists k: nat :: k < |docs| && EndsAt(docs, k, p)
    decreases |docs|
  {
    var n := |docs| - 1;
    var before := Stream(docs[..n]);
    if p < |before| {
      EndMarks(docs[..n], p);
      assert Stream(docs)[p] == before[p];
      forall k: nat | k < n ensures EndsAt(docs, k, p) <==> EndsAt(docs[..n], k, p) {
        EndNext(docs, k, p);
      }
      assert !EndsAt(docs, n, p);
    } else {
      forall k: nat | k < n ensures !EndsAt(docs, k, p) {
        DocumentLies(docs, k);
        assert docs[..k + 1] == docs[..n][..k + 1];
        StreamPrefix(docs[..n], k + 1);
      }
      LastMark(docs, p);
    }
  }

  lemma {:induction false} LastMark(docs: seq<Document>, p: nat)
    requires docs != [] && Encoded(docs) && |Stream(docs[..|docs| - 1])| <= p < |Stream(docs)|
    ensures Stream(docs)[p] == EOS_ID <==> EndsAt(docs, |docs| - 1, p)
  {
    var n := |docs| - 1;
    var before := Stream(docs[..n]);
    if p < |before| + |docs[n].ids| {
      assert Stream(docs)[p] == docs[n].ids[p - |before|];
    }
  }

  // ----- which documents are taken -----

  /** Training documents stop once the training prefix is complete. */
  ghost predicate Closed(kept: seq<Document>) {
    |Stream(DocumentsOf(kept, Train))| >= TRAINING_PREFIX_IDS
  }

  ghost predicate Takes(kept: seq<Document>, d: Document) {
    d.split != Train || !Closed(kept)
  }

  ghost function Kept(docs: seq<Document>): seq<Document> {
    if docs == [] then []
    else
      var n := |docs| - 1;
      var kept := Kept(docs[..n]);
      if Takes(kept, docs[n]) then kept + [docs[n]] else kept
  }

  lemma {:induction false} KeptNext(docs: seq<Document>, n: nat)
    requires n < |docs|
    ensures var kept := Kept(docs[..n]);
      Kept(docs[..n + 1]) == if Takes(kept, docs[n]) then kept + [docs[n]] else kept
  {
    assert docs[..n + 1][..n] == docs[..n];
  }

  lemma {:induction false} KeptPrefix(docs: seq<Document>, n: nat)
    requires n <= |docs|
    ensures Kept(docs[..n]) <= Kept(docs)
    decreases |docs| - n
  {
    if n < |docs| {
      KeptPrefix(docs, n + 1);
      KeptNext(docs, n);
    } else {
      assert docs[..n] == docs;
    }
  }

  lemma {:induction false} KeptAreDocuments(docs: seq<Document>, d: Document)
    requires d in Kept(docs)
    ensures d in docs
  {
    if docs != [] {
      var n := |docs| - 1;
      assert docs == docs[..n] + [docs[n]];
      if d in Kept(docs[..n]) {
        KeptAreDocuments(docs[..n], d);
      }
    }
  }

  lemma {:induction false} DocumentsNext(docs: seq<Document>, d: Document, split: Split)
    ensures DocumentsOf(docs + [d], split)
         == if d.split == split then DocumentsOf(docs, split) + [d] else DocumentsOf(docs, split)
  {
    PartSnoc(docs, d, DocumentSplit, split);
  }

  /** Validation and test documents are all kept. */
  lemma {:induction false} OtherSplitsKeepAll(docs: seq<Document>, split: Split)
    requires split != Train
    ensures DocumentsOf(Kept(docs), split) == DocumentsOf(docs, split)
  {
    if docs != [] {
      var n := |docs| - 1;
      OtherSplitsKeepAll(docs[..n], split);
      assert docs == docs[..n] + [docs[n]];
      DocumentsNext(docs[..n], docs[n], split);
      DocumentsNext(Kept(docs[..n]), docs[n], split);
    }
  }

  /** The kept training documents are an initial run of all of them, and the run is
      only cut short once it fills the training prefix. */
  lemma {:induction false} TrainingKeepsARun(docs: seq<Document>)
    ensures DocumentsOf(Kept(docs), Train) <= DocumentsOf(docs, Train)
    ensures DocumentsOf(Kept(docs), Train) == DocumentsOf(docs, Train)
      || |Stream(DocumentsOf(Kept(docs), Train))| >= 2_000_000_001
  {
    if docs != [] {
      var n := |docs| - 1;
      TrainingKeepsARun(docs[..n]);
      assert docs == docs[..n] + [docs[n]];
      DocumentsNext(docs[..n], docs[n], Train);
      DocumentsNext(Kept(docs[..n]), docs[n], Train);
    }
  }
}
