/**
Matching documents against protected records through an index, and why the answers
are those of comparing each document with each record, whatever the hashes collide on.
*/
module ProtectedIndex {
  import opened AscendingLists
  import opened Bpe
  import opened Jaccard
  import opened Outcomes
  import opened TokenSequences

  const SPAN_TOKENS: nat := 50
  const ANCHOR_BYTES: nat := 64

  /** A protected record; the keys are its signature's, if it has one. */
  datatype Record = Record(
    canonicalJson: bool, content: seq<Byte>, hash: nat, tokens: TokenSequence, shingles: seq<nat>,
    keys: Option<seq<nat>>)

  datatype Candidate = Candidate(
    content: seq<Byte>, hash: nat, tokens: TokenSequence, shingles: seq<nat>, keys: seq<nat>)

  datatype Reason = ExactSource | CanonicalJsonExact | LexicalJaccard | CompleteSequence | TokenSpan

  ghost predicate ValidRecords(records: seq<Record>) {
    forall p :: 0 <= p < |records| ==> records[p].tokens.Valid() && Ascending(records[p].shingles)
  }

  // ----- what a match is, record by record -----

  predicate Holds(record: seq<Byte>, content: seq<Byte>, start: nat) {
    start <= |content| && |record| <= |content| - start && content[start..start + |record|] == record
  }

  ghost predicate Occurs(record: seq<Byte>, content: seq<Byte>) {
    exists start: nat :: Holds(record, content, start)
  }

  /** Every run of that many tokens, in order. */
  function Runs(s: TokenSequence, count: nat): (r: seq<seq<Byte>>)
    requires s.Valid() && 0 < count
    ensures |r| == if s.Len() < count then 0 else s.Len() + 1 - count
    ensures forall i :: 0 <= i < |r| ==> r[i] == s.Run(i, count)
  {
    seq(if s.Len() < count then 0 else s.Len() + 1 - count,
        i requires 0 <= i && i + count <= s.Len() => s.Run(i, count))
  }

  ghost predicate ShareRun(a: TokenSequence, b: TokenSequence)
    requires a.Valid() && b.Valid()
  {
    exists span :: span in Runs(a, 50) && span in Runs(b, 50)
  }

  ghost predicate ShareKey(r: Record, d: Candidate) {
    r.keys.Some? && exists k :: k in r.keys.value && k in d.keys
  }

  /** A record and a document match for this reason. No hash of a run is involved. */
  ghost predicate Justified(r: Record, d: Candidate, reason: Reason)
    requires r.tokens.Valid() && d.tokens.Valid()
  {
    match reason
    case ExactSource => !r.canonicalJson && r.hash == d.hash
    case CanonicalJsonExact => r.canonicalJson && r.content != [] && Occurs(r.content, d.content)
    case LexicalJaccard =>
      !r.canonicalJson && ShareKey(r, d) && Exceeds(Elements(d.shingles), Elements(r.shingles))
    case CompleteSequence => !r.canonicalJson && r.tokens.Len() < 50 && r.tokens == d.tokens
    case TokenSpan => !r.canonicalJson && ShareRun(d.tokens, r.tokens)
  }

  // ----- postings -----

  function Lookup<K>(m: map<K, seq<nat>>, k: K): seq<nat> {
    if k in m then m[k] else []
  }

  function PostAll<K>(m: map<K, seq<nat>>, keys: seq<K>, p: nat): map<K, seq<nat>> {
    if keys == [] then m
    else
      var k := keys[|keys| - 1];
      var front := PostAll(m, keys[..|keys| - 1], p);
      front[k := Lookup(front, k) + [p]]
  }

  lemma {:induction false} PostedAll<K>(m: map<K, seq<nat>>, keys: seq<K>, p: nat, k: K, q: nat)
    ensures q in Lookup(PostAll(m, keys, p), k) <==> q in Lookup(m, k) || (q == p && k in keys)
  {
    if keys != [] {
      var n := |keys| - 1;
      PostedAll(m, keys[..n], p, k, q);
      assert keys == keys[..n] + [keys[n]];
    }
  }

  /** Record p is posted exactly under its own keys. */
  ghost predicate Posts<K(!new)>(m: map<K, seq<nat>>, keys: seq<seq<K>>, n: nat)
    requires n <= |keys|
  {
    forall k, p: nat :: p in Lookup(m, k) <==> p < n && k in keys[p]
  }

  lemma {:induction false} NothingPosted<K(!new)>(keys: seq<seq<K>>)
    ensures Posts(map[], keys, 0)
  {
    var m: map<K, seq<nat>> := map[];
    forall k, p: nat ensures p !in Lookup(m, k) {
    }
    assert Posts(m, keys, 0);
  }

  lemma {:induction false} PostsMore<K(!new)>(m: map<K, seq<nat>>, keys: seq<seq<K>>, n: nat)
    requires n < |keys| && Posts(m, keys, n)
    ensures Posts(PostAll(m, keys[n], n), keys, n + 1)
  {
    forall k, p: nat ensures p in Lookup(PostAll(m, keys[n], n), k) <==> p < n + 1 && k in keys[p] {
      PostedAll(m, keys[n], n, k, p);
    }
  }

  // ----- the index -----

  datatype Index = Index(
    exact: map<nat, seq<nat>>, bands: map<nat, seq<nat>>, spans: map<nat, seq<nat>>,
    shortSequences: map<TokenSequence, seq<nat>>, jsonRecords: seq<nat>)

  function ExactKeys(r: Record): seq<nat> {
    if r.canonicalJson then [] else [r.hash]
  }

  function BandKeys(r: Record): seq<nat> {
    if r.canonicalJson || r.keys.None? then [] else r.keys.value
  }

  function ShortKeys(r: Record): seq<TokenSequence> {
    if r.canonicalJson || r.tokens.Len() >= SPAN_TOKENS then [] else [r.tokens]
  }

  function SpanKeys(r: Record, spanHash: seq<Byte> -> nat): seq<nat>
    requires r.tokens.Valid()
  {
    if r.canonicalJson || r.tokens.Len() < SPAN_TOKENS then []
    else
      var runs := Runs(r.tokens, SPAN_TOKENS);
      seq(|runs|, i requires 0 <= i < |runs| => spanHash(runs[i]))
  }

  function AllExact(records: seq<Record>): (keys: seq<seq<nat>>)
    ensures |keys| == |records|
  {
    seq(|records|, p requires 0 <= p < |records| => ExactKeys(records[p]))
  }

  function AllBands(records: seq<Record>): (keys: seq<seq<nat>>)
    ensures |keys| == |records|
  {
    seq(|records|, p requires 0 <= p < |records| => BandKeys(records[p]))
  }

  function AllShort(records: seq<Record>): (keys: seq<seq<TokenSequence>>)
    ensures |keys| == |records|
  {
    seq(|records|, p requires 0 <= p < |records| => ShortKeys(records[p]))
  }

  ghost function AllSpans(records: seq<Record>, spanHash: seq<Byte> -> nat): (keys: seq<seq<nat>>)
    requires ValidRecords(records)
    ensures |keys| == |records|
  {
    seq(|records|, p requires 0 <= p < |records| => SpanKeys(records[p], spanHash))
  }

  predicate Searched(r: Record) {
    r.canonicalJson && r.content != []
  }

  /** The index of the first n records. */
  ghost predicate Indexes(index: Index, records: seq<Record>, n: nat, spanHash: seq<Byte> -> nat)
    requires n <= |records| && ValidRecords(records)
  {
    && Posts(index.exact, AllExact(records), n) && Posts(index.bands, AllBands(records), n)
    && Posts(index.spans, AllSpans(records, spanHash), n) && Posts(index.shortSequences, AllShort(records), n)
    && JsonListed(index.jsonRecords, records, n)
  }

  ghost predicate JsonListed(json: seq<nat>, records: seq<Record>, n: nat)
    requires n <= |records|
  {
    Ascending(json) && forall p: nat :: p in json <==> p < n && Searched(records[p])
  }

  lemma {:induction false} JsonMore(json: seq<nat>, records: seq<Record>, n: nat)
    requires n < |records| && JsonListed(json, records, n)
    ensures JsonListed(if Searched(records[n]) then json + [n] else json, records, n + 1)
  {
    assert forall i :: 0 <= i < |json| ==> json[i] in json;
  }

  /** Builds the index, for any hash of runs. */
  method Build(records: seq<Record>, spanHash: seq<Byte> -> nat) returns (index: Index)
    requires ValidRecords(records)
    ensures Indexes(index, records, |records|, spanHash)
  {
    index := Index(map[], map[], map[], map[], []);
    NothingPosted(AllExact(records));
    NothingPosted(AllBands(records));
    NothingPosted(AllSpans(records, spanHash));
    NothingPosted(AllShort(records));
    var p := 0;
    while p < |records|
      invariant p <= |records| && Indexes(index, records, p, spanHash)
    {
      var r := records[p];
      JsonMore(index.jsonRecords, records, p);
      PostsMore(index.exact, AllExact(records), p);
      PostsMore(index.bands, AllBands(records), p);
      PostsMore(index.spans, AllSpans(records, spanHash), p);
      PostsMore(index.shortSequences, AllShort(records), p);
      index := Index(
        PostAll(index.exact, ExactKeys(r), p), PostAll(index.bands, BandKeys(r), p),
        PostAll(index.spans, SpanKeys(r, spanHash), p), PostAll(index.shortSequences, ShortKeys(r), p),
        if Searched(r) then index.jsonRecords + [p] else index.jsonRecords);
      p := p + 1;
    }
  }

  // ----- canonical JSON: anchors, then verification -----

  function Anchor(record: seq<Byte>): seq<Byte> {
    if |record| <= ANCHOR_BYTES then record else record[..ANCHOR_BYTES]
  }

  lemma {:induction false} AnchorFirst(record: seq<Byte>, content: seq<Byte>, start: nat)
    requires Holds(record, content, start)
    ensures Holds(Anchor(record), content, start)
  {
    var k := |Anchor(record)|;
    assert content[start..start + |record|][..k] == content[start..start + k];
  }

  /** Every place where a pattern occurs, as the automaton reports them. */
  method FindOverlapping(patterns: seq<seq<Byte>>, content: seq<Byte>) returns (hits: seq<(nat, nat)>)
    ensures forall i :: 0 <= i < |hits| ==> hits[i].0 < |patterns| && Holds(patterns[hits[i].0], content, hits[i].1)
    ensures forall k: nat, start: nat :: k < |patterns| && Holds(patterns[k], content, start) ==> (k, start) in hits
  {
    hits := [];
    var start := 0;
    while start <= |content|
      invariant start <= |content| + 1
      invariant forall i :: 0 <= i < |hits| ==> hits[i].0 < |patterns| && Holds(patterns[hits[i].0], content, hits[i].1)
      invariant forall k: nat, at: nat :: k < |patterns| && at < start && Holds(patterns[k], content, at) ==> (k, at) in hits
    {
      hits := HitsAt(patterns, content, start, hits);
      start := start + 1;
    }
  }

  method HitsAt(patterns: seq<seq<Byte>>, content: seq<Byte>, start: nat, before: seq<(nat, nat)>)
    returns (hits: seq<(nat, nat)>)
    requires forall i :: 0 <= i < |before| ==>
      before[i].0 < |patterns| && Holds(patterns[before[i].0], content, before[i].1)
    ensures forall i :: 0 <= i < |hits| ==> hits[i].0 < |patterns| && Holds(patterns[hits[i].0], content, hits[i].1)
    ensures forall h :: h in before ==> h in hits
    ensures forall k: nat :: k < |patterns| && Holds(patterns[k], content, start) ==> (k, start) in hits
  {
    hits := before;
    var k := 0;
    while k < |patterns|
      invariant k <= |patterns|
      invariant forall i :: 0 <= i < |hits| ==> hits[i].0 < |patterns| && Holds(patterns[hits[i].0], content, hits[i].1)
      invariant forall h :: h in before ==> h in hits
      invariant forall j: nat :: j < k && Holds(patterns[j], content, start) ==> (j, start) in hits
    {
      if Holds(patterns[k], content, start) {
        hits := hits + [(k, start)];
      }
      k := k + 1;
    }
  }

  /** What has been confirmed are patterns whose records occur. */
  ghost predicate Confirmed(seen: set<nat>, json: seq<nat>, records: seq<Record>, content: seq<Byte>) {
    forall k :: k in seen ==> k < |json| && json[k] < |records| && Occurs(records[json[k]].content, content)
  }

  lemma {:induction false} AllBelow(seen: set<nat>, n: nat)
    requires |seen| == n && forall k :: k in seen ==> k < n
    ensures forall k: nat :: k < n ==> k in seen
    decreases n
  {
    if n > 0 {
      if n - 1 in seen {
        var rest := seen - {n - 1};
        AllBelow(rest, n - 1);
        forall k: nat | k < n ensures k in seen {
          assert k == n - 1 || k in rest;
        }
      } else {
        Fewer(seen, n - 1);
      }
    }
  }

  lemma {:induction false} Fewer(seen: set<nat>, n: nat)
    requires forall k :: k in seen ==> k < n
    ensures |seen| <= n
    decreases n
  {
    if n > 0 {
      Fewer(seen - {n - 1}, n - 1);
    } else {
      assert seen == {};
    }
  }

  /** Confirms anchor hits until none is left or every record has been confirmed. */
  method ConfirmHits(hits: seq<(nat, nat)>, json: seq<nat>, records: seq<Record>, content: seq<Byte>)
    returns (seen: set<nat>)
    requires forall k :: 0 <= k < |json| ==> json[k] < |records|
    requires forall i :: 0 <= i < |hits| ==> hits[i].0 < |json|
    ensures Confirmed(seen, json, records, content)
    ensures forall i :: 0 <= i < |hits| && Holds(records[json[hits[i].0]].content, content, hits[i].1) ==> hits[i].0 in seen
  {
    seen := {};
    var i := 0;
    while i < |hits|
      invariant i <= |hits| && Confirmed(seen, json, records, content)
      invariant forall j :: 0 <= j < i && Holds(records[json[hits[j].0]].content, content, hits[j].1) ==> hits[j].0 in seen
    {
      var pattern, start := hits[i].0, hits[i].1;
      if pattern !in seen && Holds(records[json[pattern]].content, content, start) {
        seen := seen + {pattern};
        if |seen| == |json| {
          AllBelow(seen, |json|);
          return;
        }
      }
      i := i + 1;
    }
  }

  lemma {:induction false} HitsSuffice(patterns: seq<seq<Byte>>, hits: seq<(nat, nat)>, json: seq<nat>, records: seq<Record>,
      content: seq<Byte>, seen: set<nat>, k: nat)
    requires |patterns| == |json| && k < |json| && json[k] < |records|
    requires patterns[k] == Anchor(records[json[k]].content)
    requires forall start: nat :: Holds(patterns[k], content, start) ==> (k, start) in hits
    requires forall i :: 0 <= i < |hits| && hits[i].0 == k && Holds(records[json[k]].content, content, hits[i].1) ==> k in seen
    requires Occurs(records[json[k]].content, content)
    ensures k in seen
  {
    var start: nat :| Holds(records[json[k]].content, content, start);
    AnchorFirst(records[json[k]].content, content, start);
    assert (k, start) in hits;
    var i :| 0 <= i < |hits| && hits[i] == (k, start);
  }

  /** The canonical-JSON records that occur in the document. */
  method MatchJson(index: Index, records: seq<Record>, d: Candidate, ghost spanHash: seq<Byte> -> nat)
    returns (found: set<nat>)
    requires ValidRecords(records) && d.tokens.Valid() && Indexes(index, records, |records|, spanHash)
    ensures forall p: nat :: p in found <==> p < |records| && Justified(records[p], d, CanonicalJsonExact)
  {
    var json := index.jsonRecords;
    assert forall k :: 0 <= k < |json| ==> json[k] in json;
    var patterns := seq(|json|, k requires 0 <= k < |json| => Anchor(records[json[k]].content));
    var hits := FindOverlapping(patterns, d.content);
    var seen := ConfirmHits(hits, json, records, d.content);
    found := set k | k in seen :: json[k];
    forall p: nat ensures p in found <==> p < |records| && Justified(records[p], d, CanonicalJsonExact) {
      if p < |records| && Justified(records[p], d, CanonicalJsonExact) {
        assert p in json;
        var k: nat :| k < |json| && json[k] == p;
        HitsSuffice(patterns, hits, json, records, d.content, seen, k);
      }
    }
  }

  // ----- the other lookups -----

  function Positions(s: seq<nat>): (r: set<nat>)
    ensures forall p :: p in r <==> p in s
  {
    set p | p in s
  }

  method MatchExact(index: Index, records: seq<Record>, d: Candidate, ghost spanHash: seq<Byte> -> nat)
    returns (found: set<nat>)
    requires ValidRecords(records) && d.tokens.Valid() && Indexes(index, records, |records|, spanHash)
    ensures forall p: nat :: p in found <==> p < |records| && Justified(records[p], d, ExactSource)
  {
    found := Positions(Lookup(index.exact, d.hash));
    forall p: nat ensures p in found <==> p < |records| && Justified(records[p], d, ExactSource) {
      assert p in Lookup(index.exact, d.hash) <==> p < |records| && d.hash in AllExact(records)[p];
    }
  }

  method MatchShort(index: Index, records: seq<Record>, d: Candidate, ghost spanHash: seq<Byte> -> nat)
    returns (found: set<nat>)
    requires ValidRecords(records) && d.tokens.Valid() && Indexes(index, records, |records|, spanHash)
    ensures forall p: nat :: p in found <==> p < |records| && Justified(records[p], d, CompleteSequence)
  {
    found := Positions(Lookup(index.shortSequences, d.tokens));
    forall p: nat ensures p in found <==> p < |records| && Justified(records[p], d, CompleteSequence) {
      assert p in Lookup(index.shortSequences, d.tokens) <==> p < |records| && d.tokens in AllShort(records)[p];
    }
  }

  /** Candidates are proposed by keys, and then compared exactly. */
  method MatchJaccard(index: Index, records: seq<Record>, d: Candidate, ghost spanHash: seq<Byte> -> nat)
    returns (found: set<nat>)
    requires ValidRecords(records) && d.tokens.Valid() && Ascending(d.shingles)
    requires Indexes(index, records, |records|, spanHash)
    ensures forall p: nat :: p in found <==> p < |records| && Justified(records[p], d, LexicalJaccard)
  {
    var candidates: set<nat> := {};
    var b := 0;
    while b < |d.keys|
      invariant b <= |d.keys|
      invariant forall p: nat :: p in candidates <==> p < |records| && exists k :: k in BandKeys(records[p]) && k in d.keys[..b]
    {
      ghost var before := candidates;
      candidates := candidates + Positions(Lookup(index.bands, d.keys[b]));
      forall p: nat
        ensures p in candidates <==> p < |records| && exists k :: k in BandKeys(records[p]) && k in d.keys[..b + 1]
      {
        assert d.keys[..b + 1] == d.keys[..b] + [d.keys[b]];
        assert p in Lookup(index.bands, d.keys[b]) <==> p < |records| && d.keys[b] in AllBands(records)[p];
      }
      b := b + 1;
    }
    assert d.keys[..b] == d.keys;
    found := {};
    var pending := candidates;
    while pending != {}
      invariant pending <= candidates
      invariant forall p :: p in found <==>
        p in candidates && p !in pending && Exceeds(Elements(d.shingles), Elements(records[p].shingles))
      decreases pending
    {
      var p :| p in pending;
      var exceeds := JaccardExceeds(d.shingles, records[p].shingles);
      if exceeds {
        found := found + {p};
      }
      pending := pending - {p};
    }
  }

  /** Runs are proposed by hash, and then compared as bytes. */
  method MatchSpans(index: Index, records: seq<Record>, d: Candidate, spanHash: seq<Byte> -> nat)
    returns (found: set<nat>)
    requires ValidRecords(records) && d.tokens.Valid() && Indexes(index, records, |records|, spanHash)
    ensures forall p: nat :: p in found <==> p < |records| && Justified(records[p], d, TokenSpan)
  {
    var runs := Runs(d.tokens, SPAN_TOKENS);
    found := {};
    var i := 0;
    while i < |runs|
      invariant i <= |runs|
      invariant forall p: nat :: p in found <==>
        p < |records| && !records[p].canonicalJson && exists j :: 0 <= j < i && runs[j] in Runs(records[p].tokens, SPAN_TOKENS)
    {
      var confirmed := ConfirmSpan(index, records, runs[i], spanHash);
      found := found + confirmed;
      i := i + 1;
    }
  }

  method ConfirmSpan(index: Index, records: seq<Record>, span: seq<Byte>, spanHash: seq<Byte> -> nat)
    returns (confirmed: set<nat>)
    requires ValidRecords(records) && Indexes(index, records, |records|, spanHash)
    ensures forall p: nat :: p in confirmed <==>
      p < |records| && !records[p].canonicalJson && span in Runs(records[p].tokens, SPAN_TOKENS)
  {
    var positions := Positions(Lookup(index.spans, spanHash(span)));
    forall p: nat
      ensures p in positions ==> p < |records| && !records[p].canonicalJson
      ensures p < |records| && !records[p].canonicalJson && span in Runs(records[p].tokens, SPAN_TOKENS) ==> p in positions
    {
      SpanProposed(index, records, spanHash, span, p);
    }
    confirmed := set p | p in positions && span in Runs(records[p].tokens, SPAN_TOKENS);
  }

  lemma {:induction false} SpanProposed(index: Index, records: seq<Record>, spanHash: seq<Byte> -> nat, span: seq<Byte>, p: nat)
    requires ValidRecords(records) && Indexes(index, records, |records|, spanHash)
    ensures p in Lookup(index.spans, spanHash(span)) ==> p < |records| && !records[p].canonicalJson
    ensures p < |records| && !records[p].canonicalJson && span in Runs(records[p].tokens, SPAN_TOKENS) ==>
      p in Lookup(index.spans, spanHash(span))
  {
    var k: nat := spanHash(span);
    var keys := AllSpans(records, spanHash);
    assert Posts(index.spans, keys, |records|);
    assert p in Lookup(index.spans, k) <==> p < |records| && k in keys[p];
    if p < |records| && !records[p].canonicalJson && span in Runs(records[p].tokens, SPAN_TOKENS) {
      var runs := Runs(records[p].tokens, SPAN_TOKENS);
      var i :| 0 <= i < |runs| && runs[i] == span;
      assert SpanKeys(records[p], spanHash)[i] == spanHash(span);
    }
  }

  function With(found: set<nat>, reason: Reason): set<(nat, Reason)> {
    set p | p in found :: (p, reason)
  }

  /** All reasons for which a document matches a record, and no others: the answer of
      comparing the document with every record in turn, for every hash of runs. */
  method MatchDocument(index: Index, records: seq<Record>, d: Candidate, spanHash: seq<Byte> -> nat)
    returns (matches: set<(nat, Reason)>)
    requires ValidRecords(records) && d.tokens.Valid() && Ascending(d.shingles)
    requires Indexes(index, records, |records|, spanHash)
    ensures forall p: nat, reason: Reason ::
      (p, reason) in matches <==> p < |records| && Justified(records[p], d, reason)
  {
    var exact := MatchExact(index, records, d, spanHash);
    var json := MatchJson(index, records, d, spanHash);
    var jaccard := MatchJaccard(index, records, d, spanHash);
    var short := MatchShort(index, records, d, spanHash);
    var spans := MatchSpans(index, records, d, spanHash);
    matches := With(exact, ExactSource) + With(json, CanonicalJsonExact) + With(jaccard, LexicalJaccard)
      + With(short, CompleteSequence) + With(spans, TokenSpan);
  }

  /** The same fifty tokens stand in both lists. */
  ghost predicate SharedAt(s: seq<Token>, t: seq<Token>, i: nat, j: nat) {
    i + 50 <= |s| && j + 50 <= |t| && s[i..i + 50] == t[j..j + 50]
  }

  lemma {:induction false} SharedBytes(a: TokenSequence, b: TokenSequence, s: seq<Token>, t: seq<Token>) returns (i: nat, j: nat)
    requires Encodes(a, s) && Encodes(b, t) && AllFramable(s) && AllFramable(t) && a.Valid() && b.Valid()
    requires ShareRun(a, b)
    ensures SharedAt(s, t, i, j)
  {
    var left, right := Runs(a, SPAN_TOKENS), Runs(b, SPAN_TOKENS);
    var span :| span in left && span in right;
    i :| i < |left| && left[i] == span;
    j :| j < |right| && right[j] == span;
    SameRun(a, b, s, t, i, j, SPAN_TOKENS);
  }

  lemma {:induction false} SharedTokens(a: TokenSequence, b: TokenSequence, s: seq<Token>, t: seq<Token>, i: nat, j: nat)
    requires Encodes(a, s) && Encodes(b, t) && AllFramable(s) && AllFramable(t) && a.Valid() && b.Valid()
    requires SharedAt(s, t, i, j)
    ensures ShareRun(a, b)
  {
    var left, right := Runs(a, SPAN_TOKENS), Runs(b, SPAN_TOKENS);
    SameRun(a, b, s, t, i, j, SPAN_TOKENS);
    assert left[i] in left && right[j] in right;
  }

  /** A run is shared as bytes exactly when fifty consecutive tokens are shared. */
  lemma {:induction false} SharedRunIsSharedTokens(a: TokenSequence, b: TokenSequence, s: seq<Token>, t: seq<Token>)
    requires Encodes(a, s) && Encodes(b, t) && AllFramable(s) && AllFramable(t) && a.Valid() && b.Valid()
    ensures ShareRun(a, b) <==> exists i: nat, j: nat :: SharedAt(s, t, i, j)
  {
    if ShareRun(a, b) {
      var i, j := SharedBytes(a, b, s, t);
    }
    if i: nat, j: nat :| SharedAt(s, t, i, j) {
      SharedTokens(a, b, s, t, i, j);
    }
  }
}
