# Verified model of the training stack's algorithms

This Dafny project models the parts of a small-language-model training stack whose
correctness is an argument rather than a branch, and proves what they are for. The
Rust code it models lives in `src/`.

**Tokenizer** (`Bpe`, `Links`, `Tokenizer`, `Counting`, `PairAccounts`, `Rounds`,
`Trainer`, `Agreement`, `Decoder`). `Bpe` holds the textbook definitions: replace a
pair from left to right, apply rules in id order. Incremental training, heap encoding
and explicit-stack decoding are written as the source writes them, over linked lists,
stale occurrences, a ranking, a candidate heap and a stack, and each is proved equal to
its textbook form. Training and encoding are then proved to agree, and decoding to undo
encoding within the limits.

**Tape** (`Tape`, `Derivatives`, `TapeCalculus`, `Bf16`). The reverse sweep of the CPU
oracle is the adjoint of the forward tangent map, on every tape; and on every tape
without casts and without division by zero that tangent, and so each gradient, is the
derivative. The BF16 narrowing is modelled bit for bit.

**Corpus policy** (`UnionFind`, `Connectivity`, `Jaccard`, `AscendingLists`, `Sorting`,
`Dedup`, `Groups`, `Representatives`, `Splits`, `SplitManifest`, `TokenSequences`,
`ProtectedIndex`, `Draws`, `Shuffle`, `SpanOrder`). Deduplication and split assignment
are exact connected components, independent of input order; the inverted index of
protected records equals a naive scan; the span shuffle is unbiased and its validator
accepts only tilings. Hashes, band keys and shingles are arbitrary numbers, so nothing
rests on how they collide.

**Storage and transfer** (`CorpusSplit`, `Machine`, `Outcomes`, `Sequences`, `Streams`,
`SequenceIndex`, `Shards`, `TokenIndex`, `Materialize`, `TokenCorpus`, `VerifiedCorpus`,
`SpanLoader`, `TransferPipeline`, `Delivery`). The sharded files represent one stream for each
split; what is materialized always passes every check made on opening; sequences and
documents read back exactly; the loader and the transfer pipeline are state machines
whose runs are proved safe for arbitrary outcomes of every call; and from a stored
corpus to the device, the targets delivered are the stored stream.

**Smaller pieces.** Strict JSON with its canonical printer (`Decimals`, `JsonText`,
`JsonRoundTrip`, `JsonCanonical`, `StrictJson`, `JsonWriter`), checkpoint retention
(`Retention`), schedule arithmetic (`Schedule`), and the five-artifact state codec
(`LittleEndian`, `WordBytes`, `ParameterLayout`, `StateCodec`, `StateAcceptance`).

Code that changes state step by step is imperative here too: classes for the union-find,
the tape, the shard writer, the loader, the pipeline and the parser, and loops with
invariants elsewhere, each proved against a specification function. The lemmas are about
those functions. `dafny verify dfyconfig.toml` checks everything.

## Where the code and its promise differ

- **NaN narrowing.** Adding the rounding bias can carry out of a NaN. `Bf16.NanKept`
  gives the exact condition under which a NaN stays one, `Bf16.NanLost` three patterns
  that do not.
- **Zero-length documents.** The cross-multiplied comment ratio of
  `representative_order` is not transitive when a length is zero, so the representative
  of a group need not be preferred to every other member. `LeastExactlyWhen` gives the
  exact condition on a group's lengths: none is zero, or at most one is not.
  `EmptyDocumentCycle` is a group that fails it. Curation accepts no document under 100
  bytes (`src/data.rs:46`, `src/data/policy.rs:95`), so no curated corpus does.
  Independence of input order needs no condition.
- **A repeated band key.** Two equal keys of one document pair it with itself. That
  joins nothing, but it counts against the candidate capacity; `Dedup.Propose` says so
  exactly. A key hashes its band's number, so two bands of one document have equal keys
  only if SHA-256 collides.
- **Documents that cannot be stored.** An empty document would have no ids and fail the
  round-trip check; the corpus checks refuse it before (`src/storage.rs:642`). One over
  1,000,000 bytes is refused by the decoder. `Materialize.EncodeChecked` says that these
  are the only two cases.
- **Negative zero.** The layout spells every zero `0`, so a canonical zero keeps its
  value but not its sign.

## Model

| member | source | states |
|---|---|---|
| Trainer.TrainRules | src/tokenizer.rs:628-771 | For every corpus and every target size, incremental training returns what the textbook trainer returns; each rule has the next id and merges the pair found in the most places of the corpus as it reads under the rules before it, the lowest such pair on ties, with that count of at least two as its frequency; underfilling is reported only when no pair is left in two places; the two accounting-failure exits are never taken. |
| Rounds.TrainRound | src/tokenizer.rs:700-762 | One round over linked lists, pair counts, stale occurrences and ranking replaces the pair in every document from left to right and keeps the whole state settled: counts are the true overlapping pair counts, every live position is noted, and the merged pair has no count left. |
| Rounds.VisitStarts | src/tokenizer.rs:703-756 | Visiting the noted positions in ascending order, skipping stale ones, performs the left-to-right non-overlapping replacement, overlaps such as `aaa` included. |
| Rounds.MergeOccurrence | src/tokenizer.rs:713-755 | One merge in place keeps the counts true, the occurrence lists complete, the links sound, and leaves only later positions pending. |
| Trainer.LoadCorpus | src/tokenizer.rs:649-682 | Loading lays out one doubly linked list per document, with true pair counts and every adjacent pair noted, and never links two documents. |
| Trainer.RunRounds | src/tokenizer.rs:685-769 | The rounds stop exactly when enough rules are learned or no pair reaches the minimum frequency. |
| Trainer.TraceIsLearned | src/tokenizer.rs:685-770 | Along any run, the k-th rule merges the most frequent pair, lowest left and then lowest right token on ties, of the corpus as it reads under the first k rules. |
| PairAccounts.AdjustCount | src/tokenizer.rs:773-801 | Count and ranking change together: one pair's count moves by one, a pair with no count leaves both, and the update fails exactly when the count would leave the 64-bit range. |
| PairAccounts.AddOccurrence | src/tokenizer.rs:803-813 | Exactly one count and one noted position are added. |
| PairAccounts.FirstIsBest | src/tokenizer.rs:685-699 | The first entry of the ranking is the textbook trainer's best pair of the recounted corpus. |
| Counting.MergeTotals | src/tokenizer.rs:716-755 | What one merge does to every overlapping pair count: exactly the neighbours' pairs are destroyed and created, for all pairs and all contexts, runs of equal tokens included. |
| Counting.BestIsUnique | src/tokenizer.rs:685-699 | The best pair is determined by the counts: highest count, then lowest pair. |
| Counting.TotalCountsPlaces | src/tokenizer.rs:669-677 | A pair's total is the number of places, by document and index, where its two tokens stand side by side. |
| Counting.BestIsMostFrequent | src/tokenizer.rs:679-699 | The chosen pair is in more places than any other, or in as many as pairs with a higher left token or an equal left and a higher right token. |
| Agreement.TrainedRulesAreValid | src/tokenizer.rs:685-770 | Learned rules always pass the checks made on an artifact (contiguous ids, no forward reference, distinct pairs, minimum frequency), and training frequency never rises from a rule to a later one. |
| Agreement.NewTokensAreCounted | src/tokenizer.rs:757-762 | A new token occurs at most as often as its pair was counted, which is why later rules are never more frequent. |
| Trainer.TrainingAgreesWithEncoding | src/tokenizer.rs:685-770 | After k rounds every training document is its encoding under the first k rules. |
| Agreement.TrainAndEncode | src/tokenizer.rs:255-771 | After any number of rounds the trainer's own linked list of a training document spells exactly what the heap encoder returns for it under the learned rules. |
| Tokenizer.ValidateMerges | src/tokenizer.rs:880-895 | The artifact's merge checks accept exactly the rule lists with ids from 260 on, operands below the id, distinct pairs and a frequency of at least two. |
| Tokenizer.BuildRanks | src/tokenizer.rs:369-386 | The rank table maps each pair to its rule's id, and is refused exactly when a pair is repeated. |
| Tokenizer.Encode | src/tokenizer.rs:255-319 | For every accepted artifact and every byte string, the heap over a linked list, stale entries and all, terminates with the result of applying the rules one by one in id order. |
| Tokenizer.EncodeStep | src/tokenizer.rs:282-317 | One popped candidate, stale or live, leaves the final encoding of the current tokens unchanged, keeps every mergeable pair covered by the heap, and lowers the termination measure. |
| Tokenizer.LeastIsLowest | src/tokenizer.rs:282-299 | The least live candidate names the lowest rule that still applies anywhere, at its leftmost place. |
| Tokenizer.PushCandidate | src/tokenizer.rs:898-912 | After a push, the pair at a position has its entry in the heap if it has a rank. |
| Bpe.ReplaceAllLowest | src/tokenizer.rs:282-317 | Why one merge at a time is allowed: without forward references, performing the leftmost occurrence of the lowest applicable rule does not change the result of applying all rules in order. |
| Links.SpliceLinked | src/tokenizer.rs:304-309 | Splicing one node out of a doubly linked list removes it from its own list only, and replaces the two tokens by one in the text that list spells. |
| Decoder.DecodeSource | src/tokenizer.rs:321-367 | The explicit-stack decoder returns, error for error, what recursive expansion with the two limits returns; it terminates on every id list. |
| Decoder.DecodesExactly | src/tokenizer.rs:321-367 | Decoding succeeds if and only if every id is expandable and the whole expansion is within the document limit, and then yields exactly the expansion: the stack limit never refuses more. |
| Decoder.RoundTrip | src/tokenizer.rs:321-367 | Decoding the encoding of any byte string gives it back when it is at most 1,000,000 bytes and the limit error otherwise; all ids are at least 4 and below the vocabulary size. |
| Decoder.EncodingIsInjective | src/tokenizer.rs:255-319 | Different byte strings have different encodings, of any length. |
| Tape.Tape.Backward | src/model/oracle.rs:674-717 | The reverse loop computes the sweep of the seeded tape, node for node, and changes gradients only. |
| Tape.BackwardIsAdjoint | src/model/oracle.rs:674-717 | For every tape, output and parameter tangent, the sum of gradient times tangent over the parameters equals the forward tangent of the output, shared inputs included. |
| Tape.SweepConserves | src/model/oracle.rs:680-715 | Handing one node's gradient back to its inputs conserves the gradient-tangent sum, for every operation with the partials the code writes, and also when both inputs are one node. |
| Tape.GradientIsPartial | src/model/oracle.rs:674-717 | The gradient left at a parameter is the tangent of the output along that parameter alone. |
| TapeCalculus.SumInOrder | src/model/oracle.rs:666-672 | Summation pushes a zero and then one addition per value, in order. |
| TapeCalculus.SumTangent | src/model/oracle.rs:666-672 | The chain's last node carries the sum of the values, and its tangent the sum of the tangents. |
| TapeCalculus.TangentIsDerivative | src/model/oracle.rs:586-717 | On every tape without casts, without division by zero, and with elementary functions that have their textbook derivatives where they are applied, the difference quotients of each value along any parameter direction tend to its tangent, at a linear rate. |
| TapeCalculus.TangentIsLinearPart | src/model/oracle.rs:586-717 | Small steps move each value by the step times its tangent, up to a fixed multiple of the square of the step. |
| TapeCalculus.GradientIsDerivative | src/model/oracle.rs:674-717 | After the sweep a parameter's gradient is the derivative of the output by that parameter. |
| Derivatives.ChainDerives | src/model/oracle.rs:631-649 | The chain rule, for difference quotients that tend at a linear rate. |
| Derivatives.QuotientDerives | src/model/oracle.rs:624-629 | The quotient rule, in the form the tangent of a division takes. |
| Bf16.NarrowedIsNearest | src/model/oracle.rs:300-304 | Whenever the biased sum fits 32 bits, narrowing picks the nearest of the two neighbouring patterns, ties to even. |
| Bf16.FiniteRounds | src/model/oracle.rs:300-304 | For every finite or infinite pattern the sign is kept, the result is nearest, and it is never a NaN. |
| Bf16.NarrowedRises | src/model/oracle.rs:300-304 | Narrowing is monotone on patterns that are not NaN. |
| Bf16.NanKept | src/model/oracle.rs:300-304 | A NaN pattern stays a NaN if and only if its magnitude lies strictly between 0x7F808000 and 0x7FFF8000. |
| Bf16.NanLost | src/model/oracle.rs:300-304 | Concrete NaN patterns: two narrow to a zero of the other sign, one to infinity. |
| Bf16.WidenedNarrows | src/model/oracle.rs:300-308 | Widening and narrowing again is the identity on all 16-bit patterns. |
| UnionFind.UnionFind.Find | src/corpus.rs:2087-2092 | Recursive path compression terminates, returns the root, and changes no element's root. |
| UnionFind.UnionFind.Union | src/corpus.rs:2094-2108 | Union by rank merges exactly the two classes and no other. |
| UnionFind.RanksStaySmall | src/corpus.rs:2094-2108 | Two to the rank never exceeds the number of elements, so a rank stays below 64 and its 8-bit counter cannot overflow. |
| UnionFind.CompressKeepsRoots | src/corpus.rs:2087-2092 | Pointing an element at its root leaves every root as it was. |
| Connectivity.OneMoreEdge | src/corpus.rs:2094-2108 | Adding one edge connects exactly what was connected, plus walks through the new edge. |
| Connectivity.UnionAddsEdge | src/corpus.rs:2094-2108 | If the forest represents the components of some edges, after a union it represents those of the edges and one more. |
| Jaccard.JaccardExceeds | src/corpus.rs:1929-1954 | The merge pass over two ascending shingle lists decides exactly whether the set Jaccard is strictly above 85/100. |
| Dedup.Propose | src/corpus.rs:1511-1527 | The candidates are exactly the pairs that share a band key, and a document with itself when it repeats one of its own keys. |
| Dedup.UnionExact | src/corpus.rs:1496-1509 | Equal hashes, and only they, are connected; the number of edges is the number of documents minus the number of different hashes. |
| Dedup.UnionNear | src/corpus.rs:1534-1563 | Exactly the candidates with different hashes and an exact Jaccard above the threshold are joined, and they are counted. |
| Dedup.EdgesMakeDuplicates | src/corpus.rs:1496-1563 | The edges found connect the same documents as the full duplicate relation over all pairs. |
| Groups.Deduplicate | src/corpus.rs:1489-1582 | Groups are the connected components of equal hashes and confirmed candidates, each sorted by source id and listed by first id, with exact edge counts; the only refusal is for too many candidates, and exactly then. |
| Representatives.PreferredTransitive | src/corpus.rs:1622-1633 | The cross-multiplied comment-ratio order is transitive on documents with a positive length. |
| Representatives.RepresentativeIsLeast | src/corpus.rs:1615-1633 | With different ids, and lengths of which none is zero or at most one is not, the representative is preferred to every other member. |
| Representatives.PositionRepresents | src/corpus.rs:1615-1633 | In plain numbers, for documents with some text: the representative has complete provenance if any member has, then the lowest share of comment bytes, then the most tokens, then the lowest id. |
| Representatives.LeastExactlyWhen | src/corpus.rs:1615-1633 | The exact condition on lengths: every duplicate group with these lengths has a least representative if and only if no length is zero or at most one is not. |
| Representatives.EmptyDocumentCycle | src/corpus.rs:1622-1633 | A duplicate group of an empty document and two without tokens, in which the first is preferred to the second, that to the third and that to the first, so the representative found is not least. |
| Representatives.Decontaminate | src/corpus.rs:1646-1678 | A group is rejected exactly when a member matched a protected record. |
| Representatives.OrderDoesNotMatter | src/corpus.rs:1564-1633 | Two input orders of the same documents give the same groups, in the same order, with the same representatives, whatever the lengths. |
| Splits.JoinAll | src/corpus.rs:1692-1710 | The joins connect exactly the kept documents linked by shared groups or repositories. |
| Splits.FileAll | src/corpus.rs:1711-1732 | The one-pass filing equals asking every component which kept groups touch it. |
| SplitManifest.AssignSplits | src/corpus.rs:1687-1802 | Components are exactly the connected components of kept documents, each with its identity and with exactly the representatives of the groups in it; buckets below 9,800 are for training, the next hundred for validation and the last hundred for test; components are ordered by id and assignments training first, then validation, then test, by component and source id. |
| SplitManifest.BucketShares | src/corpus.rs:2000-2006 | Of the ten thousand buckets, 9,800, 100 and 100 fall to training, validation and test. |
| SplitManifest.ComponentIsChain | src/corpus.rs:1735-1776 | Two kept documents are in one component if and only if a chain of shared groups or repositories joins them. |
| SplitManifest.NothingLeaks | src/corpus.rs:1735-1776 | No repository and no duplicate group spans two splits. |
| SplitManifest.KeptGroupAssignedOnce | src/corpus.rs:1711-1776 | Each kept group has exactly one assignment, of its representative, to the component holding all its members; if its members have some text, the representative is the one the provenance, comment share, token count and id single out. |
| SplitManifest.RejectedGroupUnassigned | src/corpus.rs:1711-1776 | No member of a rejected group is ever assigned. |
| SplitManifest.ThreePasses | src/corpus.rs:1783-1793 | Three stable passes order the assignments as one comparison of the triples does. |
| TokenSequences.FlatInjective | src/corpus.rs:1822-1836 | The self-delimiting encoding is injective on token lists. |
| TokenSequences.Encode | src/corpus.rs:1822-1836 | Encoding succeeds exactly when the bytes fit 32-bit offsets, and then holds the frames and the end of each token. |
| TokenSequences.SameSequence | src/corpus.rs:1803-1836 | Two encoded sequences are equal if and only if their tokens are. |
| TokenSequences.SameRun | src/corpus.rs:1843-1850 | Two runs have equal bytes if and only if they have equal tokens. |
| ProtectedIndex.Build | src/corpus.rs:959-1027 | Every posting list holds exactly the records with that key. |
| ProtectedIndex.MatchJson | src/corpus.rs:1047-1079 | A canonical JSON record is reported if and only if it is a substring of the document, with anchors, confirmation and the early exit. |
| ProtectedIndex.MatchSpans | src/corpus.rs:1107-1125 | The span reason is reported if and only if document and record share a run of 50 tokens, for every hash function. |
| ProtectedIndex.MatchDocument | src/corpus.rs:1033-1143 | Indexed matching equals scanning every record for every reason, for any collisions. |
| ProtectedIndex.SharedRunIsSharedTokens | src/corpus.rs:1803-1856 | Sharing a byte run of 50 tokens is the same as sharing 50 consecutive tokens. |
| Draws.EveryRemainderEquallyLikely | src/corpus.rs:2211-2222 | For every range, the 64-bit draws that are not rejected hit each remainder equally often. |
| Draws.Accept | src/corpus.rs:2214-2219 | The rejection loop returns the first draw at or past the threshold. |
| Shuffle.ShuffledIsPermutation | src/corpus.rs:2211-2224 | Every sequence of choices yields a permutation. |
| Shuffle.ShuffledInjective | src/corpus.rs:2211-2224 | Different choices yield different orders of distinct offsets. |
| Shuffle.ShuffledSurjective | src/corpus.rs:2211-2224 | Every permutation comes from some choices. |
| Shuffle.SwapDownIsShuffled | src/corpus.rs:2211-2224 | The descending swap loop computes that map from choices to orders. |
| SpanOrder.DrawOrder | src/corpus.rs:2208-2224 | The offsets are shuffled by the accepted draws modulo the range, each draw used once and in order. |
| SpanOrder.Validate | src/corpus.rs:2265-2314 | The validator accepts exactly the span orders, overflow included. |
| SpanOrder.Build | src/corpus.rs:2188-2263 | For every prefix of at least two and every stream that eventually yields accepted draws, building succeeds with the shuffled list, and the validator never refuses it. |
| SpanOrder.AcceptedTiles | src/corpus.rs:2265-2314 | In anything the validator accepts, every target below the total lies in exactly one span, no other target lies in any, and only the last span can be short. |
| Shards.ShardWriter.Append | src/storage.rs:849-864 | Appending extends the represented stream by the ids, or refuses an id of more than 16 bits; no other split's files change. |
| Shards.ShardWriter.Flush | src/storage.rs:866-889 | A flush writes the buffered ids as the next shard; an empty buffer writes nothing. |
| Shards.ShardWriter.Finish | src/storage.rs:891-900 | At the end the shards represent the whole stream, all but the last full. |
| Shards.SliceReadsBack | src/storage.rs:1132-1178 | Reading a slice of the little-endian bytes gives the slice of the ids. |
| Shards.ReadRange | src/storage.rs:1132-1178 | Over any shards that serve a stream, a range is returned exactly when it lies within the stream, and is then the stream's slice. |
| Shards.ValidateShardBytes | src/storage.rs:1203-1218 | The shard check accepts exactly matching sizes and storable ids. |
| Streams.EndMarks | src/storage.rs:1220-1239 | The end mark stands in a split's stream exactly at the ends of its documents. |
| Streams.DocumentLies | src/storage.rs:302-382 | Document k starts where the earlier documents end and is followed by one end mark. |
| Streams.TrainingKeepsARun | src/storage.rs:302-382 | The kept training documents are a leading run of all of them, and a shorter one only once the prefix is complete. |
| Streams.OtherSplitsKeepAll | src/storage.rs:302-382 | Validation and test documents are all kept. |
| SequenceIndex.AppendSpans | src/storage.rs:709-740 | The spans appended for a split are the tiling of its targets. |
| SequenceIndex.TilingCovers | src/storage.rs:709-740 | The tiling is contiguous from zero, every span but the last has 2,048 targets, and together they cover the targets exactly. |
| SequenceIndex.NeighboursShareOneId | src/storage.rs:709-740 | Each span ends one id after the next begins. |
| SequenceIndex.ValidateSpans | src/storage.rs:1330-1366 | The span checks accept exactly the contiguous covers of the usable ids. |
| TokenIndex.ValidateDocuments | src/storage.rs:1285-1328 | The document checks accept exactly ascending keys and contiguous ranges adding up to the stored ids and bytes. |
| TokenIndex.SplitEntriesCover | src/storage.rs:302-382 | The entries recorded while storing always pass those checks. |
| TokenIndex.ValidateShardOrder | src/storage.rs:1261-1283 | The shard-order checks accept exactly contiguous shards that add up to the stored ids. |
| TokenIndex.ValidateShardEos | src/storage.rs:1220-1239 | The end-mark check accepts exactly the shards whose positions fit 64 bits and whose end marks stand where the index has them, and reports an overflow exactly when no mark before it is misplaced. |
| TokenIndex.MarksWhereIndexed | src/storage.rs:1220-1239 | In the stored stream, end marks stand exactly where the recorded index has them. |
| Materialize.EncodeChecked | src/storage.rs:302-382 | The round-trip check on each document passes exactly when it is nonempty and within the decoder's limit. |
| Materialize.TakeDocument | src/storage.rs:317-380 | One document is stored exactly when it round-trips and the total fits, and otherwise the error is that of the first check that fails. |
| Materialize.SplitsAscend | src/storage.rs:271-285 | After ordering, each split's documents ascend by key and are all of that split's documents. |
| Materialize.InOrderIsOrdered | src/storage.rs:271-285 | Training documents come first, then validation, then test, each by key. |
| Materialize.InputOrderDoesNotMatter | src/storage.rs:271-285 | Each split's order depends only on which documents there are. |
| Materialize.StoreAll | src/storage.rs:302-382 | The loop succeeds exactly when every kept document can be stored and all fit the maximum, and then records and stores exactly the kept documents. |
| TokenCorpus.FinishAll | src/storage.rs:384-405 | All splits' shards represent their streams, and the stream accounts are those of the kept documents. |
| TokenCorpus.BuildSequences | src/storage.rs:709-740 | The sequence index tiles every split, training only up to its prefix. |
| TokenCorpus.CountedRelates | src/storage.rs:742-820 | A built manifest always passes the relation checks. |
| TokenCorpus.RelationsRecount | src/storage.rs:742-820 | The relation check accepts exactly manifests of three streams, one for each split, whose every count is what recounting from shards, documents and streams gives, and which stay within the limits. |
| TokenCorpus.Tokenize | src/storage.rs:235-447 | Materializing succeeds exactly when the kept documents are storable and fit, and then the manifest is faithful to them and passes the relation checks. |
| VerifiedCorpus.ValidateIndexes | src/storage.rs:1241-1368 | The index checks accept exactly manifests whose entries, shards and spans cover each split. |
| VerifiedCorpus.Open | src/storage.rs:1027-1093 | Opening accepts exactly manifests whose relations, end positions, shards and indexes all hold; positions that overflow 64 bits are refused. |
| VerifiedCorpus.FaithfulIsVerified | src/storage.rs:1027-1093 | Everything a faithful manifest describes is accepted when opened. |
| VerifiedCorpus.TokenizeAndOpen | src/storage.rs:235-1093 | What is materialized always opens. |
| VerifiedCorpus.ReadSequence | src/storage.rs:1095-1108 | A sequence is the exact slice of its split's stream, and one that is not in the tiling is not found. |
| VerifiedCorpus.ReadDocumentTokens | src/storage.rs:1110-1130 | A stored document reads back as its encoding and one end mark; an absent key is not found. |
| VerifiedCorpus.ReadBack | src/storage.rs:1110-1130 | From a document's bytes through encoding, shards and reading, its tokens decode to the same bytes. |
| VerifiedCorpus.LoaderAccepts | src/train.rs:131-179 | The index of a stored corpus satisfies the loader, and its targets are all usable targets. |
| SpanLoader.CheckIndex | src/train.rs:140-167 | The loader accepts exactly contiguous entries whose counts fit 64 bits. |
| SpanLoader.Open | src/train.rs:131-179 | A loader is made exactly for a positive capacity and a contiguous split. |
| SpanLoader.Loader.Fill | src/train.rs:203-235 | The buffer is filled in index order up to its capacity or the end, or the loader fails for good with the cause. |
| SpanLoader.Loader.NextSpan | src/train.rs:236-247 | Spans come out once each, in index order; a stopped loader returns nothing and touches nothing; cancellation and failure end it and empty its buffer. |
| TransferPipeline.Open | src/train.rs:274-288 | A pipeline is made exactly for a positive number of transfers. |
| TransferPipeline.Pipeline.Fill | src/train.rs:301-321 | Submissions keep at most the maximum in flight and account for every ticket, whatever the source and the device do. |
| TransferPipeline.Pipeline.NextDeviceBatch | src/train.rs:322-338 | One call delivers the next batch in order, reports the end, or stops with an error that cancels every held ticket; later calls repeat that error. |
| TransferPipeline.Pipeline.CancelPending | src/train.rs:296-300 | Every held ticket is cancelled once, in order. |
| TransferPipeline.Pipeline.Drop | src/train.rs:341-345 | After the drop each ticket handed out has gone to exactly one of waiting or cancelling. |
| TransferPipeline.Run | src/train.rs:264-345 | Over any number of calls, with arbitrary reads, submissions, waits and cancellations: the batches are a prefix of the split's entries in order, the first error is returned for ever, an end without error comes only after every entry, no more tickets than the maximum are ever out at once, and every ticket is given back once. |
| TransferPipeline.TargetsAreTheStream | src/train.rs:95-119 | If reads bring slices of one stream, the targets of the spans delivered so far, joined in order, are the stream's ids from 1 up to their total. |
| Delivery.SentCarriesStream | src/train.rs:95-119 | Each span sent pairs its ids with the ones that follow them in the stream, and the targets join to the stream without loss or repetition. |
| Delivery.CorpusReadsStream | src/train.rs:81-93 | A source that answers as the stored corpus does reads slices of the split's stream. |
| Delivery.DeliverCorpus | src/train.rs:81-345 | From a stored corpus through loader and pipeline, under any cancellation and any device: the targets delivered are ids 1 onward of the split's stream, and all usable ones when the end is reached without an error. |
| Retention.RetainedTargets | src/train/checkpoint.rs:664-680 | For any list of generations and any anchors, the retained set is the newest two and the first generation at or past each anchor. |
| Retention.Prune | src/train/checkpoint.rs:682-748 | The delete loop leaves exactly the retained generations. |
| Retention.SurvivorsDecide | src/train/checkpoint.rs:664-748 | Any set between the retained ones and the full history retains the same generations. |
| Retention.PruningIsIdempotent | src/train/checkpoint.rs:682-748 | Pruning again removes nothing. |
| Retention.PruningOftenIsPruningOnce | src/train/checkpoint.rs:664-748 | Publishing in increasing order and pruning after each publication leaves what pruning the full history once leaves. |
| Retention.FewSurvive | src/train/checkpoint.rs:664-680 | At most two plus the number of anchors survive, the newest among them. |
| Schedule.PlanTokens | src/scale_up.rs:257-300 | The plan is accepted exactly for positive multiples of four past the warm-up whose prefix fits 64 bits; updates and spans then add up exactly to the targets. |
| Schedule.PlanIsTheRun | src/scale_up.rs:257-300 | Running one update at a time consumes a full update's targets except in the last, which takes the planned rest, and ends at the planned count. |
| Schedule.PlanMatchesRun | src/scale_up.rs:302-328 | A position is planned if and only if a step-by-step run stops there: before the first update, at the first update reaching each interval multiple, or at completion. |
| Schedule.StopsInNumbers | src/scale_up.rs:302-328 | A run stops before its first update, after its last, and after each update of 65,536 targets that is first to reach a multiple of a hundred million, and nowhere else. |
| Schedule.EvaluationEvents | src/scale_up.rs:302-328 | The event count is the number of stops of the run, and is refused exactly when the threshold arithmetic overflows. |
| Schedule.ExpectedStops | src/train/trainer.rs:663-677 | The positions a resumed state must have evaluated are, in order, the stops its run has made so far. |
| StrictJson.Parser.ReadString | src/benchmark/strict_json.rs:191-236 | The string loop reads what the grammar reads: escapes, paired surrogates, and no bare control character. |
| StrictJson.Parser.ReadNumber | src/benchmark/strict_json.rs:276-324 | The number scanner takes exactly the grammar's literal, or the one named negative infinity. |
| StrictJson.Parser.ReadValue | src/benchmark/strict_json.rs:107-135 | The cursor-moving parser refines the reference grammar at every depth. |
| StrictJson.ParseText | src/benchmark/strict_json.rs:59-68 | A text is accepted exactly when it is one value with whitespace around it; accepted values have no key twice and at most 128 values around any value. |
| StrictJson.ParsedIsGood | src/benchmark/strict_json.rs:107-190 | Anything parsed has no key twice anywhere and nests within the bound. |
| JsonRoundTrip.StringReads | src/benchmark/strict_json.rs:378-396 | Every string, printed by section 3.2.2.2 of RFC 8785, reads back as itself. |
| JsonRoundTrip.UnitEscapeReads | src/benchmark/strict_json.rs:238-273 | Every scalar below 0x10000, escaped with four hexadecimal digits of either case, reads as itself. |
| JsonRoundTrip.PairEscapeReads | src/benchmark/strict_json.rs:238-258 | Every other scalar, escaped as a high and a low surrogate with digits of either case, reads as itself. |
| JsonRoundTrip.LoneSurrogateRefused | src/benchmark/strict_json.rs:238-258 | A surrogate that is not part of a pair is refused. |
| JsonRoundTrip.ShortEscapeReads | src/benchmark/strict_json.rs:202-214 | The eight short escapes, an escaped slash among them, read as their characters. |
| JsonRoundTrip.BlanksSkipped | src/benchmark/strict_json.rs:76-86 | Exactly the spaces, tabs, line feeds and carriage returns at the front are skipped. |
| JsonRoundTrip.EscapedIsCanonical | src/benchmark/strict_json.rs:378-396 | Quotes and backslashes are escaped by a backslash, five control characters by a letter, the others by lowercase digits, and nothing else is escaped. |
| JsonRoundTrip.EscapedIsShortest | src/benchmark/strict_json.rs:378-396 | No text that reads as a character is shorter than the spelling the writer gives it. |
| JsonRoundTrip.NumberReads | src/benchmark/strict_json.rs:276-324 | Every spelled number reads back as its own text. |
| JsonRoundTrip.PrintedParses | src/benchmark/strict_json.rs:59-376 | Every printed value parses back to exactly itself. |
| Decimals.SpellingDenotes | src/benchmark/strict_json.rs:448-461 | A literal's digits and exponent are read as they are spelled, leading and trailing zeros included. |
| Decimals.LayoutDenotes | src/benchmark/strict_json.rs:462-499 | The digit layout of section 3.2.2.3 of RFC 8785 denotes the same decimal as its digits and exponent, in every one of its forms. |
| Decimals.LayoutForm | src/benchmark/strict_json.rs:462-499 | By its characters alone: zeros up to twenty-one places, a point among the digits, zeros after the point down to a millionth, and otherwise one digit before the point and an exponent without leading zeros. |
| Decimals.CanonicalNumberStable | src/benchmark/strict_json.rs:399-447 | A canonical number is a literal, is its own canonical form, and denotes the same double. |
| Decimals.CanonicalNumberForm | src/benchmark/strict_json.rs:399-447 | There is a canonical text exactly when the nearest double has the literal's digits; the text keeps those digits and has the standard's form. |
| JsonCanonical.NormalizedFixed | src/benchmark/strict_json.rs:338-376 | The canonical form is its own canonical form. |
| JsonCanonical.NormalizedSame | src/benchmark/strict_json.rs:338-376 | The canonical form equals the value up to member order and number spelling, and keeps every number's digits. |
| JsonCanonical.CanonicalRoundTrip | src/benchmark/strict_json.rs:332-376 | The canonical text parses to the canonical form, means the same, and is printed the same again. |
| JsonCanonical.NormalizedIsCanonical | src/benchmark/strict_json.rs:338-376 | In every object each key comes before the next at the first UTF-16 unit where they differ, and every number has its standard form. |
| JsonWriter.WriteString | src/benchmark/strict_json.rs:378-396 | The string writer appends the shortest escapes. |
| JsonWriter.WriteCanonical | src/benchmark/strict_json.rs:338-376 | The writer appends the canonical form's text, and refuses exactly values with a number that has none. |
| JsonWriter.Canonicalize | src/benchmark/strict_json.rs:332-336 | Parsing and canonicalizing any text succeeds exactly for representable values; the result reparses to an equal value with its keys in UTF-16 order and its numbers in standard form, and canonicalizes to the same bytes. |
| ParameterLayout.BuildLayout | src/train/full_state.rs:114-154 | The pushing loop builds the layout: every tensor at its place, with its name as text and its number of elements, keys and values sized by the key-value heads; together they have as many elements as the shape has parameters. |
| ParameterLayout.LayoutPlaces | src/train/full_state.rs:114-154 | The embeddings come first, then nine tensors for each block, then the final norm and the head, each with its text and size. |
| ParameterLayout.ParameterCount | src/train/full_state.rs:156-161 | The number of parameters of any shape. |
| ParameterLayout.LayoutDistinct | src/train/full_state.rs:114-154 | No tensor name, as formatted text, occurs twice, for any dimensions. |
| ParameterLayout.NameTextDiffers | src/train/full_state.rs:114-154 | A formatted name determines its block number and part. |
| ParameterLayout.DecayByText | src/train/full_state.rs:179-181 | The suffix rule on the text exempts exactly the norm scales from decay. |
| ParameterLayout.LayoutNotEmpty | src/train/full_state.rs:84-154 | For accepted dimensions every tensor has elements. |
| StateCodec.SnapshotArtifacts | src/train/full_state.rs:387-429 | The byte buffers hold, in layout order, each tensor's storage, master and moments, little-endian. |
| StateCodec.RestoreArtifacts | src/train/full_state.rs:431-513 | Restoring, cut by a running offset, is the specified inverse, error for error. |
| StateAcceptance.RestoredExactlyWhen | src/train/full_state.rs:431-513 | An artifact set restores exactly for a valid shape, a runtime object that binds it and carries two texts of 64 lowercase hexadecimal digits, and four byte strings of the shape's length whose words are finite, the short ones being the rounded long ones. |
| StateAcceptance.MisplacedRefused | src/train/full_state.rs:524-545 | A set whose first artifact of some role stands at another role's path is refused. |
| StateCodec.RestoreOfSnapshot | src/train/full_state.rs:387-513 | Restoring the snapshot of any accepted state, for any dimensions and bit patterns, rebuilds it exactly. |
| StateCodec.SnapshotOfRestore | src/train/full_state.rs:387-513 | Any accepted artifact set re-snapshots to the same four binary byte strings and the same runtime object. |
| StateCodec.WitnessReadsBack | src/train/full_state.rs:547-561 | A text decodes to a stream state if and only if it is the lowercase hexadecimal of its 32 bytes. |
| WordBytes.WordsReadBack | src/train/full_state.rs:387-429 | Numbers that fit a width read back from their bytes. |
| WordBytes.ReadWritesBack | src/train/full_state.rs:431-513 | Bytes cut into words write back as the same bytes. |

## Left out

- Files, directories, publication, manifests' hash and identity checks, and the JSON form of artifacts: operating-system effects and single-branch checks; a generation is a map from shard paths to bytes.
- HTTP fetching, tree-sitter parsing, tokenizer sampling, license and date rules, result objects: easy or foreign.
- SHA-256, ChaCha12, MinHash and band keys: hashes, ids, keys and shingles are arbitrary numbers and the draws an arbitrary stream, so near-duplicate recall is not claimed.
- AdamW numerics, clipping, entropy and learning rates: floating-point values without an exact theorem.
- Model and memory plans, latency plans and changed axes of `src/scale_up.rs`: checked products read off one body.
- Collections: a binary heap is a multiset popped at its least element, ordered sets and maps are sets and maps, and vectors rewritten in place inside the tokenizer are sequences reassigned, so aliasing is not modelled there.
- Trainer.TrainRules: requires a target of at most `u32::MAX`, the source's id type; the corpus length check is the source's own and is modelled as an error.
- Tokenizer.Encode: requires at most `u32::MAX` bytes, because the source's linked list has 32-bit positions and would wrap beyond.
- Tape.Tape.Backward: values are exact reals, division by zero is zero by convention, and the elementary functions are arbitrary.
- Tape.BackwardIsAdjoint: the BF16 cast is the identity in the derivative, as in the source, and partials are the ones the code writes.
- TapeCalculus.TangentIsDerivative: the elementary functions are arbitrary, so that they have their textbook derivatives where they are applied is a hypothesis; a BF16 cast is a step function and has no derivative.
- Dedup.UnionExact: windows of one list are joined by a shared helper, and their number is added once for each list.
- Groups.Deduplicate: reading a candidate's tokens again from disk is left out; a document carries its ascending shingles.
- ProtectedIndex.MatchJson: the Aho-Corasick automaton is a scan that reports every occurrence of every anchor.
- ProtectedIndex.MatchDocument: returns every record with every reason; the outcome's merged lists of names are left out.
- SplitManifest.AssignSplits: component ids and buckets come from arbitrary functions, and the bucket is reduced as in the source.
- SpanOrder.Build: assumes only that the draw stream eventually passes each threshold, without which the source's loop does not end; the seed and the separate partial-span record are left out.
- SpanOrder.Validate: the product of the complete span count and the span length is unbounded; the source's callers keep it within 64 bits.
- Materialize.StoreAll: documents have been read already, and the four-part ordering key of a document is one number that keeps its order.
- TokenCorpus.Tokenize: the checks made on the configuration and the governed corpus are its precondition (`Accepted`).
- VerifiedCorpus.Open: requires only that the manifest's own fields fit 64 bits, as their types say; which of several faults is reported first follows the source, but the contract states only acceptance.
- SpanLoader.Loader.NextSpan: the cancellation flag may change between any two polls, and a read's outcome depends only on the call's number and the sequence.
- Delivery.DeliverCorpus: the sequences are read once and kept in a table, since the files do not change; the source reads them again each time.
- TransferPipeline.Run: a device's outcomes are arbitrary functions of the call's number, and the n-th accepted span gets ticket n.
- Retention.RetainedTargets: anchors are any list, in any order.
- Schedule.PlanTokens: the context length is positive, which the source checks beforehand.
- StrictJson.ParseText: texts are sequences of Unicode scalars, so UTF-8 decoding is left out, and the source's error messages are one refusal.
- JsonWriter.Canonicalize: the nearest double of a literal is an arbitrary function whose shortest digits read back as the same double.
- StateCodec.RestoreOfSnapshot: the runtime object's text form, the layout hash, finiteness and BF16 rounding are arbitrary services; printing is assumed to parse back.
- StateCodec.SnapshotArtifacts: each of the four byte buffers is written in a pass of its own, where the source fills them together.
- ParameterLayout.BuildLayout: tensor names are a datatype, with their text beside it.
