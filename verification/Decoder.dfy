/**
Source decoding: an explicit stack of ids to expand, with a byte limit on the
output and on the stack. It is measured against plain recursion over the rules,
and both against the byte string each id stands for.
*/
module Decoder {
  import opened Bpe
  import opened Sequences
  import opened Tokenizer

  const DOCUMENT_LIMIT: nat := 1_000_000

  datatype DecodeError = SpecialTokenInSource | TokenIdOutOfRange | DecodeLimitExceeded
  datatype Decoded = Source(bytes: seq<Byte>) | Refused(error: DecodeError)

  function RuleOf(merges: seq<Rule>, id: nat): (rule: Rule)
    requires ValidMerges(merges) && BASE_VOCABULARY_SIZE <= id < BASE_VOCABULARY_SIZE + |merges|
    ensures rule.id == id && rule.left < id && rule.right < id
  {
    assert ValidRule(merges[id - BASE_VOCABULARY_SIZE], id - BASE_VOCABULARY_SIZE);
    merges[id - BASE_VOCABULARY_SIZE]
  }

  // ----- decoding by recursion -----

  /** Expand one id onto `out` while `below` further ids wait. */
  function DecodeId(merges: seq<Rule>, id: nat, below: nat, out: seq<Byte>): Decoded
    requires ValidMerges(merges)
    decreases id
  {
    if id < FIRST_BYTE_ID then Refused(SpecialTokenInSource)
    else if id < BASE_VOCABULARY_SIZE then
      if |out| + 1 > DOCUMENT_LIMIT then Refused(DecodeLimitExceeded) else Source(out + [id - FIRST_BYTE_ID])
    else if id >= BASE_VOCABULARY_SIZE + |merges| then Refused(TokenIdOutOfRange)
    else if below + 2 > DOCUMENT_LIMIT then Refused(DecodeLimitExceeded)
    else
      match DecodeId(merges, RuleOf(merges, id).left, below + 1, out)
      case Refused(e) => Refused(e)
      case Source(mid) => DecodeId(merges, RuleOf(merges, id).right, below, mid)
  }

  function DecodeIds(merges: seq<Rule>, ids: seq<nat>, out: seq<Byte>): Decoded
    requires ValidMerges(merges)
    decreases |ids|
  {
    if ids == [] then Source(out)
    else
      match DecodeId(merges, ids[0], |ids| - 1, out)
      case Refused(e) => Refused(e)
      case Source(mid) => DecodeIds(merges, ids[1..], mid)
  }

  // ----- the explicit stack -----

  // The number of pops an id still causes.
  ghost function Pops(merges: seq<Rule>, id: nat): nat
    requires ValidMerges(merges)
    decreases id
  {
    if BASE_VOCABULARY_SIZE <= id < BASE_VOCABULARY_SIZE + |merges| then
      1 + Pops(merges, RuleOf(merges, id).left) + Pops(merges, RuleOf(merges, id).right)
    else 1
  }

  ghost function AllPops(merges: seq<Rule>, stack: seq<nat>): nat
    requires ValidMerges(merges)
  {
    if stack == [] then 0 else AllPops(merges, stack[..|stack| - 1]) + Pops(merges, stack[|stack| - 1])
  }

  lemma {:induction false} ExpandFirst(merges: seq<Rule>, rest: seq<nat>, id: nat, out: seq<Byte>)
    requires ValidMerges(merges) && BASE_VOCABULARY_SIZE <= id < BASE_VOCABULARY_SIZE + |merges|
    ensures var rule := RuleOf(merges, id);
      DecodeIds(merges, [id] + rest, out)
      == if |rest| + 2 > DOCUMENT_LIMIT then Refused(DecodeLimitExceeded)
         else DecodeIds(merges, [rule.left, rule.right] + rest, out)
  {
    var rule := RuleOf(merges, id);
    assert ([id] + rest)[1..] == rest;
    var two := [rule.left, rule.right] + rest;
    assert two[1..] == [rule.right] + rest;
    assert ([rule.right] + rest)[1..] == rest;
  }

  lemma {:induction false} ExpandOnStack(merges: seq<Rule>, stack: seq<nat>, id: nat, out: seq<Byte>)
    requires ValidMerges(merges) && BASE_VOCABULARY_SIZE <= id < BASE_VOCABULARY_SIZE + |merges|
    ensures var rule := RuleOf(merges, id);
      DecodeIds(merges, Reversed(stack + [id]), out)
      == if |stack| + 2 > DOCUMENT_LIMIT then Refused(DecodeLimitExceeded)
         else DecodeIds(merges, Reversed(stack + [rule.right] + [rule.left]), out)
  {
    var rule := RuleOf(merges, id);
    ReversedSnoc(stack, id);
    ReversedSnoc(stack, rule.right);
    ReversedSnoc(stack + [rule.right], rule.left);
    Associative([rule.left], [rule.right], Reversed(stack));
    assert [rule.left] + [rule.right] == [rule.left, rule.right];
    ExpandFirst(merges, Reversed(stack), id, out);
  }

  lemma {:induction false} TopOfStack(merges: seq<Rule>, stack: seq<nat>, id: nat, out: seq<Byte>)
    requires ValidMerges(merges)
    ensures DecodeIds(merges, Reversed(stack + [id]), out)
      == match DecodeId(merges, id, |stack|, out)
         case Refused(e) => Refused(e)
         case Source(mid) => DecodeIds(merges, Reversed(stack), mid)
  {
    ReversedSnoc(stack, id);
    assert ([id] + Reversed(stack))[1..] == Reversed(stack);
  }

  lemma {:induction false} PopsOfExpansion(merges: seq<Rule>, stack: seq<nat>, id: nat)
    requires ValidMerges(merges) && BASE_VOCABULARY_SIZE <= id < BASE_VOCABULARY_SIZE + |merges|
    ensures var rule := RuleOf(merges, id);
      AllPops(merges, stack + [rule.right] + [rule.left]) < AllPops(merges, stack + [id])
  {
    var rule := RuleOf(merges, id);
    assert (stack + [id])[..|stack|] == stack;
    assert (stack + [rule.right])[..|stack|] == stack;
    assert (stack + [rule.right] + [rule.left])[..|stack| + 1] == stack + [rule.right];
  }

  /** For any ids at all: terminates, and agrees with the recursion, errors included. */
  method DecodeSource(merges: seq<Rule>, ids: seq<nat>) returns (r: Decoded)
    requires ValidMerges(merges)
    ensures r == DecodeIds(merges, ids, [])
  {
    var output: seq<Byte> := [];
    var stack: seq<nat> := Reversed(ids);
    ReversedTwice(ids);
    while |stack| > 0
      invariant DecodeIds(merges, Reversed(stack), output) == DecodeIds(merges, ids, [])
      decreases AllPops(merges, stack)
    {
      var id := stack[|stack| - 1];
      ghost var full := stack;
      stack := stack[..|stack| - 1];
      assert full == stack + [id];
      if id < FIRST_BYTE_ID {
        TopOfStack(merges, stack, id, output);
        return Refused(SpecialTokenInSource);
      }
      if id < BASE_VOCABULARY_SIZE {
        TopOfStack(merges, stack, id, output);
        output := output + [id - FIRST_BYTE_ID];
        if |output| > DOCUMENT_LIMIT {
          return Refused(DecodeLimitExceeded);
        }
        continue;
      }
      if id >= BASE_VOCABULARY_SIZE + |merges| {
        TopOfStack(merges, stack, id, output);
        return Refused(TokenIdOutOfRange);
      }
      var rule := RuleOf(merges, id);
      ExpandOnStack(merges, stack, id, output);
      PopsOfExpansion(merges, stack, id);
      stack := stack + [rule.right];
      stack := stack + [rule.left];
      if |stack| > DOCUMENT_LIMIT {
        return Refused(DecodeLimitExceeded);
      }
    }
    return Source(output);
  }

  // ----- what an id stands for -----

  /** An id that expands to bytes alone. Rules may mention special tokens; ids
      built from those are not plain. */
  ghost predicate Plain(merges: seq<Rule>, id: nat)
    requires ValidMerges(merges)
    decreases id
  {
    && FIRST_BYTE_ID <= id < BASE_VOCABULARY_SIZE + |merges|
    && (id >= BASE_VOCABULARY_SIZE ==>
          Plain(merges, RuleOf(merges, id).left) && Plain(merges, RuleOf(merges, id).right))
  }

  ghost function Expansion(merges: seq<Rule>, id: nat): (bytes: seq<Byte>)
    requires ValidMerges(merges) && Plain(merges, id)
    ensures |bytes| >= 1
    ensures id >= BASE_VOCABULARY_SIZE ==> |bytes| >= 2
    decreases id
  {
    if id < BASE_VOCABULARY_SIZE then [id - FIRST_BYTE_ID]
    else Expansion(merges, RuleOf(merges, id).left) + Expansion(merges, RuleOf(merges, id).right)
  }

  ghost predicate AllPlain(merges: seq<Rule>, ids: seq<nat>)
    requires ValidMerges(merges)
  {
    forall i :: 0 <= i < |ids| ==> Plain(merges, ids[i])
  }

  ghost function Expansions(merges: seq<Rule>, ids: seq<nat>): (bytes: seq<Byte>)
    requires ValidMerges(merges) && AllPlain(merges, ids)
    ensures |bytes| >= |ids|
  {
    if ids == [] then [] else Expansion(merges, ids[0]) + Expansions(merges, ids[1..])
  }

  // ----- decoding succeeds exactly on plain ids within the byte limit -----

  lemma {:induction false} DecodePlainId(merges: seq<Rule>, id: nat, below: nat, out: seq<Byte>)
    requires ValidMerges(merges) && Plain(merges, id)
    requires |out| + |Expansion(merges, id)| + below <= DOCUMENT_LIMIT
    ensures DecodeId(merges, id, below, out) == Source(out + Expansion(merges, id))
    decreases id
  {
    if id >= BASE_VOCABULARY_SIZE {
      var rule := RuleOf(merges, id);
      var left, right := Expansion(merges, rule.left), Expansion(merges, rule.right);
      DecodePlainId(merges, rule.left, below + 1, out);
      DecodePlainId(merges, rule.right, below, out + left);
      assert out + left + right == out + (left + right);
    }
  }

  lemma {:induction false} DecodePlainIds(merges: seq<Rule>, ids: seq<nat>, out: seq<Byte>)
    requires ValidMerges(merges) && AllPlain(merges, ids)
    requires |out| + |Expansions(merges, ids)| <= DOCUMENT_LIMIT
    ensures DecodeIds(merges, ids, out) == Source(out + Expansions(merges, ids))
    decreases |ids|
  {
    if ids == [] {
      assert out + [] == out;
    } else {
      var first, rest := Expansion(merges, ids[0]), Expansions(merges, ids[1..]);
      DecodePlainId(merges, ids[0], |ids| - 1, out);
      DecodePlainIds(merges, ids[1..], out + first);
      assert out + first + rest == out + (first + rest);
    }
  }

  ghost predicate DecodesTo(merges: seq<Rule>, id: nat, out: seq<Byte>, r: Decoded)
    requires ValidMerges(merges)
  {
    && Plain(merges, id)
    && r == Source(out + Expansion(merges, id))
    && |out| + |Expansion(merges, id)| <= DOCUMENT_LIMIT
  }

  lemma {:induction false} DecodesToJoin(merges: seq<Rule>, id: nat, out: seq<Byte>, mid: Decoded, r: Decoded)
    requires ValidMerges(merges) && BASE_VOCABULARY_SIZE <= id < BASE_VOCABULARY_SIZE + |merges|
    requires DecodesTo(merges, RuleOf(merges, id).left, out, mid)
    requires DecodesTo(merges, RuleOf(merges, id).right, mid.bytes, r)
    ensures DecodesTo(merges, id, out, r)
  {
    var left, right := Expansion(merges, RuleOf(merges, id).left), Expansion(merges, RuleOf(merges, id).right);
    assert out + left + right == out + (left + right);
  }

  lemma {:induction false} DecodedIdIsPlain(merges: seq<Rule>, id: nat, below: nat, out: seq<Byte>)
    requires ValidMerges(merges) && DecodeId(merges, id, below, out).Source?
    ensures DecodesTo(merges, id, out, DecodeId(merges, id, below, out))
    decreases id
  {
    if id >= BASE_VOCABULARY_SIZE {
      var rule := RuleOf(merges, id);
      var mid := DecodeId(merges, rule.left, below + 1, out);
      DecodedIdIsPlain(merges, rule.left, below + 1, out);
      DecodedIdIsPlain(merges, rule.right, below, mid.bytes);
      DecodesToJoin(merges, id, out, mid, DecodeId(merges, id, below, out));
    }
  }

  ghost predicate AllDecodeTo(merges: seq<Rule>, ids: seq<nat>, out: seq<Byte>, r: Decoded)
    requires ValidMerges(merges)
  {
    && AllPlain(merges, ids)
    && r == Source(out + Expansions(merges, ids))
    && |out| + |Expansions(merges, ids)| <= DOCUMENT_LIMIT
  }

  lemma {:induction false} AllDecodeToJoin(merges: seq<Rule>, ids: seq<nat>, out: seq<Byte>, mid: Decoded, r: Decoded)
    requires ValidMerges(merges) && ids != []
    requires DecodesTo(merges, ids[0], out, mid)
    requires AllDecodeTo(merges, ids[1..], mid.bytes, r)
    ensures AllDecodeTo(merges, ids, out, r)
  {
    forall i | 0 <= i < |ids| ensures Plain(merges, ids[i]) {
      if i > 0 {
        assert ids[i] == ids[1..][i - 1];
      }
    }
    var first, rest := Expansion(merges, ids[0]), Expansions(merges, ids[1..]);
    assert out + first + rest == out + (first + rest);
  }

  lemma {:induction false} DecodedIdsArePlain(merges: seq<Rule>, ids: seq<nat>, out: seq<Byte>)
    requires ValidMerges(merges) && DecodeIds(merges, ids, out).Source? && |out| <= DOCUMENT_LIMIT
    ensures AllDecodeTo(merges, ids, out, DecodeIds(merges, ids, out))
    decreases |ids|
  {
    if ids == [] {
      assert out + [] == out;
    } else {
      var mid := DecodeId(merges, ids[0], |ids| - 1, out);
      DecodedIdIsPlain(merges, ids[0], |ids| - 1, out);
      DecodedIdsArePlain(merges, ids[1..], mid.bytes);
      AllDecodeToJoin(merges, ids, out, mid, DecodeIds(merges, ids, out));
    }
  }

  /** Exactly the id lists that spell at most a million bytes decode; the stack
      limit never refuses one of them. */
  lemma {:induction false} DecodesExactly(merges: seq<Rule>, ids: seq<nat>)
    requires ValidMerges(merges)
    ensures DecodeIds(merges, ids, []).Source? <==>
      AllPlain(merges, ids) && |Expansions(merges, ids)| <= 1_000_000
    ensures DecodeIds(merges, ids, []).Source? ==>
      AllPlain(merges, ids) && DecodeIds(merges, ids, []).bytes == Expansions(merges, ids)
  {
    if DecodeIds(merges, ids, []).Source? {
      DecodedIdsArePlain(merges, ids, []);
      assert [] + Expansions(merges, ids) == Expansions(merges, ids);
    } else if AllPlain(merges, ids) && |Expansions(merges, ids)| <= DOCUMENT_LIMIT {
      DecodePlainIds(merges, ids, []);
    }
  }

  lemma {:induction false} PlainIdRefusedByLimit(merges: seq<Rule>, id: nat, below: nat, out: seq<Byte>)
    requires ValidMerges(merges) && Plain(merges, id)
    ensures DecodeId(merges, id, below, out).Refused? ==>
      DecodeId(merges, id, below, out).error == DecodeLimitExceeded
    decreases id
  {
    if id >= BASE_VOCABULARY_SIZE {
      var rule := RuleOf(merges, id);
      PlainIdRefusedByLimit(merges, rule.left, below + 1, out);
      var mid := DecodeId(merges, rule.left, below + 1, out);
      if mid.Source? {
        PlainIdRefusedByLimit(merges, rule.right, below, mid.bytes);
      }
    }
  }

  lemma {:induction false} PlainIdsRefusedByLimit(merges: seq<Rule>, ids: seq<nat>, out: seq<Byte>)
    requires ValidMerges(merges) && AllPlain(merges, ids)
    ensures DecodeIds(merges, ids, out).Refused? ==>
      DecodeIds(merges, ids, out).error == DecodeLimitExceeded
    decreases |ids|
  {
    if ids != [] {
      PlainIdRefusedByLimit(merges, ids[0], |ids| - 1, out);
      var mid := DecodeId(merges, ids[0], |ids| - 1, out);
      if mid.Source? {
        PlainIdsRefusedByLimit(merges, ids[1..], mid.bytes);
      }
    }
  }

  // ----- round trip -----

  lemma {:induction false} ReplaceKeepsExpansion(merges: seq<Rule>, s: seq<nat>, k: nat)
    requires ValidMerges(merges) && k < |merges| && AllPlain(merges, s)
    ensures var t := Replace(s, merges[k].Pair(), merges[k].id);
      AllPlain(merges, t) && Expansions(merges, t) == Expansions(merges, s)
    decreases |s|
  {
    var p, id := merges[k].Pair(), merges[k].id;
    if |s| >= 2 {
      assert ValidRule(merges[k], k);
      if Matches(s, 0, p) {
        ReplaceKeepsExpansion(merges, s[2..], k);
        var rest := Replace(s[2..], p, id);
        assert Plain(merges, id);
        assert ([id] + rest)[1..] == rest;
        assert s[1..][1..] == s[2..];
        assert Expansion(merges, s[0]) + (Expansion(merges, s[1]) + Expansions(merges, s[2..]))
            == Expansion(merges, s[0]) + Expansion(merges, s[1]) + Expansions(merges, s[2..]);
      } else {
        ReplaceKeepsExpansion(merges, s[1..], k);
        var rest := Replace(s[1..], p, id);
        assert ([s[0]] + rest)[1..] == rest;
      }
    }
  }

  lemma {:induction false} ReplaceAllKeepsExpansion(merges: seq<Rule>, s: seq<nat>, k: nat)
    requires ValidMerges(merges) && k <= |merges| && AllPlain(merges, s)
    ensures AllPlain(merges, ReplaceAll(s, merges[k..]))
    ensures Expansions(merges, ReplaceAll(s, merges[k..])) == Expansions(merges, s)
    decreases |merges| - k
  {
    if k < |merges| {
      ReplaceKeepsExpansion(merges, s, k);
      assert merges[k..][1..] == merges[k + 1..];
      ReplaceAllKeepsExpansion(merges, Replace(s, merges[k].Pair(), merges[k].id), k + 1);
    }
  }

  lemma {:induction false} BytesArePlain(merges: seq<Rule>, bytes: seq<Byte>)
    requires ValidMerges(merges)
    ensures AllPlain(merges, FromBytes(bytes))
    ensures Expansions(merges, FromBytes(bytes)) == bytes
  {
    if bytes != [] {
      BytesArePlain(merges, bytes[1..]);
      assert FromBytes(bytes)[1..] == FromBytes(bytes[1..]);
      assert bytes == [bytes[0]] + bytes[1..];
    }
  }

  /** Every document of at most a million bytes survives encoding and decoding,
      under every valid merge list; its ids lie between the first byte id and
      the end of the vocabulary. */
  lemma {:induction false} RoundTrip(merges: seq<Rule>, bytes: seq<Byte>)
    requires ValidMerges(merges)
    ensures var ids := ReferenceEncode(bytes, merges);
      && (forall i :: 0 <= i < |ids| ==> 4 <= ids[i] < 260 + |merges|)
      && AllPlain(merges, ids) && Expansions(merges, ids) == bytes
      && DecodeIds(merges, ids, []) == (if |bytes| <= 1_000_000 then Source(bytes) else Refused(DecodeLimitExceeded))
  {
    BytesArePlain(merges, bytes);
    assert merges[0..] == merges;
    ReplaceAllKeepsExpansion(merges, FromBytes(bytes), 0);
    var ids := ReferenceEncode(bytes, merges);
    assert forall i :: 0 <= i < |ids| ==> Plain(merges, ids[i]);
    DecodesExactly(merges, ids);
    PlainIdsRefusedByLimit(merges, ids, []);
  }

  // Two documents with the same ids are the same document.
  lemma {:induction false} EncodingIsInjective(merges: seq<Rule>, a: seq<Byte>, b: seq<Byte>)
    requires ValidMerges(merges) && ReferenceEncode(a, merges) == ReferenceEncode(b, merges)
    ensures a == b
  {
    RoundTrip(merges, a);
    RoundTrip(merges, b);
  }
}
