/**
A document's lexical tokens as one run of bytes. Each token is framed by lengths, so
equal bytes mean equal tokens, and a run of tokens is a slice of the bytes.
*/
module TokenSequences {
  import opened Sequences
  import opened Machine
  import opened Outcomes
  import opened Bpe
  import opened LittleEndian

  datatype Token = Token(kind: seq<Byte>, text: seq<Byte>)

  const U32_MAX: nat := 0xFFFF_FFFF

  // ----- frames -----

  /** A string with its length in front. */
  function Framed(s: seq<Byte>): seq<Byte> {
    ToBytes(|s|, 8) + s
  }

  function Frame(t: Token): seq<Byte> {
    Framed(t.kind) + Framed(t.text)
  }

  /** The bytes of tokens, one frame after another. */
  function Flat(tokens: seq<Token>): seq<Byte> {
    if tokens == [] then [] else Flat(tokens[..|tokens| - 1]) + Frame(tokens[|tokens| - 1])
  }

  /** Lengths that eight bytes can say. */
  ghost predicate Framable(t: Token) {
    |t.kind| < U64 && |t.text| < U64
  }

  ghost predicate AllFramable(tokens: seq<Token>) {
    forall i :: 0 <= i < |tokens| ==> Framable(tokens[i])
  }

  // A framed string says by itself where it ends.
  lemma {:induction false} FramedDelimits(a: seq<Byte>, b: seq<Byte>, x: seq<Byte>, y: seq<Byte>)
    requires |a| < U64 && |b| < U64 && Framed(a) + x == Framed(b) + y
    ensures a == b && x == y
  {
    var left, right := Framed(a) + x, Framed(b) + y;
    assert left[..8] == ToBytes(|a|, 8) && right[..8] == ToBytes(|b|, 8);
    EightBytes();
    ReadsBack(|a|, 8);
    ReadsBack(|b|, 8);
    assert left[8..8 + |a|] == a && right[8..8 + |b|] == b;
    assert left[8 + |a|..] == x && right[8 + |b|..] == y;
  }

  lemma {:induction false} FrameDelimits(a: Token, b: Token, x: seq<Byte>, y: seq<Byte>)
    requires Framable(a) && Framable(b) && Frame(a) + x == Frame(b) + y
    ensures a == b && x == y
  {
    assert Frame(a) + x == Framed(a.kind) + (Framed(a.text) + x);
    assert Frame(b) + y == Framed(b.kind) + (Framed(b.text) + y);
    FramedDelimits(a.kind, b.kind, Framed(a.text) + x, Framed(b.text) + y);
    FramedDelimits(a.text, b.text, x, y);
  }

  lemma {:induction false} FlatSnoc(tokens: seq<Token>, t: Token)
    ensures Flat(tokens + [t]) == Flat(tokens) + Frame(t)
  {
    assert (tokens + [t])[..|tokens|] == tokens;
  }

  lemma {:induction false} FlatJoin(a: seq<Token>, b: seq<Token>)
    ensures Flat(a + b) == Flat(a) + Flat(b)
    decreases |b|
  {
    if b == [] {
      assert a + b == a;
    } else {
      var n := |b| - 1;
      FlatJoin(a, b[..n]);
      assert a + b == (a + b[..n]) + [b[n]];
      FlatSnoc(a + b[..n], b[n]);
      Associative(Flat(a), Flat(b[..n]), Frame(b[n]));
    }
  }

  lemma {:induction false} FlatCons(tokens: seq<Token>)
    requires tokens != []
    ensures Flat(tokens) == Frame(tokens[0]) + Flat(tokens[1..])
  {
    assert tokens == [tokens[0]] + tokens[1..];
    FlatJoin([tokens[0]], tokens[1..]);
    FlatOne(tokens[0]);
  }

  lemma {:induction false} FlatOne(t: Token)
    ensures Flat([t]) == Frame(t)
  {
    assert [t][..0] == [];
    assert Flat([t][..0]) == [];
  }

  lemma {:induction false} FrameNotEmpty(t: Token)
    ensures |Frame(t)| >= 16
  {
  }

  /** Token lists are equal exactly when their bytes are. */
  lemma {:induction false} FlatInjective(a: seq<Token>, b: seq<Token>)
    requires AllFramable(a) && AllFramable(b) && Flat(a) == Flat(b)
    ensures a == b
    decreases |a|
  {
    if a != [] {
      FlatCons(a);
      FrameNotEmpty(a[0]);
    }
    if b != [] {
      FlatCons(b);
      FrameNotEmpty(b[0]);
    }
    if a != [] && b != [] {
      FrameDelimits(a[0], b[0], Flat(a[1..]), Flat(b[1..]));
      FlatInjective(a[1..], b[1..]);
    }
  }

  // ----- the flat form -----

  datatype TokenSequence = TokenSequence(bytes: seq<Byte>, ends: seq<nat>)
  {
    function Len(): nat { |ends| }

    /** Positions that follow each other within the bytes. */
    predicate Valid() {
      && (forall i :: 0 <= i < |ends| ==> ends[i] <= |bytes|)
      && forall i, j :: 0 <= i < j < |ends| ==> ends[i] <= ends[j]
    }

    /** The bytes of count consecutive tokens. */
    function Run(first: nat, count: nat): seq<Byte>
      requires Valid() && 0 < count && first + count <= |ends|
    {
      bytes[(if first == 0 then 0 else ends[first - 1])..ends[first + count - 1]]
    }
  }

  /** The flat form of these tokens. */
  ghost predicate Encodes(s: TokenSequence, tokens: seq<Token>) {
    && s.bytes == Flat(tokens) && |s.ends| == |tokens|
    && forall i :: 0 <= i < |tokens| ==> s.ends[i] == |Flat(tokens[..i + 1])|
  }

  lemma {:induction false} FlatPrefix(tokens: seq<Token>, n: nat)
    requires n <= |tokens|
    ensures Flat(tokens) == Flat(tokens[..n]) + Flat(tokens[n..])
  {
    assert tokens == tokens[..n] + tokens[n..];
    FlatJoin(tokens[..n], tokens[n..]);
  }

  lemma {:induction false} EncodesValid(s: TokenSequence, tokens: seq<Token>)
    requires Encodes(s, tokens)
    ensures s.Valid()
  {
    forall i | 0 <= i < |tokens| ensures s.ends[i] <= |s.bytes| {
      FlatPrefix(tokens, i + 1);
    }
    forall i, j | 0 <= i < j < |tokens| ensures s.ends[i] <= s.ends[j] {
      FlatPrefix(tokens[..j + 1], i + 1);
      assert tokens[..j + 1][..i + 1] == tokens[..i + 1];
    }
  }

  /** A run is exactly the bytes of its tokens. */
  lemma {:induction false} RunIsFlat(s: TokenSequence, tokens: seq<Token>, first: nat, count: nat)
    requires Encodes(s, tokens) && s.Valid() && 0 < count && first + count <= |tokens|
    ensures s.Run(first, count) == Flat(tokens[first..first + count])
  {
    var last := first + count;
    FlatPrefix(tokens, last);
    FlatPrefix(tokens[..last], first);
    assert tokens[..last][..first] == tokens[..first] && tokens[..last][first..] == tokens[first..last];
    assert first > 0 ==> s.ends[first - 1] == |Flat(tokens[..first])|;
    assert tokens[..0] == [];
    Middle(Flat(tokens[..first]), Flat(tokens[first..last]), Flat(tokens[last..]));
  }

  lemma {:induction false} Middle(a: seq<Byte>, b: seq<Byte>, c: seq<Byte>)
    ensures (a + b + c)[|a|..|a| + |b|] == b
  {
  }

  lemma {:induction false} EncodesMore(s: TokenSequence, tokens: seq<Token>, n: nat)
    requires n < |tokens| && Encodes(s, tokens[..n])
    ensures var bytes := s.bytes + Frame(tokens[n]);
      Encodes(TokenSequence(bytes, s.ends + [|bytes|]), tokens[..n + 1])
  {
    assert tokens[..n + 1] == tokens[..n] + [tokens[n]];
    FlatSnoc(tokens[..n], tokens[n]);
    forall i | 0 <= i < n ensures s.ends[i] == |Flat(tokens[..n + 1][..i + 1])| {
      assert tokens[..n][..i + 1] == tokens[..n + 1][..i + 1];
    }
    assert tokens[..n + 1][..n + 1] == tokens[..n + 1];
  }

  /** Builds the flat form; it fails exactly when the bytes outgrow 32-bit ends. */
  method Encode(tokens: seq<Token>) returns (r: Option<TokenSequence>)
    requires AllFramable(tokens)
    ensures r.Some? <==> |Flat(tokens)| <= U32_MAX
    ensures r.Some? ==> Encodes(r.value, tokens) && r.value.Valid()
  {
    var s := TokenSequence([], []);
    var i := 0;
    while i < |tokens|
      invariant i <= |tokens| && Encodes(s, tokens[..i]) && |s.bytes| <= U32_MAX
    {
      var bytes := s.bytes + ToBytes(|tokens[i].kind|, 8) + tokens[i].kind
        + ToBytes(|tokens[i].text|, 8) + tokens[i].text;
      assert bytes == s.bytes + Frame(tokens[i]);
      EncodesMore(s, tokens, i);
      if |bytes| > U32_MAX {
        FlatPrefix(tokens, i + 1);
        return None;
      }
      s := TokenSequence(bytes, s.ends + [|bytes|]);
      i := i + 1;
    }
    assert tokens[..i] == tokens;
    EncodesValid(s, tokens);
    r := Some(s);
  }

  /** Flat forms are equal exactly when the tokens are. */
  lemma {:induction false} SameSequence(a: TokenSequence, b: TokenSequence, s: seq<Token>, t: seq<Token>)
    requires Encodes(a, s) && Encodes(b, t) && AllFramable(s) && AllFramable(t)
    ensures a == b <==> s == t
  {
    if a == b {
      FlatInjective(s, t);
    }
    if s == t {
      assert a.ends == b.ends;
    }
  }

  /** Runs are equal as bytes exactly when they are equal as tokens. */
  lemma {:induction false} SameRun(a: TokenSequence, b: TokenSequence, s: seq<Token>, t: seq<Token>, i: nat, j: nat, count: nat)
    requires Encodes(a, s) && Encodes(b, t) && AllFramable(s) && AllFramable(t) && a.Valid() && b.Valid()
    requires 0 < count && i + count <= |s| && j + count <= |t|
    ensures a.Run(i, count) == b.Run(j, count) <==> s[i..i + count] == t[j..j + count]
  {
    RunIsFlat(a, s, i, count);
    RunIsFlat(b, t, j, count);
    if a.Run(i, count) == b.Run(j, count) {
      FlatInjective(s[i..i + count], t[j..j + count]);
    }
  }
}
