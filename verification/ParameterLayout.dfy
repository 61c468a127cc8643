/** The stable order of a model's tensors. */
module ParameterLayout {
  import opened Decimals

  datatype Dimensions = Dimensions(
    vocabulary: nat, width: nat, ffnWidth: nat, layers: nat, queryHeads: nat, keyValueHeads: nat, headWidth: nat,
    maxContext: nat)
  {
    /** A pre-norm shape with grouped query heads. */
    predicate Valid() {
      && vocabulary > 0 && width > 0 && ffnWidth > 0 && layers > 0 && queryHeads > 0 && keyValueHeads > 0
      && headWidth > 0 && maxContext > 0 && headWidth % 2 == 0
      && queryHeads * headWidth == width && queryHeads % keyValueHeads == 0
    }

    function KeyValueWidth(): nat { keyValueHeads * headWidth }
  }

  datatype Part = AttentionNorm | Query | Key | Value | Output | FeedForwardNorm | Gate | Up | Down

  datatype Name = TokenEmbeddings | Block(index: nat, part: Part) | FinalNorm | Head

  datatype Tensor = Tensor(name: Name, elements: nat)

  /** Exactly the scales of the norms do not decay. */
  predicate Decays(name: Name) {
    !name.FinalNorm? && !(name.Block? && (name.part.AttentionNorm? || name.part.FeedForwardNorm?))
  }

  function BlockTensors(d: Dimensions, i: nat): seq<Tensor> {
    [Tensor(Block(i, AttentionNorm), d.width),
     Tensor(Block(i, Query), d.width * d.width),
     Tensor(Block(i, Key), d.KeyValueWidth() * d.width),
     Tensor(Block(i, Value), d.KeyValueWidth() * d.width),
     Tensor(Block(i, Output), d.width * d.width),
     Tensor(Block(i, FeedForwardNorm), d.width),
     Tensor(Block(i, Gate), d.ffnWidth * d.width),
     Tensor(Block(i, Up), d.ffnWidth * d.width),
     Tensor(Block(i, Down), d.width * d.ffnWidth)]
  }

  function Blocks(d: Dimensions, n: nat): seq<Tensor> {
    if n == 0 then [] else Blocks(d, n - 1) + BlockTensors(d, n - 1)
  }

  function Layout(d: Dimensions): seq<Tensor> {
    [Tensor(TokenEmbeddings, d.vocabulary * d.width)] + Blocks(d, d.layers)
    + [Tensor(FinalNorm, d.width), Tensor(Head, d.vocabulary * d.width)]
  }

  // ----- names as text -----

  function PartText(part: Part): string {
    match part
    case AttentionNorm => ".attn_norm.weight"
    case Query => ".attn.q.weight"
    case Key => ".attn.k.weight"
    case Value => ".attn.v.weight"
    case Output => ".attn.o.weight"
    case FeedForwardNorm => ".ffn_norm.weight"
    case Gate => ".ffn.gate.weight"
    case Up => ".ffn.up.weight"
    case Down => ".ffn.down.weight"
  }

  function NameText(name: Name): string {
    match name
    case TokenEmbeddings => "tok_embeddings.weight"
    case Block(index, part) => "blocks." + (InDigits(index) + PartText(part))
    case FinalNorm => "final_norm.weight"
    case Head => "lm_head.weight"
  }

  // ----- the layout in plain numbers -----

  ghost predicate Places(layout: seq<Tensor>, p: nat, text: string, elements: int) {
    p < |layout| && NameText(layout[p].name) == text && layout[p].elements == elements
  }

  ghost function InBlock(i: nat, suffix: string): string {
    "blocks." + (InDigits(i) + suffix)
  }

  /** The nine tensors of block i. */
  ghost predicate PlacesBlock(layout: seq<Tensor>, d: Dimensions, i: nat) {
    var p := 1 + 9 * i;
    && Places(layout, p, InBlock(i, ".attn_norm.weight"), d.width)
    && Places(layout, p + 1, InBlock(i, ".attn.q.weight"), d.width * d.width)
    && Places(layout, p + 2, InBlock(i, ".attn.k.weight"), d.keyValueHeads * d.headWidth * d.width)
    && Places(layout, p + 3, InBlock(i, ".attn.v.weight"), d.keyValueHeads * d.headWidth * d.width)
    && Places(layout, p + 4, InBlock(i, ".attn.o.weight"), d.width * d.width)
    && Places(layout, p + 5, InBlock(i, ".ffn_norm.weight"), d.width)
    && Places(layout, p + 6, InBlock(i, ".ffn.gate.weight"), d.ffnWidth * d.width)
    && Places(layout, p + 7, InBlock(i, ".ffn.up.weight"), d.ffnWidth * d.width)
    && Places(layout, p + 8, InBlock(i, ".ffn.down.weight"), d.width * d.ffnWidth)
  }

  /** Every tensor's place, name and number of elements. */
  ghost predicate PlacesAll(layout: seq<Tensor>, d: Dimensions) {
    && |layout| == 9 * d.layers + 3
    && Places(layout, 0, "tok_embeddings.weight", d.vocabulary * d.width)
    && (forall i: nat :: i < d.layers ==> PlacesBlock(layout, d, i))
    && Places(layout, 9 * d.layers + 1, "final_norm.weight", d.width)
    && Places(layout, 9 * d.layers + 2, "lm_head.weight", d.vocabulary * d.width)
  }

  function Elements(layout: seq<Tensor>): nat {
    if layout == [] then 0 else Elements(layout[..|layout| - 1]) + layout[|layout| - 1].elements
  }

  lemma {:induction false} ElementsConcat(a: seq<Tensor>, b: seq<Tensor>)
    ensures Elements(a + b) == Elements(a) + Elements(b)
    decreases |b|
  {
    if b == [] {
      assert a + b == a;
    } else {
      assert (a + b)[..|a + b| - 1] == a + b[..|b| - 1];
      ElementsConcat(a, b[..|b| - 1]);
    }
  }

  ghost function BlockElements(d: Dimensions): nat {
    2 * d.width + 2 * (d.width * d.width) + 2 * (d.keyValueHeads * d.headWidth * d.width) + 3 * (d.ffnWidth * d.width)
  }

  lemma {:induction false} ThreeElements(a: Tensor, b: Tensor, c: Tensor)
    ensures Elements([a, b, c]) == a.elements + b.elements + c.elements
  {
    assert [a, b, c][..2] == [a, b] && [a, b][..1] == [a] && [a][..0] == [];
    assert Elements([a]) == a.elements;
    assert Elements([a, b]) == a.elements + b.elements;
  }

  lemma {:induction false} OneBlockElements(d: Dimensions, i: nat)
    ensures Elements(BlockTensors(d, i)) == BlockElements(d)
  {
    var t := BlockTensors(d, i);
    ThreeElements(t[0], t[1], t[2]);
    ThreeElements(t[3], t[4], t[5]);
    ThreeElements(t[6], t[7], t[8]);
    ElementsConcat(t[..3], t[3..6]);
    ElementsConcat(t[..6], t[6..]);
    assert t[..3] == [t[0], t[1], t[2]] && t[3..6] == [t[3], t[4], t[5]] && t[6..] == [t[6], t[7], t[8]];
    assert t == t[..6] + t[6..] && t[..6] == t[..3] + t[3..6];
    Commute(d.ffnWidth, d.width);
  }

  lemma {:induction false} Commute(a: nat, b: nat)
    ensures a * b == b * a
  {
  }

  lemma {:induction false} BlocksElements(d: Dimensions, n: nat)
    ensures Elements(Blocks(d, n)) == n * BlockElements(d)
  {
    if n > 0 {
      BlocksElements(d, n - 1);
      OneBlockElements(d, n - 1);
      ElementsConcat(Blocks(d, n - 1), BlockTensors(d, n - 1));
      assert n * BlockElements(d) == (n - 1) * BlockElements(d) + BlockElements(d);
    }
  }

  /** How many parameters a shape has. */
  lemma {:induction false} ParameterCount(d: Dimensions)
    ensures Elements(Layout(d)) == 2 * (d.vocabulary * d.width) + d.width + d.layers * BlockElements(d)
  {
    var first := [Tensor(TokenEmbeddings, d.vocabulary * d.width)];
    var last := [Tensor(FinalNorm, d.width), Tensor(Head, d.vocabulary * d.width)];
    BlocksElements(d, d.layers);
    ElementsConcat(first, Blocks(d, d.layers));
    ElementsConcat(first + Blocks(d, d.layers), last);
    assert first[..0] == [] && last[..1][..0] == [];
    assert Elements(last[..1]) == d.width;
  }

  lemma {:induction false} BlockTexts(d: Dimensions, layout: seq<Tensor>, i: nat)
    requires 9 * i + 10 <= |layout| && layout[1 + 9 * i..10 + 9 * i] == BlockTensors(d, i)
    ensures PlacesBlock(layout, d, i)
  {
    var p := 1 + 9 * i;
    var t := layout[p..p + 9];
    assert t[0] == layout[p] && t[1] == layout[p + 1] && t[2] == layout[p + 2];
    assert t[3] == layout[p + 3] && t[4] == layout[p + 4] && t[5] == layout[p + 5];
    assert t[6] == layout[p + 6] && t[7] == layout[p + 7] && t[8] == layout[p + 8];
    forall part ensures NameText(Block(i, part)) == InBlock(i, PartText(part)) {
    }
  }

  lemma {:induction false} BlockPlaces(d: Dimensions, n: nat, i: nat)
    requires i < n
    ensures |Blocks(d, n)| == 9 * n && Blocks(d, n)[9 * i..9 * i + 9] == BlockTensors(d, i)
  {
    BlocksLength(d, n - 1);
    var front := Blocks(d, n - 1);
    if i < n - 1 {
      BlockPlaces(d, n - 1, i);
      assert Blocks(d, n)[9 * i..9 * i + 9] == front[9 * i..9 * i + 9];
    } else {
      assert Blocks(d, n)[|front|..|front| + 9] == BlockTensors(d, i);
    }
  }

  lemma {:induction false} BlocksLength(d: Dimensions, n: nat)
    ensures |Blocks(d, n)| == 9 * n
  {
    if n > 0 {
      BlocksLength(d, n - 1);
    }
  }

  lemma {:induction false} LayoutPlaces(d: Dimensions)
    ensures PlacesAll(Layout(d), d)
  {
    var layout := Layout(d);
    BlocksLength(d, d.layers);
    forall i: nat | i < d.layers ensures PlacesBlock(layout, d, i) {
      BlockPlaces(d, d.layers, i);
      assert layout[1 + 9 * i..10 + 9 * i] == Blocks(d, d.layers)[9 * i..9 * i + 9];
      BlockTexts(d, layout, i);
    }
  }

  method BuildLayout(d: Dimensions) returns (layout: seq<Tensor>)
    ensures layout == Layout(d) && PlacesAll(layout, d)
    ensures Elements(layout) == 2 * (d.vocabulary * d.width) + d.width + d.layers * BlockElements(d)
  {
    layout := [Tensor(TokenEmbeddings, d.vocabulary * d.width)];
    for i := 0 to d.layers
      invariant layout == [Tensor(TokenEmbeddings, d.vocabulary * d.width)] + Blocks(d, i)
    {
      layout := layout + BlockTensors(d, i);
    }
    layout := layout + [Tensor(FinalNorm, d.width), Tensor(Head, d.vocabulary * d.width)];
    LayoutPlaces(d);
    ParameterCount(d);
  }

  ghost predicate DistinctNames(layout: seq<Tensor>) {
    forall i, j :: 0 <= i < j < |layout| ==> layout[i].name != layout[j].name
  }

  ghost predicate BlocksBelow(layout: seq<Tensor>, n: nat) {
    forall i :: 0 <= i < |layout| ==> layout[i].name.Block? && layout[i].name.index < n
  }

  lemma {:induction false} BlocksDistinct(d: Dimensions, n: nat)
    ensures DistinctNames(Blocks(d, n)) && BlocksBelow(Blocks(d, n), n)
  {
    if n > 0 {
      BlocksDistinct(d, n - 1);
    }
  }

  // ----- what the text of a name tells -----

  // A block's number ends at the first character that is no digit.
  lemma {:induction false} BlockTextReads(index: nat, part: Part)
    ensures var rest := NameText(Block(index, part))[7..];
      && Digits(rest) == |InDigits(index)| && rest[..Digits(rest)] == InDigits(index)
      && rest[Digits(rest)..] == PartText(part)
  {
    var digits := InDigits(index);
    assert NameText(Block(index, part))[7..] == digits + PartText(part);
    DigitsOf(digits, PartText(part));
  }

  lemma {:induction false} PartTextDiffers(a: Part, b: Part)
    requires PartText(a) == PartText(b)
    ensures a == b
  {
    var s, t := PartText(a), PartText(b);
    assert |s| > 6 && |t| > 6 && s[4] == t[4] && s[5] == t[5] && s[6] == t[6];
  }

  /** A name is determined by its text. */
  lemma {:induction false} NameTextDiffers(a: Name, b: Name)
    requires NameText(a) == NameText(b)
    ensures a == b
  {
    assert NameText(a)[0] == NameText(b)[0];
    if a.Block? && b.Block? {
      BlockTextReads(a.index, a.part);
      BlockTextReads(b.index, b.part);
      assert Number(InDigits(a.index)) == a.index && Number(InDigits(b.index)) == b.index;
      PartTextDiffers(a.part, b.part);
    }
  }

  predicate EndsWith(s: string, suffix: string) {
    |suffix| <= |s| && s[|s| - |suffix|..] == suffix
  }

  lemma {:induction false} EndOf(a: string, b: string, suffix: string)
    requires |suffix| <= |b|
    ensures EndsWith(a + b, suffix) <==> EndsWith(b, suffix)
  {
    assert (a + b)[|a| + |b| - |suffix|..] == b[|b| - |suffix|..];
  }

  /** The decay rule on the text of a name exempts exactly the norm scales. */
  lemma {:induction false} DecayByText(name: Name)
    ensures Decays(name) <==> !EndsWith(NameText(name), "norm.weight")
  {
    if name.Block? {
      BlockDecays(name.index, name.part);
    } else {
      OtherDecays(name);
    }
  }

  lemma {:induction false} BlockDecays(index: nat, part: Part)
    ensures EndsWith(NameText(Block(index, part)), "norm.weight") <==> part.AttentionNorm? || part.FeedForwardNorm?
  {
    var digits := InDigits(index);
    PartDecays(part);
    EndOf(digits, PartText(part), "norm.weight");
    EndOf("blocks.", digits + PartText(part), "norm.weight");
  }

  // The fourth character from the suffix's start tells the names apart.
  lemma {:induction false} OtherDecays(name: Name)
    requires !name.Block?
    ensures EndsWith(NameText(name), "norm.weight") <==> name.FinalNorm?
  {
    var s := NameText(name);
    assert s[|s| - 11..][3] == s[|s| - 8];
  }

  lemma {:induction false} PartDecays(part: Part)
    ensures |PartText(part)| >= 11
    ensures EndsWith(PartText(part), "norm.weight") <==> part.AttentionNorm? || part.FeedForwardNorm?
  {
    var s := PartText(part);
    if part.AttentionNorm? {
      assert s == ".attn_" + "norm.weight";
    } else if part.FeedForwardNorm? {
      assert s == ".ffn_" + "norm.weight";
    } else {
      NotNorm(s);
    }
  }

  lemma {:induction false} NotNorm(s: string)
    requires |s| >= 11 && s[|s| - 8] != 'm'
    ensures !EndsWith(s, "norm.weight")
  {
    assert s[|s| - 11..][3] == s[|s| - 8];
  }

  /** No two tensors share a name, as text, for any shape. */
  lemma {:induction false} LayoutDistinct(d: Dimensions)
    ensures DistinctNames(Layout(d))
    ensures forall i, j :: 0 <= i < j < |Layout(d)| ==> NameText(Layout(d)[i].name) != NameText(Layout(d)[j].name)
  {
    BlocksDistinct(d, d.layers);
    var layout := Layout(d);
    forall i, j | 0 <= i < j < |layout| ensures NameText(layout[i].name) != NameText(layout[j].name) {
      if NameText(layout[i].name) == NameText(layout[j].name) {
        NameTextDiffers(layout[i].name, layout[j].name);
      }
    }
  }

  lemma {:induction false} Positive(a: nat, b: nat)
    requires a > 0 && b > 0
    ensures a * b > 0
  {
  }

  lemma {:induction false} BlocksNotEmpty(d: Dimensions, n: nat)
    requires d.Valid()
    ensures forall i :: 0 <= i < |Blocks(d, n)| ==> Blocks(d, n)[i].elements > 0
  {
    if n > 0 {
      BlocksNotEmpty(d, n - 1);
      Positive(d.width, d.width);
      Positive(d.keyValueHeads, d.headWidth);
      Positive(d.KeyValueWidth(), d.width);
      Positive(d.ffnWidth, d.width);
      Positive(d.width, d.ffnWidth);
    }
  }

  /** No tensor of a valid shape is empty. */
  lemma {:induction false} LayoutNotEmpty(d: Dimensions)
    requires d.Valid()
    ensures forall i :: 0 <= i < |Layout(d)| ==> Layout(d)[i].elements > 0
  {
    BlocksNotEmpty(d, d.layers);
    Positive(d.vocabulary, d.width);
  }
}
