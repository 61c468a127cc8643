/** Which artifact sets restore to a state, told by their bytes alone. */
module StateAcceptance {
  import opened LittleEndian
  import opened Outcomes
  import opened ParameterLayout
  import opened StateCodec
  import opened WordBytes
  import Bpe
  import JsonText

  // ----- words -----

  ghost function Word16(b: seq<Bpe.Byte>, k: nat): nat
    requires 2 * k + 2 <= |b|
  {
    b[2 * k] as int + 0x100 * (b[2 * k + 1] as int)
  }

  ghost function Word32(b: seq<Bpe.Byte>, k: nat): nat
    requires 4 * k + 4 <= |b|
  {
    var low := b[4 * k] as int + 0x100 * (b[4 * k + 1] as int);
    var high := b[4 * k + 2] as int + 0x100 * (b[4 * k + 3] as int);
    low + 0x1_0000 * high
  }

  lemma {:induction false} ReadWord16(b: seq<Bpe.Byte>, n: nat, k: nat)
    requires |b| == 2 * n && k < n
    ensures Size(n, 2) == |b| && Read(b, 2, 0, n)[k] == Word16(b, k)
  {
    SizeIsProduct(n, 2);
    ReadAt(b, 2, 0, n, k);
    SizeIsProduct(k, 2);
    TwoBytes(b[2 * k..2 * k + 2]);
  }

  lemma {:induction false} ReadWord32(b: seq<Bpe.Byte>, n: nat, k: nat)
    requires |b| == 4 * n && k < n
    ensures Size(n, 4) == |b| && Read(b, 4, 0, n)[k] == Word32(b, k)
  {
    SizeIsProduct(n, 4);
    ReadAt(b, 4, 0, n, k);
    SizeIsProduct(k, 4);
    FourBytes(b[4 * k..4 * k + 4]);
  }

  lemma {:induction false} TwoBytes(w: seq<Bpe.Byte>)
    requires |w| == 2
    ensures FromLittleEndian(w) == w[0] as int + 0x100 * (w[1] as int)
  {
    assert w[1..][1..] == [] && w[1..][0] == w[1];
    assert FromLittleEndian(w[1..]) == w[1];
  }

  lemma {:induction false} FourBytes(w: seq<Bpe.Byte>)
    requires |w| == 4
    ensures FromLittleEndian(w)
      == w[0] as int + 0x100 * (w[1] as int) + 0x1_0000 * (w[2] as int + 0x100 * (w[3] as int))
  {
    TwoBytes(w[2..]);
    assert w[1..][1..] == w[2..];
    assert FromLittleEndian(w[1..]) == w[1] as int + 0x100 * FromLittleEndian(w[2..]);
  }

  // ----- witness texts -----

  predicate IsLower(c: char) {
    '0' <= c <= '9' || 'a' <= c <= 'f'
  }

  /** Sixty-four lowercase hexadecimal digits. */
  ghost predicate IsWitness(s: string) {
    |s| == 64 && forall i :: 0 <= i < |s| ==> IsLower(s[i])
  }

  lemma {:induction false} HexIsLower(bytes: seq<Bpe.Byte>)
    ensures forall i :: 0 <= i < |Hex(bytes)| ==> IsLower(Hex(bytes)[i])
  {
    if bytes != [] {
      HexIsLower(bytes[1..]);
    }
  }

  lemma {:induction false} HexOfPair(high: char, low: char, rest: seq<Bpe.Byte>)
    requires IsLower(high) && IsLower(low)
    ensures JsonText.IsHex(high) && JsonText.IsHex(low)
    ensures Hex([16 * JsonText.HexValue(high) + JsonText.HexValue(low)] + rest) == [high, low] + Hex(rest)
  {
    var b: Bpe.Byte := 16 * JsonText.HexValue(high) + JsonText.HexValue(low);
    assert b / 16 == JsonText.HexValue(high) && b % 16 == JsonText.HexValue(low);
    assert ([b] + rest)[1..] == rest;
  }

  lemma {:induction false} LowerIsHex(s: string)
    requires |s| % 2 == 0 && forall i :: 0 <= i < |s| ==> IsLower(s[i])
    ensures forall i :: 0 <= i < |s| ==> JsonText.IsHex(s[i])
    ensures |Unhex(s)| == |s| / 2 && Hex(Unhex(s)) == s
  {
    if s != "" {
      LowerIsHex(s[2..]);
      HexOfPair(s[0], s[1], Unhex(s[2..]));
      assert s == [s[0], s[1]] + s[2..];
    }
  }

  lemma {:induction false} WitnessText(s: string)
    ensures DecodeWitness(s).Some? <==> IsWitness(s)
  {
    if DecodeWitness(s).Some? {
      WitnessReadsBack(DecodeWitness(s).value, s);
      HexIsLower(DecodeWitness(s).value);
    }
    if IsWitness(s) {
      LowerIsHex(s);
    }
  }

  // ----- tensors -----

  lemma {:induction false} StartIsElements(layout: seq<Tensor>, n: nat)
    requires n <= |layout|
    ensures Start(layout, n) == Elements(layout[..n])
    decreases n
  {
    if n > 0 {
      StartIsElements(layout, n - 1);
      assert layout[..n][..n - 1] == layout[..n - 1];
    }
  }

  ghost function Count(d: Dimensions): nat {
    2 * (d.vocabulary * d.width) + d.width + d.layers * BlockElements(d)
  }

  lemma {:induction false} TotalIsCount(d: Dimensions)
    ensures Start(Layout(d), |Layout(d)|) == Count(d)
  {
    StartIsElements(Layout(d), |Layout(d)|);
    assert Layout(d)[..|Layout(d)|] == Layout(d);
    ParameterCount(d);
  }

  // The tensor that holds position k.
  lemma {:induction false} Holder(layout: seq<Tensor>, n: nat, k: nat) returns (i: nat)
    requires n <= |layout| && k < Start(layout, n)
    ensures i < n && Start(layout, i) <= k < Start(layout, i + 1)
    decreases n
  {
    if k < Start(layout, n - 1) {
      i := Holder(layout, n - 1, k);
    } else {
      i := n - 1;
    }
  }

  /** What the optimizer asks of the k-th element of the four lists. */
  ghost predicate Element(bf16: seq<nat>, master: seq<nat>, first: seq<nat>, second: seq<nat>, services: Services,
      k: nat)
    requires k < |bf16| == |master| == |first| == |second|
  {
    && services.finite(master[k]) && services.finite(first[k]) && services.finite(second[k])
    && services.rounded(master[k]) == bf16[k]
  }

  lemma {:induction false} CutIsUsable(d: Dimensions, bf16: seq<nat>, master: seq<nat>, first: seq<nat>,
      second: seq<nat>, services: Services, i: nat)
    requires d.Valid() && i < |Layout(d)|
    requires |bf16| == |master| == |first| == |second| == Start(Layout(d), |Layout(d)|)
    ensures Start(Layout(d), i) <= Start(Layout(d), i + 1) <= |master|
    ensures Usable(Restored(Layout(d), i, bf16, master, first, second), services)
      <==> forall k :: Start(Layout(d), i) <= k < Start(Layout(d), i + 1) ==>
             Element(bf16, master, first, second, services, k)
    ensures Matches(Restored(Layout(d), i, bf16, master, first, second), Layout(d)[i])
  {
    var layout := Layout(d);
    var from, to := Start(layout, i), Start(layout, i + 1);
    LayoutNotEmpty(d);
    StartRises(layout, i + 1, |layout|);
    var p := Restored(layout, i, bf16, master, first, second);
    assert |p.master| == layout[i].elements > 0;
    if Usable(p, services) {
      forall k | from <= k < to ensures Element(bf16, master, first, second, services, k) {
        assert p.master[k - from] == master[k] && p.first[k - from] == first[k];
        assert p.second[k - from] == second[k] && p.bf16[k - from] == bf16[k];
      }
    }
    if forall k :: from <= k < to ==> Element(bf16, master, first, second, services, k) {
      forall j | 0 <= j < |p.master|
        ensures services.finite(p.master[j]) && services.finite(p.first[j]) && services.finite(p.second[j])
        ensures services.rounded(p.master[j]) == p.bf16[j]
      {
        assert Element(bf16, master, first, second, services, from + j);
      }
    }
  }

  ghost predicate AllElements(bf16: seq<nat>, master: seq<nat>, first: seq<nat>, second: seq<nat>, services: Services)
    requires |bf16| == |master| == |first| == |second|
  {
    forall k :: 0 <= k < |master| ==> Element(bf16, master, first, second, services, k)
  }

  lemma {:induction false} AllUsable(d: Dimensions, bf16: seq<nat>, master: seq<nat>, first: seq<nat>, second: seq<nat>,
      services: Services)
    requires d.Valid() && |bf16| == |master| == |first| == |second| == Start(Layout(d), |Layout(d)|)
    ensures var ps := RestoredAll(Layout(d), bf16, master, first, second);
      (forall i :: 0 <= i < |ps| ==> Usable(ps[i], services)) <==> AllElements(bf16, master, first, second, services)
  {
    var layout := Layout(d);
    var ps := RestoredAll(layout, bf16, master, first, second);
    if forall i :: 0 <= i < |ps| ==> Usable(ps[i], services) {
      forall k | 0 <= k < |master| ensures Element(bf16, master, first, second, services, k) {
        var i := Holder(layout, |layout|, k);
        CutIsUsable(d, bf16, master, first, second, services, i);
        assert Usable(ps[i], services);
      }
    }
    if AllElements(bf16, master, first, second, services) {
      forall i | 0 <= i < |ps| ensures Usable(ps[i], services) {
        CutIsUsable(d, bf16, master, first, second, services, i);
      }
    }
  }

  lemma {:induction false} CutsMatch(d: Dimensions, bf16: seq<nat>, master: seq<nat>, first: seq<nat>, second: seq<nat>,
      services: Services)
    requires d.Valid() && |bf16| == |master| == |first| == |second| == Start(Layout(d), |Layout(d)|)
    ensures var ps := RestoredAll(Layout(d), bf16, master, first, second);
      && AllMatch(ps, Layout(d)) && ps != []
      && forall i, j :: 0 <= i < j < |ps| ==> ps[i].name != ps[j].name
  {
    var layout := Layout(d);
    var ps := RestoredAll(layout, bf16, master, first, second);
    forall i | 0 <= i < |layout| ensures StateCodec.Matches(ps[i], layout[i]) {
      CutIsUsable(d, bf16, master, first, second, services, i);
    }
    LayoutDistinct(d);
  }

  lemma {:induction false} AcceptedWhen(d: Dimensions, identity: nat, bf16: seq<nat>, master: seq<nat>, first: seq<nat>,
      second: seq<nat>, host: seq<Bpe.Byte>, device: seq<Bpe.Byte>, batches: nat, services: Services)
    requires d.Valid() && |bf16| == |master| == |first| == |second| == Start(Layout(d), |Layout(d)|)
    ensures var ps := RestoredAll(Layout(d), bf16, master, first, second);
      NewState(d, identity, ps, host, device, batches, services).Ok?
      <==> AllElements(bf16, master, first, second, services)
  {
    CutsMatch(d, bf16, master, first, second, services);
    AllUsable(d, bf16, master, first, second, services);
  }

  // ----- the whole set -----

  /** Query heads share key-value heads evenly, and rotate in pairs. */
  ghost predicate Grouped(d: Dimensions) {
    && 0 !in {d.vocabulary, d.width, d.ffnWidth, d.layers, d.queryHeads, d.keyValueHeads, d.headWidth, d.maxContext}
    && d.headWidth % 2 == 0 && d.width == d.queryHeads * d.headWidth && d.queryHeads % d.keyValueHeads == 0
  }

  ghost predicate RuntimeFits(r: Runtime, d: Dimensions, identity: nat, services: Services) {
    && r == Runtime(1, identity, 1, services.layoutHash(d), r.host, r.device, r.batches)
    && IsWitness(r.host) && IsWitness(r.device)
  }

  /** Four byte strings of the shape's length whose words are finite, the short ones being
      the rounded long ones. */
  ghost predicate BytesFit(d: Dimensions, bf16: seq<Bpe.Byte>, master: seq<Bpe.Byte>, first: seq<Bpe.Byte>,
      second: seq<Bpe.Byte>, services: Services)
  {
    && |bf16| == 2 * Count(d) && |master| == |first| == |second| == 4 * Count(d)
    && forall k :: 0 <= k < Count(d) ==> WordsFit(bf16, master, first, second, services, k)
  }

  ghost predicate WordsFit(bf16: seq<Bpe.Byte>, master: seq<Bpe.Byte>, first: seq<Bpe.Byte>, second: seq<Bpe.Byte>,
      services: Services, k: nat)
    requires 2 * k + 2 <= |bf16| && 4 * k + 4 <= |master| == |first| == |second|
  {
    && services.finite(Word32(master, k)) && services.finite(Word32(first, k)) && services.finite(Word32(second, k))
    && services.rounded(Word32(master, k)) == Word16(bf16, k)
  }

  lemma {:induction false} ElementsAreWords(n: nat, b: seq<Bpe.Byte>, m: seq<Bpe.Byte>, f: seq<Bpe.Byte>,
      s: seq<Bpe.Byte>, services: Services)
    requires |b| == 2 * n && |m| == |f| == |s| == 4 * n
    ensures Size(n, 2) == |b| && Size(n, 4) == |m|
    ensures AllElements(Read(b, 2, 0, n), Read(m, 4, 0, n), Read(f, 4, 0, n), Read(s, 4, 0, n), services)
      <==> forall k :: 0 <= k < n ==> WordsFit(b, m, f, s, services, k)
  {
    SizeIsProduct(n, 2);
    SizeIsProduct(n, 4);
    forall k | 0 <= k < n
      ensures Element(Read(b, 2, 0, n), Read(m, 4, 0, n), Read(f, 4, 0, n), Read(s, 4, 0, n), services, k)
        <==> WordsFit(b, m, f, s, services, k)
    {
      ReadWord16(b, n, k);
      ReadWord32(m, n, k);
      ReadWord32(f, n, k);
      ReadWord32(s, n, k);
    }
  }

  lemma {:induction false} BytesAreElements(d: Dimensions, b: seq<Bpe.Byte>, m: seq<Bpe.Byte>, f: seq<Bpe.Byte>,
      s: seq<Bpe.Byte>, services: Services)
    requires |b| == Size(Count(d), 2) && |m| == |f| == |s| == Size(Count(d), 4)
    ensures var n := Count(d);
      BytesFit(d, b, m, f, s, services)
      <==> AllElements(Read(b, 2, 0, n), Read(m, 4, 0, n), Read(f, 4, 0, n), Read(s, 4, 0, n), services)
  {
    SizeIsProduct(Count(d), 2);
    SizeIsProduct(Count(d), 4);
    ElementsAreWords(Count(d), b, m, f, s, services);
  }

  ghost predicate TensorsFit(d: Dimensions, artifacts: seq<Artifact>, services: Services) {
    && BytesOf(artifacts, Storage).Some? && BytesOf(artifacts, Master).Some?
    && BytesOf(artifacts, FirstMoments).Some? && BytesOf(artifacts, SecondMoments).Some?
    && BytesFit(d, BytesOf(artifacts, Storage).value, BytesOf(artifacts, Master).value,
                BytesOf(artifacts, FirstMoments).value, BytesOf(artifacts, SecondMoments).value, services)
  }

  lemma {:induction false} TensorsRestoredWhen(d: Dimensions, identity: nat, artifacts: seq<Artifact>,
      host: seq<Bpe.Byte>, device: seq<Bpe.Byte>, batches: nat, services: Services)
    requires d.Valid()
    ensures RestoreTensors(d, identity, artifacts, host, device, batches, services).Ok?
      <==> TensorsFit(d, artifacts, services)
  {
    var n := Count(d);
    TotalIsCount(d);
    SizeIsProduct(n, 2);
    SizeIsProduct(n, 4);
    var b, m := BytesOf(artifacts, Storage), BytesOf(artifacts, Master);
    var f, s := BytesOf(artifacts, FirstMoments), BytesOf(artifacts, SecondMoments);
    if b.Some? && m.Some? && f.Some? && s.Some? {
      if |b.value| == Size(n, 2) && |m.value| == |f.value| == |s.value| == Size(n, 4) {
        var bf16, master := Read(b.value, 2, 0, n), Read(m.value, 4, 0, n);
        var first, second := Read(f.value, 4, 0, n), Read(s.value, 4, 0, n);
        AcceptedWhen(d, identity, bf16, master, first, second, host, device, batches, services);
        BytesAreElements(d, b.value, m.value, f.value, s.value, services);
      }
    }
  }

  ghost predicate RuntimeFound(d: Dimensions, identity: nat, artifacts: seq<Artifact>, services: Services) {
    && BytesOf(artifacts, RuntimeState).Some? && services.parse(BytesOf(artifacts, RuntimeState).value).Some?
    && RuntimeFits(services.parse(BytesOf(artifacts, RuntimeState).value).value, d, identity, services)
  }

  lemma {:induction false} GroupedIsValid(d: Dimensions)
    ensures Grouped(d) <==> d.Valid()
  {
  }

  lemma {:induction false} RuntimeBinds(d: Dimensions, identity: nat, artifacts: seq<Artifact>, services: Services)
    requires BytesOf(artifacts, RuntimeState).Some?
    ensures var runtime := services.parse(BytesOf(artifacts, RuntimeState).value);
      RuntimeFound(d, identity, artifacts, services)
      <==> runtime.Some? && Binds(runtime.value, d, identity, services)
           && DecodeWitness(runtime.value.host).Some? && DecodeWitness(runtime.value.device).Some?
  {
    var runtime := services.parse(BytesOf(artifacts, RuntimeState).value);
    if runtime.Some? {
      WitnessText(runtime.value.host);
      WitnessText(runtime.value.device);
    }
  }

  /** Restoring succeeds exactly for a valid shape, a runtime object that binds it and
      carries two witness texts, and four byte strings that fit. */
  lemma {:induction false} RestoredExactlyWhen(d: Dimensions, identity: nat, artifacts: seq<Artifact>,
      services: Services)
    ensures Restore(d, identity, artifacts, services).Ok?
      <==> Grouped(d) && RuntimeFound(d, identity, artifacts, services) && TensorsFit(d, artifacts, services)
  {
    GroupedIsValid(d);
    if d.Valid() && BytesOf(artifacts, RuntimeState).Some? {
      RuntimeBinds(d, identity, artifacts, services);
      if RuntimeFound(d, identity, artifacts, services) {
        var r := services.parse(BytesOf(artifacts, RuntimeState).value).value;
        TensorsRestoredWhen(d, identity, artifacts, DecodeWitness(r.host).value, DecodeWitness(r.device).value,
                            r.batches, services);
      }
    }
  }

  lemma {:induction false} NotAtItsPath(artifacts: seq<Artifact>, k: nat)
    requires k < |artifacts| && artifacts[k].path != PathOf(artifacts[k].role)
    requires forall i :: 0 <= i < k ==> artifacts[i].role != artifacts[k].role
    ensures BytesOf(artifacts, artifacts[k].role) == None
    decreases k
  {
    if k > 0 {
      NotAtItsPath(artifacts[1..], k - 1);
    }
  }

  /** A set whose first artifact of some role stands at another role's path is refused. */
  lemma {:induction false} MisplacedRefused(d: Dimensions, identity: nat, artifacts: seq<Artifact>, services: Services,
      k: nat, other: Role)
    requires k < |artifacts| && other != artifacts[k].role && artifacts[k].path == PathOf(other)
    requires forall i :: 0 <= i < k ==> artifacts[i].role != artifacts[k].role
    ensures Restore(d, identity, artifacts, services).Err?
  {
    NotAtItsPath(artifacts, k);
    RestoredExactlyWhen(d, identity, artifacts, services);
  }
}
