/** Lists of fixed-width numbers as bytes, and nested lists as one. */
module WordBytes {
  import opened Sequences
  import opened Bpe
  import opened LittleEndian

  /** The numbers of a list, one after another. */
  function Words(values: seq<nat>, width: nat): (b: seq<Byte>)
    decreases |values|
  {
    if values == [] then [] else ToBytes(values[0], width) + Words(values[1..], width)
  }

  function NumberAt(b: seq<Byte>, width: nat, at: nat): nat
    requires at + width <= |b|
  {
    FromLittleEndian(b[at..at + width])
  }

  /** The n numbers of the bytes from a position on. */
  function Read(b: seq<Byte>, width: nat, at: nat, n: nat): (values: seq<nat>)
    requires at + Size(n, width) <= |b|
    ensures |values| == n
    decreases n
  {
    if n == 0 then [] else [NumberAt(b, width, at)] + Read(b, width, at + width, n - 1)
  }

  /** The bytes that n numbers take. */
  function Size(n: nat, width: nat): nat {
    if n == 0 then 0 else width + Size(n - 1, width)
  }

  ghost predicate Narrow(values: seq<nat>, width: nat) {
    forall i :: 0 <= i < |values| ==> values[i] < Values(width)
  }

  lemma {:induction false} WordsSize(values: seq<nat>, width: nat)
    ensures |Words(values, width)| == Size(|values|, width)
    decreases |values|
  {
    if values != [] {
      WordsSize(values[1..], width);
    }
  }

  lemma {:induction false} Apart(b: seq<Byte>, at: nat, first: seq<Byte>, rest: seq<Byte>)
    requires at + |first| + |rest| <= |b| && b[at..at + |first| + |rest|] == first + rest
    ensures b[at..at + |first|] == first
    ensures b[at + |first|..at + |first| + |rest|] == rest
  {
    var both := b[at..at + |first| + |rest|];
    assert both[..|first|] == first && both[|first|..] == rest;
  }

  lemma {:induction false} FirstAt(b: seq<Byte>, at: nat, values: seq<nat>, width: nat)
    requires values != [] && Narrow(values, width) && at + Size(|values|, width) <= |b|
    requires b[at..at + Size(|values|, width)] == Words(values, width)
    ensures NumberAt(b, width, at) == values[0]
    ensures at + width + Size(|values[1..]|, width) <= |b|
    ensures b[at + width..at + width + Size(|values[1..]|, width)] == Words(values[1..], width)
  {
    WordsSize(values[1..], width);
    Apart(b, at, ToBytes(values[0], width), Words(values[1..], width));
    ReadsBack(values[0], width);
  }

  /** Numbers read back from where their bytes stand. */
  lemma {:induction false} WordsReadAt(b: seq<Byte>, at: nat, values: seq<nat>, width: nat)
    requires Narrow(values, width) && at + Size(|values|, width) <= |b|
    requires b[at..at + Size(|values|, width)] == Words(values, width)
    ensures Read(b, width, at, |values|) == values
    decreases |values|
  {
    if values != [] {
      FirstAt(b, at, values, width);
      WordsReadAt(b, at + width, values[1..], width);
      assert [values[0]] + values[1..] == values;
    }
  }

  lemma {:induction false} WordsReadBack(values: seq<nat>, width: nat)
    requires Narrow(values, width)
    ensures |Words(values, width)| == Size(|values|, width)
    ensures Read(Words(values, width), width, 0, |values|) == values
  {
    var b := Words(values, width);
    WordsSize(values, width);
    assert b[0..0 + Size(|values|, width)] == b;
    WordsReadAt(b, 0, values, width);
  }

  lemma {:induction false} TwoSlices(b: seq<Byte>, at: nat, mid: nat, end: nat)
    requires at <= mid <= end <= |b|
    ensures b[at..mid] + b[mid..end] == b[at..end]
  {
  }

  /** What is read writes the same bytes. */
  lemma {:induction false} ReadWritesAt(b: seq<Byte>, width: nat, at: nat, n: nat)
    requires at + Size(n, width) <= |b|
    ensures Words(Read(b, width, at, n), width) == b[at..at + Size(n, width)] && Narrow(Read(b, width, at, n), width)
    decreases n
  {
    if n > 0 {
      ReadWritesAt(b, width, at + width, n - 1);
      OneWritesBack(b, width, at, Read(b, width, at + width, n - 1), at + width + Size(n - 1, width));
    }
  }

  lemma {:induction false} OneWritesBack(b: seq<Byte>, width: nat, at: nat, rest: seq<nat>, end: nat)
    requires at + width <= end <= |b|
    requires Words(rest, width) == b[at + width..end] && Narrow(rest, width)
    ensures Words([NumberAt(b, width, at)] + rest, width) == b[at..end]
    ensures Narrow([NumberAt(b, width, at)] + rest, width)
  {
    WritesBack(b[at..at + width]);
    WordsCons(NumberAt(b, width, at), rest, width);
    TwoSlices(b, at, at + width, end);
  }

  lemma {:induction false} WordsCons(first: nat, rest: seq<nat>, width: nat)
    ensures Words([first] + rest, width) == ToBytes(first, width) + Words(rest, width)
    ensures first < Values(width) && Narrow(rest, width) ==> Narrow([first] + rest, width)
  {
    assert ([first] + rest)[1..] == rest;
  }

  lemma {:induction false} ReadWritesBack(b: seq<Byte>, width: nat, n: nat)
    requires Size(n, width) == |b|
    ensures Words(Read(b, width, 0, n), width) == b && Narrow(Read(b, width, 0, n), width)
  {
    ReadWritesAt(b, width, 0, n);
    assert b[0..0 + Size(n, width)] == b;
  }

  lemma {:induction false} WordsJoin(a: seq<nat>, b: seq<nat>, width: nat)
    ensures Words(a + b, width) == Words(a, width) + Words(b, width)
    decreases |a|
  {
    if a == [] {
      assert a + b == b;
    } else {
      WordsJoin(a[1..], b, width);
      assert (a + b)[1..] == a[1..] + b;
      Associative(ToBytes(a[0], width), Words(a[1..], width), Words(b, width));
    }
  }

  lemma {:induction false} SizeIsProduct(n: nat, width: nat)
    ensures Size(n, width) == n * width
  {
    if n > 0 {
      SizeIsProduct(n - 1, width);
    }
  }

  /** The k-th number stands at its own place. */
  lemma {:induction false} ReadAt(b: seq<Byte>, width: nat, at: nat, n: nat, k: nat)
    requires at + Size(n, width) <= |b| && k < n
    ensures at + Size(k, width) + width <= |b|
    ensures Read(b, width, at, n)[k] == NumberAt(b, width, at + Size(k, width))
    decreases k
  {
    if k > 0 {
      ReadAt(b, width, at + width, n - 1, k - 1);
      assert at + width + Size(k - 1, width) == at + Size(k, width);
      assert Read(b, width, at, n)[k] == Read(b, width, at + width, n - 1)[k - 1];
    }
  }

  lemma {:induction false} OneMoreOf(whole: seq<nat>, offset: nat, k: nat)
    requires offset + k < |whole|
    ensures whole[offset..offset + k] + [whole[offset + k]] == whole[offset..offset + k + 1]
  {
  }

  /** Reads numbers from an offset on. */
  method ReadFrom(b: seq<Byte>, width: nat, offset: nat, count: nat, ghost n: nat) returns (values: seq<nat>)
    requires Size(n, width) == |b| && offset + count <= n
    ensures values == Read(b, width, 0, n)[offset..offset + count]
  {
    ghost var whole := Read(b, width, 0, n);
    values := [];
    var k := 0;
    while k < count
      invariant k <= count && values == whole[offset..offset + k]
    {
      SizeIsProduct(offset + k, width);
      ReadAt(b, width, 0, n, offset + k);
      OneMoreOf(whole, offset, k);
      values := values + [NumberAt(b, width, (offset + k) * width)];
      k := k + 1;
    }
  }

  /** Appends numbers as bytes, one by one. */
  method AppendWords(out: seq<Byte>, values: seq<nat>, width: nat) returns (r: seq<Byte>)
    ensures r == out + Words(values, width)
  {
    r := out;
    var i := 0;
    while i < |values|
      invariant i <= |values| && r + Words(values[i..], width) == out + Words(values, width)
    {
      assert values[i..][1..] == values[i + 1..];
      assert r + (ToBytes(values[i], width) + Words(values[i + 1..], width))
          == (r + ToBytes(values[i], width)) + Words(values[i + 1..], width);
      r := r + ToBytes(values[i], width);
      i := i + 1;
    }
    assert values[i..] == [];
  }
}
