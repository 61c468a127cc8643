/** The three parts of the corpus, and the elements of a list that belong to one. */
module CorpusSplit {
  import opened Sequences

  datatype Split = Train | Validation | Test

  /** Ends every document of a split's stream. */
  const EOS_ID: nat := 2

  /** The elements of one split, in their order. */
  function Part<T>(s: seq<T>, of: T -> Split, split: Split): (r: seq<T>)
    ensures |r| <= |s|
  {
    if s == [] then []
    else
      var n := |s| - 1;
      Part(s[..n], of, split) + if of(s[n]) == split then [s[n]] else []
  }

  lemma {:induction false} PartSelects<T>(s: seq<T>, of: T -> Split, split: Split)
    ensures forall i :: 0 <= i < |Part(s, of, split)| ==> of(Part(s, of, split)[i]) == split
  {
    if s != [] {
      PartSelects(s[..|s| - 1], of, split);
    }
  }

  lemma {:induction false} PartContains<T>(s: seq<T>, of: T -> Split, split: Split, x: T)
    ensures x in Part(s, of, split) <==> x in s && of(x) == split
  {
    if s != [] {
      var n := |s| - 1;
      assert s == s[..n] + [s[n]];
      PartContains(s[..n], of, split, x);
    }
  }

  lemma {:induction false} PartNext<T>(s: seq<T>, of: T -> Split, split: Split, n: nat)
    requires n < |s|
    ensures Part(s[..n + 1], of, split) == Part(s[..n], of, split) + if of(s[n]) == split then [s[n]] else []
  {
    assert s[..n + 1][..n] == s[..n];
  }

  lemma {:induction false} PartSnoc<T>(s: seq<T>, x: T, of: T -> Split, split: Split)
    ensures Part(s + [x], of, split) == Part(s, of, split) + if of(x) == split then [x] else []
  {
    assert (s + [x])[..|s|] == s;
  }

  lemma {:induction false} PartJoin<T>(a: seq<T>, b: seq<T>, of: T -> Split, split: Split)
    ensures Part(a + b, of, split) == Part(a, of, split) + Part(b, of, split)
    decreases |b|
  {
    if b == [] {
      assert a + b == a;
    } else {
      var n := |b| - 1;
      PartJoin(a, b[..n], of, split);
      assert a + b == (a + b[..n]) + [b[n]];
      PartSnoc(a + b[..n], b[n], of, split);
      Associative(Part(a, of, split), Part(b[..n], of, split), if of(b[n]) == split then [b[n]] else []);
    }
  }

  lemma {:induction false} PartUniform<T>(s: seq<T>, of: T -> Split, split: Split, own: Split)
    requires forall i :: 0 <= i < |s| ==> of(s[i]) == own
    ensures Part(s, of, split) == if split == own then s else []
  {
    if s != [] {
      PartUniform(s[..|s| - 1], of, split, own);
    }
  }

  lemma {:induction false} PartPrefix<T>(s: seq<T>, of: T -> Split, split: Split, n: nat)
    requires n <= |s|
    ensures Part(s[..n], of, split) <= Part(s, of, split)
    decreases |s| - n
  {
    if n < |s| {
      PartPrefix(s, of, split, n + 1);
      PartNext(s, of, split, n);
    } else {
      assert s[..n] == s;
    }
  }

  // Of one element for each split, a split's part is its own.
  lemma {:induction false} PartOfThree<T>(a: T, b: T, c: T, of: T -> Split, split: Split)
    requires of(a) == Train && of(b) == Validation && of(c) == Test
    ensures Part([a, b, c], of, split) == [match split case Train => a case Validation => b case Test => c]
  {
    PartSnoc([a, b], c, of, split);
    PartSnoc([a], b, of, split);
    PartSnoc([], a, of, split);
    assert [a, b] + [c] == [a, b, c] && [a] + [b] == [a, b] && [] + [a] == [a];
  }

  // The element at n, if it is of the split, comes right after the earlier ones.
  lemma {:induction false} PartPlace<T>(s: seq<T>, of: T -> Split, split: Split, n: nat)
    requires n < |s| && of(s[n]) == split
    ensures var j := |Part(s[..n], of, split)|;
      j < |Part(s, of, split)| && Part(s, of, split)[j] == s[n] && |Part(s[..n + 1], of, split)| == j + 1
  {
    PartNext(s, of, split, n);
    PartPrefix(s, of, split, n + 1);
  }
}
