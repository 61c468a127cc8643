/**
The doubly linked token lists that the trainer and the encoder edit in place:
three parallel vectors indexed by original byte position, one list per document.
A position that has been swallowed by a merge holds the token NONE.
*/
module Links {
  import opened AscendingLists
  import opened Bpe

  datatype Nodes = Nodes(tokens: seq<nat>, previous: seq<nat>, next: seq<nat>)

  // The live positions of one document, in order.
  type Chain = seq<nat>

  function NextOf(c: Chain, i: nat): nat
    requires i < |c|
  {
    if i + 1 < |c| then c[i + 1] else NONE
  }

  function PreviousOf(c: Chain, i: nat): nat
    requires i < |c|
  {
    if i == 0 then NONE else c[i - 1]
  }

  ghost predicate Sized(n: Nodes, home: seq<nat>)
  {
    |n.tokens| == |n.previous| == |n.next| == |home| <= NONE
  }

  // What the vectors hold at the i-th live position of document d.
  ghost predicate NodeOk(n: Nodes, home: seq<nat>, c: Chain, d: nat, i: nat)
    requires Sized(n, home) && i < |c|
  {
    && c[i] < |home|
    && home[c[i]] == d
    && n.tokens[c[i]] != NONE
    && n.next[c[i]] == NextOf(c, i)
    && n.previous[c[i]] == PreviousOf(c, i)
  }

  /** Chain `c` is exactly the linked list of document `d`; `home` says which
      document each position came from. */
  ghost predicate ChainOk(n: Nodes, home: seq<nat>, c: Chain, d: nat)
    requires Sized(n, home)
  {
    && Ascending(c)
    && (forall i :: 0 <= i < |c| ==> c[i] < |home|)
    && (forall i :: 0 <= i < |c| ==> NodeOk(n, home, c, d, i))
  }

  ghost predicate Linked(n: Nodes, home: seq<nat>, chains: seq<Chain>)
  {
    && Sized(n, home)
    && (forall d :: 0 <= d < |chains| ==> ChainOk(n, home, chains[d], d))
    && (forall x :: 0 <= x < |home| && n.tokens[x] != NONE ==> home[x] < |chains| && x in chains[home[x]])
  }

  /** What document the chain spells. */
  ghost function Spelling(tokens: seq<nat>, c: Chain): (s: seq<nat>)
    ensures |s| == |c|
    ensures forall i :: 0 <= i < |c| && c[i] < |tokens| ==> s[i] == tokens[c[i]]
  {
    seq(|c|, i requires 0 <= i < |c| => if c[i] < |tokens| then tokens[c[i]] else NONE)
  }

  ghost function Spellings(tokens: seq<nat>, chains: seq<Chain>): (docs: seq<seq<nat>>)
    ensures |docs| == |chains|
    ensures forall d :: 0 <= d < |chains| ==> docs[d] == Spelling(tokens, chains[d])
  {
    seq(|chains|, d requires 0 <= d < |chains| => Spelling(tokens, chains[d]))
  }

  ghost function Without(c: Chain, i: nat): (r: Chain)
    requires i < |c|
    ensures |r| == |c| - 1
    ensures forall j {:trigger r[j]} :: 0 <= j < |r| ==> r[j] == if j < i then c[j] else c[j + 1]
  {
    c[..i] + c[i + 1..]
  }

  // A live position has its place in its document's chain.
  lemma {:induction false} Locate(n: Nodes, home: seq<nat>, chains: seq<Chain>, x: nat) returns (d: nat, i: nat)
    requires Linked(n, home, chains)
    requires x < |home| && n.tokens[x] != NONE
    ensures d == home[x] && d < |chains| && i < |chains[d]| && chains[d][i] == x
    ensures n.next[x] == NextOf(chains[d], i) && n.previous[x] == PreviousOf(chains[d], i)
    ensures i + 1 < |chains[d]| ==> NodeOk(n, home, chains[d], d, i + 1)
    ensures i > 0 ==> NodeOk(n, home, chains[d], d, i - 1)
  {
    d := home[x];
    i :| 0 <= i < |chains[d]| && chains[d][i] == x;
    assert ChainOk(n, home, chains[d], d);
    assert NodeOk(n, home, chains[d], d, i);
  }

  /** The four assignments of a merge at `x` with its right neighbour `y`, as one step. */
  ghost predicate Spliced(n: Nodes, n': Nodes, x: nat, y: nat, after: nat, id: nat)
  {
    && |n.tokens| == |n.previous| == |n.next| == |n'.tokens| == |n'.previous| == |n'.next|
    && x < |n.tokens| && y < |n.tokens|
    && n.next[x] == y && n.next[y] == after
    && (forall z :: 0 <= z < |n.tokens| ==> n'.tokens[z] == if z == x then id else if z == y then NONE else n.tokens[z])
    && (forall z :: 0 <= z < |n.tokens| ==> n'.next[z] == if z == x then after else n.next[z])
    && (forall z :: 0 <= z < |n.tokens| ==> n'.previous[z] == if z == after then x else n.previous[z])
  }

  method Splice(n: Nodes, left: nat, right: nat, id: nat) returns (n': Nodes)
    requires |n.tokens| == |n.previous| == |n.next| <= NONE
    requires left < |n.tokens| && right < |n.tokens| && left != right && n.next[left] == right
    requires n.next[right] != NONE ==> n.next[right] < |n.tokens|
    ensures Spliced(n, n', left, right, n.next[right], id)
  {
    var after := n.next[right];
    var tokens := n.tokens[left := id][right := NONE];
    var next := n.next[left := after];
    var previous := n.previous;
    if after != NONE {
      previous := previous[after := left];
    }
    n' := Nodes(tokens, previous, next);
  }

  lemma {:induction false} SpliceKeepsOther(n: Nodes, n': Nodes, home: seq<nat>, c: Chain, e: nat, x: nat, y: nat, after: nat, id: nat)
    requires Sized(n, home) && ChainOk(n, home, c, e)
    requires Spliced(n, n', x, y, after, id)
    requires home[x] != e && home[y] != e && (after != NONE ==> after < |home| && home[after] != e)
    ensures ChainOk(n', home, c, e)
    ensures forall i :: 0 <= i < |c| ==> c[i] < |home| && n'.tokens[c[i]] == n.tokens[c[i]]
  {
    forall i | 0 <= i < |c|
      ensures NodeOk(n', home, c, e, i)
      ensures c[i] < |home| && n'.tokens[c[i]] == n.tokens[c[i]]
    {
      assert NodeOk(n, home, c, e, i);
    }
  }

  lemma {:induction false} ShortenedNode(n: Nodes, n': Nodes, home: seq<nat>, c: Chain, d: nat, i: nat, id: nat, j: nat)
    requires Sized(n, home) && ChainOk(n, home, c, d)
    requires i + 1 < |c| && id != NONE && j < |c| - 1
    requires Spliced(n, n', c[i], c[i + 1], NextOf(c, i + 1), id)
    ensures Sized(n', home) && NodeOk(n', home, Without(c, i + 1), d, j)
  {
    var w := Without(c, i + 1);
    var k := if j < i + 1 then j else j + 1;
    assert NodeOk(n, home, c, d, k);
    var x := c[k];
    assert w[j] == x;
    assert x != c[i + 1];
    if k == i {
      assert n'.previous[x] == n.previous[x];
    } else {
      assert x != c[i];
      assert n'.next[x] == n.next[x] && n'.tokens[x] == n.tokens[x];
      if k == i + 2 {
        assert n'.previous[x] == c[i] == w[j - 1];
      } else {
        assert i + 2 < |c| ==> x != c[i + 2];
        assert n'.previous[x] == n.previous[x];
      }
    }
  }

  lemma {:induction false} AscendingWithout(c: Chain, i: nat)
    requires i < |c| && Ascending(c)
    ensures Ascending(Without(c, i))
  {
    var w := Without(c, i);
    forall j, k | 0 <= j < k < |w| ensures w[j] < w[k] {
      var j', k' := if j < i then j else j + 1, if k < i then k else k + 1;
      assert w[j] == c[j'] && w[k] == c[k'];
    }
  }

  lemma {:induction false} SpliceShortens(n: Nodes, n': Nodes, home: seq<nat>, c: Chain, d: nat, i: nat, id: nat)
    requires Sized(n, home) && ChainOk(n, home, c, d)
    requires i + 1 < |c| && id != NONE
    requires Spliced(n, n', c[i], c[i + 1], NextOf(c, i + 1), id)
    ensures Sized(n', home) && ChainOk(n', home, Without(c, i + 1), d)
  {
    var w := Without(c, i + 1);
    AscendingWithout(c, i + 1);
    forall j: nat | j < |c| - 1 ensures NodeOk(n', home, w, d, j) {
      ShortenedNode(n, n', home, c, d, i, id, j);
    }
  }

  lemma {:induction false} ShortenedSpelling(tokens: seq<nat>, tokens': seq<nat>, c: Chain, i: nat, id: nat)
    requires i + 1 < |c| && Ascending(c) && |tokens| == |tokens'|
    requires forall j :: 0 <= j < |c| ==> c[j] < |tokens|
    requires forall z :: 0 <= z < |tokens| ==>
      tokens'[z] == if z == c[i] then id else if z == c[i + 1] then NONE else tokens[z]
    ensures var s := Spelling(tokens, c);
      Spelling(tokens', Without(c, i + 1)) == s[..i] + [id] + s[i + 2..]
  {
    var w := Without(c, i + 1);
    var s := Spelling(tokens, c);
    var t := s[..i] + [id] + s[i + 2..];
    var s' := Spelling(tokens', w);
    forall j | 0 <= j < |w| ensures s'[j] == t[j] {
      var k := if j < i + 1 then j else j + 1;
      assert w[j] == c[k] && c[k] != c[i + 1];
      assert j != i ==> c[k] != c[i];
    }
  }

  /** One merge keeps the lists well formed and shortens exactly one of them. */
  lemma {:induction false} SpliceLinked(n: Nodes, n': Nodes, home: seq<nat>, chains: seq<Chain>, d: nat, i: nat, id: nat)
    returns (chains': seq<Chain>)
    requires Linked(n, home, chains)
    requires d < |chains| && i + 1 < |chains[d]| && id != NONE
    requires Spliced(n, n', chains[d][i], chains[d][i + 1], NextOf(chains[d], i + 1), id)
    ensures chains' == chains[d := Without(chains[d], i + 1)]
    ensures Linked(n', home, chains')
    ensures var s := Spellings(n.tokens, chains)[d];
      Spellings(n'.tokens, chains') == Spellings(n.tokens, chains)[d := s[..i] + [id] + s[i + 2..]]
  {
    var c := chains[d];
    chains' := chains[d := Without(c, i + 1)];
    assert ChainOk(n, home, c, d);
    assert NodeOk(n, home, c, d, i) && NodeOk(n, home, c, d, i + 1);
    assert i + 2 < |c| ==> NodeOk(n, home, c, d, i + 2);
    SpliceShortens(n, n', home, c, d, i, id);
    ShortenedSpelling(n.tokens, n'.tokens, c, i, id);
    forall e | 0 <= e < |chains|
      ensures ChainOk(n', home, chains'[e], e)
      ensures e != d ==> Spelling(n'.tokens, chains[e]) == Spelling(n.tokens, chains[e])
    {
      if e != d {
        SpliceKeepsOther(n, n', home, chains[e], e, c[i], c[i + 1], NextOf(c, i + 1), id);
      }
    }
    SpliceCovers(n, n', home, chains, d, i, id);
  }

  // Every position still live is still on its document's chain.
  lemma {:induction false} SpliceCovers(n: Nodes, n': Nodes, home: seq<nat>, chains: seq<Chain>, d: nat, i: nat, id: nat)
    requires Linked(n, home, chains)
    requires d < |chains| && i + 1 < |chains[d]|
    requires Spliced(n, n', chains[d][i], chains[d][i + 1], NextOf(chains[d], i + 1), id)
    ensures forall x :: 0 <= x < |home| && n'.tokens[x] != NONE ==>
      home[x] < |chains| && x in chains[d := Without(chains[d], i + 1)][home[x]]
  {
    var c := chains[d];
    var w := Without(c, i + 1);
    assert ChainOk(n, home, c, d);
    assert NodeOk(n, home, c, d, i);
    forall x | 0 <= x < |home| && n'.tokens[x] != NONE
      ensures home[x] < |chains| && x in chains[d := w][home[x]]
    {
      assert x != c[i + 1];
      assert n.tokens[x] != NONE;
      if home[x] == d {
        var k :| 0 <= k < |c| && c[k] == x;
        assert x == w[if k < i + 1 then k else k - 1];
      }
    }
  }
}
