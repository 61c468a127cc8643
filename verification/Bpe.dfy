/**
The byte-pair vocabulary and the plain meaning of its merge rules.

A rule replaces its pair by a new token, left to right and without overlap; a
vocabulary is a list of rules applied one after the other. Nothing here is
incremental: this module is what the trainer, the encoder and the decoder are
measured against.
*/
module Bpe {

  const FIRST_BYTE_ID: nat := 4
  const BASE_VOCABULARY_SIZE: nat := FIRST_BYTE_ID + 256
  const MIN_MERGE_FREQUENCY: nat := 2
  // The sentinel index and token of the linked lists: the largest u32.
  const NONE: nat := 0xFFFF_FFFF

  type Byte = b: int | 0 <= b < 256

  type Pair = (nat, nat)

  datatype Rule = Rule(id: nat, left: nat, right: nat, trainingFrequency: nat)
  {
    function Pair(): Pair { (left, right) }
  }

  function FromBytes(bytes: seq<Byte>): (s: seq<nat>)
  {
    seq(|bytes|, i requires 0 <= i < |bytes| => FIRST_BYTE_ID + bytes[i])
  }

  // ----- one rule -----

  predicate Matches(s: seq<nat>, i: nat, p: Pair)
    requires i + 1 < |s|
  {
    s[i] == p.0 && s[i + 1] == p.1
  }

  ghost predicate NoMatch(s: seq<nat>, p: Pair)
  {
    forall i: nat :: i + 1 < |s| ==> !Matches(s, i, p)
  }

  /** Replace `p` by `id`, left to right, never reusing a token just consumed. */
  function Replace(s: seq<nat>, p: Pair, id: nat): seq<nat>
  {
    if |s| < 2 then s
    else if Matches(s, 0, p) then [id] + Replace(s[2..], p, id)
    else [s[0]] + Replace(s[1..], p, id)
  }

  lemma {:induction false} ReplaceNothing(s: seq<nat>, p: Pair, id: nat)
    requires NoMatch(s, p)
    ensures Replace(s, p, id) == s
  {
    if |s| >= 2 {
      assert !Matches(s, 0, p);
      forall i: nat | i + 1 < |s[1..]| ensures !Matches(s[1..], i, p) {
        assert !Matches(s, i + 1, p);
      }
      ReplaceNothing(s[1..], p, id);
      assert s == [s[0]] + s[1..];
    }
  }

  // A prefix that contains no match, even with the token after it, is kept.
  lemma {:induction false} ReplaceAfter(pre: seq<nat>, t: seq<nat>, p: Pair, id: nat)
    requires |t| > 0
    requires NoMatch(pre + [t[0]], p)
    ensures Replace(pre + t, p, id) == pre + Replace(t, p, id)
  {
    if pre == [] {
      assert pre + t == t;
      assert pre + Replace(t, p, id) == Replace(t, p, id);
    } else {
      var s := pre + t;
      var w := pre + [t[0]];
      assert !Matches(w, 0, p);
      assert s[1..] == pre[1..] + t;
      assert s[0] == w[0] && s[1] == w[1];
      forall i: nat | i + 1 < |pre[1..] + [t[0]]| ensures !Matches(pre[1..] + [t[0]], i, p) {
        assert !Matches(w, i + 1, p);
      }
      ReplaceAfter(pre[1..], t, p, id);
      assert pre == [pre[0]] + pre[1..];
    }
  }

  lemma {:induction false} SplitPair(s: seq<nat>, i: nat)
    requires i + 1 < |s|
    ensures s == s[..i] + [s[i], s[i + 1]] + s[i + 2..]
    ensures s[..i] + [s[i]] == s[..i + 1]
  {
  }

  // Merging the leftmost match by hand does not change what the rule produces.
  lemma {:induction false} ReplaceLeftmost(pre: seq<nat>, suf: seq<nat>, p: Pair, id: nat)
    requires p.0 != id && p.1 != id
    requires NoMatch(pre + [p.0], p)
    ensures Replace(pre + [p.0, p.1] + suf, p, id) == Replace(pre + [id] + suf, p, id)
  {
    var t := [p.0, p.1] + suf;
    var u := [id] + suf;
    assert pre + [p.0, p.1] + suf == pre + t;
    assert pre + [id] + suf == pre + u;
    forall i: nat | i + 1 < |pre + [id]| ensures !Matches(pre + [id], i, p) {
      if i + 1 < |pre| {
        assert !Matches(pre + [p.0], i, p);
      }
    }
    ReplaceAfter(pre, t, p, id);
    ReplaceAfter(pre, u, p, id);
    assert t[2..] == suf;
    assert u[1..] == suf;
    assert Matches(t, 0, p);
    if |suf| == 0 {
      assert t[2..] == [];
    }
  }

  // ----- many rules -----

  /** Each rule in turn over the whole sequence: the reference encoder. */
  function ReplaceAll(s: seq<nat>, rules: seq<Rule>): seq<nat>
    decreases |rules|
  {
    if rules == [] then s
    else ReplaceAll(Replace(s, rules[0].Pair(), rules[0].id), rules[1..])
  }

  function ReferenceEncode(bytes: seq<Byte>, rules: seq<Rule>): seq<nat>
  {
    ReplaceAll(FromBytes(bytes), rules)
  }

  lemma {:induction false} ReplaceAllSnoc(s: seq<nat>, rules: seq<Rule>, last: Rule)
    ensures ReplaceAll(s, rules + [last]) == Replace(ReplaceAll(s, rules), last.Pair(), last.id)
    decreases |rules|
  {
    if rules == [] {
      assert (rules + [last])[1..] == [];
    } else {
      assert (rules + [last])[1..] == rules[1..] + [last];
      ReplaceAllSnoc(Replace(s, rules[0].Pair(), rules[0].id), rules[1..], last);
    }
  }

  // The merge checks of artifact validation, in the form that survives dropping
  // leading rules: ids ascend, no rule refers to itself or to a later one, and
  // no pair is repeated.
  ghost predicate Layered(rules: seq<Rule>)
  {
    && (forall k :: 0 <= k < |rules| ==> rules[k].left < rules[k].id && rules[k].right < rules[k].id)
    && (forall j, k :: 0 <= j < k < |rules| ==> rules[j].id < rules[k].id)
    && (forall j, k :: 0 <= j < k < |rules| ==> rules[j].Pair() != rules[k].Pair())
  }

  lemma {:induction false} LayeredTail(rules: seq<Rule>)
    requires Layered(rules) && rules != []
    ensures Layered(rules[1..])
  {
  }

  /** No adjacent pair of `s` is the pair of one of the first `k` rules. */
  ghost predicate Quiet(s: seq<nat>, rules: seq<Rule>, k: nat)
  {
    forall j :: 0 <= j < k && j < |rules| ==> NoMatch(s, rules[j].Pair())
  }

  lemma {:induction false} ReplaceAllQuiet(s: seq<nat>, rules: seq<Rule>)
    requires Quiet(s, rules, |rules|)
    ensures ReplaceAll(s, rules) == s
  {
    if rules != [] {
      ReplaceNothing(s, rules[0].Pair(), rules[0].id);
      forall j | 0 <= j < |rules[1..]| ensures NoMatch(s, rules[1..][j].Pair()) {
        assert NoMatch(s, rules[j + 1].Pair());
      }
      ReplaceAllQuiet(s, rules[1..]);
    }
  }

  // Merging the leftmost match of the lowest matching rule by hand leaves the
  // reference encoding alone. This is where the ban on forward references pays:
  // the new token cannot complete a pair of an earlier rule.
  lemma {:induction false} ReplaceAllLowest(pre: seq<nat>, suf: seq<nat>, rules: seq<Rule>, k: nat)
    requires Layered(rules) && k < |rules|
    requires var p := rules[k].Pair();
      && Quiet(pre + [p.0, p.1] + suf, rules, k)
      && NoMatch(pre + [p.0], p)
    ensures var p := rules[k].Pair();
      ReplaceAll(pre + [p.0, p.1] + suf, rules) == ReplaceAll(pre + [rules[k].id] + suf, rules)
  {
    var p := rules[k].Pair();
    var old_ := pre + [p.0, p.1] + suf;
    var new_ := pre + [rules[k].id] + suf;
    if k == 0 {
      ReplaceLeftmost(pre, suf, p, rules[0].id);
    } else {
      var q := rules[0].Pair();
      assert NoMatch(old_, q);
      forall i: nat | i + 1 < |new_| ensures !Matches(new_, i, q) {
        if i + 1 < |pre| {
          assert !Matches(old_, i, q);
        } else if i > |pre| {
          assert !Matches(old_, i + 1, q);
        } else {
          assert new_[|pre|] == rules[k].id;
        }
      }
      ReplaceNothing(old_, q, rules[0].id);
      ReplaceNothing(new_, q, rules[0].id);
      LayeredTail(rules);
      forall j | 0 <= j < k - 1 ensures NoMatch(old_, rules[1..][j].Pair()) {
        assert NoMatch(old_, rules[j + 1].Pair());
      }
      ReplaceAllLowest(pre, suf, rules[1..], k - 1);
    }
  }
}
