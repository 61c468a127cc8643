/**
Canonical JSON: members in the order of their UTF-16 units and numbers in their
shortest form, by sections 3.2.2 and 3.2.3 of RFC 8785.
*/
module JsonCanonical {
  import opened Decimals
  import opened JsonRoundTrip
  import opened JsonText
  import opened Outcomes

  // ----- the order of members -----

  function Utf16(c: char): seq<nat> {
    var n := c as int;
    if n < 0x1_0000 then [n] else [0xD800 + (n - 0x1_0000) / 0x400, 0xDC00 + (n - 0x1_0000) % 0x400]
  }

  function Units(s: string): seq<nat> {
    if s == "" then [] else Utf16(s[0]) + Units(s[1..])
  }

  predicate AtMost(a: seq<nat>, b: seq<nat>) {
    a == [] || (b != [] && (a[0] < b[0] || (a[0] == b[0] && AtMost(a[1..], b[1..]))))
  }

  lemma {:induction false} AtMostTotal(a: seq<nat>, b: seq<nat>)
    ensures AtMost(a, b) || AtMost(b, a)
    decreases |a|
  {
    if a != [] && b != [] && a[0] == b[0] {
      AtMostTotal(a[1..], b[1..]);
    }
  }

  type Member = (string, Json)

  predicate InOrder(m: Member, n: Member) {
    AtMost(Units(m.0), Units(n.0))
  }

  function InsertMember(s: seq<Member>, m: Member): (r: seq<Member>)
    ensures |r| == |s| + 1
  {
    if s == [] then [m]
    else
      var n := |s| - 1;
      if InOrder(s[n], m) then s + [m] else InsertMember(s[..n], m) + [s[n]]
  }

  /** The library's stable sort, by units. */
  function SortMembers(s: seq<Member>): (r: seq<Member>)
    ensures |r| == |s|
  {
    if s == [] then [] else InsertMember(SortMembers(s[..|s| - 1]), s[|s| - 1])
  }

  ghost predicate Sorted(s: seq<Member>) {
    forall i, j :: 0 <= i && j == i + 1 && j < |s| ==> InOrder(s[i], s[j])
  }

  lemma {:induction false} InsertSorted(s: seq<Member>, m: Member)
    requires Sorted(s)
    ensures Sorted(InsertMember(s, m))
    ensures var r := InsertMember(s, m); r[|r| - 1] == m || (s != [] && r[|r| - 1] == s[|s| - 1])
  {
    if s != [] {
      var n := |s| - 1;
      if !InOrder(s[n], m) {
        AtMostTotal(Units(s[n].0), Units(m.0));
        InsertSorted(s[..n], m);
        var front := InsertMember(s[..n], m);
        assert InOrder(front[|front| - 1], s[n]);
      }
    }
  }

  lemma {:induction false} SortSorted(s: seq<Member>)
    ensures Sorted(SortMembers(s))
  {
    if s != [] {
      SortSorted(s[..|s| - 1]);
      InsertSorted(SortMembers(s[..|s| - 1]), s[|s| - 1]);
    }
  }

  lemma {:induction false} SortedIsFixed(s: seq<Member>)
    requires Sorted(s)
    ensures SortMembers(s) == s
  {
    if s != [] {
      var n := |s| - 1;
      SortedIsFixed(s[..n]);
      assert s == s[..n] + [s[n]];
      if n > 0 {
        assert InOrder(s[n - 1], s[n]);
      }
    }
  }

  lemma {:induction false} InsertElements(s: seq<Member>, m: Member)
    ensures forall x :: x in InsertMember(s, m) <==> x in s || x == m
  {
    if s != [] {
      var n := |s| - 1;
      assert s == s[..n] + [s[n]];
      InsertElements(s[..n], m);
    }
  }

  lemma {:induction false} SortElements(s: seq<Member>)
    ensures forall x :: x in SortMembers(s) <==> x in s
  {
    if s != [] {
      var n := |s| - 1;
      assert s == s[..n] + [s[n]];
      SortElements(s[..n]);
      InsertElements(SortMembers(s[..n]), s[n]);
    }
  }

  lemma {:induction false} DistinctSnoc(s: seq<Member>, m: Member)
    requires DistinctKeys(s) && forall x :: x in s ==> x.0 != m.0
    ensures DistinctKeys(s + [m])
  {
  }

  lemma {:induction false} InsertDistinct(s: seq<Member>, m: Member)
    requires DistinctKeys(s) && forall x :: x in s ==> x.0 != m.0
    ensures DistinctKeys(InsertMember(s, m))
  {
    if s != [] {
      var n := |s| - 1;
      assert s[n] in s;
      if InOrder(s[n], m) {
        DistinctSnoc(s, m);
      } else {
        InsertDistinct(s[..n], m);
        InsertElements(s[..n], m);
        assert forall x :: x in s[..n] ==> x.0 != s[n].0;
        DistinctSnoc(InsertMember(s[..n], m), s[n]);
      }
    }
  }

  lemma {:induction false} SortDistinct(s: seq<Member>)
    requires DistinctKeys(s)
    ensures DistinctKeys(SortMembers(s))
  {
    if s != [] {
      var n := |s| - 1;
      SortDistinct(s[..n]);
      SortElements(s[..n]);
      assert forall x :: x in s[..n] ==> x.0 != s[n].0;
      InsertDistinct(SortMembers(s[..n]), s[n]);
    }
  }

  // ----- the canonical form of a value -----

  type Doubles = Decimal -> Option<Decimal>

  /** Every number has a canonical form. */
  ghost predicate Representable(v: Json, shortest: Doubles)
    requires ShortestRoundTrip(shortest)
  {
    match v
    case Number(raw) => CanonicalNumber(raw, shortest).Some?
    case Array(items) => forall i :: 0 <= i < |items| ==> Representable(items[i], shortest)
    case Object(entries) => forall i :: 0 <= i < |entries| ==> Representable(entries[i].1, shortest)
    case _ => true
  }

  /** Canonical numbers, and members in order. */
  ghost function Normalized(v: Json, shortest: Doubles): Json
    requires ShortestRoundTrip(shortest) && Representable(v, shortest)
  {
    match v
    case Number(raw) => Number(CanonicalNumber(raw, shortest).value)
    case Array(items) =>
      Array(seq(|items|, i requires 0 <= i < |items| => Normalized(items[i], shortest)))
    case Object(entries) => Object(SortMembers(NormalizedMembers(v, shortest)))
    case _ => v
  }

  ghost function NormalizedMembers(v: Json, shortest: Doubles): (r: seq<Member>)
    requires v.Object? && ShortestRoundTrip(shortest) && Representable(v, shortest)
    ensures |r| == |v.entries|
    decreases v, 0
  {
    seq(|v.entries|, i requires 0 <= i < |v.entries| => (v.entries[i].0, Normalized(v.entries[i].1, shortest)))
  }

  /** What the parser guarantees: no key twice, anywhere. */
  ghost predicate KeysOnce(v: Json) {
    match v
    case Array(items) => forall i :: 0 <= i < |items| ==> KeysOnce(items[i])
    case Object(entries) => DistinctKeys(entries) && forall i :: 0 <= i < |entries| ==> KeysOnce(entries[i].1)
    case _ => true
  }

  lemma {:induction false} NormalizedDistinct(v: Json, shortest: Doubles)
    requires v.Object? && ShortestRoundTrip(shortest) && Representable(v, shortest) && DistinctKeys(v.entries)
    ensures DistinctKeys(SortMembers(NormalizedMembers(v, shortest)))
    ensures forall x :: x in SortMembers(NormalizedMembers(v, shortest)) <==> x in NormalizedMembers(v, shortest)
    ensures Sorted(SortMembers(NormalizedMembers(v, shortest)))
  {
    SortDistinct(NormalizedMembers(v, shortest));
    SortElements(NormalizedMembers(v, shortest));
    SortSorted(NormalizedMembers(v, shortest));
  }

  /** The sorted members are the normalized entries, in some order. */
  lemma {:induction false} MemberFrom(v: Json, shortest: Doubles, j: nat) returns (i: nat)
    requires v.Object? && ShortestRoundTrip(shortest) && Representable(v, shortest) && DistinctKeys(v.entries)
    requires j < |v.entries|
    ensures i < |v.entries|
    ensures SortMembers(NormalizedMembers(v, shortest))[j] == (v.entries[i].0, Normalized(v.entries[i].1, shortest))
  {
    var members := NormalizedMembers(v, shortest);
    NormalizedDistinct(v, shortest);
    assert SortMembers(members)[j] in SortMembers(members);
    i :| i < |members| && members[i] == SortMembers(members)[j];
  }

  lemma {:induction false} NumberNormalized(raw: string, shortest: Doubles)
    requires ShortestRoundTrip(shortest) && CanonicalNumber(raw, shortest).Some?
    ensures var text := CanonicalNumber(raw, shortest).value;
      IsSpelled(text) && CanonicalNumber(text, shortest) == Some(text)
  {
    CanonicalNumberStable(raw, shortest);
    LaidOutValid(shortest(Denoted(raw)).value);
  }

  /** A normalized value can be printed and read back. */
  lemma {:induction false} NormalizedPlain(v: Json, depth: nat, shortest: Doubles)
    requires ShortestRoundTrip(shortest) && Representable(v, shortest) && KeysOnce(v) && Shallow(v, depth)
    ensures Plain(Normalized(v, shortest)) && Shallow(Normalized(v, shortest), depth)
    decreases v
  {
    match v
    case Number(raw) => NumberNormalized(raw, shortest);
    case Array(items) =>
      forall i | 0 <= i < |items|
        ensures Plain(Normalized(items[i], shortest)) && Shallow(Normalized(items[i], shortest), depth + 1)
      {
        NormalizedPlain(items[i], depth + 1, shortest);
      }
    case Object(entries) =>
      NormalizedDistinct(v, shortest);
      var members := SortMembers(NormalizedMembers(v, shortest));
      forall j | 0 <= j < |members| ensures Plain(members[j].1) && Shallow(members[j].1, depth + 1) {
        var i := MemberFrom(v, shortest, j);
        NormalizedPlain(entries[i].1, depth + 1, shortest);
      }
    case _ =>
  }

  /** Normalizing again changes nothing. */
  lemma {:induction false} NormalizedFixed(v: Json, shortest: Doubles)
    requires ShortestRoundTrip(shortest) && Representable(v, shortest) && KeysOnce(v)
    ensures var n := Normalized(v, shortest); Representable(n, shortest) && Normalized(n, shortest) == n
    decreases v
  {
    match v
    case Number(raw) => NumberNormalized(raw, shortest);
    case Array(items) => ItemsFixed(v, shortest);
    case Object(entries) => MembersFixed(v, shortest);
    case _ =>
  }

  lemma {:induction false} ItemsFixed(v: Json, shortest: Doubles)
    requires ShortestRoundTrip(shortest) && v.Array? && Representable(v, shortest) && KeysOnce(v)
    ensures var n := Normalized(v, shortest); Representable(n, shortest) && Normalized(n, shortest) == n
    decreases v, 0
  {
    var n := Normalized(v, shortest);
    forall i | 0 <= i < |v.items|
      ensures Representable(n.items[i], shortest) && Normalized(n.items[i], shortest) == n.items[i]
    {
      NormalizedFixed(v.items[i], shortest);
    }
    assert Normalized(n, shortest).items == n.items;
  }

  lemma {:induction false} MembersFixed(v: Json, shortest: Doubles)
    requires ShortestRoundTrip(shortest) && v.Object? && Representable(v, shortest) && KeysOnce(v)
    ensures var n := Normalized(v, shortest); Representable(n, shortest) && Normalized(n, shortest) == n
    decreases v, 0
  {
    var n := Normalized(v, shortest);
    NormalizedDistinct(v, shortest);
    forall j | 0 <= j < |n.entries|
      ensures Representable(n.entries[j].1, shortest) && Normalized(n.entries[j].1, shortest) == n.entries[j].1
    {
      var i := MemberFrom(v, shortest, j);
      NormalizedFixed(v.entries[i].1, shortest);
    }
    assert NormalizedMembers(n, shortest) == n.entries;
    SortedIsFixed(n.entries);
  }

  // ----- the same value -----

  /** Equal up to the order of members and the spelling of numbers, whose digits stay. */
  ghost predicate Same(a: Json, b: Json, shortest: Doubles)
    decreases a, 0
  {
    match a
    case Number(raw) =>
      b.Number? && IsLiteral(raw) && IsLiteral(b.raw) && Denoted(raw).digits == Denoted(b.raw).digits
      && shortest(Denoted(raw)).Some? && shortest(Denoted(b.raw)).Some?
      && SameValue(shortest(Denoted(raw)).value, shortest(Denoted(b.raw)).value)
    case Array(items) =>
      b.Array? && |b.items| == |items| && forall i :: 0 <= i < |items| ==> Same(items[i], b.items[i], shortest)
    case Object(entries) =>
      b.Object? && |b.entries| == |entries| && DistinctKeys(b.entries)
      && forall i :: 0 <= i < |entries| ==> HasSame(entries[i].0, entries[i].1, b.entries, shortest)
    case _ => a == b
  }

  ghost predicate HasSame(key: string, value: Json, entries: seq<Member>, shortest: Doubles)
    decreases value, 1
  {
    exists j :: 0 <= j < |entries| && entries[j].0 == key && Same(value, entries[j].1, shortest)
  }

  lemma {:induction false} MemberTo(v: Json, shortest: Doubles, i: nat) returns (j: nat)
    requires v.Object? && ShortestRoundTrip(shortest) && Representable(v, shortest) && DistinctKeys(v.entries)
    requires i < |v.entries|
    ensures j < |v.entries|
    ensures SortMembers(NormalizedMembers(v, shortest))[j] == (v.entries[i].0, Normalized(v.entries[i].1, shortest))
  {
    var members := NormalizedMembers(v, shortest);
    NormalizedDistinct(v, shortest);
    assert members[i] in members;
    j :| j < |members| && SortMembers(members)[j] == members[i];
  }

  lemma {:induction false} NormalizedSame(v: Json, shortest: Doubles)
    requires ShortestRoundTrip(shortest) && Representable(v, shortest) && KeysOnce(v)
    ensures Same(v, Normalized(v, shortest), shortest)
    decreases v
  {
    match v
    case Number(raw) =>
      CanonicalNumberStable(raw, shortest);
      CanonicalNumberForm(raw, shortest);
    case Array(items) =>
      forall i | 0 <= i < |items| ensures Same(items[i], Normalized(items[i], shortest), shortest) {
        NormalizedSame(items[i], shortest);
      }
    case Object(entries) =>
      NormalizedDistinct(v, shortest);
      var members := SortMembers(NormalizedMembers(v, shortest));
      forall i | 0 <= i < |entries| ensures HasSame(entries[i].0, entries[i].1, members, shortest) {
        NormalizedSame(entries[i].1, shortest);
        var j := MemberTo(v, shortest, i);
      }
    case _ =>
  }

  /** Whenever a parsed value has a canonical form, that form parses again, to the same
      value up to member order and number spelling, and canonicalizes to itself. */
  lemma {:induction false} CanonicalRoundTrip(v: Json, shortest: Doubles)
    requires ShortestRoundTrip(shortest) && Representable(v, shortest) && KeysOnce(v) && Shallow(v, 0)
    ensures var n := Normalized(v, shortest);
      && ParseOne(Print(n)) == Some(n) && Same(v, n, shortest)
      && Representable(n, shortest) && Print(Normalized(n, shortest)) == Print(n)
  {
    NormalizedPlain(v, 0, shortest);
    PrintedParses(Normalized(v, shortest));
    NormalizedSame(v, shortest);
    NormalizedFixed(v, shortest);
  }

  // ----- the order of keys, by their units alone -----

  /** The units spell the text: a scalar below 0x10000 is its own unit, and any other
      is what its high and low surrogate stand for. */
  ghost predicate Spells(units: seq<nat>, s: string) {
    if s == "" then units == []
    else
      var c := s[0] as int;
      if c < 0x1_0000 then units != [] && units[0] == c && Spells(units[1..], s[1..])
      else
        && |units| >= 2 && 0xD800 <= units[0] < 0xDC00 && 0xDC00 <= units[1] < 0xE000
        && 0x1_0000 + (units[0] - 0xD800) * 0x400 + (units[1] - 0xDC00) == c && Spells(units[2..], s[1..])
  }

  lemma {:induction false} UnitsSpell(s: string)
    ensures Spells(Units(s), s)
  {
    if s != "" {
      UnitsSpell(s[1..]);
      var head := Utf16(s[0]);
      assert (head + Units(s[1..]))[|head|..] == Units(s[1..]);
    }
  }

  lemma {:induction false} SpelledOnce(units: seq<nat>, s: string, t: string)
    requires Spells(units, s) && Spells(units, t)
    ensures s == t
    decreases |s|
  {
    if s != "" && t != "" {
      if (s[0] as int) < 0x1_0000 {
        assert s[0] == t[0];
        SpelledOnce(units[1..], s[1..], t[1..]);
      } else {
        assert s[0] == t[0];
        SpelledOnce(units[2..], s[1..], t[1..]);
      }
      assert s == [s[0]] + s[1..] && t == [t[0]] + t[1..];
    }
  }

  /** At the first place where the two differ, `a` has ended or has the smaller number. */
  ghost predicate ComesBefore(a: seq<nat>, b: seq<nat>) {
    exists p: nat :: p <= |a| && p < |b| && a[..p] == b[..p] && (p == |a| || a[p] < b[p])
  }

  lemma {:induction false} AtMostComesBefore(a: seq<nat>, b: seq<nat>)
    requires AtMost(a, b) && a != b
    ensures ComesBefore(a, b)
  {
    if a == [] || a[0] != b[0] {
      assert a[..0] == b[..0];
    } else {
      assert a == [a[0]] + a[1..] && b == [b[0]] + b[1..];
      AtMostComesBefore(a[1..], b[1..]);
      var p: nat :| p <= |a[1..]| && p < |b[1..]| && a[1..][..p] == b[1..][..p]
                    && (p == |a[1..]| || a[1..][p] < b[1..][p]);
      assert a[..p + 1] == [a[0]] + a[1..][..p] && b[..p + 1] == [b[0]] + b[1..][..p];
    }
  }

  ghost predicate KeyBefore(a: string, b: string) {
    exists u, v :: Spells(u, a) && Spells(v, b) && ComesBefore(u, v)
  }

  lemma {:induction false} AtMostTransitive(a: seq<nat>, b: seq<nat>, c: seq<nat>)
    requires AtMost(a, b) && AtMost(b, c)
    ensures AtMost(a, c)
  {
    if a != [] && a[0] == b[0] == c[0] {
      AtMostTransitive(a[1..], b[1..], c[1..]);
    }
  }

  lemma {:induction false} SortedPairs(s: seq<Member>, i: nat, j: nat)
    requires Sorted(s) && i < j < |s|
    ensures AtMost(Units(s[i].0), Units(s[j].0))
    decreases j
  {
    assert InOrder(s[j - 1], s[j]);
    if i < j - 1 {
      SortedPairs(s, i, j - 1);
      AtMostTransitive(Units(s[i].0), Units(s[j - 1].0), Units(s[j].0));
    }
  }

  /** In every object, each key comes before the keys after it, and every number has its
      one canonical form. */
  ghost predicate InCanonicalForm(v: Json) {
    match v
    case Number(raw) => WellLaidNumber(raw)
    case Array(items) => forall i :: 0 <= i < |items| ==> InCanonicalForm(items[i])
    case Object(entries) =>
      && (forall i, j :: 0 <= i < j < |entries| ==> KeyBefore(entries[i].0, entries[j].0))
      && (forall i :: 0 <= i < |entries| ==> InCanonicalForm(entries[i].1))
    case _ => true
  }

  lemma {:induction false} SortedKeysInOrder(s: seq<Member>, i: nat, j: nat)
    requires Sorted(s) && DistinctKeys(s) && i < j < |s|
    ensures KeyBefore(s[i].0, s[j].0)
  {
    var u, v := Units(s[i].0), Units(s[j].0);
    SortedPairs(s, i, j);
    UnitsSpell(s[i].0);
    UnitsSpell(s[j].0);
    assert s[i].0 != s[j].0;
    if u == v {
      SpelledOnce(u, s[i].0, s[j].0);
    }
    AtMostComesBefore(u, v);
  }

  /** The canonical form has its keys in the order of their UTF-16 units, and its numbers
      in the form of the standard. */
  lemma {:induction false} NormalizedIsCanonical(v: Json, shortest: Doubles)
    requires ShortestRoundTrip(shortest) && Representable(v, shortest) && KeysOnce(v)
    ensures InCanonicalForm(Normalized(v, shortest))
    decreases v
  {
    match v
    case Number(raw) => CanonicalNumberForm(raw, shortest);
    case Array(items) =>
      forall i | 0 <= i < |items| ensures InCanonicalForm(Normalized(items[i], shortest)) {
        NormalizedIsCanonical(items[i], shortest);
      }
    case Object(entries) =>
      NormalizedDistinct(v, shortest);
      var members := SortMembers(NormalizedMembers(v, shortest));
      forall j | 0 <= j < |members| ensures InCanonicalForm(members[j].1) {
        var i := MemberFrom(v, shortest, j);
        NormalizedIsCanonical(entries[i].1, shortest);
      }
      forall i, j | 0 <= i < j < |members| ensures KeyBefore(members[i].0, members[j].0) {
        SortedKeysInOrder(members, i, j);
      }
    case _ =>
  }
}
