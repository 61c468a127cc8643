/** Writing canonical JSON as the program does: one growing text, members sorted first. */
module JsonWriter {
  import opened Sequences
  import opened Decimals
  import opened JsonCanonical
  import opened JsonText
  import opened Outcomes
  import opened StrictJson

  lemma {:induction false} EscapedSnoc(text: string, c: char)
    ensures EscapedAll(text + [c]) == EscapedAll(text) + Escaped(c)
    decreases |text|
  {
    if text == "" {
      assert [c][1..] == "";
      assert "" + [c] == [c];
    } else {
      EscapedSnoc(text[1..], c);
      assert (text + [c])[1..] == text[1..] + [c];
      Associative(Escaped(text[0]), EscapedAll(text[1..]), Escaped(c));
    }
  }

  lemma {:induction false} OneMoreEscaped(text: string, i: nat, out: string)
    requires i < |text|
    ensures out + ("\"" + EscapedAll(text[..i])) + Escaped(text[i]) == out + ("\"" + EscapedAll(text[..i + 1]))
  {
    OneMore(text, i);
    EscapedSnoc(text[..i], text[i]);
    Associative(out, "\"" + EscapedAll(text[..i]), Escaped(text[i]));
    Associative("\"", EscapedAll(text[..i]), Escaped(text[i]));
  }

  method WriteString(text: string, out: string) returns (r: string)
    ensures r == out + PrintString(text)
  {
    r := out + "\"";
    var i := 0;
    assert "\"" + EscapedAll(text[..0]) == "\"";
    while i < |text|
      invariant i <= |text| && r == out + ("\"" + EscapedAll(text[..i]))
    {
      OneMoreEscaped(text, i, out);
      r := r + Escaped(text[i]);
      i := i + 1;
    }
    assert text[..i] == text;
    r := r + "\"";
    Associative(out, "\"" + EscapedAll(text), "\"");
    Associative("\"", EscapedAll(text), "\"");
  }

  // ----- sorting before or after normalizing -----

  ghost predicate AllRepresentable(entries: seq<Member>, shortest: Doubles)
    requires ShortestRoundTrip(shortest)
  {
    forall i :: 0 <= i < |entries| ==> Representable(entries[i].1, shortest)
  }

  ghost function NormalizedEntries(entries: seq<Member>, shortest: Doubles): (r: seq<Member>)
    requires ShortestRoundTrip(shortest) && AllRepresentable(entries, shortest)
    ensures |r| == |entries|
    ensures forall i :: 0 <= i < |r| ==> r[i] == (entries[i].0, Normalized(entries[i].1, shortest))
  {
    NormalizedMembers(Object(entries), shortest)
  }

  lemma {:induction false} NormalizedSnoc(s: seq<Member>, m: Member, shortest: Doubles)
    requires ShortestRoundTrip(shortest) && AllRepresentable(s, shortest) && Representable(m.1, shortest)
    ensures AllRepresentable(s + [m], shortest)
    ensures NormalizedEntries(s + [m], shortest) == NormalizedEntries(s, shortest) + [(m.0, Normalized(m.1, shortest))]
  {
  }

  lemma {:induction false} NormalizedFront(s: seq<Member>, n: nat, shortest: Doubles)
    requires ShortestRoundTrip(shortest) && AllRepresentable(s, shortest) && n <= |s|
    ensures AllRepresentable(s[..n], shortest) && NormalizedEntries(s, shortest)[..n] == NormalizedEntries(s[..n], shortest)
  {
  }

  lemma {:induction false} InsertNormalized(s: seq<Member>, m: Member, shortest: Doubles)
    requires ShortestRoundTrip(shortest) && AllRepresentable(s, shortest) && Representable(m.1, shortest)
    ensures AllRepresentable(InsertMember(s, m), shortest)
    ensures InsertMember(NormalizedEntries(s, shortest), (m.0, Normalized(m.1, shortest)))
         == NormalizedEntries(InsertMember(s, m), shortest)
  {
    if s != [] {
      var n := |s| - 1;
      NormalizedFront(s, n, shortest);
      if InOrder(s[n], m) {
        NormalizedSnoc(s, m, shortest);
      } else {
        InsertNormalized(s[..n], m, shortest);
        NormalizedSnoc(InsertMember(s[..n], m), s[n], shortest);
      }
    }
  }

  lemma {:induction false} SortNormalized(s: seq<Member>, shortest: Doubles)
    requires ShortestRoundTrip(shortest) && AllRepresentable(s, shortest)
    ensures AllRepresentable(SortMembers(s), shortest)
    ensures SortMembers(NormalizedEntries(s, shortest)) == NormalizedEntries(SortMembers(s), shortest)
  {
    if s != [] {
      var n := |s| - 1;
      SortNormalized(s[..n], shortest);
      NormalizedFront(s, n, shortest);
      InsertNormalized(SortMembers(s[..n]), s[n], shortest);
    }
  }

  lemma {:induction false} ObjectNormalized(v: Json, shortest: Doubles)
    requires v.Object? && ShortestRoundTrip(shortest) && Representable(v, shortest)
    ensures AllRepresentable(SortMembers(v.entries), shortest)
    ensures Normalized(v, shortest).entries == NormalizedEntries(SortMembers(v.entries), shortest)
  {
    assert NormalizedMembers(v, shortest) == NormalizedEntries(v.entries, shortest);
    SortNormalized(v.entries, shortest);
  }

  lemma {:induction false} SortedRepresentable(v: Json, shortest: Doubles)
    requires v.Object? && ShortestRoundTrip(shortest)
    ensures Representable(v, shortest) <==> AllRepresentable(SortMembers(v.entries), shortest)
  {
    SortElements(v.entries);
    var sorted := SortMembers(v.entries);
    if AllRepresentable(sorted, shortest) {
      forall i | 0 <= i < |v.entries| ensures Representable(v.entries[i].1, shortest) {
        assert v.entries[i] in sorted;
      }
    }
    if Representable(v, shortest) {
      forall i | 0 <= i < |sorted| ensures Representable(sorted[i].1, shortest) {
        assert sorted[i] in v.entries;
      }
    }
  }

  // ----- writing -----

  /** What is still to be written of an array before its i-th item. */
  ghost function ItemsLeft(n: Json, i: nat): string
    requires n.Array? && i <= |n.items|
  {
    if i == |n.items| then "]" else if i == 0 then PrintItems(n, 0) else "," + PrintItems(n, i)
  }

  ghost function MembersLeft(n: Json, i: nat): string
    requires n.Object? && i <= |n.entries|
  {
    if i == |n.entries| then "}" else if i == 0 then PrintMembers(n, 0) else "," + PrintMembers(n, i)
  }

  function Comma(i: nat): string {
    if i > 0 then "," else ""
  }

  lemma {:induction false} ItemLeft(n: Json, i: nat)
    requires n.Array? && i < |n.items|
    ensures ItemsLeft(n, i) == Comma(i) + (Print(n.items[i]) + ItemsLeft(n, i + 1))
  {
  }

  lemma {:induction false} MemberLeft(n: Json, i: nat)
    requires n.Object? && i < |n.entries|
    ensures MembersLeft(n, i)
         == Comma(i) + (PrintString(n.entries[i].0) + (":" + (Print(n.entries[i].1) + MembersLeft(n, i + 1))))
  {
  }

  /** Appends a value's canonical text, or refuses a number that has none. */
  method WriteCanonical(v: Json, shortest: Doubles, out: string) returns (r: Option<string>)
    requires ShortestRoundTrip(shortest)
    ensures r.Some? <==> Representable(v, shortest)
    ensures r.Some? ==> r.value == out + Print(Normalized(v, shortest))
    decreases v, 1
  {
    match v
    case Null => r := Some(out + "null");
    case Bool(b) => r := Some(out + if b then "true" else "false");
    case Number(raw) =>
      var text := CanonicalNumber(raw, shortest);
      r := if text.None? then None else Some(out + text.value);
    case String(text) =>
      var written := WriteString(text, out);
      r := Some(written);
    case Array(items) => r := WriteArray(v, shortest, out);
    case Object(entries) => r := WriteObject(v, shortest, out);
  }

  // The text so far and the items from the i-th on make up the whole.
  ghost predicate CompletesItems(v: Json, shortest: Doubles, out: string, text: string, i: nat)
    requires v.Array? && ShortestRoundTrip(shortest) && i <= |v.items|
  {
    && (forall j :: 0 <= j < i ==> Representable(v.items[j], shortest))
    && (Representable(v, shortest) ==>
          text + ItemsLeft(Normalized(v, shortest), i) == out + Print(Normalized(v, shortest)))
  }

  lemma {:induction false} NoItemWritten(v: Json, shortest: Doubles, out: string)
    requires v.Array? && ShortestRoundTrip(shortest)
    ensures CompletesItems(v, shortest, out, out + "[", 0)
  {
    if Representable(v, shortest) {
      Associative(out, "[", ItemsLeft(Normalized(v, shortest), 0));
    }
  }

  lemma {:induction false} OneMoreItem(v: Json, shortest: Doubles, out: string, text: string, i: nat, next: string)
    requires v.Array? && ShortestRoundTrip(shortest) && i < |v.items| && CompletesItems(v, shortest, out, text, i)
    requires Representable(v.items[i], shortest)
      && next == text + Comma(i) + Print(Normalized(v.items[i], shortest))
    ensures CompletesItems(v, shortest, out, next, i + 1)
  {
    if Representable(v, shortest) {
      ItemWritten(v, shortest, text, i);
    }
  }

  lemma {:induction false} ItemsEnd(v: Json, shortest: Doubles, out: string, text: string)
    requires v.Array? && ShortestRoundTrip(shortest) && CompletesItems(v, shortest, out, text, |v.items|)
    ensures Representable(v, shortest) && text + "]" == out + Print(Normalized(v, shortest))
  {
  }

  method WriteArray(v: Json, shortest: Doubles, out: string) returns (r: Option<string>)
    requires v.Array? && ShortestRoundTrip(shortest)
    ensures r.Some? <==> Representable(v, shortest)
    ensures r.Some? ==> r.value == out + Print(Normalized(v, shortest))
    decreases v, 0
  {
    var text := out + "[";
    NoItemWritten(v, shortest, out);
    var i := 0;
    while i < |v.items|
      invariant i <= |v.items| && CompletesItems(v, shortest, out, text, i)
    {
      var next := WriteCanonical(v.items[i], shortest, text + Comma(i));
      if next.None? {
        return None;
      }
      OneMoreItem(v, shortest, out, text, i, next.value);
      text := next.value;
      i := i + 1;
    }
    ItemsEnd(v, shortest, out, text);
    r := Some(text + "]");
  }

  lemma {:induction false} ItemWritten(v: Json, shortest: Doubles, text: string, i: nat)
    requires v.Array? && ShortestRoundTrip(shortest) && Representable(v, shortest) && i < |v.items|
    ensures var n := Normalized(v, shortest);
      text + ItemsLeft(n, i) == text + Comma(i) + Print(Normalized(v.items[i], shortest)) + ItemsLeft(n, i + 1)
  {
    var n := Normalized(v, shortest);
    ItemLeft(n, i);
    Associative(text, Comma(i), Print(n.items[i]) + ItemsLeft(n, i + 1));
    Associative(text + Comma(i), Print(n.items[i]), ItemsLeft(n, i + 1));
  }

  // The text so far and the members from the i-th on make up the whole.
  ghost predicate Completes(v: Json, shortest: Doubles, out: string, text: string, i: nat)
    requires v.Object? && ShortestRoundTrip(shortest) && i <= |v.entries|
  {
    && AllRepresentable(SortMembers(v.entries)[..i], shortest)
    && (Representable(v, shortest) ==>
          text + MembersLeft(Normalized(v, shortest), i) == out + Print(Normalized(v, shortest)))
  }

  lemma {:induction false} NothingWritten(v: Json, shortest: Doubles, out: string)
    requires v.Object? && ShortestRoundTrip(shortest)
    ensures Completes(v, shortest, out, out + "{", 0)
  {
    if Representable(v, shortest) {
      Associative(out, "{", MembersLeft(Normalized(v, shortest), 0));
    }
  }

  lemma {:induction false} OneMoreWritten(v: Json, shortest: Doubles, out: string, text: string, i: nat, next: string)
    requires v.Object? && ShortestRoundTrip(shortest) && i < |v.entries| && Completes(v, shortest, out, text, i)
    requires var m := SortMembers(v.entries)[i];
      Representable(m.1, shortest)
      && next == text + Comma(i) + PrintString(m.0) + ":" + Print(Normalized(m.1, shortest))
    ensures Completes(v, shortest, out, next, i + 1)
  {
    OneMore(SortMembers(v.entries), i);
    if Representable(v, shortest) {
      MemberWritten(v, shortest, text, i);
    }
  }

  lemma {:induction false} MembersEnd(v: Json, shortest: Doubles, out: string, text: string)
    requires v.Object? && ShortestRoundTrip(shortest) && Completes(v, shortest, out, text, |v.entries|)
    ensures Representable(v, shortest) && text + "}" == out + Print(Normalized(v, shortest))
  {
    assert SortMembers(v.entries)[..|v.entries|] == SortMembers(v.entries);
    SortedRepresentable(v, shortest);
  }

  lemma {:induction false} MemberRefused(v: Json, shortest: Doubles, i: nat)
    requires v.Object? && ShortestRoundTrip(shortest) && i < |v.entries|
    requires !Representable(SortMembers(v.entries)[i].1, shortest)
    ensures !Representable(v, shortest)
  {
    SortedRepresentable(v, shortest);
  }

  method WriteObject(v: Json, shortest: Doubles, out: string) returns (r: Option<string>)
    requires v.Object? && ShortestRoundTrip(shortest)
    ensures r.Some? <==> Representable(v, shortest)
    ensures r.Some? ==> r.value == out + Print(Normalized(v, shortest))
    decreases v, 0, 1
  {
    var ordered := SortMembers(v.entries);
    var text := out + "{";
    NothingWritten(v, shortest, out);
    var i := 0;
    while i < |ordered|
      invariant i <= |ordered| && Completes(v, shortest, out, text, i)
    {
      var next := WriteMember(v, shortest, text, ordered, i);
      if next.None? {
        MemberRefused(v, shortest, i);
        return None;
      }
      OneMoreWritten(v, shortest, out, text, i, next.value);
      text := next.value;
      i := i + 1;
    }
    MembersEnd(v, shortest, out, text);
    r := Some(text + "}");
  }

  method WriteMember(v: Json, shortest: Doubles, text: string, ordered: seq<Member>, i: nat) returns (r: Option<string>)
    requires v.Object? && ShortestRoundTrip(shortest) && ordered == SortMembers(v.entries) && i < |ordered|
    ensures r.Some? <==> Representable(ordered[i].1, shortest)
    ensures r.Some? ==>
      r.value == text + Comma(i) + PrintString(ordered[i].0) + ":" + Print(Normalized(ordered[i].1, shortest))
    decreases v, 0, 0
  {
    SortElements(v.entries);
    assert ordered[i] in v.entries;
    ghost var k :| 0 <= k < |v.entries| && v.entries[k] == ordered[i];
    var key := WriteString(ordered[i].0, text + Comma(i));
    r := WriteCanonical(ordered[i].1, shortest, key + ":");
  }

  lemma {:induction false} MemberWritten(v: Json, shortest: Doubles, text: string, i: nat)
    requires v.Object? && ShortestRoundTrip(shortest) && Representable(v, shortest) && i < |v.entries|
    ensures var n, m := Normalized(v, shortest), SortMembers(v.entries)[i];
      && Representable(m.1, shortest)
      && text + MembersLeft(n, i)
         == text + Comma(i) + PrintString(m.0) + ":" + Print(Normalized(m.1, shortest)) + MembersLeft(n, i + 1)
  {
    ObjectNormalized(v, shortest);
    var n, m := Normalized(v, shortest), SortMembers(v.entries)[i];
    var a, b, c, d := Comma(i), PrintString(m.0), Print(Normalized(m.1, shortest)), MembersLeft(n, i + 1);
    assert Representable(m.1, shortest);
    MemberLeft(n, i);
    assert MembersLeft(n, i) == a + (b + (":" + (c + d)));
    Associative(text, a, b + (":" + (c + d)));
    Associative(text + a, b, ":" + (c + d));
    Associative(text + a + b, ":", c + d);
    Associative(text + a + b + ":", c, d);
  }

  /** Parses a text and writes its canonical form. If there is one, it is again a JSON
      text for the same value, and is its own canonical form. */
  method Canonicalize(text: string, shortest: Doubles) returns (r: Option<string>)
    requires ShortestRoundTrip(shortest)
    ensures r.Some? <==> ParseOne(text).Some? && Representable(ParseOne(text).value, shortest)
    ensures r.Some? ==>
      && ParseOne(r.value).Some? && Same(ParseOne(text).value, ParseOne(r.value).value, shortest)
      && Representable(ParseOne(r.value).value, shortest)
      && Print(Normalized(ParseOne(r.value).value, shortest)) == r.value
      && InCanonicalForm(ParseOne(r.value).value)
  {
    var value := ParseText(text);
    if value.None? {
      return None;
    }
    r := WriteCanonical(value.value, shortest, "");
    if r.Some? {
      CanonicalRoundTrip(value.value, shortest);
      NormalizedIsCanonical(value.value, shortest);
      assert r.value == Print(Normalized(value.value, shortest));
    }
  }
}
