/** The strict JSON parser and the canonical writer as they run. */
module StrictJson {
  import opened Decimals
  import opened JsonCanonical
  import opened JsonRoundTrip
  import opened JsonText
  import opened Outcomes

  // ----- what parsing guarantees -----

  ghost predicate GoodMembers(entries: seq<Member>, depth: nat) {
    DistinctKeys(entries) && forall i :: 0 <= i < |entries| ==> KeysOnce(entries[i].1) && Shallow(entries[i].1, depth)
  }

  ghost predicate GoodItems(items: seq<Json>, depth: nat) {
    forall i :: 0 <= i < |items| ==> KeysOnce(items[i]) && Shallow(items[i], depth)
  }

  /** A parsed value has no key twice and stays within the nesting bound. */
  lemma {:induction false} ParsedIsGood(s: string, depth: nat)
    requires ParseValue(s, depth).Got?
    ensures KeysOnce(ParseValue(s, depth).value) && Shallow(ParseValue(s, depth).value, depth)
    decreases |s|, 2
  {
    if s[0] == '{' {
      var rest := SkipWhitespace(s[1..]);
      if rest != "" && rest[0] != '}' {
        MembersAreGood(rest, depth, []);
      }
    } else if s[0] == '[' {
      var rest := SkipWhitespace(s[1..]);
      if rest != "" && rest[0] != ']' {
        ItemsAreGood(rest, depth, []);
      }
    }
  }

  lemma {:induction false} ItemsAreGood(s: string, depth: nat, items: seq<Json>)
    requires ParseItems(s, depth, items).Got? && GoodItems(items, depth + 1) && depth <= MAXIMUM_DEPTH
    ensures var v := ParseItems(s, depth, items).value; KeysOnce(v) && Shallow(v, depth)
    decreases |s|, 3
  {
    var value := ParseValue(SkipWhitespace(s), depth + 1);
    ParsedIsGood(SkipWhitespace(s), depth + 1);
    var after := SkipWhitespace(value.rest);
    if after[0] == ',' {
      ItemsAreGood(after[1..], depth, items + [value.value]);
    }
  }

  lemma {:induction false} MembersAreGood(s: string, depth: nat, entries: seq<Member>)
    requires ParseMembers(s, depth, entries).Got? && GoodMembers(entries, depth + 1) && depth <= MAXIMUM_DEPTH
    ensures var v := ParseMembers(s, depth, entries).value; KeysOnce(v) && Shallow(v, depth)
    decreases |s|, 0
  {
    var key := ParseString(SkipWhitespace(s));
    var colon := SkipWhitespace(key.rest);
    var value := ParseValue(SkipWhitespace(colon[1..]), depth + 1);
    ParsedIsGood(SkipWhitespace(colon[1..]), depth + 1);
    var after := SkipWhitespace(value.rest);
    if after[0] == ',' {
      MembersAreGood(after[1..], depth, entries + [(key.value, value.value)]);
    }
  }

  // ----- the parser -----

  lemma {:induction false} Taken(text: string, start: nat, end: nat)
    requires start <= end <= |text|
    ensures text[start..end] == text[start..][..end - start]
    ensures text[end..] == text[start..][end - start..]
  {
  }

  lemma {:induction false} FiniteAt(text: string, start: nat, end: nat)
    requires start <= end <= |text| && NumberEnd(text[start..]) == Some(end - start)
    ensures FiniteNumber(text[start..]) == Got(Number(text[start..end]), text[end..])
  {
    Taken(text, start, end);
  }

  lemma {:induction false} UnsignedParts(m: string, whole: nat, fraction: nat)
    requires IntegerLength(m) == Some(whole) && FractionLength(m[whole..]) == Some(fraction)
    ensures whole + fraction <= |m|
    ensures var exponent := ExponentLength(m[whole + fraction..]);
      Unsigned(m) == if exponent.None? then None else Some(Parts(whole, fraction, exponent.value))
  {
  }

  class Parser {
    const text: string
    var position: nat

    ghost predicate Valid()
      reads this
    {
      position <= |text|
    }

    function Rest(): string
      requires Valid()
      reads this
    {
      text[position..]
    }

    /** A step that read what the grammar reads, and stands where it stops. */
    ghost predicate Read<T>(r: Option<T>, p: Parsed<T>)
      requires Valid()
      reads this
    {
      if r.Some? then p == Got(r.value, Rest()) else p.Invalid?
    }

    constructor (text: string)
      ensures this.text == text && position == 0 && Valid() && Rest() == text
    {
      this.text, position := text, 0;
    }

    method Advance(n: nat)
      requires Valid() && position + n <= |text|
      modifies this
      ensures Valid() && position == old(position) + n && Rest() == old(Rest())[n..]
    {
      position := position + n;
    }

    method Skip()
      requires Valid()
      modifies this
      ensures Valid() && position >= old(position) && Rest() == SkipWhitespace(old(Rest()))
    {
      while position < |text| && IsWhitespace(text[position])
        invariant Valid() && position >= old(position)
        invariant SkipWhitespace(Rest()) == SkipWhitespace(old(Rest()))
        decreases |text| - position
      {
        Advance(1);
      }
    }

    method StartsWith(prefix: string) returns (b: bool)
      requires Valid()
      ensures b <==> Starts(Rest(), prefix)
    {
      b := |prefix| <= |text| - position && text[position..position + |prefix|] == prefix;
    }

    method ReadLiteral(literal: string, value: Json) returns (r: Option<Json>)
      requires Valid() && literal != ""
      modifies this
      ensures Valid() && position >= old(position) && Read(r, ParseLiteral(old(Rest()), literal, value))
    {
      var starts := StartsWith(literal);
      if !starts {
        return None;
      }
      Advance(|literal|);
      r := Some(value);
    }

    method ReadHex4() returns (r: Option<nat>)
      requires Valid()
      modifies this
      ensures Valid() && position >= old(position) && r == Hex4(old(Rest()))
      ensures r.Some? ==> Rest() == old(Rest())[4..]
    {
      r := Hex4(Rest());
      if r.Some? {
        Advance(4);
      }
    }

    method ReadUnicodeEscape() returns (r: Option<char>)
      requires Valid()
      modifies this
      ensures Valid() && position >= old(position) && Read(r, UnicodeEscape(old(Rest())))
    {
      ghost var start := Rest();
      var high := ReadHex4();
      if high.None? {
        return None;
      }
      if !(0xD800 <= high.value < 0xDC00) {
        return if IsScalar(high.value) then Some(high.value as char) else None;
      }
      var paired := StartsWith("\\u");
      if !paired {
        return None;
      }
      Advance(2);
      assert Rest() == start[6..];
      var low := ReadHex4();
      if low.None? || !(0xDC00 <= low.value < 0xE000) {
        return None;
      }
      r := Some((0x1_0000 + (high.value - 0xD800) * 0x400 + (low.value - 0xDC00)) as char);
    }

    method ReadEscape() returns (r: Option<char>)
      requires Valid()
      modifies this
      ensures Valid() && position >= old(position) && Read(r, Escape(old(Rest())))
    {
      if position == |text| {
        return None;
      }
      var escape := text[position];
      Advance(1);
      match escape
      case '"' => r := Some('"');
      case '\\' => r := Some('\\');
      case '/' => r := Some('/');
      case 'b' => r := Some('\U{8}');
      case 'f' => r := Some('\U{C}');
      case 'n' => r := Some('\n');
      case 'r' => r := Some('\r');
      case 't' => r := Some('\t');
      case 'u' => r := ReadUnicodeEscape();
      case _ => r := None;
    }

    method ReadString() returns (r: Option<string>)
      requires Valid()
      modifies this
      ensures Valid() && position >= old(position) && Read(r, ParseString(old(Rest())))
    {
      if position == |text| || text[position] != '"' {
        return None;
      }
      ghost var whole := ParseString(Rest());
      Advance(1);
      var out := "";
      while position < |text| && text[position] != '"'
        invariant Valid() && position >= old(position) && StringBody(Rest(), out) == whole
        decreases |text| - position
      {
        if text[position] == '\\' {
          ghost var before := Rest();
          Advance(1);
          var escaped := ReadEscape();
          if escaped.None? {
            return None;
          }
          out := out + [escaped.value];
        } else if IsControl(text[position]) {
          return None;
        } else {
          out := out + [text[position]];
          Advance(1);
        }
      }
      if position == |text| {
        return None;
      }
      Advance(1);
      r := Some(out);
    }

    method ReadDigits()
      requires Valid()
      modifies this
      ensures Valid() && position == old(position) + Digits(old(Rest()))
    {
      while position < |text| && IsDigit(text[position])
        invariant Valid() && position >= old(position)
        invariant position + Digits(Rest()) == old(position) + Digits(old(Rest()))
        decreases |text| - position
      {
        assert Rest()[1..] == text[position + 1..];
        Advance(1);
      }
    }

    method ReadInteger() returns (ok: bool)
      requires Valid()
      modifies this
      ensures Valid() && position >= old(position) && (ok <==> IntegerLength(old(Rest())).Some?)
      ensures ok ==> position == old(position) + IntegerLength(old(Rest())).value
    {
      ok := position < |text| && IsDigit(text[position]);
      if ok {
        if text[position] == '0' {
          Advance(1);
        } else {
          ReadDigits();
        }
      }
    }

    method ReadFraction() returns (ok: bool)
      requires Valid()
      modifies this
      ensures Valid() && position >= old(position) && (ok <==> FractionLength(old(Rest())).Some?)
      ensures ok ==> position == old(position) + FractionLength(old(Rest())).value
    {
      if position < |text| && text[position] == '.' {
        assert Rest()[1..] == text[position + 1..];
        Advance(1);
        if position == |text| || !IsDigit(text[position]) {
          return false;
        }
        ReadDigits();
      }
      ok := true;
    }

    method ReadExponent() returns (ok: bool)
      requires Valid()
      modifies this
      ensures Valid() && position >= old(position) && (ok <==> ExponentLength(old(Rest())).Some?)
      ensures ok ==> position == old(position) + ExponentLength(old(Rest())).value
    {
      if position < |text| && (text[position] == 'e' || text[position] == 'E') {
        ghost var s := Rest();
        Advance(1);
        if position < |text| && IsSign(text[position]) {
          Advance(1);
        }
        assert Rest() == s[1 + SignLength(s[1..])..];
        if position == |text| || !IsDigit(text[position]) {
          return false;
        }
        ReadDigits();
      }
      ok := true;
    }

    method ReadUnsigned() returns (ok: bool)
      requires Valid()
      modifies this
      ensures Valid() && position >= old(position) && (ok <==> Unsigned(old(Rest())).Some?)
      ensures ok ==> position == old(position) + Unsigned(old(Rest())).value.Length()
    {
      ghost var m, start := Rest(), position;
      ok := ReadInteger();
      if !ok {
        return;
      }
      ghost var whole := position - start;
      assert Rest() == m[whole..];
      ok := ReadFraction();
      if !ok {
        return;
      }
      ghost var fraction := position - start - whole;
      assert Rest() == m[whole + fraction..];
      ok := ReadExponent();
      UnsignedParts(m, whole, fraction);
    }

    /** The rest of a number whose sign has been read. */
    method ReadToEnd(ghost start: nat) returns (ok: bool)
      requires Valid() && start <= position && Rest() == Magnitude(text[start..])
      requires position == start + if Negative(text[start..]) then 1 else 0
      modifies this
      ensures Valid() && position >= old(position)
      ensures ok <==> NumberEnd(text[start..]).Some?
      ensures ok ==> position == start + NumberEnd(text[start..]).value
    {
      ok := ReadUnsigned();
    }

    method ReadFinite(start: nat) returns (r: Option<Json>)
      requires Valid() && start <= position && Rest() == Magnitude(text[start..])
      requires position == start + if Negative(text[start..]) then 1 else 0
      modifies this
      ensures Valid() && position >= old(position) && Read(r, FiniteNumber(text[start..]))
    {
      var ok := ReadToEnd(start);
      if !ok {
        return None;
      }
      FiniteAt(text, start, position);
      r := Some(Number(text[start..position]));
    }

    /** A number's text, kept as it stands. */
    method ReadNumber() returns (r: Option<Json>)
      requires Valid() && position < |text|
      modifies this
      ensures Valid() && position >= old(position) && Read(r, ParseNumber(old(Rest())))
    {
      var start := position;
      if text[position] == '-' {
        Advance(1);
        var infinite := StartsWith("Infinity");
        if infinite {
          Advance(8);
          return Some(Number("-Infinity"));
        }
      }
      r := ReadFinite(start);
    }

    method ReadValue(depth: nat) returns (r: Option<Json>)
      requires Valid()
      modifies this
      ensures Valid() && position >= old(position) && Read(r, ParseValue(old(Rest()), depth))
      decreases |text| - position, 2
    {
      if depth > MAXIMUM_DEPTH || position == |text| {
        return None;
      }
      match text[position]
      case '{' => r := ReadObject(depth);
      case '[' => r := ReadArray(depth);
      case '"' =>
        var s := ReadString();
        r := if s.None? then None else Some(String(s.value));
      case 't' => r := ReadLiteral("true", Bool(true));
      case 'f' => r := ReadLiteral("false", Bool(false));
      case 'n' => r := ReadLiteral("null", Null);
      case 'N' => r := ReadLiteral("NaN", Number("NaN"));
      case 'I' => r := ReadLiteral("Infinity", Number("Infinity"));
      case c =>
        if c == '-' || IsDigit(c) {
          r := ReadNumber();
        } else {
          r := None;
        }
    }

    method ReadArray(depth: nat) returns (r: Option<Json>)
      requires Valid() && position < |text| && text[position] == '['
      modifies this
      ensures Valid() && position > old(position)
      ensures Read(r, ParseArray(SkipWhitespace(old(Rest())[1..]), depth))
      decreases |text| - position, 1
    {
      Advance(1);
      Skip();
      if position == |text| {
        return None;
      }
      if text[position] == ']' {
        Advance(1);
        return Some(Array([]));
      }
      r := ReadItems(depth);
    }

    method ReadItems(depth: nat) returns (r: Option<Json>)
      requires Valid()
      modifies this
      ensures Valid() && position >= old(position) && Read(r, ParseItems(old(Rest()), depth, []))
      decreases |text| - position, 3
    {
      ghost var whole := ParseItems(Rest(), depth, []);
      var items := [];
      var open := true;
      while open
        invariant Valid() && position >= old(position)
        invariant if open then ParseItems(Rest(), depth, items) == whole else whole == Got(Array(items), Rest())
        decreases open, |text| - position
      {
        Skip();
        var value := ReadValue(depth + 1);
        if value.None? {
          return None;
        }
        items := items + [value.value];
        Skip();
        if position == |text| || (text[position] != ',' && text[position] != ']') {
          return None;
        }
        open := text[position] == ',';
        Advance(1);
      }
      r := Some(Array(items));
    }

    method ReadObject(depth: nat) returns (r: Option<Json>)
      requires Valid() && position < |text| && text[position] == '{'
      modifies this
      ensures Valid() && position > old(position)
      ensures Read(r, ParseObject(SkipWhitespace(old(Rest())[1..]), depth))
      decreases |text| - position, 1
    {
      Advance(1);
      Skip();
      if position == |text| {
        return None;
      }
      if text[position] == '}' {
        Advance(1);
        return Some(Object([]));
      }
      r := ReadMembers(depth);
    }

    method ReadMembers(depth: nat) returns (r: Option<Json>)
      requires Valid()
      modifies this
      ensures Valid() && position >= old(position) && Read(r, ParseMembers(old(Rest()), depth, []))
      decreases |text| - position, 3
    {
      ghost var whole := ParseMembers(Rest(), depth, []);
      var entries := [];
      var open := true;
      while open
        invariant Valid() && position >= old(position)
        invariant if open then ParseMembers(Rest(), depth, entries) == whole else whole == Got(Object(entries), Rest())
        decreases open, |text| - position
      {
        Skip();
        var key := ReadString();
        if key.None? || HasKey(entries, key.value) {
          return None;
        }
        Skip();
        if position == |text| || text[position] != ':' {
          return None;
        }
        Advance(1);
        Skip();
        var value := ReadValue(depth + 1);
        if value.None? {
          return None;
        }
        entries := entries + [(key.value, value.value)];
        Skip();
        if position == |text| || (text[position] != ',' && text[position] != '}') {
          return None;
        }
        open := text[position] == ',';
        Advance(1);
      }
      r := Some(Object(entries));
    }
  }

  /** Parses exactly one value. What it returns has no key twice and is not nested too
      deeply. */
  method ParseText(text: string) returns (r: Option<Json>)
    ensures r == ParseOne(text)
    ensures r.Some? ==> KeysOnce(r.value) && NestedAtMost(r.value, 128) && Shallow(r.value, 0)
  {
    var parser := new Parser(text);
    parser.Skip();
    ghost var start := parser.Rest();
    var value := parser.ReadValue(0);
    parser.Skip();
    if value.Some? {
      ParsedIsGood(start, 0);
      ShallowIsNested(value.value, 0);
    }
    if value.None? || parser.position != |text| {
      return None;
    }
    r := value;
  }
}
