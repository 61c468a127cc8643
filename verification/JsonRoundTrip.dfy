/** Printed values parse back to themselves. */
module JsonRoundTrip {
  import opened Sequences
  import opened Decimals
  import opened JsonText
  import opened Outcomes

  ghost predicate IsSpelled(raw: string) {
    exists sp: Spelling :: sp.Valid() && sp.Text() == raw
  }

  ghost predicate DistinctKeys(entries: seq<(string, Json)>) {
    forall i, j :: 0 <= i < j < |entries| ==> entries[i].0 != entries[j].0
  }

  /** Finite number literals, and no key twice. */
  ghost predicate Plain(v: Json) {
    match v
    case Number(raw) => IsSpelled(raw)
    case Array(items) => forall i :: 0 <= i < |items| ==> Plain(items[i])
    case Object(entries) => DistinctKeys(entries) && forall i :: 0 <= i < |entries| ==> Plain(entries[i].1)
    case _ => true
  }

  /** The nesting stays within the parser's bound. */
  ghost predicate Shallow(v: Json, depth: nat) {
    && depth <= MAXIMUM_DEPTH
    && match v
       case Array(items) => forall i :: 0 <= i < |items| ==> Shallow(items[i], depth + 1)
       case Object(entries) => forall i :: 0 <= i < |entries| ==> Shallow(entries[i].1, depth + 1)
       case _ => true
  }

  /** At most n values around any value. */
  ghost predicate NestedAtMost(v: Json, n: int) {
    && n >= 0
    && match v
       case Array(items) => forall i :: 0 <= i < |items| ==> NestedAtMost(items[i], n - 1)
       case Object(entries) => forall i :: 0 <= i < |entries| ==> NestedAtMost(entries[i].1, n - 1)
       case _ => true
  }

  lemma {:induction false} ShallowIsNested(v: Json, depth: nat)
    ensures Shallow(v, depth) <==> NestedAtMost(v, 128 - depth)
  {
    match v
    case Array(items) =>
      forall i | 0 <= i < |items| ensures Shallow(items[i], depth + 1) <==> NestedAtMost(items[i], 128 - (depth + 1)) {
        ShallowIsNested(items[i], depth + 1);
      }
    case Object(entries) =>
      forall i | 0 <= i < |entries|
        ensures Shallow(entries[i].1, depth + 1) <==> NestedAtMost(entries[i].1, 128 - (depth + 1))
      {
        ShallowIsNested(entries[i].1, depth + 1);
      }
    case _ =>
  }

  // ----- whitespace -----

  /** Space, tab, line feed and carriage return, and nothing else. */
  predicate IsBlank(c: char) {
    c as int in {0x20, 0x09, 0x0A, 0x0D}
  }

  /** Exactly the blanks at the front are skipped. */
  lemma {:induction false} BlanksSkipped(s: string) returns (n: nat)
    ensures n <= |s| && SkipWhitespace(s) == s[n..]
    ensures (forall i :: 0 <= i < n ==> IsBlank(s[i])) && (n < |s| ==> !IsBlank(s[n]))
  {
    if s != "" && IsWhitespace(s[0]) {
      var m := BlanksSkipped(s[1..]);
      n := m + 1;
      assert forall i :: 0 < i < n ==> s[i] == s[1..][i - 1];
    } else {
      n := 0;
    }
  }

  // ----- strings -----

  lemma {:induction false} Tail(a: string, b: string, n: nat)
    requires n <= |a|
    ensures (a + b)[n..] == a[n..] + b
    ensures |a| == n ==> (a + b)[n..] == b
  {
  }

  lemma {:induction false} Hex4Of(a: char, b: char, c: char, d: char, rest: string)
    requires IsHex(a) && IsHex(b) && IsHex(c) && IsHex(d)
    ensures Hex4([a, b, c, d] + rest)
         == Some(0x1000 * HexValue(a) + 0x100 * HexValue(b) + 0x10 * HexValue(c) + HexValue(d))
  {
  }

  lemma {:induction false} ControlReads(c: char, rest: string)
    requires IsControl(c)
    ensures Escape("u00" + [HexDigit(c as int / 16), HexDigit(c as int % 16)] + rest) == Got(c, rest)
  {
    var hex := ['0', '0', HexDigit(c as int / 16), HexDigit(c as int % 16)];
    var s := "u00" + [HexDigit(c as int / 16), HexDigit(c as int % 16)] + rest;
    Hex4Of(hex[0], hex[1], hex[2], hex[3], rest);
    assert s[1..] == hex + rest;
    assert (hex + rest)[4..] == rest;
  }

  lemma {:induction false} PlainReads(c: char, rest: string, out: string)
    requires Escaped(c) == [c]
    ensures StringBody([c] + rest, out) == StringBody(rest, out + [c])
  {
    assert ([c] + rest)[1..] == rest;
  }

  lemma {:induction false} ShortReads(c: char, rest: string)
    requires |Escaped(c)| == 2
    ensures Escaped(c)[0] == '\\' && Escape([Escaped(c)[1]] + rest) == Got(c, rest)
  {
    assert ([Escaped(c)[1]] + rest)[1..] == rest;
  }

  // A character is one character, two, or a control code.
  lemma {:induction false} EscapedForms(c: char)
    ensures Escaped(c) == [c] || |Escaped(c)| == 2
            || (IsControl(c) && Escaped(c) == "\\" + ("u00" + [HexDigit(c as int / 16), HexDigit(c as int % 16)]))
  {
  }

  lemma {:induction false} BackslashReads(escape: string, rest: string, c: char, out: string)
    requires Escape(escape + rest) == Got(c, rest)
    ensures StringBody("\\" + escape + rest, out) == StringBody(rest, out + [c])
  {
    var s := "\\" + escape + rest;
    assert s[1..] == escape + rest;
  }

  lemma {:induction false} EscapeReads(c: char, rest: string, out: string)
    ensures StringBody(Escaped(c) + rest, out) == StringBody(rest, out + [c])
  {
    EscapedForms(c);
    if Escaped(c) == [c] {
      PlainReads(c, rest, out);
    } else if |Escaped(c)| == 2 {
      ShortReads(c, rest);
      assert Escaped(c) == "\\" + [Escaped(c)[1]];
      BackslashReads([Escaped(c)[1]], rest, c, out);
    } else {
      ControlReads(c, rest);
      BackslashReads("u00" + [HexDigit(c as int / 16), HexDigit(c as int % 16)], rest, c, out);
    }
  }

  // ----- every spelling of a character -----

  /** A digit of either case, by its place among the sixteen. */
  predicate IsHexDigit(h: char, v: nat) {
    v < 16 && (h == "0123456789abcdef"[v] || h == "0123456789ABCDEF"[v])
  }

  /** Four digits that make up a 16-bit unit. */
  ghost predicate SpellsUnit(hex: string, unit: nat) {
    |hex| == 4 && exists a: nat, b: nat, c: nat, d: nat ::
      DigitsAre(hex, a, b, c, d) && unit == UnitOf(a, b, c, d)
  }

  function UnitOf(a: nat, b: nat, c: nat, d: nat): nat {
    0x1000 * a + 0x100 * b + 0x10 * c + d
  }

  predicate DigitsAre(hex: string, a: nat, b: nat, c: nat, d: nat)
    requires |hex| == 4
  {
    IsHexDigit(hex[0], a) && IsHexDigit(hex[1], b) && IsHexDigit(hex[2], c) && IsHexDigit(hex[3], d)
  }

  lemma {:induction false} HexDigitReads(h: char, v: nat)
    requires IsHexDigit(h, v)
    ensures IsHex(h) && HexValue(h) == v
  {
  }

  lemma {:induction false} UnitReads(hex: string, unit: nat, rest: string)
    requires SpellsUnit(hex, unit)
    ensures Hex4(hex + rest) == Some(unit) && (hex + rest)[4..] == rest
  {
    var a: nat, b: nat, c: nat, d: nat :| DigitsAre(hex, a, b, c, d) && unit == UnitOf(a, b, c, d);
    DigitsRead(hex, a, b, c, d, rest);
  }

  lemma {:induction false} DigitsRead(hex: string, a: nat, b: nat, c: nat, d: nat, rest: string)
    requires |hex| == 4 && DigitsAre(hex, a, b, c, d)
    ensures Hex4(hex + rest) == Some(UnitOf(a, b, c, d)) && (hex + rest)[4..] == rest
  {
    HexDigitReads(hex[0], a);
    HexDigitReads(hex[1], b);
    HexDigitReads(hex[2], c);
    HexDigitReads(hex[3], d);
    Hex4Of(hex[0], hex[1], hex[2], hex[3], rest);
    assert hex == [hex[0], hex[1], hex[2], hex[3]];
  }

  lemma {:induction false} UnicodeReads(escape: string, rest: string, c: char, out: string)
    requires UnicodeEscape(escape + rest) == Got(c, rest)
    ensures StringBody("\\" + ("u" + escape) + rest, out) == StringBody(rest, out + [c])
  {
    assert ("u" + escape + rest)[1..] == escape + rest;
    assert ("u" + escape + rest)[0] == 'u';
    BackslashReads("u" + escape, rest, c, out);
  }

  /** Every scalar below 0x10000, escaped with digits of either case, reads as itself. */
  lemma {:induction false} UnitEscapeReads(hex: string, c: char, rest: string, out: string)
    requires SpellsUnit(hex, c as int)
    ensures StringBody("\\" + ("u" + hex) + rest, out) == StringBody(rest, out + [c])
  {
    UnitReads(hex, c as int, rest);
    UnicodeReads(hex, rest, c, out);
  }

  /** Every other scalar, escaped as a high and a low surrogate, reads as itself. */
  lemma {:induction false} PairEscapeReads(high: string, h: nat, low: string, l: nat, c: char, rest: string, out: string)
    requires SpellsUnit(high, h) && 0xD800 <= h < 0xDC00 && SpellsUnit(low, l) && 0xDC00 <= l < 0xE000
    requires c as int == 0x1_0000 + (h - 0xD800) * 0x400 + (l - 0xDC00)
    ensures StringBody("\\" + ("u" + (high + ("\\u" + low))) + rest, out) == StringBody(rest, out + [c])
  {
    PairReads(high, h, low, l, c, rest);
    UnicodeReads(high + ("\\u" + low), rest, c, out);
  }

  lemma {:induction false} PairOf(s: string, h: nat, l: nat, c: char)
    requires |s| >= 10 && 0xD800 <= h < 0xDC00 && 0xDC00 <= l < 0xE000
    requires Hex4(s) == Some(h) && Starts(s[4..], "\\u") && Hex4(s[6..]) == Some(l)
    requires c as int == 0x1_0000 + (h - 0xD800) * 0x400 + (l - 0xDC00)
    ensures UnicodeEscape(s) == Got(c, s[10..])
  {
  }

  lemma {:induction false} PairReads(high: string, h: nat, low: string, l: nat, c: char, rest: string)
    requires SpellsUnit(high, h) && 0xD800 <= h < 0xDC00 && SpellsUnit(low, l) && 0xDC00 <= l < 0xE000
    requires c as int == 0x1_0000 + (h - 0xD800) * 0x400 + (l - 0xDC00)
    ensures UnicodeEscape(high + ("\\u" + low) + rest) == Got(c, rest)
  {
    var s := high + ("\\u" + low) + rest;
    assert s == high + ("\\u" + (low + rest)) by {
      Associative(high, "\\u" + low, rest);
      Associative("\\u", low, rest);
    }
    UnitReads(high, h, "\\u" + (low + rest));
    UnitReads(low, l, rest);
    Tail("\\u", low + rest, 2);
    assert s[4..][2..] == s[6..] && s[6..][4..] == s[10..];
    assert s[4..][..2] == "\\u";
    PairOf(s, h, l, c);
  }

  lemma {:induction false} LoneUnit(s: string, unit: nat)
    requires Hex4(s) == Some(unit) && 0xD800 <= unit < 0xE000
    requires unit < 0xDC00 ==> !Starts(s[4..], "\\u")
    ensures UnicodeEscape(s) == Invalid
  {
  }

  /** An escape of a surrogate that is not part of a pair is refused. */
  lemma {:induction false} LoneSurrogateRefused(hex: string, unit: nat, rest: string, out: string)
    requires SpellsUnit(hex, unit) && 0xD800 <= unit < 0xE000
    requires unit < 0xDC00 ==> !Starts(rest, "\\u")
    ensures StringBody("\\" + ("u" + (hex + rest)), out) == Invalid
  {
    UnitReads(hex, unit, rest);
    LoneUnit(hex + rest, unit);
    var s := "u" + (hex + rest);
    assert s[1..] == hex + rest;
    assert Escape(s) == Invalid;
    InvalidEscape(s, out);
  }

  lemma {:induction false} InvalidEscape(s: string, out: string)
    requires Escape(s) == Invalid
    ensures StringBody("\\" + s, out) == Invalid
  {
    assert ("\\" + s)[1..] == s;
  }

  /** The short escapes: a quote, a backslash, a slash and five control characters. */
  predicate IsShortEscape(e: char, c: char) {
    || (e == c && (e == '"' || e == '\\' || e == '/'))
    || (e == 'b' && c as int == 8) || (e == 't' && c as int == 9) || (e == 'n' && c as int == 10)
    || (e == 'f' && c as int == 12) || (e == 'r' && c as int == 13)
  }

  lemma {:induction false} ShortEscapeReads(e: char, c: char, rest: string, out: string)
    requires IsShortEscape(e, c)
    ensures StringBody("\\" + [e] + rest, out) == StringBody(rest, out + [c])
  {
    assert ([e] + rest)[1..] == rest;
    BackslashReads([e], rest, c, out);
  }

  // ----- the shortest spelling -----

  /** The one spelling section 3.2.2.2 of RFC 8785 gives each character: quote and
      backslash escaped, five control characters by a letter, the others by four
      lowercase digits, and everything else as it is. */
  ghost predicate CanonicalEscape(c: char, s: string) {
    var n := c as int;
    if c == '"' || c == '\\' then s == ['\\', c]
    else if exists e :: e in "btnfr" && IsShortEscape(e, c) then
      |s| == 2 && s[0] == '\\' && s[1] in "btnfr" && IsShortEscape(s[1], c)
    else if n < 0x20 then s == "\\u00" + ["01"[n / 0x10], "0123456789abcdef"[n % 0x10]]
    else s == [c]
  }

  lemma {:induction false} HexDigitIs(n: nat)
    requires n < 16
    ensures HexDigit(n) == "0123456789abcdef"[n]
    ensures n < 2 ==> HexDigit(n) == "01"[n]
  {
  }

  lemma {:induction false} EscapedIsCanonical(c: char)
    ensures CanonicalEscape(c, Escaped(c))
  {
    assert forall e :: e in "btnfr" <==> e == 'b' || e == 't' || e == 'n' || e == 'f' || e == 'r';
    assert IsShortEscape('b', '\U{8}') && IsShortEscape('t', '\t') && IsShortEscape('n', '\n');
    assert IsShortEscape('f', '\U{C}') && IsShortEscape('r', '\r');
    if IsControl(c) {
      assert c as int / 16 < 2;
      HexDigitIs(c as int / 16);
      HexDigitIs(c as int % 16);
    }
  }

  /** Reading only adds to what was read. */
  lemma {:induction false} BodyExtends(s: string, out: string)
    requires StringBody(s, out).Got?
    ensures out <= StringBody(s, out).value
    decreases |s|
  {
    if s[0] == '"' {
    } else if s[0] == '\\' {
      var e := Escape(s[1..]);
      BodyExtends(e.rest, out + [e.value]);
    } else {
      BodyExtends(s[1..], out + [s[0]]);
    }
  }

  lemma {:induction false} FirstRead(s: string, c: char)
    requires StringBody(s, "") == Got([c], "")
    ensures s != "" && s[0] != '"'
    ensures s[0] == '\\' ==> Escape(s[1..]).Got? && Escape(s[1..]).value == c && Escape(s[1..]).rest != ""
    ensures s[0] != '\\' ==> s[0] == c && !IsControl(c)
  {
    if s[0] == '\\' {
      var e := Escape(s[1..]);
      assert "" + [e.value] == [e.value];
      BodyExtends(e.rest, [e.value]);
      assert [c][0] == [e.value][0];
    } else if s[0] != '"' {
      assert "" + [s[0]] == [s[0]];
      BodyExtends(s[1..], [s[0]]);
      assert [c][0] == [s[0]][0];
    }
  }

  /** No text that reads as a character is shorter than its canonical spelling. */
  lemma {:induction false} EscapedIsShortest(c: char, t: string)
    requires StringBody(t + "\"", "") == Got([c], "")
    ensures |Escaped(c)| <= |t|
  {
    var s := t + "\"";
    FirstRead(s, c);
    EscapedForms(c);
    if s[0] == '\\' {
      var e := Escape(s[1..]);
      assert |s[1..]| == |t|;
      if s[1] == 'u' {
        assert |e.rest| + 6 <= |s|;
      } else {
        assert e.rest == s[2..];
        ShortIsShort(s[1], c, s[2..]);
      }
    } else {
      assert Escaped(c) == [c];
    }
  }

  lemma {:induction false} ShortIsShort(e: char, c: char, rest: string)
    requires e != 'u' && Escape([e] + rest) == Got(c, rest)
    ensures |Escaped(c)| <= 2
  {
  }

  lemma {:induction false} CloseReads(rest: string, out: string)
    ensures StringBody("\"" + rest, out) == Got(out, rest)
  {
    assert ("\"" + rest)[1..] == rest;
  }

  lemma {:induction false} EscapedCons(text: string, close: string)
    requires text != ""
    ensures EscapedAll(text) + close == Escaped(text[0]) + (EscapedAll(text[1..]) + close)
  {
    Associative(Escaped(text[0]), EscapedAll(text[1..]), close);
  }

  lemma {:induction false} FirstMoves(out: string, text: string)
    requires text != ""
    ensures out + [text[0]] + text[1..] == out + text
  {
    Associative(out, [text[0]], text[1..]);
    assert [text[0]] + text[1..] == text;
  }

  lemma {:induction false} BodyReads(text: string, rest: string, out: string)
    ensures StringBody(EscapedAll(text) + ("\"" + rest), out) == Got(out + text, rest)
    decreases |text|
  {
    var close := "\"" + rest;
    if text == "" {
      CloseReads(rest, out);
      assert EscapedAll(text) + close == close;
      assert out + text == out;
    } else {
      EscapedCons(text, close);
      EscapeReads(text[0], EscapedAll(text[1..]) + close, out);
      BodyReads(text[1..], rest, out + [text[0]]);
      FirstMoves(out, text);
    }
  }

  /** A printed string reads back as itself. */
  lemma {:induction false} StringReads(text: string, rest: string)
    ensures ParseString(PrintString(text) + rest) == Got(text, rest)
    ensures PrintString(text)[0] == '"'
  {
    var s := PrintString(text) + rest;
    assert s[1..] == EscapedAll(text) + ("\"" + rest);
    BodyReads(text, rest, "");
    assert "" + text == text;
  }

  // ----- numbers -----

  lemma {:induction false} SpellingStarts(sp: Spelling)
    requires sp.Valid()
    ensures sp.Plain() != "" && IsDigit(sp.Plain()[0])
  {
    assert sp.Plain()[0] == sp.whole[0];
  }

  lemma {:induction false} NoInfinity(s: string)
    requires s != "" && IsDigit(s[0])
    ensures !Starts(s, "Infinity")
  {
    assert |s| >= 8 ==> s[..8][0] == s[0];
  }

  lemma {:induction false} NumberTaken(s: string, parts: Parts)
    requires Unsigned(Magnitude(s)) == Some(parts) && Magnitude(s) != "" && IsDigit(Magnitude(s)[0])
    ensures var n := parts.Length() + if Negative(s) then 1 else 0;
      n <= |s| && ParseNumber(s) == Got(Number(s[..n]), s[n..])
  {
    NoInfinity(Magnitude(s));
  }

  lemma {:induction false} SignOf(sp: Spelling, rest: string)
    requires sp.Valid()
    ensures var s := sp.Text() + rest;
      && Magnitude(s) == sp.Plain() + rest && Negative(s) == sp.neg
      && s != "" && (s[0] == '-' || IsDigit(s[0])) && s[0] == sp.Text()[0]
      && Magnitude(s) != "" && IsDigit(Magnitude(s)[0])
  {
    SpellingStarts(sp);
    var s := sp.Text() + rest;
    assert s[0] == sp.Text()[0];
    assert sp.neg ==> s[1..] == sp.Plain() + rest;
  }

  lemma {:induction false} NumberReads(sp: Spelling, rest: string)
    requires sp.Valid() && Ends(rest)
    ensures sp.Text() != "" && (sp.Text()[0] == '-' || IsDigit(sp.Text()[0]))
    ensures ParseNumber(sp.Text() + rest) == Got(Number(sp.Text()), rest)
  {
    SignOf(sp, rest);
    SpellingReads(sp, rest);
    NumberTaken(sp.Text() + rest, PartsOf(sp));
    Tail(sp.Text(), rest, |sp.Text()|);
    assert (sp.Text() + rest)[..|sp.Text()|] == sp.Text();
  }

  // ----- values -----

  predicate Clean(c: char) {
    !IsWhitespace(c) && c != ']' && c != '}'
  }

  lemma {:induction false} PrintStarts(v: Json)
    requires Plain(v)
    ensures Print(v) != "" && Clean(Print(v)[0])
  {
    match v
    case Number(raw) =>
      var sp: Spelling :| sp.Valid() && sp.Text() == raw;
      NumberReads(sp, "");
    case _ =>
  }

  lemma {:induction false} NoSkip(a: string, b: string)
    requires a != "" && !IsWhitespace(a[0])
    ensures SkipWhitespace(a + b) == a + b
  {
    assert (a + b)[0] == a[0];
  }

  lemma {:induction false} LiteralReads(text: string, value: Json, rest: string)
    requires text != ""
    ensures ParseLiteral(text + rest, text, value) == Got(value, rest)
  {
    assert (text + rest)[..|text|] == text && (text + rest)[|text|..] == rest;
  }

  lemma {:induction false} NumberDispatch(s: string, depth: nat)
    requires depth <= MAXIMUM_DEPTH && s != "" && (s[0] == '-' || IsDigit(s[0]))
    ensures ParseValue(s, depth) == ParseNumber(s)
  {
  }

  lemma {:induction false} NumberValueReads(raw: string, depth: nat, rest: string)
    requires IsSpelled(raw) && depth <= MAXIMUM_DEPTH && Ends(rest)
    ensures ParseValue(raw + rest, depth) == Got(Number(raw), rest)
  {
    var sp: Spelling :| sp.Valid() && sp.Text() == raw;
    NumberReads(sp, rest);
    assert (raw + rest)[0] == raw[0];
    NumberDispatch(raw + rest, depth);
  }

  /** Scalars read back. */
  lemma {:induction false} ScalarReads(v: Json, depth: nat, rest: string)
    requires Plain(v) && depth <= MAXIMUM_DEPTH && Ends(rest) && !v.Array? && !v.Object?
    ensures ParseValue(Print(v) + rest, depth) == Got(v, rest)
  {
    match v
    case Null => LiteralReads("null", v, rest);
    case Bool(b) => LiteralReads(if b then "true" else "false", v, rest);
    case Number(raw) => NumberValueReads(raw, depth, rest);
    case String(text) => StringReads(text, rest);
  }

  lemma {:induction false} ArrayDispatch(a: string, rest: string, depth: nat)
    requires depth <= MAXIMUM_DEPTH
    ensures ParseValue("[" + a + rest, depth) == ParseArray(SkipWhitespace(a + rest), depth)
  {
    assert ("[" + a + rest)[1..] == a + rest;
  }

  lemma {:induction false} ObjectDispatch(a: string, rest: string, depth: nat)
    requires depth <= MAXIMUM_DEPTH
    ensures ParseValue("{" + a + rest, depth) == ParseObject(SkipWhitespace(a + rest), depth)
  {
    assert ("{" + a + rest)[1..] == a + rest;
  }

  lemma {:induction false} ValueReads(v: Json, depth: nat, rest: string)
    requires Plain(v) && Shallow(v, depth) && Ends(rest)
    ensures ParseValue(Print(v) + rest, depth) == Got(v, rest)
    decreases v, Width(v) + 1
  {
    match v
    case Array(items) =>
      ArrayDispatch(PrintItems(v, 0), rest, depth);
      ArrayReads(v, depth, rest);
    case Object(entries) =>
      ObjectDispatch(PrintMembers(v, 0), rest, depth);
      ObjectReads(v, depth, rest);
    case _ => ScalarReads(v, depth, rest);
  }

  lemma {:induction false} ArrayReads(v: Json, depth: nat, rest: string)
    requires v.Array? && Plain(v) && Shallow(v, depth) && Ends(rest)
    ensures ParseArray(SkipWhitespace(PrintItems(v, 0) + rest), depth) == Got(v, rest)
    decreases v, Width(v), 1
  {
    var s := PrintItems(v, 0) + rest;
    if v.items == [] {
      NoSkip("]", rest);
      assert s[1..] == rest;
    } else {
      PrintStarts(v.items[0]);
      assert PrintItems(v, 0)[0] == Print(v.items[0])[0];
      NoSkip(PrintItems(v, 0), rest);
      ItemsRead(v, 0, depth, rest);
      assert v.items[..0] == [];
    }
  }

  /** What follows an item: the closing bracket, or a comma and more items. */
  function AfterItem(v: Json, i: nat): string
    requires v.Array? && i < |v.items|
  {
    if i + 1 == |v.items| then "]" else "," + PrintItems(v, i + 1)
  }

  lemma {:induction false} ItemsStep(s: string, depth: nat, items: seq<Json>, value: Json, more: string)
    requires ParseValue(SkipWhitespace(s), depth + 1) == Got(value, more)
    requires more != "" && !IsWhitespace(more[0])
    ensures more[0] == ',' ==> ParseItems(s, depth, items) == ParseItems(more[1..], depth, items + [value])
    ensures more[0] == ']' ==> ParseItems(s, depth, items) == Got(Array(items + [value]), more[1..])
  {
  }

  lemma {:induction false} ItemText(v: Json, i: nat, rest: string)
    requires v.Array? && i < |v.items|
    ensures PrintItems(v, i) + rest == Print(v.items[i]) + (AfterItem(v, i) + rest)
    ensures (AfterItem(v, i) + rest)[1..] == if i + 1 == |v.items| then rest else PrintItems(v, i + 1) + rest
  {
  }

  // Past one item: the rest of the items, or the whole array.
  lemma {:induction false} ItemsNext(v: Json, i: nat, depth: nat, rest: string)
    requires v.Array? && i < |v.items| && Plain(v)
    requires ParseValue(Print(v.items[i]) + (AfterItem(v, i) + rest), depth + 1) == Got(v.items[i], AfterItem(v, i) + rest)
    ensures ParseItems(PrintItems(v, i) + rest, depth, v.items[..i])
         == if i + 1 == |v.items| then Got(v, rest) else ParseItems(PrintItems(v, i + 1) + rest, depth, v.items[..i + 1])
  {
    var item, more := v.items[i], AfterItem(v, i) + rest;
    PrintStarts(item);
    ItemText(v, i, rest);
    NoSkip(Print(item), more);
    ItemsStep(PrintItems(v, i) + rest, depth, v.items[..i], item, more);
    OneMore(v.items, i);
  }

  lemma {:induction false} ItemsRead(v: Json, i: nat, depth: nat, rest: string)
    requires v.Array? && i < |v.items| && Plain(v) && Shallow(v, depth) && Ends(rest)
    ensures ParseItems(PrintItems(v, i) + rest, depth, v.items[..i]) == Got(v, rest)
    decreases v, |v.items| - i, 0
  {
    var item, more := v.items[i], AfterItem(v, i) + rest;
    ItemText(v, i, rest);
    ValueReads(item, depth + 1, more);
    ItemsNext(v, i, depth, rest);
    if i + 1 < |v.items| {
      ItemsRead(v, i + 1, depth, rest);
    }
  }

  lemma {:induction false} ObjectReads(v: Json, depth: nat, rest: string)
    requires v.Object? && Plain(v) && Shallow(v, depth) && Ends(rest)
    ensures ParseObject(SkipWhitespace(PrintMembers(v, 0) + rest), depth) == Got(v, rest)
    decreases v, Width(v), 1
  {
    var s := PrintMembers(v, 0) + rest;
    if v.entries == [] {
      NoSkip("}", rest);
      assert s[1..] == rest;
    } else {
      StringReads(v.entries[0].0, "");
      assert PrintMembers(v, 0)[0] == '"';
      NoSkip(PrintMembers(v, 0), rest);
      MembersRead(v, 0, depth, rest);
      assert v.entries[..0] == [];
    }
  }

  function AfterMember(v: Json, i: nat): string
    requires v.Object? && i < |v.entries|
  {
    if i + 1 == |v.entries| then "}" else "," + PrintMembers(v, i + 1)
  }

  lemma {:induction false} MemberText(v: Json, i: nat, rest: string)
    requires v.Object? && i < |v.entries|
    ensures PrintMembers(v, i) + rest
         == PrintString(v.entries[i].0) + (":" + (Print(v.entries[i].1) + (AfterMember(v, i) + rest)))
  {
    var key, value, more := PrintString(v.entries[i].0), Print(v.entries[i].1), AfterMember(v, i);
    assert PrintMembers(v, i) == key + (":" + (value + more));
    Reassociate(":", value, more, rest);
    assert (":" + (value + more)) + rest == ":" + (value + (more + rest));
    Associative(key, ":" + (value + more), rest);
  }

  lemma {:induction false} NewKey(entries: seq<(string, Json)>, i: nat)
    requires i < |entries| && DistinctKeys(entries)
    ensures !HasKey(entries[..i], entries[i].0)
  {
  }

  lemma {:induction false} MembersStep(s: string, depth: nat, entries: seq<(string, Json)>, key: string, value: Json,
      afterKey: string, more: string)
    requires ParseString(SkipWhitespace(s)) == Got(key, ":" + afterKey) && !HasKey(entries, key)
    requires ParseValue(SkipWhitespace(afterKey), depth + 1) == Got(value, more)
    requires more != "" && !IsWhitespace(more[0])
    ensures more[0] == ',' ==> ParseMembers(s, depth, entries) == ParseMembers(more[1..], depth, entries + [(key, value)])
    ensures more[0] == '}' ==> ParseMembers(s, depth, entries) == Got(Object(entries + [(key, value)]), more[1..])
  {
    NoSkip(":", afterKey);
    assert (":" + afterKey)[1..] == afterKey;
  }

  lemma {:induction false} AfterText(v: Json, i: nat, rest: string)
    requires v.Object? && i < |v.entries|
    ensures (AfterMember(v, i) + rest)[1..] == if i + 1 == |v.entries| then rest else PrintMembers(v, i + 1) + rest
  {
  }

  // Past one member: the rest of the members, or the whole object.
  lemma {:induction false} MembersNext(v: Json, i: nat, depth: nat, rest: string)
    requires v.Object? && i < |v.entries| && Plain(v)
    requires ParseValue(Print(v.entries[i].1) + (AfterMember(v, i) + rest), depth + 1)
          == Got(v.entries[i].1, AfterMember(v, i) + rest)
    ensures ParseMembers(PrintMembers(v, i) + rest, depth, v.entries[..i])
         == if i + 1 == |v.entries| then Got(v, rest)
            else ParseMembers(PrintMembers(v, i + 1) + rest, depth, v.entries[..i + 1])
  {
    var key, value, more := v.entries[i].0, v.entries[i].1, AfterMember(v, i) + rest;
    KeyReads(v, i, rest);
    NewKey(v.entries, i);
    PrintStarts(value);
    NoSkip(Print(value), more);
    AfterText(v, i, rest);
    MembersStep(PrintMembers(v, i) + rest, depth, v.entries[..i], key, value, Print(value) + more, more);
    OneMore(v.entries, i);
  }

  lemma {:induction false} KeyReads(v: Json, i: nat, rest: string)
    requires v.Object? && i < |v.entries|
    ensures ParseString(SkipWhitespace(PrintMembers(v, i) + rest))
         == Got(v.entries[i].0, ":" + (Print(v.entries[i].1) + (AfterMember(v, i) + rest)))
  {
    var key, after := v.entries[i].0, ":" + (Print(v.entries[i].1) + (AfterMember(v, i) + rest));
    MemberText(v, i, rest);
    StringReads(key, after);
    NoSkip(PrintString(key), after);
  }

  lemma {:induction false} MembersRead(v: Json, i: nat, depth: nat, rest: string)
    requires v.Object? && i < |v.entries| && Plain(v) && Shallow(v, depth) && Ends(rest)
    ensures ParseMembers(PrintMembers(v, i) + rest, depth, v.entries[..i]) == Got(v, rest)
    decreases v, |v.entries| - i, 0
  {
    ValueReads(v.entries[i].1, depth + 1, AfterMember(v, i) + rest);
    MembersNext(v, i, depth, rest);
    if i + 1 < |v.entries| {
      MembersRead(v, i + 1, depth, rest);
    }
  }

  /** A printed value is one JSON text, and parses to the value. */
  lemma {:induction false} PrintedParses(v: Json)
    requires Plain(v) && Shallow(v, 0)
    ensures ParseOne(Print(v)) == Some(v)
  {
    PrintStarts(v);
    NoSkip(Print(v), "");
    assert Print(v) + "" == Print(v);
    ValueReads(v, 0, "");
  }
}
