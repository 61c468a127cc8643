/**
The strict JSON grammar: what a text parses to, and how a value is printed. Texts are
sequences of Unicode scalars; every refusal carries the same error code.
*/
module JsonText {
  import opened Decimals
  import opened Outcomes

  datatype Json =
    | Null
    | Bool(value: bool)
    | Number(raw: string)
    | String(text: string)
    | Array(items: seq<Json>)
    | Object(entries: seq<(string, Json)>)

  const MAXIMUM_DEPTH: nat := 128

  /** What was read, and the text after it. */
  datatype Parsed<T> = Got(value: T, rest: string) | Invalid

  predicate IsWhitespace(c: char) { c == ' ' || c == '\t' || c == '\n' || c == '\r' }

  function SkipWhitespace(s: string): (r: string)
    ensures |r| <= |s|
  {
    if s != "" && IsWhitespace(s[0]) then SkipWhitespace(s[1..]) else s
  }

  predicate Starts(s: string, prefix: string) {
    |prefix| <= |s| && s[..|prefix|] == prefix
  }

  // ----- strings -----

  predicate IsHex(c: char) {
    '0' <= c <= '9' || 'a' <= c <= 'f' || 'A' <= c <= 'F'
  }

  function HexValue(c: char): (v: nat)
    requires IsHex(c)
    ensures v < 16
  {
    if c <= '9' then c as int - '0' as int
    else if c <= 'F' then c as int - 'A' as int + 10
    else c as int - 'a' as int + 10
  }

  /** Four hex digits. */
  function Hex4(s: string): (r: Option<nat>)
    ensures r.Some? ==> |s| >= 4 && r.value < 0x1_0000
  {
    if |s| < 4 || !IsHex(s[0]) || !IsHex(s[1]) || !IsHex(s[2]) || !IsHex(s[3]) then None
    else Some(0x1000 * HexValue(s[0]) + 0x100 * HexValue(s[1]) + 0x10 * HexValue(s[2]) + HexValue(s[3]))
  }

  predicate IsScalar(n: nat) { n < 0xD800 || 0xE000 <= n < 0x11_0000 }

  /** The scalar after a backslash and a u: one escape, or a pair of surrogates. */
  function UnicodeEscape(s: string): (r: Parsed<char>)
    ensures r.Got? ==> |r.rest| < |s|
  {
    var high := Hex4(s);
    if high.None? then Invalid
    else if !(0xD800 <= high.value < 0xDC00) then
      if IsScalar(high.value) then Got(high.value as char, s[4..]) else Invalid
    else if !Starts(s[4..], "\\u") then Invalid
    else
      var low := Hex4(s[6..]);
      if low.None? || !(0xDC00 <= low.value < 0xE000) then Invalid
      else Got((0x1_0000 + (high.value - 0xD800) * 0x400 + (low.value - 0xDC00)) as char, s[10..])
  }

  /** The character after a backslash. */
  function Escape(s: string): (r: Parsed<char>)
    ensures r.Got? ==> |r.rest| < |s|
  {
    if s == "" then Invalid
    else
      match s[0]
      case '"' => Got('"', s[1..])
      case '\\' => Got('\\', s[1..])
      case '/' => Got('/', s[1..])
      case 'b' => Got('\U{8}', s[1..])
      case 'f' => Got('\U{C}', s[1..])
      case 'n' => Got('\n', s[1..])
      case 'r' => Got('\r', s[1..])
      case 't' => Got('\t', s[1..])
      case 'u' => UnicodeEscape(s[1..])
      case _ => Invalid
  }

  predicate IsControl(c: char) { c as int < 0x20 }

  /** The rest of a string after its opening quote. */
  function StringBody(s: string, out: string): (r: Parsed<string>)
    ensures r.Got? ==> |r.rest| < |s|
    decreases |s|
  {
    if s == "" then Invalid
    else if s[0] == '"' then Got(out, s[1..])
    else if s[0] == '\\' then
      var e := Escape(s[1..]);
      if e.Invalid? then Invalid else StringBody(e.rest, out + [e.value])
    else if IsControl(s[0]) then Invalid
    else StringBody(s[1..], out + [s[0]])
  }

  function ParseString(s: string): (r: Parsed<string>)
    ensures r.Got? ==> |r.rest| < |s|
  {
    if s == "" || s[0] != '"' then Invalid else StringBody(s[1..], "")
  }

  // ----- values -----

  /** Where the finite literal that starts a text ends. */
  function NumberEnd(s: string): (r: Option<nat>)
    ensures r.Some? ==> 0 < r.value <= |s|
  {
    var parts := Unsigned(Magnitude(s));
    if parts.None? then None else Some(parts.value.Length() + if Negative(s) then 1 else 0)
  }

  function FiniteNumber(s: string): (r: Parsed<Json>)
    ensures r.Got? ==> |r.rest| < |s|
  {
    var end := NumberEnd(s);
    if end.None? then Invalid else Got(Number(s[..end.value]), s[end.value..])
  }

  function ParseNumber(s: string): (r: Parsed<Json>)
    ensures r.Got? ==> |r.rest| < |s|
  {
    if Negative(s) && Starts(s[1..], "Infinity") then Got(Number("-Infinity"), s[9..]) else FiniteNumber(s)
  }

  function ParseLiteral(s: string, text: string, value: Json): (r: Parsed<Json>)
    requires text != ""
    ensures r.Got? ==> |r.rest| < |s|
  {
    if Starts(s, text) then Got(value, s[|text|..]) else Invalid
  }

  predicate HasKey(entries: seq<(string, Json)>, key: string) {
    exists i :: 0 <= i < |entries| && entries[i].0 == key
  }

  function ParseValue(s: string, depth: nat): (r: Parsed<Json>)
    ensures r.Got? ==> |r.rest| < |s|
    decreases |s|, 2
  {
    if depth > MAXIMUM_DEPTH || s == "" then Invalid
    else
      match s[0]
      case '{' => ParseObject(SkipWhitespace(s[1..]), depth)
      case '[' => ParseArray(SkipWhitespace(s[1..]), depth)
      case '"' =>
        var text := ParseString(s);
        if text.Invalid? then Invalid else Got(String(text.value), text.rest)
      case 't' => ParseLiteral(s, "true", Bool(true))
      case 'f' => ParseLiteral(s, "false", Bool(false))
      case 'n' => ParseLiteral(s, "null", Null)
      case 'N' => ParseLiteral(s, "NaN", Number("NaN"))
      case 'I' => ParseLiteral(s, "Infinity", Number("Infinity"))
      case _ => if s[0] == '-' || IsDigit(s[0]) then ParseNumber(s) else Invalid
  }

  // After an opening brace.
  function ParseObject(s: string, depth: nat): (r: Parsed<Json>)
    ensures r.Got? ==> |r.rest| <= |s|
    decreases |s|, 1
  {
    if s == "" then Invalid
    else if s[0] == '}' then Got(Object([]), s[1..])
    else ParseMembers(s, depth, [])
  }

  /** One member and those after it, given the ones before. */
  function ParseMembers(s: string, depth: nat, entries: seq<(string, Json)>): (r: Parsed<Json>)
    ensures r.Got? ==> |r.rest| <= |s|
    decreases |s|, 0
  {
    var key := ParseString(SkipWhitespace(s));
    if key.Invalid? || HasKey(entries, key.value) then Invalid
    else
      var colon := SkipWhitespace(key.rest);
      if colon == "" || colon[0] != ':' then Invalid
      else
        var value := ParseValue(SkipWhitespace(colon[1..]), depth + 1);
        if value.Invalid? then Invalid
        else
          var more := entries + [(key.value, value.value)];
          var after := SkipWhitespace(value.rest);
          if after == "" then Invalid
          else if after[0] == ',' then ParseMembers(after[1..], depth, more)
          else if after[0] == '}' then Got(Object(more), after[1..])
          else Invalid
  }

  // After an opening bracket.
  function ParseArray(s: string, depth: nat): (r: Parsed<Json>)
    ensures r.Got? ==> |r.rest| <= |s|
    decreases |s|, 4
  {
    if s == "" then Invalid
    else if s[0] == ']' then Got(Array([]), s[1..])
    else ParseItems(s, depth, [])
  }

  /** One item and those after it, given the ones before. */
  function ParseItems(s: string, depth: nat, items: seq<Json>): (r: Parsed<Json>)
    ensures r.Got? ==> |r.rest| <= |s|
    decreases |s|, 3
  {
    var value := ParseValue(SkipWhitespace(s), depth + 1);
    if value.Invalid? then Invalid
    else
      var more := items + [value.value];
      var after := SkipWhitespace(value.rest);
      if after == "" then Invalid
      else if after[0] == ',' then ParseItems(after[1..], depth, more)
      else if after[0] == ']' then Got(Array(more), after[1..])
      else Invalid
  }

  /** Exactly one value, with nothing but whitespace around it. */
  function ParseOne(s: string): Option<Json> {
    var value := ParseValue(SkipWhitespace(s), 0);
    if value.Invalid? || SkipWhitespace(value.rest) != "" then None else Some(value.value)
  }

  // ----- printing -----

  function HexDigit(n: nat): (c: char)
    requires n < 16
    ensures IsHex(c) && HexValue(c) == n
  {
    if n < 10 then ('0' as int + n) as char else ('a' as int + (n - 10)) as char
  }

  /** The shortest escape of a character that needs one. */
  function Escaped(c: char): string {
    match c
    case '"' => "\\\""
    case '\\' => "\\\\"
    case '\U{8}' => "\\b"
    case '\U{C}' => "\\f"
    case '\n' => "\\n"
    case '\r' => "\\r"
    case '\t' => "\\t"
    case _ => if IsControl(c) then "\\u00" + [HexDigit(c as int / 16), HexDigit(c as int % 16)] else [c]
  }

  function EscapedAll(text: string): string {
    if text == "" then "" else Escaped(text[0]) + EscapedAll(text[1..])
  }

  function PrintString(text: string): string {
    "\"" + (EscapedAll(text) + "\"")
  }

  /** How many parts a value has. */
  function Width(v: Json): nat {
    match v
    case Array(items) => |items|
    case Object(entries) => |entries|
    case _ => 0
  }

  /** The text of a value whose numbers and members are already canonical. */
  function Print(v: Json): (s: string)
    decreases v, Width(v) + 1
  {
    match v
    case Null => "null"
    case Bool(b) => if b then "true" else "false"
    case Number(raw) => raw
    case String(text) => PrintString(text)
    case Array(_) => "[" + PrintItems(v, 0)
    case Object(_) => "{" + PrintMembers(v, 0)
  }

  /** Items from the i-th on, with the closing bracket. */
  function PrintItems(v: Json, i: nat): string
    requires v.Array? && i <= |v.items|
    decreases v, |v.items| - i
  {
    if i == |v.items| then "]"
    else
      var more := if i + 1 == |v.items| then "]" else "," + PrintItems(v, i + 1);
      Print(v.items[i]) + more
  }

  /** Members from the i-th on, with the closing brace. */
  function PrintMembers(v: Json, i: nat): string
    requires v.Object? && i <= |v.entries|
    decreases v, |v.entries| - i
  {
    if i == |v.entries| then "}"
    else
      var more := if i + 1 == |v.entries| then "}" else "," + PrintMembers(v, i + 1);
      PrintString(v.entries[i].0) + (":" + (Print(v.entries[i].1) + more))
  }
}
