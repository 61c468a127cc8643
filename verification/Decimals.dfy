/**
Number literals of JSON: their grammar, the decimal they denote, and how a decimal is
laid out by the rules of section 3.2.2.3 of RFC 8785.
*/
module Decimals {
  import opened Outcomes

  // ----- the grammar -----

  predicate IsDigit(c: char) { '0' <= c <= '9' }

  /** How many digits the text starts with. */
  function Digits(s: string): (n: nat)
    ensures n <= |s|
  {
    if s != "" && IsDigit(s[0]) then 1 + Digits(s[1..]) else 0
  }

  function IntegerLength(s: string): (r: Option<nat>)
    ensures r.Some? ==> 0 < r.value <= |s|
  {
    if s == "" || !IsDigit(s[0]) then None
    else if s[0] == '0' then Some(1)
    else Some(Digits(s))
  }

  function FractionLength(s: string): (r: Option<nat>)
    ensures r.Some? ==> r.value <= |s|
  {
    if s == "" || s[0] != '.' then Some(0)
    else if Digits(s[1..]) == 0 then None
    else Some(1 + Digits(s[1..]))
  }

  predicate IsSign(c: char) { c == '+' || c == '-' }

  function SignLength(s: string): (n: nat)
    ensures n <= |s|
  {
    if s != "" && IsSign(s[0]) then 1 else 0
  }

  function ExponentLength(s: string): (r: Option<nat>)
    ensures r.Some? ==> r.value <= |s|
  {
    if s == "" || (s[0] != 'e' && s[0] != 'E') then Some(0)
    else
      var k := 1 + SignLength(s[1..]);
      if Digits(s[k..]) == 0 then None else Some(k + Digits(s[k..]))
  }

  /** The parts of an unsigned literal at the start of a text. */
  datatype Parts = Parts(whole: nat, fraction: nat, exponent: nat)
  {
    function Length(): nat { whole + fraction + exponent }
  }

  function Unsigned(s: string): (r: Option<Parts>)
    ensures r.Some? ==> 0 < r.value.whole && r.value.Length() <= |s|
  {
    var whole := IntegerLength(s);
    if whole.None? then None
    else
      var fraction := FractionLength(s[whole.value..]);
      if fraction.None? then None
      else
        var exponent := ExponentLength(s[whole.value + fraction.value..]);
        if exponent.None? then None
        else Some(Parts(whole.value, fraction.value, exponent.value))
  }

  predicate Negative(s: string) {
    s != "" && s[0] == '-'
  }

  function Magnitude(s: string): string {
    if Negative(s) then s[1..] else s
  }

  /** A text that is one finite literal and nothing else. */
  predicate IsLiteral(s: string) {
    var parts := Unsigned(Magnitude(s));
    parts.Some? && parts.value.Length() == |Magnitude(s)|
  }

  // ----- spellings -----

  /** A literal by its parts. */
  datatype Spelling = Spelling(neg: bool, whole: string, fraction: string, exponent: Option<(char, string)>)
  {
    function ExponentText(): string {
      match exponent
      case None => ""
      case Some((sign, digits)) => ['e', sign] + digits
    }

    function FractionText(): string {
      if fraction == "" then "" else "." + fraction
    }

    function Plain(): string {
      whole + (FractionText() + ExponentText())
    }

    function Text(): string {
      if neg then "-" + Plain() else Plain()
    }

    predicate Valid() {
      && whole != "" && AllDigits(whole) && (whole[0] == '0' ==> |whole| == 1)
      && AllDigits(fraction)
      && (exponent.Some? ==> IsSign(exponent.value.0) && exponent.value.1 != "" && AllDigits(exponent.value.1))
    }
  }

  predicate AllDigits(s: string) {
    forall i :: 0 <= i < |s| ==> IsDigit(s[i])
  }

  predicate StartsWithDigit(s: string) {
    s != "" && IsDigit(s[0])
  }

  lemma {:induction false} DigitsOf(d: string, rest: string)
    requires AllDigits(d) && !StartsWithDigit(rest)
    ensures Digits(d + rest) == |d|
    decreases |d|
  {
    if d == "" {
      assert d + rest == rest;
    } else {
      assert (d + rest)[1..] == d[1..] + rest;
      DigitsOf(d[1..], rest);
    }
  }

  /** A literal is over where none of these follows. */
  predicate Ends(rest: string) {
    rest == "" || (!IsDigit(rest[0]) && rest[0] != '.' && rest[0] != 'e' && rest[0] != 'E')
  }

  lemma {:induction false} ExponentOf(sp: Spelling, rest: string)
    requires sp.Valid() && Ends(rest)
    ensures ExponentLength(sp.ExponentText() + rest) == Some(|sp.ExponentText()|)
    ensures !StartsWithDigit(sp.ExponentText() + rest)
  {
    if sp.exponent.Some? {
      var sign, digits := sp.exponent.value.0, sp.exponent.value.1;
      var s := sp.ExponentText() + rest;
      assert s[1..] == [sign] + digits + rest;
      assert s[2..] == digits + rest;
      DigitsOf(digits, rest);
    } else {
      assert sp.ExponentText() + rest == rest;
    }
  }

  lemma {:induction false} FractionOf(sp: Spelling, rest: string)
    requires sp.Valid() && Ends(rest)
    ensures FractionLength(sp.FractionText() + (sp.ExponentText() + rest)) == Some(|sp.FractionText()|)
    ensures !StartsWithDigit(sp.FractionText() + (sp.ExponentText() + rest))
  {
    ExponentOf(sp, rest);
    var after := sp.ExponentText() + rest;
    if sp.fraction == "" {
      assert sp.FractionText() + after == after;
    } else {
      assert (sp.FractionText() + after)[1..] == sp.fraction + after;
      DigitsOf(sp.fraction, after);
    }
  }

  lemma {:induction false} Joined(a: string, b: string, c: string)
    ensures var s := a + (b + c);
      && s[..|a|] == a && s[|a|..] == b + c && s[|a|..|a| + |b|] == b && s[|a| + |b|..] == c
  {
  }

  lemma {:induction false} Reassociate(a: string, b: string, c: string, d: string)
    ensures (a + (b + c)) + d == a + (b + (c + d))
  {
  }

  lemma {:induction false} WholeReads(whole: string, after: string)
    requires whole != "" && AllDigits(whole) && (whole[0] == '0' ==> |whole| == 1) && !StartsWithDigit(after)
    ensures IntegerLength(whole + after) == Some(|whole|)
  {
    DigitsOf(whole, after);
    assert (whole + after)[0] == whole[0];
  }

  /** A spelling is read back part by part, up to where it ends. */
  lemma {:induction false} SpellingReads(sp: Spelling, rest: string)
    requires sp.Valid() && Ends(rest)
    ensures Unsigned(sp.Plain() + rest) == Some(Parts(|sp.whole|, |sp.FractionText()|, |sp.ExponentText()|))
  {
    var a, b, c := sp.whole, sp.FractionText(), sp.ExponentText() + rest;
    Reassociate(sp.whole, sp.FractionText(), sp.ExponentText(), rest);
    FractionOf(sp, rest);
    ExponentOf(sp, rest);
    WholeReads(a, b + c);
    Joined(a, b, c);
  }

  // ----- values -----

  /** Digits d standing for 0.d times ten to the point. */
  datatype Decimal = Decimal(neg: bool, digits: string, point: int)

  function LeadingZeros(s: string): (n: nat)
    ensures n <= |s|
  {
    if s != "" && s[0] == '0' then 1 + LeadingZeros(s[1..]) else 0
  }

  function TrimEnd(s: string): (r: string)
    ensures |r| <= |s|
  {
    if s != "" && s[|s| - 1] == '0' then TrimEnd(s[..|s| - 1]) else s
  }

  function Significant(digits: string): string {
    TrimEnd(digits[LeadingZeros(digits)..])
  }

  function DigitValue(c: char): nat
    requires IsDigit(c)
  {
    c as int - '0' as int
  }

  function Number(s: string): nat
    requires AllDigits(s)
  {
    if s == "" then 0 else 10 * Number(s[..|s| - 1]) + DigitValue(s[|s| - 1])
  }

  /** The digits before and after the point of a literal, and its exponent. */
  datatype Reading = Reading(neg: bool, whole: string, fraction: string, exponent: int)
  {
    function Value(): Decimal {
      var all := whole + fraction;
      var digits := Significant(all);
      Decimal(neg, digits, if digits == "" then 0 else |whole| + exponent - LeadingZeros(all))
    }
  }

  lemma {:induction false} DigitsAreDigits(s: string)
    ensures AllDigits(s[..Digits(s)])
  {
    if s != "" && IsDigit(s[0]) {
      DigitsAreDigits(s[1..]);
      assert s[..Digits(s)] == [s[0]] + s[1..][..Digits(s[1..])];
    }
  }

  function ExponentValue(s: string): int
    requires ExponentLength(s) == Some(|s|)
  {
    if s == "" then 0
    else
      var k := 1 + SignLength(s[1..]);
      DigitsAreDigits(s[k..]);
      assert s[k..][..Digits(s[k..])] == s[k..];
      if k == 2 && s[1] == '-' then 0 - Number(s[k..]) else Number(s[k..])
  }

  predicate Fit(m: string, parts: Parts) {
    && 0 < parts.whole && parts.Length() == |m| && parts.fraction != 1
    && ExponentLength(m[parts.whole + parts.fraction..]) == Some(parts.exponent)
  }

  function ReadParts(neg: bool, m: string, parts: Parts): Reading
    requires Fit(m, parts)
  {
    var after := parts.whole + parts.fraction;
    Reading(neg, m[..parts.whole], if parts.fraction == 0 then "" else m[parts.whole + 1..after],
            ExponentValue(m[after..]))
  }

  lemma {:induction false} LiteralFits(s: string)
    requires IsLiteral(s)
    ensures Fit(Magnitude(s), Unsigned(Magnitude(s)).value)
  {
  }

  function ReadingOf(s: string): Reading
    requires IsLiteral(s)
  {
    LiteralFits(s);
    ReadParts(Negative(s), Magnitude(s), Unsigned(Magnitude(s)).value)
  }

  /** The decimal a literal denotes. */
  function Denoted(s: string): Decimal
    requires IsLiteral(s)
  {
    ReadingOf(s).Value()
  }

  function SpelledExponent(sp: Spelling): int
    requires sp.Valid()
  {
    match sp.exponent
    case None => 0
    case Some((sign, digits)) => if sign == '-' then 0 - Number(digits) else Number(digits)
  }

  lemma {:induction false} ExponentReads(sp: Spelling)
    requires sp.Valid()
    ensures ExponentLength(sp.ExponentText()) == Some(|sp.ExponentText()|)
    ensures ExponentValue(sp.ExponentText()) == SpelledExponent(sp)
  {
    ExponentOf(sp, "");
    assert sp.ExponentText() + "" == sp.ExponentText();
    if sp.exponent.Some? {
      assert sp.ExponentText()[2..] == sp.exponent.value.1;
    }
  }

  lemma {:induction false} SpellingParts(sp: Spelling)
    requires sp.Valid()
    ensures Magnitude(sp.Text()) == sp.Plain() && Negative(sp.Text()) == sp.neg
    ensures Unsigned(sp.Plain()) == Some(Parts(|sp.whole|, |sp.FractionText()|, |sp.ExponentText()|))
  {
    SpellingReads(sp, "");
    assert sp.Plain() + "" == sp.Plain();
    assert sp.Plain()[0] == sp.whole[0];
  }

  lemma {:induction false} SpellingPieces(sp: Spelling)
    requires sp.Valid()
    ensures var m, w, f := sp.Plain(), |sp.whole|, |sp.FractionText()|;
      && m[..w] == sp.whole && m[w + f..] == sp.ExponentText()
      && (if f == 0 then "" else m[w + 1..w + f]) == sp.fraction
  {
    var m, w, f := sp.Plain(), |sp.whole|, |sp.FractionText()|;
    Joined(sp.whole, sp.FractionText(), sp.ExponentText());
    if f > 0 {
      assert m[w + 1..w + f] == m[w..w + f][1..];
      assert sp.FractionText()[1..] == sp.fraction;
    }
  }

  function PartsOf(sp: Spelling): Parts {
    Parts(|sp.whole|, |sp.FractionText()|, |sp.ExponentText()|)
  }

  lemma {:induction false} PartsRead(sp: Spelling)
    requires sp.Valid()
    ensures Fit(sp.Plain(), PartsOf(sp))
    ensures ReadParts(sp.neg, sp.Plain(), PartsOf(sp)) == Reading(sp.neg, sp.whole, sp.fraction, SpelledExponent(sp))
  {
    SpellingPieces(sp);
    ExponentReads(sp);
  }

  /** A spelling's text is a literal that reads as the spelling says. */
  lemma {:induction false} SpellingDenotes(sp: Spelling)
    requires sp.Valid()
    ensures IsLiteral(sp.Text())
    ensures ReadingOf(sp.Text()) == Reading(sp.neg, sp.whole, sp.fraction, SpelledExponent(sp))
  {
    SpellingParts(sp);
    PartsRead(sp);
  }

  // ----- the layout -----

  function Zeros(n: nat): (s: string)
    ensures |s| == n && forall i :: 0 <= i < n ==> s[i] == '0'
  {
    seq(n, _ => '0')
  }

  function DigitOf(d: nat): (c: char)
    requires d < 10
    ensures IsDigit(c) && DigitValue(c) == d
  {
    ('0' as int + d) as char
  }

  /** A number in decimal digits. */
  function InDigits(n: nat): (s: string)
    ensures s != "" && AllDigits(s) && Number(s) == n
  {
    if n < 10 then [DigitOf(n)]
    else
      var front := InDigits(n / 10);
      var s := front + [DigitOf(n % 10)];
      assert s[..|s| - 1] == front;
      s
  }

  /** Digits with nothing to trim. */
  predicate IsShortest(digits: string) {
    AllDigits(digits) && (digits != "" ==> digits[0] != '0' && digits[|digits| - 1] != '0')
  }

  predicate Normal(d: Decimal) {
    IsShortest(d.digits) && (d.digits == "" ==> d.point == 0)
  }

  /** Which spelling the rules choose: the point moves with the size of the number,
      and exponents are used past twenty-one places and below a millionth. */
  function LaidOut(d: Decimal): (sp: Spelling)
    requires Normal(d)
  {
    var k, n := |d.digits|, d.point;
    if d.digits == "" then Spelling(false, "0", "", None)
    else if k <= n <= 21 then Spelling(d.neg, d.digits + Zeros(n - k), "", None)
    else if 0 < n <= 21 then Spelling(d.neg, d.digits[..n], d.digits[n..], None)
    else if -6 < n <= 0 then Spelling(d.neg, "0", Zeros(-n) + d.digits, None)
    else Spelling(d.neg, d.digits[..1], d.digits[1..],
                  Some(if n > 0 then ('+', InDigits(n - 1)) else ('-', InDigits(1 - n))))
  }

  lemma {:induction false} LaidOutValid(d: Decimal)
    requires Normal(d)
    ensures LaidOut(d).Valid()
  {
  }

  lemma {:induction false} TrimEndOf(digits: string, z: nat)
    requires IsShortest(digits) && digits != ""
    ensures TrimEnd(digits + Zeros(z)) == digits
    decreases z
  {
    var s := digits + Zeros(z);
    if z > 0 {
      assert s[..|s| - 1] == digits + Zeros(z - 1);
      TrimEndOf(digits, z - 1);
    } else {
      assert s == digits;
    }
  }

  lemma {:induction false} SignificantOf(before: nat, digits: string, after: nat)
    requires IsShortest(digits) && digits != ""
    ensures Significant(Zeros(before) + digits + Zeros(after)) == digits
    ensures LeadingZeros(Zeros(before) + digits + Zeros(after)) == before
  {
    var s := Zeros(before) + digits + Zeros(after);
    LeadingOnly(before, digits, Zeros(after));
    assert s[before..] == digits + Zeros(after);
    TrimEndOf(digits, after);
  }

  lemma {:induction false} LeadingOnly(z: nat, digits: string, rest: string)
    requires IsShortest(digits) && digits != ""
    ensures LeadingZeros(Zeros(z) + digits + rest) == z
    decreases z
  {
    var s := Zeros(z) + digits + rest;
    if z > 0 {
      assert s[1..] == Zeros(z - 1) + digits + rest;
      LeadingOnly(z - 1, digits, rest);
    } else {
      assert s[0] == digits[0];
    }
  }

  ghost predicate SameValue(d: Decimal, e: Decimal) {
    d == e || (d.digits == "" && e.digits == "")
  }

  /** Laying out changes how a decimal is written, not what it denotes. */
  lemma {:induction false} LayoutDenotes(d: Decimal)
    requires Normal(d)
    ensures LaidOut(d).Valid() && IsLiteral(LaidOut(d).Text())
    ensures SameValue(Denoted(LaidOut(d).Text()), d)
  {
    LaidOutValid(d);
    SpellingDenotes(LaidOut(d));
    LayoutValue(d);
  }

  lemma {:induction false} PaddedValue(r: Reading, before: nat, digits: string, after: nat)
    requires IsShortest(digits) && digits != "" && r.whole + r.fraction == Zeros(before) + digits + Zeros(after)
    ensures r.Value() == Decimal(r.neg, digits, |r.whole| + r.exponent - before)
  {
    SignificantOf(before, digits, after);
  }

  lemma {:induction false} ZeroValue(r: Reading)
    requires r.whole == "0" && r.fraction == ""
    ensures r.Value().digits == ""
  {
    var all := r.whole + r.fraction;
    assert all == "0" && all[1..] == "";
    assert LeadingZeros(all) == 1;
  }

  lemma {:induction false} PaddedRight(r: Reading, digits: string, after: nat)
    requires IsShortest(digits) && digits != "" && r.whole + r.fraction == digits + Zeros(after)
    ensures r.Value() == Decimal(r.neg, digits, |r.whole| + r.exponent)
  {
    assert Zeros(0) + digits + Zeros(after) == digits + Zeros(after);
    PaddedValue(r, 0, digits, after);
  }

  lemma {:induction false} PaddedLeft(r: Reading, before: nat, digits: string)
    requires IsShortest(digits) && digits != "" && r.whole + r.fraction == Zeros(before) + digits
    ensures r.Value() == Decimal(r.neg, digits, |r.whole| + r.exponent - before)
  {
    assert Zeros(before) + digits + Zeros(0) == Zeros(before) + digits;
    PaddedValue(r, before, digits, 0);
  }

  lemma {:induction false} SplitDigits(digits: string, n: nat)
    requires n <= |digits|
    ensures digits[..n] + digits[n..] == digits + Zeros(0)
  {
  }

  function LaidOutReading(d: Decimal): Reading
    requires Normal(d)
  {
    LaidOutValid(d);
    Reading(LaidOut(d).neg, LaidOut(d).whole, LaidOut(d).fraction, SpelledExponent(LaidOut(d)))
  }

  lemma {:induction false} LayoutSmall(d: Decimal)
    requires Normal(d) && d.digits != "" && -6 < d.point <= 0
    ensures LaidOutReading(d).Value() == d
  {
    assert "0" + (Zeros(-d.point) + d.digits) == Zeros(1 - d.point) + d.digits;
    PaddedLeft(LaidOutReading(d), 1 - d.point, d.digits);
  }

  lemma {:induction false} LayoutWhole(d: Decimal)
    requires Normal(d) && d.digits != "" && |d.digits| <= d.point <= 21
    ensures LaidOutReading(d).Value() == d
  {
    var z := d.point - |d.digits|;
    assert d.digits + Zeros(z) + "" == d.digits + Zeros(z);
    PaddedRight(LaidOutReading(d), d.digits, z);
  }

  lemma {:induction false} LayoutOther(d: Decimal)
    requires Normal(d) && d.digits != "" && !(-6 < d.point <= 0) && !(|d.digits| <= d.point <= 21)
    ensures LaidOutReading(d).Value() == d
  {
    SplitDigits(d.digits, if 0 < d.point <= 21 then d.point else 1);
    PaddedRight(LaidOutReading(d), d.digits, 0);
  }

  lemma {:induction false} LayoutValue(d: Decimal)
    requires Normal(d)
    ensures SameValue(LaidOutReading(d).Value(), d)
  {
    if d.digits == "" {
      ZeroValue(LaidOutReading(d));
    } else if -6 < d.point <= 0 {
      LayoutSmall(d);
    } else if |d.digits| <= d.point <= 21 {
      LayoutWhole(d);
    } else {
      LayoutOther(d);
    }
  }

  // ----- the form of a layout, by its characters alone -----

  /** How section 3.2.2.3 of RFC 8785 writes k digits with the point after n of them,
      sign aside: the digits and zeros up to twenty-one places, a point among the digits,
      zeros before them down to a millionth, and otherwise one digit before the point and
      an exponent without leading zeros. */
  ghost predicate WellLaid(s: string, k: nat, n: int) {
    if k == 0 then s == "0"
    else if 21 < n || n <= -6 then Scientific(s, if k == 1 then 1 else k + 1, n)
    else if n <= 0 then |s| == 2 - n + k && Starts0(s) && AllDigits(s[2..])
    else if n < k then |s| == k + 1 && AllDigits(s[..n]) && s[n] == '.' && AllDigits(s[n + 1..])
    else |s| == n && AllDigits(s)
  }

  // A digit, perhaps a point and more digits, and at place e an exponent of n - 1.
  ghost predicate Scientific(s: string, e: nat, n: int) {
    && |s| > e + 2 && s[e] == 'e' && s[e + 1] == (if n > 0 then '+' else '-')
    && (e > 1 ==> s[1] == '.') && IsDigit(s[0]) && s[0] != '0'
    && AllDigits(s[e + 2..]) && s[e + 2] != '0' && Number(s[e + 2..]) == (if n > 0 then n - 1 else 1 - n)
  }

  predicate Starts0(s: string) {
    |s| > 1 && s[0] == '0' && s[1] == '.'
  }

  lemma {:induction false} InDigitsLeads(n: nat)
    requires n > 0
    ensures InDigits(n)[0] != '0'
  {
    if n >= 10 {
      InDigitsLeads(n / 10);
      assert InDigits(n) == InDigits(n / 10) + [DigitOf(n % 10)];
    }
  }

  lemma {:induction false} ExponentPlace(sp: Spelling)
    requires sp.exponent.Some?
    ensures var e, s := |sp.whole| + |sp.FractionText()|, sp.Plain();
      && |s| == e + 2 + |sp.exponent.value.1|
      && s[e] == 'e' && s[e + 1] == sp.exponent.value.0 && s[e + 2..] == sp.exponent.value.1
  {
    var e, s, t := |sp.whole| + |sp.FractionText()|, sp.Plain(), sp.ExponentText();
    Joined(sp.whole, sp.FractionText(), t);
    assert s[e..] == t;
    assert t[2..] == sp.exponent.value.1;
    TailOf(s, e, t);
  }

  lemma {:induction false} TailOf(s: string, e: nat, t: string)
    requires e <= |s| && s[e..] == t && |t| >= 2
    ensures s[e] == t[0] && s[e + 1] == t[1] && s[e + 2..] == t[2..]
  {
  }

  lemma {:induction false} ScientificForm(sp: Spelling, power: nat, n: int)
    requires sp.Valid() && |sp.whole| == 1 && sp.whole[0] != '0' && power > 0
    requires sp.exponent == Some((if n > 0 then '+' else '-', InDigits(power)))
    requires power == if n > 0 then n - 1 else 1 - n
    ensures Scientific(sp.Plain(), 1 + |sp.FractionText()|, n)
  {
    InDigitsLeads(power);
    ExponentPlace(sp);
    var s, e := sp.Plain(), 1 + |sp.FractionText()|;
    assert s[e + 2] == s[e + 2..][0];
    assert s[0] == sp.whole[0];
    if e > 1 {
      PointPlace(sp);
    }
  }

  lemma {:induction false} ExponentLaid(d: Decimal)
    requires Normal(d) && d.digits != "" && (21 < d.point || d.point <= -6)
    ensures WellLaid(LaidOut(d).Plain(), |d.digits|, d.point)
  {
    var n, sp := d.point, LaidOut(d);
    assert |sp.FractionText()| == if |d.digits| == 1 then 0 else |d.digits|;
    ScientificForm(sp, if n > 0 then n - 1 else 1 - n, n);
  }

  lemma {:induction false} PointPlace(sp: Spelling)
    requires sp.fraction != ""
    ensures |sp.Plain()| > |sp.whole| && sp.Plain()[|sp.whole|] == '.'
  {
  }

  lemma {:induction false} PlainLaid(d: Decimal)
    requires Normal(d) && d.digits != "" && -6 < d.point <= 21
    ensures WellLaid(LaidOut(d).Plain(), |d.digits|, d.point)
  {
    var sp := LaidOut(d);
    assert sp.ExponentText() == "";
    assert sp.Plain() == sp.whole + sp.FractionText();
    if d.point <= 0 {
      assert sp.Plain()[2..] == sp.fraction;
    } else if d.point < |d.digits| {
      assert sp.Plain()[..d.point] == sp.whole && sp.Plain()[d.point + 1..] == sp.fraction;
    }
  }

  /** The layout writes a decimal in the one form the standard has for it. */
  lemma {:induction false} LayoutForm(d: Decimal)
    requires Normal(d)
    ensures WellLaid(Magnitude(LaidOut(d).Text()), |d.digits|, d.point)
    ensures Negative(LaidOut(d).Text()) <==> d.neg && d.digits != ""
  {
    LaidOutValid(d);
    SpellingParts(LaidOut(d));
    if d.digits == "" {
    } else if 21 < d.point || d.point <= -6 {
      ExponentLaid(d);
    } else {
      PlainLaid(d);
    }
  }

  // ----- canonical numbers -----

  /** The digits of the nearest double: its shortest decimal form, or none where the
      literal overflows. Printing and reading back give the same double. */
  ghost predicate ShortestRoundTrip(shortest: Decimal -> Option<Decimal>) {
    && (forall d :: shortest(d).Some? ==>
          Normal(shortest(d).value) && shortest(shortest(d).value) == shortest(d))
    && forall d: Decimal :: d.digits == "" ==> shortest(d).Some? && shortest(d).value.digits == ""
  }

  /** The canonical text of a number, if the nearest double keeps all its digits. */
  function CanonicalNumber(raw: string, shortest: Decimal -> Option<Decimal>): Option<string>
    requires ShortestRoundTrip(shortest)
  {
    if !IsLiteral(raw) then None
    else
      var s := shortest(Denoted(raw));
      if s.None? || Denoted(raw).digits != s.value.digits then None else Some(LaidOut(s.value).Text())
  }

  /** A canonical number is a literal for the same double, and is its own canonical
      form. */
  lemma {:induction false} CanonicalNumberStable(raw: string, shortest: Decimal -> Option<Decimal>)
    requires ShortestRoundTrip(shortest) && CanonicalNumber(raw, shortest).Some?
    ensures var text := CanonicalNumber(raw, shortest).value;
      && IsLiteral(text) && CanonicalNumber(text, shortest) == Some(text)
      && SameValue(shortest(Denoted(text)).value, shortest(Denoted(raw)).value)
      && LaidOut(shortest(Denoted(raw)).value).Text() == text
  {
    LayoutDenotes(shortest(Denoted(raw)).value);
  }

  /** A literal in the form the standard has for what it denotes. */
  ghost predicate WellLaidNumber(raw: string) {
    && IsLiteral(raw)
    && WellLaid(Magnitude(raw), |Denoted(raw).digits|, Denoted(raw).point)
    && (Denoted(raw).digits == "" ==> !Negative(raw))
  }

  /** The canonical text is in that form and has exactly the literal's digits; there is one
      if and only if the nearest double has those digits. */
  lemma {:induction false} CanonicalNumberForm(raw: string, shortest: Decimal -> Option<Decimal>)
    requires ShortestRoundTrip(shortest)
    ensures CanonicalNumber(raw, shortest).Some? <==>
      IsLiteral(raw) && shortest(Denoted(raw)).Some? && shortest(Denoted(raw)).value.digits == Denoted(raw).digits
    ensures CanonicalNumber(raw, shortest).Some? ==>
      var text := CanonicalNumber(raw, shortest).value;
      WellLaidNumber(text) && Denoted(text).digits == Denoted(raw).digits
  {
    if CanonicalNumber(raw, shortest).Some? {
      LayoutDenotes(shortest(Denoted(raw)).value);
      LayoutForm(shortest(Denoted(raw)).value);
    }
  }
}
