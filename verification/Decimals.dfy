/** Exact decimal text: one spelling for each value, and what reading it back gives. */
module Decimals {
  datatype Option<+T> = None | Some(value: T)

  const MAX_TEXT: nat := 1024
  const MAX_IDENTITY_EXPONENT: nat := 1024
  const MAX_EXPONENT: nat := 4096
  const MAX_MANTISSA_DIGITS: nat := 4000

  // ---------------------------------------------------------------- digits

  predicate IsDigit(c: char) { '0' <= c <= '9' }

  predicate AllDigits(s: string) { forall i :: 0 <= i < |s| ==> IsDigit(s[i]) }

  /** Digits only, perhaps none. */
  type Numeral = s: string | AllDigits(s)

  function DigitOf(c: char): (d: nat)
    requires IsDigit(c)
    ensures d < 10
  {
    c as int - '0' as int
  }

  function CharOf(d: nat): (c: char)
    requires d < 10
    ensures IsDigit(c) && DigitOf(c) == d
  {
    ('0' as int + d) as char
  }

  /** The integer a digit string spells; the empty string spells zero. */
  function Number(s: Numeral): nat {
    if s == "" then 0 else 10 * Number(s[..|s| - 1]) + DigitOf(s[|s| - 1])
  }

  /** The shortest spelling of an integer. */
  function Digits(n: nat): (s: string)
    ensures s != "" && AllDigits(s)
    ensures n > 0 ==> s[0] != '0'
    ensures s[|s| - 1] == CharOf(n % 10)
  {
    if n < 10 then [CharOf(n)] else Digits(n / 10) + [CharOf(n % 10)]
  }

  function Zeros(n: nat): (s: string)
    ensures |s| == n && AllDigits(s)
    ensures forall i :: 0 <= i < n ==> s[i] == '0'
  {
    if n == 0 then "" else Zeros(n - 1) + "0"
  }

  lemma {:induction false} DigitsSpell(n: nat)
    ensures Number(Digits(n)) == n
  {
    if n >= 10 {
      DigitsSpell(n / 10);
      assert Digits(n)[..|Digits(n)| - 1] == Digits(n / 10);
    } else {
      assert Digits(n)[..0] == "";
    }
  }

  lemma {:induction false} LeadingZeros(n: nat, s: Numeral)
    ensures Number(Zeros(n) + s) == Number(s)
  {
    var t := Zeros(n) + s;
    if s != "" {
      LeadingZeros(n, s[..|s| - 1]);
      assert t[..|t| - 1] == Zeros(n) + s[..|s| - 1];
    } else if n > 0 {
      LeadingZeros(n - 1, "");
      assert t[..|t| - 1] == Zeros(n - 1) + "";
    }
  }

  // ---------------------------------------------------------------- values

  /** `x` times ten to the power `e`. */
  function Scaled(x: real, e: int): real
    decreases if e < 0 then -e else e
  {
    if e == 0 then x
    else if e > 0 then 10.0 * Scaled(x, e - 1)
    else Scaled(x, e + 1) / 10.0
  }

  function Value(c: nat, e: int): real {
    Scaled(c as real, e)
  }

  function Signed(negative: bool, value: real): real {
    if negative then -value else value
  }

  lemma {:induction false} ScaledTenTimes(x: real, e: int)
    ensures Scaled(10.0 * x, e) == 10.0 * Scaled(x, e)
    decreases if e < 0 then -e else e
  {
    if e > 0 {
      ScaledTenTimes(x, e - 1);
    } else if e < 0 {
      ScaledTenTimes(x, e + 1);
    }
  }

  /** A zero moves from the coefficient to the exponent without changing the value. */
  lemma ShiftKeepsValue(c: nat, e: int)
    ensures Value(10 * c, e - 1) == Value(c, e)
  {
    var x := c as real;
    assert (10 * c) as real == 10.0 * x;
    ScaledTenTimes(x, e - 1);
    assert Scaled(x, e) == 10.0 * Scaled(x, e - 1);
  }

  lemma {:induction false} ScaledGrows(x: real, y: real, e: int)
    requires x < y
    ensures Scaled(x, e) < Scaled(y, e)
    decreases if e < 0 then -e else e
  {
    if e > 0 {
      ScaledGrows(x, y, e - 1);
    } else if e < 0 {
      ScaledGrows(x, y, e + 1);
    }
  }

  lemma {:induction false} ScaledZero(e: int)
    ensures Scaled(0.0, e) == 0.0
    decreases if e < 0 then -e else e
  {
    if e > 0 {
      ScaledZero(e - 1);
    } else if e < 0 {
      ScaledZero(e + 1);
    }
  }

  lemma ZeroValue(c: nat, e: int)
    ensures Value(c, e) >= 0.0
    ensures Value(c, e) == 0.0 <==> c == 0
  {
    ScaledZero(e);
    if c > 0 {
      ScaledGrows(0.0, c as real, e);
    }
  }

  lemma {:induction false} TrailingZeros(s: Numeral, n: nat)
    ensures Value(Number(s + Zeros(n)), 0) == Value(Number(s), n)
    decreases n
  {
    if n > 0 {
      ShiftKeepsValue(Number(s), n);
      TrailingZeros(s + "0", n - 1);
      assert (s + "0")[..|s|] == s;
      ZerosCommute(n - 1);
      assert s + "0" + Zeros(n - 1) == s + Zeros(n);
    } else {
      assert s + Zeros(0) == s;
    }
  }

  lemma {:induction false} ZerosCommute(n: nat)
    ensures "0" + Zeros(n) == Zeros(n + 1)
  {
    if n > 0 {
      ZerosCommute(n - 1);
      assert "0" + Zeros(n) == ("0" + Zeros(n - 1)) + "0";
    }
  }

  // ---------------------------------------------------------------- spelling a value

  function StripZeros(s: string): string {
    if s != "" && s[|s| - 1] == '0' then StripZeros(s[..|s| - 1]) else s
  }

  function StripDots(s: string): string {
    if s != "" && s[|s| - 1] == '.' then StripDots(s[..|s| - 1]) else s
  }

  /** A fraction's digits around its point, before trailing zeros go. */
  function Pointed(c: nat, e: int): string
    requires e < 0
  {
    PointedAt(Digits(c), |Digits(c)| + e)
  }

  /** Digits with the point after the first `point` of them, or after a zero. */
  function PointedAt(d: string, point: int): string
    requires point <= |d|
  {
    if point > 0 then d[..point] + "." + d[point..] else "0." + Zeros(0 - point) + d
  }

  function Spell(c: nat, e: int): string {
    if e >= 0 then Digits(c) + Zeros(e) else StripDots(StripZeros(Pointed(c, e)))
  }

  function SpellSigned(negative: bool, c: nat, e: int): string {
    if c == 0 then "0" else (if negative then "-" else "") + Spell(c, e)
  }

  lemma DigitsOfTenTimes(c: nat)
    requires c > 0
    ensures Digits(10 * c) == Digits(c) + "0"
  {
  }

  lemma PointedShift(c: nat, e: int)
    requires c > 0 && e < 0
    ensures Pointed(10 * c, e - 1) == Pointed(c, e) + "0"
  {
    DigitsOfTenTimes(c);
    PointedAtShift(Digits(c), |Digits(c)| + e);
  }

  lemma PointedAtShift(d: string, point: int)
    requires point <= |d|
    ensures PointedAt(d + "0", point) == PointedAt(d, point) + "0"
  {
    if point > 0 {
      assert (d + "0")[..point] == d[..point] && (d + "0")[point..] == d[point..] + "0";
    }
  }

  lemma PointVanishes(d: string)
    requires d != "" && AllDigits(d)
    ensures StripDots(StripZeros(d + "." + "0")) == d
  {
    var body := d + "." + "0";
    assert body[..|body| - 1] == d + ".";
    assert StripZeros(body) == StripZeros(d + ".") == d + ".";
    assert (d + ".")[..|d|] == d;
    assert StripDots(d + ".") == StripDots(d);
  }

  /** Spelling does not see where the zeros are kept. */
  lemma SpellShift(c: nat, e: int)
    requires c > 0
    ensures Spell(10 * c, e - 1) == Spell(c, e)
  {
    DigitsOfTenTimes(c);
    var d := Digits(c);
    if e > 0 {
      ZerosCommute(e - 1);
      assert d + "0" + Zeros(e - 1) == d + Zeros(e);
    } else if e == 0 {
      assert (d + "0")[..|d|] == d && (d + "0")[|d|..] == "0";
      assert Pointed(10 * c, -1) == d + "." + "0";
      PointVanishes(d);
      assert d + Zeros(0) == d;
    } else {
      PointedShift(c, e);
      var body := Pointed(c, e);
      assert (body + "0")[..|body|] == body;
    }
  }

  lemma SameExponent(c: nat, d: nat, e: int)
    requires Value(c, e) == Value(d, e)
    ensures c == d
  {
    if c < d {
      ScaledGrows(c as real, d as real, e);
    } else if d < c {
      ScaledGrows(d as real, c as real, e);
    }
  }

  lemma OneDown(c: nat, e: int) returns (n: nat)
    requires c > 0
    ensures n > 0 && Value(n, e - 1) == Value(c, e) && Spell(n, e - 1) == Spell(c, e)
  {
    n := 10 * c;
    ShiftKeepsValue(c, e);
    SpellShift(c, e);
  }

  /** The same value can be kept at any smaller exponent. */
  lemma {:induction false} Lowered(c: nat, e: int, f: int) returns (n: nat)
    requires c > 0 && f <= e
    ensures n > 0 && Value(n, f) == Value(c, e) && Spell(n, f) == Spell(c, e)
    decreases e - f
  {
    if e == f {
      n := c;
    } else {
      var m := OneDown(c, e);
      n := Lowered(m, e - 1, f);
    }
  }

  /** Equal values have equal spellings. */
  lemma EqualValuesSpellAlike(c: nat, e: int, d: nat, f: int)
    requires c > 0 && d > 0 && Value(c, e) == Value(d, f)
    ensures Spell(c, e) == Spell(d, f)
  {
    var least := if e < f then e else f;
    var m := Lowered(c, e, least);
    var n := Lowered(d, f, least);
    SameExponent(m, n, least);
  }

  // ---------------------------------------------------------------- reading text

  datatype Exponent = NoExponent | Exponent(sign: string, digits: Numeral)

  /** The pieces of a decimal literal; a missing piece is empty. */
  datatype Parts = Parts(sign: string, whole: Numeral, point: bool, fraction: Numeral, exponent: Exponent)

  function DigitCount(s: string): (n: nat)
    ensures n <= |s| && AllDigits(s[..n]) && (n < |s| ==> !IsDigit(s[n]))
  {
    if s != "" && IsDigit(s[0]) then 1 + DigitCount(s[1..]) else 0
  }

  function SignOf(s: string): (r: string)
    ensures |r| <= |s| && s[..|r|] == r && |r| <= 1
  {
    if s != "" && (s[0] == '-' || s[0] == '+') then s[..1] else ""
  }

  function ScanExponent(s: string): (r: Option<Exponent>)
    ensures r.Some? && r.value.Exponent? ==> r.value.digits != ""
  {
    if s == "" then Some(NoExponent)
    else if s[0] != 'e' && s[0] != 'E' then None
    else
      var sign := SignOf(s[1..]);
      var digits := s[1 + |sign|..];
      if digits != "" && DigitCount(digits) == |digits| then Some(Exponent(sign, digits)) else None
  }

  /** Splits a literal; the whole text must be used. */
  function Scan(text: string): Option<Parts> {
    var sign := SignOf(text);
    var a := text[|sign|..];
    var w := DigitCount(a);
    var b := a[w..];
    var point := b != "" && b[0] == '.';
    var tail := if point then b[1..] else b;
    var f := if point then DigitCount(tail) else 0;
    var exponent := ScanExponent(tail[f..]);
    if exponent.None? then None else Some(Parts(sign, a[..w], point, tail[..f], exponent.value))
  }

  function ExponentOf(e: Exponent): int {
    match e
    case NoExponent => 0
    case Exponent(sign, digits) => if sign == "-" then 0 - Number(digits) else Number(digits)
  }

  function Coefficient(p: Parts): nat {
    assert AllDigits(p.whole + p.fraction);
    Number(p.whole + p.fraction)
  }

  function PowerOf(p: Parts): int {
    ExponentOf(p.exponent) - |p.fraction|
  }

  function ValueOf(p: Parts): real {
    Signed(p.sign == "-", Value(Coefficient(p), PowerOf(p)))
  }

  // ---------------------------------------------------------------- the canonical form

  /** No plus sign, no leading zero, no bare point. */
  predicate IdentityGrammar(p: Parts) {
    p.sign != "+" && p.whole != "" && (p.whole == "0" || p.whole[0] != '0') && (p.point ==> p.fraction != "")
  }

  predicate ExponentFits(e: Exponent) {
    e.Exponent? ==> |e.digits| <= 4 && Number(e.digits) <= MAX_IDENTITY_EXPONENT
  }

  datatype Outcome<+T> = Malformed | TooLarge | Ok(value: T)

  function Canonical(text: string): Outcome<string> {
    CanonicalOf(Scan(text), |text|)
  }

  function CanonicalOf(p: Option<Parts>, length: nat): Outcome<string> {
    if p.None? || !IdentityGrammar(p.value) then Malformed
    else if length > MAX_TEXT || !ExponentFits(p.value.exponent) then TooLarge
    else Ok(SpellSigned(p.value.sign == "-", Coefficient(p.value), PowerOf(p.value)))
  }

  /** At least one digit before or after the point. */
  predicate LexerGrammar(p: Parts) {
    p.whole != "" || p.fraction != ""
  }

  function WithoutLeadingZeros(s: string): string {
    if s != "" && s[0] == '0' then WithoutLeadingZeros(s[1..]) else s
  }

  predicate LexerFits(p: Parts) {
    |WithoutLeadingZeros(p.whole + p.fraction)| <= MAX_MANTISSA_DIGITS &&
    (p.exponent.Exponent? ==> |WithoutLeadingZeros(p.exponent.digits)| <= 4) &&
    PowerOf(p) <= MAX_EXPONENT && 0 - PowerOf(p) <= MAX_EXPONENT
  }

  function ParseDecimal(text: string): Outcome<real> {
    ParsedOf(Scan(text))
  }

  function ParsedOf(p: Option<Parts>): Outcome<real> {
    if p.None? || !LexerGrammar(p.value) then Malformed
    else if !LexerFits(p.value) then TooLarge
    else Ok(ValueOf(p.value))
  }

  // ---------------------------------------------------------------- reading back what was spelled

  lemma {:induction false} DigitsEnd(w: string, rest: string)
    requires AllDigits(w) && (rest == "" || !IsDigit(rest[0]))
    ensures DigitCount(w + rest) == |w|
  {
    if w == "" {
      assert w + rest == rest;
    } else {
      DigitsEnd(w[1..], rest);
      assert (w + rest)[1..] == w[1..] + rest;
    }
  }

  function Literal(sign: string, whole: string, fraction: string): string {
    sign + whole + (if fraction == "" then "" else "." + fraction)
  }

  lemma ScanLiteral(sign: string, whole: string, fraction: string)
    requires sign == "" || sign == "-"
    requires whole != "" && AllDigits(whole) && AllDigits(fraction)
    ensures Scan(Literal(sign, whole, fraction)) == Some(Parts(sign, whole, fraction != "", fraction, NoExponent))
  {
    var text := Literal(sign, whole, fraction);
    var tail := if fraction == "" then "" else "." + fraction;
    assert text == sign + whole + tail;
    assert IsDigit(text[|sign|]);
    assert SignOf(text) == sign;
    var a := text[|sign|..];
    assert a == whole + tail;
    DigitsEnd(whole, tail);
    assert a[..|whole|] == whole && a[|whole|..] == tail;
    if fraction != "" {
      assert tail[1..] == fraction;
      DigitsEnd(fraction, "");
      assert fraction + "" == fraction;
    }
  }

  /** The text is these whole digits and fraction digits, and they spell the value. */
  predicate Reads(text: string, value: real, whole: string, fraction: string) {
    whole != "" && AllDigits(whole) && AllDigits(fraction) && AllDigits(whole + fraction) &&
    (whole == "0" || whole[0] != '0') &&
    text == Literal("", whole, fraction) &&
    Value(Number(whole + fraction), 0 - |fraction|) == value
  }

  lemma LiteralWithPoint(whole: string, fraction: string)
    requires fraction != ""
    ensures Literal("", whole, fraction) == whole + "." + fraction
  {
    assert "" + whole + ("." + fraction) == whole + "." + fraction;
  }

  lemma SpellWhole(c: nat, e: nat) returns (whole: string, fraction: string)
    requires c > 0
    ensures Reads(Spell(c, e), Value(c, e), whole, fraction)
  {
    whole, fraction := Digits(c) + Zeros(e), "";
    DigitsSpell(c);
    TrailingZeros(Digits(c), e);
    assert whole + "" == whole;
    assert whole[0] == Digits(c)[0];
  }

  lemma NoZeroToStrip(s: string)
    requires s != "" && s[|s| - 1] != '0' && s[|s| - 1] != '.'
    ensures StripDots(StripZeros(s)) == s
  {
  }

  /** With a last digit that is not zero, nothing is stripped. */
  lemma SpellPointed(c: nat, e: int)
    requires c % 10 != 0 && e < 0
    ensures Spell(c, e) == Pointed(c, e)
  {
    var d, body := Digits(c), Pointed(c, e);
    assert body[|body| - 1] == d[|d| - 1];
    NoZeroToStrip(body);
  }

  lemma PointedReads(text: string, value: real, c: nat, whole: string, fraction: string)
    requires whole != "" && AllDigits(whole) && AllDigits(fraction) && fraction != "" && (whole == "0" || whole[0] != '0')
    requires text == whole + "." + fraction && AllDigits(whole + fraction) && Number(whole + fraction) == c
    requires value == Value(c, 0 - |fraction|)
    ensures Reads(text, value, whole, fraction)
  {
    LiteralWithPoint(whole, fraction);
  }

  lemma SpellMixed(c: nat, e: int) returns (whole: string, fraction: string)
    requires c % 10 != 0 && e < 0 && |Digits(c)| + e > 0
    ensures Reads(Spell(c, e), Value(c, e), whole, fraction) && |fraction| == 0 - e
  {
    var d := Digits(c);
    DigitsSpell(c);
    SpellPointed(c, e);
    whole, fraction := d[..|d| + e], d[|d| + e..];
    assert whole + fraction == d;
    PointedReads(Spell(c, e), Value(c, e), c, whole, fraction);
  }

  lemma OneMoreZero(n: nat, d: Numeral)
    ensures AllDigits("0" + (Zeros(n) + d)) && Number("0" + (Zeros(n) + d)) == Number(d)
  {
    ZerosCommute(n);
    assert "0" + (Zeros(n) + d) == Zeros(n + 1) + d;
    LeadingZeros(n + 1, d);
  }

  lemma SpellSmall(c: nat, e: int) returns (whole: string, fraction: string)
    requires c % 10 != 0 && e < 0 && |Digits(c)| + e <= 0
    ensures Reads(Spell(c, e), Value(c, e), whole, fraction) && |fraction| == 0 - e
  {
    var d := Digits(c);
    var n := 0 - (|d| + e);
    DigitsSpell(c);
    SpellPointed(c, e);
    OneMoreZero(n, d);
    whole, fraction := "0", Zeros(n) + d;
    assert "0." + Zeros(n) + d == whole + "." + fraction;
    PointedReads(Spell(c, e), Value(c, e), c, whole, fraction);
  }

  /** The form does not see a zero moving from the coefficient to the exponent. */
  predicate Shifts<T(==)>(form: (nat, int) -> T, c: nat, e: int) {
    form(10 * c, e - 1) == form(c, e)
  }

  /** The same number with no zero left at the end of its fraction. */
  lemma {:induction false} Trimmed<T>(form: (nat, int) -> T, c: nat, e: int) returns (n: nat, f: int)
    requires c > 0 && forall m: nat, k :: m > 0 ==> Shifts(form, m, k)
    ensures n > 0 && (f >= 0 || n % 10 != 0) && form(n, f) == form(c, e)
    decreases c
  {
    if e >= 0 || c % 10 != 0 {
      n, f := c, e;
    } else {
      assert Shifts(form, c / 10, e + 1);
      n, f := Trimmed(form, c / 10, e + 1);
    }
  }

  /** Every spelling reads back as digits with the same value. */
  lemma SpellSplits(c: nat, e: int, text: string, value: real) returns (whole: string, fraction: string)
    requires c > 0 && text == Spell(c, e) && value == Value(c, e)
    ensures Reads(text, value, whole, fraction)
  {
    var form := (m: nat, k: int) => (Spell(m, k), Value(m, k));
    forall m: nat, k | m > 0
      ensures Shifts(form, m, k)
    {
      ShiftKeepsValue(m, k);
      SpellShift(m, k);
    }
    var n, f := Trimmed(form, c, e);
    assert form(n, f) == form(c, e);
    if f >= 0 {
      whole, fraction := SpellWhole(n, f);
    } else if |Digits(n)| + f > 0 {
      whole, fraction := SpellMixed(n, f);
    } else {
      whole, fraction := SpellSmall(n, f);
    }
  }

  lemma LiteralSigned(sign: string, whole: string, fraction: string)
    ensures Literal(sign, whole, fraction) == sign + Literal("", whole, fraction)
  {
    var tail := if fraction == "" then "" else "." + fraction;
    assert sign + ("" + whole + tail) == sign + whole + tail;
  }

  lemma SpellSignedIs(negative: bool, c: nat, e: int, whole: string, fraction: string)
    requires c > 0 && Spell(c, e) == Literal("", whole, fraction)
    ensures SpellSigned(negative, c, e) == Literal(if negative then "-" else "", whole, fraction)
  {
    LiteralSigned(if negative then "-" else "", whole, fraction);
  }

  function PointParts(sign: string, whole: Numeral, fraction: Numeral): Parts {
    Parts(sign, whole, fraction != "", fraction, NoExponent)
  }

  lemma SignedReadsBack(sign: string, signed: string, text: string, value: real, whole: string, fraction: string)
    requires Reads(text, value, whole, fraction) && (sign == "" || sign == "-") && signed == sign + text
    ensures Scan(signed) == Some(PointParts(sign, whole, fraction)) && IdentityGrammar(PointParts(sign, whole, fraction))
  {
    ScanSigned(sign, signed, text, whole, fraction);
  }

  lemma SignedValue(sign: string, text: string, value: real, whole: string, fraction: string)
    requires Reads(text, value, whole, fraction) && (sign == "" || sign == "-")
    ensures ValueOf(PointParts(sign, whole, fraction)) == Signed(sign == "-", value)
  {
    ValueOfLiteral(PointParts(sign, whole, fraction), value);
  }

  lemma ScanSigned(sign: string, signed: string, text: string, whole: Numeral, fraction: Numeral)
    requires (sign == "" || sign == "-") && whole != ""
    requires text == Literal("", whole, fraction) && signed == sign + text
    ensures Scan(signed) == Some(PointParts(sign, whole, fraction))
  {
    SignedLiteral(sign, signed, text, whole, fraction);
    ScanLiteral(sign, whole, fraction);
  }

  lemma ValueOfLiteral(p: Parts, value: real)
    requires p.exponent.NoExponent? && AllDigits(p.whole + p.fraction)
    requires Value(Number(p.whole + p.fraction), 0 - |p.fraction|) == value
    ensures ValueOf(p) == Signed(p.sign == "-", value)
  {
  }

  lemma SignedLiteral(sign: string, signed: string, text: string, whole: string, fraction: string)
    requires text == Literal("", whole, fraction) && signed == sign + text
    ensures signed == Literal(sign, whole, fraction)
  {
    LiteralSigned(sign, whole, fraction);
  }

  lemma ZeroReadsBack(zero: string) returns (p: Parts)
    requires zero == "0"
    ensures Scan(zero) == Some(p) && IdentityGrammar(p) && p.exponent.NoExponent? && p.sign == ""
    ensures ValueOf(p) == 0.0
  {
    p := Parts("", zero, false, "", NoExponent);
    ScanLiteral("", zero, "");
    assert Literal("", zero, "") == zero;
    PartsOfZero(p);
  }

  lemma PartsOfZero(p: Parts)
    requires p.sign == "" && |p.whole| == 1 && p.whole[0] == '0' && p.fraction == "" && p.exponent.NoExponent?
    ensures ValueOf(p) == 0.0
  {
    assert p.whole + p.fraction == p.whole && p.whole[..0] == "";
    assert Number(p.whole) == 10 * Number("") + 0;
    ZeroValue(Coefficient(p), PowerOf(p));
  }

  /** A canonical spelling scans, in the strict grammar, to the value it spells. */
  lemma SpellingReadsBack(negative: bool, c: nat, e: int) returns (p: Parts)
    ensures Scan(SpellSigned(negative, c, e)) == Some(p) && IdentityGrammar(p)
    ensures p.exponent.NoExponent?
    ensures ValueOf(p) == Signed(negative, Value(c, e))
  {
    if c == 0 {
      ZeroValue(c, e);
      p := ZeroReadsBack("0");
    } else {
      p := NonzeroReadsBack(negative, c, e);
    }
  }

  lemma NonzeroReadsBack(negative: bool, c: nat, e: int) returns (p: Parts)
    requires c > 0
    ensures Scan(SpellSigned(negative, c, e)) == Some(p) && IdentityGrammar(p) && p.exponent.NoExponent?
    ensures ValueOf(p) == Signed(negative, Value(c, e))
  {
    var whole, fraction := SpellSplits(c, e, Spell(c, e), Value(c, e));
    SignThenSpell(negative, c, e);
    var sign := if negative then "-" else "";
    SignedReadsBack(sign, SpellSigned(negative, c, e), Spell(c, e), Value(c, e), whole, fraction);
    SignedValue(sign, Spell(c, e), Value(c, e), whole, fraction);
    p := PointParts(sign, whole, fraction);
  }

  lemma SignThenSpell(negative: bool, c: nat, e: int)
    requires c > 0
    ensures SpellSigned(negative, c, e) == (if negative then "-" else "") + Spell(c, e)
  {
  }

  // ---------------------------------------------------------------- the laws

  lemma SignedDecides(m: bool, c: nat, e: int, n: bool, d: nat, f: int)
    requires Signed(m, Value(c, e)) == Signed(n, Value(d, f))
    ensures SpellSigned(m, c, e) == SpellSigned(n, d, f)
  {
    ZeroValue(c, e);
    ZeroValue(d, f);
    if c > 0 && d > 0 {
      EqualValuesSpellAlike(c, e, d, f);
    }
  }

  /** The canonical text has the value of the text it came from. */
  lemma CanonicalKeepsValue(text: string) returns (p: Parts)
    requires Canonical(text).Ok?
    ensures Scan(Canonical(text).value) == Some(p) && IdentityGrammar(p) && p.exponent.NoExponent?
    ensures ValueOf(p) == ValueOf(Scan(text).value)
  {
    var q := Scan(text).value;
    p := SpellingReadsBack(q.sign == "-", Coefficient(q), PowerOf(q));
  }

  /** Two accepted texts have one canonical form exactly when they have one value. */
  lemma CanonicalDecidesEquality(a: string, b: string)
    requires Canonical(a).Ok? && Canonical(b).Ok?
    ensures Canonical(a) == Canonical(b) <==> ValueOf(Scan(a).value) == ValueOf(Scan(b).value)
  {
    var p, q := Scan(a).value, Scan(b).value;
    if ValueOf(p) == ValueOf(q) {
      SignedDecides(p.sign == "-", Coefficient(p), PowerOf(p), q.sign == "-", Coefficient(q), PowerOf(q));
    }
    if Canonical(a) == Canonical(b) {
      var x := CanonicalKeepsValue(a);
      var y := CanonicalKeepsValue(b);
    }
  }

  /** Every canonical spelling is its own canonical form, unless it is too long to be accepted. */
  lemma SpellingIsFixed(text: string, negative: bool, c: nat, e: int)
    requires text == SpellSigned(negative, c, e)
    ensures Canonical(text) == if |text| <= MAX_TEXT then Ok(text) else TooLarge
  {
    var p := SpellingReadsBack(negative, c, e);
    SignedDecides(negative, c, e, p.sign == "-", Coefficient(p), PowerOf(p));
    assert CanonicalOf(Some(p), |text|) == if |text| <= MAX_TEXT then Ok(text) else TooLarge;
  }

  /** Canonicalising twice is canonicalising once exactly when the result is no longer than the input limit. */
  lemma CanonicalTwice(text: string)
    requires Canonical(text).Ok?
    ensures Canonical(Canonical(text).value) == Canonical(text) <==> |Canonical(text).value| <= MAX_TEXT
    ensures |Canonical(text).value| > MAX_TEXT ==> Canonical(Canonical(text).value) == TooLarge
  {
    var p := Scan(text).value;
    SpellingIsFixed(Canonical(text).value, p.sign == "-", Coefficient(p), PowerOf(p));
  }

  lemma ExampleScans(text: string)
    requires text == "1e1024"
    ensures Scan(text) == Some(Parts("", "1", false, "", Exponent("", "1024")))
  {
    var tail := "e1024";
    assert text == "1" + tail && text[0..] == text && tail[0..] == tail;
    DigitsEnd("1", tail);
    assert text[..1] == "1" && text[1..] == tail;
    var digits := "1024";
    assert digits + "" == digits;
    DigitsEnd(digits, "");
    assert tail[1..] == digits && SignOf(digits) == "";
  }

  lemma ExampleNumbers()
    ensures Number("1") == 1 && Number("1024") == 1024
  {
    assert "1024"[..3] == "102" && "102"[..2] == "10" && "10"[..1] == "1" && "1"[..0] == "";
    assert Number("1") == 1;
    assert Number("10") == 10;
    assert Number("102") == 102;
  }

  /** A short accepted text whose canonical form is one character too long. */
  lemma CanonicalCanOutgrowItsLimit(text: string)
    requires text == "1e1024"
    ensures Canonical(text).Ok? && |Canonical(text).value| == 1025
    ensures Canonical(Canonical(text).value) == TooLarge
  {
    ExampleScans(text);
    ExampleNumbers();
    assert "1" + "" == "1";
    assert Canonical(text) == Ok(SpellSigned(false, 1, 1024));
    assert Spell(1, 1024) == "1" + Zeros(1024);
    CanonicalTwice(text);
  }
}
