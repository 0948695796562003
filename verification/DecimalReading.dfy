/** Which texts are decimal literals, and what number a literal reads as. */
module DecimalReading {
  import opened Decimals
  import opened DecimalText

  // ---------------------------------------------------------------- which texts are literals

  predicate IsSignText(sign: string) {
    sign == "" || sign == "+" || sign == "-"
  }

  /** The text of an exponent; its mark may be either letter. */
  predicate WritesExponent(text: string, e: Exponent) {
    match e
    case NoExponent => text == ""
    case Exponent(sign, digits) =>
      IsSignText(sign) && digits != "" && (text == "e" + sign + digits || text == "E" + sign + digits)
  }

  /** The text is exactly these pieces, one after the other. */
  predicate Writes(text: string, p: Parts, exponent: string) {
    && IsSignText(p.sign) && (!p.point ==> p.fraction == "") && WritesExponent(exponent, p.exponent)
    && text == p.sign + p.whole + (if p.point then "." + p.fraction else "") + exponent
  }

  lemma {:induction false} DigitsOnly(s: string)
    requires DigitCount(s) == |s|
    ensures AllDigits(s)
  {
    if s != "" {
      DigitsOnly(s[1..]);
    }
  }

  lemma SignThen(sign: string, rest: string)
    requires IsSignText(sign) && (rest == "" || (rest[0] != '+' && rest[0] != '-'))
    ensures SignOf(sign + rest) == sign && (sign + rest)[|sign|..] == rest
  {
    if sign == "" {
      assert sign + rest == rest;
    }
  }

  lemma ExponentWritten(text: string, e: Exponent)
    requires WritesExponent(text, e)
    ensures ScanExponent(text) == Some(e) && (text == "" || text[0] == 'e' || text[0] == 'E')
  {
    if e.Exponent? {
      assert text[1..] == e.sign + e.digits;
      SignThen(e.sign, e.digits);
      assert text[1 + |e.sign|..] == e.digits;
      DigitsEnd(e.digits, "");
      assert e.digits + "" == e.digits;
    }
  }

  lemma ScannedExponent(text: string)
    requires ScanExponent(text).Some?
    ensures WritesExponent(text, ScanExponent(text).value)
  {
    if text != "" {
      var sign := SignOf(text[1..]);
      var digits := text[1 + |sign|..];
      DigitsOnly(digits);
      assert text == [text[0]] + sign + digits;
    }
  }

  lemma TailWritten(tail: string, point: bool, fraction: Numeral, exponent: string)
    requires tail == (if point then "." + fraction else "") + exponent && (!point ==> fraction == "")
    requires exponent == "" || exponent[0] == 'e' || exponent[0] == 'E'
    ensures point <==> tail != "" && tail[0] == '.'
    ensures tail == "" || !IsDigit(tail[0])
    ensures point ==> tail[1..] == fraction + exponent && DigitCount(tail[1..]) == |fraction| &&
                      tail[1..][..|fraction|] == fraction && tail[1..][|fraction|..] == exponent
    ensures !point ==> tail == exponent
  {
    if point {
      assert tail[1..] == fraction + exponent;
      DigitsEnd(fraction, exponent);
    }
  }

  lemma Regroup(sign: string, whole: string, point: string, exponent: string)
    ensures sign + whole + point + exponent == sign + (whole + (point + exponent))
  {
  }

  /** Scanning, piece by piece. */
  lemma ScanPieces(text: string, p: Parts, a: string, tail: string, exponent: string)
    requires SignOf(text) == p.sign && text[|p.sign|..] == a
    requires DigitCount(a) == |p.whole| && a[..|p.whole|] == p.whole && a[|p.whole|..] == tail
    requires p.point <==> tail != "" && tail[0] == '.'
    requires if p.point then DigitCount(tail[1..]) == |p.fraction| && tail[1..][..|p.fraction|] == p.fraction &&
                             tail[1..][|p.fraction|..] == exponent
             else p.fraction == "" && exponent == tail
    requires ScanExponent(exponent) == Some(p.exponent)
    ensures Scan(text) == Some(p)
  {
    assert tail[0..] == tail;
  }

  lemma WrittenIsScanned(text: string, p: Parts, exponent: string)
    requires Writes(text, p, exponent)
    ensures Scan(text) == Some(p)
  {
    var point := if p.point then "." + p.fraction else "";
    var tail := point + exponent;
    var a := p.whole + tail;
    ExponentWritten(exponent, p.exponent);
    TailWritten(tail, p.point, p.fraction, exponent);
    Regroup(p.sign, p.whole, point, exponent);
    SignThen(p.sign, a);
    DigitsEnd(p.whole, tail);
    ScanPieces(text, p, a, tail, exponent);
  }

  lemma Split(s: string, n: nat)
    requires n <= |s|
    ensures s == s[..n] + s[n..]
  {
  }

  lemma ScannedTail(p: Parts, tail: string, exponent: string)
    requires if p.point then tail != "" && tail[0] == '.' && |p.fraction| <= |tail[1..]| &&
                             tail[1..][..|p.fraction|] == p.fraction && tail[1..][|p.fraction|..] == exponent
             else p.fraction == "" && exponent == tail
    ensures tail == (if p.point then "." + p.fraction else "") + exponent
  {
    if p.point {
      Split(tail[1..], |p.fraction|);
      assert tail == "." + tail[1..];
    }
  }

  /** The pieces are cut out of the text in order. */
  predicate Cut(text: string, p: Parts, a: string, tail: string, exponent: string) {
    && |p.sign| <= |text| && text[..|p.sign|] == p.sign && text[|p.sign|..] == a
    && |p.whole| <= |a| && a[..|p.whole|] == p.whole && a[|p.whole|..] == tail
    && (if p.point then tail != "" && tail[0] == '.' && |p.fraction| <= |tail[1..]| &&
                        tail[1..][..|p.fraction|] == p.fraction && tail[1..][|p.fraction|..] == exponent
        else p.fraction == "" && exponent == tail)
  }

  lemma ScanCuts(text: string) returns (a: string, tail: string, exponent: string)
    requires Scan(text).Some?
    ensures Cut(text, Scan(text).value, a, tail, exponent)
    ensures ScanExponent(exponent) == Some(Scan(text).value.exponent) && IsSignText(Scan(text).value.sign)
  {
    var p := Scan(text).value;
    a := text[|p.sign|..];
    tail := a[|p.whole|..];
    exponent := if p.point then tail[1..][|p.fraction|..] else tail;
    assert tail[0..] == tail;
  }

  lemma CutIsWritten(text: string, p: Parts, a: string, tail: string, exponent: string)
    requires Cut(text, p, a, tail, exponent) && ScanExponent(exponent) == Some(p.exponent) && IsSignText(p.sign)
    ensures Writes(text, p, exponent)
  {
    ScannedExponent(exponent);
    ScannedTail(p, tail, exponent);
    Split(text, |p.sign|);
    Split(a, |p.whole|);
    Regroup(p.sign, p.whole, if p.point then "." + p.fraction else "", exponent);
  }

  /** Scanning succeeds exactly on the texts that are written from pieces, and finds those pieces. */
  lemma ScanInverts(text: string, p: Parts)
    ensures Scan(text) == Some(p) <==> exists exponent :: Writes(text, p, exponent)
  {
    if Scan(text) == Some(p) {
      var a, tail, exponent := ScanCuts(text);
      CutIsWritten(text, p, a, tail, exponent);
    }
    if exponent :| Writes(text, p, exponent) {
      WrittenIsScanned(text, p, exponent);
    }
  }

  // ---------------------------------------------------------------- which literals are accepted

  /** An identity decimal: no plus sign, no leading zero, no bare point. */
  predicate IsIdentity(text: string, p: Parts, exponent: string) {
    && Writes(text, p, exponent) && p.sign != "+" && p.whole != ""
    && (p.whole == "0" || p.whole[0] != '0') && (p.point ==> p.fraction != "")
  }

  lemma IdentityIsGrammar(text: string)
    ensures (exists p, exponent :: IsIdentity(text, p, exponent)) <==> Scan(text).Some? && IdentityGrammar(Scan(text).value)
    ensures forall p, exponent :: IsIdentity(text, p, exponent) ==> Scan(text) == Some(p)
  {
    forall p, exponent | IsIdentity(text, p, exponent)
      ensures Scan(text) == Some(p)
    {
      ScanInverts(text, p);
    }
    if Scan(text).Some? && IdentityGrammar(Scan(text).value) {
      ScanInverts(text, Scan(text).value);
      var exponent :| Writes(text, Scan(text).value, exponent);
      assert IsIdentity(text, Scan(text).value, exponent);
    }
  }

  /** The canonical form exists exactly for identity decimals of bounded length and exponent. */
  lemma CanonicalAccepts(text: string)
    ensures Canonical(text).Malformed? <==> !exists p, exponent :: IsIdentity(text, p, exponent)
    ensures Canonical(text).Ok? <==>
            exists p, exponent :: IsIdentity(text, p, exponent) && |text| <= 1024 &&
                                  (p.exponent.Exponent? ==> |p.exponent.digits| <= 4 && Number(p.exponent.digits) <= 1024)
  {
    IdentityIsGrammar(text);
    if p, exponent :| IsIdentity(text, p, exponent) {
      assert Scan(text) == Some(p);
    }
  }

  /** What the exponent adds to the power of ten. */
  function Shift(e: Exponent): int {
    match e
    case NoExponent => 0
    case Exponent(sign, digits) => if sign == "-" then 0 - Number(digits) else Number(digits)
  }

  /** The reader takes any literal with a digit, within its three bounds. */
  lemma ParseAccepts(text: string, p: Parts, exponent: string)
    requires Writes(text, p, exponent)
    ensures ParseDecimal(text).Malformed? <==> p.whole == "" && p.fraction == ""
    ensures ParseDecimal(text).Ok? <==>
            && (p.whole != "" || p.fraction != "")
            && |WithoutLeadingZeros(p.whole + p.fraction)| <= 4000
            && (p.exponent.Exponent? ==> |WithoutLeadingZeros(p.exponent.digits)| <= 4)
            && -4096 <= Shift(p.exponent) - |p.fraction| <= 4096
  {
    ScanInverts(text, p);
  }

  // ---------------------------------------------------------------- what a literal reads as

  lemma {:induction false} ScaledUp(x: real, n: nat)
    ensures Scaled(x, n) == x * (Power(10, n) as real)
  {
    if n > 0 {
      ScaledUp(x, n - 1);
      var v := Power(10, n - 1) as real;
      assert Power(10, n) as real == 10.0 * v;
      assert 10.0 * (x * v) == x * (10.0 * v);
    }
  }

  lemma {:induction false} ScaledTwice(x: real, a: int, b: int)
    ensures Scaled(Scaled(x, a), b) == Scaled(x, a + b)
    decreases if b < 0 then -b else b
  {
    if b > 0 {
      ScaledTwice(x, a, b - 1);
      assert Scaled(x, a + b) == 10.0 * Scaled(x, a + b - 1);
    } else if b < 0 {
      ScaledTwice(x, a, b + 1);
      assert Scaled(x, a + b) == Scaled(x, a + b + 1) / 10.0;
    }
  }

  /** `u` is `digits` with the point before the last `places` of them and the exponent applied. */
  predicate IsMagnitude(u: real, digits: real, places: nat, e: Exponent) {
    match e
    case NoExponent => TenTimes(u, places) == digits
    case Exponent(sign, k) =>
      if sign == "-" then TenTimes(u, places + Number(k)) == digits
      else TenTimes(u, places) == TenTimes(digits, Number(k))
  }

  /** `x` times the `n`-th power of ten. */
  function TenTimes(x: real, n: nat): real {
    if n == 0 then x else 10.0 * TenTimes(x, n - 1)
  }

  lemma {:induction false} TenTimesIsScaled(x: real, n: nat)
    ensures TenTimes(x, n) == Scaled(x, n) == x * (Power(10, n) as real)
  {
    ScaledUp(x, n);
    if n > 0 {
      TenTimesIsScaled(x, n - 1);
    }
  }

  /** `r` is the number the digits write, with the sign, the point and the exponent applied. */
  predicate IsNumber(r: real, p: Parts) {
    AllDigits(p.whole + p.fraction) &&
    IsMagnitude(if p.sign == "-" then -r else r, Number(p.whole + p.fraction) as real, |p.fraction|, p.exponent)
  }

  lemma ValueIsMagnitude(c: real, places: nat, e: Exponent)
    ensures IsMagnitude(Scaled(c, ExponentOf(e) - places), c, places, e)
  {
    var u := Scaled(c, ExponentOf(e) - places);
    ScaledTwice(c, ExponentOf(e) - places, places);
    TenTimesIsScaled(u, places);
    if e.Exponent? {
      var k := Number(e.digits);
      ScaledTwice(c, ExponentOf(e) - places, places + k);
      TenTimesIsScaled(u, places + k);
      TenTimesIsScaled(c, k);
    }
  }

  lemma ValueIsNumber(p: Parts)
    ensures IsNumber(ValueOf(p), p)
  {
    assert AllDigits(p.whole + p.fraction);
    ValueIsMagnitude(Coefficient(p) as real, |p.fraction|, p.exponent);
  }

  /** Both readers take a literal for the number its pieces write; the canonical text is a literal for it too. */
  lemma LiteralsReadAsNumbers(text: string, p: Parts, exponent: string)
    requires Writes(text, p, exponent)
    ensures ParseDecimal(text).Ok? ==> IsNumber(ParseDecimal(text).value, p)
    ensures Canonical(text).Ok? ==>
              Scan(Canonical(text).value).Some? && IsNumber(ValueOf(Scan(Canonical(text).value).value), p)
  {
    ScanInverts(text, p);
    ValueIsNumber(p);
    BothRead(text, p);
  }

  lemma BothRead(text: string, p: Parts)
    requires Scan(text) == Some(p)
    ensures ParseDecimal(text).Ok? ==> ParseDecimal(text).value == ValueOf(p)
    ensures Canonical(text).Ok? ==>
              Scan(Canonical(text).value).Some? && ValueOf(Scan(Canonical(text).value).value) == ValueOf(p)
  {
    if Canonical(text).Ok? {
      var q := CanonicalKeepsValue(text);
    }
  }

  /** The text of `t` with an exponent behind it. */
  function WithExponent(t: string, sign: string, k: nat): string {
    t + ("e" + sign + Digits(k))
  }

  lemma AddsExponent(t: string, p: Parts, sign: string, k: nat)
    requires Writes(t, p, "") && IsSignText(sign)
    ensures Writes(WithExponent(t, sign, k), p.(exponent := Exponent(sign, Digits(k))), "e" + sign + Digits(k))
  {
    assert t + "" == t;
    assert p.sign + p.whole + (if p.point then "." + p.fraction else "") + "" ==
           p.sign + p.whole + (if p.point then "." + p.fraction else "");
  }

  /** An exponent shifts the value of the literal in front of it: down with a minus sign, up with a plus or without a sign. */
  lemma ExponentsShift(t: string, sign: string, k: nat)
    requires Scan(t).Some? && Scan(t).value.exponent.NoExponent? && IsSignText(sign)
    ensures var v, shift := ValueOf(Scan(t).value), if sign == "-" then 0 - k else k;
            var text := WithExponent(t, sign, k);
            && Scan(text).Some?
            && (ParseDecimal(text).Ok? ==> ParseDecimal(text).value == Scaled(v, shift))
            && (Canonical(text).Ok? ==>
                  Scan(Canonical(text).value).Some? &&
                  ValueOf(Scan(Canonical(text).value).value) == Scaled(v, shift))
  {
    var p := Scan(t).value;
    ScanInverts(t, p);
    var exponent :| Writes(t, p, exponent);
    AddsExponent(t, p, sign, k);
    var q, text := p.(exponent := Exponent(sign, Digits(k))), WithExponent(t, sign, k);
    ScanInverts(text, q);
    ShiftedValue(p, q, sign, k);
    BothRead(text, q);
  }

  lemma ShiftedValue(p: Parts, q: Parts, sign: string, k: nat)
    requires p.exponent.NoExponent? && q == p.(exponent := Exponent(sign, Digits(k)))
    ensures ValueOf(q) == Scaled(ValueOf(p), if sign == "-" then 0 - k else k)
  {
    var shift := if sign == "-" then 0 - k else k;
    var c := Coefficient(p) as real;
    DigitsSpell(k);
    ScaledTwice(c, 0 - |p.fraction|, shift);
    SignedScaled(p.sign == "-", Scaled(c, 0 - |p.fraction|), shift);
  }

  lemma {:induction false} SignedScaled(negative: bool, x: real, e: int)
    ensures Scaled(Signed(negative, x), e) == Signed(negative, Scaled(x, e))
    decreases if e < 0 then -e else e
  {
    if e > 0 {
      SignedScaled(negative, x, e - 1);
    } else if e < 0 {
      SignedScaled(negative, x, e + 1);
    }
  }

  lemma ExampleDigits()
    ensures Number("3") == 3 && Number("125") == 125 && Digits(125) == "125"
  {
    assert "125"[..2] == "12" && "12"[..1] == "1" && "1"[..0] == "" && "3"[..0] == "";
    assert Number("3") == 3 && Number("1") == 1;
    assert Number("12") == 12;
    assert Digits(1) == "1" && Digits(12) == "12";
  }

  lemma ExampleIsWritten(text: string, p: Parts)
    requires text == "-12.5e-3" && p == Parts("-", "12", true, "5", Exponent("-", "3"))
    ensures Scan(text) == Some(p)
  {
    assert Writes(text, p, "e-3");
    ScanInverts(text, p);
  }

  lemma ExampleSpelling()
    ensures SpellSigned(true, 125, -4) == "-0.0125"
  {
    ExampleDigits();
    SpellPointed(125, -4);
    assert Zeros(1) == Zeros(0) + "0" == "0";
    assert PointedAt("125", -1) == "0." + "0" + "125" == "0.0125";
    assert "-" + "0.0125" == "-0.0125";
  }

  lemma ExampleValue(p: Parts)
    requires p == Parts("-", "12", true, "5", Exponent("-", "3"))
    ensures Coefficient(p) == 125 && PowerOf(p) == -4 && ValueOf(p) == -0.0125
  {
    ExampleDigits();
    assert p.whole + p.fraction == "125";
    assert Value(125, -1) == 12.5;
    assert Value(125, -2) == 1.25;
    assert Value(125, -3) == 0.125;
  }

  lemma ExampleFits(p: Parts)
    requires p == Parts("-", "12", true, "5", Exponent("-", "3"))
    ensures LexerFits(p) && LexerGrammar(p) && IdentityGrammar(p) && ExponentFits(p.exponent)
  {
    ExampleValue(p);
    ExampleDigits();
    assert p.whole + p.fraction == "125";
  }

  /** One literal with a sign, a point and a negative exponent: its value, and its canonical text. */
  lemma ExampleReads(text: string)
    requires text == "-12.5e-3"
    ensures ParseDecimal(text) == Ok(-0.0125)
    ensures Canonical(text) == Ok("-0.0125")
  {
    var p := Parts("-", "12", true, "5", Exponent("-", "3"));
    ExampleIsWritten(text, p);
    ExampleFits(p);
    ExampleValue(p);
    ExampleSpelling();
  }
}
