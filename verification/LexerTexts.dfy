/** What the spellings of a DBC text read as: numbers, words, punctuation, strings, gaps, and each failure. */
module LexerTexts {
  import opened Decimals
  import opened DecimalText
  import opened DecimalReading
  import opened Lexer
  import Laws = LexerLaws

  // ---------------------------------------------------------------- numbers

  function SignedDigits(n: int, plus: bool): string {
    (if n < 0 then "-" else if plus then "+" else "") + Digits(if n < 0 then -n else n)
  }

  lemma IntegerText(n: int, plus: bool, digits: string, sign: string)
    requires digits == Digits(if n < 0 then -n else n) && sign == if n < 0 then "-" else if plus then "+" else ""
    ensures SignedDigits(n, plus) == sign + digits
    ensures SignOf(sign + digits) == sign && (sign + digits)[|sign|..] == digits
    ensures IsInteger(sign + digits) && IntegerOf(sign + digits) == n
  {
    DigitsSpell(if n < 0 then -n else n);
    SignThen(sign, digits);
  }

  lemma IntegerIsLiteral(raw: string)
    requires IsInteger(raw)
    ensures Laws.Literal(raw)
  {
    IntegersAreDecimals(raw);
    Laws.LiteralsAreDecimals(raw);
  }

  lemma ShortDigits(n: nat)
    ensures |WithoutLeadingZeros(Digits(n))| <= |Digits(n)|
  {
    DigitsSpell(n);
    LeadingZerosDoNotCount(Digits(n));
  }

  /** The spelling of an integer, with or without a plus, is read as that integer. */
  lemma IntegersAreRead(n: int, plus: bool, r: string, limit: nat)
    requires |Digits(if n < 0 then -n else n)| <= 4000 && Utf8Length(SignedDigits(n, plus)) <= limit && Laws.Ends(r)
    ensures Next(SignedDigits(n, plus) + r, limit) == Emit(Int, |SignedDigits(n, plus)|, Integer(n))
  {
    var digits, sign := Digits(if n < 0 then -n else n), if n < 0 then "-" else if plus then "+" else "";
    IntegerText(n, plus, digits, sign);
    IntegerIsLiteral(sign + digits);
    ShortDigits(if n < 0 then -n else n);
    Laws.TokenIsRead(Laws.Spelled(Int, sign + digits, Integer(n)), r, limit);
  }

  /** An integer literal has no point and no exponent. */
  lemma IntegerScans(raw: string, digits: Numeral)
    requires IsInteger(raw) && digits == raw[|SignOf(raw)|..]
    ensures Scan(raw) == Some(Parts(SignOf(raw), digits, false, "", NoExponent))
  {
    var p := Parts(SignOf(raw), digits, false, "", NoExponent);
    assert raw == p.sign + digits + "" + "";
    assert Writes(raw, p, "");
    WrittenIsScanned(raw, p, "");
  }

  lemma IntegerParts(sign: string, digits: Numeral, value: int)
    requires digits != "" && value == if sign == "-" then 0 - Number(digits) else Number(digits)
    ensures ParsedOf(Some(Parts(sign, digits, false, "", NoExponent))) ==
            if |WithoutLeadingZeros(digits)| <= 4000 then Ok(value as real) else TooLarge
  {
    assert digits + "" == digits;
    assert Value(Number(digits), 0) == Number(digits) as real;
    PartsParse(Parts(sign, digits, false, "", NoExponent), value as real);
  }

  /** The decimal reader gives an integer literal its integer, when its digits are within bounds. */
  lemma IntegersAreDecimals(raw: string)
    requires IsInteger(raw)
    ensures ParseDecimal(raw) ==
            if |WithoutLeadingZeros(raw[|SignOf(raw)|..])| <= 4000 then Ok(IntegerOf(raw) as real) else TooLarge
  {
    IntegerScans(raw, raw[|SignOf(raw)|..]);
    IntegerParts(SignOf(raw), raw[|SignOf(raw)|..], IntegerOf(raw));
  }

  /** Every integer token has the value that the decimal reader gives its spelling. */
  lemma IntegerTokensAreDecimals(raw: string, value: int, limit: nat)
    requires Laws.WellFormed(Laws.Spelled(Int, raw, Integer(value)), limit)
    ensures ParseDecimal(raw) == Ok(value as real)
  {
    IntegersAreDecimals(raw);
  }

  lemma {:induction false} Utf8OfAscii(s: string)
    ensures |s| <= Utf8Length(s) <= 4 * |s|
    ensures (forall i :: 0 <= i < |s| ==> s[i] < 128 as char) ==> Utf8Length(s) == |s|
  {
    if s != "" {
      Utf8OfAscii(s[..|s| - 1]);
    }
  }

  /** A character takes as few bytes as hold its seven, eleven, sixteen or twenty-one bits. */
  lemma Utf8OfOne(c: char)
    ensures Utf8Length([c]) <= 1 <==> c as int < 128
    ensures Utf8Length([c]) <= 2 <==> c as int < 2048
    ensures Utf8Length([c]) <= 3 <==> c as int < 65536
    ensures 1 <= Utf8Length([c]) <= 4
  {
    assert [c][..0] == "";
  }

  // ---------------------------------------------------------------- words, punctuation and strings

  predicate IsWordChar(c: char) {
    'a' <= c <= 'z' || 'A' <= c <= 'Z' || '0' <= c <= '9' || c == '_'
  }

  lemma {:induction false} WordRuns(t: string)
    requires forall i :: 0 <= i < |t| ==> IsWordChar(t[i])
    ensures WordCount(t) == |t|
  {
    if t != "" {
      WordRuns(t[1..]);
    }
  }

  /** A word runs up to the first character that is no letter, digit or underscore, and is its own value. */
  lemma WordsAreRead(t: string, r: string, limit: nat)
    requires t != "" && !('0' <= t[0] <= '9') && forall i :: 0 <= i < |t| ==> IsWordChar(t[i])
    requires (r == "" || !IsWordChar(r[0])) && Utf8Length(t) <= limit
    ensures Next(t + r, limit) == Emit(Word, |t|, Spelling(t))
  {
    WordRuns(t);
    Laws.WordLocal(t, r);
    Laws.WordStart(t + r);
    assert (t + r)[..|t|] == t;
  }

  /** The nine separators are always tokens of their own; a sign is one unless a number or another sign follows. */
  lemma PunctuationIsRead(c: char, r: string, limit: nat)
    requires c in ":|@()[],;" || (c in "+-" && (r == "" || !(r[0] in "0123456789.+-")))
    requires Utf8Length([c]) <= limit
    ensures Next([c] + r, limit) == Emit(Punct, 1, Spelling([c]))
  {
    var s := [c] + r;
    assert s[..1] == [c];
    StandsAlone(c, s);
  }

  lemma StandsAlone(c: char, s: Remainder)
    requires s[0] == c && (c in ":|@()[],;" || (c in "+-" && (|s| == 1 || !(s[1] in "0123456789.+-"))))
    ensures StartOf(s) == Single
  {
  }

  function EscapedChar(c: char): string {
    if c == '"' || c == '\\' then ['\\', c] else [c]
  }

  /** The inside of a string: quotes and backslashes carry a backslash. */
  function Escaped(value: string): string {
    if value == "" then "" else Escaped(value[..|value| - 1]) + EscapedChar(value[|value| - 1])
  }

  lemma MoveRight(a: string, b: string, r: string, at: nat)
    requires at == 1 + |a|
    ensures "\"" + (a + b) + r == "\"" + a + (b + r)
    ensures ("\"" + a + (b + r))[at..at + |b|] == b
  {
  }

  lemma {:induction false} EscapedIsRead(value: string, r: string, s: string)
    requires s == "\"" + Escaped(value) + r
    ensures Quoted(s, 1, "") == Quoted(s, 1 + |Escaped(value)|, value)
  {
    if value != "" {
      var n := |value| - 1;
      var before, last := Escaped(value[..n]), EscapedChar(value[n]);
      MoveRight(before, last, r, 1 + |before|);
      EscapedIsRead(value[..n], last + r, s);
      OneIsRead(value[n], last, s, 1 + |before|, value[..n]);
      assert value[..n] + [value[n]] == value;
    }
  }

  lemma OneIsRead(c: char, last: string, s: string, at: nat, parts: string)
    requires last == EscapedChar(c) && at + |last| <= |s| && s[at..at + |last|] == last
    ensures Quoted(s, at, parts) == Quoted(s, at + |last|, parts + [c])
  {
    assert s[at] == last[0] && (|last| == 2 ==> s[at + 1] == last[1]);
  }

  /** Any value between quotes is read back, whatever follows. */
  lemma StringsAreRead(value: string, r: string, limit: nat)
    requires Utf8Length("\"" + Escaped(value) + "\"") <= limit
    ensures var t := "\"" + Escaped(value) + "\""; Next(t + r, limit) == Emit(Quote, |t|, Spelling(value))
  {
    var t := "\"" + Escaped(value) + "\"";
    var s := t + r;
    assert s == "\"" + Escaped(value) + ("\"" + r);
    EscapedIsRead(value, "\"" + r, s);
    assert s[..|t|] == t && s[|t| - 1] == '"';
  }

  // ---------------------------------------------------------------- gaps

  lemma {:induction false} LineRuns(body: string, r: string)
    requires forall i :: 0 <= i < |body| ==> body[i] != '\r' && body[i] != '\n'
    requires r == "" || r[0] == '\r' || r[0] == '\n'
    ensures LineLength(body + r) == |body|
  {
    if body == "" {
      assert body + r == r;
    } else {
      LineRuns(body[1..], r);
      assert (body + r)[1..] == body[1..] + r;
    }
  }

  /** Blanks are skipped one by one, a comment up to the end of its line. */
  lemma GapsAreSkipped(c: char, body: string, r: string, limit: nat)
    requires forall i :: 0 <= i < |body| ==> body[i] != '\r' && body[i] != '\n'
    requires r == "" || r[0] == '\r' || r[0] == '\n'
    ensures c in " \t\r\n" ==> Next([c] + body + r, limit) == Skip(1)
    ensures Next("//" + body + r, limit) == Skip(2 + |body|)
  {
    var s := "//" + body + r;
    LineRuns("//" + body, r);
    assert s[0] == '/' && s[1] == '/';
    assert ([c] + body + r)[0] == c;
  }

  // ---------------------------------------------------------------- failures

  /** A string that never closes fails from its opening quote to the end of the text. */
  lemma OpenStringFails(value: string, limit: nat)
    ensures var t := "\"" + Escaped(value); Next(t, limit) == Fail(UnterminatedString, 0, |t|)
  {
    var t := "\"" + Escaped(value);
    assert t == "\"" + Escaped(value) + "";
    EscapedIsRead(value, "", t);
  }

  /** A backslash before anything but a quote or a backslash fails right there. */
  lemma BadEscapeFails(value: string, r: string, limit: nat)
    requires r == "" || (r[0] != '"' && r[0] != '\\')
    ensures var t := "\"" + Escaped(value);
            Next(t + "\\" + r, limit) == Fail(UnsupportedEscape, |t|, if r == "" then |t| + 1 else |t| + 2)
  {
    var t := "\"" + Escaped(value);
    var s := t + "\\" + r;
    assert s == "\"" + Escaped(value) + ("\\" + r);
    EscapedIsRead(value, "\\" + r, s);
    assert s[|t|] == '\\' && (r != "" ==> s[|t| + 1] == r[0]);
  }

  /** Two signs in a row, and characters no token starts with. */
  lemma StrayCharactersFail(c: char, r: string, limit: nat)
    ensures c in "+-" && r != "" && r[0] in "+-" ==> Next([c] + r, limit) == Fail(RepeatedSign, 0, 2)
    ensures !IsWordChar(c) && !(c in " \t\r\n\":|@()[],;+-.") && !(c == '/' && r != "" && r[0] == '/') ==>
              Next([c] + r, limit) == Fail(UnexpectedCharacter, 0, 1)
  {
    var s := [c] + r;
    assert s[0] == c && (r != "" ==> s[1] == r[0]);
  }

  /** A number may not run into a letter, an underscore or another point. */
  lemma {:induction false} LongestStops(t: string, r: string, phase: Phase)
    requires Longest(t, phase) == Match(|t|) && r != "" && IsWordChar(r[0]) && !IsDigit(r[0]) && r[0] != 'e' && r[0] != 'E'
    ensures Longest(t + r, phase) == Match(|t|)
  {
    if t == "" {
      assert t + r == r;
    } else {
      assert (t + r)[1..] == t[1..] + r;
      LongestStops(t[1..], r, Advance(phase, t[0]));
    }
  }

  lemma NumbersMustEnd(t: string, r: string, limit: nat)
    requires Laws.Literal(t) && r != "" && IsWordChar(r[0]) && !IsDigit(r[0]) && r[0] != 'e' && r[0] != 'E'
    ensures t != "" && Next(t + r, limit) == Fail(InvalidNumber, 0, |t| + 1)
  {
    Laws.LiteralStart(t, "");
    assert t + "" == t;
    var s := t + r;
    assert s[0] == t[0] && (|t| > 1 ==> s[1] == t[1]);
    LongestStops(t, r, Begin);
  }

  /** A token over the limit, and a number beyond the reader's bounds, fail as a whole. */
  lemma LargeTokensFail(token: Laws.Spelled, r: string, limit: nat, larger: nat)
    requires Laws.WellFormed(token, larger) && Laws.Ends(r) && Utf8Length(token.text) > limit
    ensures Next(token.text + r, limit) == Fail(TokenTooLong, 0, |token.text|)
  {
    match token.kind {
      case Word => Laws.WordNext(token.text, r, limit);
      case Punct => Laws.PunctNext(token.text, r, limit);
      case Quote => Laws.QuoteNext(token.text, r, limit, token.value.text);
      case Int => Laws.NumberNext(token.text, r, limit);
      case Fractional => Laws.NumberNext(token.text, r, limit);
    }
  }

  lemma LargeNumbersFail(t: string, r: string, limit: nat)
    requires ParseDecimal(t).TooLarge? && Laws.Ends(r) && Utf8Length(t) <= limit
    ensures Next(t + r, limit) == Fail(NumberTooLarge, 0, |t|)
  {
    Laws.LiteralsAreDecimals(t);
    Laws.NumberNext(t, r, limit);
    if IsInteger(t) {
      IntegersAreDecimals(t);
    }
  }
}
