/** What accepted text consists of, and the round trip of its tokens. */
module LexerLaws {
  import opened Decimals
  import opened Lexer

  /** A token without its place. */
  datatype Spelled = Spelled(kind: Kind, text: string, value: TokenValue)

  /** The whole text is one decimal literal. */
  predicate Literal(raw: string) {
    Longest(raw, Begin) == Match(|raw|)
  }

  /** The token grammar: which spellings a kind has, and the value of each. */
  predicate WellFormed(token: Spelled, limit: nat) {
    var raw := token.text;
    Utf8Length(raw) <= limit &&
    match token.kind
    case Word => raw != "" && IsWordStart(raw[0]) && WordCount(raw) == |raw| && token.value == Spelling(raw)
    case Punct => |raw| == 1 && IsPunct(raw[0]) && token.value == Spelling(raw)
    case Quote =>
      |raw| >= 2 && raw[0] == '"' && token.value.Spelling? &&
      Quoted(raw, 1, "") == Closed(|raw| - 1, token.value.text)
    case Int =>
      Literal(raw) && IsInteger(raw) && |WithoutLeadingZeros(raw[|SignOf(raw)|..])| <= MAX_MANTISSA_DIGITS &&
      token.value == Integer(IntegerOf(raw))
    case Fractional =>
      Literal(raw) && !IsInteger(raw) && token.value.Exact? && ParseDecimal(raw) == Ok(token.value.fraction)
  }

  /** What follows a token in joined text. */
  predicate Ends(r: string) {
    r == "" || r[0] == ' '
  }

  // ---------------------------------------------------------------- matching looks no further than the token

  lemma {:induction false} WordLocal(t: string, r: string)
    requires r == "" || !IsWordPart(r[0])
    ensures WordCount(t + r) == WordCount(t)
  {
    if t == "" {
      assert t + r == r;
    } else {
      assert (t + r)[1..] == t[1..] + r;
      WordLocal(t[1..], r);
    }
  }

  lemma {:induction false} WordPrefix(s: string, n: nat)
    requires n <= WordCount(s)
    ensures WordCount(s[..n]) == n
  {
    if n > 0 {
      WordPrefix(s[1..], n - 1);
      assert s[..n][1..] == s[1..][..n - 1];
    }
  }

  /** A complete literal is matched whole, whatever blank follows it. */
  lemma {:induction false} LongestLocal(t: string, r: string, phase: Phase)
    requires Longest(t, phase) == Match(|t|) && Ends(r)
    ensures Longest(t + r, phase) == Match(|t|)
  {
    if t == "" {
      assert t + r == r;
    } else {
      assert (t + r)[1..] == t[1..] + r;
      LongestLocal(t[1..], r, Advance(phase, t[0]));
    }
  }

  lemma {:induction false} LongestPrefix(s: string, phase: Phase)
    requires Longest(s, phase).Match?
    ensures Longest(s[..Longest(s, phase).length], phase) == Longest(s, phase)
  {
    var n := Longest(s, phase).length;
    if n > 0 {
      LongestPrefix(s[1..], Advance(phase, s[0]));
      assert s[..n][1..] == s[1..][..n - 1];
    }
  }

  lemma {:induction false} QuotedPrefix(t: string, r: string, end: nat, parts: string)
    requires end <= |t|
    ensures Quoted(t, end, parts).Closed? ==> Quoted(t + r, end, parts) == Quoted(t, end, parts)
    ensures Quoted(t + r, end, parts).Closed? && Quoted(t + r, end, parts).end < |t| ==>
              Quoted(t, end, parts) == Quoted(t + r, end, parts)
    decreases |t| - end
  {
    if end < |t| && t[end] != '"' {
      if t[end] != '\\' {
        QuotedPrefix(t, r, end + 1, parts + [t[end]]);
      } else if Escapes(t, end) {
        QuotedPrefix(t, r, end + 2, parts + [t[end + 1]]);
      }
    }
  }

  // ---------------------------------------------------------------- one token

  lemma LiteralStart(t: string, r: string)
    requires Literal(t) && Ends(r)
    ensures t != "" && StartOf(t + r) == Numeric
  {
    var s := t + r;
    assert s[0] == t[0] && (|t| > 1 ==> s[1] == t[1]);
    if IsSign(t[0]) {
      assert Longest(t[1..], AfterSign) == Match(|t| - 1);
      assert t[1..][0] == t[1];
    }
  }

  lemma DigitStepReads(s: string, t: string, limit: nat)
    requires Longest(s, Begin) == Match(|t|) && 0 < |t| <= |s| && s[..|t|] == t
    requires |t| < |s| ==> !IsBoundary(s[|t|])
    ensures DigitStep(s, limit) == NumberStep(t, limit)
  {
  }

  lemma DigitStepLocal(t: string, r: string, limit: nat)
    requires Literal(t) && t != "" && Ends(r)
    ensures DigitStep(t + r, limit) == NumberStep(t, limit)
  {
    LongestLocal(t, r, Begin);
    assert (t + r)[..|t|] == t;
    DigitStepReads(t + r, t, limit);
  }

  lemma NumberNext(t: string, r: string, limit: nat)
    requires Literal(t) && Ends(r)
    ensures t != "" && Next(t + r, limit) == NumberStep(t, limit)
  {
    LiteralStart(t, r);
    DigitStepLocal(t, r, limit);
  }

  lemma QuoteNext(t: string, r: string, limit: nat, value: string)
    requires |t| >= 2 && t[0] == '"' && Quoted(t, 1, "") == Closed(|t| - 1, value)
    ensures Next(t + r, limit) == Sized(Quote, t, Spelling(value), limit)
  {
    QuotedPrefix(t, r, 1, "");
    assert (t + r)[..|t|] == t;
  }

  lemma WordStart(s: string)
    requires s != "" && IsWordStart(s[0])
    ensures StartOf(s) == Wordy
  {
  }

  lemma WordStepLocal(t: string, r: string, limit: nat)
    requires t != "" && IsWordStart(t[0]) && WordCount(t) == |t| && Ends(r)
    ensures WordStep(t + r, limit) == Sized(Word, t, Spelling(t), limit)
  {
    WordLocal(t, r);
    assert (t + r)[..|t|] == t;
  }

  lemma WordNext(t: string, r: string, limit: nat)
    requires t != "" && IsWordStart(t[0]) && WordCount(t) == |t| && Ends(r)
    ensures Next(t + r, limit) == Sized(Word, t, Spelling(t), limit)
  {
    WordStart(t + r);
    WordStepLocal(t, r, limit);
  }

  lemma PunctNext(t: string, r: string, limit: nat)
    requires |t| == 1 && IsPunct(t[0]) && Ends(r)
    ensures Next(t + r, limit) == Sized(Punct, t, Spelling(t), limit)
  {
    var s := t + r;
    assert s[0] == t[0] && s[..1] == t;
    assert |s| > 1 ==> s[1] == ' ';
  }

  /** Before a blank, a well-formed token is read back whole. */
  lemma TokenIsRead(token: Spelled, r: string, limit: nat)
    requires WellFormed(token, limit) && Ends(r)
    ensures token.text != "" && Next(token.text + r, limit) == Emit(token.kind, |token.text|, token.value)
  {
    match token.kind {
      case Word => WordNext(token.text, r, limit);
      case Punct => PunctNext(token.text, r, limit);
      case Quote => QuoteNext(token.text, r, limit, token.value.text);
      case Int => NumberNext(token.text, r, limit);
      case Fractional => NumberNext(token.text, r, limit);
    }
  }

  /** The step emits a token whose spelling is well formed. */
  predicate EmitsWellFormed(s: string, step: Step, limit: nat) {
    step.Emit? && step.length <= |s| && WellFormed(Spelled(step.kind, s[..step.length], step.value), limit)
  }

  lemma QuoteIsWellFormed(s: string, limit: nat, scan: QuoteScan)
    requires s != "" && s[0] == '"' && scan == Quoted(s, 1, "") && QuoteStep(s, scan, limit).Emit?
    ensures EmitsWellFormed(s, QuoteStep(s, scan, limit), limit)
  {
    var t, r := s[..scan.end + 1], s[scan.end + 1..];
    assert s == t + r;
    QuotedPrefix(t, r, 1, "");
  }

  lemma WordIsWellFormed(s: string, limit: nat)
    requires s != "" && IsWordStart(s[0]) && WordStep(s, limit).Emit?
    ensures EmitsWellFormed(s, WordStep(s, limit), limit)
  {
    WordPrefix(s, WordCount(s));
  }

  lemma IntegerIsWellFormed(t: string, limit: nat)
    requires Literal(t) && IsInteger(t) && NumberStep(t, limit).Emit?
    ensures WellFormed(Spelled(Int, t, Integer(IntegerOf(t))), limit)
    ensures NumberStep(t, limit) == Emit(Int, |t|, Integer(IntegerOf(t)))
  {
  }

  lemma FractionIsWellFormed(t: string, limit: nat, parsed: Outcome<real>)
    requires Literal(t) && !IsInteger(t) && parsed == ParseDecimal(t) && NumberStep(t, limit).Emit?
    ensures parsed.Ok? && NumberStep(t, limit) == Emit(Fractional, |t|, Exact(parsed.value))
    ensures WellFormed(Spelled(Fractional, t, Exact(parsed.value)), limit)
  {
  }

  /** The number branch emits whole literals. */
  lemma NumberStepIsWellFormed(t: string, limit: nat)
    requires Literal(t) && NumberStep(t, limit).Emit?
    ensures WellFormed(Spelled(NumberStep(t, limit).kind, t, NumberStep(t, limit).value), limit)
  {
    if IsInteger(t) {
      IntegerIsWellFormed(t, limit);
    } else {
      FractionIsWellFormed(t, limit, ParseDecimal(t));
    }
  }

  lemma NumberIsWellFormed(s: Remainder, limit: nat)
    requires DigitStep(s, limit).Emit?
    ensures EmitsWellFormed(s, DigitStep(s, limit), limit)
  {
    LongestPrefix(s, Begin);
    NumberStepIsWellFormed(s[..Longest(s, Begin).length], limit);
  }

  /** Every token the loop emits is well formed. */
  lemma EmittedIsWellFormed(s: Remainder, limit: nat)
    requires Next(s, limit).Emit?
    ensures EmitsWellFormed(s, Next(s, limit), limit)
  {
    match StartOf(s) {
      case OpenQuote => QuoteIsWellFormed(s, limit, Quoted(s, 1, ""));
      case Numeric => NumberIsWellFormed(s, limit);
      case Wordy => WordIsWellFormed(s, limit);
      case _ =>
    }
  }

  // ---------------------------------------------------------------- one number pattern

  predicate Completes(s: string, phase: Phase) {
    Longest(s, phase) == Match(|s|)
  }

  lemma OneCharacter(s: Remainder, phase: Phase)
    ensures Completes(s, phase) <==> Advance(phase, s[0]) != Dead && Completes(s[1..], Advance(phase, s[0]))
  {
  }

  lemma {:induction false} DigitsComplete(s: string)
    ensures Completes(s, Power) <==> DigitCount(s) == |s|
  {
    if s != "" {
      DigitsComplete(s[1..]);
    }
  }

  /** All of the text is digits, at least one. */
  predicate SomeDigits(s: string) {
    s != "" && DigitCount(s) == |s|
  }

  lemma ExponentCompletes(s: string)
    ensures Completes(s, Mark) <==> SomeDigits(s[|SignOf(s)|..])
    ensures Completes(s, MarkSign) <==> SomeDigits(s)
  {
    if s != "" {
      OneCharacter(s, Mark);
      OneCharacter(s, MarkSign);
      DigitsComplete(s[1..]);
      if IsSign(s[0]) {
        if |s| > 1 {
          OneCharacter(s[1..], MarkSign);
          DigitsComplete(s[1..][1..]);
        }
      } else {
        assert s[0..] == s;
      }
    }
  }

  lemma MarkedCompletes(s: string)
    requires s != "" && (s[0] == 'e' || s[0] == 'E')
    ensures Completes(s[1..], Mark) <==> ScanExponent(s).Some?
  {
    ExponentCompletes(s[1..]);
    var sign := SignOf(s[1..]);
    assert s[1 + |sign|..] == s[1..][|sign|..];
  }

  lemma CountedOnce(s: string)
    requires s != "" && IsDigit(s[0])
    ensures s[DigitCount(s)..] == s[1..][DigitCount(s[1..])..]
  {
  }

  lemma {:induction false} FractionCompletes(s: string)
    ensures Completes(s, Fraction) <==> ScanExponent(s[DigitCount(s)..]).Some?
  {
    if s != "" && IsDigit(s[0]) {
      OneCharacter(s, Fraction);
      CountedOnce(s);
      FractionCompletes(s[1..]);
    } else {
      assert s[0..] == s;
      if s != "" {
        OneCharacter(s, Fraction);
        if s[0] == 'e' || s[0] == 'E' {
          MarkedCompletes(s);
        }
      }
    }
  }

  /** After the whole digits: an optional point with digits, then an optional exponent. */
  predicate TailScans(b: string) {
    if b != "" && b[0] == '.' then ScanExponent(b[1..][DigitCount(b[1..])..]).Some? else ScanExponent(b).Some?
  }

  lemma {:induction false} WholeCompletes(s: string)
    ensures Completes(s, Whole) <==> TailScans(s[DigitCount(s)..])
  {
    if s != "" && IsDigit(s[0]) {
      OneCharacter(s, Whole);
      CountedOnce(s);
      WholeCompletes(s[1..]);
    } else {
      assert s[0..] == s;
      if s != "" {
        OneCharacter(s, Whole);
        if s[0] == '.' {
          FractionCompletes(s[1..]);
        } else if s[0] == 'e' || s[0] == 'E' {
          MarkedCompletes(s);
        }
      }
    }
  }

  lemma PointCompletes(tail: string)
    ensures Completes(tail, BarePoint) <==> DigitCount(tail) > 0 && ScanExponent(tail[DigitCount(tail)..]).Some?
  {
    if tail != "" {
      OneCharacter(tail, BarePoint);
      if IsDigit(tail[0]) {
        FractionCompletes(tail[1..]);
        CountedOnce(tail);
      }
    }
  }

  /** Digits before the point, or after it when there are none before. */
  lemma UnsignedCompletes(a: string)
    ensures Completes(a, AfterSign) <==>
            var b := a[DigitCount(a)..];
            TailScans(b) && (DigitCount(a) > 0 || (b != "" && b[0] == '.' && DigitCount(b[1..]) > 0))
  {
    if a != "" {
      OneCharacter(a, AfterSign);
      if IsDigit(a[0]) {
        WholeCompletes(a[1..]);
        CountedOnce(a);
      } else {
        assert a[0..] == a;
        if a[0] == '.' {
          PointCompletes(a[1..]);
        }
      }
    }
  }

  lemma SignedCompletes(t: string)
    ensures Literal(t) <==> Completes(t[|SignOf(t)|..], AfterSign)
  {
    if t != "" && !IsSign(t[0]) {
      assert t[0..] == t;
    }
  }

  /** The prefix the loop matches and the token `ParseDecimal` accepts are the same pattern. */
  lemma LiteralsAreDecimals(t: string)
    ensures Literal(t) <==> !ParseDecimal(t).Malformed?
  {
    SignedCompletes(t);
    UnsignedCompletes(t[|SignOf(t)|..]);
  }

  // ---------------------------------------------------------------- accepted text

  function SpelledOf(text: string, lexeme: Lexeme): Spelled
    requires lexeme.start <= lexeme.end <= |text|
  {
    Spelled(lexeme.kind, text[lexeme.start..lexeme.end], lexeme.value)
  }

  /** The offset `p` belongs to no token: it is white space or inside a comment that starts at `lo` or later. */
  predicate IsGap(text: string, lo: nat, p: nat) {
    p < |text| &&
    (IsSpace(text[p]) || exists k :: lo <= k <= p && InComment(text, k, p))
  }

  /** A comment starts at `k`, and no line break ends it before `p`. */
  predicate InComment(text: string, k: nat, p: nat) {
    k <= p < |text| &&
    k + 1 < |text| && text[k] == '/' && text[k + 1] == '/' && forall q :: k <= q <= p ==> !IsLineBreak(text[q])
  }

  predicate Gap(text: string, lo: nat, hi: nat) {
    lo <= hi <= |text| && forall p :: lo <= p < hi ==> IsGap(text, lo, p)
  }

  predicate TokenAt(text: string, lexeme: Lexeme, limit: nat) {
    lexeme.start < lexeme.end <= |text| && WellFormed(SpelledOf(text, lexeme), limit)
  }

  predicate All(test: Lexeme -> bool, lexemes: seq<Lexeme>) {
    forall k :: 0 <= k < |lexemes| ==> test(lexemes[k])
  }

  function IsTokenOf(text: string, limit: nat): Lexeme -> bool {
    lexeme => TokenAt(text, lexeme, limit)
  }

  predicate AllTokens(text: string, lexemes: seq<Lexeme>, limit: nat) {
    All(IsTokenOf(text, limit), lexemes)
  }

  /** From `lo` on the text is these pieces with gaps around them, and nothing else. */
  predicate Tiles(text: string, lo: nat, lexemes: seq<Lexeme>)
    decreases |lexemes|
  {
    if lexemes == [] then Gap(text, lo, |text|)
    else
      && Gap(text, lo, lexemes[0].start) && lexemes[0].start < lexemes[0].end
      && Tiles(text, lexemes[0].end, lexemes[1..])
  }

  lemma {:induction false} LineLengthRuns(s: string)
    ensures forall i :: 0 <= i < LineLength(s) ==> !IsLineBreak(s[i])
  {
    if s != "" && !IsLineBreak(s[0]) {
      LineLengthRuns(s[1..]);
      assert forall i :: 0 < i < LineLength(s) ==> s[i] == s[1..][i - 1];
    }
  }

  /** What the loop skips is white space or a comment up to its line's end. */
  lemma SkippedIsGap(text: string, i: nat, limit: nat, n: nat)
    requires i < |text| && Next(text[i..], limit) == Skip(n)
    ensures Gap(text, i, i + n)
  {
    var s := text[i..];
    LineLengthRuns(s);
    forall p | i <= p < i + n
      ensures IsGap(text, i, p)
    {
      if StartOf(s) == Comment {
        assert forall q :: i <= q <= p ==> text[q] == s[q - i];
        assert InComment(text, i, p);
      }
    }
  }

  lemma GapsJoin(text: string, lo: nat, i: nat, hi: nat)
    requires Gap(text, lo, i) && Gap(text, i, hi)
    ensures Gap(text, lo, hi)
  {
    forall p | lo <= p < hi
      ensures IsGap(text, lo, p)
    {
      if i <= p {
        assert IsGap(text, i, p);
        if !IsSpace(text[p]) {
          var k :| i <= k <= p && InComment(text, k, p);
          assert InComment(text, k, p);
        }
      }
    }
  }

  lemma StepSkips(text: string, steps: seq<Step>, lo: nat, i: nat, limit: nat)
    requires IsTable(steps, text, limit) && i < |text| && Gap(text, lo, i) && steps[i].Skip?
    ensures Gap(text, lo, i + steps[i].length)
  {
    assert StepAt(steps, text, limit, i);
    SkippedIsGap(text, i, limit, steps[i].length);
    GapsJoin(text, lo, i, i + steps[i].length);
  }

  lemma StepEmits(text: string, steps: seq<Step>, i: nat, limit: nat)
    requires IsTable(steps, text, limit) && i < |text| && steps[i].Emit?
    ensures TokenAt(text, Lexeme(steps[i].kind, i, i + steps[i].length, steps[i].value), limit)
  {
    assert StepAt(steps, text, limit, i);
    EmittedIsWellFormed(text[i..], limit);
    assert text[i..][..steps[i].length] == text[i..i + steps[i].length];
  }

  lemma AllGrow(test: Lexeme -> bool, first: Lexeme, rest: seq<Lexeme>)
    requires test(first) && All(test, rest)
    ensures All(test, [first] + rest)
  {
  }

  lemma TokensGrow(text: string, first: Lexeme, rest: seq<Lexeme>, limit: nat)
    requires TokenAt(text, first, limit) && AllTokens(text, rest, limit)
    ensures AllTokens(text, [first] + rest, limit)
  {
    AllGrow(IsTokenOf(text, limit), first, rest);
  }

  lemma TilesGrow(text: string, lo: nat, first: Lexeme, rest: seq<Lexeme>)
    requires Gap(text, lo, first.start) && first.start < first.end && Tiles(text, first.end, rest)
    ensures Tiles(text, lo, [first] + rest)
  {
    assert ([first] + rest)[1..] == rest;
  }

  /** The pieces tile the text from `lo` on and are well-formed tokens. */
  predicate Sound(text: string, lo: nat, lexed: Lexed, limit: nat) {
    lexed.Lexed? ==> Tiles(text, lo, lexed.lexemes) && AllTokens(text, lexed.lexemes, limit)
  }

  lemma SoundGrows(text: string, lo: nat, first: Lexeme, rest: Lexed, limit: nat)
    requires Gap(text, lo, first.start) && first.start < first.end && TokenAt(text, first, limit)
    requires Sound(text, first.end, rest, limit)
    ensures Sound(text, lo, Prepended([first], rest), limit)
  {
    if rest.Lexed? {
      TokensGrow(text, first, rest.lexemes, limit);
      TilesGrow(text, lo, first, rest.lexemes);
    }
  }

  lemma SoundAfterToken(text: string, steps: seq<Step>, lo: nat, i: nat, limit: nat)
    requires IsTable(steps, text, limit) && i < |text| && steps[i].Emit? && Gap(text, lo, i)
    requires i + steps[i].length <= |text| && Sound(text, i + steps[i].length, Assembled(steps, i + steps[i].length), limit)
    ensures Sound(text, lo, Assembled(steps, i), limit)
  {
    var end := i + steps[i].length;
    StepEmits(text, steps, i, limit);
    SoundGrows(text, lo, Lexeme(steps[i].kind, i, end, steps[i].value), Assembled(steps, end), limit);
  }

  lemma SoundAtEnd(text: string, steps: seq<Step>, lo: nat, limit: nat)
    requires IsTable(steps, text, limit) && Gap(text, lo, |text|)
    ensures Sound(text, lo, Assembled(steps, |text|), limit)
  {
  }

  lemma AssembledSkips(steps: seq<Step>, i: nat)
    requires Bounded(steps) && i < |steps| && steps[i].Skip?
    ensures i + steps[i].length <= |steps| && Assembled(steps, i) == Assembled(steps, i + steps[i].length)
  {
  }

  lemma SoundAfterFailure(text: string, steps: seq<Step>, lo: nat, i: nat, limit: nat)
    requires IsTable(steps, text, limit) && i < |text| && steps[i].Fail?
    ensures Sound(text, lo, Assembled(steps, i), limit)
  {
  }

  lemma {:induction false} AssembledIsSound(text: string, steps: seq<Step>, lo: nat, i: nat, limit: nat)
    requires IsTable(steps, text, limit) && Gap(text, lo, i)
    ensures Sound(text, lo, Assembled(steps, i), limit)
    decreases |text| - i
  {
    if i == |text| {
      SoundAtEnd(text, steps, lo, limit);
    } else if steps[i].Skip? {
      StepSkips(text, steps, lo, i, limit);
      AssembledSkips(steps, i);
      AssembledIsSound(text, steps, lo, i + steps[i].length, limit);
    } else if steps[i].Emit? {
      var end := i + steps[i].length;
      NoGap(text, end);
      AssembledIsSound(text, steps, end, end, limit);
      SoundAfterToken(text, steps, lo, i, limit);
    } else {
      SoundAfterFailure(text, steps, lo, i, limit);
    }
  }

  lemma NoGap(text: string, i: nat)
    requires i <= |text|
    ensures Gap(text, i, i)
  {
  }

  /** Nothing is skipped: accepted text is well-formed tokens with only white space and comments around them. */
  lemma NothingIsSkipped(text: string, limit: nat)
    requires Lex(text, limit).Lexed?
    ensures Tiles(text, 0, Lex(text, limit).lexemes) && AllTokens(text, Lex(text, limit).lexemes, limit)
  {
    AssembledIsSound(text, StepTable(text, limit), 0, 0, limit);
  }

  lemma {:induction false} FailureIsAhead(text: string, steps: seq<Step>, i: nat, limit: nat)
    requires IsTable(steps, text, limit) && i <= |text|
    ensures Assembled(steps, i).Failed? ==>
              i <= Assembled(steps, i).start < Assembled(steps, i).end <= |text|
    decreases |text| - i
  {
    if i < |text| && !steps[i].Fail? {
      FailureIsAhead(text, steps, i + steps[i].length, limit);
    }
  }

  /** Every failure carries a span of at least one character of the text. */
  lemma FailureHasASpan(text: string, limit: nat)
    requires Lex(text, limit).Failed?
    ensures Lex(text, limit).start < Lex(text, limit).end <= |text|
  {
    FailureIsAhead(text, StepTable(text, limit), 0, limit);
  }

  // ---------------------------------------------------------------- the round trip

  predicate WellFormedAt(tokens: seq<Spelled>, k: nat, limit: nat) {
    k < |tokens| && WellFormed(tokens[k], limit)
  }

  predicate AllWellFormed(tokens: seq<Spelled>, limit: nat) {
    forall k: nat :: k < |tokens| ==> WellFormedAt(tokens, k, limit)
  }

  /** The spellings with single spaces between them. */
  function Joined(tokens: seq<Spelled>): string {
    if tokens == [] then ""
    else if |tokens| == 1 then tokens[0].text
    else tokens[0].text + " " + Joined(tokens[1..])
  }

  /** What follows the first token of joined text. */
  function After(tokens: seq<Spelled>): string {
    if |tokens| <= 1 then "" else " " + Joined(tokens[1..])
  }

  /** The pieces of the text are these tokens. */
  predicate Carries(text: string, lexed: Lexed, tokens: seq<Spelled>) {
    lexed.Lexed? && |lexed.lexemes| == |tokens| &&
    forall k :: 0 <= k < |tokens| ==> CarriesAt(text, lexed.lexemes[k], tokens[k])
  }

  predicate CarriesAt(text: string, lexeme: Lexeme, token: Spelled) {
    lexeme.start <= lexeme.end <= |text| && SpelledOf(text, lexeme) == token
  }

  lemma CarriesMore(text: string, lexeme: Lexeme, rest: Lexed, tokens: seq<Spelled>)
    requires tokens != [] && CarriesAt(text, lexeme, tokens[0]) && Carries(text, rest, tokens[1..])
    ensures Carries(text, Prepended([lexeme], rest), tokens)
  {
    var all := [lexeme] + rest.lexemes;
    forall k | 0 <= k < |tokens|
      ensures CarriesAt(text, all[k], tokens[k])
    {
      if k > 0 {
        assert CarriesAt(text, rest.lexemes[k - 1], tokens[1..][k - 1]);
      }
    }
  }

  /** At the first joined token the loop emits it. */
  lemma FirstIsEmitted(text: string, steps: seq<Step>, i: nat, tokens: seq<Spelled>, limit: nat)
    requires IsTable(steps, text, limit) && i <= |text| && tokens != [] && AllWellFormed(tokens, limit)
    requires text[i..] == Joined(tokens)
    ensures i < |text| && steps[i] == Emit(tokens[0].kind, |tokens[0].text|, tokens[0].value)
  {
    assert Joined(tokens) == tokens[0].text + After(tokens);
    assert WellFormedAt(tokens, 0, limit);
    TokenIsRead(tokens[0], After(tokens), limit);
    assert StepAt(steps, text, limit, i);
  }

  lemma FirstOfJoined(text: string, i: nat, tokens: seq<Spelled>)
    requires i <= |text| && tokens != [] && text[i..] == Joined(tokens)
    ensures var n := |tokens[0].text|;
            i + n <= |text| && text[i..i + n] == tokens[0].text && text[i + n..] == After(tokens)
  {
    var n := |tokens[0].text|;
    assert Joined(tokens) == tokens[0].text + After(tokens);
    assert text[i..i + n] == text[i..][..n];
    assert text[i + n..] == text[i..][n..];
  }

  /** Between two joined tokens the loop skips the space. */
  lemma SpaceIsSkipped(text: string, steps: seq<Step>, i: nat, tokens: seq<Spelled>, limit: nat)
    requires IsTable(steps, text, limit) && i <= |text| && |tokens| > 1 && text[i..] == After(tokens)
    ensures i < |text| && Assembled(steps, i) == Assembled(steps, i + 1)
    ensures text[i + 1..] == Joined(tokens[1..])
  {
    assert text[i..][0] == ' ';
    assert StepAt(steps, text, limit, i);
    assert text[i + 1..] == text[i..][1..];
  }

  /** Where the tokens after the first begin. */
  lemma RestOfJoined(text: string, steps: seq<Step>, i: nat, tokens: seq<Spelled>, limit: nat) returns (j: nat)
    requires IsTable(steps, text, limit) && i <= |text| && tokens != [] && text[i..] == After(tokens)
    ensures i <= j <= |text| && Assembled(steps, i) == Assembled(steps, j) && text[j..] == Joined(tokens[1..])
  {
    if |tokens| > 1 {
      SpaceIsSkipped(text, steps, i, tokens, limit);
      j := i + 1;
    } else {
      j := i;
    }
  }

  lemma {:induction false} JoinedFrom(text: string, steps: seq<Step>, i: nat, tokens: seq<Spelled>, limit: nat)
    requires IsTable(steps, text, limit) && i <= |text| && AllWellFormed(tokens, limit) && text[i..] == Joined(tokens)
    ensures Carries(text, Assembled(steps, i), tokens)
    decreases |tokens|
  {
    if tokens != [] {
      var n := |tokens[0].text|;
      FirstIsEmitted(text, steps, i, tokens, limit);
      FirstOfJoined(text, i, tokens);
      RestIsWellFormed(tokens, limit);
      var j := RestOfJoined(text, steps, i + n, tokens, limit);
      JoinedFrom(text, steps, j, tokens[1..], limit);
      CarriesMore(text, Lexeme(tokens[0].kind, i, i + n, tokens[0].value), Assembled(steps, j), tokens);
    }
  }

  lemma RestIsWellFormed(tokens: seq<Spelled>, limit: nat)
    requires tokens != [] && AllWellFormed(tokens, limit)
    ensures AllWellFormed(tokens[1..], limit)
  {
    forall k: nat | k < |tokens[1..]|
      ensures WellFormedAt(tokens[1..], k, limit)
    {
      assert WellFormedAt(tokens, k + 1, limit);
    }
  }

  /** Any well-formed tokens, joined with single spaces, lex back to exactly themselves. */
  lemma JoinedTokensLexBack(tokens: seq<Spelled>, limit: nat)
    requires AllWellFormed(tokens, limit)
    ensures Carries(Joined(tokens), Lex(Joined(tokens), limit), tokens)
  {
    var text := Joined(tokens);
    assert text[0..] == text;
    JoinedFrom(text, StepTable(text, limit), 0, tokens, limit);
  }

  /** The tokens of tiled text, without their places. */
  function SpelledAll(text: string, lexemes: seq<Lexeme>): seq<Spelled>
    requires InText(text, lexemes)
  {
    seq(|lexemes|, k requires 0 <= k < |lexemes| => SpelledOf(text, lexemes[k]))
  }

  predicate InText(text: string, lexemes: seq<Lexeme>) {
    forall k :: 0 <= k < |lexemes| ==> lexemes[k].start < lexemes[k].end <= |text|
  }

  lemma OneOfAllTokens(text: string, lexemes: seq<Lexeme>, k: nat, limit: nat)
    requires AllTokens(text, lexemes, limit) && k < |lexemes|
    ensures TokenAt(text, lexemes[k], limit)
  {
    assert IsTokenOf(text, limit)(lexemes[k]);
  }

  lemma TokensAreInText(text: string, lexemes: seq<Lexeme>, limit: nat)
    requires AllTokens(text, lexemes, limit)
    ensures InText(text, lexemes)
  {
    forall k | 0 <= k < |lexemes|
      ensures lexemes[k].start < lexemes[k].end <= |text|
    {
      OneOfAllTokens(text, lexemes, k, limit);
    }
  }

  lemma SpelledAreWellFormed(text: string, lexemes: seq<Lexeme>, limit: nat)
    requires AllTokens(text, lexemes, limit) && InText(text, lexemes)
    ensures AllWellFormed(SpelledAll(text, lexemes), limit)
  {
    var tokens := SpelledAll(text, lexemes);
    forall k: nat | k < |tokens|
      ensures WellFormedAt(tokens, k, limit)
    {
      OneOfAllTokens(text, lexemes, k, limit);
    }
  }

  /** Accepted text, respelled with single spaces, lexes to the same kinds, spellings and values. */
  lemma RoundTrip(text: string, limit: nat) returns (tokens: seq<Spelled>)
    requires Lex(text, limit).Lexed?
    ensures Carries(text, Lex(text, limit), tokens)
    ensures Carries(Joined(tokens), Lex(Joined(tokens), limit), tokens)
  {
    var lexemes := Lex(text, limit).lexemes;
    NothingIsSkipped(text, limit);
    TokensAreInText(text, lexemes, limit);
    tokens := SpelledAll(text, lexemes);
    SpelledAreWellFormed(text, lexemes, limit);
    JoinedTokensLexBack(tokens, limit);
  }

  /** Respelling is canonical: two token lists are the same exactly when their joined texts are. */
  lemma JoinedDecides(a: seq<Spelled>, b: seq<Spelled>, limit: nat)
    requires AllWellFormed(a, limit) && AllWellFormed(b, limit)
    ensures a == b <==> Joined(a) == Joined(b)
  {
    JoinedTokensLexBack(a, limit);
    JoinedTokensLexBack(b, limit);
    if Joined(a) == Joined(b) {
      var lexed := Lex(Joined(a), limit);
      forall k | 0 <= k < |a|
        ensures a[k] == b[k]
      {
        assert CarriesAt(Joined(a), lexed.lexemes[k], a[k]) && CarriesAt(Joined(a), lexed.lexemes[k], b[k]);
      }
    }
  }

  // ---------------------------------------------------------------- spans

  /** The offset a position stands for. */
  function OffsetOf(starts: LineTable, p: Position): int
    requires 1 <= p.line <= |starts|
  {
    starts[p.line - 1] + p.column - 1
  }

  predicate SpanFits(text: string, starts: LineTable, token: Token) {
    var s := token.span;
    && 1 <= s.from.line <= |starts| && 1 <= s.upTo.line <= |starts|
    && Precedes(s.from, s.upTo)
    && 0 <= OffsetOf(starts, s.from) <= OffsetOf(starts, s.upTo) <= |text|
    && text[OffsetOf(starts, s.from)..OffsetOf(starts, s.upTo)] == token.text
  }

  lemma OneSpanFits(text: string, starts: LineTable, lexeme: Lexeme)
    requires lexeme.start < lexeme.end <= |text|
    ensures SpanFits(text, starts, TokenOf(starts, text, lexeme))
  {
    LocateInverts(starts, lexeme.start);
    LocateInverts(starts, lexeme.end);
    LocateIsOrdered(starts, lexeme.start, lexeme.end);
  }

  predicate NotAfter(p: Position, q: Position) {
    p == q || Precedes(p, q)
  }

  lemma {:induction false} TilesAscend(text: string, lo: nat, lexemes: seq<Lexeme>, k: nat)
    requires Tiles(text, lo, lexemes) && k < |lexemes|
    ensures lo <= lexemes[k].start
    ensures k + 1 < |lexemes| ==> lexemes[k].end <= lexemes[k + 1].start
    decreases k
  {
    if k > 0 {
      TilesAscend(text, lexemes[0].end, lexemes[1..], k - 1);
    } else if |lexemes| > 1 {
      assert lexemes[1..][0] == lexemes[1];
    }
  }

  lemma SpansFollow(text: string, tokens: seq<Token>, lexemes: seq<Lexeme>, starts: LineTable, k: nat)
    requires Spanned(tokens, lexemes, text, starts) && Tiles(text, 0, lexemes) && 0 < k < |tokens|
    ensures NotAfter(tokens[k - 1].span.upTo, tokens[k].span.from)
  {
    assert SpannedAt(tokens[k - 1], lexemes[k - 1], text, starts) && SpannedAt(tokens[k], lexemes[k], text, starts);
    TilesAscend(text, 0, lexemes, k - 1);
    LocateIsOrdered(starts, lexemes[k - 1].end, lexemes[k].start);
  }

  lemma SpanLocates(text: string, tokens: seq<Token>, lexemes: seq<Lexeme>, starts: LineTable, k: nat)
    requires Spanned(tokens, lexemes, text, starts) && InText(text, lexemes) && k < |tokens|
    ensures SpanFits(text, starts, tokens[k])
  {
    assert SpannedAt(tokens[k], lexemes[k], text, starts);
    OneSpanFits(text, starts, lexemes[k]);
  }

  /** Token spans locate exactly their spellings, are not empty, and follow each other in the text. */
  lemma SpansLocateTokens(text: string, limit: nat, tokens: seq<Token>, starts: LineTable)
    requires Lex(text, limit).Lexed? && Answers(Tokens(tokens), Lex(text, limit), text, starts)
    ensures forall k :: 0 <= k < |tokens| ==> SpanFits(text, starts, tokens[k])
    ensures forall k :: 0 < k < |tokens| ==> NotAfter(tokens[k - 1].span.upTo, tokens[k].span.from)
  {
    var lexemes := Lex(text, limit).lexemes;
    NothingIsSkipped(text, limit);
    TokensAreInText(text, lexemes, limit);
    forall k | 0 <= k < |tokens|
      ensures SpanFits(text, starts, tokens[k])
    {
      SpanLocates(text, tokens, lexemes, starts, k);
    }
    forall k | 0 < k < |tokens|
      ensures NotAfter(tokens[k - 1].span.upTo, tokens[k].span.from)
    {
      SpansFollow(text, tokens, lexemes, starts, k);
    }
  }
}
