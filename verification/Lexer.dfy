/**
  The exact-token lexer for DBC text. `Next` says what one loop iteration does
  at the start of the remaining text; `Tokenize` is the loop itself, with the
  line and column spans its tokens and failures carry.
 */
module Lexer {
  import opened Decimals

  datatype Kind = Word | Int | Fractional | Quote | Punct

  datatype TokenValue = Spelling(text: string) | Integer(number: int) | Exact(fraction: real)

  datatype Reason =
    | UnterminatedString | UnsupportedEscape | RepeatedSign | InvalidNumber | UnexpectedCharacter
    | TokenTooLong | NumberTooLarge

  // ---------------------------------------------------------------- characters

  predicate IsSpace(c: char) { c == ' ' || c == '\t' || c == '\r' || c == '\n' }
  predicate IsSign(c: char) { c == '+' || c == '-' }
  predicate IsPunct(c: char) {
    c == ':' || c == '|' || c == '@' || c == '(' || c == ')' || c == '[' || c == ']' || c == ',' || c == ';' || IsSign(c)
  }
  predicate IsLetter(c: char) { 'A' <= c <= 'Z' || 'a' <= c <= 'z' }
  predicate IsWordStart(c: char) { IsLetter(c) || c == '_' }
  predicate IsWordPart(c: char) { IsWordStart(c) || IsDigit(c) }
  predicate IsLineBreak(c: char) { c == '\r' || c == '\n' }

  /** A character that may not follow a number directly. */
  predicate IsBoundary(c: char) { IsWordPart(c) || c == '.' }

  function Utf8Width(c: char): nat {
    if c < '\U{80}' then 1 else if c < '\U{800}' then 2 else if c < '\U{10000}' then 3 else 4
  }

  /** The size of the text in UTF-8. */
  function Utf8Length(s: string): nat {
    if s == "" then 0 else Utf8Length(s[..|s| - 1]) + Utf8Width(s[|s| - 1])
  }

  // ---------------------------------------------------------------- what the patterns match

  function WordCount(s: string): (n: nat)
    ensures n <= |s|
  {
    if s != "" && IsWordPart(s[0]) then 1 + WordCount(s[1..]) else 0
  }

  /** The distance to the next line break, or to the end. */
  function LineLength(s: string): (n: nat)
    ensures n <= |s|
  {
    if s != "" && !IsLineBreak(s[0]) then 1 + LineLength(s[1..]) else 0
  }

  /** How far into a decimal literal the characters read so far are. */
  datatype Phase = Begin | AfterSign | Whole | BarePoint | Fraction | Mark | MarkSign | Power | Dead

  function Advance(phase: Phase, c: char): Phase {
    match phase
    case Begin => if IsSign(c) then AfterSign else if c == '.' then BarePoint else if IsDigit(c) then Whole else Dead
    case AfterSign => if c == '.' then BarePoint else if IsDigit(c) then Whole else Dead
    case Whole =>
      if IsDigit(c) then Whole else if c == '.' then Fraction else if c == 'e' || c == 'E' then Mark else Dead
    case BarePoint => if IsDigit(c) then Fraction else Dead
    case Fraction => if IsDigit(c) then Fraction else if c == 'e' || c == 'E' then Mark else Dead
    case Mark => if IsSign(c) then MarkSign else if IsDigit(c) then Power else Dead
    case MarkSign => if IsDigit(c) then Power else Dead
    case Power => if IsDigit(c) then Power else Dead
    case Dead => Dead
  }

  /** The characters read so far are a literal. */
  predicate Accepts(phase: Phase) {
    phase.Whole? || phase.Fraction? || phase.Power?
  }

  datatype Match = NoMatch | Match(length: nat)

  /** The longest continuation that completes a literal. */
  function Longest(s: string, phase: Phase): (r: Match)
    ensures r.Match? ==> r.length <= |s|
    ensures r.Match? && !Accepts(phase) ==> 0 < r.length
  {
    var here := if Accepts(phase) then Match(0) else NoMatch;
    if s == "" || Advance(phase, s[0]) == Dead then here
    else
      match Longest(s[1..], Advance(phase, s[0]))
      case NoMatch => here
      case Match(n) => Match(n + 1)
  }

  datatype QuoteScan = Unterminated | BadEscape(at: nat) | Closed(end: nat, value: string)

  /** An escaped quote or backslash starts at `end`. */
  predicate Escapes(s: string, end: nat) {
    end + 1 < |s| && s[end] == '\\' && (s[end + 1] == '"' || s[end + 1] == '\\')
  }

  /** The rest of a string from `end` on, after the decoded `parts`: where it closes and what it decodes to. */
  function Quoted(s: string, end: nat, parts: string): (r: QuoteScan)
    ensures r.Closed? ==> end <= r.end < |s| && s[r.end] == '"'
    ensures r.BadEscape? ==> end <= r.at < |s|
    decreases |s| - end
  {
    if end >= |s| then Unterminated
    else if s[end] == '"' then Closed(end, parts)
    else if s[end] == '\\' then
      if Escapes(s, end) then Quoted(s, end + 2, parts + [s[end + 1]]) else BadEscape(end)
    else Quoted(s, end + 1, parts + [s[end]])
  }

  // ---------------------------------------------------------------- one iteration

  /** Offsets are relative to the remaining text. */
  datatype Step = Skip(length: nat) | Emit(kind: Kind, length: nat, value: TokenValue) | Fail(reason: Reason, from: nat, upTo: nat)

  function Sized(kind: Kind, raw: string, value: TokenValue, limit: nat): Step {
    if Utf8Length(raw) > limit then Fail(TokenTooLong, 0, |raw|) else Emit(kind, |raw|, value)
  }

  predicate IsInteger(raw: string) {
    var digits := raw[|SignOf(raw)|..];
    digits != "" && AllDigits(digits)
  }

  function IntegerOf(raw: string): int
    requires IsInteger(raw)
  {
    var number := Number(raw[|SignOf(raw)|..]);
    if raw[0] == '-' then 0 - number else number
  }

  /** The exact value of a complete number token. */
  function NumberStep(raw: string, limit: nat): (r: Step)
    ensures r.Emit? ==> r.length == |raw|
    ensures !r.Emit? ==> r.Fail? && r.from == 0 && r.upTo == |raw|
  {
    if IsInteger(raw) then
      if Utf8Length(raw) > limit then Fail(TokenTooLong, 0, |raw|)
      else if |WithoutLeadingZeros(raw[|SignOf(raw)|..])| > MAX_MANTISSA_DIGITS then Fail(NumberTooLarge, 0, |raw|)
      else Sized(Int, raw, Integer(IntegerOf(raw)), limit)
    else
      match ParseDecimal(raw)
      case Malformed => Fail(InvalidNumber, 0, |raw|)
      case TooLarge => Fail(NumberTooLarge, 0, |raw|)
      case Ok(value) => Sized(Fractional, raw, Exact(value), limit)
  }

  predicate InBounds(step: Step, size: nat) {
    match step
    case Skip(n) => 0 < n <= size
    case Emit(_, n, _) => 0 < n <= size
    case Fail(_, from, upTo) => from < upTo <= size
  }

  function QuoteStep(s: string, scan: QuoteScan, limit: nat): (r: Step)
    requires s != "" && scan == Quoted(s, 1, "")
    ensures InBounds(r, |s|)
  {
    match scan
    case Unterminated => Fail(UnterminatedString, 0, |s|)
    case BadEscape(at) => Fail(UnsupportedEscape, at, if at + 2 <= |s| then at + 2 else |s|)
    case Closed(end, value) => Sized(Quote, s[..end + 1], Spelling(value), limit)
  }

  function DigitStep(s: Remainder, limit: nat): (r: Step)
    ensures InBounds(r, |s|)
  {
    match Longest(s, Begin)
    case NoMatch => Fail(InvalidNumber, 0, 1)
    case Match(n) =>
      if n < |s| && IsBoundary(s[n]) then Fail(InvalidNumber, 0, n + 1) else NumberStep(s[..n], limit)
  }

  function WordStep(s: string, limit: nat): (r: Step)
    requires s != "" && IsWordStart(s[0])
    ensures InBounds(r, |s|)
  {
    var n := WordCount(s);
    Sized(Word, s[..n], Spelling(s[..n]), limit)
  }

  /** What is left of the text when the loop runs again. */
  type Remainder = s: string | s != "" witness "."

  /** What the first characters announce. */
  datatype Start = Blank | Comment | OpenQuote | SignPair | Single | Numeric | Wordy | Stray

  /** A sign directly before a digit or a point belongs to a number. */
  function StartOf(s: Remainder): Start {
    var c := s[0];
    if IsSpace(c) then Blank
    else if c == '/' && |s| > 1 && s[1] == '/' then Comment
    else if c == '"' then OpenQuote
    else if IsSign(c) && |s| > 1 && IsSign(s[1]) then SignPair
    else if IsPunct(c) && !(IsSign(c) && |s| > 1 && (IsDigit(s[1]) || s[1] == '.')) then Single
    else if IsSign(c) || c == '.' || IsDigit(c) then Numeric
    else if IsWordStart(c) then Wordy
    else Stray
  }

  /** What the loop does with the remaining text. */
  function Next(s: Remainder, limit: nat): (r: Step)
    ensures InBounds(r, |s|)
  {
    match StartOf(s)
    case Blank => Skip(1)
    case Comment => Skip(LineLength(s))
    case OpenQuote => QuoteStep(s, Quoted(s, 1, ""), limit)
    case SignPair => Fail(RepeatedSign, 0, 2)
    case Single => Sized(Punct, s[..1], Spelling(s[..1]), limit)
    case Numeric => DigitStep(s, limit)
    case Wordy => WordStep(s, limit)
    case Stray => Fail(UnexpectedCharacter, 0, 1)
  }

  // ---------------------------------------------------------------- the whole text

  datatype Lexeme = Lexeme(kind: Kind, start: nat, end: nat, value: TokenValue)

  datatype Lexed = Failed(reason: Reason, start: nat, end: nat) | Lexed(lexemes: seq<Lexeme>)

  function Prepended(before: seq<Lexeme>, after: Lexed): Lexed {
    if after.Failed? then after else Lexed(before + after.lexemes)
  }

  /** Every step stays inside the text. */
  predicate Bounded(steps: seq<Step>) {
    forall i :: 0 <= i < |steps| ==> InBounds(steps[i], |steps| - i)
  }

  predicate StepAt(steps: seq<Step>, text: string, limit: nat, i: nat) {
    i < |steps| && i < |text| && steps[i] == Next(text[i..], limit)
  }

  /** `steps` holds what one iteration does at each offset. */
  ghost predicate IsTable(steps: seq<Step>, text: string, limit: nat) {
    |steps| == |text| && Bounded(steps) &&
    forall i: nat {:trigger StepAt(steps, text, limit, i)} :: i < |text| ==> StepAt(steps, text, limit, i)
  }

  function StepTable(text: string, limit: nat): (steps: seq<Step>)
    ensures IsTable(steps, text, limit)
  {
    seq(|text|, i requires 0 <= i < |text| => Next(text[i..], limit))
  }

  /** The tokens from `i` on, or the first failure. */
  function Assembled(steps: seq<Step>, i: nat): Lexed
    requires i <= |steps| && Bounded(steps)
    decreases |steps| - i
  {
    if i == |steps| then Lexed([])
    else
      match steps[i]
      case Skip(n) => Assembled(steps, i + n)
      case Emit(kind, n, value) => Prepended([Lexeme(kind, i, i + n, value)], Assembled(steps, i + n))
      case Fail(reason, from, upTo) => Failed(reason, i + from, i + upTo)
  }

  function Lex(text: string, limit: nat): Lexed {
    Assembled(StepTable(text, limit), 0)
  }

  // ---------------------------------------------------------------- lines and columns

  /** A line starts at `i`: at the beginning, and after each of CR LF, a lone CR and LF. */
  predicate StartsLine(text: string, i: nat) {
    i <= |text| &&
    (i == 0 || text[i - 1] == '\n' || (text[i - 1] == '\r' && !(i < |text| && text[i] == '\n')))
  }

  predicate Increasing(starts: seq<nat>) {
    forall i, j :: 0 <= i < j < |starts| ==> starts[i] < starts[j]
  }

  /** The line starts of some text. */
  type LineTable = s: seq<nat> | Increasing(s) && s != [] && s[0] == 0
    witness [0]

  /** `starts` lists the line starts up to `bound`, and nothing else. */
  ghost predicate ListsStarts(starts: LineTable, text: string, bound: nat) {
    && (forall k :: 0 <= k < |starts| ==> starts[k] <= bound && StartsLine(text, starts[k]))
    && (forall i: nat {:trigger StartsLine(text, i)} :: i <= bound && StartsLine(text, i) ==> i in starts)
  }

  /** One past the last element that is at most `x`. */
  function BisectRight(starts: seq<nat>, x: nat): (n: nat)
    requires Increasing(starts)
    ensures n <= |starts|
    ensures forall i :: 0 <= i < n ==> starts[i] <= x
    ensures forall i :: n <= i < |starts| ==> x < starts[i]
  {
    if starts == [] then 0
    else if starts[|starts| - 1] <= x then |starts|
    else BisectRight(starts[..|starts| - 1], x)
  }

  /** One-based line and column. */
  datatype Position = Position(line: nat, column: nat)

  predicate Precedes(p: Position, q: Position) {
    p.line < q.line || (p.line == q.line && p.column < q.column)
  }

  datatype Span = Span(from: Position, upTo: Position)

  datatype Token = Token(kind: Kind, text: string, value: TokenValue, span: Span)

  /** Collects the end of every line break. */
  method LineStarts(text: string) returns (starts: LineTable)
    ensures ListsStarts(starts, text, |text|)
  {
    starts := [0];
    var i: nat := 0;
    while i < |text|
      invariant i <= |text| && ListsStarts(starts, text, i)
    {
      var width := if text[i] == '\r' && i + 1 < |text| && text[i + 1] == '\n' then 2 else 1;
      if IsLineBreak(text[i]) {
        OneMoreStart(starts, text, i, i + width);
        starts := starts + [i + width];
      }
      i := i + width;
    }
  }

  lemma OneMoreStart(starts: LineTable, text: string, i: nat, next: nat)
    requires i < next <= |text| && ListsStarts(starts, text, i)
    requires StartsLine(text, next) && forall k: nat :: i < k < next ==> !StartsLine(text, k)
    ensures Increasing(starts + [next]) && ListsStarts(starts + [next], text, next)
  {
    var all := starts + [next];
    forall k | 0 <= k < |starts|
      ensures starts[k] < next
    {
      assert starts[k] in starts;
    }
  }

  function Locate(starts: LineTable, index: nat): Position {
    var line := BisectRight(starts, index) - 1;
    Position(line + 1, index - starts[line] + 1)
  }

  /** The located line starts at or before the offset, the next one after it, and the column is the distance. */
  lemma LocateInverts(starts: LineTable, index: nat)
    ensures var p := Locate(starts, index);
            && 1 <= p.line <= |starts| && 1 <= p.column
            && starts[p.line - 1] + p.column - 1 == index
            && (p.line < |starts| ==> index < starts[p.line])
  {
  }

  function SpanOf(starts: LineTable, start: nat, end: nat): Span {
    Span(Locate(starts, start), Locate(starts, end))
  }

  function TokenOf(starts: LineTable, text: string, lexeme: Lexeme): Token
    requires lexeme.start <= lexeme.end <= |text|
  {
    Token(lexeme.kind, text[lexeme.start..lexeme.end], lexeme.value, SpanOf(starts, lexeme.start, lexeme.end))
  }

  /** Later offsets have later positions, so a position names one offset. */
  lemma LocateIsOrdered(starts: LineTable, i: nat, j: nat)
    ensures i < j <==> Precedes(Locate(starts, i), Locate(starts, j))
  {
    var p, q := Locate(starts, i), Locate(starts, j);
    LocateInverts(starts, i);
    LocateInverts(starts, j);
    assert p.line < q.line ==> starts[p.line] <= starts[q.line - 1];
    assert q.line < p.line ==> starts[q.line] <= starts[p.line - 1];
  }

  // ---------------------------------------------------------------- the loop

  datatype Tokens = Rejected(reason: Reason, span: Span) | Tokens(tokens: seq<Token>)

  /** The loop over a string's characters, from just after its opening quote. */
  method ReadQuoted(s: Remainder) returns (scan: QuoteScan)
    ensures scan == Quoted(s, 1, "")
  {
    var end, parts := 1, "";
    while end < |s|
      invariant 1 <= end <= |s| && Quoted(s, end, parts) == Quoted(s, 1, "")
    {
      if s[end] == '"' {
        return Closed(end, parts);
      }
      if s[end] == '\\' {
        if !(end + 1 < |s| && (s[end + 1] == '"' || s[end + 1] == '\\')) {
          return BadEscape(end);
        }
        parts, end := parts + [s[end + 1]], end + 2;
      } else {
        parts, end := parts + [s[end]], end + 1;
      }
    }
    return Unterminated;
  }

  /** The tokens are these pieces of the text, with their spans. */
  predicate Spanned(tokens: seq<Token>, lexemes: seq<Lexeme>, text: string, starts: LineTable) {
    |tokens| == |lexemes| &&
    forall k :: 0 <= k < |lexemes| ==> SpannedAt(tokens[k], lexemes[k], text, starts)
  }

  predicate SpannedAt(token: Token, lexeme: Lexeme, text: string, starts: LineTable) {
    lexeme.start <= lexeme.end <= |text| && token == TokenOf(starts, text, lexeme)
  }

  lemma SpannedGrows(tokens: seq<Token>, lexemes: seq<Lexeme>, text: string, starts: LineTable, token: Token, lexeme: Lexeme)
    requires Spanned(tokens, lexemes, text, starts) && SpannedAt(token, lexeme, text, starts)
    ensures Spanned(tokens + [token], lexemes + [lexeme], text, starts)
  {
  }

  /** The token of a step, behind the tokens before it. */
  method Emitted(text: string, starts: LineTable, index: nat, kind: Kind, n: nat, value: TokenValue, tokens: seq<Token>,
                 ghost lexemes: seq<Lexeme>)
    returns (more: seq<Token>, ghost added: seq<Lexeme>)
    requires Spanned(tokens, lexemes, text, starts) && index + n <= |text|
    ensures added == lexemes + [Lexeme(kind, index, index + n, value)]
    ensures Spanned(more, added, text, starts)
  {
    var lexeme := Lexeme(kind, index, index + n, value);
    var token := TokenOf(starts, text, lexeme);
    SpannedGrows(tokens, lexemes, text, starts, token, lexeme);
    more, added := tokens + [token], lexemes + [lexeme];
  }

  /** The tokens or the failure of the pieces, with the spans of their offsets. */
  predicate Answers(result: Tokens, lexed: Lexed, text: string, starts: LineTable) {
    match lexed
    case Failed(reason, start, end) => result == Rejected(reason, SpanOf(starts, start, end))
    case Lexed(lexemes) => result.Tokens? && Spanned(result.tokens, lexemes, text, starts)
  }

  /** Tokenizes the whole text, or stops at the first failure with its span. */
  method Tokenize(text: string, limit: nat) returns (result: Tokens, starts: LineTable)
    ensures ListsStarts(starts, text, |text|)
    ensures Answers(result, Lex(text, limit), text, starts)
  {
    starts := LineStarts(text);
    result := ReadTokens(text, limit, starts, StepTable(text, limit));
  }

  method ReadTokens(text: string, limit: nat, starts: LineTable, ghost steps: seq<Step>) returns (result: Tokens)
    requires IsTable(steps, text, limit)
    ensures Answers(result, Assembled(steps, 0), text, starts)
  {
    var tokens: seq<Token> := [];
    ghost var lexemes: seq<Lexeme> := [];
    var index: nat := 0;
    while index < |text|
      invariant index <= |text| && Spanned(tokens, lexemes, text, starts)
      invariant Assembled(steps, 0) == Prepended(lexemes, Assembled(steps, index))
      decreases |text| - index
    {
      var step := NextAt(text, index, limit, steps);
      match step {
        case Skip(n) =>
          index := index + n;
        case Emit(kind, n, value) =>
          PrependedTwice(lexemes, Lexeme(kind, index, index + n, value), Assembled(steps, index + n));
          tokens, lexemes := Emitted(text, starts, index, kind, n, value, tokens, lexemes);
          index := index + n;
        case Fail(reason, from, upTo) =>
          return Rejected(reason, SpanOf(starts, index + from, index + upTo));
      }
    }
    result := Tokens(tokens);
  }

  lemma PrependedTwice(before: seq<Lexeme>, lexeme: Lexeme, after: Lexed)
    ensures Prepended(before, Prepended([lexeme], after)) == Prepended(before + [lexeme], after)
  {
    if after.Lexed? {
      assert before + ([lexeme] + after.lexemes) == before + [lexeme] + after.lexemes;
    }
  }

  /** One iteration: the string branch runs its own loop. */
  method NextAt(text: string, index: nat, limit: nat, ghost steps: seq<Step>) returns (step: Step)
    requires IsTable(steps, text, limit) && index < |text|
    ensures step == steps[index]
  {
    assert StepAt(steps, text, limit, index);
    var rest := text[index..];
    if rest[0] == '"' {
      var scan := ReadQuoted(rest);
      step := QuoteStep(rest, scan, limit);
    } else {
      step := Next(rest, limit);
    }
  }
}
