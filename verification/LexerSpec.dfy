/** The lexer as a function on its state: what one iteration of the main loop does, and what the
    whole run returns. The class in `Lexer.dfy` is proved to compute exactly this. */
module LexerSpec {
  import opened Text
  import opened Tokens

  /** The fields of the lexer, with the input given as what is left of it and a byte offset. */
  datatype LexState = LexState(
    rest: string, offset: nat, scalars: nat, stopped: bool,
    diags: seq<Diagnostic>, tokens: seq<Token>)

  function PeekNext(st: LexState): Option<char> {
    if |st.rest| < 2 then None else Some(st.rest[1])
  }

  function Advance(st: LexState, n: nat): LexState
    requires n <= |st.rest|
  {
    st.(rest := st.rest[n..], offset := st.offset + Bytes(st.rest[..n]))
  }

  function FailLimit(st: LexState, tag: Tag, span: Span): LexState {
    st.(stopped := true, diags := [Diagnostic(tag, span)])
  }

  predicate HasTokenCapacity(st: LexState, limits: ParseLimits) { |st.tokens| < limits.maxTokens }

  function PushToken(st: LexState, limits: ParseLimits, kind: Kind, start: nat): LexState {
    var span := Span(start, st.offset);
    if HasTokenCapacity(st, limits) then st.(tokens := st.tokens + [Token(kind, span)])
    else FailLimit(st, TokenLimit, span)
  }

  function PushDiagnostic(st: LexState, limits: ParseLimits, tag: Tag, span: Span): LexState {
    if |st.diags| >= limits.maxDiagnostics then FailLimit(st, DiagnosticLimit, span)
    else st.(diags := st.diags + [Diagnostic(tag, span)])
  }

  predicate ScalarsFit(st: LexState, limits: ParseLimits, bytes: nat) {
    st.scalars + bytes <= limits.maxScalarBytes
  }

  function ChargeScalars(st: LexState, limits: ParseLimits, bytes: nat, span: Span): LexState {
    if ScalarsFit(st, limits, bytes) then st.(scalars := st.scalars + bytes)
    else FailLimit(st, ScalarLimit, span)
  }

  /** The characters that may follow a backslash, and what they stand for. */
  function Unescape(c: char): Option<char> {
    match c
    case '\\' => Some('\\')
    case '\"' => Some('\"')
    case '\'' => Some('\'')
    case 'n' => Some('\n')
    case 'r' => Some('\r')
    case 't' => Some('\t')
    case _ => None
  }

  /** The rest of a string literal once its opening quote and `value` have been read. */
  function StringBody(st: LexState, limits: ParseLimits, quote: char, start: nat, value: string)
    : (r: LexState)
    ensures |r.rest| <= |st.rest|
    ensures (st.stopped ==> st.diags != []) ==> (r.stopped ==> r.diags != [])
    decreases |st.rest|
  {
    if st.rest == "" then
      PushDiagnostic(st, limits, UnterminatedString, Span(start, st.offset))
    else if st.rest[0] == quote then
      PushToken(Advance(st, 1), limits, StrTok(value), start)
    else if st.rest[0] == '\\' then
      if |st.rest| == 1 then
        var st1 := Advance(st, 1);
        PushDiagnostic(st1, limits, UnterminatedString, Span(start, st1.offset))
      else
        var st2 := Advance(Advance(st, 1), 1);
        match Unescape(st.rest[1])
        case Some(c) =>
          var st3 := ChargeScalars(st2, limits, CharBytes(c), Span(start, st2.offset));
          if st3.stopped then st3 else StringBody(st3, limits, quote, start, value + [c])
        case None =>
          var st3 := PushDiagnostic(st2, limits, UnsupportedEscape, Span(st.offset, st2.offset));
          if st3.stopped then st3 else StringBody(st3, limits, quote, start, value)
    else
      var c := st.rest[0];
      var st1 := Advance(ChargeScalars(st, limits, CharBytes(c), Span(start, st.offset)), 1);
      if st1.stopped then st1 else StringBody(st1, limits, quote, start, value + [c])
  }

  /** Progress: `r` has less left to read than `st`, or has stopped; and if `st` only stopped with
      something to report, so does `r`. */
  predicate Progress(st: LexState, r: LexState) {
    && (r.stopped || |r.rest| < |st.rest|)
    && ((st.stopped ==> st.diags != []) ==> (r.stopped ==> r.diags != []))
  }

  function LexString(st: LexState, limits: ParseLimits): (r: LexState)
    requires st.rest != ""
    ensures Progress(st, r)
  {
    if !HasTokenCapacity(st, limits) then
      FailLimit(st, TokenLimit, Span(st.offset, st.offset + CharBytes(st.rest[0])))
    else
      StringBody(Advance(st, 1), limits, st.rest[0], st.offset, "")
  }

  /** A point and a digit at `at`: the number continues as a float. */
  predicate StartsFraction(s: string, at: nat) {
    |s| > at + 1 && s[at] == '.' && IsDigit(s[at + 1])
  }

  /** Length of the float literal that starts `s`. */
  function FloatRun(s: string): (n: nat)
    requires StartsFraction(s, DigitRun(s))
    ensures DigitRun(s) < n <= |s|
  {
    DigitRun(s) + 1 + DigitRun(s[DigitRun(s) + 1..])
  }

  function FloatFrom(codec: FloatCodec, st: LexState, limits: ParseLimits, n: nat): LexState
    requires n <= |st.rest|
  {
    var st1 := Advance(st, n);
    match codec.read(st.rest[..n])
    case Some(bits) => PushToken(st1, limits, FloatTok(bits), st.offset)
    case None => PushDiagnostic(st1, limits, InvalidFloat, Span(st.offset, st1.offset))
  }

  function IntFrom(st: LexState, limits: ParseLimits, n: nat): LexState
    requires n <= |st.rest| && AllDigits(st.rest[..n])
  {
    var st1 := Advance(st, n);
    var number := NumeralValue(st.rest[..n]);
    if number <= I64_MAX then PushToken(st1, limits, IntTok(number), st.offset)
    else PushDiagnostic(st1, limits, InvalidInt, Span(st.offset, st1.offset))
  }

  function LexNumber(codec: FloatCodec, st: LexState, limits: ParseLimits): (r: LexState)
    ensures st.rest != "" && IsDigit(st.rest[0]) ==> Progress(st, r)
  {
    if StartsFraction(st.rest, DigitRun(st.rest)) then
      FloatFrom(codec, st, limits, FloatRun(st.rest))
    else
      DigitRunDigits(st.rest);
      IntFrom(st, limits, DigitRun(st.rest))
  }

  function WordKind(raw: string): Kind {
    if raw == "true" then TrueTok
    else if raw == "false" then FalseTok
    else if raw == "null" then NullTok
    else IdentTok(raw)
  }

  function LexIdentifier(st: LexState, limits: ParseLimits): (r: LexState)
    requires st.rest != ""
    ensures Progress(st, r)
  {
    var n := 1 + IdentRun(st.rest[1..]);
    var raw := st.rest[..n];
    var st1 := Advance(st, n);
    var span := Span(st.offset, st1.offset);
    if !ScalarsFit(st1, limits, Bytes(raw)) then FailLimit(st1, ScalarLimit, span)
    else
      var st2 := ChargeScalars(st1, limits, Bytes(raw), span);
      if !HasTokenCapacity(st2, limits) then FailLimit(st2, TokenLimit, span)
      else PushToken(st2, limits, WordKind(raw), st.offset)
  }

  function SkipComment(st: LexState): (r: LexState)
    ensures if st.rest == "" then r == st else |r.rest| < |st.rest|
    ensures r.stopped == st.stopped && r.diags == st.diags
    decreases |st.rest|
  {
    if st.rest == "" then st
    else if st.rest[0] == '\n' then Advance(st, 1)
    else SkipComment(Advance(st, 1))
  }

  /** The token a punctuation character starts, and its length, given the character after it. */
  function Punctuation(c: char, next: Option<char>): (r: Option<(Kind, nat)>)
    ensures r.Some? ==> 1 <= r.value.1 <= 2 && (r.value.1 == 2 ==> next.Some?)
    ensures r.Some? ==> KindScalars(r.value.0) == 0 && r.value.0 != Eof
  {
    match c
    case '.' => Some((Dot, 1))
    case ',' => Some((Comma, 1))
    case '(' => Some((LParen, 1))
    case ')' => Some((RParen, 1))
    case '[' => Some((LBracket, 1))
    case ']' => Some((RBracket, 1))
    case '-' => Some((Minus, 1))
    case '+' => Some((Plus, 1))
    case '*' => Some((Star, 1))
    case '%' => Some((Percent, 1))
    case '/' => Some((Slash, 1))
    case '!' => if next == Some('=') then Some((NotEq, 2)) else Some((Bang, 1))
    case '=' => if next == Some('=') then Some((EqEq, 2)) else None
    case '<' => if next == Some('=') then Some((LessEq, 2)) else Some((Less, 1))
    case '>' => if next == Some('=') then Some((GreaterEq, 2)) else Some((Greater, 1))
    case '&' => if next == Some('&') then Some((AndAnd, 2)) else None
    case '|' => if next == Some('|') then Some((OrOr, 2)) else None
    case _ => None
  }

  function LexPunctuation(st: LexState, limits: ParseLimits): (r: LexState)
    requires st.rest != ""
    ensures Progress(st, r)
  {
    match Punctuation(st.rest[0], PeekNext(st))
    case Some((kind, n)) => PushToken(Advance(st, n), limits, kind, st.offset)
    case None =>
      var st1 := Advance(st, 1);
      PushDiagnostic(st1, limits, InvalidChar, Span(st.offset, st1.offset))
  }

  /** One iteration of the main loop. It consumes input or stops, so the loop ends; it stops only
      with something to report. */
  function Step(codec: FloatCodec, st: LexState, limits: ParseLimits): (r: LexState)
    requires st.rest != ""
    ensures !r.stopped ==> |r.rest| < |st.rest|
    ensures (st.stopped ==> st.diags != []) ==> (r.stopped ==> r.diags != [])
  {
    var c := st.rest[0];
    if IsWhitespace(c) then Advance(st, 1)
    else if c == '/' && PeekNext(st) == Some('/') then SkipComment(st)
    else if c == '\"' || c == '\'' then LexString(st, limits)
    else if IsDigit(c) then LexNumber(codec, st, limits)
    else if IsIdentStart(c) then LexIdentifier(st, limits)
    else LexPunctuation(st, limits)
  }

  function Run(codec: FloatCodec, st: LexState, limits: ParseLimits): (r: LexState)
    ensures (st.stopped ==> st.diags != []) && r.diags == [] ==>
      |r.tokens| > 0 && r.tokens[|r.tokens| - 1].kind == Eof
    decreases |st.rest|
  {
    if st.stopped then st
    else if st.rest == "" then PushToken(st, limits, Eof, st.offset)
    else
      var next := Step(codec, st, limits);
      if next.stopped then next else Run(codec, next, limits)
  }

  function Start(input: string): LexState { LexState(input, 0, 0, false, [], []) }

  datatype LexResult = Lexed(tokens: seq<Token>) | LexFailed(diags: seq<Diagnostic>)

  function Tokenize(codec: FloatCodec, input: string, limits: ParseLimits): (r: LexResult)
    ensures r.Lexed? ==> |r.tokens| > 0 && r.tokens[|r.tokens| - 1].kind == Eof
  {
    if Bytes(input) > limits.maxSourceBytes then
      LexFailed([Diagnostic(SourceLimit, Span(0, Bytes(input)))])
    else
      var final := Run(codec, Start(input), limits);
      if final.diags == [] then Lexed(final.tokens) else LexFailed(final.diags)
  }
}
