/** Every span the lexer makes, of a token or of a diagnostic, starts and ends on a character boundary of
    the input. */
module Alignment {
  import opened Text
  import opened Tokens
  import opened LexerSpec

  /** Offset `x` is where a character of the input starts, or where the input ends. */
  ghost predicate OnBoundary(input: string, x: nat) {
    exists k :: 0 <= k <= |input| && x == Bytes(input[..k])
  }

  ghost predicate SpanOn(input: string, span: Span) {
    span.start <= span.end && OnBoundary(input, span.start) && OnBoundary(input, span.end)
  }

  /** The lexer stands before the characters it has yet to read. */
  ghost predicate Stands(input: string, st: LexState, k: nat) {
    k <= |input| && st.rest == input[k..] && st.offset == Bytes(input[..k])
  }

  ghost predicate Aligned(input: string, st: LexState) {
    && (exists k: nat :: Stands(input, st, k))
    && (forall i :: 0 <= i < |st.tokens| ==> SpanOn(input, st.tokens[i].span))
    && (forall i :: 0 <= i < |st.diags| ==> SpanOn(input, st.diags[i].span))
  }

  lemma AlignedHere(input: string, st: LexState)
    requires Aligned(input, st)
    ensures OnBoundary(input, st.offset)
  {
    var k: nat :| Stands(input, st, k);
  }

  lemma AdvanceAligned(input: string, st: LexState, n: nat)
    requires Aligned(input, st) && n <= |st.rest|
    ensures Aligned(input, Advance(st, n)) && OnBoundary(input, Advance(st, n).offset)
  {
    hide SpanOn;
    var k: nat :| Stands(input, st, k);
    assert input[..k + n] == input[..k] + input[k..][..n];
    BytesConcat(input[..k], input[k..][..n]);
    assert Stands(input, Advance(st, n), k + n);
  }

  lemma PushTokenAligned(input: string, limits: ParseLimits, st: LexState, kind: Kind, start: nat)
    requires Aligned(input, st) && start <= st.offset && OnBoundary(input, start)
    ensures Aligned(input, PushToken(st, limits, kind, start))
  {
    hide OnBoundary;
    AlignedHere(input, st);
    StandsStill(input, st, PushToken(st, limits, kind, start));
  }

  lemma PushDiagnosticAligned(input: string, limits: ParseLimits, st: LexState, tag: Tag, span: Span)
    requires Aligned(input, st) && SpanOn(input, span)
    ensures Aligned(input, PushDiagnostic(st, limits, tag, span))
  {
    hide SpanOn;
    StandsStill(input, st, PushDiagnostic(st, limits, tag, span));
  }

  lemma ChargeAligned(input: string, limits: ParseLimits, st: LexState, bytes: nat, span: Span)
    requires Aligned(input, st) && SpanOn(input, span)
    ensures Aligned(input, ChargeScalars(st, limits, bytes, span))
  {
    hide SpanOn;
    StandsStill(input, st, ChargeScalars(st, limits, bytes, span));
  }

  lemma FailAligned(input: string, st: LexState, tag: Tag, span: Span)
    requires Aligned(input, st) && SpanOn(input, span)
    ensures Aligned(input, FailLimit(st, tag, span))
  {
    hide SpanOn;
    StandsStill(input, st, FailLimit(st, tag, span));
  }

  lemma StandsStill(input: string, st: LexState, r: LexState)
    requires (exists k: nat :: Stands(input, st, k)) && r.rest == st.rest && r.offset == st.offset
    ensures exists k: nat :: Stands(input, r, k)
  {
    var k: nat :| Stands(input, st, k);
    assert Stands(input, r, k);
  }

  // ----- lexemes -----

  lemma {:induction false} StringBodyAligned(
    input: string, limits: ParseLimits, st: LexState, quote: char, start: nat, value: string)
    requires Aligned(input, st) && start <= st.offset && OnBoundary(input, start)
    ensures Aligned(input, StringBody(st, limits, quote, start, value))
    decreases |st.rest|
  {
    hide Aligned, OnBoundary, Bytes, Unescape;
    AlignedHere(input, st);
    if st.rest == "" {
      PushDiagnosticAligned(input, limits, st, UnterminatedString, Span(start, st.offset));
    } else {
      AdvanceAligned(input, st, 1);
      var st1 := Advance(st, 1);
      if st.rest[0] == quote {
        PushTokenAligned(input, limits, st1, StrTok(value), start);
      } else if st.rest[0] == '\\' {
        if |st.rest| == 1 {
          PushDiagnosticAligned(input, limits, st1, UnterminatedString, Span(start, st1.offset));
        } else {
          AdvanceAligned(input, st1, 1);
          var st2 := Advance(st1, 1);
          match Unescape(st.rest[1])
          case Some(c) =>
            var st3 := ChargeScalars(st2, limits, CharBytes(c), Span(start, st2.offset));
            ChargeAligned(input, limits, st2, CharBytes(c), Span(start, st2.offset));
            if !st3.stopped { StringBodyAligned(input, limits, st3, quote, start, value + [c]); }
          case None =>
            var st3 := PushDiagnostic(st2, limits, UnsupportedEscape, Span(st.offset, st2.offset));
            PushDiagnosticAligned(input, limits, st2, UnsupportedEscape, Span(st.offset, st2.offset));
            if !st3.stopped { StringBodyAligned(input, limits, st3, quote, start, value); }
        }
      } else {
        var c := st.rest[0];
        var charged := ChargeScalars(st, limits, CharBytes(c), Span(start, st.offset));
        ChargeAligned(input, limits, st, CharBytes(c), Span(start, st.offset));
        AdvanceAligned(input, charged, 1);
        var next := Advance(charged, 1);
        if !next.stopped { StringBodyAligned(input, limits, next, quote, start, value + [c]); }
      }
    }
  }

  lemma StringAligned(input: string, limits: ParseLimits, st: LexState)
    requires Aligned(input, st) && st.rest != ""
    ensures Aligned(input, LexString(st, limits))
  {
    hide Aligned, OnBoundary, StringBody, Bytes;
    AlignedHere(input, st);
    AdvanceAligned(input, st, 1);
    FirstBytes(st.rest);
    FailAligned(input, st, TokenLimit, Span(st.offset, Advance(st, 1).offset));
    StringBodyAligned(input, limits, Advance(st, 1), st.rest[0], st.offset, "");
  }

  lemma FirstBytes(s: string)
    requires s != ""
    ensures Bytes(s[..1]) == CharBytes(s[0])
  {
    assert s[..1][1..] == "";
  }

  /** A lexeme of `n` characters, good or bad. */
  lemma LexemeAligned(input: string, limits: ParseLimits, st: LexState, n: nat)
    requires Aligned(input, st) && n <= |st.rest|
    ensures var st1 := Advance(st, n); var span := Span(st.offset, st1.offset);
      && SpanOn(input, span) && Aligned(input, st1)
      && (forall kind :: Aligned(input, PushToken(st1, limits, kind, st.offset)))
      && (forall tag :: Aligned(input, PushDiagnostic(st1, limits, tag, span)))
      && (forall tag :: Aligned(input, FailLimit(st1, tag, span)))
  {
    hide Aligned, OnBoundary, Bytes, PushToken, PushDiagnostic, FailLimit;
    AlignedHere(input, st);
    AdvanceAligned(input, st, n);
    var st1 := Advance(st, n);
    var span := Span(st.offset, st1.offset);
    forall kind ensures Aligned(input, PushToken(st1, limits, kind, st.offset)) {
      PushTokenAligned(input, limits, st1, kind, st.offset);
    }
    forall tag ensures Aligned(input, PushDiagnostic(st1, limits, tag, span)) {
      PushDiagnosticAligned(input, limits, st1, tag, span);
    }
    forall tag ensures Aligned(input, FailLimit(st1, tag, span)) { FailAligned(input, st1, tag, span); }
  }

  lemma NumberAligned(codec: FloatCodec, input: string, limits: ParseLimits, st: LexState)
    requires Aligned(input, st)
    ensures Aligned(input, LexNumber(codec, st, limits))
  {
    hide Aligned, SpanOn, Bytes, PushToken, PushDiagnostic, FailLimit, NumeralValue, DigitRun;
    DigitRunDigits(st.rest);
    LexemeAligned(input, limits, st, DigitRun(st.rest));
    if StartsFraction(st.rest, DigitRun(st.rest)) { LexemeAligned(input, limits, st, FloatRun(st.rest)); }
  }

  lemma IdentifierAligned(input: string, limits: ParseLimits, st: LexState)
    requires Aligned(input, st) && st.rest != ""
    ensures Aligned(input, LexIdentifier(st, limits))
  {
    hide Aligned, OnBoundary, Bytes, PushToken, WordKind, IdentRun;
    var n := 1 + IdentRun(st.rest[1..]);
    LexemeAligned(input, limits, st, n);
    AlignedHere(input, st);
    var st1 := Advance(st, n);
    var raw, span := st.rest[..n], Span(st.offset, st1.offset);
    if ScalarsFit(st1, limits, Bytes(raw)) {
      ChargeAligned(input, limits, st1, Bytes(raw), span);
      var st2 := ChargeScalars(st1, limits, Bytes(raw), span);
      FailAligned(input, st2, TokenLimit, span);
      PushTokenAligned(input, limits, st2, WordKind(raw), st.offset);
    }
  }

  lemma PunctuationAligned(input: string, limits: ParseLimits, st: LexState)
    requires Aligned(input, st) && st.rest != ""
    ensures Aligned(input, LexPunctuation(st, limits))
  {
    hide Aligned, SpanOn, Bytes, PushToken, PushDiagnostic, FailLimit, Punctuation;
    LexemeAligned(input, limits, st, 1);
    match Punctuation(st.rest[0], PeekNext(st))
    case Some((_, n)) => LexemeAligned(input, limits, st, n);
    case None =>
  }

  lemma {:induction false} CommentAligned(input: string, st: LexState)
    requires Aligned(input, st)
    ensures Aligned(input, SkipComment(st))
    decreases |st.rest|
  {
    hide Aligned, OnBoundary, Bytes;
    if st.rest != "" {
      AdvanceAligned(input, st, 1);
      if st.rest[0] != '\n' { CommentAligned(input, Advance(st, 1)); }
    }
  }

  // ----- whole runs -----

  lemma StepAligned(codec: FloatCodec, input: string, limits: ParseLimits, st: LexState)
    requires Aligned(input, st) && st.rest != ""
    ensures Aligned(input, Step(codec, st, limits))
  {
    hide Aligned, OnBoundary, Bytes, LexString, LexNumber, LexIdentifier, LexPunctuation, SkipComment;
    var c := st.rest[0];
    AdvanceAligned(input, st, 1);
    if IsWhitespace(c) {
    } else if c == '/' && PeekNext(st) == Some('/') {
      CommentAligned(input, st);
    } else if c == '\"' || c == '\'' {
      StringAligned(input, limits, st);
    } else if IsDigit(c) {
      NumberAligned(codec, input, limits, st);
    } else if IsIdentStart(c) {
      IdentifierAligned(input, limits, st);
    } else {
      PunctuationAligned(input, limits, st);
    }
  }

  lemma {:induction false} RunAligned(codec: FloatCodec, input: string, limits: ParseLimits, st: LexState)
    requires Aligned(input, st)
    ensures Aligned(input, Run(codec, st, limits))
    decreases |st.rest|
  {
    hide Aligned, OnBoundary, Step, PushToken;
    if !st.stopped && st.rest == "" {
      AlignedHere(input, st);
      PushTokenAligned(input, limits, st, Eof, st.offset);
    } else if !st.stopped {
      StepAligned(codec, input, limits, st);
      var next := Step(codec, st, limits);
      if !next.stopped { RunAligned(codec, input, limits, next); }
    }
  }

  /** For every input, accepted or not, under all limits. */
  lemma TokenizeAligned(codec: FloatCodec, input: string, limits: ParseLimits)
    ensures match Tokenize(codec, input, limits)
            case Lexed(toks) => forall i :: 0 <= i < |toks| ==> SpanOn(input, toks[i].span)
            case LexFailed(diags) => forall i :: 0 <= i < |diags| ==> SpanOn(input, diags[i].span)
  {
    hide Run;
    assert input[..0] == "" && input[..|input|] == input;
    assert Bytes("") == Bytes(input[..0]) && Bytes(input) == Bytes(input[..|input|]);
    assert OnBoundary(input, 0) && OnBoundary(input, Bytes(input));
    assert Stands(input, Start(input), 0);
    RunAligned(codec, input, limits, Start(input));
  }
}
