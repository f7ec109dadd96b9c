/** What every run of the lexer keeps: spans in order and in bounds, exact scalar accounting, and
    only tokens the language can spell. */
module LexerFacts {
  import opened Text
  import opened Tokens
  import opened LexerSpec

  /** Tokens come in source order without overlap, none is empty, all end by `limit`, and each is
      one the lexer can spell. */
  ghost predicate InOrder(codec: FloatCodec, toks: seq<Token>, limit: nat) {
    toks == [] ||
    var last := toks[|toks| - 1];
    && InOrder(codec, toks[..|toks| - 1], last.span.start)
    && last.span.start < last.span.end <= limit
    && Lexable(codec, last.kind) && last.kind != Eof
  }

  lemma {:induction false} InOrderAt(codec: FloatCodec, toks: seq<Token>, limit: nat, i: nat, j: nat)
    requires InOrder(codec, toks, limit) && i <= j < |toks|
    ensures toks[i].span.start < toks[i].span.end <= limit
    ensures i < j ==> toks[i].span.end <= toks[j].span.start
    ensures Lexable(codec, toks[i].kind) && toks[i].kind != Eof
  {
    var n := |toks| - 1;
    if i < n {
      InOrderAt(codec, toks[..n], toks[n].span.start, i, if j < n then j else i);
    }
  }

  /** The structural half of the invariant over an input of `total` bytes; tokens end by `bound`. */
  ghost predicate Tidy(codec: FloatCodec, limits: ParseLimits, st: LexState, total: nat, bound: nat) {
    && InOrder(codec, st.tokens, bound)
    && bound <= st.offset
    && st.offset + Bytes(st.rest) == total
    && (st.stopped ==> st.diags != [])
    && |st.tokens| <= limits.maxTokens
    && st.scalars <= limits.maxScalarBytes
  }

  /** Until something is reported, the charged scalars are the tokens' own plus `extra`. */
  ghost predicate Charged(st: LexState, extra: nat) {
    st.diags == [] ==> st.scalars == ScalarSum(Kinds(st.tokens)) + extra
  }

  /** The invariant of the main loop. */
  ghost predicate Sound(codec: FloatCodec, limits: ParseLimits, st: LexState, total: nat) {
    Tidy(codec, limits, st, total, st.offset) && Charged(st, 0)
  }

  lemma AdvanceTidy(codec: FloatCodec, limits: ParseLimits, st: LexState, total: nat, bound: nat, n: nat)
    requires Tidy(codec, limits, st, total, bound) && n <= |st.rest|
    ensures Tidy(codec, limits, Advance(st, n), total, bound)
    ensures n > 0 ==> Advance(st, n).offset > st.offset
  {
    assert st.rest == st.rest[..n] + st.rest[n..];
    BytesConcat(st.rest[..n], st.rest[n..]);
  }

  lemma TidyLater(codec: FloatCodec, limits: ParseLimits, st: LexState, total: nat, bound: nat)
    requires Tidy(codec, limits, st, total, bound)
    ensures Tidy(codec, limits, st, total, st.offset)
  {
  }

  lemma KindsPush(toks: seq<Token>, token: Token)
    ensures Kinds(toks + [token]) == Kinds(toks) + [token.kind]
    ensures ScalarSum(Kinds(toks + [token])) == ScalarSum(Kinds(toks)) + KindScalars(token.kind)
  {
    assert (Kinds(toks) + [token.kind])[..|toks|] == Kinds(toks);
  }

  lemma InOrderPush(codec: FloatCodec, toks: seq<Token>, token: Token, limit: nat)
    requires InOrder(codec, toks, token.span.start) && token.span.start < token.span.end <= limit
    requires Lexable(codec, token.kind) && token.kind != Eof
    ensures InOrder(codec, toks + [token], limit)
  {
    assert (toks + [token])[..|toks|] == toks;
  }

  lemma PushTokenSound(codec: FloatCodec, limits: ParseLimits, st: LexState, total: nat, kind: Kind, start: nat)
    requires Tidy(codec, limits, st, total, start) && Charged(st, KindScalars(kind))
    requires Lexable(codec, kind) && kind != Eof && start < st.offset
    ensures Sound(codec, limits, PushToken(st, limits, kind, start), total)
  {
    TidyLater(codec, limits, st, total, start);
    hide InOrder, Lexable, ScalarSum, KindScalars;
    var token := Token(kind, Span(start, st.offset));
    KindsPush(st.tokens, token);
    InOrderPush(codec, st.tokens, token, st.offset);
  }

  lemma PushDiagnosticSound(
    codec: FloatCodec, limits: ParseLimits, st: LexState, total: nat, bound: nat, tag: Tag, span: Span)
    requires Tidy(codec, limits, st, total, bound)
    ensures Tidy(codec, limits, PushDiagnostic(st, limits, tag, span), total, bound)
    ensures Sound(codec, limits, PushDiagnostic(st, limits, tag, span), total)
  {
    TidyLater(codec, limits, PushDiagnostic(st, limits, tag, span), total, bound);
  }

  // ----- string literals -----

  /** Inside a literal that started at `start` and has decoded to `value` so far. */
  ghost predicate InString(
    codec: FloatCodec, limits: ParseLimits, st: LexState, total: nat, start: nat, value: string)
  {
    Tidy(codec, limits, st, total, start) && start < st.offset && Charged(st, Bytes(value))
  }

  lemma ChargeInString(
    codec: FloatCodec, limits: ParseLimits, st: LexState, total: nat, start: nat, value: string, c: char, span: Span)
    requires InString(codec, limits, st, total, start, value)
    ensures var r := ChargeScalars(st, limits, CharBytes(c), span);
      InString(codec, limits, r, total, start, value + [c])
  {
    BytesConcat(value, [c]);
    assert [c][1..] == "";
  }

  lemma StopInString(codec: FloatCodec, limits: ParseLimits, st: LexState, total: nat, start: nat, value: string)
    requires InString(codec, limits, st, total, start, value) && st.diags != []
    ensures Sound(codec, limits, st, total)
  {
    TidyLater(codec, limits, st, total, start);
  }

  lemma {:induction false} StringBodySound(
    codec: FloatCodec, limits: ParseLimits, st: LexState, total: nat, quote: char, start: nat, value: string)
    requires InString(codec, limits, st, total, start, value)
    ensures Sound(codec, limits, StringBody(st, limits, quote, start, value), total)
    decreases |st.rest|
  {
    if st.rest == "" {
      PushDiagnosticSound(codec, limits, st, total, start, UnterminatedString, Span(start, st.offset));
    } else {
      AdvanceTidy(codec, limits, st, total, start, 1);
      if st.rest[0] == quote {
        PushTokenSound(codec, limits, Advance(st, 1), total, StrTok(value), start);
      } else if st.rest[0] == '\\' {
        EscapeSound(codec, limits, st, total, quote, start, value);
      } else {
        var c := st.rest[0];
        var charged := ChargeScalars(st, limits, CharBytes(c), Span(start, st.offset));
        ChargeInString(codec, limits, st, total, start, value, c, Span(start, st.offset));
        AdvanceTidy(codec, limits, charged, total, start, 1);
        var st1 := Advance(charged, 1);
        if st1.stopped {
          StopInString(codec, limits, st1, total, start, value + [c]);
        } else {
          StringBodySound(codec, limits, st1, total, quote, start, value + [c]);
        }
      }
    }
  }

  lemma {:induction false} EscapeSound(
    codec: FloatCodec, limits: ParseLimits, st: LexState, total: nat, quote: char, start: nat, value: string)
    requires InString(codec, limits, st, total, start, value)
    requires st.rest != "" && st.rest[0] == '\\' && quote != '\\'
    ensures Sound(codec, limits, StringBody(st, limits, quote, start, value), total)
    decreases |st.rest|, 0
  {
    AdvanceTidy(codec, limits, st, total, start, 1);
    var st1 := Advance(st, 1);
    if |st.rest| == 1 {
      PushDiagnosticSound(codec, limits, st1, total, start, UnterminatedString, Span(start, st1.offset));
    } else {
      AdvanceTidy(codec, limits, st1, total, start, 1);
      var st2 := Advance(st1, 1);
      match Unescape(st.rest[1])
      case Some(c) =>
        var st3 := ChargeScalars(st2, limits, CharBytes(c), Span(start, st2.offset));
        ChargeInString(codec, limits, st2, total, start, value, c, Span(start, st2.offset));
        if st3.stopped {
          StopInString(codec, limits, st3, total, start, value + [c]);
        } else {
          StringBodySound(codec, limits, st3, total, quote, start, value + [c]);
        }
      case None =>
        var span := Span(st.offset, st2.offset);
        var st3 := PushDiagnostic(st2, limits, UnsupportedEscape, span);
        PushDiagnosticSound(codec, limits, st2, total, start, UnsupportedEscape, span);
        if !st3.stopped {
          StringBodySound(codec, limits, st3, total, quote, start, value);
        }
    }
  }

  // ----- the other lexemes -----

  lemma {:induction false} SkipCommentSound(codec: FloatCodec, limits: ParseLimits, st: LexState, total: nat)
    requires Sound(codec, limits, st, total)
    ensures Sound(codec, limits, SkipComment(st), total)
    decreases |st.rest|
  {
    if st.rest != "" {
      AdvanceSound(codec, limits, st, total, 1);
      if st.rest[0] != '\n' { SkipCommentSound(codec, limits, Advance(st, 1), total); }
    }
  }

  lemma AdvanceSound(codec: FloatCodec, limits: ParseLimits, st: LexState, total: nat, n: nat)
    requires Sound(codec, limits, st, total) && n <= |st.rest|
    ensures Sound(codec, limits, Advance(st, n), total)
    ensures Tidy(codec, limits, Advance(st, n), total, st.offset)
    ensures n > 0 ==> Advance(st, n).offset > st.offset
  {
    AdvanceTidy(codec, limits, st, total, st.offset, n);
    TidyLater(codec, limits, Advance(st, n), total, st.offset);
  }

  /** A lexeme of `n` characters that carries no scalar bytes. */
  lemma LexemeSound(codec: FloatCodec, limits: ParseLimits, st: LexState, total: nat, n: nat, kind: Kind)
    requires Sound(codec, limits, st, total) && 0 < n <= |st.rest|
    requires Lexable(codec, kind) && kind != Eof && KindScalars(kind) == 0
    ensures Sound(codec, limits, PushToken(Advance(st, n), limits, kind, st.offset), total)
  {
    AdvanceSound(codec, limits, st, total, n);
    PushTokenSound(codec, limits, Advance(st, n), total, kind, st.offset);
  }

  lemma BadLexemeSound(codec: FloatCodec, limits: ParseLimits, st: LexState, total: nat, n: nat, tag: Tag)
    requires Sound(codec, limits, st, total) && n <= |st.rest|
    ensures var st1 := Advance(st, n);
      Sound(codec, limits, PushDiagnostic(st1, limits, tag, Span(st.offset, st1.offset)), total)
  {
    AdvanceSound(codec, limits, st, total, n);
    var st1 := Advance(st, n);
    PushDiagnosticSound(codec, limits, st1, total, st.offset, tag, Span(st.offset, st1.offset));
  }

  lemma LexNumberSound(codec: FloatCodec, limits: ParseLimits, st: LexState, total: nat)
    requires CodecValid(codec)
    requires Sound(codec, limits, st, total) && st.rest != "" && IsDigit(st.rest[0])
    ensures Sound(codec, limits, LexNumber(codec, st, limits), total)
  {
    var whole := DigitRun(st.rest);
    DigitRunDigits(st.rest);
    if StartsFraction(st.rest, whole) {
      var n := FloatRun(st.rest);
      FloatRunText(st.rest);
      match codec.read(st.rest[..n])
      case Some(bits) => LexemeSound(codec, limits, st, total, n, FloatTok(bits));
      case None => BadLexemeSound(codec, limits, st, total, n, InvalidFloat);
    } else {
      var number := NumeralValue(st.rest[..whole]);
      if number <= I64_MAX {
        LexemeSound(codec, limits, st, total, whole, IntTok(number));
      } else {
        BadLexemeSound(codec, limits, st, total, whole, InvalidInt);
      }
    }
  }

  lemma FloatRunText(s: string)
    requires s != "" && IsDigit(s[0]) && StartsFraction(s, DigitRun(s))
    ensures IsFloatText(s[..FloatRun(s)])
  {
    var whole, n := DigitRun(s), FloatRun(s);
    DigitRunDigits(s);
    DigitRunDigits(s[whole + 1..]);
    var raw := s[..n];
    assert raw[..whole] == s[..whole];
    assert raw[whole + 1..] == s[whole + 1..][..n - whole - 1];
    assert s[whole + 1..][0] == s[whole + 1];
    assert PointAt(raw, whole);
  }

  lemma LexIdentifierSound(codec: FloatCodec, limits: ParseLimits, st: LexState, total: nat)
    requires Sound(codec, limits, st, total) && st.rest != "" && IsIdentStart(st.rest[0])
    ensures Sound(codec, limits, LexIdentifier(st, limits), total)
  {
    hide Lexable, InOrder, ScalarSum, IdentRun, WordKind, KindScalars, Bytes;
    var n := 1 + IdentRun(st.rest[1..]);
    var raw := st.rest[..n];
    WordLexable(codec, st.rest);
    AdvanceSound(codec, limits, st, total, n);
    var st1 := Advance(st, n);
    if ScalarsFit(st1, limits, Bytes(raw)) {
      var st2 := ChargeScalars(st1, limits, Bytes(raw), Span(st.offset, st1.offset));
      PushTokenSound(codec, limits, st2, total, WordKind(raw), st.offset);
    }
  }

  lemma WordLexable(codec: FloatCodec, s: string)
    requires s != "" && IsIdentStart(s[0])
    ensures var raw := s[..1 + IdentRun(s[1..])];
      && Lexable(codec, WordKind(raw)) && WordKind(raw) != Eof
      && KindScalars(WordKind(raw)) == Bytes(raw)
  {
    hide Bytes, IdentRun;
    var raw := s[..1 + IdentRun(s[1..])];
    IdentRunParts(s[1..]);
    forall i | 0 <= i < |raw| ensures IsIdentPart(raw[i]) {
      if i > 0 { assert raw[i] == s[1..][i - 1]; }
    }
    KeywordBytes();
  }

  lemma KeywordBytes()
    ensures Bytes("true") == 4 && Bytes("false") == 5 && Bytes("null") == 4
  {
    assert "true" == ['t'] + (['r'] + (['u'] + ['e']));
    assert "false" == ['f'] + (['a'] + (['l'] + (['s'] + ['e'])));
    assert "null" == ['n'] + (['u'] + (['l'] + ['l']));
  }

  lemma StepSound(codec: FloatCodec, limits: ParseLimits, st: LexState, total: nat)
    requires CodecValid(codec)
    requires Sound(codec, limits, st, total) && st.rest != ""
    ensures Sound(codec, limits, Step(codec, st, limits), total)
  {
    var c := st.rest[0];
    AdvanceSound(codec, limits, st, total, 1);
    if IsWhitespace(c) {
    } else if c == '/' && PeekNext(st) == Some('/') {
      SkipCommentSound(codec, limits, st, total);
    } else if c == '\"' || c == '\'' {
      if HasTokenCapacity(st, limits) {
        StringBodySound(codec, limits, Advance(st, 1), total, c, st.offset, "");
      }
    } else if IsDigit(c) {
      LexNumberSound(codec, limits, st, total);
    } else if IsIdentStart(c) {
      LexIdentifierSound(codec, limits, st, total);
    } else {
      PunctuationSound(codec, limits, st, total);
    }
  }

  lemma PunctuationSound(codec: FloatCodec, limits: ParseLimits, st: LexState, total: nat)
    requires Sound(codec, limits, st, total) && st.rest != ""
    ensures Sound(codec, limits, LexPunctuation(st, limits), total)
  {
    match Punctuation(st.rest[0], PeekNext(st))
    case Some((kind, n)) => LexemeSound(codec, limits, st, total, n, kind);
    case None => BadLexemeSound(codec, limits, st, total, 1, InvalidChar);
  }

  // ----- whole runs -----

  /** What a finished run promises. */
  ghost predicate Finished(codec: FloatCodec, limits: ParseLimits, final: LexState, total: nat) {
    final.diags == [] ==>
      && |final.tokens| > 0
      && final.tokens[|final.tokens| - 1] == Token(Eof, Span(total, total))
      && InOrder(codec, final.tokens[..|final.tokens| - 1], total)
      && |final.tokens| <= limits.maxTokens
      && ScalarSum(Kinds(final.tokens)) <= limits.maxScalarBytes
  }

  lemma EofSound(codec: FloatCodec, limits: ParseLimits, st: LexState, total: nat)
    requires Sound(codec, limits, st, total) && !st.stopped && st.rest == ""
    ensures Finished(codec, limits, PushToken(st, limits, Eof, st.offset), total)
  {
    hide InOrder;
    var final := PushToken(st, limits, Eof, st.offset);
    if final.diags == [] {
      assert final.tokens[..|final.tokens| - 1] == st.tokens;
      assert Kinds(final.tokens)[..|final.tokens| - 1] == Kinds(st.tokens);
    }
  }

  lemma StoppedSound(codec: FloatCodec, limits: ParseLimits, st: LexState, total: nat)
    requires Sound(codec, limits, st, total) && st.stopped
    ensures Finished(codec, limits, st, total)
  {
  }

  lemma {:induction false} RunSound(codec: FloatCodec, limits: ParseLimits, st: LexState, total: nat)
    requires CodecValid(codec) && Sound(codec, limits, st, total)
    ensures Finished(codec, limits, Run(codec, st, limits), total)
    decreases |st.rest|
  {
    hide Step, Sound, CodecValid, Finished, PushToken;
    if st.stopped {
      StoppedSound(codec, limits, st, total);
    } else if st.rest == "" {
      EofSound(codec, limits, st, total);
    } else {
      StepSound(codec, limits, st, total);
      var next := Step(codec, st, limits);
      if next.stopped {
        StoppedSound(codec, limits, next, total);
      } else {
        RunSound(codec, limits, next, total);
      }
    }
  }

  /** Whatever the input and the limits, an accepted input gives a token sequence that ends with
      the end-of-input token, fits every limit, and whose spans are ordered and disjoint. */
  lemma TokenizeSound(codec: FloatCodec, input: string, limits: ParseLimits)
    requires CodecValid(codec)
    ensures var r := Tokenize(codec, input, limits);
      r.Lexed? ==>
        && Bytes(input) <= limits.maxSourceBytes
        && |r.tokens| > 0
        && r.tokens[|r.tokens| - 1] == Token(Eof, Span(Bytes(input), Bytes(input)))
        && InOrder(codec, r.tokens[..|r.tokens| - 1], Bytes(input))
        && |r.tokens| <= limits.maxTokens
        && ScalarSum(Kinds(r.tokens)) <= limits.maxScalarBytes
  {
    hide *;
    StartSound(codec, limits, input);
    RunSound(codec, limits, Start(input), Bytes(input));
    TokenizeRuns(codec, input, limits);
    FinishedParts(codec, limits, Run(codec, Start(input), limits), Bytes(input));
  }

  lemma TokenizeRuns(codec: FloatCodec, input: string, limits: ParseLimits)
    ensures var r, final := Tokenize(codec, input, limits), Run(codec, Start(input), limits);
      r.Lexed? ==> Bytes(input) <= limits.maxSourceBytes && final.diags == [] && r.tokens == final.tokens
  {
    hide Run, Start, Bytes;
  }

  lemma FinishedParts(codec: FloatCodec, limits: ParseLimits, final: LexState, total: nat)
    requires Finished(codec, limits, final, total)
    ensures final.diags == [] ==>
      && |final.tokens| > 0
      && final.tokens[|final.tokens| - 1] == Token(Eof, Span(total, total))
      && InOrder(codec, final.tokens[..|final.tokens| - 1], total)
      && |final.tokens| <= limits.maxTokens
      && ScalarSum(Kinds(final.tokens)) <= limits.maxScalarBytes
  {
    hide InOrder, ScalarSum, Kinds;
  }

  lemma StartSound(codec: FloatCodec, limits: ParseLimits, input: string)
    ensures Sound(codec, limits, Start(input), Bytes(input))
  {
  }
}
