/** The lexer and the lexical grammar: a text is accepted exactly if it can be cut, and then the tokens
    are the ones it is cut into, where they stand. */
module Lexing {
  import opened Text
  import opened Tokens
  import opened LexerSpec
  import opened LexerFacts
  import opened Lexical
  import opened Relex
  import S = Syntax

  // ----- moving on -----

  lemma AdvanceTwice(st: LexState, m: nat, n: nat)
    requires m + n <= |st.rest|
    ensures Advance(Advance(st, m), n) == Advance(st, m + n)
  {
    assert st.rest[m..][n..] == st.rest[m + n..];
    assert st.rest[..m + n] == st.rest[..m] + st.rest[m..][..n];
    BytesConcat(st.rest[..m], st.rest[m..][..n]);
  }

  lemma CutParts(s: string, n: nat)
    requires n <= |s|
    ensures s[..n] + s[n..] == s && |s[..n]| == n
    ensures n > 0 ==> s[..n][0] == s[0]
  {
  }

  /** The state after one token of `n` characters. */
  function After(st: LexState, n: nat, kind: Kind): LexState
    requires n <= |st.rest|
  {
    var moved := Advance(st, n);
    moved.(scalars := st.scalars + KindScalars(kind), tokens := st.tokens + [Token(kind, Span(st.offset, moved.offset))])
  }

  /** Room for one more token. */
  predicate Fits(limits: ParseLimits, st: LexState, kind: Kind) {
    |st.tokens| < limits.maxTokens && st.scalars + KindScalars(kind) <= limits.maxScalarBytes
  }

  lemma PushedAfter(limits: ParseLimits, st: LexState, n: nat, kind: Kind)
    requires n <= |st.rest| && Fits(limits, st, kind)
    ensures PushToken(Advance(st, n).(scalars := st.scalars + KindScalars(kind)), limits, kind, st.offset)
         == After(st, n, kind)
  {
    hide KindScalars, Bytes;
  }

  // ----- what can be cut is read -----

  lemma {:induction false} CommentSkipped(st: LexState, n: nat)
    requires 0 < n <= |st.rest| && (forall i :: 0 <= i < n - 1 ==> st.rest[i] != '\n')
    requires st.rest[n - 1] == '\n' || n == |st.rest|
    ensures SkipComment(st) == Advance(st, n)
    decreases n
  {
    hide Bytes;
    if st.rest[0] == '\n' {
      assert n == 1;
    } else if n > 1 {
      var next := Advance(st, 1);
      forall i | 0 <= i < n - 2 ensures next.rest[i] != '\n' { assert next.rest[i] == st.rest[i + 1]; }
      CommentSkipped(next, n - 1);
      AdvanceTwice(st, 1, n - 1);
    } else {
      assert Advance(st, 1).rest == "";
    }
  }

  lemma GapRead(codec: FloatCodec, limits: ParseLimits, st: LexState, n: nat)
    requires 0 < n <= |st.rest| && Gap(st.rest[..n], st.rest[n..])
    ensures Step(codec, st, limits) == Advance(st, n)
  {
    hide Advance, SkipComment, LexString, LexNumber, LexIdentifier, LexPunctuation, Blank, IsWhitespace;
    var text := st.rest[..n];
    SameClasses(st.rest[0]);
    assert text[0] == st.rest[0];
    if !(n == 1 && Blank(text[0])) {
      SlashIsNoBlank();
      assert text[1] == st.rest[1];
      forall i | 0 <= i < n - 1 ensures st.rest[i] != '\n' { assert text[i] == st.rest[i]; }
      assert text[n - 1] == st.rest[n - 1];
      CommentSkipped(st, n);
    }
  }

  lemma SlashIsNoBlank()
    ensures !IsWhitespace('/')
  {
  }

  lemma WordText(text: string, rest: string)
    requires Word(text) && WordEnds(rest)
    ensures S.IsIdentText(text) && (rest == "" || !IsIdentPart(rest[0]))
  {
    forall i | 0 <= i < |text| ensures IsIdentPart(text[i]) {
      SameClasses(text[i]);
    }
    SameClasses(text[0]);
    if rest != "" { SameClasses(rest[0]); }
  }

  lemma WordRead(codec: FloatCodec, limits: ParseLimits, st: LexState, n: nat, kind: Kind)
    requires 0 < n <= |st.rest| && Word(st.rest[..n]) && WordEnds(st.rest[n..]) && kind == WordKind(st.rest[..n])
    requires KindScalars(kind) == Bytes(st.rest[..n]) && Fits(limits, st, kind)
    ensures Step(codec, st, limits) == After(st, n, kind)
  {
    hide Step, LexIdentifier, PushToken, Advance, WordKind, KindScalars, Bytes, Word, WordEnds, S.IsIdentText;
    var text, rest := st.rest[..n], st.rest[n..];
    CutParts(st.rest, n);
    WordText(text, rest);
    FirstLetter(text);
    StepsToIdentifier(codec, limits, st);
    NameRun(text, rest);
    IdentifierPushes(limits, st, text);
    PushedAfter(limits, st, n, kind);
  }

  lemma FirstLetter(text: string)
    requires S.IsIdentText(text)
    ensures text != "" && IsIdentStart(text[0])
  {
  }

  lemma WordKinds(codec: FloatCodec, text: string, kind: Kind, rest: string)
    requires Spells(codec, text, kind, rest)
    requires kind.IdentTok? || kind.TrueTok? || kind.FalseTok? || kind.NullTok?
    ensures Word(text) && WordEnds(rest) && kind == WordKind(text) && KindScalars(kind) == Bytes(text)
  {
    KeywordBytes();
    KeywordWords();
  }

  lemma KeywordWords()
    ensures Word("true") && Word("false") && Word("null")
  {
  }

  lemma DigitFirst(c: char)
    requires IsDigit(c)
    ensures !IsWhitespace(c) && c != '/' && c != '\"' && c != '\''
  {
  }

  lemma StepsToNumber(codec: FloatCodec, limits: ParseLimits, st: LexState)
    requires st.rest != "" && IsDigit(st.rest[0])
    ensures Step(codec, st, limits) == LexNumber(codec, st, limits)
  {
    hide LexNumber;
    DigitFirst(st.rest[0]);
  }

  lemma IntRead(codec: FloatCodec, limits: ParseLimits, st: LexState, n: nat, number: int)
    requires n <= |st.rest| && Spells(codec, st.rest[..n], IntTok(number), st.rest[n..])
    requires Fits(limits, st, IntTok(number))
    ensures Step(codec, st, limits) == After(st, n, IntTok(number))
  {
    hide Step, PushToken, Advance, NumeralValue, DigitsSpell, Bytes, IsDigit, Digit;
    var text, rest := st.rest[..n], st.rest[n..];
    CutParts(st.rest, n);
    SameDigits(text);
    SameNumbers(text, number);
    if rest != "" { SameClasses(rest[0]); }
    if |rest| >= 2 { SameClasses(rest[1]); }
    DigitRunStops(text, rest);
    assert text[0] == st.rest[0] && IsDigit(text[0]);
    StepsToNumber(codec, limits, st);
    assert |rest| >= 2 ==> st.rest[n] == rest[0] && st.rest[n + 1] == rest[1];
    PushedAfter(limits, st, n, IntTok(number));
    ScalarFree(limits, st, n, IntTok(number));
  }

  /** Most tokens charge nothing. */
  lemma ScalarFree(limits: ParseLimits, st: LexState, n: nat, kind: Kind)
    requires n <= |st.rest| && KindScalars(kind) == 0
    ensures Advance(st, n).(scalars := st.scalars + KindScalars(kind)) == Advance(st, n)
  {
    hide Bytes;
  }

  lemma FloatRead(codec: FloatCodec, limits: ParseLimits, st: LexState, n: nat, bits: S.FloatBits)
    requires n <= |st.rest| && Spells(codec, st.rest[..n], FloatTok(bits), st.rest[n..])
    requires Fits(limits, st, FloatTok(bits))
    ensures Step(codec, st, limits) == After(st, n, FloatTok(bits))
  {
    hide Step, PushToken, Advance, Bytes, IsDigit, Digit;
    var text, rest := st.rest[..n], st.rest[n..];
    CutParts(st.rest, n);
    var i :| 0 < i < |text| && text[i] == '.' && Digits(text[..i]) && Digits(text[i + 1..]);
    FloatLength(st.rest, n, i);
    assert text[0] == st.rest[0] && text[..i][0] == text[0];
    SameDigits(text[..i]);
    StepsToNumber(codec, limits, st);
    PushedAfter(limits, st, n, FloatTok(bits));
    ScalarFree(limits, st, n, FloatTok(bits));
  }

  lemma FloatLength(s: string, n: nat, i: nat)
    requires 0 < i < n <= |s| && s[i] == '.' && Digits(s[..n][..i]) && Digits(s[..n][i + 1..]) && NumberEnds(s[n..])
    ensures DigitRun(s) == i && StartsFraction(s, i) && FloatRun(s) == n
  {
    hide IsDigit, Digit;
    var whole, part, rest := s[..n][..i], s[..n][i + 1..], s[n..];
    SameDigits(whole);
    SameDigits(part);
    if rest != "" { SameClasses(rest[0]); }
    PointIsNoDigit();
    assert s == whole + s[i..] && s[i..][0] == '.';
    DigitRunStops(whole, s[i..]);
    assert s[i + 1..] == part + rest;
    assert s[i + 1] == part[0];
    DigitRunStops(part, rest);
  }

  lemma PointIsNoDigit()
    ensures !IsDigit('.')
  {
  }

  lemma MarkRead(codec: FloatCodec, limits: ParseLimits, st: LexState, n: nat, kind: Kind)
    requires n <= |st.rest| && Fits(limits, st, kind) && KindScalars(kind) == 0
    requires var text, rest := st.rest[..n], st.rest[n..];
      || (&& |text| == 1 && One(text[0]) == Some(kind)
          && (rest == "" || Two(text[0], rest[0]) == None) && !(text[0] == '/' && rest != "" && rest[0] == '/'))
      || (|text| == 2 && Two(text[0], text[1]) == Some(kind))
    ensures Step(codec, st, limits) == After(st, n, kind)
  {
    hide PushToken, Advance, Bytes, One, Two, Punctuation, LexString, LexNumber, LexIdentifier, SkipComment;
    var text, rest := st.rest[..n], st.rest[n..];
    CutParts(st.rest, n);
    SameMarks(st.rest[0], PeekNext(st));
    assert n == 1 && rest != "" ==> st.rest[1] == rest[0];
    assert n == 2 ==> text[1] == st.rest[1];
    MarkClass(text[0]);
    if n == 2 { TwoIsNoComment(text[0], text[1]); }
    PushedAfter(limits, st, n, kind);
    ScalarFree(limits, st, n, kind);
  }

  lemma TwoIsNoComment(c: char, d: char)
    requires Two(c, d).Some?
    ensures c != '/'
  {
  }

  // ----- string literals -----

  lemma EscapeRead(limits: ParseLimits, st: LexState, quote: char, start: nat, value: string, c: char)
    requires |st.rest| >= 2 && st.rest[0] == '\\' && quote != '\\' && EscapeOf(st.rest[1]) == Some(c as int)
    requires !st.stopped && st.scalars + CharBytes(c) <= limits.maxScalarBytes
    ensures StringBody(st, limits, quote, start, value)
         == StringBody(Advance(st, 2).(scalars := st.scalars + CharBytes(c)), limits, quote, start, value + [c])
  {
    hide Advance, EscapeOf, Unescape, CharBytes;
    SameEscapes(st.rest[1]);
    AdvanceKeeps(st, 1);
    AdvanceTwice(st, 1, 1);
    AdvanceKeeps(st, 2);
    StillRuns(st, 2);
    assert Unescape(st.rest[1]) == Some(c);
  }

  lemma StillRuns(st: LexState, n: nat)
    requires n <= |st.rest|
    ensures Advance(st, n).stopped == st.stopped && Advance(st, n).diags == st.diags
  {
    hide Bytes;
  }

  lemma CharRead(limits: ParseLimits, st: LexState, quote: char, start: nat, value: string)
    requires st.rest != "" && st.rest[0] != '\\' && st.rest[0] != quote
    requires !st.stopped && st.scalars + CharBytes(st.rest[0]) <= limits.maxScalarBytes
    ensures StringBody(st, limits, quote, start, value)
         == StringBody(Advance(st, 1).(scalars := st.scalars + CharBytes(st.rest[0])), limits, quote, start,
                       value + [st.rest[0]])
  {
    hide CharBytes, Bytes;
  }

  /** The inside of a literal, its closing quote, and the token. */
  lemma {:induction false} BodyRead(
    limits: ParseLimits, st: LexState, quote: char, start: nat, value: string, n: nat, decoded: string)
    requires n < |st.rest| && st.rest[n] == quote && quote != '\\' && Decodes(quote, st.rest[..n], decoded)
    requires !st.stopped && st.scalars + Bytes(decoded) <= limits.maxScalarBytes
    ensures StringBody(st, limits, quote, start, value)
         == PushToken(Advance(st, n + 1).(scalars := st.scalars + Bytes(decoded)), limits, StrTok(value + decoded), start)
    decreases n
  {
    hide Advance, StringBody, EscapeOf, CharBytes, PushToken;
    var inside := st.rest[..n];
    if n == 0 {
      assert value + decoded == value;
      BodyEnds(limits, st, quote, start, value);
    } else if inside[0] == '\\' {
      EscapeRead(limits, st, quote, start, value, decoded[0]);
      BodyGoesOn(limits, st, quote, start, value, n, decoded, 2);
    } else {
      CharRead(limits, st, quote, start, value);
      BodyGoesOn(limits, st, quote, start, value, n, decoded, 1);
    }
  }

  lemma BodyEnds(limits: ParseLimits, st: LexState, quote: char, start: nat, value: string)
    requires st.rest != "" && st.rest[0] == quote
    ensures StringBody(st, limits, quote, start, value)
         == PushToken(Advance(st, 1).(scalars := st.scalars), limits, StrTok(value), start)
  {
    hide PushToken, Bytes;
  }

  lemma {:induction false} BodyGoesOn(
    limits: ParseLimits, st: LexState, quote: char, start: nat, value: string, n: nat, decoded: string, m: nat)
    requires 1 <= m <= n < |st.rest| && st.rest[n] == quote && quote != '\\' && decoded != ""
    requires Decodes(quote, st.rest[..n][m..], decoded[1..])
    requires !st.stopped && st.scalars + Bytes(decoded) <= limits.maxScalarBytes
    ensures StringBody(Advance(st, m).(scalars := st.scalars + CharBytes(decoded[0])), limits, quote, start,
                       value + [decoded[0]])
         == PushToken(Advance(st, n + 1).(scalars := st.scalars + Bytes(decoded)), limits, StrTok(value + decoded), start)
    decreases n, 0
  {
    hide Decodes, StringBody, CharBytes, PushToken;
    var next := Advance(st, m).(scalars := st.scalars + CharBytes(decoded[0]));
    assert next.rest[..n - m] == st.rest[..n][m..] && next.rest[n - m] == st.rest[n];
    BodyRead(limits, next, quote, start, value + [decoded[0]], n - m, decoded[1..]);
    assert value + [decoded[0]] + decoded[1..] == value + decoded;
    AdvanceTwice(st, m, n - m + 1);
    assert Bytes(decoded) == CharBytes(decoded[0]) + Bytes(decoded[1..]);
    assert Advance(next, n - m + 1) == Advance(Advance(st, m), n - m + 1).(scalars := next.scalars);
  }

  lemma StringRead(codec: FloatCodec, limits: ParseLimits, st: LexState, n: nat, value: string)
    requires n <= |st.rest| && Spells(codec, st.rest[..n], StrTok(value), st.rest[n..])
    requires Fits(limits, st, StrTok(value)) && !st.stopped
    ensures Step(codec, st, limits) == After(st, n, StrTok(value))
  {
    hide Advance, StringBody, Decodes, PushToken, Bytes;
    var text := st.rest[..n];
    var quote := text[0];
    QuoteClass(quote);
    var inner := Advance(st, 1);
    Moved(st, 1);
    assert inner.rest == st.rest[1..];
    assert inner.rest[..n - 2] == text[1..n - 1];
    assert inner.rest[n - 2] == st.rest[n - 1] == text[n - 1];
    BodyRead(limits, inner, quote, st.offset, "", n - 2, value);
    assert "" + value == value;
    AdvanceTwice(st, 1, n - 1);
    Rescaled(st, inner, n);
    PushedAfter(limits, st, n, StrTok(value));
  }

  lemma Moved(st: LexState, n: nat)
    requires n <= |st.rest|
    ensures var r := Advance(st, n);
      && r.rest == st.rest[n..] && r.stopped == st.stopped && r.diags == st.diags && r.scalars == st.scalars
      && r.tokens == st.tokens && r.offset == st.offset + Bytes(st.rest[..n])
  {
  }

  lemma Rescaled(st: LexState, inner: LexState, n: nat)
    requires 1 <= n <= |st.rest| && inner == Advance(st, 1) && Advance(inner, n - 1) == Advance(st, n)
    ensures forall s: nat :: Advance(inner, n - 1).(scalars := s) == Advance(st, n).(scalars := s)
  {
  }

  lemma QuoteClass(c: char)
    requires c == '\"' || c == '\''
    ensures !IsWhitespace(c) && c != '/' && c != '\\'
  {
  }

  /** Any token. */
  lemma TokenRead(codec: FloatCodec, limits: ParseLimits, st: LexState, n: nat, kind: Kind)
    requires 0 < n <= |st.rest| && Spells(codec, st.rest[..n], kind, st.rest[n..])
    requires Fits(limits, st, kind) && !st.stopped
    ensures Step(codec, st, limits) == After(st, n, kind)
  {
    hide Step, After, KindScalars, WordKind, Decodes, DigitsSpell, One, Two, Bytes, Word, WordEnds, NumberEnds, FloatSpelled;
    match kind
    case IdentTok(_) =>
      WordKinds(codec, st.rest[..n], kind, st.rest[n..]);
      WordRead(codec, limits, st, n, kind);
    case TrueTok | FalseTok | NullTok =>
      WordKinds(codec, st.rest[..n], kind, st.rest[n..]);
      WordRead(codec, limits, st, n, kind);
    case IntTok(number) => IntRead(codec, limits, st, n, number);
    case FloatTok(bits) => FloatRead(codec, limits, st, n, bits);
    case StrTok(value) => StringRead(codec, limits, st, n, value);
    case _ =>
      FreeMarks(kind);
      MarkRead(codec, limits, st, n, kind);
  }

  lemma FreeMarks(kind: Kind)
    requires !(kind.IdentTok? || kind.StrTok? || kind.TrueTok? || kind.FalseTok? || kind.NullTok?)
    ensures KindScalars(kind) == 0
  {
  }

  // ----- what is read has been cut -----

  /** From `st` to `next` one piece of `n` characters was read, a token if there is a kind. */
  ghost predicate Cuts(codec: FloatCodec, st: LexState, next: LexState, n: nat, kind: Option<Kind>) {
    && 0 < n <= |st.rest| && next.rest == st.rest[n..] && next.offset == st.offset + Bytes(st.rest[..n])
    && !next.stopped && next.diags == []
    && (match kind
        case None => Gap(st.rest[..n], st.rest[n..]) && next.tokens == st.tokens
        case Some(k) =>
          && Spells(codec, st.rest[..n], k, st.rest[n..])
          && next.tokens == st.tokens + [Token(k, Span(st.offset, next.offset))])
  }

  /** Nothing reported yet. */
  predicate Quiet(st: LexState) { !st.stopped && st.diags == [] }

  lemma PushedCuts(codec: FloatCodec, limits: ParseLimits, st: LexState, n: nat, scalars: nat, kind: Kind)
    requires Quiet(st) && 0 < n <= |st.rest| && Spells(codec, st.rest[..n], kind, st.rest[n..])
    requires PushToken(Advance(st, n).(scalars := scalars), limits, kind, st.offset).diags == []
    ensures Cuts(codec, st, PushToken(Advance(st, n).(scalars := scalars), limits, kind, st.offset), n, Some(kind))
  {
    hide Spells, Bytes;
  }

  lemma {:induction false} CommentLength(st: LexState) returns (n: nat)
    requires st.rest != ""
    ensures 0 < n <= |st.rest| && (forall i :: 0 <= i < n - 1 ==> st.rest[i] != '\n')
    ensures st.rest[n - 1] == '\n' || n == |st.rest|
    ensures SkipComment(st) == Advance(st, n)
    decreases |st.rest|
  {
    hide Bytes;
    if st.rest[0] == '\n' || |st.rest| == 1 {
      n := 1;
      assert st.rest[0] != '\n' ==> Advance(st, 1).rest == "";
    } else {
      var next := Advance(st, 1);
      var m := CommentLength(next);
      n := m + 1;
      assert next.rest[m - 1] == st.rest[n - 1];
      forall i | 0 <= i < n - 1 ensures st.rest[i] != '\n' {
        if i > 0 { assert next.rest[i - 1] == st.rest[i]; }
      }
      AdvanceTwice(st, 1, m);
    }
  }

  lemma CommentCuts(codec: FloatCodec, st: LexState) returns (n: nat)
    requires Quiet(st) && |st.rest| >= 2 && st.rest[0] == '/' && st.rest[1] == '/'
    ensures Cuts(codec, st, SkipComment(st), n, None)
  {
    n := CommentLength(st);
    assert n >= 2;
    Moved(st, n);
    hide Advance, Bytes, SkipComment;
    var text := st.rest[..n];
    assert text[0] == st.rest[0] && text[1] == st.rest[1] && text[n - 1] == st.rest[n - 1];
    forall i | 0 <= i < n - 1 ensures text[i] != '\n' { assert text[i] == st.rest[i]; }
  }

  lemma {:induction false} IdentRunStopsThere(s: string)
    ensures IdentRun(s) < |s| ==> !IsIdentPart(s[IdentRun(s)])
  {
    if s != "" && IsIdentPart(s[0]) { IdentRunStopsThere(s[1..]); }
  }

  lemma RunIsWord(s: string) returns (n: nat)
    requires s != "" && IsIdentStart(s[0])
    ensures n == 1 + IdentRun(s[1..]) <= |s| && Word(s[..n]) && WordEnds(s[n..])
  {
    n := 1 + IdentRun(s[1..]);
    IdentRunParts(s[1..]);
    IdentRunStopsThere(s[1..]);
    forall i | 0 <= i < n ensures Letter(s[..n][i]) || Digit(s[..n][i]) {
      SameClasses(s[i]);
      if i > 0 { assert s[i] == s[1..][i - 1]; }
    }
    SameClasses(s[0]);
    if n < |s| {
      SameClasses(s[n]);
      assert s[n] == s[1..][n - 1];
    }
  }

  lemma WordSpells(codec: FloatCodec, text: string, rest: string)
    requires Word(text) && WordEnds(rest)
    ensures Spells(codec, text, WordKind(text), rest)
  {
  }

  lemma WordCuts(codec: FloatCodec, limits: ParseLimits, st: LexState) returns (n: nat)
    requires Quiet(st) && st.rest != "" && IsIdentStart(st.rest[0]) && LexIdentifier(st, limits).diags == []
    ensures n <= |st.rest| && Cuts(codec, st, LexIdentifier(st, limits), n, Some(WordKind(st.rest[..n])))
  {
    hide Bytes, WordKind, Spells, Word, WordEnds, IdentRun, Cuts;
    n := RunIsWord(st.rest);
    WordSpells(codec, st.rest[..n], st.rest[n..]);
    PushedCuts(codec, limits, st, n, st.scalars + Bytes(st.rest[..n]), WordKind(st.rest[..n]));
  }

  lemma IntCuts(codec: FloatCodec, limits: ParseLimits, st: LexState) returns (n: nat, number: int)
    requires Quiet(st) && st.rest != "" && IsDigit(st.rest[0]) && LexNumber(codec, st, limits).diags == []
    requires !StartsFraction(st.rest, DigitRun(st.rest))
    ensures Cuts(codec, st, LexNumber(codec, st, limits), n, Some(IntTok(number)))
  {
    hide Bytes, NumeralValue, DigitsSpell, Cuts, PushToken, IsDigit, Digit;
    n := DigitRun(st.rest);
    DigitRunDigits(st.rest);
    var text, rest := st.rest[..n], st.rest[n..];
    number := NumeralValue(text);
    SameDigits(text);
    SameNumbers(text, number);
    if rest != "" { SameClasses(rest[0]); }
    if |rest| >= 2 { SameClasses(rest[1]); }
    TooLarge(limits, st, n, number);
    assert Spells(codec, text, IntTok(number), rest);
    PushedCuts(codec, limits, st, n, st.scalars, IntTok(number));
    SameScalars(st, n);
  }

  lemma SameScalars(st: LexState, n: nat)
    requires n <= |st.rest|
    ensures Advance(st, n).(scalars := st.scalars) == Advance(st, n)
  {
    hide Bytes;
  }

  lemma TooLarge(limits: ParseLimits, st: LexState, n: nat, number: int)
    requires n <= |st.rest| && AllDigits(st.rest[..n]) && number == NumeralValue(st.rest[..n])
    requires IntFrom(st, limits, n).diags == []
    ensures number <= I64_MAX && IntFrom(st, limits, n) == PushToken(Advance(st, n), limits, IntTok(number), st.offset)
  {
    hide NumeralValue, Bytes;
  }

  lemma FloatCuts(codec: FloatCodec, limits: ParseLimits, st: LexState) returns (n: nat, bits: S.FloatBits)
    requires Quiet(st) && st.rest != "" && IsDigit(st.rest[0]) && LexNumber(codec, st, limits).diags == []
    requires StartsFraction(st.rest, DigitRun(st.rest))
    ensures Cuts(codec, st, LexNumber(codec, st, limits), n, Some(FloatTok(bits)))
  {
    hide Bytes, Cuts, IsDigit, Digit;
    n := FloatRun(st.rest);
    FloatRunSpelled(st.rest);
    bits := codec.read(st.rest[..n]).value;
    assert Spells(codec, st.rest[..n], FloatTok(bits), st.rest[n..]);
    PushedCuts(codec, limits, st, n, st.scalars, FloatTok(bits));
    SameScalars(st, n);
  }

  lemma FloatRunSpelled(s: string)
    requires s != "" && IsDigit(s[0]) && StartsFraction(s, DigitRun(s))
    ensures FloatSpelled(s[..FloatRun(s)]) && NumberEnds(s[FloatRun(s)..])
  {
    hide IsDigit, Digit;
    var i, n := DigitRun(s), FloatRun(s);
    var text, part := s[..n], s[i + 1..];
    DigitRunDigits(s);
    DigitRunDigits(part);
    assert part[0] == s[i + 1];
    assert text[..i] == s[..i] && text[i + 1..] == part[..n - i - 1];
    SameDigits(text[..i]);
    SameDigits(text[i + 1..]);
    if n < |s| {
      assert s[n] == part[n - i - 1];
      SameClasses(s[n]);
    }
  }

  // ----- string literals, backwards -----

  /** What has been reported stays reported. */
  lemma {:induction false} BodyKeepsReports(limits: ParseLimits, st: LexState, quote: char, start: nat, value: string)
    requires st.diags != []
    ensures StringBody(st, limits, quote, start, value).diags != []
    decreases |st.rest|
  {
    hide Bytes, Unescape, CharBytes;
    if st.rest != "" && st.rest[0] != quote {
      if st.rest[0] == '\\' {
        if |st.rest| > 1 {
          var st2 := Advance(Advance(st, 1), 1);
          match Unescape(st.rest[1])
          case Some(c) =>
            BodyKeepsReports(limits, ChargeScalars(st2, limits, CharBytes(c), Span(start, st2.offset)), quote, start, value + [c]);
          case None =>
            BodyKeepsReports(
              limits, PushDiagnostic(st2, limits, UnsupportedEscape, Span(st.offset, st2.offset)), quote, start, value);
        }
      } else {
        var c := st.rest[0];
        BodyKeepsReports(
          limits, Advance(ChargeScalars(st, limits, CharBytes(c), Span(start, st.offset)), 1), quote, start, value + [c]);
      }
    }
  }

  /** The literal's inside is the first `n` characters of what was left, and stands for `decoded`. */
  ghost predicate BodyIs(
    st: LexState, r: LexState, quote: char, start: nat, value: string, n: nat, decoded: string)
  {
    && n < |st.rest| && st.rest[n] == quote && Decodes(quote, st.rest[..n], decoded)
    && r.rest == st.rest[n + 1..] && r.offset == st.offset + Bytes(st.rest[..n + 1]) && Quiet(r)
    && r.tokens == st.tokens + [Token(StrTok(value + decoded), Span(start, r.offset))]
  }

  lemma {:induction false} BodyCuts(limits: ParseLimits, st: LexState, quote: char, start: nat, value: string)
    returns (n: nat, decoded: string)
    requires Quiet(st) && quote != '\\' && StringBody(st, limits, quote, start, value).diags == []
    ensures BodyIs(st, StringBody(st, limits, quote, start, value), quote, start, value, n, decoded)
    decreases |st.rest|, 1
  {
    hide Bytes, Decodes, Unescape, CharBytes, EscapeOf, BodyIs;
    if st.rest[0] == quote {
      n, decoded := 0, "";
      ClosingIs(limits, st, quote, start, value);
    } else if st.rest[0] == '\\' {
      var st2 := Advance(Advance(st, 1), 1);
      assert |st.rest| > 1;
      match Unescape(st.rest[1])
      case Some(c) =>
        var next := ChargeScalars(st2, limits, CharBytes(c), Span(start, st2.offset));
        AdvanceTwice(st, 1, 1);
        n, decoded := BodyCutsOn(limits, st, quote, start, value, next, 2, c);
      case None =>
        BodyKeepsReports(
          limits, PushDiagnostic(st2, limits, UnsupportedEscape, Span(st.offset, st2.offset)), quote, start, value);
    } else {
      var c := st.rest[0];
      var next := Advance(ChargeScalars(st, limits, CharBytes(c), Span(start, st.offset)), 1);
      n, decoded := BodyCutsOn(limits, st, quote, start, value, next, 1, c);
    }
  }

  lemma ClosingIs(limits: ParseLimits, st: LexState, quote: char, start: nat, value: string)
    requires Quiet(st) && st.rest != "" && st.rest[0] == quote
    requires StringBody(st, limits, quote, start, value).diags == []
    ensures BodyIs(st, StringBody(st, limits, quote, start, value), quote, start, value, 0, "")
  {
    hide Bytes;
    assert value + "" == value && st.rest[..0] == "";
  }

  /** One character of the inside, spelled with `m` characters. */
  lemma {:induction false} BodyCutsOn(
    limits: ParseLimits, st: LexState, quote: char, start: nat, value: string, next: LexState, m: nat, c: char)
    returns (n: nat, decoded: string)
    requires 1 <= m <= |st.rest| && m <= 2 && quote != '\\' && st.rest[0] != quote
    requires if m == 1 then st.rest[0] == c != '\\' else st.rest[0] == '\\' && Unescape(st.rest[1]) == Some(c)
    requires Quiet(st) && Quiet(next) && next == Advance(st, m).(scalars := next.scalars)
    requires StringBody(st, limits, quote, start, value) == StringBody(next, limits, quote, start, value + [c])
    requires StringBody(next, limits, quote, start, value + [c]).diags == []
    ensures BodyIs(st, StringBody(st, limits, quote, start, value), quote, start, value, n, decoded)
    decreases |st.rest|, 0
  {
    hide StringBody, Decodes, Unescape, EscapeOf, Bytes, BodyIs;
    Moved(st, m);
    var k, rest := BodyCuts(limits, next, quote, start, value + [c]);
    n, decoded := m + k, [c] + rest;
    InsideLonger(st, next, StringBody(next, limits, quote, start, value + [c]), quote, start, value, m, c, k, rest);
  }

  lemma InsideLonger(
    st: LexState, next: LexState, r: LexState, quote: char, start: nat, value: string, m: nat, c: char, k: nat, rest: string)
    requires 1 <= m <= |st.rest| && m <= 2 && st.rest[0] != quote
    requires if m == 1 then st.rest[0] == c != '\\' else st.rest[0] == '\\' && Unescape(st.rest[1]) == Some(c)
    requires next.rest == st.rest[m..] && next.offset == st.offset + Bytes(st.rest[..m]) && next.tokens == st.tokens
    requires BodyIs(next, r, quote, start, value + [c], k, rest)
    ensures BodyIs(st, r, quote, start, value, m + k, [c] + rest)
  {
    hide Unescape, EscapeOf, Bytes;
    var n := m + k;
    assert st.rest[n] == next.rest[k];
    var inside := st.rest[..n];
    assert inside[m..] == next.rest[..k] && inside[0] == st.rest[0] && (m == 2 ==> inside[1] == st.rest[1]);
    assert ([c] + rest)[1..] == rest;
    if m == 2 { SameEscapes(st.rest[1]); }
    assert st.rest[..n + 1] == st.rest[..m] + next.rest[..k + 1];
    BytesConcat(st.rest[..m], next.rest[..k + 1]);
    assert next.rest[k + 1..] == st.rest[n + 1..];
    assert value + [c] + rest == value + ([c] + rest);
  }

  lemma StringCuts(codec: FloatCodec, limits: ParseLimits, st: LexState) returns (n: nat, value: string)
    requires Quiet(st) && st.rest != "" && (st.rest[0] == '\"' || st.rest[0] == '\'')
    requires LexString(st, limits).diags == []
    ensures Cuts(codec, st, LexString(st, limits), n, Some(StrTok(value)))
  {
    hide Bytes, Decodes, StringBody;
    var quote := st.rest[0];
    var inner := Advance(st, 1);
    var k, decoded := BodyCuts(limits, inner, quote, st.offset, "");
    n, value := k + 2, decoded;
    assert "" + decoded == decoded;
    var text := st.rest[..n];
    assert text[1..n - 1] == inner.rest[..k] && text[n - 1] == inner.rest[k] && text[0] == quote;
    assert st.rest[..n] == st.rest[..1] + inner.rest[..k + 1];
    BytesConcat(st.rest[..1], inner.rest[..k + 1]);
    assert inner.rest[k + 1..] == st.rest[n..];
  }

  lemma MarkCuts(codec: FloatCodec, limits: ParseLimits, st: LexState) returns (n: nat, kind: Kind)
    requires Quiet(st) && st.rest != "" && !(st.rest[0] == '/' && PeekNext(st) == Some('/'))
    requires LexPunctuation(st, limits).diags == []
    ensures Cuts(codec, st, LexPunctuation(st, limits), n, Some(kind))
  {
    hide Bytes, Punctuation, One, Two, Cuts, Spells;
    var found := Punctuation(st.rest[0], PeekNext(st));
    SameMarks(st.rest[0], PeekNext(st));
    assert found.Some?;
    kind, n := found.value.0, found.value.1;
    MarkSpells(codec, st.rest, n, kind);
    PushedCuts(codec, limits, st, n, st.scalars, kind);
    SameScalars(st, n);
  }

  lemma MarkSpells(codec: FloatCodec, s: string, n: nat, kind: Kind)
    requires s != "" && !(|s| >= 2 && s[0] == '/' && s[1] == '/')
    requires if |s| >= 2 && Two(s[0], s[1]).Some? then n == 2 && Two(s[0], s[1]) == Some(kind)
             else n == 1 && One(s[0]) == Some(kind)
    ensures n <= |s| && Spells(codec, s[..n], kind, s[n..])
  {
    var text, rest := s[..n], s[n..];
    assert text[0] == s[0] && (n == 2 ==> text[1] == s[1]) && (n == 1 && rest != "" ==> rest[0] == s[1]);
  }

  /** One step of a run that reports nothing. */
  lemma StepCuts(codec: FloatCodec, limits: ParseLimits, st: LexState) returns (n: nat, kind: Option<Kind>)
    requires Quiet(st) && st.rest != "" && Step(codec, st, limits).diags == []
    ensures Cuts(codec, st, Step(codec, st, limits), n, kind)
  {
    hide Bytes, LexString, LexNumber, LexIdentifier, LexPunctuation, SkipComment, Spells, Cuts;
    var c := st.rest[0];
    if IsWhitespace(c) {
      n, kind := 1, None;
      BlankCuts(codec, st);
    } else if c == '/' && PeekNext(st) == Some('/') {
      n := CommentCuts(codec, st);
      kind := None;
    } else if c == '\"' || c == '\'' {
      var value;
      n, value := StringCuts(codec, limits, st);
      kind := Some(StrTok(value));
    } else if IsDigit(c) {
      if StartsFraction(st.rest, DigitRun(st.rest)) {
        var bits;
        n, bits := FloatCuts(codec, limits, st);
        kind := Some(FloatTok(bits));
      } else {
        var number;
        n, number := IntCuts(codec, limits, st);
        kind := Some(IntTok(number));
      }
    } else if IsIdentStart(c) {
      n := WordCuts(codec, limits, st);
      kind := Some(WordKind(st.rest[..n]));
    } else {
      var k;
      n, k := MarkCuts(codec, limits, st);
      kind := Some(k);
    }
  }

  lemma BlankCuts(codec: FloatCodec, st: LexState)
    requires Quiet(st) && st.rest != "" && IsWhitespace(st.rest[0])
    ensures Cuts(codec, st, Advance(st, 1), 1, None)
  {
    hide Bytes;
    SameClasses(st.rest[0]);
  }
}
