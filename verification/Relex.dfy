/** Lexing canonical text gives back the tokens it was written from. */
module Relex {
  import opened Text
  import opened Tokens
  import opened LexerSpec
  import opened Canonical
  import opened Printed
  import S = Syntax

  /** A lexer about to read `text`, with budget left for the tokens `ks`. */
  ghost predicate Ready(limits: ParseLimits, st: LexState, text: string, ks: seq<Kind>) {
    && !st.stopped && st.diags == [] && st.rest == text
    && |st.tokens| + |ks| <= limits.maxTokens
    && st.scalars + ScalarSum(ks) <= limits.maxScalarBytes
  }

  /** From `st` the lexer gets to `r` by reading exactly the tokens `ks`, leaving `rest`. */
  ghost predicate Reads(codec: FloatCodec, limits: ParseLimits, st: LexState, r: LexState, rest: string, ks: seq<Kind>) {
    && !r.stopped && r.diags == [] && r.rest == rest
    && Kinds(r.tokens) == Kinds(st.tokens) + ks
    && r.scalars == st.scalars + ScalarSum(ks)
    && Run(codec, r, limits) == Run(codec, st, limits)
    && Moves(st, r)
  }

  /** Tokens are only added, and the offset advances by what was consumed. */
  ghost predicate Moves(st: LexState, r: LexState) {
    st.tokens <= r.tokens && r.offset + Bytes(r.rest) == st.offset + Bytes(st.rest)
  }

  /** One token was added, from where `st` stood to where `r` stands. */
  ghost predicate Pushed(st: LexState, r: LexState, kind: Kind) {
    r.tokens == st.tokens + [Token(kind, Span(st.offset, r.offset))]
  }

  lemma ReadsThen(
    codec: FloatCodec, limits: ParseLimits, st: LexState, st1: LexState, st2: LexState,
    rest1: string, rest2: string, ks1: seq<Kind>, ks2: seq<Kind>)
    requires Reads(codec, limits, st, st1, rest1, ks1) && Reads(codec, limits, st1, st2, rest2, ks2)
    ensures Reads(codec, limits, st, st2, rest2, ks1 + ks2)
  {
    hide Run, ScalarSum;
    ScalarSumConcat(ks1, ks2);
    assert Kinds(st.tokens) + ks1 + ks2 == Kinds(st.tokens) + (ks1 + ks2);
  }

  lemma ReadyFirst(limits: ParseLimits, st: LexState, text: string, ks1: seq<Kind>, ks2: seq<Kind>)
    requires Ready(limits, st, text, ks1 + ks2)
    ensures Ready(limits, st, text, ks1)
  {
    ScalarSumConcat(ks1, ks2);
  }

  lemma ReadyNext(
    codec: FloatCodec, limits: ParseLimits, st: LexState, st1: LexState,
    text: string, rest1: string, ks1: seq<Kind>, ks2: seq<Kind>)
    requires Ready(limits, st, text, ks1 + ks2) && Reads(codec, limits, st, st1, rest1, ks1)
    ensures Ready(limits, st1, rest1, ks2)
  {
    ScalarSumConcat(ks1, ks2);
    assert |Kinds(st1.tokens)| == |st1.tokens|;
  }

  // ----- one lexeme -----

  lemma Prefix(piece: string, rest: string)
    ensures (piece + rest)[..|piece|] == piece && (piece + rest)[|piece|..] == rest
  {
  }

  /** A token pushed by one iteration that charges exactly its own scalars. */
  lemma PushedReads(codec: FloatCodec, limits: ParseLimits, st: LexState, piece: string, rest: string, kind: Kind)
    requires Ready(limits, st, piece + rest, [kind]) && piece != ""
    requires Step(codec, st, limits)
          == PushToken(Advance(st, |piece|).(scalars := st.scalars + KindScalars(kind)), limits, kind, st.offset)
    ensures Reads(codec, limits, st, Step(codec, st, limits), rest, [kind])
    ensures Pushed(st, Step(codec, st, limits), kind)
  {
    Prefix(piece, rest);
    BytesConcat(piece, rest);
    SumOne(kind);
    var r := Step(codec, st, limits);
    assert Kinds(r.tokens) == Kinds(st.tokens) + [kind];
  }

  lemma SpaceReads(codec: FloatCodec, limits: ParseLimits, st: LexState, rest: string)
    returns (r: LexState)
    requires Ready(limits, st, " " + rest, [])
    ensures Reads(codec, limits, st, r, rest, [])
  {
    r := Step(codec, st, limits);
    Prefix(" ", rest);
    BytesConcat(" ", rest);
    assert r == Advance(st, 1);
    assert Kinds(r.tokens) == Kinds(st.tokens) + [];
  }

  predicate IsPunctuation(c: char) { c in ".,()[]-+*%/!=<>&|" }

  lemma PunctuationClass(c: char)
    requires IsPunctuation(c)
    ensures !IsWhitespace(c) && !IsDigit(c) && !IsIdentStart(c) && c != '\"' && c != '\''
  {
  }

  lemma PunctuationReads(codec: FloatCodec, limits: ParseLimits, st: LexState, piece: string, rest: string, kind: Kind)
    returns (r: LexState)
    requires piece != "" && IsPunctuation(piece[0]) && Ready(limits, st, piece + rest, [kind])
    requires Punctuation(piece[0], PeekNext(st)) == Some((kind, |piece|))
    requires !(piece[0] == '/' && PeekNext(st) == Some('/'))
    ensures Reads(codec, limits, st, r, rest, [kind]) && Pushed(st, r, kind)
  {
    PunctuationClass(piece[0]);
    assert st.rest[0] == piece[0];
    r := Step(codec, st, limits);
    PushedReads(codec, limits, st, piece, rest, kind);
  }

  lemma WordReads(codec: FloatCodec, limits: ParseLimits, st: LexState, name: string, rest: string)
    returns (r: LexState)
    requires S.IsIdentText(name) && (rest == "" || !IsIdentPart(rest[0]))
    requires Ready(limits, st, name + rest, [WordKind(name)]) && KindScalars(WordKind(name)) == Bytes(name)
    ensures Reads(codec, limits, st, r, rest, [WordKind(name)]) && Pushed(st, r, WordKind(name))
  {
    Prefix(name, rest);
    SumOne(WordKind(name));
    WordStep(codec, limits, st, name, rest);
    hide *;
    r := Step(codec, st, limits);
    PushedReads(codec, limits, st, name, rest, WordKind(name));
  }

  lemma WordStep(codec: FloatCodec, limits: ParseLimits, st: LexState, name: string, rest: string)
    requires S.IsIdentText(name) && (rest == "" || !IsIdentPart(rest[0])) && st.rest == name + rest
    requires st.scalars + Bytes(name) <= limits.maxScalarBytes && |st.tokens| < limits.maxTokens
    requires KindScalars(WordKind(name)) == Bytes(name)
    ensures st.rest != ""
    ensures Step(codec, st, limits)
         == PushToken(Advance(st, |name|).(scalars := st.scalars + KindScalars(WordKind(name))), limits, WordKind(name), st.offset)
  {
    assert st.rest[0] == name[0] && IsIdentStart(name[0]);
    hide *;
    Prefix(name, rest);
    NameRun(name, rest);
    StepsToIdentifier(codec, limits, st);
    IdentifierPushes(limits, st, name);
  }

  lemma StepsToIdentifier(codec: FloatCodec, limits: ParseLimits, st: LexState)
    requires st.rest != "" && IsIdentStart(st.rest[0])
    ensures Step(codec, st, limits) == LexIdentifier(st, limits)
  {
    hide LexIdentifier;
    NameClass(st.rest[0]);
  }

  lemma IdentifierPushes(limits: ParseLimits, st: LexState, name: string)
    requires st.rest != "" && 1 + IdentRun(st.rest[1..]) == |name| && st.rest[..|name|] == name
    requires st.scalars + Bytes(name) <= limits.maxScalarBytes && |st.tokens| < limits.maxTokens
    requires KindScalars(WordKind(name)) == Bytes(name)
    ensures LexIdentifier(st, limits)
         == PushToken(Advance(st, |name|).(scalars := st.scalars + KindScalars(WordKind(name))), limits, WordKind(name), st.offset)
  {
    hide WordKind, KindScalars, Bytes, IdentRun, PushToken, FailLimit, Advance;
    AdvanceKeeps(st, |name|);
    assert 1 + IdentRun(st.rest[1..]) == |name|;
    var st1 := Advance(st, |name|);
    var st2 := ChargeScalars(st1, limits, Bytes(name), Span(st.offset, st1.offset));
    assert st2 == st1.(scalars := st.scalars + Bytes(name));
  }

  lemma AdvanceKeeps(st: LexState, n: nat)
    requires n <= |st.rest|
    ensures Advance(st, n).scalars == st.scalars && Advance(st, n).tokens == st.tokens
  {
    hide Bytes;
  }

  lemma NameRun(name: string, rest: string)
    requires S.IsIdentText(name) && (rest == "" || !IsIdentPart(rest[0]))
    ensures 1 + IdentRun((name + rest)[1..]) == |name|
  {
    assert (name + rest)[1..] == name[1..] + rest;
    IdentRunStops(name[1..], rest);
  }

  lemma NameClass(c: char)
    requires IsIdentStart(c)
    ensures !IsWhitespace(c) && c != '/' && c != '\"' && c != '\'' && !IsDigit(c)
  {
  }

  /** `rest` does not continue an integer. */
  predicate AfterInt(rest: string) {
    && (rest == "" || !IsDigit(rest[0]))
    && !(|rest| > 1 && rest[0] == '.' && IsDigit(rest[1]))
  }

  lemma IntReads(codec: FloatCodec, limits: ParseLimits, st: LexState, number: int, rest: string)
    returns (r: LexState)
    requires 0 <= number <= I64_MAX && AfterInt(rest)
    requires Ready(limits, st, IntText(number) + rest, [IntTok(number)])
    ensures Reads(codec, limits, st, r, rest, [IntTok(number)]) && Pushed(st, r, IntTok(number))
  {
    var digits := Numeral(number);
    Prefix(digits, rest);
    DigitRunStops(digits, rest);
    NumeralRoundTrip(number);
    assert st.rest[0] == digits[0];
    assert !StartsFraction(st.rest, |digits|);
    r := Step(codec, st, limits);
    assert r == LexNumber(codec, st, limits);
    PushedReads(codec, limits, st, digits, rest, IntTok(number));
  }

  lemma FloatReads(codec: FloatCodec, limits: ParseLimits, st: LexState, bits: S.FloatBits, rest: string)
    returns (r: LexState)
    requires Readable(codec, bits) && (rest == "" || !IsDigit(rest[0]))
    requires Ready(limits, st, FloatText(codec, bits) + rest, [FloatTok(bits)])
    ensures Reads(codec, limits, st, r, rest, [FloatTok(bits)]) && Pushed(st, r, FloatTok(bits))
  {
    var text := FloatText(codec, bits);
    Prefix(text, rest);
    FloatRunStops(text, rest);
    assert st.rest[0] == text[0];
    r := Step(codec, st, limits);
    assert r == LexNumber(codec, st, limits);
    PushedReads(codec, limits, st, text, rest, FloatTok(bits));
  }

  lemma FloatRunStops(text: string, rest: string)
    requires IsFloatText(text) && (rest == "" || !IsDigit(rest[0]))
    ensures IsDigit(text[0]) && StartsFraction(text + rest, DigitRun(text + rest))
    ensures FloatRun(text + rest) == |text|
  {
    var i :| PointAt(text, i);
    var whole, fraction := text[..i], text[i + 1..];
    FloatSplit(whole, fraction, rest);
    FloatParts(text, i, rest);
  }

  lemma FloatParts(text: string, i: nat, rest: string)
    requires PointAt(text, i)
    ensures IsDigit(text[0])
    ensures text + rest == text[..i] + ("." + (text[i + 1..] + rest)) && |text| == |text[..i]| + 1 + |text[i + 1..]|
  {
    assert text[0] == text[..i][0];
    assert text == text[..i] + ("." + text[i + 1..]);
  }

  lemma FloatSplit(whole: string, fraction: string, rest: string)
    requires whole != "" && fraction != "" && AllDigits(whole) && AllDigits(fraction)
    requires rest == "" || !IsDigit(rest[0])
    ensures var s := whole + ("." + (fraction + rest));
      && DigitRun(s) == |whole| && StartsFraction(s, |whole|)
      && FloatRun(s) == |whole| + 1 + |fraction|
  {
    var tail := "." + (fraction + rest);
    var s := whole + tail;
    DigitRunStops(whole, tail);
    assert s[|whole| + 1] == fraction[0];
    assert s[|whole| + 1..] == fraction + rest;
    DigitRunStops(fraction, rest);
  }

  // ----- string literals -----

  lemma UnescapeEscaped(c: char)
    ensures EscapeChar(c) == [c] ==> c != '\\' && c != '\"'
    ensures EscapeChar(c) != [c] ==>
      |EscapeChar(c)| == 2 && EscapeChar(c)[0] == '\\' && Unescape(EscapeChar(c)[1]) == Some(c)
  {
  }

  /** Reading the escapes of `left` continues the literal with exactly those characters. */
  lemma {:induction false} EscapedReads(
    limits: ParseLimits, st: LexState, start: nat, value: string, left: string, after: string)
    returns (r: LexState)
    requires !st.stopped && st.rest == Escaped(left, "\"" + after)
    requires st.scalars + Bytes(left) <= limits.maxScalarBytes
    ensures r.rest == "\"" + after
    ensures r == st.(rest := r.rest, offset := r.offset, scalars := st.scalars + Bytes(left))
    ensures r.offset + Bytes(r.rest) == st.offset + Bytes(st.rest)
    ensures StringBody(st, limits, '\"', start, value) == StringBody(r, limits, '\"', start, value + left)
    decreases left
  {
    hide *;
    EscapedParts(left, "\"" + after);
    if left == "" {
      r := st;
      assert value + left == value;
    } else {
      var c, piece, tail := left[0], EscapeChar(left[0]), Escaped(left[1..], "\"" + after);
      UnescapeEscaped(c);
      Prefix(piece, tail);
      BytesConcat(piece, tail);
      var next := st.(rest := tail, offset := st.offset + Bytes(piece), scalars := st.scalars + CharBytes(c));
      EscapeStep(limits, st, start, value, c, tail);
      r := EscapedReads(limits, next, start, value + [c], left[1..], after);
      assert value + [c] + left[1..] == value + left;
    }
  }

  lemma EscapedParts(left: string, rest: string)
    ensures left == "" ==> Escaped(left, rest) == rest && Bytes(left) == 0
    ensures left != "" ==>
      && Escaped(left, rest) == EscapeChar(left[0]) + Escaped(left[1..], rest)
      && Bytes(left) == CharBytes(left[0]) + Bytes(left[1..])
  {
    hide EscapeChar, CharBytes;
  }

  lemma EscapeStep(limits: ParseLimits, st: LexState, start: nat, value: string, c: char, tail: string)
    requires !st.stopped && st.rest == EscapeChar(c) + tail
    requires st.scalars + CharBytes(c) <= limits.maxScalarBytes
    ensures var next := st.(rest := tail, offset := st.offset + Bytes(EscapeChar(c)), scalars := st.scalars + CharBytes(c));
      StringBody(st, limits, '\"', start, value) == StringBody(next, limits, '\"', start, value + [c])
  {
    hide StringBody;
    UnescapeEscaped(c);
    var piece := EscapeChar(c);
    if piece == [c] {
      assert st.rest[0] == c;
      Prefix([c], tail);
      PlainStep(limits, st, start, value);
    } else {
      assert st.rest[0] == piece[0] && st.rest[1] == piece[1];
      AdvancePair(st, piece, tail);
      PairStep(limits, st, start, value, c);
    }
  }

  lemma AdvancePair(st: LexState, piece: string, tail: string)
    requires |piece| == 2 && st.rest == piece + tail
    ensures Advance(Advance(st, 1), 1) == st.(rest := tail, offset := st.offset + Bytes(piece))
  {
    assert piece == [piece[0]] + [piece[1]];
    BytesConcat([piece[0]], [piece[1]]);
    assert st.rest[..1] == [piece[0]] && st.rest[1..][..1] == [piece[1]] && st.rest[1..][1..] == tail;
  }

  lemma PlainStep(limits: ParseLimits, st: LexState, start: nat, value: string)
    requires !st.stopped && st.rest != "" && st.rest[0] != '\\' && st.rest[0] != '\"'
    requires st.scalars + CharBytes(st.rest[0]) <= limits.maxScalarBytes
    ensures StringBody(st, limits, '\"', start, value)
         == StringBody(Advance(st, 1).(scalars := st.scalars + CharBytes(st.rest[0])),
                       limits, '\"', start, value + [st.rest[0]])
  {
  }

  lemma PairStep(limits: ParseLimits, st: LexState, start: nat, value: string, c: char)
    requires !st.stopped && |st.rest| >= 2 && st.rest[0] == '\\' && Unescape(st.rest[1]) == Some(c)
    requires st.scalars + CharBytes(c) <= limits.maxScalarBytes
    ensures StringBody(st, limits, '\"', start, value)
         == StringBody(Advance(Advance(st, 1), 1).(scalars := st.scalars + CharBytes(c)),
                       limits, '\"', start, value + [c])
  {
  }

  lemma QuotedReads(codec: FloatCodec, limits: ParseLimits, st: LexState, text: string, after: string)
    returns (r: LexState)
    requires Ready(limits, st, Quoted(text, after), [StrTok(text)])
    ensures Reads(codec, limits, st, r, after, [StrTok(text)]) && Pushed(st, r, StrTok(text))
  {
    var body := Escaped(text, "\"" + after);
    Prefix("\"", body);
    BytesConcat("\"", body);
    BytesConcat("\"", after);
    SumOne(StrTok(text));
    var body1 := Advance(st, 1);
    var closing := EscapedReads(limits, body1, st.offset, "", text, after);
    assert "" + text == text;
    Prefix("\"", after);
    r := Step(codec, st, limits);
    assert r == StringBody(body1, limits, '\"', st.offset, "");
    assert r == PushToken(Advance(closing, 1), limits, StrTok(text), st.offset);
    assert Kinds(r.tokens) == Kinds(st.tokens) + [StrTok(text)];
  }
}
