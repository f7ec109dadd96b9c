/** The lexer as the source has it: an object that advances through the input, appends tokens and
    diagnostics, and stops at the first limit. Every method is proved against `LexerSpec`. */
module Lexer {
  import opened Text
  import opened Tokens
  import opened LexerSpec

  class Lexer {
    const codec: FloatCodec
    const limits: ParseLimits
    const input: string
    var index: nat
    var position: nat
    var scalars: nat
    var stopped: bool
    var diags: seq<Diagnostic>
    var tokens: seq<Token>

    ghost predicate Valid()
      reads this
    {
      index <= |input|
    }

    /** The state the specification talks about: the input from `index` on, and every counter. */
    ghost function State(): LexState
      reads this
      requires Valid()
    {
      LexState(input[index..], position, scalars, stopped, diags, tokens)
    }

    constructor (codec: FloatCodec, input: string, limits: ParseLimits)
      ensures Valid() && State() == Start(input)
      ensures this.codec == codec && this.limits == limits
    {
      this.codec := codec;
      this.limits := limits;
      this.input := input;
      index, position, scalars, stopped := 0, 0, 0, false;
      diags, tokens := [], [];
      new;
      assert input[0..] == input;
    }

    /** The main loop, then the end-of-input token. */
    method RunAll()
      requires Valid()
      modifies this
      ensures Valid() && State() == Run(codec, old(State()), limits)
    {
      ghost var start := State();
      while !stopped && index < |input|
        invariant Valid()
        invariant Run(codec, State(), limits) == Run(codec, start, limits)
        decreases !stopped, |input| - index
      {
        ghost var before := State();
        assert input[index] == before.rest[0];
        LexOne();
      }
      if !stopped {
        PushTok(Eof, position);
      }
    }

    /** One iteration of the main loop, dispatching on the next character. */
    method LexOne()
      requires Valid() && index < |input|
      modifies this
      ensures Valid() && State() == Step(codec, old(State()), limits)
    {
      var c := input[index];
      var next := PeekNextChar();
      if IsWhitespace(c) {
        AdvanceChar();
      } else if c == '/' && next == Some('/') {
        SkipLineComment();
      } else if c == '\"' || c == '\'' {
        LexStr(c);
      } else if IsDigit(c) {
        LexNum();
      } else if IsIdentStart(c) {
        LexIdent();
      } else {
        LexPunct(c, next);
      }
    }

    method LexPunct(c: char, next: Option<char>)
      requires Valid() && index < |input| && c == input[index] && next == PeekNext(State())
      modifies this
      ensures Valid() && State() == LexPunctuation(old(State()), limits)
    {
      AdvanceSplits(State(), 1, if |State().rest| > 1 then 1 else 0);
      match c
      case '.' => PushSimple(Dot);
      case ',' => PushSimple(Comma);
      case '(' => PushSimple(LParen);
      case ')' => PushSimple(RParen);
      case '[' => PushSimple(LBracket);
      case ']' => PushSimple(RBracket);
      case '-' => PushSimple(Minus);
      case '+' => PushSimple(Plus);
      case '*' => PushSimple(Star);
      case '%' => PushSimple(Percent);
      case '/' => PushSimple(Slash);
      case '!' => if next == Some('=') { PushTwo(NotEq); } else { PushSimple(Bang); }
      case '=' => if next == Some('=') { PushTwo(EqEq); } else { InvalidCharacter(); }
      case '<' => if next == Some('=') { PushTwo(LessEq); } else { PushSimple(Less); }
      case '>' => if next == Some('=') { PushTwo(GreaterEq); } else { PushSimple(Greater); }
      case '&' => if next == Some('&') { PushTwo(AndAnd); } else { InvalidCharacter(); }
      case '|' => if next == Some('|') { PushTwo(OrOr); } else { InvalidCharacter(); }
      case _ => InvalidCharacter();
    }

    method LexStr(quote: char)
      requires Valid() && index < |input| && input[index] == quote
      modifies this
      ensures Valid() && State() == LexString(old(State()), limits)
    {
      var start := position;
      if |tokens| >= limits.maxTokens {
        FailWith(TokenLimit, Span(start, start + CharBytes(quote)));
        return;
      }
      AdvanceChar();
      var value := "";
      ghost var goal := StringBody(State(), limits, quote, start, value);
      while index < |input|
        invariant Valid()
        invariant StringBody(State(), limits, quote, start, value) == goal
        decreases |input| - index
      {
        var c := input[index];
        assert State().rest[0] == c;
        if c == quote {
          AdvanceChar();
          PushTok(StrTok(value), start);
          return;
        }
        if c == '\\' {
          var escapeStart := position;
          AdvanceChar();
          if index == |input| {
            break;
          }
          var escaped := input[index];
          AdvanceChar();
          match Unescape(escaped)
          case Some(u) =>
            var charged := Charge(CharBytes(u), Span(start, position));
            if charged { value := value + [u]; }
          case None =>
            PushDiag(UnsupportedEscape, Span(escapeStart, position));
        } else {
          var charged := Charge(CharBytes(c), Span(start, position));
          if charged { value := value + [c]; }
          AdvanceChar();
        }
        if stopped {
          return;
        }
      }
      PushDiag(UnterminatedString, Span(start, position));
    }

    method LexNum()
      requires Valid() && index < |input| && IsDigit(input[index])
      modifies this
      ensures Valid() && State() == LexNumber(codec, old(State()), limits)
    {
      var from, start := index, position;
      ghost var before := State();
      SkipDigits();
      ghost var whole := DigitRun(before.rest);
      var isFloat := index + 1 < |input| && input[index] == '.' && IsDigit(input[index + 1]);
      assert isFloat == StartsFraction(before.rest, whole);
      if isFloat {
        assert State() == Advance(before, whole);
        SkipFraction(before);
        assert |State().rest| == |before.rest| - FloatRun(before.rest);
        FinishFloat(from, start, before, FloatRun(before.rest));
      } else {
        DigitRunDigits(before.rest);
        FinishInt(from, start, before, whole);
      }
    }

    /** The point and the digits after it. */
    method SkipFraction(ghost before: LexState)
      requires Valid() && StartsFraction(before.rest, DigitRun(before.rest))
      requires State() == Advance(before, DigitRun(before.rest))
      modifies this`index, this`position
      ensures Valid() && State() == Advance(before, FloatRun(before.rest))
    {
      ghost var whole := DigitRun(before.rest);
      AdvanceChar();
      SkipDigits();
      AdvanceSplits(before, whole, 1);
      AdvanceSplits(before, whole + 1, DigitRun(before.rest[whole + 1..]));
    }

    method FinishFloat(from: nat, start: nat, ghost before: LexState, ghost n: nat)
      requires Valid() && n <= |before.rest| && State() == Advance(before, n)
      requires from <= |input| && before.rest == input[from..] && index == from + n && before.offset == start
      modifies this`tokens, this`stopped, this`diags
      ensures Valid()
      ensures State() == FloatFrom(codec, before, limits, n)
    {
      var raw := input[from..index];
      assert raw == before.rest[..n];
      match codec.read(raw)
      case Some(bits) => PushTok(FloatTok(bits), start);
      case None => PushDiag(InvalidFloat, Span(start, position));
    }

    method FinishInt(from: nat, start: nat, ghost before: LexState, ghost n: nat)
      requires Valid() && n <= |before.rest| && State() == Advance(before, n)
      requires from <= |input| && before.rest == input[from..] && index == from + n && before.offset == start
      requires AllDigits(before.rest[..n])
      modifies this`tokens, this`stopped, this`diags
      ensures Valid()
      ensures State() == IntFrom(before, limits, n)
    {
      var raw := input[from..index];
      assert raw == before.rest[..n];
      var number := NumeralValue(raw);
      if number <= I64_MAX {
        PushTok(IntTok(number), start);
      } else {
        PushDiag(InvalidInt, Span(start, position));
      }
    }

    method SkipDigits()
      requires Valid()
      modifies this`index, this`position
      ensures Valid() && State() == Advance(old(State()), DigitRun(old(State()).rest))
    {
      ghost var start := State();
      ghost var n := 0;
      while index < |input| && IsDigit(input[index])
        invariant Valid() && n <= |start.rest| && State() == Advance(start, n)
        invariant DigitRun(start.rest) == n + DigitRun(State().rest)
      {
        assert State().rest[1..] == input[index + 1..];
        AdvanceChar();
        AdvanceSplits(start, n, 1);
        n := n + 1;
      }
    }

    method LexIdent()
      requires Valid() && index < |input| && IsIdentStart(input[index])
      modifies this
      ensures Valid() && State() == LexIdentifier(old(State()), limits)
    {
      var from, start := index, position;
      ghost var before := State();
      AdvanceChar();
      ghost var n := 1;
      while index < |input| && IsIdentPart(input[index])
        invariant Valid() && n == index - from && State() == Advance(before, n)
        invariant 1 + IdentRun(before.rest[1..]) == n + IdentRun(State().rest)
      {
        assert State().rest[1..] == input[index + 1..];
        AdvanceChar();
        AdvanceSplits(before, n, 1);
        n := n + 1;
      }
      var raw := input[from..index];
      assert raw == before.rest[..n];
      var span := Span(start, position);
      var charged := Charge(Bytes(raw), span);
      if !charged {
        return;
      }
      if |tokens| >= limits.maxTokens {
        FailWith(TokenLimit, span);
        return;
      }
      PushTok(WordKind(raw), start);
    }

    method SkipLineComment()
      requires Valid()
      modifies this`index, this`position
      ensures Valid() && State() == SkipComment(old(State()))
    {
      ghost var goal := SkipComment(State());
      while index < |input|
        invariant Valid() && SkipComment(State()) == goal
      {
        var c := input[index];
        AdvanceChar();
        if c == '\n' {
          return;
        }
      }
    }

    method PushSimple(kind: Kind)
      requires Valid() && index < |input|
      modifies this
      ensures Valid() && State() == PushToken(Advance(old(State()), 1), limits, kind, old(position))
    {
      var start := position;
      AdvanceChar();
      PushTok(kind, start);
    }

    method PushTwo(kind: Kind)
      requires Valid() && index + 1 < |input|
      modifies this
      ensures Valid() && State() == PushToken(Advance(old(State()), 2), limits, kind, old(position))
    {
      var start := position;
      AdvanceSplits(State(), 1, 1);
      AdvanceChar();
      AdvanceChar();
      PushTok(kind, start);
    }

    method InvalidCharacter()
      requires Valid() && index < |input|
      modifies this
      ensures Valid()
      ensures State() == PushDiagnostic(Advance(old(State()), 1), limits, InvalidChar,
                                        Span(old(position), Advance(old(State()), 1).offset))
    {
      var start := position;
      AdvanceChar();
      PushDiag(InvalidChar, Span(start, position));
    }

    function PeekNextChar(): (c: Option<char>)
      reads this
      requires Valid()
      ensures c == PeekNext(State())
    {
      if index + 1 < |input| then Some(input[index + 1]) else None
    }

    method AdvanceChar()
      requires Valid() && index < |input|
      modifies this`index, this`position
      ensures Valid() && State() == Advance(old(State()), 1) && index == old(index) + 1
    {
      assert State().rest[..1] == [input[index]] && [input[index]][1..] == "";
      assert Bytes([input[index]]) == CharBytes(input[index]) + Bytes([input[index]][1..]);
      assert State().rest[1..] == input[index + 1..];
      position := position + CharBytes(input[index]);
      index := index + 1;
    }

    method PushTok(kind: Kind, start: nat)
      requires Valid()
      modifies this`tokens, this`stopped, this`diags
      ensures Valid() && State() == PushToken(old(State()), limits, kind, start)
    {
      if |tokens| >= limits.maxTokens {
        FailWith(TokenLimit, Span(start, position));
        return;
      }
      tokens := tokens + [Token(kind, Span(start, position))];
    }

    method PushDiag(tag: Tag, span: Span)
      requires Valid()
      modifies this`stopped, this`diags
      ensures Valid() && State() == PushDiagnostic(old(State()), limits, tag, span)
    {
      if |diags| >= limits.maxDiagnostics {
        FailWith(DiagnosticLimit, span);
        return;
      }
      diags := diags + [Diagnostic(tag, span)];
    }

    method Charge(bytes: nat, span: Span) returns (ok: bool)
      requires Valid()
      modifies this`scalars, this`stopped, this`diags
      ensures Valid() && State() == ChargeScalars(old(State()), limits, bytes, span)
      ensures ok == ScalarsFit(old(State()), limits, bytes)
    {
      if scalars + bytes > limits.maxScalarBytes {
        FailWith(ScalarLimit, span);
        return false;
      }
      scalars := scalars + bytes;
      return true;
    }

    method FailWith(tag: Tag, span: Span)
      requires Valid()
      modifies this`stopped, this`diags
      ensures Valid() && State() == FailLimit(old(State()), tag, span)
    {
      diags := [Diagnostic(tag, span)];
      stopped := true;
    }
  }

  lemma AdvanceSplits(st: LexState, m: nat, n: nat)
    requires m + n <= |st.rest|
    ensures Advance(Advance(st, m), n) == Advance(st, m + n)
  {
    assert st.rest[..m + n] == st.rest[..m] + st.rest[m..][..n];
    BytesConcat(st.rest[..m], st.rest[m..][..n]);
    assert st.rest[m..][n..] == st.rest[m + n..];
  }

  method TokenizeInput(codec: FloatCodec, input: string, limits: ParseLimits) returns (r: LexResult)
    ensures r == Tokenize(codec, input, limits)
  {
    if Bytes(input) > limits.maxSourceBytes {
      return LexFailed([Diagnostic(SourceLimit, Span(0, Bytes(input)))]);
    }
    var lexer := new Lexer(codec, input, limits);
    lexer.RunAll();
    r := if lexer.diags == [] then Lexed(lexer.tokens) else LexFailed(lexer.diags);
  }
}
