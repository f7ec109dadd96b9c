/** How much longer canonical text can be than its source: at most three bytes for one. Under the
    default parse limits the default formatter therefore never refuses a parsed AST. */
module Growth {
  import opened Text
  import opened Tokens
  import opened LexerSpec
  import opened LexerFacts
  import opened Spanned
  import opened Grammar
  import opened Canonical
  import opened Printed
  import opened Layouts
  import opened Formatter
  import opened RoundTrip
  import opened FormatLaw
  import S = Syntax

  const DEFAULT_PARSE := ParseLimits(1024 * 1024, 1024 * 1024, 262144, 1024, 65536, 65536)

  /** A float prints in at most three times the bytes of any literal it is read from. Rust's display
      is the shortest decimal that reads back, written out without an exponent. */
  ghost predicate CompactCodec(codec: FloatCodec) {
    forall raw {:trigger codec.read(raw)} :: IsFloatText(raw) && codec.read(raw).Some? ==>
      Bytes(FloatText(codec, codec.read(raw).value)) <= 3 * Bytes(raw)
  }

  // ----- the bytes a token can take in canonical text -----

  /** With the spaces around a binary operator and after a comma. */
  function Weight(codec: FloatCodec, k: Kind): nat {
    match k
    case IdentTok(name) => Bytes(name)
    case StrTok(text) => Bytes(Quoted(text, ""))
    case IntTok(number) => Bytes(IntText(number))
    case FloatTok(bits) => Bytes(FloatText(codec, bits))
    case TrueTok | NullTok | EqEq | NotEq | LessEq | GreaterEq | AndAnd | OrOr => 4
    case FalseTok => 5
    case Minus | Plus | Star | Slash | Percent | Less | Greater => 3
    case Comma => 2
    case Dot | LParen | RParen | LBracket | RBracket | Bang => 1
    case Eof => 0
  }

  function WeightSum(codec: FloatCodec, ks: seq<Kind>): nat {
    if ks == [] then 0 else WeightSum(codec, ks[..|ks| - 1]) + Weight(codec, ks[|ks| - 1])
  }

  lemma {:induction false} WeightConcat(codec: FloatCodec, a: seq<Kind>, b: seq<Kind>)
    ensures WeightSum(codec, a + b) == WeightSum(codec, a) + WeightSum(codec, b)
  {
    hide Weight;
    if b == [] {
      assert a + b == a;
    } else {
      assert (a + b)[..|a + b| - 1] == a + b[..|b| - 1];
      WeightConcat(codec, a, b[..|b| - 1]);
    }
  }

  lemma WeightOne(codec: FloatCodec, k: Kind)
    ensures WeightSum(codec, [k]) == Weight(codec, k)
  {
    hide Weight;
    assert [k][..0] == [];
  }

  lemma WeightTwo(codec: FloatCodec, a: Kind, b: Kind)
    ensures WeightSum(codec, [a, b]) == Weight(codec, a) + Weight(codec, b)
  {
    hide Weight;
    assert [a, b] == [a] + [b];
    WeightConcat(codec, [a], [b]);
    WeightOne(codec, a);
    WeightOne(codec, b);
  }

  // ----- every token is at least a third as wide in the source -----

  /** What has been read so far pays for the tokens. */
  ghost predicate Paid(codec: FloatCodec, st: LexState, read: nat) {
    WeightSum(codec, Kinds(st.tokens)) <= 3 * read
  }

  lemma PushPaid(codec: FloatCodec, limits: ParseLimits, st: LexState, kind: Kind, start: nat)
    requires Paid(codec, st, start) && start <= st.offset && Weight(codec, kind) <= 3 * (st.offset - start)
    ensures Paid(codec, PushToken(st, limits, kind, start), PushToken(st, limits, kind, start).offset)
  {
    hide Weight;
    var token := Token(kind, Span(start, st.offset));
    assert Kinds(st.tokens + [token]) == Kinds(st.tokens) + [kind];
    WeightConcat(codec, Kinds(st.tokens), [kind]);
    WeightOne(codec, kind);
  }

  lemma EscapedBytes(text: string)
    ensures Bytes(Quoted(text, "")) == Bytes(Escaped(text, "")) + 2
  {
    hide Escaped;
    EscapedAppends(text, "", "\"");
    assert "" + "\"" == "\"" && "\"" + "" == "\"";
    OneByte('\"');
    BytesConcat(Escaped(text, ""), "\"");
    BytesConcat("\"", Escaped(text, "\""));
  }

  /** Escaping at most doubles a character, and writes a two-byte escape in two bytes. */
  lemma EscapeCharBytes(c: char)
    ensures Bytes(EscapeChar(c)) <= 2 * CharBytes(c)
    ensures Unescape(c).Some? ==> Bytes(EscapeChar(Unescape(c).value)) <= 2
  {
    BackslashBytes('\\');
    BackslashBytes('\"');
    BackslashBytes('n');
    BackslashBytes('r');
    BackslashBytes('t');
    OneByte('\'');
    assert [c][1..] == "";
  }

  lemma BackslashBytes(c: char)
    requires c as int < 0x80
    ensures Bytes(['\\', c]) == 2
  {
    assert ['\\', c] == ['\\'] + [c];
    BytesConcat(['\\'], [c]);
    OneByte('\\');
    OneByte(c);
  }

  lemma {:induction false} EscapedOneMore(value: string, c: char, after: string)
    ensures Escaped(value + [c], after) == Escaped(value, EscapeChar(c) + after)
    decreases value
  {
    hide EscapeChar;
    if value == "" {
      assert value + [c] == [c] && [c][1..] == "";
    } else {
      assert (value + [c])[1..] == value[1..] + [c];
      EscapedOneMore(value[1..], c, after);
    }
  }

  lemma EscapedGrows(value: string, c: char)
    ensures Bytes(Escaped(value + [c], "")) == Bytes(Escaped(value, "")) + Bytes(EscapeChar(c))
  {
    hide EscapeChar, Escaped, Bytes;
    EscapedOneMore(value, c, "");
    assert EscapeChar(c) + "" == "" + EscapeChar(c);
    EscapedAppends(value, "", EscapeChar(c));
    BytesConcat(Escaped(value, ""), EscapeChar(c));
  }

  /** Inside a literal that started at `start` and has decoded to `value`. */
  ghost predicate PaidInString(codec: FloatCodec, st: LexState, start: nat, value: string) {
    Paid(codec, st, start) && start < st.offset && Bytes(Escaped(value, "")) <= 3 * (st.offset - start - 1)
  }

  lemma PaidInStringMeans(codec: FloatCodec, st: LexState, start: nat, value: string)
    requires PaidInString(codec, st, start, value)
    ensures Paid(codec, st, st.offset) && Paid(codec, st, start)
  {
  }

  lemma ClosePaid(codec: FloatCodec, limits: ParseLimits, st: LexState, start: nat, value: string)
    requires PaidInString(codec, st, start, value) && st.rest != ""
    ensures var r := PushToken(Advance(st, 1), limits, StrTok(value), start);
      Paid(codec, r, r.offset)
  {
    hide Escaped, Quoted, WeightSum;
    EscapedBytes(value);
    CharWidth(st.rest);
    PushPaid(codec, limits, Advance(st, 1), StrTok(value), start);
  }

  lemma CharWidth(s: string)
    requires s != ""
    ensures Bytes(s[..1]) == CharBytes(s[0])
  {
    assert s[..1][1..] == "";
  }

  /** A character read as itself. */
  lemma CharPaid(codec: FloatCodec, limits: ParseLimits, st: LexState, start: nat, value: string)
    requires PaidInString(codec, st, start, value) && st.rest != ""
    ensures var c := st.rest[0];
      PaidInString(codec, Advance(ChargeScalars(st, limits, CharBytes(c), Span(start, st.offset)), 1), start, value + [c])
  {
    hide Escaped, EscapeChar, Bytes, WeightSum;
    CharWidth(st.rest);
    EscapedGrows(value, st.rest[0]);
    EscapeCharBytes(st.rest[0]);
  }

  /** An escape, whether it is a known one or not. */
  lemma EscapePaid(codec: FloatCodec, limits: ParseLimits, st: LexState, start: nat, value: string)
    requires PaidInString(codec, st, start, value) && |st.rest| > 1 && st.rest[0] == '\\'
    ensures var st2 := Advance(Advance(st, 1), 1);
      && PaidInString(codec, PushDiagnostic(st2, limits, UnsupportedEscape, Span(st.offset, st2.offset)), start, value)
      && (Unescape(st.rest[1]).Some? ==>
            var c := Unescape(st.rest[1]).value;
            PaidInString(codec, ChargeScalars(st2, limits, CharBytes(c), Span(start, st2.offset)), start, value + [c]))
  {
    hide Escaped, EscapeChar, Bytes, WeightSum, Unescape;
    CharWidth(st.rest);
    CharWidth(st.rest[1..]);
    assert st.rest[1..][0] == st.rest[1];
    EscapeCharBytes(st.rest[1]);
    if Unescape(st.rest[1]).Some? { EscapedGrows(value, Unescape(st.rest[1]).value); }
  }

  lemma {:induction false} StringBodyPaid(
    codec: FloatCodec, limits: ParseLimits, st: LexState, quote: char, start: nat, value: string)
    requires PaidInString(codec, st, start, value)
    ensures var r := StringBody(st, limits, quote, start, value);
      Paid(codec, r, r.offset)
    decreases |st.rest|
  {
    hide Escaped, Bytes, WeightSum, PaidInString, Unescape, ChargeScalars, ScalarsFit;
    PaidInStringMeans(codec, st, start, value);
    if st.rest == "" {
    } else if st.rest[0] == quote {
      ClosePaid(codec, limits, st, start, value);
    } else if st.rest[0] == '\\' {
      if |st.rest| > 1 {
        var st2 := Advance(Advance(st, 1), 1);
        EscapePaid(codec, limits, st, start, value);
        match Unescape(st.rest[1])
        case Some(c) =>
          var st3 := ChargeScalars(st2, limits, CharBytes(c), Span(start, st2.offset));
          PaidInStringMeans(codec, st3, start, value + [c]);
          ChargedRest(st2, limits, CharBytes(c), Span(start, st2.offset));
          if !st3.stopped { StringBodyPaid(codec, limits, st3, quote, start, value + [c]); }
        case None =>
          var st3 := PushDiagnostic(st2, limits, UnsupportedEscape, Span(st.offset, st2.offset));
          PaidInStringMeans(codec, st3, start, value);
          if !st3.stopped { StringBodyPaid(codec, limits, st3, quote, start, value); }
      }
    } else {
      var c := st.rest[0];
      ChargedRest(st, limits, CharBytes(c), Span(start, st.offset));
      var st1 := Advance(ChargeScalars(st, limits, CharBytes(c), Span(start, st.offset)), 1);
      CharPaid(codec, limits, st, start, value);
      PaidInStringMeans(codec, st1, start, value + [c]);
      if !st1.stopped { StringBodyPaid(codec, limits, st1, quote, start, value + [c]); }
    }
  }

  lemma ChargedRest(st: LexState, limits: ParseLimits, bytes: nat, span: Span)
    ensures ChargeScalars(st, limits, bytes, span).rest == st.rest
  {
  }

  // ----- numbers, words and punctuation -----

  lemma {:induction false} DigitBytes(s: string)
    requires AllDigits(s)
    ensures Bytes(s) == |s|
  {
    if s != "" {
      assert AllDigits(s[1..]);
      DigitBytes(s[1..]);
    }
  }

  /** Leading zeros are all that printing an integer can drop. */
  lemma {:induction false} NumeralShort(digits: string)
    requires digits != "" && AllDigits(digits)
    ensures |Numeral(NumeralValue(digits))| <= |digits|
  {
    var most := digits[..|digits| - 1];
    if most == "" {
      assert NumeralValue(digits) == DigitValue(digits[0]);
    } else {
      NumeralShort(most);
      var n, d := NumeralValue(digits), DigitValue(digits[|digits| - 1]);
      assert n == 10 * NumeralValue(most) + d;
      if n >= 10 { assert n / 10 == NumeralValue(most); }
    }
  }

  lemma IntPaid(codec: FloatCodec, digits: string)
    requires digits != "" && AllDigits(digits)
    ensures Weight(codec, IntTok(NumeralValue(digits))) <= Bytes(digits)
  {
    NumeralShort(digits);
    DigitBytes(digits);
    DigitBytes(Numeral(NumeralValue(digits)));
  }

  lemma NumberPaid(codec: FloatCodec, limits: ParseLimits, st: LexState)
    requires CompactCodec(codec) && Paid(codec, st, st.offset) && st.rest != "" && IsDigit(st.rest[0])
    ensures var r := LexNumber(codec, st, limits);
      Paid(codec, r, r.offset)
  {
    hide WeightSum, Weight, Bytes, FloatText, NumeralValue, IsFloatText;
    var whole := DigitRun(st.rest);
    DigitRunDigits(st.rest);
    if StartsFraction(st.rest, whole) {
      var n := FloatRun(st.rest);
      FloatRunText(st.rest);
      match codec.read(st.rest[..n])
      case Some(bits) =>
        FloatWeight(codec, bits);
        PushPaid(codec, limits, Advance(st, n), FloatTok(bits), st.offset);
      case None =>
    } else {
      IntPaid(codec, st.rest[..whole]);
      PushPaid(codec, limits, Advance(st, whole), IntTok(NumeralValue(st.rest[..whole])), st.offset);
    }
  }

  lemma FloatWeight(codec: FloatCodec, bits: S.FloatBits)
    ensures Weight(codec, FloatTok(bits)) == Bytes(FloatText(codec, bits))
  {
  }

  lemma WordPaid(codec: FloatCodec, limits: ParseLimits, st: LexState)
    requires Paid(codec, st, st.offset) && st.rest != ""
    ensures var r := LexIdentifier(st, limits);
      Paid(codec, r, r.offset)
  {
    hide WeightSum, Weight, Bytes;
    var n := 1 + IdentRun(st.rest[1..]);
    var raw := st.rest[..n];
    var st1 := Advance(st, n);
    WordWeight(codec, raw);
    if ScalarsFit(st1, limits, Bytes(raw)) {
      var st2 := ChargeScalars(st1, limits, Bytes(raw), Span(st.offset, st1.offset));
      PushPaid(codec, limits, st2, WordKind(raw), st.offset);
    }
  }

  lemma WordWeight(codec: FloatCodec, raw: string)
    ensures Weight(codec, WordKind(raw)) == Bytes(raw)
  {
    hide Bytes, FloatText, IntText, Quoted;
    KeywordBytes();
  }

  lemma PunctuationPaid(codec: FloatCodec, limits: ParseLimits, st: LexState)
    requires Paid(codec, st, st.offset) && st.rest != ""
    ensures var r := LexPunctuation(st, limits);
      Paid(codec, r, r.offset)
  {
    hide WeightSum, Weight, Punctuation;
    PunctuationWeight(codec, st.rest[0], PeekNext(st));
    match Punctuation(st.rest[0], PeekNext(st))
    case Some((kind, n)) =>
      BytesAtLeastLength(st.rest[..n]);
      PushPaid(codec, limits, Advance(st, n), kind, st.offset);
    case None =>
  }

  lemma PunctuationWeight(codec: FloatCodec, c: char, next: Option<char>)
    ensures Punctuation(c, next).Some? ==>
      Weight(codec, Punctuation(c, next).value.0) <= 3 * Punctuation(c, next).value.1
  {
  }

  lemma {:induction false} CommentPaid(codec: FloatCodec, st: LexState)
    requires Paid(codec, st, st.offset)
    ensures Paid(codec, SkipComment(st), SkipComment(st).offset)
    decreases |st.rest|
  {
    hide WeightSum, Bytes;
    if st.rest != "" && st.rest[0] != '\n' { CommentPaid(codec, Advance(st, 1)); }
  }

  lemma StringPaid(codec: FloatCodec, limits: ParseLimits, st: LexState)
    requires Paid(codec, st, st.offset) && st.rest != ""
    ensures var r := LexString(st, limits);
      Paid(codec, r, r.offset)
  {
    hide WeightSum, StringBody;
    CharWidth(st.rest);
    if HasTokenCapacity(st, limits) {
      StringBodyPaid(codec, limits, Advance(st, 1), st.rest[0], st.offset, "");
    }
  }

  lemma StepPaid(codec: FloatCodec, limits: ParseLimits, st: LexState)
    requires CompactCodec(codec) && Paid(codec, st, st.offset) && st.rest != ""
    ensures var r := Step(codec, st, limits);
      Paid(codec, r, r.offset)
  {
    hide WeightSum, Bytes, LexString, LexNumber, LexIdentifier, LexPunctuation, SkipComment, CompactCodec;
    var c := st.rest[0];
    if IsWhitespace(c) {
    } else if c == '/' && PeekNext(st) == Some('/') {
      CommentPaid(codec, st);
    } else if c == '\"' || c == '\'' {
      StringPaid(codec, limits, st);
    } else if IsDigit(c) {
      NumberPaid(codec, limits, st);
    } else if IsIdentStart(c) {
      WordPaid(codec, limits, st);
    } else {
      PunctuationPaid(codec, limits, st);
    }
  }

  /** A run that ends well has been paid for by where its end-of-input token stands. */
  ghost predicate PaidToTheEnd(codec: FloatCodec, final: LexState) {
    final.diags == [] ==>
      final.tokens != [] && Paid(codec, final, final.tokens[|final.tokens| - 1].span.start)
  }

  lemma {:induction false} RunPaid(codec: FloatCodec, limits: ParseLimits, st: LexState)
    requires CompactCodec(codec) && Paid(codec, st, st.offset) && (st.stopped ==> st.diags != [])
    ensures PaidToTheEnd(codec, Run(codec, st, limits))
    decreases |st.rest|
  {
    hide Step, CompactCodec, WeightSum, Paid, PushToken, PaidToTheEnd;
    if st.stopped {
      StoppedPaid(codec, st);
    } else if st.rest == "" {
      EndPaid(codec, limits, st);
    } else {
      StepPaid(codec, limits, st);
      var next := Step(codec, st, limits);
      if next.stopped {
        StoppedPaid(codec, next);
      } else {
        RunPaid(codec, limits, next);
      }
    }
  }

  lemma StoppedPaid(codec: FloatCodec, st: LexState)
    requires st.diags != []
    ensures PaidToTheEnd(codec, st)
  {
  }

  lemma EndPaid(codec: FloatCodec, limits: ParseLimits, st: LexState)
    requires Paid(codec, st, st.offset)
    ensures PaidToTheEnd(codec, PushToken(st, limits, Eof, st.offset))
  {
    hide WeightSum;
    PushPaid(codec, limits, st, Eof, st.offset);
  }

  lemma StartPaid(codec: FloatCodec, input: string)
    ensures Paid(codec, Start(input), Start(input).offset) && !Start(input).stopped
  {
  }

  /** The source pays for its tokens: none can take more than three times its own bytes. */
  lemma TokensPaid(codec: FloatCodec, input: string, limits: ParseLimits)
    requires CodecValid(codec) && CompactCodec(codec) && Tokenize(codec, input, limits).Lexed?
    ensures WeightSum(codec, Kinds(Tokenize(codec, input, limits).tokens)) <= 3 * Bytes(input)
  {
    hide Run, WeightSum, Bytes, CodecValid, CompactCodec, Kinds, Tokenize, Start, InOrder, ScalarSum;
    StartPaid(codec, input);
    RunPaid(codec, limits, Start(input));
    TokenizeRuns(codec, input, limits);
    TokenizeSound(codec, input, limits);
  }

  // ----- the canonical text of a derivation weighs no more than its tokens -----

  lemma LeafBelow(codec: FloatCodec, kind: Kind)
    requires IsLeafKind(kind)
    ensures Width(codec, LeafExpr(kind)) == Weight(codec, kind)
  {
    hide Bytes, Escaped, FloatText, IntText;
    KeywordBytes();
    match kind
    case IdentTok(name) => assert name + "" == name;
    case IntTok(number) => assert IntText(number) + "" == IntText(number);
    case FloatTok(bits) => assert FloatText(codec, bits) + "" == FloatText(codec, bits);
    case TrueTok => assert "true" + "" == "true";
    case FalseTok => assert "false" + "" == "false";
    case NullTok => assert "null" + "" == "null";
    case _ =>
  }

  /** The operator and the spaces around it. */
  lemma OperatorWeight(codec: FloatCodec, op: S.BinaryOp)
    ensures Bytes(S.BinaryText(op)) + 2 == Weight(codec, OpKind(op))
  {
    var text := S.BinaryText(op);
    if |text| == 1 {
      OneByte(text[0]);
      assert text == [text[0]];
    } else {
      assert text == [text[0]] + [text[1]];
      OneByte(text[0]);
      OneByte(text[1]);
      BytesConcat([text[0]], [text[1]]);
    }
  }

  lemma MarkWeights(codec: FloatCodec)
    ensures Weight(codec, LParen) == 1 && Weight(codec, RParen) == 1 && Weight(codec, Dot) == 1
    ensures Weight(codec, LBracket) == 1 && Weight(codec, RBracket) == 1
  {
  }

  lemma NameWeight(codec: FloatCodec, name: string)
    ensures Weight(codec, IdentTok(name)) == Bytes(name)
  {
  }

  lemma PrefixWeight(codec: FloatCodec, op: S.UnaryOp)
    ensures Weight(codec, PrefixKind(op)) >= 1
  {
  }

  /** The weights of a derivation's tokens, from those of its parts. */
  lemma WeightParts(codec: FloatCodec, c: Cst)
    ensures c.Leaf? ==> WeightSum(codec, Spell(c)) == Weight(codec, c.kind)
    ensures c.Group? ==> WeightSum(codec, Spell(c)) == WeightSum(codec, Spell(c.inner)) + 2
    ensures c.ListOf? ==> WeightSum(codec, Spell(c)) == WeightSum(codec, SpellAll(c.items)) + 2
    ensures c.CallOf? ==> WeightSum(codec, Spell(c)) == Bytes(c.name) + WeightSum(codec, SpellAll(c.args)) + 2
    ensures c.MemberOf? ==> WeightSum(codec, Spell(c)) == WeightSum(codec, Spell(c.receiver)) + 1 + Bytes(c.name)
    ensures c.MethodOf? ==>
      WeightSum(codec, Spell(c))
        == WeightSum(codec, Spell(c.receiver)) + Bytes(c.name) + WeightSum(codec, SpellAll(c.args)) + 3
    ensures c.UnaryOf? ==> WeightSum(codec, Spell(c)) >= 1 + WeightSum(codec, Spell(c.operand))
    ensures c.BinaryOf? ==>
      WeightSum(codec, Spell(c))
        == WeightSum(codec, Spell(c.left)) + Weight(codec, OpKind(c.op)) + WeightSum(codec, Spell(c.right))
  {
    hide WeightSum, SpellAll, Weight;
    MarkWeights(codec);
    match c
    case Leaf(kind) => WeightOne(codec, kind);
    case Group(inner) => WrappedWeight(codec, [LParen], Spell(inner), [RParen]);
    case ListOf(items) => WrappedWeight(codec, [LBracket], SpellAll(items), [RBracket]);
    case CallOf(name, args) =>
      NameWeight(codec, name);
      WeightTwo(codec, IdentTok(name), LParen);
      WrappedWeight(codec, [IdentTok(name), LParen], SpellAll(args), [RParen]);
    case MemberOf(receiver, name) =>
      NameWeight(codec, name);
      WeightConcat(codec, Spell(receiver), [Dot, IdentTok(name)]);
      WeightTwo(codec, Dot, IdentTok(name));
    case MethodOf(receiver, name, args) =>
      NameWeight(codec, name);
      assert [Dot, IdentTok(name), LParen] == [Dot, IdentTok(name)] + [LParen];
      WeightConcat(codec, [Dot, IdentTok(name)], [LParen]);
      WeightTwo(codec, Dot, IdentTok(name));
      WeightConcat(codec, Spell(receiver), [Dot, IdentTok(name), LParen]);
      WrappedWeight(codec, Spell(receiver) + [Dot, IdentTok(name), LParen], SpellAll(args), [RParen]);
      WeightOne(codec, LParen);
    case UnaryOf(uop, operand) =>
      WeightConcat(codec, [PrefixKind(uop)], Spell(operand));
      WeightOne(codec, PrefixKind(uop));
      PrefixWeight(codec, uop);
    case BinaryOf(left, op, right) => WrappedWeight(codec, Spell(left), [OpKind(op)], Spell(right));
  }

  lemma WrappedWeight(codec: FloatCodec, a: seq<Kind>, b: seq<Kind>, c: seq<Kind>)
    ensures WeightSum(codec, a + b + c) == WeightSum(codec, a) + WeightSum(codec, b) + WeightSum(codec, c)
    ensures |a| == 1 ==> WeightSum(codec, a) == Weight(codec, a[0])
    ensures |b| == 1 ==> WeightSum(codec, b) == Weight(codec, b[0])
    ensures |c| == 1 ==> WeightSum(codec, c) == Weight(codec, c[0])
  {
    hide WeightSum, Weight;
    WeightConcat(codec, a + b, c);
    WeightConcat(codec, a, b);
    if |a| == 1 { WeightOne(codec, a[0]); assert a == [a[0]]; }
    if |b| == 1 { WeightOne(codec, b[0]); assert b == [b[0]]; }
    if |c| == 1 { WeightOne(codec, c[0]); assert c == [c[0]]; }
  }

  /** Whatever parentheses the source wrote, canonical text needs no more. */
  lemma {:induction false} WidthBelow(codec: FloatCodec, c: Cst)
    requires Fits(c)
    ensures Width(codec, Abs(c)) <= WeightSum(codec, Spell(c))
    decreases c, 2
  {
    hide Width, WidthAt, WidthAll, WeightSum, Weight, Spell, SpellAll, AbsAll, FitsAll, Bytes, S.BinaryText;
    WeightParts(codec, c);
    match c
    case Leaf(kind) => LeafBelow(codec, kind);
    case Group(inner) => WidthBelow(codec, inner);
    case ListOf(items) =>
      ArrayWidth(codec, AbsAll(items));
      WidthAllBelow(codec, items);
    case CallOf(name, args) =>
      CallWidth(codec, name, AbsAll(args));
      WidthAllBelow(codec, args);
    case MemberOf(receiver, name) =>
      MemberWidth(codec, Abs(receiver), name);
      WidthAtBelow(codec, receiver, 8, AsReceiver);
    case MethodOf(receiver, name, args) =>
      MethodWidth(codec, Abs(receiver), name, AbsAll(args));
      WidthAtBelow(codec, receiver, 8, AsReceiver);
      WidthAllBelow(codec, args);
    case UnaryOf(uop, operand) =>
      UnaryWidth(codec, uop, Abs(operand));
      WidthAtBelow(codec, operand, 7, UnderPrefix);
    case BinaryOf(left, op, right) =>
      BinaryWidth(codec, Abs(left), op, Abs(right));
      OperatorWeight(codec, op);
      WidthAtBelow(codec, left, S.BinaryPrecedence(op), LeftOf);
      WidthAtBelow(codec, right, S.BinaryPrecedence(op), RightOf);
  }

  lemma {:induction false} WidthAtBelow(codec: FloatCodec, c: Cst, parent: nat, side: Side)
    requires FitsAt(c, parent, side) && parent <= 8 && (side == RightOf ==> parent <= 6)
    ensures WidthAt(codec, Abs(c), parent, side) <= WeightSum(codec, Spell(c))
    decreases c, 3
  {
    hide Width, WeightSum, Spell;
    if NeedsParentheses(Precedence(Abs(c)), parent, side) {
      TightOnlyByGroup(c, parent, side);
      WeightParts(codec, c);
      WidthBelow(codec, c.inner);
    } else {
      WidthBelow(codec, c);
    }
  }

  lemma {:induction false} WidthAllBelow(codec: FloatCodec, cs: seq<Cst>)
    requires FitsAll(cs)
    ensures WidthAll(codec, AbsAll(cs)) <= WeightSum(codec, SpellAll(cs))
    decreases cs, 1
  {
    hide Width, Weight, Spell, Abs;
    if cs != [] {
      var es := AbsAll(cs);
      assert es[0] == Abs(cs[0]) && es[1..] == AbsAll(cs[1..]);
      WidthBelow(codec, cs[0]);
      if |cs| > 1 {
        WidthAllBelow(codec, cs[1..]);
        WrappedWeight(codec, Spell(cs[0]), [Comma], SpellAll(cs[1..]));
        CommaWeight(codec);
      }
    }
  }

  lemma CommaWeight(codec: FloatCodec)
    ensures Weight(codec, Comma) == 2
  {
  }

  // ----- the bound, and what follows from it -----

  /** For every input and all limits, canonical text has at most three bytes for each of the source. */
  lemma CanonicalGrowth(codec: FloatCodec, input: string, limits: ParseLimits)
    requires CodecValid(codec) && CompactCodec(codec) && ParseExpression(codec, input, limits).Accepted?
    ensures Bytes(Print(codec, Strip(ParseExpression(codec, input, limits).ast))) <= 3 * Bytes(input)
    ensures Bytes(input) <= limits.maxSourceBytes
  {
    hide Bytes, Print, CodecValid, CompactCodec, Kinds, Tokenize, InOrder, ScalarSum, WeightSum, Spell, Fits, Room;
    var c := AcceptedDerives(codec, input, limits);
    TokenizeSound(codec, input, limits);
    TokensPaid(codec, input, limits);
    WidthBelow(codec, c);
    WeightConcat(codec, Spell(c), [Eof]);
  }

  /** Under the default parse limits every parsed AST formats under the default format limits: only
      ASTs built by hand can exceed them. */
  lemma DefaultsAlwaysFormat(codec: FloatCodec, input: string)
    requires CodecValid(codec) && CompactCodec(codec) && ParseExpression(codec, input, DEFAULT_PARSE).Accepted?
    ensures var e := Strip(ParseExpression(codec, input, DEFAULT_PARSE).ast);
      Formattable(codec, e, DEFAULT_FORMAT) && FormatText(codec, e) == Print(codec, e)
  {
    hide Bytes, Print, CodecValid, CompactCodec, ParseExpression, Formattable, S.Nodes, S.Depth, S.SerialDepth;
    CanonicalGrowth(codec, input, DEFAULT_PARSE);
    ParsedFacts(codec, input, DEFAULT_PARSE);
    ParsedFormats(codec, input, DEFAULT_PARSE, DEFAULT_FORMAT);
  }

  /** A source of at most a third of the source-byte limit obeys the first law, up to spans. */
  lemma ShortInputsObeyTheLaw(codec: FloatCodec, input: string, limits: ParseLimits)
    requires CodecValid(codec) && CompactCodec(codec) && ParseExpression(codec, input, limits).Accepted?
    requires limits.maxAstNodes <= DEFAULT_FORMAT.maxNodes
    requires 3 * Bytes(input) <= limits.maxSourceBytes && 3 * Bytes(input) <= DEFAULT_FORMAT.maxOutputBytes
    ensures var again := Reparsed(codec, input, limits);
      again.Accepted? && Strip(again.ast) == Strip(ParseExpression(codec, input, limits).ast)
  {
    hide Bytes, Print, CodecValid, CompactCodec, ParseExpression, S.Nodes, S.SerialDepth, Strip, Layout, Reparsed;
    CanonicalGrowth(codec, input, limits);
    ParsedFacts(codec, input, limits);
    LawExactly(codec, input, limits);
  }
}
