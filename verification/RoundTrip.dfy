/** Source text to AST and back: exact acceptance, and the canonical round trip. */
module RoundTrip {
  import opened Text
  import opened Tokens
  import opened LexerSpec
  import opened LexerFacts
  import opened Spanned
  import opened ParseSpec
  import opened Grammar
  import opened Location
  import opened Soundness
  import opened Completeness
  import opened Canonical
  import opened Printed
  import opened Relex
  import opened Layouts
  import opened Laying
  import opened RelexTree
  import Lexer
  import Parser
  import S = Syntax

  // ----- source text to AST -----

  /** More diagnostics than the limit allows are replaced by one. */
  function CapDiagnostics(diags: seq<Diagnostic>, limits: ParseLimits): seq<Diagnostic> {
    if |diags| > limits.maxDiagnostics then
      [Diagnostic(DiagnosticLimit, if diags == [] then NoSpan else diags[0].span)]
    else diags
  }

  function ParseExpression(codec: FloatCodec, input: string, limits: ParseLimits): ParseResult {
    match Tokenize(codec, input, limits)
    case LexFailed(diags) => Rejected(diags)
    case Lexed(toks) =>
      match ParseTokens(toks, limits)
      case Accepted(ast) => Accepted(ast)
      case Rejected(diags) => Rejected(CapDiagnostics(diags, limits))
  }

  method ParseInput(codec: FloatCodec, input: string, limits: ParseLimits) returns (r: ParseResult)
    ensures r == ParseExpression(codec, input, limits)
  {
    var lexed := Lexer.TokenizeInput(codec, input, limits);
    match lexed
    case LexFailed(diags) => r := Rejected(diags);
    case Lexed(toks) =>
      var parser := new Parser.Parser(toks, limits);
      r := parser.Parse();
      if r.Rejected? { r := Rejected(CapDiagnostics(r.diags, limits)); }
  }

  // ----- exactly which sources are accepted -----

  /** `c` derives exactly the tokens of `input`, within every limit. */
  ghost predicate DerivationOf(codec: FloatCodec, input: string, limits: ParseLimits, c: Cst) {
    && Tokenize(codec, input, limits).Lexed?
    && Kinds(Tokenize(codec, input, limits).tokens) == Spell(c) + [Eof]
    && Fits(c) && Room(c, limits, 0, 0)
  }

  lemma WholeSpelling(toks: seq<Token>, ks: seq<Kind>)
    requires EndsWithEof(toks)
    ensures Kinds(toks) == ks + [Eof] <==> |toks| == |ks| + 1 && At(toks, 0, ks)
  {
    if |toks| == |ks| + 1 && At(toks, 0, ks) {
      forall j | 0 <= j < |toks| ensures Kinds(toks)[j] == (ks + [Eof])[j] {
        if j < |ks| { AtIndex(toks, 0, ks, j); }
      }
    }
    if Kinds(toks) == ks + [Eof] {
      assert |Kinds(toks)| == |toks|;
      forall j | 0 <= j < |ks| ensures toks[0 + j].kind == ks[j] {
        assert Kinds(toks)[j] == (ks + [Eof])[j];
      }
    }
  }

  lemma LexedTokens(codec: FloatCodec, input: string, limits: ParseLimits)
    requires CodecValid(codec) && Tokenize(codec, input, limits).Lexed?
    ensures var toks := Tokenize(codec, input, limits).tokens;
      && EndsWithEof(toks)
      && forall i :: 0 <= i < |toks| - 1 ==> toks[i].kind != Eof && Lexable(codec, toks[i].kind)
  {
    hide Tokenize, Run, Step;
    TokenizeSound(codec, input, limits);
    var toks := Tokenize(codec, input, limits).tokens;
    var init := toks[..|toks| - 1];
    forall i | 0 <= i < |toks| - 1 ensures toks[i].kind != Eof && Lexable(codec, toks[i].kind) {
      InOrderAt(codec, init, Bytes(input), i, i);
      assert toks[i] == init[i];
    }
  }

  /** Soundness: what is accepted has a derivation, and the AST is what it denotes. */
  lemma AcceptedDerives(codec: FloatCodec, input: string, limits: ParseLimits) returns (c: Cst)
    requires CodecValid(codec) && ParseExpression(codec, input, limits).Accepted?
    ensures DerivationOf(codec, input, limits, c)
    ensures Strip(ParseExpression(codec, input, limits).ast) == Abs(c)
    ensures NamesValid(Abs(c)) && ValuesReadable(codec, Abs(c))
  {
    hide Tokenize, ParseTokens;
    var toks := Tokenize(codec, input, limits).tokens;
    LexedTokens(codec, input, limits);
    c := ParserSound(toks, limits);
    WholeSpelling(toks, Spell(c));
    forall j | 0 <= j < |Spell(c)| ensures Lexable(codec, Spell(c)[j]) {
      AtIndex(toks, 0, Spell(c), j);
    }
    Printable(codec, c);
  }

  /** Completeness: whatever has a derivation is accepted, and the AST is what every derivation
      denotes, each node standing where the derivation stands in the tokens. */
  lemma DerivationAccepted(codec: FloatCodec, input: string, limits: ParseLimits, c: Cst)
    requires DerivationOf(codec, input, limits, c)
    ensures ParseExpression(codec, input, limits).Accepted?
    ensures Strip(ParseExpression(codec, input, limits).ast) == Abs(c)
    ensures Placed(ParseExpression(codec, input, limits).ast, c, Tokenize(codec, input, limits).tokens, 0)
  {
    hide Tokenize, ParseTokens;
    var toks := Tokenize(codec, input, limits).tokens;
    assert Kinds(toks)[|Spell(c)|] == Eof;
    WholeSpelling(toks, Spell(c));
    ParserComplete(c, toks, limits);
  }

  /** The parser accepts an input exactly when its tokens have a derivation within the limits. */
  lemma AcceptedExactly(codec: FloatCodec, input: string, limits: ParseLimits)
    requires CodecValid(codec)
    ensures ParseExpression(codec, input, limits).Accepted? <==>
      exists c :: DerivationOf(codec, input, limits, c)
  {
    hide ParseExpression;
    if ParseExpression(codec, input, limits).Accepted? {
      var c := AcceptedDerives(codec, input, limits);
    }
    if exists c :: DerivationOf(codec, input, limits, c) {
      var c :| DerivationOf(codec, input, limits, c);
      DerivationAccepted(codec, input, limits, c);
    }
  }

  /** Precedence and associativity leave no choice: an input has one meaning. */
  lemma Unambiguous(codec: FloatCodec, input: string, limits: ParseLimits, c: Cst, d: Cst)
    requires DerivationOf(codec, input, limits, c) && DerivationOf(codec, input, limits, d)
    ensures Abs(c) == Abs(d)
  {
    hide ParseExpression, DerivationOf;
    DerivationAccepted(codec, input, limits, c);
    DerivationAccepted(codec, input, limits, d);
  }

  // ----- lexed tokens can be printed -----

  ghost predicate AllLexable(codec: FloatCodec, ks: seq<Kind>) {
    forall i :: 0 <= i < |ks| ==> Lexable(codec, ks[i])
  }

  lemma LexableParts(codec: FloatCodec, a: seq<Kind>, b: seq<Kind>)
    requires AllLexable(codec, a + b)
    ensures AllLexable(codec, a) && AllLexable(codec, b)
  {
    forall i | 0 <= i < |a| ensures Lexable(codec, a[i]) { assert (a + b)[i] == a[i]; }
    forall i | 0 <= i < |b| ensures Lexable(codec, b[i]) { assert (a + b)[|a| + i] == b[i]; }
  }

  lemma LexableName(codec: FloatCodec, ks: seq<Kind>, i: nat)
    requires AllLexable(codec, ks) && i < |ks| && ks[i].IdentTok? && !S.IsReserved(ks[i].name)
    ensures S.IsValidName(ks[i].name)
  {
    assert Lexable(codec, ks[i]);
  }

  lemma {:induction false} Printable(codec: FloatCodec, c: Cst)
    requires Fits(c) && AllLexable(codec, Spell(c))
    ensures NamesValid(Abs(c)) && ValuesReadable(codec, Abs(c))
    decreases c, 1
  {
    match c
    case Leaf(kind) => assert Lexable(codec, Spell(c)[0]);
    case Group(inner) =>
      LexableParts(codec, [LParen] + Spell(inner), [RParen]);
      LexableParts(codec, [LParen], Spell(inner));
      Printable(codec, inner);
    case ListOf(items) =>
      LexableParts(codec, [LBracket] + SpellAll(items), [RBracket]);
      LexableParts(codec, [LBracket], SpellAll(items));
      PrintableAll(codec, items);
    case CallOf(name, args) =>
      var head := [IdentTok(name), LParen];
      LexableParts(codec, head + SpellAll(args), [RParen]);
      LexableParts(codec, head, SpellAll(args));
      LexableName(codec, head, 0);
      PrintableAll(codec, args);
    case MemberOf(receiver, name) =>
      LexableParts(codec, Spell(receiver), [Dot, IdentTok(name)]);
      LexableName(codec, [Dot, IdentTok(name)], 1);
      Printable(codec, receiver);
    case MethodOf(receiver, name, args) =>
      var head := [Dot, IdentTok(name), LParen];
      LexableParts(codec, Spell(receiver) + head + SpellAll(args), [RParen]);
      LexableParts(codec, Spell(receiver) + head, SpellAll(args));
      LexableParts(codec, Spell(receiver), head);
      LexableName(codec, head, 1);
      Printable(codec, receiver);
      PrintableAll(codec, args);
    case UnaryOf(uop, operand) =>
      LexableParts(codec, [PrefixKind(uop)], Spell(operand));
      Printable(codec, operand);
    case BinaryOf(left, op, right) =>
      LexableParts(codec, Spell(left) + [OpKind(op)], Spell(right));
      LexableParts(codec, Spell(left), [OpKind(op)]);
      Printable(codec, left);
      Printable(codec, right);
  }

  lemma {:induction false} PrintableAll(codec: FloatCodec, cs: seq<Cst>)
    requires FitsAll(cs) && AllLexable(codec, SpellAll(cs))
    ensures NamesValidAll(AbsAll(cs)) && ValuesReadableAll(codec, AbsAll(cs))
    decreases cs, 0
  {
    if cs != [] {
      var es := AbsAll(cs);
      assert es[0] == Abs(cs[0]) && es[1..] == AbsAll(cs[1..]);
      if |cs| > 1 {
        LexableParts(codec, Spell(cs[0]) + [Comma], SpellAll(cs[1..]));
        LexableParts(codec, Spell(cs[0]), [Comma]);
      }
      Printable(codec, cs[0]);
      PrintableAll(codec, cs[1..]);
    }
  }

  // ----- reading canonical text -----

  /** Any AST with spellable names and values reads back as its own tokens, given the budgets its
      tokens need, and the tokens stand where its layout puts them. */
  lemma PrintedLexes(codec: FloatCodec, e: S.Expr, limits: ParseLimits)
    requires NamesValid(e) && ValuesReadable(codec, e)
    requires Bytes(Print(codec, e)) <= limits.maxSourceBytes
    requires |Spell(Canon(e))| + 1 <= limits.maxTokens
    requires ScalarSum(Spell(Canon(e))) <= limits.maxScalarBytes
    ensures Tokenize(codec, Print(codec, e), limits).Lexed?
    ensures Kinds(Tokenize(codec, Print(codec, e), limits).tokens) == Spell(Canon(e)) + [Eof]
    ensures Placed(Layout(codec, e, 0), Canon(e), Tokenize(codec, Print(codec, e), limits).tokens, 0)
  {
    hide *;
    var text, ks := Print(codec, e), Spell(Canon(e));
    StartReady(codec, e, limits, ks);
    var r := ThenReads(codec, limits, Start(text), e, "");
    Finish(codec, limits, text, r, ks);
    FinishPlaced(codec, limits, text, r, Layout(codec, e, 0), Canon(e));
  }

  lemma StartReady(codec: FloatCodec, e: S.Expr, limits: ParseLimits, ks: seq<Kind>)
    requires |ks| + 1 <= limits.maxTokens && ScalarSum(ks) <= limits.maxScalarBytes
    ensures Ready(limits, Start(Print(codec, e)), Then(codec, e, ""), ks) && Boundary("")
    ensures Start(Print(codec, e)).offset == 0
  {
  }

  /** The end-of-input token moves nothing. */
  lemma FinishPlaced(codec: FloatCodec, limits: ParseLimits, text: string, r: LexState, a: Ast, c: Cst)
    requires Bytes(text) <= limits.maxSourceBytes && |Spell(c)| + 1 <= limits.maxTokens
    requires Reads(codec, limits, Start(text), r, "", Spell(c)) && Laid(a, c, Start(text), r)
    ensures Tokenize(codec, text, limits).Lexed? && Placed(a, c, Tokenize(codec, text, limits).tokens, 0)
  {
    hide Step, Spell, Located;
    Finish(codec, limits, text, r, Spell(c));
    var final := Run(codec, r, limits);
    assert final.tokens == r.tokens + [Token(Eof, Span(r.offset, r.offset))];
    SameTokens(c, r.tokens, final.tokens, 0, |r.tokens|);
  }

  lemma Finish(codec: FloatCodec, limits: ParseLimits, text: string, r: LexState, ks: seq<Kind>)
    requires Bytes(text) <= limits.maxSourceBytes && |ks| + 1 <= limits.maxTokens
    requires Reads(codec, limits, Start(text), r, "", ks)
    ensures Tokenize(codec, text, limits).Lexed?
    ensures Kinds(Tokenize(codec, text, limits).tokens) == ks + [Eof]
  {
    hide Step;
    assert Kinds(Start(text).tokens) + ks == ks;
    assert |Kinds(r.tokens)| == |r.tokens|;
    var final := Run(codec, r, limits);
    assert final.tokens == r.tokens + [Token(Eof, Span(r.offset, r.offset))];
    assert Kinds(final.tokens) == Kinds(r.tokens) + [Eof];
  }

  /** The canonical derivation derives the canonical text, which parses to its layout. */
  lemma PrintedDerivation(codec: FloatCodec, e: S.Expr, limits: ParseLimits)
    requires NamesValid(e) && ValuesReadable(codec, e)
    requires Bytes(Print(codec, e)) <= limits.maxSourceBytes
    requires |Spell(Canon(e))| + 1 <= limits.maxTokens
    requires ScalarSum(Spell(Canon(e))) <= limits.maxScalarBytes
    requires Room(Canon(e), limits, 0, 0)
    ensures ParseExpression(codec, Print(codec, e), limits) == Accepted(Layout(codec, e, 0))
    ensures Strip(Layout(codec, e, 0)) == e
  {
    LayoutStrips(codec, e, 0);
    hide Tokenize, Located, Layout, ParseExpression, Print, Spell, Room, ScalarSum, ValuesReadable;
    PrintedLexes(codec, e, limits);
    CanonFits(e);
    DerivationAccepted(codec, Print(codec, e), limits, Canon(e));
  }

  /** The round trip, for every input and all limits: the canonical text of a parsed AST parses to
      the same AST, laid out as that text is. The source-byte limit is the only one the second parse
      can hit. */
  lemma CanonicalRoundTrip(codec: FloatCodec, input: string, limits: ParseLimits)
    requires CodecValid(codec) && ParseExpression(codec, input, limits).Accepted?
    ensures var e := Strip(ParseExpression(codec, input, limits).ast);
      var again := ParseExpression(codec, Print(codec, e), limits);
      && (again.Accepted? <==> Bytes(Print(codec, e)) <= limits.maxSourceBytes)
      && (again.Accepted? ==> again.ast == Layout(codec, e, 0) && Strip(again.ast) == e)
  {
    hide Print, Layout, Spell, Room, ScalarSum, ValuesReadable, NamesValid, Kinds, Fits, Canon;
    var c := AcceptedDerives(codec, input, limits);
    var e := Abs(c);
    LexedBudgets(codec, input, limits, c);
    CanonNeedsNoMore(c, limits);
    if Bytes(Print(codec, e)) <= limits.maxSourceBytes {
      PrintedDerivation(codec, e, limits);
    }
  }

  /** What the first lexing says about the budgets of its tokens. */
  lemma LexedBudgets(codec: FloatCodec, input: string, limits: ParseLimits, c: Cst)
    requires CodecValid(codec) && DerivationOf(codec, input, limits, c)
    ensures |Spell(c)| + 1 <= limits.maxTokens && ScalarSum(Spell(c)) <= limits.maxScalarBytes
    ensures Fits(c) && Room(c, limits, 0, 0)
  {
    hide Tokenize, ScalarSum, Room, Fits, Spell;
    TokenizeSound(codec, input, limits);
    ScalarSumConcat(Spell(c), [Eof]);
    SumOne(Eof);
    var toks := Tokenize(codec, input, limits).tokens;
    assert |Kinds(toks)| == |toks|;
  }

  /** The exact domain of the round trip among all ASTs, parsed or built by hand: the names are
      spellable, the values are ones source text has (no negative integer literal, for instance),
      and the canonical text fits the budgets. */
  lemma ReadsBackExactly(codec: FloatCodec, e: S.Expr, limits: ParseLimits)
    requires CodecValid(codec)
    ensures var again := ParseExpression(codec, Print(codec, e), limits);
      && (again.Accepted? && Strip(again.ast) == e <==> again == Accepted(Layout(codec, e, 0)))
      && (again.Accepted? && Strip(again.ast) == e <==>
        && NamesValid(e) && ValuesReadable(codec, e)
        && Bytes(Print(codec, e)) <= limits.maxSourceBytes
        && |Spell(Canon(e))| + 1 <= limits.maxTokens
        && ScalarSum(Spell(Canon(e))) <= limits.maxScalarBytes
        && Room(Canon(e), limits, 0, 0))
  {
    LayoutStrips(codec, e, 0);
    hide Print, Layout, Spell, Room, ScalarSum, ValuesReadable, NamesValid, Kinds, Fits, Canon;
    var again := ParseExpression(codec, Print(codec, e), limits);
    if again.Accepted? && Strip(again.ast) == e {
      var c := AcceptedDerives(codec, Print(codec, e), limits);
      LexedBudgets(codec, Print(codec, e), limits, c);
      CanonNeedsNoMore(c, limits);
    }
    if && NamesValid(e) && ValuesReadable(codec, e) && Bytes(Print(codec, e)) <= limits.maxSourceBytes
       && |Spell(Canon(e))| + 1 <= limits.maxTokens && ScalarSum(Spell(Canon(e))) <= limits.maxScalarBytes
       && Room(Canon(e), limits, 0, 0) {
      PrintedDerivation(codec, e, limits);
    }
  }
}
