/** Inputs for which the documented formatting law fails, one for each part of its exact condition. */
module RoundTripEdges {
  import opened Text
  import opened Tokens
  import opened LexerSpec
  import opened Spanned
  import opened ParseSpec
  import opened Grammar
  import opened Canonical
  import opened Printed
  import opened Relex
  import opened RelexTree
  import opened RoundTrip
  import opened Layouts
  import opened FormatLaw
  import S = Syntax

  const TightLimits := ParseLimits(3, 0, 4, 1, 3, 0)

  lemma NoScalars()
    ensures ScalarSum([IntTok(1), Plus, IntTok(2)]) == 0
    ensures ScalarSum([Plus, IntTok(2)]) == 0
  {
    hide ScalarSum;
    SumOne(IntTok(1));
    SumOne(Plus);
    SumOne(IntTok(2));
    assert [IntTok(1), Plus, IntTok(2)] == [IntTok(1)] + [Plus] + [IntTok(2)];
    assert [Plus, IntTok(2)] == [Plus] + [IntTok(2)];
    SumThree([IntTok(1)], [Plus], [IntTok(2)]);
    ScalarSumConcat([Plus], [IntTok(2)]);
  }

  lemma SumBytes()
    ensures Bytes("1+2") == 3 && Bytes("1 + 2") == 5
  {
    assert "1+2"[1..] == "+2" && "+2"[1..] == "2" && "2"[1..] == "";
    assert "1 + 2"[1..] == " + 2" && " + 2"[1..] == "+ 2" && "+ 2"[1..] == " 2" && " 2"[1..] == "2";
  }

  lemma SumPieces(codec: FloatCodec)
    ensures IntText(1) + "+2" == "1+2" && IntText(2) + "" == "2" && "+" + "2" == "+2"
    ensures Punctuation('+', Some('2')) == Some((Plus, 1)) && IsPunctuation('+')
    ensures AfterInt("+2") && AfterInt("")
    ensures [IntTok(1)] + [Plus, IntTok(2)] == [IntTok(1), Plus, IntTok(2)] && [Plus] + [IntTok(2)] == [Plus, IntTok(2)]
    ensures Ready(TightLimits, Start("1+2"), "1+2", [IntTok(1), Plus, IntTok(2)])
    ensures Bytes("1+2") <= TightLimits.maxSourceBytes && TightLimits.maxTokens == 4 && 2 <= I64_MAX
  {
    hide ScalarSum;
    NoScalars();
    SumBytes();
  }

  /** `1+2` reads as three tokens. */
  lemma SumLexes(codec: FloatCodec)
    ensures Tokenize(codec, "1+2", TightLimits).Lexed?
    ensures Kinds(Tokenize(codec, "1+2", TightLimits).tokens) == [IntTok(1), Plus, IntTok(2)] + [Eof]
  {
    hide *;
    var a, b, c: Kind := IntTok(1), Plus, IntTok(2);
    var s0 := Start("1+2");
    SumPieces(codec);
    ReadyFirst(TightLimits, s0, "1+2", [a], [b, c]);
    var s1 := IntReads(codec, TightLimits, s0, 1, "+2");
    ReadyNext(codec, TightLimits, s0, s1, "1+2", "+2", [a], [b, c]);
    ReadyFirst(TightLimits, s1, "+2", [b], [c]);
    ReadyRest(TightLimits, s1, "+2", [b]);
    PeekAfter(s1, "+", "2");
    var s2 := PunctuationReads(codec, TightLimits, s1, "+", "2", Plus);
    ReadyNext(codec, TightLimits, s1, s2, "+2", "2", [b], [c]);
    var s3 := IntReads(codec, TightLimits, s2, 2, "");
    ReadsThen(codec, TightLimits, s1, s2, s3, "2", "", [b], [c]);
    ReadsThen(codec, TightLimits, s0, s1, s3, "+2", "", [a], [b, c]);
    Finish(codec, TightLimits, "1+2", s3, [a, b, c]);
  }

  lemma SumPrints(codec: FloatCodec)
    ensures Print(codec, S.Binary(S.Int(1), S.Add, S.Int(2))) == "1 + 2"
  {
    assert ThenAt(codec, S.Int(2), 5, RightOf, "") == "2";
    assert ThenAt(codec, S.Int(1), 5, LeftOf, " + 2") == "1 + 2";
    assert " " + (S.BinaryText(S.Add) + (" " + "2")) == " + 2";
  }

  lemma SumDerivation()
    ensures var c := BinaryOf(Leaf(IntTok(1)), S.Add, Leaf(IntTok(2)));
      && Spell(c) == [IntTok(1), Plus, IntTok(2)] && Fits(c) && Room(c, TightLimits, 0, 0)
      && Abs(c) == S.Binary(S.Int(1), S.Add, S.Int(2))
  {
  }

  /** Canonical text can be longer than the source it was parsed from, so a source-byte limit can
      accept the one and refuse the other. */
  lemma CanonicalTextCanExceedTheSourceLimit(codec: FloatCodec)
    requires CodecValid(codec)
    ensures var first := ParseExpression(codec, "1+2", TightLimits);
      && first.Accepted?
      && Print(codec, Strip(first.ast)) == "1 + 2"
      && Reparsed(codec, "1+2", TightLimits).Rejected?
  {
    hide Tokenize, ParseExpression, Print, Spell, Fits, Room, Abs, Reparsed, Layout;
    var c := BinaryOf(Leaf(IntTok(1)), S.Add, Leaf(IntTok(2)));
    SumLexes(codec);
    SumDerivation();
    DerivationAccepted(codec, "1+2", TightLimits, c);
    SumPrints(codec);
    SumBytes();
    LawExactly(codec, "1+2", TightLimits);
  }

  // ----- more nodes than the formatter takes -----

  function Zeros(n: nat): seq<S.Expr> { seq(n, _ => S.Int(0)) }

  /** Limits that are just enough for an array of `n` zeros. */
  function ArrayLimits(codec: FloatCodec, n: nat): ParseLimits {
    ParseLimits(Bytes(Print(codec, S.Array(Zeros(n)))), 0, 2 * n + 3, 0, n + 1, n)
  }

  lemma {:induction false} ZerosMeasure(codec: FloatCodec, n: nat, limit: nat)
    ensures NamesValidAll(Zeros(n)) && ValuesReadableAll(codec, Zeros(n)) && S.WidthsWithinAll(Zeros(n), limit)
    ensures S.NodesAll(Zeros(n)) == n && S.SerialDepthAll(Zeros(n)) <= 2 && LexedScalarsAll(Zeros(n)) == 0
    ensures NestAll(CanonAll(Zeros(n))) <= 1 && |SpellAll(CanonAll(Zeros(n)))| <= 2 * n
  {
    if n > 0 {
      var es := Zeros(n);
      assert es[1..] == Zeros(n - 1) && es[0] == S.Int(0);
      ZerosMeasure(codec, n - 1, limit);
      var cs := CanonAll(es);
      assert cs[0] == Leaf(IntTok(0)) && cs[1..] == CanonAll(es[1..]);
    }
  }

  lemma ArrayFits(codec: FloatCodec, n: nat)
    ensures var e, limits := S.Array(Zeros(n)), ArrayLimits(codec, n);
      && NamesValid(e) && ValuesReadable(codec, e) && S.Nodes(e) == n + 1
      && |Spell(Canon(e))| + 1 <= limits.maxTokens && ScalarSum(Spell(Canon(e))) <= limits.maxScalarBytes
      && Room(Canon(e), limits, 0, 0)
  {
    hide ScalarSum, Print, NestAll, SpellAll, CanonAll, S.NodesAll, S.SerialDepthAll, S.WidthsWithinAll, LexedScalarsAll;
    hide NamesValidAll, ValuesReadableAll, Bytes;
    var e := S.Array(Zeros(n));
    ZerosMeasure(codec, n, n);
    CanonFits(e);
    SpellScalars(Canon(e));
  }

  /** Whoever raises the parse limits can parse what `format_expression` will not write: for an array
      of 65,536 zeros or more it gives the empty text, which does not parse. */
  lemma LongArraysAreNotFormatted(codec: FloatCodec, n: nat)
    requires CodecValid(codec) && n >= DEFAULT_FORMAT.maxNodes
    ensures var text, limits := Print(codec, S.Array(Zeros(n))), ArrayLimits(codec, n);
      && ParseExpression(codec, text, limits).Accepted?
      && FormatText(codec, Strip(ParseExpression(codec, text, limits).ast)) == ""
      && Reparsed(codec, text, limits).Rejected?
  {
    hide ParseExpression, Print, Spell, Canon, Room, ScalarSum, NamesValid, ValuesReadable, S.Nodes, Zeros, Reparsed, Layout, Bytes;
    var e, limits := S.Array(Zeros(n)), ArrayLimits(codec, n);
    ArrayFits(codec, n);
    PrintedDerivation(codec, e, limits);
    LawExactly(codec, Print(codec, e), limits);
  }

  // ----- spans -----

  /** One leaf token parses to itself at every level. */
  lemma {:induction false} LeafLevel(toks: seq<Token>, limits: ParseLimits, leaf: Ast, level: nat)
    requires |toks| == 2 && toks[1].kind == Eof && limits.maxAstNodes >= 1 && 1 <= level <= 7
    requires LeafOf(toks[0]) == Some(leaf) && (toks[0].kind.IdentTok? ==> !S.IsReserved(toks[0].kind.name))
    ensures ParseLevel(toks, limits, level, 0, 0, 0) == Ok(Parsed(leaf, 2), 1, 1)
    decreases 7 - level
  {
    if level < 7 {
      LeafLevel(toks, limits, leaf, level + 1);
    } else {
      hide ParseUnary;
      LeafUnary(toks, limits, leaf);
    }
  }

  lemma LeafUnary(toks: seq<Token>, limits: ParseLimits, leaf: Ast)
    requires |toks| == 2 && toks[1].kind == Eof && limits.maxAstNodes >= 1
    requires LeafOf(toks[0]) == Some(leaf) && (toks[0].kind.IdentTok? ==> !S.IsReserved(toks[0].kind.name))
    ensures ParseUnary(toks, limits, 0, 0, 0) == Ok(Parsed(leaf, 2), 1, 1)
  {
    assert ParsePrimary(toks, limits, 0, 0, 0) == Ok(Parsed(leaf, 2), 1, 1);
    assert PostfixLoop(toks, limits, Parsed(leaf, 2), 1, 1, 0) == Ok(Parsed(leaf, 2), 1, 1);
    assert ParseSpec.UnaryOf(toks[0].kind) == None;
  }

  /** The tokens of a one-letter name after `pad` spaces. */
  function NameTokens(pad: nat): seq<Token> {
    [Token(IdentTok("a"), Span(pad, pad + 1)), Token(Eof, Span(pad + 1, pad + 1))]
  }

  lemma NameStep(codec: FloatCodec, limits: ParseLimits, pad: nat)
    requires limits.maxScalarBytes >= 1 && limits.maxTokens >= 2
    ensures Step(codec, LexState("a", pad, 0, false, [], []), limits)
         == LexState("", pad + 1, 1, false, [], [NameTokens(pad)[0]])
  {
    assert "a"[1..] == "" && "a"[..1] == "a" && Bytes("a") == 1;
    assert WordKind("a") == IdentTok("a") && IdentRun("") == 0;
  }

  lemma NameRun(codec: FloatCodec, limits: ParseLimits, pad: nat)
    requires limits.maxScalarBytes >= 1 && limits.maxTokens >= 2
    ensures var final := Run(codec, LexState("a", pad, 0, false, [], []), limits);
      final.diags == [] && final.tokens == NameTokens(pad)
  {
    hide Step;
    NameStep(codec, limits, pad);
    var s2 := Step(codec, LexState("a", pad, 0, false, [], []), limits);
    assert Run(codec, s2, limits).tokens == [NameTokens(pad)[0]] + [NameTokens(pad)[1]];
  }

  lemma NameLexes(codec: FloatCodec, limits: ParseLimits)
    requires limits.maxSourceBytes >= 2 && limits.maxScalarBytes >= 1 && limits.maxTokens >= 2
    ensures Tokenize(codec, " a", limits) == Lexed(NameTokens(1))
  {
    hide NameTokens;
    assert " a"[1..] == "a" && " a"[..1] == " " && " "[1..] == "" && "a"[1..] == "";
    assert Bytes(" a") == 2 && Bytes(" ") == 1;
    NameRun(codec, limits, 1);
    assert Step(codec, Start(" a"), limits) == LexState("a", 1, 0, false, [], []);
    assert Run(codec, Start(" a"), limits) == Run(codec, LexState("a", 1, 0, false, [], []), limits);
  }

  lemma NameParses(codec: FloatCodec, limits: ParseLimits, pad: nat)
    requires limits.maxAstNodes >= 1
    ensures ParseTokens(NameTokens(pad), limits) == Accepted(Ident("a", Span(pad, pad + 1)))
  {
    LeafLevel(NameTokens(pad), limits, Ident("a", Span(pad, pad + 1)), 1);
  }

  /** Formatting drops the leading space of ` a`, and with it every position moves: the law holds up
      to spans and not with them. */
  lemma SpansMove(codec: FloatCodec, limits: ParseLimits)
    requires CodecValid(codec)
    requires limits.maxSourceBytes >= 2 && limits.maxScalarBytes >= 1 && limits.maxTokens >= 2
    requires limits.maxAstNodes >= 1
    ensures var first := ParseExpression(codec, " a", limits);
      && first == Accepted(Ident("a", Span(1, 2)))
      && Reparsed(codec, " a", limits) == Accepted(Ident("a", Span(0, 1)))
  {
    hide Tokenize, ParseTokens, Reparsed;
    NameLexes(codec, limits);
    NameParses(codec, limits, 1);
    LawExactly(codec, " a", limits);
    assert "a" + "" == "a" && "a"[1..] == "";
    assert Bytes("a") == 1 && Print(codec, S.Ident("a")) == "a";
  }
}
