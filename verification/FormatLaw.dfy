/** The documented formatting law, for `format_expression` and its own limits:
    `parse(format(parse(input))) == parse(input)`. It does not hold for every input. This is exactly
    when it does, up to spans and with them. */
module FormatLaw {
  import opened Text
  import opened Tokens
  import opened LexerSpec
  import opened Spanned
  import opened ParseSpec
  import opened Grammar
  import opened Canonical
  import opened Printed
  import opened Layouts
  import opened Format
  import opened Formatter
  import opened RoundTrip
  import S = Syntax

  const DEFAULT_FORMAT := FormatLimits(127, 65536, 4 * 1024 * 1024)

  /** What `format_expression` gives: nothing where the default limits refuse. */
  function FormatText(codec: FloatCodec, e: S.Expr): string {
    if Formattable(codec, e, DEFAULT_FORMAT) then Print(codec, e) else ""
  }

  method FormatOrEmpty(codec: FloatCodec, e: S.Expr) returns (text: string)
    ensures text == FormatText(codec, e)
  {
    var r := FormatExpression(codec, e, DEFAULT_FORMAT);
    text := if r.Pass? then r.value else "";
  }

  /** `parse(format(parse(input)))`, for an accepted input. */
  function Reparsed(codec: FloatCodec, input: string, limits: ParseLimits): ParseResult
    requires ParseExpression(codec, input, limits).Accepted?
  {
    ParseExpression(codec, FormatText(codec, Strip(ParseExpression(codec, input, limits).ast)), limits)
  }

  /** What parsing establishes about an AST, whatever the limits were. */
  lemma ParsedFacts(codec: FloatCodec, input: string, limits: ParseLimits)
    requires CodecValid(codec) && ParseExpression(codec, input, limits).Accepted?
    ensures var e := Strip(ParseExpression(codec, input, limits).ast);
      && NamesValid(e) && ValuesReadable(codec, e) && S.SerialDepth(e) <= MAX_AST_SERIALIZED_DEPTH
      && S.Nodes(e) <= limits.maxAstNodes
  {
    hide Spell, Fits, NamesValid, ValuesReadable, S.WidthsWithin, S.Nodes, S.SerialDepth, ScalarSum, ParseExpression;
    var c := AcceptedDerives(codec, input, limits);
    LexedBudgets(codec, input, limits, c);
  }

  /** Of a formatter's limits only two can refuse a parsed AST: its names and floats are always
      writable, and it is at most 63 levels deep. */
  lemma ParsedFormats(codec: FloatCodec, input: string, limits: ParseLimits, format: FormatLimits)
    requires CodecValid(codec) && ParseExpression(codec, input, limits).Accepted?
    ensures var e := Strip(ParseExpression(codec, input, limits).ast);
      && S.Depth(e) <= 63
      && (Formattable(codec, e, format) <==>
            && S.Nodes(e) <= format.maxNodes && S.Depth(e) <= format.maxDepth
            && Bytes(Print(codec, e)) <= format.maxOutputBytes)
  {
    hide NamesValid, ValuesReadable, FloatsFinite, S.Nodes, S.SerialDepth, S.Depth, Print, ParseExpression;
    var e := Strip(ParseExpression(codec, input, limits).ast);
    ParsedFacts(codec, input, limits);
    S.DepthBelowSerialDepth(e);
    ReadableFinite(codec, e);
  }

  lemma EmptyLexes(codec: FloatCodec, limits: ParseLimits)
    requires Tokenize(codec, "", limits).Lexed?
    ensures |Kinds(Tokenize(codec, "", limits).tokens)| == 1
  {
    assert Run(codec, Start(""), limits) == PushToken(Start(""), limits, Eof, 0);
  }

  /** The empty text is no expression. */
  lemma EmptyRejected(codec: FloatCodec, limits: ParseLimits)
    requires CodecValid(codec)
    ensures ParseExpression(codec, "", limits).Rejected?
  {
    hide ParseExpression, ParseTokens, Spell, Room, Fits, Abs, Tokenize;
    if ParseExpression(codec, "", limits).Accepted? {
      var c := AcceptedDerives(codec, "", limits);
      EmptyLexes(codec, limits);
    }
  }

  /** A caller can tell whether the law holds from the parsed AST: it must have at most 65,536 nodes,
      and its canonical text must fit 4 MiB and the source-byte limit of the second parse. */
  predicate Reparses(codec: FloatCodec, e: S.Expr, limits: ParseLimits) {
    && S.Nodes(e) <= 65_536
    && Bytes(Print(codec, e)) <= 4_194_304
    && Bytes(Print(codec, e)) <= limits.maxSourceBytes
  }

  /** The first law up to spans, for every input and all limits. */
  lemma LawExactly(codec: FloatCodec, input: string, limits: ParseLimits)
    requires CodecValid(codec) && ParseExpression(codec, input, limits).Accepted?
    ensures var e := Strip(ParseExpression(codec, input, limits).ast);
      var again := Reparsed(codec, input, limits);
      && (again.Accepted? <==> Reparses(codec, e, limits))
      && (again.Accepted? ==> again.ast == Layout(codec, e, 0) && Strip(again.ast) == e)
  {
    hide Print, Layout, S.Nodes, S.Depth, Formattable, ParseExpression, CodecValid, Strip;
    ParsedFormats(codec, input, limits, DEFAULT_FORMAT);
    CanonicalRoundTrip(codec, input, limits);
    EmptyRejected(codec, limits);
  }

  /** The first law as documented, spans included: it also needs every node of the input to stand
      where canonical text puts it. */
  lemma LawWithSpansExactly(codec: FloatCodec, input: string, limits: ParseLimits)
    requires CodecValid(codec) && ParseExpression(codec, input, limits).Accepted?
    ensures var first := ParseExpression(codec, input, limits);
      var e := Strip(first.ast);
      Reparsed(codec, input, limits) == first <==>
        Reparses(codec, e, limits) && first.ast == Layout(codec, e, 0)
  {
    hide Print, Layout, ParseExpression, Reparses, CodecValid, Strip, Reparsed;
    LawExactly(codec, input, limits);
  }

  /** Where the parse limits are no wider than the formatter's, the source-byte limit alone decides. */
  lemma LawUnderNarrowLimits(codec: FloatCodec, input: string, limits: ParseLimits)
    requires CodecValid(codec) && ParseExpression(codec, input, limits).Accepted?
    requires limits.maxAstNodes <= DEFAULT_FORMAT.maxNodes
    requires limits.maxSourceBytes <= DEFAULT_FORMAT.maxOutputBytes
    ensures var e := Strip(ParseExpression(codec, input, limits).ast);
      var again := Reparsed(codec, input, limits);
      && (again.Accepted? <==> Bytes(Print(codec, e)) <= limits.maxSourceBytes)
      && (again.Accepted? ==> Strip(again.ast) == e)
  {
    hide Print, Layout, S.Nodes, ParseExpression, CodecValid, Strip, Reparsed, NamesValid, ValuesReadable, S.SerialDepth;
    ParsedFacts(codec, input, limits);
    LawExactly(codec, input, limits);
  }

  /** The second law, `format(parse(format(parse(input)))) == format(parse(input))`, holds whenever its
      left side exists. Canonical text parses to its own layout, so from there on the first law holds
      with its spans too. */
  lemma FormattingIsIdempotent(codec: FloatCodec, input: string, limits: ParseLimits)
    requires CodecValid(codec) && ParseExpression(codec, input, limits).Accepted?
    requires Reparsed(codec, input, limits).Accepted?
    ensures var text := FormatText(codec, Strip(ParseExpression(codec, input, limits).ast));
      var again := Reparsed(codec, input, limits).ast;
      FormatText(codec, Strip(again)) == text && again == Layout(codec, Strip(again), 0)
  {
    hide FormatText, Layout, ParseExpression, Reparses, CodecValid, Strip, Reparsed;
    LawExactly(codec, input, limits);
  }
}
