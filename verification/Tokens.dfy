/** Tokens, spans, limits and diagnostics shared by the lexer and the parser. */
module Tokens {
  import opened Text
  import opened Syntax

  datatype Span = Span(start: nat, end: nat)

  const NoSpan := Span(0, 0)

  function Join(a: Span, b: Span): Span {
    Span(if a.start < b.start then a.start else b.start, if a.end < b.end then b.end else a.end)
  }

  datatype Kind =
    | IdentTok(name: string) | StrTok(text: string) | IntTok(number: int) | FloatTok(bits: FloatBits)
    | TrueTok | FalseTok | NullTok
    | Dot | Comma | LParen | RParen | LBracket | RBracket
    | Bang | Minus | Plus | Star | Slash | Percent
    | EqEq | NotEq | Less | LessEq | Greater | GreaterEq | AndAnd | OrOr
    | Eof

  datatype Token = Token(kind: Kind, span: Span)

  datatype Tag =
    | SourceLimit | ScalarLimit | TokenLimit | DiagnosticLimit
    | UnsupportedEscape | UnterminatedString | InvalidFloat | InvalidInt | InvalidChar
    | RecursionDepthLimit | AstDepthLimit | AstNodeLimit | CollectionLimit
    | UnexpectedToken | ExpectedExpression | ExpectedIdentifier | ExpectedCloseParen
    | ExpectedCommaInArray | ExpectedCommaInArgs | ReservedIdentifier

  datatype Diagnostic = Diagnostic(tag: Tag, span: Span)

  datatype ParseLimits = ParseLimits(
    maxSourceBytes: nat, maxScalarBytes: nat, maxTokens: nat, maxDiagnostics: nat,
    maxAstNodes: nat, maxCollectionItems: nat)

  const MAX_PARSE_RECURSION_DEPTH: nat := 256
  const MAX_AST_SERIALIZED_DEPTH: nat := 127

  /** How the platform reads and prints an `f64`. `read` is `None` where parsing the text does not
      give a finite value; `display` is `f64::to_string`. */
  datatype FloatCodec = FloatCodec(
    read: string -> Option<FloatBits>, display: FloatBits -> string, finite: FloatBits -> bool)

  datatype Option<T> = None | Some(value: T)

  /** Digits, a point and digits: the only float spelling the lexer knows. */
  ghost predicate IsFloatText(s: string) {
    exists i :: PointAt(s, i)
  }

  predicate PointAt(s: string, i: int) {
    0 < i < |s| - 1 && s[i] == '.' && AllDigits(s[..i]) && AllDigits(s[i + 1..])
  }

  /** The formatter's float text: a finite float's display text is completed with `.0` where it
      would otherwise read as an integer. */
  function FloatText(codec: FloatCodec, bits: FloatBits): (text: string)
    ensures codec.finite(bits) ==> exists c :: c in text && (c == '.' || c == 'e' || c == 'E')
    ensures text == codec.display(bits) ||
      (text == codec.display(bits) + ".0" && codec.finite(bits) &&
       forall c :: c in codec.display(bits) ==> c != '.' && c != 'e' && c != 'E')
  {
    var out := codec.display(bits);
    assert '.' in out + ".0" by { assert (out + ".0")[|out|] == '.'; }
    if codec.finite(bits) && '.' !in out && 'e' !in out && 'E' !in out then out + ".0" else out
  }

  /** Printing a float that was read from source gives a text the lexer reads back as the same
      float. Rust's `f64` display is the shortest decimal that reads back, with no exponent. */
  ghost predicate CodecValid(codec: FloatCodec) {
    forall raw {:trigger codec.read(raw)} :: IsFloatText(raw) && codec.read(raw).Some? ==>
      Readable(codec, codec.read(raw).value)
  }

  ghost predicate Readable(codec: FloatCodec, bits: FloatBits) {
    && codec.finite(bits)
    && IsFloatText(FloatText(codec, bits))
    && codec.read(FloatText(codec, bits)) == Some(bits)
  }

  function Kinds(toks: seq<Token>): (ks: seq<Kind>)
    ensures |ks| == |toks| && forall i :: 0 <= i < |toks| ==> ks[i] == toks[i].kind
  {
    seq(|toks|, i requires 0 <= i < |toks| => toks[i].kind)
  }

  /** The bytes one token charges to the decoded-scalar budget. */
  function KindScalars(k: Kind): nat {
    match k
    case IdentTok(name) => Bytes(name)
    case StrTok(text) => Bytes(text)
    case TrueTok => 4
    case FalseTok => 5
    case NullTok => 4
    case _ => 0
  }

  function ScalarSum(ks: seq<Kind>): nat {
    if ks == [] then 0 else ScalarSum(ks[..|ks| - 1]) + KindScalars(ks[|ks| - 1])
  }

  lemma {:induction false} ScalarSumConcat(a: seq<Kind>, b: seq<Kind>)
    ensures ScalarSum(a + b) == ScalarSum(a) + ScalarSum(b)
  {
    if b == [] {
      assert a + b == a;
    } else {
      assert (a + b)[..|a + b| - 1] == a + b[..|b| - 1];
      ScalarSumConcat(a, b[..|b| - 1]);
    }
  }

  /** A token the lexer can produce: identifiers are spelled as identifiers and are not keyword
      literals, integers are non-negative `i64` values, floats were read from float text. */
  ghost predicate Lexable(codec: FloatCodec, k: Kind) {
    match k
    case IdentTok(name) => IsIdentText(name) && name != "true" && name != "false" && name != "null"
    case IntTok(number) => 0 <= number <= I64_MAX
    case FloatTok(bits) => Readable(codec, bits)
    case _ => true
  }
}
