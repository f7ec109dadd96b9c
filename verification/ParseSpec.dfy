/** The parser as functions of the token sequence and a position: every precedence level, every
    budget and every error of the recursive-descent parser. */
module ParseSpec {
  import opened Tokens
  import opened Spanned
  import S = Syntax

  datatype Parsed = Parsed(ast: Ast, depth: nat)

  datatype Items = Items(list: seq<Ast>, depth: nat, end: Span)

  datatype Res<T> = Ok(value: T, pos: nat, nodes: nat) | Err(error: Diagnostic)

  /** The token sequences a lexer hands over: they end with the end-of-input token. */
  predicate EndsWithEof(toks: seq<Token>) {
    |toks| > 0 && toks[|toks| - 1].kind == Eof
  }

  /** Operator levels, loosest first; level seven is the unary level and has no operator. */
  const UNARY_LEVEL: nat := 7

  function OpOf(kind: Kind): Option<S.BinaryOp> {
    match kind
    case OrOr => Some(S.Or)
    case AndAnd => Some(S.And)
    case EqEq => Some(S.Eq)
    case NotEq => Some(S.Ne)
    case Less => Some(S.Lt)
    case LessEq => Some(S.Le)
    case Greater => Some(S.Gt)
    case GreaterEq => Some(S.Ge)
    case Plus => Some(S.Add)
    case Minus => Some(S.Sub)
    case Star => Some(S.Mul)
    case Slash => Some(S.Div)
    case Percent => Some(S.Rem)
    case _ => None
  }

  /** The tokens each of the six binary levels looks for. */
  function OpAt(level: nat, kind: Kind): (op: Option<S.BinaryOp>)
    ensures op.Some? <==> OpOf(kind).Some? && S.BinaryPrecedence(OpOf(kind).value) == level
    ensures op.Some? ==> op == OpOf(kind)
  {
    if level == 1 then (match kind case OrOr => Some(S.Or) case _ => None)
    else if level == 2 then (match kind case AndAnd => Some(S.And) case _ => None)
    else if level == 3 then (match kind case EqEq => Some(S.Eq) case NotEq => Some(S.Ne) case _ => None)
    else if level == 4 then
      (match kind
       case Less => Some(S.Lt) case LessEq => Some(S.Le)
       case Greater => Some(S.Gt) case GreaterEq => Some(S.Ge)
       case _ => None)
    else if level == 5 then (match kind case Plus => Some(S.Add) case Minus => Some(S.Sub) case _ => None)
    else if level == 6 then
      (match kind case Star => Some(S.Mul) case Slash => Some(S.Div) case Percent => Some(S.Rem) case _ => None)
    else None
  }

  /** Admits a node whose serialized depth is `depth`, charging the node budget. */
  function MakeExpression(ast: Ast, depth: nat, pos: nat, nodes: nat, limits: ParseLimits)
    : (r: Res<Parsed>)
    ensures r.Ok? ==> r.value == Parsed(ast, depth) && r.pos == pos && r.nodes == nodes + 1
  {
    if depth > MAX_AST_SERIALIZED_DEPTH then Err(Diagnostic(AstDepthLimit, ast.span))
    else if nodes + 1 > limits.maxAstNodes then Err(Diagnostic(AstNodeLimit, ast.span))
    else Ok(Parsed(ast, depth), pos, nodes + 1)
  }

  /** The operand at `level`, then the operators of that level. */
  function ParseLevel(toks: seq<Token>, limits: ParseLimits, level: nat, pos: nat, nodes: nat, nesting: nat)
    : (r: Res<Parsed>)
    requires EndsWithEof(toks) && pos < |toks| && 1 <= level <= UNARY_LEVEL
    ensures r.Ok? ==> pos < r.pos < |toks|
    decreases |toks| - pos, 20 - level
  {
    var first :=
      if level == UNARY_LEVEL then ParseUnary(toks, limits, pos, nodes, nesting)
      else ParseLevel(toks, limits, level + 1, pos, nodes, nesting);
    match first
    case Err(_) => first
    case Ok(left, p, n) => ParseLoop(toks, limits, level, left, p, n, nesting)
  }

  function ParseLoop(
    toks: seq<Token>, limits: ParseLimits, level: nat, left: Parsed, pos: nat, nodes: nat, nesting: nat)
    : (r: Res<Parsed>)
    requires EndsWithEof(toks) && pos < |toks| && 1 <= level <= UNARY_LEVEL
    ensures r.Ok? ==> pos <= r.pos < |toks|
    decreases |toks| - pos, 25
  {
    match OpAt(level, toks[pos].kind)
    case None => Ok(left, pos, nodes)
    case Some(op) =>
      match ParseLevel(toks, limits, level + 1, pos + 1, nodes, nesting)
      case Err(error) => Err(error)
      case Ok(right, p, n) =>
        match MakeBinary(left, op, right, p, n, limits)
        case Err(error) => Err(error)
        case Ok(both, q, m) => ParseLoop(toks, limits, level, both, q, m, nesting)
  }

  function MakeBinary(left: Parsed, op: S.BinaryOp, right: Parsed, pos: nat, nodes: nat, limits: ParseLimits)
    : (r: Res<Parsed>)
    ensures r.Ok? ==> r.pos == pos && r.nodes == nodes + 1
  {
    var span := Join(left.ast.span, right.ast.span);
    MakeExpression(Binary(left.ast, op, right.ast, span), 2 + S.Max(left.depth, right.depth),
                   pos, nodes, limits)
  }

  function UnaryOf(kind: Kind): Option<S.UnaryOp> {
    match kind
    case Bang => Some(S.Not)
    case Minus => Some(S.Neg)
    case _ => None
  }

  function ParseUnary(toks: seq<Token>, limits: ParseLimits, pos: nat, nodes: nat, nesting: nat)
    : (r: Res<Parsed>)
    requires EndsWithEof(toks) && pos < |toks|
    ensures r.Ok? ==> pos < r.pos < |toks|
    decreases |toks| - pos, 12
  {
    match UnaryOf(toks[pos].kind)
    case None => ParsePostfix(toks, limits, pos, nodes, nesting)
    case Some(op) =>
      if nesting >= MAX_PARSE_RECURSION_DEPTH then
        Err(Diagnostic(RecursionDepthLimit, toks[pos].span))
      else
        match ParseUnary(toks, limits, pos + 1, nodes, nesting + 1)
        case Err(error) => Err(error)
        case Ok(inner, p, n) =>
          var span := Join(toks[pos].span, inner.ast.span);
          MakeExpression(Unary(op, inner.ast, span), 2 + inner.depth, p, n, limits)
  }

  function ParsePostfix(toks: seq<Token>, limits: ParseLimits, pos: nat, nodes: nat, nesting: nat)
    : (r: Res<Parsed>)
    requires EndsWithEof(toks) && pos < |toks|
    ensures r.Ok? ==> pos < r.pos < |toks|
    decreases |toks| - pos, 11
  {
    var first := ParsePrimary(toks, limits, pos, nodes, nesting);
    match first
    case Err(_) => first
    case Ok(receiver, p, n) => PostfixLoop(toks, limits, receiver, p, n, nesting)
  }

  /** A name after a point; the only lexical tokens accepted are unreserved identifiers. */
  function ExpectIdentifier(toks: seq<Token>, pos: nat, nodes: nat): (r: Res<string>)
    requires EndsWithEof(toks) && pos < |toks|
    ensures r.Ok? ==> r.pos == pos + 1 < |toks| && r.nodes == nodes
  {
    match toks[pos].kind
    case IdentTok(name) =>
      if S.IsReserved(name) then Err(Diagnostic(ReservedIdentifier, toks[pos].span))
      else Ok(name, pos + 1, nodes)
    case _ => Err(Diagnostic(ExpectedIdentifier, toks[pos].span))
  }

  function PostfixLoop(
    toks: seq<Token>, limits: ParseLimits, receiver: Parsed, pos: nat, nodes: nat, nesting: nat)
    : (r: Res<Parsed>)
    requires EndsWithEof(toks) && pos < |toks|
    ensures r.Ok? ==> pos <= r.pos < |toks|
    decreases |toks| - pos, 10
  {
    if toks[pos].kind != Dot then Ok(receiver, pos, nodes)
    else
      match PostfixOne(toks, limits, receiver, pos, nodes, nesting)
      case Err(error) => Err(error)
      case Ok(longer, p, n) => PostfixLoop(toks, limits, longer, p, n, nesting)
  }

  /** A point, a name, and the arguments if an opening parenthesis follows. */
  function PostfixOne(
    toks: seq<Token>, limits: ParseLimits, receiver: Parsed, pos: nat, nodes: nat, nesting: nat)
    : (r: Res<Parsed>)
    requires EndsWithEof(toks) && pos < |toks| && toks[pos].kind == Dot
    ensures r.Ok? ==> pos < r.pos < |toks|
    decreases |toks| - pos, 9
  {
    match ExpectIdentifier(toks, pos + 1, nodes)
    case Err(error) => Err(error)
    case Ok(name, p, _) =>
      if toks[p].kind == LParen then
        match ParseCallArgs(toks, limits, p + 1, nodes, nesting)
        case Err(error) => Err(error)
        case Ok(args, q, n) => MakeMethod(receiver, name, args, q, n, limits)
      else MakeMember(receiver, name, toks[p - 1].span, p, nodes, limits)
  }

  function MakeMethod(receiver: Parsed, name: string, args: Items, pos: nat, nodes: nat, limits: ParseLimits)
    : (r: Res<Parsed>)
    ensures r.Ok? ==> r.pos == pos && r.nodes == nodes + 1
  {
    var span := Join(receiver.ast.span, args.end);
    MakeExpression(Method(receiver.ast, name, args.list, span),
                   S.Max(2 + receiver.depth, 3 + args.depth), pos, nodes, limits)
  }

  function MakeMember(receiver: Parsed, name: string, end: Span, pos: nat, nodes: nat, limits: ParseLimits)
    : (r: Res<Parsed>)
    ensures r.Ok? ==> r.pos == pos && r.nodes == nodes + 1
  {
    var span := Join(receiver.ast.span, end);
    MakeExpression(Member(receiver.ast, name, span), 2 + receiver.depth, pos, nodes, limits)
  }

  /** The leaves that are one token; an identifier counts only where no call follows it. */
  function LeafOf(token: Token): Option<Ast> {
    match token.kind
    case TrueTok => Some(Bool(true, token.span))
    case FalseTok => Some(Bool(false, token.span))
    case NullTok => Some(Null(token.span))
    case IntTok(number) => Some(Int(number, token.span))
    case FloatTok(bits) => Some(Float(bits, token.span))
    case StrTok(text) => Some(Str(text, token.span))
    case IdentTok(name) => Some(Ident(name, token.span))
    case _ => None
  }

  function ParsePrimary(toks: seq<Token>, limits: ParseLimits, pos: nat, nodes: nat, nesting: nat)
    : (r: Res<Parsed>)
    requires EndsWithEof(toks) && pos < |toks|
    ensures r.Ok? ==> pos < r.pos < |toks|
    decreases |toks| - pos, 9
  {
    var token := toks[pos];
    match token.kind
    case IdentTok(name) =>
      if S.IsReserved(name) then Err(Diagnostic(ReservedIdentifier, token.span))
      else if toks[pos + 1].kind == LParen then
        match ParseCallArgs(toks, limits, pos + 2, nodes, nesting)
        case Err(error) => Err(error)
        case Ok(args, p, n) =>
          MakeExpression(Call(name, args.list, Join(token.span, args.end)), 3 + args.depth, p, n, limits)
      else ParseLeaf(token, pos + 1, nodes, limits)
    case LParen =>
      if nesting >= MAX_PARSE_RECURSION_DEPTH then Err(Diagnostic(RecursionDepthLimit, token.span))
      else
        match ParseLevel(toks, limits, 1, pos + 1, nodes, nesting + 1) {
          case Err(error) => Err(error)
          case Ok(inner, p, n) =>
            if toks[p].kind != RParen then Err(Diagnostic(ExpectedCloseParen, toks[p].span))
            else Ok(inner, p + 1, n)
        }
    case LBracket => ParseArray(toks, limits, pos + 1, token.span, nodes, nesting)
    case _ => ParseLeaf(token, pos + 1, nodes, limits)
  }

  function ParseLeaf(token: Token, next: nat, nodes: nat, limits: ParseLimits): (r: Res<Parsed>)
    ensures r.Ok? ==> token.kind != Eof && r.pos == next
  {
    match LeafOf(token)
    case None => Err(Diagnostic(ExpectedExpression, token.span))
    case Some(leaf) => MakeExpression(leaf, 2, next, nodes, limits)
  }

  function ParseArray(
    toks: seq<Token>, limits: ParseLimits, pos: nat, start: Span, nodes: nat, nesting: nat)
    : (r: Res<Parsed>)
    requires EndsWithEof(toks) && pos < |toks|
    ensures r.Ok? ==> pos <= r.pos < |toks|
    decreases |toks| - pos, 40
  {
    if toks[pos].kind == RBracket then
      MakeExpression(Array([], Join(start, toks[pos].span)), 3, pos + 1, nodes, limits)
    else
      match ParseItems(toks, limits, InArray(start), [], 0, pos, nodes, nesting)
      case Err(error) => Err(error)
      case Ok(items, p, n) =>
        MakeExpression(Array(items.list, Join(start, items.end)), 3 + items.depth, p, n, limits)
  }

  function ParseCallArgs(toks: seq<Token>, limits: ParseLimits, pos: nat, nodes: nat, nesting: nat)
    : (r: Res<Items>)
    requires EndsWithEof(toks) && pos < |toks|
    ensures r.Ok? ==> pos < r.pos < |toks|
    decreases |toks| - pos, 40
  {
    if toks[pos].kind == RParen then Ok(Items([], 0, toks[pos].span), pos + 1, nodes)
    else ParseItems(toks, limits, InArgs, [], 0, pos, nodes, nesting)
  }

  /** Which of the two comma-separated lists is being read. */
  datatype Listing = InArray(start: Span) | InArgs {
    function Close(): Kind { if InArray? then RBracket else RParen }
    function MissingComma(): Tag { if InArray? then ExpectedCommaInArray else ExpectedCommaInArgs }
    function NestedSpan(next: Span): Span { if InArray? then start else next }
  }

  /** One more item, then either the closing token or a comma and the rest. */
  function ParseItems(
    toks: seq<Token>, limits: ParseLimits, listing: Listing, done: seq<Ast>, depth: nat,
    pos: nat, nodes: nat, nesting: nat)
    : (r: Res<Items>)
    requires EndsWithEof(toks) && pos < |toks|
    ensures r.Ok? ==> pos < r.pos < |toks|
    decreases |toks| - pos, 30
  {
    var span := toks[pos].span;
    if |done| >= limits.maxCollectionItems then Err(Diagnostic(CollectionLimit, span))
    else if nesting >= MAX_PARSE_RECURSION_DEPTH then
      Err(Diagnostic(RecursionDepthLimit, listing.NestedSpan(span)))
    else
      match ParseLevel(toks, limits, 1, pos, nodes, nesting + 1)
      case Err(error) => Err(error)
      case Ok(item, p, n) =>
        var done' := done + [item.ast];
        var depth' := S.Max(depth, item.depth);
        if toks[p].kind == listing.Close() then Ok(Items(done', depth', toks[p].span), p + 1, n)
        else if toks[p].kind == Comma then
          ParseItems(toks, limits, listing, done', depth', p + 1, n, nesting)
        else Err(Diagnostic(listing.MissingComma(), toks[p].span))
  }

  datatype ParseResult = Accepted(ast: Ast) | Rejected(diags: seq<Diagnostic>)

  /** A whole token sequence: one expression and nothing after it. */
  function ParseTokens(toks: seq<Token>, limits: ParseLimits): ParseResult
    requires EndsWithEof(toks)
  {
    match ParseLevel(toks, limits, 1, 0, 0, 0)
    case Err(error) => Rejected([error])
    case Ok(parsed, p, _) =>
      if toks[p].kind != Eof then Rejected([Diagnostic(UnexpectedToken, toks[p].span)])
      else Accepted(parsed.ast)
  }
}
