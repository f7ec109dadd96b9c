/** The recursive-descent parser as the source has it: an object with a position, a recursion depth
    and a node count that its methods update. Each method is proved against `ParseSpec`. */
module Parser {
  import opened Tokens
  import opened Spanned
  import opened ParseSpec
  import S = Syntax

  datatype Outcome<T> = Good(value: T) | Bad(error: Diagnostic)

  class Parser {
    const toks: seq<Token>
    const limits: ParseLimits
    var position: nat
    var recursionDepth: nat
    var astNodes: nat

    ghost predicate Valid()
      reads this
    {
      EndsWithEof(toks) && position < |toks|
    }

    /** `r` and the fields are what the specification `spec` says; the depth is always restored. */
    ghost predicate Follows<T>(spec: Res<T>, r: Outcome<T>, depth: nat)
      reads this
    {
      && Valid()
      && recursionDepth == depth
      && (spec.Err? ==> r == Bad(spec.error))
      && (spec.Ok? ==> r == Good(spec.value) && position == spec.pos && astNodes == spec.nodes)
    }

    constructor (toks: seq<Token>, limits: ParseLimits)
      requires EndsWithEof(toks)
      ensures Valid() && position == recursionDepth == astNodes == 0
      ensures this.toks == toks && this.limits == limits
    {
      this.toks, this.limits := toks, limits;
      position, recursionDepth, astNodes := 0, 0, 0;
    }

    method Parse() returns (r: ParseResult)
      requires Valid() && position == recursionDepth == astNodes == 0
      modifies this
      ensures r == ParseTokens(toks, limits)
    {
      var expression := ParseBinaryLevel(1);
      match expression
      case Bad(error) => r := Rejected([error]);
      case Good(parsed) =>
        if toks[position].kind != Eof {
          r := Rejected([Diagnostic(UnexpectedToken, toks[position].span)]);
        } else {
          r := Accepted(parsed.ast);
        }
    }

    /** `parse_or`, `parse_and`, `parse_equality`, `parse_comparison`, `parse_additive` and
        `parse_multiplicative` are this loop at levels one to six: an operand one level tighter,
        then, while an operator of the level follows, the operator and another such operand. */
    method ParseBinaryLevel(level: nat) returns (r: Outcome<Parsed>)
      requires Valid() && 1 <= level <= UNARY_LEVEL
      modifies this
      ensures Follows(ParseLevel(toks, limits, level, old(position), old(astNodes), old(recursionDepth)), r, old(recursionDepth))
      decreases |toks| - position, 20 - level
    {
      ghost var goal := ParseLevel(toks, limits, level, position, astNodes, recursionDepth);
      ghost var before, depth := position, recursionDepth;
      if level == UNARY_LEVEL {
        r := ParseUnaryExpression();
      } else {
        r := ParseBinaryLevel(level + 1);
      }
      if r.Bad? {
        return;
      }
      while true
        invariant Valid() && r.Good? && position > before && recursionDepth == depth
        invariant ParseLoop(toks, limits, level, r.value, position, astNodes, recursionDepth) == goal
        decreases |toks| - position
      {
        var op := ConsumeOperator(level);
        if op.None? {
          return;
        }
        var right := ParseBinaryLevel(level + 1);
        if right.Bad? {
          return right;
        }
        r := MakeBinaryExpression(r.value, op.value, right.value);
        if r.Bad? {
          return;
        }
      }
    }

    method ConsumeOperator(level: nat) returns (op: Option<S.BinaryOp>)
      requires Valid() && 1 <= level <= UNARY_LEVEL
      modifies this`position
      ensures Valid() && op == OpAt(level, toks[old(position)].kind)
      ensures position == if op.Some? then old(position) + 1 else old(position)
    {
      op := OpAt(level, toks[position].kind);
      if op.Some? {
        position := position + 1;
      }
    }

    method ParseUnaryExpression() returns (r: Outcome<Parsed>)
      requires Valid()
      modifies this
      ensures Follows(ParseUnary(toks, limits, old(position), old(astNodes), old(recursionDepth)), r, old(recursionDepth))
      decreases |toks| - position, 12
    {
      var token := toks[position];
      match UnaryOf(token.kind)
      case None =>
        r := ParsePostfixExpression();
      case Some(op) =>
        position := position + 1;
        if recursionDepth >= MAX_PARSE_RECURSION_DEPTH {
          return Bad(Diagnostic(RecursionDepthLimit, token.span));
        }
        recursionDepth := recursionDepth + 1;
        var inner := ParseUnaryExpression();
        recursionDepth := recursionDepth - 1;
        if inner.Bad? {
          return inner;
        }
        var span := Join(token.span, inner.value.ast.span);
        r := Make(Unary(op, inner.value.ast, span), 2 + inner.value.depth);
    }

    method ParsePostfixExpression() returns (r: Outcome<Parsed>)
      requires Valid()
      modifies this
      ensures Follows(ParsePostfix(toks, limits, old(position), old(astNodes), old(recursionDepth)), r, old(recursionDepth))
      decreases |toks| - position, 11
    {
      ghost var goal := ParsePostfix(toks, limits, position, astNodes, recursionDepth);
      ghost var before, depth := position, recursionDepth;
      r := ParsePrimaryExpression();
      if r.Bad? {
        return;
      }
      while toks[position].kind == Dot
        invariant Valid() && r.Good? && position > before && recursionDepth == depth
        invariant PostfixLoop(toks, limits, r.value, position, astNodes, recursionDepth) == goal
        decreases |toks| - position
      {
        r := ParseSuffix(r.value);
        if r.Bad? {
          return;
        }
      }
    }

    method ParseSuffix(receiver: Parsed) returns (r: Outcome<Parsed>)
      requires Valid() && toks[position].kind == Dot
      modifies this
      ensures Follows(
        PostfixOne(toks, limits, receiver, old(position), old(astNodes), old(recursionDepth)),
        r, old(recursionDepth))
      decreases |toks| - position, 9
    {
      hide ParseItems, ParseLevel, ParseCallArgs;
      position := position + 1;
      var name := ExpectName();
      if name.Bad? {
        return Bad(name.error);
      }
      if toks[position].kind == LParen {
        r := ParseMethodCall(receiver, name.value);
      } else {
        var span := Join(receiver.ast.span, toks[position - 1].span);
        r := Make(Member(receiver.ast, name.value, span), 2 + receiver.depth);
      }
    }

    /** The arguments of a method whose receiver and name have been read. */
    method ParseMethodCall(receiver: Parsed, name: string) returns (r: Outcome<Parsed>)
      requires Valid() && position > 1 && toks[position - 2].kind == Dot && toks[position - 1].kind == IdentTok(name)
      requires !S.IsReserved(name) && toks[position].kind == LParen
      modifies this
      ensures Follows(
        PostfixOne(toks, limits, receiver, old(position) - 2, old(astNodes), old(recursionDepth)),
        r, old(recursionDepth))
      decreases |toks| - position, 50
    {
      hide ParseItems, ParseLevel, ParseCallArgs;
      position := position + 1;
      var args := ParseArguments();
      if args.Bad? {
        return Bad(args.error);
      }
      var span := Join(receiver.ast.span, args.value.end);
      r := Make(Method(receiver.ast, name, args.value.list, span), S.Max(2 + receiver.depth, 3 + args.value.depth));
    }

    method ParsePrimaryExpression() returns (r: Outcome<Parsed>)
      requires Valid()
      modifies this
      ensures Follows(ParsePrimary(toks, limits, old(position), old(astNodes), old(recursionDepth)), r, old(recursionDepth))
      decreases |toks| - position, 9
    {
      hide ParseItems, ParseLevel, ParseArray, ParseCallArgs;
      var token := toks[position];
      if token.kind != Eof {
        position := position + 1;
      }
      match token.kind {
        case IdentTok(name) =>
          if S.IsReserved(name) {
            return Bad(Diagnostic(ReservedIdentifier, token.span));
          }
          if toks[position].kind == LParen {
            r := ParseFunctionCall(token);
          } else {
            r := MakeLeaf(token);
          }
        case LParen =>
          if recursionDepth >= MAX_PARSE_RECURSION_DEPTH {
            return Bad(Diagnostic(RecursionDepthLimit, token.span));
          }
          r := ParseNested();
          if r.Bad? {
            return;
          }
          if toks[position].kind != RParen {
            return Bad(Diagnostic(ExpectedCloseParen, toks[position].span));
          }
          position := position + 1;
        case LBracket =>
          r := ParseArrayLiteral(token.span);
        case _ =>
          r := MakeLeaf(token);
      }
    }

    /** The arguments of a call whose name has been read. */
    method ParseFunctionCall(token: Token) returns (r: Outcome<Parsed>)
      requires Valid() && position > 0 && toks[position - 1] == token && token.kind.IdentTok?
      requires !S.IsReserved(token.kind.name) && toks[position].kind == LParen
      modifies this
      ensures Follows(ParsePrimary(toks, limits, old(position) - 1, old(astNodes), old(recursionDepth)), r, old(recursionDepth))
      decreases |toks| - position, 50
    {
      hide ParseItems, ParseLevel;
      position := position + 1;
      var args := ParseArguments();
      if args.Bad? {
        return Bad(args.error);
      }
      r := Make(Call(token.kind.name, args.value.list, Join(token.span, args.value.end)), 3 + args.value.depth);
    }

    method MakeLeaf(token: Token) returns (r: Outcome<Parsed>)
      requires Valid()
      modifies this`astNodes
      ensures Follows(ParseLeaf(token, position, old(astNodes), limits), r, recursionDepth)
    {
      match LeafOf(token)
      case None => r := Bad(Diagnostic(ExpectedExpression, token.span));
      case Some(leaf) => r := Make(leaf, 2);
    }

    method ParseArrayLiteral(start: Span) returns (r: Outcome<Parsed>)
      requires Valid()
      modifies this
      ensures Follows(ParseArray(toks, limits, old(position), start, old(astNodes), old(recursionDepth)), r, old(recursionDepth))
      decreases |toks| - position, 40
    {
      if toks[position].kind == RBracket {
        var end := toks[position].span;
        position := position + 1;
        r := Make(Array([], Join(start, end)), 3);
        return;
      }
      var items := ParseListing(InArray(start));
      if items.Bad? {
        return Bad(items.error);
      }
      r := Make(Array(items.value.list, Join(start, items.value.end)), 3 + items.value.depth);
    }

    method ParseArguments() returns (r: Outcome<Items>)
      requires Valid()
      modifies this
      ensures Follows(ParseCallArgs(toks, limits, old(position), old(astNodes), old(recursionDepth)), r, old(recursionDepth))
      decreases |toks| - position, 40
    {
      if toks[position].kind == RParen {
        r := Good(Items([], 0, toks[position].span));
        position := position + 1;
        return;
      }
      r := ParseListing(InArgs);
    }

    /** The loop `parse_array` and `parse_call_args` share, told apart by `listing`. */
    method ParseListing(listing: Listing) returns (r: Outcome<Items>)
      requires Valid()
      modifies this
      ensures Follows(
        ParseItems(toks, limits, listing, [], 0, old(position), old(astNodes), old(recursionDepth)), r, old(recursionDepth))
      decreases |toks| - position, 30
    {
      hide ParseLevel;
      ghost var goal := ParseItems(toks, limits, listing, [], 0, position, astNodes, recursionDepth);
      ghost var before, outer := position, recursionDepth;
      var list: seq<Ast>, depth: nat := [], 0;
      while true
        invariant Valid() && recursionDepth == outer && position >= before
        invariant ParseItems(toks, limits, listing, list, depth, position, astNodes, recursionDepth) == goal
        decreases |toks| - position
      {
        var span := toks[position].span;
        if |list| >= limits.maxCollectionItems {
          return Bad(Diagnostic(CollectionLimit, span));
        }
        if recursionDepth >= MAX_PARSE_RECURSION_DEPTH {
          return Bad(Diagnostic(RecursionDepthLimit, listing.NestedSpan(span)));
        }
        var item := ParseNested();
        if item.Bad? {
          return Bad(item.error);
        }
        list, depth := list + [item.value.ast], S.Max(depth, item.value.depth);
        var next := toks[position];
        if next.kind == listing.Close() {
          position := position + 1;
          return Good(Items(list, depth, next.span));
        }
        if next.kind != Comma {
          return Bad(Diagnostic(listing.MissingComma(), next.span));
        }
        position := position + 1;
      }
    }

    /** `parse_nested` around a whole expression. */
    method ParseNested() returns (r: Outcome<Parsed>)
      requires Valid()
      modifies this
      ensures Follows(ParseLevel(toks, limits, 1, old(position), old(astNodes), old(recursionDepth) + 1), r, old(recursionDepth))
      decreases |toks| - position, 25
    {
      hide ParseLevel;
      recursionDepth := recursionDepth + 1;
      r := ParseBinaryLevel(1);
      recursionDepth := recursionDepth - 1;
    }

    method ExpectName() returns (r: Outcome<string>)
      requires Valid()
      modifies this`position
      ensures Follows(ExpectIdentifier(toks, old(position), astNodes), r, recursionDepth)
    {
      match toks[position].kind
      case IdentTok(name) =>
        if S.IsReserved(name) {
          r := Bad(Diagnostic(ReservedIdentifier, toks[position].span));
        } else {
          position := position + 1;
          r := Good(name);
        }
      case _ => r := Bad(Diagnostic(ExpectedIdentifier, toks[position].span));
    }

    method MakeBinaryExpression(left: Parsed, op: S.BinaryOp, right: Parsed) returns (r: Outcome<Parsed>)
      requires Valid()
      modifies this`astNodes
      ensures Follows(MakeBinary(left, op, right, position, old(astNodes), limits), r, recursionDepth)
    {
      var span := Join(left.ast.span, right.ast.span);
      r := Make(Binary(left.ast, op, right.ast, span), 2 + S.Max(left.depth, right.depth));
    }

    /** Builds a node after checking the depth and node budgets. */
    method Make(ast: Ast, depth: nat) returns (r: Outcome<Parsed>)
      requires Valid()
      modifies this`astNodes
      ensures Follows(MakeExpression(ast, depth, position, old(astNodes), limits), r, recursionDepth)
    {
      if depth > MAX_AST_SERIALIZED_DEPTH {
        return Bad(Diagnostic(AstDepthLimit, ast.span));
      }
      var nodes := astNodes + 1;
      if nodes > limits.maxAstNodes {
        return Bad(Diagnostic(AstNodeLimit, ast.span));
      }
      astNodes := nodes;
      r := Good(Parsed(ast, depth));
    }
  }
}
