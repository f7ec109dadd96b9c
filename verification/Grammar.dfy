/** The language the parser accepts, as derivation trees that keep the parentheses. A derivation
    spells a token sequence and denotes an AST; precedence and associativity are which derivations
    are allowed to stand where. */
module Grammar {
  import opened Tokens
  import opened ParseSpec
  import S = Syntax

  datatype Cst =
    | Leaf(kind: Kind)
    | Group(inner: Cst)
    | ListOf(items: seq<Cst>)
    | CallOf(name: string, args: seq<Cst>)
    | MemberOf(receiver: Cst, name: string)
    | MethodOf(receiver: Cst, name: string, args: seq<Cst>)
    | UnaryOf(uop: S.UnaryOp, operand: Cst)
    | BinaryOf(left: Cst, op: S.BinaryOp, right: Cst)

  function OpKind(op: S.BinaryOp): (k: Kind)
    ensures OpOf(k) == Some(op)
  {
    match op
    case Or => OrOr case And => AndAnd case Eq => EqEq case Ne => NotEq
    case Lt => Less case Le => LessEq case Gt => Greater case Ge => GreaterEq
    case Add => Plus case Sub => Minus case Mul => Star case Div => Slash case Rem => Percent
  }

  function PrefixKind(op: S.UnaryOp): (k: Kind)
    ensures ParseSpec.UnaryOf(k) == Some(op)
  {
    match op case Not => Bang case Neg => Minus
  }

  predicate IsLeafKind(k: Kind) {
    match k
    case IdentTok(name) => !S.IsReserved(name)
    case StrTok(_) | IntTok(_) | FloatTok(_) | TrueTok | FalseTok | NullTok => true
    case _ => false
  }

  /** The rung of a binary operator, loosest first; the formatter has the same order in a table of its
      own. */
  function Rung(op: S.BinaryOp): (r: nat)
    ensures 1 <= r <= 6 && r == S.BinaryPrecedence(op)
  {
    match op
    case Or => 1
    case And => 2
    case Eq => 3 case Ne => 3
    case Lt => 4 case Le => 4 case Gt => 4 case Ge => 4
    case Add => 5 case Sub => 5
    case Mul => 6 case Div => 6 case Rem => 6
  }

  /** How tightly a derivation binds: the operator levels, then unary, postfix and primary. */
  function Level(c: Cst): nat {
    match c
    case BinaryOf(_, op, _) => Rung(op)
    case UnaryOf(_, _) => 7
    case MemberOf(_, _) | MethodOf(_, _, _) => 8
    case _ => 9
  }

  /** Left-associative levels: a right operand must bind strictly tighter than its operator. */
  predicate Fits(c: Cst)
    decreases c, 1
  {
    match c
    case Leaf(kind) => IsLeafKind(kind)
    case Group(inner) => Fits(inner)
    case ListOf(items) => FitsAll(items)
    case CallOf(name, args) => !S.IsReserved(name) && FitsAll(args)
    case MemberOf(receiver, name) => !S.IsReserved(name) && Fits(receiver) && Level(receiver) >= 8
    case MethodOf(receiver, name, args) =>
      !S.IsReserved(name) && Fits(receiver) && Level(receiver) >= 8 && FitsAll(args)
    case UnaryOf(_, operand) => Fits(operand) && Level(operand) >= 7
    case BinaryOf(left, op, right) =>
      && Fits(left) && Level(left) >= Rung(op)
      && Fits(right) && Level(right) > Rung(op)
  }

  predicate FitsAll(cs: seq<Cst>)
    decreases cs, 0
  {
    cs == [] || (Fits(cs[0]) && FitsAll(cs[1..]))
  }

  /** The token kinds of a derivation, left to right. */
  function Spell(c: Cst): (ks: seq<Kind>)
    ensures |ks| > 0
    decreases c, 1
  {
    match c
    case Leaf(kind) => [kind]
    case Group(inner) => [LParen] + Spell(inner) + [RParen]
    case ListOf(items) => [LBracket] + SpellAll(items) + [RBracket]
    case CallOf(name, args) => [IdentTok(name), LParen] + SpellAll(args) + [RParen]
    case MemberOf(receiver, name) => Spell(receiver) + [Dot, IdentTok(name)]
    case MethodOf(receiver, name, args) =>
      Spell(receiver) + [Dot, IdentTok(name), LParen] + SpellAll(args) + [RParen]
    case UnaryOf(uop, operand) => [PrefixKind(uop)] + Spell(operand)
    case BinaryOf(left, op, right) => Spell(left) + [OpKind(op)] + Spell(right)
  }

  function SpellAll(cs: seq<Cst>): (ks: seq<Kind>)
    ensures cs != [] ==> |ks| > 0
    decreases cs, 0
  {
    if cs == [] then []
    else if |cs| == 1 then Spell(cs[0])
    else Spell(cs[0]) + [Comma] + SpellAll(cs[1..])
  }

  /** How many tokens a derivation has, from those of its parts. */
  lemma SpellSize(c: Cst)
    ensures match c {
      case Leaf(_) => |Spell(c)| == 1
      case Group(inner) => |Spell(c)| == |Spell(inner)| + 2
      case ListOf(items) => |Spell(c)| == |SpellAll(items)| + 2
      case CallOf(_, args) => |Spell(c)| == |SpellAll(args)| + 3
      case MemberOf(receiver, _) => |Spell(c)| == |Spell(receiver)| + 2
      case MethodOf(receiver, _, args) => |Spell(c)| == |Spell(receiver)| + |SpellAll(args)| + 4
      case UnaryOf(_, operand) => |Spell(c)| == |Spell(operand)| + 1
      case BinaryOf(left, _, right) => |Spell(c)| == |Spell(left)| + |Spell(right)| + 1
    }
  {
    hide SpellAll;
  }

  function LeafExpr(kind: Kind): S.Expr {
    match kind
    case IdentTok(name) => S.Ident(name)
    case StrTok(text) => S.Str(text)
    case IntTok(number) => S.Int(number)
    case FloatTok(bits) => S.Float(bits)
    case TrueTok => S.Bool(true)
    case FalseTok => S.Bool(false)
    case _ => S.Null
  }

  /** The AST a derivation denotes; parentheses leave no trace. */
  function Abs(c: Cst): S.Expr
    decreases c, 1
  {
    match c
    case Leaf(kind) => LeafExpr(kind)
    case Group(inner) => Abs(inner)
    case ListOf(items) => S.Array(AbsAll(items))
    case CallOf(name, args) => S.Call(name, AbsAll(args))
    case MemberOf(receiver, name) => S.Member(Abs(receiver), name)
    case MethodOf(receiver, name, args) => S.Method(Abs(receiver), name, AbsAll(args))
    case UnaryOf(uop, operand) => S.Unary(uop, Abs(operand))
    case BinaryOf(left, op, right) => S.Binary(Abs(left), op, Abs(right))
  }

  function AbsAll(cs: seq<Cst>): (es: seq<S.Expr>)
    ensures |es| == |cs|
    decreases cs, 0
  {
    if cs == [] then [] else [Abs(cs[0])] + AbsAll(cs[1..])
  }

  /** Nested parses on the deepest path: one per parenthesis, list item, argument and prefix
      operator. */
  function Nest(c: Cst): nat
    decreases c, 1
  {
    match c
    case Leaf(_) => 0
    case Group(inner) => 1 + Nest(inner)
    case ListOf(items) => NestAll(items)
    case CallOf(_, args) => NestAll(args)
    case MemberOf(receiver, _) => Nest(receiver)
    case MethodOf(receiver, _, args) => S.Max(Nest(receiver), NestAll(args))
    case UnaryOf(_, operand) => 1 + Nest(operand)
    case BinaryOf(left, _, right) => S.Max(Nest(left), Nest(right))
  }

  function NestAll(cs: seq<Cst>): nat
    decreases cs, 0
  {
    if cs == [] then 0 else S.Max(1 + Nest(cs[0]), NestAll(cs[1..]))
  }

  /** A derivation the parser can finish with `nodes` nodes already built at `nesting`. */
  predicate Room(c: Cst, limits: ParseLimits, nodes: nat, nesting: nat) {
    && nodes + S.Nodes(Abs(c)) <= limits.maxAstNodes
    && S.SerialDepth(Abs(c)) <= 127
    && nesting + Nest(c) <= 256
    && S.WidthsWithin(Abs(c), limits.maxCollectionItems)
  }

  // ----- where a spelling stands in a token sequence -----

  ghost predicate At(toks: seq<Token>, i: nat, ks: seq<Kind>) {
    i + |ks| <= |toks| && forall j :: 0 <= j < |ks| ==> toks[i + j].kind == ks[j]
  }

  lemma AtIndex(toks: seq<Token>, i: nat, ks: seq<Kind>, j: nat)
    requires At(toks, i, ks) && j < |ks|
    ensures i + j < |toks| && toks[i + j].kind == ks[j]
  {
  }

  lemma AtSplit(toks: seq<Token>, i: nat, a: seq<Kind>, b: seq<Kind>)
    ensures At(toks, i, a + b) <==> At(toks, i, a) && At(toks, i + |a|, b)
  {
    if At(toks, i, a + b) {
      forall j | 0 <= j < |a| ensures toks[i + j].kind == a[j] { assert (a + b)[j] == a[j]; }
      forall j | 0 <= j < |b| ensures toks[i + |a| + j].kind == b[j] {
        assert (a + b)[|a| + j] == b[j];
        assert toks[i + (|a| + j)].kind == (a + b)[|a| + j];
      }
    }
    if At(toks, i, a) && At(toks, i + |a|, b) {
      forall j | 0 <= j < |a + b| ensures toks[i + j].kind == (a + b)[j] {
        if j >= |a| { assert toks[i + |a| + (j - |a|)].kind == b[j - |a|]; }
      }
    }
  }

  lemma AtSplit3(toks: seq<Token>, i: nat, a: seq<Kind>, b: seq<Kind>, c: seq<Kind>)
    ensures At(toks, i, a + b + c) <==>
      At(toks, i, a) && At(toks, i + |a|, b) && At(toks, i + |a| + |b|, c)
  {
    AtSplit(toks, i, a + b, c);
    AtSplit(toks, i, a, b);
  }

  lemma AtSplit4(toks: seq<Token>, i: nat, a: seq<Kind>, b: seq<Kind>, c: seq<Kind>, d: seq<Kind>)
    ensures At(toks, i, a + b + c + d) <==>
      && At(toks, i, a) && At(toks, i + |a|, b) && At(toks, i + |a| + |b|, c)
      && At(toks, i + |a| + |b| + |c|, d)
  {
    AtSplit(toks, i, a + b + c, d);
    AtSplit3(toks, i, a, b, c);
  }
}
