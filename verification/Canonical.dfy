/** Canonical formatting as a recursive definition: which derivation the formatter chooses for an
    AST, why it is the shortest one, and why parsing it again needs no more of any budget. */
module Canonical {
  import opened Text
  import opened Tokens
  import opened Grammar
  import S = Syntax

  /** Where a child stands under its parent. */
  datatype Side = Root | LeftOf | RightOf | UnderPrefix | AsReceiver

  function Precedence(e: S.Expr): (p: nat)
    ensures 1 <= p <= 9
  {
    match e
    case Binary(_, op, _) => S.BinaryPrecedence(op)
    case Unary(_, _) => 7
    case Member(_, _) | Call(_, _) | Method(_, _, _) => 8
    case _ => 9
  }

  predicate NeedsParentheses(own: nat, parent: nat, side: Side) {
    side != Root && (own < parent || (side == RightOf && own == parent))
  }

  /** The derivation the formatter writes for `e`, without parentheses of its own. */
  function Canon(e: S.Expr): Cst
    decreases e, 2
  {
    match e
    case Null => Leaf(NullTok)
    case Bool(flag) => Leaf(if flag then TrueTok else FalseTok)
    case Int(number) => Leaf(IntTok(number))
    case Float(bits) => Leaf(FloatTok(bits))
    case Str(text) => Leaf(StrTok(text))
    case Array(items) => ListOf(CanonAll(items))
    case Ident(name) => Leaf(IdentTok(name))
    case Member(receiver, name) => MemberOf(CanonAt(receiver, 8, AsReceiver), name)
    case Call(name, args) => CallOf(name, CanonAll(args))
    case Method(receiver, name, args) => MethodOf(CanonAt(receiver, 8, AsReceiver), name, CanonAll(args))
    case Unary(uop, operand) => Grammar.UnaryOf(uop, CanonAt(operand, 7, UnderPrefix))
    case Binary(left, op, right) =>
      var own := S.BinaryPrecedence(op);
      BinaryOf(CanonAt(left, own, LeftOf), op, CanonAt(right, own, RightOf))
  }

  function CanonAt(e: S.Expr, parent: nat, side: Side): Cst
    decreases e, 3
  {
    if NeedsParentheses(Precedence(e), parent, side) then Group(Canon(e)) else Canon(e)
  }

  function CanonAll(es: seq<S.Expr>): (cs: seq<Cst>)
    ensures |cs| == |es|
    decreases es, 1
  {
    if es == [] then [] else [Canon(es[0])] + CanonAll(es[1..])
  }

  /** Every name is one the grammar can spell and does not reserve. */
  predicate NamesValid(e: S.Expr)
    decreases e, 1
  {
    match e
    case Array(items) => NamesValidAll(items)
    case Ident(name) => S.IsValidName(name)
    case Member(receiver, name) => S.IsValidName(name) && NamesValid(receiver)
    case Call(name, args) => S.IsValidName(name) && NamesValidAll(args)
    case Method(receiver, name, args) =>
      S.IsValidName(name) && NamesValid(receiver) && NamesValidAll(args)
    case Unary(_, operand) => NamesValid(operand)
    case Binary(left, _, right) => NamesValid(left) && NamesValid(right)
    case _ => true
  }

  predicate NamesValidAll(es: seq<S.Expr>)
    decreases es, 0
  {
    es == [] || (NamesValid(es[0]) && NamesValidAll(es[1..]))
  }

  // ----- the chosen derivation is one, and denotes the AST -----

  /** A derivation that may stand at `side` under `parent` without more parentheses. */
  predicate FitsAt(c: Cst, parent: nat, side: Side) {
    && Fits(c)
    && (side != Root ==> Level(c) >= parent)
    && (side == RightOf ==> Level(c) > parent)
  }

  lemma {:induction false} CanonFits(e: S.Expr)
    requires NamesValid(e)
    ensures Fits(Canon(e)) && Abs(Canon(e)) == e && Level(Canon(e)) >= Precedence(e)
    decreases e, 2
  {
    match e
    case Array(items) => CanonAllFits(items);
    case Member(receiver, name) => CanonAtFits(receiver, 8, AsReceiver);
    case Call(name, args) => CanonAllFits(args);
    case Method(receiver, name, args) =>
      CanonAtFits(receiver, 8, AsReceiver);
      CanonAllFits(args);
    case Unary(uop, operand) => CanonAtFits(operand, 7, UnderPrefix);
    case Binary(left, op, right) =>
      CanonAtFits(left, S.BinaryPrecedence(op), LeftOf);
      CanonAtFits(right, S.BinaryPrecedence(op), RightOf);
    case _ =>
  }

  lemma {:induction false} CanonAtFits(e: S.Expr, parent: nat, side: Side)
    requires NamesValid(e) && parent <= 8
    ensures FitsAt(CanonAt(e, parent, side), parent, side) && Abs(CanonAt(e, parent, side)) == e
    decreases e, 3
  {
    CanonFits(e);
  }

  lemma {:induction false} CanonAllFits(es: seq<S.Expr>)
    requires NamesValidAll(es)
    ensures FitsAll(CanonAll(es)) && AbsAll(CanonAll(es)) == es
    decreases es, 1
  {
    if es != [] {
      CanonFits(es[0]);
      CanonAllFits(es[1..]);
      var cs := CanonAll(es);
      assert cs[0] == Canon(es[0]) && cs[1..] == CanonAll(es[1..]);
    }
  }

  // ----- it is the shortest derivation of its AST -----

  /** A derivation of `e` that is not a parenthesis binds as loosely as `e` does. */
  lemma TightOnlyByGroup(c: Cst, parent: nat, side: Side)
    requires FitsAt(c, parent, side) && parent <= 8 && (side == RightOf ==> parent <= 6)
    requires NeedsParentheses(Precedence(Abs(c)), parent, side)
    ensures c.Group?
  {
  }

  lemma {:induction false} CanonShortest(c: Cst)
    requires Fits(c)
    ensures |Spell(Canon(Abs(c)))| <= |Spell(c)|
    decreases c, 2
  {
    hide Spell, SpellAll, CanonAt, CanonAll, AbsAll, FitsAll;
    SpellSize(c);
    SpellSize(Canon(Abs(c)));
    match c
    case Leaf(_) =>
    case Group(inner) => CanonShortest(inner);
    case ListOf(items) => CanonAllShortest(items);
    case CallOf(_, args) => CanonAllShortest(args);
    case MemberOf(receiver, _) => CanonAtShortest(receiver, 8, AsReceiver);
    case MethodOf(receiver, name, args) =>
      CanonAtShortest(receiver, 8, AsReceiver);
      CanonAllShortest(args);
    case UnaryOf(_, operand) => CanonAtShortest(operand, 7, UnderPrefix);
    case BinaryOf(left, op, right) =>
      CanonAtShortest(left, S.BinaryPrecedence(op), LeftOf);
      CanonAtShortest(right, S.BinaryPrecedence(op), RightOf);
  }

  lemma {:induction false} CanonAtShortest(c: Cst, parent: nat, side: Side)
    requires FitsAt(c, parent, side) && parent <= 8 && (side == RightOf ==> parent <= 6)
    ensures |Spell(CanonAt(Abs(c), parent, side))| <= |Spell(c)|
    decreases c, 3
  {
    if NeedsParentheses(Precedence(Abs(c)), parent, side) {
      TightOnlyByGroup(c, parent, side);
      CanonShortest(c.inner);
    } else {
      CanonShortest(c);
    }
  }

  lemma {:induction false} CanonAllShortest(cs: seq<Cst>)
    requires FitsAll(cs)
    ensures |SpellAll(CanonAll(AbsAll(cs)))| <= |SpellAll(cs)|
    decreases cs, 1
  {
    if cs != [] {
      var es := AbsAll(cs);
      assert es[0] == Abs(cs[0]) && es[1..] == AbsAll(cs[1..]);
      var ds := CanonAll(es);
      assert ds[0] == Canon(es[0]) && ds[1..] == CanonAll(es[1..]);
      CanonShortest(cs[0]);
      CanonAllShortest(cs[1..]);
    }
  }

  // ----- its nesting is bounded by the depth of the AST -----

  lemma {:induction false} CanonNest(e: S.Expr)
    ensures Nest(Canon(e)) + 2 <= S.SerialDepth(e)
    decreases e, 2
  {
    match e
    case Array(items) => CanonAllNest(items);
    case Member(receiver, _) => CanonAtNest(receiver, 8, AsReceiver);
    case Call(_, args) => CanonAllNest(args);
    case Method(receiver, _, args) =>
      CanonAtNest(receiver, 8, AsReceiver);
      CanonAllNest(args);
    case Unary(_, operand) => CanonAtNest(operand, 7, UnderPrefix);
    case Binary(left, op, right) =>
      CanonAtNest(left, S.BinaryPrecedence(op), LeftOf);
      CanonAtNest(right, S.BinaryPrecedence(op), RightOf);
    case _ =>
  }

  lemma {:induction false} CanonAtNest(e: S.Expr, parent: nat, side: Side)
    ensures Nest(CanonAt(e, parent, side)) + 1 <= S.SerialDepth(e)
    decreases e, 3
  {
    CanonNest(e);
  }

  lemma {:induction false} CanonAllNest(es: seq<S.Expr>)
    ensures NestAll(CanonAll(es)) <= S.SerialDepthAll(es)
    decreases es, 1
  {
    if es != [] {
      var cs := CanonAll(es);
      assert cs[0] == Canon(es[0]) && cs[1..] == CanonAll(es[1..]);
      CanonNest(es[0]);
      CanonAllNest(es[1..]);
    }
  }

  // ----- every spelling of an AST carries the same scalars -----

  /** Bytes the lexer charges for an AST however it is spelled: strings, names and the keyword
      literals. */
  function LexedScalars(e: S.Expr): nat
    decreases e, 1
  {
    match e
    case Null => 4
    case Bool(flag) => if flag then 4 else 5
    case Str(text) => Bytes(text)
    case Ident(name) => Bytes(name)
    case Array(items) => LexedScalarsAll(items)
    case Member(receiver, name) => LexedScalars(receiver) + Bytes(name)
    case Call(name, args) => Bytes(name) + LexedScalarsAll(args)
    case Method(receiver, name, args) => LexedScalars(receiver) + Bytes(name) + LexedScalarsAll(args)
    case Unary(_, operand) => LexedScalars(operand)
    case Binary(left, _, right) => LexedScalars(left) + LexedScalars(right)
    case _ => 0
  }

  function LexedScalarsAll(es: seq<S.Expr>): nat
    decreases es, 0
  {
    if es == [] then 0 else LexedScalars(es[0]) + LexedScalarsAll(es[1..])
  }

  lemma SumNone()
    ensures ScalarSum([]) == 0
  {
  }

  lemma SumOne(k: Kind)
    ensures ScalarSum([k]) == KindScalars(k)
  {
    assert [k][..0] == [];
  }

  lemma SumThree(a: seq<Kind>, b: seq<Kind>, c: seq<Kind>)
    ensures ScalarSum(a + b + c) == ScalarSum(a) + ScalarSum(b) + ScalarSum(c)
  {
    ScalarSumConcat(a + b, c);
    ScalarSumConcat(a, b);
  }

  lemma SumWrapped(open: Kind, mid: seq<Kind>, close: Kind)
    ensures ScalarSum([open] + mid + [close]) == KindScalars(open) + ScalarSum(mid) + KindScalars(close)
  {
    SumThree([open], mid, [close]);
    SumOne(open);
    SumOne(close);
  }

  lemma SumMember(receiver: seq<Kind>, name: string)
    ensures ScalarSum(receiver + [Dot, IdentTok(name)]) == ScalarSum(receiver) + Bytes(name)
  {
    assert receiver + [Dot, IdentTok(name)] == receiver + [Dot] + [IdentTok(name)];
    SumThree(receiver, [Dot], [IdentTok(name)]);
    SumOne(Dot);
    SumOne(IdentTok(name));
  }

  lemma SumCall(name: string, args: seq<Kind>)
    ensures ScalarSum([IdentTok(name), LParen] + args + [RParen]) == Bytes(name) + ScalarSum(args)
  {
    assert [IdentTok(name), LParen] + args + [RParen] == [IdentTok(name)] + ([LParen] + args + [RParen]);
    ScalarSumConcat([IdentTok(name)], [LParen] + args + [RParen]);
    SumWrapped(LParen, args, RParen);
    SumOne(IdentTok(name));
  }

  lemma SumMethod(receiver: seq<Kind>, name: string, args: seq<Kind>)
    ensures ScalarSum(receiver + [Dot, IdentTok(name), LParen] + args + [RParen])
         == ScalarSum(receiver) + Bytes(name) + ScalarSum(args)
  {
    assert receiver + [Dot, IdentTok(name), LParen] + args + [RParen]
        == receiver + [Dot] + ([IdentTok(name), LParen] + args + [RParen]);
    SumThree(receiver, [Dot], [IdentTok(name), LParen] + args + [RParen]);
    SumCall(name, args);
    SumOne(Dot);
  }

  lemma {:induction false} SpellScalars(c: Cst)
    requires Fits(c)
    ensures ScalarSum(Spell(c)) == LexedScalars(Abs(c))
    decreases c, 1
  {
    hide ScalarSum;
    match c
    case Leaf(kind) => SumOne(kind);
    case Group(inner) =>
      SpellScalars(inner);
      SumWrapped(LParen, Spell(inner), RParen);
    case ListOf(items) =>
      SpellAllScalars(items);
      SumWrapped(LBracket, SpellAll(items), RBracket);
    case CallOf(name, args) =>
      SpellAllScalars(args);
      SumCall(name, SpellAll(args));
    case _ => SpellOperatorScalars(c);
  }

  lemma {:induction false} SpellOperatorScalars(c: Cst)
    requires Fits(c) && !c.Leaf? && !c.Group? && !c.ListOf? && !c.CallOf?
    ensures ScalarSum(Spell(c)) == LexedScalars(Abs(c))
    decreases c, 0
  {
    hide ScalarSum;
    match c
    case MemberOf(receiver, name) =>
      SpellScalars(receiver);
      SumMember(Spell(receiver), name);
    case MethodOf(receiver, name, args) =>
      SpellScalars(receiver);
      SpellAllScalars(args);
      SumMethod(Spell(receiver), name, SpellAll(args));
    case UnaryOf(uop, operand) =>
      SpellScalars(operand);
      ScalarSumConcat([PrefixKind(uop)], Spell(operand));
      SumOne(PrefixKind(uop));
    case BinaryOf(left, op, right) =>
      SpellScalars(left);
      SpellScalars(right);
      SumThree(Spell(left), [OpKind(op)], Spell(right));
      SumOne(OpKind(op));
  }

  lemma {:induction false} SpellAllScalars(cs: seq<Cst>)
    requires FitsAll(cs)
    ensures ScalarSum(SpellAll(cs)) == LexedScalarsAll(AbsAll(cs))
    decreases cs, 0
  {
    hide ScalarSum;
    if cs == [] {
      SumNone();
    } else {
      var es := AbsAll(cs);
      assert es[0] == Abs(cs[0]) && es[1..] == AbsAll(cs[1..]);
      SpellScalars(cs[0]);
      SpellAllScalars(cs[1..]);
      SumThree(Spell(cs[0]), [Comma], SpellAll(cs[1..]));
      SumOne(Comma);
    }
  }

  // ----- reparsing needs no more of any budget -----

  /** If some derivation of an AST fits the parser's budgets, the canonical one does, with no more
      tokens and the same scalars. */
  lemma CanonNeedsNoMore(c: Cst, limits: ParseLimits)
    requires Fits(c) && NamesValid(Abs(c)) && Room(c, limits, 0, 0)
    ensures var k := Canon(Abs(c));
      && Fits(k) && Abs(k) == Abs(c) && Room(k, limits, 0, 0)
      && |Spell(k)| <= |Spell(c)| && ScalarSum(Spell(k)) == ScalarSum(Spell(c))
  {
    CanonFits(Abs(c));
    CanonShortest(c);
    CanonNest(Abs(c));
    SpellScalars(c);
    SpellScalars(Canon(Abs(c)));
  }
}
