/** Precedence and associativity as a reader states them: which of two operators takes the operand between
    them, and what a prefix operator and a member access apply to. */
module Ladder {
  import opened Tokens
  import opened LexerSpec
  import opened Spanned
  import opened Grammar
  import opened RoundTrip
  import S = Syntax

  /** Loosest first. */
  const RUNGS: seq<set<S.BinaryOp>> :=
    [{S.Or}, {S.And}, {S.Eq, S.Ne}, {S.Lt, S.Le, S.Gt, S.Ge}, {S.Add, S.Sub}, {S.Mul, S.Div, S.Rem}]

  /** `b` stands on a later rung than `a`. */
  ghost predicate Tighter(b: S.BinaryOp, a: S.BinaryOp) {
    exists i, j :: 0 <= i < j < |RUNGS| && a in RUNGS[i] && b in RUNGS[j]
  }

  lemma OnItsRung(op: S.BinaryOp)
    ensures forall i :: 0 <= i < |RUNGS| ==> (op in RUNGS[i] <==> i + 1 == Rung(op))
  {
    forall i | 0 <= i < |RUNGS| ensures op in RUNGS[i] <==> i + 1 == Rung(op) {
      assert RUNGS[i] == [{S.Or}, {S.And}, {S.Eq, S.Ne}, {S.Lt, S.Le, S.Gt, S.Ge}, {S.Add, S.Sub}, {S.Mul, S.Div, S.Rem}][i];
    }
  }

  lemma TighterByRung(b: S.BinaryOp, a: S.BinaryOp)
    ensures Tighter(b, a) <==> Rung(a) < Rung(b)
  {
    OnItsRung(a);
    OnItsRung(b);
    hide Rung;
    if Rung(a) < Rung(b) {
      assert a in RUNGS[Rung(a) - 1] && b in RUNGS[Rung(b) - 1];
    }
  }

  /** A derivation that may stand beside any binary operator: everything but a bare binary one. */
  predicate Operand(c: Cst) { Fits(c) && !c.BinaryOf? }

  /** What `x a y b z` means. */
  ghost function Grouped(x: S.Expr, a: S.BinaryOp, y: S.Expr, b: S.BinaryOp, z: S.Expr): S.Expr {
    if Tighter(b, a) then S.Binary(x, a, S.Binary(y, b, z)) else S.Binary(S.Binary(x, a, y), b, z)
  }

  ghost function GroupedBy(x: Cst, a: S.BinaryOp, y: Cst, b: S.BinaryOp, z: Cst): Cst {
    if Tighter(b, a) then BinaryOf(x, a, BinaryOf(y, b, z)) else BinaryOf(BinaryOf(x, a, y), b, z)
  }

  /** Of two operators in a row the one on the later rung takes the operand between them, and the first
      one does when they share a rung: for all operands and operators, within the limits. */
  lemma TwoOperators(codec: FloatCodec, input: string, limits: ParseLimits, x: Cst, a: S.BinaryOp, y: Cst, b: S.BinaryOp, z: Cst)
    requires Operand(x) && Operand(y) && Operand(z) && Tokenize(codec, input, limits).Lexed?
    requires Kinds(Tokenize(codec, input, limits).tokens)
          == Spell(x) + [OpKind(a)] + Spell(y) + [OpKind(b)] + Spell(z) + [Eof]
    requires Room(GroupedBy(x, a, y, b, z), limits, 0, 0)
    ensures ParseExpression(codec, input, limits).Accepted?
    ensures Strip(ParseExpression(codec, input, limits).ast) == Grouped(Abs(x), a, Abs(y), b, Abs(z))
  {
    hide Tokenize, ParseExpression, Room, Tighter, Rung;
    var c := GroupedBy(x, a, y, b, z);
    TighterByRung(b, a);
    GroupedFits(x, a, y, b, z);
    SpellsEither(x, a, y, b, z);
    assert Kinds(Tokenize(codec, input, limits).tokens) == Spell(c) + [Eof];
    DerivationAccepted(codec, input, limits, c);
  }

  lemma GroupedFits(x: Cst, a: S.BinaryOp, y: Cst, b: S.BinaryOp, z: Cst)
    requires Operand(x) && Operand(y) && Operand(z)
    ensures Fits(GroupedBy(x, a, y, b, z))
    ensures Abs(GroupedBy(x, a, y, b, z)) == Grouped(Abs(x), a, Abs(y), b, Abs(z))
  {
    hide *;
    TighterByRung(b, a);
    GroupedShape(x, a, y, b, z);
    OperandFits(x);
    OperandFits(y);
    OperandFits(z);
    BinaryFits(x, a, y);
    BinaryFits(y, b, z);
    if Tighter(b, a) { BinaryFits(x, a, BinaryOf(y, b, z)); } else { BinaryFits(BinaryOf(x, a, y), b, z); }
    GroupedMeans(Abs(x), a, Abs(y), b, Abs(z));
  }

  lemma OperandFits(x: Cst)
    requires Operand(x)
    ensures Fits(x) && Level(x) >= 7
  {
  }

  lemma BinaryFits(x: Cst, a: S.BinaryOp, y: Cst)
    ensures Fits(x) && Level(x) >= Rung(a) && Fits(y) && Level(y) > Rung(a) ==> Fits(BinaryOf(x, a, y))
    ensures Level(BinaryOf(x, a, y)) == Rung(a) && Rung(a) <= 6
    ensures Abs(BinaryOf(x, a, y)) == S.Binary(Abs(x), a, Abs(y))
  {
  }

  lemma GroupedMeans(x: S.Expr, a: S.BinaryOp, y: S.Expr, b: S.BinaryOp, z: S.Expr)
    ensures Grouped(x, a, y, b, z)
         == if Tighter(b, a) then S.Binary(x, a, S.Binary(y, b, z)) else S.Binary(S.Binary(x, a, y), b, z)
  {
  }

  lemma SpellsEither(x: Cst, a: S.BinaryOp, y: Cst, b: S.BinaryOp, z: Cst)
    ensures Spell(GroupedBy(x, a, y, b, z)) == Spell(x) + [OpKind(a)] + Spell(y) + [OpKind(b)] + Spell(z)
  {
    hide *;
    SpellBinary(x, a, y);
    SpellBinary(y, b, z);
    if Tighter(b, a) {
      SpellBinary(x, a, BinaryOf(y, b, z));
      Regroup(Spell(x) + [OpKind(a)], Spell(y), [OpKind(b)], Spell(z));
    } else {
      SpellBinary(BinaryOf(x, a, y), b, z);
    }
    GroupedShape(x, a, y, b, z);
  }

  lemma GroupedShape(x: Cst, a: S.BinaryOp, y: Cst, b: S.BinaryOp, z: Cst)
    ensures GroupedBy(x, a, y, b, z)
         == if Tighter(b, a) then BinaryOf(x, a, BinaryOf(y, b, z)) else BinaryOf(BinaryOf(x, a, y), b, z)
  {
  }

  lemma SpellBinary(x: Cst, a: S.BinaryOp, y: Cst)
    ensures Spell(BinaryOf(x, a, y)) == Spell(x) + [OpKind(a)] + Spell(y)
  {
  }

  lemma Regroup(a: seq<Kind>, b: seq<Kind>, c: seq<Kind>, d: seq<Kind>)
    ensures a + (b + c + d) == a + b + c + d
  {
  }

  // ----- prefix operators -----

  /** A derivation a member can be taken of. */
  predicate Primary(c: Cst) { Fits(c) && !c.BinaryOf? && !c.UnaryOf? }

  /** A prefix operator applies to the whole member chain after it, and to no more: not to what a binary
      operator adds. */
  lemma PrefixBetween(
    codec: FloatCodec, input: string, limits: ParseLimits, p: S.UnaryOp, x: Cst, name: string, b: S.BinaryOp, z: Cst)
    requires Primary(x) && Operand(z) && !S.IsReserved(name) && Tokenize(codec, input, limits).Lexed?
    requires Kinds(Tokenize(codec, input, limits).tokens)
          == [PrefixKind(p)] + (Spell(x) + [Dot, IdentTok(name)]) + [OpKind(b)] + Spell(z) + [Eof]
    requires Room(BinaryOf(Grammar.UnaryOf(p, MemberOf(x, name)), b, z), limits, 0, 0)
    ensures ParseExpression(codec, input, limits).Accepted?
    ensures Strip(ParseExpression(codec, input, limits).ast)
         == S.Binary(S.Unary(p, S.Member(Abs(x), name)), b, Abs(z))
  {
    hide Tokenize, ParseExpression, Room, Spell, Fits, Abs;
    PrefixShape(p, x, name, b, z);
    DerivationAccepted(codec, input, limits, BinaryOf(Grammar.UnaryOf(p, MemberOf(x, name)), b, z));
  }

  lemma PrefixShape(p: S.UnaryOp, x: Cst, name: string, b: S.BinaryOp, z: Cst)
    requires Primary(x) && Operand(z) && !S.IsReserved(name)
    ensures var c := BinaryOf(Grammar.UnaryOf(p, MemberOf(x, name)), b, z);
      && Fits(c) && Abs(c) == S.Binary(S.Unary(p, S.Member(Abs(x), name)), b, Abs(z))
      && Spell(c) == [PrefixKind(p)] + (Spell(x) + [Dot, IdentTok(name)]) + [OpKind(b)] + Spell(z)
  {
    var m := MemberOf(x, name);
    var u := Grammar.UnaryOf(p, m);
    assert Fits(m) && Abs(m) == S.Member(Abs(x), name);
    assert Fits(u) && Abs(u) == S.Unary(p, Abs(m)) && Spell(u) == [PrefixKind(p)] + Spell(m);
  }
}
