/** Where a derivation stands in a token sequence: the spanned AST the parser builds for it. Parentheses
    are not part of the span of what they enclose. */
module Location {
  import opened Tokens
  import opened Spanned
  import opened ParseSpec
  import opened Grammar

  /** The AST of the derivation `c` whose tokens start at `i`. */
  function Located(c: Cst, toks: seq<Token>, i: nat): Ast
    requires i + |Spell(c)| <= |toks|
    decreases c, 1
  {
    match c
    case Leaf(_) => LeafAt(toks[i])
    case Group(inner) => Located(inner, toks, i + 1)
    case ListOf(items) => Array(LocatedAll(items, toks, i + 1), Join(toks[i].span, toks[i + |Spell(c)| - 1].span))
    case CallOf(name, args) =>
      Call(name, LocatedAll(args, toks, i + 2), Join(toks[i].span, toks[i + |Spell(c)| - 1].span))
    case MemberOf(receiver, name) =>
      var r := Located(receiver, toks, i);
      Member(r, name, Join(r.span, toks[i + |Spell(c)| - 1].span))
    case MethodOf(receiver, name, args) =>
      var r := Located(receiver, toks, i);
      Method(r, name, LocatedAll(args, toks, i + |Spell(receiver)| + 3), Join(r.span, toks[i + |Spell(c)| - 1].span))
    case UnaryOf(uop, operand) =>
      var o := Located(operand, toks, i + 1);
      Unary(uop, o, Join(toks[i].span, o.span))
    case BinaryOf(left, op, right) =>
      var l, r := Located(left, toks, i), Located(right, toks, i + |Spell(left)| + 1);
      Binary(l, op, r, Join(l.span, r.span))
  }

  /** Items one comma apart. */
  function LocatedAll(cs: seq<Cst>, toks: seq<Token>, i: nat): (asts: seq<Ast>)
    requires cs == [] || i + |SpellAll(cs)| <= |toks|
    ensures |asts| == |cs|
    decreases cs, 0
  {
    if cs == [] then []
    else [Located(cs[0], toks, i)] + LocatedAll(cs[1..], toks, i + |Spell(cs[0])| + 1)
  }

  function LeafAt(token: Token): Ast {
    match LeafOf(token) case Some(leaf) => leaf case None => Null(token.span)
  }

  /** Only the tokens of the derivation matter. */
  lemma {:induction false} SameTokens(c: Cst, a: seq<Token>, b: seq<Token>, i: nat, n: nat)
    requires i + |Spell(c)| <= n <= |a| && n <= |b| && a[..n] == b[..n]
    ensures Located(c, a, i) == Located(c, b, i)
    decreases c, 1
  {
    hide Spell, SpellAll, LocatedAll, LeafAt;
    SpellSize(c);
    assert forall k :: 0 <= k < n ==> a[k] == a[..n][k] == b[k];
    match c
    case Leaf(_) =>
    case Group(inner) => SameTokens(inner, a, b, i + 1, n);
    case ListOf(items) => SameTokensAll(items, a, b, i + 1, n);
    case CallOf(_, args) => SameTokensAll(args, a, b, i + 2, n);
    case MemberOf(receiver, _) => SameTokens(receiver, a, b, i, n);
    case MethodOf(receiver, _, args) =>
      SameTokens(receiver, a, b, i, n);
      SameTokensAll(args, a, b, i + |Spell(receiver)| + 3, n);
    case UnaryOf(_, operand) => SameTokens(operand, a, b, i + 1, n);
    case BinaryOf(left, _, right) =>
      SameTokens(left, a, b, i, n);
      SameTokens(right, a, b, i + |Spell(left)| + 1, n);
  }

  lemma {:induction false} SameTokensAll(cs: seq<Cst>, a: seq<Token>, b: seq<Token>, i: nat, n: nat)
    requires (cs == [] || i + |SpellAll(cs)| <= n) && n <= |a| && n <= |b| && a[..n] == b[..n]
    ensures LocatedAll(cs, a, i) == LocatedAll(cs, b, i)
    decreases cs, 0
  {
    hide *;
    if cs == [] {
      NoneLocated(a, i);
      NoneLocated(b, i);
    } else {
      ConsLocated(cs, a, i);
      ConsLocated(cs, b, i);
      SameTokens(cs[0], a, b, i, n);
      SameTokensAll(cs[1..], a, b, i + |Spell(cs[0])| + 1, n);
    }
  }

  lemma NoneLocated(toks: seq<Token>, i: nat)
    ensures LocatedAll([], toks, i) == []
  {
  }

  lemma ConsSpelled(cs: seq<Cst>)
    requires cs != []
    ensures |cs| == 1 ==> |SpellAll(cs)| == |Spell(cs[0])|
    ensures |cs| > 1 ==> |SpellAll(cs)| == |Spell(cs[0])| + 1 + |SpellAll(cs[1..])|
  {
    hide Spell;
  }

  lemma ConsLocated(cs: seq<Cst>, toks: seq<Token>, i: nat)
    requires cs != [] && i + |SpellAll(cs)| <= |toks|
    ensures |cs| == 1 ==> |SpellAll(cs)| == |Spell(cs[0])|
    ensures |cs| > 1 ==> |SpellAll(cs)| == |Spell(cs[0])| + 1 + |SpellAll(cs[1..])|
    ensures LocatedAll(cs, toks, i) == [Located(cs[0], toks, i)] + LocatedAll(cs[1..], toks, i + |Spell(cs[0])| + 1)
  {
    hide Spell, SpellAll, Located;
    ConsSpelled(cs);
  }

  // ----- the AST of each construct, from those of its parts -----

  /** `q` is what stands for `c` at `i`. */
  ghost predicate Placed(q: Ast, c: Cst, toks: seq<Token>, i: nat) {
    i + |Spell(c)| <= |toks| && q == Located(c, toks, i)
  }

  ghost predicate PlacedAll(list: seq<Ast>, cs: seq<Cst>, toks: seq<Token>, i: nat) {
    (cs == [] || i + |SpellAll(cs)| <= |toks|) && list == LocatedAll(cs, toks, i)
  }

  lemma BinaryPlaced(c: Cst, l: Ast, r: Ast, toks: seq<Token>, i: nat)
    requires c.BinaryOf? && Placed(l, c.left, toks, i) && Placed(r, c.right, toks, i + |Spell(c.left)| + 1)
    ensures Placed(Binary(l, c.op, r, Join(l.span, r.span)), c, toks, i)
  {
    hide Spell;
    SpellSize(c);
  }

  lemma UnaryPlaced(c: Cst, o: Ast, toks: seq<Token>, i: nat)
    requires c.UnaryOf? && Placed(o, c.operand, toks, i + 1)
    ensures Placed(Unary(c.uop, o, Join(toks[i].span, o.span)), c, toks, i)
  {
  }

  lemma MemberPlaced(c: Cst, r: Ast, toks: seq<Token>, i: nat)
    requires c.MemberOf? && Placed(r, c.receiver, toks, i) && i + |Spell(c.receiver)| + 1 < |toks|
    ensures Placed(Member(r, c.name, Join(r.span, toks[i + |Spell(c.receiver)| + 1].span)), c, toks, i)
  {
  }

  lemma MethodPlaced(c: Cst, r: Ast, list: seq<Ast>, toks: seq<Token>, i: nat)
    requires c.MethodOf? && Placed(r, c.receiver, toks, i)
    requires PlacedAll(list, c.args, toks, i + |Spell(c.receiver)| + 3)
    requires i + |Spell(c.receiver)| + 3 + |SpellAll(c.args)| < |toks|
    ensures var end := toks[i + |Spell(c.receiver)| + 3 + |SpellAll(c.args)|].span;
      Placed(Method(r, c.name, list, Join(r.span, end)), c, toks, i)
  {
  }

  lemma CallPlaced(c: Cst, list: seq<Ast>, toks: seq<Token>, i: nat)
    requires c.CallOf? && PlacedAll(list, c.args, toks, i + 2) && i + 2 + |SpellAll(c.args)| < |toks|
    ensures Placed(Call(c.name, list, Join(toks[i].span, toks[i + 2 + |SpellAll(c.args)|].span)), c, toks, i)
  {
  }

  lemma ListPlaced(c: Cst, list: seq<Ast>, toks: seq<Token>, i: nat)
    requires c.ListOf? && PlacedAll(list, c.items, toks, i + 1) && i + 1 + |SpellAll(c.items)| < |toks|
    ensures Placed(Array(list, Join(toks[i].span, toks[i + 1 + |SpellAll(c.items)|].span)), c, toks, i)
  {
  }

  lemma GroupPlaced(c: Cst, q: Ast, toks: seq<Token>, i: nat)
    requires c.Group? && Placed(q, c.inner, toks, i + 1) && i + 1 + |Spell(c.inner)| < |toks|
    ensures Placed(q, c, toks, i)
  {
  }

  lemma LeafPlaced(c: Cst, toks: seq<Token>, i: nat)
    requires c.Leaf? && i < |toks| && LeafOf(toks[i]).Some?
    ensures Placed(LeafOf(toks[i]).value, c, toks, i)
  {
  }

  lemma NonePlaced(toks: seq<Token>, i: nat)
    ensures PlacedAll([], [], toks, i)
  {
  }

  lemma FirstLocated(cs: seq<Cst>, first: Ast, toks: seq<Token>, i: nat)
    requires cs != [] && i + |SpellAll(cs)| <= |toks| && Placed(first, cs[0], toks, i)
    ensures cs[1..] != [] ==> i + |Spell(cs[0])| + 1 + |SpellAll(cs[1..])| <= |toks|
    ensures LocatedAll(cs, toks, i) == [first] + LocatedAll(cs[1..], toks, i + |Spell(cs[0])| + 1)
    ensures cs[1..] == [] ==> LocatedAll(cs, toks, i) == [first]
  {
    hide Spell, Located;
  }

  lemma AllPlaced(cs: seq<Cst>, list: seq<Ast>, toks: seq<Token>, i: nat)
    requires i + |SpellAll(cs)| <= |toks| && list == [] + LocatedAll(cs, toks, i)
    ensures PlacedAll(list, cs, toks, i)
  {
  }
}
