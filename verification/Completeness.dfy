/** The parser accepts every derivation that fits its budgets, and returns what it denotes. */
module Completeness {
  import opened Tokens
  import opened Spanned
  import opened ParseSpec
  import opened Grammar
  import opened Location
  import S = Syntax

  /** `next` cannot extend an operand that binds at least as tightly as `level`. */
  predicate Stops(next: Kind, level: nat) {
    && next != Dot && next != LParen
    && (OpOf(next).Some? ==> Rung(OpOf(next).value) < level)
  }

  /** What a finished derivation leaves: its AST and its exact depth. */
  ghost predicate Denotes(q: Parsed, c: Cst) {
    Strip(q.ast) == Abs(c) && q.depth == S.SerialDepth(Abs(c))
  }

  // ----- the derivation, constructor by constructor -----

  lemma BinaryParts(c: Cst, limits: ParseLimits, nodes: nat, nesting: nat)
    requires c.BinaryOf? && Fits(c) && Room(c, limits, nodes, nesting)
    ensures Fits(c.left) && Fits(c.right)
    ensures 1 <= Level(c) < UNARY_LEVEL && Level(c.left) >= Level(c) && Level(c.right) >= Level(c) + 1
    ensures Room(c.left, limits, nodes, nesting)
    ensures Room(c.right, limits, nodes + S.Nodes(Abs(c.left)), nesting)
    ensures S.Nodes(Abs(c)) == S.Nodes(Abs(c.left)) + S.Nodes(Abs(c.right)) + 1
    ensures nodes + S.Nodes(Abs(c)) <= limits.maxAstNodes
    ensures OpAt(Level(c), OpKind(c.op)) == Some(c.op)
  {
    var e := Abs(c);
    assert e == S.Binary(Abs(c.left), c.op, Abs(c.right));
  }

  lemma BinaryAt(c: Cst, toks: seq<Token>, i: nat)
    requires c.BinaryOf? && At(toks, i, Spell(c))
    ensures |Spell(c)| == |Spell(c.left)| + 1 + |Spell(c.right)|
    ensures At(toks, i, Spell(c.left)) && At(toks, i + |Spell(c.left)| + 1, Spell(c.right))
    ensures i + |Spell(c)| <= |toks| && toks[i + |Spell(c.left)|].kind == OpKind(c.op)
  {
    AtSplit3(toks, i, Spell(c.left), [OpKind(c.op)], Spell(c.right));
    AtIndex(toks, i + |Spell(c.left)|, [OpKind(c.op)], 0);
  }

  lemma OperatorStops(kind: Kind, op: S.BinaryOp, level: nat)
    requires kind == OpKind(op) && OpAt(level, kind) == Some(op)
    ensures Stops(kind, level + 1)
  {
  }

  lemma BinaryBuilds(c: Cst, l: Parsed, r: Parsed, q: Parsed, j: nat, n: nat, limits: ParseLimits, nodes: nat, nesting: nat)
    requires c.BinaryOf? && Denotes(l, c.left) && Denotes(r, c.right)
    requires Room(c, limits, nodes, nesting) && n + 1 <= limits.maxAstNodes
    requires q == Parsed(Binary(l.ast, c.op, r.ast, Join(l.ast.span, r.ast.span)), 2 + S.Max(l.depth, r.depth))
    ensures Denotes(q, c) && MakeBinary(l, c.op, r, j, n, limits) == Ok(q, j, n + 1)
  {
    assert Abs(c) == S.Binary(Abs(c.left), c.op, Abs(c.right));
  }

  lemma UnaryParts(c: Cst, limits: ParseLimits, nodes: nat, nesting: nat)
    requires c.UnaryOf? && Fits(c) && Room(c, limits, nodes, nesting)
    ensures Fits(c.operand) && Level(c.operand) >= UNARY_LEVEL
    ensures nesting < MAX_PARSE_RECURSION_DEPTH && Room(c.operand, limits, nodes, nesting + 1)
    ensures S.Nodes(Abs(c)) == S.Nodes(Abs(c.operand)) + 1 && nodes + S.Nodes(Abs(c)) <= limits.maxAstNodes
  {
    assert Abs(c) == S.Unary(c.uop, Abs(c.operand));
  }

  lemma UnaryAt(c: Cst, toks: seq<Token>, i: nat)
    requires c.UnaryOf? && At(toks, i, Spell(c))
    ensures |Spell(c)| == 1 + |Spell(c.operand)| && i < |toks|
    ensures toks[i].kind == PrefixKind(c.uop) && At(toks, i + 1, Spell(c.operand))
  {
    AtSplit(toks, i, [PrefixKind(c.uop)], Spell(c.operand));
    AtIndex(toks, i, [PrefixKind(c.uop)], 0);
  }

  lemma MemberParts(c: Cst, limits: ParseLimits, nodes: nat, nesting: nat)
    requires c.MemberOf? && Fits(c) && Room(c, limits, nodes, nesting)
    ensures Fits(c.receiver) && Level(c.receiver) >= 8 && !S.IsReserved(c.name)
    ensures Room(c.receiver, limits, nodes, nesting)
    ensures S.Nodes(Abs(c)) == S.Nodes(Abs(c.receiver)) + 1 && nodes + S.Nodes(Abs(c)) <= limits.maxAstNodes
  {
    assert Abs(c) == S.Member(Abs(c.receiver), c.name);
  }

  lemma MemberAt(c: Cst, toks: seq<Token>, i: nat)
    requires c.MemberOf? && At(toks, i, Spell(c))
    ensures |Spell(c)| == |Spell(c.receiver)| + 2 && At(toks, i, Spell(c.receiver))
    ensures i + |Spell(c)| <= |toks|
    ensures toks[i + |Spell(c.receiver)|].kind == Dot
    ensures toks[i + |Spell(c.receiver)| + 1].kind == IdentTok(c.name)
  {
    var tail := [Dot, IdentTok(c.name)];
    AtSplit(toks, i, Spell(c.receiver), tail);
    AtIndex(toks, i + |Spell(c.receiver)|, tail, 0);
    AtIndex(toks, i + |Spell(c.receiver)|, tail, 1);
  }

  lemma MethodParts(c: Cst, limits: ParseLimits, nodes: nat, nesting: nat)
    requires c.MethodOf? && Fits(c) && Room(c, limits, nodes, nesting)
    ensures Fits(c.receiver) && Level(c.receiver) >= 8 && !S.IsReserved(c.name) && FitsAll(c.args)
    ensures Room(c.receiver, limits, nodes, nesting)
    ensures RoomAll(c.args, 0, limits, nodes + S.Nodes(Abs(c.receiver)), nesting)
    ensures S.Nodes(Abs(c)) == S.Nodes(Abs(c.receiver)) + S.NodesAll(AbsAll(c.args)) + 1
    ensures nodes + S.Nodes(Abs(c)) <= limits.maxAstNodes
  {
    assert Abs(c) == S.Method(Abs(c.receiver), c.name, AbsAll(c.args));
  }

  lemma MethodAt(c: Cst, toks: seq<Token>, i: nat)
    requires c.MethodOf? && At(toks, i, Spell(c))
    ensures |Spell(c)| == |Spell(c.receiver)| + 3 + |SpellAll(c.args)| + 1 && i + |Spell(c)| <= |toks|
    ensures At(toks, i, Spell(c.receiver))
    ensures var k := i + |Spell(c.receiver)|;
      && toks[k].kind == Dot && toks[k + 1].kind == IdentTok(c.name) && toks[k + 2].kind == LParen
      && At(toks, k + 3, SpellAll(c.args)) && toks[k + 3 + |SpellAll(c.args)|].kind == RParen
  {
    var mid := [Dot, IdentTok(c.name), LParen];
    AtSplit4(toks, i, Spell(c.receiver), mid, SpellAll(c.args), [RParen]);
    var k := i + |Spell(c.receiver)|;
    AtIndex(toks, k, mid, 0);
    AtIndex(toks, k, mid, 1);
    AtIndex(toks, k, mid, 2);
    AtIndex(toks, k + 3 + |SpellAll(c.args)|, [RParen], 0);
  }

  lemma MethodBuilds(
    c: Cst, r: Parsed, list: seq<Ast>, end: Span, q: Parsed, j: nat, n: nat,
    limits: ParseLimits, nodes: nat, nesting: nat)
    requires c.MethodOf? && Denotes(r, c.receiver) && StripAll(list) == AbsAll(c.args)
    requires Room(c, limits, nodes, nesting) && n + 1 <= limits.maxAstNodes
    requires q == Parsed(Method(r.ast, c.name, list, Join(r.ast.span, end)),
                         S.Max(2 + r.depth, 3 + S.SerialDepthAll(AbsAll(c.args))))
    ensures Denotes(q, c)
    ensures MakeMethod(r, c.name, Items(list, S.SerialDepthAll(AbsAll(c.args)), end), j, n, limits)
         == Ok(q, j, n + 1)
  {
    assert Abs(c) == S.Method(Abs(c.receiver), c.name, AbsAll(c.args));
  }

  lemma CallParts(c: Cst, limits: ParseLimits, nodes: nat, nesting: nat)
    requires (c.CallOf? || c.ListOf?) && Fits(c) && Room(c, limits, nodes, nesting)
    ensures var cs := if c.CallOf? then c.args else c.items;
      && (c.CallOf? ==> !S.IsReserved(c.name))
      && FitsAll(cs) && RoomAll(cs, 0, limits, nodes, nesting)
      && S.Nodes(Abs(c)) == S.NodesAll(AbsAll(cs)) + 1 && nodes + S.Nodes(Abs(c)) <= limits.maxAstNodes
      && S.SerialDepth(Abs(c)) == 3 + S.SerialDepthAll(AbsAll(cs)) <= MAX_AST_SERIALIZED_DEPTH
  {
    if c.CallOf? {
      assert Abs(c) == S.Call(c.name, AbsAll(c.args));
    } else {
      assert Abs(c) == S.Array(AbsAll(c.items));
    }
  }

  lemma CallAt(c: Cst, toks: seq<Token>, i: nat)
    requires c.CallOf? && At(toks, i, Spell(c))
    ensures |Spell(c)| == 2 + |SpellAll(c.args)| + 1 && i + |Spell(c)| <= |toks|
    ensures toks[i].kind == IdentTok(c.name) && toks[i + 1].kind == LParen
    ensures At(toks, i + 2, SpellAll(c.args)) && toks[i + 2 + |SpellAll(c.args)|].kind == RParen
  {
    var head := [IdentTok(c.name), LParen];
    AtSplit3(toks, i, head, SpellAll(c.args), [RParen]);
    AtIndex(toks, i, head, 0);
    AtIndex(toks, i, head, 1);
    AtIndex(toks, i + 2 + |SpellAll(c.args)|, [RParen], 0);
  }

  lemma ListAt(c: Cst, toks: seq<Token>, i: nat)
    requires c.ListOf? && At(toks, i, Spell(c))
    ensures |Spell(c)| == 1 + |SpellAll(c.items)| + 1 && i + |Spell(c)| <= |toks|
    ensures toks[i].kind == LBracket
    ensures At(toks, i + 1, SpellAll(c.items)) && toks[i + 1 + |SpellAll(c.items)|].kind == RBracket
  {
    AtSplit3(toks, i, [LBracket], SpellAll(c.items), [RBracket]);
    AtIndex(toks, i, [LBracket], 0);
    AtIndex(toks, i + 1 + |SpellAll(c.items)|, [RBracket], 0);
  }

  lemma GroupParts(c: Cst, limits: ParseLimits, nodes: nat, nesting: nat)
    requires c.Group? && Fits(c) && Room(c, limits, nodes, nesting)
    ensures Fits(c.inner) && Level(c.inner) >= 1 && Abs(c) == Abs(c.inner)
    ensures nesting < MAX_PARSE_RECURSION_DEPTH && Room(c.inner, limits, nodes, nesting + 1)
  {
    LevelPositive(c.inner);
  }

  lemma LevelPositive(c: Cst)
    ensures 1 <= Level(c) <= 9
  {
  }

  lemma GroupAt(c: Cst, toks: seq<Token>, i: nat)
    requires c.Group? && At(toks, i, Spell(c))
    ensures |Spell(c)| == 1 + |Spell(c.inner)| + 1 && i + |Spell(c)| <= |toks|
    ensures toks[i].kind == LParen && At(toks, i + 1, Spell(c.inner))
    ensures toks[i + 1 + |Spell(c.inner)|].kind == RParen
  {
    AtSplit3(toks, i, [LParen], Spell(c.inner), [RParen]);
    AtIndex(toks, i, [LParen], 0);
    AtIndex(toks, i + 1 + |Spell(c.inner)|, [RParen], 0);
  }

  /** Room for a list of derivations of which `done` items are already read. */
  predicate RoomAll(cs: seq<Cst>, done: nat, limits: ParseLimits, nodes: nat, nesting: nat) {
    && done + |cs| <= limits.maxCollectionItems
    && nodes + S.NodesAll(AbsAll(cs)) <= limits.maxAstNodes
    && S.SerialDepthAll(AbsAll(cs)) <= MAX_AST_SERIALIZED_DEPTH
    && nesting + NestAll(cs) <= MAX_PARSE_RECURSION_DEPTH
    && S.WidthsWithinAll(AbsAll(cs), limits.maxCollectionItems)
  }

  lemma ItemsParts(cs: seq<Cst>, done: nat, limits: ParseLimits, nodes: nat, nesting: nat)
    requires cs != [] && FitsAll(cs) && RoomAll(cs, done, limits, nodes, nesting)
    ensures Fits(cs[0]) && Level(cs[0]) >= 1 && FitsAll(cs[1..])
    ensures done < limits.maxCollectionItems && nesting < MAX_PARSE_RECURSION_DEPTH
    ensures Room(cs[0], limits, nodes, nesting + 1)
    ensures RoomAll(cs[1..], done + 1, limits, nodes + S.Nodes(Abs(cs[0])), nesting)
    ensures AbsAll(cs) == [Abs(cs[0])] + AbsAll(cs[1..])
    ensures S.NodesAll(AbsAll(cs)) == S.Nodes(Abs(cs[0])) + S.NodesAll(AbsAll(cs[1..]))
    ensures S.SerialDepthAll(AbsAll(cs)) == S.Max(S.SerialDepth(Abs(cs[0])), S.SerialDepthAll(AbsAll(cs[1..])))
  {
    var es := AbsAll(cs);
    assert es[0] == Abs(cs[0]) && es[1..] == AbsAll(cs[1..]);
    LevelPositive(cs[0]);
  }

  lemma ItemsAt(cs: seq<Cst>, toks: seq<Token>, i: nat)
    requires cs != [] && At(toks, i, SpellAll(cs))
    ensures At(toks, i, Spell(cs[0])) && i + |SpellAll(cs)| <= |toks|
    ensures |cs| == 1 ==> |SpellAll(cs)| == |Spell(cs[0])|
    ensures |cs| > 1 ==>
      && |SpellAll(cs)| == |Spell(cs[0])| + 1 + |SpellAll(cs[1..])|
      && toks[i + |Spell(cs[0])|].kind == Comma
      && At(toks, i + |Spell(cs[0])| + 1, SpellAll(cs[1..]))
  {
    hide *;
    SpellAllParts(cs);
    AtEnd(toks, i, SpellAll(cs));
    if |cs| > 1 {
      ItemAndRestAt(toks, i, Spell(cs[0]), SpellAll(cs[1..]));
    }
  }

  lemma ItemAndRestAt(toks: seq<Token>, i: nat, a: seq<Kind>, b: seq<Kind>)
    requires At(toks, i, a + [Comma] + b)
    ensures At(toks, i, a) && At(toks, i + |a| + 1, b)
    ensures i + |a| < |toks| && toks[i + |a|].kind == Comma
  {
    hide *;
    AtSplit3(toks, i, a, [Comma], b);
    AtIndex(toks, i + |a|, [Comma], 0);
  }

  lemma AtEnd(toks: seq<Token>, i: nat, ks: seq<Kind>)
    requires At(toks, i, ks)
    ensures i + |ks| <= |toks|
  {
  }

  lemma SpellAllParts(cs: seq<Cst>)
    requires cs != []
    ensures |cs| == 1 ==> SpellAll(cs) == Spell(cs[0])
    ensures |cs| > 1 ==> SpellAll(cs) == Spell(cs[0]) + [Comma] + SpellAll(cs[1..])
  {
    hide Spell;
  }

  // ----- first tokens -----

  lemma {:induction false} FirstKind(c: Cst)
    requires Fits(c) && Level(c) >= 8
    ensures ParseSpec.UnaryOf(Spell(c)[0]) == None
  {
    match c
    case MemberOf(receiver, _) => FirstKind(receiver);
    case MethodOf(receiver, name, args) =>
      FirstKind(receiver);
      assert Spell(c)[0] == Spell(receiver)[0];
    case _ =>
  }

  lemma {:induction false} FirstStarts(c: Cst)
    requires Fits(c)
    ensures Spell(c)[0] != RBracket && Spell(c)[0] != RParen
  {
    match c
    case MemberOf(receiver, _) => FirstStarts(receiver);
    case MethodOf(receiver, name, args) =>
      FirstStarts(receiver);
      assert Spell(c)[0] == Spell(receiver)[0];
    case BinaryOf(left, _, _) => FirstStarts(left);
    case _ =>
  }

  /** A list's first token starts an expression, so it is not the closing bracket. */
  lemma FirstOfAll(cs: seq<Cst>, toks: seq<Token>, i: nat)
    requires cs != [] && FitsAll(cs) && At(toks, i, SpellAll(cs))
    ensures i < |toks| && toks[i].kind != RBracket && toks[i].kind != RParen
  {
    ItemsAt(cs, toks, i);
    FirstStarts(cs[0]);
    AtIndex(toks, i, Spell(cs[0]), 0);
  }

  // ----- one step of each parser function -----

  lemma LevelStarts(toks: seq<Token>, limits: ParseLimits, level: nat, i: nat, nodes: nat, nesting: nat, q: Parsed, j: nat, n: nat)
    requires EndsWithEof(toks) && i < |toks| && j < |toks| && 1 <= level <= UNARY_LEVEL
    requires (if level == UNARY_LEVEL then ParseUnary(toks, limits, i, nodes, nesting)
              else ParseLevel(toks, limits, level + 1, i, nodes, nesting)) == Ok(q, j, n)
    ensures ParseLevel(toks, limits, level, i, nodes, nesting) == ParseLoop(toks, limits, level, q, j, n, nesting)
  {
  }

  lemma LoopStops(toks: seq<Token>, limits: ParseLimits, level: nat, q: Parsed, j: nat, n: nat, nesting: nat)
    requires EndsWithEof(toks) && j < |toks| && 1 <= level <= UNARY_LEVEL && Stops(toks[j].kind, level)
    ensures ParseLoop(toks, limits, level, q, j, n, nesting) == Ok(q, j, n)
  {
  }

  lemma LoopStep(
    toks: seq<Token>, limits: ParseLimits, level: nat, left: Parsed, op: S.BinaryOp, k: nat, n: nat,
    nesting: nat, right: Parsed, j: nat, n': nat, both: Parsed)
    requires EndsWithEof(toks) && k + 1 < |toks| && j < |toks| && 1 <= level < UNARY_LEVEL
    requires OpAt(level, toks[k].kind) == Some(op)
    requires ParseLevel(toks, limits, level + 1, k + 1, n, nesting) == Ok(right, j, n')
    requires MakeBinary(left, op, right, j, n', limits) == Ok(both, j, n' + 1)
    ensures ParseLoop(toks, limits, level, left, k, n, nesting)
         == ParseLoop(toks, limits, level, both, j, n' + 1, nesting)
  {
  }

  lemma PrefixStep(
    c: Cst, toks: seq<Token>, limits: ParseLimits, i: nat, nodes: nat, nesting: nat,
    inner: Parsed, j: nat, n: nat, q: Parsed)
    requires EndsWithEof(toks) && i + 1 < |toks| && j < |toks|
    requires c.UnaryOf? && toks[i].kind == PrefixKind(c.uop) && Denotes(inner, c.operand)
    requires Room(c, limits, nodes, nesting) && n + 1 <= limits.maxAstNodes
    requires nesting < MAX_PARSE_RECURSION_DEPTH
    requires ParseUnary(toks, limits, i + 1, nodes, nesting + 1) == Ok(inner, j, n)
    requires q == Parsed(Unary(c.uop, inner.ast, Join(toks[i].span, inner.ast.span)), 2 + inner.depth)
    ensures Denotes(q, c) && ParseUnary(toks, limits, i, nodes, nesting) == Ok(q, j, n + 1)
  {
    assert Abs(c) == S.Unary(c.uop, Abs(c.operand));
  }

  lemma PlainStep(toks: seq<Token>, limits: ParseLimits, i: nat, nodes: nat, nesting: nat, q: Parsed, j: nat, n: nat)
    requires EndsWithEof(toks) && i < |toks| && j < |toks|
    requires ParseSpec.UnaryOf(toks[i].kind) == None && toks[j].kind != Dot
    requires ParsePostfix(toks, limits, i, nodes, nesting) == PostfixLoop(toks, limits, q, j, n, nesting)
    ensures ParseUnary(toks, limits, i, nodes, nesting) == Ok(q, j, n)
  {
  }

  lemma PostfixStarts(toks: seq<Token>, limits: ParseLimits, i: nat, nodes: nat, nesting: nat, q: Parsed, j: nat, n: nat)
    requires EndsWithEof(toks) && i < |toks| && j < |toks|
    requires ParsePrimary(toks, limits, i, nodes, nesting) == Ok(q, j, n)
    ensures ParsePostfix(toks, limits, i, nodes, nesting) == PostfixLoop(toks, limits, q, j, n, nesting)
  {
  }

  lemma MemberStep(
    c: Cst, toks: seq<Token>, limits: ParseLimits, k: nat, nodes: nat, nesting: nat, r: Parsed, n: nat, q: Parsed)
    requires EndsWithEof(toks) && k + 2 < |toks|
    requires c.MemberOf? && Denotes(r, c.receiver) && !S.IsReserved(c.name)
    requires toks[k].kind == Dot && toks[k + 1].kind == IdentTok(c.name) && toks[k + 2].kind != LParen
    requires Room(c, limits, nodes, nesting) && n + 1 <= limits.maxAstNodes
    requires q == Parsed(Member(r.ast, c.name, Join(r.ast.span, toks[k + 1].span)), 2 + r.depth)
    ensures Denotes(q, c)
    ensures PostfixLoop(toks, limits, r, k, n, nesting) == PostfixLoop(toks, limits, q, k + 2, n + 1, nesting)
  {
    assert Abs(c) == S.Member(Abs(c.receiver), c.name);
    assert ExpectIdentifier(toks, k + 1, n) == Ok(c.name, k + 2, n);
    assert PostfixOne(toks, limits, r, k, n, nesting) == Ok(q, k + 2, n + 1);
  }

  lemma MethodStep(
    toks: seq<Token>, limits: ParseLimits, k: nat, n: nat, nesting: nat, r: Parsed, name: string,
    args: Items, j: nat, m: nat, q: Parsed)
    requires EndsWithEof(toks) && k + 3 < |toks| && j < |toks| && !S.IsReserved(name)
    requires toks[k].kind == Dot && toks[k + 1].kind == IdentTok(name) && toks[k + 2].kind == LParen
    requires ParseCallArgs(toks, limits, k + 3, n, nesting) == Ok(args, j, m)
    requires MakeMethod(r, name, args, j, m, limits) == Ok(q, j, m + 1)
    ensures PostfixLoop(toks, limits, r, k, n, nesting) == PostfixLoop(toks, limits, q, j, m + 1, nesting)
  {
    assert ExpectIdentifier(toks, k + 1, n) == Ok(name, k + 2, n);
    assert PostfixOne(toks, limits, r, k, n, nesting) == Ok(q, j, m + 1);
  }

  lemma LeafStep(c: Cst, toks: seq<Token>, limits: ParseLimits, i: nat, nodes: nat, nesting: nat)
    returns (q: Parsed)
    requires EndsWithEof(toks) && i + 1 < |toks| && toks[i + 1].kind != LParen
    requires c.Leaf? && Fits(c) && At(toks, i, Spell(c)) && Room(c, limits, nodes, nesting)
    ensures Denotes(q, c) && Placed(q.ast, c, toks, i)
    ensures ParsePrimary(toks, limits, i, nodes, nesting) == Ok(q, i + |Spell(c)|, nodes + S.Nodes(Abs(c)))
  {
    AtIndex(toks, i, [c.kind], 0);
    LeafPlaced(c, toks, i);
    q := Parsed(LeafOf(toks[i]).value, 2);
    assert ParseLeaf(toks[i], i + 1, nodes, limits) == Ok(q, i + 1, nodes + 1);
  }

  lemma GroupStep(toks: seq<Token>, limits: ParseLimits, i: nat, nodes: nat, nesting: nat, q: Parsed, j: nat, n: nat)
    requires EndsWithEof(toks) && i + 1 < |toks| && j < |toks| && nesting < MAX_PARSE_RECURSION_DEPTH
    requires toks[i].kind == LParen && toks[j].kind == RParen
    requires ParseLevel(toks, limits, 1, i + 1, nodes, nesting + 1) == Ok(q, j, n)
    ensures ParsePrimary(toks, limits, i, nodes, nesting) == Ok(q, j + 1, n)
  {
  }

  lemma CallStep(
    c: Cst, toks: seq<Token>, limits: ParseLimits, i: nat, nodes: nat, nesting: nat,
    list: seq<Ast>, end: Span, j: nat, n: nat)
    returns (q: Parsed)
    requires EndsWithEof(toks) && i + 2 < |toks| && j < |toks|
    requires c.CallOf? && !S.IsReserved(c.name) && StripAll(list) == AbsAll(c.args)
    requires toks[i].kind == IdentTok(c.name) && toks[i + 1].kind == LParen
    requires S.SerialDepth(Abs(c)) == 3 + S.SerialDepthAll(AbsAll(c.args)) <= MAX_AST_SERIALIZED_DEPTH
    requires n + 1 <= limits.maxAstNodes
    requires ParseCallArgs(toks, limits, i + 2, nodes, nesting)
          == Ok(Items(list, S.SerialDepthAll(AbsAll(c.args)), end), j, n)
    ensures Denotes(q, c) && ParsePrimary(toks, limits, i, nodes, nesting) == Ok(q, j, n + 1)
    ensures q.ast == Call(c.name, list, Join(toks[i].span, end))
  {
    q := Parsed(Call(c.name, list, Join(toks[i].span, end)), 3 + S.SerialDepthAll(AbsAll(c.args)));
    assert Abs(c) == S.Call(c.name, AbsAll(c.args));
  }

  lemma ListStep(
    c: Cst, toks: seq<Token>, limits: ParseLimits, i: nat, nodes: nat, nesting: nat,
    list: seq<Ast>, end: Span, j: nat, n: nat)
    returns (q: Parsed)
    requires EndsWithEof(toks) && i + 1 < |toks| && j < |toks|
    requires c.ListOf? && StripAll(list) == AbsAll(c.items) && toks[i].kind == LBracket
    requires S.SerialDepth(Abs(c)) == 3 + S.SerialDepthAll(AbsAll(c.items)) <= MAX_AST_SERIALIZED_DEPTH
    requires n + 1 <= limits.maxAstNodes
    requires if c.items == [] then toks[i + 1] == Token(RBracket, end) && list == [] && j == i + 2 && n == nodes
             else && toks[i + 1].kind != RBracket
                  && ParseItems(toks, limits, InArray(toks[i].span), [], 0, i + 1, nodes, nesting)
                     == Ok(Items(list, S.SerialDepthAll(AbsAll(c.items)), end), j, n)
    ensures Denotes(q, c) && ParsePrimary(toks, limits, i, nodes, nesting) == Ok(q, j, n + 1)
    ensures q.ast == Array(list, Join(toks[i].span, end))
  {
    q := Parsed(Array(list, Join(toks[i].span, end)), 3 + S.SerialDepthAll(AbsAll(c.items)));
    hide ParseItems, ParseLevel, AbsAll, StripAll, S.SerialDepthAll, Denotes;
    ListDenotes(c, q, list);
    assert c.items == [] ==> S.SerialDepthAll(AbsAll(c.items)) == 0 by { EmptyList(); }
    assert ParseArray(toks, limits, i + 1, toks[i].span, nodes, nesting) == Ok(q, j, n + 1);
  }

  lemma ListDenotes(c: Cst, q: Parsed, list: seq<Ast>)
    requires c.ListOf? && StripAll(list) == AbsAll(c.items) && q.ast.Array? && q.ast.items == list
    requires q.depth == S.SerialDepth(Abs(c)) == 3 + S.SerialDepthAll(AbsAll(c.items))
    ensures Denotes(q, c)
  {
    hide AbsAll, StripAll, S.SerialDepthAll;
    assert Abs(c) == S.Array(AbsAll(c.items));
    assert Strip(q.ast) == S.Array(StripAll(list));
  }

  lemma ItemsStep(
    toks: seq<Token>, limits: ParseLimits, listing: Listing, done: seq<Ast>, depth: nat,
    i: nat, nodes: nat, nesting: nat, q: Parsed, j: nat, n: nat)
    requires EndsWithEof(toks) && i < |toks| && j < |toks|
    requires |done| < limits.maxCollectionItems && nesting < MAX_PARSE_RECURSION_DEPTH
    requires ParseLevel(toks, limits, 1, i, nodes, nesting + 1) == Ok(q, j, n)
    ensures toks[j].kind == listing.Close() ==>
      ParseItems(toks, limits, listing, done, depth, i, nodes, nesting)
      == Ok(Items(done + [q.ast], S.Max(depth, q.depth), toks[j].span), j + 1, n)
    ensures toks[j].kind == Comma && j + 1 < |toks| ==>
      ParseItems(toks, limits, listing, done, depth, i, nodes, nesting)
      == ParseItems(toks, limits, listing, done + [q.ast], S.Max(depth, q.depth), j + 1, n, nesting)
  {
  }

  // ----- the induction over derivations -----

  /** Level by level: parsing at `level` reaches the operator loop with `c` as its left operand. */
  lemma {:induction false} LevelReachesLoop(
    c: Cst, level: nat, toks: seq<Token>, limits: ParseLimits, i: nat, nodes: nat, nesting: nat)
    returns (q: Parsed)
    requires EndsWithEof(toks) && 1 <= level <= UNARY_LEVEL
    requires Fits(c) && Level(c) >= level && Room(c, limits, nodes, nesting)
    requires At(toks, i, Spell(c)) && i + |Spell(c)| < |toks|
    requires Stops(toks[i + |Spell(c)|].kind, level + 1)
    ensures Denotes(q, c) && Placed(q.ast, c, toks, i)
    ensures ParseLevel(toks, limits, level, i, nodes, nesting)
         == ParseLoop(toks, limits, level, q, i + |Spell(c)|, nodes + S.Nodes(Abs(c)), nesting)
    decreases c, 20 - level, 0
  {
    hide *;
    UnaryLevel();
    var j, n := i + |Spell(c)|, nodes + S.Nodes(Abs(c));
    if level == UNARY_LEVEL {
      StopsPostfix(toks[j].kind, level + 1);
      q := UnaryCompletes(c, toks, limits, i, nodes, nesting);
      LevelStarts(toks, limits, level, i, nodes, nesting, q, j, n);
    } else if Level(c) > level {
      q := LevelCompletes(c, level + 1, toks, limits, i, nodes, nesting);
      LevelStarts(toks, limits, level, i, nodes, nesting, q, j, n);
    } else {
      LooseIsBinary(c);
      q := BinaryReachesLoop(c, toks, limits, i, nodes, nesting);
    }
  }

  lemma UnaryLevel()
    ensures UNARY_LEVEL == 7
  {
  }

  lemma StopsPostfix(next: Kind, level: nat)
    requires Stops(next, level)
    ensures next != Dot && next != LParen
  {
  }

  lemma LooseIsBinary(c: Cst)
    requires Level(c) < UNARY_LEVEL
    ensures c.BinaryOf?
  {
  }

  lemma {:induction false} BinaryReachesLoop(
    c: Cst, toks: seq<Token>, limits: ParseLimits, i: nat, nodes: nat, nesting: nat)
    returns (q: Parsed)
    requires EndsWithEof(toks)
    requires c.BinaryOf? && Fits(c) && Room(c, limits, nodes, nesting)
    requires At(toks, i, Spell(c)) && i + |Spell(c)| < |toks|
    requires 1 <= Level(c) < UNARY_LEVEL && Stops(toks[i + |Spell(c)|].kind, Level(c) + 1)
    ensures Denotes(q, c) && Placed(q.ast, c, toks, i)
    ensures ParseLevel(toks, limits, Level(c), i, nodes, nesting)
         == ParseLoop(toks, limits, Level(c), q, i + |Spell(c)|, nodes + S.Nodes(Abs(c)), nesting)
    decreases c, 1, 0
  {
    hide *;
    var left, op, right, level := c.left, c.op, c.right, Level(c);
    BinaryParts(c, limits, nodes, nesting);
    BinaryAt(c, toks, i);
    var k, n := i + |Spell(left)|, nodes + S.Nodes(Abs(left));
    OperatorStops(toks[k].kind, op, level);
    var l := LevelReachesLoop(left, level, toks, limits, i, nodes, nesting);
    var r := LevelCompletes(right, level + 1, toks, limits, k + 1, n, nesting);
    var j, n' := i + |Spell(c)|, n + S.Nodes(Abs(right));
    q := Parsed(Binary(l.ast, op, r.ast, Join(l.ast.span, r.ast.span)), 2 + S.Max(l.depth, r.depth));
    BinaryBuilds(c, l, r, q, j, n', limits, nodes, nesting);
    BinaryPlaced(c, l.ast, r.ast, toks, i);
    LoopStep(toks, limits, level, l, op, k, n, nesting, r, j, n', q);
  }

  /** When the next token cannot extend it, parsing `c` at its level finishes exactly there. */
  lemma {:induction false} LevelCompletes(
    c: Cst, level: nat, toks: seq<Token>, limits: ParseLimits, i: nat, nodes: nat, nesting: nat)
    returns (q: Parsed)
    requires EndsWithEof(toks) && 1 <= level <= UNARY_LEVEL
    requires Fits(c) && Level(c) >= level && Room(c, limits, nodes, nesting)
    requires At(toks, i, Spell(c)) && i + |Spell(c)| < |toks|
    requires Stops(toks[i + |Spell(c)|].kind, level)
    ensures Denotes(q, c) && Placed(q.ast, c, toks, i)
    ensures ParseLevel(toks, limits, level, i, nodes, nesting)
         == Ok(q, i + |Spell(c)|, nodes + S.Nodes(Abs(c)))
    decreases c, 20 - level, 1
  {
    hide *;
    var j, n := i + |Spell(c)|, nodes + S.Nodes(Abs(c));
    StopsTighter(toks[j].kind, level);
    q := LevelReachesLoop(c, level, toks, limits, i, nodes, nesting);
    LoopStops(toks, limits, level, q, j, n, nesting);
  }

  lemma StopsTighter(next: Kind, level: nat)
    requires Stops(next, level)
    ensures Stops(next, level + 1)
  {
  }

  lemma {:induction false} UnaryCompletes(
    c: Cst, toks: seq<Token>, limits: ParseLimits, i: nat, nodes: nat, nesting: nat)
    returns (q: Parsed)
    requires EndsWithEof(toks)
    requires Fits(c) && Level(c) >= UNARY_LEVEL && Room(c, limits, nodes, nesting)
    requires At(toks, i, Spell(c)) && i + |Spell(c)| < |toks|
    requires toks[i + |Spell(c)|].kind != Dot && toks[i + |Spell(c)|].kind != LParen
    ensures Denotes(q, c) && Placed(q.ast, c, toks, i)
    ensures ParseUnary(toks, limits, i, nodes, nesting)
         == Ok(q, i + |Spell(c)|, nodes + S.Nodes(Abs(c)))
    decreases c, 12
  {
    hide *;
    var j, n := i + |Spell(c)|, nodes + S.Nodes(Abs(c));
    if c.UnaryOf? {
      UnaryParts(c, limits, nodes, nesting);
      UnaryAt(c, toks, i);
      var inner := UnaryCompletes(c.operand, toks, limits, i + 1, nodes, nesting + 1);
      q := Parsed(Unary(c.uop, inner.ast, Join(toks[i].span, inner.ast.span)), 2 + inner.depth);
      PrefixStep(c, toks, limits, i, nodes, nesting, inner, j, n - 1, q);
      UnaryPlaced(c, inner.ast, toks, i);
    } else {
      TightIsPostfix(c);
      FirstKind(c);
      AtIndex(toks, i, Spell(c), 0);
      q := PostfixReachesLoop(c, toks, limits, i, nodes, nesting);
      PlainStep(toks, limits, i, nodes, nesting, q, j, n);
    }
  }

  lemma TightIsPostfix(c: Cst)
    requires Level(c) >= UNARY_LEVEL && !c.UnaryOf?
    ensures Level(c) >= 8
    ensures !c.MemberOf? && !c.MethodOf? ==> Level(c) == 9
  {
  }

  /** Parsing a postfix chain reaches the suffix loop with `c` as its receiver. */
  lemma {:induction false} PostfixReachesLoop(
    c: Cst, toks: seq<Token>, limits: ParseLimits, i: nat, nodes: nat, nesting: nat)
    returns (q: Parsed)
    requires EndsWithEof(toks)
    requires Fits(c) && Level(c) >= 8 && Room(c, limits, nodes, nesting)
    requires At(toks, i, Spell(c)) && i + |Spell(c)| < |toks|
    requires toks[i + |Spell(c)|].kind != LParen
    ensures Denotes(q, c) && Placed(q.ast, c, toks, i)
    ensures ParsePostfix(toks, limits, i, nodes, nesting)
         == PostfixLoop(toks, limits, q, i + |Spell(c)|, nodes + S.Nodes(Abs(c)), nesting)
    decreases c, 11
  {
    hide *;
    var j, n := i + |Spell(c)|, nodes + S.Nodes(Abs(c));
    if c.MemberOf? {
      MemberParts(c, limits, nodes, nesting);
      MemberAt(c, toks, i);
      var k := i + |Spell(c.receiver)|;
      var r := PostfixReachesLoop(c.receiver, toks, limits, i, nodes, nesting);
      q := Parsed(Member(r.ast, c.name, Join(r.ast.span, toks[k + 1].span)), 2 + r.depth);
      MemberStep(c, toks, limits, k, nodes, nesting, r, n - 1, q);
      MemberPlaced(c, r.ast, toks, i);
    } else if c.MethodOf? {
      q := MethodReachesLoop(c, toks, limits, i, nodes, nesting);
    } else {
      PostfixIsPrimary(c);
      q := PrimaryCompletes(c, toks, limits, i, nodes, nesting);
      PostfixStarts(toks, limits, i, nodes, nesting, q, j, n);
    }
  }

  lemma PostfixIsPrimary(c: Cst)
    requires Level(c) >= 8 && !c.MemberOf? && !c.MethodOf?
    ensures c.Leaf? || c.Group? || c.ListOf? || c.CallOf?
  {
  }

  lemma {:induction false} MethodReachesLoop(
    c: Cst, toks: seq<Token>, limits: ParseLimits, i: nat, nodes: nat, nesting: nat)
    returns (q: Parsed)
    requires EndsWithEof(toks)
    requires c.MethodOf? && Fits(c) && Room(c, limits, nodes, nesting)
    requires At(toks, i, Spell(c)) && i + |Spell(c)| < |toks|
    ensures Denotes(q, c) && Placed(q.ast, c, toks, i)
    ensures ParsePostfix(toks, limits, i, nodes, nesting)
         == PostfixLoop(toks, limits, q, i + |Spell(c)|, nodes + S.Nodes(Abs(c)), nesting)
    decreases c, 10
  {
    hide *;
    var receiver, args := c.receiver, c.args;
    MethodParts(c, limits, nodes, nesting);
    MethodAt(c, toks, i);
    var k, n := i + |Spell(receiver)|, nodes + S.Nodes(Abs(receiver));
    var r := PostfixReachesLoop(receiver, toks, limits, i, nodes, nesting);
    var list := ArgsComplete(args, toks, limits, k + 3, n, nesting);
    var j, m := i + |Spell(c)|, n + S.NodesAll(AbsAll(args));
    var end := toks[k + 3 + |SpellAll(args)|].span;
    q := Parsed(Method(r.ast, c.name, list, Join(r.ast.span, end)),
                S.Max(2 + r.depth, 3 + S.SerialDepthAll(AbsAll(args))));
    MethodBuilds(c, r, list, end, q, j, m, limits, nodes, nesting);
    MethodPlaced(c, r.ast, list, toks, i);
    MethodStep(toks, limits, k, n, nesting, r, c.name,
               Items(list, S.SerialDepthAll(AbsAll(args)), end), j, m, q);
  }

  lemma {:induction false} PrimaryCompletes(
    c: Cst, toks: seq<Token>, limits: ParseLimits, i: nat, nodes: nat, nesting: nat)
    returns (q: Parsed)
    requires EndsWithEof(toks)
    requires Fits(c) && (c.Leaf? || c.Group? || c.ListOf? || c.CallOf?) && Room(c, limits, nodes, nesting)
    requires At(toks, i, Spell(c)) && i + |Spell(c)| < |toks|
    requires toks[i + |Spell(c)|].kind != LParen
    ensures Denotes(q, c) && Placed(q.ast, c, toks, i)
    ensures ParsePrimary(toks, limits, i, nodes, nesting)
         == Ok(q, i + |Spell(c)|, nodes + S.Nodes(Abs(c)))
    decreases c, 10
  {
    hide *;
    UnaryLevel();
    var j, n := i + |Spell(c)|, nodes + S.Nodes(Abs(c));
    if c.Leaf? {
      LeafLength(c);
      q := LeafStep(c, toks, limits, i, nodes, nesting);
    } else if c.Group? {
      GroupParts(c, limits, nodes, nesting);
      GroupAt(c, toks, i);
      CloserStops(toks[j - 1].kind);
      q := LevelCompletes(c.inner, 1, toks, limits, i + 1, nodes, nesting + 1);
      GroupDenotes(c, q);
      GroupPlaced(c, q.ast, toks, i);
      GroupStep(toks, limits, i, nodes, nesting, q, j - 1, n);
    } else if c.ListOf? {
      q := ListCompletes(c, toks, limits, i, nodes, nesting);
    } else {
      CallParts(c, limits, nodes, nesting);
      CallAt(c, toks, i);
      var list := ArgsComplete(c.args, toks, limits, i + 2, nodes, nesting);
      q := CallStep(c, toks, limits, i, nodes, nesting, list, toks[j - 1].span, j, n - 1);
      CallPlaced(c, list, toks, i);
    }
  }

  lemma {:induction false} ListCompletes(
    c: Cst, toks: seq<Token>, limits: ParseLimits, i: nat, nodes: nat, nesting: nat)
    returns (q: Parsed)
    requires EndsWithEof(toks)
    requires Fits(c) && c.ListOf? && Room(c, limits, nodes, nesting)
    requires At(toks, i, Spell(c)) && i + |Spell(c)| < |toks|
    ensures Denotes(q, c) && Placed(q.ast, c, toks, i)
    ensures ParsePrimary(toks, limits, i, nodes, nesting)
         == Ok(q, i + |Spell(c)|, nodes + S.Nodes(Abs(c)))
    decreases c, 9
  {
    hide *;
    CallParts(c, limits, nodes, nesting);
    ListAt(c, toks, i);
    var j, n := i + |Spell(c)|, nodes + S.Nodes(Abs(c));
    var list: seq<Ast> := [];
    if c.items != [] {
      FirstOfAll(c.items, toks, i + 1);
      ListingCloses(InArray(toks[i].span));
      list := ItemsComplete(c.items, InArray(toks[i].span), [], 0, toks, limits, i + 1, nodes, nesting);
      NoneDone(S.SerialDepthAll(AbsAll(c.items)));
      AllPlaced(c.items, list, toks, i + 1);
    } else {
      EmptyList();
      NonePlaced(toks, i + 1);
    }
    q := ListStep(c, toks, limits, i, nodes, nesting, list, toks[j - 1].span, j, n - 1);
    ListPlaced(c, list, toks, i);
  }

  lemma LeafLength(c: Cst)
    requires c.Leaf?
    ensures |Spell(c)| == 1
  {
  }

  lemma GroupDenotes(c: Cst, q: Parsed)
    requires c.Group? && Denotes(q, c.inner)
    ensures Denotes(q, c)
  {
  }

  lemma CloserStops(next: Kind)
    requires next == RParen || next == RBracket || next == Comma
    ensures Stops(next, 1)
  {
  }

  lemma ListingCloses(listing: Listing)
    ensures listing.Close() == if listing.InArray? then RBracket else RParen
  {
  }

  lemma NoneDone(depth: nat)
    ensures S.Max(0, depth) == depth && StripAll([]) == []
  {
  }

  lemma EmptyList()
    ensures StripAll([]) == AbsAll([]) == [] && |SpellAll([])| == 0
    ensures S.NodesAll([]) == 0 && S.SerialDepthAll([]) == 0
  {
  }

  lemma {:induction false} ArgsComplete(
    args: seq<Cst>, toks: seq<Token>, limits: ParseLimits, i: nat, nodes: nat, nesting: nat)
    returns (list: seq<Ast>)
    requires EndsWithEof(toks) && FitsAll(args) && RoomAll(args, 0, limits, nodes, nesting)
    requires At(toks, i, SpellAll(args)) && i + |SpellAll(args)| + 1 < |toks|
    requires toks[i + |SpellAll(args)|].kind == RParen
    ensures StripAll(list) == AbsAll(args) && PlacedAll(list, args, toks, i)
    ensures ParseCallArgs(toks, limits, i, nodes, nesting)
         == Ok(Items(list, S.SerialDepthAll(AbsAll(args)), toks[i + |SpellAll(args)|].span),
               i + |SpellAll(args)| + 1, nodes + S.NodesAll(AbsAll(args)))
    decreases args, 1
  {
    hide *;
    if args == [] {
      EmptyList();
      NonePlaced(toks, i);
      list := [];
    } else {
      FirstOfAll(args, toks, i);
      ListingCloses(InArgs);
      list := ItemsComplete(args, InArgs, [], 0, toks, limits, i, nodes, nesting);
      NoneDone(S.SerialDepthAll(AbsAll(args)));
      AllPlaced(args, list, toks, i);
    }
    ArgsStep(toks, limits, i, nodes, nesting);
  }

  lemma ArgsStep(toks: seq<Token>, limits: ParseLimits, i: nat, nodes: nat, nesting: nat)
    requires EndsWithEof(toks) && i < |toks|
    ensures ParseCallArgs(toks, limits, i, nodes, nesting)
         == if toks[i].kind == RParen then Ok(Items([], 0, toks[i].span), i + 1, nodes)
            else ParseItems(toks, limits, InArgs, [], 0, i, nodes, nesting)
  {
  }

  lemma {:induction false} ItemsComplete(
    cs: seq<Cst>, listing: Listing, done: seq<Ast>, depth: nat,
    toks: seq<Token>, limits: ParseLimits, i: nat, nodes: nat, nesting: nat)
    returns (list: seq<Ast>)
    requires EndsWithEof(toks) && cs != [] && FitsAll(cs)
    requires RoomAll(cs, |done|, limits, nodes, nesting)
    requires At(toks, i, SpellAll(cs)) && i + |SpellAll(cs)| + 1 < |toks|
    requires toks[i + |SpellAll(cs)|].kind == listing.Close()
    ensures StripAll(list) == StripAll(done) + AbsAll(cs)
    ensures list == done + LocatedAll(cs, toks, i)
    ensures ParseItems(toks, limits, listing, done, depth, i, nodes, nesting)
         == Ok(Items(list, S.Max(depth, S.SerialDepthAll(AbsAll(cs))), toks[i + |SpellAll(cs)|].span),
               i + |SpellAll(cs)| + 1, nodes + S.NodesAll(AbsAll(cs)))
    decreases cs, 0
  {
    hide *;
    UnaryLevel();
    var c, rest := cs[0], cs[1..];
    ItemsParts(cs, |done|, limits, nodes, nesting);
    ItemsAt(cs, toks, i);
    ListingCloses(listing);
    var j, n := i + |Spell(c)|, nodes + S.Nodes(Abs(c));
    CloserStops(toks[j].kind);
    var q := LevelCompletes(c, 1, toks, limits, i, nodes, nesting + 1);
    DenotesParts(q, c);
    var done', depth' := done + [q.ast], S.Max(depth, q.depth);
    ItemsStep(toks, limits, listing, done, depth, i, nodes, nesting, q, j, n);
    MaxAssociates(depth, q.depth, S.SerialDepthAll(AbsAll(rest)));
    if rest == [] {
      EmptyList();
      list := done';
    } else {
      list := ItemsComplete(rest, listing, done', depth', toks, limits, j + 1, n, nesting);
    }
    LocatedJoin(cs, done, q.ast, toks, i, list);
    StrippedJoin(cs, done, q.ast, list);
  }

  /** The items done before, the first of `cs` and the rest. */
  lemma LocatedJoin(cs: seq<Cst>, done: seq<Ast>, first: Ast, toks: seq<Token>, i: nat, list: seq<Ast>)
    requires cs != [] && i + |SpellAll(cs)| <= |toks| && Placed(first, cs[0], toks, i)
    requires |cs| == 1 ==> list == done + [first]
    requires |cs| > 1 ==> i + |Spell(cs[0])| + 1 + |SpellAll(cs[1..])| <= |toks|
    requires |cs| > 1 ==> list == done + [first] + LocatedAll(cs[1..], toks, i + |Spell(cs[0])| + 1)
    ensures list == done + LocatedAll(cs, toks, i)
  {
    hide *;
    FirstLocated(cs, first, toks, i);
    if |cs| > 1 {
      Associates(done, first, LocatedAll(cs[1..], toks, i + |Spell(cs[0])| + 1));
    } else {
      assert cs[1..] == [];
    }
  }

  lemma StrippedJoin(cs: seq<Cst>, done: seq<Ast>, first: Ast, list: seq<Ast>)
    requires cs != [] && Strip(first) == Abs(cs[0])
    requires |cs| == 1 ==> list == done + [first]
    requires |cs| > 1 ==> StripAll(list) == StripAll(done + [first]) + AbsAll(cs[1..])
    ensures StripAll(list) == StripAll(done) + AbsAll(cs)
  {
    hide *;
    StripAllAppend(done, first);
    AbsFirst(cs);
    if |cs| > 1 { Associates(StripAll(done), Abs(cs[0]), AbsAll(cs[1..])); }
  }

  lemma AbsFirst(cs: seq<Cst>)
    requires cs != []
    ensures AbsAll(cs) == [Abs(cs[0])] + AbsAll(cs[1..])
    ensures |cs| == 1 ==> AbsAll(cs) == [Abs(cs[0])]
  {
    hide Abs;
  }

  lemma Associates<T>(a: seq<T>, e: T, b: seq<T>)
    ensures a + [e] + b == a + ([e] + b)
  {
  }

  lemma DenotesParts(q: Parsed, c: Cst)
    requires Denotes(q, c)
    ensures Strip(q.ast) == Abs(c) && q.depth == S.SerialDepth(Abs(c))
  {
  }

  lemma MaxAssociates(a: nat, b: nat, c: nat)
    ensures S.Max(S.Max(a, b), c) == S.Max(a, S.Max(b, c)) && S.Max(b, 0) == b
  {
  }

  /** Every derivation of a whole token sequence that fits the budgets is accepted. */
  lemma ParserComplete(c: Cst, toks: seq<Token>, limits: ParseLimits)
    requires EndsWithEof(toks) && Fits(c) && Room(c, limits, 0, 0)
    requires |toks| == |Spell(c)| + 1 && At(toks, 0, Spell(c))
    ensures ParseTokens(toks, limits).Accepted? && Strip(ParseTokens(toks, limits).ast) == Abs(c)
    ensures ParseTokens(toks, limits).ast == Located(c, toks, 0)
  {
    LevelPositive(c);
    var q := LevelCompletes(c, 1, toks, limits, 0, 0, 0);
  }
}
