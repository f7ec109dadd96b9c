/** Whatever the parser accepts is a derivation: the AST it returns is what the consumed tokens
    spell, with the exact node count, depth, width and nesting, and with one string leaf for each
    string token, in order. */
module Soundness {
  import opened Tokens
  import opened Spanned
  import opened ParseSpec
  import opened Grammar
  import opened Completeness
  import S = Syntax

  /** Spans of the string tokens among `toks[i..j]`, left to right. */
  function StringTokens(toks: seq<Token>, i: nat, j: nat): seq<Span>
    requires j <= |toks|
    decreases j
  {
    if j <= i then []
    else StringTokens(toks, i, j - 1) + (if toks[j - 1].kind.StrTok? then [toks[j - 1].span] else [])
  }

  lemma {:induction false} StringTokensJoin(toks: seq<Token>, i: nat, k: nat, j: nat)
    requires i <= k <= j <= |toks|
    ensures StringTokens(toks, i, k) + StringTokens(toks, k, j) == StringTokens(toks, i, j)
    decreases j - k
  {
    if k < j { StringTokensJoin(toks, i, k, j - 1); }
  }

  lemma SkipFirst(toks: seq<Token>, i: nat, j: nat)
    requires i < j <= |toks| && !toks[i].kind.StrTok?
    ensures StringTokens(toks, i, j) == StringTokens(toks, i + 1, j)
  {
    StringTokensJoin(toks, i, i + 1, j);
    assert StringTokens(toks, i, i + 1) == StringTokens(toks, i, i);
  }

  lemma SkipLast(toks: seq<Token>, i: nat, j: nat)
    requires i <= j < |toks| && !toks[j].kind.StrTok?
    ensures StringTokens(toks, i, j + 1) == StringTokens(toks, i, j)
  {
  }

  /** A token that is not a string adds nothing. */
  lemma SkipToken(toks: seq<Token>, i: nat, k: nat, j: nat)
    requires i <= k < j <= |toks| && !toks[k].kind.StrTok?
    ensures StringTokens(toks, i, j) == StringTokens(toks, i, k) + StringTokens(toks, k + 1, j)
  {
    StringTokensJoin(toks, i, k, j);
    SkipFirst(toks, k, j);
  }

  /** `toks[i..j]` derives `q` by `c`, taking the node count from `nodes` to `n`. */
  ghost predicate Derives(
    toks: seq<Token>, limits: ParseLimits, c: Cst, q: Parsed, i: nat, j: nat, nodes: nat, n: nat, nesting: nat)
  {
    && Spells(toks, limits, c, q, i, j, nodes, n, nesting)
    && StringSpans(q.ast) == StringTokens(toks, i, j)
  }

  ghost predicate Spells(
    toks: seq<Token>, limits: ParseLimits, c: Cst, q: Parsed, i: nat, j: nat, nodes: nat, n: nat, nesting: nat)
  {
    && Fits(c) && Denotes(q, c)
    && j == i + |Spell(c)| <= |toks| && At(toks, i, Spell(c))
    && n == nodes + S.Nodes(Abs(c)) && Room(c, limits, nodes, nesting)
  }

  /** The same for the items of a list, separated by commas. */
  ghost predicate DerivesAll(
    toks: seq<Token>, limits: ParseLimits, cs: seq<Cst>, list: seq<Ast>, depth: nat,
    i: nat, j: nat, nodes: nat, n: nat, nesting: nat)
  {
    && SpellsAll(toks, limits, cs, list, depth, i, j, nodes, n, nesting)
    && StringSpansAll(list) == StringTokens(toks, i, j)
  }

  ghost predicate SpellsAll(
    toks: seq<Token>, limits: ParseLimits, cs: seq<Cst>, list: seq<Ast>, depth: nat,
    i: nat, j: nat, nodes: nat, n: nat, nesting: nat)
  {
    && FitsAll(cs) && StripAll(list) == AbsAll(cs) && depth == S.SerialDepthAll(AbsAll(cs))
    && j == i + |SpellAll(cs)| <= |toks| && At(toks, i, SpellAll(cs))
    && n == nodes + S.NodesAll(AbsAll(cs)) && |cs| <= limits.maxCollectionItems
    && nesting + NestAll(cs) <= MAX_PARSE_RECURSION_DEPTH
    && S.WidthsWithinAll(AbsAll(cs), limits.maxCollectionItems)
  }

  // ----- building derivations -----

  lemma BinaryDerives(
    toks: seq<Token>, limits: ParseLimits, cl: Cst, l: Parsed, op: S.BinaryOp, cr: Cst, r: Parsed, q: Parsed,
    i: nat, k: nat, j: nat, nodes: nat, n: nat, m: nat, nesting: nat)
    requires Derives(toks, limits, cl, l, i, k, nodes, n, nesting)
    requires k < |toks| && toks[k].kind == OpKind(op)
    requires Derives(toks, limits, cr, r, k + 1, j, n, m, nesting)
    requires Level(cl) >= Rung(op) && Level(cr) > Rung(op)
    requires MakeBinary(l, op, r, j, m, limits) == Ok(q, j, m + 1)
    ensures Derives(toks, limits, BinaryOf(cl, op, cr), q, i, j, nodes, m + 1, nesting)
  {
    hide *;
    DerivesEnds(toks, limits, cr, r, k + 1, j, n, m, nesting);
    DerivesParts(toks, limits, cl, l, i, k, nodes, n, nesting);
    DerivesParts(toks, limits, cr, r, k + 1, j, n, m, nesting);
    BinarySpells(toks, limits, cl, l, op, cr, r, q, i, k, j, nodes, n, m, nesting);
    OperatorKinds(op);
    SkipToken(toks, i, k, j);
    BinaryLeaves(l, op, r, q, j, m, limits);
    DerivesBoth(toks, limits, BinaryOf(cl, op, cr), q, i, j, nodes, m + 1, nesting);
  }

  lemma OperatorKinds(op: S.BinaryOp)
    ensures !OpKind(op).StrTok?
  {
  }

  lemma BinaryLeaves(l: Parsed, op: S.BinaryOp, r: Parsed, q: Parsed, j: nat, m: nat, limits: ParseLimits)
    requires MakeBinary(l, op, r, j, m, limits) == Ok(q, j, m + 1)
    ensures StringSpans(q.ast) == StringSpans(l.ast) + StringSpans(r.ast)
  {
  }

  lemma BinarySpells(
    toks: seq<Token>, limits: ParseLimits, cl: Cst, l: Parsed, op: S.BinaryOp, cr: Cst, r: Parsed, q: Parsed,
    i: nat, k: nat, j: nat, nodes: nat, n: nat, m: nat, nesting: nat)
    requires Spells(toks, limits, cl, l, i, k, nodes, n, nesting)
    requires k < |toks| && toks[k].kind == OpKind(op)
    requires Spells(toks, limits, cr, r, k + 1, j, n, m, nesting)
    requires Level(cl) >= Rung(op) && Level(cr) > Rung(op)
    requires MakeBinary(l, op, r, j, m, limits) == Ok(q, j, m + 1)
    ensures Spells(toks, limits, BinaryOf(cl, op, cr), q, i, j, nodes, m + 1, nesting)
  {
    hide *;
    SpellsParts(toks, limits, cl, l, i, k, nodes, n, nesting);
    SpellsParts(toks, limits, cr, r, k + 1, j, n, m, nesting);
    BinaryMeasures(limits, cl, l, op, cr, r, q, j, nodes, n, m, nesting);
    BinaryAtJoin(toks, BinaryOf(cl, op, cr), i);
    SpellsWhole(toks, limits, BinaryOf(cl, op, cr), q, i, j, nodes, m + 1, nesting);
  }

  lemma SpellsParts(
    toks: seq<Token>, limits: ParseLimits, c: Cst, q: Parsed, i: nat, j: nat, nodes: nat, n: nat, nesting: nat)
    requires Spells(toks, limits, c, q, i, j, nodes, n, nesting)
    ensures Fits(c) && Denotes(q, c) && Room(c, limits, nodes, nesting) && n == nodes + S.Nodes(Abs(c))
    ensures j == i + |Spell(c)| <= |toks| && At(toks, i, Spell(c))
  {
  }

  lemma SpellsWhole(
    toks: seq<Token>, limits: ParseLimits, c: Cst, q: Parsed, i: nat, j: nat, nodes: nat, n: nat, nesting: nat)
    requires Fits(c) && Denotes(q, c) && Room(c, limits, nodes, nesting) && n == nodes + S.Nodes(Abs(c))
    requires j == i + |Spell(c)| <= |toks| && At(toks, i, Spell(c))
    ensures Spells(toks, limits, c, q, i, j, nodes, n, nesting)
  {
  }

  lemma BinaryMeasures(
    limits: ParseLimits, cl: Cst, l: Parsed, op: S.BinaryOp, cr: Cst, r: Parsed, q: Parsed,
    j: nat, nodes: nat, n: nat, m: nat, nesting: nat)
    requires Fits(cl) && Denotes(l, cl) && Room(cl, limits, nodes, nesting) && n == nodes + S.Nodes(Abs(cl))
    requires Fits(cr) && Denotes(r, cr) && Room(cr, limits, n, nesting) && m == n + S.Nodes(Abs(cr))
    requires Level(cl) >= Rung(op) && Level(cr) > Rung(op)
    requires MakeBinary(l, op, r, j, m, limits) == Ok(q, j, m + 1)
    ensures var c := BinaryOf(cl, op, cr);
      Fits(c) && Denotes(q, c) && Room(c, limits, nodes, nesting) && m + 1 == nodes + S.Nodes(Abs(c))
  {
    var c := BinaryOf(cl, op, cr);
    assert Abs(c) == S.Binary(Abs(cl), op, Abs(cr));
  }

  lemma BinaryAtJoin(toks: seq<Token>, c: Cst, i: nat)
    requires c.BinaryOf? && At(toks, i, Spell(c.left))
    requires var k := i + |Spell(c.left)|;
      k < |toks| && toks[k].kind == OpKind(c.op) && At(toks, k + 1, Spell(c.right))
    ensures At(toks, i, Spell(c)) && |Spell(c)| == |Spell(c.left)| + 1 + |Spell(c.right)|
  {
    hide OpKind;
    AtSplit3(toks, i, Spell(c.left), [OpKind(c.op)], Spell(c.right));
  }

  lemma UnaryDerives(
    toks: seq<Token>, limits: ParseLimits, op: S.UnaryOp, co: Cst, o: Parsed, q: Parsed,
    i: nat, j: nat, nodes: nat, m: nat, nesting: nat)
    requires i < |toks| && toks[i].kind == PrefixKind(op) && nesting < MAX_PARSE_RECURSION_DEPTH
    requires Derives(toks, limits, co, o, i + 1, j, nodes, m, nesting + 1) && Level(co) >= UNARY_LEVEL
    requires MakeExpression(Unary(op, o.ast, Join(toks[i].span, o.ast.span)), 2 + o.depth, j, m, limits)
          == Ok(q, j, m + 1)
    ensures Derives(toks, limits, Grammar.UnaryOf(op, co), q, i, j, nodes, m + 1, nesting)
  {
    hide *;
    DerivesEnds(toks, limits, co, o, i + 1, j, nodes, m, nesting + 1);
    DerivesParts(toks, limits, co, o, i + 1, j, nodes, m, nesting + 1);
    UnarySpells(toks, limits, op, co, o, q, i, j, nodes, m, nesting);
    PrefixKinds(op);
    SkipFirst(toks, i, j);
    UnaryLeaves(toks[i].span, op, o, q, j, m, limits);
    DerivesBoth(toks, limits, Grammar.UnaryOf(op, co), q, i, j, nodes, m + 1, nesting);
  }

  lemma PrefixKinds(op: S.UnaryOp)
    ensures !PrefixKind(op).StrTok?
  {
  }

  lemma UnaryLeaves(span: Span, op: S.UnaryOp, o: Parsed, q: Parsed, j: nat, m: nat, limits: ParseLimits)
    requires MakeExpression(Unary(op, o.ast, Join(span, o.ast.span)), 2 + o.depth, j, m, limits) == Ok(q, j, m + 1)
    ensures StringSpans(q.ast) == StringSpans(o.ast)
  {
  }

  lemma UnarySpells(
    toks: seq<Token>, limits: ParseLimits, op: S.UnaryOp, co: Cst, o: Parsed, q: Parsed,
    i: nat, j: nat, nodes: nat, m: nat, nesting: nat)
    requires i < |toks| && toks[i].kind == PrefixKind(op) && nesting < MAX_PARSE_RECURSION_DEPTH
    requires Spells(toks, limits, co, o, i + 1, j, nodes, m, nesting + 1) && Level(co) >= UNARY_LEVEL
    requires MakeExpression(Unary(op, o.ast, Join(toks[i].span, o.ast.span)), 2 + o.depth, j, m, limits)
          == Ok(q, j, m + 1)
    ensures Spells(toks, limits, Grammar.UnaryOf(op, co), q, i, j, nodes, m + 1, nesting)
  {
    hide *;
    UnaryLevel();
    SpellsParts(toks, limits, co, o, i + 1, j, nodes, m, nesting + 1);
    UnaryMeasures(limits, op, co, o, q, toks[i].span, j, nodes, m, nesting);
    UnaryAtJoin(toks, op, co, i);
    SpellsWhole(toks, limits, Grammar.UnaryOf(op, co), q, i, j, nodes, m + 1, nesting);
  }

  lemma UnaryMeasures(
    limits: ParseLimits, op: S.UnaryOp, co: Cst, o: Parsed, q: Parsed, span: Span, j: nat, nodes: nat, m: nat,
    nesting: nat)
    requires nesting < MAX_PARSE_RECURSION_DEPTH && Level(co) >= UNARY_LEVEL
    requires Fits(co) && Denotes(o, co) && Room(co, limits, nodes, nesting + 1) && m == nodes + S.Nodes(Abs(co))
    requires MakeExpression(Unary(op, o.ast, Join(span, o.ast.span)), 2 + o.depth, j, m, limits) == Ok(q, j, m + 1)
    ensures var c := Grammar.UnaryOf(op, co);
      Fits(c) && Denotes(q, c) && Room(c, limits, nodes, nesting) && m + 1 == nodes + S.Nodes(Abs(c))
  {
    assert Abs(Grammar.UnaryOf(op, co)) == S.Unary(op, Abs(co));
  }

  lemma UnaryAtJoin(toks: seq<Token>, op: S.UnaryOp, co: Cst, i: nat)
    requires i < |toks| && toks[i].kind == PrefixKind(op) && At(toks, i + 1, Spell(co))
    ensures var c := Grammar.UnaryOf(op, co); At(toks, i, Spell(c)) && |Spell(c)| == 1 + |Spell(co)|
  {
    hide PrefixKind;
    AtSplit(toks, i, [PrefixKind(op)], Spell(co));
  }

  lemma GroupDerives(
    toks: seq<Token>, limits: ParseLimits, c: Cst, q: Parsed, i: nat, j: nat, nodes: nat, n: nat, nesting: nat)
    requires i < |toks| && toks[i].kind == LParen && nesting < MAX_PARSE_RECURSION_DEPTH
    requires Derives(toks, limits, c, q, i + 1, j, nodes, n, nesting + 1)
    requires j < |toks| && toks[j].kind == RParen
    ensures Derives(toks, limits, Group(c), q, i, j + 1, nodes, n, nesting)
  {
    hide *;
    DerivesParts(toks, limits, c, q, i + 1, j, nodes, n, nesting + 1);
    GroupSpells(toks, limits, c, q, i, j, nodes, n, nesting);
    SkipFirst(toks, i, j + 1);
    SkipLast(toks, i + 1, j);
    DerivesBoth(toks, limits, Group(c), q, i, j + 1, nodes, n, nesting);
  }

  lemma GroupSpells(
    toks: seq<Token>, limits: ParseLimits, c: Cst, q: Parsed, i: nat, j: nat, nodes: nat, n: nat, nesting: nat)
    requires i < |toks| && toks[i].kind == LParen && nesting < MAX_PARSE_RECURSION_DEPTH
    requires Spells(toks, limits, c, q, i + 1, j, nodes, n, nesting + 1)
    requires j < |toks| && toks[j].kind == RParen
    ensures Spells(toks, limits, Group(c), q, i, j + 1, nodes, n, nesting)
  {
    hide *;
    SpellsParts(toks, limits, c, q, i + 1, j, nodes, n, nesting + 1);
    GroupMeasures(limits, c, q, nodes, n, nesting);
    GroupAtJoin(toks, c, i);
    SpellsWhole(toks, limits, Group(c), q, i, j + 1, nodes, n, nesting);
  }

  lemma GroupMeasures(limits: ParseLimits, c: Cst, q: Parsed, nodes: nat, n: nat, nesting: nat)
    requires nesting < MAX_PARSE_RECURSION_DEPTH
    requires Fits(c) && Denotes(q, c) && Room(c, limits, nodes, nesting + 1) && n == nodes + S.Nodes(Abs(c))
    ensures Fits(Group(c)) && Denotes(q, Group(c)) && Room(Group(c), limits, nodes, nesting)
    ensures n == nodes + S.Nodes(Abs(Group(c)))
  {
    assert Abs(Group(c)) == Abs(c);
  }

  lemma GroupAtJoin(toks: seq<Token>, c: Cst, i: nat)
    requires i + 1 + |Spell(c)| < |toks|
    requires toks[i].kind == LParen && At(toks, i + 1, Spell(c)) && toks[i + 1 + |Spell(c)|].kind == RParen
    ensures At(toks, i, Spell(Group(c))) && |Spell(Group(c))| == 2 + |Spell(c)|
  {
    hide *;
    GroupSpelling(c);
    Enclosed(toks, i, LParen, Spell(c), RParen);
  }

  lemma GroupSpelling(c: Cst)
    ensures Spell(Group(c)) == [LParen] + Spell(c) + [RParen]
  {
  }

  lemma Enclosed(toks: seq<Token>, i: nat, open: Kind, ks: seq<Kind>, close: Kind)
    requires i + 1 + |ks| < |toks|
    requires toks[i].kind == open && At(toks, i + 1, ks) && toks[i + 1 + |ks|].kind == close
    ensures At(toks, i, [open] + ks + [close])
  {
    hide *;
    OneAt(toks, i, open);
    OneAt(toks, i + 1 + |ks|, close);
    AtSplit3(toks, i, [open], ks, [close]);
  }

  lemma OneAt(toks: seq<Token>, i: nat, kind: Kind)
    requires i < |toks| && toks[i].kind == kind
    ensures At(toks, i, [kind])
  {
  }

  lemma DerivesParts(
    toks: seq<Token>, limits: ParseLimits, c: Cst, q: Parsed, i: nat, j: nat, nodes: nat, n: nat, nesting: nat)
    requires j <= |toks| && Derives(toks, limits, c, q, i, j, nodes, n, nesting)
    ensures Spells(toks, limits, c, q, i, j, nodes, n, nesting) && i < j
    ensures StringSpans(q.ast) == StringTokens(toks, i, j)
  {
  }

  lemma DerivesEnds(
    toks: seq<Token>, limits: ParseLimits, c: Cst, q: Parsed, i: nat, j: nat, nodes: nat, n: nat, nesting: nat)
    requires Derives(toks, limits, c, q, i, j, nodes, n, nesting)
    ensures j <= |toks|
  {
  }

  lemma MemberDerives(
    toks: seq<Token>, limits: ParseLimits, cr: Cst, r: Parsed, name: string, q: Parsed,
    i: nat, k: nat, nodes: nat, n: nat, nesting: nat)
    requires Derives(toks, limits, cr, r, i, k, nodes, n, nesting) && Level(cr) >= 8
    requires k + 1 < |toks| && toks[k].kind == Dot && toks[k + 1].kind == IdentTok(name)
    requires !S.IsReserved(name) && MakeMember(r, name, toks[k + 1].span, k + 2, n, limits) == Ok(q, k + 2, n + 1)
    ensures Derives(toks, limits, MemberOf(cr, name), q, i, k + 2, nodes, n + 1, nesting)
  {
    hide *;
    DerivesEnds(toks, limits, cr, r, i, k, nodes, n, nesting);
    DerivesParts(toks, limits, cr, r, i, k, nodes, n, nesting);
    MemberSpells(toks, limits, cr, r, name, q, i, k, nodes, n, nesting);
    MemberLeaves(r, name, toks[k + 1].span, q, k + 2, n, limits);
    SkipLast(toks, i, k);
    SkipLast(toks, i, k + 1);
    DerivesBoth(toks, limits, MemberOf(cr, name), q, i, k + 2, nodes, n + 1, nesting);
  }

  lemma MemberLeaves(r: Parsed, name: string, span: Span, q: Parsed, j: nat, n: nat, limits: ParseLimits)
    requires MakeMember(r, name, span, j, n, limits) == Ok(q, j, n + 1)
    ensures StringSpans(q.ast) == StringSpans(r.ast)
  {
  }

  lemma MemberSpells(
    toks: seq<Token>, limits: ParseLimits, cr: Cst, r: Parsed, name: string, q: Parsed,
    i: nat, k: nat, nodes: nat, n: nat, nesting: nat)
    requires Spells(toks, limits, cr, r, i, k, nodes, n, nesting) && Level(cr) >= 8
    requires k + 1 < |toks| && toks[k].kind == Dot && toks[k + 1].kind == IdentTok(name)
    requires !S.IsReserved(name) && MakeMember(r, name, toks[k + 1].span, k + 2, n, limits) == Ok(q, k + 2, n + 1)
    ensures Spells(toks, limits, MemberOf(cr, name), q, i, k + 2, nodes, n + 1, nesting)
  {
    var c := MemberOf(cr, name);
    assert Abs(c) == S.Member(Abs(cr), name);
    assert At(toks, i, Spell(c)) by { AtSplit(toks, i, Spell(cr), [Dot, IdentTok(name)]); }
  }

  lemma MethodDerives(
    toks: seq<Token>, limits: ParseLimits, cr: Cst, r: Parsed, name: string, cs: seq<Cst>, args: Items, q: Parsed,
    i: nat, k: nat, j: nat, nodes: nat, n: nat, m: nat, nesting: nat)
    requires Derives(toks, limits, cr, r, i, k, nodes, n, nesting) && Level(cr) >= 8 && !S.IsReserved(name)
    requires k + 2 < |toks| && toks[k].kind == Dot && toks[k + 1].kind == IdentTok(name) && toks[k + 2].kind == LParen
    requires DerivesAll(toks, limits, cs, args.list, args.depth, k + 3, j, n, m, nesting)
    requires j < |toks| && toks[j].kind == RParen
    requires MakeMethod(r, name, args, j + 1, m, limits) == Ok(q, j + 1, m + 1)
    ensures Derives(toks, limits, MethodOf(cr, name, cs), q, i, j + 1, nodes, m + 1, nesting)
  {
    hide *;
    MethodLeaves(r, name, args, q, j + 1, m, limits);
    DerivesParts(toks, limits, cr, r, i, k, nodes, n, nesting);
    DerivesAllParts(toks, limits, cs, args.list, args.depth, k + 3, j, n, m, nesting);
    MethodSpells(toks, limits, cr, r, name, cs, args, q, i, k, j, nodes, n, m, nesting);
    StringTokensJoin(toks, i, k, j + 1);
    SkipFirst(toks, k, j + 1);
    SkipFirst(toks, k + 1, j + 1);
    SkipFirst(toks, k + 2, j + 1);
    SkipLast(toks, k + 3, j);
    DerivesBoth(toks, limits, MethodOf(cr, name, cs), q, i, j + 1, nodes, m + 1, nesting);
  }

  lemma MethodLeaves(r: Parsed, name: string, args: Items, q: Parsed, j: nat, m: nat, limits: ParseLimits)
    requires MakeMethod(r, name, args, j, m, limits) == Ok(q, j, m + 1)
    ensures StringSpans(q.ast) == StringSpans(r.ast) + StringSpansAll(args.list)
  {
  }

  lemma DerivesAllParts(
    toks: seq<Token>, limits: ParseLimits, cs: seq<Cst>, list: seq<Ast>, depth: nat,
    i: nat, j: nat, nodes: nat, n: nat, nesting: nat)
    requires j <= |toks| && DerivesAll(toks, limits, cs, list, depth, i, j, nodes, n, nesting)
    ensures SpellsAll(toks, limits, cs, list, depth, i, j, nodes, n, nesting) && i <= j
    ensures StringSpansAll(list) == StringTokens(toks, i, j)
  {
  }

  lemma DerivesBoth(
    toks: seq<Token>, limits: ParseLimits, c: Cst, q: Parsed, i: nat, j: nat, nodes: nat, n: nat, nesting: nat)
    requires j <= |toks| && Spells(toks, limits, c, q, i, j, nodes, n, nesting)
    requires StringSpans(q.ast) == StringTokens(toks, i, j)
    ensures Derives(toks, limits, c, q, i, j, nodes, n, nesting)
  {
  }

  lemma MethodSpells(
    toks: seq<Token>, limits: ParseLimits, cr: Cst, r: Parsed, name: string, cs: seq<Cst>, args: Items, q: Parsed,
    i: nat, k: nat, j: nat, nodes: nat, n: nat, m: nat, nesting: nat)
    requires Spells(toks, limits, cr, r, i, k, nodes, n, nesting) && Level(cr) >= 8 && !S.IsReserved(name)
    requires k + 2 < |toks| && toks[k].kind == Dot && toks[k + 1].kind == IdentTok(name) && toks[k + 2].kind == LParen
    requires SpellsAll(toks, limits, cs, args.list, args.depth, k + 3, j, n, m, nesting)
    requires j < |toks| && toks[j].kind == RParen
    requires MakeMethod(r, name, args, j + 1, m, limits) == Ok(q, j + 1, m + 1)
    ensures Spells(toks, limits, MethodOf(cr, name, cs), q, i, j + 1, nodes, m + 1, nesting)
  {
    var c := MethodOf(cr, name, cs);
    assert Abs(c) == S.Method(Abs(cr), name, AbsAll(cs));
    MethodAtJoin(toks, c, i);
  }

  lemma MethodAtJoin(toks: seq<Token>, c: Cst, i: nat)
    requires c.MethodOf? && At(toks, i, Spell(c.receiver))
    requires var k := i + |Spell(c.receiver)|;
      && k + 3 + |SpellAll(c.args)| < |toks|
      && toks[k].kind == Dot && toks[k + 1].kind == IdentTok(c.name) && toks[k + 2].kind == LParen
      && At(toks, k + 3, SpellAll(c.args)) && toks[k + 3 + |SpellAll(c.args)|].kind == RParen
    ensures At(toks, i, Spell(c)) && |Spell(c)| == |Spell(c.receiver)| + 3 + |SpellAll(c.args)| + 1
  {
    hide SpellAll;
    var head := [Dot, IdentTok(c.name), LParen];
    assert At(toks, i + |Spell(c.receiver)|, head);
    AtSplit4(toks, i, Spell(c.receiver), head, SpellAll(c.args), [RParen]);
  }

  lemma CallDerives(
    toks: seq<Token>, limits: ParseLimits, name: string, cs: seq<Cst>, args: Items, q: Parsed,
    i: nat, j: nat, nodes: nat, m: nat, nesting: nat)
    requires i + 1 < |toks| && toks[i].kind == IdentTok(name) && toks[i + 1].kind == LParen && !S.IsReserved(name)
    requires DerivesAll(toks, limits, cs, args.list, args.depth, i + 2, j, nodes, m, nesting)
    requires j < |toks| && toks[j].kind == RParen
    requires MakeExpression(Call(name, args.list, Join(toks[i].span, args.end)), 3 + args.depth, j + 1, m, limits)
          == Ok(q, j + 1, m + 1)
    ensures Derives(toks, limits, CallOf(name, cs), q, i, j + 1, nodes, m + 1, nesting)
  {
    hide *;
    DerivesAllParts(toks, limits, cs, args.list, args.depth, i + 2, j, nodes, m, nesting);
    CallSpells(toks, limits, name, cs, args, q, i, j, nodes, m, nesting);
    MadeIs(Call(name, args.list, Join(toks[i].span, args.end)), 3 + args.depth, j + 1, m, limits, q);
    CallLeaves(q.ast);
    SkipFirst(toks, i, j + 1);
    SkipFirst(toks, i + 1, j + 1);
    SkipLast(toks, i + 2, j);
    DerivesBoth(toks, limits, CallOf(name, cs), q, i, j + 1, nodes, m + 1, nesting);
  }

  lemma CallSpells(
    toks: seq<Token>, limits: ParseLimits, name: string, cs: seq<Cst>, args: Items, q: Parsed,
    i: nat, j: nat, nodes: nat, m: nat, nesting: nat)
    requires i + 1 < |toks| && toks[i].kind == IdentTok(name) && toks[i + 1].kind == LParen && !S.IsReserved(name)
    requires SpellsAll(toks, limits, cs, args.list, args.depth, i + 2, j, nodes, m, nesting)
    requires j < |toks| && toks[j].kind == RParen
    requires MakeExpression(Call(name, args.list, Join(toks[i].span, args.end)), 3 + args.depth, j + 1, m, limits)
          == Ok(q, j + 1, m + 1)
    ensures Spells(toks, limits, CallOf(name, cs), q, i, j + 1, nodes, m + 1, nesting)
  {
    var c := CallOf(name, cs);
    assert Abs(c) == S.Call(name, AbsAll(cs));
    assert At(toks, i, Spell(c)) by {
      AtSplit3(toks, i, [IdentTok(name), LParen], SpellAll(cs), [RParen]);
    }
  }

  lemma ListDerives(
    toks: seq<Token>, limits: ParseLimits, cs: seq<Cst>, list: seq<Ast>, depth: nat, span: Span, q: Parsed,
    i: nat, j: nat, nodes: nat, m: nat, nesting: nat)
    requires i < |toks| && toks[i].kind == LBracket
    requires DerivesAll(toks, limits, cs, list, depth, i + 1, j, nodes, m, nesting)
    requires j < |toks| && toks[j].kind == RBracket
    requires MakeExpression(Array(list, span), 3 + depth, j + 1, m, limits) == Ok(q, j + 1, m + 1)
    ensures Derives(toks, limits, ListOf(cs), q, i, j + 1, nodes, m + 1, nesting)
  {
    hide *;
    DerivesAllParts(toks, limits, cs, list, depth, i + 1, j, nodes, m, nesting);
    ListSpells(toks, limits, cs, list, depth, span, q, i, j, nodes, m, nesting);
    MadeIs(Array(list, span), 3 + depth, j + 1, m, limits, q);
    ListLeaves(q.ast);
    SkipFirst(toks, i, j + 1);
    SkipLast(toks, i + 1, j);
    DerivesBoth(toks, limits, ListOf(cs), q, i, j + 1, nodes, m + 1, nesting);
  }

  lemma MadeIs(ast: Ast, depth: nat, j: nat, m: nat, limits: ParseLimits, q: Parsed)
    requires MakeExpression(ast, depth, j, m, limits) == Ok(q, j, m + 1)
    ensures q.ast == ast
  {
  }

  lemma CallLeaves(ast: Ast)
    requires ast.Call?
    ensures StringSpans(ast) == StringSpansAll(ast.args)
  {
  }

  lemma ListLeaves(ast: Ast)
    requires ast.Array?
    ensures StringSpans(ast) == StringSpansAll(ast.items)
  {
  }

  lemma ListSpells(
    toks: seq<Token>, limits: ParseLimits, cs: seq<Cst>, list: seq<Ast>, depth: nat, span: Span, q: Parsed,
    i: nat, j: nat, nodes: nat, m: nat, nesting: nat)
    requires i < |toks| && toks[i].kind == LBracket
    requires SpellsAll(toks, limits, cs, list, depth, i + 1, j, nodes, m, nesting)
    requires j < |toks| && toks[j].kind == RBracket
    requires MakeExpression(Array(list, span), 3 + depth, j + 1, m, limits) == Ok(q, j + 1, m + 1)
    ensures Spells(toks, limits, ListOf(cs), q, i, j + 1, nodes, m + 1, nesting)
  {
    var c := ListOf(cs);
    assert Abs(c) == S.Array(AbsAll(cs));
    assert At(toks, i, Spell(c)) by { Enclosed(toks, i, LBracket, SpellAll(cs), RBracket); }
  }

  lemma LeafDerives(toks: seq<Token>, limits: ParseLimits, i: nat, nodes: nat, nesting: nat, q: Parsed, n: nat)
    requires i < |toks| && nesting <= MAX_PARSE_RECURSION_DEPTH
    requires toks[i].kind.IdentTok? ==> !S.IsReserved(toks[i].kind.name)
    requires ParseLeaf(toks[i], i + 1, nodes, limits) == Ok(q, i + 1, n)
    ensures Derives(toks, limits, Leaf(toks[i].kind), q, i, i + 1, nodes, n, nesting)
  {
    assert StringTokens(toks, i, i) == [];
  }

  lemma NoneDerives(toks: seq<Token>, limits: ParseLimits, i: nat, nodes: nat, nesting: nat)
    requires i <= |toks| && nesting <= MAX_PARSE_RECURSION_DEPTH
    ensures DerivesAll(toks, limits, [], [], 0, i, i, nodes, nodes, nesting)
  {
  }

  /** The last item of a list. */
  lemma LastDerives(
    toks: seq<Token>, limits: ParseLimits, c: Cst, q: Parsed, i: nat, j: nat, nodes: nat, n: nat, nesting: nat)
    requires Derives(toks, limits, c, q, i, j, nodes, n, nesting + 1) && limits.maxCollectionItems >= 1
    ensures DerivesAll(toks, limits, [c], [q.ast], q.depth, i, j, nodes, n, nesting)
  {
    assert [c][1..] == [] && [q.ast][1..] == [];
    var es := AbsAll([c]);
    assert es == [Abs(c)] && es[1..] == [];
  }

  /** One more item in front of a list. */
  lemma MoreDerives(
    toks: seq<Token>, limits: ParseLimits, c: Cst, q: Parsed, cs: seq<Cst>, list: seq<Ast>, depth: nat,
    i: nat, k: nat, j: nat, nodes: nat, n: nat, m: nat, nesting: nat)
    requires Derives(toks, limits, c, q, i, k, nodes, n, nesting + 1)
    requires cs != [] && k < |toks| && toks[k].kind == Comma && |cs| < limits.maxCollectionItems
    requires DerivesAll(toks, limits, cs, list, depth, k + 1, j, n, m, nesting)
    ensures DerivesAll(toks, limits, [c] + cs, [q.ast] + list, S.Max(q.depth, depth), i, j, nodes, m, nesting)
  {
    hide *;
    DerivesEnds(toks, limits, c, q, i, k, nodes, n, nesting + 1);
    DerivesParts(toks, limits, c, q, i, k, nodes, n, nesting + 1);
    DerivesAllEnds(toks, limits, cs, list, depth, k + 1, j, n, m, nesting);
    DerivesAllParts(toks, limits, cs, list, depth, k + 1, j, n, m, nesting);
    MoreSpells(toks, limits, c, q, cs, list, depth, i, k, j, nodes, n, m, nesting);
    SkipToken(toks, i, k, j);
    MoreLeaves(q.ast, list);
    DerivesAllBoth(toks, limits, [c] + cs, [q.ast] + list, S.Max(q.depth, depth), i, j, nodes, m, nesting);
  }

  lemma DerivesAllEnds(
    toks: seq<Token>, limits: ParseLimits, cs: seq<Cst>, list: seq<Ast>, depth: nat,
    i: nat, j: nat, nodes: nat, n: nat, nesting: nat)
    requires DerivesAll(toks, limits, cs, list, depth, i, j, nodes, n, nesting)
    ensures j <= |toks|
    ensures cs != [] ==> i < j
  {
  }

  lemma MoreLeaves(first: Ast, list: seq<Ast>)
    ensures StringSpansAll([first] + list) == StringSpans(first) + StringSpansAll(list)
  {
    assert ([first] + list)[1..] == list;
  }

  lemma DerivesAllBoth(
    toks: seq<Token>, limits: ParseLimits, cs: seq<Cst>, list: seq<Ast>, depth: nat,
    i: nat, j: nat, nodes: nat, n: nat, nesting: nat)
    requires j <= |toks| && SpellsAll(toks, limits, cs, list, depth, i, j, nodes, n, nesting)
    requires StringSpansAll(list) == StringTokens(toks, i, j)
    ensures DerivesAll(toks, limits, cs, list, depth, i, j, nodes, n, nesting)
  {
  }

  lemma MoreSpells(
    toks: seq<Token>, limits: ParseLimits, c: Cst, q: Parsed, cs: seq<Cst>, list: seq<Ast>, depth: nat,
    i: nat, k: nat, j: nat, nodes: nat, n: nat, m: nat, nesting: nat)
    requires Spells(toks, limits, c, q, i, k, nodes, n, nesting + 1)
    requires cs != [] && k < |toks| && toks[k].kind == Comma && |cs| < limits.maxCollectionItems
    requires SpellsAll(toks, limits, cs, list, depth, k + 1, j, n, m, nesting)
    ensures SpellsAll(toks, limits, [c] + cs, [q.ast] + list, S.Max(q.depth, depth), i, j, nodes, m, nesting)
  {
    var all := [c] + cs;
    assert all[1..] == cs && ([q.ast] + list)[1..] == list;
    var es := AbsAll(all);
    assert es == [Abs(c)] + AbsAll(cs) && es[1..] == AbsAll(cs);
    ItemsAtJoin(toks, c, cs, i);
  }

  lemma ItemsAtJoin(toks: seq<Token>, c: Cst, cs: seq<Cst>, i: nat)
    requires cs != [] && At(toks, i, Spell(c))
    requires var k := i + |Spell(c)|;
      k < |toks| && toks[k].kind == Comma && At(toks, k + 1, SpellAll(cs))
    ensures At(toks, i, SpellAll([c] + cs)) && |SpellAll([c] + cs)| == |Spell(c)| + 1 + |SpellAll(cs)|
  {
    hide Spell;
    assert ([c] + cs)[1..] == cs;
    AtSplit3(toks, i, Spell(c), [Comma], SpellAll(cs));
  }

  // ----- the induction over runs of the parser -----

  lemma {:induction false} LevelSound(
    toks: seq<Token>, limits: ParseLimits, level: nat, i: nat, nodes: nat, nesting: nat)
    returns (c: Cst)
    requires EndsWithEof(toks) && i < |toks| && 1 <= level <= UNARY_LEVEL && nesting <= MAX_PARSE_RECURSION_DEPTH
    requires ParseLevel(toks, limits, level, i, nodes, nesting).Ok?
    ensures var r := ParseLevel(toks, limits, level, i, nodes, nesting);
      Derives(toks, limits, c, r.value, i, r.pos, nodes, r.nodes, nesting) && Level(c) >= level
    decreases |toks| - i, 20 - level
  {
    hide *;
    UnaryLevel();
    var first := LevelInverts(toks, limits, level, i, nodes, nesting);
    if level == UNARY_LEVEL {
      c := UnarySound(toks, limits, i, nodes, nesting);
    } else {
      c := LevelSound(toks, limits, level + 1, i, nodes, nesting);
    }
    c := LoopSound(toks, limits, level, c, first.value, i, first.pos, nodes, first.nodes, nesting);
  }

  lemma LevelInverts(toks: seq<Token>, limits: ParseLimits, level: nat, i: nat, nodes: nat, nesting: nat)
    returns (first: Res<Parsed>)
    requires EndsWithEof(toks) && i < |toks| && 1 <= level <= UNARY_LEVEL
    requires ParseLevel(toks, limits, level, i, nodes, nesting).Ok?
    ensures first == if level == UNARY_LEVEL then ParseUnary(toks, limits, i, nodes, nesting)
                     else ParseLevel(toks, limits, level + 1, i, nodes, nesting)
    ensures first.Ok? && i < first.pos < |toks|
    ensures ParseLevel(toks, limits, level, i, nodes, nesting)
         == ParseLoop(toks, limits, level, first.value, first.pos, first.nodes, nesting)
  {
    hide ParseUnary, ParseLoop;
    first := if level == UNARY_LEVEL then ParseUnary(toks, limits, i, nodes, nesting)
             else ParseLevel(toks, limits, level + 1, i, nodes, nesting);
  }

  lemma {:induction false} LoopSound(
    toks: seq<Token>, limits: ParseLimits, level: nat, cl: Cst, left: Parsed,
    i: nat, k: nat, nodes: nat, n: nat, nesting: nat)
    returns (c: Cst)
    requires EndsWithEof(toks) && i < k < |toks| && 1 <= level <= UNARY_LEVEL && nesting <= MAX_PARSE_RECURSION_DEPTH
    requires Derives(toks, limits, cl, left, i, k, nodes, n, nesting) && Level(cl) >= level
    requires ParseLoop(toks, limits, level, left, k, n, nesting).Ok?
    ensures var r := ParseLoop(toks, limits, level, left, k, n, nesting);
      Derives(toks, limits, c, r.value, i, r.pos, nodes, r.nodes, nesting) && Level(c) >= level
    decreases |toks| - k, 25
  {
    hide *;
    var op := OpAt(level, toks[k].kind);
    if op == None {
      LoopEnds(toks, limits, level, left, k, n, nesting);
      c := cl;
    } else {
      var right, both := LoopInverts(toks, limits, level, left, op.value, k, n, nesting);
      OpAtInverts(level, toks[k].kind);
      UnaryLevel();
      var cr := LevelSound(toks, limits, level + 1, k + 1, n, nesting);
      BinaryDerives(toks, limits, cl, left, op.value, cr, right.value, both.value,
                    i, k, right.pos, nodes, n, right.nodes, nesting);
      BinaryLevel(cl, op.value, cr);
      c := LoopSound(toks, limits, level, BinaryOf(cl, op.value, cr), both.value,
                     i, both.pos, nodes, both.nodes, nesting);
    }
  }

  lemma LoopEnds(
    toks: seq<Token>, limits: ParseLimits, level: nat, left: Parsed, k: nat, n: nat, nesting: nat)
    requires EndsWithEof(toks) && k < |toks| && 1 <= level <= UNARY_LEVEL && OpAt(level, toks[k].kind) == None
    ensures ParseLoop(toks, limits, level, left, k, n, nesting) == Ok(left, k, n)
  {
    hide ParseLevel;
  }

  lemma BinaryLevel(cl: Cst, op: S.BinaryOp, cr: Cst)
    ensures Level(BinaryOf(cl, op, cr)) == Rung(op)
  {
  }

  lemma LoopInverts(
    toks: seq<Token>, limits: ParseLimits, level: nat, left: Parsed, op: S.BinaryOp, k: nat, n: nat, nesting: nat)
    returns (right: Res<Parsed>, both: Res<Parsed>)
    requires EndsWithEof(toks) && k < |toks| && 1 <= level <= UNARY_LEVEL
    requires OpAt(level, toks[k].kind) == Some(op) && ParseLoop(toks, limits, level, left, k, n, nesting).Ok?
    ensures level < UNARY_LEVEL && k + 1 < |toks|
    ensures right == ParseLevel(toks, limits, level + 1, k + 1, n, nesting)
    ensures right.Ok? && k + 1 < right.pos < |toks|
    ensures both == MakeBinary(left, op, right.value, right.pos, right.nodes, limits)
    ensures both.Ok? && both.pos == right.pos && both.nodes == right.nodes + 1
    ensures ParseLoop(toks, limits, level, left, k, n, nesting)
         == ParseLoop(toks, limits, level, both.value, both.pos, both.nodes, nesting)
  {
    right := ParseLevel(toks, limits, level + 1, k + 1, n, nesting);
    both := MakeBinary(left, op, right.value, right.pos, right.nodes, limits);
  }

  lemma OpAtInverts(level: nat, kind: Kind)
    ensures var op := OpAt(level, kind);
      op.Some? ==> kind == OpKind(op.value) && Rung(op.value) == level < UNARY_LEVEL
  {
  }

  lemma {:induction false} UnarySound(toks: seq<Token>, limits: ParseLimits, i: nat, nodes: nat, nesting: nat)
    returns (c: Cst)
    requires EndsWithEof(toks) && i < |toks| && nesting <= MAX_PARSE_RECURSION_DEPTH
    requires ParseUnary(toks, limits, i, nodes, nesting).Ok?
    ensures var r := ParseUnary(toks, limits, i, nodes, nesting);
      Derives(toks, limits, c, r.value, i, r.pos, nodes, r.nodes, nesting) && Level(c) >= UNARY_LEVEL
    decreases |toks| - i, 12
  {
    hide *;
    UnaryInverts(toks, limits, i, nodes, nesting);
    match ParseSpec.UnaryOf(toks[i].kind)
    case None =>
      c := PostfixSound(toks, limits, i, nodes, nesting);
      UnaryLevel();
    case Some(op) =>
      var r := ParseUnary(toks, limits, i, nodes, nesting);
      var inner := ParseUnary(toks, limits, i + 1, nodes, nesting + 1);
      UnaryAtLevel(op);
      var co := UnarySound(toks, limits, i + 1, nodes, nesting + 1);
      UnaryDerives(toks, limits, op, co, inner.value, r.value, i, inner.pos, nodes, inner.nodes, nesting);
      c := Grammar.UnaryOf(op, co);
  }

  lemma UnaryAtLevel(op: S.UnaryOp)
    ensures forall co :: Level(Grammar.UnaryOf(op, co)) == UNARY_LEVEL
  {
  }

  lemma UnaryInverts(toks: seq<Token>, limits: ParseLimits, i: nat, nodes: nat, nesting: nat)
    requires EndsWithEof(toks) && i < |toks| && ParseUnary(toks, limits, i, nodes, nesting).Ok?
    ensures match ParseSpec.UnaryOf(toks[i].kind)
      case None => ParseUnary(toks, limits, i, nodes, nesting) == ParsePostfix(toks, limits, i, nodes, nesting)
      case Some(op) =>
        && toks[i].kind == PrefixKind(op) && i + 1 < |toks| && nesting < MAX_PARSE_RECURSION_DEPTH
        && var r, inner := ParseUnary(toks, limits, i, nodes, nesting), ParseUnary(toks, limits, i + 1, nodes, nesting + 1);
          && inner.Ok? && i + 1 < inner.pos < |toks| && r == Ok(r.value, inner.pos, inner.nodes + 1)
          && r == MakeExpression(
               Unary(op, inner.value.ast, Join(toks[i].span, inner.value.ast.span)), 2 + inner.value.depth,
               inner.pos, inner.nodes, limits)
  {
    hide ParsePostfix;
  }

  lemma {:induction false} PostfixSound(toks: seq<Token>, limits: ParseLimits, i: nat, nodes: nat, nesting: nat)
    returns (c: Cst)
    requires EndsWithEof(toks) && i < |toks| && nesting <= MAX_PARSE_RECURSION_DEPTH
    requires ParsePostfix(toks, limits, i, nodes, nesting).Ok?
    ensures var r := ParsePostfix(toks, limits, i, nodes, nesting);
      Derives(toks, limits, c, r.value, i, r.pos, nodes, r.nodes, nesting) && Level(c) >= 8
    decreases |toks| - i, 11
  {
    hide *;
    var first := PostfixInverts(toks, limits, i, nodes, nesting);
    c := PrimarySound(toks, limits, i, nodes, nesting);
    c := SuffixesSound(toks, limits, c, first.value, i, first.pos, nodes, first.nodes, nesting);
  }

  lemma PostfixInverts(toks: seq<Token>, limits: ParseLimits, i: nat, nodes: nat, nesting: nat)
    returns (first: Res<Parsed>)
    requires EndsWithEof(toks) && i < |toks| && ParsePostfix(toks, limits, i, nodes, nesting).Ok?
    ensures first == ParsePrimary(toks, limits, i, nodes, nesting) && first.Ok? && i < first.pos < |toks|
    ensures ParsePostfix(toks, limits, i, nodes, nesting)
         == PostfixLoop(toks, limits, first.value, first.pos, first.nodes, nesting)
  {
    hide ParsePrimary, PostfixLoop;
    first := ParsePrimary(toks, limits, i, nodes, nesting);
  }

  lemma {:induction false} SuffixesSound(
    toks: seq<Token>, limits: ParseLimits, cr: Cst, receiver: Parsed,
    i: nat, k: nat, nodes: nat, n: nat, nesting: nat)
    returns (c: Cst)
    requires EndsWithEof(toks) && i < k < |toks| && nesting <= MAX_PARSE_RECURSION_DEPTH
    requires Derives(toks, limits, cr, receiver, i, k, nodes, n, nesting) && Level(cr) >= 8
    requires PostfixLoop(toks, limits, receiver, k, n, nesting).Ok?
    ensures var r := PostfixLoop(toks, limits, receiver, k, n, nesting);
      Derives(toks, limits, c, r.value, i, r.pos, nodes, r.nodes, nesting) && Level(c) >= 8
    decreases |toks| - k, 10
  {
    hide *;
    SuffixesInvert(toks, limits, receiver, k, n, nesting);
    if toks[k].kind != Dot {
      c := cr;
    } else {
      var longer := PostfixOne(toks, limits, receiver, k, n, nesting);
      var cs := SuffixSound(toks, limits, cr, receiver, i, k, nodes, n, nesting);
      c := SuffixesSound(toks, limits, cs, longer.value, i, longer.pos, nodes, longer.nodes, nesting);
    }
  }

  lemma SuffixesInvert(toks: seq<Token>, limits: ParseLimits, receiver: Parsed, k: nat, n: nat, nesting: nat)
    requires EndsWithEof(toks) && k < |toks| && PostfixLoop(toks, limits, receiver, k, n, nesting).Ok?
    ensures toks[k].kind != Dot ==> PostfixLoop(toks, limits, receiver, k, n, nesting) == Ok(receiver, k, n)
    ensures toks[k].kind == Dot ==>
      var longer := PostfixOne(toks, limits, receiver, k, n, nesting);
      && longer.Ok? && k < longer.pos < |toks|
      && PostfixLoop(toks, limits, receiver, k, n, nesting)
         == PostfixLoop(toks, limits, longer.value, longer.pos, longer.nodes, nesting)
  {
    hide PostfixOne;
  }

  lemma {:induction false} SuffixSound(
    toks: seq<Token>, limits: ParseLimits, cr: Cst, receiver: Parsed,
    i: nat, k: nat, nodes: nat, n: nat, nesting: nat)
    returns (c: Cst)
    requires EndsWithEof(toks) && i < k < |toks| && nesting <= MAX_PARSE_RECURSION_DEPTH
    requires Derives(toks, limits, cr, receiver, i, k, nodes, n, nesting) && Level(cr) >= 8
    requires toks[k].kind == Dot && PostfixOne(toks, limits, receiver, k, n, nesting).Ok?
    ensures var r := PostfixOne(toks, limits, receiver, k, n, nesting);
      Derives(toks, limits, c, r.value, i, r.pos, nodes, r.nodes, nesting) && Level(c) >= 8
    decreases |toks| - k, 9
  {
    hide *;
    var r := PostfixOne(toks, limits, receiver, k, n, nesting);
    var name := SuffixInverts(toks, limits, receiver, k, n, nesting);
    if toks[k + 2].kind == LParen {
      var args := ParseCallArgs(toks, limits, k + 3, n, nesting);
      var cs := ArgsSound(toks, limits, k + 3, n, nesting);
      MethodDerives(toks, limits, cr, receiver, name, cs, args.value, r.value,
                    i, k, args.pos - 1, nodes, n, args.nodes, nesting);
      c := MethodOf(cr, name, cs);
    } else {
      MemberDerives(toks, limits, cr, receiver, name, r.value, i, k, nodes, n, nesting);
      c := MemberOf(cr, name);
    }
    SuffixLevel(c);
  }

  lemma SuffixInverts(toks: seq<Token>, limits: ParseLimits, receiver: Parsed, k: nat, n: nat, nesting: nat)
    returns (name: string)
    requires EndsWithEof(toks) && k < |toks| && toks[k].kind == Dot
    requires PostfixOne(toks, limits, receiver, k, n, nesting).Ok?
    ensures k + 2 < |toks| && toks[k + 1].kind == IdentTok(name) && !S.IsReserved(name)
    ensures var r := PostfixOne(toks, limits, receiver, k, n, nesting);
      if toks[k + 2].kind == LParen then
        && k + 3 < |toks|
        && var args := ParseCallArgs(toks, limits, k + 3, n, nesting);
          && args.Ok? && k + 3 < args.pos < |toks| && r.pos == args.pos && r.nodes == args.nodes + 1
          && r == MakeMethod(receiver, name, args.value, args.pos, args.nodes, limits)
      else
        && r == MakeMember(receiver, name, toks[k + 1].span, k + 2, n, limits)
        && r.pos == k + 2 && r.nodes == n + 1
  {
    assert toks[k + 1].kind.IdentTok?;
    name := toks[k + 1].kind.name;
    assert ExpectIdentifier(toks, k + 1, n) == Ok(name, k + 2, n);
  }

  lemma SuffixLevel(c: Cst)
    requires c.MemberOf? || c.MethodOf?
    ensures Level(c) == 8
  {
  }

  lemma {:induction false} PrimarySound(toks: seq<Token>, limits: ParseLimits, i: nat, nodes: nat, nesting: nat)
    returns (c: Cst)
    requires EndsWithEof(toks) && i < |toks| && nesting <= MAX_PARSE_RECURSION_DEPTH
    requires ParsePrimary(toks, limits, i, nodes, nesting).Ok?
    ensures var r := ParsePrimary(toks, limits, i, nodes, nesting);
      Derives(toks, limits, c, r.value, i, r.pos, nodes, r.nodes, nesting) && Level(c) == 9
    decreases |toks| - i, 9
  {
    hide *;
    PrimaryCases(toks, limits, i, nodes, nesting);
    var r := ParsePrimary(toks, limits, i, nodes, nesting);
    var kind := toks[i].kind;
    if kind.LParen? {
      UnaryLevel();
      var inner := ParseLevel(toks, limits, 1, i + 1, nodes, nesting + 1);
      c := LevelSound(toks, limits, 1, i + 1, nodes, nesting + 1);
      GroupDerives(toks, limits, c, inner.value, i, inner.pos, nodes, inner.nodes, nesting);
      c := Group(c);
      PrimaryLevel(c);
    } else if kind.LBracket? {
      c := ArraySound(toks, limits, i, nodes, nesting);
    } else if kind.IdentTok? && toks[i + 1].kind == LParen {
      c := CallSound(toks, limits, i, nodes, nesting);
    } else {
      LeafDerives(toks, limits, i, nodes, nesting, r.value, r.nodes);
      c := Leaf(kind);
      PrimaryLevel(c);
    }
  }

  lemma PrimaryCases(toks: seq<Token>, limits: ParseLimits, i: nat, nodes: nat, nesting: nat)
    requires EndsWithEof(toks) && i < |toks| && ParsePrimary(toks, limits, i, nodes, nesting).Ok?
    ensures i + 1 < |toks| && (toks[i].kind.IdentTok? ==> !S.IsReserved(toks[i].kind.name))
    ensures var r, kind := ParsePrimary(toks, limits, i, nodes, nesting), toks[i].kind;
      if kind.LParen? then
        && nesting < MAX_PARSE_RECURSION_DEPTH
        && var inner := ParseLevel(toks, limits, 1, i + 1, nodes, nesting + 1);
          && inner.Ok? && i + 1 < inner.pos < |toks| && toks[inner.pos].kind == RParen
          && r == Ok(inner.value, inner.pos + 1, inner.nodes)
      else if kind.LBracket? then r == ParseArray(toks, limits, i + 1, toks[i].span, nodes, nesting)
      else if kind.IdentTok? && toks[i + 1].kind == LParen then true
      else r == ParseLeaf(toks[i], i + 1, nodes, limits) == Ok(r.value, i + 1, r.nodes)
  {
    hide ParseLevel, ParseArray, ParseCallArgs;
  }

  lemma PrimaryLevel(c: Cst)
    requires c.Leaf? || c.Group? || c.ListOf? || c.CallOf?
    ensures Level(c) == 9
  {
  }

  lemma {:induction false} CallSound(toks: seq<Token>, limits: ParseLimits, i: nat, nodes: nat, nesting: nat)
    returns (c: Cst)
    requires EndsWithEof(toks) && i + 1 < |toks| && nesting <= MAX_PARSE_RECURSION_DEPTH
    requires toks[i].kind.IdentTok? && toks[i + 1].kind == LParen
    requires ParsePrimary(toks, limits, i, nodes, nesting).Ok?
    ensures var r := ParsePrimary(toks, limits, i, nodes, nesting);
      Derives(toks, limits, c, r.value, i, r.pos, nodes, r.nodes, nesting) && Level(c) == 9
    decreases |toks| - i, 8
  {
    hide *;
    CallInverts(toks, limits, i, nodes, nesting);
    var r := ParsePrimary(toks, limits, i, nodes, nesting);
    var name := toks[i].kind.name;
    var args := ParseCallArgs(toks, limits, i + 2, nodes, nesting);
    var cs := ArgsSound(toks, limits, i + 2, nodes, nesting);
    CallDerives(toks, limits, name, cs, args.value, r.value, i, args.pos - 1, nodes, args.nodes, nesting);
    c := CallOf(name, cs);
    PrimaryLevel(c);
  }

  lemma CallInverts(toks: seq<Token>, limits: ParseLimits, i: nat, nodes: nat, nesting: nat)
    requires EndsWithEof(toks) && i + 1 < |toks| && toks[i].kind.IdentTok? && toks[i + 1].kind == LParen
    requires ParsePrimary(toks, limits, i, nodes, nesting).Ok?
    ensures !S.IsReserved(toks[i].kind.name) && i + 2 < |toks|
    ensures var r, args := ParsePrimary(toks, limits, i, nodes, nesting), ParseCallArgs(toks, limits, i + 2, nodes, nesting);
      && args.Ok? && i + 2 < args.pos < |toks| && r == Ok(r.value, args.pos, args.nodes + 1)
      && r == MakeExpression(
           Call(toks[i].kind.name, args.value.list, Join(toks[i].span, args.value.end)), 3 + args.value.depth,
           args.pos, args.nodes, limits)
  {
    hide ParseLevel, ParseArray, ParseCallArgs;
  }

  lemma {:induction false} ArraySound(toks: seq<Token>, limits: ParseLimits, i: nat, nodes: nat, nesting: nat)
    returns (c: Cst)
    requires EndsWithEof(toks) && i + 1 < |toks| && nesting <= MAX_PARSE_RECURSION_DEPTH && toks[i].kind == LBracket
    requires ParseArray(toks, limits, i + 1, toks[i].span, nodes, nesting).Ok?
    ensures var r := ParseArray(toks, limits, i + 1, toks[i].span, nodes, nesting);
      Derives(toks, limits, c, r.value, i, r.pos, nodes, r.nodes, nesting) && Level(c) == 9
    decreases |toks| - i - 1, 40
  {
    hide *;
    var start := toks[i].span;
    var r := ParseArray(toks, limits, i + 1, start, nodes, nesting);
    ArrayCases(toks, limits, i, nodes, nesting);
    if toks[i + 1].kind == RBracket {
      NoneDerives(toks, limits, i + 1, nodes, nesting);
      ListDerives(toks, limits, [], [], 0, Join(start, toks[i + 1].span), r.value, i, i + 1, nodes, nodes, nesting);
      c := ListOf([]);
    } else {
      var items := ParseItems(toks, limits, InArray(start), [], 0, i + 1, nodes, nesting);
      ListingCloses(InArray(start));
      var cs, list := ItemsSound(toks, limits, InArray(start), [], 0, i + 1, nodes, nesting);
      NoneDone(S.SerialDepthAll(AbsAll(cs)));
      assert [] + list == list;
      ListDerives(toks, limits, cs, list, items.value.depth, Join(start, items.value.end), r.value,
                  i, items.pos - 1, nodes, items.nodes, nesting);
      c := ListOf(cs);
    }
    PrimaryLevel(c);
  }

  lemma ArrayCases(toks: seq<Token>, limits: ParseLimits, i: nat, nodes: nat, nesting: nat)
    requires EndsWithEof(toks) && i + 1 < |toks| && ParseArray(toks, limits, i + 1, toks[i].span, nodes, nesting).Ok?
    ensures var r, start := ParseArray(toks, limits, i + 1, toks[i].span, nodes, nesting), toks[i].span;
      if toks[i + 1].kind == RBracket then
        r == MakeExpression(Array([], Join(start, toks[i + 1].span)), 3 + 0, i + 2, nodes, limits)
        && r == Ok(r.value, i + 2, nodes + 1)
      else
        var items := ParseItems(toks, limits, InArray(start), [], 0, i + 1, nodes, nesting);
        && items.Ok?
        && r == MakeExpression(
             Array(items.value.list, Join(start, items.value.end)), 3 + items.value.depth, items.pos, items.nodes, limits)
        && r == Ok(r.value, items.pos, items.nodes + 1)
  {
    hide ParseItems;
  }

  lemma {:induction false} ArgsSound(toks: seq<Token>, limits: ParseLimits, i: nat, nodes: nat, nesting: nat)
    returns (cs: seq<Cst>)
    requires EndsWithEof(toks) && i < |toks| && nesting <= MAX_PARSE_RECURSION_DEPTH
    requires ParseCallArgs(toks, limits, i, nodes, nesting).Ok?
    ensures var r := ParseCallArgs(toks, limits, i, nodes, nesting);
      && DerivesAll(toks, limits, cs, r.value.list, r.value.depth, i, r.pos - 1, nodes, r.nodes, nesting)
      && toks[r.pos - 1].kind == RParen
    decreases |toks| - i, 40
  {
    hide *;
    ArgsCases(toks, limits, i, nodes, nesting);
    if toks[i].kind == RParen {
      NoneDerives(toks, limits, i, nodes, nesting);
      cs := [];
    } else {
      ListingCloses(InArgs);
      var list;
      cs, list := ItemsSound(toks, limits, InArgs, [], 0, i, nodes, nesting);
      NoneDone(S.SerialDepthAll(AbsAll(cs)));
      assert [] + list == list;
    }
  }

  lemma ArgsCases(toks: seq<Token>, limits: ParseLimits, i: nat, nodes: nat, nesting: nat)
    requires EndsWithEof(toks) && i < |toks| && ParseCallArgs(toks, limits, i, nodes, nesting).Ok?
    ensures var r := ParseCallArgs(toks, limits, i, nodes, nesting);
      if toks[i].kind == RParen then i + 1 < |toks| && r == Ok(Items([], 0, toks[i].span), i + 1, nodes)
      else r == ParseItems(toks, limits, InArgs, [], 0, i, nodes, nesting)
  {
    hide ParseItems;
  }

  lemma {:induction false} ItemsSound(
    toks: seq<Token>, limits: ParseLimits, listing: Listing, done: seq<Ast>, depth: nat,
    i: nat, nodes: nat, nesting: nat)
    returns (cs: seq<Cst>, list: seq<Ast>)
    requires EndsWithEof(toks) && i < |toks| && nesting <= MAX_PARSE_RECURSION_DEPTH
    requires ParseItems(toks, limits, listing, done, depth, i, nodes, nesting).Ok?
    ensures cs != [] && |done| + |cs| <= limits.maxCollectionItems
    ensures var r := ParseItems(toks, limits, listing, done, depth, i, nodes, nesting);
      && r.value.list == done + list
      && r.value.depth == S.Max(depth, S.SerialDepthAll(AbsAll(cs)))
      && DerivesAll(toks, limits, cs, list, S.SerialDepthAll(AbsAll(cs)), i, r.pos - 1, nodes, r.nodes, nesting)
      && toks[r.pos - 1].kind == listing.Close()
    decreases |toks| - i, 30
  {
    hide *;
    UnaryLevel();
    ListingCloses(listing);
    var r := ParseItems(toks, limits, listing, done, depth, i, nodes, nesting);
    var item := ItemsInverts(toks, limits, listing, done, depth, i, nodes, nesting);
    var done', depth' := done + [item.value.ast], S.Max(depth, item.value.depth);
    var k := item.pos;
    var c := LevelSound(toks, limits, 1, i, nodes, nesting + 1);
    if toks[k].kind == listing.Close() {
      LastDerives(toks, limits, c, item.value, i, k, nodes, item.nodes, nesting);
      cs, list := [c], [item.value.ast];
      DepthOf(toks, limits, cs, list, item.value.depth, i, k, nodes, item.nodes, nesting);
    } else {
      var cs', list' := ItemsSound(toks, limits, listing, done', depth', k + 1, item.nodes, nesting);
      var inner := S.SerialDepthAll(AbsAll(cs'));
      MoreDerives(toks, limits, c, item.value, cs', list', inner, i, k, r.pos - 1, nodes, item.nodes, r.nodes, nesting);
      cs, list := [c] + cs', [item.value.ast] + list';
      DepthOf(toks, limits, cs, list, S.Max(item.value.depth, inner), i, r.pos - 1, nodes, r.nodes, nesting);
      MaxAssociates(depth, item.value.depth, inner);
      assert done' + list' == done + list;
    }
  }

  lemma ItemsInverts(
    toks: seq<Token>, limits: ParseLimits, listing: Listing, done: seq<Ast>, depth: nat,
    i: nat, nodes: nat, nesting: nat)
    returns (item: Res<Parsed>)
    requires EndsWithEof(toks) && i < |toks|
    requires ParseItems(toks, limits, listing, done, depth, i, nodes, nesting).Ok?
    ensures |done| < limits.maxCollectionItems && nesting < MAX_PARSE_RECURSION_DEPTH
    ensures item == ParseLevel(toks, limits, 1, i, nodes, nesting + 1) && item.Ok? && i < item.pos < |toks|
    ensures var r := ParseItems(toks, limits, listing, done, depth, i, nodes, nesting);
      var done', depth', k := done + [item.value.ast], S.Max(depth, item.value.depth), item.pos;
      if toks[k].kind == listing.Close() then r == Ok(Items(done', depth', toks[k].span), k + 1, item.nodes)
      else
        && toks[k].kind == Comma && k + 1 < |toks|
        && r == ParseItems(toks, limits, listing, done', depth', k + 1, item.nodes, nesting)
        && k + 1 < r.pos < |toks|
  {
    item := ParseLevel(toks, limits, 1, i, nodes, nesting + 1);
  }

  lemma DepthOf(
    toks: seq<Token>, limits: ParseLimits, cs: seq<Cst>, list: seq<Ast>, depth: nat,
    i: nat, j: nat, nodes: nat, n: nat, nesting: nat)
    requires DerivesAll(toks, limits, cs, list, depth, i, j, nodes, n, nesting)
    ensures depth == S.SerialDepthAll(AbsAll(cs))
  {
  }

  /** An accepted token sequence is a derivation that fits every budget, and its string leaves are
      its string tokens. */
  lemma ParserSound(toks: seq<Token>, limits: ParseLimits) returns (c: Cst)
    requires EndsWithEof(toks) && ParseTokens(toks, limits).Accepted?
    requires forall i :: 0 <= i < |toks| - 1 ==> toks[i].kind != Eof
    ensures Fits(c) && Room(c, limits, 0, 0)
    ensures |toks| == |Spell(c)| + 1 && At(toks, 0, Spell(c))
    ensures Strip(ParseTokens(toks, limits).ast) == Abs(c)
    ensures StringSpans(ParseTokens(toks, limits).ast) == StringTokens(toks, 0, |toks| - 1)
  {
    var r := ParseLevel(toks, limits, 1, 0, 0, 0);
    c := LevelSound(toks, limits, 1, 0, 0, 0);
  }
}
