/** From token positions to the spanned AST: when the lexer has read a printed piece, what stands for the
    canonical derivation in its tokens is the layout of that piece. */
module Laying {
  import opened Text
  import opened Tokens
  import opened LexerSpec
  import opened Spanned
  import opened ParseSpec
  import opened Grammar
  import opened Location
  import opened Canonical
  import opened Relex
  import opened Layouts
  import S = Syntax

  /** Between `st` and `r` the tokens of `c` were added, and `a` is what stands for them. */
  ghost predicate Laid(a: Ast, c: Cst, st: LexState, r: LexState) {
    |r.tokens| == |st.tokens| + |Spell(c)| && Placed(a, c, r.tokens, |st.tokens|)
  }

  ghost predicate LaidAll(list: seq<Ast>, cs: seq<Cst>, st: LexState, r: LexState) {
    |r.tokens| == |st.tokens| + |SpellAll(cs)| && PlacedAll(list, cs, r.tokens, |st.tokens|)
  }

  /** What reading says about positions. */
  lemma Consumed(
    codec: FloatCodec, limits: ParseLimits, st: LexState, r: LexState, text: string, rest: string, ks: seq<Kind>)
    requires Reads(codec, limits, st, r, rest, ks) && st.rest == text
    ensures st.tokens <= r.tokens && |r.tokens| == |st.tokens| + |ks|
    ensures r.offset + Bytes(rest) == st.offset + Bytes(text)
  {
    hide Run, ScalarSum, Bytes;
    assert |Kinds(r.tokens)| == |Kinds(st.tokens)| + |ks|;
  }

  /** Later tokens change nothing. */
  lemma StillPlaced(a: Ast, c: Cst, st: LexState, st1: LexState, r: LexState)
    requires Laid(a, c, st, st1) && st1.tokens <= r.tokens
    ensures Placed(a, c, r.tokens, |st.tokens|)
  {
    hide Located, Spell;
    SameTokens(c, st1.tokens, r.tokens, |st.tokens|, |st1.tokens|);
  }

  lemma StillPlacedAll(list: seq<Ast>, cs: seq<Cst>, st: LexState, st1: LexState, r: LexState)
    requires LaidAll(list, cs, st, st1) && st1.tokens <= r.tokens
    ensures PlacedAll(list, cs, r.tokens, |st.tokens|)
  {
    hide LocatedAll, SpellAll;
    SameTokensAll(cs, st1.tokens, r.tokens, |st.tokens|, |st1.tokens|);
  }

  /** The token a leaf is printed as. */
  function LeafKind(e: S.Expr): Kind {
    match e
    case Bool(flag) => if flag then TrueTok else FalseTok
    case Int(number) => IntTok(number)
    case Float(bits) => FloatTok(bits)
    case Str(text) => StrTok(text)
    case Ident(name) => IdentTok(name)
    case _ => NullTok
  }

  lemma LeafLaid(codec: FloatCodec, e: S.Expr, st: LexState, r: LexState)
    requires e.Null? || e.Bool? || e.Int? || e.Float? || e.Str? || e.Ident?
    requires Pushed(st, r, LeafKind(e)) && r.offset == st.offset + Width(codec, e)
    ensures Laid(Layout(codec, e, st.offset), Canon(e), st, r)
  {
    hide Width;
    assert Canon(e) == Leaf(LeafKind(e));
    var token := Token(LeafKind(e), Span(st.offset, r.offset));
    assert r.tokens[|st.tokens|] == token;
    assert LeafOf(token) == Some(Layout(codec, e, st.offset));
    LeafPlaced(Canon(e), r.tokens, |st.tokens|);
  }

  /** Marks around a piece. */
  lemma GroupLaid(a: Ast, c: Cst, st: LexState, st1: LexState, st2: LexState, r: LexState)
    requires Laid(a, c, st1, st2) && st2.tokens <= r.tokens
    requires |st1.tokens| == |st.tokens| + 1 && |r.tokens| == |st2.tokens| + 1
    ensures Laid(a, Group(c), st, r)
  {
    StillPlaced(a, c, st1, st2, r);
    hide Located, Spell;
    SpellSize(Group(c));
    GroupPlaced(Group(c), a, r.tokens, |st.tokens|);
  }

  lemma NoneLaid(st: LexState)
    ensures LaidAll([], [], st, st)
  {
  }

  lemma OneLaid(a: Ast, cs: seq<Cst>, st: LexState, r: LexState)
    requires |cs| == 1 && Laid(a, cs[0], st, r)
    ensures LaidAll([a], cs, st, r)
  {
    hide Located, Spell;
    FirstLocated(cs, a, r.tokens, |st.tokens|);
  }

  /** An item, its comma, and the rest. */
  lemma ConsLaid(a: Ast, rest: seq<Ast>, cs: seq<Cst>, st: LexState, st1: LexState, st2: LexState, r: LexState)
    requires |cs| > 1 && Laid(a, cs[0], st, st1) && LaidAll(rest, cs[1..], st2, r)
    requires st1.tokens <= r.tokens && |st2.tokens| == |st1.tokens| + 1
    ensures LaidAll([a] + rest, cs, st, r)
  {
    StillPlaced(a, cs[0], st, st1, r);
    hide Located, Spell;
    assert |SpellAll(cs)| == |Spell(cs[0])| + 1 + |SpellAll(cs[1..])|;
    FirstLocated(cs, a, r.tokens, |st.tokens|);
  }

  /** A list between its marks, from `st1` to `st2` inside. */
  ghost predicate ListLaid(
    codec: FloatCodec, es: seq<S.Expr>, st: LexState, st1: LexState, st2: LexState, r: LexState, open: Kind, close: Kind)
  {
    && Pushed(st, st1, open) && st1.offset == st.offset + 1
    && LaidAll(LayoutAll(codec, es, st1.offset), CanonAll(es), st1, st2)
    && st1.tokens <= st2.tokens && st1.offset <= st2.offset
    && Pushed(st2, r, close) && r.offset == st2.offset + 1
  }

  /** The tokens of a list: where its marks are, and what stands between them. */
  lemma ListTokens(
    codec: FloatCodec, es: seq<S.Expr>, st: LexState, st1: LexState, st2: LexState, r: LexState, open: Kind, close: Kind)
    requires ListLaid(codec, es, st, st1, st2, r, open, close)
    ensures st.tokens <= r.tokens && |r.tokens| == |st.tokens| + |SpellAll(CanonAll(es))| + 2
    ensures st.offset + 2 <= r.offset
    ensures r.tokens[|st.tokens|].span == Span(st.offset, st.offset + 1)
    ensures r.tokens[|r.tokens| - 1].span == Span(r.offset - 1, r.offset)
    ensures PlacedAll(LayoutAll(codec, es, st.offset + 1), CanonAll(es), r.tokens, |st.tokens| + 1)
  {
    hide LayoutAll, CanonAll, SpellAll, LocatedAll;
    StillPlacedAll(LayoutAll(codec, es, st1.offset), CanonAll(es), st1, st2, r);
    assert st1.tokens[|st.tokens|] == r.tokens[|st.tokens|];
  }

  lemma ArrayLaid(codec: FloatCodec, e: S.Expr, st: LexState, st1: LexState, st2: LexState, r: LexState)
    requires e.Array? && ListLaid(codec, e.items, st, st1, st2, r, LBracket, RBracket)
    requires r.offset == st.offset + Width(codec, e)
    ensures Laid(Layout(codec, e, st.offset), Canon(e), st, r)
  {
    hide Width, LayoutAll, CanonAll, SpellAll, Spell, Located, LocatedAll, ListLaid;
    ListTokens(codec, e.items, st, st1, st2, r, LBracket, RBracket);
    SpellSize(Canon(e));
    ListPlaced(Canon(e), LayoutAll(codec, e.items, st.offset + 1), r.tokens, |st.tokens|);
  }

  lemma CallLaid(codec: FloatCodec, e: S.Expr, st: LexState, st0: LexState, st1: LexState, st2: LexState, r: LexState)
    requires e.Call? && Pushed(st, st0, IdentTok(e.name)) && st0.offset == st.offset + Bytes(e.name)
    requires ListLaid(codec, e.args, st0, st1, st2, r, LParen, RParen)
    requires r.offset == st.offset + Width(codec, e)
    ensures Laid(Layout(codec, e, st.offset), Canon(e), st, r)
  {
    hide Width, LayoutAll, CanonAll, SpellAll, Spell, Located, LocatedAll, ListLaid, Bytes;
    ListTokens(codec, e.args, st0, st1, st2, r, LParen, RParen);
    SpellSize(Canon(e));
    assert r.tokens[|st.tokens|] == st0.tokens[|st.tokens|];
    CallPlaced(Canon(e), LayoutAll(codec, e.args, st0.offset + 1), r.tokens, |st.tokens|);
    assert Join(Span(st.offset, st0.offset), Span(r.offset - 1, r.offset)) == Span(st.offset, r.offset);
  }

  /** A point and a name. */
  ghost predicate Dotted(st: LexState, r: LexState, name: string) {
    && |r.tokens| == |st.tokens| + 2 && st.tokens <= r.tokens
    && r.tokens[|st.tokens| + 1].span == Span(st.offset + 1, r.offset) && r.offset == st.offset + 1 + Bytes(name)
  }

  lemma MemberLaid(codec: FloatCodec, e: S.Expr, st: LexState, st1: LexState, r: LexState)
    requires e.Member? && Dotted(st1, r, e.name)
    requires Laid(LayoutAt(codec, e.receiver, 8, AsReceiver, st.offset), CanonAt(e.receiver, 8, AsReceiver), st, st1)
    requires st1.offset == st.offset + WidthAt(codec, e.receiver, 8, AsReceiver)
    ensures Laid(Layout(codec, e, st.offset), Canon(e), st, r)
  {
    hide *;
    var a := LayoutAt(codec, e.receiver, 8, AsReceiver, st.offset);
    DottedParts(st1, r, e.name);
    LaidSize(a, CanonAt(e.receiver, 8, AsReceiver), st, st1);
    StillPlaced(a, CanonAt(e.receiver, 8, AsReceiver), st, st1, r);
    LayoutAtWithin(codec, e.receiver, 8, AsReceiver, st.offset);
    MemberWidth(codec, e.receiver, e.name);
    MemberShape(codec, e, st.offset);
    SpellSize(Canon(e));
    MemberPlaced(Canon(e), a, r.tokens, |st.tokens|);
    JoinOrdered(a.span, Span(st1.offset + 1, r.offset));
    LaidWhole(Layout(codec, e, st.offset), Canon(e), st, r);
  }

  lemma MemberShape(codec: FloatCodec, e: S.Expr, at: nat)
    requires e.Member?
    ensures e == S.Member(e.receiver, e.name) && Canon(e) == MemberOf(CanonAt(e.receiver, 8, AsReceiver), e.name)
    ensures var r := LayoutAt(codec, e.receiver, 8, AsReceiver, at);
      Layout(codec, e, at) == Member(r, e.name, Span(r.span.start, at + Width(codec, e)))
  {
    hide CanonAt, LayoutAt, Width;
  }

  lemma LaidWhole(a: Ast, c: Cst, st: LexState, r: LexState)
    requires |r.tokens| == |st.tokens| + |Spell(c)| && Placed(a, c, r.tokens, |st.tokens|)
    ensures Laid(a, c, st, r)
  {
  }

  lemma LaidSize(a: Ast, c: Cst, st: LexState, r: LexState)
    requires Laid(a, c, st, r)
    ensures |r.tokens| == |st.tokens| + |Spell(c)|
  {
  }

  lemma JoinOrdered(a: Span, b: Span)
    requires a.start <= b.start && a.end <= b.end
    ensures Join(a, b) == Span(a.start, b.end)
  {
  }

  lemma MethodLaid(
    codec: FloatCodec, e: S.Expr, st: LexState, st1: LexState, st2: LexState, st3: LexState, st4: LexState, r: LexState)
    requires e.Method? && Dotted(st1, st2, e.name)
    requires Laid(LayoutAt(codec, e.receiver, 8, AsReceiver, st.offset), CanonAt(e.receiver, 8, AsReceiver), st, st1)
    requires st1.offset == st.offset + WidthAt(codec, e.receiver, 8, AsReceiver)
    requires ListLaid(codec, e.args, st2, st3, st4, r, LParen, RParen)
    requires r.offset == st.offset + Width(codec, e)
    ensures Laid(Layout(codec, e, st.offset), Canon(e), st, r)
  {
    hide *;
    var a := LayoutAt(codec, e.receiver, 8, AsReceiver, st.offset);
    var list := LayoutAll(codec, e.args, st2.offset + 1);
    DottedParts(st1, st2, e.name);
    ListTokens(codec, e.args, st2, st3, st4, r, LParen, RParen);
    LaidSize(a, CanonAt(e.receiver, 8, AsReceiver), st, st1);
    StillPlaced(a, CanonAt(e.receiver, 8, AsReceiver), st, st1, r);
    LayoutAtWithin(codec, e.receiver, 8, AsReceiver, st.offset);
    MethodShape(codec, e, st.offset);
    SpellSize(Canon(e));
    MethodPlaced(Canon(e), a, list, r.tokens, |st.tokens|);
    JoinOrdered(a.span, Span(r.offset - 1, r.offset));
    LaidWhole(Layout(codec, e, st.offset), Canon(e), st, r);
  }

  lemma DottedParts(st: LexState, r: LexState, name: string)
    requires Dotted(st, r, name)
    ensures |r.tokens| == |st.tokens| + 2 && st.tokens <= r.tokens && r.offset == st.offset + 1 + Bytes(name)
    ensures r.tokens[|st.tokens| + 1].span == Span(st.offset + 1, r.offset)
  {
  }

  lemma MethodShape(codec: FloatCodec, e: S.Expr, at: nat)
    requires e.Method?
    ensures Canon(e) == MethodOf(CanonAt(e.receiver, 8, AsReceiver), e.name, CanonAll(e.args))
    ensures var r := LayoutAt(codec, e.receiver, 8, AsReceiver, at);
      Layout(codec, e, at) == Method(
        r, e.name, LayoutAll(codec, e.args, at + WidthAt(codec, e.receiver, 8, AsReceiver) + Bytes(e.name) + 2),
        Span(r.span.start, at + Width(codec, e)))
  {
    hide CanonAt, CanonAll, LayoutAt, LayoutAll, WidthAt, Width, Bytes;
  }

  lemma UnaryLaid(codec: FloatCodec, e: S.Expr, st: LexState, st1: LexState, r: LexState)
    requires e.Unary? && Pushed(st, st1, PrefixKind(e.uop)) && st1.offset == st.offset + 1 && st1.tokens <= r.tokens
    requires Laid(LayoutAt(codec, e.operand, 7, UnderPrefix, st1.offset), CanonAt(e.operand, 7, UnderPrefix), st1, r)
    ensures Laid(Layout(codec, e, st.offset), Canon(e), st, r)
  {
    var a := LayoutAt(codec, e.operand, 7, UnderPrefix, st1.offset);
    LayoutAtWithin(codec, e.operand, 7, UnderPrefix, st1.offset);
    hide Width, WidthAt, LayoutAt, CanonAt, Spell, Located;
    SpellSize(Canon(e));
    assert r.tokens[|st.tokens|] == st1.tokens[|st.tokens|];
    UnaryPlaced(Canon(e), a, r.tokens, |st.tokens|);
    assert Join(Span(st.offset, st1.offset), a.span) == Span(st.offset, a.span.end);
  }

  lemma BinaryLaid(codec: FloatCodec, e: S.Expr, st: LexState, st1: LexState, st3: LexState, r: LexState)
    requires e.Binary? && st1.tokens <= r.tokens && |st3.tokens| == |st1.tokens| + 1
    requires var own := S.BinaryPrecedence(e.op);
      && Laid(LayoutAt(codec, e.left, own, LeftOf, st.offset), CanonAt(e.left, own, LeftOf), st, st1)
      && st3.offset == st.offset + WidthAt(codec, e.left, own, LeftOf) + Bytes(S.BinaryText(e.op)) + 2
      && Laid(LayoutAt(codec, e.right, own, RightOf, st3.offset), CanonAt(e.right, own, RightOf), st3, r)
    ensures Laid(Layout(codec, e, st.offset), Canon(e), st, r)
  {
    hide *;
    var own := S.BinaryPrecedence(e.op);
    var a, b := LayoutAt(codec, e.left, own, LeftOf, st.offset), LayoutAt(codec, e.right, own, RightOf, st3.offset);
    LaidSize(a, CanonAt(e.left, own, LeftOf), st, st1);
    LaidSize(b, CanonAt(e.right, own, RightOf), st3, r);
    StillPlaced(a, CanonAt(e.left, own, LeftOf), st, st1, r);
    LaidPlaced(b, CanonAt(e.right, own, RightOf), st3, r);
    LayoutAtWithin(codec, e.left, own, LeftOf, st.offset);
    LayoutAtWithin(codec, e.right, own, RightOf, st3.offset);
    BinaryShape(codec, e, st.offset);
    SpellSize(Canon(e));
    BinaryPlaced(Canon(e), a, b, r.tokens, |st.tokens|);
    JoinOrdered(a.span, b.span);
    LaidWhole(Layout(codec, e, st.offset), Canon(e), st, r);
  }

  lemma LaidPlaced(a: Ast, c: Cst, st: LexState, r: LexState)
    requires Laid(a, c, st, r)
    ensures Placed(a, c, r.tokens, |st.tokens|)
  {
  }

  lemma BinaryShape(codec: FloatCodec, e: S.Expr, at: nat)
    requires e.Binary?
    ensures var own := S.BinaryPrecedence(e.op);
      && Canon(e) == BinaryOf(CanonAt(e.left, own, LeftOf), e.op, CanonAt(e.right, own, RightOf))
      && var l := LayoutAt(codec, e.left, own, LeftOf, at);
        var start := at + WidthAt(codec, e.left, own, LeftOf) + Bytes(S.BinaryText(e.op)) + 2;
        var r := LayoutAt(codec, e.right, own, RightOf, start);
        Layout(codec, e, at) == Binary(l, e.op, r, Span(l.span.start, r.span.end))
  {
    hide CanonAt, LayoutAt, WidthAt, Bytes, S.BinaryText;
  }
}
