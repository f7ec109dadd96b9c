/** The spans of every parsed AST: none is empty, each lies in its parent's, siblings come in order, and
    all start and end on a character boundary of the input; and so do those of every diagnostic. */
module Nesting {
  import opened Text
  import opened Tokens
  import opened LexerSpec
  import opened LexerFacts
  import opened Spanned
  import opened ParseSpec
  import opened Grammar
  import opened Location
  import opened Alignment
  import opened RoundTrip
  import S = Syntax

  // ----- what well-placed means -----

  predicate Inside(inner: Span, outer: Span) { outer.start <= inner.start && inner.end <= outer.end }

  /** Siblings within `span`, one after the other. */
  predicate InRow(list: seq<Ast>, span: Span) {
    && (forall i :: 0 <= i < |list| ==> Inside(list[i].span, span))
    && (forall i, j :: 0 <= i < j < |list| ==> list[i].span.end <= list[j].span.start)
  }

  predicate Nested(a: Ast)
    decreases a, 1
  {
    && a.span.start < a.span.end
    && match a
       case Array(items, span) => InRow(items, span) && NestedAll(items)
       case Member(receiver, _, span) => Inside(receiver.span, span) && Nested(receiver)
       case Call(_, args, span) => InRow(args, span) && NestedAll(args)
       case Method(receiver, _, args, span) =>
         InRow([receiver] + args, span) && Nested(receiver) && NestedAll(args)
       case Unary(_, operand, span) => Inside(operand.span, span) && Nested(operand)
       case Binary(left, _, right, span) => InRow([left, right], span) && Nested(left) && Nested(right)
       case _ => true
  }

  predicate NestedAll(list: seq<Ast>)
    decreases list, 0
  {
    list == [] || (Nested(list[0]) && NestedAll(list[1..]))
  }

  /** Every node starts and ends on a character boundary. */
  ghost predicate AllOn(input: string, a: Ast)
    decreases a, 1
  {
    && SpanOn(input, a.span)
    && match a
       case Array(items, _) => AllOnAll(input, items)
       case Member(receiver, _, _) => AllOn(input, receiver)
       case Call(_, args, _) => AllOnAll(input, args)
       case Method(receiver, _, args, _) => AllOn(input, receiver) && AllOnAll(input, args)
       case Unary(_, operand, _) => AllOn(input, operand)
       case Binary(left, _, right, _) => AllOn(input, left) && AllOn(input, right)
       case _ => true
  }

  ghost predicate AllOnAll(input: string, list: seq<Ast>)
    decreases list, 0
  {
    list == [] || (AllOn(input, list[0]) && AllOnAll(input, list[1..]))
  }

  // ----- nodes stand where their tokens do -----

  /** The first `n` tokens are not empty and come one after the other. */
  predicate InSequence(toks: seq<Token>, n: nat)
    requires n <= |toks|
  {
    && (forall i :: 0 <= i < n ==> toks[i].span.start < toks[i].span.end)
    && (forall i, j :: 0 <= i < j < n ==> toks[i].span.end <= toks[j].span.start)
  }

  /** From the start of token `i` to the end of token `j`. */
  function Stretch(toks: seq<Token>, i: nat, j: nat): Span
    requires i < |toks| && j < |toks|
  {
    Span(toks[i].span.start, toks[j].span.end)
  }

  lemma RowOfOne(first: Ast, span: Span)
    requires Inside(first.span, span)
    ensures InRow([first], span)
  {
  }

  /** Another sibling in front. */
  lemma RowGrows(first: Ast, rest: seq<Ast>, span: Span, after: Span)
    requires Inside(first.span, span) && InRow(rest, after) && Inside(after, span) && first.span.end <= after.start
    ensures InRow([first] + rest, span)
  {
    var list := [first] + rest;
    assert forall i :: 0 < i < |list| ==> list[i] == rest[i - 1];
  }

  lemma RowWider(list: seq<Ast>, inner: Span, outer: Span)
    requires InRow(list, inner) && Inside(inner, outer)
    ensures InRow(list, outer)
  {
  }

  lemma Between(toks: seq<Token>, n: nat, i: nat, j: nat)
    requires n <= |toks| && InSequence(toks, n) && i <= j < n
    ensures toks[i].span.start < toks[i].span.end && toks[i].span.start <= toks[j].span.start
    ensures toks[i].span.end <= toks[j].span.end
    ensures i < j ==> toks[i].span.end <= toks[j].span.start
  {
  }

  /** A node lies in the stretch of its tokens and is well placed. */
  ghost predicate Stands(a: Ast, toks: seq<Token>, i: nat, j: nat) {
    i <= j < |toks| && Inside(a.span, Stretch(toks, i, j)) && a.span.start < a.span.end && Nested(a)
  }

  ghost predicate RowStands(list: seq<Ast>, toks: seq<Token>, i: nat, j: nat) {
    i <= j < |toks| && InRow(list, Stretch(toks, i, j)) && NestedAll(list)
  }

  lemma {:induction false} LocatedStands(c: Cst, toks: seq<Token>, i: nat, n: nat)
    requires n <= |toks| && InSequence(toks, n) && i + |Spell(c)| <= n
    ensures Stands(Located(c, toks, i), toks, i, i + |Spell(c)| - 1)
    decreases c, 2
  {
    hide *;
    SpellSize(c);
    match c
    case Leaf(_) => LeafStands(c, toks, i, n);
    case Group(inner) =>
      LocatedStands(inner, toks, i + 1, n);
      GroupStands(c, toks, i, n);
    case ListOf(items) =>
      if items != [] { RowLocated(items, toks, i + 1, n); }
      ListStands(c, toks, i, n);
    case CallOf(_, args) =>
      if args != [] { RowLocated(args, toks, i + 2, n); }
      CallStands(c, toks, i, n);
    case MemberOf(receiver, _) =>
      LocatedStands(receiver, toks, i, n);
      MemberStands(c, toks, i, n);
    case MethodOf(receiver, _, args) =>
      LocatedStands(receiver, toks, i, n);
      if args != [] { RowLocated(args, toks, i + |Spell(receiver)| + 3, n); }
      MethodStands(c, toks, i, n);
    case UnaryOf(_, operand) =>
      LocatedStands(operand, toks, i + 1, n);
      UnaryStands(c, toks, i, n);
    case BinaryOf(left, _, right) =>
      LocatedStands(left, toks, i, n);
      LocatedStands(right, toks, i + |Spell(left)| + 1, n);
      BinaryStands(c, toks, i, n);
  }

  lemma {:induction false} RowLocated(cs: seq<Cst>, toks: seq<Token>, i: nat, n: nat)
    requires cs != [] && n <= |toks| && InSequence(toks, n) && i + |SpellAll(cs)| <= n
    ensures RowStands(LocatedAll(cs, toks, i), toks, i, i + |SpellAll(cs)| - 1)
    decreases cs, 1
  {
    hide *;
    ConsLocated(cs, toks, i);
    LocatedStands(cs[0], toks, i, n);
    if |cs| == 1 {
      NoneLocated(toks, i + |Spell(cs[0])| + 1);
      assert cs[1..] == [];
      OneStands(cs, toks, i);
    } else {
      RowLocated(cs[1..], toks, i + |Spell(cs[0])| + 1, n);
      MoreStand(cs, toks, i, n);
    }
  }

  lemma OneStands(cs: seq<Cst>, toks: seq<Token>, i: nat)
    requires |cs| == 1 && |SpellAll(cs)| == |Spell(cs[0])| && i + |SpellAll(cs)| <= |toks|
    requires LocatedAll(cs, toks, i) == [Located(cs[0], toks, i)] + []
    requires Stands(Located(cs[0], toks, i), toks, i, i + |Spell(cs[0])| - 1)
    ensures RowStands(LocatedAll(cs, toks, i), toks, i, i + |SpellAll(cs)| - 1)
  {
    hide Located, LocatedAll, Spell, SpellAll, Nested;
    var first := Located(cs[0], toks, i);
    assert [first] + [] == [first] && [first][1..] == [] && NestedAll([]);
    RowOfOne(first, Stretch(toks, i, i + |SpellAll(cs)| - 1));
  }

  lemma MoreStand(cs: seq<Cst>, toks: seq<Token>, i: nat, n: nat)
    requires |cs| > 1 && n <= |toks| && InSequence(toks, n) && i + |SpellAll(cs)| <= n
    requires |SpellAll(cs)| == |Spell(cs[0])| + 1 + |SpellAll(cs[1..])|
    requires var at := i + |Spell(cs[0])| + 1;
      && LocatedAll(cs, toks, i) == [Located(cs[0], toks, i)] + LocatedAll(cs[1..], toks, at)
      && Stands(Located(cs[0], toks, i), toks, i, at - 2)
      && RowStands(LocatedAll(cs[1..], toks, at), toks, at, at + |SpellAll(cs[1..])| - 1)
    ensures RowStands(LocatedAll(cs, toks, i), toks, i, i + |SpellAll(cs)| - 1)
  {
    hide Located, LocatedAll, Spell, SpellAll, Nested, InRow, InSequence;
    var at, j := i + |Spell(cs[0])| + 1, i + |SpellAll(cs)| - 1;
    var first, rest := Located(cs[0], toks, i), LocatedAll(cs[1..], toks, at);
    Between(toks, n, i, at);
    Between(toks, n, at - 2, at);
    Between(toks, n, at - 2, j);
    RowGrows(first, rest, Stretch(toks, i, j), Stretch(toks, at, j));
    assert ([first] + rest)[1..] == rest;
  }

  lemma LeafStands(c: Cst, toks: seq<Token>, i: nat, n: nat)
    requires c.Leaf? && |Spell(c)| == 1 && n <= |toks| && InSequence(toks, n) && i < n
    ensures Stands(Located(c, toks, i), toks, i, i + |Spell(c)| - 1)
  {
    hide Spell;
  }

  lemma GroupStands(c: Cst, toks: seq<Token>, i: nat, n: nat)
    requires c.Group? && n <= |toks| && InSequence(toks, n) && i + |Spell(c)| <= n
    requires |Spell(c)| == |Spell(c.inner)| + 2
    requires Stands(Located(c.inner, toks, i + 1), toks, i + 1, i + |Spell(c.inner)|)
    ensures Stands(Located(c, toks, i), toks, i, i + |Spell(c)| - 1)
  {
    hide Spell, Nested, InSequence;
    Between(toks, n, i, i + 1);
    Between(toks, n, i + |Spell(c.inner)|, i + |Spell(c)| - 1);
  }

  lemma ListStands(c: Cst, toks: seq<Token>, i: nat, n: nat)
    requires c.ListOf? && n <= |toks| && InSequence(toks, n) && i + |Spell(c)| <= n
    requires |Spell(c)| == |SpellAll(c.items)| + 2
    requires c.items != [] ==> RowStands(LocatedAll(c.items, toks, i + 1), toks, i + 1, i + |SpellAll(c.items)|)
    ensures Stands(Located(c, toks, i), toks, i, i + |Spell(c)| - 1)
  {
    hide Spell, SpellAll, LocatedAll, InRow, InSequence;
    var j := i + |Spell(c)| - 1;
    var items := LocatedAll(c.items, toks, i + 1);
    Between(toks, n, i, j);
    Between(toks, n, j, j);
    if c.items == [] {
      NoneLocated(toks, i + 1);
      EmptyRow(Stretch(toks, i, j));
      assert items == [] && NestedAll([]);
    } else {
      Between(toks, n, i, i + 1);
      Between(toks, n, i + |SpellAll(c.items)|, j);
      RowWider(items, Stretch(toks, i + 1, i + |SpellAll(c.items)|), Stretch(toks, i, j));
    }
    assert Located(c, toks, i) == Array(items, Join(toks[i].span, toks[j].span));
    assert Join(toks[i].span, toks[j].span) == Stretch(toks, i, j);
  }

  lemma EmptyRow(span: Span)
    ensures InRow([], span)
  {
  }

  lemma CallStands(c: Cst, toks: seq<Token>, i: nat, n: nat)
    requires c.CallOf? && n <= |toks| && InSequence(toks, n) && i + |Spell(c)| <= n
    requires |Spell(c)| == |SpellAll(c.args)| + 3
    requires c.args != [] ==> RowStands(LocatedAll(c.args, toks, i + 2), toks, i + 2, i + |SpellAll(c.args)| + 1)
    ensures Stands(Located(c, toks, i), toks, i, i + |Spell(c)| - 1)
  {
    hide Spell, SpellAll, LocatedAll, InRow, InSequence;
    var j := i + |Spell(c)| - 1;
    var args := LocatedAll(c.args, toks, i + 2);
    Between(toks, n, i, j);
    Between(toks, n, j, j);
    if c.args == [] {
      NoneLocated(toks, i + 2);
      EmptyRow(Stretch(toks, i, j));
      assert args == [] && NestedAll([]);
    } else {
      Between(toks, n, i, i + 2);
      Between(toks, n, i + |SpellAll(c.args)| + 1, j);
      RowWider(args, Stretch(toks, i + 2, i + |SpellAll(c.args)| + 1), Stretch(toks, i, j));
    }
    assert Located(c, toks, i) == Call(c.name, args, Join(toks[i].span, toks[j].span));
    assert Join(toks[i].span, toks[j].span) == Stretch(toks, i, j);
  }

  lemma MemberStands(c: Cst, toks: seq<Token>, i: nat, n: nat)
    requires c.MemberOf? && n <= |toks| && InSequence(toks, n) && i + |Spell(c)| <= n
    requires |Spell(c)| == |Spell(c.receiver)| + 2
    requires Stands(Located(c.receiver, toks, i), toks, i, i + |Spell(c.receiver)| - 1)
    ensures Stands(Located(c, toks, i), toks, i, i + |Spell(c)| - 1)
  {
    hide Spell, InSequence;
    var j := i + |Spell(c)| - 1;
    Between(toks, n, i + |Spell(c.receiver)| - 1, j);
    var r := Located(c.receiver, toks, i);
    assert Located(c, toks, i) == Member(r, c.name, Join(r.span, toks[j].span));
    assert Join(r.span, toks[j].span) == Span(r.span.start, toks[j].span.end);
  }

  lemma MethodStands(c: Cst, toks: seq<Token>, i: nat, n: nat)
    requires c.MethodOf? && n <= |toks| && InSequence(toks, n) && i + |Spell(c)| <= n
    requires |Spell(c)| == |Spell(c.receiver)| + |SpellAll(c.args)| + 4
    requires Stands(Located(c.receiver, toks, i), toks, i, i + |Spell(c.receiver)| - 1)
    requires var at := i + |Spell(c.receiver)| + 3;
      c.args != [] ==> RowStands(LocatedAll(c.args, toks, at), toks, at, at + |SpellAll(c.args)| - 1)
    ensures Stands(Located(c, toks, i), toks, i, i + |Spell(c)| - 1)
  {
    hide Spell, SpellAll, LocatedAll, InRow, InSequence;
    var j, at := i + |Spell(c)| - 1, i + |Spell(c.receiver)| + 3;
    var r, args := Located(c.receiver, toks, i), LocatedAll(c.args, toks, at);
    Between(toks, n, at - 4, j);
    var span := Span(r.span.start, toks[j].span.end);
    if c.args == [] {
      NoneLocated(toks, at);
      RowOfOne(r, span);
      assert [r] + args == [r] && NestedAll([]);
    } else {
      Between(toks, n, at - 4, at);
      Between(toks, n, at + |SpellAll(c.args)| - 1, j);
      RowGrows(r, args, span, Stretch(toks, at, at + |SpellAll(c.args)| - 1));
    }
    assert Located(c, toks, i) == Method(r, c.name, args, Join(r.span, toks[j].span));
    assert Join(r.span, toks[j].span) == span;
  }

  lemma UnaryStands(c: Cst, toks: seq<Token>, i: nat, n: nat)
    requires c.UnaryOf? && n <= |toks| && InSequence(toks, n) && i + |Spell(c)| <= n
    requires |Spell(c)| == |Spell(c.operand)| + 1
    requires Stands(Located(c.operand, toks, i + 1), toks, i + 1, i + |Spell(c)| - 1)
    ensures Stands(Located(c, toks, i), toks, i, i + |Spell(c)| - 1)
  {
    hide Spell, InSequence;
    Between(toks, n, i, i + 1);
    var o := Located(c.operand, toks, i + 1);
    assert Located(c, toks, i) == Unary(c.uop, o, Join(toks[i].span, o.span));
    assert Join(toks[i].span, o.span) == Span(toks[i].span.start, o.span.end);
  }

  lemma BinaryStands(c: Cst, toks: seq<Token>, i: nat, n: nat)
    requires c.BinaryOf? && n <= |toks| && InSequence(toks, n) && i + |Spell(c)| <= n
    requires |Spell(c)| == |Spell(c.left)| + |Spell(c.right)| + 1
    requires Stands(Located(c.left, toks, i), toks, i, i + |Spell(c.left)| - 1)
    requires var at := i + |Spell(c.left)| + 1; Stands(Located(c.right, toks, at), toks, at, i + |Spell(c)| - 1)
    ensures Stands(Located(c, toks, i), toks, i, i + |Spell(c)| - 1)
  {
    hide Spell, InSequence;
    var at := i + |Spell(c.left)| + 1;
    var l, r := Located(c.left, toks, i), Located(c.right, toks, at);
    Between(toks, n, at - 2, at);
    Between(toks, n, at - 2, i + |Spell(c)| - 1);
    Between(toks, n, i, at);
    assert Located(c, toks, i) == Binary(l, c.op, r, Join(l.span, r.span));
    assert Join(l.span, r.span) == Span(l.span.start, r.span.end);
  }

  // ----- boundaries -----

  ghost predicate TokensOn(input: string, toks: seq<Token>) {
    forall i :: 0 <= i < |toks| ==> SpanOn(input, toks[i].span)
  }

  lemma JoinOn(input: string, a: Span, b: Span)
    requires SpanOn(input, a) && SpanOn(input, b)
    ensures SpanOn(input, Join(a, b))
  {
    hide OnBoundary;
  }

  lemma {:induction false} LocatedOn(input: string, c: Cst, toks: seq<Token>, i: nat)
    requires TokensOn(input, toks) && i + |Spell(c)| <= |toks|
    ensures AllOn(input, Located(c, toks, i))
    decreases c, 2
  {
    hide Spell, SpellAll, LocatedAll, AllOnAll, SpanOn, Join;
    SpellSize(c);
    var j := i + |Spell(c)| - 1;
    match c
    case Leaf(_) =>
    case Group(inner) => LocatedOn(input, inner, toks, i + 1);
    case ListOf(items) =>
      LocatedAllOn(input, items, toks, i + 1);
      JoinOn(input, toks[i].span, toks[j].span);
    case CallOf(_, args) =>
      LocatedAllOn(input, args, toks, i + 2);
      JoinOn(input, toks[i].span, toks[j].span);
    case MemberOf(receiver, _) =>
      LocatedOn(input, receiver, toks, i);
      JoinOn(input, Located(receiver, toks, i).span, toks[j].span);
    case MethodOf(receiver, _, args) =>
      LocatedOn(input, receiver, toks, i);
      LocatedAllOn(input, args, toks, i + |Spell(receiver)| + 3);
      JoinOn(input, Located(receiver, toks, i).span, toks[j].span);
    case UnaryOf(_, operand) =>
      LocatedOn(input, operand, toks, i + 1);
      JoinOn(input, toks[i].span, Located(operand, toks, i + 1).span);
    case BinaryOf(left, _, right) =>
      LocatedOn(input, left, toks, i);
      LocatedOn(input, right, toks, i + |Spell(left)| + 1);
      JoinOn(input, Located(left, toks, i).span, Located(right, toks, i + |Spell(left)| + 1).span);
  }

  lemma {:induction false} LocatedAllOn(input: string, cs: seq<Cst>, toks: seq<Token>, i: nat)
    requires TokensOn(input, toks) && (cs == [] || i + |SpellAll(cs)| <= |toks|)
    ensures AllOnAll(input, LocatedAll(cs, toks, i))
    decreases cs, 1
  {
    hide Spell, SpellAll, Located, AllOn, LocatedAll;
    if cs == [] {
      NoneLocated(toks, i);
    } else {
      ConsLocated(cs, toks, i);
      LocatedOn(input, cs[0], toks, i);
      if |cs| > 1 {
        LocatedAllOn(input, cs[1..], toks, i + |Spell(cs[0])| + 1);
      } else {
        NoneLocated(toks, i + |Spell(cs[0])| + 1);
        assert cs[1..] == [];
      }
      var first, rest := Located(cs[0], toks, i), LocatedAll(cs[1..], toks, i + |Spell(cs[0])| + 1);
      assert ([first] + rest)[1..] == rest;
    }
  }

  // ----- parsed ASTs -----

  lemma LexedInSequence(codec: FloatCodec, input: string, limits: ParseLimits)
    requires CodecValid(codec) && Tokenize(codec, input, limits).Lexed?
    ensures var toks := Tokenize(codec, input, limits).tokens;
      && InSequence(toks, |toks| - 1)
      && forall i :: 0 <= i < |toks| - 1 ==> toks[i].span.end <= Bytes(input)
  {
    hide Tokenize, Bytes, Lexable, InOrder, CodecValid;
    TokenizeSound(codec, input, limits);
    var toks := Tokenize(codec, input, limits).tokens;
    var init := toks[..|toks| - 1];
    forall i, j | 0 <= i <= j < |toks| - 1
      ensures toks[i].span.start < toks[i].span.end <= Bytes(input)
      ensures i < j ==> toks[i].span.end <= toks[j].span.start {
      InOrderAt(codec, init, Bytes(input), i, j);
      assert toks[i] == init[i] && toks[j] == init[j];
    }
    forall i | 0 <= i < |toks| - 1 ensures toks[i].span.start < toks[i].span.end <= Bytes(input) {
      InOrderAt(codec, init, Bytes(input), i, i);
      assert toks[i] == init[i];
    }
  }

  /** For every accepted input: no node's span is empty, each lies in its parent's and in the input,
      siblings come in order, and every span starts and ends on a character boundary. */
  lemma ParsedSpans(codec: FloatCodec, input: string, limits: ParseLimits)
    requires CodecValid(codec) && ParseExpression(codec, input, limits).Accepted?
    ensures var a := ParseExpression(codec, input, limits).ast;
      Nested(a) && a.span.end <= Bytes(input) && AllOn(input, a)
  {
    hide Tokenize, ParseExpression, Located, Nested, AllOn, Spell, Fits, Room, Bytes, CodecValid, InSequence, SpanOn;
    var c := AcceptedDerives(codec, input, limits);
    DerivationAccepted(codec, input, limits, c);
    var toks := Tokenize(codec, input, limits).tokens;
    assert |Kinds(toks)| == |toks| == |Spell(c)| + 1;
    LexedInSequence(codec, input, limits);
    TokenizeAligned(codec, input, limits);
    LocatedStands(c, toks, 0, |toks| - 1);
    LocatedOn(input, c, toks, 0);
  }

  // ----- diagnostics -----

  ghost predicate Fine(input: string, r: Res<Parsed>) {
    match r
    case Ok(q, _, _) => SpanOn(input, q.ast.span)
    case Err(error) => SpanOn(input, error.span)
  }

  ghost predicate FineItems(input: string, r: Res<Items>) {
    match r
    case Ok(items, _, _) => SpanOn(input, items.end)
    case Err(error) => SpanOn(input, error.span)
  }

  lemma MakeFine(input: string, ast: Ast, depth: nat, pos: nat, nodes: nat, limits: ParseLimits)
    requires SpanOn(input, ast.span)
    ensures Fine(input, MakeExpression(ast, depth, pos, nodes, limits))
  {
  }

  lemma {:induction false} LevelFine(
    input: string, toks: seq<Token>, limits: ParseLimits, level: nat, pos: nat, nodes: nat, nesting: nat)
    requires TokensOn(input, toks) && EndsWithEof(toks) && pos < |toks| && 1 <= level <= UNARY_LEVEL
    ensures Fine(input, ParseLevel(toks, limits, level, pos, nodes, nesting))
    decreases |toks| - pos, 20 - level
  {
    hide ParseLoop, ParseUnary, TokensOn, SpanOn;
    if level == UNARY_LEVEL {
      UnaryFine(input, toks, limits, pos, nodes, nesting);
      var first := ParseUnary(toks, limits, pos, nodes, nesting);
      if first.Ok? { LoopFine(input, toks, limits, level, first.value, first.pos, first.nodes, nesting); }
    } else {
      LevelFine(input, toks, limits, level + 1, pos, nodes, nesting);
      var first := ParseLevel(toks, limits, level + 1, pos, nodes, nesting);
      if first.Ok? { LoopFine(input, toks, limits, level, first.value, first.pos, first.nodes, nesting); }
    }
  }

  lemma {:induction false} LoopFine(
    input: string, toks: seq<Token>, limits: ParseLimits, level: nat, left: Parsed, pos: nat, nodes: nat, nesting: nat)
    requires TokensOn(input, toks) && EndsWithEof(toks) && pos < |toks| && 1 <= level <= UNARY_LEVEL
    requires SpanOn(input, left.ast.span)
    ensures Fine(input, ParseLoop(toks, limits, level, left, pos, nodes, nesting))
    decreases |toks| - pos, 25
  {
    hide ParseLevel, TokensOn, SpanOn, Join, MakeExpression;
    var op := OpAt(level, toks[pos].kind);
    if op.Some? {
      LevelFine(input, toks, limits, level + 1, pos + 1, nodes, nesting);
      var right := ParseLevel(toks, limits, level + 1, pos + 1, nodes, nesting);
      if right.Ok? {
        var span := Join(left.ast.span, right.value.ast.span);
        JoinOn(input, left.ast.span, right.value.ast.span);
        MakeFine(input, Binary(left.ast, op.value, right.value.ast, span), 2 + S.Max(left.depth, right.value.depth),
                 right.pos, right.nodes, limits);
        var both := MakeBinary(left, op.value, right.value, right.pos, right.nodes, limits);
        if both.Ok? { LoopFine(input, toks, limits, level, both.value, both.pos, both.nodes, nesting); }
      }
    }
  }

  lemma TokenOn(input: string, toks: seq<Token>, i: nat)
    requires TokensOn(input, toks) && i < |toks|
    ensures SpanOn(input, toks[i].span)
  {
  }

  lemma {:induction false} UnaryFine(
    input: string, toks: seq<Token>, limits: ParseLimits, pos: nat, nodes: nat, nesting: nat)
    requires TokensOn(input, toks) && EndsWithEof(toks) && pos < |toks|
    ensures Fine(input, ParseUnary(toks, limits, pos, nodes, nesting))
    decreases |toks| - pos, 12
  {
    hide ParsePostfix, TokensOn, SpanOn, Join, MakeExpression;
    TokenOn(input, toks, pos);
    var op := ParseSpec.UnaryOf(toks[pos].kind);
    if op == None {
      PostfixFine(input, toks, limits, pos, nodes, nesting);
    } else if nesting < MAX_PARSE_RECURSION_DEPTH {
      UnaryFine(input, toks, limits, pos + 1, nodes, nesting + 1);
      var inner := ParseUnary(toks, limits, pos + 1, nodes, nesting + 1);
      if inner.Ok? {
        JoinOn(input, toks[pos].span, inner.value.ast.span);
        MakeFine(input, Unary(op.value, inner.value.ast, Join(toks[pos].span, inner.value.ast.span)),
                 2 + inner.value.depth, inner.pos, inner.nodes, limits);
      }
    }
  }

  lemma {:induction false} PostfixFine(
    input: string, toks: seq<Token>, limits: ParseLimits, pos: nat, nodes: nat, nesting: nat)
    requires TokensOn(input, toks) && EndsWithEof(toks) && pos < |toks|
    ensures Fine(input, ParsePostfix(toks, limits, pos, nodes, nesting))
    decreases |toks| - pos, 11
  {
    hide ParsePrimary, PostfixLoop, TokensOn, SpanOn;
    PrimaryFine(input, toks, limits, pos, nodes, nesting);
    var first := ParsePrimary(toks, limits, pos, nodes, nesting);
    if first.Ok? { ChainFine(input, toks, limits, first.value, first.pos, first.nodes, nesting); }
  }

  lemma {:induction false} ChainFine(
    input: string, toks: seq<Token>, limits: ParseLimits, receiver: Parsed, pos: nat, nodes: nat, nesting: nat)
    requires TokensOn(input, toks) && EndsWithEof(toks) && pos < |toks| && SpanOn(input, receiver.ast.span)
    ensures Fine(input, PostfixLoop(toks, limits, receiver, pos, nodes, nesting))
    decreases |toks| - pos, 10
  {
    hide PostfixOne, TokensOn, SpanOn;
    if toks[pos].kind == Dot {
      LinkFine(input, toks, limits, receiver, pos, nodes, nesting);
      var one := PostfixOne(toks, limits, receiver, pos, nodes, nesting);
      if one.Ok? { ChainFine(input, toks, limits, one.value, one.pos, one.nodes, nesting); }
    }
  }

  lemma {:induction false} LinkFine(
    input: string, toks: seq<Token>, limits: ParseLimits, receiver: Parsed, pos: nat, nodes: nat, nesting: nat)
    requires TokensOn(input, toks) && EndsWithEof(toks) && pos < |toks| && SpanOn(input, receiver.ast.span)
    requires toks[pos].kind == Dot
    ensures Fine(input, PostfixOne(toks, limits, receiver, pos, nodes, nesting))
    decreases |toks| - pos, 9
  {
    hide ParseCallArgs, TokensOn, SpanOn, Join, MakeExpression;
    assert pos + 1 < |toks|;
    TokenOn(input, toks, pos + 1);
    var name := ExpectIdentifier(toks, pos + 1, nodes);
    if name.Ok? {
      var r, p := receiver.ast, name.pos;
      if toks[p].kind == LParen {
        ArgsFine(input, toks, limits, p + 1, nodes, nesting);
        var args := ParseCallArgs(toks, limits, p + 1, nodes, nesting);
        if args.Ok? {
          JoinOn(input, r.span, args.value.end);
          MakeFine(input, Method(r, name.value, args.value.list, Join(r.span, args.value.end)),
                   S.Max(2 + receiver.depth, 3 + args.value.depth), args.pos, args.nodes, limits);
        }
      } else {
        JoinOn(input, r.span, toks[p - 1].span);
        MakeFine(input, Member(r, name.value, Join(r.span, toks[p - 1].span)), 2 + receiver.depth, p, nodes, limits);
      }
    }
  }

  lemma {:induction false} PrimaryFine(
    input: string, toks: seq<Token>, limits: ParseLimits, pos: nat, nodes: nat, nesting: nat)
    requires TokensOn(input, toks) && EndsWithEof(toks) && pos < |toks|
    ensures Fine(input, ParsePrimary(toks, limits, pos, nodes, nesting))
    decreases |toks| - pos, 9
  {
    hide ParseCallArgs, ParseLevel, ParseArray, ParseLeaf, TokensOn, SpanOn, Join, MakeExpression, S.IsReserved;
    TokenOn(input, toks, pos);
    var token := toks[pos];
    LeafFine(input, token, pos + 1, nodes, limits);
    if token.kind.IdentTok? && !S.IsReserved(token.kind.name) && toks[pos + 1].kind == LParen {
      ArgsFine(input, toks, limits, pos + 2, nodes, nesting);
      var args := ParseCallArgs(toks, limits, pos + 2, nodes, nesting);
      if args.Ok? {
        JoinOn(input, token.span, args.value.end);
        MakeFine(input, Call(token.kind.name, args.value.list, Join(token.span, args.value.end)), 3 + args.value.depth,
                 args.pos, args.nodes, limits);
      }
    } else if token.kind == LParen && nesting < MAX_PARSE_RECURSION_DEPTH {
      LevelFine(input, toks, limits, 1, pos + 1, nodes, nesting + 1);
      var inner := ParseLevel(toks, limits, 1, pos + 1, nodes, nesting + 1);
      if inner.Ok? { TokenOn(input, toks, inner.pos); }
    } else if token.kind == LBracket {
      ArrayFine(input, toks, limits, pos + 1, token.span, nodes, nesting);
    }
  }

  lemma LeafFine(input: string, token: Token, next: nat, nodes: nat, limits: ParseLimits)
    requires SpanOn(input, token.span)
    ensures Fine(input, ParseLeaf(token, next, nodes, limits))
  {
    hide SpanOn;
  }

  lemma {:induction false} ArrayFine(
    input: string, toks: seq<Token>, limits: ParseLimits, pos: nat, start: Span, nodes: nat, nesting: nat)
    requires TokensOn(input, toks) && EndsWithEof(toks) && pos < |toks| && SpanOn(input, start)
    ensures Fine(input, ParseArray(toks, limits, pos, start, nodes, nesting))
    decreases |toks| - pos, 40
  {
    hide ParseItems, TokensOn, SpanOn, Join, MakeExpression;
    TokenOn(input, toks, pos);
    if toks[pos].kind == RBracket {
      JoinOn(input, start, toks[pos].span);
      MakeFine(input, Array([], Join(start, toks[pos].span)), 3, pos + 1, nodes, limits);
    } else {
      ItemsFine(input, toks, limits, InArray(start), [], 0, pos, nodes, nesting);
      var items := ParseItems(toks, limits, InArray(start), [], 0, pos, nodes, nesting);
      if items.Ok? {
        JoinOn(input, start, items.value.end);
        MakeFine(input, Array(items.value.list, Join(start, items.value.end)), 3 + items.value.depth,
                 items.pos, items.nodes, limits);
      }
    }
  }

  lemma {:induction false} ArgsFine(
    input: string, toks: seq<Token>, limits: ParseLimits, pos: nat, nodes: nat, nesting: nat)
    requires TokensOn(input, toks) && EndsWithEof(toks) && pos < |toks|
    ensures FineItems(input, ParseCallArgs(toks, limits, pos, nodes, nesting))
    decreases |toks| - pos, 40
  {
    hide ParseItems, TokensOn, SpanOn;
    TokenOn(input, toks, pos);
    if toks[pos].kind != RParen { ItemsFine(input, toks, limits, InArgs, [], 0, pos, nodes, nesting); }
  }

  lemma {:induction false} ItemsFine(
    input: string, toks: seq<Token>, limits: ParseLimits, listing: Listing, done: seq<Ast>, depth: nat,
    pos: nat, nodes: nat, nesting: nat)
    requires TokensOn(input, toks) && EndsWithEof(toks) && pos < |toks|
    requires listing.InArray? ==> SpanOn(input, listing.start)
    ensures FineItems(input, ParseItems(toks, limits, listing, done, depth, pos, nodes, nesting))
    decreases |toks| - pos, 30
  {
    hide ParseLevel, TokensOn, SpanOn;
    TokenOn(input, toks, pos);
    if |done| < limits.maxCollectionItems && nesting < MAX_PARSE_RECURSION_DEPTH {
      LevelFine(input, toks, limits, 1, pos, nodes, nesting + 1);
      var item := ParseLevel(toks, limits, 1, pos, nodes, nesting + 1);
      if item.Ok? {
        TokenOn(input, toks, item.pos);
        if toks[item.pos].kind == Comma && listing.Close() != Comma {
          ItemsFine(input, toks, limits, listing, done + [item.value.ast], S.Max(depth, item.value.depth),
                    item.pos + 1, item.nodes, nesting);
        }
      }
    }
  }

  /** For every input, every diagnostic of a refusal stands on character boundaries of it. */
  lemma DiagnosticSpans(codec: FloatCodec, input: string, limits: ParseLimits)
    ensures match ParseExpression(codec, input, limits)
            case Accepted(_) => true
            case Rejected(diags) => forall i :: 0 <= i < |diags| ==> SpanOn(input, diags[i].span)
  {
    hide Tokenize, SpanOn, ParseLevel;
    TokenizeAligned(codec, input, limits);
    StartOn(input);
    match Tokenize(codec, input, limits)
    case LexFailed(_) =>
    case Lexed(toks) =>
      LevelFine(input, toks, limits, 1, 0, 0, 0);
      var parsed := ParseLevel(toks, limits, 1, 0, 0, 0);
      if parsed.Ok? { TokenOn(input, toks, parsed.pos); }
  }

  lemma StartOn(input: string)
    ensures SpanOn(input, NoSpan)
  {
    assert input[..0] == "" && Bytes("") == 0;
    assert OnBoundary(input, 0);
  }
}
