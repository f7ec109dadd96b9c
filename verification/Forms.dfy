/** Each form of expression as tokens and as tree: what brackets, lists, calls, members and single tokens
    parse as, in order. */
module Forms {
  import opened Tokens
  import opened LexerSpec
  import opened Spanned
  import opened Grammar
  import opened RoundTrip
  import opened Ladder
  import S = Syntax

  /** Parts separated by commas. */
  function Commas(parts: seq<Cst>): seq<Kind> {
    if parts == [] then []
    else if |parts| == 1 then Spell(parts[0])
    else Commas(parts[..|parts| - 1]) + [Comma] + Spell(parts[|parts| - 1])
  }

  ghost predicate AllFit(parts: seq<Cst>) { forall i :: 0 <= i < |parts| ==> Fits(parts[i]) }

  /** The trees of the parts, in order. */
  ghost predicate InOrder(es: seq<S.Expr>, parts: seq<Cst>) {
    |es| == |parts| && forall i :: 0 <= i < |parts| ==> es[i] == Abs(parts[i])
  }

  lemma {:induction false} AbsInOrder(parts: seq<Cst>)
    ensures InOrder(AbsAll(parts), parts) && (AllFit(parts) ==> FitsAll(parts))
    decreases |parts|
  {
    hide Abs, Fits;
    if parts != [] { AbsInOrder(parts[1..]); }
  }

  lemma {:induction false} SpellAppends(parts: seq<Cst>, last: Cst)
    ensures SpellAll(parts + [last]) == if parts == [] then Spell(last) else SpellAll(parts) + [Comma] + Spell(last)
    decreases |parts|
  {
    hide Spell;
    if parts == [] {
      assert parts + [last] == [last];
    } else {
      assert (parts + [last])[1..] == parts[1..] + [last];
      SpellAppends(parts[1..], last);
    }
  }

  lemma {:induction false} CommasSpell(parts: seq<Cst>)
    ensures Commas(parts) == SpellAll(parts)
    decreases |parts|
  {
    hide Spell;
    if |parts| > 1 {
      var init, last := parts[..|parts| - 1], parts[|parts| - 1];
      assert parts == init + [last];
      CommasSpell(init);
      SpellAppends(init, last);
    }
  }

  /** The whole text is these tokens. */
  ghost predicate Reads(codec: FloatCodec, input: string, limits: ParseLimits, kinds: seq<Kind>) {
    Tokenize(codec, input, limits).Lexed? && Kinds(Tokenize(codec, input, limits).tokens) == kinds + [Eof]
  }

  ghost predicate ParsesAs(codec: FloatCodec, input: string, limits: ParseLimits, e: S.Expr) {
    ParseExpression(codec, input, limits).Accepted? && Strip(ParseExpression(codec, input, limits).ast) == e
  }

  lemma Derived(codec: FloatCodec, input: string, limits: ParseLimits, c: Cst)
    requires Reads(codec, input, limits, Spell(c)) && Fits(c) && Room(c, limits, 0, 0)
    ensures ParsesAs(codec, input, limits, Abs(c))
  {
    hide Tokenize, ParseExpression, Room, Spell, Fits, Abs;
    DerivationAccepted(codec, input, limits, c);
  }

  /** Brackets around parts are an array of them, in order; with a name before parentheses, a call; with a
      receiver and a point before that, a method call. */
  lemma Lists(codec: FloatCodec, input: string, limits: ParseLimits, parts: seq<Cst>, es: seq<S.Expr>)
    requires AllFit(parts) && InOrder(es, parts)
    ensures Reads(codec, input, limits, [LBracket] + Commas(parts) + [RBracket]) && Room(ListOf(parts), limits, 0, 0) ==>
      ParsesAs(codec, input, limits, S.Array(es))
    ensures forall name |
      && !S.IsReserved(name) && Room(CallOf(name, parts), limits, 0, 0)
      && Reads(codec, input, limits, [IdentTok(name), LParen] + Commas(parts) + [RParen]) ::
      ParsesAs(codec, input, limits, S.Call(name, es))
    ensures forall x, name |
      && Primary(x) && !S.IsReserved(name) && Room(MethodOf(x, name, parts), limits, 0, 0)
      && Reads(codec, input, limits, Spell(x) + [Dot, IdentTok(name), LParen] + Commas(parts) + [RParen]) ::
      ParsesAs(codec, input, limits, S.Method(Abs(x), name, es))
  {
    hide Reads, ParsesAs, Room, AllFit, InOrder, Commas, Primary;
    CommasSpell(parts);
    AbsInOrder(parts);
    SameOrder(es, AbsAll(parts), parts);
    if Reads(codec, input, limits, [LBracket] + Commas(parts) + [RBracket]) && Room(ListOf(parts), limits, 0, 0) {
      ListForm(parts);
      Derived(codec, input, limits, ListOf(parts));
    }
    forall name |
      && !S.IsReserved(name) && Room(CallOf(name, parts), limits, 0, 0)
      && Reads(codec, input, limits, [IdentTok(name), LParen] + Commas(parts) + [RParen])
      ensures ParsesAs(codec, input, limits, S.Call(name, es)) {
      CallForm(name, parts);
      Derived(codec, input, limits, CallOf(name, parts));
    }
    forall x, name |
      && Primary(x) && !S.IsReserved(name) && Room(MethodOf(x, name, parts), limits, 0, 0)
      && Reads(codec, input, limits, Spell(x) + [Dot, IdentTok(name), LParen] + Commas(parts) + [RParen])
      ensures ParsesAs(codec, input, limits, S.Method(Abs(x), name, es)) {
      MethodForm(x, name, parts);
      Derived(codec, input, limits, MethodOf(x, name, parts));
    }
  }

  lemma SameOrder(es: seq<S.Expr>, fs: seq<S.Expr>, parts: seq<Cst>)
    requires InOrder(es, parts) && InOrder(fs, parts)
    ensures es == fs
  {
    hide Abs;
  }

  lemma ListForm(parts: seq<Cst>)
    requires FitsAll(parts)
    ensures Fits(ListOf(parts)) && Spell(ListOf(parts)) == [LBracket] + SpellAll(parts) + [RBracket]
    ensures Abs(ListOf(parts)) == S.Array(AbsAll(parts))
  {
    hide FitsAll, SpellAll, AbsAll;
  }

  lemma CallForm(name: string, parts: seq<Cst>)
    requires FitsAll(parts) && !S.IsReserved(name)
    ensures Fits(CallOf(name, parts)) && Spell(CallOf(name, parts)) == [IdentTok(name), LParen] + SpellAll(parts) + [RParen]
    ensures Abs(CallOf(name, parts)) == S.Call(name, AbsAll(parts))
  {
    hide FitsAll, SpellAll, AbsAll;
  }

  lemma MethodForm(x: Cst, name: string, parts: seq<Cst>)
    requires FitsAll(parts) && Primary(x) && !S.IsReserved(name)
    ensures Fits(MethodOf(x, name, parts))
    ensures Spell(MethodOf(x, name, parts)) == Spell(x) + [Dot, IdentTok(name), LParen] + SpellAll(parts) + [RParen]
    ensures Abs(MethodOf(x, name, parts)) == S.Method(Abs(x), name, AbsAll(parts))
  {
    hide FitsAll, SpellAll, AbsAll;
  }

  /** Parentheses leave no trace. */
  lemma Parentheses(codec: FloatCodec, input: string, limits: ParseLimits, x: Cst)
    requires Fits(x) && Room(Group(x), limits, 0, 0)
    requires Reads(codec, input, limits, [LParen] + Spell(x) + [RParen])
    ensures ParsesAs(codec, input, limits, Abs(x))
  {
    hide Reads, ParsesAs, Room;
    GroupForm(x);
    Derived(codec, input, limits, Group(x));
  }

  lemma GroupForm(x: Cst)
    requires Fits(x)
    ensures Fits(Group(x)) && Spell(Group(x)) == [LParen] + Spell(x) + [RParen] && Abs(Group(x)) == Abs(x)
  {
  }

  /** What one token is, and which are not expressions. A name is one unless it is reserved. */
  function Single(kind: Kind): Option<S.Expr> {
    match kind
    case TrueTok => Some(S.Bool(true))
    case FalseTok => Some(S.Bool(false))
    case NullTok => Some(S.Null)
    case IntTok(number) => Some(S.Int(number))
    case FloatTok(bits) => Some(S.Float(bits))
    case StrTok(text) => Some(S.Str(text))
    case IdentTok(name) =>
      if name in ["if", "else", "for", "while", "do", "switch", "let", "const", "function", "import", "export",
                  "new", "try", "catch", "throw", "await", "return", "true", "false", "null"]
      then None else Some(S.Ident(name))
    case _ => None
  }

  /** A text of one token is accepted exactly when that token is an expression, and is that expression. */
  lemma OneToken(codec: FloatCodec, input: string, limits: ParseLimits, kind: Kind)
    requires CodecValid(codec) && limits.maxAstNodes >= 1 && Reads(codec, input, limits, [kind])
    ensures ParseExpression(codec, input, limits).Accepted? <==> Single(kind).Some?
    ensures Single(kind).Some? ==> ParsesAs(codec, input, limits, Single(kind).value)
  {
    hide Tokenize, ParseExpression, CodecValid, Room, Fits, Spell, Abs;
    if Single(kind).Some? {
      LeafForm(kind, limits);
      Derived(codec, input, limits, Leaf(kind));
    }
    if ParseExpression(codec, input, limits).Accepted? {
      var c := AcceptedDerives(codec, input, limits);
      LastOff(Spell(c), [kind]);
      LoneLeaf(c, kind);
    }
  }

  lemma LastOff(a: seq<Kind>, b: seq<Kind>)
    requires a + [Eof] == b + [Eof]
    ensures a == b
  {
    assert a == (a + [Eof])[..|a + [Eof]| - 1] && b == (b + [Eof])[..|b + [Eof]| - 1];
  }

  lemma LeafForm(kind: Kind, limits: ParseLimits)
    requires Single(kind).Some? && limits.maxAstNodes >= 1
    ensures Fits(Leaf(kind)) && Spell(Leaf(kind)) == [kind] && Abs(Leaf(kind)) == Single(kind).value
    ensures Room(Leaf(kind), limits, 0, 0)
  {
  }

  lemma LoneLeaf(c: Cst, kind: Kind)
    requires Fits(c) && Spell(c) == [kind]
    ensures Single(kind).Some?
  {
    SpellSize(c);
    assert c.Leaf? && c.kind == kind;
  }
}
