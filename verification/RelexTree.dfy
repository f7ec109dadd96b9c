/** Lexing the canonical text of a whole AST: the induction over the tree. Each piece is read as its
    canonical tokens, and what stands for those tokens is the layout of the piece. */
module RelexTree {
  import opened Text
  import opened Tokens
  import opened LexerSpec
  import opened LexerFacts
  import opened Grammar
  import opened Canonical
  import opened Printed
  import opened Relex
  import opened Layouts
  import opened Laying
  import S = Syntax

  /** What may follow a printed expression: nothing, a separator, a closer, or a member access. */
  predicate Boundary(after: string) {
    || after == "" || after[0] == ' ' || after[0] == ')' || after[0] == ']' || after[0] == ','
    || (after[0] == '.' && |after| > 1 && IsIdentStart(after[1]))
  }

  lemma BoundaryEnds(after: string)
    requires Boundary(after)
    ensures after == "" || (!IsIdentPart(after[0]) && !IsDigit(after[0]))
    ensures AfterInt(after)
  {
  }

  /** The one-character marks the formatter writes. */
  function Mark(kind: Kind): string {
    match kind
    case Dot => "."
    case Comma => ","
    case LParen => "("
    case RParen => ")"
    case LBracket => "["
    case RBracket => "]"
    case _ => ""
  }

  lemma Marks()
    ensures Mark(Dot) == "." && Mark(Comma) == "," && Mark(LParen) == "(" && Mark(RParen) == ")"
    ensures Mark(LBracket) == "[" && Mark(RBracket) == "]"
  {
  }

  lemma MarkReads(codec: FloatCodec, limits: ParseLimits, st: LexState, kind: Kind, rest: string)
    returns (r: LexState)
    requires Mark(kind) != "" && Ready(limits, st, Mark(kind) + rest, [kind])
    ensures Reads(codec, limits, st, r, rest, [kind]) && Pushed(st, r, kind) && r.offset == st.offset + 1
  {
    hide *;
    MarkTable(kind, PeekNext(st));
    r := PunctuationReads(codec, limits, st, Mark(kind), rest, kind);
    ReadyRest(limits, st, Mark(kind) + rest, [kind]);
    Consumed(codec, limits, st, r, Mark(kind) + rest, rest, [kind]);
    MarkBytes(kind, rest);
  }

  lemma MarkTable(kind: Kind, next: Option<char>)
    requires Mark(kind) != ""
    ensures |Mark(kind)| == 1 && IsPunctuation(Mark(kind)[0]) && Mark(kind)[0] != '/'
    ensures Punctuation(Mark(kind)[0], next) == Some((kind, 1))
  {
  }

  lemma MarkBytes(kind: Kind, rest: string)
    requires Mark(kind) != ""
    ensures Bytes(Mark(kind) + rest) == 1 + Bytes(rest)
  {
    hide Bytes;
    OneByte(Mark(kind)[0]);
    assert Mark(kind) == [Mark(kind)[0]];
    BytesConcat(Mark(kind), rest);
  }

  /** How far reading gets: as many tokens and bytes further as there were. */
  lemma Advanced(
    codec: FloatCodec, limits: ParseLimits, st: LexState, r: LexState, text: string, rest: string,
    ready: seq<Kind>, ks: seq<Kind>, width: nat)
    requires Ready(limits, st, text, ready) && Reads(codec, limits, st, r, rest, ks)
    requires Bytes(text) == width + Bytes(rest)
    ensures st.tokens <= r.tokens && |r.tokens| == |st.tokens| + |ks| && r.offset == st.offset + width
  {
    hide Run, ScalarSum, Bytes;
    Consumed(codec, limits, st, r, text, rest, ks);
  }

  /** The lexer's punctuation table read at an operator's text followed by a space. */
  lemma OperatorTable(op: S.BinaryOp)
    ensures var piece := S.BinaryText(op);
      && 1 <= |piece| <= 2 && IsPunctuation(piece[0])
      && Punctuation(piece[0], Some(if |piece| == 2 then piece[1] else ' ')) == Some((OpKind(op), |piece|))
      && (piece[0] == '/' ==> |piece| == 1)
  {
    hide *;
    if op.Or? || op.And? || op.Eq? || op.Ne? || op.Le? || op.Ge? {
      LongOperatorTable(op);
    } else {
      ShortOperatorTable(op);
    }
  }

  lemma LongOperatorTable(op: S.BinaryOp)
    requires op.Or? || op.And? || op.Eq? || op.Ne? || op.Le? || op.Ge?
    ensures var piece := S.BinaryText(op);
      && |piece| == 2 && IsPunctuation(piece[0]) && piece[0] != '/'
      && Punctuation(piece[0], Some(piece[1])) == Some((OpKind(op), 2))
  {
  }

  lemma ShortOperatorTable(op: S.BinaryOp)
    requires !(op.Or? || op.And? || op.Eq? || op.Ne? || op.Le? || op.Ge?)
    ensures var piece := S.BinaryText(op);
      && |piece| == 1 && IsPunctuation(piece[0])
      && Punctuation(piece[0], Some(' ')) == Some((OpKind(op), 1))
  {
    ShortOperatorMarks(op);
    hide IsPunctuation;
  }

  lemma ShortOperatorMarks(op: S.BinaryOp)
    requires !(op.Or? || op.And? || op.Eq? || op.Ne? || op.Le? || op.Ge?)
    ensures |S.BinaryText(op)| == 1 && IsPunctuation(S.BinaryText(op)[0])
  {
    var marks := ".,()[]-+*%/!=<>&|";
    assert marks[6] == '-' && marks[7] == '+' && marks[8] == '*' && marks[9] == '%' && marks[10] == '/';
    assert marks[13] == '<' && marks[14] == '>';
  }

  lemma PeekAfter(st: LexState, piece: string, rest: string)
    requires 1 <= |piece| <= 2 && rest != "" && st.rest == piece + rest
    ensures PeekNext(st) == Some(if |piece| == 2 then piece[1] else rest[0])
  {
  }

  lemma OperatorReads(codec: FloatCodec, limits: ParseLimits, st: LexState, op: S.BinaryOp, rest: string)
    returns (r: LexState)
    requires Ready(limits, st, S.BinaryText(op) + (" " + rest), [OpKind(op)])
    ensures Reads(codec, limits, st, r, " " + rest, [OpKind(op)])
  {
    hide *;
    var piece := S.BinaryText(op);
    OperatorTable(op);
    ReadyRest(limits, st, piece + (" " + rest), [OpKind(op)]);
    PeekAfter(st, piece, " " + rest);
    r := PunctuationReads(codec, limits, st, piece, " " + rest, OpKind(op));
  }

  lemma ReadyRest(limits: ParseLimits, st: LexState, text: string, ks: seq<Kind>)
    requires Ready(limits, st, text, ks)
    ensures st.rest == text
  {
  }

  lemma PrefixTable(op: S.UnaryOp, next: char)
    requires next != '='
    ensures var piece := S.UnaryText(op);
      && |piece| == 1 && IsPunctuation(piece[0]) && piece[0] != '/'
      && Punctuation(piece[0], Some(next)) == Some((PrefixKind(op), 1))
  {
  }

  lemma PrefixReads(codec: FloatCodec, limits: ParseLimits, st: LexState, op: S.UnaryOp, rest: string)
    returns (r: LexState)
    requires rest != "" && rest[0] != '=' && Ready(limits, st, S.UnaryText(op) + rest, [PrefixKind(op)])
    ensures Reads(codec, limits, st, r, rest, [PrefixKind(op)]) && Pushed(st, r, PrefixKind(op))
    ensures r.offset == st.offset + 1
  {
    hide *;
    var piece := S.UnaryText(op);
    PieceBytes(piece, rest);
    PrefixTable(op, rest[0]);
    ReadyRest(limits, st, piece + rest, [PrefixKind(op)]);
    PeekAfter(st, piece, rest);
    r := PunctuationReads(codec, limits, st, piece, rest, PrefixKind(op));
    OneCharBytes(piece);
    Advanced(codec, limits, st, r, piece + rest, rest, [PrefixKind(op)], [PrefixKind(op)], Bytes(piece));
  }

  lemma PieceBytes(piece: string, rest: string)
    ensures Bytes(piece + rest) == Bytes(piece) + Bytes(rest)
  {
    BytesConcat(piece, rest);
  }

  lemma OneCharBytes(piece: string)
    requires |piece| == 1 && IsPunctuation(piece[0])
    ensures Bytes(piece) == 1
  {
    hide Bytes;
    OneByte(piece[0]);
    assert piece == [piece[0]];
  }

  /** A name reads as one identifier token before anything that cannot continue it. */
  lemma NameReads(codec: FloatCodec, limits: ParseLimits, st: LexState, name: string, rest: string)
    returns (r: LexState)
    requires S.IsValidName(name) && (rest == "" || !IsIdentPart(rest[0]))
    requires Ready(limits, st, name + rest, [IdentTok(name)])
    ensures Reads(codec, limits, st, r, rest, [IdentTok(name)]) && Pushed(st, r, IdentTok(name))
    ensures r.offset == st.offset + Bytes(name)
  {
    BytesConcat(name, rest);
    assert S.IsReserved("true") && S.IsReserved("false") && S.IsReserved("null");
    r := WordReads(codec, limits, st, name, rest);
  }

  /** Expressions never start with an equals sign, so a printed `!` never becomes `!=`. */
  lemma {:induction false} FirstChar(codec: FloatCodec, e: S.Expr, after: string)
    requires NamesValid(e) && ValuesReadable(codec, e)
    ensures Then(codec, e, after) != "" && Then(codec, e, after)[0] != '='
    decreases e, 2
  {
    match e
    case Int(number) => assert IntText(number)[0] == Numeral(number)[0];
    case Float(bits) => FloatRunStops(FloatText(codec, bits), "");
    case Member(receiver, name) => FirstCharAt(codec, receiver, 8, AsReceiver, "." + (name + after));
    case Method(receiver, name, args) =>
      FirstCharAt(codec, receiver, 8, AsReceiver, "." + (name + ("(" + ThenAll(codec, args, ")" + after))));
    case Binary(left, op, right) =>
      var own := S.BinaryPrecedence(op);
      FirstCharAt(codec, left, own, LeftOf,
        " " + (S.BinaryText(op) + (" " + ThenAt(codec, right, own, RightOf, after))));
    case _ =>
  }

  lemma {:induction false} FirstCharAt(codec: FloatCodec, e: S.Expr, parent: nat, side: Side, after: string)
    requires NamesValid(e) && ValuesReadable(codec, e)
    ensures ThenAt(codec, e, parent, side, after) != "" && ThenAt(codec, e, parent, side, after)[0] != '='
    decreases e, 3
  {
    if !NeedsParentheses(Precedence(e), parent, side) { FirstChar(codec, e, after); }
  }

  // ----- leaves -----

  lemma LeafReads(codec: FloatCodec, limits: ParseLimits, st: LexState, e: S.Expr, after: string)
    returns (r: LexState)
    requires e.Null? || e.Bool? || e.Int? || e.Float? || e.Str? || e.Ident?
    requires NamesValid(e) && ValuesReadable(codec, e) && Boundary(after)
    requires Ready(limits, st, Then(codec, e, after), Spell(Canon(e)))
    ensures Reads(codec, limits, st, r, after, Spell(Canon(e))) && Pushed(st, r, LeafKind(e))
  {
    hide *;
    BoundaryEnds(after);
    KeywordKinds();
    LeafShape(codec, e, after);
    match e
    case Null => r := WordReads(codec, limits, st, "null", after);
    case Bool(flag) => r := WordReads(codec, limits, st, if flag then "true" else "false", after);
    case Int(number) => r := IntReads(codec, limits, st, number, after);
    case Float(bits) => r := FloatReads(codec, limits, st, bits, after);
    case Str(text) => r := QuotedReads(codec, limits, st, text, after);
    case Ident(name) => r := NameReads(codec, limits, st, name, after);
  }

  lemma KeywordKinds()
    ensures WordKind("null") == NullTok && WordKind("true") == TrueTok && WordKind("false") == FalseTok
    ensures KindScalars(NullTok) == Bytes("null") && KindScalars(TrueTok) == Bytes("true")
    ensures KindScalars(FalseTok) == Bytes("false")
    ensures S.IsIdentText("null") && S.IsIdentText("true") && S.IsIdentText("false")
  {
    KeywordBytes();
  }

  lemma LeafShape(codec: FloatCodec, e: S.Expr, after: string)
    requires e.Null? || e.Bool? || e.Int? || e.Float? || e.Str? || e.Ident?
    requires NamesValid(e) && ValuesReadable(codec, e)
    ensures Spell(Canon(e)) == [LeafKind(e)]
    ensures e.Null? ==> LeafKind(e) == NullTok && Then(codec, e, after) == "null" + after
    ensures e.Bool? ==>
      && LeafKind(e) == (if e.flag then TrueTok else FalseTok)
      && Then(codec, e, after) == (if e.flag then "true" else "false") + after
    ensures e.Int? ==>
      0 <= e.number <= I64_MAX && LeafKind(e) == IntTok(e.number) && Then(codec, e, after) == IntText(e.number) + after
    ensures e.Float? ==>
      && Readable(codec, e.bits) && LeafKind(e) == FloatTok(e.bits)
      && Then(codec, e, after) == FloatText(codec, e.bits) + after
    ensures e.Str? ==> LeafKind(e) == StrTok(e.text) && Then(codec, e, after) == Quoted(e.text, after)
    ensures e.Ident? ==>
      S.IsValidName(e.name) && LeafKind(e) == IdentTok(e.name) && Then(codec, e, after) == e.name + after
  {
    hide FloatText, IntText, Quoted, Readable, S.IsValidName;
  }

  // ----- the induction -----

  lemma {:induction false} ThenReads(codec: FloatCodec, limits: ParseLimits, st: LexState, e: S.Expr, after: string)
    returns (r: LexState)
    requires NamesValid(e) && ValuesReadable(codec, e) && Boundary(after)
    requires Ready(limits, st, Then(codec, e, after), Spell(Canon(e)))
    ensures Reads(codec, limits, st, r, after, Spell(Canon(e)))
    ensures Laid(Layout(codec, e, st.offset), Canon(e), st, r)
    decreases e, 2
  {
    hide *;
    if e.Array? {
      r := ArrayReads(codec, limits, st, e, after);
    } else if e.Member? {
      r := MemberReads(codec, limits, st, e, after);
    } else if e.Call? {
      r := CallReads(codec, limits, st, e, after);
    } else if e.Method? {
      r := MethodReads(codec, limits, st, e, after);
    } else if e.Unary? {
      r := UnaryReads(codec, limits, st, e, after);
    } else if e.Binary? {
      r := BinaryReads(codec, limits, st, e, after);
    } else {
      r := LeafReads(codec, limits, st, e, after);
      ThenWidth(codec, e, after);
      Advanced(codec, limits, st, r, Then(codec, e, after), after, Spell(Canon(e)), Spell(Canon(e)), Width(codec, e));
      LeafLaid(codec, e, st, r);
    }
  }

  lemma {:induction false} AtReads(
    codec: FloatCodec, limits: ParseLimits, st: LexState, e: S.Expr, parent: nat, side: Side, after: string)
    returns (r: LexState)
    requires NamesValid(e) && ValuesReadable(codec, e) && Boundary(after)
    requires Ready(limits, st, ThenAt(codec, e, parent, side, after), Spell(CanonAt(e, parent, side)))
    ensures Reads(codec, limits, st, r, after, Spell(CanonAt(e, parent, side)))
    ensures Laid(LayoutAt(codec, e, parent, side, st.offset), CanonAt(e, parent, side), st, r)
    decreases e, 3
  {
    hide *;
    AtParts(codec, e, parent, side, after);
    AtShape(codec, e, parent, side, st.offset);
    if NeedsParentheses(Precedence(e), parent, side) {
      var text, end := Then(codec, e, Mark(RParen) + after), Mark(RParen) + after;
      var st1 := Open(codec, limits, st, LParen, text, Spell(Canon(e)), [RParen]);
      ReadyFirst(limits, st1, text, Spell(Canon(e)), [RParen]);
      var st2 := ThenReads(codec, limits, st1, e, end);
      r := Close(codec, limits, st, st1, st2, text, LParen, Spell(Canon(e)), RParen, after);
      PushedOne(st, st1, LParen);
      PushedOne(st2, r, RParen);
      GroupLaid(Layout(codec, e, st1.offset), Canon(e), st, st1, st2, r);
    } else {
      r := ThenReads(codec, limits, st, e, after);
    }
  }

  lemma PushedOne(st: LexState, r: LexState, kind: Kind)
    requires Pushed(st, r, kind)
    ensures st.tokens <= r.tokens && |r.tokens| == |st.tokens| + 1
  {
  }

  lemma AtShape(codec: FloatCodec, e: S.Expr, parent: nat, side: Side, at: nat)
    ensures if NeedsParentheses(Precedence(e), parent, side) then
              CanonAt(e, parent, side) == Group(Canon(e)) && LayoutAt(codec, e, parent, side, at) == Layout(codec, e, at + 1)
            else
              CanonAt(e, parent, side) == Canon(e) && LayoutAt(codec, e, parent, side, at) == Layout(codec, e, at)
  {
    hide Canon, Layout;
  }

  lemma AtParts(codec: FloatCodec, e: S.Expr, parent: nat, side: Side, after: string)
    ensures NeedsParentheses(Precedence(e), parent, side) ==>
      && Spell(CanonAt(e, parent, side)) == [LParen] + Spell(Canon(e)) + [RParen]
      && ThenAt(codec, e, parent, side, after) == Mark(LParen) + Then(codec, e, Mark(RParen) + after)
      && Boundary(Mark(RParen) + after) && Mark(LParen) != "" && Mark(RParen) != ""
    ensures !NeedsParentheses(Precedence(e), parent, side) ==>
      CanonAt(e, parent, side) == Canon(e) && ThenAt(codec, e, parent, side, after) == Then(codec, e, after)
  {
  }

  /** Reading an opening mark in front of `ks + tail`. */
  lemma Open(
    codec: FloatCodec, limits: ParseLimits, st: LexState, open: Kind, text: string, ks: seq<Kind>, tail: seq<Kind>)
    returns (st1: LexState)
    requires Mark(open) != "" && Ready(limits, st, Mark(open) + text, [open] + ks + tail)
    ensures Reads(codec, limits, st, st1, text, [open]) && Ready(limits, st1, text, ks + tail)
    ensures Pushed(st, st1, open) && st1.offset == st.offset + 1
  {
    hide *;
    assert [open] + ks + tail == [open] + (ks + tail);
    ReadyFirst(limits, st, Mark(open) + text, [open], ks + tail);
    st1 := MarkReads(codec, limits, st, open, text);
    ReadyNext(codec, limits, st, st1, Mark(open) + text, text, [open], ks + tail);
  }

  /** Reading the closing mark once the inside has been read. */
  lemma Close(
    codec: FloatCodec, limits: ParseLimits, st: LexState, st1: LexState, st2: LexState,
    text: string, open: Kind, ks: seq<Kind>, close: Kind, after: string)
    returns (r: LexState)
    requires Reads(codec, limits, st, st1, text, [open]) && Ready(limits, st1, text, ks + [close])
    requires Mark(close) != "" && Reads(codec, limits, st1, st2, Mark(close) + after, ks)
    ensures Reads(codec, limits, st, r, after, [open] + ks + [close])
    ensures Pushed(st2, r, close) && r.offset == st2.offset + 1
  {
    hide *;
    ReadyNext(codec, limits, st1, st2, text, Mark(close) + after, ks, [close]);
    r := MarkReads(codec, limits, st2, close, after);
    ReadsThen(codec, limits, st1, st2, r, Mark(close) + after, after, ks, [close]);
    ReadsThen(codec, limits, st, st1, r, text, after, [open], ks + [close]);
    assert [open] + (ks + [close]) == [open] + ks + [close];
  }

  /** Reading a space in front of `ks`. */
  lemma Skip(codec: FloatCodec, limits: ParseLimits, st: LexState, rest: string, ks: seq<Kind>)
    returns (r: LexState)
    requires Ready(limits, st, " " + rest, ks)
    ensures Reads(codec, limits, st, r, rest, []) && Ready(limits, r, rest, ks)
  {
    hide *;
    assert [] + ks == ks;
    ReadyFirst(limits, st, " " + rest, [], ks);
    r := SpaceReads(codec, limits, st, rest);
    ReadyNext(codec, limits, st, r, " " + rest, rest, [], ks);
  }

  /** Reading `ks1` and then, from where it stopped, `ks2`. */
  lemma Join2(
    codec: FloatCodec, limits: ParseLimits, st: LexState, st1: LexState, r: LexState,
    rest1: string, rest: string, ks1: seq<Kind>, ks2: seq<Kind>, ks: seq<Kind>)
    requires Reads(codec, limits, st, st1, rest1, ks1) && Reads(codec, limits, st1, r, rest, ks2)
    requires ks == ks1 + ks2
    ensures Reads(codec, limits, st, r, rest, ks)
  {
    hide *;
    ReadsThen(codec, limits, st, st1, r, rest1, rest, ks1, ks2);
  }

  /** A list between its marks. */
  lemma {:induction false} ListReads(
    codec: FloatCodec, limits: ParseLimits, st: LexState, open: Kind, es: seq<S.Expr>, close: Kind, after: string)
    returns (st1: LexState, st2: LexState, r: LexState)
    requires NamesValidAll(es) && ValuesReadableAll(codec, es)
    requires (open == LBracket && close == RBracket) || (open == LParen && close == RParen)
    requires Ready(limits, st, Mark(open) + ThenAll(codec, es, Mark(close) + after),
                   [open] + SpellAll(CanonAll(es)) + [close])
    ensures Reads(codec, limits, st, r, after, [open] + SpellAll(CanonAll(es)) + [close])
    ensures ListLaid(codec, es, st, st1, st2, r, open, close)
    decreases es, 2
  {
    hide *;
    Closers(open, close, after);
    var ks, end := SpellAll(CanonAll(es)), Mark(close) + after;
    st1 := Open(codec, limits, st, open, ThenAll(codec, es, end), ks, [close]);
    ReadyFirst(limits, st1, ThenAll(codec, es, end), ks, [close]);
    st2 := AllReads(codec, limits, st1, es, end);
    r := Close(codec, limits, st, st1, st2, ThenAll(codec, es, end), open, ks, close, after);
    ThenAllWidth(codec, es, end);
    Advanced(codec, limits, st1, st2, ThenAll(codec, es, end), end, ks, ks, WidthAll(codec, es));
    ListIsLaid(codec, es, st, st1, st2, r, open, close);
  }

  lemma Closers(open: Kind, close: Kind, after: string)
    requires (open == LBracket && close == RBracket) || (open == LParen && close == RParen)
    ensures Boundary(Mark(close) + after) && Mark(open) != "" && Mark(close) != ""
  {
  }

  lemma ListIsLaid(
    codec: FloatCodec, es: seq<S.Expr>, st: LexState, st1: LexState, st2: LexState, r: LexState, open: Kind, close: Kind)
    requires Pushed(st, st1, open) && st1.offset == st.offset + 1
    requires LaidAll(LayoutAll(codec, es, st1.offset), CanonAll(es), st1, st2)
    requires st1.tokens <= st2.tokens && st1.offset <= st2.offset
    requires Pushed(st2, r, close) && r.offset == st2.offset + 1
    ensures ListLaid(codec, es, st, st1, st2, r, open, close)
  {
    hide LaidAll, LayoutAll;
  }

  lemma AllParts(codec: FloatCodec, es: seq<S.Expr>, after: string)
    requires es != [] && NamesValidAll(es) && ValuesReadableAll(codec, es)
    ensures NamesValid(es[0]) && ValuesReadable(codec, es[0])
    ensures NamesValidAll(es[1..]) && ValuesReadableAll(codec, es[1..])
    ensures |es| == 1 ==> ThenAll(codec, es, after) == Then(codec, es[0], after)
    ensures |es| == 1 ==> SpellAll(CanonAll(es)) == Spell(Canon(es[0]))
    ensures |es| > 1 ==>
      ThenAll(codec, es, after) == Then(codec, es[0], Mark(Comma) + (" " + ThenAll(codec, es[1..], after)))
    ensures |es| > 1 ==>
      SpellAll(CanonAll(es)) == Spell(Canon(es[0])) + ([Comma] + SpellAll(CanonAll(es[1..])))
    ensures Boundary(Mark(Comma) + (" " + ThenAll(codec, es[1..], after))) && Mark(Comma) != ""
  {
    hide Then, Spell, Canon, NamesValid, ValuesReadable;
    var tail := ThenAll(codec, es[1..], after);
    assert Mark(Comma) + (" " + tail) == ", " + tail;
    assert CanonAll(es)[0] == Canon(es[0]) && CanonAll(es)[1..] == CanonAll(es[1..]);
  }

  lemma {:induction false} AllReads(codec: FloatCodec, limits: ParseLimits, st: LexState, es: seq<S.Expr>, after: string)
    returns (r: LexState)
    requires NamesValidAll(es) && ValuesReadableAll(codec, es) && Boundary(after)
    requires Ready(limits, st, ThenAll(codec, es, after), SpellAll(CanonAll(es)))
    ensures Reads(codec, limits, st, r, after, SpellAll(CanonAll(es)))
    ensures LaidAll(LayoutAll(codec, es, st.offset), CanonAll(es), st, r)
    decreases es, 1
  {
    hide *;
    if es == [] {
      r := st;
      NothingReads(codec, limits, st, after);
    } else {
      ItemShape(codec, es, st.offset);
      AllParts(codec, es, after);
      var rest := ThenAll(codec, es[1..], after);
      if |es| == 1 {
        r := ThenReads(codec, limits, st, es[0], after);
        OneLaid(Layout(codec, es[0], st.offset), CanonAll(es), st, r);
      } else {
        var first, others := Spell(Canon(es[0])), SpellAll(CanonAll(es[1..]));
        var text, text1 := ThenAll(codec, es, after), Mark(Comma) + (" " + rest);
        ReadyFirst(limits, st, text, first, [Comma] + others);
        var st1 := ThenReads(codec, limits, st, es[0], text1);
        ReadyNext(codec, limits, st, st1, text, text1, first, [Comma] + others);
        var st4 := SeparatorReads(codec, limits, st1, es, others, after);
        Join2(codec, limits, st, st1, st4, text1, rest, first, [Comma], first + [Comma]);
        assert first + ([Comma] + others) == (first + [Comma]) + others;
        ReadyNext(codec, limits, st, st4, text, rest, first + [Comma], others);
        r := AllReads(codec, limits, st4, es[1..], after);
        Join2(codec, limits, st, st4, r, rest, after, first + [Comma], others, SpellAll(CanonAll(es)));
        ThenWidth(codec, es[0], text1);
        Advanced(codec, limits, st, st1, text, text1, SpellAll(CanonAll(es)), first, Width(codec, es[0]));
        SeparatorBytes(rest);
        Advanced(codec, limits, st1, st4, text1, rest, [Comma] + others, [Comma], 2);
        ThenAllWidth(codec, es[1..], after);
        Advanced(codec, limits, st4, r, rest, after, others, others, WidthAll(codec, es[1..]));
        ConsLaid(Layout(codec, es[0], st.offset), LayoutAll(codec, es[1..], st4.offset), CanonAll(es), st, st1, st4, r);
      }
    }
  }

  lemma NothingReads(codec: FloatCodec, limits: ParseLimits, st: LexState, after: string)
    requires Ready(limits, st, ThenAll(codec, [], after), SpellAll(CanonAll([])))
    ensures Reads(codec, limits, st, st, after, SpellAll(CanonAll([])))
    ensures LaidAll(LayoutAll(codec, [], st.offset), CanonAll([]), st, st)
  {
    hide Run;
    NoneLaid(st);
    assert Kinds(st.tokens) + [] == Kinds(st.tokens);
  }

  lemma ItemShape(codec: FloatCodec, es: seq<S.Expr>, at: nat)
    requires es != []
    ensures |CanonAll(es)| == |es| && CanonAll(es)[0] == Canon(es[0]) && CanonAll(es)[1..] == CanonAll(es[1..])
    ensures LayoutAll(codec, es, at)
         == [Layout(codec, es[0], at)] + LayoutAll(codec, es[1..], at + Width(codec, es[0]) + 2)
    ensures |es| == 1 ==> LayoutAll(codec, es, at) == [Layout(codec, es[0], at)]
  {
    hide Canon, Layout, Width;
  }

  lemma SeparatorBytes(rest: string)
    ensures Bytes(Mark(Comma) + (" " + rest)) == 2 + Bytes(rest)
  {
    hide Bytes;
    MarkBytes(Comma, " " + rest);
    OneByte(' ');
    BytesConcat(" ", rest);
  }

  /** The comma and the space in front of the rest of a list. */
  lemma SeparatorReads(
    codec: FloatCodec, limits: ParseLimits, st: LexState, es: seq<S.Expr>, others: seq<Kind>, after: string)
    returns (r: LexState)
    requires es != [] && Mark(Comma) != ""
    requires Ready(limits, st, Mark(Comma) + (" " + ThenAll(codec, es[1..], after)), [Comma] + others)
    ensures Reads(codec, limits, st, r, ThenAll(codec, es[1..], after), [Comma])
  {
    hide *;
    var rest := ThenAll(codec, es[1..], after);
    var text := Mark(Comma) + (" " + rest);
    ReadyFirst(limits, st, text, [Comma], others);
    var st1 := MarkReads(codec, limits, st, Comma, " " + rest);
    ReadyNext(codec, limits, st, st1, text, " " + rest, [Comma], others);
    r := Skip(codec, limits, st1, rest, others);
    Join2(codec, limits, st, st1, r, " " + rest, rest, [Comma], [], [Comma]);
  }

  lemma {:induction false} ArrayReads(codec: FloatCodec, limits: ParseLimits, st: LexState, e: S.Expr, after: string)
    returns (r: LexState)
    requires e.Array? && NamesValid(e) && ValuesReadable(codec, e) && Boundary(after)
    requires Ready(limits, st, Then(codec, e, after), Spell(Canon(e)))
    ensures Reads(codec, limits, st, r, after, Spell(Canon(e)))
    ensures Laid(Layout(codec, e, st.offset), Canon(e), st, r)
    decreases e, 1
  {
    assert Then(codec, e, after) == Mark(LBracket) + ThenAll(codec, e.items, Mark(RBracket) + after);
    assert Spell(Canon(e)) == [LBracket] + SpellAll(CanonAll(e.items)) + [RBracket];
    hide *;
    var st1, st2;
    st1, st2, r := ListReads(codec, limits, st, LBracket, e.items, RBracket, after);
    WholeWidth(codec, limits, st, e, after, r);
    ArrayLaid(codec, e, st, st1, st2, r);
  }

  /** A whole expression moves the offset by its width. */
  lemma WholeWidth(codec: FloatCodec, limits: ParseLimits, st: LexState, e: S.Expr, after: string, r: LexState)
    requires Ready(limits, st, Then(codec, e, after), Spell(Canon(e)))
    requires Reads(codec, limits, st, r, after, Spell(Canon(e)))
    ensures st.tokens <= r.tokens && r.offset == st.offset + Width(codec, e)
  {
    hide *;
    ThenWidth(codec, e, after);
    Advanced(codec, limits, st, r, Then(codec, e, after), after, Spell(Canon(e)), Spell(Canon(e)), Width(codec, e));
  }

  lemma AtWidth(
    codec: FloatCodec, limits: ParseLimits, st: LexState, e: S.Expr, parent: nat, side: Side, after: string,
    ready: seq<Kind>, r: LexState)
    requires Ready(limits, st, ThenAt(codec, e, parent, side, after), ready)
    requires Reads(codec, limits, st, r, after, Spell(CanonAt(e, parent, side)))
    ensures st.tokens <= r.tokens && r.offset == st.offset + WidthAt(codec, e, parent, side)
  {
    hide *;
    ThenAtWidth(codec, e, parent, side, after);
    Advanced(codec, limits, st, r, ThenAt(codec, e, parent, side, after), after, ready, Spell(CanonAt(e, parent, side)),
             WidthAt(codec, e, parent, side));
  }

  lemma {:induction false} CallReads(codec: FloatCodec, limits: ParseLimits, st: LexState, e: S.Expr, after: string)
    returns (r: LexState)
    requires e.Call? && NamesValid(e) && ValuesReadable(codec, e) && Boundary(after)
    requires Ready(limits, st, Then(codec, e, after), Spell(Canon(e)))
    ensures Reads(codec, limits, st, r, after, Spell(Canon(e)))
    ensures Laid(Layout(codec, e, st.offset), Canon(e), st, r)
    decreases e, 1
  {
    var text := Mark(LParen) + ThenAll(codec, e.args, Mark(RParen) + after);
    var list := [LParen] + SpellAll(CanonAll(e.args)) + [RParen];
    assert Then(codec, e, after) == e.name + text && !IsIdentPart(text[0]);
    assert Spell(Canon(e)) == [IdentTok(e.name)] + list;
    hide *;
    ReadyFirst(limits, st, e.name + text, [IdentTok(e.name)], list);
    var st1 := NameReads(codec, limits, st, e.name, text);
    ReadyNext(codec, limits, st, st1, e.name + text, text, [IdentTok(e.name)], list);
    var st2, st3;
    st2, st3, r := ListReads(codec, limits, st1, LParen, e.args, RParen, after);
    Join2(codec, limits, st, st1, r, text, after, [IdentTok(e.name)], list, Spell(Canon(e)));
    WholeWidth(codec, limits, st, e, after, r);
    CallLaid(codec, e, st, st1, st2, st3, r);
  }

  /** A point and a name. */
  lemma DotReads(codec: FloatCodec, limits: ParseLimits, st: LexState, name: string, rest: string, ks: seq<Kind>)
    returns (r: LexState)
    requires S.IsValidName(name) && (rest == "" || !IsIdentPart(rest[0]))
    requires Ready(limits, st, "." + (name + rest), [Dot, IdentTok(name)] + ks)
    ensures Reads(codec, limits, st, r, rest, [Dot, IdentTok(name)]) && Ready(limits, r, rest, ks)
    ensures Dotted(st, r, name)
  {
    Marks();
    hide *;
    var text, ks1 := name + rest, [IdentTok(name)] + ks;
    assert [Dot, IdentTok(name)] + ks == [Dot] + ks1;
    ReadyFirst(limits, st, "." + text, [Dot], ks1);
    var st1 := MarkReads(codec, limits, st, Dot, text);
    ReadyNext(codec, limits, st, st1, "." + text, text, [Dot], ks1);
    ReadyFirst(limits, st1, text, [IdentTok(name)], ks);
    r := NameReads(codec, limits, st1, name, rest);
    ReadyNext(codec, limits, st1, r, text, rest, [IdentTok(name)], ks);
    Join2(codec, limits, st, st1, r, text, rest, [Dot], [IdentTok(name)], [Dot, IdentTok(name)]);
    IsDotted(st, st1, r, name);
  }

  lemma IsDotted(st: LexState, st1: LexState, r: LexState, name: string)
    requires Pushed(st, st1, Dot) && st1.offset == st.offset + 1
    requires Pushed(st1, r, IdentTok(name)) && r.offset == st1.offset + Bytes(name)
    ensures Dotted(st, r, name)
  {
    hide Bytes;
  }

  lemma {:induction false} MemberReads(codec: FloatCodec, limits: ParseLimits, st: LexState, e: S.Expr, after: string)
    returns (r: LexState)
    requires e.Member? && NamesValid(e) && ValuesReadable(codec, e) && Boundary(after)
    requires Ready(limits, st, Then(codec, e, after), Spell(Canon(e)))
    ensures Reads(codec, limits, st, r, after, Spell(Canon(e)))
    ensures Laid(Layout(codec, e, st.offset), Canon(e), st, r)
    decreases e, 1
  {
    BoundaryEnds(after);
    var text := "." + (e.name + after);
    var first, second := Spell(CanonAt(e.receiver, 8, AsReceiver)), [Dot, IdentTok(e.name)];
    assert Then(codec, e, after) == ThenAt(codec, e.receiver, 8, AsReceiver, text);
    assert text[1] == e.name[0] && Boundary(text);
    assert Spell(Canon(e)) == first + second;
    hide *;
    ReadyFirst(limits, st, Then(codec, e, after), first, second);
    var st1 := AtReads(codec, limits, st, e.receiver, 8, AsReceiver, text);
    ReadyNext(codec, limits, st, st1, Then(codec, e, after), text, first, second);
    assert second + [] == second;
    r := DotReads(codec, limits, st1, e.name, after, []);
    Join2(codec, limits, st, st1, r, text, after, first, second, Spell(Canon(e)));
    AtWidth(codec, limits, st, e.receiver, 8, AsReceiver, text, first, st1);
    MemberLaid(codec, e, st, st1, r);
  }

  lemma {:induction false} MethodReads(codec: FloatCodec, limits: ParseLimits, st: LexState, e: S.Expr, after: string)
    returns (r: LexState)
    requires e.Method? && NamesValid(e) && ValuesReadable(codec, e) && Boundary(after)
    requires Ready(limits, st, Then(codec, e, after), Spell(Canon(e)))
    ensures Reads(codec, limits, st, r, after, Spell(Canon(e)))
    ensures Laid(Layout(codec, e, st.offset), Canon(e), st, r)
    decreases e, 1
  {
    var text2 := Mark(LParen) + ThenAll(codec, e.args, Mark(RParen) + after);
    var text := "." + (e.name + text2);
    var first, second := Spell(CanonAt(e.receiver, 8, AsReceiver)), [Dot, IdentTok(e.name)];
    var list := [LParen] + SpellAll(CanonAll(e.args)) + [RParen];
    assert Then(codec, e, after) == ThenAt(codec, e.receiver, 8, AsReceiver, text);
    assert text[1] == e.name[0] && Boundary(text) && !IsIdentPart(text2[0]);
    assert Spell(Canon(e)) == first + (second + list);
    hide *;
    ReadyFirst(limits, st, Then(codec, e, after), first, second + list);
    var st1 := AtReads(codec, limits, st, e.receiver, 8, AsReceiver, text);
    ReadyNext(codec, limits, st, st1, Then(codec, e, after), text, first, second + list);
    var st2 := DotReads(codec, limits, st1, e.name, text2, list);
    var st3, st4;
    st3, st4, r := ListReads(codec, limits, st2, LParen, e.args, RParen, after);
    Join2(codec, limits, st1, st2, r, text2, after, second, list, second + list);
    Join2(codec, limits, st, st1, r, text, after, first, second + list, Spell(Canon(e)));
    AtWidth(codec, limits, st, e.receiver, 8, AsReceiver, text, first, st1);
    WholeWidth(codec, limits, st, e, after, r);
    MethodLaid(codec, e, st, st1, st2, st3, st4, r);
  }

  lemma {:induction false} UnaryReads(codec: FloatCodec, limits: ParseLimits, st: LexState, e: S.Expr, after: string)
    returns (r: LexState)
    requires e.Unary? && NamesValid(e) && ValuesReadable(codec, e) && Boundary(after)
    requires Ready(limits, st, Then(codec, e, after), Spell(Canon(e)))
    ensures Reads(codec, limits, st, r, after, Spell(Canon(e)))
    ensures Laid(Layout(codec, e, st.offset), Canon(e), st, r)
    decreases e, 1
  {
    var text := ThenAt(codec, e.operand, 7, UnderPrefix, after);
    var second := Spell(CanonAt(e.operand, 7, UnderPrefix));
    assert Then(codec, e, after) == S.UnaryText(e.uop) + text;
    assert Spell(Canon(e)) == [PrefixKind(e.uop)] + second;
    FirstCharAt(codec, e.operand, 7, UnderPrefix, after);
    hide *;
    ReadyFirst(limits, st, Then(codec, e, after), [PrefixKind(e.uop)], second);
    var st1 := PrefixReads(codec, limits, st, e.uop, text);
    ReadyNext(codec, limits, st, st1, Then(codec, e, after), text, [PrefixKind(e.uop)], second);
    r := AtReads(codec, limits, st1, e.operand, 7, UnderPrefix, after);
    Join2(codec, limits, st, st1, r, text, after, [PrefixKind(e.uop)], second, Spell(Canon(e)));
    AtWidth(codec, limits, st1, e.operand, 7, UnderPrefix, after, second, r);
    UnaryLaid(codec, e, st, st1, r);
  }

  lemma {:induction false} BinaryReads(codec: FloatCodec, limits: ParseLimits, st: LexState, e: S.Expr, after: string)
    returns (r: LexState)
    requires e.Binary? && NamesValid(e) && ValuesReadable(codec, e) && Boundary(after)
    requires Ready(limits, st, Then(codec, e, after), Spell(Canon(e)))
    ensures Reads(codec, limits, st, r, after, Spell(Canon(e)))
    ensures Laid(Layout(codec, e, st.offset), Canon(e), st, r)
    decreases e, 1
  {
    var own := S.BinaryPrecedence(e.op);
    var text2 := ThenAt(codec, e.right, own, RightOf, after);
    var text1 := S.BinaryText(e.op) + (" " + text2);
    var first, third := Spell(CanonAt(e.left, own, LeftOf)), Spell(CanonAt(e.right, own, RightOf));
    var rest := [OpKind(e.op)] + third;
    assert Then(codec, e, after) == ThenAt(codec, e.left, own, LeftOf, " " + text1);
    assert Spell(Canon(e)) == first + rest;
    assert Boundary(" " + text1);
    hide *;
    ReadyFirst(limits, st, Then(codec, e, after), first, rest);
    var st1 := AtReads(codec, limits, st, e.left, own, LeftOf, " " + text1);
    ReadyNext(codec, limits, st, st1, Then(codec, e, after), " " + text1, first, rest);
    var st2 := Skip(codec, limits, st1, text1, rest);
    Join2(codec, limits, st, st1, st2, " " + text1, text1, first, [], first);
    var st3 := OperatorThen(codec, limits, st2, e.op, text2, third);
    Join2(codec, limits, st, st2, st3, text1, text2, first, [OpKind(e.op)], first + [OpKind(e.op)]);
    r := AtReads(codec, limits, st3, e.right, own, RightOf, after);
    Join2(codec, limits, st, st3, r, text2, after, first + [OpKind(e.op)], third, Spell(Canon(e)));
    AtWidth(codec, limits, st, e.left, own, LeftOf, " " + text1, first, st1);
    OperatorBytes(e.op, text2);
    Advanced(codec, limits, st1, st2, " " + text1, text1, rest, [], 1);
    Advanced(codec, limits, st2, st3, text1, text2, rest, [OpKind(e.op)], Bytes(S.BinaryText(e.op)) + 1);
    AtWidth(codec, limits, st3, e.right, own, RightOf, after, third, r);
    BinaryLaid(codec, e, st, st1, st3, r);
  }

  lemma OperatorBytes(op: S.BinaryOp, rest: string)
    ensures var text := S.BinaryText(op) + (" " + rest);
      && Bytes(" " + text) == 1 + Bytes(text) && Bytes(text) == Bytes(S.BinaryText(op)) + 1 + Bytes(rest)
  {
    hide Bytes, S.BinaryText;
    OneByte(' ');
    BytesConcat(" ", rest);
    BytesConcat(S.BinaryText(op), " " + rest);
    BytesConcat(" ", S.BinaryText(op) + (" " + rest));
  }

  /** An operator and the space behind it. */
  lemma OperatorThen(codec: FloatCodec, limits: ParseLimits, st: LexState, op: S.BinaryOp, rest: string, ks: seq<Kind>)
    returns (r: LexState)
    requires Ready(limits, st, S.BinaryText(op) + (" " + rest), [OpKind(op)] + ks)
    ensures Reads(codec, limits, st, r, rest, [OpKind(op)]) && Ready(limits, r, rest, ks)
  {
    hide *;
    var text := S.BinaryText(op) + (" " + rest);
    ReadyFirst(limits, st, text, [OpKind(op)], ks);
    var st1 := OperatorReads(codec, limits, st, op, rest);
    ReadyNext(codec, limits, st, st1, text, " " + rest, [OpKind(op)], ks);
    r := Skip(codec, limits, st1, rest, ks);
    Join2(codec, limits, st, st1, r, " " + rest, rest, [OpKind(op)], [], [OpKind(op)]);
  }
}
