/** Canonical text with its positions: the spanned AST of a printed expression, computed from widths
    alone, without lexing or parsing anything. */
module Layouts {
  import opened Text
  import opened Tokens
  import opened Spanned
  import opened Canonical
  import opened Printed
  import S = Syntax

  // ----- widths -----

  function Width(codec: FloatCodec, e: S.Expr): nat { Bytes(Print(codec, e)) }

  function WidthAt(codec: FloatCodec, e: S.Expr, parent: nat, side: Side): nat {
    if NeedsParentheses(Precedence(e), parent, side) then Width(codec, e) + 2 else Width(codec, e)
  }

  /** Items separated by a comma and a space. */
  function WidthAll(codec: FloatCodec, es: seq<S.Expr>): nat {
    if es == [] then 0
    else if |es| == 1 then Width(codec, es[0])
    else Width(codec, es[0]) + 2 + WidthAll(codec, es[1..])
  }

  // ----- positions -----

  /** The spanned AST of `e` printed at byte `at`. A node's span runs from its first token to its last;
      parentheses around an operand belong to no span. */
  function Layout(codec: FloatCodec, e: S.Expr, at: nat): Ast
    decreases e, 2
  {
    var end := at + Width(codec, e);
    match e
    case Null => Null(Span(at, end))
    case Bool(flag) => Bool(flag, Span(at, end))
    case Int(number) => Int(number, Span(at, end))
    case Float(bits) => Float(bits, Span(at, end))
    case Str(text) => Str(text, Span(at, end))
    case Ident(name) => Ident(name, Span(at, end))
    case Array(items) => Array(LayoutAll(codec, items, at + 1), Span(at, end))
    case Call(name, args) => Call(name, LayoutAll(codec, args, at + Bytes(name) + 1), Span(at, end))
    case Member(receiver, name) =>
      var r := LayoutAt(codec, receiver, 8, AsReceiver, at);
      Member(r, name, Span(r.span.start, end))
    case Method(receiver, name, args) =>
      var r := LayoutAt(codec, receiver, 8, AsReceiver, at);
      var list := LayoutAll(codec, args, at + WidthAt(codec, receiver, 8, AsReceiver) + Bytes(name) + 2);
      Method(r, name, list, Span(r.span.start, end))
    case Unary(uop, operand) =>
      var o := LayoutAt(codec, operand, 7, UnderPrefix, at + 1);
      Unary(uop, o, Span(at, o.span.end))
    case Binary(left, op, right) =>
      var own := S.BinaryPrecedence(op);
      var l := LayoutAt(codec, left, own, LeftOf, at);
      var r := LayoutAt(codec, right, own, RightOf, at + WidthAt(codec, left, own, LeftOf) + Bytes(S.BinaryText(op)) + 2);
      Binary(l, op, r, Span(l.span.start, r.span.end))
  }

  function LayoutAt(codec: FloatCodec, e: S.Expr, parent: nat, side: Side, at: nat): Ast
    decreases e, 3
  {
    Layout(codec, e, if NeedsParentheses(Precedence(e), parent, side) then at + 1 else at)
  }

  function LayoutAll(codec: FloatCodec, es: seq<S.Expr>, at: nat): (asts: seq<Ast>)
    ensures |asts| == |es|
    decreases es, 1
  {
    if es == [] then []
    else [Layout(codec, es[0], at)] + LayoutAll(codec, es[1..], at + Width(codec, es[0]) + 2)
  }

  // ----- what is printed in front of `after` is as wide as it is alone -----

  /** Text after a piece is carried along unchanged. */
  lemma {:induction false} ThenAppends(codec: FloatCodec, e: S.Expr, a: string, b: string)
    ensures Then(codec, e, a + b) == Then(codec, e, a) + b
    decreases e, 2
  {
    hide ThenAll, ThenAt, Escaped, IntText, FloatText;
    match e
    case Str(text) => QuotedAppends(text, a, b);
    case Array(items) =>
      ThenAllAppends(codec, items, "]" + a, b);
      assert ("]" + a) + b == "]" + (a + b);
    case Member(receiver, name) => AfterAppends(codec, receiver, 8, AsReceiver, "." + (name + a), b, "." + (name + (a + b)));
    case Call(name, args) =>
      ThenAllAppends(codec, args, ")" + a, b);
      assert (")" + a) + b == ")" + (a + b);
    case Method(receiver, name, args) =>
      ThenAllAppends(codec, args, ")" + a, b);
      assert (")" + a) + b == ")" + (a + b);
      var list := ThenAll(codec, args, ")" + a);
      assert ThenAll(codec, args, ")" + (a + b)) == list + b;
      AfterAppends(codec, receiver, 8, AsReceiver, "." + (name + ("(" + list)), b, "." + (name + ("(" + (list + b))));
    case Unary(_, operand) => ThenAtAppends(codec, operand, 7, UnderPrefix, a, b);
    case Binary(left, op, right) =>
      var own := S.BinaryPrecedence(op);
      ThenAtAppends(codec, right, own, RightOf, a, b);
      var tail := ThenAt(codec, right, own, RightOf, a);
      AfterAppends(codec, left, own, LeftOf, " " + (S.BinaryText(op) + (" " + tail)), b,
                   " " + (S.BinaryText(op) + (" " + (tail + b))));
    case _ =>
  }

  lemma {:induction false} AfterAppends(
    codec: FloatCodec, e: S.Expr, parent: nat, side: Side, a: string, b: string, both: string)
    requires both == a + b
    ensures ThenAt(codec, e, parent, side, both) == ThenAt(codec, e, parent, side, a) + b
    decreases e, 4
  {
    ThenAtAppends(codec, e, parent, side, a, b);
  }

  lemma {:induction false} ThenAtAppends(codec: FloatCodec, e: S.Expr, parent: nat, side: Side, a: string, b: string)
    ensures ThenAt(codec, e, parent, side, a + b) == ThenAt(codec, e, parent, side, a) + b
    decreases e, 3
  {
    hide Then;
    if NeedsParentheses(Precedence(e), parent, side) {
      ThenAppends(codec, e, ")" + a, b);
      assert (")" + a) + b == ")" + (a + b);
    } else {
      ThenAppends(codec, e, a, b);
    }
  }

  lemma {:induction false} ThenAllAppends(codec: FloatCodec, es: seq<S.Expr>, a: string, b: string)
    ensures ThenAll(codec, es, a + b) == ThenAll(codec, es, a) + b
    decreases es, 1
  {
    hide Then;
    if es == [] {
    } else if |es| == 1 {
      ThenAppends(codec, es[0], a, b);
    } else {
      ThenAllAppends(codec, es[1..], a, b);
      var tail := ThenAll(codec, es[1..], a);
      assert ", " + (tail + b) == (", " + tail) + b;
      ThenAppends(codec, es[0], ", " + tail, b);
    }
  }

  lemma QuotedAppends(text: string, a: string, b: string)
    ensures Quoted(text, a + b) == Quoted(text, a) + b
  {
    EscapedAppends(text, "\"" + a, b);
    assert ("\"" + a) + b == "\"" + (a + b);
  }

  lemma {:induction false} EscapedAppends(text: string, a: string, b: string)
    ensures Escaped(text, a + b) == Escaped(text, a) + b
    decreases text
  {
    hide EscapeChar;
    if text != "" {
      EscapedAppends(text[1..], a, b);
      assert EscapeChar(text[0]) + (Escaped(text[1..], a) + b) == EscapeChar(text[0]) + Escaped(text[1..], a) + b;
    }
  }

  lemma ThenWidth(codec: FloatCodec, e: S.Expr, after: string)
    ensures Bytes(Then(codec, e, after)) == Width(codec, e) + Bytes(after)
  {
    hide Then, Bytes;
    ThenAppends(codec, e, "", after);
    assert "" + after == after;
    BytesConcat(Then(codec, e, ""), after);
  }

  lemma ThenAtWidth(codec: FloatCodec, e: S.Expr, parent: nat, side: Side, after: string)
    ensures Bytes(ThenAt(codec, e, parent, side, after)) == WidthAt(codec, e, parent, side) + Bytes(after)
  {
    hide Then, Width, NeedsParentheses;
    if NeedsParentheses(Precedence(e), parent, side) {
      ThenWidth(codec, e, ")" + after);
      BytesConcat(")", after);
      BytesConcat("(", Then(codec, e, ")" + after));
    } else {
      ThenWidth(codec, e, after);
    }
  }

  lemma {:induction false} ThenAllWidth(codec: FloatCodec, es: seq<S.Expr>, after: string)
    ensures Bytes(ThenAll(codec, es, after)) == WidthAll(codec, es) + Bytes(after)
    decreases |es|
  {
    hide Then, Width;
    if es == [] {
    } else if |es| == 1 {
      ThenWidth(codec, es[0], after);
    } else {
      var tail := ThenAll(codec, es[1..], after);
      ThenAllWidth(codec, es[1..], after);
      assert ", " == "," + " ";
      BytesConcat(",", " ");
      BytesConcat(", ", tail);
      ThenWidth(codec, es[0], ", " + tail);
    }
  }

  // ----- the width of a node, from those of its parts -----

  lemma OneByte(c: char)
    requires c as int < 0x80
    ensures Bytes([c]) == 1
  {
    assert [c][1..] == "";
  }

  lemma ArrayWidth(codec: FloatCodec, items: seq<S.Expr>)
    ensures Width(codec, S.Array(items)) == WidthAll(codec, items) + 2
  {
    hide ThenAll, Bytes, WidthAll;
    OneByte('[');
    OneByte(']');
    assert "]" + "" == "]";
    BytesConcat("[", ThenAll(codec, items, "]"));
    ThenAllWidth(codec, items, "]");
  }

  lemma CallWidth(codec: FloatCodec, name: string, args: seq<S.Expr>)
    ensures Width(codec, S.Call(name, args)) == Bytes(name) + WidthAll(codec, args) + 2
  {
    hide ThenAll, Bytes, WidthAll;
    ListWidth(codec, args, "");
    EmptyBytes();
    BytesConcat(name, "(" + ThenAll(codec, args, ")" + ""));
  }

  /** A parenthesized list. */
  lemma ListWidth(codec: FloatCodec, args: seq<S.Expr>, after: string)
    ensures Bytes("(" + ThenAll(codec, args, ")" + after)) == WidthAll(codec, args) + 2 + Bytes(after)
  {
    hide ThenAll, Bytes, WidthAll;
    OneByte('(');
    OneByte(')');
    BytesConcat(")", after);
    BytesConcat("(", ThenAll(codec, args, ")" + after));
    ThenAllWidth(codec, args, ")" + after);
  }

  lemma MemberWidth(codec: FloatCodec, receiver: S.Expr, name: string)
    ensures Width(codec, S.Member(receiver, name)) == WidthAt(codec, receiver, 8, AsReceiver) + 1 + Bytes(name)
  {
    hide ThenAt, Bytes, WidthAt;
    OneByte('.');
    assert name + "" == name;
    BytesConcat(".", name);
    ThenAtWidth(codec, receiver, 8, AsReceiver, "." + name);
  }

  lemma MethodWidth(codec: FloatCodec, receiver: S.Expr, name: string, args: seq<S.Expr>)
    ensures Width(codec, S.Method(receiver, name, args))
         == WidthAt(codec, receiver, 8, AsReceiver) + Bytes(name) + WidthAll(codec, args) + 3
  {
    hide ThenAt, ThenAll, Bytes, WidthAt, WidthAll;
    OneByte('.');
    var list := "(" + ThenAll(codec, args, ")" + "");
    ListWidth(codec, args, "");
    BytesConcat(name, list);
    BytesConcat(".", name + list);
    ThenAtWidth(codec, receiver, 8, AsReceiver, "." + (name + list));
    EmptyBytes();
  }

  lemma EmptyBytes()
    ensures Bytes("") == 0
  {
  }

  lemma UnaryWidth(codec: FloatCodec, uop: S.UnaryOp, operand: S.Expr)
    ensures Width(codec, S.Unary(uop, operand)) == WidthAt(codec, operand, 7, UnderPrefix) + 1
  {
    hide ThenAt, Bytes, WidthAt;
    OneByte('!');
    OneByte('-');
    EmptyBytes();
    BytesConcat(S.UnaryText(uop), ThenAt(codec, operand, 7, UnderPrefix, ""));
    ThenAtWidth(codec, operand, 7, UnderPrefix, "");
  }

  lemma BinaryWidth(codec: FloatCodec, left: S.Expr, op: S.BinaryOp, right: S.Expr)
    ensures var own := S.BinaryPrecedence(op);
      Width(codec, S.Binary(left, op, right))
        == WidthAt(codec, left, own, LeftOf) + Bytes(S.BinaryText(op)) + 2 + WidthAt(codec, right, own, RightOf)
  {
    hide ThenAt, Bytes, WidthAt, S.BinaryText;
    var own := S.BinaryPrecedence(op);
    var tail := ThenAt(codec, right, own, RightOf, "");
    OneByte(' ');
    EmptyBytes();
    BytesConcat(" ", tail);
    BytesConcat(S.BinaryText(op), " " + tail);
    BytesConcat(" ", S.BinaryText(op) + (" " + tail));
    ThenAtWidth(codec, right, own, RightOf, "");
    ThenAtWidth(codec, left, own, LeftOf, " " + (S.BinaryText(op) + (" " + tail)));
  }

  // ----- spans stay where the text is -----

  /** A node's span lies within its text. */
  lemma {:induction false} LayoutWithin(codec: FloatCodec, e: S.Expr, at: nat)
    ensures var span := Layout(codec, e, at).span;
      at <= span.start <= span.end <= at + Width(codec, e)
    decreases e, 2
  {
    hide Width, WidthAt, WidthAll, LayoutAt, LayoutAll, S.BinaryText, Bytes;
    match e
    case Member(receiver, name) =>
      MemberWidth(codec, receiver, name);
      LayoutAtWithin(codec, receiver, 8, AsReceiver, at);
    case Method(receiver, name, args) =>
      MethodWidth(codec, receiver, name, args);
      LayoutAtWithin(codec, receiver, 8, AsReceiver, at);
    case Unary(uop, operand) =>
      UnaryWidth(codec, uop, operand);
      LayoutAtWithin(codec, operand, 7, UnderPrefix, at + 1);
    case Binary(left, op, right) =>
      var own := S.BinaryPrecedence(op);
      BinaryWidth(codec, left, op, right);
      LayoutAtWithin(codec, left, own, LeftOf, at);
      LayoutAtWithin(codec, right, own, RightOf, at + WidthAt(codec, left, own, LeftOf) + Bytes(S.BinaryText(op)) + 2);
    case _ =>
  }

  lemma {:induction false} LayoutAtWithin(codec: FloatCodec, e: S.Expr, parent: nat, side: Side, at: nat)
    ensures var span := LayoutAt(codec, e, parent, side, at).span;
      at <= span.start <= span.end <= at + WidthAt(codec, e, parent, side)
    decreases e, 3
  {
    hide Width, Layout;
    LayoutWithin(codec, e, if NeedsParentheses(Precedence(e), parent, side) then at + 1 else at);
  }

  /** Forgetting the spans gives the expression back. */
  lemma {:induction false} LayoutStrips(codec: FloatCodec, e: S.Expr, at: nat)
    ensures Strip(Layout(codec, e, at)) == e
    decreases e, 2
  {
    hide Width, WidthAt, S.BinaryText, Bytes, LayoutAt, LayoutAll, StripAll;
    match e
    case Array(items) => LayoutAllStrips(codec, items, at + 1);
    case Call(name, args) => LayoutAllStrips(codec, args, at + Bytes(name) + 1);
    case Member(receiver, _) => LayoutAtStrips(codec, receiver, 8, AsReceiver, at);
    case Method(receiver, name, args) =>
      LayoutAtStrips(codec, receiver, 8, AsReceiver, at);
      LayoutAllStrips(codec, args, at + WidthAt(codec, receiver, 8, AsReceiver) + Bytes(name) + 2);
    case Unary(_, operand) => LayoutAtStrips(codec, operand, 7, UnderPrefix, at + 1);
    case Binary(left, op, right) =>
      var own := S.BinaryPrecedence(op);
      LayoutAtStrips(codec, left, own, LeftOf, at);
      LayoutAtStrips(codec, right, own, RightOf, at + WidthAt(codec, left, own, LeftOf) + Bytes(S.BinaryText(op)) + 2);
    case _ =>
  }

  lemma {:induction false} LayoutAtStrips(codec: FloatCodec, e: S.Expr, parent: nat, side: Side, at: nat)
    ensures Strip(LayoutAt(codec, e, parent, side, at)) == e
    decreases e, 3
  {
    hide Layout;
    LayoutStrips(codec, e, if NeedsParentheses(Precedence(e), parent, side) then at + 1 else at);
  }

  lemma {:induction false} LayoutAllStrips(codec: FloatCodec, es: seq<S.Expr>, at: nat)
    ensures StripAll(LayoutAll(codec, es, at)) == es
    decreases es, 1
  {
    hide Layout, Width;
    if es != [] {
      LayoutStrips(codec, es[0], at);
      LayoutAllStrips(codec, es[1..], at + Width(codec, es[0]) + 2);
    }
  }
}
