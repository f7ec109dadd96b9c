/** The public AST: every node carries its byte span. `Strip` forgets the spans. */
module Spanned {
  import opened Tokens
  import S = Syntax

  datatype Ast =
    | Null(span: Span)
    | Bool(flag: bool, span: Span)
    | Int(number: int, span: Span)
    | Float(bits: S.FloatBits, span: Span)
    | Str(text: string, span: Span)
    | Array(items: seq<Ast>, span: Span)
    | Ident(name: string, span: Span)
    | Member(receiver: Ast, name: string, span: Span)
    | Call(name: string, args: seq<Ast>, span: Span)
    | Method(receiver: Ast, name: string, args: seq<Ast>, span: Span)
    | Unary(uop: S.UnaryOp, operand: Ast, span: Span)
    | Binary(left: Ast, op: S.BinaryOp, right: Ast, span: Span)

  function Strip(a: Ast): S.Expr
    decreases a, 1
  {
    match a
    case Null(_) => S.Null
    case Bool(flag, _) => S.Bool(flag)
    case Int(number, _) => S.Int(number)
    case Float(bits, _) => S.Float(bits)
    case Str(text, _) => S.Str(text)
    case Array(items, _) => S.Array(StripAll(items))
    case Ident(name, _) => S.Ident(name)
    case Member(receiver, name, _) => S.Member(Strip(receiver), name)
    case Call(name, args, _) => S.Call(name, StripAll(args))
    case Method(receiver, name, args, _) => S.Method(Strip(receiver), name, StripAll(args))
    case Unary(uop, operand, _) => S.Unary(uop, Strip(operand))
    case Binary(left, op, right, _) => S.Binary(Strip(left), op, Strip(right))
  }

  function StripAll(asts: seq<Ast>): (es: seq<S.Expr>)
    ensures |es| == |asts|
    decreases asts, 0
  {
    if asts == [] then [] else [Strip(asts[0])] + StripAll(asts[1..])
  }

  /** Spans of the string leaves, in the order the renderer collects them. */
  function StringSpans(a: Ast): seq<Span>
    decreases a, 1
  {
    match a
    case Str(_, span) => [span]
    case Array(items, _) => StringSpansAll(items)
    case Member(receiver, _, _) => StringSpans(receiver)
    case Call(_, args, _) => StringSpansAll(args)
    case Method(receiver, _, args, _) => StringSpans(receiver) + StringSpansAll(args)
    case Unary(_, operand, _) => StringSpans(operand)
    case Binary(left, _, right, _) => StringSpans(left) + StringSpans(right)
    case _ => []
  }

  function StringSpansAll(asts: seq<Ast>): seq<Span>
    decreases asts, 0
  {
    if asts == [] then [] else StringSpans(asts[0]) + StringSpansAll(asts[1..])
  }

  lemma {:induction false} StripAllAppend(asts: seq<Ast>, last: Ast)
    ensures StripAll(asts + [last]) == StripAll(asts) + [Strip(last)]
  {
    if asts == [] {
      assert [last][1..] == [];
      assert asts + [last] == [last];
    } else {
      assert (asts + [last])[1..] == asts[1..] + [last];
      StripAllAppend(asts[1..], last);
    }
  }
}
