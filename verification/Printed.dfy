/** The canonical text of an AST. Each function gives the text of a piece followed by what comes
    after it, so that the text of a whole is built from the text of its parts without regrouping. */
module Printed {
  import opened Text
  import opened Tokens
  import opened Canonical
  import S = Syntax

  function EscapeChar(c: char): string {
    match c
    case '\\' => "\\\\"
    case '\"' => "\\\""
    case '\n' => "\\n"
    case '\r' => "\\r"
    case '\t' => "\\t"
    case _ => [c]
  }

  function Escaped(s: string, after: string): string {
    if s == "" then after else EscapeChar(s[0]) + Escaped(s[1..], after)
  }

  function Quoted(s: string, after: string): string {
    "\"" + Escaped(s, "\"" + after)
  }

  /** The text of `e` followed by `after`. */
  function Then(codec: FloatCodec, e: S.Expr, after: string): string
    decreases e, 2
  {
    match e
    case Null => "null" + after
    case Bool(flag) => (if flag then "true" else "false") + after
    case Int(number) => IntText(number) + after
    case Float(bits) => FloatText(codec, bits) + after
    case Str(text) => Quoted(text, after)
    case Array(items) => "[" + ThenAll(codec, items, "]" + after)
    case Ident(name) => name + after
    case Member(receiver, name) => ThenAt(codec, receiver, 8, AsReceiver, "." + (name + after))
    case Call(name, args) => name + ("(" + ThenAll(codec, args, ")" + after))
    case Method(receiver, name, args) =>
      ThenAt(codec, receiver, 8, AsReceiver, "." + (name + ("(" + ThenAll(codec, args, ")" + after))))
    case Unary(uop, operand) =>
      S.UnaryText(uop) + ThenAt(codec, operand, 7, UnderPrefix, after)
    case Binary(left, op, right) =>
      var own := S.BinaryPrecedence(op);
      ThenAt(codec, left, own, LeftOf,
             " " + (S.BinaryText(op) + (" " + ThenAt(codec, right, own, RightOf, after))))
  }

  /** The same, parenthesized where `e` stands under a tighter parent. */
  function ThenAt(codec: FloatCodec, e: S.Expr, parent: nat, side: Side, after: string): string
    decreases e, 3
  {
    if NeedsParentheses(Precedence(e), parent, side) then "(" + Then(codec, e, ")" + after)
    else Then(codec, e, after)
  }

  /** Items separated by a comma and a space. */
  function ThenAll(codec: FloatCodec, es: seq<S.Expr>, after: string): string
    decreases es, 1
  {
    if es == [] then after
    else if |es| == 1 then Then(codec, es[0], after)
    else Then(codec, es[0], ", " + ThenAll(codec, es[1..], after))
  }

  function Print(codec: FloatCodec, e: S.Expr): string { Then(codec, e, "") }

  /** Values that source text can spell: non-negative `i64` integers and floats that read back. */
  ghost predicate ValuesReadable(codec: FloatCodec, e: S.Expr)
    decreases e, 1
  {
    match e
    case Int(number) => 0 <= number <= I64_MAX
    case Float(bits) => Readable(codec, bits)
    case Array(items) => ValuesReadableAll(codec, items)
    case Member(receiver, _) => ValuesReadable(codec, receiver)
    case Call(_, args) => ValuesReadableAll(codec, args)
    case Method(receiver, _, args) => ValuesReadable(codec, receiver) && ValuesReadableAll(codec, args)
    case Unary(_, operand) => ValuesReadable(codec, operand)
    case Binary(left, _, right) => ValuesReadable(codec, left) && ValuesReadable(codec, right)
    case _ => true
  }

  ghost predicate ValuesReadableAll(codec: FloatCodec, es: seq<S.Expr>)
    decreases es, 0
  {
    es == [] || (ValuesReadable(codec, es[0]) && ValuesReadableAll(codec, es[1..]))
  }
}
