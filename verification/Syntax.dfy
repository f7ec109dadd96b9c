/** The expression AST without its spans, and the sizes the parser and formatter limits measure. */
module Syntax {
  import opened Text

  datatype UnaryOp = Not | Neg

  datatype BinaryOp = Or | And | Eq | Ne | Lt | Le | Gt | Ge | Add | Sub | Mul | Div | Rem

  /** An `f64`, known only by an identity that stands for its bits. */
  type FloatBits = int

  datatype Expr =
    | Null
    | Bool(flag: bool)
    | Int(number: int)
    | Float(bits: FloatBits)
    | Str(text: string)
    | Array(items: seq<Expr>)
    | Ident(name: string)
    | Member(receiver: Expr, name: string)
    | Call(name: string, args: seq<Expr>)
    | Method(receiver: Expr, name: string, args: seq<Expr>)
    | Unary(uop: UnaryOp, operand: Expr)
    | Binary(left: Expr, op: BinaryOp, right: Expr)

  function Max(a: nat, b: nat): nat { if a < b then b else a }

  // ----- names -----

  const ReservedWords: set<string> :=
    {"if", "else", "for", "while", "do", "switch", "let", "const", "function", "import", "export",
     "new", "try", "catch", "throw", "await", "return", "true", "false", "null"}

  predicate IsReserved(name: string) { name in ReservedWords }

  /** What the lexer accepts as an identifier. */
  predicate IsIdentText(name: string) {
    && name != ""
    && IsIdentStart(name[0])
    && forall i :: 0 <= i < |name| ==> IsIdentPart(name[i])
  }

  predicate IsValidName(name: string) { IsIdentText(name) && !IsReserved(name) }

  // ----- measures -----

  function Nodes(e: Expr): (n: nat)
    ensures n >= 1
    decreases e, 1
  {
    match e
    case Array(items) => 1 + NodesAll(items)
    case Member(receiver, _) => 1 + Nodes(receiver)
    case Call(_, args) => 1 + NodesAll(args)
    case Method(receiver, _, args) => 1 + Nodes(receiver) + NodesAll(args)
    case Unary(_, operand) => 1 + Nodes(operand)
    case Binary(left, _, right) => 1 + Nodes(left) + Nodes(right)
    case _ => 1
  }

  function NodesAll(es: seq<Expr>): (n: nat)
    ensures n >= |es|
    decreases es, 0
  {
    if es == [] then 0 else Nodes(es[0]) + NodesAll(es[1..])
  }

  /** Levels of the tree, the root being at level one. */
  function Depth(e: Expr): (d: nat)
    ensures d >= 1
    decreases e, 1
  {
    match e
    case Array(items) => 1 + DepthAll(items)
    case Member(receiver, _) => 1 + Depth(receiver)
    case Call(_, args) => 1 + DepthAll(args)
    case Method(receiver, _, args) => 1 + Max(Depth(receiver), DepthAll(args))
    case Unary(_, operand) => 1 + Depth(operand)
    case Binary(left, _, right) => 1 + Max(Depth(left), Depth(right))
    case _ => 1
  }

  function DepthAll(es: seq<Expr>): nat
    decreases es, 0
  {
    if es == [] then 0 else Max(Depth(es[0]), DepthAll(es[1..]))
  }

  /** Nested containers in the serialized form of the AST. */
  function SerialDepth(e: Expr): (d: nat)
    ensures d >= 2
    decreases e, 1
  {
    match e
    case Array(items) => 3 + SerialDepthAll(items)
    case Member(receiver, _) => 2 + SerialDepth(receiver)
    case Call(_, args) => 3 + SerialDepthAll(args)
    case Method(receiver, _, args) => Max(2 + SerialDepth(receiver), 3 + SerialDepthAll(args))
    case Unary(_, operand) => 2 + SerialDepth(operand)
    case Binary(left, _, right) => 2 + Max(SerialDepth(left), SerialDepth(right))
    case _ => 2
  }

  function SerialDepthAll(es: seq<Expr>): nat
    decreases es, 0
  {
    if es == [] then 0 else Max(SerialDepth(es[0]), SerialDepthAll(es[1..]))
  }

  /** Bytes of the strings and names a tree owns. */
  function ScalarBytes(e: Expr): nat
    decreases e, 1
  {
    match e
    case Str(text) => Bytes(text)
    case Ident(name) => Bytes(name)
    case Array(items) => ScalarBytesAll(items)
    case Member(receiver, name) => Bytes(name) + ScalarBytes(receiver)
    case Call(name, args) => Bytes(name) + ScalarBytesAll(args)
    case Method(receiver, name, args) => Bytes(name) + ScalarBytes(receiver) + ScalarBytesAll(args)
    case Unary(_, operand) => ScalarBytes(operand)
    case Binary(left, _, right) => ScalarBytes(left) + ScalarBytes(right)
    case _ => 0
  }

  function ScalarBytesAll(es: seq<Expr>): nat
    decreases es, 0
  {
    if es == [] then 0 else ScalarBytes(es[0]) + ScalarBytesAll(es[1..])
  }

  /** Every array and argument list has at most `limit` items. */
  predicate WidthsWithin(e: Expr, limit: nat)
    decreases e, 1
  {
    match e
    case Array(items) => |items| <= limit && WidthsWithinAll(items, limit)
    case Member(receiver, _) => WidthsWithin(receiver, limit)
    case Call(_, args) => |args| <= limit && WidthsWithinAll(args, limit)
    case Method(receiver, _, args) =>
      WidthsWithin(receiver, limit) && |args| <= limit && WidthsWithinAll(args, limit)
    case Unary(_, operand) => WidthsWithin(operand, limit)
    case Binary(left, _, right) => WidthsWithin(left, limit) && WidthsWithin(right, limit)
    case _ => true
  }

  predicate WidthsWithinAll(es: seq<Expr>, limit: nat)
    decreases es, 0
  {
    es == [] || (WidthsWithin(es[0], limit) && WidthsWithinAll(es[1..], limit))
  }

  lemma {:induction false} DepthBelowSerialDepth(e: Expr)
    ensures 2 * Depth(e) <= SerialDepth(e)
    decreases e, 1
  {
    match e
    case Array(items) => DepthBelowSerialDepthAll(items);
    case Member(receiver, _) => DepthBelowSerialDepth(receiver);
    case Call(_, args) => DepthBelowSerialDepthAll(args);
    case Method(receiver, _, args) =>
      DepthBelowSerialDepth(receiver);
      DepthBelowSerialDepthAll(args);
    case Unary(_, operand) => DepthBelowSerialDepth(operand);
    case Binary(left, _, right) =>
      DepthBelowSerialDepth(left);
      DepthBelowSerialDepth(right);
    case _ =>
  }

  lemma {:induction false} DepthBelowSerialDepthAll(es: seq<Expr>)
    ensures 2 * DepthAll(es) <= SerialDepthAll(es)
    decreases es, 0
  {
    if es != [] {
      DepthBelowSerialDepth(es[0]);
      DepthBelowSerialDepthAll(es[1..]);
    }
  }

  // ----- children -----

  /** Children in source order. */
  function Children(e: Expr): (es: seq<Expr>)
    ensures Nodes(e) == 1 + NodesAll(es) && Depth(e) == 1 + DepthAll(es)
  {
    match e
    case Array(items) => items
    case Member(receiver, _) => OneChild(receiver); [receiver]
    case Call(_, args) => args
    case Method(receiver, _, args) => FirstChild(receiver, args); [receiver] + args
    case Unary(_, operand) => OneChild(operand); [operand]
    case Binary(left, _, right) => FirstChild(left, [right]); OneChild(right); [left] + [right]
    case _ => []
  }

  lemma OneChild(e: Expr)
    ensures NodesAll([e]) == Nodes(e) && DepthAll([e]) == Depth(e)
  {
    assert [e][1..] == [];
  }

  lemma FirstChild(e: Expr, es: seq<Expr>)
    ensures NodesAll([e] + es) == Nodes(e) + NodesAll(es)
    ensures DepthAll([e] + es) == Max(Depth(e), DepthAll(es))
  {
    assert ([e] + es)[1..] == es;
  }

  /** The string or name a node owns. */
  function OwnText(e: Expr): string {
    match e
    case Str(text) => text
    case Ident(name) => name
    case Member(_, name) => name
    case Call(name, _) => name
    case Method(_, name, _) => name
    case _ => ""
  }

  // ----- operator tables -----

  function BinaryText(op: BinaryOp): string {
    match op
    case Or => "||" case And => "&&" case Eq => "==" case Ne => "!=" case Lt => "<"
    case Le => "<=" case Gt => ">" case Ge => ">=" case Add => "+" case Sub => "-"
    case Mul => "*" case Div => "/" case Rem => "%"
  }

  function UnaryText(op: UnaryOp): string {
    match op case Not => "!" case Neg => "-"
  }

  function BinaryPrecedence(op: BinaryOp): (p: nat)
    ensures 1 <= p <= 6
  {
    match op
    case Or => 1
    case And => 2
    case Eq | Ne => 3
    case Lt | Le | Gt | Ge => 4
    case Add | Sub => 5
    case Mul | Div | Rem => 6
  }
}
