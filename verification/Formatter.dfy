/** The work-stack writer and the whole bounded formatter. */
module Formatter {
  import opened Text
  import opened Tokens
  import opened Syntax
  import opened Canonical
  import opened Printed
  import opened Format
  import opened LexerFacts

  datatype Task =
    | Expression(expr: Expr, parent: nat, side: Side)
    | Write(text: string)
    | WriteEscaped(text: string)

  /** The text a task stands for, followed by `after`. */
  function TaskText(codec: FloatCodec, task: Task, after: string): string {
    match task
    case Expression(e, parent, side) => ThenAt(codec, e, parent, side, after)
    case Write(text) => text + after
    case WriteEscaped(text) => Escaped(text, after)
  }

  /** What a stack has left to write; the last task is on top. */
  function StackText(codec: FloatCodec, stack: seq<Task>): string {
    if stack == [] then ""
    else TaskText(codec, stack[|stack| - 1], StackText(codec, stack[..|stack| - 1]))
  }

  function TaskWork(task: Task): (n: nat)
    ensures n >= 1
  {
    if task.Expression? then 13 * Nodes(task.expr) - 1 else 1
  }

  function StackWork(stack: seq<Task>): nat {
    if stack == [] then 0 else StackWork(stack[..|stack| - 1]) + TaskWork(stack[|stack| - 1])
  }

  lemma PushOne(codec: FloatCodec, stack: seq<Task>, task: Task)
    ensures StackText(codec, stack + [task]) == TaskText(codec, task, StackText(codec, stack))
    ensures StackWork(stack + [task]) == StackWork(stack) + TaskWork(task)
  {
    assert (stack + [task])[..|stack|] == stack;
  }

  // ----- scheduling -----

  method Push(ghost codec: FloatCodec, stack: seq<Task>, task: Task) returns (r: seq<Task>)
    ensures StackText(codec, r) == TaskText(codec, task, StackText(codec, stack))
    ensures StackWork(r) == StackWork(stack) + TaskWork(task)
  {
    PushOne(codec, stack, task);
    r := stack + [task];
  }

  /** Pushes items, last first, with separators between them. */
  method ScheduleSequence(ghost codec: FloatCodec, stack: seq<Task>, es: seq<Expr>) returns (r: seq<Task>)
    ensures StackText(codec, r) == ThenAll(codec, es, StackText(codec, stack))
    ensures StackWork(r) <= StackWork(stack) + 13 * NodesAll(es)
  {
    r := stack;
    var i := |es|;
    ghost var after := StackText(codec, stack);
    while i > 0
      invariant 0 <= i <= |es|
      invariant StackText(codec, r)
        == (if 0 < i < |es| then ", " else "") + ThenAll(codec, es[i..], after)
      invariant StackWork(r) <= StackWork(stack) + 13 * NodesAll(es[i..])
    {
      i := i - 1;
      TailParts(codec, es, i, after);
      r := Push(codec, r, Expression(es[i], 0, Root));
      if i > 0 {
        r := Push(codec, r, Write(", "));
      }
    }
    assert es[0..] == es;
  }

  lemma TailParts(codec: FloatCodec, es: seq<Expr>, i: nat, after: string)
    requires i < |es|
    ensures ThenAll(codec, es[i..], after)
         == Then(codec, es[i], (if i + 1 < |es| then ", " else "") + ThenAll(codec, es[i + 1..], after))
    ensures NodesAll(es[i..]) == Nodes(es[i]) + NodesAll(es[i + 1..])
  {
    assert es[i..][0] == es[i] && es[i..][1..] == es[i + 1..];
    if i + 1 == |es| { assert "" + ThenAll(codec, es[i + 1..], after) == after; }
  }

  /** Replaces an expression on the stack by the tasks that write its parts. */
  method ScheduleExpression(codec: FloatCodec, stack: seq<Task>, e: Expr, parent: nat, side: Side)
    returns (r: seq<Task>)
    ensures StackText(codec, r) == ThenAt(codec, e, parent, side, StackText(codec, stack))
    ensures StackWork(r) < StackWork(stack) + 13 * Nodes(e) - 1
  {
    var own := Precedence(e);
    var parenthesized := NeedsParentheses(own, parent, side);
    r := stack;
    if parenthesized {
      r := Push(codec, r, Write(")"));
    }
    r := ScheduleParts(codec, r, e);
    if parenthesized {
      r := Push(codec, r, Write("("));
    }
  }

  method ScheduleParts(codec: FloatCodec, stack: seq<Task>, e: Expr) returns (r: seq<Task>)
    ensures StackText(codec, r) == Then(codec, e, StackText(codec, stack))
    ensures StackWork(r) <= StackWork(stack) + 13 * Nodes(e) - 5
  {
    match e {
      case Null => r := Push(codec, stack, Write("null"));
      case Bool(flag) => r := Push(codec, stack, Write(if flag then "true" else "false"));
      case Int(number) => r := Push(codec, stack, Write(IntText(number)));
      case Float(bits) => r := Push(codec, stack, Write(FloatText(codec, bits)));
      case Str(text) =>
        r := Push(codec, stack, Write("\""));
        r := Push(codec, r, WriteEscaped(text));
        r := Push(codec, r, Write("\""));
      case Array(items) =>
        r := Push(codec, stack, Write("]"));
        r := ScheduleSequence(codec, r, items);
        r := Push(codec, r, Write("["));
      case Ident(name) => r := Push(codec, stack, Write(name));
      case Member(receiver, name) =>
        r := Push(codec, stack, Write(name));
        r := Push(codec, r, Write("."));
        r := Push(codec, r, Expression(receiver, 8, AsReceiver));
      case Call(name, args) =>
        r := ScheduleCall(codec, stack, name, args);
      case Method(receiver, name, args) =>
        r := ScheduleCall(codec, stack, name, args);
        r := Push(codec, r, Write("."));
        r := Push(codec, r, Expression(receiver, 8, AsReceiver));
      case Unary(uop, operand) =>
        r := Push(codec, stack, Expression(operand, 7, UnderPrefix));
        r := Push(codec, r, Write(UnaryText(uop)));
      case Binary(left, op, right) =>
        var own := BinaryPrecedence(op);
        r := Push(codec, stack, Expression(right, own, RightOf));
        r := Push(codec, r, Write(" "));
        r := Push(codec, r, Write(BinaryText(op)));
        r := Push(codec, r, Write(" "));
        r := Push(codec, r, Expression(left, own, LeftOf));
    }
  }

  method ScheduleCall(ghost codec: FloatCodec, stack: seq<Task>, name: string, args: seq<Expr>)
    returns (r: seq<Task>)
    ensures StackText(codec, r) == name + ("(" + ThenAll(codec, args, ")" + StackText(codec, stack)))
    ensures StackWork(r) <= StackWork(stack) + 13 * NodesAll(args) + 3
  {
    r := Push(codec, stack, Write(")"));
    r := ScheduleSequence(codec, r, args);
    r := Push(codec, r, Write("("));
    r := Push(codec, r, Write(name));
  }

  // ----- writing -----

  class Output {
    var text: string
    const maxBytes: nat

    constructor (maxBytes: nat)
      ensures text == "" && this.maxBytes == maxBytes
    {
      text := "";
      this.maxBytes := maxBytes;
    }

    method PushStr(value: string) returns (ok: bool)
      modifies this
      ensures ok <==> Bytes(old(text)) + Bytes(value) <= maxBytes
      ensures text == if ok then old(text) + value else old(text)
    {
      ok := Bytes(text) + Bytes(value) <= maxBytes;
      if ok { text := text + value; }
    }

    /** Writes escapes one character at a time; `after` is whatever is to follow. On failure the
        text written so far and one more character do not fit. */
    method PushEscaped(value: string, ghost after: string) returns (ok: bool)
      requires Bytes(text) <= maxBytes
      modifies this
      ensures Bytes(text) <= maxBytes
      ensures ok ==> text + after == old(text) + Escaped(value, after)
      ensures !ok ==> Bytes(old(text) + Escaped(value, after)) > maxBytes
    {
      var i := 0;
      while i < |value|
        invariant i <= |value|
        invariant text + Escaped(value[i..], after) == old(text) + Escaped(value, after)
        invariant Bytes(text) <= maxBytes
      {
        EscapedNext(value, i, after);
        ghost var was := text;
        var fits := PushStr(EscapeChar(value[i]));
        ghost var rest := Escaped(value[i + 1..], after);
        assert was + (EscapeChar(value[i]) + rest) == (was + EscapeChar(value[i])) + rest;
        BytesConcat(was, EscapeChar(value[i]));
        if !fits {
          BytesConcat(was + EscapeChar(value[i]), rest);
          return false;
        }
        i := i + 1;
      }
      ok := true;
    }
  }

  lemma EscapedNext(value: string, i: nat, after: string)
    requires i < |value|
    ensures Escaped(value[i..], after) == EscapeChar(value[i]) + Escaped(value[i + 1..], after)
  {
    assert value[i..][0] == value[i] && value[i..][1..] == value[i + 1..];
  }

  /** The work loop: it succeeds exactly when the canonical text fits, and then it has written it. */
  method WriteAll(codec: FloatCodec, e: Expr, maxBytes: nat) returns (r: Checked<string>)
    ensures r == if Bytes(Print(codec, e)) <= maxBytes then Pass(Print(codec, e)) else Fail(OutputExceeded)
  {
    var output := new Output(maxBytes);
    var stack: seq<Task> := Push(codec, [], Expression(e, 0, Root));
    while stack != []
      invariant output.text + StackText(codec, stack) == Print(codec, e)
      invariant Bytes(output.text) <= maxBytes && output.maxBytes == maxBytes
      invariant fresh(output)
      decreases StackWork(stack)
    {
      var task := stack[|stack| - 1];
      ghost var rest := StackText(codec, stack[..|stack| - 1]);
      stack := stack[..|stack| - 1];
      match task
      case Expression(expr, parent, side) =>
        stack := ScheduleExpression(codec, stack, expr, parent, side);
      case Write(text) =>
        ghost var was := output.text;
        assert was + (text + rest) == (was + text) + rest;
        BytesConcat(was, text);
        var ok := output.PushStr(text);
        if !ok {
          BytesConcat(was + text, rest);
          return Fail(OutputExceeded);
        }
      case WriteEscaped(text) =>
        var ok := output.PushEscaped(text, rest);
        if !ok {
          return Fail(OutputExceeded);
        }
    }
    assert output.text + "" == output.text;
    r := Pass(output.text);
  }

  // ----- the scalar check never decides -----

  lemma EscapedBytes(s: string, after: string)
    ensures Bytes(s) + Bytes(after) <= Bytes(Escaped(s, after))
  {
    if s != "" {
      EscapedBytes(s[1..], after);
      BytesConcat(EscapeChar(s[0]), Escaped(s[1..], after));
      EscapeBytes(s[0]);
    }
  }

  lemma EscapeBytes(c: char)
    ensures CharBytes(c) <= Bytes(EscapeChar(c))
  {
    if EscapeChar(c) == [c] {
      assert [c][1..] == "";
    } else {
      assert EscapeChar(c)[1..][1..] == "";
    }
  }

  /** Every string, name and keyword of a tree is written out, so the scalars a lexer charges for it
      never exceed its text. */
  lemma {:induction false} ScalarsWritten(codec: FloatCodec, e: Expr, after: string)
    ensures LexedScalars(e) + Bytes(after) <= Bytes(Then(codec, e, after))
    decreases e, 2
  {
    KeywordBytes();
    match e {
      case Null => BytesConcat("null", after);
      case Bool(flag) => BytesConcat(if flag then "true" else "false", after);
      case Int(number) => BytesConcat(IntText(number), after);
      case Float(bits) => BytesConcat(FloatText(codec, bits), after);
      case Str(text) =>
        EscapedBytes(text, "\"" + after);
        BytesConcat("\"", after);
        BytesConcat("\"", Escaped(text, "\"" + after));
      case Array(items) =>
        BytesConcat("]", after);
        AllScalarsWritten(codec, items, "]" + after);
        BytesConcat("[", ThenAll(codec, items, "]" + after));
      case Ident(name) => BytesConcat(name, after);
      case Member(receiver, name) =>
        NameWritten(name, after);
        AtScalarsWritten(codec, receiver, 8, AsReceiver, "." + (name + after));
      case Call(name, args) =>
        ArgsWritten(codec, name, args, after);
      case Method(receiver, name, args) =>
        ArgsWritten(codec, name, args, after);
        var tail := name + ("(" + ThenAll(codec, args, ")" + after));
        BytesConcat(".", tail);
        AtScalarsWritten(codec, receiver, 8, AsReceiver, "." + tail);
      case Unary(uop, operand) =>
        AtScalarsWritten(codec, operand, 7, UnderPrefix, after);
        BytesConcat(UnaryText(uop), ThenAt(codec, operand, 7, UnderPrefix, after));
      case Binary(left, op, right) =>
        var own := BinaryPrecedence(op);
        var tail := ThenAt(codec, right, own, RightOf, after);
        AtScalarsWritten(codec, right, own, RightOf, after);
        BytesConcat(" ", tail);
        BytesConcat(BinaryText(op), " " + tail);
        BytesConcat(" ", BinaryText(op) + (" " + tail));
        AtScalarsWritten(codec, left, own, LeftOf, " " + (BinaryText(op) + (" " + tail)));
    }
  }

  lemma NameWritten(name: string, after: string)
    ensures Bytes(name) + Bytes(after) <= Bytes("." + (name + after))
  {
    BytesConcat(name, after);
    BytesConcat(".", name + after);
  }

  lemma {:induction false} ArgsWritten(codec: FloatCodec, name: string, args: seq<Expr>, after: string)
    ensures Bytes(name) + LexedScalarsAll(args) + Bytes(after)
         <= Bytes(name + ("(" + ThenAll(codec, args, ")" + after)))
    decreases args, 2
  {
    var tail := ThenAll(codec, args, ")" + after);
    BytesConcat(")", after);
    AllScalarsWritten(codec, args, ")" + after);
    BytesConcat("(", tail);
    BytesConcat(name, "(" + tail);
  }

  lemma {:induction false} AtScalarsWritten(codec: FloatCodec, e: Expr, parent: nat, side: Side, after: string)
    ensures LexedScalars(e) + Bytes(after) <= Bytes(ThenAt(codec, e, parent, side, after))
    decreases e, 3
  {
    ScalarsWritten(codec, e, after);
    ScalarsWritten(codec, e, ")" + after);
    BytesConcat(")", after);
    BytesConcat("(", Then(codec, e, ")" + after));
  }

  lemma {:induction false} AllScalarsWritten(codec: FloatCodec, es: seq<Expr>, after: string)
    ensures LexedScalarsAll(es) + Bytes(after) <= Bytes(ThenAll(codec, es, after))
    decreases es, 1
  {
    if es == [] {
    } else if |es| == 1 {
      assert es[1..] == [];
      ScalarsWritten(codec, es[0], after);
    } else {
      var tail := ThenAll(codec, es[1..], after);
      AllScalarsWritten(codec, es[1..], after);
      BytesConcat(", ", tail);
      ScalarsWritten(codec, es[0], ", " + tail);
    }
  }

  lemma {:induction false} OwnedScalars(e: Expr)
    ensures ScalarBytes(e) <= LexedScalars(e)
    decreases e, 1
  {
    match e
    case Array(items) => OwnedScalarsAll(items);
    case Member(receiver, _) => OwnedScalars(receiver);
    case Call(_, args) => OwnedScalarsAll(args);
    case Method(receiver, _, args) =>
      OwnedScalars(receiver);
      OwnedScalarsAll(args);
    case Unary(_, operand) => OwnedScalars(operand);
    case Binary(left, _, right) =>
      OwnedScalars(left);
      OwnedScalars(right);
    case _ =>
  }

  lemma {:induction false} OwnedScalarsAll(es: seq<Expr>)
    ensures ScalarBytesAll(es) <= LexedScalarsAll(es)
    decreases es, 0
  {
    if es != [] {
      OwnedScalars(es[0]);
      OwnedScalarsAll(es[1..]);
    }
  }

  // ----- the whole formatter -----

  predicate Formattable(codec: FloatCodec, e: Expr, limits: FormatLimits) {
    && Nodes(e) <= limits.maxNodes && Depth(e) <= limits.maxDepth
    && NamesValid(e) && FloatsFinite(codec, e)
    && Bytes(Print(codec, e)) <= limits.maxOutputBytes
  }

  /** For every AST and limits, succeeds exactly when the shape fits, the names and floats can be
      written and the canonical text fits; the result is that text. The scalar limit passed to the
      syntax check refuses nothing the output check would accept. */
  method FormatExpression(codec: FloatCodec, e: Expr, limits: FormatLimits) returns (r: Checked<string>)
    ensures r.Pass? <==> Formattable(codec, e, limits)
    ensures r.Pass? ==> r.value == Print(codec, e)
    ensures r == Fail(DepthExceeded) ==> Depth(e) > limits.maxDepth
    ensures r == Fail(NodesExceeded) ==> Nodes(e) > limits.maxNodes
    ensures r == Fail(BadName) ==> !NamesValid(e)
    ensures r == Fail(NotFinite) ==> !FloatsFinite(codec, e)
    ensures r == Fail(OutputExceeded) || r == Fail(ScalarsExceeded) ==>
      Bytes(Print(codec, e)) > limits.maxOutputBytes
  {
    ScalarsWritten(codec, e, "");
    OwnedScalars(e);
    var shape := Preflight(e, limits.maxNodes, limits.maxDepth);
    if shape.Fail? { return Fail(shape.error); }
    var syntax := ValidateSyntax(codec, e, limits.maxOutputBytes);
    if syntax.Fail? { return Fail(syntax.error); }
    r := WriteAll(codec, e, limits.maxOutputBytes);
  }
}
