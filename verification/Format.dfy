/** The bounded formatter: three work-list loops over an AST. The first counts nodes and depth, the
    second checks names, floats and scalar bytes, and the third writes the canonical text. */
module Format {
  import opened Text
  import opened Tokens
  import opened Syntax
  import opened Canonical
  import opened Printed

  datatype FormatLimits = FormatLimits(maxDepth: nat, maxNodes: nat, maxOutputBytes: nat)

  datatype FormatError = DepthExceeded | NodesExceeded | ScalarsExceeded | BadName | NotFinite | OutputExceeded

  datatype Checked<T> = Pass(value: T) | Fail(error: FormatError)

  // ----- preflight: nodes and depth -----

  datatype Metrics = Metrics(nodes: nat, depth: nat)

  datatype Visit = Visit(expr: Expr, depth: nat)

  function PendingNodes(stack: seq<Visit>): (n: nat)
    ensures n >= |stack|
  {
    if stack == [] then 0 else PendingNodes(stack[..|stack| - 1]) + Nodes(stack[|stack| - 1].expr)
  }

  function PendingDepth(stack: seq<Visit>): nat {
    if stack == [] then 0
    else
      var top := stack[|stack| - 1];
      Max(PendingDepth(stack[..|stack| - 1]), top.depth + Depth(top.expr) - 1)
  }

  /** Pushes children so that the first is popped first. */
  method PushChildren(stack: seq<Visit>, es: seq<Expr>, depth: nat) returns (r: seq<Visit>)
    requires depth >= 1
    ensures PendingNodes(r) == PendingNodes(stack) + NodesAll(es)
    ensures PendingDepth(r) == Max(PendingDepth(stack), DepthBelow(es, depth))
  {
    r := stack;
    var i := |es|;
    while i > 0
      invariant 0 <= i <= |es|
      invariant PendingNodes(r) == PendingNodes(stack) + NodesAll(es[i..])
      invariant PendingDepth(r) == Max(PendingDepth(stack), DepthBelow(es[i..], depth))
    {
      i := i - 1;
      ghost var before := r;
      assert es[i..] == [es[i]] + es[i + 1..];
      FirstChild(es[i], es[i + 1..]);
      r := r + [Visit(es[i], depth)];
      assert r[..|r| - 1] == before;
    }
    assert es[0..] == es;
  }

  /** Depth of the deepest node under siblings that stand at `depth`. */
  function DepthBelow(es: seq<Expr>, depth: nat): nat
    requires depth >= 1
  {
    if es == [] then 0 else depth + DepthAll(es) - 1
  }

  /** Accepts exactly the trees within both limits, and then returns their exact size; an error
      names a limit the tree does exceed. */
  method Preflight(e: Expr, maxNodes: nat, maxDepth: nat) returns (r: Checked<Metrics>)
    ensures r.Pass? <==> Nodes(e) <= maxNodes && Depth(e) <= maxDepth
    ensures r.Pass? ==> r.value == Metrics(Nodes(e), Depth(e))
    ensures r.Fail? ==> r.error == NodesExceeded || r.error == DepthExceeded
    ensures r == Fail(NodesExceeded) ==> Nodes(e) > maxNodes
    ensures r == Fail(DepthExceeded) ==> Depth(e) > maxDepth
  {
    var stack := [Visit(e, 1)];
    var nodes: nat, deepest: nat := 0, 0;
    assert stack[..0] == [];
    while stack != []
      invariant nodes + PendingNodes(stack) == Nodes(e)
      invariant Max(deepest, PendingDepth(stack)) == Depth(e)
      invariant nodes <= maxNodes && deepest <= maxDepth
      decreases PendingNodes(stack)
    {
      var current := stack[|stack| - 1];
      stack := stack[..|stack| - 1];
      if current.depth > maxDepth {
        return Fail(DepthExceeded);
      }
      nodes := nodes + 1;
      if nodes > maxNodes {
        return Fail(NodesExceeded);
      }
      deepest := Max(deepest, current.depth);
      var children := Children(current.expr);
      if |children| > maxNodes - nodes {
        return Fail(NodesExceeded);
      }
      if |children| > 0 && current.depth >= maxDepth {
        ChildDeeper(children);
        return Fail(DepthExceeded);
      }
      stack := PushChildren(stack, children, current.depth + 1);
    }
    r := Pass(Metrics(nodes, deepest));
  }

  lemma ChildDeeper(es: seq<Expr>)
    requires es != []
    ensures DepthAll(es) >= 1
  {
  }

  // ----- names, floats and scalar bytes -----

  predicate FloatsFinite(codec: FloatCodec, e: Expr)
    decreases e, 1
  {
    match e
    case Float(bits) => codec.finite(bits)
    case Array(items) => FloatsFiniteAll(codec, items)
    case Member(receiver, _) => FloatsFinite(codec, receiver)
    case Call(_, args) => FloatsFiniteAll(codec, args)
    case Method(receiver, _, args) => FloatsFinite(codec, receiver) && FloatsFiniteAll(codec, args)
    case Unary(_, operand) => FloatsFinite(codec, operand)
    case Binary(left, _, right) => FloatsFinite(codec, left) && FloatsFinite(codec, right)
    case _ => true
  }

  predicate FloatsFiniteAll(codec: FloatCodec, es: seq<Expr>)
    decreases es, 0
  {
    es == [] || (FloatsFinite(codec, es[0]) && FloatsFiniteAll(codec, es[1..]))
  }

  /** Floats that can be read back are finite. */
  lemma {:induction false} ReadableFinite(codec: FloatCodec, e: Expr)
    requires ValuesReadable(codec, e)
    ensures FloatsFinite(codec, e)
    decreases e, 1
  {
    match e
    case Array(items) => ReadableFiniteAll(codec, items);
    case Member(receiver, _) => ReadableFinite(codec, receiver);
    case Call(_, args) => ReadableFiniteAll(codec, args);
    case Method(receiver, _, args) =>
      ReadableFinite(codec, receiver);
      ReadableFiniteAll(codec, args);
    case Unary(_, operand) => ReadableFinite(codec, operand);
    case Binary(left, _, right) =>
      ReadableFinite(codec, left);
      ReadableFinite(codec, right);
    case _ =>
  }

  lemma {:induction false} ReadableFiniteAll(codec: FloatCodec, es: seq<Expr>)
    requires ValuesReadableAll(codec, es)
    ensures FloatsFiniteAll(codec, es)
    decreases es, 0
  {
    if es != [] {
      ReadableFinite(codec, es[0]);
      ReadableFiniteAll(codec, es[1..]);
    }
  }

  predicate HasName(e: Expr) { e.Ident? || e.Member? || e.Call? || e.Method? }

  lemma SyntaxParts(codec: FloatCodec, e: Expr)
    ensures ScalarBytes(e) == Bytes(OwnText(e)) + ScalarBytesAll(Children(e))
    ensures NamesValid(e) <==> (HasName(e) ==> IsValidName(OwnText(e))) && NamesValidAll(Children(e))
    ensures FloatsFinite(codec, e) <==>
      (e.Float? ==> codec.finite(e.bits)) && FloatsFiniteAll(codec, Children(e))
  {
    match e
    case Member(receiver, _) => PartsOne(codec, receiver);
    case Method(receiver, _, args) => PartsFirst(codec, receiver, args);
    case Unary(_, operand) => PartsOne(codec, operand);
    case Binary(left, _, right) =>
      PartsFirst(codec, left, [right]);
      PartsOne(codec, right);
    case _ =>
  }

  lemma PartsOne(codec: FloatCodec, e: Expr)
    ensures ScalarBytesAll([e]) == ScalarBytes(e) && (NamesValidAll([e]) <==> NamesValid(e))
    ensures FloatsFiniteAll(codec, [e]) <==> FloatsFinite(codec, e)
  {
    assert [e][1..] == [];
  }

  lemma PartsFirst(codec: FloatCodec, e: Expr, es: seq<Expr>)
    ensures ScalarBytesAll([e] + es) == ScalarBytes(e) + ScalarBytesAll(es)
    ensures NamesValidAll([e] + es) <==> NamesValid(e) && NamesValidAll(es)
    ensures FloatsFiniteAll(codec, [e] + es) <==> FloatsFinite(codec, e) && FloatsFiniteAll(codec, es)
  {
    assert ([e] + es)[1..] == es;
  }

  /** What is left to check, deepest work first. */
  function Waiting(pending: seq<Expr>): (es: seq<Expr>)
    ensures |es| == |pending|
  {
    if pending == [] then [] else [pending[|pending| - 1]] + Waiting(pending[..|pending| - 1])
  }

  lemma AppendParts(codec: FloatCodec, a: seq<Expr>, b: seq<Expr>)
    ensures ScalarBytesAll(a + b) == ScalarBytesAll(a) + ScalarBytesAll(b)
    ensures NodesAll(a + b) == NodesAll(a) + NodesAll(b)
    ensures NamesValidAll(a + b) <==> NamesValidAll(a) && NamesValidAll(b)
    ensures FloatsFiniteAll(codec, a + b) <==> FloatsFiniteAll(codec, a) && FloatsFiniteAll(codec, b)
  {
    if a == [] {
      assert a + b == b;
    } else {
      AppendParts(codec, a[1..], b);
      PartsFirst(codec, a[0], a[1..] + b);
      FirstChild(a[0], a[1..] + b);
      assert [a[0]] + (a[1..] + b) == a + b;
    }
  }

  lemma WaitingPush(pending: seq<Expr>, e: Expr)
    ensures Waiting(pending + [e]) == [e] + Waiting(pending)
  {
    assert (pending + [e])[..|pending|] == pending;
  }

  method PushReversed(pending: seq<Expr>, es: seq<Expr>) returns (r: seq<Expr>)
    ensures Waiting(r) == es + Waiting(pending)
  {
    hide Waiting;
    r := pending;
    var i := |es|;
    while i > 0
      invariant 0 <= i <= |es|
      invariant Waiting(r) == es[i..] + Waiting(pending)
    {
      i := i - 1;
      WaitingPush(r, es[i]);
      r := r + [es[i]];
      assert es[i..] == [es[i]] + es[i + 1..];
    }
    assert es[0..] == es;
  }

  /** Accepts exactly the trees whose names are identifiers, whose floats are finite and whose
      scalar bytes fit, and returns the scalar bytes. */
  method ValidateSyntax(codec: FloatCodec, e: Expr, maxScalarBytes: nat) returns (r: Checked<nat>)
    ensures r.Pass? <==> NamesValid(e) && FloatsFinite(codec, e) && ScalarBytes(e) <= maxScalarBytes
    ensures r.Pass? ==> r.value == ScalarBytes(e)
    ensures r.Fail? ==> r.error == ScalarsExceeded || r.error == BadName || r.error == NotFinite
    ensures r == Fail(ScalarsExceeded) ==> ScalarBytes(e) > maxScalarBytes
    ensures r == Fail(BadName) ==> !NamesValid(e)
    ensures r == Fail(NotFinite) ==> !FloatsFinite(codec, e)
  {
    var pending := [e];
    var scalars: nat := 0;
    assert pending[..0] == [];
    PartsOne(codec, e);
    while pending != []
      invariant scalars + ScalarBytesAll(Waiting(pending)) == ScalarBytes(e)
      invariant NamesValid(e) <==> NamesValidAll(Waiting(pending))
      invariant FloatsFinite(codec, e) <==> FloatsFiniteAll(codec, Waiting(pending))
      invariant scalars <= maxScalarBytes
      decreases NodesAll(Waiting(pending))
    {
      var current := pending[|pending| - 1];
      pending := pending[..|pending| - 1];
      PartsFirst(codec, current, Waiting(pending));
      FirstChild(current, Waiting(pending));
      SyntaxParts(codec, current);
      if scalars + Bytes(OwnText(current)) > maxScalarBytes {
        return Fail(ScalarsExceeded);
      }
      scalars := scalars + Bytes(OwnText(current));
      if HasName(current) && !IsValidName(OwnText(current)) {
        return Fail(BadName);
      }
      if current.Float? && !codec.finite(current.bits) {
        return Fail(NotFinite);
      }
      var children := Children(current);
      AppendParts(codec, children, Waiting(pending));
      pending := PushReversed(pending, children);
    }
    r := Pass(scalars);
  }
}
