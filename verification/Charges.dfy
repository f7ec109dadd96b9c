/** What lowering with call frames charges, read off the tree it builds. */
module Charges {
  import opened Text
  import opened Tokens
  import opened Syntax
  import opened Program
  import opened LowerSpec
  import opened LowerFacts

  /** The bytes of all texts and names in a tree, the parameters of its call frames included. */
  function TreeBytes(v: Verified): nat
    decreases v, 1
  {
    match v
    case VStr(text) => Bytes(text)
    case VIdent(name) => Bytes(name)
    case VArray(items) => TreeBytesAll(items)
    case VMember(receiver, name) => Bytes(name) + TreeBytes(receiver)
    case VCall(name, args, _) => Bytes(name) + TreeBytesAll(args)
    case VFunction(name, params, args, body) =>
      Bytes(name) + NameBytes(params) + TreeBytesAll(args) + TreeBytes(body)
    case VMethod(receiver, name, args, _) => Bytes(name) + TreeBytes(receiver) + TreeBytesAll(args)
    case VUnary(_, operand, _) => TreeBytes(operand)
    case VBinary(left, _, right, _) => TreeBytes(left) + TreeBytes(right)
    case _ => 0
  }

  function TreeBytesAll(vs: seq<Verified>): nat
    decreases vs, 0
  {
    if vs == [] then 0 else TreeBytes(vs[0]) + TreeBytesAll(vs[1..])
  }

  function NameBytes(names: seq<string>): nat {
    if names == [] then 0 else NameBytes(names[..|names| - 1]) + Bytes(names[|names| - 1])
  }

  lemma {:induction false} NameBytesFirst(name: string, names: seq<string>)
    ensures NameBytes([name] + names) == Bytes(name) + NameBytes(names)
    decreases |names|
  {
    if names == [] {
      assert [name] + names == [name] && [name][..0] == [];
    } else {
      assert ([name] + names)[..|names|] == [name] + names[..|names| - 1];
      NameBytesFirst(name, names[..|names| - 1]);
    }
  }

  lemma {:induction false} ParamsWeigh(params: seq<string>)
    ensures ParamBytes(params) == NameBytes(params)
  {
    if params != [] {
      assert params == [params[0]] + params[1..];
      NameBytesFirst(params[0], params[1..]);
      ParamsWeigh(params[1..]);
    }
  }

  lemma FirstTree(v: Verified, vs: seq<Verified>)
    ensures SizeAll([v] + vs) == Size(v) + SizeAll(vs) && TreeBytesAll([v] + vs) == TreeBytes(v) + TreeBytesAll(vs)
    ensures SizeAll([v]) == Size(v) && TreeBytesAll([v]) == TreeBytes(v)
  {
    hide Size, TreeBytes;
    assert ([v] + vs)[1..] == vs && [v][1..] == [];
  }

  lemma NodeWeighs(env: Env, e: Expr, vs: seq<Verified>)
    requires |vs| == |Children(e)|
    ensures Size(Tree(env, e, vs)) == 1 + SizeAll(vs)
    ensures TreeBytes(Tree(env, e, vs)) == Bytes(OwnText(e)) + TreeBytesAll(vs)
  {
    hide HostCall, TicketOf, UnaryCapability, BinaryCapability, Bytes, SizeAll, TreeBytesAll, Size, TreeBytes, Nodes,
      Depth, NodesAll, DepthAll;
    NoTrees();
    TreeParts(Tree(env, e, vs));
    if e.Member? || e.Unary? {
      assert vs == [vs[0]];
      FirstTree(vs[0], []);
    } else if e.Method? {
      assert vs == [vs[0]] + vs[1..];
      FirstTree(vs[0], vs[1..]);
    } else if e.Binary? {
      assert vs == [vs[0]] + [vs[1]];
      FirstTree(vs[0], [vs[1]]);
      FirstTree(vs[1], []);
    }
  }

  lemma TreeParts(v: Verified)
    ensures Bytes("") == 0
    ensures match v {
      case VStr(text) => Size(v) == 1 && TreeBytes(v) == Bytes(text)
      case VIdent(name) => Size(v) == 1 && TreeBytes(v) == Bytes(name)
      case VArray(items) => Size(v) == 1 + SizeAll(items) && TreeBytes(v) == TreeBytesAll(items)
      case VMember(receiver, name) => Size(v) == 1 + Size(receiver) && TreeBytes(v) == Bytes(name) + TreeBytes(receiver)
      case VCall(name, args, _) => Size(v) == 1 + SizeAll(args) && TreeBytes(v) == Bytes(name) + TreeBytesAll(args)
      case VMethod(receiver, name, args, _) =>
        Size(v) == 1 + Size(receiver) + SizeAll(args) && TreeBytes(v) == Bytes(name) + TreeBytes(receiver) + TreeBytesAll(args)
      case VUnary(_, operand, _) => Size(v) == 1 + Size(operand) && TreeBytes(v) == TreeBytes(operand)
      case VBinary(left, _, right, _) =>
        Size(v) == 1 + Size(left) + Size(right) && TreeBytes(v) == TreeBytes(left) + TreeBytes(right)
      case VFunction(_, _, _, _) => true
      case _ => Size(v) == 1 && TreeBytes(v) == 0
    }
  {
    hide SizeAll, TreeBytesAll;
  }

  lemma NoTrees()
    ensures SizeAll([]) == 0 && TreeBytesAll([]) == 0
  {
  }

  /** With call frames, a tree is charged one node for each of its nodes and the bytes of its texts and
      names, no more and no less. */
  lemma {:induction false} ChargesExactly(
    env: Env, locals: seq<seq<string>>, active: seq<FunctionKey>, e: Expr, depth: nat)
    requires env.mode == CallFrame && SchemaIntegrity(env.schema)
    requires var o := Analyze(env, [], locals, active, e, depth); !o.tooDeep && !o.Cut()
    ensures var o := Analyze(env, [], locals, active, e, depth);
      o.nodes == Size(o.expr) && o.scalars == TreeBytes(o.expr)
    decreases Rank(env.cap, depth), 2
  {
    hide Build, Tree, Size, SizeAll, TreeBytes, TreeBytesAll, AnalyzeAll, AnalyzeFunction, SchemaIntegrity;
    if Callee(env, active, e).Some? {
      CallCharges(env, locals, active, Callee(env, active, e).value, e, depth);
    } else {
      var kids := AnalyzeAll(env, [], locals, active, Children(e), depth + 1);
      BuildParts(env, locals, e, kids);
      AllCharged(env, locals, active, Children(e), depth + 1);
      NodeWeighs(env, e, kids.exprs);
    }
  }

  lemma CalleeName(env: Env, active: seq<FunctionKey>, e: Expr)
    requires SchemaIntegrity(env.schema) && Callee(env, active, e).Some?
    ensures Callee(env, active, e).value.name == e.name
  {
  }

  lemma {:induction false} CallCharges(
    env: Env, locals: seq<seq<string>>, active: seq<FunctionKey>, f: Function, e: Expr, depth: nat)
    requires env.mode == CallFrame && SchemaIntegrity(env.schema)
    requires depth <= env.cap && e.Call? && Callee(env, active, e) == Some(f)
    requires var o := AnalyzeFunction(env, [], locals, active, f, e, depth); !o.tooDeep && !o.Cut()
    ensures var o := AnalyzeFunction(env, [], locals, active, f, e, depth);
      o.nodes == Size(o.expr) && o.scalars == TreeBytes(o.expr)
    decreases Rank(env.cap, depth), 1
  {
    hide Analyze, AnalyzeAll, SizeAll, TreeBytesAll, SchemaIntegrity, ParamBytes, NameBytes;
    CalleeName(env, active, e);
    ParamsWeigh(f.params);
    AllCharged(env, locals, active, e.args, depth + 1);
    ChargesExactly(env, locals + [f.params], active + [KeyOf(f)], f.body, depth + 1);
  }

  lemma {:induction false} AllCharged(
    env: Env, locals: seq<seq<string>>, active: seq<FunctionKey>, es: seq<Expr>, depth: nat)
    requires env.mode == CallFrame && SchemaIntegrity(env.schema)
    requires var o := AnalyzeAll(env, [], locals, active, es, depth); !o.tooDeep && !o.Cut()
    ensures var o := AnalyzeAll(env, [], locals, active, es, depth);
      o.nodes == SizeAll(o.exprs) && o.scalars == TreeBytesAll(o.exprs)
    decreases Rank(env.cap, depth), |es| + 3
  {
    hide Analyze, Size, TreeBytes, SchemaIntegrity;
    if es != [] {
      ChargesExactly(env, locals, active, es[0], depth);
      AllCharged(env, locals, active, es[1..], depth);
      var o := AnalyzeAll(env, [], locals, active, es, depth);
      assert o.exprs[1..] == AnalyzeAll(env, [], locals, active, es[1..], depth).exprs;
    }
  }
}
