/** Accepted programs that no registry check passes: one for each way a leftover call can be met. */
module LeftoverEdges {
  import opened Tokens
  import opened Syntax
  import opened Program
  import opened LowerSpec
  import opened Dispatch
  import opened CallGraph
  import opened Registry
  import opened ModeEdges
  import A = Analysis
  import C = Cycles
  import E = EvalSpec

  /** `f(x) = g(x)` and `f(x) = x` for everyone, `g(x) = x` for local rules only. */
  const PassOn := Function("f", ["x"], Call("g", [Ident("x")]), GlobalScope)
  const Echo := Function("f", ["x"], Ident("x"), GlobalScope)
  const Private := Function("g", ["x"], Ident("x"), LocalScope)

  /** The registry's own schema with these functions, under the default options. */
  function GrownEnv(rt: E.Runtime, mode: Mode, scope: Scope, fs: seq<Function>): Env {
    Env(mode, AddedAll(OwnSchema(rt), fs), scope, 8, false, false, false, _ => true, _ => true)
  }

  /** A registry that hosts no `g`. */
  predicate HostsNoG(rt: E.Runtime) { SchemaIntegrity(OwnSchema(rt)) && "g" !in rt.functions }

  lemma Tables(rt: E.Runtime, fs: seq<Function>)
    requires HostsNoG(rt)
    requires fs == [Private] || (|fs| == 2 && (fs[0] == PassOn || fs[0] == Echo) && fs[1] == Private)
    ensures var s := AddedAll(OwnSchema(rt), fs);
      && Grown(rt, s) && SchemaIntegrity(s) && Backed(rt, s)
      && s.globals == (if |fs| == 2 then map["f" := fs[0]] else map[]) && s.locals == map["g" := Private]
      && SignatureAccepts(s.functions, "g", 1) == Matches(PlainFunction("g", 1))
      && Leftover(rt, s, HostSite(GlobalScope, CallSite("g", 1)))
  {
    hide EntryOf, SchemaIntegrity;
    OwnSchemaGrows(rt, fs);
    var s := AddedAll(OwnSchema(rt), fs);
    GrownBacked(rt, s);
    AddedShape(rt, fs);
    PlainEntry(rt, s);
  }

  lemma AddedShape(rt: E.Runtime, fs: seq<Function>)
    requires fs == [Private] || (|fs| == 2 && (fs[0] == PassOn || fs[0] == Echo) && fs[1] == Private)
    ensures var s := AddedAll(OwnSchema(rt), fs);
      s.globals == (if |fs| == 2 then map["f" := fs[0]] else map[]) && s.locals == map["g" := Private]
  {
    hide WithEntry;
    var most := fs[..|fs| - 1];
    assert AddedAll(OwnSchema(rt), fs) == Added(AddedAll(OwnSchema(rt), most), Private);
    if |fs| == 2 {
      assert most == [fs[0]] && most[..0] == [];
      assert AddedAll(OwnSchema(rt), most) == Added(AddedAll(OwnSchema(rt), []), fs[0]);
    } else {
      assert most == [];
    }
  }

  lemma PlainEntry(rt: E.Runtime, s: Schema)
    requires Grown(rt, s) && s.locals == map["g" := Private] && "g" !in s.globals && "g" !in rt.functions
    ensures SignatureAccepts(s.functions, "g", 1) == Matches(PlainFunction("g", 1))
    ensures Leftover(rt, s, HostSite(GlobalScope, CallSite("g", 1)))
  {
    hide SchemaIntegrity;
    assert Leaves(s, "g", 1);
    assert EntryOf(s.functions, "g", 1) == Some(PlainFunction("g", 1));
    assert EntryOf(rt.functions, "g", 1) == None;
  }

  /** A host call of an accepted argument, permitted and with a matching entry. */
  lemma HostNode(
    env: Env, frames: seq<Binding>, locals: seq<seq<string>>, active: seq<FunctionKey>, name: string, arg: Expr, depth: nat)
    requires depth <= env.cap && Callee(env, active, Call(name, [arg])) == None
    requires Accepted(Analyze(env, frames, locals, active, arg, depth + 1))
    requires SignatureAccepts(env.schema.functions, name, 1).Matches?
    requires env.permits(SignatureAccepts(env.schema.functions, name, 1).capability)
    ensures Accepted(Analyze(env, frames, locals, active, Call(name, [arg]), depth))
    ensures HostSite(CurrentScope(env, active), CallSite(name, 1)) in HostCalls(env, frames, active, Call(name, [arg]), depth)
  {
    hide AnalyzeAll, HostCallsAll;
    var e := Call(name, [arg]);
    var kids := AnalyzeAll(env, frames, locals, active, Children(e), depth + 1);
    assert Children(e) == [arg];
    OneItem(env, frames, locals, active, arg, depth + 1);
    assert NodeClean(env, locals, e);
    assert Analyze(env, frames, locals, active, e, depth) == Build(env, locals, e, kids);
  }

  lemma NotServed(env: Env, rt: E.Runtime, e: Expr)
    requires Backed(rt, env.schema) && Leftover(rt, env.schema, HostSite(GlobalScope, CallSite("g", 1)))
    requires HostSite(GlobalScope, CallSite("g", 1)) in HostCalls(env, [], [], e, 0)
    ensures !Serves(rt, Analyze(env, [], [], [], e, 0).required)
  {
    hide Analyze, Serves, HostCalls, Leftover, Backed;
    OwnRegistryServes(env, rt, [], [], [], e, 0);
  }

  // ----- a program in the global scope -----

  /** `g(true)` where only local rules have a `g`. */
  lemma GlobalProgramLeaks(rt: E.Runtime, mode: Mode)
    requires HostsNoG(rt)
    ensures var env, e := GrownEnv(rt, mode, GlobalScope, [Private]), Call("g", [Bool(true)]);
      && Grown(rt, env.schema)
      && Accepted(Analyze(env, [], [], [], e, 0)) && !Serves(rt, Analyze(env, [], [], [], e, 0).required)
  {
    hide Analyze, HostCalls, Serves, Grown, Backed, Leftover, AddedAll, SchemaIntegrity, HostsNoG;
    var env, e := GrownEnv(rt, mode, GlobalScope, [Private]), Call("g", [Bool(true)]);
    Tables(rt, [Private]);
    Leaf(env, [], [], [], Bool(true), 1);
    HostNode(env, [], [], [], "g", Bool(true), 0);
    NotServed(env, rt, e);
  }

  // ----- a global function -----

  const CallF := Call("f", [Bool(true)])

  lemma NestedHostCalls(env: Env, f: Function, args: seq<Expr>, h: HostSite)
    requires env.cap >= 1 && |f.params| == |args| && Callee(env, [], Call(f.name, args)) == Some(f)
    requires h in HostCalls(
      env, if env.mode == Inline then [Binding(f.params, args)] else [], [KeyOf(f)], f.body, 1)
    ensures h in HostCalls(env, [], [], Call(f.name, args), 0)
  {
    hide HostCallsAll;
    var frames: seq<Binding> := [];
    assert frames + [Binding(f.params, args)] == [Binding(f.params, args)];
    var active: seq<FunctionKey> := [];
    assert active + [KeyOf(f)] == [KeyOf(f)];
    assert HostCalls(env, [], [], Call(f.name, args), 0) == HostCallsFrom(env, [], [], f, args, 0);
  }

  lemma PassOnAccepted(env: Env)
    requires env.cap == 8 && Callee(env, [], CallF) == Some(PassOn)
    requires Callee(env, [KeyOf(PassOn)], PassOn.body) == None
    requires SignatureAccepts(env.schema.functions, "g", 1).Matches?
    requires env.permits(SignatureAccepts(env.schema.functions, "g", 1).capability)
    ensures Accepted(Analyze(env, [], [], [], CallF, 0))
    ensures HostSite(GlobalScope, CallSite("g", 1)) in HostCalls(env, [], [], CallF, 0)
  {
    hide Analyze, HostCalls;
    var f, key, arg := PassOn, [KeyOf(PassOn)], Bool(true);
    var binding := Binding(f.params, [arg]);
    assert [] + [binding] == [binding] && [] + [f.params] == [f.params] && [] + key == key;
    Leaf(env, [], [], [], arg, 1);
    if env.mode == Inline {
      BoundLeaf(env, binding, key, arg, 2);
      HostNode(env, [binding], [], key, "g", Ident("x"), 1);
      InlineCall(env, [], [], f, [arg], 0);
    } else {
      assert IsLocal([f.params], "x");
      Leaf(env, [], [f.params], key, Ident("x"), 2);
      HostNode(env, [], [f.params], key, "g", Ident("x"), 1);
      OneItem(env, [], [], [], arg, 1);
      FrameCall(env, [], [], f, [arg], 0);
    }
    NestedHostCalls(env, f, [arg], HostSite(GlobalScope, CallSite("g", 1)));
  }

  /** The parameter of a borrowed frame stands for its argument. */
  lemma BoundLeaf(env: Env, binding: Binding, active: seq<FunctionKey>, arg: Expr, depth: nat)
    requires binding == Binding(["x"], [arg]) && arg == Bool(true) && depth <= env.cap
    ensures Accepted(Analyze(env, [binding], [], active, Ident("x"), depth))
  {
    Leaf(env, [], [], active, arg, depth);
    assert [binding][..0] == [];
    assert InlineBinding([binding], "x") == Some(arg);
    assert Analyze(env, [binding], [], active, Ident("x"), depth) == Analyze(env, [], [], active, arg, depth);
  }

  lemma BodyCalls(s: Schema, k: FunctionKey)
    requires s.globals == map["f" := PassOn] && s.locals == map["g" := Private] && HasFunction(s, k)
    ensures Calls(FunctionAt(s, k).body) == if k.scope == LocalScope then [] else [CallSite("g", 1)]
    ensures FunctionForScope(s, "g", GlobalScope) == None
  {
    hide Calls;
    NoCallsInLeaf();
  }

  lemma BodiesFitHere(env: Env)
    requires env.schema.globals == map["f" := PassOn] && env.schema.locals == map["g" := Private]
    requires SignatureAccepts(env.schema.functions, "g", 1).Matches?
    ensures A.BodiesFit(env)
  {
    hide Calls, HasFunction, FunctionAt, FunctionForScope, SignatureAccepts;
    var s := env.schema;
    forall k | HasFunction(s, k) ensures A.CallsFit(env, k.scope, Calls(FunctionAt(s, k).body)) {
      BodyCalls(s, k);
    }
  }

  lemma NoEdges(s: Schema)
    requires SchemaIntegrity(s) && s.globals == map["f" := PassOn] && s.locals == map["g" := Private]
    ensures Acyclic(s)
  {
    hide Calls, HasFunction, FunctionAt, FunctionForScope, SchemaIntegrity, EdgesOf;
    forall k | k in Graph(s) ensures Graph(s)[k] == [] {
      BodyCalls(s, k);
      A.NoEdges(s, LocalScope);
      A.OneEdge(s, GlobalScope, CallSite("g", 1));
    }
    forall c ensures !C.IsCycle(Graph(s), c) {
      if C.IsCycle(Graph(s), c) { CycleLeaves(Graph(s), c); }
    }
  }

  lemma CycleLeaves(g: C.Graph, c: seq<FunctionKey>)
    requires C.IsCycle(g, c)
    ensures c[0] in g && g[c[0]] != []
  {
    assert C.Edge(g, c[0], c[1]);
  }

  lemma NoCallsInLeaf()
    ensures Calls(Ident("x")) == [] && Calls(Call("g", [Ident("x")])) == [CallSite("g", 1)]
  {
    assert Children(Ident("x")) == [] && Children(Call("g", [Ident("x")])) == [Ident("x")];
    assert [Ident("x")][1..] == [];
  }

  /** `f(true)`, whose body calls a name that only local rules have. The function graph is sound, nothing
      is reported in either mode, and no registry without a `g` of its own passes the check. */
  lemma GlobalBodyLeaks(rt: E.Runtime, mode: Mode)
    requires HostsNoG(rt)
    ensures var env := GrownEnv(rt, mode, LocalScope, [PassOn, Private]);
      && Grown(rt, env.schema) && A.BodiesFit(env) && Acyclic(env.schema)
      && Accepted(Analyze(env, [], [], [], CallF, 0)) && !Serves(rt, Analyze(env, [], [], [], CallF, 0).required)
  {
    hide Analyze, HostCalls, Serves, Grown, Backed, Leftover, AddedAll, SchemaIntegrity, HostsNoG, A.BodiesFit, Acyclic;
    var env := GrownEnv(rt, mode, LocalScope, [PassOn, Private]);
    Tables(rt, [PassOn, Private]);
    BodiesFitHere(env);
    NoEdges(env.schema);
    PassOnAccepted(env);
    NotServed(env, rt, CallF);
  }

  // ----- an argument -----

  const CallFG := Call("f", [Call("g", [Bool(true)])])

  lemma EchoInline(env: Env)
    requires env.cap == 8 && env.mode == Inline && Callee(env, [], CallFG) == Some(Echo)
    requires Callee(env, [KeyOf(Echo)], Call("g", [Bool(true)])) == None
    requires SignatureAccepts(env.schema.functions, "g", 1).Matches?
    requires env.permits(SignatureAccepts(env.schema.functions, "g", 1).capability)
    ensures Accepted(Analyze(env, [], [], [], CallFG, 0))
    ensures HostSite(GlobalScope, CallSite("g", 1)) in HostCalls(env, [], [], CallFG, 0)
  {
    var f, key, arg := Echo, [KeyOf(Echo)], Call("g", [Bool(true)]);
    var binding := Binding(f.params, [arg]);
    assert [] + [binding] == [binding] && [] + key == key && [binding][..0] == [];
    assert InlineBinding([binding], "x") == Some(arg);
    assert Analyze(env, [binding], [], key, Ident("x"), 1) == Analyze(env, [], [], key, arg, 1);
    assert HostCalls(env, [binding], key, Ident("x"), 1) == HostCalls(env, [], key, arg, 1);
    hide Analyze, HostCalls;
    Leaf(env, [], [], key, Bool(true), 2);
    HostNode(env, [], [], key, "g", Bool(true), 1);
    InlineCall(env, [], [], f, [arg], 0);
    NestedHostCalls(env, f, [arg], HostSite(GlobalScope, CallSite("g", 1)));
  }

  lemma EchoFrames(env: Env)
    requires env.cap == 8 && env.mode == CallFrame && Callee(env, [], CallFG) == Some(Echo)
    requires Callee(env, [], Call("g", [Bool(true)])) == Some(Private)
    ensures Accepted(Analyze(env, [], [], [], CallFG, 0))
    ensures HostCalls(env, [], [], CallFG, 0) == {}
  {
    hide Analyze, AnalyzeAll;
    var f, g, arg := Echo, Private, Call("g", [Bool(true)]);
    assert [] + [f.params] == [["x"]] && IsLocal([["x"]], "x");
    Leaf(env, [], [["x"]], [] + [KeyOf(g)], Ident("x"), 2);
    Leaf(env, [], [["x"]], [] + [KeyOf(f)], Ident("x"), 1);
    Leaf(env, [], [], [], Bool(true), 2);
    OneItem(env, [], [], [], Bool(true), 2);
    FrameCall(env, [], [], g, [Bool(true)], 1);
    OneItem(env, [], [], [], arg, 1);
    FrameCall(env, [], [], f, [arg], 0);
    NoneMet(env, [], Bool(true), 2);
    NoneMet(env, [KeyOf(g)], Ident("x"), 2);
    NoneMet(env, [KeyOf(f)], Ident("x"), 1);
    FrameMet(env, g, Bool(true), 1);
    FrameMet(env, f, arg, 0);
  }

  lemma NoneMet(env: Env, active: seq<FunctionKey>, e: Expr, depth: nat)
    requires e.Bool? || e.Ident?
    ensures HostCalls(env, [], active, e, depth) == {}
  {
    assert Children(e) == [];
  }

  lemma FrameMet(env: Env, f: Function, arg: Expr, depth: nat)
    requires env.mode == CallFrame && |f.params| == 1 && depth <= env.cap && Callee(env, [], Call(f.name, [arg])) == Some(f)
    requires HostCalls(env, [], [], arg, depth + 1) == {} && HostCalls(env, [], [KeyOf(f)], f.body, depth + 1) == {}
    ensures HostCalls(env, [], [], Call(f.name, [arg]), depth) == {}
  {
    var active: seq<FunctionKey> := [];
    assert active + [KeyOf(f)] == [KeyOf(f)] && [arg][1..] == [];
    assert HostCallsAll(env, [], [], [arg], depth + 1) == {};
    hide HostCallsAll;
    assert HostCalls(env, [], [], Call(f.name, [arg]), depth) == HostCallsFrom(env, [], [], f, [arg], depth);
  }

  /** `f(g(true))` with `f(x) = x`: no global body calls a local name, and still the inline program is
      not served, since the argument is looked up in the scope of `f`. With call frames it is served. */
  lemma ArgumentLeaks(rt: E.Runtime)
    requires HostsNoG(rt)
    ensures var inline := GrownEnv(rt, Inline, LocalScope, [Echo, Private]);
      var frames := GrownEnv(rt, CallFrame, LocalScope, [Echo, Private]);
      && Grown(rt, inline.schema) && frames.schema == inline.schema
      && Accepted(Analyze(inline, [], [], [], CallFG, 0)) && !Serves(rt, Analyze(inline, [], [], [], CallFG, 0).required)
      && Accepted(Analyze(frames, [], [], [], CallFG, 0)) && Serves(rt, Analyze(frames, [], [], [], CallFG, 0).required)
  {
    hide Analyze, HostCalls, Serves, Grown, Backed, Leftover, AddedAll, SchemaIntegrity, HostsNoG;
    var inline := GrownEnv(rt, Inline, LocalScope, [Echo, Private]);
    var frames := GrownEnv(rt, CallFrame, LocalScope, [Echo, Private]);
    Tables(rt, [Echo, Private]);
    EchoInline(inline);
    NotServed(inline, rt, CallFG);
    EchoFrames(frames);
    OwnRegistryServes(frames, rt, [], [], [], CallFG, 0);
  }
}
