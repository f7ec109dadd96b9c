/** Why mode agreement needs its hypotheses: programs for which one of them fails and the modes differ. */
module ModeEdges {
  import opened Tokens
  import opened Syntax
  import opened Program
  import opened LowerSpec
  import opened Meaning
  import opened Modes
  import opened ModeAgreement
  import E = EvalSpec
  import VG = ValueGraph
  import R = Resources

  /** The inline mode analyses an argument while its function is still active, so a nested call of the
      identity function is reported as recursion even though the call-frame mode accepts it. */
  lemma NestedCallIsRefusedInline(env: Env, f: Function, x: string, a: Expr)
    requires env.cap >= 1 && f.params == [x] && f.body == Ident(x)
    requires forall scope :: FunctionForScope(env.schema, f.name, scope) == Some(f)
    ensures var e := Call(f.name, [Call(f.name, [a])]);
      Analyze(env.(mode := Inline), [], [], [], e, 0).recursive
  {
    var inline := env.(mode := Inline);
    var inner := Call(f.name, [a]);
    var e := Call(f.name, [inner]);
    var frames := [Binding(f.params, [inner])];
    assert [] + [Binding(f.params, [inner])] == frames && frames[..0] == [];
    assert [] + [KeyOf(f)] == [KeyOf(f)];
    assert BoundArg([x], [inner], x) == Some(inner);
    assert Callee(inline, [], e) == Some(f) && Callee(inline, [KeyOf(f)], inner) == Some(f);
    assert Analyze(inline, [], [], [KeyOf(f)], inner, 1)
        == AnalyzeFunction(inline, [], [], [KeyOf(f)], f, inner, 1);
    assert Analyze(inline, frames, [], [KeyOf(f)], f.body, 1) == Analyze(inline, [], [], [KeyOf(f)], inner, 1);
    assert Analyze(inline, [], [], [], e, 0) == AnalyzeFunction(inline, [], [], [], f, e, 0);
  }

  lemma NestedCallIsAcceptedByFrames(env: Env, f: Function, x: string, a: Expr)
    requires env.cap >= 1 && f.params == [x] && f.body == Ident(x)
    requires forall scope :: FunctionForScope(env.schema, f.name, scope) == Some(f)
    requires Accepted(Analyze(env.(mode := CallFrame), [], [], [], a, 2))
    ensures var e := Call(f.name, [Call(f.name, [a])]);
      Accepted(Analyze(env.(mode := CallFrame), [], [], [], e, 0))
  {
    var frame := env.(mode := CallFrame);
    var inner := Call(f.name, [a]);
    var e := Call(f.name, [inner]);
    OneArgument(frame, f, x, inner, a, 1);
    OneArgument(frame, f, x, e, inner, 0);
  }

  /** In the call-frame mode a call of the identity function is accepted where its argument is. */
  lemma OneArgument(env: Env, f: Function, x: string, e: Expr, a: Expr, depth: nat)
    requires env.mode == CallFrame && depth < env.cap && f.params == [x] && f.body == Ident(x)
    requires e == Call(f.name, [a]) && FunctionForScope(env.schema, f.name, env.scope) == Some(f)
    requires Accepted(Analyze(env, [], [], [], a, depth + 1))
    ensures Accepted(Analyze(env, [], [], [], e, depth))
  {
    hide Required;
    assert Callee(env, [], e) == Some(f);
    var o := AnalyzeAll(env, [], [], [], [a], depth + 1);
    assert [a][1..] == [];
    assert AnalyzeAll(env, [], [], [], [a][1..], depth + 1) == Outs([], 0, 0, {}, false, false, false, true);
    assert AcceptedAll(o);
    assert IsLocal([[x]], x) && [] + [f.params] == [[x]] && [] + [KeyOf(f)] == [KeyOf(f)];
    var body := Analyze(env, [], [[x]], [KeyOf(f)], Ident(x), depth + 1);
    assert Callee(env, [KeyOf(f)], Ident(x)) == None && Children(Ident(x)) == [];
    assert body == Build(env, [[x]], Ident(x), AnalyzeAll(env, [], [[x]], [KeyOf(f)], [], depth + 2));
    assert Accepted(body);
    assert Analyze(env, [], [], [], e, depth) == AnalyzeFunction(env, [], [], [], f, e, depth);
  }

  // ----- the converse fails -----

  ghost predicate Failing(rt: E.Runtime, b: E.Budget, v: Verified) {
    forall depth: nat, steps: nat, bytes: nat :: E.Eval(rt, b, v, [], depth, steps, bytes).Failed?
  }

  lemma NullTree(env: Env, frames: seq<Binding>, locals: seq<seq<string>>, active: seq<FunctionKey>, depth: nat)
    requires depth <= env.cap
    ensures var o := Analyze(env, frames, locals, active, Null, depth); Accepted(o) && o.expr == VNull
  {
    assert Children(Null) == [] && Callee(env, active, Null) == None;
  }

  /** A constant function of one parameter in the inline mode: the argument is gone. */
  lemma ConstantInline(env: Env, f: Function, x: string, a: Expr)
    requires env.mode == Inline && env.cap >= 1 && f.params == [x] && f.body == Null
    requires FunctionForScope(env.schema, f.name, env.scope) == Some(f)
    ensures var o := Analyze(env, [], [], [], Call(f.name, [a]), 0); Accepted(o) && o.expr == VNull
  {
    var e := Call(f.name, [a]);
    assert Callee(env, [], e) == Some(f);
    NullTree(env, [] + [Binding(f.params, e.args)], [], [] + [KeyOf(f)], 1);
    assert Analyze(env, [], [], [], e, 0) == AnalyzeFunction(env, [], [], [], f, e, 0);
  }

  /** In the call-frame mode: the argument is there. */
  lemma ConstantFrame(env: Env, f: Function, x: string, a: Expr)
    requires env.mode == CallFrame && env.cap >= 1 && f.params == [x] && f.body == Null
    requires FunctionForScope(env.schema, f.name, env.scope) == Some(f)
    requires Accepted(Analyze(env, [], [], [], a, 1))
    ensures var o := Analyze(env, [], [], [], Call(f.name, [a]), 0);
      Accepted(o) && o.expr == VFunction(f.name, [x], [Analyze(env, [], [], [], a, 1).expr], VNull)
  {
    var e := Call(f.name, [a]);
    assert Callee(env, [], e) == Some(f);
    NullTree(env, [], [] + [f.params], [] + [KeyOf(f)], 1);
    var o := AnalyzeAll(env, [], [], [], [a], 1);
    assert [a][1..] == [];
    assert AnalyzeAll(env, [], [], [], [a][1..], 1) == Outs([], 0, 0, {}, false, false, false, true);
    assert AcceptedAll(o) && o.exprs == [Analyze(env, [], [], [], a, 1).expr];
    assert Analyze(env, [], [], [], e, 0) == AnalyzeFunction(env, [], [], [], f, e, 0);
  }

  /** A call frame evaluates every argument, used or not; substitution does not. A call of a constant
      function whose argument always fails has a value in the inline mode only. */
  lemma ConverseFails(env: Env, f: Function, x: string, a: Expr, rt: E.Runtime, b: E.Budget)
    requires env.cap >= 1 && f.params == [x] && f.body == Null
    requires FunctionForScope(env.schema, f.name, env.scope) == Some(f)
    requires Accepted(Analyze(env.(mode := CallFrame), [], [], [], a, 1))
    requires Failing(rt, b, Analyze(env.(mode := CallFrame), [], [], [], a, 1).expr)
    requires b.maxSteps >= 1 && E.Admits(rt, b, VG.Leaf(VG.Null)) && b.maxTotalBytes >= 1
    ensures var e := Call(f.name, [a]);
      var frame, inline := Analyze(env.(mode := CallFrame), [], [], [], e, 0), Analyze(env.(mode := Inline), [], [], [], e, 0);
      && Accepted(frame) && Accepted(inline)
      && E.Eval(rt, b, frame.expr, [], 0, 0, 0).Failed?
      && E.Eval(rt, b, inline.expr, [], 0, 0, 0).Done?
  {
    var bad := Analyze(env.(mode := CallFrame), [], [], [], a, 1).expr;
    ConstantFrame(env.(mode := CallFrame), f, x, a);
    ConstantInline(env.(mode := Inline), f, x, a);
    hide *;
    FrameFails(rt, b, f.name, x, bad);
    NullEvaluates(rt, b);
  }

  lemma FrameFails(rt: E.Runtime, b: E.Budget, name: string, x: string, bad: Verified)
    requires Failing(rt, b, bad)
    ensures E.Eval(rt, b, VFunction(name, [x], [bad], VNull), [], 0, 0, 0).Failed?
  {
    assert E.Eval(rt, b, bad, [], 1, 1, 0).Failed?;
    assert E.EvalAll(rt, b, [bad], [], 1, 1, 0).Failed?;
  }

  lemma NullEvaluates(rt: E.Runtime, b: E.Budget)
    requires b.maxSteps >= 1 && E.Admits(rt, b, VG.Leaf(VG.Null)) && b.maxTotalBytes >= 1
    ensures E.Eval(rt, b, VNull, [], 0, 0, 0).Done?
  {
    assert E.Kids(VNull) == [];
  }

  /** An argument that always fails: a member of null. */
  const MemberOfNull := Member(Null, "x")

  lemma MemberOfNullFails(env: Env, frames: seq<Binding>, locals: seq<seq<string>>, active: seq<FunctionKey>, depth: nat)
    requires depth < env.cap
    ensures var o := Analyze(env, frames, locals, active, MemberOfNull, depth);
      Accepted(o) && forall rt, b :: Failing(rt, b, o.expr)
  {
    var o := Analyze(env, frames, locals, active, MemberOfNull, depth);
    NullTree(env, frames, locals, active, depth + 1);
    OneItem(env, frames, locals, active, Null, depth + 1);
    assert Children(MemberOfNull) == [Null] && Callee(env, active, MemberOfNull) == None;
    assert o.expr == VMember(VNull, "x");
    hide Analyze, AnalyzeAll;
    forall rt, b ensures Failing(rt, b, o.expr) { NullHasNoMembers(rt, b); }
  }

  lemma NullHasNoMembers(rt: E.Runtime, b: E.Budget)
    ensures Failing(rt, b, VMember(VNull, "x"))
  {
    forall depth: nat, steps: nat, bytes: nat ensures E.Eval(rt, b, VMember(VNull, "x"), [], depth, steps, bytes).Failed? {
      NullIsNull(rt, b);
      EvalReflects(rt, b, VMember(VNull, "x"), [], depth, steps, bytes);
      MemberMeansNothing(rt, b);
    }
  }

  lemma NullIsNull(rt: E.Runtime, b: E.Budget)
    ensures Means(rt, b, VNull, []).Some? ==> Means(rt, b, VNull, []) == Some(VG.Leaf(VG.Null))
  {
    hide E.Admits;
    assert E.Kids(VNull) == [];
  }

  lemma MemberMeansNothing(rt: E.Runtime, b: E.Budget)
    ensures Means(rt, b, VMember(VNull, "x"), []).None?
  {
    hide E.Admits;
    NullIsNull(rt, b);
    var v := VMember(VNull, "x");
    assert E.Kids(v) == [VNull] && [VNull][1..] == [];
    if MeansAll(rt, b, [VNull], []).Some? {
      assert MeansAll(rt, b, [VNull], []).value == [VG.Leaf(VG.Null)];
    }
  }

  /** A program for which the converse fails: the constant function applied to a member of null. */
  lemma ConverseFailsOnMemberOfNull(env: Env, f: Function, x: string, rt: E.Runtime, b: E.Budget)
    requires env.cap >= 2 && f.params == [x] && f.body == Null
    requires FunctionForScope(env.schema, f.name, env.scope) == Some(f)
    requires b.maxSteps >= 1 && E.Admits(rt, b, VG.Leaf(VG.Null)) && b.maxTotalBytes >= 1
    ensures var e := Call(f.name, [MemberOfNull]);
      var frame, inline := Analyze(env.(mode := CallFrame), [], [], [], e, 0), Analyze(env.(mode := Inline), [], [], [], e, 0);
      && Accepted(frame) && Accepted(inline)
      && E.Eval(rt, b, frame.expr, [], 0, 0, 0).Failed?
      && E.Eval(rt, b, inline.expr, [], 0, 0, 0).Done?
  {
    hide Analyze, E.Eval, E.Admits, Failing;
    MemberOfNullFails(env.(mode := CallFrame), [], [], [], 1);
    ConverseFails(env, f, x, MemberOfNull, rt, b);
  }

  // ----- one step of lowering -----

  lemma OneItem(
    env: Env, frames: seq<Binding>, locals: seq<seq<string>>, active: seq<FunctionKey>, e: Expr, depth: nat)
    requires Accepted(Analyze(env, frames, locals, active, e, depth))
    ensures var o := AnalyzeAll(env, frames, locals, active, [e], depth);
      AcceptedAll(o) && o.exprs == [Analyze(env, frames, locals, active, e, depth).expr]
  {
    hide Analyze;
    assert [e][1..] == [];
    assert AnalyzeAll(env, frames, locals, active, [e][1..], depth) == Outs([], 0, 0, {}, false, false, false, true);
  }

  lemma FrameCall(env: Env, locals: seq<seq<string>>, active: seq<FunctionKey>, f: Function, args: seq<Expr>, depth: nat)
    requires env.mode == CallFrame && depth <= env.cap && |f.params| == |args| && KeyOf(f) !in active
    requires Callee(env, active, Call(f.name, args)) == Some(f)
    requires AcceptedAll(AnalyzeAll(env, [], locals, active, args, depth + 1))
    requires Accepted(Analyze(env, [], locals + [f.params], active + [KeyOf(f)], f.body, depth + 1))
    ensures var o := Analyze(env, [], locals, active, Call(f.name, args), depth);
      Accepted(o) && o.expr == VFunction(
        f.name, f.params, AnalyzeAll(env, [], locals, active, args, depth + 1).exprs,
        Analyze(env, [], locals + [f.params], active + [KeyOf(f)], f.body, depth + 1).expr)
  {
    hide AnalyzeAll;
    assert Analyze(env, [], locals, active, Call(f.name, args), depth)
        == AnalyzeFunction(env, [], locals, active, f, Call(f.name, args), depth);
  }

  lemma InlineCall(env: Env, frames: seq<Binding>, active: seq<FunctionKey>, f: Function, args: seq<Expr>, depth: nat)
    requires env.mode == Inline && depth <= env.cap && |f.params| == |args| && KeyOf(f) !in active
    requires Callee(env, active, Call(f.name, args)) == Some(f)
    requires Accepted(Analyze(env, frames + [Binding(f.params, args)], [], active + [KeyOf(f)], f.body, depth + 1))
    ensures var o := Analyze(env, frames, [], active, Call(f.name, args), depth);
      Accepted(o)
      && o.expr == Analyze(env, frames + [Binding(f.params, args)], [], active + [KeyOf(f)], f.body, depth + 1).expr
  {
    assert Analyze(env, frames, [], active, Call(f.name, args), depth)
        == AnalyzeFunction(env, frames, [], active, f, Call(f.name, args), depth);
  }

  /** A node without children that no frame replaces. */
  lemma Leaf(env: Env, frames: seq<Binding>, locals: seq<seq<string>>, active: seq<FunctionKey>, e: Expr, depth: nat)
    requires depth <= env.cap && (e.Null? || e.Bool? || e.Ident?) && NodeClean(env, locals, e)
    requires e.Ident? ==> InlineBinding(frames, e.name).None?
    ensures var o := Analyze(env, frames, locals, active, e, depth);
      Accepted(o) && o.expr == Tree(env, e, [])
  {
    assert Children(e) == [] && Callee(env, active, e) == None;
  }

  // ----- a captured name -----

  function PlainEnv(variables: set<string>, globals: map<string, Function>, locals: map<string, Function>): Env {
    Env(CallFrame, Schema(variables, map[], map[], map[], map[], globals, locals),
        if locals == map[] then GlobalScope else LocalScope, 8, false, false, false, _ => true, _ => true)
  }

  /** `f(x) = g(null)` and `g(y) = x`: the name `x` in `g` is the context variable, unless a frame of
      `f` is still on the stack. */
  const Outer := Function("f", ["x"], Call("g", [Null]), GlobalScope)
  const Inner := Function("g", ["y"], Ident("x"), GlobalScope)

  const CaptureEnv := PlainEnv({"x"}, map["f" := Outer, "g" := Inner], map[])
  const CaptureCall := Call("f", [Bool(true)])

  lemma CaptureFrames()
    ensures var o := Analyze(CaptureEnv, [], [], [], CaptureCall, 0);
      Accepted(o)
      && o.expr == VFunction("f", ["x"], [VBool(true)], VFunction("g", ["y"], [VNull], VIdent("x")))
  {
    hide Analyze, AnalyzeAll;
    var env, f, g := CaptureEnv, Outer, Inner;
    var locals1, active1 := [] + [f.params], [] + [KeyOf(f)];
    var locals2, active2 := locals1 + [g.params], active1 + [KeyOf(g)];
    assert IsLocal(locals2, "x") by { assert locals2[..1] == [["x"]]; }
    assert f.name != g.name && KeyOf(g) !in active1;
    Leaf(env, [], locals2, active2, Ident("x"), 2);
    Leaf(env, [], locals1, active1, Null, 2);
    OneItem(env, [], locals1, active1, Null, 2);
    FrameCall(env, locals1, active1, g, [Null], 1);
    Leaf(env, [], [], [], Bool(true), 1);
    OneItem(env, [], [], [], Bool(true), 1);
    FrameCall(env, [], [], f, [Bool(true)], 0);
  }

  lemma CaptureInline()
    ensures var o := Analyze(CaptureEnv.(mode := Inline), [], [], [], CaptureCall, 0); Accepted(o) && o.expr == VIdent("x")
  {
    hide Analyze, AnalyzeAll;
    var env, f, g := CaptureEnv.(mode := Inline), Outer, Inner;
    var frames1, active1 := [] + [Binding(f.params, [Bool(true)])], [] + [KeyOf(f)];
    var frames2, active2 := frames1 + [Binding(g.params, [Null])], active1 + [KeyOf(g)];
    assert f.name != g.name && KeyOf(g) !in active1;
    assert "x" != "y" && BoundArg(["y"][1..], [Null][1..], "x") == None;
    Leaf(env, frames2, [], active2, Ident("x"), 2);
    InlineCall(env, frames1, active1, g, [Null], 1);
    InlineCall(env, [], [], f, [Bool(true)], 0);
  }

  /** The smallest values are within the limits on values. */
  predicate SmallValues(b: E.Budget) { b.graph.maxDepth >= 1 && b.graph.maxNodes >= 1 && b.graph.maxBytes >= 1 }

  lemma SmallAdmitted(rt: E.Runtime, b: E.Budget, flag: bool)
    requires SmallValues(b)
    ensures E.Admits(rt, b, E.BoolValue(flag)) && E.Admits(rt, b, VG.Leaf(VG.Null))
  {
  }

  lemma LeafMeans(rt: E.Runtime, b: E.Budget, flag: bool, locals: seq<map<string, VG.Value>>)
    requires SmallValues(b)
    ensures Means(rt, b, VBool(flag), locals) == Some(E.BoolValue(flag))
    ensures Means(rt, b, VNull, locals) == Some(VG.Leaf(VG.Null))
    ensures MeansAll(rt, b, [VBool(flag)], locals) == Some([E.BoolValue(flag)])
    ensures MeansAll(rt, b, [VNull], locals) == Some([VG.Leaf(VG.Null)])
  {
    SmallAdmitted(rt, b, flag);
    hide E.Admits;
    assert E.Kids(VBool(flag)) == [] && E.Kids(VNull) == [];
    OneMeans(rt, b, VBool(flag), locals);
    OneMeans(rt, b, VNull, locals);
  }

  lemma OneMeans(rt: E.Runtime, b: E.Budget, v: Verified, locals: seq<map<string, VG.Value>>)
    requires Means(rt, b, v, locals).Some?
    ensures MeansAll(rt, b, [v], locals) == Some([Means(rt, b, v, locals).value])
  {
    hide Means;
    assert [v][1..] == [] && MeansAll(rt, b, [], locals) == Some([]);
    var first: seq<VG.Value> := [Means(rt, b, v, locals).value];
    assert [v][0] == v && first + [] == first;
  }

  lemma OneFrame(x: string, value: VG.Value)
    ensures E.Frame([x], [value]) == map[x := value]
  {
    assert [x][1..] == [];
  }

  /** A call of one argument means its body under a frame that holds it. */
  lemma CallMeans(
    rt: E.Runtime, b: E.Budget, name: string, x: string, arg: Verified, body: Verified,
    locals: seq<map<string, VG.Value>>, frame: map<string, VG.Value>)
    requires Means(rt, b, arg, locals).Some? && frame == map[x := Means(rt, b, arg, locals).value]
    ensures Means(rt, b, VFunction(name, [x], [arg], body), locals) == Means(rt, b, body, locals + [frame])
  {
    OneMeans(rt, b, arg, locals);
    OneFrame(x, Means(rt, b, arg, locals).value);
    hide MeansAll, E.Frame;
    var v := VFunction(name, [x], [arg], body);
    assert Means(rt, b, v, locals) == FrameMeans(rt, b, v, locals);
  }

  /** `v` means `value`, and evaluates to it under some budget. */
  ghost predicate Evaluates(rt: E.Runtime, b: E.Budget, v: Verified, value: VG.Value) {
    && Means(rt, b, v, []) == Some(value)
    && E.Eval(rt, R.Ample(rt, b, v), v, [], 0, 0, 0).Done?
    && E.Eval(rt, R.Ample(rt, b, v), v, [], 0, 0, 0).value == value
  }

  lemma MeansEvaluates(rt: E.Runtime, b: E.Budget, v: Verified)
    requires Means(rt, b, v, []).Some?
    ensures Evaluates(rt, b, v, Means(rt, b, v, []).value)
  {
    hide Means, E.Eval, R.Spends;
    R.AmpleIsLeast(rt, b, R.Ample(rt, b, v), v);
  }

  /** Without hygiene the modes can give different values: everything else `ModesAgree` asks for holds,
      and the call-frame program finds the caller's parameter where the inline program finds the context
      variable. */
  lemma CapturedNameDiffers(rt: E.Runtime, b: E.Budget)
    requires SmallValues(b) && "x" in rt.variables && rt.variables["x"] == E.BoolValue(false)
    ensures SchemaIntegrity(CaptureEnv.schema) && OneScope(CaptureEnv) && !Hygienic(CaptureEnv)
    ensures Accepted(Analyze(CaptureEnv.(mode := CallFrame), [], [], [], CaptureCall, 0))
    ensures Accepted(Analyze(CaptureEnv.(mode := Inline), [], [], [], CaptureCall, 0))
    ensures Evaluates(rt, b, FrameProgram(CaptureEnv, CaptureCall), E.BoolValue(true))
    ensures Evaluates(rt, b, InlineProgram(CaptureEnv, CaptureCall), E.BoolValue(false))
  {
    CaptureFrames();
    CaptureInline();
    CaptureNotHygienic();
    assert CaptureEnv.(mode := CallFrame) == CaptureEnv;
    hide Analyze, Hygienic, Means, Evaluates, R.Spends;
    CaptureMeanings(rt, b);
    MeansEvaluates(rt, b, FrameProgram(CaptureEnv, CaptureCall));
    MeansEvaluates(rt, b, InlineProgram(CaptureEnv, CaptureCall));
  }

  lemma CaptureNotHygienic()
    ensures SchemaIntegrity(CaptureEnv.schema) && OneScope(CaptureEnv) && !Hygienic(CaptureEnv)
  {
    assert IsFunction(CaptureEnv, Outer) && IsFunction(CaptureEnv, Inner);
    assert "x" in Names(Inner.body) && "x" in Outer.params && "x" !in Inner.params;
  }

  lemma CaptureMeanings(rt: E.Runtime, b: E.Budget)
    requires SmallValues(b) && "x" in rt.variables && rt.variables["x"] == E.BoolValue(false)
    ensures Means(rt, b, VFunction("f", ["x"], [VBool(true)], VFunction("g", ["y"], [VNull], VIdent("x"))), [])
         == Some(E.BoolValue(true))
    ensures Means(rt, b, VIdent("x"), []) == Some(E.BoolValue(false))
  {
    hide Means, E.Admits;
    SmallAdmitted(rt, b, true);
    SmallAdmitted(rt, b, false);
    var frame1, frame2 := map["x" := E.BoolValue(true)], map["y" := VG.Leaf(VG.Null)];
    var locals1 := [] + [frame1];
    var locals2 := locals1 + [frame2];
    LeafMeans(rt, b, true, []);
    LeafMeans(rt, b, true, locals1);
    CallMeans(rt, b, "g", "y", VNull, VIdent("x"), locals1, frame2);
    CallMeans(rt, b, "f", "x", VBool(true), VFunction("g", ["y"], [VNull], VIdent("x")), [], frame1);
    assert E.LocalValue(locals2, "x") == Some(E.BoolValue(true)) by {
      assert locals2[..1] == locals1 && locals1[..0] == [];
    }
    IdentMeans(rt, b, "x", locals2);
    IdentMeans(rt, b, "x", []);
  }

  // ----- two scopes -----

  /** `h` is defined in both scopes, and `f(x) = x` in the global one. */
  const Identity := Function("f", ["x"], Ident("x"), GlobalScope)
  const GlobalHelp := Function("h", [], Bool(false), GlobalScope)
  const LocalHelp := Function("h", [], Bool(true), LocalScope)

  const ScopedEnv := PlainEnv({}, map["f" := Identity, "h" := GlobalHelp], map["h" := LocalHelp])
  const HelpCall := Call("h", [])
  const ScopedCall := Call("f", [HelpCall])

  lemma ScopedFrames()
    ensures var o := Analyze(ScopedEnv, [], [], [], ScopedCall, 0);
      Accepted(o) && o.expr == VFunction("f", ["x"], [VFunction("h", [], [], VBool(true))], VIdent("x"))
  {
    hide Analyze, AnalyzeAll;
    var env, f, h := ScopedEnv, Identity, LocalHelp;
    assert "h" in env.schema.locals && env.scope == LocalScope && f.name != h.name;
    assert f.name !in env.schema.locals;
    Leaf(env, [], [] + [h.params], [] + [KeyOf(h)], Bool(true), 2);
    NoItems(env, [], [], [], 2);
    FrameCall(env, [], [], h, [], 1);
    OneItem(env, [], [], [], HelpCall, 1);
    assert IsLocal([] + [f.params], "x") by { assert ([] + [f.params])[0] == ["x"]; }
    Leaf(env, [], [] + [f.params], [] + [KeyOf(f)], Ident("x"), 1);
    FrameCall(env, [], [], f, [HelpCall], 0);
  }

  lemma NoItems(env: Env, frames: seq<Binding>, locals: seq<seq<string>>, active: seq<FunctionKey>, depth: nat)
    ensures AnalyzeAll(env, frames, locals, active, [], depth) == Outs([], 0, 0, {}, false, false, false, true)
  {
  }

  lemma ScopedInline()
    ensures var o := Analyze(ScopedEnv.(mode := Inline), [], [], [], ScopedCall, 0); Accepted(o) && o.expr == VBool(false)
  {
    hide AnalyzeAll;
    var env, f, h := ScopedEnv.(mode := Inline), Identity, GlobalHelp;
    assert f.name != h.name && f.name !in env.schema.locals;
    var active1 := [] + [KeyOf(f)];
    var frames1 := [] + [Binding(f.params, [HelpCall])];
    assert CurrentScope(env, active1) == GlobalScope && KeyOf(h) !in active1;
    Leaf(env, [] + [Binding(h.params, [])], [], active1 + [KeyOf(h)], Bool(false), 2);
    InlineCall(env, [], active1, h, [], 1);
    assert frames1[..0] == [] && InlineBinding(frames1, "x") == Some(HelpCall);
    assert Analyze(env, frames1, [], active1, Ident("x"), 1) == Analyze(env, [], [], active1, HelpCall, 1);
    InlineCall(env, [], [], f, [HelpCall], 0);
  }

  /** With functions in two scopes the modes can give different values: the inline mode resolves a call
      inside an argument in the scope of the function it is passed to. */
  lemma TwoScopesDiffer(rt: E.Runtime, b: E.Budget)
    requires SmallValues(b)
    ensures SchemaIntegrity(ScopedEnv.schema) && Hygienic(ScopedEnv) && !OneScope(ScopedEnv)
    ensures Accepted(Analyze(ScopedEnv.(mode := CallFrame), [], [], [], ScopedCall, 0))
    ensures Accepted(Analyze(ScopedEnv.(mode := Inline), [], [], [], ScopedCall, 0))
    ensures Evaluates(rt, b, FrameProgram(ScopedEnv, ScopedCall), E.BoolValue(true))
    ensures Evaluates(rt, b, InlineProgram(ScopedEnv, ScopedCall), E.BoolValue(false))
  {
    ScopedFrames();
    ScopedInline();
    ScopedHygienic();
    assert ScopedEnv.(mode := CallFrame) == ScopedEnv;
    hide Analyze, Hygienic, Means, Evaluates, R.Spends;
    ScopedMeanings(rt, b);
    LeafMeans(rt, b, false, []);
    MeansEvaluates(rt, b, FrameProgram(ScopedEnv, ScopedCall));
    MeansEvaluates(rt, b, InlineProgram(ScopedEnv, ScopedCall));
  }

  lemma ScopedHygienic()
    ensures SchemaIntegrity(ScopedEnv.schema) && Hygienic(ScopedEnv) && !OneScope(ScopedEnv)
  {
    assert "h" in ScopedEnv.schema.locals && "f" in ScopedEnv.schema.globals;
    forall f | IsFunction(ScopedEnv, f) ensures f == Identity || f == LocalHelp {
      assert f.name == "h" || f.name == "f";
    }
    assert Names(Identity.body) == {"x"} by { assert Children(Ident("x")) == []; }
    assert Names(LocalHelp.body) == {} by { assert Children(Bool(true)) == []; }
  }

  lemma ScopedMeanings(rt: E.Runtime, b: E.Budget)
    requires SmallValues(b)
    ensures Means(rt, b, VFunction("f", ["x"], [VFunction("h", [], [], VBool(true))], VIdent("x")), [])
         == Some(E.BoolValue(true))
  {
    SmallAdmitted(rt, b, true);
    var arg := VFunction("h", [], [], VBool(true));
    LeafMeans(rt, b, true, [] + [E.Frame([], [])]);
    assert Means(rt, b, arg, []) == Means(rt, b, VBool(true), [] + [E.Frame([], [])]);
    hide Means, E.Admits;
    var frame := map["x" := E.BoolValue(true)];
    CallMeans(rt, b, "f", "x", arg, VIdent("x"), [], frame);
    IdentMeans(rt, b, "x", [] + [frame]);
  }
}
