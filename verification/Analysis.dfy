/** A whole analysis, as the source runs it: integrity of the schema, preflight of the program and of
    every function body, validation of the function graph, the dry run, lowering, and the bounds. */
module Analysis {
  import opened Tokens
  import opened Syntax
  import opened Program
  import opened LowerSpec
  import opened LowerFacts
  import opened Lowering
  import opened CallGraph
  import B = BodyPaths
  import C = Cycles
  import Canonical
  import F = Format

  // ----- the function graph -----

  /** A call in the body of a function of `scope` is applied properly: an expression function to as many
      arguments as it has parameters, a host function to a number of arguments it accepts. */
  predicate CallFits(env: Env, scope: Scope, call: CallSite) {
    match FunctionForScope(env.schema, call.name, scope)
    case Some(f) => |f.params| == call.arity
    case None =>
      match SignatureAccepts(env.schema.functions, call.name, call.arity)
      case Matches(_) => true
      case Unknown => env.allowUnknownFunctions
      case ArityMismatch => false
  }

  predicate CallsFit(env: Env, scope: Scope, calls: seq<CallSite>) {
    forall i :: 0 <= i < |calls| ==> CallFits(env, scope, calls[i])
  }

  ghost predicate BodiesFit(env: Env) {
    forall k :: HasFunction(env.schema, k) ==> CallsFit(env, k.scope, Calls(FunctionAt(env.schema, k).body))
  }

  /** One function's edges, reporting every call that is applied wrongly; a wrong number of arguments
      does not stop the edge. */
  method FunctionEdges(state: AnalyzeState, f: Function, scope: Scope) returns (edges: seq<FunctionKey>)
    requires state.Valid()
    modifies state`diagnostics
    ensures state.Valid() && old(state.diagnostics) <= state.diagnostics
    ensures edges == EdgesOf(state.env.schema, scope, Calls(f.body))
    ensures CallsFit(state.env, scope, Calls(f.body)) ==> state.diagnostics == old(state.diagnostics)
    ensures !CallsFit(state.env, scope, Calls(f.body)) ==> state.diagnostics != []
  {
    hide Calls, EdgesOf, FunctionForScope, SignatureAccepts;
    var calls := FunctionCalls(f.body);
    edges := [];
    var i := 0;
    NoEdges(state.env.schema, scope);
    assert calls[..|calls|] == calls;
    while i < |calls|
      invariant i <= |calls|
      invariant state.Valid() && old(state.diagnostics) <= state.diagnostics
      invariant edges == EdgesOf(state.env.schema, scope, calls[..i])
      invariant CallsFit(state.env, scope, calls[..i]) ==> state.diagnostics == old(state.diagnostics)
      invariant !CallsFit(state.env, scope, calls[..i]) ==> state.diagnostics != []
    {
      var call := calls[i];
      assert calls[..i + 1] == calls[..i] + [call];
      EdgesAppend(state.env.schema, scope, calls[..i], [call]);
      OneEdge(state.env.schema, scope, call);
      CallsFitNext(state.env, scope, calls[..i], call);
      var callee := FunctionForScope(state.env.schema, call.name, scope);
      if callee.Some? {
        if |callee.value.params| != call.arity {
          state.PushFunctionDiagnostic(BadArity);
        }
        edges := edges + [KeyOf(callee.value)];
      } else {
        var found := SignatureAccepts(state.env.schema.functions, call.name, call.arity);
        if found.ArityMismatch? || (found.Unknown? && !state.env.allowUnknownFunctions) {
          state.PushFunctionDiagnostic(BadArity);
        }
      }
      i := i + 1;
    }
  }

  lemma NoEdges(s: Schema, scope: Scope)
    ensures EdgesOf(s, scope, []) == []
  {
  }

  lemma OneEdge(s: Schema, scope: Scope, call: CallSite)
    ensures EdgesOf(s, scope, [call])
         == match FunctionForScope(s, call.name, scope) case Some(f) => [KeyOf(f)] case None => []
  {
    assert [call][1..] == [];
  }

  lemma CallsFitNext(env: Env, scope: Scope, calls: seq<CallSite>, call: CallSite)
    ensures CallsFit(env, scope, calls + [call]) <==> CallsFit(env, scope, calls) && CallFits(env, scope, call)
  {
    hide CallFits;
    var all := calls + [call];
    assert forall i :: 0 <= i < |calls| ==> all[i] == calls[i];
    assert all[|calls|] == call;
  }

  /** The functions of the schema, in the order of the source's map. */
  ghost predicate Lists(s: Schema, keys: seq<FunctionKey>) {
    forall k :: k in keys <==> HasFunction(s, k)
  }

  ghost predicate FitUpTo(env: Env, keys: seq<FunctionKey>, n: nat)
    requires n <= |keys| && Lists(env.schema, keys)
  {
    forall j :: 0 <= j < n ==> CallsFit(env, keys[j].scope, Calls(FunctionAt(env.schema, keys[j]).body))
  }

  /** The adjacency of the call graph. */
  method BuildGraph(state: AnalyzeState, keys: seq<FunctionKey>) returns (g: C.Graph)
    requires state.Valid() && Lists(state.env.schema, keys)
    modifies state`diagnostics
    ensures state.Valid() && old(state.diagnostics) <= state.diagnostics
    ensures g == Graph(state.env.schema)
    ensures BodiesFit(state.env) ==> state.diagnostics == old(state.diagnostics)
    ensures !BodiesFit(state.env) ==> state.diagnostics != []
  {
    hide Calls, EdgesOf, CallsFit, HasFunction, FunctionAt;
    var s := state.env.schema;
    g := map[];
    var i := 0;
    while i < |keys|
      invariant i <= |keys|
      invariant state.Valid() && old(state.diagnostics) <= state.diagnostics
      invariant g.Keys == (set k | k in keys[..i])
      invariant forall k :: k in g ==> HasFunction(s, k) && g[k] == EdgesOf(s, k.scope, Calls(FunctionAt(s, k).body))
      invariant FitUpTo(state.env, keys, i) ==> state.diagnostics == old(state.diagnostics)
      invariant !FitUpTo(state.env, keys, i) ==> state.diagnostics != []
    {
      var k := keys[i];
      assert keys[..i + 1] == keys[..i] + [k];
      var edges := FunctionEdges(state, FunctionAt(s, k), k.scope);
      g := g[k := edges];
      i := i + 1;
    }
    GraphBuilt(s, keys, g);
    AllFit(state.env, keys);
  }

  lemma GraphBuilt(s: Schema, keys: seq<FunctionKey>, g: C.Graph)
    requires Lists(s, keys) && g.Keys == (set k | k in keys[..|keys|])
    requires forall k :: k in g ==> HasFunction(s, k) && g[k] == EdgesOf(s, k.scope, Calls(FunctionAt(s, k).body))
    ensures g == Graph(s)
  {
    hide EdgesOf, Calls;
    assert keys[..|keys|] == keys;
    forall k ensures k in g <==> k in Graph(s) {
      assert HasFunction(s, k) ==> k in AllKeys(s);
    }
  }

  lemma AllFit(env: Env, keys: seq<FunctionKey>)
    requires Lists(env.schema, keys)
    ensures FitUpTo(env, keys, |keys|) <==> BodiesFit(env)
  {
    hide CallsFit, Calls, FunctionAt;
    if FitUpTo(env, keys, |keys|) {
      forall k | HasFunction(env.schema, k) ensures CallsFit(env, k.scope, Calls(FunctionAt(env.schema, k).body)) {
        assert k in keys;
      }
    }
    if BodiesFit(env) {
      forall j | 0 <= j < |keys| ensures CallsFit(env, keys[j].scope, Calls(FunctionAt(env.schema, keys[j]).body)) {
        assert keys[j] in keys;
      }
    }
  }

  /** The function graph is validated: something is reported exactly when some body applies a function
      wrongly or some function can reach itself, whatever the diagnostic budget. */
  method ValidateFunctionGraph(state: AnalyzeState, keys: seq<FunctionKey>)
    requires state.Valid() && SchemaIntegrity(state.env.schema) && Lists(state.env.schema, keys)
    modifies state`diagnostics
    ensures state.Valid() && old(state.diagnostics) <= state.diagnostics
    ensures BodiesFit(state.env) && Acyclic(state.env.schema) ==> state.diagnostics == old(state.diagnostics)
    ensures !(BodiesFit(state.env) && Acyclic(state.env.schema)) ==> state.diagnostics != []
  {
    hide BodiesFit, SchemaIntegrity, C.Closed, C.HasCycle, HasFunction, EdgesOf, Calls;
    var g := BuildGraph(state, keys);
    GraphClosed(state.env.schema);
    GraphListed(state.env.schema, keys);
    C.ValidateFunctionCycles(state, g, keys);
  }

  lemma GraphListed(s: Schema, keys: seq<FunctionKey>)
    requires Lists(s, keys)
    ensures Graph(s).Keys == (set k | k in keys)
  {
    hide EdgesOf, Calls;
    forall k ensures k in Graph(s) <==> k in keys {
      assert HasFunction(s, k) ==> k in AllKeys(s);
    }
  }

  /** What a sound function graph is for: with call frames, no expression function is ever applied to a wrong
      number of arguments while a program is lowered, if the program's own calls fit. */
  lemma {:induction false} FramesNeverMisapply(
    env: Env, locals: seq<seq<string>>, active: seq<FunctionKey>, e: Expr, depth: nat)
    requires env.mode == CallFrame && SchemaIntegrity(env.schema) && BodiesFit(env)
    requires CallsFit(env, CurrentScope(env, active), Calls(e))
    ensures !Analyze(env, [], locals, active, e, depth).badArity
    decreases Rank(env.cap, depth), 2
  {
    hide SchemaIntegrity, BodiesFit, CallsFit, CallFits, AnalyzeAll, AnalyzeFunction, Build, Calls, CallsAll;
    if depth <= env.cap {
      CallsOfNode(env, CurrentScope(env, active), e);
      if Callee(env, active, e).Some? {
        FrameNeverMisapplies(env, locals, active, Callee(env, active, e).value, e, depth);
      } else {
        BuildParts(env, locals, e, AnalyzeAll(env, [], locals, active, Children(e), depth + 1));
        FramesNeverMisapplyAll(env, locals, active, Children(e), depth + 1);
      }
    }
  }

  lemma CallsFitJoin(env: Env, scope: Scope, a: seq<CallSite>, b: seq<CallSite>)
    ensures CallsFit(env, scope, a + b) <==> CallsFit(env, scope, a) && CallsFit(env, scope, b)
  {
    hide CallFits;
    if CallsFit(env, scope, a + b) {
      assert forall i :: 0 <= i < |a| ==> (a + b)[i] == a[i];
      assert forall i :: 0 <= i < |b| ==> (a + b)[|a| + i] == b[i];
    }
  }

  lemma CallsOfNode(env: Env, scope: Scope, e: Expr)
    requires CallsFit(env, scope, Calls(e))
    ensures e.Call? ==> CallFits(env, scope, CallSite(e.name, |e.args|))
    ensures CallsFit(env, scope, CallsAll(Children(e)))
  {
    hide CallFits;
    var own := if e.Call? then [CallSite(e.name, |e.args|)] else [];
    CallsFitJoin(env, scope, own, CallsAll(Children(e)));
    assert e.Call? ==> own[0] == CallSite(e.name, |e.args|);
  }

  lemma {:induction false} FrameNeverMisapplies(
    env: Env, locals: seq<seq<string>>, active: seq<FunctionKey>, f: Function, e: Expr, depth: nat)
    requires env.mode == CallFrame && SchemaIntegrity(env.schema) && BodiesFit(env) && depth <= env.cap
    requires e.Call? && Callee(env, active, e) == Some(f)
    requires CallFits(env, CurrentScope(env, active), CallSite(e.name, |e.args|))
    requires CallsFit(env, CurrentScope(env, active), CallsAll(e.args))
    ensures !AnalyzeFunction(env, [], locals, active, f, e, depth).badArity
    decreases Rank(env.cap, depth), 1
  {
    hide SchemaIntegrity, BodiesFit, CallsFit, Analyze, AnalyzeAll, Calls, CallsAll;
    FunctionFits(env, CurrentScope(env, active), f, e.name);
    FramesNeverMisapplyAll(env, locals, active, e.args, depth + 1);
    FramesNeverMisapply(env, locals + [f.params], active + [KeyOf(f)], f.body, depth + 1);
  }

  lemma FunctionFits(env: Env, scope: Scope, f: Function, name: string)
    requires SchemaIntegrity(env.schema) && BodiesFit(env) && FunctionForScope(env.schema, name, scope) == Some(f)
    ensures CallsFit(env, f.scope, Calls(f.body))
  {
    hide CallsFit, Calls;
    assert HasFunction(env.schema, KeyOf(f)) && FunctionAt(env.schema, KeyOf(f)) == f;
  }

  lemma {:induction false} FramesNeverMisapplyAll(
    env: Env, locals: seq<seq<string>>, active: seq<FunctionKey>, es: seq<Expr>, depth: nat)
    requires env.mode == CallFrame && SchemaIntegrity(env.schema) && BodiesFit(env)
    requires CallsFit(env, CurrentScope(env, active), CallsAll(es))
    ensures !AnalyzeAll(env, [], locals, active, es, depth).badArity
    decreases Rank(env.cap, depth), |es| + 3
  {
    hide SchemaIntegrity, BodiesFit, CallsFit, Analyze, Calls;
    if es != [] {
      CallsFitJoin(env, CurrentScope(env, active), Calls(es[0]), CallsAll(es[1..]));
      FramesNeverMisapply(env, locals, active, es[0], depth);
      FramesNeverMisapplyAll(env, locals, active, es[1..], depth);
    }
  }

  // ----- preflight -----

  /** A tree within the profile's node and depth limits. */
  predicate ShapeFits(e: Expr, maxNodes: nat, cap: nat) { Nodes(e) <= maxNodes && Depth(e) <= cap + 1 }

  ghost predicate BodiesShaped(env: Env, maxNodes: nat) {
    forall k :: HasFunction(env.schema, k) ==> ShapeFits(FunctionAt(env.schema, k).body, maxNodes, env.cap)
  }

  method PreflightBodies(env: Env, maxNodes: nat, keys: seq<FunctionKey>) returns (ok: bool)
    requires Lists(env.schema, keys)
    ensures ok <==> BodiesShaped(env, maxNodes)
  {
    hide Nodes, Depth, FunctionAt, HasFunction;
    ok := true;
    for i := 0 to |keys|
      invariant ok <==> forall j :: 0 <= j < i ==> ShapeFits(FunctionAt(env.schema, keys[j]).body, maxNodes, env.cap)
    {
      var shape := F.Preflight(FunctionAt(env.schema, keys[i]).body, maxNodes, env.cap + 1);
      ok := ok && shape.Pass?;
    }
    if ok {
      forall k | HasFunction(env.schema, k) ensures ShapeFits(FunctionAt(env.schema, k).body, maxNodes, env.cap) {
        assert k in keys;
      }
    }
  }

  // ----- the whole analysis -----

  /** Everything the preflight looks at. */
  ghost predicate PreflightPasses(env: Env, codec: FloatCodec, maxNodes: nat, e: Expr) {
    && ShapeFits(e, maxNodes, env.cap) && BodiesShaped(env, maxNodes)
    && Canonical.NamesValid(e) && F.FloatsFinite(codec, e) && ScalarBytes(e) <= 67_108_864
  }

  /** The function graph is sound, lowering is clean and within the budgets, and so is the body need. */
  ghost predicate LoweringAccepted(
    env: Env, maxNodes: nat, bodies: B.BodyEnv, limit: Option<B.Need>, e: Expr)
  {
    && BodiesFit(env) && Acyclic(env.schema)
    && (var o := Analyze(env, [], [], [], e, 0);
        Accepted(o) && o.nodes <= maxNodes && o.scalars <= 67_108_864)
    && (limit.Some? ==> B.Allows(limit.value, B.ProgramNeed(env, bodies, e)))
  }

  /** The dry run decides: if it passes, no limit is reported and exactly its counts are charged, unless
      lowering reports recursion in the call-frame mode; on an acyclic function graph it never does. */
  ghost predicate DryRunDecides(env: Env, maxNodes: nat, e: Expr, pristine: bool, nodes: nat, scalars: nat) {
    var t := Count(env, [], [], e, 0);
    && !Diverges(env, Analyze(env, [], [], [], e, 0).recursive)
    && !t.tooDeep && t.nodes <= maxNodes && t.scalars <= MAX_LOWERED_SCALAR_BYTES ==>
      pristine && nodes == t.nodes && scalars == t.scalars
  }

  /** What a program must meet to be accepted. */
  ghost predicate ProgramAccepted(
    env: Env, codec: FloatCodec, maxNodes: nat, bodies: B.BodyEnv, limit: Option<B.Need>, e: Expr)
  {
    && SchemaIntegrity(env.schema) && PreflightPasses(env, codec, maxNodes, e)
    && LoweringAccepted(env, maxNodes, bodies, limit, e)
  }

  method PreflightProgram(env: Env, codec: FloatCodec, maxNodes: nat, keys: seq<FunctionKey>, e: Expr) returns (ok: bool)
    requires Lists(env.schema, keys)
    ensures ok <==> PreflightPasses(env, codec, maxNodes, e)
  {
    hide BodiesShaped, Lists, Nodes, Depth, ScalarBytes, Canonical.NamesValid, F.FloatsFinite;
    var shape := F.Preflight(e, maxNodes, env.cap + 1);
    var syntax := F.ValidateSyntax(codec, e, MAX_LOWERED_SCALAR_BYTES);
    var shaped := PreflightBodies(env, maxNodes, keys);
    ok := shape.Pass? && syntax.Pass? && shaped;
  }

  /** Everything after the preflight, on a new state. */
  method LowerChecked(
    state: AnalyzeState, bodies: B.BodyEnv, limit: Option<B.Need>, keys: seq<FunctionKey>, e: Expr)
    returns (program: Option<Verified>)
    requires state.Valid() && state.Pristine() && state.diagnostics == [] && state.required == {}
    requires state.Stacks() == ([], [], []) && state.loweredNodes == state.loweredScalarBytes == 0
    requires SchemaIntegrity(state.env.schema) && Lists(state.env.schema, keys)
    modifies state
    ensures program.Some? <==> LoweringAccepted(state.env, state.maxNodes, bodies, limit, e)
    ensures program.Some? ==>
      var o := Analyze(state.env, [], [], [], e, 0); program.value == o.expr && state.required == o.required
    ensures program.None? ==> state.diagnostics != []
    ensures DryRunDecides(
      state.env, state.maxNodes, e, state.Pristine(), state.loweredNodes, state.loweredScalarBytes)
  {
    hide Analyze, Count, BodiesFit, Acyclic, SchemaIntegrity, Lists, B.Allows, B.ProgramNeed, Accepted;
    ValidateFunctionGraph(state, keys);
    program := state.LowerProgram(e);
    if limit.Some? && !B.Allows(limit.value, B.ProgramNeed(state.env, bodies, e)) {
      state.ReportBodyLimit();
      program := None;
    }
  }

  lemma AcceptedParts(
    env: Env, codec: FloatCodec, maxNodes: nat, bodies: B.BodyEnv, limit: Option<B.Need>, e: Expr)
    ensures ProgramAccepted(env, codec, maxNodes, bodies, limit, e) <==>
      && SchemaIntegrity(env.schema) && PreflightPasses(env, codec, maxNodes, e)
      && LoweringAccepted(env, maxNodes, bodies, limit, e)
  {
    hide PreflightPasses, LoweringAccepted, SchemaIntegrity;
  }

  /** The analysis of a program. It is accepted exactly under `ProgramAccepted`, and then it is the
      specified tree with the specified requirements. A program that gets past the dry run never
      meets a limit while it is lowered, and is charged exactly what the dry run counted, unless
      call-frame lowering reports recursion. Something is always reported for a program that is
      refused after its preflight. */
  method AnalyzeProgram(
    env: Env, codec: FloatCodec, maxNodes: nat, bodies: B.BodyEnv, limit: Option<B.Need>, keys: seq<FunctionKey>,
    maxFunctionDiagnostics: nat, maxDiagnosticBytes: nat, messageBytes: Report -> nat, e: Expr)
    returns (program: Option<Verified>, required: set<Capability>, state: AnalyzeState?)
    requires Lists(env.schema, keys)
    ensures program.Some? <==> ProgramAccepted(env, codec, maxNodes, bodies, limit, e)
    ensures program.Some? ==>
      var o := Analyze(env, [], [], [], e, 0); program.value == o.expr && required == o.required
    ensures state == null <==> !(SchemaIntegrity(env.schema) && PreflightPasses(env, codec, maxNodes, e))
    ensures state != null ==> fresh(state) && (program.None? ==> state.diagnostics != [])
    ensures state != null ==>
      DryRunDecides(env, maxNodes, e, state.Pristine(), state.loweredNodes, state.loweredScalarBytes)
  {
    hide *;
    AcceptedParts(env, codec, maxNodes, bodies, limit, e);
    program, required, state := None, {}, null;
    if !SchemaIntegrity(env.schema) {
      return;
    }
    var passes := PreflightProgram(env, codec, maxNodes, keys, e);
    if !passes {
      return;
    }
    state := new AnalyzeState(env, maxNodes, maxFunctionDiagnostics, maxDiagnosticBytes, messageBytes);
    program := LowerChecked(state, bodies, limit, keys, e);
    required := state.required;
  }

  /** A profile's body limit refuses exactly the programs that read or use body data beyond it. */
  lemma BodyLimitDecides(
    env: Env, codec: FloatCodec, maxNodes: nat, bodies: B.BodyEnv, limit: B.Need, e: Expr)
    ensures var v := Analyze(env, [], [], [], e, 0).expr;
      ProgramAccepted(env, codec, maxNodes, bodies, Some(limit), e) <==>
        && ProgramAccepted(env, codec, maxNodes, bodies, None, e)
        && B.Covers(limit, bodies.rules, v, []) && B.CoversUse(limit, B.Chain(v, []))
  {
    hide Analyze, B.Covers, B.Chain, B.CoversUse, B.Allows, B.ProgramNeed, PreflightPasses, SchemaIntegrity, BodiesFit,
      Acyclic;
    if ProgramAccepted(env, codec, maxNodes, bodies, None, e) { B.BodyLimitExactly(env, bodies, e, limit); }
  }
}
