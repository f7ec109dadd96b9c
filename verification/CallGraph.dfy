/** The call graph of a schema's expression functions, and what its acyclicity buys: in the call-frame
    mode, lowering never reports recursion, so the dry run is exact. */
module CallGraph {
  import opened Tokens
  import opened Syntax
  import opened Program
  import opened LowerSpec
  import opened LowerFacts
  import C = Cycles
  import F = Format

  datatype CallSite = CallSite(name: string, arity: nat)

  /** Function calls of an expression, outermost and leftmost first. */
  function Calls(e: Expr): seq<CallSite>
    decreases Nodes(e), 1
  {
    (if e.Call? then [CallSite(e.name, |e.args|)] else []) + CallsAll(Children(e))
  }

  function CallsAll(es: seq<Expr>): seq<CallSite>
    decreases NodesAll(es), 2 + |es|
  {
    if es == [] then [] else Calls(es[0]) + CallsAll(es[1..])
  }

  lemma CallsAppend(a: seq<Expr>, b: seq<Expr>)
    ensures CallsAll(a + b) == CallsAll(a) + CallsAll(b)
    ensures NodesAll(a + b) == NodesAll(a) + NodesAll(b)
  {
    if a == [] {
      assert a + b == b;
    } else {
      assert (a + b)[1..] == a[1..] + b;
      CallsAppend(a[1..], b);
    }
  }

  /** One step of the collecting loop: the top of the work is replaced by its children. */
  lemma CollectStep(calls: seq<CallSite>, top: Expr, rest: seq<Expr>)
    ensures calls + CallsAll([top] + rest)
         == calls + (if top.Call? then [CallSite(top.name, |top.args|)] else []) + CallsAll(Children(top) + rest)
    ensures NodesAll(Children(top) + rest) < NodesAll([top] + rest)
  {
    assert ([top] + rest)[1..] == rest;
    CallsAppend(Children(top), rest);
    var own := if top.Call? then [CallSite(top.name, |top.args|)] else [];
    assert Calls(top) == own + CallsAll(Children(top));
    Regroup(calls, own, CallsAll(Children(top)), CallsAll(rest));
  }

  lemma Regroup(a: seq<CallSite>, b: seq<CallSite>, c: seq<CallSite>, d: seq<CallSite>)
    ensures a + ((b + c) + d) == (a + b) + (c + d)
  {
  }

  /** Collects the calls of an expression with an explicit stack. */
  method FunctionCalls(e: Expr) returns (calls: seq<CallSite>)
    ensures calls == Calls(e)
  {
    hide Calls, CallsAll, NodesAll;
    calls := [];
    var stack := [e];
    CollectBegins(e);
    while stack != []
      invariant calls + CallsAll(F.Waiting(stack)) == Calls(e)
      decreases NodesAll(F.Waiting(stack))
    {
      var top := stack[|stack| - 1];
      stack := stack[..|stack| - 1];
      CollectStep(calls, top, F.Waiting(stack));
      if top.Call? {
        calls := calls + [CallSite(top.name, |top.args|)];
      }
      assert top.Call? || calls + [] == calls;
      stack := F.PushReversed(stack, Children(top));
    }
    CollectEnds(calls);
  }

  lemma CollectBegins(e: Expr)
    ensures [] + CallsAll(F.Waiting([e])) == Calls(e)
  {
    assert [e][..0] == [] && F.Waiting([e]) == [e] && [e][1..] == [];
    assert Calls(e) + [] == Calls(e);
  }

  lemma CollectEnds(calls: seq<CallSite>)
    ensures calls + CallsAll(F.Waiting([])) == calls
  {
  }

  // ----- the graph -----

  predicate HasFunction(s: Schema, k: FunctionKey) {
    k.name in (if k.scope == LocalScope then s.locals else s.globals)
  }

  function FunctionAt(s: Schema, k: FunctionKey): Function
    requires HasFunction(s, k)
  {
    (if k.scope == LocalScope then s.locals else s.globals)[k.name]
  }

  function AllKeys(s: Schema): set<FunctionKey> {
    (set name | name in s.globals :: FunctionKey(GlobalScope, name)) + (set name | name in s.locals :: FunctionKey(LocalScope, name))
  }

  /** The functions that the calls resolve to, seen from `scope`; host calls are no edges. */
  function EdgesOf(s: Schema, scope: Scope, calls: seq<CallSite>): seq<FunctionKey> {
    if calls == [] then []
    else
      (match FunctionForScope(s, calls[0].name, scope) case Some(f) => [KeyOf(f)] case None => [])
      + EdgesOf(s, scope, calls[1..])
  }

  function Graph(s: Schema): C.Graph {
    map k | k in AllKeys(s) && HasFunction(s, k) :: EdgesOf(s, k.scope, Calls(FunctionAt(s, k).body))
  }

  lemma EdgeFor(s: Schema, scope: Scope, calls: seq<CallSite>, i: nat)
    requires i < |calls| && FunctionForScope(s, calls[i].name, scope).Some?
    ensures KeyOf(FunctionForScope(s, calls[i].name, scope).value) in EdgesOf(s, scope, calls)
  {
    if i > 0 { EdgeFor(s, scope, calls[1..], i - 1); }
  }

  lemma EdgesResolve(s: Schema, scope: Scope, calls: seq<CallSite>)
    requires SchemaIntegrity(s)
    ensures forall k :: k in EdgesOf(s, scope, calls) ==> k in AllKeys(s) && HasFunction(s, k)
  {
    if calls != [] { EdgesResolve(s, scope, calls[1..]); }
  }

  lemma GraphClosed(s: Schema)
    requires SchemaIntegrity(s)
    ensures C.Closed(Graph(s))
  {
    var g := Graph(s);
    forall a, b | C.Edge(g, a, b) ensures b in g {
      EdgesResolve(s, a.scope, Calls(FunctionAt(s, a).body));
    }
  }

  // ----- no recursion to report -----

  /** The function graph has no cycle. */
  ghost predicate Acyclic(s: Schema) { SchemaIntegrity(s) && !C.HasCycle(Graph(s)) }

  /** `calls` are calls of the innermost active function, or of the program itself. */
  ghost predicate CallsOf(env: Env, active: seq<FunctionKey>, calls: seq<CallSite>) {
    && C.IsPath(Graph(env.schema), active)
    && (active != [] ==>
          forall k :: k in EdgesOf(env.schema, CurrentScope(env, active), calls) ==>
            C.Edge(Graph(env.schema), active[|active| - 1], k))
  }

  lemma CallsOfParts(env: Env, active: seq<FunctionKey>, a: seq<CallSite>, b: seq<CallSite>)
    requires CallsOf(env, active, a + b)
    ensures CallsOf(env, active, a) && CallsOf(env, active, b)
  {
    hide EdgesOf, Graph, C.IsPath;
    var s, scope := env.schema, CurrentScope(env, active);
    EdgesAppend(s, scope, a, b);
    forall k | k in EdgesOf(s, scope, a) || k in EdgesOf(s, scope, b) ensures k in EdgesOf(s, scope, a + b) {
    }
  }

  lemma EdgesAppend(s: Schema, scope: Scope, a: seq<CallSite>, b: seq<CallSite>)
    ensures EdgesOf(s, scope, a + b) == EdgesOf(s, scope, a) + EdgesOf(s, scope, b)
  {
    if a == [] {
      assert a + b == b;
    } else {
      assert (a + b)[1..] == a[1..] + b;
      EdgesAppend(s, scope, a[1..], b);
    }
  }

  /** A resolved call of the innermost function is an edge, so it cannot lead back onto the path. */
  lemma CallIsEdge(env: Env, active: seq<FunctionKey>, e: Expr, f: Function)
    requires e.Call? && Callee(env, active, e) == Some(f) && CallsOf(env, active, Calls(e))
    ensures active != [] ==> C.Edge(Graph(env.schema), active[|active| - 1], KeyOf(f))
  {
    hide Graph, C.IsPath, EdgesOf;
    var s, scope, calls := env.schema, CurrentScope(env, active), Calls(e);
    assert calls[0] == CallSite(e.name, |e.args|);
    EdgeFor(s, scope, calls, 0);
  }

  lemma FunctionNode(s: Schema, name: string, scope: Scope, f: Function)
    requires SchemaIntegrity(s) && FunctionForScope(s, name, scope) == Some(f)
    ensures HasFunction(s, KeyOf(f)) && FunctionAt(s, KeyOf(f)) == f
    ensures KeyOf(f) in Graph(s) && Graph(s)[KeyOf(f)] == EdgesOf(s, f.scope, Calls(f.body))
  {
    hide EdgesOf, Calls;
    assert KeyOf(f) in AllKeys(s);
  }

  lemma LongerPath(g: C.Graph, path: seq<FunctionKey>, k: FunctionKey)
    requires C.IsPath(g, path) && (path != [] ==> C.Edge(g, path[|path| - 1], k))
    ensures C.IsPath(g, path + [k])
  {
    var longer := path + [k];
    forall i | 0 <= i < |longer| - 1 ensures C.Edge(g, longer[i], longer[i + 1]) {
      if i < |path| - 1 { assert C.Edge(g, path[i], path[i + 1]); }
    }
  }

  lemma CallIsNew(env: Env, active: seq<FunctionKey>, e: Expr, f: Function)
    requires Acyclic(env.schema) && e.Call? && Callee(env, active, e) == Some(f)
    requires CallsOf(env, active, Calls(e))
    ensures KeyOf(f) !in active && CallsOf(env, active + [KeyOf(f)], Calls(f.body))
  {
    hide Graph, HasFunction, FunctionAt, EdgesOf, Calls, C.IsPath, C.HasCycle, C.Edge, FunctionForScope, SchemaIntegrity;
    CallIsEdge(env, active, e, f);
    if KeyOf(f) in active {
      C.BackEdge(Graph(env.schema), active, KeyOf(f));
      assert false;
    }
    FunctionNode(env.schema, e.name, CurrentScope(env, active), f);
    LongerPath(Graph(env.schema), active, KeyOf(f));
    InnermostEdges(env, active, f);
  }

  lemma InnermostEdges(env: Env, active: seq<FunctionKey>, f: Function)
    requires KeyOf(f) in Graph(env.schema)
    requires Graph(env.schema)[KeyOf(f)] == EdgesOf(env.schema, f.scope, Calls(f.body))
    ensures var longer := active + [KeyOf(f)];
      && CurrentScope(env, longer) == f.scope
      && forall k :: k in EdgesOf(env.schema, f.scope, Calls(f.body)) ==>
           C.Edge(Graph(env.schema), longer[|longer| - 1], k)
  {
    hide Graph, EdgesOf, Calls;
  }

  /** On an acyclic function graph call-frame lowering never reports recursion, whatever else it does. */
  lemma {:induction false} FramesNeverRecur(
    env: Env, locals: seq<seq<string>>, active: seq<FunctionKey>, e: Expr, depth: nat)
    requires env.mode == CallFrame && Acyclic(env.schema) && CallsOf(env, active, Calls(e))
    ensures !Analyze(env, [], locals, active, e, depth).recursive
    decreases Rank(env.cap, depth), 0, 2
  {
    hide Acyclic, CallsOf, AnalyzeAll, AnalyzeFunction, Build, Calls, CallsAll;
    if depth <= env.cap {
      ChildCalls(env, active, e);
      if Callee(env, active, e).Some? {
        FrameNeverRecurs(env, locals, active, Callee(env, active, e).value, e, depth);
      } else {
        BuildParts(env, locals, e, AnalyzeAll(env, [], locals, active, Children(e), depth + 1));
        FramesNeverRecurAll(env, locals, active, Children(e), depth + 1);
      }
    }
  }

  lemma ChildCalls(env: Env, active: seq<FunctionKey>, e: Expr)
    requires CallsOf(env, active, Calls(e))
    ensures CallsOf(env, active, CallsAll(Children(e)))
  {
    CallsOfParts(env, active, if e.Call? then [CallSite(e.name, |e.args|)] else [], CallsAll(Children(e)));
  }

  lemma {:induction false} FrameNeverRecurs(
    env: Env, locals: seq<seq<string>>, active: seq<FunctionKey>, f: Function, e: Expr, depth: nat)
    requires env.mode == CallFrame && Acyclic(env.schema) && CallsOf(env, active, Calls(e))
    requires depth <= env.cap && e.Call? && Callee(env, active, e) == Some(f)
    ensures !AnalyzeFunction(env, [], locals, active, f, e, depth).recursive
    decreases Rank(env.cap, depth), 0, 1
  {
    hide Acyclic, CallsOf, Analyze, AnalyzeAll, Calls, CallsAll;
    CallIsNew(env, active, e, f);
    ChildCalls(env, active, e);
    FramesNeverRecurAll(env, locals, active, e.args, depth + 1);
    FramesNeverRecur(env, locals + [f.params], active + [KeyOf(f)], f.body, depth + 1);
  }

  lemma {:induction false} FramesNeverRecurAll(
    env: Env, locals: seq<seq<string>>, active: seq<FunctionKey>, es: seq<Expr>, depth: nat)
    requires env.mode == CallFrame && Acyclic(env.schema) && CallsOf(env, active, CallsAll(es))
    ensures !AnalyzeAll(env, [], locals, active, es, depth).recursive
    decreases Rank(env.cap, depth), 0, |es| + 3
  {
    hide Acyclic, CallsOf, Analyze, Calls;
    if es != [] {
      CallsOfParts(env, active, Calls(es[0]), CallsAll(es[1..]));
      FramesNeverRecur(env, locals, active, es[0], depth);
      FramesNeverRecurAll(env, locals, active, es[1..], depth);
    }
  }

  /** The dry run counts exactly what lowering charges: in the inline mode for every schema, in the
      call-frame mode for every schema whose function graph has no cycle. */
  lemma PreflightDecides(env: Env, e: Expr)
    requires env.mode == CallFrame ==> Acyclic(env.schema)
    ensures Counted(Analyze(env, [], [], [], e, 0), Count(env, [], [], e, 0))
  {
    hide Analyze, Count, Acyclic;
    if env.mode == CallFrame { FramesNeverRecur(env, [], [], e, 0); }
    MeterExact(env, [], [], [], e, 0);
  }
}
