/** Which programs make leftover calls. With call frames: exactly those that can reach one in the call
    graph. Inline, arguments are looked up in the scope they are substituted into as well. */
module Leftovers {
  import opened Tokens
  import opened Syntax
  import opened Program
  import opened LowerSpec
  import opened LowerFacts
  import opened Dispatch
  import opened CallGraph
  import opened Registry
  import C = Cycles
  import E = EvalSpec

  // ----- call frames: reachability in the call graph -----

  /** Following `path` in the call graph from calls made in `scope` one arrives where `h` is called. */
  ghost predicate Reached(s: Schema, scope: Scope, calls: seq<CallSite>, path: seq<FunctionKey>, h: HostSite) {
    if path == [] then h.scope == scope && h.call in calls
    else
      && path[0] in EdgesOf(s, scope, calls) && C.IsPath(Graph(s), path)
      && (var last := path[|path| - 1];
          HasFunction(s, last) && h.scope == last.scope && h.call in Calls(FunctionAt(s, last).body))
  }

  lemma ReachedFirst(s: Schema, scope: Scope, calls: seq<CallSite>, f: Function, path: seq<FunctionKey>, h: HostSite)
    requires HasFunction(s, KeyOf(f)) && FunctionAt(s, KeyOf(f)) == f && KeyOf(f) in EdgesOf(s, scope, calls)
    requires KeyOf(f) in Graph(s) && Graph(s)[KeyOf(f)] == EdgesOf(s, f.scope, Calls(f.body))
    requires Reached(s, f.scope, Calls(f.body), path, h)
    ensures Reached(s, scope, calls, [KeyOf(f)] + path, h)
  {
    hide EdgesOf, Graph, Calls, HasFunction, FunctionAt;
    var longer := [KeyOf(f)] + path;
    assert path != [] ==> longer[|longer| - 1] == path[|path| - 1];
    forall i | 0 <= i < |longer| - 1 ensures C.Edge(Graph(s), longer[i], longer[i + 1]) {
      if i > 0 { assert C.Edge(Graph(s), path[i - 1], path[i]); }
    }
  }

  lemma ReachedMore(s: Schema, scope: Scope, a: seq<CallSite>, b: seq<CallSite>, path: seq<FunctionKey>, h: HostSite)
    requires Reached(s, scope, a, path, h) || Reached(s, scope, b, path, h)
    ensures Reached(s, scope, a + b, path, h)
  {
    hide EdgesOf, Graph, Calls, HasFunction, FunctionAt, C.IsPath;
    EdgesAppend(s, scope, a, b);
  }

  lemma OwnCall(env: Env, active: seq<FunctionKey>, e: Expr)
    ensures Calls(e) == (if e.Call? then [CallSite(e.name, |e.args|)] else []) + CallsAll(Children(e))
    ensures e.Call? ==> Children(e) == e.args
    ensures Callee(env, active, e).Some? ==>
      FunctionForScope(env.schema, e.name, CurrentScope(env, active)) == Callee(env, active, e)
  {
    hide CallsAll, FunctionForScope;
  }

  /** Lowering meets nothing that cannot be reached. */
  lemma {:induction false} MetIsReached(env: Env, active: seq<FunctionKey>, e: Expr, depth: nat, h: HostSite)
    returns (path: seq<FunctionKey>)
    requires env.mode == CallFrame && SchemaIntegrity(env.schema) && h in HostCalls(env, [], active, e, depth)
    ensures Reached(env.schema, CurrentScope(env, active), Calls(e), path, h)
    decreases Rank(env.cap, depth), 0, 2
  {
    hide HostCallsAll, HostCallsFrom, Reached, Calls, CallsAll, SchemaIntegrity, FunctionForScope;
    var s, scope := env.schema, CurrentScope(env, active);
    OwnCall(env, active, e);
    var own := if e.Call? then [CallSite(e.name, |e.args|)] else [];
    if Callee(env, active, e).Some? {
      path := MetIsReachedCall(env, active, Callee(env, active, e).value, e, depth, h);
    } else if h in OwnHostCall(env, active, e) {
      path := [];
      MetHere(s, scope, own, h);
      ReachedMore(s, scope, own, CallsAll(Children(e)), path, h);
    } else {
      path := MetIsReachedAll(env, active, Children(e), depth + 1, h);
      ReachedMore(s, scope, own, CallsAll(Children(e)), path, h);
    }
  }

  lemma MetHere(s: Schema, scope: Scope, calls: seq<CallSite>, h: HostSite)
    requires h.scope == scope && h.call in calls
    ensures Reached(s, scope, calls, [], h)
  {
  }

  lemma {:induction false} MetIsReachedCall(
    env: Env, active: seq<FunctionKey>, f: Function, e: Expr, depth: nat, h: HostSite) returns (path: seq<FunctionKey>)
    requires env.mode == CallFrame && SchemaIntegrity(env.schema) && depth <= env.cap
    requires Callee(env, active, e) == Some(f) && h in HostCallsFrom(env, [], active, f, e.args, depth)
    ensures Reached(env.schema, CurrentScope(env, active), Calls(e), path, h)
    decreases Rank(env.cap, depth), 0, 1
  {
    hide HostCalls, HostCallsAll, Reached, Calls, CallsAll, SchemaIntegrity, FunctionForScope, Graph, EdgesOf, HasFunction;
    var s, scope := env.schema, CurrentScope(env, active);
    OwnCall(env, active, e);
    var own := [CallSite(e.name, |e.args|)];
    if h in HostCallsAll(env, [], active, e.args, depth + 1) {
      path := MetIsReachedAll(env, active, e.args, depth + 1, h);
      ReachedMore(s, scope, own, CallsAll(e.args), path, h);
    } else {
      var rest := MetIsReached(env, active + [KeyOf(f)], f.body, depth + 1, h);
      FunctionNode(s, e.name, scope, f);
      EdgeFor(s, scope, own, 0);
      ReachedFirst(s, scope, own, f, rest, h);
      path := [KeyOf(f)] + rest;
      ReachedMore(s, scope, own, CallsAll(e.args), path, h);
    }
  }

  lemma {:induction false} MetIsReachedAll(env: Env, active: seq<FunctionKey>, es: seq<Expr>, depth: nat, h: HostSite)
    returns (path: seq<FunctionKey>)
    requires env.mode == CallFrame && SchemaIntegrity(env.schema) && h in HostCallsAll(env, [], active, es, depth)
    ensures Reached(env.schema, CurrentScope(env, active), CallsAll(es), path, h)
    decreases Rank(env.cap, depth), 0, |es| + 3
  {
    hide HostCalls, Reached, Calls, SchemaIntegrity;
    if h in HostCalls(env, [], active, es[0], depth) {
      path := MetIsReached(env, active, es[0], depth, h);
    } else {
      path := MetIsReachedAll(env, active, es[1..], depth, h);
    }
    ReachedMore(env.schema, CurrentScope(env, active), Calls(es[0]), CallsAll(es[1..]), path, h);
  }

  /** The body of `f` is lowered somewhere below, and what it meets is met. */
  ghost predicate BodyMet(
    env: Env, f: Function, met: set<HostSite>, locals: seq<seq<string>>, below: seq<FunctionKey>, depth: nat)
  {
    && below != [] && below[|below| - 1] == KeyOf(f)
    && Accepted(Analyze(env, [], locals, below, f.body, depth))
    && HostCalls(env, [], below, f.body, depth) <= met
  }

  ghost predicate CallMet(env: Env, active: seq<FunctionKey>, call: CallSite, met: set<HostSite>) {
    var scope := CurrentScope(env, active);
    match FunctionForScope(env.schema, call.name, scope)
    case None => HostSite(scope, call) in met
    case Some(f) => exists locals, below, depth: nat :: BodyMet(env, f, met, locals, below, depth)
  }

  lemma MetByMore(env: Env, active: seq<FunctionKey>, call: CallSite, a: set<HostSite>, b: set<HostSite>)
    requires CallMet(env, active, call, a) && a <= b
    ensures CallMet(env, active, call, b)
  {
    hide HostCalls, Analyze, FunctionForScope;
    var scope := CurrentScope(env, active);
    match FunctionForScope(env.schema, call.name, scope)
    case None =>
    case Some(f) =>
      var locals, below, depth: nat :| BodyMet(env, f, a, locals, below, depth);
      assert BodyMet(env, f, b, locals, below, depth);
  }

  /** Accepted lowering with call frames leaves out no call of the expression. */
  lemma {:induction false} EveryCallMet(
    env: Env, locals: seq<seq<string>>, active: seq<FunctionKey>, e: Expr, depth: nat, call: CallSite)
    requires env.mode == CallFrame && Accepted(Analyze(env, [], locals, active, e, depth)) && call in Calls(e)
    ensures CallMet(env, active, call, HostCalls(env, [], active, e, depth))
    decreases Rank(env.cap, depth), 0, 2
  {
    hide AnalyzeAll, AnalyzeFunction, Build, HostCallsAll, HostCallsFrom, CallMet, Calls, CallsAll, FunctionForScope;
    OwnCall(env, active, e);
    if Callee(env, active, e).Some? {
      EveryCallMetBelow(env, locals, active, Callee(env, active, e).value, e, depth, call);
    } else {
      BuildParts(env, locals, e, AnalyzeAll(env, [], locals, active, Children(e), depth + 1));
      if call in CallsAll(Children(e)) {
        EveryCallMetAll(env, locals, active, Children(e), depth + 1, call);
        MetByMore(env, active, call, HostCallsAll(env, [], active, Children(e), depth + 1),
                  HostCalls(env, [], active, e, depth));
      } else {
        HostCallMet(env, active, e, HostCalls(env, [], active, e, depth));
      }
    }
  }

  lemma HostCallMet(env: Env, active: seq<FunctionKey>, e: Expr, met: set<HostSite>)
    requires e.Call? && Callee(env, active, e) == None && OwnHostCall(env, active, e) <= met
    ensures CallMet(env, active, CallSite(e.name, |e.args|), met)
  {
  }

  lemma {:induction false} EveryCallMetBelow(
    env: Env, locals: seq<seq<string>>, active: seq<FunctionKey>, f: Function, e: Expr, depth: nat, call: CallSite)
    requires env.mode == CallFrame && depth <= env.cap && Callee(env, active, e) == Some(f) && call in Calls(e)
    requires Accepted(AnalyzeFunction(env, [], locals, active, f, e, depth))
    ensures CallMet(env, active, call, HostCallsFrom(env, [], active, f, e.args, depth))
    decreases Rank(env.cap, depth), 0, 1
  {
    hide Analyze, AnalyzeAll, HostCalls, HostCallsAll, CallMet, Calls, CallsAll, FunctionForScope;
    OwnCall(env, active, e);
    var met := HostCallsFrom(env, [], active, f, e.args, depth);
    if call in CallsAll(e.args) {
      EveryCallMetAll(env, locals, active, e.args, depth + 1, call);
      MetByMore(env, active, call, HostCallsAll(env, [], active, e.args, depth + 1), met);
    } else {
      BodyIsMet(env, active, f, call, met, locals + [f.params], active + [KeyOf(f)], depth + 1);
    }
  }

  lemma BodyIsMet(
    env: Env, active: seq<FunctionKey>, f: Function, call: CallSite, met: set<HostSite>,
    locals: seq<seq<string>>, below: seq<FunctionKey>, depth: nat)
    requires FunctionForScope(env.schema, call.name, CurrentScope(env, active)) == Some(f)
    requires BodyMet(env, f, met, locals, below, depth)
    ensures CallMet(env, active, call, met)
  {
    hide HostCalls, Analyze, FunctionForScope, BodyMet;
  }

  lemma {:induction false} EveryCallMetAll(
    env: Env, locals: seq<seq<string>>, active: seq<FunctionKey>, es: seq<Expr>, depth: nat, call: CallSite)
    requires env.mode == CallFrame && AcceptedAll(AnalyzeAll(env, [], locals, active, es, depth)) && call in CallsAll(es)
    ensures CallMet(env, active, call, HostCallsAll(env, [], active, es, depth))
    decreases Rank(env.cap, depth), 0, |es| + 3
  {
    hide Analyze, HostCalls, CallMet, Calls;
    var met := HostCallsAll(env, [], active, es, depth);
    if call in Calls(es[0]) {
      EveryCallMet(env, locals, active, es[0], depth, call);
      MetByMore(env, active, call, HostCalls(env, [], active, es[0], depth), met);
    } else {
      EveryCallMetAll(env, locals, active, es[1..], depth, call);
      MetByMore(env, active, call, HostCallsAll(env, [], active, es[1..], depth), met);
    }
  }

  /** Accepted lowering with call frames meets every host call that can be reached. */
  lemma {:induction false} ReachedIsMet(
    env: Env, locals: seq<seq<string>>, active: seq<FunctionKey>, e: Expr, depth: nat, path: seq<FunctionKey>, h: HostSite)
    requires env.mode == CallFrame && SchemaIntegrity(env.schema) && Accepted(Analyze(env, [], locals, active, e, depth))
    requires Reached(env.schema, CurrentScope(env, active), Calls(e), path, h)
    requires FunctionForScope(env.schema, h.call.name, h.scope) == None
    ensures h in HostCalls(env, [], active, e, depth)
    decreases |path|
  {
    hide Analyze, HostCalls, Calls, FunctionForScope, SchemaIntegrity, Graph, EdgesOf, FunctionAt, HasFunction;
    var s, scope := env.schema, CurrentScope(env, active);
    if path == [] {
      EveryCallMet(env, locals, active, e, depth, h.call);
    } else {
      var call, f := EdgeCall(s, scope, Calls(e), path[0]);
      EveryCallMet(env, locals, active, e, depth, call);
      var locals', below, depth': nat :|
        BodyMet(env, f, HostCalls(env, [], active, e, depth), locals', below, depth');
      FunctionNode(s, call.name, scope, f);
      RestReached(s, scope, Calls(e), f, path, h);
      ReachedIsMet(env, locals', below, f.body, depth', path[1..], h);
    }
  }

  lemma {:induction false} EdgeCall(s: Schema, scope: Scope, calls: seq<CallSite>, k: FunctionKey)
    returns (call: CallSite, f: Function)
    requires k in EdgesOf(s, scope, calls)
    ensures call in calls && FunctionForScope(s, call.name, scope) == Some(f) && KeyOf(f) == k
  {
    hide FunctionForScope;
    var found := FunctionForScope(s, calls[0].name, scope);
    if found.Some? && KeyOf(found.value) == k {
      call, f := calls[0], found.value;
    } else {
      call, f := EdgeCall(s, scope, calls[1..], k);
    }
  }

  lemma RestReached(s: Schema, scope: Scope, calls: seq<CallSite>, f: Function, path: seq<FunctionKey>, h: HostSite)
    requires path != [] && path[0] == KeyOf(f) && Reached(s, scope, calls, path, h)
    requires HasFunction(s, KeyOf(f)) && FunctionAt(s, KeyOf(f)) == f
    requires KeyOf(f) in Graph(s) && Graph(s)[KeyOf(f)] == EdgesOf(s, f.scope, Calls(f.body))
    ensures Reached(s, f.scope, Calls(f.body), path[1..], h)
  {
    hide EdgesOf, Graph, Calls, HasFunction, FunctionAt;
    var rest := path[1..];
    if rest != [] {
      assert C.Edge(Graph(s), path[0], path[1]);
      assert rest[|rest| - 1] == path[|path| - 1];
      forall i | 0 <= i < |rest| - 1 ensures C.Edge(Graph(s), rest[i], rest[i + 1]) {
        assert C.Edge(Graph(s), path[i + 1], path[i + 2]);
      }
    }
  }

  /** With call frames, exactly when the registry serves an accepted program: if and only if no leftover
      call can be reached from it in the call graph. */
  lemma FramesServedExactly(env: Env, rt: E.Runtime, e: Expr)
    requires env.mode == CallFrame && Backed(rt, env.schema) && Accepted(Analyze(env, [], [], [], e, 0))
    ensures Serves(rt, Analyze(env, [], [], [], e, 0).required) <==>
      !exists path, h :: Reached(env.schema, env.scope, Calls(e), path, h) && Leftover(rt, env.schema, h)
  {
    hide Analyze, Serves, HostCalls, Reached, Calls, EntryOf, Leaves;
    var s, met := env.schema, HostCalls(env, [], [], e, 0);
    OwnRegistryServes(env, rt, [], [], [], e, 0);
    if !NoLeftover(rt, s, met) {
      var h :| h in met && Leftover(rt, s, h);
      var path := MetIsReached(env, [], e, 0, h);
    }
    forall path, h | Reached(s, env.scope, Calls(e), path, h) && Leftover(rt, s, h) ensures h in met {
      ReachedIsMet(env, [], [], e, 0, path, h);
    }
  }

  // ----- conditions on the text of a program and its functions -----

  predicate CallsLocalOnly(s: Schema, calls: seq<CallSite>) {
    exists i :: 0 <= i < |calls| && LocalOnly(s, calls[i].name)
  }

  predicate GlobalsQuiet(s: Schema) {
    forall name | name in s.globals :: !CallsLocalOnly(s, Calls(s.globals[name].body))
  }

  /** With call frames: no global body, and no program analysed in the global scope, calls a name that
      only a local function has. */
  lemma FramesServed(env: Env, rt: E.Runtime, e: Expr)
    requires env.mode == CallFrame && Backed(rt, env.schema) && GlobalsQuiet(env.schema)
    requires env.scope == GlobalScope ==> !CallsLocalOnly(env.schema, Calls(e))
    ensures Serves(rt, Analyze(env, [], [], [], e, 0).required)
  {
    hide Analyze, Serves, HostCalls, Calls, EntryOf, Leaves, EdgesOf, Graph, C.IsPath;
    var s, met := env.schema, HostCalls(env, [], [], e, 0);
    OwnRegistryServes(env, rt, [], [], [], e, 0);
    forall h | h in met ensures !Leftover(rt, s, h) {
      var path := MetIsReached(env, [], e, 0, h);
    }
  }

  predicate Quiet(s: Schema, e: Expr) { !CallsLocalOnly(s, Calls(e)) }

  predicate QuietAll(s: Schema, es: seq<Expr>) { forall i :: 0 <= i < |es| ==> Quiet(s, es[i]) }

  /** No argument of a function call has such a call in it. */
  predicate ArgsQuiet(s: Schema, e: Expr)
    decreases Nodes(e), 1
  {
    (e.Call? ==> QuietAll(s, e.args)) && ArgsQuietAll(s, Children(e))
  }

  predicate ArgsQuietAll(s: Schema, es: seq<Expr>)
    decreases NodesAll(es), 2 + |es|
  {
    es == [] || (ArgsQuiet(s, es[0]) && ArgsQuietAll(s, es[1..]))
  }

  /** What may be written where `scope` is the scope of lookup. */
  predicate Contained(s: Schema, scope: Scope, e: Expr) {
    if scope == GlobalScope then Quiet(s, e) else ArgsQuiet(s, e)
  }

  predicate ContainedAll(s: Schema, scope: Scope, es: seq<Expr>) {
    if scope == GlobalScope then QuietAll(s, es) else ArgsQuietAll(s, es)
  }

  predicate LocalsContained(s: Schema) {
    forall name | name in s.locals :: ArgsQuiet(s, s.locals[name].body)
  }

  predicate FramesQuiet(s: Schema, frames: seq<Binding>) {
    forall i :: 0 <= i < |frames| ==> QuietAll(s, frames[i].args)
  }

  /** No call in the global scope of a name that only a local function has. */
  ghost predicate NoEscape(s: Schema, hs: set<HostSite>) {
    forall h :: h in hs && h.scope == GlobalScope ==> !LocalOnly(s, h.call.name)
  }

  lemma QuietParts(s: Schema, a: seq<CallSite>, b: seq<CallSite>)
    ensures CallsLocalOnly(s, a + b) <==> CallsLocalOnly(s, a) || CallsLocalOnly(s, b)
  {
    hide LocalOnly;
    forall i | 0 <= i < |a| && LocalOnly(s, a[i].name) ensures CallsLocalOnly(s, a + b) { assert (a + b)[i] == a[i]; }
    forall i | 0 <= i < |b| && LocalOnly(s, b[i].name) ensures CallsLocalOnly(s, a + b) {
      assert (a + b)[|a| + i] == b[i];
    }
  }

  lemma {:induction false} QuietItems(s: Schema, es: seq<Expr>)
    ensures QuietAll(s, es) <==> !CallsLocalOnly(s, CallsAll(es))
    decreases |es|
  {
    hide CallsLocalOnly, Calls;
    if es == [] {
      NoCalls(s);
    } else {
      QuietItems(s, es[1..]);
      QuietParts(s, Calls(es[0]), CallsAll(es[1..]));
      assert QuietAll(s, es) <==> Quiet(s, es[0]) && QuietAll(s, es[1..]) by {
        assert forall i :: 0 <= i < |es[1..]| ==> es[1..][i] == es[i + 1];
        assert forall i :: 0 < i < |es| ==> es[i] == es[1..][i - 1];
      }
    }
  }

  lemma NoCalls(s: Schema)
    ensures !CallsLocalOnly(s, [])
  {
  }

  lemma QuietChildren(s: Schema, e: Expr)
    ensures Quiet(s, e) <==> (e.Call? ==> !LocalOnly(s, e.name)) && QuietAll(s, Children(e))
  {
    hide CallsAll, LocalOnly;
    var own := if e.Call? then [CallSite(e.name, |e.args|)] else [];
    QuietItems(s, Children(e));
    assert Calls(e) == own + CallsAll(Children(e));
    QuietParts(s, own, CallsAll(Children(e)));
    if e.Call? { assert own[0].name == e.name; }
  }

  lemma {:induction false} QuietArgsQuiet(s: Schema, e: Expr)
    requires Quiet(s, e)
    ensures ArgsQuiet(s, e)
    decreases Nodes(e), 1
  {
    hide Quiet, ArgsQuietAll;
    QuietChildren(s, e);
    QuietArgsQuietAll(s, Children(e));
  }

  lemma {:induction false} QuietArgsQuietAll(s: Schema, es: seq<Expr>)
    requires QuietAll(s, es)
    ensures ArgsQuietAll(s, es)
    decreases NodesAll(es), 2 + |es|
  {
    hide Quiet, ArgsQuiet;
    if es != [] {
      QuietArgsQuiet(s, es[0]);
      QuietArgsQuietAll(s, es[1..]);
    }
  }

  lemma ContainedParts(s: Schema, scope: Scope, e: Expr)
    requires Contained(s, scope, e)
    ensures ContainedAll(s, scope, Children(e))
    ensures e.Call? ==> QuietAll(s, e.args) && (scope == GlobalScope ==> !LocalOnly(s, e.name))
  {
    hide Quiet, LocalOnly;
    QuietChildren(s, e);
  }

  lemma QuietContained(s: Schema, scope: Scope, e: Expr)
    requires Quiet(s, e)
    ensures Contained(s, scope, e)
  {
    hide Quiet, ArgsQuiet;
    QuietArgsQuiet(s, e);
  }

  lemma {:induction false} BoundQuiet(s: Schema, params: seq<string>, args: seq<Expr>, name: string)
    requires QuietAll(s, args) && BoundArg(params, args, name).Some?
    ensures Quiet(s, BoundArg(params, args, name).value)
    decreases |params|
  {
    hide Quiet;
    if params[0] != name {
      assert forall i :: 0 <= i < |args[1..]| ==> args[1..][i] == args[i + 1];
      BoundQuiet(s, params[1..], args[1..], name);
    }
  }

  lemma FramesQuietMore(s: Schema, frames: seq<Binding>, binding: Binding)
    requires FramesQuiet(s, frames) && QuietAll(s, binding.args)
    ensures FramesQuiet(s, frames + [binding])
  {
    hide QuietAll;
  }

  lemma FramesQuietBound(s: Schema, frames: seq<Binding>, name: string)
    requires FramesQuiet(s, frames) && InlineBinding(frames, name).Some?
    ensures FramesQuiet(s, frames[..|frames| - 1]) && Quiet(s, InlineBinding(frames, name).value)
  {
    hide QuietAll, Quiet;
    var last := frames[|frames| - 1];
    BoundQuiet(s, last.params, last.args, name);
  }

  lemma BodyContained(s: Schema, name: string, scope: Scope, f: Function)
    requires SchemaIntegrity(s) && GlobalsQuiet(s) && LocalsContained(s) && FunctionForScope(s, name, scope) == Some(f)
    ensures Contained(s, f.scope, f.body)
  {
    hide CallsLocalOnly, ArgsQuiet, Calls;
  }

  lemma NoEscapeBoth(s: Schema, a: set<HostSite>, b: set<HostSite>)
    requires NoEscape(s, a) && NoEscape(s, b)
    ensures NoEscape(s, a + b)
  {
    hide LocalOnly;
  }

  lemma NoEscapeHere(env: Env, active: seq<FunctionKey>, e: Expr)
    requires e.Call? && CurrentScope(env, active) == GlobalScope ==> !LocalOnly(env.schema, e.name)
    ensures NoEscape(env.schema, OwnHostCall(env, active, e))
  {
    hide LocalOnly;
  }

  /** Inline, with substituted arguments in mind, everything stays where its names resolve. */
  lemma {:induction false} InlineContained(
    env: Env, frames: seq<Binding>, active: seq<FunctionKey>, e: Expr, depth: nat)
    requires env.mode == Inline && SchemaIntegrity(env.schema) && GlobalsQuiet(env.schema) && LocalsContained(env.schema)
    requires FramesQuiet(env.schema, frames) && Contained(env.schema, CurrentScope(env, active), e)
    ensures NoEscape(env.schema, HostCalls(env, frames, active, e, depth))
    decreases Rank(env.cap, depth), |frames|, 2
  {
    hide HostCallsAll, NoEscape, Contained, ContainedAll, QuietAll, FramesQuiet, GlobalsQuiet, LocalsContained,
      SchemaIntegrity, LocalOnly, OwnHostCall, Quiet;
    var s, scope := env.schema, CurrentScope(env, active);
    NoHostCalls(s);
    if depth > env.cap {
    } else if e.Ident? && InlineBinding(frames, e.name).Some? {
      FramesQuietBound(s, frames, e.name);
      QuietContained(s, scope, InlineBinding(frames, e.name).value);
      InlineContained(env, frames[..|frames| - 1], active, InlineBinding(frames, e.name).value, depth);
    } else {
      ContainedParts(s, scope, e);
      if Callee(env, active, e).Some? {
        var f := Callee(env, active, e).value;
        BodyContained(s, e.name, scope, f);
        FramesQuietMore(s, frames, Binding(f.params, e.args));
        assert CurrentScope(env, active + [KeyOf(f)]) == f.scope;
        if |f.params| == |e.args| && KeyOf(f) !in active {
          InlineContained(env, frames + [Binding(f.params, e.args)], active + [KeyOf(f)], f.body, depth + 1);
        }
      } else {
        InlineContainedAll(env, frames, active, Children(e), depth + 1);
        NoEscapeHere(env, active, e);
        NoEscapeBoth(s, OwnHostCall(env, active, e), HostCallsAll(env, frames, active, Children(e), depth + 1));
      }
    }
  }

  lemma NoHostCalls(s: Schema)
    ensures NoEscape(s, {})
  {
  }

  lemma {:induction false} InlineContainedAll(
    env: Env, frames: seq<Binding>, active: seq<FunctionKey>, es: seq<Expr>, depth: nat)
    requires env.mode == Inline && SchemaIntegrity(env.schema) && GlobalsQuiet(env.schema) && LocalsContained(env.schema)
    requires FramesQuiet(env.schema, frames) && ContainedAll(env.schema, CurrentScope(env, active), es)
    ensures NoEscape(env.schema, HostCallsAll(env, frames, active, es, depth))
    decreases Rank(env.cap, depth), |frames|, |es| + 3
  {
    hide HostCalls, NoEscape, Contained, ContainedAll, FramesQuiet, GlobalsQuiet, LocalsContained, SchemaIntegrity;
    NoHostCalls(env.schema);
    if es != [] {
      ContainedFirst(env.schema, CurrentScope(env, active), es);
      InlineContained(env, frames, active, es[0], depth);
      InlineContainedAll(env, frames, active, es[1..], depth);
      NoEscapeBoth(env.schema, HostCalls(env, frames, active, es[0], depth),
                   HostCallsAll(env, frames, active, es[1..], depth));
    }
  }

  lemma ContainedFirst(s: Schema, scope: Scope, es: seq<Expr>)
    requires es != [] && ContainedAll(s, scope, es)
    ensures Contained(s, scope, es[0]) && ContainedAll(s, scope, es[1..])
  {
    hide Quiet, ArgsQuiet;
  }

  /** Inline: no global body and no program analysed in the global scope calls a name that only a local
      function has, and no argument of a call anywhere else has such a call in it. */
  lemma InlineServed(env: Env, rt: E.Runtime, e: Expr)
    requires env.mode == Inline && Backed(rt, env.schema)
    requires GlobalsQuiet(env.schema) && LocalsContained(env.schema) && Contained(env.schema, env.scope, e)
    ensures Serves(rt, Analyze(env, [], [], [], e, 0).required)
  {
    hide Analyze, Serves, HostCalls, EntryOf, Leaves, GlobalsQuiet, LocalsContained, Contained, LocalOnly;
    OwnRegistryServes(env, rt, [], [], [], e, 0);
    InlineContained(env, [], [], e, 0);
  }
}
