/** The two lowerings of an expression function agree: what the call-frame program evaluates to, the
    inline program evaluates to as well. */
module Modes {
  import opened Tokens
  import opened Syntax
  import opened Program
  import opened LowerSpec
  import opened LowerFacts

  // ----- lowering without its bookkeeping -----

  /** The function a call resolves to when there is one scope. */
  function Resolve(env: Env, e: Expr): (f: Option<Function>)
    ensures f.Some? ==> e.Call?
  {
    if e.Call? then FunctionForScope(env.schema, e.name, env.scope) else None
  }

  /** The tree of the call-frame mode, knowing only the depth. */
  function FrameTree(env: Env, e: Expr, depth: nat): Option<Verified>
    decreases Rank(env.cap, depth), 2
  {
    if depth > env.cap then None
    else
      match Resolve(env, e)
      case None =>
        (match FrameTrees(env, Children(e), depth + 1) case Some(vs) => Some(Tree(env, e, vs)) case None => None)
      case Some(f) =>
        if |f.params| != |e.args| then None
        else
          match FrameTrees(env, e.args, depth + 1)
          case None => None
          case Some(args) =>
            match FrameTree(env, f.body, depth + 1)
            case None => None
            case Some(body) => Some(VFunction(f.name, f.params, args, body))
  }

  function FrameTrees(env: Env, es: seq<Expr>, depth: nat): (r: Option<seq<Verified>>)
    ensures r.Some? ==> |r.value| == |es|
    decreases Rank(env.cap, depth), |es| + 3
  {
    if es == [] then Some([])
    else
      match FrameTree(env, es[0], depth)
      case None => None
      case Some(first) =>
        (match FrameTrees(env, es[1..], depth) case Some(rest) => Some([first] + rest) case None => None)
  }

  /** The tree of the inline mode, knowing only the frames and the depth. */
  function InlineTree(env: Env, frames: seq<Binding>, e: Expr, depth: nat): Option<Verified>
    decreases Rank(env.cap, depth), |frames|, 2
  {
    if depth > env.cap then None
    else if e.Ident? && InlineBinding(frames, e.name).Some? then
      InlineTree(env, frames[..|frames| - 1], InlineBinding(frames, e.name).value, depth)
    else
      match Resolve(env, e)
      case None =>
        (match InlineTrees(env, frames, Children(e), depth + 1)
         case Some(vs) => Some(Tree(env, e, vs))
         case None => None)
      case Some(f) =>
        if |f.params| != |e.args| then None
        else InlineTree(env, frames + [Binding(f.params, e.args)], f.body, depth + 1)
  }

  function InlineTrees(env: Env, frames: seq<Binding>, es: seq<Expr>, depth: nat): (r: Option<seq<Verified>>)
    ensures r.Some? ==> |r.value| == |es|
    decreases Rank(env.cap, depth), |frames|, |es| + 3
  {
    if es == [] then Some([])
    else
      match InlineTree(env, frames, es[0], depth)
      case None => None
      case Some(first) =>
        (match InlineTrees(env, frames, es[1..], depth) case Some(rest) => Some([first] + rest) case None => None)
  }

  // ----- one scope -----

  predicate SameScope(env: Env, scope: Scope)
  {
    scope == env.scope || env.schema.locals == map[] || (env.schema.globals == map[] && scope == LocalScope == env.scope)
  }

  /** All functions live in one scope, which the program sees. */
  predicate OneScope(env: Env) {
    env.schema.locals == map[] || (env.schema.globals == map[] && env.scope == LocalScope)
  }

  lemma SameResolution(env: Env, active: seq<FunctionKey>, e: Expr)
    requires active == [] || SameScope(env, active[|active| - 1].scope)
    ensures Callee(env, active, e) == Resolve(env, e)
  {
  }

  lemma ResolvedScope(env: Env, e: Expr)
    requires OneScope(env) && SchemaIntegrity(env.schema) && Resolve(env, e).Some?
    ensures SameScope(env, Resolve(env, e).value.scope)
  {
  }

  /** The scope of the innermost active function resolves names as the program does. */
  predicate ScopeFits(env: Env, active: seq<FunctionKey>) {
    active == [] || SameScope(env, active[|active| - 1].scope)
  }

  lemma {:induction false} AnalyzeFrames(env: Env, locals: seq<seq<string>>, active: seq<FunctionKey>, e: Expr, depth: nat)
    requires env.mode == CallFrame && OneScope(env) && SchemaIntegrity(env.schema) && ScopeFits(env, active)
    requires Accepted(Analyze(env, [], locals, active, e, depth))
    ensures FrameTree(env, e, depth) == Some(Analyze(env, [], locals, active, e, depth).expr)
    decreases Rank(env.cap, depth), 0, 2
  {
    hide AnalyzeAll, AnalyzeFunction, Build, SchemaIntegrity, OneScope, ScopeFits, Tree, FrameTrees;
    SameResolutions(env, active, e);
    if Callee(env, active, e).Some? {
      AnalyzeFrameFunction(env, locals, active, Callee(env, active, e).value, e, depth);
    } else {
      BuildParts(env, locals, e, AnalyzeAll(env, [], locals, active, Children(e), depth + 1));
      AnalyzeFramesAll(env, locals, active, Children(e), depth + 1);
    }
  }

  lemma SameResolutions(env: Env, active: seq<FunctionKey>, e: Expr)
    requires OneScope(env) && SchemaIntegrity(env.schema) && ScopeFits(env, active)
    ensures Callee(env, active, e) == Resolve(env, e)
    ensures Resolve(env, e).Some? ==> ScopeFits(env, active + [KeyOf(Resolve(env, e).value)])
  {
    SameResolution(env, active, e);
    if Resolve(env, e).Some? { ResolvedScope(env, e); }
  }

  lemma {:induction false} AnalyzeFrameFunction(
    env: Env, locals: seq<seq<string>>, active: seq<FunctionKey>, f: Function, e: Expr, depth: nat)
    requires env.mode == CallFrame && OneScope(env) && SchemaIntegrity(env.schema) && ScopeFits(env, active)
    requires depth <= env.cap && Resolve(env, e) == Some(f)
    requires Accepted(AnalyzeFunction(env, [], locals, active, f, e, depth))
    ensures FrameTree(env, e, depth) == Some(AnalyzeFunction(env, [], locals, active, f, e, depth).expr)
    decreases Rank(env.cap, depth), 0, 1
  {
    hide AnalyzeAll, Analyze, SchemaIntegrity, OneScope, ScopeFits, Tree, FrameTrees;
    SameResolutions(env, active, e);
    AnalyzeFramesAll(env, locals, active, e.args, depth + 1);
    AnalyzeFrames(env, locals + [f.params], active + [KeyOf(f)], f.body, depth + 1);
  }

  lemma {:induction false} AnalyzeFramesAll(
    env: Env, locals: seq<seq<string>>, active: seq<FunctionKey>, es: seq<Expr>, depth: nat)
    requires env.mode == CallFrame && OneScope(env) && SchemaIntegrity(env.schema) && ScopeFits(env, active)
    requires AcceptedAll(AnalyzeAll(env, [], locals, active, es, depth))
    ensures FrameTrees(env, es, depth) == Some(AnalyzeAll(env, [], locals, active, es, depth).exprs)
    decreases Rank(env.cap, depth), 0, |es| + 3
  {
    hide Analyze, FrameTree, SchemaIntegrity, OneScope, ScopeFits;
    if es != [] {
      AnalyzeFrames(env, locals, active, es[0], depth);
      AnalyzeFramesAll(env, locals, active, es[1..], depth);
    }
  }

  lemma {:induction false} AnalyzeInlines(env: Env, frames: seq<Binding>, active: seq<FunctionKey>, e: Expr, depth: nat)
    requires env.mode == Inline && OneScope(env) && SchemaIntegrity(env.schema) && ScopeFits(env, active)
    requires Accepted(Analyze(env, frames, [], active, e, depth))
    ensures InlineTree(env, frames, e, depth) == Some(Analyze(env, frames, [], active, e, depth).expr)
    decreases Rank(env.cap, depth), |frames|, 2
  {
    hide AnalyzeAll, AnalyzeFunction, Build, SchemaIntegrity, OneScope, ScopeFits, Tree, InlineTrees;
    SameResolutions(env, active, e);
    if e.Ident? && InlineBinding(frames, e.name).Some? {
      AnalyzeInlines(env, frames[..|frames| - 1], active, InlineBinding(frames, e.name).value, depth);
    } else if Callee(env, active, e).Some? {
      var f := Callee(env, active, e).value;
      InlineFunctionParts(env, frames, active, f, e, depth);
      AnalyzeInlines(env, frames + [Binding(f.params, e.args)], active + [KeyOf(f)], f.body, depth + 1);
    } else {
      BuildParts(env, [], e, AnalyzeAll(env, frames, [], active, Children(e), depth + 1));
      AnalyzeInlinesAll(env, frames, active, Children(e), depth + 1);
    }
  }

  lemma InlineFunctionParts(env: Env, frames: seq<Binding>, active: seq<FunctionKey>, f: Function, e: Expr, depth: nat)
    requires env.mode == Inline && depth <= env.cap && e.Call?
    requires Accepted(AnalyzeFunction(env, frames, [], active, f, e, depth))
    ensures |f.params| == |e.args|
    ensures var b := Analyze(env, frames + [Binding(f.params, e.args)], [], active + [KeyOf(f)], f.body, depth + 1);
      Accepted(b) && AnalyzeFunction(env, frames, [], active, f, e, depth).expr == b.expr
  {
    hide Analyze;
  }

  lemma {:induction false} AnalyzeInlinesAll(
    env: Env, frames: seq<Binding>, active: seq<FunctionKey>, es: seq<Expr>, depth: nat)
    requires env.mode == Inline && OneScope(env) && SchemaIntegrity(env.schema) && ScopeFits(env, active)
    requires AcceptedAll(AnalyzeAll(env, frames, [], active, es, depth))
    ensures InlineTrees(env, frames, es, depth) == Some(AnalyzeAll(env, frames, [], active, es, depth).exprs)
    decreases Rank(env.cap, depth), |frames|, |es| + 3
  {
    hide Analyze, InlineTree, SchemaIntegrity, OneScope, ScopeFits;
    if es != [] {
      AnalyzeInlines(env, frames, active, es[0], depth);
      AnalyzeInlinesAll(env, frames, active, es[1..], depth);
    }
  }
}
