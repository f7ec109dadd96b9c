/** Facts about lowering: the dry-run meter counts exactly what lowering charges, and the accepted
    tree is no larger and no deeper than what was counted. */
module LowerFacts {
  import opened Text
  import opened Syntax
  import opened Program
  import opened LowerSpec

  /** Lowering charged what the meter counted. */
  predicate Counted(o: Out, t: Tally) { o.nodes == t.nodes && o.scalars == t.scalars && o.tooDeep == t.tooDeep }

  /** The two passes disagree on one thing only: a recursive call in the call-frame mode, where lowering
      charges the parameters before it looks for the function among the active ones. */
  predicate Diverges(env: Env, recursive: bool) { env.mode == CallFrame && recursive }

  /** The meter is exact: the dry run counts the nodes and scalar bytes lowering charges and sees the
      same depth, whatever else is reported; in the inline mode always, in the call-frame mode unless
      lowering reports recursion. */
  lemma {:induction false} MeterExact(
    env: Env, frames: seq<Binding>, locals: seq<seq<string>>, active: seq<FunctionKey>, e: Expr, depth: nat)
    requires env.mode == CallFrame ==> frames == []
    requires !Diverges(env, Analyze(env, frames, locals, active, e, depth).recursive)
    ensures Counted(Analyze(env, frames, locals, active, e, depth), Count(env, frames, active, e, depth))
    decreases Rank(env.cap, depth), |frames|, 2
  {
    hide Build, AnalyzeFunction, CountFunction, AnalyzeAll, CountAll;
    if depth > env.cap {
    } else if e.Ident? && InlineBinding(frames, e.name).Some? {
      MeterExact(env, frames[..|frames| - 1], locals, active, InlineBinding(frames, e.name).value, depth);
    } else if Callee(env, active, e).Some? {
      MeterExactFunction(env, frames, locals, active, Callee(env, active, e).value, e, depth);
    } else {
      var kids := AnalyzeAll(env, frames, locals, active, Children(e), depth + 1);
      BuildParts(env, locals, e, kids);
      MeterExactAll(env, frames, locals, active, Children(e), depth + 1);
    }
  }

  lemma BuildParts(env: Env, locals: seq<seq<string>>, e: Expr, kids: Outs)
    requires |kids.exprs| == |Children(e)|
    ensures var o := Build(env, locals, e, kids);
      && o.nodes == 1 + kids.nodes && o.scalars == Bytes(OwnText(e)) + kids.scalars
      && o.tooDeep == kids.tooDeep && o.recursive == kids.recursive && o.badArity == kids.badArity
      && (o.clean <==> kids.clean && NodeClean(env, locals, e))
      && o.expr == Tree(env, e, kids.exprs) && o.required == kids.required + Required(env, e)
  {
  }

  lemma {:induction false} MeterExactFunction(
    env: Env, frames: seq<Binding>, locals: seq<seq<string>>, active: seq<FunctionKey>, f: Function, e: Expr, depth: nat)
    requires env.mode == CallFrame ==> frames == []
    requires depth <= env.cap && e.Call?
    requires !Diverges(env, AnalyzeFunction(env, frames, locals, active, f, e, depth).recursive)
    ensures Counted(AnalyzeFunction(env, frames, locals, active, f, e, depth),
                    Combine(Tally(1, Bytes(OwnText(e)), false), CountFunction(env, frames, active, f, e.args, depth)))
    decreases Rank(env.cap, depth), |frames|, 1
  {
    hide Analyze, AnalyzeAll, Count, CountAll;
    if |f.params| != |e.args| || KeyOf(f) in active {
    } else if env.mode == Inline {
      MeterExact(env, frames + [Binding(f.params, e.args)], locals, active + [KeyOf(f)], f.body, depth + 1);
    } else {
      MeterExactAll(env, frames, locals, active, e.args, depth + 1);
      MeterExact(env, frames, locals + [f.params], active + [KeyOf(f)], f.body, depth + 1);
    }
  }

  lemma {:induction false} MeterExactAll(
    env: Env, frames: seq<Binding>, locals: seq<seq<string>>, active: seq<FunctionKey>, es: seq<Expr>, depth: nat)
    requires env.mode == CallFrame ==> frames == []
    requires !Diverges(env, AnalyzeAll(env, frames, locals, active, es, depth).recursive)
    ensures var o, t := AnalyzeAll(env, frames, locals, active, es, depth), CountAll(env, frames, active, es, depth);
      o.nodes == t.nodes && o.scalars == t.scalars && o.tooDeep == t.tooDeep
    decreases Rank(env.cap, depth), |frames|, |es| + 3
  {
    if es != [] {
      MeterExact(env, frames, locals, active, es[0], depth);
      MeterExactAll(env, frames, locals, active, es[1..], depth);
    }
  }

  // ----- the tree is within what was charged -----

  lemma TreeSize(env: Env, e: Expr, vs: seq<Verified>)
    requires |vs| == |Children(e)|
    ensures Size(Tree(env, e, vs)) == 1 + SizeAll(vs) && Height(Tree(env, e, vs)) == HeightAll(vs)
  {
    hide HostCall, UnaryCapability, BinaryCapability, TicketOf, Nodes, Depth;
    if e.Member? || e.Unary? {
      assert vs[1..] == [];
    } else if e.Binary? {
      assert vs[1..][0] == vs[1] && vs[1..][1..] == [];
    }
  }

  /** An accepted tree has at most as many nodes as lowering charged, and is no deeper than the depth
      limit allows. */
  lemma {:induction false} TreeBounded(
    env: Env, frames: seq<Binding>, locals: seq<seq<string>>, active: seq<FunctionKey>, e: Expr, depth: nat)
    requires var o := Analyze(env, frames, locals, active, e, depth); !o.tooDeep && !o.Cut()
    ensures var o := Analyze(env, frames, locals, active, e, depth);
      Size(o.expr) <= o.nodes && depth + Height(o.expr) <= env.cap
    decreases Rank(env.cap, depth), |frames|, 2
  {
    hide Build, Tree, Size, Height, SizeAll, HeightAll, AnalyzeAll, AnalyzeFunction;
    if e.Ident? && InlineBinding(frames, e.name).Some? {
      TreeBounded(env, frames[..|frames| - 1], locals, active, InlineBinding(frames, e.name).value, depth);
    } else if Callee(env, active, e).Some? {
      FunctionTreeBounded(env, frames, locals, active, Callee(env, active, e).value, e, depth);
    } else {
      var kids := AnalyzeAll(env, frames, locals, active, Children(e), depth + 1);
      BuildParts(env, locals, e, kids);
      TreeSize(env, e, kids.exprs);
      TreesBounded(env, frames, locals, active, Children(e), depth + 1);
    }
  }

  lemma {:induction false} FunctionTreeBounded(
    env: Env, frames: seq<Binding>, locals: seq<seq<string>>, active: seq<FunctionKey>, f: Function, e: Expr, depth: nat)
    requires depth <= env.cap && e.Call?
    requires var o := AnalyzeFunction(env, frames, locals, active, f, e, depth); !o.tooDeep && !o.Cut()
    ensures var o := AnalyzeFunction(env, frames, locals, active, f, e, depth);
      Size(o.expr) <= o.nodes && depth + Height(o.expr) <= env.cap
    decreases Rank(env.cap, depth), |frames|, 1
  {
    hide Analyze, AnalyzeAll, SizeAll, HeightAll;
    if env.mode == Inline {
      TreeBounded(env, frames + [Binding(f.params, e.args)], locals, active + [KeyOf(f)], f.body, depth + 1);
    } else {
      TreesBounded(env, frames, locals, active, e.args, depth + 1);
      TreeBounded(env, frames, locals + [f.params], active + [KeyOf(f)], f.body, depth + 1);
    }
  }

  lemma {:induction false} TreesBounded(
    env: Env, frames: seq<Binding>, locals: seq<seq<string>>, active: seq<FunctionKey>, es: seq<Expr>, depth: nat)
    requires var o := AnalyzeAll(env, frames, locals, active, es, depth); !o.tooDeep && !o.Cut()
    ensures var o := AnalyzeAll(env, frames, locals, active, es, depth);
      SizeAll(o.exprs) <= o.nodes && (HeightAll(o.exprs) == 0 || depth + HeightAll(o.exprs) <= env.cap + 1)
    decreases Rank(env.cap, depth), |frames|, |es| + 3
  {
    hide Analyze, Size, Height;
    if es != [] {
      TreeBounded(env, frames, locals, active, es[0], depth);
      TreesBounded(env, frames, locals, active, es[1..], depth);
      var o := AnalyzeAll(env, frames, locals, active, es, depth);
      assert o.exprs[1..] == AnalyzeAll(env, frames, locals, active, es[1..], depth).exprs;
    }
  }
}
