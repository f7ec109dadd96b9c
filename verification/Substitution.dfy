/** Inline lowering is textual substitution: lowering an expression under borrowed frames is lowering the
    expression with the parameters replaced by their arguments, down to every charge and report. */
module Substitution {
  import opened Tokens
  import opened Syntax
  import opened Program
  import opened LowerSpec

  /** `e` with each parameter's name replaced by its argument. */
  function Substituted(e: Expr, params: seq<string>, args: seq<Expr>): Expr
    decreases e, 1
  {
    match e
    case Ident(name) => (match BoundArg(params, args, name) case Some(arg) => arg case None => e)
    case Array(items) => Array(SubstitutedAll(items, params, args))
    case Member(receiver, name) => Member(Substituted(receiver, params, args), name)
    case Call(name, list) => Call(name, SubstitutedAll(list, params, args))
    case Method(receiver, name, list) =>
      Method(Substituted(receiver, params, args), name, SubstitutedAll(list, params, args))
    case Unary(uop, operand) => Unary(uop, Substituted(operand, params, args))
    case Binary(left, op, right) => Binary(Substituted(left, params, args), op, Substituted(right, params, args))
    case _ => e
  }

  function SubstitutedAll(es: seq<Expr>, params: seq<string>, args: seq<Expr>): (r: seq<Expr>)
    ensures |r| == |es|
    decreases es, 0
  {
    if es == [] then [] else [Substituted(es[0], params, args)] + SubstitutedAll(es[1..], params, args)
  }

  /** `e` with every borrowed frame resolved: names of the innermost frame stand for its arguments, which
      are read in the frames outside it. */
  function Closed(frames: seq<Binding>, e: Expr): Expr
    decreases |frames|, 1
  {
    if frames == [] then e
    else
      var last := frames[|frames| - 1];
      Substituted(e, last.params, ClosedAll(frames[..|frames| - 1], last.args))
  }

  function ClosedAll(frames: seq<Binding>, es: seq<Expr>): (r: seq<Expr>)
    ensures |r| == |es|
    decreases |frames|, 2, |es|
  {
    if es == [] then [] else [Closed(frames, es[0])] + ClosedAll(frames, es[1..])
  }

  lemma {:induction false} ClosedAllIs(frames: seq<Binding>, es: seq<Expr>)
    ensures frames == [] ==> ClosedAll(frames, es) == es
    ensures frames != [] ==>
      var last := frames[|frames| - 1];
      ClosedAll(frames, es) == SubstitutedAll(es, last.params, ClosedAll(frames[..|frames| - 1], last.args))
    decreases |es|
  {
    hide Substituted;
    if es != [] { ClosedAllIs(frames, es[1..]); }
  }

  lemma {:induction false} BoundClosed(outer: seq<Binding>, params: seq<string>, args: seq<Expr>, name: string)
    ensures BoundArg(params, ClosedAll(outer, args), name)
         == match BoundArg(params, args, name) case Some(a) => Some(Closed(outer, a)) case None => None
    decreases |params|
  {
    hide Closed;
    if params != [] && args != [] {
      BoundClosed(outer, params[1..], args[1..], name);
      assert ClosedAll(outer, args)[1..] == ClosedAll(outer, args[1..]);
    }
  }

  lemma ClosedIdent(frames: seq<Binding>, e: Expr)
    requires e.Ident?
    ensures Closed(frames, e)
         == match InlineBinding(frames, e.name)
            case Some(a) => Closed(frames[..|frames| - 1], a)
            case None => e
  {
    hide ClosedAll;
    if frames != [] {
      var last := frames[|frames| - 1];
      BoundClosed(frames[..|frames| - 1], last.params, last.args, e.name);
    }
  }

  lemma {:induction false} SubstitutedAllAppend(a: seq<Expr>, b: seq<Expr>, params: seq<string>, args: seq<Expr>)
    ensures SubstitutedAll(a + b, params, args) == SubstitutedAll(a, params, args) + SubstitutedAll(b, params, args)
    decreases |a|
  {
    hide Substituted;
    if a == [] {
      assert a + b == b;
    } else {
      assert (a + b)[1..] == a[1..] + b;
      SubstitutedAllAppend(a[1..], b, params, args);
    }
  }

  /** Everything but a name keeps its form. */
  lemma SubstitutedForm(e: Expr, params: seq<string>, args: seq<Expr>)
    requires !e.Ident?
    ensures var r := Substituted(e, params, args);
      && Children(r) == SubstitutedAll(Children(e), params, args)
      && OwnText(r) == OwnText(e) && !r.Ident? && (r.Call? <==> e.Call?)
      && (e.Call? ==> r.name == e.name && r.args == SubstitutedAll(e.args, params, args))
  {
    match e
    case Member(receiver, _) => OneSubstituted(receiver, params, args);
    case Method(receiver, _, list) =>
      OneSubstituted(receiver, params, args);
      SubstitutedAllAppend([receiver], list, params, args);
    case Unary(_, operand) => OneSubstituted(operand, params, args);
    case Binary(left, _, right) =>
      OneSubstituted(left, params, args);
      OneSubstituted(right, params, args);
      SubstitutedAllAppend([left], [right], params, args);
    case _ =>
  }

  lemma OneSubstituted(x: Expr, params: seq<string>, args: seq<Expr>)
    ensures SubstitutedAll([x], params, args) == [Substituted(x, params, args)]
  {
    assert [x][1..] == [];
  }

  lemma ClosedForm(frames: seq<Binding>, e: Expr)
    requires !e.Ident?
    ensures var r := Closed(frames, e);
      && Children(r) == ClosedAll(frames, Children(e)) && OwnText(r) == OwnText(e) && !r.Ident?
      && (r.Call? <==> e.Call?) && (e.Call? ==> r.name == e.name && r.args == ClosedAll(frames, e.args))
  {
    hide ClosedAll, Substituted, SubstitutedAll, Children, OwnText;
    ClosedAllIs(frames, Children(e));
    if e.Call? { ClosedAllIs(frames, e.args); }
    if frames != [] {
      var last := frames[|frames| - 1];
      SubstitutedForm(e, last.params, ClosedAll(frames[..|frames| - 1], last.args));
    }
  }

  /** The node itself reads nothing of its children but how many there are. */
  lemma BuildClosed(env: Env, locals: seq<seq<string>>, frames: seq<Binding>, e: Expr, kids: Outs)
    requires !e.Ident? && |kids.exprs| == |Children(e)|
    ensures |kids.exprs| == |Children(Closed(frames, e))| && Build(env, locals, Closed(frames, e), kids) == Build(env, locals, e, kids)
  {
    ClosedForm(frames, e);
    hide ClosedAll, SubstitutedAll;
    if frames != [] {
      var last := frames[|frames| - 1];
      assert Closed(frames, e) == Substituted(e, last.params, ClosedAll(frames[..|frames| - 1], last.args));
    }
  }

  /** The substitution theorem. */
  lemma {:induction false} LoweringSubstitutes(
    env: Env, frames: seq<Binding>, locals: seq<seq<string>>, active: seq<FunctionKey>, e: Expr, depth: nat)
    requires env.mode == CallFrame ==> frames == []
    ensures Analyze(env, frames, locals, active, e, depth) == Analyze(env, [], locals, active, Closed(frames, e), depth)
    decreases Rank(env.cap, depth), |frames|, 2
  {
    hide Build, AnalyzeAll, AnalyzeFunction, Closed, ClosedAll, Children, OwnText;
    if depth <= env.cap && frames != [] {
      if e.Ident? {
        ClosedIdent(frames, e);
        if InlineBinding(frames, e.name).Some? {
          LoweringSubstitutes(env, frames[..|frames| - 1], locals, active, InlineBinding(frames, e.name).value, depth);
        } else {
          UnboundSame(env, frames, locals, active, e, depth);
        }
      } else {
        ClosedForm(frames, e);
        var r := Closed(frames, e);
        assert Callee(env, active, r) == Callee(env, active, e);
        if Callee(env, active, e).Some? {
          CallSubstitutes(env, frames, locals, active, Callee(env, active, e).value, e, depth);
        } else {
          AllSubstitute(env, frames, locals, active, Children(e), depth + 1);
          BuildClosed(env, locals, frames, e, AnalyzeAll(env, frames, locals, active, Children(e), depth + 1));
        }
      }
    } else {
      NothingToClose(frames, e);
    }
  }

  lemma NothingToClose(frames: seq<Binding>, e: Expr)
    ensures frames == [] ==> Closed(frames, e) == e
  {
  }

  /** A name that no frame binds. */
  lemma UnboundSame(
    env: Env, frames: seq<Binding>, locals: seq<seq<string>>, active: seq<FunctionKey>, e: Expr, depth: nat)
    requires depth <= env.cap && e.Ident? && InlineBinding(frames, e.name) == None
    ensures Analyze(env, frames, locals, active, e, depth) == Analyze(env, [], locals, active, e, depth)
  {
    assert Children(e) == [] && Callee(env, active, e) == None && InlineBinding([], e.name) == None;
  }

  lemma {:induction false} CallSubstitutes(
    env: Env, frames: seq<Binding>, locals: seq<seq<string>>, active: seq<FunctionKey>, f: Function, e: Expr, depth: nat)
    requires env.mode == Inline && depth <= env.cap && e.Call?
    ensures Closed(frames, e).Call?
    ensures AnalyzeFunction(env, frames, locals, active, f, e, depth)
         == AnalyzeFunction(env, [], locals, active, f, Closed(frames, e), depth)
    decreases Rank(env.cap, depth), |frames|, 1
  {
    hide Analyze, AnalyzeAll, Children, OwnText, ClosedAll;
    ClosedForm(frames, e);
    var args := ClosedAll(frames, e.args);
    if |f.params| == |e.args| && KeyOf(f) !in active {
      var here, there := Binding(f.params, e.args), Binding(f.params, args);
      LoweringSubstitutes(env, frames + [here], locals, active + [KeyOf(f)], f.body, depth + 1);
      LoweringSubstitutes(env, [there], locals, active + [KeyOf(f)], f.body, depth + 1);
      assert (frames + [here])[..|frames|] == frames && [there][..0] == [];
      ClosedAllIs([], args);
      assert [] + [there] == [there];
    }
  }

  lemma {:induction false} AllSubstitute(
    env: Env, frames: seq<Binding>, locals: seq<seq<string>>, active: seq<FunctionKey>, es: seq<Expr>, depth: nat)
    requires env.mode == CallFrame ==> frames == []
    ensures AnalyzeAll(env, frames, locals, active, es, depth)
         == AnalyzeAll(env, [], locals, active, ClosedAll(frames, es), depth)
    decreases Rank(env.cap, depth), |frames|, |es| + 3
  {
    hide Analyze, Closed;
    if es != [] {
      LoweringSubstitutes(env, frames, locals, active, es[0], depth);
      AllSubstitute(env, frames, locals, active, es[1..], depth);
      assert ClosedAll(frames, es)[1..] == ClosedAll(frames, es[1..]);
    }
  }

  /** For one call: the body with the parameters replaced. */
  lemma CallIsSubstitution(
    env: Env, locals: seq<seq<string>>, active: seq<FunctionKey>, f: Function, args: seq<Expr>, depth: nat)
    requires env.mode == Inline
    ensures Analyze(env, [Binding(f.params, args)], locals, active, f.body, depth)
         == Analyze(env, [], locals, active, Substituted(f.body, f.params, args), depth)
  {
    hide Analyze, Substituted;
    LoweringSubstitutes(env, [Binding(f.params, args)], locals, active, f.body, depth);
    assert [Binding(f.params, args)][..0] == [];
    ClosedAllIs([], args);
  }
}
