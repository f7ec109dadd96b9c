/** The mode-agreement theorem, by induction on the call-frame tree: the values in the call frames are
    the meanings of the argument expressions the inline mode substitutes. */
module ModeAgreement {
  import opened Tokens
  import opened Syntax
  import opened Program
  import opened LowerSpec
  import opened Meaning
  import opened Modes
  import opened LowerFacts
  import E = EvalSpec
  import VG = ValueGraph
  import R = Resources

  // ----- names -----

  /** Identifiers that occur in an expression. */
  function Names(e: Expr): set<string>
    decreases Nodes(e), 1
  {
    (if e.Ident? then {e.name} else {}) + NamesAll(Children(e))
  }

  function NamesAll(es: seq<Expr>): set<string>
    decreases NodesAll(es), 2 + |es|
  {
    if es == [] then {} else Names(es[0]) + NamesAll(es[1..])
  }

  lemma {:induction false} NamesAllAt(es: seq<Expr>, i: nat)
    requires i < |es|
    ensures Names(es[i]) <= NamesAll(es)
    decreases i
  {
    if i > 0 { NamesAllAt(es[1..], i - 1); }
  }

  predicate Distinct(params: seq<string>) {
    params == [] || (params[0] !in params[1..] && Distinct(params[1..]))
  }

  predicate IsFunction(env: Env, f: Function) {
    FunctionForScope(env.schema, f.name, env.scope) == Some(f)
  }

  /** No body mentions a parameter of another function as a name of its own, and no function has two
      parameters of the same name. */
  ghost predicate Hygienic(env: Env) {
    && (forall f, g, x :: IsFunction(env, f) && IsFunction(env, g) && x in Names(f.body) && x in g.params ==> x in f.params)
    && (forall f :: IsFunction(env, f) ==> Distinct(f.params))
  }

  /** What the induction needs of the frames around `e`: each comes from some function, and a name of
      `e` that is any frame's parameter is one of the innermost frame's. */
  ghost predicate WellScoped(env: Env, frames: seq<Binding>, e: Expr) {
    forall x, j :: x in Names(e) && 0 <= j < |frames| && x in frames[j].params ==> x in frames[|frames| - 1].params
  }

  ghost predicate FromSchema(env: Env, frames: seq<Binding>) {
    forall j :: 0 <= j < |frames| ==> exists f :: IsFunction(env, f) && f.params == frames[j].params
  }

  // ----- frames that agree -----

  /** Where the argument expression can be substituted at depth `d`, it means `value`. */
  ghost predicate ArgumentMeans(
    rt: E.Runtime, b: E.Budget, env: Env, outer: seq<Binding>, arg: Expr, d: nat, value: VG.Value)
  {
    InlineTree(env, outer, arg, d).Some? ==> Means(rt, b, InlineTree(env, outer, arg, d).value, []) == Some(value)
  }

  // ----- calls whose arguments all have meanings -----

  /** Evaluating `v` meets only calls all of whose arguments have a meaning, used or not. */
  ghost predicate ArgsDefined(rt: E.Runtime, b: E.Budget, v: Verified, locals: seq<map<string, VG.Value>>)
    decreases Size(v), 1
  {
    if E.PreCheck(b, v).Some? then true
    else if E.IsLogic(v) then LogicArgsDefined(rt, b, v, locals)
    else if v.VFunction? then FrameArgsDefined(rt, b, v, locals)
    else ArgsDefinedAll(rt, b, E.Kids(v), locals)
  }

  ghost predicate LogicArgsDefined(rt: E.Runtime, b: E.Budget, v: Verified, locals: seq<map<string, VG.Value>>)
    requires E.IsLogic(v)
    decreases Size(v), 0
  {
    var left := Means(rt, b, v.left, locals);
    && ArgsDefined(rt, b, v.left, locals)
    && (left.Some? && E.IsBool(left.value) && left.value.leaf.flag != (v.op == Or) ==>
          ArgsDefined(rt, b, v.right, locals))
  }

  ghost predicate FrameArgsDefined(rt: E.Runtime, b: E.Budget, v: Verified, locals: seq<map<string, VG.Value>>)
    requires v.VFunction?
    decreases Size(v), 0
  {
    var values := MeansAll(rt, b, v.args, locals);
    values.Some? && ArgsDefined(rt, b, v.body, locals + [E.Frame(v.params, values.value)])
  }

  /** Operands up to the first that has no meaning. */
  ghost predicate ArgsDefinedAll(rt: E.Runtime, b: E.Budget, vs: seq<Verified>, locals: seq<map<string, VG.Value>>)
    decreases SizeAll(vs), 2 + |vs|
  {
    vs == [] ||
    (&& ArgsDefined(rt, b, vs[0], locals)
     && (Means(rt, b, vs[0], locals).Some? ==> ArgsDefinedAll(rt, b, vs[1..], locals)))
  }

  /** Whatever has a meaning met only such calls. */
  lemma {:induction false} MeantArgsDefined(rt: E.Runtime, b: E.Budget, v: Verified, locals: seq<map<string, VG.Value>>)
    requires Means(rt, b, v, locals).Some?
    ensures ArgsDefined(rt, b, v, locals)
    decreases Size(v), 1
  {
    hide LogicArgsDefined, FrameArgsDefined, ArgsDefinedAll, MeansAll, LogicMeans, FrameMeans, E.Kids, E.Combine;
    if E.IsLogic(v) {
      LogicMeantArgs(rt, b, v, locals);
    } else if v.VFunction? {
      FrameMeantArgs(rt, b, v, locals);
    } else {
      AllMeantArgs(rt, b, E.Kids(v), locals);
    }
  }

  lemma {:induction false} LogicMeantArgs(rt: E.Runtime, b: E.Budget, v: Verified, locals: seq<map<string, VG.Value>>)
    requires E.IsLogic(v) && LogicMeans(rt, b, v, locals).Some?
    ensures LogicArgsDefined(rt, b, v, locals)
    decreases Size(v), 0
  {
    hide ArgsDefined, Means, E.Admits;
    MeantArgsDefined(rt, b, v.left, locals);
    if Means(rt, b, v.right, locals).Some? { MeantArgsDefined(rt, b, v.right, locals); }
  }

  lemma {:induction false} FrameMeantArgs(rt: E.Runtime, b: E.Budget, v: Verified, locals: seq<map<string, VG.Value>>)
    requires v.VFunction? && FrameMeans(rt, b, v, locals).Some?
    ensures FrameArgsDefined(rt, b, v, locals)
    decreases Size(v), 0
  {
    hide ArgsDefined, Means, MeansAll, E.Frame;
    MeantArgsDefined(rt, b, v.body, locals + [E.Frame(v.params, MeansAll(rt, b, v.args, locals).value)]);
  }

  lemma {:induction false} AllMeantArgs(rt: E.Runtime, b: E.Budget, vs: seq<Verified>, locals: seq<map<string, VG.Value>>)
    requires MeansAll(rt, b, vs, locals).Some?
    ensures ArgsDefinedAll(rt, b, vs, locals)
    decreases SizeAll(vs), 2 + |vs|
  {
    hide ArgsDefined, Means;
    if vs != [] {
      MeantArgsDefined(rt, b, vs[0], locals);
      AllMeantArgs(rt, b, vs[1..], locals);
    }
  }

  /** A meaning is always an admitted value. */
  lemma {:induction false} MeaningAdmitted(rt: E.Runtime, b: E.Budget, v: Verified, locals: seq<map<string, VG.Value>>)
    requires Means(rt, b, v, locals).Some?
    ensures E.Admits(rt, b, Means(rt, b, v, locals).value)
    decreases Size(v)
  {
    hide E.Admits, MeansAll, E.Frame, E.Kids, E.Combine, E.PreCheck;
    if v.VFunction? {
      MeaningAdmitted(rt, b, v.body, locals + [E.Frame(v.params, MeansAll(rt, b, v.args, locals).value)]);
    }
  }

  // ----- frames that correspond -----

  /** Every parameter holds the meaning of its argument, wherever that argument is substituted. */
  ghost predicate FrameAgrees(
    rt: E.Runtime, b: E.Budget, env: Env, outer: seq<Binding>, binding: Binding, frame: map<string, VG.Value>)
  {
    && |binding.params| == |binding.args|
    && frame.Keys == (set x | x in binding.params)
    && (forall x | x in frame :: E.Admits(rt, b, frame[x]))
    && forall x, d | x in frame && BoundArg(binding.params, binding.args, x).Some? ::
         ArgumentMeans(rt, b, env, outer, BoundArg(binding.params, binding.args, x).value, d, frame[x])
  }

  ghost predicate FramesAgree(
    rt: E.Runtime, b: E.Budget, env: Env, frames: seq<Binding>, locals: seq<map<string, VG.Value>>)
  {
    && |frames| == |locals|
    && (frames == [] ||
        (&& FrameAgrees(rt, b, env, frames[..|frames| - 1], frames[|frames| - 1], locals[|locals| - 1])
         && FramesAgree(rt, b, env, frames[..|frames| - 1], locals[..|locals| - 1])))
  }

  lemma BoundIffParam(params: seq<string>, args: seq<Expr>, x: string)
    requires |params| == |args|
    ensures BoundArg(params, args, x).Some? <==> x in params
  {
    if params != [] {
      BoundIffParam(params[1..], args[1..], x);
    }
  }

  /** A name no frame binds is a context variable. */
  lemma {:induction false} NotLocal(
    rt: E.Runtime, b: E.Budget, env: Env, frames: seq<Binding>, locals: seq<map<string, VG.Value>>, x: string)
    requires FramesAgree(rt, b, env, frames, locals)
    requires forall j :: 0 <= j < |frames| ==> x !in frames[j].params
    ensures E.LocalValue(locals, x) == None
    decreases |frames|
  {
    if frames != [] {
      assert x !in frames[|frames| - 1].params;
      NotLocal(rt, b, env, frames[..|frames| - 1], locals[..|locals| - 1], x);
    }
  }

  // ----- trees of other nodes -----

  lemma KidsOfTree(env: Env, e: Expr, vs: seq<Verified>)
    requires |vs| == |Children(e)|
    ensures E.Kids(Tree(env, e, vs)) == vs && !Tree(env, e, vs).VFunction?
    ensures E.IsLogic(Tree(env, e, vs)) <==> e.Binary? && (e.op == And || e.op == Or)
  {
    if e.Method? { assert [vs[0]] + vs[1..] == vs; }
  }

  /** Two trees of one expression make the same of the same values; only a name can tell frames apart. */
  lemma SameNode(
    rt: E.Runtime, b: E.Budget, env: Env, e: Expr, cs: seq<Verified>, ts: seq<Verified>,
    locals: seq<map<string, VG.Value>>, values: seq<VG.Value>)
    requires |cs| == |ts| == |values| == |Children(e)| && !e.Ident?
    requires E.Kids(Tree(env, e, cs)) == cs && E.Kids(Tree(env, e, ts)) == ts
    requires !Tree(env, e, cs).VFunction? && !Tree(env, e, ts).VFunction?
    ensures E.Combine(rt, Tree(env, e, cs), locals, values) == E.Combine(rt, Tree(env, e, ts), [], values)
  {
  }

  lemma SamePreCheck(b: E.Budget, env: Env, e: Expr, cs: seq<Verified>, ts: seq<Verified>)
    requires |cs| == |ts| == |Children(e)|
    ensures E.PreCheck(b, Tree(env, e, cs)) == E.PreCheck(b, Tree(env, e, ts))
  {
  }

  // ----- the induction -----

  ghost predicate Related(
    rt: E.Runtime, b: E.Budget, env: Env, frames: seq<Binding>, locals: seq<map<string, VG.Value>>)
  {
    && Hygienic(env) && SchemaIntegrity(env.schema)
    && FromSchema(env, frames) && FramesAgree(rt, b, env, frames, locals)
  }

  lemma FrameTreeCases(env: Env, e: Expr, depth: nat, c: Verified)
    requires FrameTree(env, e, depth) == Some(c)
    ensures e.Ident? ==> Resolve(env, e).None? && c == VIdent(e.name)
    ensures Resolve(env, e).None? ==>
      FrameTrees(env, Children(e), depth + 1).Some? && c == Tree(env, e, FrameTrees(env, Children(e), depth + 1).value)
    ensures Resolve(env, e).Some? ==>
      var f := Resolve(env, e).value;
      && e.Call? && |f.params| == |e.args|
      && FrameTrees(env, e.args, depth + 1).Some? && FrameTree(env, f.body, depth + 1).Some?
      && c == VFunction(f.name, f.params, FrameTrees(env, e.args, depth + 1).value, FrameTree(env, f.body, depth + 1).value)
  {
    hide FrameTrees;
  }

  lemma InlineTreeCases(env: Env, frames: seq<Binding>, e: Expr, depth: nat, t: Verified)
    requires InlineTree(env, frames, e, depth) == Some(t)
    ensures e.Ident? && InlineBinding(frames, e.name).Some? ==>
      frames != [] && InlineTree(env, frames[..|frames| - 1], InlineBinding(frames, e.name).value, depth) == Some(t)
    ensures e.Ident? && InlineBinding(frames, e.name).None? ==> t == VIdent(e.name)
    ensures !e.Ident? && Resolve(env, e).None? ==>
      && InlineTrees(env, frames, Children(e), depth + 1).Some?
      && t == Tree(env, e, InlineTrees(env, frames, Children(e), depth + 1).value)
    ensures Resolve(env, e).Some? ==>
      var f := Resolve(env, e).value;
      e.Call? && InlineTree(env, frames + [Binding(f.params, e.args)], f.body, depth + 1) == Some(t)
  {
    hide InlineTrees;
  }

  /** A node whose operands are all evaluated first. */
  lemma MeansParts(rt: E.Runtime, b: E.Budget, v: Verified, locals: seq<map<string, VG.Value>>)
    requires !E.IsLogic(v) && !v.VFunction?
    ensures Means(rt, b, v, locals).Some? ==>
      E.PreCheck(b, v).None? && MeansAll(rt, b, E.Kids(v), locals).Some?
    ensures ArgsDefined(rt, b, v, locals) && E.PreCheck(b, v).None? ==> ArgsDefinedAll(rt, b, E.Kids(v), locals)
    ensures E.PreCheck(b, v).None? && MeansAll(rt, b, E.Kids(v), locals).Some? ==>
      Means(rt, b, v, locals)
        == ConcludeMeaning(rt, b, E.Combine(rt, v, locals, MeansAll(rt, b, E.Kids(v), locals).value))
  {
    hide MeansAll, ArgsDefinedAll;
  }

  lemma ChildrenScoped(env: Env, frames: seq<Binding>, e: Expr)
    requires WellScoped(env, frames, e)
    ensures forall i :: 0 <= i < |Children(e)| ==> WellScoped(env, frames, Children(e)[i])
  {
    assert NamesAll(Children(e)) <= Names(e);
    forall i | 0 <= i < |Children(e)| ensures WellScoped(env, frames, Children(e)[i]) {
      NamesAllAt(Children(e), i);
    }
  }

  lemma {:induction false} Agree(
    rt: E.Runtime, b: E.Budget, env: Env, e: Expr, frames: seq<Binding>, dc: nat, di: nat,
    locals: seq<map<string, VG.Value>>, c: Verified, t: Verified)
    requires Related(rt, b, env, frames, locals) && WellScoped(env, frames, e)
    requires FrameTree(env, e, dc) == Some(c) && InlineTree(env, frames, e, di) == Some(t)
    requires ArgsDefined(rt, b, c, locals)
    ensures Means(rt, b, t, []) == Means(rt, b, c, locals)
    decreases Size(c), 1
  {
    hide *;
    FrameTreeCases(env, e, dc, c);
    InlineTreeCases(env, frames, e, di, t);
    if e.Ident? {
      AgreeIdent(rt, b, env, e, frames, di, locals, c, t);
    } else if Resolve(env, e).None? {
      var cs, ts := FrameTrees(env, Children(e), dc + 1).value, InlineTrees(env, frames, Children(e), di + 1).value;
      ChildrenScoped(env, frames, e);
      TreeSize(env, e, cs);
      if e.Binary? && (e.op == And || e.op == Or) {
        AgreeLogic(rt, b, env, e, frames, dc + 1, di + 1, locals, cs, ts);
      } else {
        KidsOfTree(env, e, cs);
        KidsOfTree(env, e, ts);
        MeansParts(rt, b, c, locals);
        SamePreCheck(b, env, e, cs, ts);
        MeansParts(rt, b, t, []);
        if E.PreCheck(b, c).None? {
          AgreeAll(rt, b, env, Children(e), frames, dc + 1, di + 1, locals, cs, ts);
          if MeansAll(rt, b, cs, locals).Some? {
            SameNode(rt, b, env, e, cs, ts, locals, MeansAll(rt, b, cs, locals).value);
          }
        }
      }
    } else {
      AgreeFunction(rt, b, env, e, Resolve(env, e).value, frames, dc, di, locals, c, t);
    }
  }

  lemma {:induction false} AgreeAll(
    rt: E.Runtime, b: E.Budget, env: Env, es: seq<Expr>, frames: seq<Binding>, dc: nat, di: nat,
    locals: seq<map<string, VG.Value>>, cs: seq<Verified>, ts: seq<Verified>)
    requires Related(rt, b, env, frames, locals)
    requires forall i :: 0 <= i < |es| ==> WellScoped(env, frames, es[i])
    requires FrameTrees(env, es, dc) == Some(cs) && InlineTrees(env, frames, es, di) == Some(ts)
    requires ArgsDefinedAll(rt, b, cs, locals)
    ensures MeansAll(rt, b, ts, []) == MeansAll(rt, b, cs, locals)
    decreases SizeAll(cs), 2 + |es|
  {
    hide Related, WellScoped, FrameTree, InlineTree, Means, Size, ArgsDefined;
    if es != [] {
      var c, t := FrameTree(env, es[0], dc).value, InlineTree(env, frames, es[0], di).value;
      var crest, trest := FrameTrees(env, es[1..], dc).value, InlineTrees(env, frames, es[1..], di).value;
      assert cs == [c] + crest && ts == [t] + trest;
      assert cs[1..] == crest && ts[1..] == trest;
      Agree(rt, b, env, es[0], frames, dc, di, locals, c, t);
      if Means(rt, b, c, locals).Some? { AgreeAll(rt, b, env, es[1..], frames, dc, di, locals, crest, trest); }
    }
  }

  /** A name: bound by the innermost frame, or a context variable in both modes. */
  lemma AgreeIdent(
    rt: E.Runtime, b: E.Budget, env: Env, e: Expr, frames: seq<Binding>, di: nat,
    locals: seq<map<string, VG.Value>>, c: Verified, t: Verified)
    requires e.Ident? && c == VIdent(e.name)
    requires Related(rt, b, env, frames, locals) && WellScoped(env, frames, e)
    requires InlineTree(env, frames, e, di) == Some(t)
    requires ArgsDefined(rt, b, c, locals)
    ensures Means(rt, b, t, []) == Means(rt, b, c, locals)
  {
    hide InlineTree, Hygienic, FromSchema, FramesAgree, WellScoped, E.Admits;
    InlineTreeCases(env, frames, e, di, t);
    IdentMeans(rt, b, e.name, locals);
    if frames != [] && InlineBinding(frames, e.name).Some? {
      InnermostFrame(rt, b, env, frames, locals, e.name, di);
    } else {
      if frames != [] { InnermostLengths(rt, b, env, frames, locals); }
      NameFree(env, frames, e);
      NotLocal(rt, b, env, frames, locals, e.name);
      IdentMeans(rt, b, e.name, []);
    }
  }

  /** A name means the value it is looked up to, if that value is admitted. */
  lemma IdentMeans(rt: E.Runtime, b: E.Budget, name: string, locals: seq<map<string, VG.Value>>)
    ensures var found := E.Lookup(rt, locals, name);
      Means(rt, b, VIdent(name), locals) == if found.Some? && E.Admits(rt, b, found.value) then found else None
  {
    hide E.Admits;
    assert E.Kids(VIdent(name)) == [];
  }

  lemma NameFree(env: Env, frames: seq<Binding>, e: Expr)
    requires e.Ident? && WellScoped(env, frames, e) && InlineBinding(frames, e.name).None?
    requires frames != [] ==> |frames[|frames| - 1].params| == |frames[|frames| - 1].args|
    ensures forall j :: 0 <= j < |frames| ==> e.name !in frames[j].params
  {
    assert e.name in Names(e);
    if frames != [] {
      var last := frames[|frames| - 1];
      BoundIffParam(last.params, last.args, e.name);
    }
  }

  lemma InnermostLengths(
    rt: E.Runtime, b: E.Budget, env: Env, frames: seq<Binding>, locals: seq<map<string, VG.Value>>)
    requires FramesAgree(rt, b, env, frames, locals) && frames != []
    ensures |frames[|frames| - 1].params| == |frames[|frames| - 1].args|
  {
  }

  /** A name the innermost frame binds holds the meaning of its argument. */
  lemma InnermostFrame(
    rt: E.Runtime, b: E.Budget, env: Env, frames: seq<Binding>, locals: seq<map<string, VG.Value>>, name: string, d: nat)
    requires FramesAgree(rt, b, env, frames, locals) && frames != [] && InlineBinding(frames, name).Some?
    requires InlineTree(env, frames[..|frames| - 1], InlineBinding(frames, name).value, d).Some?
    ensures E.Lookup(rt, locals, name).Some? && E.Admits(rt, b, E.Lookup(rt, locals, name).value)
    ensures Means(rt, b, InlineTree(env, frames[..|frames| - 1], InlineBinding(frames, name).value, d).value, [])
         == E.Lookup(rt, locals, name)
  {
    hide InlineTree, Means, E.Admits;
    var last, outer := frames[|frames| - 1], frames[..|frames| - 1];
    BoundIffParam(last.params, last.args, name);
    assert name in locals[|locals| - 1];
    assert ArgumentMeans(rt, b, env, outer, BoundArg(last.params, last.args, name).value, d, locals[|locals| - 1][name]);
  }

  /** A short-circuit operator looks at its right operand in both modes or in neither. */
  lemma {:induction false} AgreeLogic(
    rt: E.Runtime, b: E.Budget, env: Env, e: Expr, frames: seq<Binding>, dc: nat, di: nat,
    locals: seq<map<string, VG.Value>>, cs: seq<Verified>, ts: seq<Verified>)
    requires e.Binary? && (e.op == And || e.op == Or)
    requires Related(rt, b, env, frames, locals)
    requires forall i :: 0 <= i < |Children(e)| ==> WellScoped(env, frames, Children(e)[i])
    requires FrameTrees(env, Children(e), dc) == Some(cs) && InlineTrees(env, frames, Children(e), di) == Some(ts)
    requires ArgsDefined(rt, b, Tree(env, e, cs), locals)
    ensures Means(rt, b, Tree(env, e, ts), []) == Means(rt, b, Tree(env, e, cs), locals)
    decreases Size(Tree(env, e, cs)), 0
  {
    hide Related, WellScoped, FrameTree, InlineTree, Size, Means, Tree, ArgsDefined;
    TreeSize(env, e, cs);
    PairTrees(env, e.left, e.right, frames, dc, di, cs, ts);
    LogicParts(rt, b, env, e, cs, locals);
    LogicParts(rt, b, env, e, ts, []);
    SamePreCheck(b, env, e, cs, ts);
    if E.PreCheck(b, Tree(env, e, cs)).None? {
      Agree(rt, b, env, e.left, frames, dc, di, locals, cs[0], ts[0]);
      var left := Means(rt, b, cs[0], locals);
      if left.Some? && E.IsBool(left.value) && left.value.leaf.flag != (e.op == Or) {
        Agree(rt, b, env, e.right, frames, dc, di, locals, cs[1], ts[1]);
      }
    }
  }

  lemma PairTrees(
    env: Env, left: Expr, right: Expr, frames: seq<Binding>, dc: nat, di: nat, cs: seq<Verified>, ts: seq<Verified>)
    requires FrameTrees(env, [left] + [right], dc) == Some(cs)
    requires InlineTrees(env, frames, [left] + [right], di) == Some(ts)
    ensures |cs| == 2 && FrameTree(env, left, dc) == Some(cs[0]) && FrameTree(env, right, dc) == Some(cs[1])
    ensures |ts| == 2 && InlineTree(env, frames, left, di) == Some(ts[0]) && InlineTree(env, frames, right, di) == Some(ts[1])
    ensures SizeAll(cs) == Size(cs[0]) + Size(cs[1])
  {
    hide FrameTree, InlineTree;
    assert ([left] + [right])[1..] == [right] && [right][1..] == [];
    assert cs[1..][1..] == [] && cs[1..][0] == cs[1];
    assert SizeAll(cs[1..]) == Size(cs[1]) + SizeAll(cs[1..][1..]);
  }

  lemma LogicParts(
    rt: E.Runtime, b: E.Budget, env: Env, e: Expr, vs: seq<Verified>, locals: seq<map<string, VG.Value>>)
    requires e.Binary? && (e.op == And || e.op == Or) && |vs| == 2
    ensures var v, left := Tree(env, e, vs), Means(rt, b, vs[0], locals);
      && (E.PreCheck(b, v).Some? ==> Means(rt, b, v, locals) == None)
      && (E.PreCheck(b, v).None? ==>
            Means(rt, b, v, locals) == ShortCircuit(rt, b, e.op, left, Means(rt, b, vs[1], locals)))
      && (E.PreCheck(b, v).None? && ArgsDefined(rt, b, v, locals) ==>
            && ArgsDefined(rt, b, vs[0], locals)
            && (left.Some? && E.IsBool(left.value) && left.value.leaf.flag != (e.op == Or) ==>
                  ArgsDefined(rt, b, vs[1], locals)))
  {
    var v := Tree(env, e, vs);
    assert v == VBinary(vs[0], e.op, vs[1], Some(BinaryCapability(env.schema, e.op).ticket));
    assert E.IsLogic(v);
    assert Means(rt, b, v, locals) == if E.PreCheck(b, v).Some? then None else LogicMeans(rt, b, v, locals);
    assert E.PreCheck(b, v).None? ==> ArgsDefined(rt, b, v, locals) == LogicArgsDefined(rt, b, v, locals);
    hide Means, E.PreCheck, E.Admits, ArgsDefined;
  }

  function ShortCircuit(
    rt: E.Runtime, b: E.Budget, op: BinaryOp, left: Option<VG.Value>, right: Option<VG.Value>): Option<VG.Value>
  {
    if left.None? || !E.IsBool(left.value) then None
    else if left.value.leaf.flag == (op == Or) then Admitted(rt, b, E.BoolValue(left.value.leaf.flag))
    else if right.None? || !E.IsBool(right.value) then None
    else Admitted(rt, b, E.BoolValue(right.value.leaf.flag))
  }

  // ----- entering a function -----

  lemma BoundIndex(params: seq<string>, args: seq<Expr>, values: seq<VG.Value>, x: string) returns (i: nat)
    requires |params| == |args| == |values| && Distinct(params) && x in params
    ensures i < |params| && BoundArg(params, args, x) == Some(args[i])
    ensures E.Frame(params, values).Keys == (set p | p in params) && E.Frame(params, values)[x] == values[i]
  {
    FrameKeys(params, values);
    if params[0] == x {
      i := 0;
      FrameKeys(params[1..], values[1..]);
    } else {
      var j := BoundIndex(params[1..], args[1..], values[1..], x);
      i := j + 1;
    }
  }

  lemma FrameKeys(params: seq<string>, values: seq<VG.Value>)
    requires |params| == |values|
    ensures E.Frame(params, values).Keys == (set p | p in params)
  {
    if params != [] {
      FrameKeys(params[1..], values[1..]);
      assert params == [params[0]] + params[1..];
    }
  }

  lemma {:induction false} FrameTreesAt(env: Env, es: seq<Expr>, depth: nat, i: nat)
    requires FrameTrees(env, es, depth).Some? && i < |es|
    ensures FrameTree(env, es[i], depth) == Some(FrameTrees(env, es, depth).value[i])
    decreases i
  {
    hide FrameTree;
    if i > 0 { FrameTreesAt(env, es[1..], depth, i - 1); }
  }

  lemma {:induction false} SizeAt(vs: seq<Verified>, i: nat)
    requires i < |vs|
    ensures Size(vs[i]) <= SizeAll(vs)
    decreases i
  {
    if i > 0 { SizeAt(vs[1..], i - 1); }
  }

  /** The body is scoped under its own parameters. */
  lemma BodyScoped(env: Env, frames: seq<Binding>, f: Function, args: seq<Expr>)
    requires Hygienic(env) && FromSchema(env, frames) && IsFunction(env, f)
    ensures var inner := frames + [Binding(f.params, args)];
      FromSchema(env, inner) && WellScoped(env, inner, f.body)
  {
    hide Names, FunctionForScope;
    var inner := frames + [Binding(f.params, args)];
    forall j | 0 <= j < |inner| ensures exists g :: IsFunction(env, g) && g.params == inner[j].params {
      if j < |frames| { assert inner[j] == frames[j]; }
    }
    forall x, j | x in Names(f.body) && 0 <= j < |inner| && x in inner[j].params
      ensures x in inner[|inner| - 1].params {
      var g :| IsFunction(env, g) && g.params == inner[j].params;
    }
  }

  lemma ResolvedIsFunction(env: Env, e: Expr)
    requires SchemaIntegrity(env.schema) && Resolve(env, e).Some?
    ensures IsFunction(env, Resolve(env, e).value)
  {
  }

  lemma PushFrame(
    rt: E.Runtime, b: E.Budget, env: Env, frames: seq<Binding>, locals: seq<map<string, VG.Value>>,
    binding: Binding, frame: map<string, VG.Value>)
    requires FramesAgree(rt, b, env, frames, locals) && FrameAgrees(rt, b, env, frames, binding, frame)
    ensures FramesAgree(rt, b, env, frames + [binding], locals + [frame])
  {
    hide FrameAgrees;
    assert (frames + [binding])[..|frames|] == frames && (locals + [frame])[..|locals|] == locals;
  }

  lemma FrameMeansParts(rt: E.Runtime, b: E.Budget, v: Verified, locals: seq<map<string, VG.Value>>)
    requires v.VFunction? && |v.params| == |v.args| && ArgsDefined(rt, b, v, locals)
    ensures MeansAll(rt, b, v.args, locals).Some?
    ensures var inner := locals + [E.Frame(v.params, MeansAll(rt, b, v.args, locals).value)];
      Means(rt, b, v, locals) == Means(rt, b, v.body, inner) && ArgsDefined(rt, b, v.body, inner)
    ensures Size(v) == 1 + SizeAll(v.args) + Size(v.body)
  {
    hide MeansAll, E.Frame;
  }

  /** The values a call frame is given are the meanings of the arguments it was given them for. */
  lemma {:induction false} ArgsAgree(
    rt: E.Runtime, b: E.Budget, env: Env, f: Function, args: seq<Expr>, frames: seq<Binding>, dc: nat,
    locals: seq<map<string, VG.Value>>, cs: seq<Verified>, values: seq<VG.Value>)
    requires Related(rt, b, env, frames, locals) && |f.params| == |args| && Distinct(f.params)
    requires forall i :: 0 <= i < |args| ==> WellScoped(env, frames, args[i])
    requires FrameTrees(env, args, dc) == Some(cs) && MeansAll(rt, b, cs, locals) == Some(values)
    ensures FrameAgrees(rt, b, env, frames, Binding(f.params, args), E.Frame(f.params, values))
    decreases SizeAll(cs), 2 + |cs|
  {
    hide Related, WellScoped, FrameTrees, FrameTree, InlineTree, MeansAll, Means, Size, SizeAll, E.Frame, BoundArg, Distinct,
      E.Admits, ArgsDefined;
    var frame := E.Frame(f.params, values);
    FrameKeys(f.params, values);
    forall x | x in frame ensures E.Admits(rt, b, frame[x]) {
      var i := BoundIndex(f.params, args, values, x);
      MeansAllAt(rt, b, cs, locals, i);
      MeaningAdmitted(rt, b, cs[i], locals);
    }
    forall x, d: nat | x in frame && BoundArg(f.params, args, x).Some?
      ensures ArgumentMeans(rt, b, env, frames, BoundArg(f.params, args, x).value, d, frame[x]) {
      var i := BoundIndex(f.params, args, values, x);
      FrameTreesAt(env, args, dc, i);
      MeansAllAt(rt, b, cs, locals, i);
      SizeAt(cs, i);
      if InlineTree(env, frames, args[i], d).Some? {
        MeantArgsDefined(rt, b, cs[i], locals);
        Agree(rt, b, env, args[i], frames, dc, d, locals, cs[i], InlineTree(env, frames, args[i], d).value);
      }
    }
  }

  /** A call: the body under the new frame in one mode, under the borrowed one in the other. */
  lemma {:induction false} AgreeFunction(
    rt: E.Runtime, b: E.Budget, env: Env, e: Expr, f: Function, frames: seq<Binding>, dc: nat, di: nat,
    locals: seq<map<string, VG.Value>>, c: Verified, t: Verified)
    requires Related(rt, b, env, frames, locals) && WellScoped(env, frames, e) && Resolve(env, e) == Some(f)
    requires FrameTree(env, e, dc) == Some(c) && InlineTree(env, frames, e, di) == Some(t)
    requires ArgsDefined(rt, b, c, locals)
    ensures Means(rt, b, t, []) == Means(rt, b, c, locals)
    decreases Size(c), 0
  {
    hide *;
    RelatedParts(rt, b, env, frames, locals, e, f);
    ChildrenScoped(env, frames, e);
    CallChildren(env, e);
    FrameTreeCases(env, e, dc, c);
    InlineTreeCases(env, frames, e, di, t);
    FrameMeansParts(rt, b, c, locals);
    var values := MeansAll(rt, b, c.args, locals).value;
    var binding, frame := Binding(f.params, e.args), E.Frame(f.params, values);
    ArgsAgree(rt, b, env, f, e.args, frames, dc + 1, locals, c.args, values);
    PushFrame(rt, b, env, frames, locals, binding, frame);
    BodyScoped(env, frames, f, e.args);
    RelatedAgain(rt, b, env, frames + [binding], locals + [frame]);
    Agree(rt, b, env, f.body, frames + [binding], dc + 1, di + 1, locals + [frame], c.body, t);
  }

  lemma CallChildren(env: Env, e: Expr)
    requires Resolve(env, e).Some?
    ensures e.Call? && Children(e) == e.args
  {
  }

  lemma RelatedParts(
    rt: E.Runtime, b: E.Budget, env: Env, frames: seq<Binding>, locals: seq<map<string, VG.Value>>, e: Expr, f: Function)
    requires Related(rt, b, env, frames, locals) && Resolve(env, e) == Some(f)
    ensures Hygienic(env) && SchemaIntegrity(env.schema) && FromSchema(env, frames)
    ensures FramesAgree(rt, b, env, frames, locals) && IsFunction(env, f) && Distinct(f.params)
  {
    hide FramesAgree;
    ResolvedIsFunction(env, e);
  }

  lemma RelatedAgain(
    rt: E.Runtime, b: E.Budget, env: Env, frames: seq<Binding>, locals: seq<map<string, VG.Value>>)
    requires Hygienic(env) && SchemaIntegrity(env.schema) && FromSchema(env, frames)
    requires FramesAgree(rt, b, env, frames, locals)
    ensures Related(rt, b, env, frames, locals)
  {
  }

  // ----- the theorem -----

  /** One function scope, no captured names, and both lowerings accepted. */
  ghost predicate Comparable(env: Env, e: Expr) {
    && SchemaIntegrity(env.schema) && OneScope(env) && Hygienic(env)
    && Accepted(Analyze(env.(mode := CallFrame), [], [], [], e, 0))
    && Accepted(Analyze(env.(mode := Inline), [], [], [], e, 0))
  }

  function FrameProgram(env: Env, e: Expr): Verified { Analyze(env.(mode := CallFrame), [], [], [], e, 0).expr }

  function InlineProgram(env: Env, e: Expr): Verified { Analyze(env.(mode := Inline), [], [], [], e, 0).expr }

  /** Both programs mean the same whenever the call-frame program meets no call with a meaningless
      argument; in particular whenever it has a meaning itself. */
  lemma ProgramsMeanTheSame(env: Env, e: Expr, rt: E.Runtime, b: E.Budget)
    requires Comparable(env, e)
    ensures var c, t := FrameProgram(env, e), InlineProgram(env, e);
      && (ArgsDefined(rt, b, c, []) ==> Means(rt, b, t, []) == Means(rt, b, c, []))
      && (Means(rt, b, c, []).Some? ==> ArgsDefined(rt, b, c, []))
  {
    hide Analyze, Means, Hygienic, SchemaIntegrity, OneScope, FrameTree, InlineTree, ArgsDefined;
    var c, t := FrameProgram(env, e), InlineProgram(env, e);
    SameScopeEnv(env);
    AnalyzeFrames(env.(mode := CallFrame), [], [], e, 0);
    AnalyzeInlines(env.(mode := Inline), [], [], e, 0);
    TreesIgnoreMode(env, CallFrame, e, 0);
    InlineTreesIgnoreMode(env, Inline, [], e, 0);
    if ArgsDefined(rt, b, c, []) { Agree(rt, b, env, e, [], 0, 0, [], c, t); }
    if Means(rt, b, c, []).Some? { MeantArgsDefined(rt, b, c, []); }
  }

  /** If the call-frame program evaluates to a value under some budget, the inline program evaluates to
      the same value under every budget with the same limits on values that covers the steps, levels
      and bytes it spends, and runs out under every other; such budgets exist. */
  lemma ModesAgree(env: Env, e: Expr, rt: E.Runtime, b: E.Budget, c: E.Budget)
    requires Comparable(env, e) && R.Alike(b, c)
    requires E.Eval(rt, b, FrameProgram(env, e), [], 0, 0, 0).Done?
    ensures var v, t := E.Eval(rt, b, FrameProgram(env, e), [], 0, 0, 0).value, InlineProgram(env, e);
      var inline := E.Eval(rt, c, t, [], 0, 0, 0);
      && Means(rt, b, t, []) == Some(v)
      && (inline.Done? <==> R.Covers(c, R.Spends(rt, b, t, []), 0, 0, 0))
      && (if inline.Done? then inline.value == v else IsBudgetError(inline.error))
      && E.Eval(rt, R.Ample(rt, b, t), t, [], 0, 0, 0).Done?
  {
    hide FrameProgram, InlineProgram, E.Eval, Means, Comparable, ArgsDefined, R.Spends;
    var t := InlineProgram(env, e);
    ProgramsMeanTheSame(env, e, rt, b);
    EvalReflects(rt, b, FrameProgram(env, e), [], 0, 0, 0);
    EvalReflects(rt, c, t, [], 0, 0, 0);
    R.MeansAlike(rt, b, c, t, []);
    R.EvalDecides(rt, c, t, [], 0, 0, 0);
    R.AmpleIsLeast(rt, b, R.Ample(rt, b, t), t);
  }

  /** Exactly when the converse holds. If the inline program has a value, the call-frame program has one
      if and only if every call it evaluates has a meaning for each of its arguments, and then it is
      the same value, under every budget that covers the call-frame program. */
  lemma ConverseExactly(env: Env, e: Expr, rt: E.Runtime, b: E.Budget, c: E.Budget)
    requires Comparable(env, e) && R.Alike(b, c)
    requires E.Eval(rt, b, InlineProgram(env, e), [], 0, 0, 0).Done?
    ensures var v, f := E.Eval(rt, b, InlineProgram(env, e), [], 0, 0, 0).value, FrameProgram(env, e);
      var frame := E.Eval(rt, c, f, [], 0, 0, 0);
      && (Means(rt, b, f, []).Some? <==> ArgsDefined(rt, b, f, []))
      && (frame.Done? <==> ArgsDefined(rt, b, f, []) && R.Covers(c, R.Spends(rt, b, f, []), 0, 0, 0))
      && (frame.Done? ==> frame.value == v)
  {
    hide FrameProgram, InlineProgram, E.Eval, Means, Comparable, ArgsDefined, R.Spends;
    var f := FrameProgram(env, e);
    ProgramsMeanTheSame(env, e, rt, b);
    EvalReflects(rt, b, InlineProgram(env, e), [], 0, 0, 0);
    R.MeansAlike(rt, b, c, f, []);
    R.EvalDecides(rt, c, f, [], 0, 0, 0);
  }

  lemma SameScopeEnv(env: Env)
    requires OneScope(env)
    ensures OneScope(env.(mode := CallFrame)) && OneScope(env.(mode := Inline))
  {
  }

  lemma {:induction false} TreesIgnoreMode(env: Env, mode: Mode, e: Expr, depth: nat)
    ensures FrameTree(env.(mode := mode), e, depth) == FrameTree(env, e, depth)
    decreases Rank(env.cap, depth), 2
  {
    if depth <= env.cap {
      var f := Resolve(env, e);
      assert Resolve(env.(mode := mode), e) == f;
      if f.Some? {
        TreesIgnoreModeAll(env, mode, e.args, depth + 1);
        TreesIgnoreMode(env, mode, f.value.body, depth + 1);
      } else {
        TreesIgnoreModeAll(env, mode, Children(e), depth + 1);
        NodeIgnoresMode(env, mode, e);
      }
    }
  }

  lemma NodeIgnoresMode(env: Env, mode: Mode, e: Expr)
    ensures forall vs: seq<Verified> | |vs| == |Children(e)| :: Tree(env.(mode := mode), e, vs) == Tree(env, e, vs)
  {
  }

  lemma {:induction false} TreesIgnoreModeAll(env: Env, mode: Mode, es: seq<Expr>, depth: nat)
    ensures FrameTrees(env.(mode := mode), es, depth) == FrameTrees(env, es, depth)
    decreases Rank(env.cap, depth), |es| + 3
  {
    if es != [] {
      TreesIgnoreMode(env, mode, es[0], depth);
      TreesIgnoreModeAll(env, mode, es[1..], depth);
    }
  }

  lemma {:induction false} InlineTreesIgnoreMode(env: Env, mode: Mode, frames: seq<Binding>, e: Expr, depth: nat)
    ensures InlineTree(env.(mode := mode), frames, e, depth) == InlineTree(env, frames, e, depth)
    decreases Rank(env.cap, depth), |frames|, 2
  {
    if depth <= env.cap {
      if e.Ident? && InlineBinding(frames, e.name).Some? {
        InlineTreesIgnoreMode(env, mode, frames[..|frames| - 1], InlineBinding(frames, e.name).value, depth);
      } else {
        var f := Resolve(env, e);
        assert Resolve(env.(mode := mode), e) == f;
        if f.Some? {
          InlineTreesIgnoreMode(env, mode, frames + [Binding(f.value.params, e.args)], f.value.body, depth + 1);
        } else {
          InlineTreesIgnoreModeAll(env, mode, frames, Children(e), depth + 1);
          NodeIgnoresMode(env, mode, e);
        }
      }
    }
  }

  lemma {:induction false} InlineTreesIgnoreModeAll(env: Env, mode: Mode, frames: seq<Binding>, es: seq<Expr>, depth: nat)
    ensures InlineTrees(env.(mode := mode), frames, es, depth) == InlineTrees(env, frames, es, depth)
    decreases Rank(env.cap, depth), |frames|, |es| + 3
  {
    if es != [] {
      InlineTreesIgnoreMode(env, mode, frames, es[0], depth);
      InlineTreesIgnoreModeAll(env, mode, frames, es[1..], depth);
    }
  }
}
