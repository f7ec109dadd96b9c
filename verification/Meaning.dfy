/** What a verified tree means when steps, depth and the cumulative byte total are no object, and why
    a budgeted evaluation either gives exactly that or runs out of budget. */
module Meaning {
  import opened Tokens
  import opened Program
  import opened ValueGraph
  import opened EvalSpec
  import S = Syntax

  function ConcludeMeaning(rt: Runtime, b: Budget, raw: Raw): Option<Value> {
    if raw.Produced? && raw.reply.stringBytes <= b.maxStringBytes && raw.reply.value.Some?
       && Admits(rt, b, raw.reply.value.value)
    then raw.reply.value else None
  }

  /** The value of `v`, or nothing where evaluation must fail. */
  function Means(rt: Runtime, b: Budget, v: Verified, locals: seq<map<string, Value>>): Option<Value>
    decreases Size(v), 1
  {
    if PreCheck(b, v).Some? then None
    else if IsLogic(v) then LogicMeans(rt, b, v, locals)
    else if v.VFunction? then FrameMeans(rt, b, v, locals)
    else
      match MeansAll(rt, b, Kids(v), locals)
      case None => None
      case Some(values) => ConcludeMeaning(rt, b, Combine(rt, v, locals, values))
  }

  function LogicMeans(rt: Runtime, b: Budget, v: Verified, locals: seq<map<string, Value>>): Option<Value>
    requires IsLogic(v)
    decreases Size(v), 0
  {
    match Means(rt, b, v.left, locals)
    case None => None
    case Some(left) =>
      if !IsBool(left) then None
      else if left.leaf.flag == (v.op == S.Or) then Admitted(rt, b, BoolValue(left.leaf.flag))
      else
        match Means(rt, b, v.right, locals)
        case None => None
        case Some(right) => if IsBool(right) then Admitted(rt, b, BoolValue(right.leaf.flag)) else None
  }

  function Admitted(rt: Runtime, b: Budget, value: Value): Option<Value> {
    if Admits(rt, b, value) then Some(value) else None
  }

  function FrameMeans(rt: Runtime, b: Budget, v: Verified, locals: seq<map<string, Value>>): Option<Value>
    requires v.VFunction?
    decreases Size(v), 0
  {
    match MeansAll(rt, b, v.args, locals)
    case None => None
    case Some(values) => Means(rt, b, v.body, locals + [Frame(v.params, values)])
  }

  function MeansAll(rt: Runtime, b: Budget, vs: seq<Verified>, locals: seq<map<string, Value>>)
    : (r: Option<seq<Value>>)
    ensures r.Some? ==> |r.value| == |vs|
    decreases SizeAll(vs), 2 + |vs|
  {
    if vs == [] then Some([])
    else
      match Means(rt, b, vs[0], locals)
      case None => None
      case Some(first) =>
        match MeansAll(rt, b, vs[1..], locals)
        case None => None
        case Some(rest) => Some([first] + rest)
  }

  // ----- budgeted evaluation -----

  predicate IsBudgetError(error: EvalError) {
    error.StepsExceeded? || error.DepthTooGreat? || error.TotalExceeded?
  }

  /** A success is the meaning; a failure is for want of budget or because there is no meaning. */
  ghost predicate Reflects<T>(o: Outcome<T>, meaning: Option<T>) {
    match o
    case Done(value, _, _) => meaning == Some(value)
    case Failed(error) => IsBudgetError(error) || meaning.None?
  }

  lemma {:induction false} EvalReflects(
    rt: Runtime, b: Budget, v: Verified, locals: seq<map<string, Value>>, depth: nat, steps: nat, bytes: nat)
    ensures Reflects(Eval(rt, b, v, locals, depth, steps, bytes), Means(rt, b, v, locals))
    decreases Size(v), 1
  {
    hide EvalAll, EvalLogic, EvalFrame, MeansAll, LogicMeans, FrameMeans, Combine, Kids, Conclude, ConcludeMeaning;
    if steps + 1 <= b.maxSteps && depth <= b.maxDepth && PreCheck(b, v).None? {
      if IsLogic(v) {
        LogicReflects(rt, b, v, locals, depth, steps + 1, bytes);
      } else if v.VFunction? {
        FrameReflects(rt, b, v, locals, depth, steps + 1, bytes);
      } else {
        AllReflects(rt, b, Kids(v), locals, depth + 1, steps + 1, bytes);
        var o := EvalAll(rt, b, Kids(v), locals, depth + 1, steps + 1, bytes);
        if o.Done? { ConcludeReflects(rt, b, Combine(rt, v, locals, o.value), o.steps, o.bytes); }
      }
    }
  }

  lemma ConcludeReflects(rt: Runtime, b: Budget, raw: Raw, steps: nat, bytes: nat)
    ensures Reflects(Conclude(rt, b, raw, steps, bytes), ConcludeMeaning(rt, b, raw))
  {
    hide Admits, Measure;
  }

  lemma {:induction false} LogicReflects(
    rt: Runtime, b: Budget, v: Verified, locals: seq<map<string, Value>>, depth: nat, steps: nat, bytes: nat)
    requires IsLogic(v)
    ensures Reflects(EvalLogic(rt, b, v, locals, depth, steps, bytes), LogicMeans(rt, b, v, locals))
    decreases Size(v), 0
  {
    hide Eval, Means, Admits, Measure;
    EvalReflects(rt, b, v.left, locals, depth + 1, steps, bytes);
    var l := Eval(rt, b, v.left, locals, depth + 1, steps, bytes);
    if l.Done? { EvalReflects(rt, b, v.right, locals, depth + 1, l.steps, l.bytes); }
  }

  lemma {:induction false} FrameReflects(
    rt: Runtime, b: Budget, v: Verified, locals: seq<map<string, Value>>, depth: nat, steps: nat, bytes: nat)
    requires v.VFunction?
    ensures Reflects(EvalFrame(rt, b, v, locals, depth, steps, bytes), FrameMeans(rt, b, v, locals))
    decreases Size(v), 0
  {
    hide Eval, EvalAll, Means, MeansAll, Frame;
    AllReflects(rt, b, v.args, locals, depth + 1, steps, bytes);
    var o := EvalAll(rt, b, v.args, locals, depth + 1, steps, bytes);
    if o.Done? {
      EvalReflects(rt, b, v.body, locals + [Frame(v.params, o.value)], depth + 1, o.steps, o.bytes);
    }
  }

  lemma {:induction false} AllReflects(
    rt: Runtime, b: Budget, vs: seq<Verified>, locals: seq<map<string, Value>>, depth: nat, steps: nat, bytes: nat)
    ensures Reflects(EvalAll(rt, b, vs, locals, depth, steps, bytes), MeansAll(rt, b, vs, locals))
    decreases SizeAll(vs), 2 + |vs|
  {
    hide Eval, Means;
    if vs != [] {
      EvalReflects(rt, b, vs[0], locals, depth, steps, bytes);
      var o := Eval(rt, b, vs[0], locals, depth, steps, bytes);
      if o.Done? { AllReflects(rt, b, vs[1..], locals, depth, o.steps, o.bytes); }
    }
  }

  lemma {:induction false} MeansAllAt(rt: Runtime, b: Budget, vs: seq<Verified>, locals: seq<map<string, Value>>, i: nat)
    requires MeansAll(rt, b, vs, locals).Some? && i < |vs|
    ensures Means(rt, b, vs[i], locals) == Some(MeansAll(rt, b, vs, locals).value[i])
    decreases i
  {
    if i > 0 { MeansAllAt(rt, b, vs[1..], locals, i - 1); }
  }
}
