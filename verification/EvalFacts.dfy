/** Facts about every evaluation: larger budgets change nothing, each node is evaluated at most once,
    and a statically admitted program never runs out of steps or depth. */
module EvalFacts {
  import opened Tokens
  import opened Program
  import opened ValueGraph
  import opened EvalSpec
  import LowerSpec
  import LowerFacts
  import S = Syntax

  // ----- larger budgets -----

  predicate Larger(b: Budget, c: Budget) {
    && b.maxSteps <= c.maxSteps && b.maxDepth <= c.maxDepth && b.maxStringBytes <= c.maxStringBytes
    && b.maxArrayItems <= c.maxArrayItems && b.maxTotalBytes <= c.maxTotalBytes
    && b.graph.maxDepth <= c.graph.maxDepth && b.graph.maxNodes <= c.graph.maxNodes
    && b.graph.maxItems <= c.graph.maxItems && b.graph.maxBytes <= c.graph.maxBytes
  }

  lemma {:induction false} LeavesImply<L>(g: Graph<L>, p: L -> bool, q: L -> bool)
    requires AllLeaves(g, p) && forall leaf :: p(leaf) ==> q(leaf)
    ensures AllLeaves(g, q)
    decreases g, 1
  {
    match g
    case Leaf(_) =>
    case Array(items) => LeavesImplyAll(items, p, q);
    case Object(_, members) => LeavesImplyAll(members, p, q);
  }

  lemma {:induction false} LeavesImplyAll<L>(gs: seq<Graph<L>>, p: L -> bool, q: L -> bool)
    requires AllLeavesAll(gs, p) && forall leaf :: p(leaf) ==> q(leaf)
    ensures AllLeavesAll(gs, q)
    decreases gs, 0
  {
    if gs != [] {
      LeavesImply(gs[0], p, q);
      LeavesImplyAll(gs[1..], p, q);
    }
  }

  lemma AdmitMonotone(rt: Runtime, b: Budget, c: Budget, value: Value, steps: nat, bytes: nat)
    requires Larger(b, c) && Admit(rt, b, value, steps, bytes).Done?
    ensures Admit(rt, c, value, steps, bytes) == Admit(rt, b, value, steps, bytes)
  {
    LeavesImply(value, leaf => Admissible(leaf, rt.finite, Some(b.maxStringBytes)),
                leaf => Admissible(leaf, rt.finite, Some(c.maxStringBytes)));
  }

  lemma ConcludeMonotone(rt: Runtime, b: Budget, c: Budget, raw: Raw, steps: nat, bytes: nat)
    requires Larger(b, c) && Conclude(rt, b, raw, steps, bytes).Done?
    ensures Conclude(rt, c, raw, steps, bytes) == Conclude(rt, b, raw, steps, bytes)
  {
    AdmitMonotone(rt, b, c, raw.reply.value.value, steps, bytes + raw.reply.work);
  }

  /** Whatever succeeds under some budget succeeds with the same value, steps and processed bytes
      under every larger one. */
  lemma {:induction false} EvalMonotone(
    rt: Runtime, b: Budget, c: Budget, v: Verified, locals: seq<map<string, Value>>, depth: nat, steps: nat, bytes: nat)
    requires Larger(b, c) && Eval(rt, b, v, locals, depth, steps, bytes).Done?
    ensures Eval(rt, c, v, locals, depth, steps, bytes) == Eval(rt, b, v, locals, depth, steps, bytes)
    decreases Size(v), 1
  {
    hide EvalAll, EvalLogic, EvalFrame, Combine, Conclude, Kids;
    if IsLogic(v) {
      LogicMonotone(rt, b, c, v, locals, depth, steps + 1, bytes);
    } else if v.VFunction? {
      FrameMonotone(rt, b, c, v, locals, depth, steps + 1, bytes);
    } else {
      AllMonotone(rt, b, c, Kids(v), locals, depth + 1, steps + 1, bytes);
      var o := EvalAll(rt, b, Kids(v), locals, depth + 1, steps + 1, bytes);
      ConcludeMonotone(rt, b, c, Combine(rt, v, locals, o.value), o.steps, o.bytes);
    }
  }

  lemma {:induction false} LogicMonotone(
    rt: Runtime, b: Budget, c: Budget, v: Verified, locals: seq<map<string, Value>>, depth: nat, steps: nat, bytes: nat)
    requires Larger(b, c) && IsLogic(v) && EvalLogic(rt, b, v, locals, depth, steps, bytes).Done?
    ensures EvalLogic(rt, c, v, locals, depth, steps, bytes) == EvalLogic(rt, b, v, locals, depth, steps, bytes)
    decreases Size(v), 0
  {
    hide Eval, Admit;
    EvalMonotone(rt, b, c, v.left, locals, depth + 1, steps, bytes);
    var l := Eval(rt, b, v.left, locals, depth + 1, steps, bytes);
    if l.value.leaf.flag == (v.op == S.Or) {
      AdmitMonotone(rt, b, c, BoolValue(l.value.leaf.flag), l.steps, l.bytes);
    } else {
      EvalMonotone(rt, b, c, v.right, locals, depth + 1, l.steps, l.bytes);
      var r := Eval(rt, b, v.right, locals, depth + 1, l.steps, l.bytes);
      AdmitMonotone(rt, b, c, BoolValue(r.value.leaf.flag), r.steps, r.bytes);
    }
  }

  lemma {:induction false} FrameMonotone(
    rt: Runtime, b: Budget, c: Budget, v: Verified, locals: seq<map<string, Value>>, depth: nat, steps: nat, bytes: nat)
    requires Larger(b, c) && v.VFunction? && EvalFrame(rt, b, v, locals, depth, steps, bytes).Done?
    ensures EvalFrame(rt, c, v, locals, depth, steps, bytes) == EvalFrame(rt, b, v, locals, depth, steps, bytes)
    decreases Size(v), 0
  {
    hide Eval, EvalAll, Frame;
    AllMonotone(rt, b, c, v.args, locals, depth + 1, steps, bytes);
    var o := EvalAll(rt, b, v.args, locals, depth + 1, steps, bytes);
    EvalMonotone(rt, b, c, v.body, locals + [Frame(v.params, o.value)], depth + 1, o.steps, o.bytes);
  }

  lemma {:induction false} AllMonotone(
    rt: Runtime, b: Budget, c: Budget, vs: seq<Verified>, locals: seq<map<string, Value>>, depth: nat, steps: nat, bytes: nat)
    requires Larger(b, c) && EvalAll(rt, b, vs, locals, depth, steps, bytes).Done?
    ensures EvalAll(rt, c, vs, locals, depth, steps, bytes) == EvalAll(rt, b, vs, locals, depth, steps, bytes)
    decreases SizeAll(vs), 2 + |vs|
  {
    hide Eval;
    if vs != [] {
      EvalMonotone(rt, b, c, vs[0], locals, depth, steps, bytes);
      var o := Eval(rt, b, vs[0], locals, depth, steps, bytes);
      AllMonotone(rt, b, c, vs[1..], locals, depth, o.steps, o.bytes);
    }
  }

  // ----- steps, depth and bytes -----

  /** Neither a step nor a depth error, and if it succeeded, at most `size` more steps and a byte
      total that never shrank and never passed its limit. */
  predicate Covered<T>(o: Outcome<T>, b: Budget, size: nat, steps: nat, bytes: nat) {
    && o != Failed(StepsExceeded) && o != Failed(DepthTooGreat)
    && (o.Done? ==> o.steps <= steps + size && bytes <= o.bytes && o.bytes <= b.maxTotalBytes)
  }

  lemma ConcludeCovered(rt: Runtime, b: Budget, v: Verified, locals: seq<map<string, Value>>, values: seq<Value>, steps: nat, bytes: nat)
    requires |values| == |Kids(v)| && !v.VFunction?
    ensures Covered(Conclude(rt, b, Combine(rt, v, locals, values), steps, bytes), b, 0, steps, bytes)
  {
    CombineErrors(rt, v, locals, values);
  }

  lemma CombineErrors(rt: Runtime, v: Verified, locals: seq<map<string, Value>>, values: seq<Value>)
    requires |values| == |Kids(v)| && !v.VFunction?
    ensures Combine(rt, v, locals, values) != Refused(StepsExceeded)
    ensures Combine(rt, v, locals, values) != Refused(DepthTooGreat)
  {
  }

  /** With one step for each node and one level for each level of the tree, evaluation never fails for
      want of steps or depth: no node is evaluated twice. */
  lemma {:induction false} EvalCovered(
    rt: Runtime, b: Budget, v: Verified, locals: seq<map<string, Value>>, depth: nat, steps: nat, bytes: nat)
    requires steps + Size(v) <= b.maxSteps && depth + Height(v) <= b.maxDepth && bytes <= b.maxTotalBytes
    ensures Covered(Eval(rt, b, v, locals, depth, steps, bytes), b, Size(v), steps, bytes)
    decreases Size(v), 1
  {
    hide EvalAll, EvalLogic, EvalFrame, Combine, Conclude, Kids, Height, Size;
    if PreCheck(b, v).None? {
      NodeBounds(v);
      if IsLogic(v) {
        LogicCovered(rt, b, v, locals, depth, steps + 1, bytes);
      } else if v.VFunction? {
        FrameCovered(rt, b, v, locals, depth, steps + 1, bytes);
      } else {
        AllCovered(rt, b, Kids(v), locals, depth + 1, steps + 1, bytes);
        var o := EvalAll(rt, b, Kids(v), locals, depth + 1, steps + 1, bytes);
        if o.Done? { ConcludeCovered(rt, b, v, locals, o.value, o.steps, o.bytes); }
      }
    }
  }

  lemma NodeBounds(v: Verified)
    ensures v.VFunction? ==> Size(v) == 1 + SizeAll(v.args) + Size(v.body)
    ensures v.VFunction? ==> Height(v) >= HeightAll(v.args) && Height(v) >= 1 + Height(v.body)
    ensures !v.VFunction? ==> Size(v) == 1 + SizeAll(Kids(v)) && Height(v) == HeightAll(Kids(v))
    ensures v.VBinary? ==> Size(v) == 1 + Size(v.left) + Size(v.right)
    ensures v.VBinary? ==> Height(v) >= 1 + Height(v.left) && Height(v) >= 1 + Height(v.right)
  {
    match v
    case VMember(receiver, _) => HeightOne(receiver);
    case VUnary(_, operand, _) => HeightOne(operand);
    case VMethod(receiver, _, args, _) => HeightFirst(receiver, args);
    case VBinary(left, _, right, _) =>
      HeightFirst(left, [right]);
      HeightOne(right);
    case _ =>
  }

  lemma HeightOne(v: Verified)
    ensures HeightAll([v]) == 1 + Height(v)
  {
    assert [v][1..] == [];
  }

  lemma HeightFirst(v: Verified, vs: seq<Verified>)
    ensures HeightAll([v] + vs) == S.Max(1 + Height(v), HeightAll(vs))
  {
    assert ([v] + vs)[1..] == vs;
  }

  lemma {:induction false} LogicCovered(
    rt: Runtime, b: Budget, v: Verified, locals: seq<map<string, Value>>, depth: nat, steps: nat, bytes: nat)
    requires IsLogic(v) && bytes <= b.maxTotalBytes
    requires steps + Size(v.left) + Size(v.right) <= b.maxSteps
    requires depth + 1 + Height(v.left) <= b.maxDepth && depth + 1 + Height(v.right) <= b.maxDepth
    ensures Covered(EvalLogic(rt, b, v, locals, depth, steps, bytes), b, Size(v.left) + Size(v.right), steps, bytes)
    decreases Size(v), 0
  {
    hide Eval, Height, Size, Admits, Measure;
    NodeBounds(v);
    EvalCovered(rt, b, v.left, locals, depth + 1, steps, bytes);
    var l := Eval(rt, b, v.left, locals, depth + 1, steps, bytes);
    if l.Done? && IsBool(l.value) && l.value.leaf.flag != (v.op == S.Or) {
      EvalCovered(rt, b, v.right, locals, depth + 1, l.steps, l.bytes);
    }
  }

  lemma {:induction false} FrameCovered(
    rt: Runtime, b: Budget, v: Verified, locals: seq<map<string, Value>>, depth: nat, steps: nat, bytes: nat)
    requires v.VFunction? && bytes <= b.maxTotalBytes
    requires steps + SizeAll(v.args) + Size(v.body) <= b.maxSteps
    requires depth + HeightAll(v.args) <= b.maxDepth && depth + 1 + Height(v.body) <= b.maxDepth
    ensures Covered(EvalFrame(rt, b, v, locals, depth, steps, bytes), b, SizeAll(v.args) + Size(v.body), steps, bytes)
    decreases Size(v), 0
  {
    hide Eval, EvalAll, Frame, Height, HeightAll, Size, SizeAll;
    NodeBounds(v);
    AllCovered(rt, b, v.args, locals, depth + 1, steps, bytes);
    var o := EvalAll(rt, b, v.args, locals, depth + 1, steps, bytes);
    if o.Done? {
      EvalCovered(rt, b, v.body, locals + [Frame(v.params, o.value)], depth + 1, o.steps, o.bytes);
    }
  }

  lemma {:induction false} AllCovered(
    rt: Runtime, b: Budget, vs: seq<Verified>, locals: seq<map<string, Value>>, depth: nat, steps: nat, bytes: nat)
    requires steps + SizeAll(vs) <= b.maxSteps && bytes <= b.maxTotalBytes
    requires depth > 0 && depth - 1 + HeightAll(vs) <= b.maxDepth
    ensures Covered(EvalAll(rt, b, vs, locals, depth, steps, bytes), b, SizeAll(vs), steps, bytes)
    decreases SizeAll(vs), 2 + |vs|
  {
    hide Eval, Height, Size;
    if vs != [] {
      EvalCovered(rt, b, vs[0], locals, depth, steps, bytes);
      var o := Eval(rt, b, vs[0], locals, depth, steps, bytes);
      if o.Done? { AllCovered(rt, b, vs[1..], locals, depth, o.steps, o.bytes); }
    }
  }

  /** Whatever the step and depth limits, a success took at most one step a node, and the byte total it
      leaves has not shrunk and is within its limit. */
  lemma SuccessWithinLimits(
    rt: Runtime, b: Budget, v: Verified, locals: seq<map<string, Value>>, depth: nat, steps: nat, bytes: nat)
    requires bytes <= b.maxTotalBytes && Eval(rt, b, v, locals, depth, steps, bytes).Done?
    ensures var o := Eval(rt, b, v, locals, depth, steps, bytes);
      o.steps <= steps + Size(v) && bytes <= o.bytes <= b.maxTotalBytes
  {
    hide Eval, Size, Height;
    var c := b.(maxSteps := b.maxSteps + steps + Size(v), maxDepth := b.maxDepth + depth + Height(v));
    EvalMonotone(rt, b, c, v, locals, depth, steps, bytes);
    EvalCovered(rt, c, v, locals, depth, steps, bytes);
  }

  // ----- static admission -----

  /** The step and depth limits of `EvalLimits::default()`. */
  const DEFAULT_MAX_STEPS: nat := 10_000
  const DEFAULT_MAX_DEPTH: nat := 128

  /** Every built-in profile admits at most this many nodes. */
  const LARGEST_PROFILE_NODES: nat := 8192

  /** A program accepted under any profile no larger than the built-in ones never fails for steps or
      depth under the default evaluation limits, whatever the host does. */
  lemma StaticAdmission(env: LowerSpec.Env, e: S.Expr, maxNodes: nat, rt: Runtime, b: Budget)
    requires maxNodes <= LARGEST_PROFILE_NODES && env.cap <= 128
    requires var o := LowerSpec.Analyze(env, [], [], [], e, 0); LowerSpec.Accepted(o) && o.nodes <= maxNodes
    requires b.maxSteps >= DEFAULT_MAX_STEPS && b.maxDepth >= DEFAULT_MAX_DEPTH
    ensures var o := LowerSpec.Analyze(env, [], [], [], e, 0);
      Covered(Eval(rt, b, o.expr, [], 0, 0, 0), b, o.nodes, 0, 0)
  {
    hide LowerSpec.Analyze, Eval, Size, Height;
    LowerFacts.TreeBounded(env, [], [], [], e, 0);
    EvalCovered(rt, b, LowerSpec.Analyze(env, [], [], [], e, 0).expr, [], 0, 0, 0);
  }
}
