/** Exactly what an evaluation consumes: the steps, levels and bytes a tree with a meaning takes, so that
    budgeted evaluation succeeds if and only if there is a meaning and the budget covers them. */
module Resources {
  import opened Program
  import opened ValueGraph
  import opened EvalSpec
  import opened Meaning
  import EvalFacts
  import S = Syntax

  /** Steps taken, levels below the root entered, and bytes charged. */
  datatype Spent = Spent(steps: nat, levels: nat, bytes: nat)

  /** One operand, and then `more`. */
  function Under(a: Spent, more: Spent): Spent {
    Spent(a.steps + more.steps, S.Max(1 + a.levels, more.levels), a.bytes + more.bytes)
  }

  const Nothing := Spent(0, 0, 0)

  /** The node itself on top of what its operands took. */
  function Node(operands: Spent, bytes: nat): Spent {
    Spent(1 + operands.steps, operands.levels, operands.bytes + bytes)
  }

  function ValueBytes(value: Value): nat { Measure(value, ScalarSize).bytes }

  function Spends(rt: Runtime, b: Budget, v: Verified, locals: seq<map<string, Value>>): (s: Spent)
    requires Means(rt, b, v, locals).Some?
    ensures s.steps >= 1
    decreases Size(v), 1
  {
    if IsLogic(v) then LogicSpends(rt, b, v, locals)
    else if v.VFunction? then FrameSpends(rt, b, v, locals)
    else
      var raw := Combine(rt, v, locals, MeansAll(rt, b, Kids(v), locals).value);
      Node(SpendsAll(rt, b, Kids(v), locals), raw.reply.work + ValueBytes(raw.reply.value.value))
  }

  function LogicSpends(rt: Runtime, b: Budget, v: Verified, locals: seq<map<string, Value>>): (s: Spent)
    requires IsLogic(v) && LogicMeans(rt, b, v, locals).Some?
    ensures s.steps >= 1
    decreases Size(v), 0
  {
    var left := Means(rt, b, v.left, locals).value;
    var right := if left.leaf.flag == (v.op == S.Or) then Nothing else Under(Spends(rt, b, v.right, locals), Nothing);
    Node(Under(Spends(rt, b, v.left, locals), right), ValueBytes(LogicMeans(rt, b, v, locals).value))
  }

  function FrameSpends(rt: Runtime, b: Budget, v: Verified, locals: seq<map<string, Value>>): (s: Spent)
    requires v.VFunction? && FrameMeans(rt, b, v, locals).Some?
    ensures s.steps >= 1
    decreases Size(v), 0
  {
    var values := MeansAll(rt, b, v.args, locals).value;
    Node(Under(Spends(rt, b, v.body, locals + [Frame(v.params, values)]), SpendsAll(rt, b, v.args, locals)), 0)
  }

  function SpendsAll(rt: Runtime, b: Budget, vs: seq<Verified>, locals: seq<map<string, Value>>): Spent
    requires MeansAll(rt, b, vs, locals).Some?
    decreases SizeAll(vs), 2 + |vs|
  {
    if vs == [] then Nothing else Under(Spends(rt, b, vs[0], locals), SpendsAll(rt, b, vs[1..], locals))
  }

  /** From these counters the budget covers what is spent. */
  predicate Covers(b: Budget, s: Spent, depth: nat, steps: nat, bytes: nat) {
    && steps + s.steps <= b.maxSteps && depth + s.levels <= b.maxDepth && bytes + s.bytes <= b.maxTotalBytes
  }

  /** Operands start one level down, and there may be none. */
  predicate CoversOperands(b: Budget, s: Spent, depth: nat, steps: nat, bytes: nat) {
    && steps + s.steps <= b.maxSteps && (s.levels == 0 || depth - 1 + s.levels <= b.maxDepth)
    && bytes + s.bytes <= b.maxTotalBytes
  }

  /** Success exactly when covered, with exactly the counters it should leave. */
  ghost predicate Exact<T>(o: Outcome<T>, value: T, covered: bool, s: Spent, steps: nat, bytes: nat) {
    && (o.Done? <==> covered)
    && (o.Done? ==> o == Done(value, steps + s.steps, bytes + s.bytes))
  }

  lemma {:induction false} SpendsExactly(
    rt: Runtime, b: Budget, v: Verified, locals: seq<map<string, Value>>, depth: nat, steps: nat, bytes: nat)
    requires Means(rt, b, v, locals).Some? && bytes <= b.maxTotalBytes
    ensures var s := Spends(rt, b, v, locals);
      Exact(Eval(rt, b, v, locals, depth, steps, bytes), Means(rt, b, v, locals).value,
            Covers(b, s, depth, steps, bytes), s, steps, bytes)
    decreases Size(v), 1
  {
    hide EvalAll, EvalLogic, EvalFrame, MeansAll, LogicMeans, FrameMeans, LogicSpends, FrameSpends, SpendsAll,
      Combine, Kids, Conclude, Admits, Measure;
    if steps + 1 > b.maxSteps || depth > b.maxDepth {
    } else if IsLogic(v) {
      LogicSpendsExactly(rt, b, v, locals, depth, steps + 1, bytes);
    } else if v.VFunction? {
      FrameSpendsExactly(rt, b, v, locals, depth, steps + 1, bytes);
    } else {
      AllSpendExactly(rt, b, Kids(v), locals, depth + 1, steps + 1, bytes);
      var raw := Combine(rt, v, locals, MeansAll(rt, b, Kids(v), locals).value);
      var spent := SpendsAll(rt, b, Kids(v), locals);
      ConcludeExactly(rt, b, raw, steps + 1 + spent.steps, bytes + spent.bytes);
    }
  }

  /** A handler's answer is taken exactly when the total covers its work and its value. */
  lemma ConcludeExactly(rt: Runtime, b: Budget, raw: Raw, steps: nat, bytes: nat)
    requires ConcludeMeaning(rt, b, raw).Some?
    ensures var total := bytes + raw.reply.work + ValueBytes(raw.reply.value.value);
      && (Conclude(rt, b, raw, steps, bytes).Done? <==> total <= b.maxTotalBytes)
      && (total <= b.maxTotalBytes ==>
            Conclude(rt, b, raw, steps, bytes) == Done(ConcludeMeaning(rt, b, raw).value, steps, total))
  {
    hide Admits, Measure;
  }

  lemma {:induction false} LogicSpendsExactly(
    rt: Runtime, b: Budget, v: Verified, locals: seq<map<string, Value>>, depth: nat, steps: nat, bytes: nat)
    requires IsLogic(v) && LogicMeans(rt, b, v, locals).Some?
    requires bytes <= b.maxTotalBytes && 0 < steps <= b.maxSteps && depth <= b.maxDepth
    ensures var s := LogicSpends(rt, b, v, locals);
      Exact(EvalLogic(rt, b, v, locals, depth, steps, bytes), LogicMeans(rt, b, v, locals).value,
            Covers(b, s, depth, steps - 1, bytes), s, steps - 1, bytes)
    decreases Size(v), 0
  {
    hide Eval, Means, Admits, Measure, Spends;
    SpendsExactly(rt, b, v.left, locals, depth + 1, steps, bytes);
    var left := Means(rt, b, v.left, locals).value;
    var l := Eval(rt, b, v.left, locals, depth + 1, steps, bytes);
    if l.Done? && left.leaf.flag != (v.op == S.Or) {
      SpendsExactly(rt, b, v.right, locals, depth + 1, l.steps, l.bytes);
    }
  }

  lemma {:induction false} FrameSpendsExactly(
    rt: Runtime, b: Budget, v: Verified, locals: seq<map<string, Value>>, depth: nat, steps: nat, bytes: nat)
    requires v.VFunction? && FrameMeans(rt, b, v, locals).Some?
    requires bytes <= b.maxTotalBytes && 0 < steps <= b.maxSteps && depth <= b.maxDepth
    ensures var s := FrameSpends(rt, b, v, locals);
      Exact(EvalFrame(rt, b, v, locals, depth, steps, bytes), FrameMeans(rt, b, v, locals).value,
            Covers(b, s, depth, steps - 1, bytes), s, steps - 1, bytes)
    decreases Size(v), 0
  {
    hide Eval, EvalAll, Means, MeansAll, Frame, Spends, SpendsAll;
    AllSpendExactly(rt, b, v.args, locals, depth + 1, steps, bytes);
    var o := EvalAll(rt, b, v.args, locals, depth + 1, steps, bytes);
    if o.Done? {
      SpendsExactly(rt, b, v.body, locals + [Frame(v.params, o.value)], depth + 1, o.steps, o.bytes);
    }
  }

  lemma {:induction false} AllSpendExactly(
    rt: Runtime, b: Budget, vs: seq<Verified>, locals: seq<map<string, Value>>, depth: nat, steps: nat, bytes: nat)
    requires MeansAll(rt, b, vs, locals).Some? && depth > 0
    requires bytes <= b.maxTotalBytes && steps <= b.maxSteps
    ensures var s := SpendsAll(rt, b, vs, locals);
      Exact(EvalAll(rt, b, vs, locals, depth, steps, bytes), MeansAll(rt, b, vs, locals).value,
            CoversOperands(b, s, depth, steps, bytes), s, steps, bytes)
    decreases SizeAll(vs), 2 + |vs|
  {
    hide Eval, Means, Spends;
    if vs != [] {
      SpendsExactly(rt, b, vs[0], locals, depth, steps, bytes);
      var o := Eval(rt, b, vs[0], locals, depth, steps, bytes);
      if o.Done? { AllSpendExactly(rt, b, vs[1..], locals, depth, o.steps, o.bytes); }
    }
  }

  /** Evaluation succeeds if and only if the tree has a meaning and the budget covers what the tree
      spends; then the value is the meaning and the counters are advanced by exactly that. */
  lemma EvalDecides(
    rt: Runtime, b: Budget, v: Verified, locals: seq<map<string, Value>>, depth: nat, steps: nat, bytes: nat)
    requires bytes <= b.maxTotalBytes
    ensures var o, meaning := Eval(rt, b, v, locals, depth, steps, bytes), Means(rt, b, v, locals);
      && (o.Done? <==> meaning.Some? && Covers(b, Spends(rt, b, v, locals), depth, steps, bytes))
      && (o.Done? ==>
            var s := Spends(rt, b, v, locals);
            o == Done(meaning.value, steps + s.steps, bytes + s.bytes))
  {
    hide Eval, Means, Spends;
    EvalReflects(rt, b, v, locals, depth, steps, bytes);
    if Means(rt, b, v, locals).Some? { SpendsExactly(rt, b, v, locals, depth, steps, bytes); }
  }

  // ----- bounds -----

  /** At most a step for each node and a level for each level of the tree; the short-circuit operators
      may take fewer. */
  lemma {:induction false} SpendsWithin(rt: Runtime, b: Budget, v: Verified, locals: seq<map<string, Value>>)
    requires Means(rt, b, v, locals).Some?
    ensures Spends(rt, b, v, locals).steps <= Size(v) && Spends(rt, b, v, locals).levels <= Height(v)
    decreases Size(v), 1
  {
    hide MeansAll, LogicMeans, FrameMeans, LogicSpends, FrameSpends, SpendsAll, Combine, Kids, Measure, Size, Height, PreCheck;
    EvalFacts.NodeBounds(v);
    if IsLogic(v) {
      LogicSpendsWithin(rt, b, v, locals);
    } else if v.VFunction? {
      FrameSpendsWithin(rt, b, v, locals);
    } else {
      AllSpendWithin(rt, b, Kids(v), locals);
    }
  }

  lemma {:induction false} LogicSpendsWithin(rt: Runtime, b: Budget, v: Verified, locals: seq<map<string, Value>>)
    requires IsLogic(v) && LogicMeans(rt, b, v, locals).Some?
    ensures LogicSpends(rt, b, v, locals).steps <= Size(v) && LogicSpends(rt, b, v, locals).levels <= Height(v)
    decreases Size(v), 0
  {
    hide Means, Spends, Admits, Measure;
    SpendsWithin(rt, b, v.left, locals);
    if Means(rt, b, v.left, locals).value.leaf.flag != (v.op == S.Or) { SpendsWithin(rt, b, v.right, locals); }
  }

  lemma {:induction false} FrameSpendsWithin(rt: Runtime, b: Budget, v: Verified, locals: seq<map<string, Value>>)
    requires v.VFunction? && FrameMeans(rt, b, v, locals).Some?
    ensures FrameSpends(rt, b, v, locals).steps <= Size(v) && FrameSpends(rt, b, v, locals).levels <= Height(v)
    decreases Size(v), 0
  {
    hide Means, MeansAll, Spends, SpendsAll, Frame;
    AllSpendWithin(rt, b, v.args, locals);
    SpendsWithin(rt, b, v.body, locals + [Frame(v.params, MeansAll(rt, b, v.args, locals).value)]);
  }

  lemma {:induction false} AllSpendWithin(rt: Runtime, b: Budget, vs: seq<Verified>, locals: seq<map<string, Value>>)
    requires MeansAll(rt, b, vs, locals).Some?
    ensures SpendsAll(rt, b, vs, locals).steps <= SizeAll(vs) && SpendsAll(rt, b, vs, locals).levels <= HeightAll(vs)
    decreases SizeAll(vs), 2 + |vs|
  {
    hide Means, Spends, Size, Height;
    if vs != [] {
      SpendsWithin(rt, b, vs[0], locals);
      AllSpendWithin(rt, b, vs[1..], locals);
    }
  }

  // ----- budgets that differ in steps, depth and total only -----

  /** The same limits on single values. */
  predicate Alike(b: Budget, c: Budget) {
    b == c.(maxSteps := b.maxSteps, maxDepth := b.maxDepth, maxTotalBytes := b.maxTotalBytes)
  }

  /** Steps, depth and the byte total have no part in what a tree means or spends. */
  lemma {:induction false} MeansAlike(rt: Runtime, b: Budget, c: Budget, v: Verified, locals: seq<map<string, Value>>)
    requires Alike(b, c)
    ensures Means(rt, b, v, locals) == Means(rt, c, v, locals)
    ensures Means(rt, b, v, locals).Some? ==> Spends(rt, b, v, locals) == Spends(rt, c, v, locals)
    decreases Size(v), 1
  {
    hide MeansAll, LogicMeans, FrameMeans, LogicSpends, FrameSpends, SpendsAll, Combine, Kids, Measure;
    if IsLogic(v) {
      LogicAlike(rt, b, c, v, locals);
    } else if v.VFunction? {
      FrameAlike(rt, b, c, v, locals);
    } else {
      AllAlike(rt, b, c, Kids(v), locals);
    }
  }

  lemma {:induction false} LogicAlike(rt: Runtime, b: Budget, c: Budget, v: Verified, locals: seq<map<string, Value>>)
    requires Alike(b, c) && IsLogic(v)
    ensures LogicMeans(rt, b, v, locals) == LogicMeans(rt, c, v, locals)
    ensures LogicMeans(rt, b, v, locals).Some? ==> LogicSpends(rt, b, v, locals) == LogicSpends(rt, c, v, locals)
    decreases Size(v), 0
  {
    hide Means, Spends, Measure;
    MeansAlike(rt, b, c, v.left, locals);
    MeansAlike(rt, b, c, v.right, locals);
  }

  lemma {:induction false} FrameAlike(rt: Runtime, b: Budget, c: Budget, v: Verified, locals: seq<map<string, Value>>)
    requires Alike(b, c) && v.VFunction?
    ensures FrameMeans(rt, b, v, locals) == FrameMeans(rt, c, v, locals)
    ensures FrameMeans(rt, b, v, locals).Some? ==> FrameSpends(rt, b, v, locals) == FrameSpends(rt, c, v, locals)
    decreases Size(v), 0
  {
    hide Means, MeansAll, Spends, SpendsAll, Frame;
    AllAlike(rt, b, c, v.args, locals);
    var values := MeansAll(rt, b, v.args, locals);
    if values.Some? { MeansAlike(rt, b, c, v.body, locals + [Frame(v.params, values.value)]); }
  }

  lemma {:induction false} AllAlike(rt: Runtime, b: Budget, c: Budget, vs: seq<Verified>, locals: seq<map<string, Value>>)
    requires Alike(b, c)
    ensures MeansAll(rt, b, vs, locals) == MeansAll(rt, c, vs, locals)
    ensures MeansAll(rt, b, vs, locals).Some? ==> SpendsAll(rt, b, vs, locals) == SpendsAll(rt, c, vs, locals)
    decreases SizeAll(vs), 2 + |vs|
  {
    hide Means, Spends;
    if vs != [] {
      MeansAlike(rt, b, c, vs[0], locals);
      AllAlike(rt, b, c, vs[1..], locals);
    }
  }

  /** The budget `b` with just the steps, depth and bytes that `v` spends. */
  function Ample(rt: Runtime, b: Budget, v: Verified): (c: Budget)
    requires Means(rt, b, v, []).Some?
    ensures Alike(b, c)
  {
    var s := Spends(rt, b, v, []);
    b.(maxSteps := s.steps, maxDepth := s.levels, maxTotalBytes := s.bytes)
  }

  /** Ample budgets exist: a tree with a meaning evaluates to it under `Ample`, and under no budget with
      the same limits on values and fewer steps, levels or bytes. */
  lemma AmpleIsLeast(rt: Runtime, b: Budget, c: Budget, v: Verified)
    requires Means(rt, b, v, []).Some? && Alike(b, c)
    ensures var a := Ample(rt, b, v);
      Eval(rt, c, v, [], 0, 0, 0).Done? <==>
        c.maxSteps >= a.maxSteps && c.maxDepth >= a.maxDepth && c.maxTotalBytes >= a.maxTotalBytes
    ensures Eval(rt, c, v, [], 0, 0, 0).Done? ==> Eval(rt, c, v, [], 0, 0, 0).value == Means(rt, b, v, []).value
  {
    hide Eval, Means, Spends;
    MeansAlike(rt, b, c, v, []);
    EvalDecides(rt, c, v, [], 0, 0, 0);
  }
}
