/** The work-stack converters between runtime values and JSON. Both are the same machine over two leaf
    tables: it meters the graph it is given, and rebuilds it from a stack of finished values. */
module Converters {
  import opened Tokens
  import opened ValueGraph

  // ----- the recursive map -----

  function Map<A, B>(g: Graph<A>, conv: A -> Option<B>): Option<Graph<B>>
    decreases g, 1
  {
    match g
    case Leaf(leaf) => (match conv(leaf) case Some(b) => Some(Leaf(b)) case None => None)
    case Array(items) => (match MapAll(items, conv) case Some(bs) => Some(Array(bs)) case None => None)
    case Object(keys, members) =>
      (match MapAll(members, conv) case Some(bs) => Some(Object(keys, bs)) case None => None)
  }

  function MapAll<A, B>(gs: seq<Graph<A>>, conv: A -> Option<B>): (r: Option<seq<Graph<B>>>)
    ensures r.Some? ==> |r.value| == |gs|
    decreases gs, 0
  {
    if gs == [] then Some([])
    else
      match Map(gs[0], conv)
      case None => None
      case Some(b) => (match MapAll(gs[1..], conv) case Some(bs) => Some([b] + bs) case None => None)
  }

  // ----- the machine's stacks -----

  datatype Work<A> =
    | Convert(graph: Graph<A>, depth: nat)
    | FinishArray(start: nat)
    | FinishObject(start: nat, keys: seq<string>)

  /** The graphs among the pending work. */
  function Visits<A>(pending: seq<Work<A>>): (vs: seq<Visit<A>>)
    ensures |vs| <= |pending|
  {
    if pending == [] then []
    else
      var top := pending[|pending| - 1];
      Visits(pending[..|pending| - 1]) + (if top.Convert? then [Visit(top.graph, top.depth)] else [])
  }

  /** `keys.into_iter().zip(values)`: the shorter list decides. */
  function Zip<B>(keys: seq<string>, values: seq<Graph<B>>): Graph<B> {
    var n := if |keys| < |values| then |keys| else |values|;
    Object(keys[..n], values[..n])
  }

  /** What the finished-value stack will be once all pending work is done. */
  function Outcome<A, B>(pending: seq<Work<A>>, values: seq<Graph<B>>, conv: A -> Option<B>): Option<seq<Graph<B>>> {
    if pending == [] then Some(values)
    else
      var rest := pending[..|pending| - 1];
      match pending[|pending| - 1]
      case Convert(g, _) =>
        (match Map(g, conv) case Some(b) => Outcome(rest, values + [b], conv) case None => None)
      case FinishArray(start) =>
        if start > |values| then None
        else Outcome(rest, values[..start] + [Array(values[start..])], conv)
      case FinishObject(start, keys) =>
        if start > |values| then None
        else Outcome(rest, values[..start] + [Zip(keys, values[start..])], conv)
  }

  /** Each finishing step finds exactly the values it is to collect, and one value is left at the
      end, if `n` values are finished now. */
  predicate Balanced<A>(pending: seq<Work<A>>, n: nat) {
    if pending == [] then n == 1
    else
      var rest := pending[..|pending| - 1];
      match pending[|pending| - 1]
      case Convert(g, _) => WellFormed(g) && Balanced(rest, n + 1)
      case FinishArray(start) => start <= n && Balanced(rest, start + 1)
      case FinishObject(start, keys) => start + |keys| == n && Balanced(rest, start + 1)
  }

  /** Children as work, the first on top. */
  function Queued<A>(gs: seq<Graph<A>>, depth: nat): (ws: seq<Work<A>>)
    ensures |ws| == |gs|
  {
    if gs == [] then [] else Queued(gs[1..], depth) + [Convert(gs[0], depth)]
  }

  lemma Top<A>(rest: seq<Work<A>>, w: Work<A>)
    ensures (rest + [w])[..|rest + [w]| - 1] == rest && (rest + [w])[|rest + [w]| - 1] == w
  {
  }

  lemma VisitsPush<A>(rest: seq<Work<A>>, w: Work<A>)
    ensures Visits(rest + [w]) == Visits(rest) + if w.Convert? then [Visit(w.graph, w.depth)] else []
  {
    Top(rest, w);
  }

  lemma {:induction false} VisitsQueued<A>(rest: seq<Work<A>>, gs: seq<Graph<A>>, depth: nat)
    ensures Visits(rest + Queued(gs, depth)) == Visits(rest) + Scheduled(gs, depth)
  {
    hide Visits;
    if gs == [] {
      assert rest + Queued(gs, depth) == rest;
    } else {
      VisitsQueued(rest, gs[1..], depth);
      var more, w := rest + Queued(gs[1..], depth), Convert(gs[0], depth);
      assert rest + Queued(gs, depth) == more + [w];
      VisitsPush(more, w);
      var v := Visit(gs[0], depth);
      assert Scheduled(gs, depth) == Scheduled(gs[1..], depth) + [v];
      assert Visits(rest) + Scheduled(gs[1..], depth) + [v] == Visits(rest) + (Scheduled(gs[1..], depth) + [v]);
    }
  }

  lemma OutcomePush<A, B>(rest: seq<Work<A>>, g: Graph<A>, depth: nat, values: seq<Graph<B>>, conv: A -> Option<B>)
    ensures Outcome(rest + [Convert(g, depth)], values, conv)
         == match Map(g, conv) case Some(b) => Outcome(rest, values + [b], conv) case None => None
  {
    Top(rest, Convert(g, depth));
  }

  lemma {:induction false} OutcomeQueued<A, B>(
    rest: seq<Work<A>>, gs: seq<Graph<A>>, depth: nat, values: seq<Graph<B>>, conv: A -> Option<B>)
    ensures Outcome(rest + Queued(gs, depth), values, conv)
         == match MapAll(gs, conv) case Some(bs) => Outcome(rest, values + bs, conv) case None => None
    decreases |gs|
  {
    hide Outcome;
    if gs == [] {
      assert rest + Queued(gs, depth) == rest;
      assert values + [] == values;
    } else {
      var more := rest + Queued(gs[1..], depth);
      assert rest + Queued(gs, depth) == more + [Convert(gs[0], depth)];
      OutcomePush(more, gs[0], depth, values, conv);
      match Map(gs[0], conv)
      case None =>
      case Some(b) =>
        OutcomeQueued(rest, gs[1..], depth, values + [b], conv);
        var bs := MapAll(gs[1..], conv);
        if bs.Some? { assert values + [b] + bs.value == values + ([b] + bs.value); }
    }
  }

  /** A container may be replaced by its children and the step that collects them. */
  lemma OutcomeArray<A, B>(rest: seq<Work<A>>, items: seq<Graph<A>>, depth: nat, values: seq<Graph<B>>, conv: A -> Option<B>)
    ensures Outcome(rest + [Convert(Array(items), depth)], values, conv)
         == Outcome(rest + [FinishArray(|values|)] + Queued(items, depth + 1), values, conv)
  {
    OutcomePush(rest, Array(items), depth, values, conv);
    OutcomeQueued(rest + [FinishArray(|values|)], items, depth + 1, values, conv);
    Top(rest, FinishArray(|values|));
    var bs := MapAll(items, conv);
    if bs.Some? {
      assert (values + bs.value)[..|values|] == values && (values + bs.value)[|values|..] == bs.value;
    }
  }

  lemma OutcomeObject<A, B>(
    rest: seq<Work<A>>, keys: seq<string>, members: seq<Graph<A>>, depth: nat, values: seq<Graph<B>>, conv: A -> Option<B>)
    requires |keys| == |members|
    ensures Outcome(rest + [Convert(Object(keys, members), depth)], values, conv)
         == Outcome(rest + [FinishObject(|values|, keys)] + Queued(members, depth + 1), values, conv)
  {
    OutcomePush(rest, Object(keys, members), depth, values, conv);
    OutcomeQueued(rest + [FinishObject(|values|, keys)], members, depth + 1, values, conv);
    Top(rest, FinishObject(|values|, keys));
    var bs := MapAll(members, conv);
    if bs.Some? {
      assert (values + bs.value)[..|values|] == values && (values + bs.value)[|values|..] == bs.value;
      assert keys[..|keys|] == keys && bs.value[..|keys|] == bs.value;
    }
  }

  lemma {:induction false} BalancedQueued<A>(rest: seq<Work<A>>, gs: seq<Graph<A>>, depth: nat, n: nat)
    requires forall i :: 0 <= i < |gs| ==> WellFormed(gs[i])
    ensures Balanced(rest + Queued(gs, depth), n) <==> Balanced(rest, n + |gs|)
    decreases |gs|
  {
    if gs == [] {
      assert rest + Queued(gs, depth) == rest;
    } else {
      var more := rest + Queued(gs[1..], depth);
      assert rest + Queued(gs, depth) == more + [Convert(gs[0], depth)];
      Top(more, Convert(gs[0], depth));
      BalancedQueued(rest, gs[1..], depth, n + 1);
    }
  }

  // ----- metering -----

  /** `ValueGraphMeter`: counters that are validated after every change. */
  class ValueGraphMeter {
    const limits: Limits
    var metrics: Metrics

    predicate Valid() { IsUsize(limits) && limits.maxDepth <= MAX_VALUE_DEPTH }

    constructor (limits: Limits)
      requires IsUsize(limits)
      ensures Valid() && metrics == NoMetrics && this.limits == limits.(maxDepth := DepthCap(limits))
    {
      this.limits := limits.(maxDepth := DepthCap(limits));
      metrics := NoMetrics;
    }

    method AddNode(depth: nat) returns (error: Option<Refusal>)
      requires Valid()
      modifies this
      ensures error.None? <==> Fits(Beside(old(metrics), Metrics(depth, 1, 0, 1)), limits)
      ensures error.None? ==> metrics == Beside(old(metrics), Metrics(depth, 1, 0, 1))
      ensures error.Some? ==> Over(error.value, Beside(old(metrics), Metrics(depth, 1, 0, 1)), limits)
    {
      var nodes := CheckedAdd(metrics.nodes, 1);
      if nodes.None? { return Some(CounterOverflow); }
      metrics := metrics.(nodes := nodes.value);
      var bytes := CheckedAdd(metrics.bytes, 1);
      if bytes.None? { return Some(CounterOverflow); }
      metrics := metrics.(bytes := bytes.value);
      if metrics.depth < depth { metrics := metrics.(depth := depth); }
      error := Validate();
    }

    method AddBytes(bytes: nat) returns (error: Option<Refusal>)
      requires Valid()
      modifies this
      ensures error.None? <==> Fits(Beside(old(metrics), Metrics(0, 0, 0, bytes)), limits)
      ensures error.None? ==> metrics == Beside(old(metrics), Metrics(0, 0, 0, bytes))
      ensures error.Some? ==> Over(error.value, Beside(old(metrics), Metrics(0, 0, 0, bytes)), limits)
    {
      var total := CheckedAdd(metrics.bytes, bytes);
      if total.None? { return Some(CounterOverflow); }
      metrics := metrics.(bytes := total.value);
      error := Validate();
    }

    /** Charges `children` items and refuses early what could not fit with `pending` values waiting. */
    method ReserveChildren(children: nat, depth: nat, pending: nat) returns (r: Checked<nat>)
      requires Valid()
      modifies this
      ensures r.Pass? <==>
        && Fits(Beside(old(metrics), Metrics(0, 0, children, 0)), limits)
        && depth + 1 <= limits.maxDepth
        && old(metrics).nodes + pending + children <= limits.maxNodes
        && old(metrics).bytes + pending + children <= limits.maxBytes
      ensures r.Pass? ==> r.value == depth + 1
      ensures r.Pass? ==> metrics == Beside(old(metrics), Metrics(0, 0, children, 0))
      ensures r.Fail? ==>
        Over(r.error, Beside(old(metrics), Metrics(depth + 1, pending + children, children, pending + children)), limits)
    {
      var items := CheckedAdd(metrics.items, children);
      if items.None? { return Fail(CounterOverflow); }
      metrics := metrics.(items := items.value);
      var bad := Validate();
      if bad.Some? { return Fail(bad.value); }
      if depth + 1 > limits.maxDepth { return Fail(DepthLimit); }
      var scheduled := CheckedAdd(metrics.nodes, pending + children);
      if scheduled.None? { return Fail(CounterOverflow); }
      if scheduled.value > limits.maxNodes { return Fail(NodeLimit); }
      var least := CheckedAdd(metrics.bytes, pending + children);
      if least.None? { return Fail(CounterOverflow); }
      if least.value > limits.maxBytes { return Fail(ByteLimit); }
      r := Pass(depth + 1);
    }

    method Validate() returns (error: Option<Refusal>)
      requires Valid()
      ensures error.None? <==> Fits(metrics, limits)
      ensures error.Some? ==> Over(error.value, metrics, limits)
    {
      error :=
        if metrics.depth > limits.maxDepth then Some(DepthLimit)
        else if metrics.nodes > limits.maxNodes then Some(NodeLimit)
        else if metrics.items > limits.maxItems then Some(ItemLimit)
        else if metrics.bytes > limits.maxBytes then Some(ByteLimit)
        else None;
    }
  }

  // ----- the machine -----

  /** What holds between two steps: the finished values and the pending work still make the converted
      root, every counter is exact, and what has been counted fits. */
  ghost predicate Running<A, B>(
    root: Graph<A>, conv: A -> Option<B>, size: A -> nat,
    m: Metrics, limits: Limits, pending: seq<Work<A>>, pendingValues: nat, values: seq<Graph<B>>)
  {
    && Traverses(m, Visits(pending), Measure(root, size), size)
    && Fits(m, limits)
    && pendingValues == |Visits(pending)|
    && Balanced(pending, |values|)
    && Outcome(pending, values, conv) == Outcome([Convert(root, 1)], [], conv)
  }

  lemma RunBegins<A, B>(root: Graph<A>, conv: A -> Option<B>, size: A -> nat, limits: Limits)
    requires WellFormed(root)
    ensures Running(root, conv, size, NoMetrics, limits, [Convert(root, 1)], 1, [])
  {
    var pending := [Convert(root, 1)];
    Top([], Convert(root, 1));
    assert [] + pending == pending;
    VisitsPush([], Convert(root, 1));
    assert Visits(pending) == [Visit(root, 1)];
    TraversalBegins(root, size, _ => true);
  }

  /** With no work left there is exactly one finished value, the converted root, and the counters are
      the root's size. */
  lemma RunEnds<A, B>(
    root: Graph<A>, conv: A -> Option<B>, size: A -> nat, m: Metrics, limits: Limits, values: seq<Graph<B>>)
    requires Running(root, conv, size, m, limits, [], 0, values)
    ensures |values| == 1 && Map(root, conv) == Some(values[0])
    ensures m == Measure(root, size)
  {
    OutcomePush([], root, 1, values[..0], conv);
    assert [] + [Convert(root, 1)] == [Convert(root, 1)] && values[..0] == [];
    var b := Map(root, conv);
    if b.Some? { assert [] + [b.value] == [b.value]; }
  }

  lemma NoneLeft<A, B>(
    root: Graph<A>, conv: A -> Option<B>, size: A -> nat, m: Metrics, limits: Limits,
    pendingValues: nat, values: seq<Graph<B>>)
    requires Running(root, conv, size, m, limits, [], pendingValues, values)
    ensures pendingValues == 0 && |values| == 1 && Fits(m, limits)
  {
  }

  /** A finishing step collects exactly the values it is to collect. */
  lemma FinishStep<A, B>(
    root: Graph<A>, conv: A -> Option<B>, size: A -> nat, m: Metrics, limits: Limits,
    rest: seq<Work<A>>, w: Work<A>, pendingValues: nat, values: seq<Graph<B>>)
    requires !w.Convert? && Running(root, conv, size, m, limits, rest + [w], pendingValues, values)
    ensures w.start <= |values|
    ensures var tail := values[w.start..];
      var done := if w.FinishArray? then Array(tail) else Zip(w.keys, tail);
      && Running(root, conv, size, m, limits, rest, pendingValues, values[..w.start] + [done])
      && (w.FinishObject? ==> done == Object(w.keys, tail))
    ensures Visits(rest) == Visits(rest + [w])
  {
    Top(rest, w);
    VisitsPush(rest, w);
    assert Visits(rest) + [] == Visits(rest);
    if w.FinishObject? { assert w.keys[..|w.keys|] == w.keys && values[w.start..][..|w.keys|] == values[w.start..]; }
  }

  /** Taking a graph off the stack is never an underflow, and an early refusal is a refusal of the
      root. */
  lemma ConvertStep<A, B>(
    root: Graph<A>, conv: A -> Option<B>, size: A -> nat, m: Metrics, limits: Limits,
    rest: seq<Work<A>>, g: Graph<A>, depth: nat, pendingValues: nat, values: seq<Graph<B>>)
    requires Running(root, conv, size, m, limits, rest + [Convert(g, depth)], pendingValues, values)
    ensures pendingValues == |Visits(rest)| + 1 && WellFormed(g)
    ensures Foreseen(m, Visit(g, depth), |Visits(rest)|, limits, size) ==> !Fits(Measure(root, size), limits)
    ensures AtMost(Foreknown(m, Visit(g, depth), |Visits(rest)|, size), Measure(root, size))
  {
    Top(rest, Convert(g, depth));
    VisitsPush(rest, Convert(g, depth));
    ForeseenRefuses(m, Visits(rest), Visit(g, depth), Measure(root, size), limits, size);
  }

  /** A leaf: counted, converted, finished. One that cannot be converted makes the root unconvertible. */
  lemma LeafStep<A, B>(
    root: Graph<A>, conv: A -> Option<B>, size: A -> nat, m: Metrics, limits: Limits,
    rest: seq<Work<A>>, leaf: A, depth: nat, pendingValues: nat, values: seq<Graph<B>>)
    requires Running(root, conv, size, m, limits, rest + [Convert(Leaf(leaf), depth)], pendingValues, values)
    requires pendingValues > 0
    ensures conv(leaf).None? ==> Map(root, conv).None?
    ensures var m' := Beside(m, Own(Visit(Leaf(leaf), depth), size));
      conv(leaf).Some? && Fits(m', limits) ==>
        Running(root, conv, size, m', limits, rest, pendingValues - 1, values + [Leaf(conv(leaf).value)])
  {
    var g := Leaf(leaf);
    Top(rest, Convert(g, depth));
    VisitsPush(rest, Convert(g, depth));
    OutcomePush(rest, g, depth, values, conv);
    RootOutcome(root, conv);
    TraversalStep(m, Visits(rest), Visit(g, depth), Measure(root, size), size);
    assert Visits(rest) + Scheduled(Children(g), depth + 1) == Visits(rest);
  }

  lemma RootOutcome<A, B>(root: Graph<A>, conv: A -> Option<B>)
    ensures Outcome([Convert(root, 1)], [], conv)
         == match Map(root, conv) case Some(b) => Some([b]) case None => None
  {
    OutcomePush([], root, 1, [], conv);
    assert [] + [Convert(root, 1)] == [Convert(root, 1)];
    var b := Map(root, conv);
    if b.Some? { assert [] + [b.value] == [b.value]; }
  }

  function Finisher<A>(g: Graph<A>, start: nat): Work<A>
    requires !g.Leaf?
  {
    if g.Array? then FinishArray(start) else FinishObject(start, g.keys)
  }

  lemma BalancedContainer<A>(rest: seq<Work<A>>, g: Graph<A>, depth: nat, n: nat)
    requires !g.Leaf? && Balanced(rest + [Convert(g, depth)], n)
    ensures Balanced(rest + [Finisher(g, n)] + Queued(Children(g), depth + 1), n)
  {
    Top(rest, Convert(g, depth));
    Top(rest, Finisher(g, n));
    BalancedQueued(rest + [Finisher(g, n)], Children(g), depth + 1, n);
  }

  lemma OutcomeContainer<A, B>(
    rest: seq<Work<A>>, g: Graph<A>, depth: nat, values: seq<Graph<B>>, conv: A -> Option<B>)
    requires !g.Leaf? && WellFormed(g)
    ensures Outcome(rest + [Convert(g, depth)], values, conv)
         == Outcome(rest + [Finisher(g, |values|)] + Queued(Children(g), depth + 1), values, conv)
  {
    hide Outcome;
    if g.Array? {
      OutcomeArray(rest, g.items, depth, values, conv);
    } else {
      OutcomeObject(rest, g.keys, g.members, depth, values, conv);
    }
  }

  lemma VisitsContainer<A>(rest: seq<Work<A>>, g: Graph<A>, depth: nat, n: nat)
    requires !g.Leaf?
    ensures Visits(rest + [Convert(g, depth)]) == Visits(rest) + [Visit(g, depth)]
    ensures Visits(rest + [Finisher(g, n)] + Queued(Children(g), depth + 1))
         == Visits(rest) + Scheduled(Children(g), depth + 1)
  {
    VisitsPush(rest, Convert(g, depth));
    VisitsPush(rest, Finisher(g, n));
    assert Visits(rest) + [] == Visits(rest);
    VisitsQueued(rest + [Finisher(g, n)], Children(g), depth + 1);
  }

  lemma BalancedWellFormed<A>(rest: seq<Work<A>>, g: Graph<A>, depth: nat, n: nat)
    requires Balanced(rest + [Convert(g, depth)], n)
    ensures WellFormed(g)
  {
    Top(rest, Convert(g, depth));
  }

  /** A container: counted, and replaced by its children and the step that collects them. */
  lemma ContainerStep<A, B>(
    root: Graph<A>, conv: A -> Option<B>, size: A -> nat, m: Metrics, limits: Limits,
    rest: seq<Work<A>>, g: Graph<A>, depth: nat, pendingValues: nat, values: seq<Graph<B>>)
    requires Running(root, conv, size, m, limits, rest + [Convert(g, depth)], pendingValues, values)
    requires !g.Leaf? && pendingValues > 0
    requires Fits(Beside(m, Own(Visit(g, depth), size)), limits)
    ensures Running(root, conv, size, Beside(m, Own(Visit(g, depth), size)), limits,
                    rest + [Finisher(g, |values|)] + Queued(Children(g), depth + 1),
                    pendingValues - 1 + |Children(g)|, values)
  {
    hide Visits, Outcome, Balanced, Traverses, Fits, Measure, Beside, Own, Finisher, WellFormed;
    BalancedWellFormed(rest, g, depth, |values|);
    VisitsContainer(rest, g, depth, |values|);
    TraversalStep(m, Visits(rest), Visit(g, depth), Measure(root, size), size);
    BalancedContainer(rest, g, depth, |values|);
    OutcomeContainer(rest, g, depth, values, conv);
  }

  /** The converter object: the meter, the work, and the finished values. */
  class Converter<A(!new), B> {
    const conv: A -> Option<B>
    const size: A -> nat
    const refuses: A -> Refusal
    const meter: ValueGraphMeter
    var pending: seq<Work<A>>
    var pendingValues: nat
    var values: seq<Graph<B>>

    ghost predicate Runs(root: Graph<A>)
      reads this, meter
    {
      && meter.Valid()
      && Running(root, conv, size, meter.metrics, meter.limits, pending, pendingValues, values)
    }

    constructor (root: Graph<A>, limits: Limits, conv: A -> Option<B>, size: A -> nat, refuses: A -> Refusal)
      requires WellFormed(root) && IsUsize(limits)
      ensures Runs(root) && fresh(meter) && pendingValues == 1 && values == []
      ensures this.conv == conv && this.size == size && this.refuses == refuses && meter.limits == limits.(maxDepth := DepthCap(limits))
    {
      this.conv, this.size, this.refuses := conv, size, refuses;
      meter := new ValueGraphMeter(limits);
      pending, pendingValues, values := [Convert(root, 1)], 1, [];
      new;
      RunBegins(root, conv, size, meter.limits);
    }

    /** The error names a limit that the root exceeds, or is that of a leaf that does not convert. */
    ghost predicate Explained(root: Graph<A>, error: Refusal) {
      || Over(error, Measure(root, size), meter.limits)
      || (Map(root, conv).None? && exists leaf :: conv(leaf).None? && refuses(leaf) == error)
    }

    /** Runs the work to its end. It succeeds exactly when the root's recursive size fits and all its
        leaves convert; the result is the recursive map. The pending-value counter never underflows
        and exactly one value is left. */
    method Run(root: Graph<A>) returns (r: Checked<Graph<B>>)
      requires Runs(root)
      modifies this, meter
      ensures r.Pass? <==> Fits(Measure(root, size), meter.limits) && Map(root, conv).Some?
      ensures r.Pass? ==> Map(root, conv) == Some(r.value) && meter.metrics == Measure(root, size)
      ensures r.Fail? ==> Explained(root, r.error)
    {
      hide Explained, Running, Fits, Measure, Map, Visits, Left, Zip;
      while pending != []
        invariant Runs(root)
        decreases Left(Visits(pending), size).nodes, |pending|
      {
        var w := pending[|pending| - 1];
        var rest := pending[..|pending| - 1];
        assert pending == rest + [w];
        pending := rest;
        match w
        case Convert(g, depth) =>
          ConvertStep(root, conv, size, meter.metrics, meter.limits, rest, g, depth, pendingValues, values);
          pendingValues := pendingValues - 1;
          var error := ConvertValue(root, g, depth);
          if error.Some? {
            return Fail(error.value);
          }
        case FinishArray(start) =>
          FinishStep(root, conv, size, meter.metrics, meter.limits, rest, w, pendingValues, values);
          values := values[..start] + [Array(values[start..])];
        case FinishObject(start, keys) =>
          FinishStep(root, conv, size, meter.metrics, meter.limits, rest, w, pendingValues, values);
          values := values[..start] + [Zip(keys, values[start..])];
      }
      NoneLeft(root, conv, size, meter.metrics, meter.limits, pendingValues, values);
      RunEnds(root, conv, size, meter.metrics, meter.limits, values);
      r := Pass(values[0]);
    }

    /** Counts one graph and either finishes it or schedules its children. */
    method ConvertValue(ghost root: Graph<A>, g: Graph<A>, depth: nat) returns (error: Option<Refusal>)
      requires meter.Valid()
      requires Running(root, conv, size, meter.metrics, meter.limits,
                       pending + [Convert(g, depth)], pendingValues + 1, values)
      requires pendingValues == |Visits(pending)|
      modifies this, meter
      ensures error.None? ==> Runs(root)
      ensures error.None? ==>
        Left(Visits(pending), size).nodes < Left(Visits(old(pending) + [Convert(g, depth)]), size).nodes
      ensures error.Some? ==> !Fits(Measure(root, size), meter.limits) || Map(root, conv).None?
      ensures error.Some? ==> Explained(root, error.value)
    {
      hide Running, Fits, Measure, Map, Visits, Left, Own, Beside, Foreseen, Queued, Over, AtMost, Foreknown;
      ghost var m, rest := meter.metrics, pending;
      ghost var v := Visit(g, depth);
      ConvertStep(root, conv, size, m, meter.limits, rest, g, depth, pendingValues + 1, values);
      PartialCounts(m, v, pendingValues, meter.limits, size);
      PartsAddUp(m, v, size);
      CountedLess(rest, g, depth, size);
      error := meter.AddNode(depth);
      if error.Some? {
        PartialOver(error.value, m, v, pendingValues, Measure(root, size), meter.limits, size);
        return;
      }
      match g
      case Leaf(leaf) =>
        LeafStep(root, conv, size, m, meter.limits, rest, leaf, depth, pendingValues + 1, values);
        error := meter.AddBytes(size(leaf));
        if error.Some? {
          PartialOver(error.value, m, v, pendingValues, Measure(root, size), meter.limits, size);
          return;
        }
        var converted := conv(leaf);
        if converted.None? { return Some(refuses(leaf)); }
        values := values + [Leaf(converted.value)];
      case Array(items) =>
        error := Schedule(root, g, depth, m);
      case Object(keys, members) =>
        error := Schedule(root, g, depth, m);
    }

    /** `schedule_array` and `schedule_object`: an empty container is finished at once; the children of
        another are reserved, its keys charged, and the children pushed over a finishing step. */
    method Schedule(ghost root: Graph<A>, g: Graph<A>, depth: nat, ghost m: Metrics) returns (error: Option<Refusal>)
      requires !g.Leaf? && meter.Valid() && pendingValues == |Visits(pending)|
      requires Running(root, conv, size, m, meter.limits, pending + [Convert(g, depth)], pendingValues + 1, values)
      requires meter.metrics == Tagged(m, depth) && Fits(meter.metrics, meter.limits)
      modifies this, meter
      ensures error.None? ==> Runs(root)
      ensures error.None? ==>
        Left(Visits(pending), size).nodes < Left(Visits(old(pending) + [Convert(g, depth)]), size).nodes
      ensures error.Some? ==> !Fits(Measure(root, size), meter.limits) || Map(root, conv).None?
      ensures error.Some? ==> Explained(root, error.value)
    {
      hide Running, Fits, Measure, Map, Visits, Left, Own, Beside, Foreseen, Queued, Finisher, Over, AtMost, Foreknown;
      ghost var rest, v := pending, Visit(g, depth);
      ConvertStep(root, conv, size, m, meter.limits, rest, g, depth, pendingValues + 1, values);
      PartialCounts(m, v, pendingValues, meter.limits, size);
      PartsAddUp(m, v, size);
      CountedLess(rest, g, depth, size);
      var children := Children(g);
      if children == [] {
        EmptyStep(root, conv, size, m, meter.limits, rest, g, depth, pendingValues + 1, values);
        values := values + [if g.Array? then Array([]) else Object([], [])];
        return None;
      }
      var reserved := meter.ReserveChildren(|children|, depth, pendingValues);
      if reserved.Fail? {
        PartialOver(reserved.error, m, v, pendingValues, Measure(root, size), meter.limits, size);
        return Some(reserved.error);
      }
      if g.Object? {
        error := meter.AddBytes(KeyBytes(g.keys));
        if error.Some? {
          PartialOver(error.value, m, v, pendingValues, Measure(root, size), meter.limits, size);
          return;
        }
      }
      ContainerStep(root, conv, size, m, meter.limits, rest, g, depth, pendingValues + 1, values);
      VisitsContainer(rest, g, depth, |values|);
      var start := |values|;
      pending := pending + [Finisher(g, start)];
      pendingValues := pendingValues + |children|;
      PushQueued(children, reserved.value);
      error := None;
    }

    /** `pending.extend(values.into_iter().rev())`. */
    method PushQueued(children: seq<Graph<A>>, depth: nat)
      modifies this`pending
      ensures pending == old(pending) + Queued(children, depth)
    {
      var i := |children|;
      while i > 0
        invariant 0 <= i <= |children|
        invariant pending == old(pending) + Queued(children[i..], depth)
      {
        i := i - 1;
        assert children[i..][0] == children[i] && children[i..][1..] == children[i + 1..];
        pending := pending + [Convert(children[i], depth)];
      }
      assert children[0..] == children;
    }
  }

  /** The tag of a node, counted first. */
  function Tagged(m: Metrics, depth: nat): Metrics { Beside(m, Metrics(depth, 1, 0, 1)) }

  /** What the early reservation of `n` children requires after the tag has been counted. */
  predicate Reservable(tag: Metrics, n: nat, depth: nat, pending: nat, limits: Limits) {
    && Fits(Beside(tag, Metrics(0, 0, n, 0)), limits)
    && depth + 1 <= DepthCap(limits)
    && tag.nodes + pending + n <= limits.maxNodes
    && tag.bytes + pending + n <= limits.maxBytes
  }

  /** Each partial count of a node is part of its whole count, so what refuses it refuses the node. */
  lemma PartialCounts<A>(m: Metrics, v: Visit<A>, pending: nat, limits: Limits, size: A -> nat)
    ensures !Fits(Tagged(m, v.depth), limits) ==> Foreseen(m, v, pending, limits, size)
    ensures !Fits(Beside(m, Own(v, size)), limits) ==> Foreseen(m, v, pending, limits, size)
    ensures Children(v.graph) != [] && !Reservable(Tagged(m, v.depth), |Children(v.graph)|, v.depth, pending, limits) ==>
      Foreseen(m, v, pending, limits, size)
  {
  }

  /** A limit that a partial count exceeds is exceeded by the whole. */
  lemma PartialOver<A>(
    error: Refusal, m: Metrics, v: Visit<A>, pending: nat, whole: Metrics, limits: Limits, size: A -> nat)
    requires AtMost(Foreknown(m, v, pending, size), whole)
    ensures Over(error, Tagged(m, v.depth), limits) ==> Over(error, whole, limits)
    ensures Over(error, Beside(m, Own(v, size)), limits) ==> Over(error, whole, limits)
    ensures
      var n := |Children(v.graph)|;
      n > 0 && Over(error, Beside(Tagged(m, v.depth), Metrics(v.depth + 1, pending + n, n, pending + n)), limits) ==>
        Over(error, whole, limits)
  {
    var known, n := Foreknown(m, v, pending, size), |Children(v.graph)|;
    assert AtMost(Tagged(m, v.depth), known) && AtMost(Beside(m, Own(v, size)), known);
    if Over(error, known, limits) { OverMore(error, known, whole, limits); }
  }

  /** The parts add up to the whole count, in whatever order they were counted. */
  lemma PartsAddUp<A>(m: Metrics, v: Visit<A>, size: A -> nat)
    ensures var tag, n := Tagged(m, v.depth), |Children(v.graph)|;
      && (v.graph.Leaf? ==> Beside(tag, Metrics(0, 0, 0, size(v.graph.leaf))) == Beside(m, Own(v, size)))
      && (v.graph.Array? ==> Beside(tag, Metrics(0, 0, n, 0)) == Beside(m, Own(v, size)))
      && (v.graph.Object? ==>
            Beside(Beside(tag, Metrics(0, 0, n, 0)), Metrics(0, 0, 0, KeyBytes(v.graph.keys))) == Beside(m, Own(v, size)))
  {
  }

  /** An empty container counts as its tag and is finished at once. */
  lemma EmptyStep<A, B>(
    root: Graph<A>, conv: A -> Option<B>, size: A -> nat, m: Metrics, limits: Limits,
    rest: seq<Work<A>>, g: Graph<A>, depth: nat, pendingValues: nat, values: seq<Graph<B>>)
    requires Running(root, conv, size, m, limits, rest + [Convert(g, depth)], pendingValues, values)
    requires !g.Leaf? && Children(g) == [] && pendingValues > 0 && Fits(Tagged(m, depth), limits)
    ensures Running(root, conv, size, Tagged(m, depth), limits, rest, pendingValues - 1,
                    values + [if g.Array? then Array([]) else Object([], [])])
  {
    BalancedWellFormed(rest, g, depth, |values|);
    EmptyOwn(m, Visit(g, depth), size);
    hide Running, Fits, Measure, Map, Visits, Left, Own, Beside, WellFormed, Finisher;
    ContainerStep(root, conv, size, m, limits, rest, g, depth, pendingValues, values);
    var w: Work<A> := Finisher(g, |values|);
    assert rest + [w] + Queued(Children(g), depth + 1) == rest + [w];
    FinisherParts(g, |values|);
    FinishStep(root, conv, size, Tagged(m, depth), limits, rest, w, pendingValues - 1, values);
    assert values[..|values|] == values && values[|values|..] == [];
  }

  lemma EmptyOwn<A>(m: Metrics, v: Visit<A>, size: A -> nat)
    requires !v.graph.Leaf? && Children(v.graph) == [] && WellFormed(v.graph)
    ensures Beside(m, Own(v, size)) == Tagged(m, v.depth)
  {
  }

  lemma FinisherParts<A>(g: Graph<A>, start: nat)
    requires !g.Leaf?
    ensures var w: Work<A> := Finisher(g, start);
      && !w.Convert? && w.start == start && (w.FinishArray? <==> g.Array?) && (w.FinishObject? ==> w.keys == g.keys)
    ensures Children(g) == [] && WellFormed(g) && g.Object? ==> g.keys == []
  {
  }

  lemma CountedLess<A>(rest: seq<Work<A>>, g: Graph<A>, depth: nat, size: A -> nat)
    ensures Left(Visits(rest) + Scheduled(Children(g), depth + 1), size).nodes
          < Left(Visits(rest + [Convert(g, depth)]), size).nodes
    ensures Children(g) == [] ==>
      Left(Visits(rest), size).nodes < Left(Visits(rest + [Convert(g, depth)]), size).nodes
  {
    VisitsPush(rest, Convert(g, depth));
    LeftPush(Visits(rest), Visit(g, depth), size);
    ScheduledLeft(Visits(rest), Children(g), depth + 1, size);
    VisitParts(Visit(g, depth), size);
    if Children(g) == [] { assert Visits(rest) + Scheduled(Children(g), depth + 1) == Visits(rest); }
  }
}
