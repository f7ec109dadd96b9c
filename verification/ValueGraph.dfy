/** Value graphs and the one recursive definition of their size. Runtime values and JSON values have
    the same shape and differ in their leaves, so the size is defined once over any leaf type. */
module ValueGraph {
  import opened Text
  import opened Tokens

  /** An object is its keys in map order and the members that go with them. */
  datatype Graph<L> =
    | Leaf(leaf: L)
    | Array(items: seq<Graph<L>>)
    | Object(keys: seq<string>, members: seq<Graph<L>>)

  predicate WellFormed<L>(g: Graph<L>) {
    match g
    case Leaf(_) => true
    case Array(items) => forall i :: 0 <= i < |items| ==> WellFormed(items[i])
    case Object(keys, members) =>
      |keys| == |members| && forall i :: 0 <= i < |members| ==> WellFormed(members[i])
  }

  const MAX_VALUE_DEPTH: nat := 128

  /** Rust's `usize`: sums that leave it are rejected by the checked additions. */
  const USIZE_MAX: nat := 0xFFFF_FFFF_FFFF_FFFF

  datatype Metrics = Metrics(depth: nat, nodes: nat, items: nat, bytes: nat)

  const NoMetrics := Metrics(0, 0, 0, 0)

  datatype Limits = Limits(maxDepth: nat, maxNodes: nat, maxItems: nat, maxBytes: nat)

  predicate IsUsize(limits: Limits) {
    limits.maxDepth <= USIZE_MAX && limits.maxNodes <= USIZE_MAX && limits.maxItems <= USIZE_MAX && limits.maxBytes <= USIZE_MAX
  }

  function DepthCap(limits: Limits): nat {
    if limits.maxDepth < MAX_VALUE_DEPTH then limits.maxDepth else MAX_VALUE_DEPTH
  }

  predicate Fits(m: Metrics, limits: Limits) {
    && m.depth <= DepthCap(limits) && m.nodes <= limits.maxNodes
    && m.items <= limits.maxItems && m.bytes <= limits.maxBytes
  }

  function Beside(a: Metrics, b: Metrics): Metrics {
    Metrics(if a.depth < b.depth then b.depth else a.depth, a.nodes + b.nodes, a.items + b.items, a.bytes + b.bytes)
  }

  function KeyBytes(keys: seq<string>): nat {
    if keys == [] then 0 else Bytes(keys[0]) + KeyBytes(keys[1..])
  }

  /** A node counts one byte for its tag, and its string or keys. */
  function OwnBytes<L>(g: Graph<L>, size: L -> nat): nat {
    match g
    case Leaf(leaf) => 1 + size(leaf)
    case Array(_) => 1
    case Object(keys, _) => 1 + KeyBytes(keys)
  }

  function Children<L>(g: Graph<L>): seq<Graph<L>> {
    match g
    case Leaf(_) => []
    case Array(items) => items
    case Object(_, members) => members
  }

  function Measure<L>(g: Graph<L>, size: L -> nat): (m: Metrics)
    ensures m.depth >= 1 && m.nodes >= 1 && m.bytes >= 1
    decreases g, 1
  {
    var below := match g
      case Leaf(_) => NoMetrics
      case Array(items) => MeasureAll(items, size)
      case Object(_, members) => MeasureAll(members, size);
    Metrics(1 + below.depth, 1 + below.nodes, |Children(g)| + below.items, OwnBytes(g, size) + below.bytes)
  }

  function MeasureAll<L>(gs: seq<Graph<L>>, size: L -> nat): (m: Metrics)
    ensures m.nodes >= |gs| && m.bytes >= |gs|
    ensures gs != [] ==> m.depth >= 1
    decreases gs, 0
  {
    if gs == [] then NoMetrics else Beside(Measure(gs[0], size), MeasureAll(gs[1..], size))
  }

  // ----- what a traversal has left -----

  datatype Visit<L> = Visit(graph: Graph<L>, depth: nat)

  function VisitMetrics<L>(v: Visit<L>, size: L -> nat): Metrics {
    var m := Measure(v.graph, size);
    m.(depth := v.depth + m.depth - 1)
  }

  /** Metrics of a work stack. */
  function Left<L>(stack: seq<Visit<L>>, size: L -> nat): (m: Metrics)
    ensures m.nodes >= |stack| && m.bytes >= |stack|
  {
    if stack == [] then NoMetrics
    else Beside(VisitMetrics(stack[|stack| - 1], size), Left(stack[..|stack| - 1], size))
  }

  /** Metrics of siblings that stand at `depth`. */
  function Below<L>(gs: seq<Graph<L>>, depth: nat, size: L -> nat): Metrics {
    var m := MeasureAll(gs, size);
    m.(depth := if gs == [] then 0 else depth + m.depth - 1)
  }

  /** Siblings as work, the first on top. */
  function Scheduled<L>(gs: seq<Graph<L>>, depth: nat): (vs: seq<Visit<L>>)
    ensures |vs| == |gs|
  {
    if gs == [] then [] else Scheduled(gs[1..], depth) + [Visit(gs[0], depth)]
  }

  lemma LeftPush<L>(stack: seq<Visit<L>>, v: Visit<L>, size: L -> nat)
    ensures Left(stack + [v], size) == Beside(VisitMetrics(v, size), Left(stack, size))
  {
    assert (stack + [v])[..|stack|] == stack;
  }

  lemma BelowParts<L>(gs: seq<Graph<L>>, depth: nat, size: L -> nat)
    requires gs != []
    ensures Below(gs, depth, size)
         == Beside(VisitMetrics(Visit(gs[0], depth), size), Below(gs[1..], depth, size))
  {
  }

  lemma BesideAssociates(a: Metrics, b: Metrics, c: Metrics)
    ensures Beside(Beside(a, b), c) == Beside(a, Beside(b, c))
    ensures Beside(NoMetrics, a) == a == Beside(a, NoMetrics)
  {
  }

  lemma {:induction false} ScheduledLeft<L>(stack: seq<Visit<L>>, gs: seq<Graph<L>>, depth: nat, size: L -> nat)
    ensures Left(stack + Scheduled(gs, depth), size) == Beside(Below(gs, depth, size), Left(stack, size))
  {
    hide Left, Below, Beside, VisitMetrics;
    if gs == [] {
      assert stack + Scheduled(gs, depth) == stack;
      NoneBelow(gs, depth, size);
      BesideAssociates(Left(stack, size), NoMetrics, NoMetrics);
    } else {
      ScheduledLeft(stack, gs[1..], depth, size);
      var first, rest := Visit(gs[0], depth), Scheduled(gs[1..], depth);
      assert stack + Scheduled(gs, depth) == (stack + rest) + [first];
      LeftPush(stack + rest, first, size);
      BelowParts(gs, depth, size);
      BesideAssociates(VisitMetrics(first, size), Below(gs[1..], depth, size), Left(stack, size));
    }
  }

  lemma NoneBelow<L>(gs: seq<Graph<L>>, depth: nat, size: L -> nat)
    requires gs == []
    ensures Below(gs, depth, size) == NoMetrics
  {
  }

  lemma SchedulePush<L>(gs: seq<Graph<L>>, i: nat, depth: nat)
    requires i < |gs|
    ensures Scheduled(gs[i..], depth) == Scheduled(gs[i + 1..], depth) + [Visit(gs[i], depth)]
  {
    assert gs[i..][0] == gs[i] && gs[i..][1..] == gs[i + 1..];
  }

  /** `items.iter().rev()` pushed with one depth. */
  method PushChildren<L>(stack: seq<Visit<L>>, gs: seq<Graph<L>>, depth: nat) returns (r: seq<Visit<L>>)
    ensures r == stack + Scheduled(gs, depth)
  {
    r := stack;
    var i := |gs|;
    while i > 0
      invariant 0 <= i <= |gs|
      invariant r == stack + Scheduled(gs[i..], depth)
    {
      i := i - 1;
      SchedulePush(gs, i, depth);
      r := r + [Visit(gs[i], depth)];
    }
    assert gs[0..] == gs;
  }

  // ----- one node at a time -----

  /** What one node at `depth` adds by itself. */
  function Own<L>(v: Visit<L>, size: L -> nat): Metrics {
    Metrics(v.depth, 1, |Children(v.graph)|, OwnBytes(v.graph, size))
  }

  lemma VisitParts<L>(v: Visit<L>, size: L -> nat)
    ensures VisitMetrics(v, size) == Beside(Own(v, size), Below(Children(v.graph), v.depth + 1, size))
  {
  }

  /** A traversal has counted `m`, is about to visit `v`, and has `rest` left after it: nothing it
      counts or foresees for `v` exceeds the size of the whole. */
  lemma NothingForeseenExceeds<L>(m: Metrics, v: Visit<L>, rest: Metrics, whole: Metrics, size: L -> nat)
    requires Beside(m, Beside(VisitMetrics(v, size), rest)) == whole
    ensures Beside(Beside(m, Own(v, size)), Beside(Below(Children(v.graph), v.depth + 1, size), rest)) == whole
    ensures v.depth <= whole.depth && m.depth <= whole.depth && m.nodes + 1 <= whole.nodes
    ensures m.items + |Children(v.graph)| <= whole.items
    ensures m.bytes + OwnBytes(v.graph, size) <= whole.bytes
    ensures Children(v.graph) != [] ==> v.depth + 1 <= whole.depth
    ensures m.nodes + 1 + rest.nodes + |Children(v.graph)| <= whole.nodes
    ensures m.bytes + OwnBytes(v.graph, size) + rest.bytes + |Children(v.graph)| <= whole.bytes
  {
    VisitParts(v, size);
    var own, below := Own(v, size), Below(Children(v.graph), v.depth + 1, size);
    BesideAssociates(own, below, rest);
    BesideAssociates(m, own, Beside(below, rest));
    assert below.nodes >= |Children(v.graph)| && below.bytes >= |Children(v.graph)|;
  }

  // ----- runtime values -----

  /** The leaves of a runtime value. */
  datatype Scalar = Null | Bool(flag: bool) | Int(number: int) | Float(bits: int) | Text(text: string)

  type Value = Graph<Scalar>

  function ScalarSize(leaf: Scalar): nat { if leaf.Text? then Bytes(leaf.text) else 0 }

  predicate AllLeaves<L>(g: Graph<L>, holds: L -> bool)
    decreases g, 1
  {
    match g
    case Leaf(leaf) => holds(leaf)
    case Array(items) => AllLeavesAll(items, holds)
    case Object(_, members) => AllLeavesAll(members, holds)
  }

  predicate AllLeavesAll<L>(gs: seq<Graph<L>>, holds: L -> bool)
    decreases gs, 0
  {
    gs == [] || (AllLeaves(gs[0], holds) && AllLeavesAll(gs[1..], holds))
  }

  predicate LeavesLeft<L>(stack: seq<Visit<L>>, holds: L -> bool) {
    stack == [] || (AllLeaves(stack[|stack| - 1].graph, holds) && LeavesLeft(stack[..|stack| - 1], holds))
  }

  lemma {:induction false} ScheduledLeaves<L>(stack: seq<Visit<L>>, gs: seq<Graph<L>>, depth: nat, holds: L -> bool)
    ensures LeavesLeft(stack + Scheduled(gs, depth), holds) <==> AllLeavesAll(gs, holds) && LeavesLeft(stack, holds)
  {
    if gs == [] {
      assert stack + Scheduled(gs, depth) == stack;
    } else {
      var rest := Scheduled(gs[1..], depth);
      var all := stack + Scheduled(gs, depth);
      assert all[|all| - 1] == Visit(gs[0], depth) && all[..|all| - 1] == stack + rest;
      ScheduledLeaves(stack, gs[1..], depth, holds);
    }
  }

  // ----- the runtime's admission of a value -----

  datatype Refusal =
    | NodeLimit | ByteLimit | DepthLimit | ItemLimit | StringLimit | NotFinite | CounterOverflow
    | IntegerRange

  datatype Checked<T> = Pass(value: T) | Fail(error: Refusal)

  /** A finite float, or a string within the limit on single strings. */
  predicate Admissible(leaf: Scalar, finite: int -> bool, maxString: Option<nat>) {
    && (leaf.Float? ==> finite(leaf.bits))
    && (leaf.Text? && maxString.Some? ==> Bytes(leaf.text) <= maxString.value)
  }

  predicate ShortEnough(leaf: Scalar, maxString: Option<nat>) {
    leaf.Text? && maxString.Some? ==> Bytes(leaf.text) <= maxString.value
  }

  predicate FiniteFloat(leaf: Scalar, finite: int -> bool) { leaf.Float? ==> finite(leaf.bits) }

  /** `checked_add` on a counter. */
  function CheckedAdd(a: nat, b: nat): Option<nat> {
    if a + b <= USIZE_MAX then Some(a + b) else None
  }

  /** The limit that `error` names is exceeded by `m`. */
  predicate Over(error: Refusal, m: Metrics, limits: Limits) {
    match error
    case NodeLimit => m.nodes > limits.maxNodes
    case ByteLimit => m.bytes > limits.maxBytes
    case DepthLimit => m.depth > DepthCap(limits)
    case ItemLimit => m.items > limits.maxItems
    case CounterOverflow => m.nodes > USIZE_MAX || m.bytes > USIZE_MAX || m.items > USIZE_MAX
    case _ => false
  }

  predicate AtMost(a: Metrics, b: Metrics) {
    a.depth <= b.depth && a.nodes <= b.nodes && a.items <= b.items && a.bytes <= b.bytes
  }

  lemma OverMore(error: Refusal, a: Metrics, b: Metrics, limits: Limits)
    requires Over(error, a, limits) && AtMost(a, b)
    ensures Over(error, b, limits)
  {
  }

  lemma OverRefuses(error: Refusal, m: Metrics, limits: Limits)
    requires IsUsize(limits) && Over(error, m, limits)
    ensures !Fits(m, limits)
  {
  }

  /** A depth limit beyond 128 is 128. */
  lemma CappedDepth(m: Metrics, limits: Limits)
    ensures var capped := limits.(maxDepth := DepthCap(limits));
      && (Fits(m, capped) <==> Fits(m, limits)) && forall error :: Over(error, m, capped) <==> Over(error, m, limits)
  {
  }

  /** What is counted and foreseen while `v` is counted with `pending` nodes waiting. */
  function Foreknown<L>(m: Metrics, v: Visit<L>, pending: nat, size: L -> nat): Metrics {
    var n := |Children(v.graph)|;
    Beside(m, Metrics(v.depth + if n == 0 then 0 else 1, 1 + pending + n, n, OwnBytes(v.graph, size) + pending + n))
  }

  /** The foresight checks before children are scheduled; `None` means there are none. */
  method ReserveValueChildren(m: Metrics, pending: nat, children: nat, depth: nat, limits: Limits)
    returns (r: Checked<Option<nat>>)
    ensures r.Pass? <==>
      && m.items + children <= limits.maxItems && m.items + children <= USIZE_MAX
      && (children > 0 ==>
            && depth + 1 <= DepthCap(limits)
            && m.nodes + pending + children <= limits.maxNodes && m.nodes + pending + children <= USIZE_MAX
            && m.bytes + pending + children <= limits.maxBytes && m.bytes + pending + children <= USIZE_MAX)
    ensures r.Pass? ==> r.value == if children == 0 then None else Some(depth + 1)
    ensures r.Fail? ==>
      Over(r.error, Metrics(if children == 0 then 0 else depth + 1, m.nodes + pending + children, m.items + children,
                            m.bytes + pending + children), limits)
  {
    var items := CheckedAdd(m.items, children);
    if items.None? { return Fail(CounterOverflow); }
    if items.value > limits.maxItems { return Fail(ItemLimit); }
    if children == 0 { return Pass(None); }
    if depth + 1 > DepthCap(limits) { return Fail(DepthLimit); }
    var scheduled := CheckedAdd(m.nodes, pending + children);
    if scheduled.None? { return Fail(CounterOverflow); }
    if scheduled.value > limits.maxNodes { return Fail(NodeLimit); }
    var least := CheckedAdd(m.bytes, pending + children);
    if least.None? { return Fail(CounterOverflow); }
    if least.value > limits.maxBytes { return Fail(ByteLimit); }
    r := Pass(Some(depth + 1));
  }

  /** Counting `v`, with `pending` further nodes waiting, already goes over some limit. */
  ghost predicate Foreseen<L>(m: Metrics, v: Visit<L>, pending: nat, limits: Limits, size: L -> nat) {
    || !Fits(Beside(m, Own(v, size)), limits)
    || (Children(v.graph) != [] && v.depth + 1 > DepthCap(limits))
    || m.nodes + 1 + pending + |Children(v.graph)| > limits.maxNodes
    || m.bytes + OwnBytes(v.graph, size) + pending + |Children(v.graph)| > limits.maxBytes
  }

  /** A traversal with `m` counted and `stack` to do is a traversal of `whole`. */
  ghost predicate Traverses<L>(m: Metrics, stack: seq<Visit<L>>, whole: Metrics, size: L -> nat) {
    Beside(m, Left(stack, size)) == whole
  }

  lemma TraversalBegins<L>(root: Graph<L>, size: L -> nat, holds: L -> bool)
    ensures Traverses(NoMetrics, [Visit(root, 1)], Measure(root, size), size)
    ensures LeavesLeft([Visit(root, 1)], holds) <==> AllLeaves(root, holds)
  {
    var stack := [Visit(root, 1)];
    assert stack[..0] == [];
    LeftPush([], Visit(root, 1), size);
  }

  /** The refusals of an early check are refusals of the whole. */
  lemma ForeseenRefuses<L>(
    m: Metrics, stack: seq<Visit<L>>, v: Visit<L>, whole: Metrics, limits: Limits, size: L -> nat)
    requires Traverses(m, stack + [v], whole, size)
    ensures Foreseen(m, v, |stack|, limits, size) ==> !Fits(whole, limits)
    ensures AtMost(Foreknown(m, v, |stack|, size), whole)
  {
    hide Left, Below, Measure, OwnBytes, VisitMetrics;
    LeftPush(stack, v, size);
    NothingForeseenExceeds(m, v, Left(stack, size), whole, size);
    assert Left(stack, size).nodes >= |stack| && Left(stack, size).bytes >= |stack|;
  }

  /** Scheduling the children goes on traversing the whole. */
  lemma TraversalStep<L>(m: Metrics, stack: seq<Visit<L>>, v: Visit<L>, whole: Metrics, size: L -> nat)
    requires Traverses(m, stack + [v], whole, size)
    ensures Traverses(Beside(m, Own(v, size)), stack + Scheduled(Children(v.graph), v.depth + 1), whole, size)
    ensures Left(stack + Scheduled(Children(v.graph), v.depth + 1), size).nodes < Left(stack + [v], size).nodes
  {
    hide Left, Below, VisitMetrics;
    LeftPush(stack, v, size);
    VisitParts(v, size);
    ScheduledLeft(stack, Children(v.graph), v.depth + 1, size);
    NothingForeseenExceeds(m, v, Left(stack, size), whole, size);
  }

  lemma LeavesStep<L>(stack: seq<Visit<L>>, v: Visit<L>, holds: L -> bool)
    ensures LeavesLeft(stack + [v], holds) <==>
      && (v.graph.Leaf? ==> holds(v.graph.leaf))
      && LeavesLeft(stack + Scheduled(Children(v.graph), v.depth + 1), holds)
  {
    ScheduledLeaves(stack, Children(v.graph), v.depth + 1, holds);
    assert (stack + [v])[..|stack|] == stack;
  }

  lemma TraversalEnds(m: Metrics, whole: Metrics, size: Scalar -> nat)
    requires Traverses(m, [], whole, size)
    ensures m == whole
  {
  }

  /** Admits exactly the values whose recursive size fits the limits, whose floats are finite and
      whose strings are within the string limit, and returns that size. */
  method ValidateValue(root: Value, limits: Limits, finite: int -> bool, maxString: Option<nat>)
    returns (r: Checked<Metrics>)
    requires IsUsize(limits)
    ensures r.Pass? <==>
      Fits(Measure(root, ScalarSize), limits) && AllLeaves(root, leaf => Admissible(leaf, finite, maxString))
    ensures r.Pass? ==> r.value == Measure(root, ScalarSize)
    ensures r.Fail? ==>
      match r.error
      case StringLimit => !AllLeaves(root, leaf => ShortEnough(leaf, maxString))
      case NotFinite => !AllLeaves(root, leaf => FiniteFloat(leaf, finite))
      case _ => Over(r.error, Measure(root, ScalarSize), limits)
  {
    hide Over, AtMost, Foreknown, Traverses, Left, Measure, Fits, AllLeaves, LeavesLeft, Own, Beside, Foreseen;
    ghost var holds := leaf => Admissible(leaf, finite, maxString);
    ghost var short := leaf => ShortEnough(leaf, maxString);
    ghost var finites := leaf => FiniteFloat(leaf, finite);
    ghost var whole := Measure(root, ScalarSize);
    var m, pending := NoMetrics, [Visit(root, 1)];
    TraversalBegins(root, ScalarSize, holds);
    TraversalBegins(root, ScalarSize, short);
    TraversalBegins(root, ScalarSize, finites);
    NothingFits(limits);
    while pending != []
      invariant Traverses(m, pending, whole, ScalarSize)
      invariant Fits(m, limits)
      invariant AllLeaves(root, holds) <==> LeavesLeft(pending, holds)
      invariant AllLeaves(root, short) <==> LeavesLeft(pending, short)
      invariant AllLeaves(root, finites) <==> LeavesLeft(pending, finites)
      decreases Left(pending, ScalarSize).nodes
    {
      var v := pending[|pending| - 1];
      assert pending == pending[..|pending| - 1] + [v];
      pending := pending[..|pending| - 1];
      ForeseenRefuses(m, pending, v, whole, limits, ScalarSize);
      TraversalStep(m, pending, v, whole, ScalarSize);
      LeavesStep(pending, v, holds);
      LeavesStep(pending, v, short);
      LeavesStep(pending, v, finites);
      var next := CountNode(m, v, |pending|, limits, finite, maxString);
      if next.Fail? {
        if !next.error.StringLimit? && !next.error.NotFinite? {
          OverMore(next.error, Foreknown(m, v, |pending|, ScalarSize), whole, limits);
          OverRefuses(next.error, whole, limits);
        }
        return Fail(next.error);
      }
      m := next.value;
      pending := PushChildren(pending, Children(v.graph), v.depth + 1);
    }
    NoLeavesLeft(holds);
    TraversalEnds(m, whole, ScalarSize);
    r := Pass(m);
  }

  lemma NothingFits(limits: Limits)
    ensures Fits(NoMetrics, limits)
  {
  }

  lemma NoLeavesLeft(holds: Scalar -> bool)
    ensures LeavesLeft([], holds)
  {
  }

  /** The node itself: one node, one byte, and its depth. */
  method CountTag(m: Metrics, depth: nat, limits: Limits) returns (r: Checked<Metrics>)
    requires IsUsize(limits) && Fits(m, limits)
    ensures r.Pass? <==> Fits(Beside(m, Metrics(depth, 1, 0, 1)), limits)
    ensures r.Pass? ==> r.value == Beside(m, Metrics(depth, 1, 0, 1))
    ensures r.Fail? ==> Over(r.error, Beside(m, Metrics(depth, 1, 0, 1)), limits)
  {
    var nodes := CheckedAdd(m.nodes, 1);
    if nodes.None? { return Fail(CounterOverflow); }
    if nodes.value > limits.maxNodes { return Fail(NodeLimit); }
    var bytes := CheckedAdd(m.bytes, 1);
    if bytes.None? { return Fail(CounterOverflow); }
    if bytes.value > limits.maxBytes { return Fail(ByteLimit); }
    var deepest := if m.depth < depth then depth else m.depth;
    if deepest > DepthCap(limits) { return Fail(DepthLimit); }
    r := Pass(Metrics(deepest, nodes.value, m.items, bytes.value));
  }

  /** The text of a leaf, and what is checked about a leaf. */
  method CountLeaf(m: Metrics, leaf: Scalar, limits: Limits, finite: int -> bool, maxString: Option<nat>)
    returns (r: Checked<Metrics>)
    requires IsUsize(limits) && Fits(m, limits)
    ensures r.Pass? <==>
      Admissible(leaf, finite, maxString) && Fits(Beside(m, Metrics(0, 0, 0, ScalarSize(leaf))), limits)
    ensures r.Pass? ==> r.value == Beside(m, Metrics(0, 0, 0, ScalarSize(leaf)))
    ensures r.Fail? ==>
      match r.error
      case StringLimit => !ShortEnough(leaf, maxString)
      case NotFinite => !FiniteFloat(leaf, finite)
      case _ => Over(r.error, Beside(m, Metrics(0, 0, 0, ScalarSize(leaf))), limits)
  {
    if leaf.Text? && maxString.Some? && Bytes(leaf.text) > maxString.value { return Fail(StringLimit); }
    if leaf.Float? && !finite(leaf.bits) { return Fail(NotFinite); }
    var total := CheckedAdd(m.bytes, ScalarSize(leaf));
    if total.None? { return Fail(CounterOverflow); }
    if total.value > limits.maxBytes { return Fail(ByteLimit); }
    r := Pass(m.(bytes := total.value));
  }

  /** A limit that a partial count of `v` exceeds is exceeded by all that is known of it. */
  lemma PartIsKnown(error: Refusal, part: Metrics, m: Metrics, v: Visit<Scalar>, pending: nat, limits: Limits)
    requires Over(error, part, limits)
    requires var n := |Children(v.graph)|;
      || part == Beside(m, Metrics(v.depth, 1, 0, 1))
      || part == Beside(m, Own(v, ScalarSize))
      || AtMost(part, Metrics(if n == 0 then 0 else v.depth + 1, m.nodes + 1 + pending + n, m.items + n, m.bytes + 1 + pending + n))
    ensures Over(error, Foreknown(m, v, pending, ScalarSize), limits)
  {
    OverMore(error, part, Foreknown(m, v, pending, ScalarSize), limits);
  }

  /** The parts of a node's own count. */
  lemma OwnParts(m: Metrics, v: Visit<Scalar>)
    ensures var tag := Beside(m, Metrics(v.depth, 1, 0, 1));
      match v.graph
      case Leaf(leaf) => Beside(m, Own(v, ScalarSize)) == Beside(tag, Metrics(0, 0, 0, ScalarSize(leaf)))
      case Array(items) => Beside(m, Own(v, ScalarSize)) == tag.(items := tag.items + |items|)
      case Object(keys, members) =>
        Beside(m, Own(v, ScalarSize)) == tag.(items := tag.items + |members|, bytes := tag.bytes + KeyBytes(keys))
  {
  }

  /** What one iteration charges for a node and checks about it. */
  method CountNode(m: Metrics, v: Visit<Scalar>, pending: nat, limits: Limits, finite: int -> bool, maxString: Option<nat>)
    returns (r: Checked<Metrics>)
    requires IsUsize(limits) && Fits(m, limits)
    ensures r.Pass? ==> r.value == Beside(m, Own(v, ScalarSize)) && Fits(r.value, limits)
    ensures r.Pass? && v.graph.Leaf? ==> Admissible(v.graph.leaf, finite, maxString)
    ensures r.Fail? ==>
      match r.error
      case StringLimit => v.graph.Leaf? && !ShortEnough(v.graph.leaf, maxString)
      case NotFinite => v.graph.Leaf? && !FiniteFloat(v.graph.leaf, finite)
      case _ => Over(r.error, Foreknown(m, v, pending, ScalarSize), limits)
  {
    hide Foreknown, Own, KeyBytes, ScalarSize, ShortEnough, FiniteFloat, Admissible;
    OwnParts(m, v);
    var tag := CountTag(m, v.depth, limits);
    if tag.Fail? {
      PartIsKnown(tag.error, Beside(m, Metrics(v.depth, 1, 0, 1)), m, v, pending, limits);
      return tag;
    }
    match v.graph
    case Leaf(leaf) =>
      r := CountLeaf(tag.value, leaf, limits, finite, maxString);
      if r.Fail? && !r.error.StringLimit? && !r.error.NotFinite? {
        PartIsKnown(r.error, Beside(m, Own(v, ScalarSize)), m, v, pending, limits);
      }
    case Array(items) =>
      r := CountChildren(tag.value, m, v, pending, limits);
    case Object(keys, members) =>
      r := CountChildren(tag.value, m, v, pending, limits);
      if r.Pass? {
        var counted := r.value;
        var total := ChargeKeys(keys, counted.bytes, limits);
        if total.Fail? {
          PartIsKnown(total.error, Beside(m, Own(v, ScalarSize)), m, v, pending, limits);
          return Fail(total.error);
        }
        r := Pass(counted.(bytes := total.value));
      }
  }

  /** The children of an array or an object, counted before they are visited. */
  method CountChildren(tag: Metrics, ghost m: Metrics, v: Visit<Scalar>, pending: nat, limits: Limits)
    returns (r: Checked<Metrics>)
    requires IsUsize(limits) && Fits(tag, limits) && tag == Beside(m, Metrics(v.depth, 1, 0, 1))
    ensures r.Pass? ==> r.value == tag.(items := tag.items + |Children(v.graph)|) && Fits(r.value, limits)
    ensures r.Fail? ==> !r.error.StringLimit? && !r.error.NotFinite? && Over(r.error, Foreknown(m, v, pending, ScalarSize), limits)
  {
    hide Foreknown, Own;
    var n := |Children(v.graph)|;
    var reserved := ReserveValueChildren(tag, pending, n, v.depth, limits);
    if reserved.Fail? {
      PartIsKnown(reserved.error,
                  Metrics(if n == 0 then 0 else v.depth + 1, tag.nodes + pending + n, tag.items + n, tag.bytes + pending + n),
                  m, v, pending, limits);
      return Fail(reserved.error);
    }
    r := Pass(tag.(items := tag.items + n));
  }

  /** Adds the keys of an object, one at a time. */
  method ChargeKeys(keys: seq<string>, bytes: nat, limits: Limits) returns (r: Checked<nat>)
    requires IsUsize(limits) && bytes <= limits.maxBytes
    ensures r.Pass? <==> bytes + KeyBytes(keys) <= limits.maxBytes
    ensures r.Pass? ==> r.value == bytes + KeyBytes(keys)
    ensures r.Fail? ==>
      || (r.error == ByteLimit && bytes + KeyBytes(keys) > limits.maxBytes)
      || (r.error == CounterOverflow && bytes + KeyBytes(keys) > USIZE_MAX)
  {
    var total: nat, i := bytes, 0;
    assert keys[0..] == keys;
    while i < |keys|
      invariant i <= |keys|
      invariant total + KeyBytes(keys[i..]) == bytes + KeyBytes(keys)
      invariant total <= limits.maxBytes
    {
      assert keys[i..][0] == keys[i] && keys[i..][1..] == keys[i + 1..];
      var sum := CheckedAdd(total, Bytes(keys[i]));
      if sum.None? { return Fail(CounterOverflow); }
      if sum.value > limits.maxBytes { return Fail(ByteLimit); }
      total := sum.value;
      i := i + 1;
    }
    r := Pass(total);
  }
}
