/** The size of a value, from the list of all its nodes: what the limits on value graphs mean. */
module Census {
  import opened Text
  import opened ValueGraph

  /** Every node of a graph with its depth, each before what it contains. */
  function Walk<L>(g: Graph<L>, depth: nat): (vs: seq<Visit<L>>)
    ensures |vs| >= 1
    decreases g, 1
  {
    [Visit(g, depth)] +
    match g
    case Leaf(_) => []
    case Array(items) => WalkAll(items, depth + 1)
    case Object(_, members) => WalkAll(members, depth + 1)
  }

  function WalkAll<L>(gs: seq<Graph<L>>, depth: nat): seq<Visit<L>>
    decreases gs, 0
  {
    if gs == [] then [] else Walk(gs[0], depth) + WalkAll(gs[1..], depth)
  }

  function NameBytes(names: seq<string>): nat {
    if names == [] then 0 else Bytes(names[0]) + NameBytes(names[1..])
  }

  /** One byte for a node, and the bytes of its text or of its member names. */
  function Weight<L>(g: Graph<L>, size: L -> nat): nat {
    1 + match g case Leaf(leaf) => size(leaf) case Array(_) => 0 case Object(names, _) => NameBytes(names)
  }

  function TotalWeight<L>(vs: seq<Visit<L>>, size: L -> nat): nat {
    if vs == [] then 0 else Weight(vs[0].graph, size) + TotalWeight(vs[1..], size)
  }

  ghost predicate NoDeeper<L>(vs: seq<Visit<L>>, depth: int) {
    forall i :: 0 <= i < |vs| ==> vs[i].depth <= depth
  }

  lemma {:induction false} WeightsAdd<L>(a: seq<Visit<L>>, b: seq<Visit<L>>, size: L -> nat)
    ensures TotalWeight(a + b, size) == TotalWeight(a, size) + TotalWeight(b, size)
    decreases |a|
  {
    if a == [] {
      assert a + b == b;
    } else {
      assert (a + b)[1..] == a[1..] + b;
      WeightsAdd(a[1..], b, size);
    }
  }

  lemma {:induction false} NamesAgree(names: seq<string>)
    ensures NameBytes(names) == KeyBytes(names)
  {
    if names != [] { NamesAgree(names[1..]); }
  }

  lemma NoDeeperJoin<L>(a: seq<Visit<L>>, b: seq<Visit<L>>, depth: int)
    ensures NoDeeper(a + b, depth) <==> NoDeeper(a, depth) && NoDeeper(b, depth)
  {
    if NoDeeper(a + b, depth) {
      assert forall i :: 0 <= i < |a| ==> (a + b)[i] == a[i];
      assert forall i :: 0 <= i < |b| ==> (a + b)[|a| + i] == b[i];
    }
  }

  /** Everything at once, for a graph that stands at `depth`. */
  ghost predicate Tallies<L>(m: Metrics, vs: seq<Visit<L>>, depth: nat, roots: nat, size: L -> nat) {
    && m.nodes == |vs| && m.items + roots == |vs| && m.bytes == TotalWeight(vs, size)
    && forall most: int :: NoDeeper(vs, most) <==> vs == [] || depth + m.depth - 1 <= most
  }

  /** What stands below a node. */
  function Under<L>(g: Graph<L>, depth: nat): seq<Visit<L>> {
    match g
    case Leaf(_) => []
    case Array(items) => WalkAll(items, depth + 1)
    case Object(_, members) => WalkAll(members, depth + 1)
  }

  function UnderMetrics<L>(g: Graph<L>, size: L -> nat): Metrics {
    match g
    case Leaf(_) => NoMetrics
    case Array(items) => MeasureAll(items, size)
    case Object(_, members) => MeasureAll(members, size)
  }

  lemma {:induction false} GraphTallies<L>(g: Graph<L>, depth: nat, size: L -> nat)
    requires WellFormed(g)
    ensures Tallies(Measure(g, size), Walk(g, depth), depth, 1, size)
    decreases g, 1
  {
    hide WalkAll, MeasureAll, NoDeeper, TotalWeight, Tallies;
    match g {
      case Leaf(_) => NothingTallies<L>(depth + 1, size);
      case Array(items) => GraphsTally(items, depth + 1, size);
      case Object(_, members) => GraphsTally(members, depth + 1, size);
    }
    NodeTallies(g, UnderMetrics(g, size), Under(g, depth), depth, size);
  }

  lemma NodeTallies<L>(g: Graph<L>, below: Metrics, rest: seq<Visit<L>>, depth: nat, size: L -> nat)
    requires Tallies(below, rest, depth + 1, |Children(g)|, size)
    requires rest != [] ==> below.depth >= 1
    requires rest == [] ==> below.depth == 0
    ensures Tallies(Metrics(1 + below.depth, 1 + below.nodes, |Children(g)| + below.items, OwnBytes(g, size) + below.bytes),
                    [Visit(g, depth)] + rest, depth, 1, size)
  {
    hide NoDeeper, TotalWeight;
    var own := [Visit(g, depth)];
    RootTallies(g, depth, size);
    WeightsAdd(own, rest, size);
    forall most: int ensures NoDeeper(own + rest, most) <==> depth + below.depth <= most {
      NoDeeperJoin(own, rest, most);
      assert NoDeeper(rest, most) <==> rest == [] || depth + 1 + below.depth - 1 <= most;
    }
  }

  lemma RootTallies<L>(g: Graph<L>, depth: nat, size: L -> nat)
    ensures TotalWeight([Visit(g, depth)], size) == OwnBytes(g, size)
    ensures forall most: int :: NoDeeper([Visit(g, depth)], most) <==> depth <= most
  {
    if g.Object? { NamesAgree(g.keys); }
    assert [Visit(g, depth)][1..] == [];
    assert [Visit(g, depth)][0].depth == depth;
  }

  lemma {:induction false} GraphsTally<L>(gs: seq<Graph<L>>, depth: nat, size: L -> nat)
    requires forall i :: 0 <= i < |gs| ==> WellFormed(gs[i])
    ensures Tallies(MeasureAll(gs, size), WalkAll(gs, depth), depth, |gs|, size)
    ensures if gs == [] then WalkAll(gs, depth) == [] && MeasureAll(gs, size) == NoMetrics else WalkAll(gs, depth) != []
    decreases gs, 0
  {
    hide Walk, Measure, NoDeeper, TotalWeight, Tallies;
    if gs == [] {
      NothingTallies<L>(depth, size);
    } else {
      GraphTallies(gs[0], depth, size);
      GraphsTally(gs[1..], depth, size);
      TalliesBeside(Measure(gs[0], size), MeasureAll(gs[1..], size), Walk(gs[0], depth), WalkAll(gs[1..], depth),
                    depth, |gs| - 1, size);
    }
  }

  lemma TalliesBeside<L>(
    m: Metrics, n: Metrics, a: seq<Visit<L>>, b: seq<Visit<L>>, depth: nat, more: nat, size: L -> nat)
    requires Tallies(m, a, depth, 1, size) && Tallies(n, b, depth, more, size)
    requires a != [] && m.depth >= 1 && (b == [] ==> n.depth == 0)
    ensures Tallies(Beside(m, n), a + b, depth, 1 + more, size)
  {
    hide NoDeeper, TotalWeight;
    WeightsAdd(a, b, size);
    forall most: int ensures NoDeeper(a + b, most) <==> depth + Beside(m, n).depth - 1 <= most {
      NoDeeperJoin(a, b, most);
    }
  }

  lemma NothingTallies<L>(depth: nat, size: L -> nat)
    ensures Tallies<L>(NoMetrics, [], depth, 0, size)
  {
  }

  /** The same for a runtime value: a byte for a node, and the UTF-8 bytes of texts and member names. */
  function ValueWeight(vs: seq<Visit<Scalar>>): nat {
    if vs == [] then 0
    else
      ValueWeight(vs[1..]) + 1 +
      match vs[0].graph
      case Leaf(Text(text)) => Bytes(text)
      case Object(names, _) => NameBytes(names)
      case _ => 0
  }

  lemma {:induction false} ValueWeighs(vs: seq<Visit<Scalar>>)
    ensures ValueWeight(vs) == TotalWeight(vs, ScalarSize)
  {
    if vs != [] { ValueWeighs(vs[1..]); }
  }

  /** A value graph fits its limits exactly when it has no more nodes than the node limit, and one fewer
      than the item limit allows, when none stands deeper than the depth limit or than 128, the root at
      depth one, and when a byte for every node, the texts and the member names are within the byte
      limit. */
  lemma FitsExactly<L>(g: Graph<L>, limits: Limits, size: L -> nat)
    requires WellFormed(g)
    ensures var vs := Walk(g, 1);
      Fits(Measure(g, size), limits) <==>
        && |vs| <= limits.maxNodes && |vs| - 1 <= limits.maxItems
        && NoDeeper(vs, limits.maxDepth) && NoDeeper(vs, 128) && TotalWeight(vs, size) <= limits.maxBytes
  {
    hide Walk, Measure, NoDeeper, TotalWeight;
    GraphTallies(g, 1, size);
    var m, vs := Measure(g, size), Walk(g, 1);
    assert NoDeeper(vs, limits.maxDepth) <==> m.depth <= limits.maxDepth;
    assert NoDeeper(vs, 128) <==> m.depth <= 128;
  }

  /** For runtime values. */
  lemma ValueFitsExactly(value: Value, limits: Limits)
    requires WellFormed(value)
    ensures var vs := Walk(value, 1);
      Fits(Measure(value, ScalarSize), limits) <==>
        && |vs| <= limits.maxNodes && |vs| - 1 <= limits.maxItems
        && NoDeeper(vs, limits.maxDepth) && NoDeeper(vs, 128) && ValueWeight(vs) <= limits.maxBytes
  {
    hide Walk, Measure, NoDeeper, TotalWeight, ValueWeight, Fits;
    FitsExactly(value, limits, ScalarSize);
    ValueWeighs(Walk(value, 1));
  }
}
