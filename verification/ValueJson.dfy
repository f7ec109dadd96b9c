/** Conversion between runtime values and JSON: which graphs each direction accepts, that the two
    directions undo each other, and that they agree with the runtime's own admission check. */
module ValueJson {
  import opened Text
  import opened Tokens
  import opened ValueGraph
  import opened Converters

  /** A JSON number: an integer that fits `i64`, one that does not, or a float. */
  datatype Number = Signed(value: int) | BeyondSigned(value: int) | Real(bits: int)

  datatype JsonScalar = JsonNull | JsonBool(flag: bool) | JsonNumber(number: Number) | JsonText(text: string)

  type Json = Graph<JsonScalar>

  function JsonSize(leaf: JsonScalar): nat { if leaf.JsonText? then Bytes(leaf.text) else 0 }

  function FromJson(leaf: JsonScalar): Option<Scalar> {
    match leaf
    case JsonNull => Some(Null)
    case JsonBool(flag) => Some(Bool(flag))
    case JsonNumber(number) =>
      (match number
       case Signed(value) => Some(Int(value))
       case BeyondSigned(_) => None
       case Real(bits) => Some(Float(bits)))
    case JsonText(text) => Some(Text(text))
  }

  /** A float has a JSON number only if it is finite. */
  function ToJson(finite: int -> bool, leaf: Scalar): Option<JsonScalar> {
    match leaf
    case Null => Some(JsonNull)
    case Bool(flag) => Some(JsonBool(flag))
    case Int(number) => Some(JsonNumber(Signed(number)))
    case Float(bits) => if finite(bits) then Some(JsonNumber(Real(bits))) else None
    case Text(text) => Some(JsonText(text))
  }

  /** JSON text has no spelling for a float that is not finite. */
  predicate IsJson(finite: int -> bool, leaf: JsonScalar) {
    leaf.JsonNumber? && leaf.number.Real? ==> finite(leaf.number.bits)
  }

  predicate InRange(leaf: JsonScalar) { !(leaf.JsonNumber? && leaf.number.BeyondSigned?) }

  // ----- what the recursive map keeps -----

  lemma {:induction false} MapDefined<A, B>(g: Graph<A>, conv: A -> Option<B>, holds: A -> bool)
    requires forall a :: holds(a) <==> conv(a).Some?
    ensures Map(g, conv).Some? <==> AllLeaves(g, holds)
    decreases g, 1
  {
    match g
    case Leaf(leaf) =>
    case Array(items) => MapAllDefined(items, conv, holds);
    case Object(_, members) => MapAllDefined(members, conv, holds);
  }

  lemma {:induction false} MapAllDefined<A, B>(gs: seq<Graph<A>>, conv: A -> Option<B>, holds: A -> bool)
    requires forall a :: holds(a) <==> conv(a).Some?
    ensures MapAll(gs, conv).Some? <==> AllLeavesAll(gs, holds)
    decreases gs, 0
  {
    if gs != [] {
      MapDefined(gs[0], conv, holds);
      MapAllDefined(gs[1..], conv, holds);
    }
  }

  lemma {:induction false} MapKeepsSize<A, B>(g: Graph<A>, conv: A -> Option<B>, sizeA: A -> nat, sizeB: B -> nat)
    requires forall a :: conv(a).Some? ==> sizeB(conv(a).value) == sizeA(a)
    requires Map(g, conv).Some? && WellFormed(g)
    ensures Measure(Map(g, conv).value, sizeB) == Measure(g, sizeA) && WellFormed(Map(g, conv).value)
    decreases g, 1
  {
    match g
    case Leaf(leaf) =>
    case Array(items) => MapAllKeepsSize(items, conv, sizeA, sizeB);
    case Object(_, members) => MapAllKeepsSize(members, conv, sizeA, sizeB);
  }

  lemma {:induction false} MapAllKeepsSize<A, B>(
    gs: seq<Graph<A>>, conv: A -> Option<B>, sizeA: A -> nat, sizeB: B -> nat)
    requires forall a :: conv(a).Some? ==> sizeB(conv(a).value) == sizeA(a)
    requires MapAll(gs, conv).Some? && forall i :: 0 <= i < |gs| ==> WellFormed(gs[i])
    ensures MeasureAll(MapAll(gs, conv).value, sizeB) == MeasureAll(gs, sizeA)
    ensures forall i :: 0 <= i < |gs| ==> WellFormed(MapAll(gs, conv).value[i])
    decreases gs, 0
  {
    if gs != [] {
      MapKeepsSize(gs[0], conv, sizeA, sizeB);
      MapAllKeepsSize(gs[1..], conv, sizeA, sizeB);
      var bs := MapAll(gs, conv).value;
      assert bs[0] == Map(gs[0], conv).value && bs[1..] == MapAll(gs[1..], conv).value;
    }
  }

  /** A leaf table that undoes another on the leaves of `g` undoes it on `g`. */
  lemma {:induction false} MapUndone<A, B>(g: Graph<A>, conv: A -> Option<B>, back: B -> Option<A>, holds: A -> bool)
    requires forall a :: holds(a) && conv(a).Some? ==> back(conv(a).value) == Some(a)
    requires Map(g, conv).Some? && AllLeaves(g, holds)
    ensures Map(Map(g, conv).value, back) == Some(g)
    decreases g, 1
  {
    match g
    case Leaf(leaf) =>
    case Array(items) => MapAllUndone(items, conv, back, holds);
    case Object(_, members) => MapAllUndone(members, conv, back, holds);
  }

  lemma {:induction false} MapAllUndone<A, B>(
    gs: seq<Graph<A>>, conv: A -> Option<B>, back: B -> Option<A>, holds: A -> bool)
    requires forall a :: holds(a) && conv(a).Some? ==> back(conv(a).value) == Some(a)
    requires MapAll(gs, conv).Some? && AllLeavesAll(gs, holds)
    ensures MapAll(MapAll(gs, conv).value, back) == Some(gs)
    decreases gs, 0
  {
    if gs != [] {
      MapUndone(gs[0], conv, back, holds);
      MapAllUndone(gs[1..], conv, back, holds);
      var bs := MapAll(gs, conv).value;
      assert bs[0] == Map(gs[0], conv).value && bs[1..] == MapAll(gs[1..], conv).value;
      assert [gs[0]] + gs[1..] == gs;
    }
  }

  // ----- what corresponds to what -----

  /** The same graph, with null for null, the same flag, the same number and the same text at each leaf. */
  ghost predicate Corresponds(value: Value, json: Json)
    decreases value, 1
  {
    match (value, json)
    case (Leaf(Null), Leaf(JsonNull)) => true
    case (Leaf(Bool(flag)), Leaf(JsonBool(shown))) => flag == shown
    case (Leaf(Int(number)), Leaf(JsonNumber(Signed(shown)))) => number == shown
    case (Leaf(Float(bits)), Leaf(JsonNumber(Real(shown)))) => bits == shown
    case (Leaf(Text(text)), Leaf(JsonText(shown))) => text == shown
    case (Array(items), Array(shown)) => CorrespondsAll(items, shown)
    case (Object(keys, members), Object(names, shown)) => keys == names && CorrespondsAll(members, shown)
    case _ => false
  }

  ghost predicate CorrespondsAll(values: seq<Value>, jsons: seq<Json>)
    decreases values, 0
  {
    |values| == |jsons| && (values == [] || (Corresponds(values[0], jsons[0]) && CorrespondsAll(values[1..], jsons[1..])))
  }

  /** One direction gives the value that corresponds. */
  lemma {:induction false} FromJsonCorresponds(json: Json, value: Value)
    ensures Map(json, FromJson) == Some(value) <==> Corresponds(value, json)
    decreases json, 1
  {
    match json
    case Leaf(_) =>
    case Array(items) =>
      if value.Array? { AllFromJson(items, value.items); }
    case Object(_, members) =>
      if value.Object? { AllFromJson(members, value.members); }
  }

  lemma {:induction false} AllFromJson(jsons: seq<Json>, values: seq<Value>)
    ensures MapAll(jsons, FromJson) == Some(values) <==> CorrespondsAll(values, jsons)
    decreases jsons, 0
  {
    hide Corresponds, Map;
    if jsons != [] && values != [] {
      FromJsonCorresponds(jsons[0], values[0]);
      AllFromJson(jsons[1..], values[1..]);
      assert values == [values[0]] + values[1..];
    }
  }

  /** So does the other, for a value whose floats are all finite. */
  lemma {:induction false} ToJsonCorresponds(value: Value, json: Json, finite: int -> bool)
    requires AllLeaves(value, leaf => Admissible(leaf, finite, None))
    ensures Map(value, leaf => ToJson(finite, leaf)) == Some(json) <==> Corresponds(value, json)
    decreases value, 1
  {
    match value
    case Leaf(leaf) =>
      assert Admissible(leaf, finite, None);
    case Array(items) =>
      if json.Array? { AllToJson(items, json.items, finite); }
    case Object(_, members) =>
      if json.Object? { AllToJson(members, json.members, finite); }
  }

  lemma {:induction false} AllToJson(values: seq<Value>, jsons: seq<Json>, finite: int -> bool)
    requires AllLeavesAll(values, leaf => Admissible(leaf, finite, None))
    ensures MapAll(values, leaf => ToJson(finite, leaf)) == Some(jsons) <==> CorrespondsAll(values, jsons)
    decreases values, 0
  {
    hide Corresponds, Map;
    if jsons != [] && values != [] {
      ToJsonCorresponds(values[0], jsons[0], finite);
      AllToJson(values[1..], jsons[1..], finite);
      assert jsons == [jsons[0]] + jsons[1..];
    }
  }

  // ----- the two conversions -----

  /** `Value::try_from`: accepts exactly the JSON whose size fits and whose integers are in range. */
  method TryFromJson(json: Json, limits: Limits) returns (r: Checked<Value>)
    requires WellFormed(json) && IsUsize(limits)
    ensures r.Pass? <==> Fits(Measure(json, JsonSize), limits) && AllLeaves(json, InRange)
    ensures r.Pass? ==> Some(r.value) == Map(json, FromJson)
    ensures r.Fail? ==>
      if r.error == IntegerRange then !AllLeaves(json, InRange) else Over(r.error, Measure(json, JsonSize), limits)
  {
    hide Fits, Measure, Map, AllLeaves, WellFormed;
    var converter := new Converter(json, limits, FromJson, JsonSize, (leaf: JsonScalar) => IntegerRange);
    r := converter.Run(json);
    CappedDepth(Measure(json, JsonSize), limits);
    MapDefined(json, FromJson, InRange);
  }

  /** `Value::try_into_json`: accepts exactly the values whose size fits and whose floats are finite. */
  method TryIntoJson(value: Value, limits: Limits, finite: int -> bool) returns (r: Checked<Json>)
    requires WellFormed(value) && IsUsize(limits)
    ensures r.Pass? <==>
      Fits(Measure(value, ScalarSize), limits) && AllLeaves(value, leaf => Admissible(leaf, finite, None))
    ensures r.Pass? ==> Some(r.value) == Map(value, leaf => ToJson(finite, leaf))
    ensures r.Fail? ==>
      if r.error == NotFinite then !AllLeaves(value, leaf => Admissible(leaf, finite, None))
      else Over(r.error, Measure(value, ScalarSize), limits)
  {
    hide Fits, Measure, Map, AllLeaves, WellFormed;
    var conv := leaf => ToJson(finite, leaf);
    var converter := new Converter(value, limits, conv, ScalarSize, (leaf: Scalar) => NotFinite);
    r := converter.Run(value);
    CappedDepth(Measure(value, ScalarSize), limits);
    MapDefined(value, conv, leaf => Admissible(leaf, finite, None));
  }

  /** A JSON graph that converts converts back to itself, and the second conversion fits whatever the
      first one fitted. */
  lemma JsonRoundTrip(json: Json, limits: Limits, finite: int -> bool)
    requires WellFormed(json) && AllLeaves(json, leaf => IsJson(finite, leaf))
    requires Fits(Measure(json, JsonSize), limits) && AllLeaves(json, InRange)
    ensures Map(json, FromJson).Some?
    ensures var value := Map(json, FromJson).value;
      && Fits(Measure(value, ScalarSize), limits)
      && Map(value, leaf => ToJson(finite, leaf)) == Some(json)
  {
    hide Measure, Map, WellFormed, AllLeaves, Fits;
    MapDefined(json, FromJson, InRange);
    MapKeepsSize(json, FromJson, JsonSize, ScalarSize);
    MapUndone(json, FromJson, leaf => ToJson(finite, leaf), leaf => IsJson(finite, leaf));
  }

  /** The other direction. */
  lemma ValueRoundTrip(value: Value, limits: Limits, finite: int -> bool)
    requires WellFormed(value) && AllLeaves(value, leaf => Admissible(leaf, finite, None))
    requires Fits(Measure(value, ScalarSize), limits)
    ensures Map(value, leaf => ToJson(finite, leaf)).Some?
    ensures var json := Map(value, leaf => ToJson(finite, leaf)).value;
      && Fits(Measure(json, JsonSize), limits)
      && Map(json, FromJson) == Some(value)
  {
    var conv := leaf => ToJson(finite, leaf);
    MapDefined(value, conv, leaf => Admissible(leaf, finite, None));
    MapKeepsSize(value, conv, ScalarSize, JsonSize);
    AllTrue(value);
    MapUndone(value, conv, FromJson, (leaf: Scalar) => true);
  }

  lemma {:induction false} AllTrue(g: Value)
    ensures AllLeaves(g, (leaf: Scalar) => true)
    decreases g, 1
  {
    match g
    case Leaf(_) =>
    case Array(items) => AllTrueAll(items);
    case Object(_, members) => AllTrueAll(members);
  }

  lemma {:induction false} AllTrueAll(gs: seq<Value>)
    ensures AllLeavesAll(gs, (leaf: Scalar) => true)
    decreases gs, 0
  {
    if gs != [] {
      AllTrue(gs[0]);
      AllTrueAll(gs[1..]);
    }
  }
}
