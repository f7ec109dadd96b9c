/** What each form of node evaluates to and takes, form by form: the reference the evaluator is held
    against, written without any of the evaluator's own parts. */
module BigStep {
  import opened Text
  import opened Tokens
  import opened Program
  import opened ValueGraph
  import opened EvalSpec
  import opened Meaning
  import R = Resources
  import S = Syntax

  /** A value, and the steps, levels below the node and bytes it took to get it. */
  datatype Ran = Ran(value: Value, steps: nat, levels: nat, bytes: nat)

  /** The values of operands, and what they took; operands stand one level down. */
  datatype Operands = Operands(values: seq<Value>, steps: nat, levels: nat, bytes: nat)

  const NoOperands := Operands([], 0, 0, 0)

  function Operand(r: Ran): Operands { Operands([r.value], r.steps, 1 + r.levels, r.bytes) }

  function And(a: Operands, b: Operands): Operands {
    Operands(a.values + b.values, a.steps + b.steps, if a.levels < b.levels then b.levels else a.levels, a.bytes + b.bytes)
  }

  /** One step for the node; the bytes of its value are charged. */
  function Settle(rt: Runtime, b: Budget, operands: Operands, work: nat, value: Value): Option<Ran> {
    if Admits(rt, b, value) then
      Some(Ran(value, operands.steps + 1, operands.levels, operands.bytes + work + Measure(value, ScalarSize).bytes))
    else None
  }

  function Answered(rt: Runtime, b: Budget, operands: Operands, reply: Reply): Option<Ran> {
    if reply.stringBytes <= b.maxStringBytes && reply.value.Some? then
      Settle(rt, b, operands, reply.work, reply.value.value)
    else None
  }

  /** The first place of `x`, or the length where there is none. */
  function Place<T(==)>(xs: seq<T>, x: T): (i: nat)
    ensures i <= |xs| && (i < |xs| ==> xs[i] == x) && forall j :: 0 <= j < i ==> xs[j] != x
    ensures i == |xs| ==> x !in xs
  {
    if xs == [] then 0 else if xs[0] == x then 0 else 1 + Place(xs[1..], x)
  }

  /** The value a name has: in the innermost frame that has it, else in the context. */
  function Named(rt: Runtime, locals: seq<map<string, Value>>, name: string): Option<Value> {
    if locals == [] then (if name in rt.variables then Some(rt.variables[name]) else None)
    else if name in locals[|locals| - 1] then Some(locals[|locals| - 1][name])
    else Named(rt, locals[..|locals| - 1], name)
  }

  /** `frame` gives each parameter the argument in the last place of its name, and nothing else. */
  ghost predicate FrameOf(params: seq<string>, values: seq<Value>, frame: map<string, Value>) {
    && (forall x :: x in frame <==> x in params)
    && (forall i :: 0 <= i < |params| && i < |values| && params[i] !in params[i + 1..] ==> frame[params[i]] == values[i])
  }

  function Hosts(entries: map<string, map<nat, Capability>>, name: string, arity: nat): bool {
    name in entries && arity in entries[name]
  }

  const TRUE := Leaf(Bool(true))
  const FALSE := Leaf(Bool(false))

  // ----- the rules -----

  function Yields(rt: Runtime, b: Budget, v: Verified, locals: seq<map<string, Value>>): Option<Ran>
    decreases v, 1
  {
    match v
    case VNull => Settle(rt, b, NoOperands, 0, Leaf(Null))
    case VBool(flag) => Settle(rt, b, NoOperands, 0, if flag then TRUE else FALSE)
    case VInt(number) => Settle(rt, b, NoOperands, 0, Leaf(Int(number)))
    case VFloat(bits) => Settle(rt, b, NoOperands, 0, Leaf(Float(bits)))
    case VStr(text) =>
      if Bytes(text) <= b.maxStringBytes then Settle(rt, b, NoOperands, 0, Leaf(Text(text))) else None
    case VArray(items) =>
      if |items| > b.maxArrayItems then None
      else
        (match YieldsAll(rt, b, items, locals)
         case None => None
         case Some(os) => Settle(rt, b, os, 0, Array(os.values)))
    case VIdent(name) =>
      (match Named(rt, locals, name)
       case None => None
       case Some(value) => Settle(rt, b, NoOperands, 0, value))
    case VMember(receiver, name) =>
      (match Yields(rt, b, receiver, locals)
       case None => None
       case Some(r) =>
         if r.value.Object? && Place(r.value.keys, name) < |r.value.keys| && Place(r.value.keys, name) < |r.value.members|
         then Settle(rt, b, Operand(r), 0, r.value.members[Place(r.value.keys, name)])
         else None)
    case VCall(name, args, ticket) =>
      if ticket != Some(Ticket(FunctionCap, name, |args|)) then None
      else
        (match YieldsAll(rt, b, args, locals)
         case None => None
         case Some(os) =>
           if Hosts(rt.functions, name, |args|) then Answered(rt, b, os, rt.callFunction(name, os.values)) else None)
    case VMethod(receiver, name, args, ticket) =>
      if ticket != Some(Ticket(MethodCap, name, |args|)) then None
      else
        (match Yields(rt, b, receiver, locals)
         case None => None
         case Some(r) =>
           match YieldsAll(rt, b, args, locals)
           case None => None
           case Some(os) =>
             if Hosts(rt.methods, name, |args|) then
               Answered(rt, b, And(Operand(r), os), rt.callMethod(r.value, name, os.values))
             else None)
    case VUnary(op, operand, ticket) =>
      if ticket != Some(Ticket(UnaryCap, S.UnaryText(op), 1)) then None
      else
        (match Yields(rt, b, operand, locals)
         case None => None
         case Some(x) => Answered(rt, b, Operand(x), rt.unary(op, x.value)))
    case VBinary(left, op, right, ticket) =>
      if ticket != Some(Ticket(BinaryCap, S.BinaryText(op), 2)) then None
      else
        (match Yields(rt, b, left, locals)
         case None => None
         case Some(l) =>
           if op == S.And && l.value == FALSE then Settle(rt, b, Operand(l), 0, FALSE)
           else if op == S.Or && l.value == TRUE then Settle(rt, b, Operand(l), 0, TRUE)
           else
             match Yields(rt, b, right, locals)
             case None => None
             case Some(r) =>
               var both := And(Operand(l), Operand(r));
               if op == S.And || op == S.Or then
                 if (l.value == TRUE || l.value == FALSE) && (r.value == TRUE || r.value == FALSE) then
                   Settle(rt, b, both, 0, r.value)
                 else None
               else Answered(rt, b, both, rt.binary(op, l.value, r.value)))
    case VFunction(_, params, args, body) =>
      if |params| != |args| then None
      else
        match YieldsAll(rt, b, args, locals)
        case None => None
        case Some(os) =>
          match Yields(rt, b, body, locals + [Frame(params, os.values)])
          case None => None
          case Some(r) =>
            var both := And(os, Operand(r));
            Some(Ran(r.value, both.steps + 1, both.levels, both.bytes))
  }

  /** Left to right. */
  function YieldsAll(rt: Runtime, b: Budget, vs: seq<Verified>, locals: seq<map<string, Value>>): (r: Option<Operands>)
    ensures r.Some? ==> |r.value.values| == |vs|
    decreases vs, 0
  {
    if vs == [] then Some(NoOperands)
    else
      match Yields(rt, b, vs[0], locals)
      case None => None
      case Some(first) =>
        match YieldsAll(rt, b, vs[1..], locals)
        case None => None
        case Some(rest) => Some(And(Operand(first), rest))
  }

  // ----- the parts agree -----

  lemma {:induction false} FrameIs(params: seq<string>, values: seq<Value>)
    requires |params| == |values|
    ensures FrameOf(params, values, Frame(params, values))
  {
    if params != [] {
      FrameIs(params[1..], values[1..]);
      var rest := Frame(params[1..], values[1..]);
      var frame := Frame(params, values);
      assert frame == map[params[0] := values[0]] + rest;
      forall x ensures x in frame <==> x in params {
        assert x in params <==> x == params[0] || x in params[1..];
      }
      forall i | 0 <= i < |params| && params[i] !in params[i + 1..] ensures frame[params[i]] == values[i] {
        if i > 0 { assert params[i + 1..] == params[1..][i..]; }
      }
    }
  }

  lemma {:induction false} NamedIs(rt: Runtime, locals: seq<map<string, Value>>, name: string)
    ensures Named(rt, locals, name) == Lookup(rt, locals, name)
  {
    if locals != [] && name !in locals[|locals| - 1] { NamedIs(rt, locals[..|locals| - 1], name); }
  }

  lemma {:induction false} PlaceIs(keys: seq<string>, members: seq<Value>, name: string)
    ensures var i := Place(keys, name);
      EvalSpec.MemberOf(keys, members, name) == if i < |keys| && i < |members| then Some(members[i]) else None
  {
    if keys != [] && members != [] && keys[0] != name { PlaceIs(keys[1..], members[1..], name); }
  }

  // ----- the meaning and the resources are these -----

  /** The rules and the evaluator's own definitions give the same. */
  ghost predicate Same(rt: Runtime, b: Budget, v: Verified, locals: seq<map<string, Value>>) {
    match Yields(rt, b, v, locals)
    case None => Means(rt, b, v, locals) == None
    case Some(r) =>
      Means(rt, b, v, locals) == Some(r.value) && R.Spends(rt, b, v, locals) == R.Spent(r.steps, r.levels, r.bytes)
  }

  ghost predicate SameAll(rt: Runtime, b: Budget, vs: seq<Verified>, locals: seq<map<string, Value>>) {
    match YieldsAll(rt, b, vs, locals)
    case None => MeansAll(rt, b, vs, locals) == None
    case Some(os) =>
      && MeansAll(rt, b, vs, locals) == Some(os.values)
      && R.SpendsAll(rt, b, vs, locals) == R.Spent(os.steps, os.levels, os.bytes)
  }

  /** A node whose operands are all evaluated first. */
  lemma PlainNode(rt: Runtime, b: Budget, v: Verified, locals: seq<map<string, Value>>, os: Operands, raw: Raw)
    requires PreCheck(b, v).None? && !IsLogic(v) && !v.VFunction?
    requires MeansAll(rt, b, Kids(v), locals) == Some(os.values)
    requires R.SpendsAll(rt, b, Kids(v), locals) == R.Spent(os.steps, os.levels, os.bytes)
    requires raw == Combine(rt, v, locals, os.values)
    ensures Means(rt, b, v, locals) == if raw.Refused? then None else ConcludeMeaning(rt, b, raw)
    ensures raw.Produced? ==>
      match Answered(rt, b, os, raw.reply)
      case None => Means(rt, b, v, locals) == None
      case Some(r) =>
        Means(rt, b, v, locals) == Some(r.value) && R.Spends(rt, b, v, locals) == R.Spent(r.steps, r.levels, r.bytes)
  {
    hide Combine, Kids, Admits, Measure, MeansAll, R.SpendsAll, PreCheck;
  }

  lemma NoOperandsNode(rt: Runtime, b: Budget, locals: seq<map<string, Value>>)
    ensures MeansAll(rt, b, [], locals) == Some([]) && R.SpendsAll(rt, b, [], locals) == R.Spent(0, 0, 0)
  {
  }

  lemma OneOperand(rt: Runtime, b: Budget, v: Verified, locals: seq<map<string, Value>>)
    requires Same(rt, b, v, locals)
    ensures match Yields(rt, b, v, locals)
            case None => MeansAll(rt, b, [v], locals) == None
            case Some(r) =>
              && MeansAll(rt, b, [v], locals) == Some([r.value])
              && R.SpendsAll(rt, b, [v], locals) == R.Spent(r.steps, 1 + r.levels, r.bytes)
  {
    hide Means, Yields, R.Spends;
    NoOperandsNode(rt, b, locals);
    assert [v][1..] == [];
    if Yields(rt, b, v, locals).Some? {
      assert [Yields(rt, b, v, locals).value.value] + [] == [Yields(rt, b, v, locals).value.value];
    }
  }

  lemma FirstOperand(rt: Runtime, b: Budget, v: Verified, vs: seq<Verified>, locals: seq<map<string, Value>>)
    requires Same(rt, b, v, locals) && SameAll(rt, b, vs, locals)
    ensures var all := [v] + vs;
      match Yields(rt, b, v, locals)
      case None => MeansAll(rt, b, all, locals) == None
      case Some(r) =>
        match YieldsAll(rt, b, vs, locals)
        case None => MeansAll(rt, b, all, locals) == None
        case Some(os) =>
          var both := And(Operand(r), os);
          && MeansAll(rt, b, all, locals) == Some(both.values)
          && R.SpendsAll(rt, b, all, locals) == R.Spent(both.steps, both.levels, both.bytes)
  {
    hide Means, Yields, YieldsAll, R.Spends;
    assert ([v] + vs)[1..] == vs;
  }

  lemma {:induction false} YieldsIsMeaning(rt: Runtime, b: Budget, v: Verified, locals: seq<map<string, Value>>)
    ensures Same(rt, b, v, locals)
    decreases v, 1
  {
    hide *;
    match v
    case VArray(items) =>
      AllYield(rt, b, items, locals);
      ArrayRule(rt, b, v, locals);
    case VMember(receiver, _) =>
      YieldsIsMeaning(rt, b, receiver, locals);
      MemberRule(rt, b, v, locals);
    case VCall(_, args, _) =>
      AllYield(rt, b, args, locals);
      CallRule(rt, b, v, locals);
    case VMethod(receiver, _, args, _) =>
      YieldsIsMeaning(rt, b, receiver, locals);
      AllYield(rt, b, args, locals);
      MethodRule(rt, b, v, locals);
    case VUnary(_, operand, _) =>
      YieldsIsMeaning(rt, b, operand, locals);
      UnaryRule(rt, b, v, locals);
    case VBinary(left, op, right, _) =>
      YieldsIsMeaning(rt, b, left, locals);
      YieldsIsMeaning(rt, b, right, locals);
      if op == S.And || op == S.Or { LogicRule(rt, b, v, locals); } else { BinaryRule(rt, b, v, locals); }
    case VFunction(_, params, args, body) =>
      AllYield(rt, b, args, locals);
      var os := YieldsAll(rt, b, args, locals);
      if os.Some? { YieldsIsMeaning(rt, b, body, locals + [Frame(params, os.value.values)]); }
      FunctionRule(rt, b, v, locals);
    case _ => LeafRule(rt, b, v, locals);
  }

  lemma {:induction false} AllYield(rt: Runtime, b: Budget, vs: seq<Verified>, locals: seq<map<string, Value>>)
    ensures SameAll(rt, b, vs, locals)
    decreases vs, 0
  {
    hide *;
    if vs == [] {
      NoneYield(rt, b, vs, locals);
    } else {
      YieldsIsMeaning(rt, b, vs[0], locals);
      AllYield(rt, b, vs[1..], locals);
      MoreYield(rt, b, vs, locals);
    }
  }

  lemma NoneYield(rt: Runtime, b: Budget, vs: seq<Verified>, locals: seq<map<string, Value>>)
    requires vs == []
    ensures SameAll(rt, b, vs, locals)
  {
  }

  lemma MoreYield(rt: Runtime, b: Budget, vs: seq<Verified>, locals: seq<map<string, Value>>)
    requires vs != [] && Same(rt, b, vs[0], locals) && SameAll(rt, b, vs[1..], locals)
    ensures SameAll(rt, b, vs, locals)
  {
    FirstOperand(rt, b, vs[0], vs[1..], locals);
    assert [vs[0]] + vs[1..] == vs;
    hide Means, MeansAll, Yields, R.Spends, R.SpendsAll;
  }

  lemma LeafRule(rt: Runtime, b: Budget, v: Verified, locals: seq<map<string, Value>>)
    requires v.VNull? || v.VBool? || v.VInt? || v.VFloat? || v.VStr? || v.VIdent?
    ensures Same(rt, b, v, locals)
  {
    hide Admits, Measure, Lookup, Named, Bytes, MeansAll, R.SpendsAll;
    NoOperandsNode(rt, b, locals);
    if v.VIdent? { NamedIs(rt, locals, v.name); }
    if PreCheck(b, v).None? { PlainNode(rt, b, v, locals, NoOperands, Combine(rt, v, locals, [])); }
  }

  lemma ArrayRule(rt: Runtime, b: Budget, v: Verified, locals: seq<map<string, Value>>)
    requires v.VArray? && SameAll(rt, b, v.items, locals)
    ensures Same(rt, b, v, locals)
  {
    hide Admits, Measure, MeansAll, R.SpendsAll, YieldsAll;
    var os := YieldsAll(rt, b, v.items, locals);
    if os.Some? && PreCheck(b, v).None? {
      PlainNode(rt, b, v, locals, os.value, Combine(rt, v, locals, os.value.values));
    }
  }

  lemma MemberRule(rt: Runtime, b: Budget, v: Verified, locals: seq<map<string, Value>>)
    requires v.VMember? && Same(rt, b, v.receiver, locals)
    ensures Same(rt, b, v, locals)
  {
    var r := Yields(rt, b, v.receiver, locals);
    OneOperand(rt, b, v.receiver, locals);
    hide Admits, Measure, MeansAll, R.SpendsAll, EvalSpec.MemberOf, Place;
    if r.Some? {
      if r.value.value.Object? { PlaceIs(r.value.value.keys, r.value.value.members, v.name); }
      PlainNode(rt, b, v, locals, Operand(r.value), Combine(rt, v, locals, [r.value.value]));
    }
  }

  lemma CallRule(rt: Runtime, b: Budget, v: Verified, locals: seq<map<string, Value>>)
    requires v.VCall? && SameAll(rt, b, v.args, locals)
    ensures Same(rt, b, v, locals)
  {
    hide Admits, Measure, MeansAll, R.SpendsAll, YieldsAll;
    var os := YieldsAll(rt, b, v.args, locals);
    if os.Some? && PreCheck(b, v).None? {
      PlainNode(rt, b, v, locals, os.value, Combine(rt, v, locals, os.value.values));
    }
  }

  lemma MethodRule(rt: Runtime, b: Budget, v: Verified, locals: seq<map<string, Value>>)
    requires v.VMethod? && Same(rt, b, v.receiver, locals) && SameAll(rt, b, v.args, locals)
    ensures Same(rt, b, v, locals)
  {
    FirstOperand(rt, b, v.receiver, v.args, locals);
    var r, os := Yields(rt, b, v.receiver, locals), YieldsAll(rt, b, v.args, locals);
    hide Admits, Measure, MeansAll, R.SpendsAll, YieldsAll;
    if r.Some? && os.Some? && PreCheck(b, v).None? {
      var both := And(Operand(r.value), os.value);
      assert both.values[1..] == os.value.values;
      PlainNode(rt, b, v, locals, both, Combine(rt, v, locals, both.values));
    }
  }

  lemma UnaryRule(rt: Runtime, b: Budget, v: Verified, locals: seq<map<string, Value>>)
    requires v.VUnary? && Same(rt, b, v.operand, locals)
    ensures Same(rt, b, v, locals)
  {
    var r := Yields(rt, b, v.operand, locals);
    OneOperand(rt, b, v.operand, locals);
    hide Admits, Measure, MeansAll, R.SpendsAll, S.UnaryText;
    if r.Some? && PreCheck(b, v).None? {
      PlainNode(rt, b, v, locals, Operand(r.value), Combine(rt, v, locals, [r.value.value]));
    }
  }

  lemma BinaryRule(rt: Runtime, b: Budget, v: Verified, locals: seq<map<string, Value>>)
    requires v.VBinary? && v.op != S.And && v.op != S.Or && Same(rt, b, v.left, locals) && Same(rt, b, v.right, locals)
    ensures Same(rt, b, v, locals)
  {
    OneOperandAll(rt, b, v.right, locals);
    FirstOperand(rt, b, v.left, [v.right], locals);
    var l, r := Yields(rt, b, v.left, locals), Yields(rt, b, v.right, locals);
    hide Admits, Measure, MeansAll, R.SpendsAll, YieldsAll, S.BinaryText;
    if l.Some? && r.Some? && PreCheck(b, v).None? {
      var both := And(Operand(l.value), Operand(r.value));
      PlainNode(rt, b, v, locals, both, Combine(rt, v, locals, both.values));
    }
  }

  lemma OneOperandAll(rt: Runtime, b: Budget, v: Verified, locals: seq<map<string, Value>>)
    requires Same(rt, b, v, locals)
    ensures SameAll(rt, b, [v], locals)
    ensures YieldsAll(rt, b, [v], locals)
         == match Yields(rt, b, v, locals) case None => None case Some(r) => Some(Operand(r))
  {
    hide Means, Yields, R.Spends;
    OneOperand(rt, b, v, locals);
    assert [v][1..] == [];
    if Yields(rt, b, v, locals).Some? {
      var r := Yields(rt, b, v, locals).value;
      assert YieldsAll(rt, b, [], locals) == Some(NoOperands);
      assert Operand(r).values + [] == Operand(r).values;
      assert And(Operand(r), NoOperands) == Operand(r);
    }
  }

  lemma LogicMeaning(rt: Runtime, b: Budget, v: Verified, locals: seq<map<string, Value>>)
    requires IsLogic(v)
    ensures PreCheck(b, v).None? <==> v.ticket == Some(Ticket(BinaryCap, S.BinaryText(v.op), 2))
    ensures PreCheck(b, v).Some? ==> Means(rt, b, v, locals) == None
    ensures PreCheck(b, v).None? ==> Means(rt, b, v, locals) == LogicMeans(rt, b, v, locals)
    ensures Means(rt, b, v, locals).Some? ==> R.Spends(rt, b, v, locals) == R.LogicSpends(rt, b, v, locals)
  {
    hide LogicMeans, R.LogicSpends, S.BinaryText;
  }

  /** The rule of the short-circuit operators by itself. */
  lemma LogicYields(rt: Runtime, b: Budget, v: Verified, locals: seq<map<string, Value>>)
    requires IsLogic(v) && v.ticket == Some(Ticket(BinaryCap, S.BinaryText(v.op), 2))
    ensures var l, r := Yields(rt, b, v.left, locals), Yields(rt, b, v.right, locals);
      var decided := if v.op == S.Or then TRUE else FALSE;
      Yields(rt, b, v, locals)
        == if l.None? then None
           else if l.value.value == decided then Settle(rt, b, Operand(l.value), 0, decided)
           else if r.None? then None
           else if IsBool(l.value.value) && IsBool(r.value.value) then
             Settle(rt, b, And(Operand(l.value), Operand(r.value)), 0, r.value.value)
           else None
  {
    hide Settle, S.BinaryText;
    assert forall x: Value :: IsBool(x) ==> x == TRUE || x == FALSE;
  }

  lemma LogicRule(rt: Runtime, b: Budget, v: Verified, locals: seq<map<string, Value>>)
    requires v.VBinary? && (v.op == S.And || v.op == S.Or) && Same(rt, b, v.left, locals) && Same(rt, b, v.right, locals)
    ensures Same(rt, b, v, locals)
  {
    hide Admits, Measure, S.BinaryText, Means, Yields, R.Spends, PreCheck;
    LogicMeaning(rt, b, v, locals);
    if PreCheck(b, v).None? {
      LogicYields(rt, b, v, locals);
    } else {
      NoTicket(rt, b, v, locals);
    }
  }

  lemma NoTicket(rt: Runtime, b: Budget, v: Verified, locals: seq<map<string, Value>>)
    requires v.VBinary? && v.ticket != Some(Ticket(BinaryCap, S.BinaryText(v.op), 2))
    ensures Yields(rt, b, v, locals) == None
  {
  }

  lemma FunctionRule(rt: Runtime, b: Budget, v: Verified, locals: seq<map<string, Value>>)
    requires v.VFunction? && SameAll(rt, b, v.args, locals)
    requires var os := YieldsAll(rt, b, v.args, locals);
      os.Some? ==> Same(rt, b, v.body, locals + [Frame(v.params, os.value.values)])
    ensures Same(rt, b, v, locals)
  {
    var os := YieldsAll(rt, b, v.args, locals);
    hide Frame, MeansAll, R.SpendsAll, YieldsAll;
    if PreCheck(b, v).None? {
      assert Means(rt, b, v, locals) == FrameMeans(rt, b, v, locals);
      if FrameMeans(rt, b, v, locals).Some? {
        assert R.Spends(rt, b, v, locals) == R.FrameSpends(rt, b, v, locals);
      }
    }
  }

  // ----- the evaluator -----

  /** The evaluator succeeds exactly where the rules yield a value and the budget covers what it takes,
      with that value and those counters. */
  lemma EvalFollowsRules(
    rt: Runtime, b: Budget, v: Verified, locals: seq<map<string, Value>>, depth: nat, steps: nat, bytes: nat)
    requires bytes <= b.maxTotalBytes
    ensures var o := Eval(rt, b, v, locals, depth, steps, bytes);
      match Yields(rt, b, v, locals)
      case None => o.Failed?
      case Some(r) =>
        && (o.Done? <==> steps + r.steps <= b.maxSteps && depth + r.levels <= b.maxDepth && bytes + r.bytes <= b.maxTotalBytes)
        && (o.Done? ==> o == Done(r.value, steps + r.steps, bytes + r.bytes))
        && (o.Failed? ==> IsBudgetError(o.error))
  {
    hide Eval, Means, R.Spends, Yields;
    YieldsIsMeaning(rt, b, v, locals);
    EvalReflects(rt, b, v, locals, depth, steps, bytes);
    R.EvalDecides(rt, b, v, locals, depth, steps, bytes);
  }
}
