/** What an evaluation error says: each names something that stands in the tree, or a budget that the tree
    goes over. */
module Faults {
  import opened Text
  import opened Tokens
  import opened Program
  import opened ValueGraph
  import opened EvalSpec
  import S = Syntax

  /** A node that can report `error` itself. */
  predicate Reports(b: Budget, v: Verified, error: EvalError) {
    match error
    case StepsExceeded => true
    case DepthTooGreat => true
    case ValueRefused => true
    case TotalExceeded => true
    case ArrayLimit => v.VArray? && |v.items| > b.maxArrayItems
    case StringTooLong => (v.VStr? && Bytes(v.text) > b.maxStringBytes) || Dispatches(v)
    case Unresolved => (Dispatches(v) || Logical(v)) && v.ticket == None
    case TicketMismatch => (Dispatches(v) || Logical(v)) && v.ticket != None
    case UnknownFunction => v.VCall?
    case UnknownMethod => v.VMethod?
    case WrongArity => v.VCall? || v.VMethod?
    case FrameArity => v.VFunction? && |v.params| != |v.args|
    case UnknownVariable => v.VIdent?
    case NotAnObject => v.VMember?
    case MissingMember => v.VMember?
    case NotABool => Logical(v)
    case HandlerFailed => Dispatches(v)
  }

  /** A node that asks the host for its value. */
  predicate Dispatches(v: Verified) { v.VCall? || v.VMethod? || v.VUnary? || (v.VBinary? && !Logical(v)) }

  predicate Logical(v: Verified) { v.VBinary? && (v.op == S.And || v.op == S.Or) }

  /** Some node of the tree can report `error`. */
  predicate Somewhere(b: Budget, v: Verified, error: EvalError)
    decreases v, 1
  {
    Reports(b, v, error) ||
    match v
    case VArray(items) => SomewhereIn(b, items, error)
    case VMember(receiver, _) => Somewhere(b, receiver, error)
    case VCall(_, args, _) => SomewhereIn(b, args, error)
    case VFunction(_, _, args, body) => SomewhereIn(b, args, error) || Somewhere(b, body, error)
    case VMethod(receiver, _, args, _) => Somewhere(b, receiver, error) || SomewhereIn(b, args, error)
    case VUnary(_, operand, _) => Somewhere(b, operand, error)
    case VBinary(left, _, right, _) => Somewhere(b, left, error) || Somewhere(b, right, error)
    case _ => false
  }

  predicate SomewhereIn(b: Budget, vs: seq<Verified>, error: EvalError)
    decreases vs, 0
  {
    vs != [] && (Somewhere(b, vs[0], error) || SomewhereIn(b, vs[1..], error))
  }

  // ----- one node -----

  lemma OwnReports(b: Budget, v: Verified, error: EvalError)
    requires PreCheck(b, v) == Some(error)
    ensures Reports(b, v, error)
  {
  }

  lemma CombineReports(rt: Runtime, b: Budget, v: Verified, locals: seq<map<string, Value>>, values: seq<Value>, steps: nat, bytes: nat)
    requires !v.VFunction? && !IsLogic(v) && |values| == |Kids(v)|
    requires Conclude(rt, b, Combine(rt, v, locals, values), steps, bytes).Failed? && bytes <= b.maxTotalBytes
    ensures Reports(b, v, Conclude(rt, b, Combine(rt, v, locals, values), steps, bytes).error)
  {
    hide Admits, Measure, Lookup, Kids;
  }

  lemma KidsSomewhere(b: Budget, v: Verified, error: EvalError)
    requires !v.VFunction? && SomewhereIn(b, Kids(v), error)
    ensures Somewhere(b, v, error)
  {
    hide Reports;
    match v
    case VMember(receiver, _) => OneIn(b, receiver, [], error);
    case VMethod(receiver, _, args, _) => OneIn(b, receiver, args, error);
    case VUnary(_, operand, _) => OneIn(b, operand, [], error);
    case VBinary(left, _, right, _) =>
      OneIn(b, left, [right], error);
      OneIn(b, right, [], error);
    case _ =>
  }

  lemma OneIn(b: Budget, v: Verified, rest: seq<Verified>, error: EvalError)
    ensures SomewhereIn(b, [v] + rest, error) <==> Somewhere(b, v, error) || SomewhereIn(b, rest, error)
    ensures rest == [] ==> [v] + rest == [v]
  {
    hide Somewhere;
    assert ([v] + rest)[1..] == rest;
  }

  // ----- every failure -----

  /** Whatever a tree fails with, some node of it can report. */
  lemma {:induction false} EvalFaults(
    rt: Runtime, b: Budget, v: Verified, locals: seq<map<string, Value>>, depth: nat, steps: nat, bytes: nat)
    requires bytes <= b.maxTotalBytes
    ensures var o := Eval(rt, b, v, locals, depth, steps, bytes);
      if o.Failed? then Somewhere(b, v, o.error) else o.bytes <= b.maxTotalBytes
    decreases Size(v), 1
  {
    hide Somewhere, SomewhereIn, EvalAll, Combine, Conclude, PreCheck, Admit;
    SelfSomewhere(b, v);
    if steps + 1 <= b.maxSteps && depth <= b.maxDepth {
      if PreCheck(b, v).Some? {
        OwnReports(b, v, PreCheck(b, v).value);
      } else if IsLogic(v) {
        LogicFaults(rt, b, v, locals, depth, steps + 1, bytes);
      } else if v.VFunction? {
        FrameFaults(rt, b, v, locals, depth, steps + 1, bytes);
      } else {
        AllFault(rt, b, Kids(v), locals, depth + 1, steps + 1, bytes);
        var os := EvalAll(rt, b, Kids(v), locals, depth + 1, steps + 1, bytes);
        if os.Failed? {
          KidsSomewhere(b, v, os.error);
        } else {
          var raw := Combine(rt, v, locals, os.value);
          ConcludeTotal(rt, b, raw, os.steps, os.bytes);
          if Conclude(rt, b, raw, os.steps, os.bytes).Failed? {
            CombineReports(rt, b, v, locals, os.value, os.steps, os.bytes);
          }
        }
      }
    }
  }

  lemma SelfSomewhere(b: Budget, v: Verified)
    ensures forall error :: Reports(b, v, error) ==> Somewhere(b, v, error)
    ensures Reports(b, v, StepsExceeded) && Reports(b, v, DepthTooGreat)
  {
  }

  lemma ConcludeTotal(rt: Runtime, b: Budget, raw: Raw, steps: nat, bytes: nat)
    ensures var o := Conclude(rt, b, raw, steps, bytes); o.Done? ==> o.bytes <= b.maxTotalBytes
  {
  }

  lemma LogicFaults(
    rt: Runtime, b: Budget, v: Verified, locals: seq<map<string, Value>>, depth: nat, steps: nat, bytes: nat)
    requires IsLogic(v) && bytes <= b.maxTotalBytes
    ensures var o := EvalLogic(rt, b, v, locals, depth, steps, bytes);
      if o.Failed? then Somewhere(b, v, o.error) else o.bytes <= b.maxTotalBytes
    decreases Size(v), 0
  {
    hide Eval, Admits, Measure;
    SelfSomewhere(b, v);
    EvalFaults(rt, b, v.left, locals, depth + 1, steps, bytes);
    var left := Eval(rt, b, v.left, locals, depth + 1, steps, bytes);
    if left.Done? && IsBool(left.value) {
      EvalFaults(rt, b, v.right, locals, depth + 1, left.steps, left.bytes);
    }
  }

  lemma FrameFaults(
    rt: Runtime, b: Budget, v: Verified, locals: seq<map<string, Value>>, depth: nat, steps: nat, bytes: nat)
    requires v.VFunction? && bytes <= b.maxTotalBytes
    ensures var o := EvalFrame(rt, b, v, locals, depth, steps, bytes);
      if o.Failed? then Somewhere(b, v, o.error) else o.bytes <= b.maxTotalBytes
    decreases Size(v), 0
  {
    hide Eval, EvalAll, Frame;
    AllFault(rt, b, v.args, locals, depth + 1, steps, bytes);
    var os := EvalAll(rt, b, v.args, locals, depth + 1, steps, bytes);
    if os.Done? {
      EvalFaults(rt, b, v.body, locals + [Frame(v.params, os.value)], depth + 1, os.steps, os.bytes);
    }
  }

  lemma {:induction false} AllFault(
    rt: Runtime, b: Budget, vs: seq<Verified>, locals: seq<map<string, Value>>, depth: nat, steps: nat, bytes: nat)
    requires bytes <= b.maxTotalBytes
    ensures var o := EvalAll(rt, b, vs, locals, depth, steps, bytes);
      if o.Failed? then SomewhereIn(b, vs, o.error) else o.bytes <= b.maxTotalBytes
    decreases SizeAll(vs), 2 + |vs|
  {
    hide Eval, Somewhere;
    if vs != [] {
      EvalFaults(rt, b, vs[0], locals, depth, steps, bytes);
      var first := Eval(rt, b, vs[0], locals, depth, steps, bytes);
      if first.Done? { AllFault(rt, b, vs[1..], locals, depth, first.steps, first.bytes); }
    }
  }
}
