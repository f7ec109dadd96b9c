/** The evaluator as the source has it: an object whose methods count steps, charge processed bytes and
    push and pop local frames. Each method is proved against `EvalSpec`. */
module Evaluator {
  import opened Tokens
  import opened Program
  import opened ValueGraph
  import opened EvalSpec
  import S = Syntax

  datatype Result<T> = Good(value: T) | Bad(error: EvalError)

  /** What a node comes to once its operands have been evaluated. */
  function AfterOperands(
    rt: Runtime, b: Budget, v: Verified, locals: seq<map<string, Value>>, operands: Outcome<seq<Value>>): Outcome<Value>
    requires !v.VFunction? && (operands.Done? ==> |operands.value| == |Kids(v)|)
  {
    if operands.Failed? then Failed(operands.error)
    else Conclude(rt, b, Combine(rt, v, locals, operands.value), operands.steps, operands.bytes)
  }

  /** The value of a literal, or of an array of values. */
  function Literal(v: Verified, values: seq<Value>): Value {
    match v
    case VBool(flag) => BoolValue(flag)
    case VInt(number) => Leaf(Int(number))
    case VFloat(bits) => Leaf(Float(bits))
    case VStr(text) => Leaf(Text(text))
    case VArray(_) => Array(values)
    case _ => Leaf(Null)
  }

  class EvalState {
    const rt: Runtime
    const budget: Budget
    var steps: nat
    var processedBytes: nat
    var locals: seq<map<string, Value>>

    ghost predicate Valid()
      reads this
    {
      IsUsize(budget.graph) && processedBytes <= budget.maxTotalBytes
    }

    /** `r` and the counters are what the specification `o` says; the frames are `frames`. */
    ghost predicate Follows<T>(o: Outcome<T>, r: Result<T>, frames: seq<map<string, Value>>)
      reads this
    {
      && Valid() && locals == frames
      && (o.Failed? ==> r == Bad(o.error))
      && (o.Done? ==> r == Good(o.value) && steps == o.steps && processedBytes == o.bytes)
    }

    constructor (rt: Runtime, budget: Budget)
      requires IsUsize(budget.graph)
      ensures Valid() && steps == processedBytes == 0 && locals == []
      ensures this.rt == rt && this.budget == budget
    {
      this.rt, this.budget := rt, budget;
      steps, processedBytes, locals := 0, 0, [];
    }

    /** Evaluates one expression; the frames afterwards are the frames before, whatever happens. */
    method EvalExpression(v: Verified, depth: nat) returns (r: Result<Value>)
      requires Valid()
      modifies this
      ensures Follows(Eval(rt, budget, v, old(locals), depth, old(steps), old(processedBytes)), r, old(locals))
      decreases Size(v), 2
    {
      hide EvalLogic, EvalFrame, EvalAll, Combine, Conclude, Admit, PreCheck;
      steps := steps + 1;
      if steps > budget.maxSteps {
        return Bad(StepsExceeded);
      }
      if depth > budget.maxDepth {
        return Bad(DepthTooGreat);
      }
      var refused := PreCheck(budget, v);
      if refused.Some? {
        return Bad(refused.value);
      }
      if IsLogic(v) {
        r := EvalShortCircuit(v, depth);
      } else if v.VFunction? {
        r := EvalExpressionFunction(v, depth);
      } else {
        r := EvalNode(v, depth);
      }
    }

    method EvalItems(vs: seq<Verified>, depth: nat) returns (r: Result<seq<Value>>)
      requires Valid()
      modifies this
      ensures Follows(EvalAll(rt, budget, vs, old(locals), depth, old(steps), old(processedBytes)), r, old(locals))
      decreases SizeAll(vs), 3 + |vs|
    {
      hide Eval;
      if vs == [] {
        return Good([]);
      }
      var first := EvalExpression(vs[0], depth);
      if first.Bad? {
        return Bad(first.error);
      }
      var rest := EvalItems(vs[1..], depth);
      r := if rest.Good? then Good([first.value] + rest.value) else Bad(rest.error);
    }

    /** A node whose operands are evaluated first, left to right. */
    method EvalNode(v: Verified, depth: nat) returns (r: Result<Value>)
      requires Valid() && !IsLogic(v) && !v.VFunction?
      modifies this
      ensures Follows(
        AfterOperands(rt, budget, v, old(locals),
                      EvalAll(rt, budget, Kids(v), old(locals), depth + 1, old(steps), old(processedBytes))),
        r, old(locals))
      decreases Size(v), 1
    {
      hide Eval, EvalAll, Combine, Conclude;
      var values := EvalItems(Kids(v), depth + 1);
      if values.Bad? {
        return Bad(values.error);
      }
      var raw := Finish(v, values.value);
      r := Charge(raw);
    }

    /** What the node makes of its operands: lookups in frames, context, objects and registry. */
    method Finish(v: Verified, values: seq<Value>) returns (raw: Raw)
      requires |values| == |Kids(v)| && !v.VFunction?
      ensures raw == Combine(rt, v, locals, values)
    {
      if v.VIdent? {
        var local := FindLocal(v.name);
        if local.Some? {
          raw := Plain(local.value);
        } else if v.name in rt.variables {
          raw := Plain(rt.variables[v.name]);
        } else {
          raw := Refused(UnknownVariable);
        }
      } else if v.VMember? {
        if !values[0].Object? {
          raw := Refused(NotAnObject);
        } else {
          var member := EvalSpec.MemberOf(values[0].keys, values[0].members, v.name);
          raw := if member.Some? then Plain(member.value) else Refused(MissingMember);
        }
      } else if v.VCall? {
        if v.name !in rt.functions {
          raw := Refused(UnknownFunction);
        } else if |values| !in rt.functions[v.name] {
          raw := Refused(WrongArity);
        } else {
          raw := Produced(rt.callFunction(v.name, values));
        }
      } else if v.VMethod? {
        if v.name !in rt.methods {
          raw := Refused(UnknownMethod);
        } else if |v.args| !in rt.methods[v.name] {
          raw := Refused(WrongArity);
        } else {
          raw := Produced(rt.callMethod(values[0], v.name, values[1..]));
        }
      } else if v.VUnary? {
        raw := Produced(rt.unary(v.uop, values[0]));
      } else if v.VBinary? {
        raw := Produced(rt.binary(v.op, values[0], values[1]));
      } else {
        raw := Plain(Literal(v, values));
      }
    }

    /** The innermost frame that has the name. */
    method FindLocal(name: string) returns (value: Option<Value>)
      ensures value == LocalValue(locals, name)
    {
      var i := |locals|;
      assert locals[..i] == locals;
      while i > 0
        invariant 0 <= i <= |locals|
        invariant LocalValue(locals, name) == LocalValue(locals[..i], name)
      {
        assert locals[..i][..i - 1] == locals[..i - 1];
        i := i - 1;
        if name in locals[i] {
          return Some(locals[i][name]);
        }
      }
      value := None;
    }

    /** Charges a handler's work and admits its value. */
    method Charge(raw: Raw) returns (r: Result<Value>)
      requires Valid()
      modifies this`processedBytes
      ensures Follows(Conclude(rt, budget, raw, old(steps), old(processedBytes)), r, old(locals))
    {
      hide Admit;
      if raw.Refused? {
        return Bad(raw.error);
      }
      if processedBytes + raw.reply.work > budget.maxTotalBytes {
        return Bad(TotalExceeded);
      }
      processedBytes := processedBytes + raw.reply.work;
      if raw.reply.stringBytes > budget.maxStringBytes {
        return Bad(StringTooLong);
      }
      if raw.reply.value.None? {
        return Bad(HandlerFailed);
      }
      r := AdmitValue(raw.reply.value.value);
    }

    /** Measures a value graph, refuses it if it is over its own limits, and charges its bytes. */
    method AdmitValue(value: Value) returns (r: Result<Value>)
      requires Valid()
      modifies this`processedBytes
      ensures Follows(Admit(rt, budget, value, old(steps), old(processedBytes)), r, old(locals))
    {
      hide Measure, AllLeaves, Fits;
      var metrics := ValidateValue(value, budget.graph, rt.finite, Some(budget.maxStringBytes));
      if metrics.Fail? {
        return Bad(ValueRefused);
      }
      if processedBytes + metrics.value.bytes > budget.maxTotalBytes {
        return Bad(TotalExceeded);
      }
      processedBytes := processedBytes + metrics.value.bytes;
      r := Good(value);
    }

    /** `&&` and `||`. */
    method EvalShortCircuit(v: Verified, depth: nat) returns (r: Result<Value>)
      requires Valid() && IsLogic(v)
      modifies this
      ensures Follows(EvalLogic(rt, budget, v, old(locals), depth, old(steps), old(processedBytes)), r, old(locals))
      decreases Size(v), 1
    {
      hide Eval, Admit;
      var left := EvalExpression(v.left, depth + 1);
      if left.Bad? {
        return left;
      }
      if !IsBool(left.value) {
        return Bad(NotABool);
      }
      var flag := left.value.leaf.flag;
      if flag == (v.op == S.Or) {
        r := AdmitValue(BoolValue(flag));
        return;
      }
      var right := EvalExpression(v.right, depth + 1);
      if right.Bad? {
        return right;
      }
      if !IsBool(right.value) {
        return Bad(NotABool);
      }
      r := AdmitValue(BoolValue(right.value.leaf.flag));
    }

    /** Arguments in the caller's frames, then the body under a frame that is popped on success and on
        failure alike. */
    method EvalExpressionFunction(v: Verified, depth: nat) returns (r: Result<Value>)
      requires Valid() && v.VFunction?
      modifies this
      ensures Follows(EvalFrame(rt, budget, v, old(locals), depth, old(steps), old(processedBytes)), r, old(locals))
      decreases Size(v), 1
    {
      hide Eval, EvalAll, Frame;
      var values := EvalItems(v.args, depth + 1);
      if values.Bad? {
        return Bad(values.error);
      }
      ghost var outer := locals;
      locals := locals + [Frame(v.params, values.value)];
      r := EvalExpression(v.body, depth + 1);
      assert locals[..|locals| - 1] == outer;
      locals := locals[..|locals| - 1];
    }
  }

  /** A whole program from an empty state. */
  method Evaluate(rt: Runtime, budget: Budget, root: Verified) returns (r: Result<Value>)
    requires IsUsize(budget.graph)
    ensures var o := Eval(rt, budget, root, [], 0, 0, 0);
      r == if o.Done? then Good(o.value) else Bad(o.error)
  {
    var state := new EvalState(rt, budget);
    r := state.EvalExpression(root, 0);
  }
}
