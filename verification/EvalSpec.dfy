/** Evaluation of a verified tree as a function: the step, depth and cumulative byte budgets are
    threaded through, and everything the host supplies is a parameter. */
module EvalSpec {
  import opened Text
  import opened Tokens
  import opened Program
  import opened ValueGraph
  import S = Syntax

  /** What a host handler answers: the work it charges, the longest string it asks leave to build,
      and its value unless it fails. */
  datatype Reply = Reply(work: nat, stringBytes: nat, value: Option<Value>)

  /** The host: its variables, its registry, and its handlers and operators as arbitrary functions. */
  datatype Runtime = Runtime(
    variables: map<string, Value>,
    functions: map<string, map<nat, Capability>>,
    methods: map<string, map<nat, Capability>>,
    unaryOps: map<S.UnaryOp, Capability>,
    binaryOps: map<S.BinaryOp, Capability>,
    callFunction: (string, seq<Value>) -> Reply,
    callMethod: (Value, string, seq<Value>) -> Reply,
    unary: (S.UnaryOp, Value) -> Reply,
    binary: (S.BinaryOp, Value, Value) -> Reply,
    finite: int -> bool)

  datatype Budget = Budget(
    maxSteps: nat, maxDepth: nat, maxStringBytes: nat, maxArrayItems: nat, graph: Limits, maxTotalBytes: nat)

  datatype EvalError =
    | StepsExceeded | DepthTooGreat | ArrayLimit | StringTooLong | ValueRefused | TotalExceeded
    | Unresolved | TicketMismatch | UnknownFunction | UnknownMethod | WrongArity | FrameArity
    | UnknownVariable | NotAnObject | MissingMember | NotABool | HandlerFailed

  /** A result with the step and byte counters after it. */
  datatype Outcome<T> = Done(value: T, steps: nat, bytes: nat) | Failed(error: EvalError)

  // ----- values -----

  predicate Admits(rt: Runtime, b: Budget, value: Value) {
    && Fits(Measure(value, ScalarSize), b.graph)
    && AllLeaves(value, leaf => Admissible(leaf, rt.finite, Some(b.maxStringBytes)))
  }

  /** Checks a value graph and charges its bytes to the cumulative budget. */
  function Admit(rt: Runtime, b: Budget, value: Value, steps: nat, bytes: nat): Outcome<Value> {
    if !Admits(rt, b, value) then Failed(ValueRefused)
    else
      var total := bytes + Measure(value, ScalarSize).bytes;
      if total > b.maxTotalBytes then Failed(TotalExceeded) else Done(value, steps, total)
  }

  function BoolValue(flag: bool): Value { Leaf(Bool(flag)) }

  predicate IsBool(value: Value) { value.Leaf? && value.leaf.Bool? }

  /** The member of an object, by key. */
  function MemberOf(keys: seq<string>, members: seq<Value>, name: string): Option<Value> {
    if keys == [] || members == [] then None
    else if keys[0] == name then Some(members[0])
    else MemberOf(keys[1..], members[1..], name)
  }

  // ----- frames -----

  /** Parameters paired with values, collected into a map. */
  function Frame(params: seq<string>, values: seq<Value>): map<string, Value> {
    if params == [] || values == [] then map[]
    else map[params[0] := values[0]] + Frame(params[1..], values[1..])
  }

  /** A name is looked up in every frame, innermost first. */
  function LocalValue(locals: seq<map<string, Value>>, name: string): Option<Value> {
    if locals == [] then None
    else if name in locals[|locals| - 1] then Some(locals[|locals| - 1][name])
    else LocalValue(locals[..|locals| - 1], name)
  }

  function Lookup(rt: Runtime, locals: seq<map<string, Value>>, name: string): Option<Value> {
    match LocalValue(locals, name)
    case Some(value) => Some(value)
    case None => if name in rt.variables then Some(rt.variables[name]) else None
  }

  // ----- one node -----

  /** Operands evaluated left to right before the node itself; the short-circuit operators and
      expression-function calls have their own rules. */
  function Kids(v: Verified): (vs: seq<Verified>)
    ensures !v.VFunction? ==> Size(v) == 1 + SizeAll(vs)
  {
    match v
    case VArray(items) => items
    case VMember(receiver, _) => OneSize(receiver); [receiver]
    case VCall(_, args, _) => args
    case VMethod(receiver, _, args, _) => FirstSize(receiver, args); [receiver] + args
    case VUnary(_, operand, _) => OneSize(operand); [operand]
    case VBinary(left, _, right, _) => FirstSize(left, [right]); OneSize(right); [left] + [right]
    case _ => []
  }

  lemma OneSize(v: Verified)
    ensures SizeAll([v]) == Size(v)
  {
    assert [v][1..] == [];
  }

  lemma FirstSize(v: Verified, vs: seq<Verified>)
    ensures SizeAll([v] + vs) == Size(v) + SizeAll(vs)
  {
    assert ([v] + vs)[1..] == vs;
  }

  predicate IsLogic(v: Verified) { v.VBinary? && (v.op == S.And || v.op == S.Or) }

  /** The ticket a dispatching node must carry. */
  function DispatchIdentity(v: Verified): Option<Ticket> {
    match v
    case VCall(name, args, _) => Some(Ticket(FunctionCap, name, |args|))
    case VMethod(_, name, args, _) => Some(Ticket(MethodCap, name, |args|))
    case VUnary(uop, _, _) => Some(Ticket(UnaryCap, S.UnaryText(uop), 1))
    case VBinary(_, op, _, _) => Some(Ticket(BinaryCap, S.BinaryText(op), 2))
    case _ => None
  }

  function TicketCheck(v: Verified): Option<EvalError> {
    match DispatchIdentity(v)
    case None => None
    case Some(identity) =>
      if v.ticket.None? then Some(Unresolved)
      else if v.ticket.value != identity then Some(TicketMismatch)
      else None
  }

  /** Checks made before any operand is evaluated. */
  function PreCheck(b: Budget, v: Verified): Option<EvalError> {
    match v
    case VArray(items) => if |items| > b.maxArrayItems then Some(ArrayLimit) else None
    case VStr(text) => if Bytes(text) > b.maxStringBytes then Some(StringTooLong) else None
    case VFunction(_, params, args, _) => if |params| != |args| then Some(FrameArity) else None
    case _ => TicketCheck(v)
  }

  datatype Raw = Produced(reply: Reply) | Refused(error: EvalError)

  function Plain(value: Value): Raw { Produced(Reply(0, 0, Some(value))) }

  /** What a node makes of its operands' values. */
  function Combine(rt: Runtime, v: Verified, locals: seq<map<string, Value>>, values: seq<Value>): Raw
    requires |values| == |Kids(v)| && !v.VFunction?
  {
    match v
    case VNull => Plain(Leaf(Null))
    case VBool(flag) => Plain(BoolValue(flag))
    case VInt(number) => Plain(Leaf(Int(number)))
    case VFloat(bits) => Plain(Leaf(Float(bits)))
    case VStr(text) => Plain(Leaf(Text(text)))
    case VArray(_) => Plain(Array(values))
    case VIdent(name) =>
      (match Lookup(rt, locals, name) case Some(value) => Plain(value) case None => Refused(UnknownVariable))
    case VMember(_, name) =>
      if !values[0].Object? then Refused(NotAnObject)
      else
        (match MemberOf(values[0].keys, values[0].members, name)
         case Some(value) => Plain(value)
         case None => Refused(MissingMember))
    case VCall(name, _, _) =>
      if name !in rt.functions then Refused(UnknownFunction)
      else if |values| !in rt.functions[name] then Refused(WrongArity)
      else Produced(rt.callFunction(name, values))
    case VMethod(_, name, _, _) =>
      if name !in rt.methods then Refused(UnknownMethod)
      else if |values| - 1 !in rt.methods[name] then Refused(WrongArity)
      else Produced(rt.callMethod(values[0], name, values[1..]))
    case VUnary(uop, _, _) => Produced(rt.unary(uop, values[0]))
    case VBinary(_, op, _, _) => Produced(rt.binary(op, values[0], values[1]))
  }

  /** Charges a handler's work and admits its value. */
  function Conclude(rt: Runtime, b: Budget, raw: Raw, steps: nat, bytes: nat): Outcome<Value> {
    match raw
    case Refused(error) => Failed(error)
    case Produced(reply) =>
      if bytes + reply.work > b.maxTotalBytes then Failed(TotalExceeded)
      else if reply.stringBytes > b.maxStringBytes then Failed(StringTooLong)
      else
        match reply.value
        case None => Failed(HandlerFailed)
        case Some(value) => Admit(rt, b, value, steps, bytes + reply.work)
  }

  // ----- the evaluator -----

  function Eval(
    rt: Runtime, b: Budget, v: Verified, locals: seq<map<string, Value>>, depth: nat, steps: nat, bytes: nat)
    : Outcome<Value>
    decreases Size(v), 1
  {
    if steps + 1 > b.maxSteps then Failed(StepsExceeded)
    else if depth > b.maxDepth then Failed(DepthTooGreat)
    else
      match PreCheck(b, v)
      case Some(error) => Failed(error)
      case None =>
        if IsLogic(v) then EvalLogic(rt, b, v, locals, depth, steps + 1, bytes)
        else if v.VFunction? then EvalFrame(rt, b, v, locals, depth, steps + 1, bytes)
        else
          match EvalAll(rt, b, Kids(v), locals, depth + 1, steps + 1, bytes)
          case Failed(error) => Failed(error)
          case Done(values, s, t) => Conclude(rt, b, Combine(rt, v, locals, values), s, t)
  }

  /** The short-circuit operators: the right operand is evaluated only if it decides. */
  function EvalLogic(
    rt: Runtime, b: Budget, v: Verified, locals: seq<map<string, Value>>, depth: nat, steps: nat, bytes: nat)
    : Outcome<Value>
    requires IsLogic(v)
    decreases Size(v), 0
  {
    match Eval(rt, b, v.left, locals, depth + 1, steps, bytes)
    case Failed(error) => Failed(error)
    case Done(left, s, t) =>
      if !IsBool(left) then Failed(NotABool)
      else if left.leaf.flag == (v.op == S.Or) then Admit(rt, b, BoolValue(left.leaf.flag), s, t)
      else
        match Eval(rt, b, v.right, locals, depth + 1, s, t)
        case Failed(error) => Failed(error)
        case Done(right, s', t') =>
          if !IsBool(right) then Failed(NotABool) else Admit(rt, b, BoolValue(right.leaf.flag), s', t')
  }

  /** A call frame: arguments in the caller's frames, the body under a new one. */
  function EvalFrame(
    rt: Runtime, b: Budget, v: Verified, locals: seq<map<string, Value>>, depth: nat, steps: nat, bytes: nat)
    : Outcome<Value>
    requires v.VFunction?
    decreases Size(v), 0
  {
    match EvalAll(rt, b, v.args, locals, depth + 1, steps, bytes)
    case Failed(error) => Failed(error)
    case Done(values, s, t) => Eval(rt, b, v.body, locals + [Frame(v.params, values)], depth + 1, s, t)
  }

  function EvalAll(
    rt: Runtime, b: Budget, vs: seq<Verified>, locals: seq<map<string, Value>>, depth: nat, steps: nat, bytes: nat)
    : (o: Outcome<seq<Value>>)
    ensures o.Done? ==> |o.value| == |vs|
    decreases SizeAll(vs), 2 + |vs|
  {
    if vs == [] then Done([], steps, bytes)
    else
      match Eval(rt, b, vs[0], locals, depth, steps, bytes)
      case Failed(error) => Failed(error)
      case Done(first, s, t) =>
        match EvalAll(rt, b, vs[1..], locals, depth, s, t)
        case Failed(error) => Failed(error)
        case Done(rest, s', t') => Done([first] + rest, s', t')
  }
}
