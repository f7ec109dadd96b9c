/** Semantic lowering as recursive functions: what the analysis makes of an expression in either
    function mode, and what the dry-run meter counts for it. Neither function knows the node and
    scalar budgets; the methods that do are proved against them. */
module LowerSpec {
  import opened Text
  import opened Tokens
  import opened Syntax
  import opened Program

  datatype Mode = Inline | CallFrame

  /** What analysis is given: `cap` is the profile's call depth limit, at most 128; `permits` and
      `available` are the profile's checks of a capability and of a variable. */
  datatype Env = Env(
    mode: Mode, schema: Schema, scope: Scope, cap: nat,
    allowUnknownVariables: bool, allowUnknownFunctions: bool, allowUnknownMethods: bool,
    permits: Capability -> bool, available: string -> bool)

  /** A borrowed frame of the inline mode: parameters and the caller's argument expressions. */
  datatype Binding = Binding(params: seq<string>, args: seq<Expr>)

  /** The argument of the first parameter called `name`. */
  function BoundArg(params: seq<string>, args: seq<Expr>, name: string): Option<Expr> {
    if params == [] || args == [] then None
    else if params[0] == name then Some(args[0])
    else BoundArg(params[1..], args[1..], name)
  }

  function InlineBinding(frames: seq<Binding>, name: string): Option<Expr> {
    if frames == [] then None
    else BoundArg(frames[|frames| - 1].params, frames[|frames| - 1].args, name)
  }

  predicate IsLocal(locals: seq<seq<string>>, name: string) {
    locals != [] && (name in locals[|locals| - 1] || IsLocal(locals[..|locals| - 1], name))
  }

  function CurrentScope(env: Env, active: seq<FunctionKey>): Scope {
    if active == [] then env.scope else active[|active| - 1].scope
  }

  /** The outcome for one expression: its tree, the nodes and scalar bytes it charges, the
      capabilities it requires, and what went wrong: too deep, a recursive expression function, one
      with the wrong number of arguments; `clean` says that nothing else was reported. */
  datatype Out = Out(
    expr: Verified, nodes: nat, scalars: nat, required: set<Capability>,
    tooDeep: bool, recursive: bool, badArity: bool, clean: bool)
  {
    /** An expression-function call was left out of the tree. */
    predicate Cut() { recursive || badArity }
  }

  datatype Outs = Outs(
    exprs: seq<Verified>, nodes: nat, scalars: nat, required: set<Capability>,
    tooDeep: bool, recursive: bool, badArity: bool, clean: bool)
  {
    predicate Cut() { recursive || badArity }
  }

  predicate Accepted(o: Out) { !o.tooDeep && !o.Cut() && o.clean }

  predicate AcceptedAll(o: Outs) { !o.tooDeep && !o.Cut() && o.clean }

  function Rank(cap: nat, depth: nat): nat { if depth > cap then 0 else cap + 1 - depth }

  function ParamBytes(params: seq<string>): nat {
    if params == [] then 0 else Bytes(params[0]) + ParamBytes(params[1..])
  }

  function Analyze(
    env: Env, frames: seq<Binding>, locals: seq<seq<string>>, active: seq<FunctionKey>, e: Expr, depth: nat): Out
    decreases Rank(env.cap, depth), |frames|, 2
  {
    if depth > env.cap then Out(VNull, 0, 0, {}, true, false, false, true)
    else if e.Ident? && InlineBinding(frames, e.name).Some? then
      Analyze(env, frames[..|frames| - 1], locals, active, InlineBinding(frames, e.name).value, depth)
    else
      match Callee(env, active, e)
      case Some(f) => AnalyzeFunction(env, frames, locals, active, f, e, depth)
      case None => Build(env, locals, e, AnalyzeAll(env, frames, locals, active, Children(e), depth + 1))
  }

  /** The expression function a call resolves to, in the scope of the function being analysed. */
  function Callee(env: Env, active: seq<FunctionKey>, e: Expr): (f: Option<Function>)
    ensures f.Some? ==> e.Call?
  {
    if e.Call? then FunctionForScope(env.schema, e.name, CurrentScope(env, active)) else None
  }

  /** Any other node, from the outcomes of its children. */
  function Build(env: Env, locals: seq<seq<string>>, e: Expr, kids: Outs): Out
    requires |kids.exprs| == |Children(e)|
  {
    Out(Tree(env, e, kids.exprs), 1 + kids.nodes, Bytes(OwnText(e)) + kids.scalars,
        kids.required + Required(env, e), kids.tooDeep, kids.recursive, kids.badArity,
        kids.clean && NodeClean(env, locals, e))
  }

  function Tree(env: Env, e: Expr, vs: seq<Verified>): Verified
    requires |vs| == |Children(e)|
  {
    match e
    case Null => VNull
    case Bool(flag) => VBool(flag)
    case Int(number) => VInt(number)
    case Float(bits) => VFloat(bits)
    case Str(text) => VStr(text)
    case Ident(name) => VIdent(name)
    case Array(_) => VArray(vs)
    case Member(_, name) => VMember(vs[0], name)
    case Call(name, _) => VCall(name, vs, TicketOf(HostCall(env, e)))
    case Method(_, name, _) => VMethod(vs[0], name, vs[1..], TicketOf(HostCall(env, e)))
    case Unary(uop, _) => VUnary(uop, vs[0], Some(UnaryCapability(env.schema, uop).ticket))
    case Binary(_, op, _) => VBinary(vs[0], op, vs[1], Some(BinaryCapability(env.schema, op).ticket))
  }

  /** How the schema resolves a host function or method call. */
  function HostCall(env: Env, e: Expr): SignatureMatch
    requires e.Call? || e.Method?
  {
    SignatureAccepts(if e.Call? then env.schema.functions else env.schema.methods, e.name, |e.args|)
  }

  function TicketOf(found: SignatureMatch): Option<Ticket> {
    if found.Matches? then Some(found.capability.ticket) else None
  }

  function Required(env: Env, e: Expr): set<Capability> {
    match e
    case Call(_, _) => RequiredOf(HostCall(env, e))
    case Method(_, _, _) => RequiredOf(HostCall(env, e))
    case Unary(uop, _) => {UnaryCapability(env.schema, uop)}
    case Binary(_, op, _) => {BinaryCapability(env.schema, op)}
    case _ => {}
  }

  function RequiredOf(found: SignatureMatch): set<Capability> {
    if found.Matches? then {found.capability} else {}
  }

  /** Nothing is reported for the node itself. */
  predicate NodeClean(env: Env, locals: seq<seq<string>>, e: Expr) {
    match e
    case Ident(name) =>
      IsLocal(locals, name) || ((env.allowUnknownVariables || name in env.schema.variables) && env.available(name))
    case Call(_, _) => CallClean(env, HostCall(env, e), env.allowUnknownFunctions)
    case Method(_, _, _) => CallClean(env, HostCall(env, e), env.allowUnknownMethods)
    case Unary(uop, _) => env.permits(UnaryCapability(env.schema, uop))
    case Binary(_, op, _) => env.permits(BinaryCapability(env.schema, op))
    case _ => true
  }

  predicate CallClean(env: Env, found: SignatureMatch, allowUnknown: bool) {
    match found
    case Matches(capability) => env.permits(capability)
    case Unknown => allowUnknown
    case ArityMismatch => false
  }

  /** A call of an expression function: substitution through a borrowed frame, or a call frame. */
  function AnalyzeFunction(
    env: Env, frames: seq<Binding>, locals: seq<seq<string>>, active: seq<FunctionKey>, f: Function, e: Expr, depth: nat)
    : Out
    requires depth <= env.cap && e.Call?
    decreases Rank(env.cap, depth), |frames|, 1
  {
    var own := Bytes(OwnText(e));
    if |f.params| != |e.args| then
      Out(if env.mode == Inline then VCall(f.name, [], None) else VFunction(f.name, f.params, [], VNull),
          1, own, {}, false, false, true, true)
    else if KeyOf(f) in active then
      Out(VNull, 1, own + (if env.mode == Inline then 0 else ParamBytes(f.params)), {}, false, true, false, true)
    else if env.mode == Inline then
      var b := Analyze(env, frames + [Binding(f.params, e.args)], locals, active + [KeyOf(f)], f.body, depth + 1);
      b.(nodes := 1 + b.nodes, scalars := own + b.scalars)
    else
      var o := AnalyzeAll(env, frames, locals, active, e.args, depth + 1);
      var b := Analyze(env, frames, locals + [f.params], active + [KeyOf(f)], f.body, depth + 1);
      Out(VFunction(f.name, f.params, o.exprs, b.expr), 1 + o.nodes + b.nodes,
          own + ParamBytes(f.params) + o.scalars + b.scalars, o.required + b.required,
          o.tooDeep || b.tooDeep, o.recursive || b.recursive, o.badArity || b.badArity, o.clean && b.clean)
  }

  function AnalyzeAll(
    env: Env, frames: seq<Binding>, locals: seq<seq<string>>, active: seq<FunctionKey>, es: seq<Expr>, depth: nat)
    : (o: Outs)
    ensures |o.exprs| == |es|
    decreases Rank(env.cap, depth), |frames|, |es| + 3
  {
    if es == [] then Outs([], 0, 0, {}, false, false, false, true)
    else
      var first := Analyze(env, frames, locals, active, es[0], depth);
      var rest := AnalyzeAll(env, frames, locals, active, es[1..], depth);
      Outs([first.expr] + rest.exprs, first.nodes + rest.nodes, first.scalars + rest.scalars,
           first.required + rest.required, first.tooDeep || rest.tooDeep,
           first.recursive || rest.recursive, first.badArity || rest.badArity,
           first.clean && rest.clean)
  }

  // ----- the dry-run meter -----

  datatype Tally = Tally(nodes: nat, scalars: nat, tooDeep: bool)

  function Combine(a: Tally, b: Tally): Tally {
    Tally(a.nodes + b.nodes, a.scalars + b.scalars, a.tooDeep || b.tooDeep)
  }

  const NoTally := Tally(0, 0, false)

  function Count(env: Env, frames: seq<Binding>, active: seq<FunctionKey>, e: Expr, depth: nat): Tally
    decreases Rank(env.cap, depth), |frames|, 2
  {
    if depth > env.cap then Tally(0, 0, true)
    else if env.mode == Inline && e.Ident? && InlineBinding(frames, e.name).Some? then
      Count(env, frames[..|frames| - 1], active, InlineBinding(frames, e.name).value, depth)
    else
      var own := Tally(1, Bytes(OwnText(e)), false);
      match Callee(env, active, e)
      case Some(f) => Combine(own, CountFunction(env, frames, active, f, e.args, depth))
      case None => Combine(own, CountAll(env, frames, active, Children(e), depth + 1))
  }

  function CountFunction(
    env: Env, frames: seq<Binding>, active: seq<FunctionKey>, f: Function, args: seq<Expr>, depth: nat): Tally
    requires depth <= env.cap
    decreases Rank(env.cap, depth), |frames|, 1
  {
    if |f.params| != |args| || KeyOf(f) in active then NoTally
    else if env.mode == Inline then
      Count(env, frames + [Binding(f.params, args)], active + [KeyOf(f)], f.body, depth + 1)
    else
      Combine(Combine(Tally(0, ParamBytes(f.params), false), CountAll(env, frames, active, args, depth + 1)),
              Count(env, frames, active + [KeyOf(f)], f.body, depth + 1))
  }

  function CountAll(env: Env, frames: seq<Binding>, active: seq<FunctionKey>, es: seq<Expr>, depth: nat): Tally
    decreases Rank(env.cap, depth), |frames|, |es| + 3
  {
    if es == [] then NoTally
    else Combine(Count(env, frames, active, es[0], depth), CountAll(env, frames, active, es[1..], depth))
  }
}
