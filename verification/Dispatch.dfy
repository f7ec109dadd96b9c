/** Dispatch progress: what analysis resolves, the runtime can dispatch. */
module Dispatch {
  import opened Tokens
  import opened Syntax
  import opened Program
  import opened LowerSpec
  import opened LowerFacts
  import E = EvalSpec
  import VG = ValueGraph

  // ----- the registry check -----

  /** The capability a registry offers for a ticket; operators always have one. */
  function CapabilityForTicket(rt: E.Runtime, ticket: Ticket): Option<Capability> {
    match ticket.kind
    case FunctionCap => Registered(rt.functions, ticket)
    case MethodCap => Registered(rt.methods, ticket)
    case UnaryCap =>
      (match UnaryFromName(ticket.name)
       case None => None
       case Some(op) =>
         Some(if op in rt.unaryOps then rt.unaryOps[op] else Capability(Ticket(UnaryCap, UnaryText(op), 1), 1, 0)))
    case BinaryCap =>
      (match BinaryFromName(ticket.name)
       case None => None
       case Some(op) =>
         Some(if op in rt.binaryOps then rt.binaryOps[op] else Capability(Ticket(BinaryCap, BinaryText(op), 2), 1, 0)))
  }

  function Registered(entries: map<string, map<nat, Capability>>, ticket: Ticket): Option<Capability> {
    if ticket.name in entries && ticket.arity in entries[ticket.name] then Some(entries[ticket.name][ticket.arity])
    else None
  }

  function UnaryFromName(name: string): Option<UnaryOp> {
    if name == "!" then Some(Not) else if name == "-" then Some(Neg) else None
  }

  function BinaryFromName(name: string): Option<BinaryOp> {
    if name == "||" then Some(Or) else if name == "&&" then Some(And)
    else if name == "==" then Some(Eq) else if name == "!=" then Some(Ne)
    else if name == "<" then Some(Lt) else if name == "<=" then Some(Le)
    else if name == ">" then Some(Gt) else if name == ">=" then Some(Ge)
    else if name == "+" then Some(Add) else if name == "-" then Some(Sub)
    else if name == "*" then Some(Mul) else if name == "/" then Some(Div)
    else if name == "%" then Some(Rem) else None
  }

  /** `verify_runtime_capabilities`: the registry offers exactly what analysis required. */
  predicate Serves(rt: E.Runtime, required: set<Capability>) {
    forall c | c in required :: CapabilityForTicket(rt, c.ticket) == Some(c)
  }

  method VerifyRuntimeCapabilities(rt: E.Runtime, required: set<Capability>) returns (ok: bool)
    ensures ok == Serves(rt, required)
  {
    var left := required;
    while left != {}
      invariant left <= required
      invariant Serves(rt, required) <==> Serves(rt, left)
      decreases |left|
    {
      var c :| c in left;
      if CapabilityForTicket(rt, c.ticket) != Some(c) {
        return false;
      }
      left := left - {c};
    }
    ok := true;
  }

  /** Operator tickets are always served by name: every operator's text names it. */
  lemma UnaryNamed(op: UnaryOp)
    ensures UnaryFromName(UnaryText(op)) == Some(op)
  {
    match op
    case Not =>
    case Neg => assert "-"[0] != "!"[0];
  }

  lemma BinaryNamed(op: BinaryOp)
    ensures BinaryFromName(BinaryText(op)) == Some(op)
  {
    var name := BinaryText(op);
    assert name[0] in "|&=!<>+-*/%";
    assert |name| == 2 ==> name[1] in "|&=";
  }

  // ----- resolved trees -----

  /** Every dispatch in the tree has its ticket and its entry, every name its frame or variable, and
      every call frame an argument for each parameter. */
  predicate Resolved(rt: E.Runtime, v: Verified, locals: seq<seq<string>>)
    decreases Size(v), 1
  {
    && E.TicketCheck(v) == None
    && NodeResolved(rt, v, locals)
    && (if v.VFunction? then
          && |v.params| == |v.args| && ResolvedAll(rt, v.args, locals) && Resolved(rt, v.body, locals + [v.params])
        else ResolvedAll(rt, E.Kids(v), locals))
  }

  predicate NodeResolved(rt: E.Runtime, v: Verified, locals: seq<seq<string>>) {
    match v
    case VIdent(name) => IsLocal(locals, name) || name in rt.variables
    case VCall(name, args, _) => name in rt.functions && |args| in rt.functions[name]
    case VMethod(_, name, args, _) => name in rt.methods && |args| in rt.methods[name]
    case _ => true
  }

  predicate ResolvedAll(rt: E.Runtime, vs: seq<Verified>, locals: seq<seq<string>>)
    decreases SizeAll(vs), 2 + |vs|
  {
    vs == [] || (Resolved(rt, vs[0], locals) && ResolvedAll(rt, vs[1..], locals))
  }

  /** The default compile options, a consistent schema, and a host that has its variables. */
  ghost predicate Hosted(env: Env, rt: E.Runtime) {
    && !env.allowUnknownVariables && !env.allowUnknownFunctions && !env.allowUnknownMethods
    && SchemaIntegrity(env.schema) && env.schema.variables <= rt.variables.Keys
  }

  lemma TreeResolved(env: Env, rt: E.Runtime, locals: seq<seq<string>>, e: Expr, vs: seq<Verified>)
    requires Hosted(env, rt) && |vs| == |Children(e)| && NodeClean(env, locals, e)
    requires Serves(rt, Required(env, e))
    ensures var v := Tree(env, e, vs);
      && E.TicketCheck(v) == None && NodeResolved(rt, v, locals)
      && !v.VFunction? && E.Kids(v) == vs
  {
    if e.Method? {
      assert [vs[0]] + vs[1..] == vs;
    }
    if e.Call? || e.Method? {
      var found := HostCall(env, e);
      assert found.Matches?;
      assert found.capability in Required(env, e);
      assert CapabilityForTicket(rt, found.capability.ticket) == Some(found.capability);
    }
  }

  /** An accepted program is resolved on any host whose registry serves what was required. */
  lemma {:induction false} AcceptedResolved(
    env: Env, rt: E.Runtime, frames: seq<Binding>, locals: seq<seq<string>>, active: seq<FunctionKey>, e: Expr, depth: nat)
    requires Hosted(env, rt)
    requires var o := Analyze(env, frames, locals, active, e, depth); Accepted(o) && Serves(rt, o.required)
    ensures Resolved(rt, Analyze(env, frames, locals, active, e, depth).expr, locals)
    decreases Rank(env.cap, depth), |frames|, 2
  {
    hide Build, Tree, AnalyzeAll, AnalyzeFunction, Hosted, NodeClean, Required, NodeResolved, E.Kids, E.TicketCheck;
    if e.Ident? && InlineBinding(frames, e.name).Some? {
      AcceptedResolved(env, rt, frames[..|frames| - 1], locals, active, InlineBinding(frames, e.name).value, depth);
    } else if Callee(env, active, e).Some? {
      FunctionResolved(env, rt, frames, locals, active, Callee(env, active, e).value, e, depth);
    } else {
      var kids := AnalyzeAll(env, frames, locals, active, Children(e), depth + 1);
      BuildParts(env, locals, e, kids);
      AcceptedResolvedAll(env, rt, frames, locals, active, Children(e), depth + 1);
      TreeResolved(env, rt, locals, e, kids.exprs);
    }
  }

  lemma {:induction false} FunctionResolved(
    env: Env, rt: E.Runtime, frames: seq<Binding>, locals: seq<seq<string>>, active: seq<FunctionKey>,
    f: Function, e: Expr, depth: nat)
    requires Hosted(env, rt) && depth <= env.cap && e.Call?
    requires var o := AnalyzeFunction(env, frames, locals, active, f, e, depth); Accepted(o) && Serves(rt, o.required)
    ensures Resolved(rt, AnalyzeFunction(env, frames, locals, active, f, e, depth).expr, locals)
    decreases Rank(env.cap, depth), |frames|, 1
  {
    hide Analyze, AnalyzeAll, Hosted, ResolvedAll;
    if env.mode == Inline {
      AcceptedResolved(env, rt, frames + [Binding(f.params, e.args)], locals, active + [KeyOf(f)], f.body, depth + 1);
    } else {
      AcceptedResolvedAll(env, rt, frames, locals, active, e.args, depth + 1);
      AcceptedResolved(env, rt, frames, locals + [f.params], active + [KeyOf(f)], f.body, depth + 1);
    }
  }

  lemma {:induction false} AcceptedResolvedAll(
    env: Env, rt: E.Runtime, frames: seq<Binding>, locals: seq<seq<string>>, active: seq<FunctionKey>, es: seq<Expr>, depth: nat)
    requires Hosted(env, rt)
    requires var o := AnalyzeAll(env, frames, locals, active, es, depth); AcceptedAll(o) && Serves(rt, o.required)
    ensures ResolvedAll(rt, AnalyzeAll(env, frames, locals, active, es, depth).exprs, locals)
    decreases Rank(env.cap, depth), |frames|, |es| + 3
  {
    hide Analyze, Hosted, Resolved;
    if es != [] {
      AcceptedResolved(env, rt, frames, locals, active, es[0], depth);
      AcceptedResolvedAll(env, rt, frames, locals, active, es[1..], depth);
      var o := AnalyzeAll(env, frames, locals, active, es, depth);
      assert o.exprs[1..] == AnalyzeAll(env, frames, locals, active, es[1..], depth).exprs;
    }
  }

  // ----- resolved trees never fail to dispatch -----

  predicate IsDispatchError(error: E.EvalError) {
    || error.Unresolved? || error.TicketMismatch? || error.UnknownFunction? || error.UnknownMethod?
    || error.WrongArity? || error.FrameArity? || error.UnknownVariable?
  }

  predicate Dispatches<T>(o: E.Outcome<T>) { o.Failed? ==> !IsDispatchError(o.error) }

  /** The value frames bind exactly the names analysis knew of. */
  ghost predicate Framed(locals: seq<map<string, VG.Value>>, names: seq<seq<string>>) {
    |locals| == |names| && forall i, x :: 0 <= i < |locals| && x in names[i] ==> x in locals[i]
  }

  lemma {:induction false} LocalFound(locals: seq<map<string, VG.Value>>, names: seq<seq<string>>, x: string)
    requires Framed(locals, names) && IsLocal(names, x)
    ensures E.LocalValue(locals, x).Some?
    decreases |names|
  {
    if x !in names[|names| - 1] {
      LocalFound(locals[..|locals| - 1], names[..|names| - 1], x);
    }
  }

  lemma FrameHasParams(params: seq<string>, values: seq<VG.Value>)
    requires |params| == |values|
    ensures forall x | x in params :: x in E.Frame(params, values)
  {
    if params != [] { FrameHasParams(params[1..], values[1..]); }
  }

  lemma CombineDispatches(
    rt: E.Runtime, v: Verified, names: seq<seq<string>>, locals: seq<map<string, VG.Value>>, values: seq<VG.Value>)
    requires |values| == |E.Kids(v)| && !v.VFunction? && NodeResolved(rt, v, names) && Framed(locals, names)
    ensures var raw := E.Combine(rt, v, locals, values); raw.Refused? ==> !IsDispatchError(raw.error)
  {
    if v.VIdent? && IsLocal(names, v.name) { LocalFound(locals, names, v.name); }
  }

  lemma ConcludeDispatches(rt: E.Runtime, b: E.Budget, raw: E.Raw, steps: nat, bytes: nat)
    requires raw.Refused? ==> !IsDispatchError(raw.error)
    ensures Dispatches(E.Conclude(rt, b, raw, steps, bytes))
  {
    hide E.Admits;
  }

  lemma BudgetErrors()
    ensures !IsDispatchError(E.StepsExceeded) && !IsDispatchError(E.DepthTooGreat)
  {
  }

  lemma {:induction false} EvalDispatches(
    rt: E.Runtime, b: E.Budget, v: Verified, names: seq<seq<string>>, locals: seq<map<string, VG.Value>>,
    depth: nat, steps: nat, bytes: nat)
    requires Resolved(rt, v, names) && Framed(locals, names)
    ensures Dispatches(E.Eval(rt, b, v, locals, depth, steps, bytes))
    decreases Size(v), 1
  {
    BudgetErrors();
    hide E.EvalAll, E.EvalLogic, E.EvalFrame, E.Combine, E.Kids, Framed, NodeResolved, Resolved, ResolvedAll, E.PreCheck,
         E.Conclude, IsDispatchError;
    ResolvedParts(rt, b, v, names);
    if E.IsLogic(v) {
      LogicDispatches(rt, b, v, names, locals, depth, steps + 1, bytes);
    } else if v.VFunction? {
      FrameDispatches(rt, b, v, names, locals, depth, steps + 1, bytes);
    } else {
      AllDispatch(rt, b, E.Kids(v), names, locals, depth + 1, steps + 1, bytes);
      var o := E.EvalAll(rt, b, E.Kids(v), locals, depth + 1, steps + 1, bytes);
      if o.Done? {
        CombineDispatches(rt, v, names, locals, o.value);
        ConcludeDispatches(rt, b, E.Combine(rt, v, locals, o.value), o.steps, o.bytes);
      }
    }
  }

  lemma {:induction false} LogicDispatches(
    rt: E.Runtime, b: E.Budget, v: Verified, names: seq<seq<string>>, locals: seq<map<string, VG.Value>>,
    depth: nat, steps: nat, bytes: nat)
    requires E.IsLogic(v) && ResolvedAll(rt, E.Kids(v), names) && Framed(locals, names)
    ensures Dispatches(E.EvalLogic(rt, b, v, locals, depth, steps, bytes))
    decreases Size(v), 0
  {
    hide E.Eval, Framed, Resolved, ResolvedAll, E.Admits, E.Kids, NodeResolved;
    LogicResolved(rt, v, names);
    EvalDispatches(rt, b, v.left, names, locals, depth + 1, steps, bytes);
    var l := E.Eval(rt, b, v.left, locals, depth + 1, steps, bytes);
    if l.Done? { EvalDispatches(rt, b, v.right, names, locals, depth + 1, l.steps, l.bytes); }
  }

  /** What a resolved node says about its checks and its operands. */
  lemma ResolvedParts(rt: E.Runtime, b: E.Budget, v: Verified, names: seq<seq<string>>)
    requires Resolved(rt, v, names)
    ensures NodeResolved(rt, v, names)
    ensures E.PreCheck(b, v).Some? ==> !IsDispatchError(E.PreCheck(b, v).value)
    ensures !v.VFunction? ==> ResolvedAll(rt, E.Kids(v), names)
  {
    hide ResolvedAll, NodeResolved, E.Kids;
  }

  lemma LogicResolved(rt: E.Runtime, v: Verified, names: seq<seq<string>>)
    requires E.IsLogic(v) && ResolvedAll(rt, E.Kids(v), names)
    ensures Resolved(rt, v.left, names) && Resolved(rt, v.right, names)
  {
    hide Resolved;
    assert E.Kids(v) == [v.left] + [v.right];
    assert ([v.left] + [v.right])[1..] == [v.right];
  }

  lemma {:induction false} FrameDispatches(
    rt: E.Runtime, b: E.Budget, v: Verified, names: seq<seq<string>>, locals: seq<map<string, VG.Value>>,
    depth: nat, steps: nat, bytes: nat)
    requires v.VFunction? && Resolved(rt, v, names) && Framed(locals, names)
    ensures Dispatches(E.EvalFrame(rt, b, v, locals, depth, steps, bytes))
    decreases Size(v), 0
  {
    hide E.Eval, E.EvalAll, ResolvedAll, E.Frame;
    AllDispatch(rt, b, v.args, names, locals, depth + 1, steps, bytes);
    var o := E.EvalAll(rt, b, v.args, locals, depth + 1, steps, bytes);
    if o.Done? {
      FrameHasParams(v.params, o.value);
      EvalDispatches(rt, b, v.body, names + [v.params], locals + [E.Frame(v.params, o.value)], depth + 1, o.steps, o.bytes);
    }
  }

  lemma {:induction false} AllDispatch(
    rt: E.Runtime, b: E.Budget, vs: seq<Verified>, names: seq<seq<string>>, locals: seq<map<string, VG.Value>>,
    depth: nat, steps: nat, bytes: nat)
    requires ResolvedAll(rt, vs, names) && Framed(locals, names)
    ensures Dispatches(E.EvalAll(rt, b, vs, locals, depth, steps, bytes))
    decreases SizeAll(vs), 2 + |vs|
  {
    hide E.Eval, Resolved, Framed;
    if vs != [] {
      EvalDispatches(rt, b, vs[0], names, locals, depth, steps, bytes);
      var o := E.Eval(rt, b, vs[0], locals, depth, steps, bytes);
      if o.Done? { AllDispatch(rt, b, vs[1..], names, locals, depth, o.steps, o.bytes); }
    }
  }

  /** A program compiled with the default options, on a registry that passes the capability check and
      a context that supplies every schema variable, never fails for want of a ticket, a matching
      ticket, a function, a method, an arity or a variable. */
  lemma DispatchProgress(env: Env, e: Expr, rt: E.Runtime, b: E.Budget)
    requires Hosted(env, rt)
    requires var o := Analyze(env, [], [], [], e, 0); Accepted(o) && Serves(rt, o.required)
    ensures Dispatches(E.Eval(rt, b, Analyze(env, [], [], [], e, 0).expr, [], 0, 0, 0))
  {
    hide Analyze, E.Eval, Resolved, Hosted;
    AcceptedResolved(env, rt, [], [], [], e, 0);
    EvalDispatches(rt, b, Analyze(env, [], [], [], e, 0).expr, [], [], 0, 0, 0);
  }
}
