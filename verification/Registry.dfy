/** A registry's own schema with expression functions added to it, and exactly when the registry passes
    the capability check of a program analysed against such a schema. Adding an expression function also
    leaves a host entry of its name, so a call that does not resolve to the function can resolve to the
    entry, which no registry serves. */
module Registry {
  import opened Tokens
  import opened Syntax
  import opened Program
  import opened LowerSpec
  import opened LowerFacts
  import opened Dispatch
  import opened CallGraph
  import E = EvalSpec

  // ----- building the schema -----

  type Entries = map<string, map<nat, Capability>>

  /** The metadata of a host function about which nothing else is said. */
  function PlainFunction(name: string, arity: nat): Capability {
    Capability(Ticket(FunctionCap, name, arity), 1, 0)
  }

  function EntryOf(entries: Entries, name: string, arity: nat): Option<Capability> {
    Registered(entries, Ticket(FunctionCap, name, arity))
  }

  function WithEntry(entries: Entries, c: Capability): Entries {
    var name := c.ticket.name;
    entries[name := (if name in entries then entries[name] else map[])[c.ticket.arity := c]]
  }

  /** The schema a registry gives of itself. */
  function OwnSchema(rt: E.Runtime): Schema {
    Schema({}, rt.functions, rt.methods, rt.unaryOps, rt.binaryOps, map[], map[])
  }

  /** A schema after one more expression function: the function, and a host entry of its name. */
  function Added(s: Schema, f: Function): Schema {
    Schema(s.variables, WithEntry(s.functions, PlainFunction(f.name, |f.params|)), s.methods, s.unaryOps, s.binaryOps,
           if f.scope == LocalScope then s.globals else s.globals[f.name := f],
           if f.scope == LocalScope then s.locals[f.name := f] else s.locals)
  }

  function AddedAll(s: Schema, fs: seq<Function>): Schema {
    if fs == [] then s else Added(AddedAll(s, fs[..|fs| - 1]), fs[|fs| - 1])
  }

  /** `RuntimeSchema`. A schema with a diagnostic is refused by every analysis. */
  class RuntimeSchema {
    var variables: set<string>
    var functions: Entries
    var globals: map<string, Function>
    var locals: map<string, Function>
    var diagnosed: bool
    const methods: Entries
    const unaryOps: map<UnaryOp, Capability>
    const binaryOps: map<BinaryOp, Capability>

    function Contents(): Schema
      reads this
    {
      Schema(variables, functions, methods, unaryOps, binaryOps, globals, locals)
    }

    constructor Of(rt: E.Runtime)
      ensures Contents() == OwnSchema(rt) && !diagnosed
    {
      variables, functions, globals, locals, diagnosed := {}, rt.functions, map[], map[], false;
      methods, unaryOps, binaryOps := rt.methods, rt.unaryOps, rt.binaryOps;
    }

    method AddVariable(name: string)
      modifies this`variables
      ensures Contents() == old(Contents()).(variables := old(variables) + {name})
      ensures forall rt | Grown(rt, old(Contents())) :: Grown(rt, Contents())
    {
      hide EntryOf;
      variables := variables + {name};
    }

    method AddFunction(name: string, arity: nat)
      modifies this`functions
      ensures functions == WithEntry(old(functions), PlainFunction(name, arity))
    {
      var accepted := if name in functions then functions[name] else map[];
      accepted := accepted[arity := PlainFunction(name, arity)];
      functions := functions[name := accepted];
    }

    /** `admitted` says that the parameters are valid and the limits on expression functions allow one
        more. A function that is not admitted leaves the schema as it was; one that replaces another of
        its scope is added. Either leaves a diagnostic. */
    method AddScopedExpressionFunction(f: Function, admitted: bool)
      modifies this
      ensures Contents() == if admitted then Added(old(Contents()), f) else old(Contents())
      ensures diagnosed == (old(diagnosed) || !admitted || HasFunction(old(Contents()), KeyOf(f)))
      ensures forall rt | !diagnosed && Grown(rt, old(Contents())) :: Grown(rt, Contents())
    {
      hide Grown, WithEntry;
      ghost var before := Contents();
      if !admitted {
        diagnosed := true;
        return;
      }
      AddFunction(f.name, |f.params|);
      var duplicate := f.name in (if f.scope == LocalScope then locals else globals);
      if duplicate {
        diagnosed := true;
      }
      if f.scope == LocalScope {
        locals := locals[f.name := f];
      } else {
        globals := globals[f.name := f];
      }
      forall rt | !diagnosed && Grown(rt, before) ensures Grown(rt, Contents()) {
        AddedGrown(rt, before, f);
      }
    }
  }

  /** An expression function of this name and arity is in the schema, in either scope. */
  predicate Leaves(s: Schema, name: string, arity: nat) {
    || (name in s.globals && |s.globals[name].params| == arity)
    || (name in s.locals && |s.locals[name].params| == arity)
  }

  predicate SameOperations(rt: E.Runtime, s: Schema) {
    s.methods == rt.methods && s.unaryOps == rt.unaryOps && s.binaryOps == rt.binaryOps
  }

  /** The host entries are the registry's own, but where an expression function has left its plain one. */
  ghost predicate Grown(rt: E.Runtime, s: Schema) {
    && SchemaIntegrity(s) && SameOperations(rt, s)
    && forall name, arity :: EntryOf(s.functions, name, arity)
         == if Leaves(s, name, arity) then Some(PlainFunction(name, arity)) else EntryOf(rt.functions, name, arity)
  }

  lemma EntryAdded(entries: Entries, c: Capability, name: string, arity: nat)
    ensures EntryOf(WithEntry(entries, c), name, arity)
         == if c.ticket.name == name && c.ticket.arity == arity then Some(c) else EntryOf(entries, name, arity)
  {
  }

  lemma AddedIntegrity(s: Schema, f: Function)
    requires SchemaIntegrity(s)
    ensures SchemaIntegrity(Added(s, f))
  {
    hide UnaryText, BinaryText, WithEntry;
    var t, plain := Added(s, f), PlainFunction(f.name, |f.params|);
    forall name, arity | name in t.functions && arity in t.functions[name]
      ensures t.functions[name][arity].ticket == Ticket(FunctionCap, name, arity) {
      EntryFound(s.functions, plain, name, arity);
    }
  }

  lemma EntryFound(entries: Entries, c: Capability, name: string, arity: nat)
    requires name in WithEntry(entries, c) && arity in WithEntry(entries, c)[name]
    ensures if c.ticket.name == name && c.ticket.arity == arity then WithEntry(entries, c)[name][arity] == c
            else name in entries && arity in entries[name] && WithEntry(entries, c)[name][arity] == entries[name][arity]
  {
  }

  lemma AddedLeaves(s: Schema, f: Function, name: string, arity: nat)
    requires !HasFunction(s, KeyOf(f))
    ensures Leaves(Added(s, f), name, arity) <==> Leaves(s, name, arity) || (f.name == name && |f.params| == arity)
  {
    hide WithEntry;
  }

  /** Adding a function of a new name keeps it so. */
  lemma AddedGrown(rt: E.Runtime, s: Schema, f: Function)
    requires Grown(rt, s) && !HasFunction(s, KeyOf(f))
    ensures Grown(rt, Added(s, f))
  {
    hide EntryOf, WithEntry, Leaves, SchemaIntegrity, HasFunction;
    AddedIntegrity(s, f);
    forall name, arity
      ensures EntryOf(Added(s, f).functions, name, arity)
           == if Leaves(Added(s, f), name, arity) then Some(PlainFunction(name, arity))
              else EntryOf(rt.functions, name, arity) {
      EntryAdded(s.functions, PlainFunction(f.name, |f.params|), name, arity);
      AddedLeaves(s, f, name, arity);
    }
  }

  ghost predicate NewKeys(fs: seq<Function>) {
    forall i, j :: 0 <= i < j < |fs| ==> KeyOf(fs[i]) != KeyOf(fs[j])
  }

  /** Whatever expression functions are added to a registry's own schema, each once. */
  lemma {:induction false} OwnSchemaGrows(rt: E.Runtime, fs: seq<Function>)
    requires SchemaIntegrity(OwnSchema(rt)) && NewKeys(fs)
    ensures Grown(rt, AddedAll(OwnSchema(rt), fs))
    ensures forall k :: HasFunction(AddedAll(OwnSchema(rt), fs), k) <==> exists i :: 0 <= i < |fs| && KeyOf(fs[i]) == k
  {
    hide EntryOf, WithEntry, SchemaIntegrity;
    if fs != [] {
      var most, last := fs[..|fs| - 1], fs[|fs| - 1];
      OwnSchemaGrows(rt, most);
      var s := AddedAll(OwnSchema(rt), most);
      assert fs == most + [last];
      AddedGrown(rt, s, last);
      forall k ensures HasFunction(Added(s, last), k) <==> exists i :: 0 <= i < |fs| && KeyOf(fs[i]) == k {
        AddedKeys(s, last, k);
        if HasFunction(s, k) {
          var i :| 0 <= i < |most| && KeyOf(most[i]) == k;
          assert fs[i] == most[i];
        }
        assert fs[|most|] == last;
      }
    }
  }

  lemma AddedKeys(s: Schema, f: Function, k: FunctionKey)
    ensures HasFunction(Added(s, f), k) <==> HasFunction(s, k) || k == KeyOf(f)
  {
    hide WithEntry;
  }

  // ----- the host calls that lowering meets -----

  /** A host function call and the scope its name was looked up in. */
  datatype HostSite = HostSite(scope: Scope, call: CallSite)

  /** The calls that resolve to no expression function, where lowering meets them. */
  function HostCalls(env: Env, frames: seq<Binding>, active: seq<FunctionKey>, e: Expr, depth: nat): set<HostSite>
    decreases Rank(env.cap, depth), |frames|, 2
  {
    if depth > env.cap then {}
    else if e.Ident? && InlineBinding(frames, e.name).Some? then
      HostCalls(env, frames[..|frames| - 1], active, InlineBinding(frames, e.name).value, depth)
    else
      match Callee(env, active, e)
      case Some(f) => HostCallsFrom(env, frames, active, f, e.args, depth)
      case None => OwnHostCall(env, active, e) + HostCallsAll(env, frames, active, Children(e), depth + 1)
  }

  function OwnHostCall(env: Env, active: seq<FunctionKey>, e: Expr): set<HostSite> {
    if e.Call? then {HostSite(CurrentScope(env, active), CallSite(e.name, |e.args|))} else {}
  }

  function HostCallsFrom(
    env: Env, frames: seq<Binding>, active: seq<FunctionKey>, f: Function, args: seq<Expr>, depth: nat): set<HostSite>
    requires depth <= env.cap
    decreases Rank(env.cap, depth), |frames|, 1
  {
    if |f.params| != |args| || KeyOf(f) in active then {}
    else if env.mode == Inline then
      HostCalls(env, frames + [Binding(f.params, args)], active + [KeyOf(f)], f.body, depth + 1)
    else
      HostCallsAll(env, frames, active, args, depth + 1) + HostCalls(env, frames, active + [KeyOf(f)], f.body, depth + 1)
  }

  function HostCallsAll(env: Env, frames: seq<Binding>, active: seq<FunctionKey>, es: seq<Expr>, depth: nat): set<HostSite>
    decreases Rank(env.cap, depth), |frames|, |es| + 3
  {
    if es == [] then {}
    else HostCalls(env, frames, active, es[0], depth) + HostCallsAll(env, frames, active, es[1..], depth)
  }

  // ----- what the registry does not serve -----

  /** The only name a lookup in the global scope misses although a function has it. */
  predicate LocalOnly(s: Schema, name: string) { name in s.locals && name !in s.globals }

  /** A call, made in the global scope, that finds the entry a local function has left behind, and the
      registry hosts no such function itself. */
  predicate Leftover(rt: E.Runtime, s: Schema, h: HostSite) {
    && h.scope == GlobalScope && LocalOnly(s, h.call.name) && |s.locals[h.call.name].params| == h.call.arity
    && EntryOf(rt.functions, h.call.name, h.call.arity) != EntryOf(s.functions, h.call.name, h.call.arity)
  }

  ghost predicate NoLeftover(rt: E.Runtime, s: Schema, hs: set<HostSite>) {
    forall h :: h in hs ==> !Leftover(rt, s, h)
  }

  /** Every host entry is the registry's own or a plain one that an expression function has left. */
  ghost predicate Backed(rt: E.Runtime, s: Schema) {
    && SchemaIntegrity(s) && SameOperations(rt, s)
    && forall name, arity :: EntryOf(s.functions, name, arity) != EntryOf(rt.functions, name, arity) ==>
         Leaves(s, name, arity) && EntryOf(s.functions, name, arity) == Some(PlainFunction(name, arity))
  }

  lemma GrownBacked(rt: E.Runtime, s: Schema)
    requires Grown(rt, s)
    ensures Backed(rt, s)
  {
    hide EntryOf, Leaves, SchemaIntegrity;
  }

  /** A schema whose host entries are exactly the registry's has no leftovers, whatever functions it has. */
  lemma OwnEntriesBacked(rt: E.Runtime, s: Schema)
    requires SchemaIntegrity(s) && SameOperations(rt, s) && s.functions == rt.functions
    ensures Backed(rt, s) && forall hs :: NoLeftover(rt, s, hs)
  {
    hide EntryOf, Leaves, SchemaIntegrity;
  }

  lemma OperatorsServed(env: Env, rt: E.Runtime, e: Expr)
    requires SchemaIntegrity(env.schema) && SameOperations(rt, env.schema) && !e.Call?
    ensures Serves(rt, Required(env, e))
  {
    hide UnaryFromName, BinaryFromName, UnaryText, BinaryText;
    match e
    case Unary(uop, _) => UnaryNamed(uop);
    case Binary(_, op, _) => BinaryNamed(op);
    case _ =>
  }

  lemma HostCallServed(env: Env, rt: E.Runtime, active: seq<FunctionKey>, e: Expr)
    requires Backed(rt, env.schema) && e.Call? && Callee(env, active, e) == None
    ensures Serves(rt, Required(env, e)) <==> NoLeftover(rt, env.schema, OwnHostCall(env, active, e))
  {
    var s, h := env.schema, HostSite(CurrentScope(env, active), CallSite(e.name, |e.args|));
    var own := EntryOf(s.functions, e.name, |e.args|);
    assert OwnHostCall(env, active, e) == {h};
    assert Required(env, e) == if own.Some? then {own.value} else {};
    assert own.Some? ==> own.value.ticket == Ticket(FunctionCap, e.name, |e.args|);
    assert Serves(rt, Required(env, e)) <==> own == None || EntryOf(rt.functions, e.name, |e.args|) == own;
  }

  lemma ServesBoth(rt: E.Runtime, a: set<Capability>, b: set<Capability>)
    ensures Serves(rt, a + b) <==> Serves(rt, a) && Serves(rt, b)
  {
    hide CapabilityForTicket;
  }

  lemma NoneInBoth(rt: E.Runtime, s: Schema, a: set<HostSite>, b: set<HostSite>)
    ensures NoLeftover(rt, s, a + b) <==> NoLeftover(rt, s, a) && NoLeftover(rt, s, b)
  {
    hide Leftover;
  }

  lemma Nothing(rt: E.Runtime, s: Schema)
    ensures Serves(rt, {}) && NoLeftover(rt, s, {})
  {
  }

  /** Exactly when the registry serves what a program requires: if and only if lowering meets no
      leftover call. For every schema whose entries the registry backs, both modes and every program,
      accepted or not. */
  lemma {:induction false} OwnRegistryServes(
    env: Env, rt: E.Runtime, frames: seq<Binding>, locals: seq<seq<string>>, active: seq<FunctionKey>, e: Expr, depth: nat)
    requires Backed(rt, env.schema)
    ensures Serves(rt, Analyze(env, frames, locals, active, e, depth).required) <==>
      NoLeftover(rt, env.schema, HostCalls(env, frames, active, e, depth))
    decreases Rank(env.cap, depth), |frames|, 2
  {
    hide Serves, NoLeftover, Build, AnalyzeAll, AnalyzeFunction, HostCallsAll, HostCallsFrom, OwnHostCall, Backed, Required;
    Nothing(rt, env.schema);
    if depth > env.cap {
    } else if e.Ident? && InlineBinding(frames, e.name).Some? {
      OwnRegistryServes(env, rt, frames[..|frames| - 1], locals, active, InlineBinding(frames, e.name).value, depth);
    } else if Callee(env, active, e).Some? {
      OwnRegistryServesCall(env, rt, frames, locals, active, Callee(env, active, e).value, e, depth);
    } else {
      var kids := AnalyzeAll(env, frames, locals, active, Children(e), depth + 1);
      BuildParts(env, locals, e, kids);
      OwnRegistryServesAll(env, rt, frames, locals, active, Children(e), depth + 1);
      NodeServed(env, rt, active, e);
      ServesBoth(rt, kids.required, Required(env, e));
      NoneInBoth(rt, env.schema, OwnHostCall(env, active, e), HostCallsAll(env, frames, active, Children(e), depth + 1));
    }
  }

  lemma NodeServed(env: Env, rt: E.Runtime, active: seq<FunctionKey>, e: Expr)
    requires Backed(rt, env.schema) && Callee(env, active, e) == None
    ensures Serves(rt, Required(env, e)) <==> NoLeftover(rt, env.schema, OwnHostCall(env, active, e))
  {
    hide Serves, Required, Leftover, EntryOf, SchemaIntegrity, Leaves;
    if e.Call? { HostCallServed(env, rt, active, e); } else { OperatorsServed(env, rt, e); }
  }

  lemma {:induction false} OwnRegistryServesCall(
    env: Env, rt: E.Runtime, frames: seq<Binding>, locals: seq<seq<string>>, active: seq<FunctionKey>,
    f: Function, e: Expr, depth: nat)
    requires Backed(rt, env.schema) && depth <= env.cap && e.Call?
    ensures Serves(rt, AnalyzeFunction(env, frames, locals, active, f, e, depth).required) <==>
      NoLeftover(rt, env.schema, HostCallsFrom(env, frames, active, f, e.args, depth))
    decreases Rank(env.cap, depth), |frames|, 1
  {
    hide Serves, NoLeftover, Analyze, AnalyzeAll, HostCalls, HostCallsAll, Backed;
    Nothing(rt, env.schema);
    var longer := active + [KeyOf(f)];
    if |f.params| != |e.args| || KeyOf(f) in active {
    } else if env.mode == Inline {
      OwnRegistryServes(env, rt, frames + [Binding(f.params, e.args)], locals, longer, f.body, depth + 1);
    } else {
      OwnRegistryServesAll(env, rt, frames, locals, active, e.args, depth + 1);
      OwnRegistryServes(env, rt, frames, locals + [f.params], longer, f.body, depth + 1);
      ServesBoth(rt, AnalyzeAll(env, frames, locals, active, e.args, depth + 1).required,
                 Analyze(env, frames, locals + [f.params], longer, f.body, depth + 1).required);
      NoneInBoth(rt, env.schema, HostCallsAll(env, frames, active, e.args, depth + 1),
                 HostCalls(env, frames, longer, f.body, depth + 1));
    }
  }

  lemma {:induction false} OwnRegistryServesAll(
    env: Env, rt: E.Runtime, frames: seq<Binding>, locals: seq<seq<string>>, active: seq<FunctionKey>, es: seq<Expr>, depth: nat)
    requires Backed(rt, env.schema)
    ensures Serves(rt, AnalyzeAll(env, frames, locals, active, es, depth).required) <==>
      NoLeftover(rt, env.schema, HostCallsAll(env, frames, active, es, depth))
    decreases Rank(env.cap, depth), |frames|, |es| + 3
  {
    hide Serves, NoLeftover, Analyze, HostCalls, Backed;
    Nothing(rt, env.schema);
    if es != [] {
      OwnRegistryServes(env, rt, frames, locals, active, es[0], depth);
      OwnRegistryServesAll(env, rt, frames, locals, active, es[1..], depth);
      ServesBoth(rt, Analyze(env, frames, locals, active, es[0], depth).required,
                 AnalyzeAll(env, frames, locals, active, es[1..], depth).required);
      NoneInBoth(rt, env.schema, HostCalls(env, frames, active, es[0], depth),
                 HostCallsAll(env, frames, active, es[1..], depth));
    }
  }

  /** So a program without leftover calls dispatches, with no check of the registry at all. */
  lemma OwnRegistryDispatches(env: Env, e: Expr, rt: E.Runtime, b: E.Budget)
    requires Hosted(env, rt) && Backed(rt, env.schema) && Accepted(Analyze(env, [], [], [], e, 0))
    requires NoLeftover(rt, env.schema, HostCalls(env, [], [], e, 0))
    ensures Dispatches(E.Eval(rt, b, Analyze(env, [], [], [], e, 0).expr, [], 0, 0, 0))
  {
    hide Analyze, E.Eval, Serves, Backed, HostCalls, NoLeftover, Hosted;
    OwnRegistryServes(env, rt, [], [], [], e, 0);
    DispatchProgress(env, e, rt, b);
  }
}
