/** Which tree an expression is lowered to, as rules over the two of them, node by node; in the inline mode
    by substitution. The analysis accepts an expression with a tree exactly if the rules give it. */
module LowerRules {
  import opened Tokens
  import opened Syntax
  import opened Program
  import opened LowerSpec
  import opened LowerFacts
  import opened Substitution

  // ----- the rules -----

  function ScopeOf(env: Env, active: seq<FunctionKey>): Scope {
    if |active| == 0 then env.scope else active[|active| - 1].scope
  }

  /** Local rules see both tables, their own first; global ones only the global table. */
  function Visible(s: Schema, scope: Scope, name: string): Option<Function> {
    match scope
    case LocalScope =>
      if name in s.locals then Some(s.locals[name])
      else if name in s.globals then Some(s.globals[name])
      else None
    case GlobalScope => if name in s.globals then Some(s.globals[name]) else None
  }

  /** A parameter of some call frame, or a variable the schema and the profile know. */
  predicate Readable(env: Env, locals: seq<seq<string>>, name: string) {
    || (exists i :: 0 <= i < |locals| && name in locals[i])
    || (env.available(name) && (name in env.schema.variables || env.allowUnknownVariables))
  }

  /** A host call: bound to the entry of its name and arity, which the profile permits; an unknown name
      is left unbound where that is allowed, a known name of another arity never is. */
  predicate Bound(
    env: Env, entries: map<string, map<nat, Capability>>, allowUnknown: bool, name: string, arity: nat,
    ticket: Option<Ticket>)
  {
    if name in entries then
      arity in entries[name] && env.permits(entries[name][arity]) && ticket == Some(entries[name][arity].ticket)
    else allowUnknown && ticket == None
  }

  function UnaryEntry(s: Schema, op: UnaryOp): Capability {
    if op in s.unaryOps then s.unaryOps[op] else Capability(Ticket(UnaryCap, UnaryText(op), 1), 1, 0)
  }

  function BinaryEntry(s: Schema, op: BinaryOp): Capability {
    if op in s.binaryOps then s.binaryOps[op] else Capability(Ticket(BinaryCap, BinaryText(op), 2), 1, 0)
  }

  predicate Lowers(env: Env, locals: seq<seq<string>>, active: seq<FunctionKey>, e: Expr, v: Verified, depth: nat)
    decreases Rank(env.cap, depth), 2
  {
    depth <= env.cap &&
    match e
    case Null => v == VNull
    case Bool(flag) => v == VBool(flag)
    case Int(number) => v == VInt(number)
    case Float(bits) => v == VFloat(bits)
    case Str(text) => v == VStr(text)
    case Ident(name) => v == VIdent(name) && Readable(env, locals, name)
    case Array(items) => v.VArray? && LowersAll(env, locals, active, items, v.items, depth + 1)
    case Member(receiver, name) =>
      v.VMember? && v.name == name && Lowers(env, locals, active, receiver, v.receiver, depth + 1)
    case Call(name, args) =>
      (match Visible(env.schema, ScopeOf(env, active), name)
       case None =>
         && v.VCall? && v.name == name && Bound(env, env.schema.functions, env.allowUnknownFunctions, name, |args|, v.ticket)
         && LowersAll(env, locals, active, args, v.args, depth + 1)
       case Some(f) =>
         var key := FunctionKey(f.scope, f.name);
         && |f.params| == |args| && key !in active
         && (if env.mode == Inline then
               Lowers(env, locals, active + [key], Substituted(f.body, f.params, args), v, depth + 1)
             else
               && v.VFunction? && v.name == f.name && v.params == f.params
               && LowersAll(env, locals, active, args, v.args, depth + 1)
               && Lowers(env, locals + [f.params], active + [key], f.body, v.body, depth + 1)))
    case Method(receiver, name, args) =>
      && v.VMethod? && v.name == name && Bound(env, env.schema.methods, env.allowUnknownMethods, name, |args|, v.ticket)
      && Lowers(env, locals, active, receiver, v.receiver, depth + 1)
      && LowersAll(env, locals, active, args, v.args, depth + 1)
    case Unary(uop, operand) =>
      && v.VUnary? && v.uop == uop && env.permits(UnaryEntry(env.schema, uop))
      && v.ticket == Some(UnaryEntry(env.schema, uop).ticket)
      && Lowers(env, locals, active, operand, v.operand, depth + 1)
    case Binary(left, op, right) =>
      && v.VBinary? && v.op == op && env.permits(BinaryEntry(env.schema, op))
      && v.ticket == Some(BinaryEntry(env.schema, op).ticket)
      && Lowers(env, locals, active, left, v.left, depth + 1)
      && Lowers(env, locals, active, right, v.right, depth + 1)
  }

  predicate LowersAll(
    env: Env, locals: seq<seq<string>>, active: seq<FunctionKey>, es: seq<Expr>, vs: seq<Verified>, depth: nat)
    decreases Rank(env.cap, depth), |es| + 3
  {
    if es == [] then vs == []
    else
      vs != [] && Lowers(env, locals, active, es[0], vs[0], depth) && LowersAll(env, locals, active, es[1..], vs[1..], depth)
  }

  // ----- the tables agree -----

  lemma SameFunction(env: Env, active: seq<FunctionKey>, e: Expr)
    requires e.Call?
    ensures Callee(env, active, e) == Visible(env.schema, ScopeOf(env, active), e.name)
  {
  }

  lemma {:induction false} SameLocals(locals: seq<seq<string>>, name: string)
    ensures IsLocal(locals, name) <==> exists i :: 0 <= i < |locals| && name in locals[i]
  {
    if locals != [] {
      var most := locals[..|locals| - 1];
      SameLocals(most, name);
      if IsLocal(most, name) {
        var i :| 0 <= i < |most| && name in most[i];
        assert name in locals[i];
      }
      if exists i :: 0 <= i < |locals| && name in locals[i] {
        var i :| 0 <= i < |locals| && name in locals[i];
        if i < |most| { assert name in most[i]; }
      }
    }
  }

  // ----- the analysis follows the rules -----

  /** Accepted with this tree. */
  ghost predicate Gives(o: Out, v: Verified) { Accepted(o) && o.expr == v }

  ghost predicate GivesAll(o: Outs, vs: seq<Verified>) { AcceptedAll(o) && o.exprs == vs }

  /** A node that is no call of an expression function, from its children. */
  ghost predicate NodeRule(env: Env, locals: seq<seq<string>>, e: Expr, v: Verified, vs: seq<Verified>)
    requires |vs| == |Children(e)|
  {
    NodeClean(env, locals, e) && v == Tree(env, e, vs)
  }

  lemma BuildGives(env: Env, locals: seq<seq<string>>, e: Expr, kids: Outs, v: Verified)
    requires |kids.exprs| == |Children(e)|
    ensures Gives(Build(env, locals, e, kids), v) <==> AcceptedAll(kids) && NodeRule(env, locals, e, v, kids.exprs)
  {
    BuildParts(env, locals, e, kids);
    hide Build, Tree, NodeClean;
  }

  /** What a node's rule asks of its children, as one list. */
  lemma RuleOfNode(
    env: Env, locals: seq<seq<string>>, active: seq<FunctionKey>, e: Expr, v: Verified, depth: nat, vs: seq<Verified>)
    requires depth <= env.cap && (e.Call? ==> Visible(env.schema, ScopeOf(env, active), e.name) == None)
    requires LowersAll(env, locals, active, Children(e), vs, depth + 1) && |vs| == |Children(e)|
    requires NodeRule(env, locals, e, v, vs)
    ensures Lowers(env, locals, active, e, v, depth)
  {
    hide *;
    if e.Member? || e.Unary? {
      RuleOfOne(env, locals, active, e, v, depth, vs);
    } else if e.Method? {
      RuleOfMethod(env, locals, active, e, v, depth, vs);
    } else if e.Binary? {
      RuleOfBinary(env, locals, active, e, v, depth, vs);
    } else {
      RuleOfList(env, locals, active, e, v, depth, vs);
    }
  }

  lemma RuleOfList(
    env: Env, locals: seq<seq<string>>, active: seq<FunctionKey>, e: Expr, v: Verified, depth: nat, vs: seq<Verified>)
    requires depth <= env.cap && (e.Call? ==> Visible(env.schema, ScopeOf(env, active), e.name) == None)
    requires !e.Member? && !e.Unary? && !e.Method? && !e.Binary?
    requires LowersAll(env, locals, active, Children(e), vs, depth + 1) && |vs| == |Children(e)|
    requires NodeRule(env, locals, e, v, vs)
    ensures Lowers(env, locals, active, e, v, depth)
  {
    hide Readable, Visible;
    if e.Ident? { ReadableIs(env, locals, e.name); }
  }

  lemma RuleOfOne(
    env: Env, locals: seq<seq<string>>, active: seq<FunctionKey>, e: Expr, v: Verified, depth: nat, vs: seq<Verified>)
    requires depth <= env.cap && (e.Member? || e.Unary?)
    requires LowersAll(env, locals, active, Children(e), vs, depth + 1) && |vs| == |Children(e)|
    requires NodeRule(env, locals, e, v, vs)
    ensures Lowers(env, locals, active, e, v, depth)
  {
    hide UnaryText, LowersAll;
    OneLowers(env, locals, active, if e.Member? then e.receiver else e.operand, vs, depth + 1);
  }

  lemma RuleOfMethod(
    env: Env, locals: seq<seq<string>>, active: seq<FunctionKey>, e: Expr, v: Verified, depth: nat, vs: seq<Verified>)
    requires depth <= env.cap && e.Method?
    requires LowersAll(env, locals, active, Children(e), vs, depth + 1) && |vs| == |Children(e)|
    requires NodeRule(env, locals, e, v, vs)
    ensures Lowers(env, locals, active, e, v, depth)
  {
    hide LowersAll;
    FirstLowers(env, locals, active, e.receiver, e.args, vs, depth + 1);
  }

  lemma RuleOfBinary(
    env: Env, locals: seq<seq<string>>, active: seq<FunctionKey>, e: Expr, v: Verified, depth: nat, vs: seq<Verified>)
    requires depth <= env.cap && e.Binary?
    requires LowersAll(env, locals, active, Children(e), vs, depth + 1) && |vs| == |Children(e)|
    requires NodeRule(env, locals, e, v, vs)
    ensures Lowers(env, locals, active, e, v, depth)
  {
    hide LowersAll, BinaryText;
    FirstLowers(env, locals, active, e.left, [e.right], vs, depth + 1);
    OneLowers(env, locals, active, e.right, vs[1..], depth + 1);
  }

  lemma ReadableIs(env: Env, locals: seq<seq<string>>, name: string)
    ensures Readable(env, locals, name) <==> NodeClean(env, locals, Ident(name))
  {
    SameLocals(locals, name);
    hide IsLocal;
  }

  lemma {:induction false} AllLowerLength(
    env: Env, locals: seq<seq<string>>, active: seq<FunctionKey>, es: seq<Expr>, vs: seq<Verified>, depth: nat)
    requires LowersAll(env, locals, active, es, vs, depth)
    ensures |vs| == |es|
    decreases |es|
  {
    hide Lowers;
    if es != [] { AllLowerLength(env, locals, active, es[1..], vs[1..], depth); }
  }

  lemma OneLowers(
    env: Env, locals: seq<seq<string>>, active: seq<FunctionKey>, e: Expr, vs: seq<Verified>, depth: nat)
    ensures LowersAll(env, locals, active, [e], vs, depth) <==> |vs| == 1 && Lowers(env, locals, active, e, vs[0], depth)
  {
    hide Lowers;
    assert [e][1..] == [];
  }

  lemma FirstLowers(
    env: Env, locals: seq<seq<string>>, active: seq<FunctionKey>, e: Expr, es: seq<Expr>, vs: seq<Verified>, depth: nat)
    ensures LowersAll(env, locals, active, [e] + es, vs, depth) <==>
      vs != [] && Lowers(env, locals, active, e, vs[0], depth) && LowersAll(env, locals, active, es, vs[1..], depth)
  {
    hide Lowers;
    assert ([e] + es)[1..] == es;
  }

  /** And back: a tree the rules give is the node's over its children's. */
  lemma NodeOfRule(
    env: Env, locals: seq<seq<string>>, active: seq<FunctionKey>, e: Expr, v: Verified, depth: nat)
    returns (vs: seq<Verified>)
    requires depth <= env.cap && (e.Call? ==> Visible(env.schema, ScopeOf(env, active), e.name) == None)
    requires Lowers(env, locals, active, e, v, depth)
    ensures LowersAll(env, locals, active, Children(e), vs, depth + 1) && |vs| == |Children(e)|
    ensures NodeRule(env, locals, e, v, vs)
  {
    hide Readable, UnaryText, BinaryText, Visible;
    match e {
    case Array(items) => vs := v.items;
    case Member(receiver, _) =>
      vs := [v.receiver];
      OneLowers(env, locals, active, receiver, vs, depth + 1);
    case Call(_, args) => vs := v.args;
    case Method(receiver, _, args) =>
      vs := [v.receiver] + v.args;
      assert vs[1..] == v.args;
      FirstLowers(env, locals, active, receiver, args, vs, depth + 1);
    case Unary(_, operand) =>
      vs := [v.operand];
      OneLowers(env, locals, active, operand, vs, depth + 1);
    case Binary(left, _, right) =>
      vs := [v.left] + [v.right];
      assert vs[1..] == [v.right];
      OneLowers(env, locals, active, right, vs[1..], depth + 1);
      FirstLowers(env, locals, active, left, [right], vs, depth + 1);
    case Ident(name) =>
      vs := [];
      ReadableIs(env, locals, name);
    case _ => vs := [];
    }
    AllLowerLength(env, locals, active, Children(e), vs, depth + 1);
  }

  /** The analysis gives a tree exactly if the rules do. */
  lemma {:induction false} LoweredExactly(
    env: Env, locals: seq<seq<string>>, active: seq<FunctionKey>, e: Expr, v: Verified, depth: nat)
    ensures Gives(Analyze(env, [], locals, active, e, depth), v) <==> Lowers(env, locals, active, e, v, depth)
    decreases Rank(env.cap, depth), 2
  {
    hide *;
    if depth > env.cap {
      TooDeep(env, locals, active, e, v, depth);
    } else if e.Call? && Visible(env.schema, ScopeOf(env, active), e.name).Some? {
      SameFunction(env, active, e);
      CallLoweredExactly(env, locals, active, Visible(env.schema, ScopeOf(env, active), e.name).value, e, v, depth);
    } else {
      if e.Call? { SameFunction(env, active, e); }
      var kids := AnalyzeAll(env, [], locals, active, Children(e), depth + 1);
      DeeperRank(env.cap, depth);
      PlainNode(env, locals, active, e, depth);
      BuildGives(env, locals, e, kids, v);
      AllLoweredExactly(env, locals, active, Children(e), kids.exprs, depth + 1);
      GivesOwn(kids);
      if AcceptedAll(kids) && NodeRule(env, locals, e, v, kids.exprs) {
        RuleOfNode(env, locals, active, e, v, depth, kids.exprs);
      }
      if Lowers(env, locals, active, e, v, depth) {
        var vs := NodeOfRule(env, locals, active, e, v, depth);
        AllLoweredExactly(env, locals, active, Children(e), vs, depth + 1);
        GivenIs(kids, vs);
      }
    }
  }

  lemma GivesOwn(kids: Outs)
    ensures GivesAll(kids, kids.exprs) <==> AcceptedAll(kids)
  {
  }

  lemma GivenIs(kids: Outs, vs: seq<Verified>)
    requires GivesAll(kids, vs)
    ensures AcceptedAll(kids) && kids.exprs == vs
  {
  }

  lemma TooDeep(env: Env, locals: seq<seq<string>>, active: seq<FunctionKey>, e: Expr, v: Verified, depth: nat)
    requires depth > env.cap
    ensures !Gives(Analyze(env, [], locals, active, e, depth), v) && !Lowers(env, locals, active, e, v, depth)
  {
  }

  lemma PlainNode(env: Env, locals: seq<seq<string>>, active: seq<FunctionKey>, e: Expr, depth: nat)
    requires depth <= env.cap && Callee(env, active, e) == None
    ensures Analyze(env, [], locals, active, e, depth)
         == Build(env, locals, e, AnalyzeAll(env, [], locals, active, Children(e), depth + 1))
  {
    hide Build, AnalyzeAll;
  }

  lemma {:induction false} CallLoweredExactly(
    env: Env, locals: seq<seq<string>>, active: seq<FunctionKey>, f: Function, e: Expr, v: Verified, depth: nat)
    requires depth <= env.cap && e.Call? && Callee(env, active, e) == Some(f)
    requires Visible(env.schema, ScopeOf(env, active), e.name) == Some(f)
    ensures Gives(Analyze(env, [], locals, active, e, depth), v) <==> Lowers(env, locals, active, e, v, depth)
    decreases Rank(env.cap, depth), 1
  {
    hide *;
    CallOutcome(env, locals, active, f, e, v, depth);
    CallRule(env, locals, active, f, e, v, depth);
    DeeperRank(env.cap, depth);
    var below := active + [KeyOf(f)];
    if |f.params| == |e.args| && KeyOf(f) !in active {
      if env.mode == Inline {
        LoweredExactly(env, locals, below, Substituted(f.body, f.params, e.args), v, depth + 1);
      } else if v.VFunction? {
        AllLoweredExactly(env, locals, active, e.args, v.args, depth + 1);
        LoweredExactly(env, locals + [f.params], below, f.body, v.body, depth + 1);
      }
    }
  }

  lemma DeeperRank(cap: nat, depth: nat)
    requires depth <= cap
    ensures Rank(cap, depth + 1) < Rank(cap, depth)
  {
  }

  /** What the analysis makes of a call. */
  lemma CallOutcome(
    env: Env, locals: seq<seq<string>>, active: seq<FunctionKey>, f: Function, e: Expr, v: Verified, depth: nat)
    requires depth <= env.cap && e.Call? && Callee(env, active, e) == Some(f)
    ensures var below := active + [KeyOf(f)];
      Gives(Analyze(env, [], locals, active, e, depth), v) <==>
        && |f.params| == |e.args| && KeyOf(f) !in active
        && (if env.mode == Inline then
              Gives(Analyze(env, [], locals, below, Substituted(f.body, f.params, e.args), depth + 1), v)
            else
              && v.VFunction? && v.name == f.name && v.params == f.params
              && GivesAll(AnalyzeAll(env, [], locals, active, e.args, depth + 1), v.args)
              && Gives(Analyze(env, [], locals + [f.params], below, f.body, depth + 1), v.body))
  {
    hide AnalyzeAll, Substituted;
    assert Analyze(env, [], locals, active, e, depth) == AnalyzeFunction(env, [], locals, active, f, e, depth);
    hide Analyze;
    if env.mode == Inline {
      assert [] + [Binding(f.params, e.args)] == [Binding(f.params, e.args)];
      CallIsSubstitution(env, locals, active + [KeyOf(f)], f, e.args, depth + 1);
    }
  }

  /** The rule for a call of an expression function by itself. */
  lemma CallRule(
    env: Env, locals: seq<seq<string>>, active: seq<FunctionKey>, f: Function, e: Expr, v: Verified, depth: nat)
    requires depth <= env.cap && e.Call? && Visible(env.schema, ScopeOf(env, active), e.name) == Some(f)
    ensures var below := active + [KeyOf(f)];
      Lowers(env, locals, active, e, v, depth) <==>
        && |f.params| == |e.args| && KeyOf(f) !in active
        && (if env.mode == Inline then Lowers(env, locals, below, Substituted(f.body, f.params, e.args), v, depth + 1)
            else
              && v.VFunction? && v.name == f.name && v.params == f.params
              && LowersAll(env, locals, active, e.args, v.args, depth + 1)
              && Lowers(env, locals + [f.params], below, f.body, v.body, depth + 1))
  {
    hide LowersAll, Visible, Substituted;
  }

  lemma {:induction false} AllLoweredExactly(
    env: Env, locals: seq<seq<string>>, active: seq<FunctionKey>, es: seq<Expr>, vs: seq<Verified>, depth: nat)
    ensures GivesAll(AnalyzeAll(env, [], locals, active, es, depth), vs) <==> LowersAll(env, locals, active, es, vs, depth)
    decreases Rank(env.cap, depth), |es| + 3
  {
    hide Analyze, Lowers;
    if es != [] && vs != [] {
      LoweredExactly(env, locals, active, es[0], vs[0], depth);
      AllLoweredExactly(env, locals, active, es[1..], vs[1..], depth);
      assert [vs[0]] + vs[1..] == vs;
      var o := AnalyzeAll(env, [], locals, active, es, depth);
      assert o.exprs[0] == Analyze(env, [], locals, active, es[0], depth).expr;
      assert o.exprs[1..] == AnalyzeAll(env, [], locals, active, es[1..], depth).exprs;
    }
  }

  // ----- what a tree requires -----

  /** The capabilities a tree's own dispatches need. */
  function Needs(env: Env, v: Verified): set<Capability>
    decreases v, 1
  {
    match v
    case VArray(items) => NeedsAll(env, items)
    case VMember(receiver, _) => Needs(env, receiver)
    case VCall(name, args, _) => EntrySet(env.schema.functions, name, |args|) + NeedsAll(env, args)
    case VFunction(_, _, args, body) => NeedsAll(env, args) + Needs(env, body)
    case VMethod(receiver, name, args, _) =>
      EntrySet(env.schema.methods, name, |args|) + (Needs(env, receiver) + NeedsAll(env, args))
    case VUnary(uop, operand, _) => {UnaryEntry(env.schema, uop)} + Needs(env, operand)
    case VBinary(left, op, right, _) => {BinaryEntry(env.schema, op)} + (Needs(env, left) + Needs(env, right))
    case _ => {}
  }

  function NeedsAll(env: Env, vs: seq<Verified>): set<Capability>
    decreases vs, 0
  {
    if vs == [] then {} else Needs(env, vs[0]) + NeedsAll(env, vs[1..])
  }

  function EntrySet(entries: map<string, map<nat, Capability>>, name: string, arity: nat): set<Capability> {
    if name in entries && arity in entries[name] then {entries[name][arity]} else {}
  }

  lemma NeedsFirst(env: Env, v: Verified, vs: seq<Verified>)
    ensures NeedsAll(env, [v] + vs) == Needs(env, v) + NeedsAll(env, vs)
    ensures NeedsAll(env, [v]) == Needs(env, v)
  {
    hide Needs;
    assert ([v] + vs)[1..] == vs && [v][1..] == [];
  }

  lemma TreeNeeds(env: Env, e: Expr, vs: seq<Verified>)
    requires |vs| == |Children(e)|
    ensures Needs(env, Tree(env, e, vs)) == NeedsAll(env, vs) + Required(env, e)
  {
    hide UnaryText, BinaryText;
    if e.Member? || e.Unary? {
      assert vs == [vs[0]];
      NeedsFirst(env, vs[0], []);
    } else if e.Method? {
      assert vs == [vs[0]] + vs[1..];
      NeedsFirst(env, vs[0], vs[1..]);
    } else if e.Binary? {
      assert vs == [vs[0]] + [vs[1]];
      NeedsFirst(env, vs[0], [vs[1]]);
      NeedsFirst(env, vs[1], []);
    }
  }

  /** What analysis requires of the registry is what the accepted tree dispatches on, no more and no
      less. */
  lemma {:induction false} RequiredExactly(
    env: Env, frames: seq<Binding>, locals: seq<seq<string>>, active: seq<FunctionKey>, e: Expr, depth: nat)
    requires Accepted(Analyze(env, frames, locals, active, e, depth))
    ensures var o := Analyze(env, frames, locals, active, e, depth); o.required == Needs(env, o.expr)
    decreases Rank(env.cap, depth), |frames|, 2
  {
    hide Build, Tree, AnalyzeAll, AnalyzeFunction, Required, Needs;
    if e.Ident? && InlineBinding(frames, e.name).Some? {
      RequiredExactly(env, frames[..|frames| - 1], locals, active, InlineBinding(frames, e.name).value, depth);
    } else if Callee(env, active, e).Some? {
      CallRequires(env, frames, locals, active, Callee(env, active, e).value, e, depth);
    } else {
      var kids := AnalyzeAll(env, frames, locals, active, Children(e), depth + 1);
      BuildParts(env, locals, e, kids);
      AllRequire(env, frames, locals, active, Children(e), depth + 1);
      TreeNeeds(env, e, kids.exprs);
    }
  }

  lemma {:induction false} CallRequires(
    env: Env, frames: seq<Binding>, locals: seq<seq<string>>, active: seq<FunctionKey>, f: Function, e: Expr, depth: nat)
    requires depth <= env.cap && e.Call?
    requires Accepted(AnalyzeFunction(env, frames, locals, active, f, e, depth))
    ensures var o := AnalyzeFunction(env, frames, locals, active, f, e, depth); o.required == Needs(env, o.expr)
    decreases Rank(env.cap, depth), |frames|, 1
  {
    hide Analyze, AnalyzeAll;
    if env.mode == Inline {
      RequiredExactly(env, frames + [Binding(f.params, e.args)], locals, active + [KeyOf(f)], f.body, depth + 1);
    } else {
      AllRequire(env, frames, locals, active, e.args, depth + 1);
      RequiredExactly(env, frames, locals + [f.params], active + [KeyOf(f)], f.body, depth + 1);
    }
  }

  lemma {:induction false} AllRequire(
    env: Env, frames: seq<Binding>, locals: seq<seq<string>>, active: seq<FunctionKey>, es: seq<Expr>, depth: nat)
    requires AcceptedAll(AnalyzeAll(env, frames, locals, active, es, depth))
    ensures var o := AnalyzeAll(env, frames, locals, active, es, depth); o.required == NeedsAll(env, o.exprs)
    decreases Rank(env.cap, depth), |frames|, |es| + 3
  {
    hide Analyze, Needs;
    if es != [] {
      RequiredExactly(env, frames, locals, active, es[0], depth);
      AllRequire(env, frames, locals, active, es[1..], depth);
      var o := AnalyzeAll(env, frames, locals, active, es, depth);
      assert o.exprs[1..] == AnalyzeAll(env, frames, locals, active, es[1..], depth).exprs;
    }
  }
}
