/** The analyzer as the source has it: an object that pushes and pops active functions, borrowed frames
    and local frames, charges node and scalar budgets, and collects diagnostics. Its methods are
    proved against `LowerSpec`. */
module Lowering {
  import opened Text
  import opened Tokens
  import opened Syntax
  import opened Program
  import opened LowerSpec
  import opened LowerFacts

  const MAX_LOWERED_SCALAR_BYTES: nat := 64 * 1024 * 1024

  datatype Report =
    | NodeLimitReport | DepthLimitReport | ScalarLimitReport
    | BadArity | Recursive | DiagnosticBudget | NodeFault | BodyLimitReport

  /** What analysis returns for one expression. */
  datatype Analysis = Analysis(expr: Verified, nodes: nat)

  datatype ArgsAnalysis = ArgsAnalysis(exprs: seq<Verified>, nodes: nat)

  /** The part of the analyzer's state that lowering moves forward. */
  datatype Snapshot = Snapshot(
    diagnostics: seq<Report>, required: set<Capability>, nodes: nat, scalars: nat, flags: (bool, bool, bool))

  /** From `a` to `b` the analyzer lowered something that charges `nodes` and `scalars`: within the
      budgets it charged exactly that, and it reported something exactly if the outcome is not
      accepted; over them it reported something. */
  ghost predicate Carries(
    a: Snapshot, b: Snapshot, maxNodes: nat, nodes: nat, scalars: nat, required: set<Capability>, accepted: bool, deep: bool)
  {
    && a.diagnostics <= b.diagnostics
    && (if a.nodes + nodes <= maxNodes && a.scalars + scalars <= MAX_LOWERED_SCALAR_BYTES then
          && b.nodes == a.nodes + nodes && b.scalars == a.scalars + scalars && b.required == a.required + required
          && (if accepted then b.diagnostics == a.diagnostics else b.diagnostics != [])
          && (!deep ==> b.flags == a.flags)
        else b.diagnostics != [])
  }

  lemma CarriesOn(
    a: Snapshot, b: Snapshot, c: Snapshot, maxNodes: nat,
    n1: nat, s1: nat, r1: set<Capability>, ok1: bool, d1: bool, n2: nat, s2: nat, r2: set<Capability>, ok2: bool, d2: bool)
    requires Carries(a, b, maxNodes, n1, s1, r1, ok1, d1) && Carries(b, c, maxNodes, n2, s2, r2, ok2, d2)
    ensures Carries(a, c, maxNodes, n1 + n2, s1 + s2, r1 + r2, ok1 && ok2, d1 || d2)
  {
  }

  /** Recording what a node requires and whether it is faulty charges nothing. */
  lemma NodeCarries(a: Snapshot, b: Snapshot, maxNodes: nat, required: set<Capability>, faultless: bool)
    requires b.required == a.required + required && b.nodes == a.nodes && b.scalars == a.scalars && b.flags == a.flags
    requires a.nodes <= maxNodes && a.scalars <= MAX_LOWERED_SCALAR_BYTES
    requires b.diagnostics == if faultless then a.diagnostics else a.diagnostics + [NodeFault]
    ensures Carries(a, b, maxNodes, 0, 0, required, faultless, false)
  {
  }

  /** Whatever was to be charged, it was over a budget and something was reported. */
  lemma OverBudget(
    a: Snapshot, b: Snapshot, maxNodes: nat, nodes: nat, scalars: nat, required: set<Capability>, accepted: bool, deep: bool)
    requires a.diagnostics <= b.diagnostics && b.diagnostics != []
    requires a.nodes + nodes > maxNodes || a.scalars + scalars > MAX_LOWERED_SCALAR_BYTES
    ensures Carries(a, b, maxNodes, nodes, scalars, required, accepted, deep)
  {
  }

  /** An expression that is too deep charges nothing and is reported. */
  lemma TooDeepCarries(a: Snapshot, b: Snapshot, maxNodes: nat)
    requires a.diagnostics <= b.diagnostics && b.diagnostics != []
    requires b.nodes == a.nodes && b.scalars == a.scalars && b.required == a.required
    ensures Carries(a, b, maxNodes, 0, 0, {}, false, true)
  {
  }

  class AnalyzeState {
    const env: Env
    const maxNodes: nat
    const maxFunctionDiagnostics: nat
    const maxDiagnosticBytes: nat
    const messageBytes: Report -> nat

    var diagnostics: seq<Report>
    var required: set<Capability>
    var activeFunctions: seq<FunctionKey>
    var localBindings: seq<seq<string>>
    var inlineBindings: seq<Binding>
    var loweredNodes: nat
    var loweredScalarBytes: nat
    var nodeLimitReported: bool
    var depthLimitReported: bool
    var scalarLimitReported: bool

    ghost predicate Valid()
      reads this
    {
      && loweredNodes <= maxNodes && loweredScalarBytes <= MAX_LOWERED_SCALAR_BYTES
      && (nodeLimitReported || depthLimitReported || scalarLimitReported ==> diagnostics != [])
      && (env.mode == CallFrame ==> inlineBindings == [])
    }

    constructor (
      env: Env, maxNodes: nat, maxFunctionDiagnostics: nat, maxDiagnosticBytes: nat, messageBytes: Report -> nat)
      ensures Valid() && Pristine() && diagnostics == [] && required == {}
      ensures Stacks() == ([], [], [])
      ensures this.env == env && this.maxNodes == maxNodes && loweredNodes == loweredScalarBytes == 0
    {
      this.env, this.maxNodes, this.messageBytes := env, maxNodes, messageBytes;
      this.maxFunctionDiagnostics, this.maxDiagnosticBytes := maxFunctionDiagnostics, maxDiagnosticBytes;
      diagnostics, required := [], {};
      activeFunctions, localBindings, inlineBindings := [], [], [];
      loweredNodes, loweredScalarBytes := 0, 0;
      nodeLimitReported, depthLimitReported, scalarLimitReported := false, false, false;
    }

    /** No limit has been reported. */
    predicate Pristine()
      reads this
    {
      !nodeLimitReported && !depthLimitReported && !scalarLimitReported
    }

    /** Charging `nodes` and `scalars` more stays within both budgets. */
    predicate Affords(nodes: nat, scalars: nat)
      reads this
    {
      loweredNodes + nodes <= maxNodes && loweredScalarBytes + scalars <= MAX_LOWERED_SCALAR_BYTES
    }

    // ----- reports -----

    method ReportNodeLimit()
      requires Valid()
      modifies this`diagnostics, this`nodeLimitReported
      ensures Valid() && diagnostics != [] && old(diagnostics) <= diagnostics
    {
      if !nodeLimitReported {
        diagnostics := diagnostics + [NodeLimitReport];
        nodeLimitReported := true;
      }
    }

    method ReportDepthLimit()
      requires Valid()
      modifies this`diagnostics, this`depthLimitReported
      ensures Valid() && diagnostics != [] && old(diagnostics) <= diagnostics
    {
      if !depthLimitReported {
        diagnostics := diagnostics + [DepthLimitReport];
        depthLimitReported := true;
      }
    }

    method ReportScalarLimit()
      requires Valid()
      modifies this`diagnostics, this`scalarLimitReported
      ensures Valid() && diagnostics != [] && old(diagnostics) <= diagnostics
    {
      if !scalarLimitReported {
        diagnostics := diagnostics + [ScalarLimitReport];
        scalarLimitReported := true;
      }
    }

    method ReportBodyLimit()
      requires Valid()
      modifies this`diagnostics
      ensures Valid() && diagnostics != [] && old(diagnostics) <= diagnostics
    {
      diagnostics := diagnostics + [BodyLimitReport];
    }

    function RetainedBytes(reports: seq<Report>): nat {
      if reports == [] then 0 else messageBytes(reports[0]) + RetainedBytes(reports[1..])
    }

    /** A bounded report: whatever the diagnostic budget, something is left behind. */
    method PushFunctionDiagnostic(report: Report)
      requires Valid()
      modifies this`diagnostics
      ensures Valid() && diagnostics != [] && old(diagnostics) <= diagnostics
    {
      var fits := RetainedBytes(diagnostics) + messageBytes(report) <= maxDiagnosticBytes;
      if |diagnostics| < maxFunctionDiagnostics && fits {
        diagnostics := diagnostics + [report];
      } else if diagnostics == [] {
        diagnostics := [DiagnosticBudget];
      }
    }

    // ----- charges -----

    method ChargeNode() returns (ok: bool)
      requires Valid()
      modifies this`loweredNodes, this`diagnostics, this`nodeLimitReported
      ensures Valid() && old(diagnostics) <= diagnostics
      ensures ok <==> old(loweredNodes) + 1 <= maxNodes
      ensures ok ==> loweredNodes == old(loweredNodes) + 1
      ensures ok ==> diagnostics == old(diagnostics) && nodeLimitReported == old(nodeLimitReported)
      ensures !ok ==> loweredNodes == old(loweredNodes) && diagnostics != []
    {
      ok := loweredNodes + 1 <= maxNodes;
      if ok {
        loweredNodes := loweredNodes + 1;
      } else {
        ReportNodeLimit();
      }
    }

    method ChargeScalars(bytes: nat) returns (ok: bool)
      requires Valid()
      modifies this`loweredScalarBytes, this`diagnostics, this`scalarLimitReported
      ensures Valid() && old(diagnostics) <= diagnostics
      ensures ok <==> old(loweredScalarBytes) + bytes <= MAX_LOWERED_SCALAR_BYTES
      ensures ok ==> loweredScalarBytes == old(loweredScalarBytes) + bytes
      ensures ok ==> diagnostics == old(diagnostics) && scalarLimitReported == old(scalarLimitReported)
      ensures !ok ==> loweredScalarBytes == old(loweredScalarBytes) && diagnostics != []
    {
      ok := loweredScalarBytes + bytes <= MAX_LOWERED_SCALAR_BYTES;
      if ok {
        loweredScalarBytes := loweredScalarBytes + bytes;
      } else {
        ReportScalarLimit();
      }
    }

    // ----- the dry run -----

    method CountLowered(
      e: Expr, depth: nat, bindings: seq<Binding>, active: seq<FunctionKey>, nodes: nat, scalars: nat)
      returns (ok: bool, nodesAfter: nat, scalarsAfter: nat)
      requires Valid() && nodes <= maxNodes && scalars <= MAX_LOWERED_SCALAR_BYTES
      modifies this`diagnostics, this`nodeLimitReported, this`depthLimitReported, this`scalarLimitReported
      ensures Valid() && old(diagnostics) <= diagnostics
      ensures var t := Count(env, bindings, active, e, depth);
        && (ok <==> !t.tooDeep && nodes + t.nodes <= maxNodes && scalars + t.scalars <= MAX_LOWERED_SCALAR_BYTES)
        && (ok ==> nodesAfter == nodes + t.nodes && scalarsAfter == scalars + t.scalars)
      ensures ok ==> diagnostics == old(diagnostics) && Flags() == old(Flags())
      ensures !ok ==> diagnostics != []
      decreases Rank(env.cap, depth), |bindings|, 3
    {
      hide CountFunction, CountAll;
      nodesAfter, scalarsAfter := nodes, scalars;
      if depth > env.cap {
        ReportDepthLimit();
        ok := false;
        return;
      }
      if env.mode == Inline && e.Ident? && InlineBinding(bindings, e.name).Some? {
        ok, nodesAfter, scalarsAfter := CountLowered(
          InlineBinding(bindings, e.name).value, depth, bindings[..|bindings| - 1], active, nodes, scalars);
        return;
      }
      if scalars + Bytes(OwnText(e)) > MAX_LOWERED_SCALAR_BYTES {
        ReportScalarLimit();
        ok := false;
        return;
      }
      if nodes + 1 > maxNodes {
        ReportNodeLimit();
        ok := false;
        return;
      }
      var callee := Callee(env, active, e);
      if callee.None? {
        ok, nodesAfter, scalarsAfter :=
          CountItems(Children(e), depth + 1, bindings, active, nodes + 1, scalars + Bytes(OwnText(e)));
      } else {
        ok, nodesAfter, scalarsAfter :=
          CountCall(callee.value, e.args, depth, bindings, active, nodes + 1, scalars + Bytes(OwnText(e)));
      }
    }

    /** The reported flags, for frame conditions. */
    ghost function Flags(): (bool, bool, bool)
      reads this
    {
      (nodeLimitReported, depthLimitReported, scalarLimitReported)
    }

    method CountCall(
      f: Function, args: seq<Expr>, depth: nat, bindings: seq<Binding>, active: seq<FunctionKey>, nodes: nat, scalars: nat)
      returns (ok: bool, nodesAfter: nat, scalarsAfter: nat)
      requires Valid() && nodes <= maxNodes && scalars <= MAX_LOWERED_SCALAR_BYTES && depth <= env.cap
      modifies this`diagnostics, this`nodeLimitReported, this`depthLimitReported, this`scalarLimitReported
      ensures Valid() && old(diagnostics) <= diagnostics
      ensures var t := CountFunction(env, bindings, active, f, args, depth);
        && (ok <==> !t.tooDeep && nodes + t.nodes <= maxNodes && scalars + t.scalars <= MAX_LOWERED_SCALAR_BYTES)
        && (ok ==> nodesAfter == nodes + t.nodes && scalarsAfter == scalars + t.scalars)
      ensures ok ==> diagnostics == old(diagnostics) && Flags() == old(Flags())
      ensures !ok ==> diagnostics != []
      decreases Rank(env.cap, depth), |bindings|, 2
    {
      hide Count, CountAll;
      ok, nodesAfter, scalarsAfter := true, nodes, scalars;
      if |f.params| != |args| || KeyOf(f) in active {
        return;
      }
      var inner := bindings;
      if env.mode == CallFrame {
        if scalars + ParamBytes(f.params) > MAX_LOWERED_SCALAR_BYTES {
          ReportScalarLimit();
          ok := false;
          return;
        }
        ok, nodesAfter, scalarsAfter :=
          CountItems(args, depth + 1, bindings, active, nodes, scalars + ParamBytes(f.params));
        if !ok { return; }
      } else {
        inner := bindings + [Binding(f.params, args)];
      }
      ok, nodesAfter, scalarsAfter :=
        CountLowered(f.body, depth + 1, inner, active + [KeyOf(f)], nodesAfter, scalarsAfter);
    }

    method CountItems(
      es: seq<Expr>, depth: nat, bindings: seq<Binding>, active: seq<FunctionKey>, nodes: nat, scalars: nat)
      returns (ok: bool, nodesAfter: nat, scalarsAfter: nat)
      requires Valid() && nodes <= maxNodes && scalars <= MAX_LOWERED_SCALAR_BYTES
      modifies this`diagnostics, this`nodeLimitReported, this`depthLimitReported, this`scalarLimitReported
      ensures Valid() && old(diagnostics) <= diagnostics
      ensures var t := CountAll(env, bindings, active, es, depth);
        && (ok <==> !t.tooDeep && nodes + t.nodes <= maxNodes && scalars + t.scalars <= MAX_LOWERED_SCALAR_BYTES)
        && (ok ==> nodesAfter == nodes + t.nodes && scalarsAfter == scalars + t.scalars)
      ensures ok ==> diagnostics == old(diagnostics) && Flags() == old(Flags())
      ensures !ok ==> diagnostics != []
      decreases Rank(env.cap, depth), |bindings|, |es| + 4
    {
      hide Count;
      ok, nodesAfter, scalarsAfter := true, nodes, scalars;
      if es == [] { return; }
      ok, nodesAfter, scalarsAfter := CountLowered(es[0], depth, bindings, active, nodes, scalars);
      if !ok { return; }
      ok, nodesAfter, scalarsAfter := CountItems(es[1..], depth, bindings, active, nodesAfter, scalarsAfter);
    }

    // ----- lowering -----

    ghost function Now(): Snapshot
      reads this
    {
      Snapshot(diagnostics, required, loweredNodes, loweredScalarBytes, Flags())
    }

    /** The stacks analysis pushes to and pops from. */
    ghost function Stacks(): (seq<FunctionKey>, seq<seq<string>>, seq<Binding>)
      reads this
    {
      (activeFunctions, localBindings, inlineBindings)
    }

    method AnalyzeExpression(e: Expr, depth: nat) returns (a: Analysis)
      requires Valid()
      modifies this
      ensures Valid() && Stacks() == old(Stacks())
      ensures var o := Analyze(env, old(inlineBindings), old(localBindings), old(activeFunctions), e, depth);
        && Carries(old(Now()), Now(), maxNodes, o.nodes, o.scalars, o.required, Accepted(o), o.tooDeep)
        && (old(Affords(o.nodes, o.scalars)) ==> a.expr == o.expr && (o.tooDeep || a.nodes == o.nodes))
      decreases Rank(env.cap, depth), |inlineBindings|, 3
    {
      hide AnalyzeFunction, AnalyzeAll, Build, NodeClean, Required, Tree, Bytes, OwnText, Carries;
      if depth > env.cap {
        ghost var before := Now();
        ReportDepthLimit();
        TooDeepCarries(before, Now(), maxNodes);
        return Analysis(VNull, 1);
      }
      if e.Ident? && InlineBinding(inlineBindings, e.name).Some? {
        a := AnalyzeBound(e, depth);
        return;
      }
      ghost var start, o := Now(), Analyze(env, inlineBindings, localBindings, activeFunctions, e, depth);
      OwnCharge(env, inlineBindings, localBindings, activeFunctions, e, depth);
      ghost var own := Bytes(OwnText(e));
      var ok := ChargeOwn(e);
      if !ok {
        OverBudget(start, Now(), maxNodes, o.nodes, o.scalars, o.required, Accepted(o), o.tooDeep);
        return Analysis(VNull, 1);
      }
      ghost var charged := Now();
      var callee := Callee(env, activeFunctions, e);
      if callee.Some? {
        a := AnalyzeCall(callee.value, e, depth);
      } else {
        a := AnalyzeNode(e, depth);
      }
      CarriesOn(start, charged, Now(), maxNodes, 1, own, {}, true, false,
                o.nodes - 1, o.scalars - own, o.required, Accepted(o), o.tooDeep);
      assert {} + o.required == o.required;
    }

    /** A substituted name: its argument, under the frames of the caller. */
    method AnalyzeBound(e: Expr, depth: nat) returns (a: Analysis)
      requires Valid() && e.Ident? && InlineBinding(inlineBindings, e.name).Some?
      modifies this
      ensures Valid() && Stacks() == old(Stacks())
      ensures var frames := old(inlineBindings);
        var o := Analyze(env, frames[..|frames| - 1], old(localBindings), old(activeFunctions),
                         InlineBinding(frames, e.name).value, depth);
        && Carries(old(Now()), Now(), maxNodes, o.nodes, o.scalars, o.required, Accepted(o), o.tooDeep)
        && (old(Affords(o.nodes, o.scalars)) ==> a.expr == o.expr && (o.tooDeep || a.nodes == o.nodes))
      decreases Rank(env.cap, depth), |inlineBindings|, 2
    {
      hide Analyze;
      ghost var frames := inlineBindings;
      var frame := inlineBindings[|inlineBindings| - 1];
      var argument := InlineBinding(inlineBindings, e.name).value;
      inlineBindings := inlineBindings[..|inlineBindings| - 1];
      a := AnalyzeExpression(argument, depth);
      inlineBindings := inlineBindings + [frame];
      assert inlineBindings == frames;
    }

    /** The node itself and the text it owns. */
    method ChargeOwn(e: Expr) returns (ok: bool)
      requires Valid()
      modifies this
      ensures Valid() && Stacks() == old(Stacks()) && old(diagnostics) <= diagnostics
      ensures ok <==> old(Affords(1, Bytes(OwnText(e))))
      ensures ok ==> Carries(old(Now()), Now(), maxNodes, 1, Bytes(OwnText(e)), {}, true, false)
      ensures ok ==> loweredNodes == old(loweredNodes) + 1
      ensures ok ==> loweredScalarBytes == old(loweredScalarBytes) + Bytes(OwnText(e))
      ensures !ok ==> diagnostics != []
    {
      ok := ChargeNode();
      if ok {
        ok := ChargeScalars(Bytes(OwnText(e)));
      }
    }

    /** A node that is no expression-function call: its children, then its own checks. */
    method AnalyzeNode(e: Expr, depth: nat) returns (a: Analysis)
      requires Valid() && depth <= env.cap
      modifies this
      ensures Valid() && Stacks() == old(Stacks())
      ensures var kids := AnalyzeAll(env, old(inlineBindings), old(localBindings), old(activeFunctions), Children(e), depth + 1);
        var o := Build(env, old(localBindings), e, kids);
        && Carries(old(Now()), Now(), maxNodes, o.nodes - 1, o.scalars - Bytes(OwnText(e)), o.required, Accepted(o), o.tooDeep)
        && (old(Affords(o.nodes - 1, o.scalars - Bytes(OwnText(e)))) ==> a.expr == o.expr && (o.tooDeep || a.nodes == o.nodes))
      decreases Rank(env.cap, depth), |inlineBindings|, 2
    {
      hide AnalyzeAll, Build, NodeClean, Required, Tree, Carries;
      ghost var kids := AnalyzeAll(env, inlineBindings, localBindings, activeFunctions, Children(e), depth + 1);
      BuildParts(env, localBindings, e, kids);
      ghost var start := Now();
      var args := AnalyzeItems(Children(e), depth + 1);
      ghost var middle := Now();
      required := required + Required(env, e);
      if !NodeClean(env, localBindings, e) {
        diagnostics := diagnostics + [NodeFault];
      }
      NodeCarries(middle, Now(), maxNodes, Required(env, e), NodeClean(env, localBindings, e));
      CarriesOn(start, middle, Now(), maxNodes, kids.nodes, kids.scalars, kids.required, AcceptedAll(kids), kids.tooDeep,
                0, 0, Required(env, e), NodeClean(env, localBindings, e), false);
      a := Analysis(Tree(env, e, args.exprs), 1 + args.nodes);
    }

    method AnalyzeItems(es: seq<Expr>, depth: nat) returns (a: ArgsAnalysis)
      requires Valid()
      modifies this
      ensures Valid() && Stacks() == old(Stacks()) && |a.exprs| == |es|
      ensures var o := AnalyzeAll(env, old(inlineBindings), old(localBindings), old(activeFunctions), es, depth);
        && Carries(old(Now()), Now(), maxNodes, o.nodes, o.scalars, o.required, AcceptedAll(o), o.tooDeep)
        && (old(Affords(o.nodes, o.scalars)) ==> a.exprs == o.exprs && (o.tooDeep || a.nodes == o.nodes))
      decreases Rank(env.cap, depth), |inlineBindings|, |es| + 4
    {
      hide Analyze;
      if es == [] {
        return ArgsAnalysis([], 0);
      }
      ghost var start := Now();
      ghost var o1 := Analyze(env, inlineBindings, localBindings, activeFunctions, es[0], depth);
      ghost var o2 := AnalyzeAll(env, inlineBindings, localBindings, activeFunctions, es[1..], depth);
      var first := AnalyzeExpression(es[0], depth);
      ghost var middle := Now();
      var rest := AnalyzeItems(es[1..], depth);
      CarriesOn(start, middle, Now(), maxNodes, o1.nodes, o1.scalars, o1.required, Accepted(o1), o1.tooDeep,
                o2.nodes, o2.scalars, o2.required, AcceptedAll(o2), o2.tooDeep);
      a := ArgsAnalysis([first.expr] + rest.exprs, first.nodes + rest.nodes);
    }

    /** A call of an expression function in either mode. */
    method AnalyzeCall(f: Function, e: Expr, depth: nat) returns (a: Analysis)
      requires Valid() && depth <= env.cap && e.Call?
      modifies this
      ensures Valid() && Stacks() == old(Stacks())
      ensures var o := AnalyzeFunction(env, old(inlineBindings), old(localBindings), old(activeFunctions), f, e, depth);
        && o.nodes >= 1 && o.scalars >= Bytes(OwnText(e))
        && Carries(old(Now()), Now(), maxNodes, o.nodes - 1, o.scalars - Bytes(OwnText(e)), o.required, Accepted(o), o.tooDeep)
        && (old(Affords(o.nodes - 1, o.scalars - Bytes(OwnText(e)))) ==> a.expr == o.expr && (o.tooDeep || a.nodes == o.nodes))
      decreases Rank(env.cap, depth), |inlineBindings|, 2
    {
      hide Analyze, AnalyzeAll;
      if |f.params| != |e.args| {
        PushFunctionDiagnostic(BadArity);
        return Analysis(if env.mode == Inline then VCall(f.name, [], None) else VFunction(f.name, f.params, [], VNull), 1);
      }
      if env.mode == Inline {
        a := AnalyzeInlineCall(f, e, depth);
      } else {
        a := AnalyzeFrameCall(f, e, depth);
      }
    }

    method AnalyzeInlineCall(f: Function, e: Expr, depth: nat) returns (a: Analysis)
      requires Valid() && depth <= env.cap && e.Call? && env.mode == Inline && |f.params| == |e.args|
      modifies this
      ensures Valid() && Stacks() == old(Stacks())
      ensures var o := AnalyzeFunction(env, old(inlineBindings), old(localBindings), old(activeFunctions), f, e, depth);
        && o.nodes >= 1 && o.scalars >= Bytes(OwnText(e))
        && Carries(old(Now()), Now(), maxNodes, o.nodes - 1, o.scalars - Bytes(OwnText(e)), o.required, Accepted(o), o.tooDeep)
        && (old(Affords(o.nodes - 1, o.scalars - Bytes(OwnText(e)))) ==> a.expr == o.expr && (o.tooDeep || a.nodes == o.nodes))
      decreases Rank(env.cap, depth), |inlineBindings|, 1
    {
      hide Analyze, AnalyzeAll;
      if KeyOf(f) in activeFunctions {
        PushFunctionDiagnostic(Recursive);
        return Analysis(VNull, 1);
      }
      ghost var stacks := Stacks();
      activeFunctions := activeFunctions + [KeyOf(f)];
      inlineBindings := inlineBindings + [Binding(f.params, e.args)];
      var body := AnalyzeExpression(f.body, depth + 1);
      inlineBindings := inlineBindings[..|inlineBindings| - 1];
      activeFunctions := activeFunctions[..|activeFunctions| - 1];
      assert Stacks() == stacks;
      a := Analysis(body.expr, body.nodes + 1);
    }

    method AnalyzeFrameCall(f: Function, e: Expr, depth: nat) returns (a: Analysis)
      requires Valid() && depth <= env.cap && e.Call? && env.mode == CallFrame && |f.params| == |e.args|
      modifies this
      ensures Valid() && Stacks() == old(Stacks())
      ensures var o := AnalyzeFunction(env, old(inlineBindings), old(localBindings), old(activeFunctions), f, e, depth);
        && o.nodes >= 1 && o.scalars >= Bytes(OwnText(e))
        && Carries(old(Now()), Now(), maxNodes, o.nodes - 1, o.scalars - Bytes(OwnText(e)), o.required, Accepted(o), o.tooDeep)
        && (old(Affords(o.nodes - 1, o.scalars - Bytes(OwnText(e)))) ==> a.expr == o.expr && (o.tooDeep || a.nodes == o.nodes))
      decreases Rank(env.cap, depth), |inlineBindings|, 1
    {
      hide Analyze, AnalyzeAll;
      ghost var start := Now();
      var ok := ChargeScalars(ParamBytes(f.params));
      if !ok {
        return Analysis(VNull, 1);
      }
      if KeyOf(f) in activeFunctions {
        PushFunctionDiagnostic(Recursive);
        return Analysis(VNull, 1);
      }
      ghost var charged := Now();
      ghost var o1 := AnalyzeAll(env, inlineBindings, localBindings, activeFunctions, e.args, depth + 1);
      ghost var o2 := Analyze(env, inlineBindings, localBindings + [f.params], activeFunctions + [KeyOf(f)], f.body, depth + 1);
      a := AnalyzeFrame(f, e.args, depth);
      CarriesOn(start, charged, Now(), maxNodes, 0, ParamBytes(f.params), {}, true, false,
                o1.nodes + o2.nodes, o1.scalars + o2.scalars, o1.required + o2.required,
                AcceptedAll(o1) && Accepted(o2), o1.tooDeep || o2.tooDeep);
      assert {} + (o1.required + o2.required) == o1.required + o2.required;
    }

    /** The arguments in the caller's frames, then the body under a frame of its parameters. */
    method AnalyzeFrame(f: Function, args: seq<Expr>, depth: nat) returns (a: Analysis)
      requires Valid() && depth <= env.cap && env.mode == CallFrame
      modifies this
      ensures Valid() && Stacks() == old(Stacks())
      ensures var o1 := AnalyzeAll(env, old(inlineBindings), old(localBindings), old(activeFunctions), args, depth + 1);
        var o2 := Analyze(env, old(inlineBindings), old(localBindings) + [f.params], old(activeFunctions) + [KeyOf(f)],
                          f.body, depth + 1);
        && Carries(old(Now()), Now(), maxNodes, o1.nodes + o2.nodes, o1.scalars + o2.scalars, o1.required + o2.required,
                   AcceptedAll(o1) && Accepted(o2), o1.tooDeep || o2.tooDeep)
        && (old(Affords(o1.nodes + o2.nodes, o1.scalars + o2.scalars)) ==>
              && a.expr == VFunction(f.name, f.params, o1.exprs, o2.expr)
              && (o1.tooDeep || o2.tooDeep || a.nodes == 1 + o1.nodes + o2.nodes))
      decreases Rank(env.cap, depth), |inlineBindings|, 0
    {
      hide Analyze, AnalyzeAll;
      ghost var start, stacks := Now(), Stacks();
      ghost var o1 := AnalyzeAll(env, inlineBindings, localBindings, activeFunctions, args, depth + 1);
      ghost var o2 := Analyze(env, inlineBindings, localBindings + [f.params], activeFunctions + [KeyOf(f)], f.body, depth + 1);
      var items := AnalyzeItems(args, depth + 1);
      ghost var middle := Now();
      activeFunctions := activeFunctions + [KeyOf(f)];
      localBindings := localBindings + [f.params];
      assert Now() == middle;
      var body := AnalyzeExpression(f.body, depth + 1);
      localBindings := localBindings[..|localBindings| - 1];
      activeFunctions := activeFunctions[..|activeFunctions| - 1];
      assert Stacks() == stacks;
      CarriesOn(start, middle, Now(), maxNodes, o1.nodes, o1.scalars, o1.required, AcceptedAll(o1), o1.tooDeep,
                o2.nodes, o2.scalars, o2.required, Accepted(o2), o2.tooDeep);
      a := Analysis(VFunction(f.name, f.params, items.exprs, body.expr), items.nodes + body.nodes + 1);
    }

    // ----- a whole program -----

    /** Preflight, lowering and the final bound, on a state that has lowered nothing yet. A program
        comes out exactly when nothing was reported before, lowering is clean and both budgets hold,
        and then it is the specified tree. Passing the preflight means no limit is ever reported:
        in the inline mode always, in the call-frame mode unless recursion is reported. */
    method LowerProgram(e: Expr) returns (root: Option<Verified>)
      requires Valid() && Stacks() == ([], [], []) && required == {} && loweredNodes == loweredScalarBytes == 0
      modifies this
      ensures Valid() && old(diagnostics) <= diagnostics && (root.None? ==> diagnostics != [])
      ensures var o := Analyze(env, [], [], [], e, 0);
        && (root.Some? <==>
              old(diagnostics) == [] && Accepted(o) && o.nodes <= maxNodes && o.scalars <= MAX_LOWERED_SCALAR_BYTES)
        && (root.Some? ==> root.value == o.expr && required == o.required)
      ensures var o, t := Analyze(env, [], [], [], e, 0), Count(env, [], [], e, 0);
        && !Diverges(env, o.recursive) && !t.tooDeep
        && t.nodes <= maxNodes && t.scalars <= MAX_LOWERED_SCALAR_BYTES ==>
          Flags() == old(Flags()) && loweredNodes == t.nodes && loweredScalarBytes == t.scalars
    {
      hide Analyze, Count;
      ghost var o := Analyze(env, [], [], [], e, 0);
      var ok, nodes, scalars := CountLowered(e, 0, [], [], 0, 0);
      if !Diverges(env, o.recursive) { MeterExact(env, [], [], [], e, 0); }
      if !ok {
        return None;
      }
      var analysis := AnalyzeExpression(e, 0);
      if analysis.nodes > maxNodes {
        diagnostics := diagnostics + [NodeLimitReport];
      }
      root := if diagnostics == [] then Some(analysis.expr) else None;
    }
  }

  /** A node that is lowered as itself charges at least itself. */
  lemma OwnCharge(
    env: Env, frames: seq<Binding>, locals: seq<seq<string>>, active: seq<FunctionKey>, e: Expr, depth: nat)
    requires depth <= env.cap && !(e.Ident? && InlineBinding(frames, e.name).Some?)
    ensures Analyze(env, frames, locals, active, e, depth).nodes >= 1
    ensures Analyze(env, frames, locals, active, e, depth).scalars >= Bytes(OwnText(e))
  {
    hide AnalyzeAll;
    if Callee(env, active, e).None? {
      BuildParts(env, locals, e, AnalyzeAll(env, frames, locals, active, Children(e), depth + 1));
    }
  }
}
