/** Static body access: the member path analysis records for an expression, through parameters in both
    function modes, and the body access it derives from such paths. */
module BodyPaths {
  import opened Tokens
  import opened Syntax
  import opened Program
  import opened LowerSpec
  import opened LowerFacts
  import opened Meaning
  import E = EvalSpec
  import MA = ModeAgreement
  import VG = ValueGraph

  // ----- the access lattice -----

  datatype BodyTarget = RequestBodyOf | ResponseBodyOf | StreamOf

  datatype BodyAccess = NoAccess | SizeOnly | PrefixBytes

  function AccessRank(a: BodyAccess): nat { match a case NoAccess => 0 case SizeOnly => 1 case PrefixBytes => 2 }

  function MergeAccess(a: BodyAccess, b: BodyAccess): BodyAccess { if AccessRank(a) < AccessRank(b) then b else a }

  datatype Need = Need(request: BodyAccess, response: BodyAccess, stream: BodyAccess)

  const NoNeed := Need(NoAccess, NoAccess, NoAccess)

  function Merge(a: Need, b: Need): Need {
    Need(MergeAccess(a.request, b.request), MergeAccess(a.response, b.response), MergeAccess(a.stream, b.stream))
  }

  function MergeTarget(need: Need, target: BodyTarget, access: BodyAccess): Need {
    match target
    case RequestBodyOf => need.(request := MergeAccess(need.request, access))
    case ResponseBodyOf => need.(response := MergeAccess(need.response, access))
    case StreamOf => need.(stream := MergeAccess(need.stream, access))
  }

  function AccessOf(need: Need, target: BodyTarget): BodyAccess {
    match target
    case RequestBodyOf => need.request
    case ResponseBodyOf => need.response
    case StreamOf => need.stream
  }

  /** `a` allows whatever `b` needs. */
  predicate Allows(a: Need, b: Need) {
    && AccessRank(b.request) <= AccessRank(a.request)
    && AccessRank(b.response) <= AccessRank(a.response)
    && AccessRank(b.stream) <= AccessRank(a.stream)
  }

  // ----- paths -----

  type Path = seq<string>

  datatype Rule = Rule(path: Path, target: BodyTarget, access: BodyAccess)

  /** The schema's body paths, and the access each method declares for a body receiver. */
  datatype BodyEnv = BodyEnv(rules: seq<Rule>, methodAccess: Capability -> BodyAccess)

  /** The first rule for exactly this path. */
  function RuleFor(rules: seq<Rule>, path: Path): Option<Rule> {
    if rules == [] then None
    else if rules[0].path == path then Some(rules[0])
    else RuleFor(rules[1..], path)
  }

  function PathNeed(need: Need, rules: seq<Rule>, path: Option<Path>): Need {
    if path.Some? && RuleFor(rules, path.value).Some? then
      MergeTarget(need, RuleFor(rules, path.value).value.target, RuleFor(rules, path.value).value.access)
    else need
  }

  datatype Origin =
    | Request | RequestHttp | RequestBody | RequestBodyBytes
    | Response | ResponseHttp | ResponseBody | ResponseBodyBytes
    | Stream | StreamPayload

  function RootOrigin(name: string): Option<Origin> {
    if name == "Request" then Some(Request)
    else if name == "Response" then Some(Response)
    else if name == "Stream" then Some(Stream)
    else None
  }

  function MemberOrigin(receiver: Origin, field: string): Option<Origin> {
    if receiver == Request && field == "Http" then Some(RequestHttp)
    else if receiver == Response && field == "Http" then Some(ResponseHttp)
    else if (receiver == Request || receiver == RequestHttp) && field == "Body" then Some(RequestBody)
    else if (receiver == Response || receiver == ResponseHttp) && field == "Body" then Some(ResponseBody)
    else if receiver == RequestBody && field == "Bytes" then Some(RequestBodyBytes)
    else if receiver == ResponseBody && field == "Bytes" then Some(ResponseBodyBytes)
    else if receiver == Stream && field == "Payload" then Some(StreamPayload)
    else None
  }

  function OriginTarget(origin: Origin): Option<BodyTarget> {
    match origin
    case RequestBody | RequestBodyBytes => Some(RequestBodyOf)
    case ResponseBody | ResponseBodyBytes => Some(ResponseBodyOf)
    case StreamPayload => Some(StreamOf)
    case _ => None
  }

  /** Reading a field of a body object. */
  function FieldNeed(need: Need, origin: Option<Origin>, field: string): Need {
    if origin == Some(RequestBody) && field == "Size" then MergeTarget(need, RequestBodyOf, SizeOnly)
    else if origin == Some(ResponseBody) && field == "Size" then MergeTarget(need, ResponseBodyOf, SizeOnly)
    else if origin == Some(RequestBody) && field in {"Bytes", "Text", "IsTruncated"} then
      MergeTarget(need, RequestBodyOf, PrefixBytes)
    else if origin == Some(ResponseBody) && field in {"Bytes", "Text", "IsTruncated"} then
      MergeTarget(need, ResponseBodyOf, PrefixBytes)
    else if origin == Some(Stream) && field == "Payload" then MergeTarget(need, StreamOf, PrefixBytes)
    else need
  }

  /** Using a value that comes from a body needs the body's bytes. */
  function Consumed(need: Need, origin: Option<Origin>): Need {
    if origin.Some? && OriginTarget(origin.value).Some? then
      MergeTarget(need, OriginTarget(origin.value).value, PrefixBytes)
    else need
  }

  // ----- what analysis records -----

  /** Origin, path and body need of one expression. */
  datatype Trace = Trace(origin: Option<Origin>, path: Option<Path>, need: Need)

  const NoTrace := Trace(None, None, NoNeed)

  /** What a call frame knows of a parameter. */
  datatype LocalBinding = LocalBinding(origin: Option<Origin>, path: Option<Path>)

  function FrameBindings(params: seq<string>, traces: seq<Trace>): map<string, LocalBinding> {
    if params == [] || traces == [] then map[]
    else map[params[0] := LocalBinding(traces[0].origin, traces[0].path)] + FrameBindings(params[1..], traces[1..])
  }

  function FindBinding(locals: seq<map<string, LocalBinding>>, name: string): Option<LocalBinding> {
    if locals == [] then None
    else if name in locals[|locals| - 1] then Some(locals[|locals| - 1][name])
    else FindBinding(locals[..|locals| - 1], name)
  }

  /** Needs of operands that are used as they are. */
  function ConsumedAll(traces: seq<Trace>): Need {
    if traces == [] then NoNeed
    else Merge(Consumed(traces[0].need, traces[0].origin), ConsumedAll(traces[1..]))
  }

  function NeedAll(traces: seq<Trace>): Need {
    if traces == [] then NoNeed else Merge(traces[0].need, NeedAll(traces[1..]))
  }

  /** The access a method declares, if its receiver comes from a body. */
  function MethodNeed(need: Need, env: Env, bodies: BodyEnv, e: Expr, receiver: Trace): Need
    requires e.Method?
  {
    var found := HostCall(env, e);
    if found.Matches? && receiver.origin.Some? && OriginTarget(receiver.origin.value).Some? then
      MergeTarget(need, OriginTarget(receiver.origin.value).value, bodies.methodAccess(found.capability))
    else need
  }

  /** The trace of a node from the traces of its children. */
  function NodeTrace(
    env: Env, bodies: BodyEnv, locals: seq<map<string, LocalBinding>>, e: Expr, kids: seq<Trace>): Trace
    requires |kids| == |Children(e)|
  {
    match e
    case Ident(name) =>
      var binding := match FindBinding(locals, name)
        case Some(known) => known
        case None => LocalBinding(RootOrigin(name), Some([name]));
      Trace(binding.origin, binding.path, PathNeed(NoNeed, bodies.rules, binding.path))
    case Member(_, name) =>
      var r := kids[0];
      var path := if r.path.Some? then Some(r.path.value + [name]) else None;
      var origin := if r.origin.Some? then MemberOrigin(r.origin.value, name) else None;
      Trace(origin, path, PathNeed(FieldNeed(r.need, r.origin, name), bodies.rules, path))
    case Method(_, _, _) => Trace(None, None, MethodNeed(ConsumedAll(kids), env, bodies, e, kids[0]))
    case _ => Trace(None, None, ConsumedAll(kids))
  }

  function Traces(
    env: Env, bodies: BodyEnv, frames: seq<Binding>, locals: seq<map<string, LocalBinding>>, active: seq<FunctionKey>,
    e: Expr, depth: nat): Trace
    decreases Rank(env.cap, depth), |frames|, 2
  {
    if depth > env.cap then NoTrace
    else if e.Ident? && InlineBinding(frames, e.name).Some? then
      Traces(env, bodies, frames[..|frames| - 1], locals, active, InlineBinding(frames, e.name).value, depth)
    else
      match Callee(env, active, e)
      case Some(f) => FunctionTrace(env, bodies, frames, locals, active, f, e, depth)
      case None =>
        NodeTrace(env, bodies, locals, e, TracesAll(env, bodies, frames, locals, active, Children(e), depth + 1))
  }

  function FunctionTrace(
    env: Env, bodies: BodyEnv, frames: seq<Binding>, locals: seq<map<string, LocalBinding>>, active: seq<FunctionKey>,
    f: Function, e: Expr, depth: nat): Trace
    requires depth <= env.cap && e.Call?
    decreases Rank(env.cap, depth), |frames|, 1
  {
    if |f.params| != |e.args| || KeyOf(f) in active then NoTrace
    else if env.mode == Inline then
      Traces(env, bodies, frames + [Binding(f.params, e.args)], locals, active + [KeyOf(f)], f.body, depth + 1)
    else
      var args := TracesAll(env, bodies, frames, locals, active, e.args, depth + 1);
      var body := Traces(env, bodies, frames, locals + [FrameBindings(f.params, args)], active + [KeyOf(f)], f.body, depth + 1);
      body.(need := Merge(NeedAll(args), body.need))
  }

  function TracesAll(
    env: Env, bodies: BodyEnv, frames: seq<Binding>, locals: seq<map<string, LocalBinding>>, active: seq<FunctionKey>,
    es: seq<Expr>, depth: nat): (ts: seq<Trace>)
    ensures |ts| == |es|
    decreases Rank(env.cap, depth), |frames|, |es| + 3
  {
    if es == [] then []
    else
      var first := Traces(env, bodies, frames, locals, active, es[0], depth);
      [first] + TracesAll(env, bodies, frames, locals, active, es[1..], depth)
  }

  // ----- the chains a tree follows -----

  /** The member chain a tree reads from a context variable, if it is one. */
  function Chain(v: Verified, locals: seq<map<string, Option<Path>>>): Option<Path>
    decreases Size(v), 1
  {
    match v
    case VIdent(name) => LocalChain(locals, name)
    case VMember(receiver, name) =>
      (match Chain(receiver, locals) case Some(path) => Some(path + [name]) case None => None)
    case VFunction(_, params, args, body) => Chain(body, locals + [ChainFrame(params, Chains(args, locals))])
    case _ => None
  }

  function Chains(vs: seq<Verified>, locals: seq<map<string, Option<Path>>>): (ps: seq<Option<Path>>)
    ensures |ps| == |vs|
    decreases SizeAll(vs), 2 + |vs|
  {
    if vs == [] then [] else [Chain(vs[0], locals)] + Chains(vs[1..], locals)
  }

  function ChainFrame(params: seq<string>, paths: seq<Option<Path>>): map<string, Option<Path>> {
    if params == [] || paths == [] then map[]
    else map[params[0] := paths[0]] + ChainFrame(params[1..], paths[1..])
  }

  function LocalChain(locals: seq<map<string, Option<Path>>>, name: string): Option<Path> {
    if locals == [] then Some([name])
    else if name in locals[|locals| - 1] then locals[|locals| - 1][name]
    else LocalChain(locals[..|locals| - 1], name)
  }

  /** Member by member from a context variable. */
  function Follow(rt: E.Runtime, path: Path): Option<VG.Value>
    decreases |path|
  {
    if path == [] then None
    else if |path| == 1 then (if path[0] in rt.variables then Some(rt.variables[path[0]]) else None)
    else
      match Follow(rt, path[..|path| - 1])
      case None => None
      case Some(value) =>
        if value.Object? then E.MemberOf(value.keys, value.members, path[|path| - 1]) else None
  }

  /** The rule at `i` is for exactly this path, and none before it is. */
  predicate IsFirstRule(rules: seq<Rule>, i: nat, path: Path)
    requires i < |rules|
  {
    rules[i].path == path && forall j :: 0 <= j < i ==> rules[j].path != path
  }

  lemma {:induction false} RuleForFirst(rules: seq<Rule>, path: Path)
    ensures forall i | 0 <= i < |rules| && IsFirstRule(rules, i, path) :: RuleFor(rules, path) == Some(rules[i])
    ensures RuleFor(rules, path).Some? ==> exists i :: 0 <= i < |rules| && IsFirstRule(rules, i, path)
    decreases |rules|
  {
    if rules != [] {
      if rules[0].path == path {
        assert IsFirstRule(rules, 0, path);
      } else {
        RuleForFirst(rules[1..], path);
        forall i | 0 <= i < |rules| && IsFirstRule(rules, i, path) ensures RuleFor(rules, path) == Some(rules[i]) {
          assert forall j :: 0 <= j < i - 1 ==> rules[1..][j] == rules[j + 1];
          assert IsFirstRule(rules[1..], i - 1, path);
        }
        if RuleFor(rules, path).Some? {
          var i :| 0 <= i < |rules[1..]| && IsFirstRule(rules[1..], i, path);
          assert forall j :: 1 <= j < i + 1 ==> rules[j] == rules[1..][j - 1];
          assert IsFirstRule(rules, i + 1, path);
        }
      }
    }
  }

  /** The need covers the rule of a chain, if there is one. */
  predicate CoversPath(need: Need, rules: seq<Rule>, path: Option<Path>) {
    path.Some? ==> forall i | 0 <= i < |rules| && IsFirstRule(rules, i, path.value) ::
      AccessRank(rules[i].access) <= AccessRank(AccessOf(need, rules[i].target))
  }

  // ----- what stands where, by whole paths -----

  predicate IsRequestBody(path: Path) { path == ["Request", "Body"] || path == ["Request", "Http", "Body"] }

  predicate IsResponseBody(path: Path) { path == ["Response", "Body"] || path == ["Response", "Http", "Body"] }

  /** The body whose data a value at this path is. */
  function BodyAt(path: Path): Option<BodyTarget> {
    if IsRequestBody(path) || path == ["Request", "Body", "Bytes"] || path == ["Request", "Http", "Body", "Bytes"] then
      Some(RequestBodyOf)
    else if IsResponseBody(path) || path == ["Response", "Body", "Bytes"] || path == ["Response", "Http", "Body", "Bytes"] then
      Some(ResponseBodyOf)
    else if path == ["Stream", "Payload"] then Some(StreamOf)
    else None
  }

  /** A value that comes from a body needs the body's bytes. */
  predicate CoversUse(need: Need, path: Option<Path>) {
    path.Some? && BodyAt(path.value).Some? ==> AccessOf(need, BodyAt(path.value).value) == PrefixBytes
  }

  predicate CoversUses(need: Need, chains: seq<Option<Path>>) {
    forall i :: 0 <= i < |chains| ==> CoversUse(need, chains[i])
  }

  /** The size of a body needs at least its size, and its bytes, its text, its truncation and a stream's
      payload need its bytes. */
  predicate CoversField(need: Need, path: Option<Path>, field: string) {
    path.Some? ==>
      && (IsRequestBody(path.value) && field == "Size" ==> need.request != NoAccess)
      && (IsResponseBody(path.value) && field == "Size" ==> need.response != NoAccess)
      && (field == "Bytes" || field == "Text" || field == "IsTruncated" ==>
            && (IsRequestBody(path.value) ==> need.request == PrefixBytes)
            && (IsResponseBody(path.value) ==> need.response == PrefixBytes))
      && (path.value == ["Stream"] && field == "Payload" ==> need.stream == PrefixBytes)
  }

  /** The need covers what the node itself does with body data: reading a field of it, or using it as
      an operand. Passing it to an expression function is neither. */
  predicate CoversNode(need: Need, v: Verified, locals: seq<map<string, Option<Path>>>) {
    if v.VFunction? then true
    else if v.VMember? then CoversField(need, Chain(v.receiver, locals), v.name)
    else CoversUses(need, Chains(E.Kids(v), locals))
  }

  /** The need covers every chain the tree can read, and every use of body data in it: its own, its
      operands', and its bodies'. */
  predicate Covers(need: Need, rules: seq<Rule>, v: Verified, locals: seq<map<string, Option<Path>>>)
    decreases Size(v), 1
  {
    && CoversPath(need, rules, Chain(v, locals))
    && CoversNode(need, v, locals)
    && (if v.VFunction? then
          && CoversAll(need, rules, v.args, locals)
          && Covers(need, rules, v.body, locals + [ChainFrame(v.params, Chains(v.args, locals))])
        else CoversAll(need, rules, E.Kids(v), locals))
  }

  predicate CoversAll(need: Need, rules: seq<Rule>, vs: seq<Verified>, locals: seq<map<string, Option<Path>>>)
    decreases SizeAll(vs), 2 + |vs|
  {
    vs == [] || (Covers(need, rules, vs[0], locals) && CoversAll(need, rules, vs[1..], locals))
  }

  // ----- larger needs cover more -----

  lemma {:induction false} CoversMore(a: Need, b: Need, rules: seq<Rule>, v: Verified, locals: seq<map<string, Option<Path>>>)
    requires Covers(a, rules, v, locals) && Allows(b, a)
    ensures Covers(b, rules, v, locals)
    decreases Size(v), 1
  {
    hide Chain, ChainFrame, Chains, CoversAll, CoversNode;
    NodeMore(a, b, v, locals);
    if v.VFunction? {
      CoversMoreAll(a, b, rules, v.args, locals);
      CoversMore(a, b, rules, v.body, locals + [ChainFrame(v.params, Chains(v.args, locals))]);
    } else {
      CoversMoreAll(a, b, rules, E.Kids(v), locals);
    }
  }

  lemma NodeMore(a: Need, b: Need, v: Verified, locals: seq<map<string, Option<Path>>>)
    requires CoversNode(a, v, locals) && Allows(b, a)
    ensures CoversNode(b, v, locals)
  {
    hide Chain, Chains, BodyAt, IsRequestBody, IsResponseBody;
  }

  lemma {:induction false} CoversMoreAll(
    a: Need, b: Need, rules: seq<Rule>, vs: seq<Verified>, locals: seq<map<string, Option<Path>>>)
    requires CoversAll(a, rules, vs, locals) && Allows(b, a)
    ensures CoversAll(b, rules, vs, locals)
    decreases SizeAll(vs), 2 + |vs|
  {
    hide Covers, Allows;
    if vs != [] {
      CoversMore(a, b, rules, vs[0], locals);
      CoversMoreAll(a, b, rules, vs[1..], locals);
    }
  }

  // ----- the chain is what evaluation reads -----

  ghost predicate FramesFollow(
    rt: E.Runtime, values: seq<map<string, VG.Value>>, paths: seq<map<string, Option<Path>>>)
  {
    && |values| == |paths|
    && forall i :: 0 <= i < |values| ==> FrameFollows(rt, values[i], paths[i])
  }

  ghost predicate FrameFollows(rt: E.Runtime, values: map<string, VG.Value>, paths: map<string, Option<Path>>) {
    && values.Keys == paths.Keys
    && forall x | x in paths && paths[x].Some? :: Follow(rt, paths[x].value) == Some(values[x])
  }

  lemma {:induction false} LookupFollows(
    rt: E.Runtime, values: seq<map<string, VG.Value>>, paths: seq<map<string, Option<Path>>>, name: string)
    requires FramesFollow(rt, values, paths) && LocalChain(paths, name).Some? && E.Lookup(rt, values, name).Some?
    ensures Follow(rt, LocalChain(paths, name).value) == E.Lookup(rt, values, name)
    decreases |paths|
  {
    if paths != [] {
      var n := |paths| - 1;
      assert FrameFollows(rt, values[n], paths[n]);
      if name !in paths[n] { LookupFollows(rt, values[..n], paths[..n], name); }
    }
  }

  lemma {:induction false} NewFrameFollows(
    rt: E.Runtime, params: seq<string>, values: seq<VG.Value>, paths: seq<Option<Path>>)
    requires |values| == |paths|
    requires forall i :: 0 <= i < |values| && paths[i].Some? ==> Follow(rt, paths[i].value) == Some(values[i])
    ensures FrameFollows(rt, E.Frame(params, values), ChainFrame(params, paths))
    decreases |params|
  {
    hide Follow, FrameFollows;
    if params != [] && values != [] {
      NewFrameFollows(rt, params[1..], values[1..], paths[1..]);
      FirstFollows(
        rt, params[0], values[0], paths[0], E.Frame(params[1..], values[1..]), ChainFrame(params[1..], paths[1..]));
    } else {
      assert E.Frame(params, values) == map[] && ChainFrame(params, paths) == map[];
      EmptyFollows(rt);
    }
  }

  lemma EmptyFollows(rt: E.Runtime)
    ensures FrameFollows(rt, map[], map[])
  {
  }

  lemma FirstFollows(
    rt: E.Runtime, name: string, value: VG.Value, path: Option<Path>, values: map<string, VG.Value>,
    paths: map<string, Option<Path>>)
    requires FrameFollows(rt, values, paths) && (path.Some? ==> Follow(rt, path.value) == Some(value))
    ensures FrameFollows(rt, map[name := value] + values, map[name := path] + paths)
  {
    hide Follow;
  }

  /** Whatever a tree with a chain evaluates to is what following the chain from the context gives. */
  lemma {:induction false} ChainIsRead(
    rt: E.Runtime, b: E.Budget, v: Verified, values: seq<map<string, VG.Value>>, paths: seq<map<string, Option<Path>>>)
    requires FramesFollow(rt, values, paths)
    requires Chain(v, paths).Some? && Means(rt, b, v, values).Some?
    ensures Follow(rt, Chain(v, paths).value) == Means(rt, b, v, values)
    decreases Size(v), 1
  {
    hide FramesFollow, E.Admits, Follow, LocalChain, Chains, MeansAll, E.PreCheck;
    match v
    case VIdent(name) =>
      assert E.Kids(v) == [];
      IdentMeaning(rt, b, name, values);
      LookupFollows(rt, values, paths, name);
    case VMember(receiver, name) =>
      MemberMeaning(rt, b, receiver, name, values);
      ChainIsRead(rt, b, receiver, values, paths);
      FollowMember(rt, Chain(receiver, paths).value, name);
    case VFunction(_, params, args, body) =>
      FrameMeaning(rt, b, v, values);
      var given := MeansAll(rt, b, args, values).value;
      ArgumentsRead(rt, b, args, values, paths);
      NewFrameFollows(rt, params, given, Chains(args, paths));
      PushFollows(rt, values, paths, E.Frame(params, given), ChainFrame(params, Chains(args, paths)));
      ChainIsRead(rt, b, body, values + [E.Frame(params, given)], paths + [ChainFrame(params, Chains(args, paths))]);
  }

  lemma IdentMeaning(rt: E.Runtime, b: E.Budget, name: string, values: seq<map<string, VG.Value>>)
    requires Means(rt, b, VIdent(name), values).Some?
    ensures Means(rt, b, VIdent(name), values) == E.Lookup(rt, values, name)
  {
    hide E.Admits;
    assert E.Kids(VIdent(name)) == [];
  }

  lemma MemberMeaning(rt: E.Runtime, b: E.Budget, receiver: Verified, name: string, values: seq<map<string, VG.Value>>)
    requires Means(rt, b, VMember(receiver, name), values).Some?
    ensures Means(rt, b, receiver, values).Some?
    ensures var r := Means(rt, b, receiver, values).value;
      r.Object? && E.MemberOf(r.keys, r.members, name) == Means(rt, b, VMember(receiver, name), values)
  {
    hide E.Admits;
    assert E.Kids(VMember(receiver, name)) == [receiver];
    OneMeaning(rt, b, receiver, values);
  }

  lemma OneMeaning(rt: E.Runtime, b: E.Budget, v: Verified, values: seq<map<string, VG.Value>>)
    requires MeansAll(rt, b, [v], values).Some?
    ensures Means(rt, b, v, values).Some? && MeansAll(rt, b, [v], values).value == [Means(rt, b, v, values).value]
  {
    hide Means;
    assert [v][1..] == [];
  }

  lemma FollowMember(rt: E.Runtime, path: Path, name: string)
    requires Follow(rt, path).Some? && Follow(rt, path).value.Object?
    ensures Follow(rt, path + [name])
         == E.MemberOf(Follow(rt, path).value.keys, Follow(rt, path).value.members, name)
  {
    assert (path + [name])[..|path|] == path;
  }

  lemma FrameMeaning(rt: E.Runtime, b: E.Budget, v: Verified, values: seq<map<string, VG.Value>>)
    requires v.VFunction? && Means(rt, b, v, values).Some?
    ensures MeansAll(rt, b, v.args, values).Some?
    ensures Means(rt, b, v, values)
         == Means(rt, b, v.body, values + [E.Frame(v.params, MeansAll(rt, b, v.args, values).value)])
  {
    hide MeansAll, E.Frame;
  }

  lemma PushFollows(
    rt: E.Runtime, values: seq<map<string, VG.Value>>, paths: seq<map<string, Option<Path>>>,
    frame: map<string, VG.Value>, chains: map<string, Option<Path>>)
    requires FramesFollow(rt, values, paths) && FrameFollows(rt, frame, chains)
    ensures FramesFollow(rt, values + [frame], paths + [chains])
  {
    hide FrameFollows;
    forall i | 0 <= i < |values| + 1 ensures FrameFollows(rt, (values + [frame])[i], (paths + [chains])[i]) {
    }
  }

  lemma {:induction false} ArgumentsRead(
    rt: E.Runtime, b: E.Budget, vs: seq<Verified>, values: seq<map<string, VG.Value>>, paths: seq<map<string, Option<Path>>>)
    requires FramesFollow(rt, values, paths) && MeansAll(rt, b, vs, values).Some?
    ensures forall i :: 0 <= i < |vs| && Chains(vs, paths)[i].Some? ==>
      Follow(rt, Chains(vs, paths)[i].value) == Some(MeansAll(rt, b, vs, values).value[i])
    decreases SizeAll(vs), 2 + |vs|
  {
    hide FramesFollow, Means, Chain, Follow;
    if vs != [] {
      if Chain(vs[0], paths).Some? { ChainIsRead(rt, b, vs[0], values, paths); }
      ArgumentsRead(rt, b, vs[1..], values, paths);
    }
  }

  // ----- what analysis records is what the tree follows -----

  /** The chains of the parameters of one call frame. */
  function FramePaths(locals: map<string, LocalBinding>): map<string, Option<Path>> {
    map x | x in locals :: locals[x].path
  }

  function PathsOf(locals: seq<map<string, LocalBinding>>): (paths: seq<map<string, Option<Path>>>)
    ensures |paths| == |locals|
  {
    if locals == [] then [] else PathsOf(locals[..|locals| - 1]) + [FramePaths(locals[|locals| - 1])]
  }

  lemma PathsOfPush(locals: seq<map<string, LocalBinding>>, frame: map<string, LocalBinding>)
    ensures PathsOf(locals + [frame]) == PathsOf(locals) + [FramePaths(frame)]
  {
    assert (locals + [frame])[..|locals|] == locals;
  }

  /** What the objects along a chain are. */
  function OriginAlong(path: Option<Path>): Option<Origin>
    decreases if path.Some? then |path.value| else 0
  {
    if path.None? || path.value == [] then None
    else if |path.value| == 1 then RootOrigin(path.value[0])
    else
      match OriginAlong(Some(path.value[..|path.value| - 1]))
      case None => None
      case Some(receiver) => MemberOrigin(receiver, path.value[|path.value| - 1])
  }

  /** The same, by whole paths. */
  function OriginAt(path: Path): Option<Origin> {
    if path == ["Request"] then Some(Request)
    else if path == ["Request", "Http"] then Some(RequestHttp)
    else if IsRequestBody(path) then Some(RequestBody)
    else if path == ["Request", "Body", "Bytes"] || path == ["Request", "Http", "Body", "Bytes"] then Some(RequestBodyBytes)
    else if path == ["Response"] then Some(Response)
    else if path == ["Response", "Http"] then Some(ResponseHttp)
    else if IsResponseBody(path) then Some(ResponseBody)
    else if path == ["Response", "Body", "Bytes"] || path == ["Response", "Http", "Body", "Bytes"] then Some(ResponseBodyBytes)
    else if path == ["Stream"] then Some(Stream)
    else if path == ["Stream", "Payload"] then Some(StreamPayload)
    else None
  }

  lemma {:induction false} OriginByPath(path: Path)
    ensures OriginAlong(Some(path)) == OriginAt(path)
    decreases |path|
  {
    hide MemberOrigin, OriginAt, RootOrigin;
    if |path| <= 1 {
      ShortOrigin(path);
    } else {
      var init, last := path[..|path| - 1], path[|path| - 1];
      OriginByPath(init);
      assert path == init + [last];
      LongOrigin(init, last);
    }
  }

  lemma ShortOrigin(path: Path)
    requires |path| <= 1
    ensures OriginAlong(Some(path)) == OriginAt(path)
  {
    if |path| == 1 { assert path == [path[0]]; }
  }

  lemma EndsAs(init: Path, last: string, known: Path, prefix: Path, end: string)
    requires known == prefix + [end]
    ensures init + [last] == known <==> init == prefix && last == end
  {
    if init + [last] == known {
      assert init == (init + [last])[..|init|] && prefix == (prefix + [end])[..|prefix|];
      assert last == (init + [last])[|init|] && end == known[|prefix|];
    }
  }

  lemma RequestPaths(init: Path, last: string)
    requires init != []
    ensures var path := init + [last];
      && path != ["Request"] && path != ["Response"] && path != ["Stream"]
      && (path == ["Request", "Http"] <==> init == ["Request"] && last == "Http")
      && (IsRequestBody(path) <==> (init == ["Request"] || init == ["Request", "Http"]) && last == "Body")
      && (path == ["Request", "Body", "Bytes"] <==> init == ["Request", "Body"] && last == "Bytes")
      && (path == ["Request", "Http", "Body", "Bytes"] <==> init == ["Request", "Http", "Body"] && last == "Bytes")
  {
    EndsAs(init, last, ["Request", "Http"], ["Request"], "Http");
    EndsAs(init, last, ["Request", "Body"], ["Request"], "Body");
    EndsAs(init, last, ["Request", "Http", "Body"], ["Request", "Http"], "Body");
    EndsAs(init, last, ["Request", "Body", "Bytes"], ["Request", "Body"], "Bytes");
    EndsAs(init, last, ["Request", "Http", "Body", "Bytes"], ["Request", "Http", "Body"], "Bytes");
    assert |init + [last]| >= 2;
  }

  lemma ResponsePaths(init: Path, last: string)
    requires init != []
    ensures var path := init + [last];
      && (path == ["Response", "Http"] <==> init == ["Response"] && last == "Http")
      && (IsResponseBody(path) <==> (init == ["Response"] || init == ["Response", "Http"]) && last == "Body")
      && (path == ["Response", "Body", "Bytes"] <==> init == ["Response", "Body"] && last == "Bytes")
      && (path == ["Response", "Http", "Body", "Bytes"] <==> init == ["Response", "Http", "Body"] && last == "Bytes")
      && (path == ["Stream", "Payload"] <==> init == ["Stream"] && last == "Payload")
  {
    EndsAs(init, last, ["Response", "Http"], ["Response"], "Http");
    EndsAs(init, last, ["Response", "Body"], ["Response"], "Body");
    EndsAs(init, last, ["Response", "Http", "Body"], ["Response", "Http"], "Body");
    EndsAs(init, last, ["Response", "Body", "Bytes"], ["Response", "Body"], "Bytes");
    EndsAs(init, last, ["Response", "Http", "Body", "Bytes"], ["Response", "Http", "Body"], "Bytes");
    EndsAs(init, last, ["Stream", "Payload"], ["Stream"], "Payload");
  }

  lemma LongOrigin(init: Path, last: string)
    requires init != []
    ensures OriginAt(init + [last]) == match OriginAt(init) case None => None case Some(o) => MemberOrigin(o, last)
  {
    RequestPaths(init, last);
    ResponsePaths(init, last);
    MemberOfOrigin(init, last, init + [last]);
  }

  lemma MemberOfOrigin(init: Path, last: string, path: Path)
    requires path != ["Request"] && path != ["Response"] && path != ["Stream"]
    requires path == ["Request", "Http"] <==> init == ["Request"] && last == "Http"
    requires IsRequestBody(path) <==> (init == ["Request"] || init == ["Request", "Http"]) && last == "Body"
    requires path == ["Request", "Body", "Bytes"] <==> init == ["Request", "Body"] && last == "Bytes"
    requires path == ["Request", "Http", "Body", "Bytes"] <==> init == ["Request", "Http", "Body"] && last == "Bytes"
    requires path == ["Response", "Http"] <==> init == ["Response"] && last == "Http"
    requires IsResponseBody(path) <==> (init == ["Response"] || init == ["Response", "Http"]) && last == "Body"
    requires path == ["Response", "Body", "Bytes"] <==> init == ["Response", "Body"] && last == "Bytes"
    requires path == ["Response", "Http", "Body", "Bytes"] <==> init == ["Response", "Http", "Body"] && last == "Bytes"
    requires path == ["Stream", "Payload"] <==> init == ["Stream"] && last == "Payload"
    ensures OriginAt(path) == match OriginAt(init) case None => None case Some(o) => MemberOrigin(o, last)
  {
  }

  /** What analysis asks for a use and for a field, by whole paths. */
  lemma UseByPath(need: Need, path: Option<Path>)
    ensures CoversUse(need, path) <==> OriginUse(need, OriginAlong(path))
  {
    if path.Some? { OriginByPath(path.value); }
  }

  lemma FieldByPath(need: Need, path: Option<Path>, field: string)
    ensures CoversField(need, path, field) <==> Allows(need, FieldNeed(NoNeed, OriginAlong(path), field))
  {
    if path.Some? {
      OriginByPath(path.value);
      FieldAtPath(need, path.value, field);
    }
  }

  lemma FieldAtPath(need: Need, path: Path, field: string)
    ensures CoversField(need, Some(path), field) <==> Allows(need, FieldNeed(NoNeed, OriginAt(path), field))
  {
    if IsRequestBody(path) {
      assert OriginAt(path) == Some(RequestBody) && !IsResponseBody(path) && path != ["Stream"];
    } else if IsResponseBody(path) {
      assert OriginAt(path) == Some(ResponseBody) && path != ["Stream"];
    } else if path == ["Stream"] {
      assert OriginAt(path) == Some(Stream);
    } else {
      hide IsRequestBody, IsResponseBody;
      var o := OriginAt(path);
      assert o != Some(RequestBody) && o != Some(ResponseBody) && o != Some(Stream);
    }
  }

  predicate OriginUse(need: Need, origin: Option<Origin>) {
    origin.Some? && OriginTarget(origin.value).Some? ==>
      AccessOf(need, OriginTarget(origin.value).value) == PrefixBytes
  }

  /** The origin is what the path leads to. */
  predicate OriginFits(origin: Option<Origin>, path: Option<Path>) { origin == OriginAlong(path) && path != Some([]) }

  ghost predicate BindingsFit(locals: seq<map<string, LocalBinding>>) {
    forall i, x :: 0 <= i < |locals| && x in locals[i] ==> OriginFits(locals[i][x].origin, locals[i][x].path)
  }

  lemma {:induction false} FrameBindingsFit(params: seq<string>, ts: seq<Trace>)
    requires forall i :: 0 <= i < |ts| ==> OriginFits(ts[i].origin, ts[i].path)
    ensures forall x :: x in FrameBindings(params, ts) ==>
      OriginFits(FrameBindings(params, ts)[x].origin, FrameBindings(params, ts)[x].path)
    decreases |params|
  {
    hide OriginFits;
    if params != [] && ts != [] {
      assert OriginFits(ts[0].origin, ts[0].path);
      FrameBindingsFit(params[1..], ts[1..]);
    }
  }

  lemma {:induction false} BindingOrigin(locals: seq<map<string, LocalBinding>>, name: string)
    requires BindingsFit(locals)
    ensures FindBinding(locals, name).Some? ==>
      OriginFits(FindBinding(locals, name).value.origin, FindBinding(locals, name).value.path)
  {
    hide OriginFits;
    if locals != [] && name !in locals[|locals| - 1] { BindingOrigin(locals[..|locals| - 1], name); }
  }

  lemma {:induction false} BindingPath(locals: seq<map<string, LocalBinding>>, name: string)
    ensures match FindBinding(locals, name)
      case Some(known) => LocalChain(PathsOf(locals), name) == known.path
      case None => LocalChain(PathsOf(locals), name) == Some([name])
  {
    if locals != [] {
      var n := |locals| - 1;
      assert PathsOf(locals)[..n] == PathsOf(locals[..n]);
      if name !in locals[n] { BindingPath(locals[..n], name); }
    }
  }

  /** The recorded path is the tree's chain, the recorded origin is what it leads to, and the recorded
      need covers every chain and every use of body data in the tree. */
  predicate TraceFits(t: Trace, rules: seq<Rule>, v: Verified, paths: seq<map<string, Option<Path>>>) {
    t.path == Chain(v, paths) && OriginFits(t.origin, t.path) && Covers(t.need, rules, v, paths)
  }

  predicate TracesFit(ts: seq<Trace>, rules: seq<Rule>, vs: seq<Verified>, paths: seq<map<string, Option<Path>>>) {
    |ts| == |vs| && forall i :: 0 <= i < |ts| ==> TraceFits(ts[i], rules, vs[i], paths)
  }

  /** Analysis records for each expression the chain its tree follows, in both modes. */
  lemma {:induction false} TraceFollowsTree(
    env: Env, bodies: BodyEnv, frames: seq<Binding>, names: seq<seq<string>>, locals: seq<map<string, LocalBinding>>,
    active: seq<FunctionKey>, e: Expr, depth: nat)
    requires BindingsFit(locals)
    requires var o := Analyze(env, frames, names, active, e, depth); !o.tooDeep && !o.Cut()
    ensures TraceFits(Traces(env, bodies, frames, locals, active, e, depth), bodies.rules,
                      Analyze(env, frames, names, active, e, depth).expr, PathsOf(locals))
    decreases Rank(env.cap, depth), |frames|, 2
  {
    hide Build, AnalyzeAll, AnalyzeFunction, TracesAll, FunctionTrace, NodeTrace, TraceFits, TracesFit, PathsOf, Tree,
      BindingsFit;
    if e.Ident? && InlineBinding(frames, e.name).Some? {
      TraceFollowsTree(
        env, bodies, frames[..|frames| - 1], names, locals, active, InlineBinding(frames, e.name).value, depth);
    } else if Callee(env, active, e).Some? {
      FunctionTraceFits(env, bodies, frames, names, locals, active, Callee(env, active, e).value, e, depth);
    } else {
      var kids := AnalyzeAll(env, frames, names, active, Children(e), depth + 1);
      BuildParts(env, names, e, kids);
      TracesFollowTrees(env, bodies, frames, names, locals, active, Children(e), depth + 1);
      NodeTraceFits(
        env, bodies, locals, e, TracesAll(env, bodies, frames, locals, active, Children(e), depth + 1), kids.exprs);
    }
  }

  lemma {:induction false} FunctionTraceFits(
    env: Env, bodies: BodyEnv, frames: seq<Binding>, names: seq<seq<string>>, locals: seq<map<string, LocalBinding>>,
    active: seq<FunctionKey>, f: Function, e: Expr, depth: nat)
    requires BindingsFit(locals)
    requires depth <= env.cap && e.Call?
    requires var o := AnalyzeFunction(env, frames, names, active, f, e, depth); !o.tooDeep && !o.Cut()
    ensures TraceFits(FunctionTrace(env, bodies, frames, locals, active, f, e, depth), bodies.rules,
                      AnalyzeFunction(env, frames, names, active, f, e, depth).expr, PathsOf(locals))
    decreases Rank(env.cap, depth), |frames|, 1
  {
    hide Analyze, AnalyzeAll, Traces, TracesAll, TraceFits, TracesFit, PathsOf, FrameBindings, BindingsFit;
    if env.mode == Inline {
      TraceFollowsTree(
        env, bodies, frames + [Binding(f.params, e.args)], names, locals, active + [KeyOf(f)], f.body, depth + 1);
    } else {
      var args := TracesAll(env, bodies, frames, locals, active, e.args, depth + 1);
      var frame := FrameBindings(f.params, args);
      TracesFollowTrees(env, bodies, frames, names, locals, active, e.args, depth + 1);
      PushBindings(bodies.rules, f.params, args, AnalyzeAll(env, frames, names, active, e.args, depth + 1).exprs, locals);
      TraceFollowsTree(
        env, bodies, frames, names + [f.params], locals + [frame], active + [KeyOf(f)], f.body, depth + 1);
      var vs := AnalyzeAll(env, frames, names, active, e.args, depth + 1).exprs;
      var body := Analyze(env, frames, names + [f.params], active + [KeyOf(f)], f.body, depth + 1).expr;
      var t := Traces(env, bodies, frames, locals + [frame], active + [KeyOf(f)], f.body, depth + 1);
      CallTraceFits(bodies.rules, f.name, f.params, args, vs, t, body, locals);
    }
  }

  lemma PushBindings(
    rules: seq<Rule>, params: seq<string>, args: seq<Trace>, vs: seq<Verified>, locals: seq<map<string, LocalBinding>>)
    requires BindingsFit(locals) && TracesFit(args, rules, vs, PathsOf(locals))
    ensures BindingsFit(locals + [FrameBindings(params, args)])
  {
    hide PathsOf, FrameBindings, OriginFits, Covers, Chain;
    forall i | 0 <= i < |args| ensures OriginFits(args[i].origin, args[i].path) {
      assert TraceFits(args[i], rules, vs[i], PathsOf(locals));
    }
    FrameBindingsFit(params, args);
  }

  /** A call frame passes on its body's path, and needs what its arguments and its body need. */
  lemma CallTraceFits(
    rules: seq<Rule>, name: string, params: seq<string>, args: seq<Trace>, vs: seq<Verified>, t: Trace,
    body: Verified, locals: seq<map<string, LocalBinding>>)
    requires TracesFit(args, rules, vs, PathsOf(locals))
    requires TraceFits(t, rules, body, PathsOf(locals + [FrameBindings(params, args)]))
    ensures TraceFits(
      t.(need := Merge(NeedAll(args), t.need)), rules, VFunction(name, params, vs, body), PathsOf(locals))
  {
    hide Merge, NeedAll, PathsOf, FrameBindings, Allows, CoversPath, CoversNode, CoversAll, Chains, ChainFrame,
      FramePaths, OriginFits, TracesFit;
    var paths, frame := PathsOf(locals), FrameBindings(params, args);
    var need := Merge(NeedAll(args), t.need);
    PathsOfPush(locals, frame);
    FramePathsAre(rules, params, args, vs, paths);
    MergeAllows(NeedAll(args), t.need);
    CoversMore(t.need, need, rules, body, paths + [ChainFrame(params, Chains(vs, paths))]);
    forall i | 0 <= i < |args| ensures Allows(need, args[i].need) { NeedAllAllows(args, i, t.need); }
    TracesCover(need, rules, args, vs, paths);
    CallCovers(need, rules, name, params, vs, body, paths);
  }

  lemma CallCovers(
    need: Need, rules: seq<Rule>, name: string, params: seq<string>, vs: seq<Verified>, body: Verified,
    paths: seq<map<string, Option<Path>>>)
    requires CoversAll(need, rules, vs, paths)
    requires Covers(need, rules, body, paths + [ChainFrame(params, Chains(vs, paths))])
    ensures Covers(need, rules, VFunction(name, params, vs, body), paths)
  {
    hide CoversAll, Chains, ChainFrame, CoversPath;
    assert CoversNode(need, VFunction(name, params, vs, body), paths);
  }

  lemma {:induction false} FramePathsAre(
    rules: seq<Rule>, params: seq<string>, args: seq<Trace>, vs: seq<Verified>, paths: seq<map<string, Option<Path>>>)
    requires TracesFit(args, rules, vs, paths)
    ensures FramePaths(FrameBindings(params, args)) == ChainFrame(params, Chains(vs, paths))
    decreases |params|
  {
    hide Covers, Chain;
    if params != [] && args != [] {
      assert TraceFits(args[0], rules, vs[0], paths);
      forall i | 0 <= i < |args| - 1 ensures TraceFits(args[1..][i], rules, vs[1..][i], paths) {
        assert TraceFits(args[i + 1], rules, vs[i + 1], paths);
      }
      FramePathsAre(rules, params[1..], args[1..], vs[1..], paths);
    }
  }

  lemma {:induction false} TracesFollowTrees(
    env: Env, bodies: BodyEnv, frames: seq<Binding>, names: seq<seq<string>>, locals: seq<map<string, LocalBinding>>,
    active: seq<FunctionKey>, es: seq<Expr>, depth: nat)
    requires BindingsFit(locals)
    requires var o := AnalyzeAll(env, frames, names, active, es, depth); !o.tooDeep && !o.Cut()
    ensures TracesFit(TracesAll(env, bodies, frames, locals, active, es, depth), bodies.rules,
                      AnalyzeAll(env, frames, names, active, es, depth).exprs, PathsOf(locals))
    decreases Rank(env.cap, depth), |frames|, |es| + 3
  {
    hide Analyze, Traces, TraceFits, PathsOf;
    if es != [] {
      TraceFollowsTree(env, bodies, frames, names, locals, active, es[0], depth);
      TracesFollowTrees(env, bodies, frames, names, locals, active, es[1..], depth);
    }
  }

  // ----- one node -----

  lemma NodeTraceFits(
    env: Env, bodies: BodyEnv, locals: seq<map<string, LocalBinding>>, e: Expr, ts: seq<Trace>, vs: seq<Verified>)
    requires BindingsFit(locals)
    requires |ts| == |vs| == |Children(e)| && TracesFit(ts, bodies.rules, vs, PathsOf(locals))
    ensures TraceFits(NodeTrace(env, bodies, locals, e, ts), bodies.rules, Tree(env, e, vs), PathsOf(locals))
  {
    hide Covers, PathsOf, FindBinding, PathNeed, FieldNeed, MethodNeed, ConsumedAll, Allows, HostCall, TicketOf,
      UnaryCapability, BinaryCapability, LocalChain, TracesFit, RuleFor, CoversPath, CoversNode, BindingsFit;
    var paths := PathsOf(locals);
    MA.KidsOfTree(env, e, vs);
    if e.Ident? {
      BindingPath(locals, e.name);
      BindingOrigin(locals, e.name);
      var t := NodeTrace(env, bodies, locals, e, ts);
      PathNeedCovers(NoNeed, bodies.rules, t.path);
      LeafNode(t.need, Tree(env, e, vs), paths);
      PlainCovers(t.need, bodies.rules, Tree(env, e, vs), ts, vs, paths);
    } else if e.Member? {
      FirstFits(bodies.rules, ts, vs, paths);
      MemberFits(env, bodies, locals, e, ts, vs);
    } else {
      var need := if e.Method? then MethodNeed(ConsumedAll(ts), env, bodies, e, ts[0]) else ConsumedAll(ts);
      var v := Tree(env, e, vs);
      if e.Method? { MethodNeedAllows(ConsumedAll(ts), env, bodies, e, ts[0]); } else { AllowsSelf(need); }
      forall i | 0 <= i < |ts| ensures Allows(need, ts[i].need) {
        ConsumedAllAllows(ts, i);
        AllowsChain(need, ConsumedAll(ts), ts[i].need);
      }
      OperandsUsed(bodies.rules, ts, vs, paths);
      UsesNode(ConsumedAll(ts), v, vs, paths);
      NodeMore(ConsumedAll(ts), need, v, paths);
      NoChainCovers(need, bodies.rules);
      PlainCovers(need, bodies.rules, v, ts, vs, paths);
    }
  }

  lemma LeafNode(need: Need, v: Verified, paths: seq<map<string, Option<Path>>>)
    requires v.VIdent?
    ensures CoversNode(need, v, paths)
  {
    assert E.Kids(v) == [] && Chains([], paths) == [];
  }

  lemma UsesNode(need: Need, v: Verified, vs: seq<Verified>, paths: seq<map<string, Option<Path>>>)
    requires !v.VMember? && E.Kids(v) == vs && CoversUses(need, Chains(vs, paths))
    ensures CoversNode(need, v, paths)
  {
    hide CoversUses, Chains;
  }

  /** What the operands' needs are merged into covers their use. */
  lemma OperandsUsed(rules: seq<Rule>, ts: seq<Trace>, vs: seq<Verified>, paths: seq<map<string, Option<Path>>>)
    requires |ts| == |vs| && TracesFit(ts, rules, vs, paths)
    ensures CoversUses(ConsumedAll(ts), Chains(vs, paths))
  {
    hide Covers, Chain, OriginAlong, CoversUse, OriginUse, ConsumedAll, Chains;
    var chains := Chains(vs, paths);
    forall i | 0 <= i < |chains| ensures CoversUse(ConsumedAll(ts), chains[i]) {
      assert TraceFits(ts[i], rules, vs[i], paths);
      ChainsAt(vs, paths, i);
      ConsumedAllUses(ts, i);
      UseByPath(ConsumedAll(ts), chains[i]);
    }
  }

  lemma {:induction false} ChainsAt(vs: seq<Verified>, paths: seq<map<string, Option<Path>>>, i: nat)
    requires i < |vs|
    ensures Chains(vs, paths)[i] == Chain(vs[i], paths)
    decreases i
  {
    hide Chain;
    if i > 0 { ChainsAt(vs[1..], paths, i - 1); }
  }

  lemma FirstFits(rules: seq<Rule>, ts: seq<Trace>, vs: seq<Verified>, paths: seq<map<string, Option<Path>>>)
    requires TracesFit(ts, rules, vs, paths) && |ts| == |vs| && ts != []
    ensures TraceFits(ts[0], rules, vs[0], paths)
  {
  }

  lemma MemberFits(
    env: Env, bodies: BodyEnv, locals: seq<map<string, LocalBinding>>, e: Expr, ts: seq<Trace>, vs: seq<Verified>)
    requires e.Member? && |ts| == |vs| == 1 && TracesFit(ts, bodies.rules, vs, PathsOf(locals))
    ensures TraceFits(NodeTrace(env, bodies, locals, e, ts), bodies.rules, VMember(vs[0], e.name), PathsOf(locals))
  {
    hide Covers, PathsOf, PathNeed, FieldNeed, Allows, RuleFor, CoversPath, TracesFit, OriginAlong, MemberOrigin, CoversField;
    var paths, rules := PathsOf(locals), bodies.rules;
    FirstFits(rules, ts, vs, paths);
    var t, v := NodeTrace(env, bodies, locals, e, ts), VMember(vs[0], e.name);
    var need := FieldNeed(ts[0].need, ts[0].origin, e.name);
    FieldNeedAllows(ts[0].need, ts[0].origin, e.name);
    PathNeedCovers(need, rules, t.path);
    AllowsChain(t.need, need, ts[0].need);
    AllowsChain(t.need, need, FieldNeed(NoNeed, ts[0].origin, e.name));
    FieldByPath(t.need, ts[0].path, e.name);
    if ts[0].path.Some? { OriginStep(ts[0].path, e.name); } else { NoOrigin(); }
    assert E.Kids(v) == vs;
    PlainCovers(t.need, rules, v, ts, vs, paths);
  }

  lemma NoOrigin()
    ensures OriginAlong(None) == None
  {
  }

  lemma OriginStep(path: Option<Path>, name: string)
    requires path.Some? && path.value != []
    ensures OriginAlong(Some(path.value + [name]))
         == (if OriginAlong(path).Some? then MemberOrigin(OriginAlong(path).value, name) else None)
  {
    assert (path.value + [name])[..|path.value|] == path.value;
  }

  /** A node that is no call frame is covered when it is itself and its operands' traces are. */
  lemma PlainCovers(
    need: Need, rules: seq<Rule>, v: Verified, ts: seq<Trace>, vs: seq<Verified>, paths: seq<map<string, Option<Path>>>)
    requires !v.VFunction? && E.Kids(v) == vs && TracesFit(ts, rules, vs, paths)
    requires CoversPath(need, rules, Chain(v, paths)) && CoversNode(need, v, paths)
    requires forall i :: 0 <= i < |ts| ==> Allows(need, ts[i].need)
    ensures Covers(need, rules, v, paths)
  {
    hide CoversPath, CoversNode, Allows, Chain, CoversAll, TracesFit;
    TracesCover(need, rules, ts, vs, paths);
  }

  lemma {:induction false} TracesCover(
    need: Need, rules: seq<Rule>, ts: seq<Trace>, vs: seq<Verified>, paths: seq<map<string, Option<Path>>>)
    requires TracesFit(ts, rules, vs, paths)
    requires forall i :: 0 <= i < |ts| ==> Allows(need, ts[i].need)
    ensures CoversAll(need, rules, vs, paths)
    decreases |vs|
  {
    hide Covers, Allows, Chain, OriginAlong;
    if vs != [] {
      assert TraceFits(ts[0], rules, vs[0], paths);
      CoversMore(ts[0].need, need, rules, vs[0], paths);
      forall i | 0 <= i < |ts| - 1 ensures TraceFits(ts[1..][i], rules, vs[1..][i], paths) {
        assert TraceFits(ts[i + 1], rules, vs[i + 1], paths);
      }
      TracesCover(need, rules, ts[1..], vs[1..], paths);
    }
  }

  // ----- needs only grow -----

  lemma MergeAllows(a: Need, b: Need)
    ensures Allows(Merge(a, b), a) && Allows(Merge(a, b), b)
  {
  }

  lemma TargetAllows(need: Need, target: BodyTarget, access: BodyAccess)
    ensures Allows(MergeTarget(need, target, access), need)
    ensures AccessRank(access) <= AccessRank(AccessOf(MergeTarget(need, target, access), target))
  {
  }

  lemma AllowsChain(a: Need, b: Need, c: Need)
    requires Allows(a, b) && Allows(b, c)
    ensures Allows(a, c)
  {
  }

  lemma PathNeedCovers(need: Need, rules: seq<Rule>, path: Option<Path>)
    ensures CoversPath(PathNeed(need, rules, path), rules, path) && Allows(PathNeed(need, rules, path), need)
  {
    if path.Some? { RuleForFirst(rules, path.value); }
    if path.Some? && RuleFor(rules, path.value).Some? {
      var rule := RuleFor(rules, path.value).value;
      TargetAllows(need, rule.target, rule.access);
    }
  }

  lemma NoChainCovers(need: Need, rules: seq<Rule>)
    ensures CoversPath(need, rules, None)
  {
  }

  lemma FieldNeedAllows(need: Need, origin: Option<Origin>, field: string)
    ensures Allows(FieldNeed(need, origin, field), need)
    ensures Allows(FieldNeed(need, origin, field), FieldNeed(NoNeed, origin, field))
  {
  }

  lemma ConsumedAllows(need: Need, origin: Option<Origin>)
    ensures Allows(Consumed(need, origin), need)
  {
  }

  lemma AllowsSelf(need: Need)
    ensures Allows(need, need)
  {
  }

  lemma MethodNeedAllows(need: Need, env: Env, bodies: BodyEnv, e: Expr, receiver: Trace)
    requires e.Method?
    ensures Allows(MethodNeed(need, env, bodies, e, receiver), need)
  {
    hide HostCall;
  }

  lemma {:induction false} ConsumedAllAllows(ts: seq<Trace>, i: nat)
    requires i < |ts|
    ensures Allows(ConsumedAll(ts), ts[i].need)
    decreases i
  {
    hide Merge, Consumed, Allows;
    var first := Consumed(ts[0].need, ts[0].origin);
    MergeAllows(first, ConsumedAll(ts[1..]));
    if i > 0 {
      ConsumedAllAllows(ts[1..], i - 1);
      AllowsChain(ConsumedAll(ts), ConsumedAll(ts[1..]), ts[i].need);
    } else {
      ConsumedAllows(ts[0].need, ts[0].origin);
      AllowsChain(ConsumedAll(ts), first, ts[0].need);
    }
  }

  lemma {:induction false} ConsumedAllUses(ts: seq<Trace>, i: nat)
    requires i < |ts|
    ensures OriginUse(ConsumedAll(ts), ts[i].origin)
    decreases i
  {
    hide Merge, Consumed, Allows, OriginUse;
    var first, rest := Consumed(ts[0].need, ts[0].origin), ConsumedAll(ts[1..]);
    MergeAllows(first, rest);
    if i > 0 {
      ConsumedAllUses(ts[1..], i - 1);
      UseMore(rest, ConsumedAll(ts), ts[i].origin);
    } else {
      ConsumedUses(ts[0].need, ts[0].origin);
      UseMore(first, ConsumedAll(ts), ts[0].origin);
    }
  }

  lemma ConsumedUses(need: Need, origin: Option<Origin>)
    ensures OriginUse(Consumed(need, origin), origin)
  {
  }

  lemma UseMore(a: Need, b: Need, origin: Option<Origin>)
    requires OriginUse(a, origin) && Allows(b, a)
    ensures OriginUse(b, origin)
  {
  }

  lemma {:induction false} NeedAllAllows(ts: seq<Trace>, i: nat, more: Need)
    requires i < |ts|
    ensures Allows(Merge(NeedAll(ts), more), ts[i].need)
    decreases i
  {
    if i > 0 { NeedAllAllows(ts[1..], i - 1, more); }
  }

  // ----- nothing is asked for that the tree does not use -----

  predicate AllAllowed(need: Need, ts: seq<Trace>) {
    forall i :: 0 <= i < |ts| ==> Allows(need, ts[i].need)
  }

  /** Analysis records the least need that covers the tree: every need that does allows it. */
  lemma {:induction false} TraceIsLeast(
    env: Env, bodies: BodyEnv, frames: seq<Binding>, names: seq<seq<string>>, locals: seq<map<string, LocalBinding>>,
    active: seq<FunctionKey>, e: Expr, depth: nat, need: Need)
    requires BindingsFit(locals)
    requires var o := Analyze(env, frames, names, active, e, depth); !o.tooDeep && !o.Cut()
    requires Covers(need, bodies.rules, Analyze(env, frames, names, active, e, depth).expr, PathsOf(locals))
    ensures Allows(need, Traces(env, bodies, frames, locals, active, e, depth).need)
    decreases Rank(env.cap, depth), |frames|, 2
  {
    hide Build, AnalyzeAll, AnalyzeFunction, TracesAll, FunctionTrace, NodeTrace, TraceFits, TracesFit, PathsOf, Tree,
      BindingsFit, Covers, CoversAll, Allows;
    if e.Ident? && InlineBinding(frames, e.name).Some? {
      TraceIsLeast(
        env, bodies, frames[..|frames| - 1], names, locals, active, InlineBinding(frames, e.name).value, depth, need);
    } else if Callee(env, active, e).Some? {
      FunctionTraceIsLeast(env, bodies, frames, names, locals, active, Callee(env, active, e).value, e, depth, need);
    } else {
      var kids := AnalyzeAll(env, frames, names, active, Children(e), depth + 1);
      var ts := TracesAll(env, bodies, frames, locals, active, Children(e), depth + 1);
      BuildParts(env, names, e, kids);
      TracesFollowTrees(env, bodies, frames, names, locals, active, Children(e), depth + 1);
      NodeCovered(need, env, bodies.rules, e, kids.exprs, PathsOf(locals));
      TracesAreLeast(env, bodies, frames, names, locals, active, Children(e), depth + 1, need);
      NodeTraceIsLeast(env, bodies, locals, e, ts, kids.exprs, need);
    }
  }

  lemma NodeCovered(
    need: Need, env: Env, rules: seq<Rule>, e: Expr, vs: seq<Verified>, paths: seq<map<string, Option<Path>>>)
    requires |vs| == |Children(e)| && Covers(need, rules, Tree(env, e, vs), paths)
    ensures var v := Tree(env, e, vs);
      && CoversPath(need, rules, Chain(v, paths)) && CoversNode(need, v, paths) && CoversAll(need, rules, vs, paths)
  {
    hide CoversPath, CoversNode, CoversAll, Chain, HostCall, TicketOf, UnaryCapability, BinaryCapability;
    MA.KidsOfTree(env, e, vs);
    assert !Tree(env, e, vs).VFunction?;
  }

  lemma {:induction false} FunctionTraceIsLeast(
    env: Env, bodies: BodyEnv, frames: seq<Binding>, names: seq<seq<string>>, locals: seq<map<string, LocalBinding>>,
    active: seq<FunctionKey>, f: Function, e: Expr, depth: nat, need: Need)
    requires BindingsFit(locals)
    requires depth <= env.cap && e.Call?
    requires var o := AnalyzeFunction(env, frames, names, active, f, e, depth); !o.tooDeep && !o.Cut()
    requires Covers(need, bodies.rules, AnalyzeFunction(env, frames, names, active, f, e, depth).expr, PathsOf(locals))
    ensures Allows(need, FunctionTrace(env, bodies, frames, locals, active, f, e, depth).need)
    decreases Rank(env.cap, depth), |frames|, 1
  {
    hide Analyze, AnalyzeAll, Traces, TracesAll, TraceFits, TracesFit, PathsOf, FrameBindings, BindingsFit, Covers,
      CoversAll, Allows, Merge, NeedAll;
    if env.mode == Inline {
      TraceIsLeast(
        env, bodies, frames + [Binding(f.params, e.args)], names, locals, active + [KeyOf(f)], f.body, depth + 1, need);
    } else {
      var args := TracesAll(env, bodies, frames, locals, active, e.args, depth + 1);
      var vs := AnalyzeAll(env, frames, names, active, e.args, depth + 1).exprs;
      var body := Analyze(env, frames, names + [f.params], active + [KeyOf(f)], f.body, depth + 1).expr;
      var frame, paths := FrameBindings(f.params, args), PathsOf(locals);
      TracesFollowTrees(env, bodies, frames, names, locals, active, e.args, depth + 1);
      PushBindings(bodies.rules, f.params, args, vs, locals);
      CallCovered(need, bodies.rules, f.name, f.params, vs, body, paths);
      FramePathsAre(bodies.rules, f.params, args, vs, paths);
      PathsOfPush(locals, frame);
      TracesAreLeast(env, bodies, frames, names, locals, active, e.args, depth + 1, need);
      TraceIsLeast(
        env, bodies, frames, names + [f.params], locals + [frame], active + [KeyOf(f)], f.body, depth + 1, need);
      NeedAllLeast(args, need);
      MergeLeast(need, NeedAll(args),
                 Traces(env, bodies, frames, locals + [frame], active + [KeyOf(f)], f.body, depth + 1).need);
    }
  }

  lemma CallCovered(
    need: Need, rules: seq<Rule>, name: string, params: seq<string>, vs: seq<Verified>, body: Verified,
    paths: seq<map<string, Option<Path>>>)
    requires Covers(need, rules, VFunction(name, params, vs, body), paths)
    ensures CoversAll(need, rules, vs, paths)
    ensures Covers(need, rules, body, paths + [ChainFrame(params, Chains(vs, paths))])
  {
    hide CoversAll, Chains, ChainFrame, CoversPath, CoversNode;
  }

  lemma {:induction false} TracesAreLeast(
    env: Env, bodies: BodyEnv, frames: seq<Binding>, names: seq<seq<string>>, locals: seq<map<string, LocalBinding>>,
    active: seq<FunctionKey>, es: seq<Expr>, depth: nat, need: Need)
    requires BindingsFit(locals)
    requires var o := AnalyzeAll(env, frames, names, active, es, depth); !o.tooDeep && !o.Cut()
    requires CoversAll(need, bodies.rules, AnalyzeAll(env, frames, names, active, es, depth).exprs, PathsOf(locals))
    ensures AllAllowed(need, TracesAll(env, bodies, frames, locals, active, es, depth))
    decreases Rank(env.cap, depth), |frames|, |es| + 3
  {
    hide Analyze, Traces, PathsOf, Covers, Allows, BindingsFit;
    if es != [] {
      TraceIsLeast(env, bodies, frames, names, locals, active, es[0], depth, need);
      TracesAreLeast(env, bodies, frames, names, locals, active, es[1..], depth, need);
      AllowedFirst(need, Traces(env, bodies, frames, locals, active, es[0], depth),
                   TracesAll(env, bodies, frames, locals, active, es[1..], depth));
    }
  }

  lemma AllowedFirst(need: Need, first: Trace, rest: seq<Trace>)
    requires Allows(need, first.need) && AllAllowed(need, rest)
    ensures AllAllowed(need, [first] + rest)
  {
    hide Allows;
  }

  /** What a node adds to its operands' needs is what covers the node itself. */
  lemma NodeTraceIsLeast(
    env: Env, bodies: BodyEnv, locals: seq<map<string, LocalBinding>>, e: Expr, ts: seq<Trace>, vs: seq<Verified>,
    need: Need)
    requires |ts| == |vs| == |Children(e)| && TracesFit(ts, bodies.rules, vs, PathsOf(locals))
    requires BindingsFit(locals)
    requires AllAllowed(need, ts)
    requires var v := Tree(env, e, vs);
      CoversPath(need, bodies.rules, Chain(v, PathsOf(locals))) && CoversNode(need, v, PathsOf(locals))
    ensures Allows(need, NodeTrace(env, bodies, locals, e, ts).need)
  {
    hide Covers, PathsOf, PathNeed, FieldNeed, MethodNeed, ConsumedAll, Allows, HostCall, TicketOf, UnaryCapability,
      BinaryCapability, TracesFit, RuleFor, CoversPath, CoversField, OriginAlong, CoversUses, Chains, BindingsFit;
    var paths := PathsOf(locals);
    NodeTraceFits(env, bodies, locals, e, ts, vs);
    var t := NodeTrace(env, bodies, locals, e, ts);
    MA.KidsOfTree(env, e, vs);
    if e.Ident? {
      NoNeedLeast(need);
      PathNeedLeast(need, NoNeed, bodies.rules, t.path);
    } else if e.Member? {
      FirstFits(bodies.rules, ts, vs, paths);
      FieldByPath(need, ts[0].path, e.name);
      FieldNeedLeast(need, ts[0].need, ts[0].origin, e.name);
      PathNeedLeast(need, FieldNeed(ts[0].need, ts[0].origin, e.name), bodies.rules, t.path);
    } else {
      OperandsAreLeast(need, bodies.rules, ts, vs, paths);
      ConsumedAllLeast(ts, need);
      if e.Method? { MethodNeedLeast(need, ConsumedAll(ts), env, bodies, e, ts[0]); }
    }
  }

  lemma OperandsAreLeast(
    need: Need, rules: seq<Rule>, ts: seq<Trace>, vs: seq<Verified>, paths: seq<map<string, Option<Path>>>)
    requires TracesFit(ts, rules, vs, paths) && CoversUses(need, Chains(vs, paths))
    ensures forall i :: 0 <= i < |ts| ==> OriginUse(need, ts[i].origin)
  {
    hide Covers, Chain, OriginAlong, CoversUse, OriginUse, Chains;
    forall i | 0 <= i < |ts| ensures OriginUse(need, ts[i].origin) {
      assert TraceFits(ts[i], rules, vs[i], paths);
      ChainsAt(vs, paths, i);
      assert CoversUse(need, Chains(vs, paths)[i]);
      UseByPath(need, ts[i].path);
    }
  }

  lemma NoNeedLeast(need: Need)
    ensures Allows(need, NoNeed)
  {
  }

  lemma MergeLeast(need: Need, a: Need, b: Need)
    requires Allows(need, a) && Allows(need, b)
    ensures Allows(need, Merge(a, b))
  {
  }

  lemma PathNeedLeast(need: Need, less: Need, rules: seq<Rule>, path: Option<Path>)
    requires Allows(need, less) && CoversPath(need, rules, path)
    ensures Allows(need, PathNeed(less, rules, path))
  {
    if path.Some? { RuleForFirst(rules, path.value); }
  }

  lemma FieldNeedLeast(need: Need, less: Need, origin: Option<Origin>, field: string)
    requires Allows(need, less) && Allows(need, FieldNeed(NoNeed, origin, field))
    ensures Allows(need, FieldNeed(less, origin, field))
  {
  }

  lemma MethodNeedLeast(need: Need, less: Need, env: Env, bodies: BodyEnv, e: Expr, receiver: Trace)
    requires e.Method? && Allows(need, less) && OriginUse(need, receiver.origin)
    ensures Allows(need, MethodNeed(less, env, bodies, e, receiver))
  {
    hide HostCall;
  }

  lemma {:induction false} NeedAllLeast(ts: seq<Trace>, need: Need)
    requires AllAllowed(need, ts)
    ensures Allows(need, NeedAll(ts))
    decreases |ts|
  {
    hide Allows, Merge;
    if ts == [] {
      NoNeedLeast(need);
    } else {
      NeedAllLeast(ts[1..], need);
      MergeLeast(need, ts[0].need, NeedAll(ts[1..]));
    }
  }

  lemma ConsumedLeast(need: Need, less: Need, origin: Option<Origin>)
    requires Allows(need, less) && OriginUse(need, origin)
    ensures Allows(need, Consumed(less, origin))
  {
  }

  lemma {:induction false} ConsumedAllLeast(ts: seq<Trace>, need: Need)
    requires AllAllowed(need, ts)
    requires forall i :: 0 <= i < |ts| ==> OriginUse(need, ts[i].origin)
    ensures Allows(need, ConsumedAll(ts))
    decreases |ts|
  {
    hide Allows, Merge, Consumed, OriginUse;
    if ts == [] {
      NoNeedLeast(need);
    } else {
      ConsumedAllLeast(ts[1..], need);
      ConsumedLeast(need, ts[0].need, ts[0].origin);
      MergeLeast(need, Consumed(ts[0].need, ts[0].origin), ConsumedAll(ts[1..]));
    }
  }

  // ----- the whole property -----

  /** The body need of a whole program: its result leaves the program, so it counts as used. */
  function ProgramNeed(env: Env, bodies: BodyEnv, e: Expr): Need {
    var t := Traces(env, bodies, [], [], [], e, 0);
    Consumed(t.need, t.origin)
  }

  /** The path recorded for an accepted expression is the chain evaluation follows from the context. */
  lemma PathIsRead(env: Env, bodies: BodyEnv, e: Expr, rt: E.Runtime, b: E.Budget, depth: nat, steps: nat, bytes: nat)
    requires Accepted(Analyze(env, [], [], [], e, 0))
    ensures var path := Traces(env, bodies, [], [], [], e, 0).path;
      var o := E.Eval(rt, b, Analyze(env, [], [], [], e, 0).expr, [], depth, steps, bytes);
      path.Some? && o.Done? ==> Follow(rt, path.value) == Some(o.value)
  {
    hide Covers, Follow, Analyze, Traces, Chain, E.Eval, Means;
    var v, t := Analyze(env, [], [], [], e, 0).expr, Traces(env, bodies, [], [], [], e, 0);
    TraceFollowsTree(env, bodies, [], [], [], [], e, 0);
    EvalReflects(rt, b, v, [], depth, steps, bytes);
    if t.path.Some? && E.Eval(rt, b, v, [], depth, steps, bytes).Done? { ChainIsRead(rt, b, v, [], []); }
  }

  /** Whatever body limit a profile sets, the need of a program is within it exactly when the program
      reads and uses body data only within it: every chain its tree can read, every field and every use
      of such a chain, and its result. */
  lemma BodyLimitExactly(env: Env, bodies: BodyEnv, e: Expr, limit: Need)
    requires Accepted(Analyze(env, [], [], [], e, 0))
    ensures var v := Analyze(env, [], [], [], e, 0).expr;
      Allows(limit, ProgramNeed(env, bodies, e)) <==>
        Covers(limit, bodies.rules, v, []) && CoversUse(limit, Chain(v, []))
  {
    hide Covers, Analyze, Traces, Chain, OriginAlong, Consumed, Allows, CoversUse, OriginUse;
    var v, t := Analyze(env, [], [], [], e, 0).expr, Traces(env, bodies, [], [], [], e, 0);
    TraceFollowsTree(env, bodies, [], [], [], [], e, 0);
    UseByPath(limit, Chain(v, []));
    if Allows(limit, ProgramNeed(env, bodies, e)) {
      ConsumedAllows(t.need, t.origin);
      AllowsChain(limit, ProgramNeed(env, bodies, e), t.need);
      CoversMore(t.need, limit, bodies.rules, v, []);
      ConsumedUses(t.need, t.origin);
      UseMore(ProgramNeed(env, bodies, e), limit, t.origin);
    }
    if Covers(limit, bodies.rules, v, []) && CoversUse(limit, Chain(v, [])) {
      TraceIsLeast(env, bodies, [], [], [], [], e, 0, limit);
      ConsumedLeast(limit, t.need, t.origin);
    }
  }
}
