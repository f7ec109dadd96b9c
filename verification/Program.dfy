/** Schemas, expression functions and the verified tree that semantic analysis produces. */
module Program {
  import opened Tokens
  import opened Syntax

  datatype Scope = GlobalScope | LocalScope

  datatype Function = Function(name: string, params: seq<string>, body: Expr, scope: Scope)

  datatype FunctionKey = FunctionKey(scope: Scope, name: string)

  function KeyOf(f: Function): FunctionKey { FunctionKey(f.scope, f.name) }

  datatype CapabilityKind = FunctionCap | MethodCap | UnaryCap | BinaryCap

  /** The identity a call site is bound to. */
  datatype Ticket = Ticket(kind: CapabilityKind, name: string, arity: nat)

  /** A capability: its identity, its cost, and `details` for everything else that is compared. */
  datatype Capability = Capability(ticket: Ticket, cost: nat, details: int)

  datatype Schema = Schema(
    variables: set<string>,
    functions: map<string, map<nat, Capability>>,
    methods: map<string, map<nat, Capability>>,
    unaryOps: map<UnaryOp, Capability>,
    binaryOps: map<BinaryOp, Capability>,
    globals: map<string, Function>,
    locals: map<string, Function>)

  /** `validate_integrity`: every map key is the identity embedded in its value. */
  predicate SchemaIntegrity(s: Schema) {
    && (forall name, arity | name in s.functions && arity in s.functions[name] ::
          s.functions[name][arity].ticket == Ticket(FunctionCap, name, arity))
    && (forall name, arity | name in s.methods && arity in s.methods[name] ::
          s.methods[name][arity].ticket == Ticket(MethodCap, name, arity))
    && (forall op | op in s.unaryOps :: s.unaryOps[op].ticket == Ticket(UnaryCap, UnaryText(op), 1))
    && (forall op | op in s.binaryOps :: s.binaryOps[op].ticket == Ticket(BinaryCap, BinaryText(op), 2))
    && (forall name | name in s.globals :: s.globals[name].name == name && s.globals[name].scope == GlobalScope)
    && (forall name | name in s.locals :: s.locals[name].name == name && s.locals[name].scope == LocalScope)
  }

  function FunctionForScope(s: Schema, name: string, scope: Scope): Option<Function> {
    if scope == LocalScope && name in s.locals then Some(s.locals[name])
    else if name in s.globals then Some(s.globals[name])
    else None
  }

  datatype SignatureMatch = Unknown | ArityMismatch | Matches(capability: Capability)

  function SignatureAccepts(signatures: map<string, map<nat, Capability>>, name: string, arity: nat): SignatureMatch {
    if name !in signatures then Unknown
    else if arity in signatures[name] then Matches(signatures[name][arity])
    else ArityMismatch
  }

  function UnaryCapability(s: Schema, op: UnaryOp): Capability {
    if op in s.unaryOps then s.unaryOps[op] else Capability(Ticket(UnaryCap, UnaryText(op), 1), 1, 0)
  }

  function BinaryCapability(s: Schema, op: BinaryOp): Capability {
    if op in s.binaryOps then s.binaryOps[op] else Capability(Ticket(BinaryCap, BinaryText(op), 2), 1, 0)
  }

  // ----- the verified tree -----

  datatype Verified =
    | VNull
    | VBool(flag: bool)
    | VInt(number: int)
    | VFloat(bits: FloatBits)
    | VStr(text: string)
    | VArray(items: seq<Verified>)
    | VIdent(name: string)
    | VMember(receiver: Verified, name: string)
    | VCall(name: string, args: seq<Verified>, ticket: Option<Ticket>)
    | VFunction(name: string, params: seq<string>, args: seq<Verified>, body: Verified)
    | VMethod(receiver: Verified, name: string, args: seq<Verified>, ticket: Option<Ticket>)
    | VUnary(uop: UnaryOp, operand: Verified, ticket: Option<Ticket>)
    | VBinary(left: Verified, op: BinaryOp, right: Verified, ticket: Option<Ticket>)

  function Size(v: Verified): (n: nat)
    ensures n >= 1
    decreases v, 1
  {
    match v
    case VArray(items) => 1 + SizeAll(items)
    case VMember(receiver, _) => 1 + Size(receiver)
    case VCall(_, args, _) => 1 + SizeAll(args)
    case VFunction(_, _, args, body) => 1 + SizeAll(args) + Size(body)
    case VMethod(receiver, _, args, _) => 1 + Size(receiver) + SizeAll(args)
    case VUnary(_, operand, _) => 1 + Size(operand)
    case VBinary(left, _, right, _) => 1 + Size(left) + Size(right)
    case _ => 1
  }

  function SizeAll(vs: seq<Verified>): nat
    decreases vs, 0
  {
    if vs == [] then 0 else Size(vs[0]) + SizeAll(vs[1..])
  }

  /** Levels below the root. */
  function Height(v: Verified): nat
    decreases v, 1
  {
    match v
    case VArray(items) => HeightAll(items)
    case VMember(receiver, _) => 1 + Height(receiver)
    case VCall(_, args, _) => HeightAll(args)
    case VFunction(_, _, args, body) => Max(HeightAll(args), 1 + Height(body))
    case VMethod(receiver, _, args, _) => Max(1 + Height(receiver), HeightAll(args))
    case VUnary(_, operand, _) => 1 + Height(operand)
    case VBinary(left, _, right, _) => 1 + Max(Height(left), Height(right))
    case _ => 0
  }

  /** Levels from a parent down to the deepest of these children. */
  function HeightAll(vs: seq<Verified>): nat
    decreases vs, 0
  {
    if vs == [] then 0 else Max(1 + Height(vs[0]), HeightAll(vs[1..]))
  }
}
