/** Rendering a `when` expression: placeholders are replaced inside string literals only, so whatever
    the variables hold, the rendered text parses to the same tree with other strings. */
module RenderWhen {
  import opened Text
  import opened Tokens
  import opened Syntax
  import opened Grammar
  import opened Canonical
  import opened Printed
  import opened RoundTrip
  import opened Format
  import opened Formatter
  import opened Template
  import opened Markers
  import Spanned

  /** What a string leaf becomes. */
  function RenderedText(text: string, vars: Variables): string {
    if Measurable(text, vars) then Fill(Pieces(text).value, vars) else text
  }

  /** The tree with every string leaf replaced by its rendered text. */
  function MapStrings(e: Expr, vars: Variables): (r: Expr)
    ensures Precedence(r) == Precedence(e)
    decreases e, 1
  {
    match e
    case Str(text) => Str(RenderedText(text, vars))
    case Array(items) => Array(MapStringsAll(items, vars))
    case Member(receiver, name) => Member(MapStrings(receiver, vars), name)
    case Call(name, args) => Call(name, MapStringsAll(args, vars))
    case Method(receiver, name, args) => Method(MapStrings(receiver, vars), name, MapStringsAll(args, vars))
    case Unary(uop, operand) => Unary(uop, MapStrings(operand, vars))
    case Binary(left, op, right) => Binary(MapStrings(left, vars), op, MapStrings(right, vars))
    case _ => e
  }

  function MapStringsAll(es: seq<Expr>, vars: Variables): (r: seq<Expr>)
    ensures |r| == |es|
    decreases es, 0
  {
    if es == [] then [] else [MapStrings(es[0], vars)] + MapStringsAll(es[1..], vars)
  }

  /** The tree with every string leaf emptied: its syntax. */
  function Shape(e: Expr): Expr
    decreases e, 1
  {
    match e
    case Str(_) => Str("")
    case Array(items) => Array(ShapeAll(items))
    case Member(receiver, name) => Member(Shape(receiver), name)
    case Call(name, args) => Call(name, ShapeAll(args))
    case Method(receiver, name, args) => Method(Shape(receiver), name, ShapeAll(args))
    case Unary(uop, operand) => Unary(uop, Shape(operand))
    case Binary(left, op, right) => Binary(Shape(left), op, Shape(right))
    case _ => e
  }

  function ShapeAll(es: seq<Expr>): (r: seq<Expr>)
    ensures |r| == |es|
    decreases es, 0
  {
    if es == [] then [] else [Shape(es[0])] + ShapeAll(es[1..])
  }

  // ----- substitution keeps everything but the strings -----

  lemma MapStringsAllParts(es: seq<Expr>, vars: Variables)
    requires es != []
    ensures MapStringsAll(es, vars) != []
    ensures MapStringsAll(es, vars)[0] == MapStrings(es[0], vars) && MapStringsAll(es, vars)[1..] == MapStringsAll(es[1..], vars)
  {
  }

  lemma {:induction false} SameShape(e: Expr, vars: Variables)
    ensures Shape(MapStrings(e, vars)) == Shape(e)
    decreases e, 1
  {
    hide ShapeAll, MapStringsAll, RenderedText, Precedence;
    match e
    case Array(items) => SameShapeAll(items, vars);
    case Member(receiver, _) => SameShape(receiver, vars);
    case Call(_, args) => SameShapeAll(args, vars);
    case Method(receiver, _, args) =>
      SameShape(receiver, vars);
      SameShapeAll(args, vars);
    case Unary(_, operand) => SameShape(operand, vars);
    case Binary(left, _, right) =>
      SameShape(left, vars);
      SameShape(right, vars);
    case _ =>
  }

  lemma {:induction false} SameShapeAll(es: seq<Expr>, vars: Variables)
    ensures ShapeAll(MapStringsAll(es, vars)) == ShapeAll(es)
    decreases es, 0
  {
    if es != [] {
      MapStringsAllParts(es, vars);
      SameShape(es[0], vars);
      SameShapeAll(es[1..], vars);
    }
  }

  /** Everything the budgets measure except bytes is a matter of shape. */
  lemma {:induction false} ShapeMeasures(e: Expr, limit: nat)
    ensures Nodes(Shape(e)) == Nodes(e) && SerialDepth(Shape(e)) == SerialDepth(e)
    ensures WidthsWithin(Shape(e), limit) <==> WidthsWithin(e, limit)
    decreases e, 1
  {
    hide NodesAll, SerialDepthAll, WidthsWithinAll, ShapeAll;
    match e
    case Array(items) => ShapeMeasuresAll(items, limit);
    case Member(receiver, _) => ShapeMeasures(receiver, limit);
    case Call(_, args) => ShapeMeasuresAll(args, limit);
    case Method(receiver, _, args) =>
      ShapeMeasures(receiver, limit);
      ShapeMeasuresAll(args, limit);
    case Unary(_, operand) => ShapeMeasures(operand, limit);
    case Binary(left, _, right) =>
      ShapeMeasures(left, limit);
      ShapeMeasures(right, limit);
    case _ =>
  }

  lemma {:induction false} ShapeMeasuresAll(es: seq<Expr>, limit: nat)
    ensures NodesAll(ShapeAll(es)) == NodesAll(es) && SerialDepthAll(ShapeAll(es)) == SerialDepthAll(es)
    ensures WidthsWithinAll(ShapeAll(es), limit) <==> WidthsWithinAll(es, limit)
    decreases es, 0
  {
    hide Nodes, SerialDepth, WidthsWithin, Shape;
    if es != [] {
      assert ShapeAll(es)[0] == Shape(es[0]) && ShapeAll(es)[1..] == ShapeAll(es[1..]);
      ShapeMeasures(es[0], limit);
      ShapeMeasuresAll(es[1..], limit);
    }
  }

  /** So is everything the printer requires. */
  lemma {:induction false} ShapePrints(codec: FloatCodec, e: Expr)
    ensures NamesValid(Shape(e)) <==> NamesValid(e)
    ensures ValuesReadable(codec, Shape(e)) <==> ValuesReadable(codec, e)
    decreases e, 1
  {
    hide NamesValidAll, ValuesReadableAll, ShapeAll, IsValidName, Readable;
    match e
    case Array(items) => ShapePrintsAll(codec, items);
    case Member(receiver, _) => ShapePrints(codec, receiver);
    case Call(_, args) => ShapePrintsAll(codec, args);
    case Method(receiver, _, args) =>
      ShapePrints(codec, receiver);
      ShapePrintsAll(codec, args);
    case Unary(_, operand) => ShapePrints(codec, operand);
    case Binary(left, _, right) =>
      ShapePrints(codec, left);
      ShapePrints(codec, right);
    case _ =>
  }

  lemma {:induction false} ShapePrintsAll(codec: FloatCodec, es: seq<Expr>)
    ensures NamesValidAll(ShapeAll(es)) <==> NamesValidAll(es)
    ensures ValuesReadableAll(codec, ShapeAll(es)) <==> ValuesReadableAll(codec, es)
    decreases es, 0
  {
    hide NamesValid, ValuesReadable, Shape;
    if es != [] {
      assert ShapeAll(es)[0] == Shape(es[0]) && ShapeAll(es)[1..] == ShapeAll(es[1..]);
      ShapePrints(codec, es[0]);
      ShapePrintsAll(codec, es[1..]);
    }
  }

  lemma {:induction false} ShapeTokens(e: Expr)
    ensures |Spell(Canon(Shape(e)))| == |Spell(Canon(e))|
    decreases e, 2
  {
    hide Spell, SpellAll, CanonAt, CanonAll, ShapeAll;
    SpellSize(Canon(e));
    SpellSize(Canon(Shape(e)));
    match e
    case Array(items) => ShapeTokensAll(items);
    case Member(receiver, _) => ShapeTokensAt(receiver, 8, AsReceiver);
    case Call(_, args) => ShapeTokensAll(args);
    case Method(receiver, name, args) =>
      ShapeTokensAt(receiver, 8, AsReceiver);
      ShapeTokensAll(args);
    case Unary(_, operand) => ShapeTokensAt(operand, 7, UnderPrefix);
    case Binary(left, op, right) =>
      ShapeTokensAt(left, BinaryPrecedence(op), LeftOf);
      ShapeTokensAt(right, BinaryPrecedence(op), RightOf);
    case _ =>
  }

  lemma ShapePrecedence(e: Expr)
    ensures Precedence(Shape(e)) == Precedence(e)
  {
  }

  lemma {:induction false} ShapeTokensAt(e: Expr, parent: nat, side: Side)
    ensures |Spell(CanonAt(Shape(e), parent, side))| == |Spell(CanonAt(e, parent, side))|
    decreases e, 3
  {
    hide Canon, Shape;
    ShapePrecedence(e);
    SpellSize(CanonAt(Shape(e), parent, side));
    SpellSize(CanonAt(e, parent, side));
    ShapeTokens(e);
  }

  lemma {:induction false} ShapeTokensAll(es: seq<Expr>)
    ensures |SpellAll(CanonAll(ShapeAll(es)))| == |SpellAll(CanonAll(es))|
    decreases es, 1
  {
    if es != [] {
      assert ShapeAll(es)[0] == Shape(es[0]) && ShapeAll(es)[1..] == ShapeAll(es[1..]);
      assert CanonAll(es)[0] == Canon(es[0]) && CanonAll(es)[1..] == CanonAll(es[1..]);
      var ds := CanonAll(ShapeAll(es));
      assert ds[0] == Canon(Shape(es[0])) && ds[1..] == CanonAll(ShapeAll(es[1..]));
      ShapeTokens(es[0]);
      ShapeTokensAll(es[1..]);
    }
  }

  // ----- the rendered text always reparses -----

  /** The parser limits used for `when` text: defaults, with one bound on source and scalar bytes. */
  function WhenLimits(bytes: nat): ParseLimits { ParseLimits(bytes, bytes, 262144, 1024, 65536, 65536) }

  function WhenFormat(bytes: nat): FormatLimits { FormatLimits(127, 65536, bytes) }

  predicate Parses(codec: FloatCodec, raw: string, bytes: nat) {
    ParseExpression(codec, raw, ParseLimits(bytes, bytes, 262_144, 1_024, 65_536, 65_536)).Accepted?
  }

  function ParsedExpr(codec: FloatCodec, raw: string, bytes: nat): Expr
    requires Parses(codec, raw, bytes)
  {
    Spanned.Strip(ParseExpression(codec, raw, WhenLimits(bytes)).ast)
  }

  /** What a parse says about its AST: all the format limits except output bytes hold, and the
      canonical tokens fit. */
  lemma ParsedFacts(codec: FloatCodec, raw: string, bytes: nat)
    requires CodecValid(codec) && Parses(codec, raw, bytes)
    ensures var e := ParsedExpr(codec, raw, bytes);
      && NamesValid(e) && ValuesReadable(codec, e)
      && Nodes(e) <= 65536 && SerialDepth(e) <= MAX_AST_SERIALIZED_DEPTH && WidthsWithin(e, 65536)
      && |Spell(Canon(e))| + 1 <= 262144
  {
    hide Spell, Fits, NamesValid, ValuesReadable, WidthsWithin, Nodes, SerialDepth, Canon, ScalarSum;
    var limits := WhenLimits(bytes);
    var c := AcceptedDerives(codec, raw, limits);
    LexedBudgets(codec, raw, limits, c);
    CanonNeedsNoMore(c, limits);
  }

  /** Those facts survive substitution. */
  lemma SubstitutedFacts(codec: FloatCodec, e: Expr, vars: Variables)
    requires NamesValid(e) && ValuesReadable(codec, e)
    requires Nodes(e) <= 65536 && SerialDepth(e) <= MAX_AST_SERIALIZED_DEPTH && WidthsWithin(e, 65536)
    requires |Spell(Canon(e))| + 1 <= 262144
    ensures var r := MapStrings(e, vars);
      && NamesValid(r) && ValuesReadable(codec, r)
      && Nodes(r) <= 65536 && SerialDepth(r) <= MAX_AST_SERIALIZED_DEPTH && WidthsWithin(r, 65536)
      && |Spell(Canon(r))| + 1 <= 262144
  {
    hide *;
    var r := MapStrings(e, vars);
    SameShape(e, vars);
    ShapeMeasures(e, 65536);
    ShapeMeasures(r, 65536);
    ShapePrints(codec, e);
    ShapePrints(codec, r);
    ShapeTokens(e);
    ShapeTokens(r);
  }

  /** Whatever the template and the variables: the substituted tree can be written unless its text is
      too long, and its text then parses to exactly that tree, whose syntax is the template's. */
  lemma SubstitutionKeepsSyntax(codec: FloatCodec, raw: string, vars: Variables, inBytes: nat, outBytes: nat)
    requires CodecValid(codec) && Parses(codec, raw, inBytes)
    ensures var e := ParsedExpr(codec, raw, inBytes); var r := MapStrings(e, vars);
      && Shape(r) == Shape(e)
      && (Formattable(codec, r, WhenFormat(outBytes)) <==> Bytes(Print(codec, r)) <= outBytes)
      && (Bytes(Print(codec, r)) <= outBytes ==>
            Parses(codec, Print(codec, r), outBytes) && ParsedExpr(codec, Print(codec, r), outBytes) == r)
  {
    hide Spell, Fits, NamesValid, ValuesReadable, FloatsFinite, WidthsWithin, Nodes, SerialDepth, Depth, Canon;
    hide ScalarSum, Nest, ParseExpression, Print, Shape, MapStrings, CodecValid;
    var e := ParsedExpr(codec, raw, inBytes);
    var r := MapStrings(e, vars);
    SameShape(e, vars);
    ParsedFacts(codec, raw, inBytes);
    SubstitutedFacts(codec, e, vars);
    DepthBelowSerialDepth(r);
    ReadableFinite(codec, r);
    if Bytes(Print(codec, r)) <= outBytes {
      Scalars(codec, r);
      CanonFits(r);
      CanonNest(r);
      PrintedDerivation(codec, r, WhenLimits(outBytes));
    }
  }

  /** The tokens of a canonical text never charge more scalars than the text has bytes. */
  lemma Scalars(codec: FloatCodec, e: Expr)
    requires NamesValid(e)
    ensures ScalarSum(Spell(Canon(e))) <= Bytes(Print(codec, e))
  {
    hide Spell, NamesValid, Canon, ScalarSum, Then, LexedScalars;
    CanonFits(e);
    SpellScalars(Canon(e));
    ScalarsWritten(codec, e, "");
  }

  // ----- rendering the strings in place -----

  /** String leaves, left to right. */
  function Strings(e: Expr): seq<string>
    decreases e, 1
  {
    match e
    case Str(text) => [text]
    case Array(items) => StringsAll(items)
    case Member(receiver, _) => Strings(receiver)
    case Call(_, args) => StringsAll(args)
    case Method(receiver, _, args) => Strings(receiver) + StringsAll(args)
    case Unary(_, operand) => Strings(operand)
    case Binary(left, _, right) => Strings(left) + Strings(right)
    case _ => []
  }

  function StringsAll(es: seq<Expr>): seq<string>
    decreases es, 0
  {
    if es == [] then [] else Strings(es[0]) + StringsAll(es[1..])
  }

  // ----- what substitution is -----

  function RenderedTexts(texts: seq<string>, vars: Variables): (r: seq<string>)
    ensures |r| == |texts|
  {
    seq(|texts|, i requires 0 <= i < |texts| => RenderedText(texts[i], vars))
  }

  lemma TextsJoin(a: seq<string>, b: seq<string>, vars: Variables)
    ensures RenderedTexts(a + b, vars) == RenderedTexts(a, vars) + RenderedTexts(b, vars)
  {
  }

  lemma {:induction false} LeavesRendered(e: Expr, vars: Variables)
    ensures Strings(MapStrings(e, vars)) == RenderedTexts(Strings(e), vars)
    decreases e, 1
  {
    hide StringsAll, MapStringsAll, RenderedText, Precedence;
    match e
    case Array(items) => LeavesRenderedAll(items, vars);
    case Member(receiver, _) => LeavesRendered(receiver, vars);
    case Call(_, args) => LeavesRenderedAll(args, vars);
    case Method(receiver, _, args) =>
      LeavesRendered(receiver, vars);
      LeavesRenderedAll(args, vars);
      TextsJoin(Strings(receiver), StringsAll(args), vars);
    case Unary(_, operand) => LeavesRendered(operand, vars);
    case Binary(left, _, right) =>
      LeavesRendered(left, vars);
      LeavesRendered(right, vars);
      TextsJoin(Strings(left), Strings(right), vars);
    case _ =>
  }

  lemma {:induction false} LeavesRenderedAll(es: seq<Expr>, vars: Variables)
    ensures StringsAll(MapStringsAll(es, vars)) == RenderedTexts(StringsAll(es), vars)
    decreases es, 0
  {
    hide Strings, MapStrings, RenderedText;
    if es != [] {
      MapStringsAllParts(es, vars);
      LeavesRendered(es[0], vars);
      LeavesRenderedAll(es[1..], vars);
      TextsJoin(Strings(es[0]), StringsAll(es[1..]), vars);
    }
  }

  lemma {:induction false} StringsByShape(e: Expr)
    ensures |Strings(Shape(e))| == |Strings(e)|
    decreases e, 1
  {
    hide StringsAll, ShapeAll;
    match e
    case Array(items) => StringsByShapeAll(items);
    case Member(receiver, _) => StringsByShape(receiver);
    case Call(_, args) => StringsByShapeAll(args);
    case Method(receiver, _, args) =>
      StringsByShape(receiver);
      StringsByShapeAll(args);
    case Unary(_, operand) => StringsByShape(operand);
    case Binary(left, _, right) =>
      StringsByShape(left);
      StringsByShape(right);
    case _ =>
  }

  lemma {:induction false} StringsByShapeAll(es: seq<Expr>)
    ensures |StringsAll(ShapeAll(es))| == |StringsAll(es)|
    decreases es, 0
  {
    hide Strings, Shape;
    if es != [] {
      assert ShapeAll(es)[0] == Shape(es[0]) && ShapeAll(es)[1..] == ShapeAll(es[1..]);
      StringsByShape(es[0]);
      StringsByShapeAll(es[1..]);
    }
  }

  lemma SplitAt(a: seq<string>, b: seq<string>, c: seq<string>, d: seq<string>)
    requires a + b == c + d && |a| == |c|
    ensures a == c && b == d
  {
    assert a == (a + b)[..|a|] && b == (a + b)[|a|..];
  }

  /** A tree is its syntax and its strings. */
  lemma {:induction false} ShapeAndStrings(e: Expr, f: Expr)
    requires Shape(e) == Shape(f) && Strings(e) == Strings(f)
    ensures e == f
    decreases e, 1
  {
    hide StringsAll, ShapeAll;
    match e
    case Str(text) => assert Strings(e)[0] == Strings(f)[0];
    case Array(items) => ShapesAndStrings(items, f.items);
    case Member(receiver, _) => ShapeAndStrings(receiver, f.receiver);
    case Call(_, args) => ShapesAndStrings(args, f.args);
    case Method(receiver, _, args) =>
      StringsByShape(receiver);
      StringsByShape(f.receiver);
      SplitAt(Strings(receiver), StringsAll(args), Strings(f.receiver), StringsAll(f.args));
      ShapeAndStrings(receiver, f.receiver);
      ShapesAndStrings(args, f.args);
    case Unary(_, operand) => ShapeAndStrings(operand, f.operand);
    case Binary(left, _, right) =>
      StringsByShape(left);
      StringsByShape(f.left);
      SplitAt(Strings(left), Strings(right), Strings(f.left), Strings(f.right));
      ShapeAndStrings(left, f.left);
      ShapeAndStrings(right, f.right);
    case _ =>
  }

  lemma {:induction false} ShapesAndStrings(es: seq<Expr>, fs: seq<Expr>)
    requires ShapeAll(es) == ShapeAll(fs) && StringsAll(es) == StringsAll(fs)
    ensures es == fs
    decreases es, 0
  {
    hide Strings, Shape;
    if es != [] {
      assert ShapeAll(es)[0] == Shape(es[0]) && ShapeAll(es)[1..] == ShapeAll(es[1..]);
      assert ShapeAll(fs)[0] == Shape(fs[0]) && ShapeAll(fs)[1..] == ShapeAll(fs[1..]);
      StringsByShape(es[0]);
      StringsByShape(fs[0]);
      SplitAt(Strings(es[0]), StringsAll(es[1..]), Strings(fs[0]), StringsAll(fs[1..]));
      ShapeAndStrings(es[0], fs[0]);
      ShapesAndStrings(es[1..], fs[1..]);
      assert es == [es[0]] + es[1..] && fs == [fs[0]] + fs[1..];
    }
  }

  /** The rendered tree is the one tree of the same syntax whose strings, in order, are the rendered ones. */
  lemma OnlyStringsChange(e: Expr, vars: Variables, f: Expr)
    ensures f == MapStrings(e, vars) <==> Shape(f) == Shape(e) && Strings(f) == RenderedTexts(Strings(e), vars)
  {
    hide Shape, Strings, MapStrings, RenderedTexts;
    SameShape(e, vars);
    LeavesRendered(e, vars);
    if Shape(f) == Shape(e) && Strings(f) == RenderedTexts(Strings(e), vars) {
      ShapeAndStrings(f, MapStrings(e, vars));
    }
  }

  function SlotSum(texts: seq<string>): nat {
    if texts == [] then 0
    else (if Pieces(texts[0]).Some? then Slots(Pieces(texts[0]).value) else 0) + SlotSum(texts[1..])
  }

  function ByteSum(texts: seq<string>, vars: Variables): nat {
    if texts == [] then 0 else Bytes(RenderedText(texts[0], vars)) + ByteSum(texts[1..], vars)
  }

  predicate AllMeasurable(texts: seq<string>, vars: Variables) {
    texts == [] || (Measurable(texts[0], vars) && AllMeasurable(texts[1..], vars))
  }

  /** Budgets left for rendering strings. */
  datatype Budget = Budget(placeholders: nat, renderWork: nat, maxPlaceholders: nat, maxBytes: nat)

  function BudgetOf(meter: RenderMeter): Budget
    reads meter
  {
    Budget(meter.placeholders, meter.renderWork, meter.maxPlaceholders, meter.maxTotalOutputBytes)
  }

  predicate Within(b: Budget) { b.placeholders <= b.maxPlaceholders && b.renderWork <= b.maxBytes }

  function Charged(b: Budget, texts: seq<string>, vars: Variables): Budget {
    b.(placeholders := b.placeholders + SlotSum(texts), renderWork := b.renderWork + ByteSum(texts, vars))
  }

  /** Every text is a renderable template and the budgets hold to the end. */
  predicate Affordable(b: Budget, texts: seq<string>, vars: Variables) {
    AllMeasurable(texts, vars) && Within(Charged(b, texts, vars))
  }

  lemma {:induction false} SumsAppend(a: seq<string>, b: seq<string>, vars: Variables)
    ensures SlotSum(a + b) == SlotSum(a) + SlotSum(b)
    ensures ByteSum(a + b, vars) == ByteSum(a, vars) + ByteSum(b, vars)
    ensures AllMeasurable(a + b, vars) <==> AllMeasurable(a, vars) && AllMeasurable(b, vars)
  {
    if a == [] {
      assert a + b == b;
    } else {
      assert (a + b)[1..] == a[1..] + b;
      SumsAppend(a[1..], b, vars);
    }
  }

  lemma AffordableAppend(budget: Budget, a: seq<string>, b: seq<string>, vars: Variables)
    ensures Affordable(budget, a + b, vars) <==>
      Affordable(budget, a, vars) && Affordable(Charged(budget, a, vars), b, vars)
    ensures Charged(budget, a + b, vars) == Charged(Charged(budget, a, vars), b, vars)
  {
    SumsAppend(a, b, vars);
  }

  lemma AffordableOne(budget: Budget, text: string, vars: Variables)
    ensures Affordable(budget, [text], vars) <==>
      && Measurable(text, vars)
      && budget.placeholders + Slots(Pieces(text).value) <= budget.maxPlaceholders
      && budget.renderWork + Bytes(Fill(Pieces(text).value, vars)) <= budget.maxBytes
    ensures Measurable(text, vars) ==>
      Charged(budget, [text], vars) == budget.(
        placeholders := budget.placeholders + Slots(Pieces(text).value),
        renderWork := budget.renderWork + Bytes(Fill(Pieces(text).value, vars)))
  {
    assert [text][1..] == [];
    assert SlotSum([]) == 0 && ByteSum([], vars) == 0 && AllMeasurable([], vars);
    assert AllMeasurable([text], vars) <==> Measurable(text, vars);
  }

  /** Renders every string leaf in order, charging the meter for each. */
  method RenderAstStrings(e: Expr, vars: Variables, declared: set<string>, meter: RenderMeter)
    returns (r: Result<Expr>)
    requires Within(BudgetOf(meter))
    modifies meter
    ensures r.Ok? <==> Affordable(old(BudgetOf(meter)), Strings(e), vars)
    ensures r.Ok? ==> r.value == MapStrings(e, vars)
    ensures r.Ok? ==> BudgetOf(meter) == Charged(old(BudgetOf(meter)), Strings(e), vars)
    ensures r.Err? ==> IsTemplateError(r.error)
    decreases e, 1
  {
    hide Measurable, Pieces, Fill, Slots, Within, Affordable, Charged;
    ghost var before := BudgetOf(meter);
    if e.Str? {
      AffordableOne(before, e.text, vars);
      r := RenderLeaf(e.text, vars, declared, meter);
    } else if e.Array? {
      var items := RenderItems(e.items, vars, declared, meter);
      r := if items.Ok? then Ok(Array(items.value)) else Err(items.error);
    } else if e.Call? {
      var args := RenderItems(e.args, vars, declared, meter);
      r := if args.Ok? then Ok(Call(e.name, args.value)) else Err(args.error);
    } else if e.Member? {
      r := RenderAstStrings(e.receiver, vars, declared, meter);
      if r.Ok? { r := Ok(Member(r.value, e.name)); }
    } else if e.Unary? {
      r := RenderAstStrings(e.operand, vars, declared, meter);
      if r.Ok? { r := Ok(Unary(e.uop, r.value)); }
    } else if e.Method? {
      r := RenderMethod(e, vars, declared, meter);
    } else if e.Binary? {
      r := RenderBinary(e, vars, declared, meter);
    } else {
      NoStrings(before, vars);
      r := Ok(e);
    }
  }

  lemma NoStrings(budget: Budget, vars: Variables)
    ensures Affordable(budget, [], vars) <==> Within(budget)
    ensures Charged(budget, [], vars) == budget
  {
  }

  lemma AffordableWithin(budget: Budget, texts: seq<string>, vars: Variables)
    requires Affordable(budget, texts, vars)
    ensures Within(Charged(budget, texts, vars))
  {
  }

  method RenderLeaf(text: string, vars: Variables, declared: set<string>, meter: RenderMeter)
    returns (r: Result<Expr>)
    requires Within(BudgetOf(meter))
    modifies meter
    ensures r.Ok? <==> Affordable(old(BudgetOf(meter)), [text], vars)
    ensures r.Ok? ==> r.value == Str(RenderedText(text, vars))
    ensures r.Ok? ==> BudgetOf(meter) == Charged(old(BudgetOf(meter)), [text], vars)
    ensures r.Err? ==> IsTemplateError(r.error)
  {
    hide Measurable, Pieces, Fill, Slots, Affordable, Charged, Bytes;
    AffordableOne(BudgetOf(meter), text, vars);
    var rendered := RenderSecure(text, vars, declared, meter);
    r := if rendered.Ok? then Ok(Str(rendered.value)) else Err(rendered.error);
  }

  method RenderMethod(e: Expr, vars: Variables, declared: set<string>, meter: RenderMeter)
    returns (r: Result<Expr>)
    requires e.Method? && Within(BudgetOf(meter))
    modifies meter
    ensures r.Ok? <==> Affordable(old(BudgetOf(meter)), Strings(e), vars)
    ensures r.Ok? ==> r.value == MapStrings(e, vars)
    ensures r.Ok? ==> BudgetOf(meter) == Charged(old(BudgetOf(meter)), Strings(e), vars)
    ensures r.Err? ==> IsTemplateError(r.error)
    decreases e, 0
  {
    hide Within, Affordable, Charged;
    ghost var before := BudgetOf(meter);
    AffordableAppend(before, Strings(e.receiver), StringsAll(e.args), vars);
    var receiver := RenderAstStrings(e.receiver, vars, declared, meter);
    if receiver.Err? { return receiver; }
    AffordableWithin(before, Strings(e.receiver), vars);
    var args := RenderItems(e.args, vars, declared, meter);
    r := if args.Ok? then Ok(Method(receiver.value, e.name, args.value)) else Err(args.error);
  }

  method RenderBinary(e: Expr, vars: Variables, declared: set<string>, meter: RenderMeter)
    returns (r: Result<Expr>)
    requires e.Binary? && Within(BudgetOf(meter))
    modifies meter
    ensures r.Ok? <==> Affordable(old(BudgetOf(meter)), Strings(e), vars)
    ensures r.Ok? ==> r.value == MapStrings(e, vars)
    ensures r.Ok? ==> BudgetOf(meter) == Charged(old(BudgetOf(meter)), Strings(e), vars)
    ensures r.Err? ==> IsTemplateError(r.error)
    decreases e, 0
  {
    hide Within, Affordable, Charged;
    ghost var before := BudgetOf(meter);
    AffordableAppend(before, Strings(e.left), Strings(e.right), vars);
    var left := RenderAstStrings(e.left, vars, declared, meter);
    if left.Err? { return left; }
    AffordableWithin(before, Strings(e.left), vars);
    var right := RenderAstStrings(e.right, vars, declared, meter);
    r := if right.Ok? then Ok(Binary(left.value, e.op, right.value)) else right;
  }

  lemma ItemParts(es: seq<Expr>, i: nat, vars: Variables, done: seq<Expr>)
    requires i < |es|
    ensures StringsAll(es[i..]) == Strings(es[i]) + StringsAll(es[i + 1..])
    ensures done + MapStringsAll(es[i..], vars) == done + [MapStrings(es[i], vars)] + MapStringsAll(es[i + 1..], vars)
  {
    assert es[i..][0] == es[i] && es[i..][1..] == es[i + 1..];
  }

  lemma NoItems(es: seq<Expr>, vars: Variables, done: seq<Expr>)
    ensures StringsAll(es[|es|..]) == [] && done + MapStringsAll(es[|es|..], vars) == done
  {
    assert es[|es|..] == [];
  }

  method RenderItems(es: seq<Expr>, vars: Variables, declared: set<string>, meter: RenderMeter)
    returns (r: Result<seq<Expr>>)
    requires Within(BudgetOf(meter))
    modifies meter
    ensures r.Ok? <==> Affordable(old(BudgetOf(meter)), StringsAll(es), vars)
    ensures r.Ok? ==> r.value == MapStringsAll(es, vars)
    ensures r.Ok? ==> BudgetOf(meter) == Charged(old(BudgetOf(meter)), StringsAll(es), vars)
    ensures r.Err? ==> IsTemplateError(r.error)
    decreases es, 0
  {
    hide Within, Affordable, Charged, StringsAll, MapStringsAll, Strings, MapStrings;
    ghost var before := BudgetOf(meter);
    var done: seq<Expr>, i := [], 0;
    assert es[0..] == es;
    while i < |es|
      invariant i <= |es|
      invariant Within(BudgetOf(meter))
      invariant Affordable(before, StringsAll(es), vars) <==> Affordable(BudgetOf(meter), StringsAll(es[i..]), vars)
      invariant Charged(before, StringsAll(es), vars) == Charged(BudgetOf(meter), StringsAll(es[i..]), vars)
      invariant done + MapStringsAll(es[i..], vars) == MapStringsAll(es, vars)
    {
      ghost var here := BudgetOf(meter);
      ItemParts(es, i, vars, done);
      AffordableAppend(here, Strings(es[i]), StringsAll(es[i + 1..]), vars);
      var item := RenderAstStrings(es[i], vars, declared, meter);
      if item.Err? { return Err(item.error); }
      AffordableWithin(here, Strings(es[i]), vars);
      done := done + [item.value];
      i := i + 1;
    }
    NoItems(es, vars, done);
    NoStrings(BudgetOf(meter), vars);
    r := Ok(done);
  }

  // ----- the whole of it -----

  /** When a `when` text renders: well-formed markers with values, an expression whose markers all
      stand inside strings, budgets that last, and a result that fits what is left of them. */
  ghost predicate Renderable(codec: FloatCodec, raw: string, vars: Variables, budget: Budget, inBytes: nat) {
    && Measurable(raw, vars)
    && Parses(codec, raw, inBytes)
    && MarkersInside(raw, 0, Spanned.StringSpans(ParseExpression(codec, raw, WhenLimits(inBytes)).ast))
    && var e := ParsedExpr(codec, raw, inBytes);
       && Affordable(budget, Strings(e), vars)
       && Charged(budget, Strings(e), vars).renderWork + Bytes(Print(codec, MapStrings(e, vars))) <= budget.maxBytes
  }

  /** Rendering succeeds exactly then. The result is the canonical text of the parsed expression with
      its strings rendered, it parses back to that tree, and the final validating parse never fails. */
  method RenderWhenText(codec: FloatCodec, raw: string, vars: Variables, declared: set<string>, meter: RenderMeter)
    returns (r: Result<string>)
    requires Within(BudgetOf(meter))
    requires CodecValid(codec)
    modifies meter
    ensures r.Ok? <==> Renderable(codec, raw, vars, old(BudgetOf(meter)), meter.maxReferencedFileBytes)
    ensures r.Ok? ==>
      var e := MapStrings(ParsedExpr(codec, raw, meter.maxReferencedFileBytes), vars);
      && r.value == Print(codec, e)
      && Parses(codec, r.value, meter.maxTotalOutputBytes)
      && ParsedExpr(codec, r.value, meter.maxTotalOutputBytes) == e
    ensures r != Err(RenderedParseFailed)
    ensures r.Err? && !(Measurable(raw, vars) && Parses(codec, raw, meter.maxReferencedFileBytes)) ==>
      if Measurable(raw, vars) then r.error == SourceParseFailed
      else IsTemplateError(r.error) && Explains(r.error, raw, vars, declared)
    ensures r == Err(SourceParseFailed) ==> !Parses(codec, raw, meter.maxReferencedFileBytes)
    ensures r == Err(MarkerOutsideString) ==>
      && Parses(codec, raw, meter.maxReferencedFileBytes)
      && !MarkersInside(raw, 0, Spanned.StringSpans(ParseExpression(codec, raw, WhenLimits(meter.maxReferencedFileBytes)).ast))
    ensures r.Ok? ==> Within(BudgetOf(meter))
  {
    hide Measurable, Pieces, Fill, Slots, Affordable, Charged, ParseExpression, MarkersInside, Formattable, Print,
         Strings, MapStrings, Sorted, EndBy, CodecValid;
    ghost var before := BudgetOf(meter);
    var measured := Measure(raw, vars, declared, null, true);
    if measured.Err? { return Err(measured.error); }
    var parsed := ParseInput(codec, raw, WhenLimits(meter.maxReferencedFileBytes));
    if parsed.Rejected? { return Err(SourceParseFailed); }
    StringSpansSorted(codec, raw, WhenLimits(meter.maxReferencedFileBytes));
    var outside := RejectMarkersOutsideStrings(raw, Spanned.StringSpans(parsed.ast));
    if outside.Some? { return Err(outside.value); }
    var e := Spanned.Strip(parsed.ast);
    var substituted := RenderAstStrings(e, vars, declared, meter);
    if substituted.Err? { return Err(substituted.error); }
    AffordableWithin(before, Strings(e), vars);
    var remaining := meter.RemainingRenderWork();
    SubstitutionKeepsSyntax(codec, raw, vars, meter.maxReferencedFileBytes, remaining);
    SubstitutionKeepsSyntax(codec, raw, vars, meter.maxReferencedFileBytes, meter.maxTotalOutputBytes);
    var rendered := FormatExpression(codec, substituted.value, WhenFormat(remaining));
    if rendered.Fail? { return Err(FormatFailed); }
    var reserved := meter.ReserveRenderWork(Bytes(rendered.value));
    if !reserved { return Err(RenderWorkLimit); }
    var again := ParseInput(codec, rendered.value, WhenLimits(meter.maxTotalOutputBytes));
    if again.Rejected? { return Err(RenderedParseFailed); }
    r := Ok(rendered.value);
  }
}
