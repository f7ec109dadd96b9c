/** Template text with `{{name}}` markers: the measuring pass, the rendering pass, and the single
    definition both are proved against. */
module Template {
  import opened Text
  import opened Tokens

  datatype RenderError =
    | MalformedMarker | UnresolvedPlaceholder | UnknownPlaceholder
    | PlaceholderLimit | RenderWorkLimit
    | SourceParseFailed | MarkerOutsideString | FormatFailed | RenderedParseFailed

  datatype Result<T> = Ok(value: T) | Err(error: RenderError)

  /** The errors the template passes themselves report. */
  predicate IsTemplateError(error: RenderError) {
    || error.MalformedMarker? || error.UnresolvedPlaceholder? || error.UnknownPlaceholder?
    || error.PlaceholderLimit? || error.RenderWorkLimit?
  }

  type Variables = map<string, string>

  // ----- finding brackets -----

  predicate PairAt(s: string, c: char, i: nat) { i + 1 < |s| && s[i] == c && s[i + 1] == c }

  /** Where the first doubled `c` stands. */
  function FindPair(s: string, c: char): (r: Option<nat>)
    ensures r.Some? ==> PairAt(s, c, r.value) && forall i :: 0 <= i < r.value ==> !PairAt(s, c, i)
    ensures r.None? ==> forall i :: 0 <= i < |s| ==> !PairAt(s, c, i)
  {
    if |s| < 2 then None
    else if s[0] == c && s[1] == c then Some(0)
    else
      assert forall i :: 1 <= i < |s| ==> (PairAt(s, c, i) <==> PairAt(s[1..], c, i - 1));
      match FindPair(s[1..], c)
      case Some(i) => Some(i + 1)
      case None => None
  }

  datatype Bracket = NoBracket | Bracket(open: nat, name: string, end: nat)

  /** The first opening pair and the first closing pair after it. */
  function FirstBracket(raw: string): (b: Bracket)
    ensures b.Bracket? ==> b.open + 4 + |b.name| == b.end <= |raw|
    ensures b.Bracket? ==> raw[b.open..b.end] == "{{" + b.name + "}}"
  {
    match FindPair(raw, '{')
    case None => NoBracket
    case Some(open) =>
      match FindPair(raw[open + 2..], '}')
      case None => NoBracket
      case Some(close) =>
        assert raw[open + 2..][..close] == raw[open + 2..open + 2 + close];
        assert raw[open..open + close + 4]
            == raw[open..open + 2] + raw[open + 2..open + 2 + close] + raw[open + 2 + close..open + close + 4];
        Bracket(open, raw[open + 2..][..close], open + 2 + close + 2)
  }

  predicate MalformedName(name: string) { name == "" || '{' in name || '}' in name }

  /** A closing pair before any opening pair. */
  predicate StrayClose(raw: string) {
    && FindPair(raw, '}').Some?
    && (FindPair(raw, '{').None? || FindPair(raw, '}').value < FindPair(raw, '{').value)
  }

  // ----- what a template means -----

  datatype Piece = Literal(text: string) | Slot(name: string)

  /** A well-formed template as literals and slots, whatever the variables are. */
  function Pieces(raw: string): Option<seq<Piece>>
    decreases |raw|
  {
    if StrayClose(raw) then None
    else
      match FirstBracket(raw)
      case NoBracket => if FindPair(raw, '{').Some? then None else Some([Literal(raw)])
      case Bracket(open, name, end) =>
        if MalformedName(name) then None
        else
          match Pieces(raw[end..])
          case None => None
          case Some(rest) => Some([Literal(raw[..open]), Slot(name)] + rest)
  }

  predicate Filled(pieces: seq<Piece>, vars: Variables) {
    forall i :: 0 <= i < |pieces| && pieces[i].Slot? ==> pieces[i].name in vars
  }

  /** Literals and values in order; a value is never scanned again. */
  function Fill(pieces: seq<Piece>, vars: Variables): string
    requires Filled(pieces, vars)
  {
    if pieces == [] then ""
    else (if pieces[0].Literal? then pieces[0].text else vars[pieces[0].name]) + Fill(pieces[1..], vars)
  }

  function Slots(pieces: seq<Piece>): nat {
    if pieces == [] then 0 else (if pieces[0].Slot? then 1 else 0) + Slots(pieces[1..])
  }

  /** The text a piece list was read from. */
  function Source(pieces: seq<Piece>): string {
    if pieces == [] then ""
    else (if pieces[0].Literal? then pieces[0].text else "{{" + pieces[0].name + "}}") + Source(pieces[1..])
  }

  lemma {:induction false} PiecesCoverSource(raw: string)
    requires Pieces(raw).Some?
    ensures Source(Pieces(raw).value) == raw
    decreases |raw|
  {
    hide FindPair, FirstBracket, MalformedName, StrayClose;
    match FirstBracket(raw)
    case NoBracket => assert [Literal(raw)][1..] == [];
    case Bracket(open, name, end) =>
      PiecesCoverSource(raw[end..]);
      TwoPieces(raw[..open], name, Pieces(raw[end..]).value);
      Cover(raw, open, end);
  }

  lemma Cover(raw: string, open: nat, end: nat)
    requires open <= end <= |raw|
    ensures raw[..open] + (raw[open..end] + raw[end..]) == raw
  {
  }

  lemma TwoPieces(text: string, name: string, rest: seq<Piece>)
    ensures Source([Literal(text), Slot(name)] + rest) == text + ("{{" + name + "}}" + Source(rest))
    ensures Slots([Literal(text), Slot(name)] + rest) == 1 + Slots(rest)
  {
    assert ([Literal(text), Slot(name)] + rest)[1..] == [Slot(name)] + rest;
    assert ([Slot(name)] + rest)[1..] == rest;
  }

  lemma TwoFilled(text: string, name: string, rest: seq<Piece>, vars: Variables)
    ensures Filled([Literal(text), Slot(name)] + rest, vars) <==> name in vars && Filled(rest, vars)
    ensures name in vars && Filled(rest, vars) ==>
      Fill([Literal(text), Slot(name)] + rest, vars) == text + vars[name] + Fill(rest, vars)
  {
    var all := [Literal(text), Slot(name)] + rest;
    if name in vars && Filled(rest, vars) {
      forall i | 0 <= i < |all| && all[i].Slot? ensures all[i].name in vars {
        if i >= 2 { assert all[i] == rest[i - 2]; }
      }
      assert all[1..] == [Slot(name)] + rest;
      assert ([Slot(name)] + rest)[1..] == rest;
      assert text + (vars[name] + Fill(rest, vars)) == text + vars[name] + Fill(rest, vars);
    }
    if Filled(all, vars) {
      assert all[1].name in vars;
      forall i | 0 <= i < |rest| && rest[i].Slot? ensures rest[i].name in vars {
        assert all[i + 2] == rest[i];
      }
    }
  }

  // ----- the passes as functions -----

  /** The rendering pass: the first bracket, its value, and the rest. */
  function Rendered(raw: string, vars: Variables, strict: bool): Option<string>
    decreases |raw|
  {
    match FirstBracket(raw)
    case NoBracket => Some(raw)
    case Bracket(open, name, end) =>
      if name !in vars && strict then None
      else
        match Rendered(raw[end..], vars, strict)
        case None => None
        case Some(rest) =>
          Some(raw[..open] + (if name in vars then vars[name] else raw[open..end]) + rest)
  }

  /** The length the lenient measuring pass announces. */
  function LenientLength(raw: string, vars: Variables): nat
    decreases |raw|
  {
    match FirstBracket(raw)
    case NoBracket => Bytes(raw)
    case Bracket(open, name, end) =>
      Bytes(raw[..open])
      + (if MalformedName(name) || name !in vars then Bytes(raw[open..end]) else Bytes(vars[name]))
      + LenientLength(raw[end..], vars)
  }

  function LenientSlots(raw: string): nat
    decreases |raw|
  {
    match FirstBracket(raw)
    case NoBracket => 0
    case Bracket(_, name, end) => (if MalformedName(name) then 0 else 1) + LenientSlots(raw[end..])
  }

  predicate Measurable(raw: string, vars: Variables) {
    Pieces(raw).Some? && Filled(Pieces(raw).value, vars)
  }

  /** What the strict passes do with a bracket-free text. */
  lemma TailParts(raw: string, vars: Variables)
    requires FirstBracket(raw).NoBracket?
    ensures Measurable(raw, vars) <==> !StrayClose(raw) && FindPair(raw, '{').None?
    ensures Measurable(raw, vars) ==>
      Fill(Pieces(raw).value, vars) == raw && Slots(Pieces(raw).value) == 0
  {
    assert [Literal(raw)][1..] == [];
    assert raw + "" == raw;
  }

  /** What they do with the first marker of a text. */
  lemma MarkerParts(raw: string, vars: Variables)
    requires FirstBracket(raw).Bracket?
    ensures var b := FirstBracket(raw); var rest := raw[b.end..];
      && (Measurable(raw, vars) <==>
            !StrayClose(raw) && !MalformedName(b.name) && b.name in vars && Measurable(rest, vars))
      && (Measurable(raw, vars) ==>
            && Fill(Pieces(raw).value, vars) == raw[..b.open] + vars[b.name] + Fill(Pieces(rest).value, vars)
            && Slots(Pieces(raw).value) == 1 + Slots(Pieces(rest).value))
  {
    var b := FirstBracket(raw);
    if !StrayClose(raw) && !MalformedName(b.name) && Pieces(raw[b.end..]).Some? {
      var rest := Pieces(raw[b.end..]).value;
      TwoFilled(raw[..b.open], b.name, rest, vars);
      TwoPieces(raw[..b.open], b.name, rest);
    }
  }

  /** A template the strict measuring pass accepts renders to its one-pass expansion. */
  lemma {:induction false} StrictRenders(raw: string, vars: Variables)
    requires Measurable(raw, vars)
    ensures Rendered(raw, vars, true) == Some(Fill(Pieces(raw).value, vars))
    decreases |raw|
  {
    if FirstBracket(raw).NoBracket? {
      TailParts(raw, vars);
    } else {
      MarkerParts(raw, vars);
      StrictRenders(raw[FirstBracket(raw).end..], vars);
    }
  }

  // ----- the lenient mode -----

  /** Names a bracket can spell: nothing in them closes it early. */
  predicate Addressable(name: string) {
    FindPair(name + "}}", '}') == Some(|name|)
  }

  lemma FirstBracketAddressable(raw: string)
    requires FirstBracket(raw).Bracket?
    ensures Addressable(FirstBracket(raw).name)
  {
    var open := FindPair(raw, '{').value;
    var rest := raw[open + 2..];
    var close := FindPair(rest, '}').value;
    var name := FirstBracket(raw).name;
    var s := name + "}}";
    assert rest[..close + 2] == s;
    forall i | 0 <= i < |name| ensures !PairAt(s, '}', i) {
      assert s[i] == rest[i] && s[i + 1] == rest[i + 1];
      assert !PairAt(rest, '}', i);
    }
    assert PairAt(s, '}', |name|);
  }

  lemma LoneBracket(name: string)
    requires Addressable(name)
    ensures FirstBracket("{{" + name + "}}") == Bracket(0, name, |name| + 4)
  {
    var raw := "{{" + name + "}}";
    assert PairAt(raw, '{', 0);
    assert raw[2..] == name + "}}";
    assert raw[2..][..|name|] == name;
  }

  /** Each value that stands for a malformed name is as long as the marker it replaces. */
  predicate LenientSafe(vars: Variables) {
    forall name :: name in vars && MalformedName(name) && Addressable(name) ==>
      Bytes(vars[name]) == Bytes("{{" + name + "}}")
  }

  lemma {:induction false} LenientAgrees(raw: string, vars: Variables)
    requires LenientSafe(vars)
    ensures Rendered(raw, vars, false).Some?
    ensures Bytes(Rendered(raw, vars, false).value) == LenientLength(raw, vars)
    decreases |raw|
  {
    match FirstBracket(raw)
    case NoBracket =>
    case Bracket(open, name, end) =>
      LenientAgrees(raw[end..], vars);
      FirstBracketAddressable(raw);
      var value := if name in vars then vars[name] else raw[open..end];
      var rest := Rendered(raw[end..], vars, false).value;
      BytesConcat(raw[..open], value);
      BytesConcat(raw[..open] + value, rest);
  }

  lemma {:induction false} LenientAlwaysRenders(raw: string, vars: Variables)
    ensures Rendered(raw, vars, false).Some?
    decreases |raw|
  {
    if FirstBracket(raw).Bracket? { LenientAlwaysRenders(raw[FirstBracket(raw).end..], vars); }
  }

  ghost predicate LenientExact(vars: Variables) {
    forall raw :: Rendered(raw, vars, false).Some?
      && Bytes(Rendered(raw, vars, false).value) == LenientLength(raw, vars)
  }

  /** In the lenient mode the announced length is right for every text exactly when no addressable
      malformed variable name has a value of another length than its marker. */
  lemma LenientAgreesExactly(vars: Variables)
    ensures LenientExact(vars) <==> LenientSafe(vars)
  {
    if LenientSafe(vars) {
      forall raw ensures Rendered(raw, vars, false).Some?
        && Bytes(Rendered(raw, vars, false).value) == LenientLength(raw, vars) {
        LenientAgrees(raw, vars);
      }
    }
    if LenientExact(vars) {
      forall name | name in vars && MalformedName(name) && Addressable(name)
        ensures Bytes(vars[name]) == Bytes("{{" + name + "}}") {
        var raw := "{{" + name + "}}";
        LoneBracket(name);
        LoneRenders(raw, name, vars);
        assert Rendered(raw, vars, false).Some?;
      }
    }
  }

  lemma LoneRenders(raw: string, name: string, vars: Variables)
    requires FirstBracket(raw) == Bracket(0, name, |raw|) && name in vars && MalformedName(name)
    ensures Rendered(raw, vars, false) == Some(vars[name]) && LenientLength(raw, vars) == Bytes(raw)
  {
    assert raw[|raw|..] == "" && raw[..0] == "" && raw[0..|raw|] == raw;
    assert Rendered("", vars, false) == Some("");
    assert "" + vars[name] + "" == vars[name];
  }

  /** A variable with the empty name is enough to break it. */
  lemma EmptyNameBreaksLenient()
    ensures !LenientSafe(map["" := "x"]) && !LenientExact(map["" := "x"])
  {
    var vars: Variables := map["" := "x"];
    assert PairAt("" + "}}", '}', 0);
    assert Addressable("") && MalformedName("");
    assert "{{" + "" + "}}" == "{{}}";
    BytesAtLeastLength("{{}}");
    assert "x"[1..] == "";
    assert Bytes("x") == 1;
    LenientAgreesExactly(vars);
  }

  // ----- the passes as loops -----

  /** The budgets the renderer charges across a whole rulepack. */
  class RenderMeter {
    const maxPlaceholders: nat
    const maxTotalOutputBytes: nat
    const maxReferencedFileBytes: nat
    var placeholders: nat
    var renderWork: nat

    constructor (maxPlaceholders: nat, maxTotalOutputBytes: nat, maxReferencedFileBytes: nat)
      ensures placeholders == renderWork == 0
    {
      this.maxPlaceholders, this.maxTotalOutputBytes := maxPlaceholders, maxTotalOutputBytes;
      this.maxReferencedFileBytes := maxReferencedFileBytes;
      placeholders, renderWork := 0, 0;
    }

    method Placeholder() returns (ok: bool)
      modifies this`placeholders
      ensures placeholders == old(placeholders) + 1 && ok == (placeholders <= maxPlaceholders)
    {
      placeholders := placeholders + 1;
      ok := placeholders <= maxPlaceholders;
    }

    method ReserveRenderWork(bytes: nat) returns (ok: bool)
      modifies this`renderWork
      ensures renderWork == old(renderWork) + bytes && ok == (renderWork <= maxTotalOutputBytes)
    {
      renderWork := renderWork + bytes;
      ok := renderWork <= maxTotalOutputBytes;
    }

    function RemainingRenderWork(): (n: nat)
      reads this
      ensures n <= maxTotalOutputBytes
      ensures renderWork <= maxTotalOutputBytes ==> renderWork + n == maxTotalOutputBytes
    {
      if renderWork <= maxTotalOutputBytes then maxTotalOutputBytes - renderWork else 0
    }
  }

  /** Whether `more` further placeholders stay within the budget; none is always within. */
  predicate PlaceholdersFit(meter: RenderMeter?, more: nat)
    reads meter
  {
    meter == null || more == 0 || meter.placeholders + more <= meter.maxPlaceholders
  }

  /** What the measuring pass accepts, announces and counts in either mode. */
  predicate Accepts(raw: string, vars: Variables, strict: bool) { strict ==> Measurable(raw, vars) }

  function Announced(raw: string, vars: Variables, strict: bool): nat
    requires Accepts(raw, vars, strict)
  {
    if strict then Bytes(Fill(Pieces(raw).value, vars)) else LenientLength(raw, vars)
  }

  function SlotCount(raw: string, vars: Variables, strict: bool): nat
    requires Accepts(raw, vars, strict)
  {
    if strict then Slots(Pieces(raw).value) else LenientSlots(raw)
  }

  /** A run over `raw` that has `rest` left and has measured `length` bytes and `seen` slots. */
  ghost predicate SoFar(raw: string, rest: string, vars: Variables, strict: bool, length: nat, seen: nat) {
    && (Accepts(raw, vars, strict) <==> Accepts(rest, vars, strict))
    && (Accepts(raw, vars, strict) ==>
          && Announced(raw, vars, strict) == length + Announced(rest, vars, strict)
          && SlotCount(raw, vars, strict) == seen + SlotCount(rest, vars, strict))
  }

  /** One marker. */
  lemma MarkerStep(raw: string, rest: string, vars: Variables, strict: bool, length: nat, seen: nat)
    requires FirstBracket(rest).Bracket? && SoFar(raw, rest, vars, strict, length, seen)
    requires strict ==> !StrayClose(rest)
    ensures var b := FirstBracket(rest);
      var bad := MalformedName(b.name);
      var value := if !bad && b.name in vars then vars[b.name] else rest[b.open..b.end];
      if strict && (bad || b.name !in vars) then !Accepts(raw, vars, strict)
      else SoFar(raw, rest[b.end..], vars, strict, length + Bytes(rest[..b.open]) + Bytes(value),
                 seen + if bad then 0 else 1)
    ensures Accepts(raw, vars, strict) ==>
      SlotCount(raw, vars, strict) >= seen + if MalformedName(FirstBracket(rest).name) then 0 else 1
  {
    hide Pieces, Fill, Slots, StrayClose, MalformedName, FirstBracket, Filled;
    if strict {
      MarkerParts(rest, vars);
      var b := FirstBracket(rest);
      if Measurable(rest, vars) {
        BytesConcat(rest[..b.open], vars[b.name]);
        BytesConcat(rest[..b.open] + vars[b.name], Fill(Pieces(rest[b.end..]).value, vars));
      }
    } else {
      LenientStep(rest, vars);
    }
  }

  lemma LenientStep(rest: string, vars: Variables)
    requires FirstBracket(rest).Bracket?
    ensures var b := FirstBracket(rest);
      var value := if !MalformedName(b.name) && b.name in vars then vars[b.name] else rest[b.open..b.end];
      && LenientLength(rest, vars) == Bytes(rest[..b.open]) + Bytes(value) + LenientLength(rest[b.end..], vars)
      && LenientSlots(rest) == (if MalformedName(b.name) then 0 else 1) + LenientSlots(rest[b.end..])
  {
  }

  /** The end of the text. */
  lemma TailStep(raw: string, rest: string, vars: Variables, strict: bool, length: nat, seen: nat)
    requires FirstBracket(rest).NoBracket? && SoFar(raw, rest, vars, strict, length, seen)
    ensures Accepts(raw, vars, strict) <==> !(strict && (StrayClose(rest) || FindPair(rest, '{').Some?))
    ensures Accepts(raw, vars, strict) ==>
      Announced(raw, vars, strict) == length + Bytes(rest) && SlotCount(raw, vars, strict) == seen
  {
    TailParts(rest, vars);
  }

  lemma StrayFails(raw: string, rest: string, vars: Variables, length: nat, seen: nat)
    requires StrayClose(rest) && SoFar(raw, rest, vars, true, length, seen)
    ensures !Accepts(raw, vars, true)
  {
  }

  // ----- what a refusal says -----

  function Marker(name: string): string { "{{" + name + "}}" }

  ghost predicate Occurs(raw: string, part: string) {
    exists i :: 0 <= i <= |raw| && part <= raw[i..]
  }

  /** A malformed marker is reported only for a text that is no template, and a missing value only for a
      name whose marker stands in the text. */
  ghost predicate Explains(error: RenderError, raw: string, vars: Variables, declared: set<string>) {
    match error
    case MalformedMarker => Pieces(raw).None?
    case UnresolvedPlaceholder =>
      exists name :: name in declared && name !in vars && Occurs(raw, Marker(name))
    case UnknownPlaceholder =>
      exists name :: name !in declared && name !in vars && Occurs(raw, Marker(name))
    case PlaceholderLimit => true
    case RenderWorkLimit => true
    case _ => false
  }

  lemma PiecesStep(rest: string)
    ensures StrayClose(rest) ==> Pieces(rest).None?
    ensures FirstBracket(rest).NoBracket? && FindPair(rest, '{').Some? ==> Pieces(rest).None?
    ensures FirstBracket(rest).Bracket? && MalformedName(FirstBracket(rest).name) ==> Pieces(rest).None?
    ensures FirstBracket(rest).Bracket? && !StrayClose(rest) && !MalformedName(FirstBracket(rest).name) ==>
      (Pieces(rest).Some? <==> Pieces(rest[FirstBracket(rest).end..]).Some?)
  {
  }

  lemma MalformedExplained(raw: string, vars: Variables, declared: set<string>)
    requires Pieces(raw).None?
    ensures Explains(MalformedMarker, raw, vars, declared)
  {
  }

  lemma LimitExplained(raw: string, vars: Variables, declared: set<string>)
    ensures Explains(PlaceholderLimit, raw, vars, declared) && Explains(RenderWorkLimit, raw, vars, declared)
  {
  }

  lemma MissingExplained(raw: string, cursor: nat, vars: Variables, declared: set<string>)
    requires cursor <= |raw| && FirstBracket(raw[cursor..]).Bracket? && FirstBracket(raw[cursor..]).name !in vars
    ensures Explains(if FirstBracket(raw[cursor..]).name in declared then UnresolvedPlaceholder else UnknownPlaceholder,
                     raw, vars, declared)
  {
    hide FirstBracket, Pieces;
    var b := FirstBracket(raw[cursor..]);
    var i := cursor + b.open;
    var marker := Marker(b.name);
    assert raw[i..][..|marker|] == raw[cursor..][b.open..b.end] == marker;
    assert Occurs(raw, marker);
  }

  lemma DropDrop(raw: string, cursor: nat, n: nat)
    requires cursor + n <= |raw|
    ensures raw[cursor..][n..] == raw[cursor + n..]
  {
  }

  /** The measuring pass. In strict mode it accepts exactly the well-formed templates whose slots
      all have values and fit the placeholder budget, and returns the bytes of the expansion; in
      lenient mode only the placeholder budget can refuse. */
  method Measure(raw: string, vars: Variables, declared: set<string>, meter: RenderMeter?, strict: bool)
    returns (r: Result<nat>)
    modifies if meter == null then {} else {meter}
    ensures meter != null ==> meter.renderWork == old(meter.renderWork)
    ensures r.Ok? <==>
      Accepts(raw, vars, strict) && old(PlaceholdersFit(meter, SlotCount(raw, vars, strict)))
    ensures r.Ok? ==> r.value == Announced(raw, vars, strict)
    ensures r.Err? ==> IsTemplateError(r.error) && Explains(r.error, raw, vars, declared)
    ensures r.Err? && !strict ==> r.error == PlaceholderLimit
    ensures r.Err? && r.error != PlaceholderLimit ==>
      r.error == MalformedMarker || r.error == UnresolvedPlaceholder || r.error == UnknownPlaceholder
    ensures r.Err? && r.error == PlaceholderLimit ==> meter != null && meter.placeholders > meter.maxPlaceholders
    ensures r.Ok? && meter != null ==>
      meter.placeholders == old(meter.placeholders) + SlotCount(raw, vars, strict)
  {
    hide Explains, Pieces, Accepts, Announced, SlotCount, SoFar, StrayClose, FindPair, FirstBracket, MalformedName, Bytes;
    var length: nat, cursor: nat := 0, 0;
    ghost var seen: nat := 0;
    Begin(raw, vars, strict);
    assert raw[0..] == raw;
    while cursor < |raw|
      invariant cursor <= |raw|
      invariant SoFar(raw, raw[cursor..], vars, strict, length, seen)
      invariant strict ==> (Pieces(raw).Some? <==> Pieces(raw[cursor..]).Some?)
      invariant meter != null ==> meter.placeholders == old(meter.placeholders) + seen
      invariant meter != null ==> meter.renderWork == old(meter.renderWork)
      invariant old(PlaceholdersFit(meter, seen))
      decreases |raw| - cursor
    {
      var remainder := raw[cursor..];
      PiecesStep(remainder);
      if strict && StrayClose(remainder) {
        MalformedExplained(raw, vars, declared);
        StrayFails(raw, remainder, vars, length, seen);
        return Err(MalformedMarker);
      }
      var bracket := FirstBracket(remainder);
      if bracket.NoBracket? {
        TailStep(raw, remainder, vars, strict, length, seen);
        if strict && FindPair(remainder, '{').Some? {
          MalformedExplained(raw, vars, declared);
          return Err(MalformedMarker);
        }
        length := length + Bytes(remainder);
        return Ok(length);
      }
      MarkerStep(raw, remainder, vars, strict, length, seen);
      DropDrop(raw, cursor, bracket.end);
      length := length + Bytes(remainder[..bracket.open]);
      var marker := remainder[bracket.open..bracket.end];
      if MalformedName(bracket.name) {
        if strict {
          MalformedExplained(raw, vars, declared);
          return Err(MalformedMarker);
        }
        length := length + Bytes(marker);
        cursor := cursor + bracket.end;
        continue;
      }
      if meter != null {
        var ok := meter.Placeholder();
        if !ok {
          LimitExplained(raw, vars, declared);
          return Err(PlaceholderLimit);
        }
      }
      seen := seen + 1;
      if bracket.name in vars {
        length := length + Bytes(vars[bracket.name]);
      } else if strict {
        MissingExplained(raw, cursor, vars, declared);
        return Err(if bracket.name in declared then UnresolvedPlaceholder else UnknownPlaceholder);
      } else {
        length := length + Bytes(marker);
      }
      cursor := cursor + bracket.end;
    }
    assert raw[cursor..] == "";
    EmptyTail(raw, vars, strict, length, seen);
    r := Ok(length);
  }

  lemma Begin(raw: string, vars: Variables, strict: bool)
    ensures SoFar(raw, raw, vars, strict, 0, 0)
  {
  }

  lemma EmptyTail(raw: string, vars: Variables, strict: bool, length: nat, seen: nat)
    requires SoFar(raw, "", vars, strict, length, seen)
    ensures Accepts(raw, vars, strict)
    ensures Announced(raw, vars, strict) == length && SlotCount(raw, vars, strict) == seen
  {
    TailStep(raw, "", vars, strict, length, seen);
  }

  // ----- the rendering pass -----

  /** `output` followed by the rendering of `rest` is the rendering of `raw`. */
  ghost predicate RenderedSoFar(raw: string, rest: string, vars: Variables, strict: bool, output: string) {
    && (Rendered(raw, vars, strict).Some? <==> Rendered(rest, vars, strict).Some?)
    && (Rendered(raw, vars, strict).Some? ==>
          Rendered(raw, vars, strict).value == output + Rendered(rest, vars, strict).value)
  }

  lemma RenderedParts(rest: string, vars: Variables, strict: bool)
    requires FirstBracket(rest).Bracket?
    ensures var b := FirstBracket(rest); var next := Rendered(rest[b.end..], vars, strict);
      var value := if b.name in vars then vars[b.name] else rest[b.open..b.end];
      Rendered(rest, vars, strict)
        == if (strict && b.name !in vars) || next.None? then None
           else Some(rest[..b.open] + value + next.value)
  {
  }

  lemma Regroup(output: string, text: string, value: string, next: string)
    ensures output + (text + value + next) == output + text + value + next
  {
  }

  lemma RenderedStep(raw: string, rest: string, vars: Variables, strict: bool, output: string)
    requires FirstBracket(rest).Bracket? && RenderedSoFar(raw, rest, vars, strict, output)
    ensures var b := FirstBracket(rest);
      var value := if b.name in vars then vars[b.name] else rest[b.open..b.end];
      if strict && b.name !in vars then Rendered(raw, vars, strict).None?
      else RenderedSoFar(raw, rest[b.end..], vars, strict, output + rest[..b.open] + value)
  {
    hide Rendered, FirstBracket;
    RenderedParts(rest, vars, strict);
    var b := FirstBracket(rest);
    var value := if b.name in vars then vars[b.name] else rest[b.open..b.end];
    var next := Rendered(rest[b.end..], vars, strict);
    if next.Some? { Regroup(output, rest[..b.open], value, next.value); }
  }

  lemma RenderedBegin(raw: string, vars: Variables, strict: bool)
    ensures RenderedSoFar(raw, raw, vars, strict, "")
  {
    if Rendered(raw, vars, strict).Some? {
      var text := Rendered(raw, vars, strict).value;
      assert "" + text == text;
    }
  }

  lemma RenderedTail(raw: string, rest: string, vars: Variables, strict: bool, output: string)
    requires FirstBracket(rest).NoBracket? && RenderedSoFar(raw, rest, vars, strict, output)
    ensures Rendered(raw, vars, strict) == Some(output + rest)
  {
  }

  lemma NothingLeft()
    ensures FirstBracket("").NoBracket?
  {
  }

  method RenderMeasured(raw: string, vars: Variables, declared: set<string>, strict: bool)
    returns (r: Result<string>)
    ensures r.Ok? <==> Rendered(raw, vars, strict).Some?
    ensures r.Ok? ==> r.value == Rendered(raw, vars, strict).value
    ensures r.Err? ==> strict && IsTemplateError(r.error) && Explains(r.error, raw, vars, declared)
    ensures r.Err? ==> r.error == UnresolvedPlaceholder || r.error == UnknownPlaceholder
  {
    hide Explains, FirstBracket, Rendered, RenderedSoFar;
    var output, cursor := "", 0;
    assert raw[0..] == raw;
    RenderedBegin(raw, vars, strict);
    while cursor < |raw|
      invariant cursor <= |raw|
      invariant RenderedSoFar(raw, raw[cursor..], vars, strict, output)
      decreases |raw| - cursor
    {
      var remainder := raw[cursor..];
      var bracket := FirstBracket(remainder);
      if bracket.NoBracket? {
        RenderedTail(raw, remainder, vars, strict, output);
        output := output + remainder;
        return Ok(output);
      }
      RenderedStep(raw, remainder, vars, strict, output);
      DropDrop(raw, cursor, bracket.end);
      output := output + remainder[..bracket.open];
      if bracket.name in vars {
        output := output + vars[bracket.name];
      } else if strict {
        MissingExplained(raw, cursor, vars, declared);
        return Err(if bracket.name in declared then UnresolvedPlaceholder else UnknownPlaceholder);
      } else {
        output := output + remainder[bracket.open..bracket.end];
      }
      cursor := cursor + bracket.end;
    }
    assert raw[cursor..] == "" && output + "" == output;
    NothingLeft();
    RenderedTail(raw, "", vars, strict, output);
    r := Ok(output);
  }

  /** Measuring, reserving the announced bytes, rendering: it succeeds exactly when the template is
      well formed, every slot has a value and both budgets hold, and then the text is the one-pass
      expansion. The rendering pass itself can no longer fail. */
  method RenderSecure(raw: string, vars: Variables, declared: set<string>, meter: RenderMeter)
    returns (r: Result<string>)
    modifies meter
    ensures r.Ok? <==>
      && Measurable(raw, vars)
      && old(PlaceholdersFit(meter, Slots(Pieces(raw).value)))
      && old(meter.renderWork) + Bytes(Fill(Pieces(raw).value, vars)) <= meter.maxTotalOutputBytes
    ensures r.Ok? ==> r.value == Fill(Pieces(raw).value, vars)
    ensures r.Err? ==> IsTemplateError(r.error) && Explains(r.error, raw, vars, declared)
    ensures r.Err? && r.error == PlaceholderLimit ==> meter.placeholders > meter.maxPlaceholders
    ensures r.Err? && r.error == RenderWorkLimit ==>
      Measurable(raw, vars) && meter.renderWork > meter.maxTotalOutputBytes
    ensures r.Ok? ==> meter.placeholders == old(meter.placeholders) + Slots(Pieces(raw).value)
    ensures r.Ok? ==> meter.renderWork == old(meter.renderWork) + Bytes(r.value)
  {
    hide Explains, Measurable, Pieces, Fill, Slots, Bytes, Rendered;
    var measured := Measure(raw, vars, declared, meter, true);
    if measured.Err? { return Err(measured.error); }
    StrictRenders(raw, vars);
    var reserved := meter.ReserveRenderWork(measured.value);
    if !reserved {
      LimitExplained(raw, vars, declared);
      return Err(RenderWorkLimit);
    }
    r := RenderMeasured(raw, vars, declared, true);
  }

  /** The same in lenient mode. When no malformed name is a variable of another length, the work
      reserved is the length of the text. */
  method RenderLegacyBounded(raw: string, vars: Variables, meter: RenderMeter) returns (r: Result<string>)
    modifies meter
    ensures r.Ok? <==>
      && old(PlaceholdersFit(meter, LenientSlots(raw)))
      && old(meter.renderWork) + LenientLength(raw, vars) <= meter.maxTotalOutputBytes
    ensures r.Ok? ==> Rendered(raw, vars, false) == Some(r.value)
    ensures r.Err? ==> r.error == PlaceholderLimit || r.error == RenderWorkLimit
    ensures r.Err? && r.error == PlaceholderLimit ==> meter.placeholders > meter.maxPlaceholders
    ensures r.Err? && r.error == RenderWorkLimit ==> meter.renderWork > meter.maxTotalOutputBytes
    ensures r.Ok? && LenientSafe(vars) ==> meter.renderWork == old(meter.renderWork) + Bytes(r.value)
  {
    hide Explains, LenientLength, LenientSlots, Rendered, LenientSafe;
    var measured := Measure(raw, vars, vars.Keys, meter, false);
    if measured.Err? { return Err(measured.error); }
    LenientAlwaysRenders(raw, vars);
    if LenientSafe(vars) { LenientAgrees(raw, vars); }
    var reserved := meter.ReserveRenderWork(measured.value);
    if !reserved { return Err(RenderWorkLimit); }
    r := RenderMeasured(raw, vars, vars.Keys, false);
  }
}
