/** The grammar of templates, apart from the passes that search for brackets, and that the strict passes
    accept exactly the templates it gives. */
module Placeholders {
  import opened Tokens
  import opened Text
  import opened Template
  import opened Markers

  // ----- the grammar -----

  /** A name is not empty and has no brace. */
  predicate OrdinaryName(name: string) {
    |name| > 0 && forall i :: 0 <= i < |name| ==> name[i] != '{' && name[i] != '}'
  }

  /** No two opening and no two closing braces stand side by side. */
  predicate PlainText(text: string) {
    forall i :: 0 <= i < |text| - 1 ==>
      !(text[i] == '{' && text[i + 1] == '{') && !(text[i] == '}' && text[i + 1] == '}')
  }

  /** Text, then any number of a slot and more text; an opening brace may not stand before a slot's. */
  predicate Spelled(pieces: seq<Piece>)
    decreases |pieces|
  {
    && pieces != [] && pieces[0].Literal? && PlainText(pieces[0].text)
    && (|pieces| == 1 ||
        (&& |pieces| >= 3 && (pieces[0].text == "" || pieces[0].text[|pieces[0].text| - 1] != '{')
         && pieces[1].Slot? && OrdinaryName(pieces[1].name) && Spelled(pieces[2..])))
  }

  // ----- the search finds what the grammar says -----

  lemma FoundAt(s: string, c: char, i: nat)
    requires PairAt(s, c, i) && forall j :: 0 <= j < i ==> !PairAt(s, c, j)
    ensures FindPair(s, c) == Some(i)
  {
  }

  lemma FoundNowhere(s: string, c: char)
    ensures (forall j :: 0 <= j < |s| ==> !PairAt(s, c, j)) <==> FindPair(s, c) == None
  {
  }

  lemma NamesAgree(name: string)
    ensures OrdinaryName(name) <==> !MalformedName(name)
  {
  }

  lemma PlainHasNoPair(text: string)
    ensures PlainText(text) <==> FindPair(text, '{') == None && FindPair(text, '}') == None
  {
    FoundNowhere(text, '{');
    FoundNowhere(text, '}');
    if FindPair(text, '{') == None && FindPair(text, '}') == None {
      forall i | 0 <= i < |text| - 1
        ensures !(text[i] == '{' && text[i + 1] == '{') && !(text[i] == '}' && text[i + 1] == '}') {
        assert !PairAt(text, '{', i) && !PairAt(text, '}', i);
      }
    }
  }

  lemma OpeningFound(text: string, rest: string)
    requires PlainText(text) && (text == "" || text[|text| - 1] != '{')
    ensures var raw := text + "{{" + rest;
      FindPair(raw, '{') == Some(|text|) && raw[|text| + 2..] == rest && raw[..|text|] == text
  {
    var raw := text + "{{" + rest;
    forall j | 0 <= j < |text| ensures !PairAt(raw, '{', j) {
      assert raw[j] == text[j];
      if j + 1 < |text| { assert raw[j + 1] == text[j + 1]; }
    }
    assert PairAt(raw, '{', |text|);
    FoundAt(raw, '{', |text|);
  }

  lemma NoCloserBefore(text: string, rest: string)
    requires PlainText(text)
    ensures var raw := text + "{{" + rest; forall j :: 0 <= j < |text| ==> !PairAt(raw, '}', j)
  {
    var raw := text + "{{" + rest;
    forall j | 0 <= j < |text| ensures !PairAt(raw, '}', j) {
      assert raw[j] == text[j];
      if j + 1 < |text| { assert raw[j + 1] == text[j + 1]; }
    }
  }

  lemma ClosingFound(name: string, rest: string)
    requires PlainText(name) && (name == "" || name[|name| - 1] != '}')
    ensures var after := name + "}}" + rest;
      FindPair(after, '}') == Some(|name|) && after[..|name|] == name && after[|name| + 2..] == rest
  {
    var after := name + "}}" + rest;
    forall j | 0 <= j < |name| ensures !PairAt(after, '}', j) {
      assert after[j] == name[j];
      if j + 1 < |name| { assert after[j + 1] == name[j + 1]; }
    }
    assert PairAt(after, '}', |name|);
    FoundAt(after, '}', |name|);
  }

  /** The first marker of a text that starts with plain text and a marker. */
  lemma FirstMarker(text: string, name: string, rest: string)
    requires PlainText(text) && (text == "" || text[|text| - 1] != '{')
    requires PlainText(name) && (name == "" || name[|name| - 1] != '}')
    ensures var raw := text + ("{{" + name + "}}" + rest);
      && !StrayClose(raw) && FirstBracket(raw) == Bracket(|text|, name, |text| + |name| + 4)
      && raw[|text| + |name| + 4..] == rest && raw[..|text|] == text
  {
    hide PlainText, FindPair, PairAt;
    var raw, after := text + ("{{" + name + "}}" + rest), name + "}}" + rest;
    assert raw == text + "{{" + after;
    OpeningFound(text, after);
    NoCloserBefore(text, after);
    ClosingFound(name, rest);
    assert raw[|text| + |name| + 4..] == after[|name| + 2..];
  }

  /** The other way: what stands before and in the first marker of a text without stray closers. */
  lemma BeforeMarker(raw: string)
    requires !StrayClose(raw) && FirstBracket(raw).Bracket?
    ensures var text := raw[..FirstBracket(raw).open];
      PlainText(text) && (text == "" || text[|text| - 1] != '{')
  {
    var open := FirstBracket(raw).open;
    var text := raw[..open];
    assert FindPair(raw, '{') == Some(open);
    forall i | 0 <= i < |text| - 1
      ensures !(text[i] == '{' && text[i + 1] == '{') && !(text[i] == '}' && text[i + 1] == '}') {
      assert !PairAt(raw, '{', i);
      assert !PairAt(raw, '}', i);
    }
    if text != "" {
      assert !PairAt(raw, '{', open - 1);
    }
  }

  lemma SourceOfThree(pieces: seq<Piece>)
    requires |pieces| >= 2 && pieces[0].Literal? && pieces[1].Slot?
    ensures Source(pieces) == pieces[0].text + ("{{" + pieces[1].name + "}}" + Source(pieces[2..]))
  {
    assert pieces[1..][1..] == pieces[2..];
  }

  lemma OrdinaryIsPlain(name: string)
    requires OrdinaryName(name)
    ensures PlainText(name) && name[|name| - 1] != '}'
  {
  }

  // ----- exactly -----

  lemma {:induction false} SpelledIsFound(pieces: seq<Piece>)
    requires Spelled(pieces)
    ensures Pieces(Source(pieces)) == Some(pieces)
    decreases |pieces|
  {
    hide FindPair, FirstBracket, StrayClose, PlainText, OrdinaryName, MalformedName;
    if |pieces| == 1 {
      assert pieces[1..] == [] && pieces[0].text + "" == pieces[0].text;
      PlainHasNoPair(pieces[0].text);
      NoPairNoBracket(pieces[0].text);
      assert pieces == [Literal(pieces[0].text)];
    } else {
      var text, name, rest := pieces[0].text, pieces[1].name, pieces[2..];
      SpelledIsFound(rest);
      SourceOfThree(pieces);
      OrdinaryIsPlain(name);
      FirstMarker(text, name, Source(rest));
      NamesAgree(name);
      assert pieces == [Literal(text), Slot(name)] + rest;
    }
  }

  lemma NoPairNoBracket(raw: string)
    requires FindPair(raw, '{') == None
    ensures FirstBracket(raw) == NoBracket
    ensures StrayClose(raw) <==> FindPair(raw, '}').Some?
  {
  }

  lemma {:induction false} FoundIsSpelled(raw: string)
    requires Pieces(raw).Some?
    ensures Spelled(Pieces(raw).value)
    decreases |raw|
  {
    hide FindPair, FirstBracket, StrayClose, PlainText, OrdinaryName, MalformedName;
    match FirstBracket(raw)
    case NoBracket =>
      NoPairNoBracket(raw);
      PlainHasNoPair(raw);
    case Bracket(open, name, end) =>
      FoundIsSpelled(raw[end..]);
      BeforeMarker(raw);
      NamesAgree(name);
      var rest := Pieces(raw[end..]).value;
      var all := [Literal(raw[..open]), Slot(name)] + rest;
      assert all[2..] == rest && |rest| >= 1;
  }

  /** The strict passes read exactly the templates of the grammar, as the pieces they are spelled with. */
  lemma PiecesExactly(raw: string, pieces: seq<Piece>)
    ensures Pieces(raw) == Some(pieces) <==> Spelled(pieces) && Source(pieces) == raw
  {
    hide Pieces, Spelled, Source;
    if Pieces(raw) == Some(pieces) {
      FoundIsSpelled(raw);
      PiecesCoverSource(raw);
    }
    if Spelled(pieces) && Source(pieces) == raw { SpelledIsFound(pieces); }
  }

  // ----- ordinary templates -----

  /** Slots with ordinary names that have values, and text without braces, in any order. */
  predicate Ordinary(pieces: seq<Piece>, vars: Variables) {
    forall i :: 0 <= i < |pieces| ==>
      match pieces[i]
      case Literal(text) => '{' !in text && '}' !in text
      case Slot(name) => OrdinaryName(name) && name in vars
  }

  /** The same with neighbouring texts joined, `text` in front. */
  function Joined(text: string, pieces: seq<Piece>): seq<Piece>
    decreases |pieces|
  {
    if pieces == [] then [Literal(text)]
    else
      match pieces[0]
      case Literal(more) => Joined(text + more, pieces[1..])
      case Slot(name) => [Literal(text), Slot(name)] + Joined("", pieces[1..])
  }

  lemma BraceFree(text: string)
    requires '{' !in text && '}' !in text
    ensures PlainText(text) && (text == "" || text[|text| - 1] != '{')
  {
  }

  lemma OrdinaryTail(pieces: seq<Piece>, vars: Variables)
    requires Ordinary(pieces, vars) && pieces != []
    ensures Ordinary(pieces[1..], vars)
    ensures pieces[0].Literal? ==> '{' !in pieces[0].text && '}' !in pieces[0].text
    ensures pieces[0].Slot? ==> OrdinaryName(pieces[0].name) && pieces[0].name in vars
  {
    var rest := pieces[1..];
    forall i | 0 <= i < |rest|
      ensures match rest[i]
              case Literal(t) => '{' !in t && '}' !in t
              case Slot(name) => OrdinaryName(name) && name in vars {
      assert rest[i] == pieces[i + 1];
    }
  }

  /** What the first piece adds to the text, to the expansion and to the count. */
  lemma FirstPiece(pieces: seq<Piece>, vars: Variables)
    requires pieces != [] && Filled(pieces[1..], vars) && (pieces[0].Slot? ==> pieces[0].name in vars)
    ensures Filled(pieces, vars)
    ensures pieces[0].Literal? ==>
      && Source(pieces) == pieces[0].text + Source(pieces[1..])
      && Fill(pieces, vars) == pieces[0].text + Fill(pieces[1..], vars) && Slots(pieces) == Slots(pieces[1..])
    ensures pieces[0].Slot? ==>
      && Source(pieces) == "{{" + pieces[0].name + "}}" + Source(pieces[1..])
      && Fill(pieces, vars) == vars[pieces[0].name] + Fill(pieces[1..], vars) && Slots(pieces) == 1 + Slots(pieces[1..])
  {
    assert forall i :: 1 <= i < |pieces| ==> pieces[i] == pieces[1..][i - 1];
  }

  lemma Group(a: string, b: string, c: string)
    ensures (a + b) + c == a + (b + c)
  {
  }

  lemma LoneText(text: string, vars: Variables)
    requires PlainText(text)
    ensures Spelled([Literal(text)]) && Source([Literal(text)]) == text + ""
    ensures Filled([Literal(text)], vars) && Fill([Literal(text)], vars) == text + "" && Slots([Literal(text)]) == 0
  {
    assert [Literal(text)][1..] == [];
  }

  lemma SlotSpelled(text: string, name: string, tail: seq<Piece>)
    requires PlainText(text) && (text == "" || text[|text| - 1] != '{') && OrdinaryName(name) && Spelled(tail)
    ensures Spelled([Literal(text), Slot(name)] + tail)
  {
    assert ([Literal(text), Slot(name)] + tail)[2..] == tail;
  }

  lemma JoinedParts(text: string, pieces: seq<Piece>)
    requires pieces != []
    ensures pieces[0].Literal? ==> Joined(text, pieces) == Joined(text + pieces[0].text, pieces[1..])
    ensures pieces[0].Slot? ==>
      Joined(text, pieces) == [Literal(text), Slot(pieces[0].name)] + Joined("", pieces[1..])
  {
  }

  lemma {:induction false} JoinedIsSpelled(text: string, pieces: seq<Piece>, vars: Variables)
    requires Ordinary(pieces, vars) && '{' !in text && '}' !in text
    ensures Spelled(Joined(text, pieces)) && Source(Joined(text, pieces)) == text + Source(pieces)
    ensures Filled(pieces, vars) && Filled(Joined(text, pieces), vars)
    ensures Fill(Joined(text, pieces), vars) == text + Fill(pieces, vars)
    ensures Slots(Joined(text, pieces)) == Slots(pieces)
    decreases |pieces|
  {
    BraceFree(text);
    if pieces == [] {
      LoneText(text, vars);
    } else {
      hide *;
      var rest := pieces[1..];
      OrdinaryTail(pieces, vars);
      JoinedParts(text, pieces);
      match pieces[0]
      case Literal(more) =>
        JoinedIsSpelled(text + more, rest, vars);
        FirstPiece(pieces, vars);
        Group(text, more, Source(rest));
        Group(text, more, Fill(rest, vars));
      case Slot(name) =>
        JoinedIsSpelled("", rest, vars);
        FirstPiece(pieces, vars);
        var tail := Joined("", rest);
        assert "" + Source(rest) == Source(rest) && "" + Fill(rest, vars) == Fill(rest, vars);
        SlotSpelled(text, name, tail);
        TwoPieces(text, name, tail);
        TwoFilled(text, name, tail, vars);
        Group(text, vars[name], Fill(rest, vars));
    }
  }

  /** Every ordinary template is accepted, counts its slots, and renders to its texts and values in
      order. */
  lemma OrdinaryTemplates(pieces: seq<Piece>, vars: Variables)
    requires Ordinary(pieces, vars)
    ensures Measurable(Source(pieces), vars) && Filled(pieces, vars)
    ensures Fill(Pieces(Source(pieces)).value, vars) == Fill(pieces, vars)
    ensures Slots(Pieces(Source(pieces)).value) == Slots(pieces)
    ensures Rendered(Source(pieces), vars, true) == Some(Fill(pieces, vars))
  {
    hide Pieces, Spelled, Source, Fill, Slots, Joined, Rendered, Ordinary, Filled;
    JoinedIsSpelled("", pieces, vars);
    var joined := Joined("", pieces);
    assert "" + Source(pieces) == Source(pieces) && "" + Fill(pieces, vars) == Fill(pieces, vars);
    PiecesExactly(Source(pieces), joined);
    StrictRenders(Source(pieces), vars);
  }

  /** A marker whose name is empty or has a brace is refused, whatever follows it and whatever the
      variables are. */
  lemma BadNamesRefused(text: string, name: string, rest: string, vars: Variables)
    requires PlainText(text) && (text == "" || text[|text| - 1] != '{')
    requires PlainText(name) && (name == "" || name[|name| - 1] != '}') && !OrdinaryName(name)
    ensures !Measurable(text + ("{{" + name + "}}" + rest), vars)
  {
    hide FindPair, FirstBracket, StrayClose, PlainText, OrdinaryName, MalformedName;
    FirstMarker(text, name, rest);
    NamesAgree(name);
  }

  // ----- where the markers stand -----

  /** The bytes of each slot, for a text that starts at byte `at`. */
  function SlotSpans(pieces: seq<Piece>, at: nat): seq<Span> {
    if pieces == [] then []
    else
      match pieces[0]
      case Literal(text) => SlotSpans(pieces[1..], at + Bytes(text))
      case Slot(name) =>
        var end := at + Bytes("{{" + name + "}}");
        [Span(at, end)] + SlotSpans(pieces[1..], end)
  }

  lemma TwoSlotSpans(text: string, name: string, rest: seq<Piece>, at: nat)
    ensures var start := at + Bytes(text); var end := start + Bytes("{{" + name + "}}");
      SlotSpans([Literal(text), Slot(name)] + rest, at) == [Span(start, end)] + SlotSpans(rest, end)
  {
    var all := [Literal(text), Slot(name)] + rest;
    assert all[1..] == [Slot(name)] + rest && all[1..][1..] == rest;
  }

  /** The markers that are looked for in a template are its slots. */
  lemma {:induction false} MarkersAreSlots(raw: string, cursor: nat)
    requires cursor <= |raw| && Pieces(raw[cursor..]).Some?
    ensures MarkerSpans(raw, cursor) == Some(SlotSpans(Pieces(raw[cursor..]).value, Bytes(raw[..cursor])))
    decreases |raw| - cursor
  {
    hide FindPair, FirstBracket, StrayClose, MalformedName, Bytes, SlotSpans;
    var rest := raw[cursor..];
    match FirstBracket(rest)
    case NoBracket => LoneSlotSpans(rest, Bytes(raw[..cursor]));
    case Bracket(open, name, end) =>
      DropDrop(raw, cursor, end);
      MarkersAreSlots(raw, cursor + end);
      TwoSlotSpans(rest[..open], name, Pieces(rest[end..]).value, Bytes(raw[..cursor]));
      assert raw[..cursor + open] == raw[..cursor] + rest[..open];
      assert raw[..cursor + end] == raw[..cursor + open] + rest[open..end];
      BytesConcat(raw[..cursor], rest[..open]);
      BytesConcat(raw[..cursor + open], rest[open..end]);
  }

  lemma LoneSlotSpans(text: string, at: nat)
    ensures SlotSpans([Literal(text)], at) == []
  {
    assert [Literal(text)][1..] == [];
  }

  /** A slot stands between the quotes of some string literal. */
  ghost predicate Enclosed(slot: Span, spans: seq<Span>) {
    exists i :: 0 <= i < |spans| && spans[i].start + 1 <= slot.start && slot.end + 1 <= spans[i].end
  }

  /** The markers of a template are inside strings exactly when all its slots are. */
  lemma MarkersInsideExactly(raw: string, spans: seq<Span>)
    requires Pieces(raw).Some?
    ensures var slots := SlotSpans(Pieces(raw).value, 0);
      MarkersInside(raw, 0, spans) <==> forall k :: 0 <= k < |slots| ==> Enclosed(slots[k], spans)
  {
    hide Pieces, SlotSpans, MarkerSpans, InsideSome, Enclosed;
    assert raw[0..] == raw && raw[..0] == "" && Bytes("") == 0;
    MarkersAreSlots(raw, 0);
    var slots := SlotSpans(Pieces(raw).value, 0);
    forall k | 0 <= k < |slots| ensures InsideSome(slots[k], spans) <==> Enclosed(slots[k], spans) {
      InsideIsEnclosed(slots[k], spans);
    }
  }

  lemma InsideIsEnclosed(slot: Span, spans: seq<Span>)
    ensures InsideSome(slot, spans) <==> Enclosed(slot, spans)
  {
    if InsideSome(slot, spans) {
      var i :| 0 <= i < |spans| && Inside(slot, spans[i]);
      assert spans[i].start + 1 <= slot.start;
    }
    if Enclosed(slot, spans) {
      var i :| 0 <= i < |spans| && spans[i].start + 1 <= slot.start && slot.end + 1 <= spans[i].end;
      assert Inside(slot, spans[i]);
    }
  }
}
