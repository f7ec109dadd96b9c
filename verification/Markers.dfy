/** Placeholder markers of a `when` expression and its string literals: one span index that only moves
    forward gives the verdict of comparing every marker with every string. */
module Markers {
  import opened Text
  import opened Tokens
  import opened LexerSpec
  import opened LexerFacts
  import opened Spanned
  import opened ParseSpec
  import opened Soundness
  import opened RoundTrip
  import opened Template

  // ----- string spans are in source order -----

  ghost predicate Sorted(spans: seq<Span>) {
    && (forall i :: 0 <= i < |spans| ==> spans[i].start < spans[i].end)
    && (forall i, j :: 0 <= i < j < |spans| ==> spans[i].end <= spans[j].start)
  }

  ghost predicate EndBy(spans: seq<Span>, bound: nat) {
    forall i :: 0 <= i < |spans| ==> spans[i].end <= bound
  }

  lemma {:induction false} StringTokensSorted(codec: FloatCodec, toks: seq<Token>, total: nat, j: nat)
    requires |toks| > 0 && InOrder(codec, toks[..|toks| - 1], total) && j <= |toks| - 1
    ensures Sorted(StringTokens(toks, 0, j))
    ensures EndBy(StringTokens(toks, 0, j), if j == 0 then 0 else toks[j - 1].span.end)
    decreases j
  {
    if j > 0 {
      StringTokensSorted(codec, toks, total, j - 1);
      var init := toks[..|toks| - 1];
      InOrderAt(codec, init, total, j - 1, j - 1);
      if j > 1 { InOrderAt(codec, init, total, j - 2, j - 1); }
    }
  }

  /** The string leaves of an accepted AST, left to right, have ordered, disjoint spans. */
  lemma StringSpansSorted(codec: FloatCodec, input: string, limits: ParseLimits)
    requires CodecValid(codec) && ParseExpression(codec, input, limits).Accepted?
    ensures Sorted(StringSpans(ParseExpression(codec, input, limits).ast))
    ensures EndBy(StringSpans(ParseExpression(codec, input, limits).ast), Bytes(input))
  {
    hide Tokenize, ParseTokens, Run, StringTokens;
    var toks := Tokenize(codec, input, limits).tokens;
    TokenizeSound(codec, input, limits);
    LexedTokens(codec, input, limits);
    var c := ParserSound(toks, limits);
    StringTokensSorted(codec, toks, Bytes(input), |toks| - 1);
    if |toks| > 1 {
      InOrderAt(codec, toks[..|toks| - 1], Bytes(input), |toks| - 2, |toks| - 2);
    }
  }

  // ----- markers -----

  /** Byte spans of the markers from `cursor` on; nothing when one is never closed. */
  function MarkerSpans(raw: string, cursor: nat): Option<seq<Span>>
    requires cursor <= |raw|
    decreases |raw| - cursor
  {
    var rest := raw[cursor..];
    match FirstBracket(rest)
    case NoBracket => if FindPair(rest, '{').Some? then None else Some([])
    case Bracket(open, _, end) =>
      match MarkerSpans(raw, cursor + end)
      case None => None
      case Some(later) =>
        Some([Span(Bytes(raw[..cursor + open]), Bytes(raw[..cursor + end]))] + later)
  }

  predicate Inside(marker: Span, span: Span) { span.start < marker.start && marker.end < span.end }

  ghost predicate InsideSome(marker: Span, spans: seq<Span>) {
    exists i :: 0 <= i < |spans| && Inside(marker, spans[i])
  }

  /** Every marker is closed and stands strictly inside some string. */
  ghost predicate MarkersInside(raw: string, cursor: nat, spans: seq<Span>)
    requires cursor <= |raw|
  {
    MarkerSpans(raw, cursor).Some? && AllInside(MarkerSpans(raw, cursor).value, spans)
  }

  lemma BytesMonotone(raw: string, i: nat, j: nat)
    requires i <= j <= |raw|
    ensures Bytes(raw[..i]) <= Bytes(raw[..j])
    ensures i < j ==> Bytes(raw[..i]) < Bytes(raw[..j])
  {
    assert raw[..j] == raw[..i] + raw[i..j];
    BytesConcat(raw[..i], raw[i..j]);
    BytesAtLeastLength(raw[i..j]);
  }

  ghost predicate AllInside(markers: seq<Span>, spans: seq<Span>) {
    forall k :: 0 <= k < |markers| ==> InsideSome(markers[k], spans)
  }

  lemma AllInsideFirst(first: Span, later: seq<Span>, spans: seq<Span>)
    ensures AllInside([first] + later, spans) <==> InsideSome(first, spans) && AllInside(later, spans)
  {
    hide InsideSome;
    var all := [first] + later;
    if AllInside(all, spans) {
      assert all[0] == first;
      forall k | 0 <= k < |later| ensures InsideSome(later[k], spans) { assert all[k + 1] == later[k]; }
    }
    if InsideSome(first, spans) && AllInside(later, spans) {
      forall k | 0 <= k < |all| ensures InsideSome(all[k], spans) {
        if k > 0 { assert all[k] == later[k - 1]; }
      }
    }
  }

  lemma AcceptsMarker(raw: string, cursor: nat, spans: seq<Span>)
    requires cursor <= |raw| && FirstBracket(raw[cursor..]).Bracket?
    ensures var b := FirstBracket(raw[cursor..]);
      var marker := Span(Bytes(raw[..cursor + b.open]), Bytes(raw[..cursor + b.end]));
      MarkersInside(raw, cursor, spans) <==> InsideSome(marker, spans) && MarkersInside(raw, cursor + b.end, spans)
  {
    hide FirstBracket, InsideSome, AllInside;
    var b := FirstBracket(raw[cursor..]);
    var marker := Span(Bytes(raw[..cursor + b.open]), Bytes(raw[..cursor + b.end]));
    var later := MarkerSpans(raw, cursor + b.end);
    if later.Some? { AllInsideFirst(marker, later.value, spans); }
  }

  /** Once the span index has passed every string that ends by the marker's start, only the string it
      points at can contain the marker. */
  lemma SpanIndexDecides(spans: seq<Span>, index: nat, marker: Span)
    requires Sorted(spans) && index <= |spans| && marker.start < marker.end
    requires EndBy(spans[..index], marker.start)
    requires index < |spans| ==> spans[index].end > marker.start
    ensures InsideSome(marker, spans) <==> index < |spans| && Inside(marker, spans[index])
  {
    forall k | 0 <= k < index ensures spans[k].end <= marker.start { assert spans[..index][k] == spans[k]; }
    if InsideSome(marker, spans) {
      var i :| 0 <= i < |spans| && Inside(marker, spans[i]);
      assert i == index;
    }
  }

  /** The forward-only span index accepts exactly when every marker is closed and inside a string. */
  method RejectMarkersOutsideStrings(raw: string, spans: seq<Span>) returns (error: Option<RenderError>)
    requires Sorted(spans)
    ensures error.None? <==> MarkersInside(raw, 0, spans)
    ensures error.Some? ==> error.value == MalformedMarker || error.value == MarkerOutsideString
    ensures error == Some(MalformedMarker) ==> MarkerSpans(raw, 0).None?
    ensures error == Some(MarkerOutsideString) ==>
      exists marker :: StandsIn(raw, marker) && !InsideSome(marker, spans)
  {
    hide Bytes, FirstBracket, FindPair, MarkerSpans, MarkersInside, InsideSome, StandsIn;
    var cursor, spanIndex: nat := 0, 0;
    while true
      invariant cursor <= |raw| && spanIndex <= |spans|
      invariant EndBy(spans[..spanIndex], Bytes(raw[..cursor]))
      invariant MarkersInside(raw, 0, spans) <==> MarkersInside(raw, cursor, spans)
      invariant MarkerSpans(raw, 0).Some? <==> MarkerSpans(raw, cursor).Some?
      decreases |raw| - cursor
    {
      var bracket := FirstBracket(raw[cursor..]);
      if bracket.NoBracket? {
        NoMarkerLeft(raw, cursor, spans);
        return if FindPair(raw[cursor..], '{').Some? then Some(MalformedMarker) else None;
      }
      var marker := Span(Bytes(raw[..cursor + bracket.open]), Bytes(raw[..cursor + bracket.end]));
      AcceptsMarker(raw, cursor, spans);
      NextMarker(raw, cursor);
      BytesMonotone(raw, cursor, cursor + bracket.open);
      BytesMonotone(raw, cursor + bracket.open, cursor + bracket.end);
      while spanIndex < |spans| && spans[spanIndex].end <= marker.start
        invariant spanIndex <= |spans|
        invariant EndBy(spans[..spanIndex], marker.start)
      {
        spanIndex := spanIndex + 1;
      }
      SpanIndexDecides(spans, spanIndex, marker);
      if !(spanIndex < |spans| && Inside(marker, spans[spanIndex])) {
        MarkerStands(raw, cursor);
        return Some(MarkerOutsideString);
      }
      cursor := cursor + bracket.end;
    }
  }

  lemma NextMarker(raw: string, cursor: nat)
    requires cursor <= |raw| && FirstBracket(raw[cursor..]).Bracket?
    ensures MarkerSpans(raw, cursor).Some? <==> MarkerSpans(raw, cursor + FirstBracket(raw[cursor..]).end).Some?
  {
  }

  /** A doubled opening brace and a doubled closing brace, from the first byte to the last. */
  ghost predicate StandsIn(raw: string, marker: Span) {
    exists i, j {:trigger raw[i..j]} :: 0 <= i && i + 4 <= j <= |raw| && "{{" <= raw[i..j] && raw[j - 2..j] == "}}"
      && marker == Span(Bytes(raw[..i]), Bytes(raw[..j]))
  }

  lemma MarkerStands(raw: string, cursor: nat)
    requires cursor <= |raw| && FirstBracket(raw[cursor..]).Bracket?
    ensures var b := FirstBracket(raw[cursor..]);
      StandsIn(raw, Span(Bytes(raw[..cursor + b.open]), Bytes(raw[..cursor + b.end])))
  {
    hide FirstBracket, Bytes;
    var b := FirstBracket(raw[cursor..]);
    var i, j := cursor + b.open, cursor + b.end;
    var text := "{{" + b.name + "}}";
    assert raw[i..j] == raw[cursor..][b.open..b.end] == text;
    assert text[..2] == "{{" && raw[j - 2..j] == text[|text| - 2..] == "}}";
  }

  lemma NoMarkerLeft(raw: string, cursor: nat, spans: seq<Span>)
    requires cursor <= |raw| && FirstBracket(raw[cursor..]).NoBracket?
    ensures MarkersInside(raw, cursor, spans) <==> FindPair(raw[cursor..], '{').None?
    ensures FindPair(raw[cursor..], '{').Some? ==> MarkerSpans(raw, cursor).None?
  {
  }
}
