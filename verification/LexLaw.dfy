/** The lexer against the lexical grammar, for whole texts, and what follows for comments and blanks. */
module LexLaw {
  import opened Text
  import opened Tokens
  import opened LexerSpec
  import opened LexerFacts
  import opened Lexical
  import opened Lexing

  function EndToken(at: nat): Token { Token(Eof, Span(at, at)) }

  // ----- accepted texts can be cut -----

  lemma StepKeepsReports(codec: FloatCodec, limits: ParseLimits, st: LexState)
    requires st.diags != [] && st.rest != ""
    ensures Step(codec, st, limits).diags != []
  {
    hide Bytes, StringBody, NumeralValue, Punctuation, WordKind, FloatRun, DigitRun, IdentRun;
    if st.rest[0] == '\"' || st.rest[0] == '\'' {
      BodyKeepsReports(limits, Advance(st, 1), st.rest[0], st.offset, "");
    }
  }

  lemma {:induction false} RunKeepsReports(codec: FloatCodec, limits: ParseLimits, st: LexState)
    requires st.diags != []
    ensures Run(codec, st, limits).diags != []
    decreases |st.rest|
  {
    hide Step;
    if !st.stopped && st.rest != "" {
      StepKeepsReports(codec, limits, st);
      var next := Step(codec, st, limits);
      if !next.stopped { RunKeepsReports(codec, limits, next); }
    }
  }

  lemma CoversGap(codec: FloatCodec, s: string, at: nat, toks: seq<Token>, n: nat)
    requires 0 < n <= |s| && Gap(s[..n], s[n..]) && Covers(codec, s[n..], at + Bytes(s[..n]), toks)
    ensures Covers(codec, s, at, toks)
  {
    hide Gap, Spells, Bytes;
    assert CutAt(codec, s, at, toks, n);
  }

  lemma CoversToken(codec: FloatCodec, s: string, at: nat, kind: Kind, rest: seq<Token>, n: nat)
    requires 0 < n <= |s| && Spells(codec, s[..n], kind, s[n..]) && Covers(codec, s[n..], at + Bytes(s[..n]), rest)
    ensures Covers(codec, s, at, [Token(kind, Span(at, at + Bytes(s[..n])))] + rest)
  {
    hide Gap, Spells, Bytes;
    var toks := [Token(kind, Span(at, at + Bytes(s[..n])))] + rest;
    assert toks[1..] == rest;
    assert CutAt(codec, s, at, toks, n);
  }

  lemma CutBytes(s: string, n: nat)
    requires n <= |s|
    ensures Bytes(s) == Bytes(s[..n]) + Bytes(s[n..])
  {
    assert s[..n] + s[n..] == s;
    BytesConcat(s[..n], s[n..]);
  }

  lemma {:induction false} RunCovered(codec: FloatCodec, limits: ParseLimits, st: LexState) returns (toks: seq<Token>)
    requires Quiet(st) && Run(codec, st, limits).diags == []
    ensures Covers(codec, st.rest, st.offset, toks)
    ensures Run(codec, st, limits).tokens == st.tokens + toks + [EndToken(st.offset + Bytes(st.rest))]
    decreases |st.rest|
  {
    hide Step, Gap, Spells, Covers, Bytes;
    if st.rest == "" {
      toks := [];
      NothingCovered(codec, st.rest, st.offset);
      assert st.tokens + toks == st.tokens;
    } else {
      var next := Step(codec, st, limits);
      if next.diags != [] {
        if !next.stopped { RunKeepsReports(codec, limits, next); }
      } else {
        var n, kind := StepCuts(codec, limits, st);
        CutBytes(st.rest, n);
        var rest := RunCovered(codec, limits, next);
        match kind
        case None =>
          CoversGap(codec, st.rest, st.offset, rest, n);
          toks := rest;
        case Some(k) =>
          CoversToken(codec, st.rest, st.offset, k, rest, n);
          toks := [Token(k, Span(st.offset, next.offset))] + rest;
          assert st.tokens + [Token(k, Span(st.offset, next.offset))] + rest == st.tokens + toks;
      }
    }
  }

  lemma NothingCovered(codec: FloatCodec, s: string, at: nat)
    requires s == ""
    ensures forall toks :: Covers(codec, s, at, toks) <==> toks == []
    ensures Bytes(s) == 0
  {
  }

  // ----- texts that can be cut are accepted -----

  lemma SumFirst(toks: seq<Token>)
    requires toks != []
    ensures ScalarSum(Kinds(toks)) == KindScalars(toks[0].kind) + ScalarSum(Kinds(toks[1..]))
  {
    hide KindScalars;
    assert Kinds(toks) == [toks[0].kind] + Kinds(toks[1..]);
    ScalarSumConcat([toks[0].kind], Kinds(toks[1..]));
    assert [toks[0].kind][..0] == [];
  }

  lemma {:induction false} CoveredRuns(codec: FloatCodec, limits: ParseLimits, st: LexState, toks: seq<Token>)
    requires Quiet(st) && Covers(codec, st.rest, st.offset, toks)
    requires |st.tokens| + |toks| + 1 <= limits.maxTokens
    requires st.scalars + ScalarSum(Kinds(toks)) <= limits.maxScalarBytes
    ensures Run(codec, st, limits).diags == []
    ensures Run(codec, st, limits).tokens == st.tokens + toks + [EndToken(st.offset + Bytes(st.rest))]
    decreases |st.rest|
  {
    hide Step, Gap, Spells, ScalarSum, Kinds, KindScalars, Bytes;
    if st.rest == "" {
      NothingCovered(codec, st.rest, st.offset);
      assert st.tokens + [] == st.tokens;
    } else {
      var n: nat :| CutAt(codec, st.rest, st.offset, toks, n);
      CutBytes(st.rest, n);
      Moved(st, n);
      if Gap(st.rest[..n], st.rest[n..]) && Covers(codec, st.rest[n..], st.offset + Bytes(st.rest[..n]), toks) {
        GapRead(codec, limits, st, n);
        CoveredRuns(codec, limits, Advance(st, n), toks);
      } else {
        var kind := toks[0].kind;
        SumFirst(toks);
        TokenRead(codec, limits, st, n, kind);
        var next := After(st, n, kind);
        CoveredRuns(codec, limits, next, toks[1..]);
        assert toks == [toks[0]] + toks[1..];
        assert st.tokens + [toks[0]] + toks[1..] == st.tokens + toks;
      }
    }
  }

  // ----- exactly -----

  /** The lexer accepts exactly the texts that can be cut, within the limits, and its tokens are the ones
      they are cut into. */
  lemma LexesExactly(codec: FloatCodec, input: string, limits: ParseLimits, toks: seq<Token>)
    requires CodecValid(codec)
    ensures Tokenize(codec, input, limits) == Lexed(toks + [EndToken(Bytes(input))]) <==>
      && Covers(codec, input, 0, toks) && Bytes(input) <= limits.maxSourceBytes
      && |toks| + 1 <= limits.maxTokens && ScalarSum(Kinds(toks)) <= limits.maxScalarBytes
  {
    hide Covers, ScalarSum, Bytes, CodecValid, Run, InOrder;
    var st := Start(input);
    if Tokenize(codec, input, limits) == Lexed(toks + [EndToken(Bytes(input))]) {
      TokenizeSound(codec, input, limits);
      var found := RunCovered(codec, limits, st);
      assert [] + found + [EndToken(Bytes(input))] == found + [EndToken(Bytes(input))];
      assert (toks + [EndToken(Bytes(input))])[..|toks|] == toks;
      assert (found + [EndToken(Bytes(input))])[..|found|] == found;
      EndIsFree(toks, Bytes(input));
    }
    if Covers(codec, input, 0, toks) && Bytes(input) <= limits.maxSourceBytes
       && |toks| + 1 <= limits.maxTokens && ScalarSum(Kinds(toks)) <= limits.maxScalarBytes {
      CoveredRuns(codec, limits, st, toks);
      assert [] + toks + [EndToken(Bytes(input))] == toks + [EndToken(Bytes(input))];
    }
  }

  lemma EndIsFree(toks: seq<Token>, at: nat)
    ensures ScalarSum(Kinds(toks + [EndToken(at)])) == ScalarSum(Kinds(toks))
    ensures |toks + [EndToken(at)]| == |toks| + 1
  {
    assert Kinds(toks + [EndToken(at)]) == Kinds(toks) + [Eof];
    ScalarSumConcat(Kinds(toks), [Eof]);
    assert [Eof][..0] == [];
  }

  /** Every accepted text has been cut. */
  lemma LexedIsCut(codec: FloatCodec, input: string, limits: ParseLimits) returns (toks: seq<Token>)
    requires CodecValid(codec) && Tokenize(codec, input, limits).Lexed?
    ensures Tokenize(codec, input, limits) == Lexed(toks + [EndToken(Bytes(input))])
    ensures Covers(codec, input, 0, toks)
  {
    hide Covers, Bytes, CodecValid, InOrder, ScalarSum;
    TokenizeSound(codec, input, limits);
    var all := Tokenize(codec, input, limits).tokens;
    toks := all[..|all| - 1];
    assert all == toks + [EndToken(Bytes(input))];
    LexesExactly(codec, input, limits, toks);
  }

  // ----- blanks and comments -----

  function Shifted(toks: seq<Token>, shift: nat): seq<Token> {
    seq(|toks|, i requires 0 <= i < |toks| => Token(toks[i].kind, Span(toks[i].span.start + shift, toks[i].span.end + shift)))
  }

  lemma {:induction false} CoversShifted(codec: FloatCodec, s: string, at: nat, toks: seq<Token>, shift: nat)
    requires Covers(codec, s, at, toks)
    ensures Covers(codec, s, at + shift, Shifted(toks, shift))
    decreases |s|
  {
    hide Gap, Spells, Bytes;
    if s != "" {
      var n: nat :| CutAt(codec, s, at, toks, n);
      if Gap(s[..n], s[n..]) && Covers(codec, s[n..], at + Bytes(s[..n]), toks) {
        CoversShifted(codec, s[n..], at + Bytes(s[..n]), toks, shift);
        CoversGap(codec, s, at + shift, Shifted(toks, shift), n);
      } else {
        CoversShifted(codec, s[n..], at + Bytes(s[..n]), toks[1..], shift);
        CoversToken(codec, s, at + shift, toks[0].kind, Shifted(toks[1..], shift), n);
        assert Shifted(toks, shift) == [Shifted(toks, shift)[0]] + Shifted(toks[1..], shift);
      }
    }
  }

  /** A comment, or a blank, in front of a text moves its tokens and does nothing else: for every text and
      all limits that let both texts in. */
  lemma GapIsSkipped(codec: FloatCodec, gap: string, rest: string, limits: ParseLimits)
    requires CodecValid(codec) && Gap(gap, rest) && Tokenize(codec, rest, limits).Lexed?
    requires Bytes(gap + rest) <= limits.maxSourceBytes
    ensures Tokenize(codec, gap + rest, limits) == Lexed(Shifted(Tokenize(codec, rest, limits).tokens, Bytes(gap)))
  {
    hide Covers, Gap, Bytes, CodecValid, ScalarSum, Tokenize, KindScalars;
    var toks := LexedIsCut(codec, rest, limits);
    LexesExactly(codec, rest, limits, toks);
    var text := gap + rest;
    CoversShifted(codec, rest, 0, toks, Bytes(gap));
    var moved := Shifted(toks, Bytes(gap));
    assert text[..|gap|] == gap && text[|gap|..] == rest;
    GapText(gap, rest);
    CoversGap(codec, text, 0, moved, |gap|);
    assert Kinds(moved) == Kinds(toks);
    LexesExactly(codec, text, limits, moved);
    BytesConcat(gap, rest);
    assert moved + [EndToken(Bytes(text))] == Shifted(toks + [EndToken(Bytes(rest))], Bytes(gap));
  }

  lemma GapText(gap: string, rest: string)
    requires Gap(gap, rest)
    ensures gap != ""
  {
  }

  /** A comment ends at its first newline, or at the end of the text. */
  lemma CommentsEnd(codec: FloatCodec, c: string, rest: string, limits: ParseLimits)
    requires CodecValid(codec) && '\n' !in c
    ensures Tokenize(codec, rest, limits).Lexed? && Bytes("//" + c + "\n" + rest) <= limits.maxSourceBytes ==>
      Tokenize(codec, "//" + c + "\n" + rest, limits)
        == Lexed(Shifted(Tokenize(codec, rest, limits).tokens, Bytes("//" + c + "\n")))
    ensures Bytes("//" + c) <= limits.maxSourceBytes && limits.maxTokens >= 1 ==>
      Tokenize(codec, "//" + c, limits) == Lexed([EndToken(Bytes("//" + c))])
  {
    hide Covers, Bytes, CodecValid, Tokenize, Shifted;
    var line := "//" + c + "\n";
    assert Gap(line, rest);
    if Tokenize(codec, rest, limits).Lexed? && Bytes(line + rest) <= limits.maxSourceBytes { GapIsSkipped(codec, line, rest, limits); }
    var last := "//" + c;
    assert Gap(last, "");
    if Bytes(last) <= limits.maxSourceBytes && limits.maxTokens >= 1 {
      NothingCovered(codec, "", Bytes(last));
      assert last[..|last|] == last && last[|last|..] == "";
      CoversGap(codec, last, 0, [], |last|);
      NoScalars();
      LexesExactly(codec, last, limits, []);
      assert [] + [EndToken(Bytes(last))] == [EndToken(Bytes(last))];
    }
  }

  lemma NoScalars()
    ensures ScalarSum(Kinds([])) == 0
  {
    assert Kinds([]) == [];
  }

  // ----- how much is reported -----

  /** No more than the limit, or the one report of the limit that stopped the run. */
  predicate ReportsWithin(limits: ParseLimits, st: LexState) {
    if st.stopped then |st.diags| == 1 else |st.diags| <= limits.maxDiagnostics
  }

  lemma {:induction false} BodyReports(limits: ParseLimits, st: LexState, quote: char, start: nat, value: string)
    requires ReportsWithin(limits, st) && !st.stopped
    ensures ReportsWithin(limits, StringBody(st, limits, quote, start, value))
    decreases |st.rest|
  {
    hide Bytes, CharBytes, Unescape;
    if st.rest != "" && st.rest[0] != quote {
      if st.rest[0] == '\\' {
        if |st.rest| > 1 {
          var st2 := Advance(Advance(st, 1), 1);
          match Unescape(st.rest[1])
          case Some(c) =>
            var st3 := ChargeScalars(st2, limits, CharBytes(c), Span(start, st2.offset));
            if !st3.stopped { BodyReports(limits, st3, quote, start, value + [c]); }
          case None =>
            var st3 := PushDiagnostic(st2, limits, UnsupportedEscape, Span(st.offset, st2.offset));
            if !st3.stopped { BodyReports(limits, st3, quote, start, value); }
        }
      } else {
        var c := st.rest[0];
        var st1 := Advance(ChargeScalars(st, limits, CharBytes(c), Span(start, st.offset)), 1);
        if !st1.stopped { BodyReports(limits, st1, quote, start, value + [c]); }
      }
    }
  }

  lemma StepReports(codec: FloatCodec, limits: ParseLimits, st: LexState)
    requires st.rest != "" && ReportsWithin(limits, st) && !st.stopped
    ensures ReportsWithin(limits, Step(codec, st, limits))
  {
    hide Bytes, StringBody, NumeralValue, Punctuation, WordKind, FloatRun, DigitRun, IdentRun;
    if (st.rest[0] == '\"' || st.rest[0] == '\'') && HasTokenCapacity(st, limits) {
      BodyReports(limits, Advance(st, 1), st.rest[0], st.offset, "");
    }
  }

  lemma {:induction false} RunReports(codec: FloatCodec, limits: ParseLimits, st: LexState)
    requires ReportsWithin(limits, st)
    ensures ReportsWithin(limits, Run(codec, st, limits))
    decreases |st.rest|
  {
    hide Step;
    if !st.stopped && st.rest != "" {
      StepReports(codec, limits, st);
      var next := Step(codec, st, limits);
      if !next.stopped { RunReports(codec, limits, next); }
    }
  }

  /** A refused text has at least one diagnostic, and no more than the limit allows where that is any. */
  lemma DiagnosticsWithin(codec: FloatCodec, input: string, limits: ParseLimits)
    requires Tokenize(codec, input, limits).LexFailed?
    ensures var n := |Tokenize(codec, input, limits).diags|;
      1 <= n && (n <= limits.maxDiagnostics || n == 1)
  {
    hide Run, Bytes;
    RunReports(codec, limits, Start(input));
  }
}
