/** Printed literals, against the lexical grammar: of all the ways to spell a string on one line or an integer,
    the printer takes the shortest. */
module Literals {
  import opened Text
  import opened Tokens
  import opened Lexical
  import opened Canonical
  import opened Printed
  import S = Syntax

  /** No raw newline, carriage return or tab. */
  predicate OneLine(s: string) { '\n' !in s && '\r' !in s && '\t' !in s }

  function Inside(text: string): string { Escaped(text, "") }

  lemma InsideFirst(text: string)
    requires text != ""
    ensures Inside(text) == EscapeChar(text[0]) + Inside(text[1..])
  {
  }

  /** A character stands for itself unless it would end the literal, begin an escape, or break the line. */
  lemma EscapesOnlyThose(c: char)
    ensures c != '\\' && c != '\"' && OneLine([c]) ==> EscapeChar(c) == [c]
    ensures c == '\\' || c == '\"' || !OneLine([c]) ==> |EscapeChar(c)| == 2
    ensures |EscapeChar(c)| == 2 ==> EscapeChar(c)[0] == '\\' && EscapeOf(EscapeChar(c)[1]) == Some(c as int)
    ensures OneLine(EscapeChar(c))
  {
  }

  lemma DecodesFirst(piece: string, rest: string, c: char, value: string)
    requires if |piece| == 1 then piece == [c] && c != '\\' && c != '\"'
             else |piece| == 2 && piece[0] == '\\' && EscapeOf(piece[1]) == Some(c as int)
    requires Decodes('\"', rest, value)
    ensures Decodes('\"', piece + rest, [c] + value)
  {
    var all := piece + rest;
    assert ([c] + value)[1..] == value;
    assert all[|piece|..] == rest && all[0] == piece[0];
    if |piece| == 2 { assert all[1] == piece[1]; }
  }

  /** The printed literal decodes to the string. */
  lemma {:induction false} InsideDecodes(text: string)
    ensures Decodes('\"', Inside(text), text) && OneLine(Inside(text))
    decreases |text|
  {
    hide EscapeChar, Escaped, Inside, EscapeOf;
    if text == "" {
      EmptyInside();
    } else {
      InsideDecodes(text[1..]);
      InsideFirst(text);
      EscapesOnlyThose(text[0]);
      DecodesFirst(EscapeChar(text[0]), Inside(text[1..]), text[0], text[1..]);
      assert text == [text[0]] + text[1..];
    }
  }

  lemma EmptyInside()
    ensures Inside("") == "" && Decodes('\"', "", "")
  {
  }

  /** No other spelling on one line is as short. */
  lemma {:induction false} ShortestInside(text: string, inside: string)
    requires Decodes('\"', inside, text) && OneLine(inside)
    ensures |Inside(text)| < |inside| || Inside(text) == inside
    decreases |inside|
  {
    hide EscapeChar, Escaped, Inside;
    if inside == "" {
      EmptyInside();
    } else {
      InsideFirst(text);
      EscapesOnlyThose(text[0]);
      var n := if inside[0] == '\\' then 2 else 1;
      ShortestInside(text[1..], inside[n..]);
      assert inside == inside[..n] + inside[n..];
      if n == 2 && |EscapeChar(text[0])| == 2 {
        SameEscape(EscapeChar(text[0])[1], inside[1]);
        assert EscapeChar(text[0]) == inside[..2];
      } else if n == 1 {
        assert inside[0] in inside && inside[..1] == [text[0]];
      }
    }
  }

  lemma SameEscape(c: char, d: char)
    requires EscapeOf(c).Some? && EscapeOf(c) == EscapeOf(d)
    ensures c == d
  {
  }

  lemma {:induction false} InsideThen(text: string, after: string)
    ensures Escaped(text, after) == Inside(text) + after
    decreases |text|
  {
    if text != "" {
      InsideThen(text[1..], after);
      assert EscapeChar(text[0]) + (Inside(text[1..]) + after) == EscapeChar(text[0]) + Inside(text[1..]) + after;
    } else {
      assert "" + after == after;
    }
  }

  /** The printed literal is double quotes around the only shortest spelling on one line. */
  lemma LiteralIsShortest(text: string, after: string)
    ensures Quoted(text, after) == "\"" + (Inside(text) + ("\"" + after))
    ensures Decodes('\"', Inside(text), text) && OneLine(Inside(text))
    ensures forall inside :: Decodes('\"', inside, text) && OneLine(inside) ==>
      |Inside(text)| < |inside| || Inside(text) == inside
  {
    hide Decodes, Inside, OneLine;
    InsideThen(text, "\"" + after);
    InsideDecodes(text);
    forall inside | Decodes('\"', inside, text) && OneLine(inside)
      ensures |Inside(text)| < |inside| || Inside(text) == inside {
      ShortestInside(text, inside);
    }
  }

  // ----- numbers -----

  /** No digits that spell the number are as short. */
  lemma {:induction false} NumeralIsShortest(n: nat, digits: string)
    requires digits != "" && AllDigits(digits) && DigitsSpell(digits, n)
    ensures |Numeral(n)| < |digits| || Numeral(n) == digits
    decreases |digits|
  {
    var init, last := digits[..|digits| - 1], digits[|digits| - 1];
    assert digits == init + [last];
    if init == "" {
      assert n / 10 == 0;
    } else {
      NumeralIsShortest(n / 10, init);
      if n < 10 { assert |Numeral(n)| == 1; }
    }
  }

  /** What an integer is printed as: the shortest digits that spell it, and for a negative one the negation
      of the opposite. */
  lemma IntegersShown(codec: FloatCodec, i: int)
    ensures i >= 0 ==> AllDigits(IntText(i)) && IntText(i) != "" && DigitsSpell(IntText(i), i)
    ensures i < 0 ==> Print(codec, S.Int(i)) == Print(codec, S.Unary(S.Neg, S.Int(-i)))
  {
    if i >= 0 {
      NumeralRoundTrip(i);
      SameNumbers(IntText(i), i);
    } else {
      var digits := Numeral(-i);
      assert S.UnaryText(S.Neg) == "-" && IntText(-i) == digits;
      assert Then(codec, S.Int(-i), "") == digits + "";
      assert !NeedsParentheses(Precedence(S.Int(-i)), 7, UnderPrefix);
      assert ThenAt(codec, S.Int(-i), 7, UnderPrefix, "") == digits + "";
      assert Then(codec, S.Unary(S.Neg, S.Int(-i)), "") == "-" + ThenAt(codec, S.Int(-i), 7, UnderPrefix, "");
      assert Print(codec, S.Unary(S.Neg, S.Int(-i))) == "-" + (digits + "");
      assert Print(codec, S.Int(i)) == ("-" + digits) + "";
    }
  }
}
