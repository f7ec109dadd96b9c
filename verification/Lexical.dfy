/** The lexical grammar, stated apart from the lexer: what each token looks like, what may stand between
    tokens, and that a text is cut greedily. The lexer accepts exactly the texts that can be cut so. */
module Lexical {
  import opened Text
  import opened Tokens
  import opened LexerSpec

  // ----- characters -----

  /** The Unicode White_Space property, by code point. */
  predicate Blank(c: char) {
    var x := c as int;
    || 9 <= x <= 13 || x == 32 || x == 133 || x == 160 || x == 5760 || 8192 <= x <= 8202
    || x == 8232 || x == 8233 || x == 8239 || x == 8287 || x == 12288
  }

  predicate Digit(c: char) { 48 <= c as int <= 57 }

  /** ASCII letters and the underscore. */
  predicate Letter(c: char) {
    var x := c as int;
    65 <= x <= 90 || 97 <= x <= 122 || x == 95
  }

  predicate Digits(s: string) { s != "" && forall i :: 0 <= i < |s| ==> Digit(s[i]) }

  predicate Word(s: string) {
    s != "" && Letter(s[0]) && forall i :: 0 <= i < |s| ==> Letter(s[i]) || Digit(s[i])
  }

  /** Marks of one character. */
  function One(c: char): Option<Kind> {
    match c
    case '.' => Some(Dot) case ',' => Some(Comma)
    case '(' => Some(LParen) case ')' => Some(RParen) case '[' => Some(LBracket) case ']' => Some(RBracket)
    case '!' => Some(Bang) case '-' => Some(Minus) case '+' => Some(Plus)
    case '*' => Some(Star) case '/' => Some(Slash) case '%' => Some(Percent)
    case '<' => Some(Less) case '>' => Some(Greater)
    case _ => None
  }

  /** Marks of two characters. */
  function Two(c: char, d: char): Option<Kind> {
    if c == '=' && d == '=' then Some(EqEq)
    else if c == '!' && d == '=' then Some(NotEq)
    else if c == '<' && d == '=' then Some(LessEq)
    else if c == '>' && d == '=' then Some(GreaterEq)
    else if c == '&' && d == '&' then Some(AndAnd)
    else if c == '|' && d == '|' then Some(OrOr)
    else None
  }

  /** What a backslash and `c` stand for, by code point: the backslash and both quotes for themselves,
      and `n`, `r` and `t`. */
  function EscapeOf(c: char): Option<int> {
    match c as int
    case 92 => Some(92) case 34 => Some(34) case 39 => Some(39)
    case 110 => Some(10) case 114 => Some(13) case 116 => Some(9)
    case _ => None
  }

  // ----- pieces of a text -----

  /** One blank, or a comment up to and with its first newline, or up to the end of the text. */
  predicate Gap(text: string, rest: string) {
    || (|text| == 1 && Blank(text[0]))
    || (&& |text| >= 2 && text[0] == '/' && text[1] == '/'
        && (forall i :: 0 <= i < |text| - 1 ==> text[i] != '\n')
        && (text[|text| - 1] == '\n' || rest == ""))
  }

  /** `value` is what the inside of a literal stands for. */
  predicate Decodes(quote: char, inside: string, value: string)
    decreases |inside|
  {
    if inside == "" then value == ""
    else if inside[0] == '\\' then
      && |inside| >= 2 && value != "" && EscapeOf(inside[1]) == Some(value[0] as int)
      && Decodes(quote, inside[2..], value[1..])
    else
      inside[0] != quote && value != "" && value[0] == inside[0] && Decodes(quote, inside[1..], value[1..])
  }

  predicate WordEnds(rest: string) { rest == "" || !(Letter(rest[0]) || Digit(rest[0])) }

  predicate NumberEnds(rest: string) { rest == "" || !Digit(rest[0]) }

  ghost predicate FloatSpelled(text: string) {
    exists i :: 0 < i < |text| && text[i] == '.' && Digits(text[..i]) && Digits(text[i + 1..])
  }

  /** `text` is a token of this kind, and `rest` does not continue it. */
  ghost predicate Spells(codec: FloatCodec, text: string, kind: Kind, rest: string) {
    match kind
    case IdentTok(name) =>
      text == name && Word(name) && name != "true" && name != "false" && name != "null" && WordEnds(rest)
    case TrueTok => text == "true" && WordEnds(rest)
    case FalseTok => text == "false" && WordEnds(rest)
    case NullTok => text == "null" && WordEnds(rest)
    case IntTok(number) =>
      && Digits(text) && DigitsSpell(text, number) && number <= 9_223_372_036_854_775_807
      && NumberEnds(rest) && !(|rest| >= 2 && rest[0] == '.' && Digit(rest[1]))
    case FloatTok(bits) => FloatSpelled(text) && codec.read(text) == Some(bits) && NumberEnds(rest)
    case StrTok(value) =>
      && |text| >= 2 && (text[0] == '\"' || text[0] == '\'') && text[|text| - 1] == text[0]
      && Decodes(text[0], text[1..|text| - 1], value)
    case Eof => false
    case _ =>
      || (&& |text| == 1 && One(text[0]) == Some(kind)
          && (rest == "" || Two(text[0], rest[0]) == None) && !(text[0] == '/' && rest != "" && rest[0] == '/'))
      || (|text| == 2 && Two(text[0], text[1]) == Some(kind))
  }

  /** Decimal, most significant digit first. */
  predicate DigitsSpell(text: string, number: int)
    decreases |text|
  {
    if text == "" then number == 0
    else
      var last := text[|text| - 1] as int - 48;
      0 <= last < 10 && number % 10 == last && DigitsSpell(text[..|text| - 1], number / 10)
  }

  /** `s`, which starts at byte `at` of a text, is gaps and the tokens `toks` where their spans say. */
  ghost predicate Covers(codec: FloatCodec, s: string, at: nat, toks: seq<Token>)
    decreases |s|, 1
  {
    if s == "" then toks == [] else exists n: nat :: CutAt(codec, s, at, toks, n)
  }

  /** The first piece is `n` characters long. */
  ghost predicate CutAt(codec: FloatCodec, s: string, at: nat, toks: seq<Token>, n: nat)
    decreases |s|, 0
  {
    && 0 < n <= |s|
    && (var text, rest, end := s[..n], s[n..], at + Bytes(s[..n]);
        || (Gap(text, rest) && Covers(codec, rest, end, toks))
        || (&& toks != [] && toks[0].span == Span(at, end) && Spells(codec, text, toks[0].kind, rest)
            && Covers(codec, rest, end, toks[1..])))
  }

  // ----- the two sets of tables agree -----

  lemma SameClasses(c: char)
    ensures Blank(c) <==> IsWhitespace(c)
    ensures Digit(c) <==> IsDigit(c)
    ensures Letter(c) <==> IsIdentStart(c)
  {
  }

  lemma SameEscapes(c: char)
    ensures EscapeOf(c) == match Unescape(c) case Some(d) => Some(d as int) case None => None
  {
  }

  lemma SameMarks(c: char, next: Option<char>)
    ensures Punctuation(c, next)
         == if next.Some? && Two(c, next.value).Some? then Some((Two(c, next.value).value, 2))
            else match One(c) case Some(kind) => Some((kind, 1)) case None => None
  {
  }

  lemma MarkClass(c: char)
    requires One(c).Some? || exists d :: Two(c, d).Some?
    ensures !IsWhitespace(c) && !IsDigit(c) && !IsIdentStart(c) && c != '\"' && c != '\''
  {
  }

  lemma {:induction false} SameNumbers(text: string, number: int)
    requires AllDigits(text)
    ensures DigitsSpell(text, number) <==> number == NumeralValue(text)
    decreases |text|
  {
    if text != "" {
      var most, last := text[..|text| - 1], DigitValue(text[|text| - 1]);
      SameNumbers(most, number / 10);
      if number == NumeralValue(text) {
        assert number == 10 * NumeralValue(most) + last;
      }
    }
  }

  lemma SameDigits(text: string)
    ensures Digits(text) <==> text != "" && AllDigits(text)
  {
  }
}
