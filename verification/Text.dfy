/** Characters, UTF-8 byte counts and decimal numerals: the text-level facts that the lexer, the
    formatter and the template renderer share. Rust measures text in UTF-8 bytes, so every limit
    in the model is a byte count over a sequence of Unicode scalar values. */
module Text {

  // ----- UTF-8 lengths -----

  function CharBytes(c: char): (n: nat)
    ensures 1 <= n <= 4
  {
    var code := c as int;
    if code < 0x80 then 1 else if code < 0x800 then 2 else if code < 0x1_0000 then 3 else 4
  }

  function Bytes(s: string): nat {
    if s == "" then 0 else CharBytes(s[0]) + Bytes(s[1..])
  }

  lemma {:induction false} BytesConcat(a: string, b: string)
    ensures Bytes(a + b) == Bytes(a) + Bytes(b)
  {
    if a == "" {
      assert a + b == b;
    } else {
      assert (a + b)[1..] == a[1..] + b;
      BytesConcat(a[1..], b);
    }
  }

  lemma {:induction false} BytesAtLeastLength(s: string)
    ensures |s| <= Bytes(s)
  {
    if s != "" { BytesAtLeastLength(s[1..]); }
  }

  // ----- character classes -----

  /** The Unicode White_Space property, which is what Rust's `char::is_whitespace` tests. */
  predicate IsWhitespace(c: char) {
    var code := c as int;
    || 0x9 <= code <= 0xD || code == 0x20 || code == 0x85 || code == 0xA0 || code == 0x1680
    || 0x2000 <= code <= 0x200A || code == 0x2028 || code == 0x2029 || code == 0x202F
    || code == 0x205F || code == 0x3000
  }

  predicate IsDigit(c: char) { '0' <= c <= '9' }

  predicate IsIdentStart(c: char) { 'A' <= c <= 'Z' || 'a' <= c <= 'z' || c == '_' }

  predicate IsIdentPart(c: char) { IsIdentStart(c) || IsDigit(c) }

  predicate AllDigits(s: string) { forall i :: 0 <= i < |s| ==> IsDigit(s[i]) }

  // ----- maximal runs -----

  /** Length of the longest prefix made of digits. */
  function DigitRun(s: string): (n: nat)
    ensures n <= |s|
  {
    if s != "" && IsDigit(s[0]) then 1 + DigitRun(s[1..]) else 0
  }

  /** Length of the longest prefix made of identifier characters. */
  function IdentRun(s: string): (n: nat)
    ensures n <= |s|
  {
    if s != "" && IsIdentPart(s[0]) then 1 + IdentRun(s[1..]) else 0
  }

  lemma {:induction false} DigitRunStops(digits: string, rest: string)
    requires AllDigits(digits)
    requires rest == "" || !IsDigit(rest[0])
    ensures DigitRun(digits + rest) == |digits|
  {
    if digits == "" {
      assert digits + rest == rest;
    } else {
      assert (digits + rest)[1..] == digits[1..] + rest;
      DigitRunStops(digits[1..], rest);
    }
  }

  lemma {:induction false} DigitRunDigits(s: string)
    ensures AllDigits(s[..DigitRun(s)])
    ensures DigitRun(s) < |s| ==> !IsDigit(s[DigitRun(s)])
  {
    if s != "" && IsDigit(s[0]) {
      DigitRunDigits(s[1..]);
      var n := DigitRun(s[1..]);
      assert s[..n + 1] == [s[0]] + s[1..][..n];
    }
  }

  lemma {:induction false} IdentRunStops(name: string, rest: string)
    requires forall i :: 0 <= i < |name| ==> IsIdentPart(name[i])
    requires rest == "" || !IsIdentPart(rest[0])
    ensures IdentRun(name + rest) == |name|
  {
    if name == "" {
      assert name + rest == rest;
    } else {
      assert (name + rest)[1..] == name[1..] + rest;
      IdentRunStops(name[1..], rest);
    }
  }

  lemma {:induction false} IdentRunParts(s: string)
    ensures forall i :: 0 <= i < IdentRun(s) ==> IsIdentPart(s[i])
  {
    if s != "" && IsIdentPart(s[0]) {
      IdentRunParts(s[1..]);
      forall i | 0 <= i < IdentRun(s) ensures IsIdentPart(s[i]) {
        if i > 0 { assert s[i] == s[1..][i - 1]; }
      }
    }
  }

  // ----- decimal numerals -----

  const I64_MAX := 0x7FFF_FFFF_FFFF_FFFF

  function DigitValue(c: char): (d: nat)
    requires IsDigit(c)
    ensures d < 10
  {
    c as int - '0' as int
  }

  function DigitChar(d: nat): (c: char)
    requires d < 10
    ensures IsDigit(c) && DigitValue(c) == d
  {
    ('0' as int + d) as char
  }

  /** The number a digit string denotes; leading zeros are allowed. */
  function NumeralValue(digits: string): nat
    requires AllDigits(digits)
  {
    if digits == "" then 0
    else 10 * NumeralValue(digits[..|digits| - 1]) + DigitValue(digits[|digits| - 1])
  }

  /** Rust's decimal rendering of a non-negative integer. */
  function Numeral(n: nat): (s: string)
    ensures s != "" && AllDigits(s)
  {
    if n < 10 then [DigitChar(n)] else Numeral(n / 10) + [DigitChar(n % 10)]
  }

  /** `i64::to_string`. */
  function IntText(i: int): string {
    if i < 0 then "-" + Numeral(-i) else Numeral(i)
  }

  lemma {:induction false} NumeralRoundTrip(n: nat)
    ensures NumeralValue(Numeral(n)) == n
  {
    if n < 10 {
      assert Numeral(n)[..0] == "";
      assert NumeralValue(Numeral(n)[..0]) == 0;
    } else {
      NumeralRoundTrip(n / 10);
      assert Numeral(n)[..|Numeral(n)| - 1] == Numeral(n / 10);
    }
  }
}
