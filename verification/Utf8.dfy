/** UTF-8, RFC 3629 section 3: the byte count of the model is the length of the encoding. */
module Utf8 {
  import opened Text

  /** The octets of one character, by number. */
  function Encode(c: char): (bytes: seq<int>)
    ensures |bytes| > 0
  {
    var x := c as int;
    if x <= 0x7F then [x]
    else if x <= 0x7FF then [0xC0 + x / 0x40, 0x80 + x % 0x40]
    else if x <= 0xFFFF then [0xE0 + x / 0x1000, 0x80 + x / 0x40 % 0x40, 0x80 + x % 0x40]
    else [0xF0 + x / 0x4_0000, 0x80 + x / 0x1000 % 0x40, 0x80 + x / 0x40 % 0x40, 0x80 + x % 0x40]
  }

  function EncodeAll(s: string): seq<int> {
    if s == "" then [] else Encode(s[0]) + EncodeAll(s[1..])
  }

  /** What the first octet says of the length. */
  function LengthOf(lead: int): nat {
    if lead < 0x80 then 1 else if lead < 0xE0 then 2 else if lead < 0xF0 then 3 else 4
  }

  /** The code point of the octets of one character. */
  function Decode(bytes: seq<int>): int
    requires 1 <= |bytes| <= 4
  {
    match |bytes|
    case 1 => bytes[0]
    case 2 => (bytes[0] - 0xC0) * 0x40 + (bytes[1] - 0x80)
    case 3 => (bytes[0] - 0xE0) * 0x1000 + (bytes[1] - 0x80) * 0x40 + (bytes[2] - 0x80)
    case _ => (bytes[0] - 0xF0) * 0x4_0000 + (bytes[1] - 0x80) * 0x1000 + (bytes[2] - 0x80) * 0x40 + (bytes[3] - 0x80)
  }

  /** The encoding is octets, says its own length, and is read back. */
  lemma EncodingReads(c: char)
    ensures var bytes := Encode(c);
      && (forall i :: 0 <= i < |bytes| ==> bytes[i] < 0x100)
      && (forall i :: 1 <= i < |bytes| ==> 0x80 <= bytes[i] < 0xC0)
      && LengthOf(bytes[0]) == |bytes| <= 4 && Decode(bytes) == c as int
  {
    var x := c as int;
    assert x < 0x11_0000;
    assert x / 0x1000 == x / 0x40 / 0x40 && x / 0x4_0000 == x / 0x40 / 0x40 / 0x40;
  }

  /** `str::len`. */
  lemma {:induction false} BytesAreEncoded(s: string)
    ensures Bytes(s) == |EncodeAll(s)|
  {
    if s != "" { BytesAreEncoded(s[1..]); }
  }
}
