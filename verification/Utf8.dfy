/** Bytes, and the UTF-8 form of text over Unicode scalar values (RFC 3629). */
module Utf8 {
  import opened Wrappers

  type Byte = b: int | 0 <= b < 256
  type Bytes = seq<Byte>

  function EncodeChar(c: char): (b: Bytes)
    ensures 1 <= |b| <= 4
    ensures b[0] < 0x80 ==> b == [c as int]
    ensures c as int >= 0x80 ==> forall i | 0 <= i < |b| :: b[i] >= 0x80
  {
    var n := c as int;
    if n < 0x80 then [n]
    else if n < 0x800 then [0xC0 + n / 0x40, 0x80 + n % 0x40]
    else if n < 0x10000 then [0xE0 + n / 0x1000, 0x80 + n / 0x40 % 0x40, 0x80 + n % 0x40]
    else [0xF0 + n / 0x40000, 0x80 + n / 0x1000 % 0x40, 0x80 + n / 0x40 % 0x40, 0x80 + n % 0x40]
  }

  function Encode(s: string): Bytes {
    if s == [] then [] else EncodeChar(s[0]) + Encode(s[1..])
  }

  predicate IsTail(b: Byte) {
    0x80 <= b < 0xC0
  }

  function Tail(b: Byte): int {
    b as int - 0x80
  }

  predicate IsScalar(n: int) {
    0 <= n < 0xD800 || 0xE000 <= n < 0x110000
  }

  /** The first character and the bytes after it; overlong forms and surrogates are refused. */
  function DecodeChar(b: Bytes): (r: Option<(char, Bytes)>)
    ensures r.Some? ==> |r.value.1| < |b|
  {
    if b == [] then None
    else
      var lead: int := b[0];
      if lead < 0x80 then Some((lead as char, b[1..]))
      else if 0xC2 <= lead < 0xE0 && |b| >= 2 && IsTail(b[1]) then
        Some((((lead - 0xC0) * 0x40 + Tail(b[1])) as char, b[2..]))
      else if 0xE0 <= lead < 0xF0 && |b| >= 3 && IsTail(b[1]) && IsTail(b[2]) then
        var n := (lead - 0xE0) * 0x1000 + Tail(b[1]) * 0x40 + Tail(b[2]);
        if n >= 0x800 && IsScalar(n) then Some((n as char, b[3..])) else None
      else if 0xF0 <= lead < 0xF5 && |b| >= 4 && IsTail(b[1]) && IsTail(b[2]) && IsTail(b[3]) then
        var n := (lead - 0xF0) * 0x40000 + Tail(b[1]) * 0x1000 + Tail(b[2]) * 0x40 + Tail(b[3]);
        if n >= 0x10000 && IsScalar(n) then Some((n as char, b[4..])) else None
      else None
  }

  function Decode(b: Bytes): Option<string>
    decreases |b|
  {
    if b == [] then Some("")
    else
      var (c, rest) :- DecodeChar(b);
      var s :- Decode(rest);
      Some([c] + s)
  }

  lemma Digits64(n: int)
    requires 0 <= n < 0x110000
    ensures n / 0x40 * 0x40 + n % 0x40 == n
    ensures n / 0x1000 * 0x1000 + n / 0x40 % 0x40 * 0x40 + n % 0x40 == n
    ensures n / 0x40000 * 0x40000 + n / 0x1000 % 0x40 * 0x1000 + n / 0x40 % 0x40 * 0x40 + n % 0x40 == n
  {
    var q := n / 0x40;
    var p := q / 0x40;
    assert n / 0x1000 == p;
    assert n / 0x40000 == p / 0x40;
  }

  lemma DecodeEncodeChar(c: char, rest: Bytes)
    ensures DecodeChar(EncodeChar(c) + rest) == Some((c, rest))
  {
    var n := c as int;
    Digits64(n);
    var b := EncodeChar(c) + rest;
    assert b[|EncodeChar(c)|..] == rest;
  }

  lemma {:induction false} DecodeEncode(s: string)
    ensures Decode(Encode(s)) == Some(s)
  {
    hide DecodeChar, EncodeChar;
    if s != [] {
      DecodeEncodeChar(s[0], Encode(s[1..]));
      DecodeEncode(s[1..]);
      assert s == [s[0]] + s[1..];
    }
  }

  lemma EncodeInjective(s: string, t: string)
    requires Encode(s) == Encode(t)
    ensures s == t
  {
    DecodeEncode(s);
    DecodeEncode(t);
  }

  /** An ASCII byte occurs in the bytes exactly when its character occurs in the text. */
  lemma {:induction false} AsciiOccurs(s: string, c: char)
    requires c as int < 0x80
    ensures c as int in Encode(s) <==> c in s
  {
    if s != [] {
      AsciiOccurs(s[1..], c);
      var head := EncodeChar(s[0]);
      assert c as int in head <==> c == s[0];
      assert s == [s[0]] + s[1..];
    }
  }

  /** Characters of the examples in section 7 of RFC 3629, one for each length. */
  lemma StandardExamples()
    ensures EncodeChar('A') == [0x41] && EncodeChar('\U{0391}') == [0xCE, 0x91]
    ensures EncodeChar('\U{2262}') == [0xE2, 0x89, 0xA2] && EncodeChar('\U{233B4}') == [0xF0, 0xA3, 0x8E, 0xB4]
  {
  }
}
