/**
 Base64url without padding, as JOSE uses it: RFC 4648 section 5 with the trailing `=`
 stripped, and the permissive decoder of Python's `binascii.a2b_base64`, which skips
 characters outside the alphabet and stops at complete padding.
 */
module Base64Url {
  import opened Wrappers
  import opened Utf8

  predicate IsUrlChar(c: char) {
    'A' <= c <= 'Z' || 'a' <= c <= 'z' || '0' <= c <= '9' || c == '-' || c == '_'
  }

  function SextetChar(v: int): (c: char)
    requires 0 <= v < 64
    ensures IsUrlChar(c)
  {
    if v < 26 then ('A' as int + v) as char
    else if v < 52 then ('a' as int + (v - 26)) as char
    else if v < 62 then ('0' as int + (v - 52)) as char
    else if v == 62 then '-'
    else '_'
  }

  /** The decoder's table; `+` and `/` are read as well, being what `-` and `_` are translated to. */
  function SextetValue(c: char): (v: Option<int>)
    ensures v.Some? ==> 0 <= v.value < 64
  {
    if 'A' <= c <= 'Z' then Some(c as int - 'A' as int)
    else if 'a' <= c <= 'z' then Some(c as int - 'a' as int + 26)
    else if '0' <= c <= '9' then Some(c as int - '0' as int + 52)
    else if c == '-' || c == '+' then Some(62)
    else if c == '_' || c == '/' then Some(63)
    else None
  }

  // ---- Encoding ----

  /** `base64.urlsafe_b64encode`: groups of four characters, the last one padded. */
  function Padded(data: Bytes): string {
    if |data| == 0 then ""
    else if |data| == 1 then
      [SextetChar(data[0] / 4), SextetChar(data[0] % 4 * 16), '=', '=']
    else if |data| == 2 then
      [SextetChar(data[0] / 4), SextetChar(data[0] % 4 * 16 + data[1] / 16), SextetChar(data[1] % 16 * 4), '=']
    else Group(data[0], data[1], data[2]) + Padded(data[3..])
  }

  function Group(a: Byte, b: Byte, c: Byte): (g: string)
    ensures |g| == 4 && forall x | x in g :: IsUrlChar(x)
  {
    [SextetChar(a / 4), SextetChar(a % 4 * 16 + b / 16), SextetChar(b % 16 * 4 + c / 64), SextetChar(c % 64)]
  }

  /** `rstrip(b"=")`. */
  function StripPadding(s: string): string {
    if s != [] && s[|s| - 1] == '=' then StripPadding(s[..|s| - 1]) else s
  }

  function B64Encode(data: Bytes): string {
    StripPadding(Padded(data))
  }

  // ---- Decoding ----

  /** The `=` characters that `-len(s) % 4` asks for. */
  function Padding(s: string): string {
    seq(-|s| % 4, _ => '=')
  }

  /**
   The scanner of `a2b_base64`. `quad` counts the characters of the current group,
   `left` holds the bits not yet written, `pads` the padding characters just seen.
   */
  function Scan(s: string, quad: nat, left: nat, pads: nat): Option<Bytes>
    requires quad < 4
    requires quad == 1 ==> left < 64
    requires quad == 2 ==> left < 16
    requires quad == 3 ==> left < 4
  {
    if s == [] then (if quad == 0 then Some([]) else None)
    else if s[0] == '=' then
      if quad >= 2 && quad + pads + 1 >= 4 then Some([])
      else Scan(s[1..], quad, left, if quad >= 2 then pads + 1 else pads)
    else
      match SextetValue(s[0])
      case None => Scan(s[1..], quad, left, pads)
      case Some(v) =>
        if quad == 0 then Scan(s[1..], 1, v, 0)
        else
          var byte := if quad == 1 then left * 4 + v / 16 else if quad == 2 then left * 16 + v / 4 else left * 64 + v;
          var rest :- Scan(s[1..], (quad + 1) % 4, if quad == 1 then v % 16 else if quad == 2 then v % 4 else 0, 0);
          Some([byte] + rest)
  }

  predicate IsAscii(s: string) {
    forall c | c in s :: c < 128 as char
  }

  function B64Decode(s: string): Option<Bytes> {
    if IsAscii(s) then Scan(s + Padding(s), 0, 0, 0) else None
  }

  // ---- Round trip ----

  lemma SextetRoundTrip(v: int)
    requires 0 <= v < 64
    ensures SextetValue(SextetChar(v)) == Some(v)
  {
  }

  lemma ScanSextet(v: int, s: string, quad: nat, left: nat, pads: nat)
    requires 0 <= v < 64 && quad < 4
    requires quad == 1 ==> left < 64
    requires quad == 2 ==> left < 16
    requires quad == 3 ==> left < 4
    ensures var t := Scan([SextetChar(v)] + s, quad, left, pads);
            && (quad == 0 ==> t == Scan(s, 1, v, 0))
            && (quad == 1 ==> t == Prepend(left * 4 + v / 16, Scan(s, 2, v % 16, 0)))
            && (quad == 2 ==> t == Prepend(left * 16 + v / 4, Scan(s, 3, v % 4, 0)))
            && (quad == 3 ==> t == Prepend(left * 64 + v, Scan(s, 0, 0, 0)))
  {
    SextetRoundTrip(v);
    assert ([SextetChar(v)] + s)[1..] == s;
  }

  function Prepend(b: Byte, r: Option<Bytes>): Option<Bytes> {
    match r
    case None => None
    case Some(rest) => Some([b] + rest)
  }

  lemma ScanGroup(a: Byte, b: Byte, c: Byte, s: string)
    ensures Scan(Group(a, b, c) + s, 0, 0, 0) == Prepend(a, Prepend(b, Prepend(c, Scan(s, 0, 0, 0))))
  {
    hide Scan;
    var v0, v1, v2, v3 := a / 4, a % 4 * 16 + b / 16, b % 16 * 4 + c / 64, c % 64;
    var s3 := [SextetChar(v3)] + s;
    var s2 := [SextetChar(v2)] + s3;
    var s1 := [SextetChar(v1)] + s2;
    assert Group(a, b, c) + s == [SextetChar(v0)] + s1;
    ScanSextet(v0, s1, 0, 0, 0);
    ScanSextet(v1, s2, 1, v0, 0);
    ScanSextet(v2, s3, 2, v1 % 16, 0);
    ScanSextet(v3, s, 3, v2 % 4, 0);
    assert v0 * 4 + v1 / 16 == a && v1 % 16 * 16 + v2 / 4 == b && v2 % 4 * 64 + v3 == c;
  }

  lemma ScanEnd(left: nat)
    ensures left < 4 ==> Scan("=", 3, left, 0) == Some([])
    ensures left < 16 ==> Scan("==", 2, left, 0) == Some([])
  {
    assert "=="[1..] == "=";
  }

  lemma ScanLastTwo(a: Byte, b: Byte)
    ensures Scan(Padded([a, b]), 0, 0, 0) == Some([a, b])
  {
    hide Scan;
    var v0, v1, v2 := a / 4, a % 4 * 16 + b / 16, b % 16 * 4;
    var s2 := [SextetChar(v2)] + "=";
    var s1 := [SextetChar(v1)] + s2;
    assert Padded([a, b]) == [SextetChar(v0)] + s1;
    ScanSextet(v0, s1, 0, 0, 0);
    ScanSextet(v1, s2, 1, v0, 0);
    ScanSextet(v2, "=", 2, v1 % 16, 0);
    ScanEnd(v2 % 4);
    assert v0 * 4 + v1 / 16 == a && v1 % 16 * 16 + v2 / 4 == b;
    assert [a] + ([b] + []) == [a, b];
  }

  lemma ScanLastOne(a: Byte)
    ensures Scan(Padded([a]), 0, 0, 0) == Some([a])
  {
    hide Scan;
    var v0, v1 := a / 4, a % 4 * 16;
    var s1 := [SextetChar(v1)] + "==";
    assert Padded([a]) == [SextetChar(v0)] + s1;
    ScanSextet(v0, s1, 0, 0, 0);
    ScanSextet(v1, "==", 1, v0, 0);
    ScanEnd(v1 % 16);
    assert v0 * 4 + v1 / 16 == a;
    assert [a] + [] == [a];
  }

  lemma {:induction false} ScanPadded(data: Bytes)
    ensures Scan(Padded(data), 0, 0, 0) == Some(data)
  {
    hide Group;
    if |data| == 1 {
      ScanLastOne(data[0]);
      assert data == [data[0]];
    } else if |data| == 2 {
      ScanLastTwo(data[0], data[1]);
      assert data == [data[0], data[1]];
    } else if |data| > 2 {
      ScanPadded(data[3..]);
      ScanNextGroup(data[0], data[1], data[2], data[3..]);
      assert data == [data[0]] + ([data[1]] + ([data[2]] + data[3..]));
    }
  }

  lemma ScanNextGroup(a: Byte, b: Byte, c: Byte, rest: Bytes)
    requires Scan(Padded(rest), 0, 0, 0) == Some(rest)
    ensures Scan(Group(a, b, c) + Padded(rest), 0, 0, 0) == Some([a] + ([b] + ([c] + rest)))
  {
    hide Scan, Group, Padded;
    ScanGroup(a, b, c, Padded(rest));
  }

  /** Stripping removes exactly the padding, and nothing else ever occurs in the output. */
  lemma {:induction false} EncodeShape(data: Bytes)
    ensures Padded(data) == B64Encode(data) + Padding(B64Encode(data))
    ensures forall c | c in B64Encode(data) :: IsUrlChar(c)
  {
    var p := Padded(data);
    if |data| == 1 {
      StripExact(p[..2], 2);
      assert p == p[..2] + Padding(p[..2]);
    } else if |data| == 2 {
      StripExact(p[..3], 1);
      assert p == p[..3] + Padding(p[..3]);
    } else if |data| > 2 {
      EncodeShape(data[3..]);
      ShapeGroup(Group(data[0], data[1], data[2]), B64Encode(data[3..]), p);
    }
  }

  lemma ShapeGroup(g: string, rest: string, p: string)
    requires |g| == 4 && forall c | c in g :: IsUrlChar(c)
    requires forall c | c in rest :: IsUrlChar(c)
    requires p == g + (rest + Padding(rest))
    ensures StripPadding(p) == g + rest
    ensures p == StripPadding(p) + Padding(StripPadding(p))
    ensures forall c | c in StripPadding(p) :: IsUrlChar(c)
  {
    var e := g + rest;
    assert Padding(e) == Padding(rest);
    assert p == e + Padding(e);
    assert e[|e| - 1] in e;
    StripExact(e, -|rest| % 4);
  }

  lemma {:induction false} StripExact(s: string, k: nat)
    requires s != [] && s[|s| - 1] != '='
    ensures StripPadding(s + seq(k, _ => '=')) == s
  {
    var t := s + seq(k, _ => '=');
    if k == 0 {
      assert t == s;
    } else {
      assert t[..|t| - 1] == s + seq(k - 1, _ => '=');
      StripExact(s, k - 1);
    }
  }

  /** Decoding undoes encoding for every byte string. */
  lemma DecodeEncode(data: Bytes)
    ensures B64Decode(B64Encode(data)) == Some(data)
  {
    EncodeShape(data);
    ScanPadded(data);
  }

  lemma EncodeInjective(a: Bytes, b: Bytes)
    requires B64Encode(a) == B64Encode(b)
    ensures a == b
  {
    DecodeEncode(a);
    DecodeEncode(b);
  }

  /** A character outside the alphabet that is no padding is read over, wherever it stands. */
  lemma {:induction false} ScanIgnores(a: string, c: char, b: string, quad: nat, left: nat, pads: nat)
    requires SextetValue(c).None? && c != '='
    requires quad < 4
    requires quad == 1 ==> left < 64
    requires quad == 2 ==> left < 16
    requires quad == 3 ==> left < 4
    ensures Scan(a + [c] + b, quad, left, pads) == Scan(a + b, quad, left, pads)
    decreases |a|
  {
    var s := a + [c] + b;
    if a == [] {
      assert s[1..] == b && a + b == b;
    } else {
      assert s[1..] == a[1..] + [c] + b && (a + b)[1..] == a[1..] + b;
      if a[0] == '=' {
        if !(quad >= 2 && quad + pads + 1 >= 4) {
          ScanIgnores(a[1..], c, b, quad, left, if quad >= 2 then pads + 1 else pads);
        }
      } else if SextetValue(a[0]).None? {
        ScanIgnores(a[1..], c, b, quad, left, pads);
      } else {
        var v := SextetValue(a[0]).value;
        if quad == 0 {
          ScanIgnores(a[1..], c, b, 1, v, 0);
        } else {
          ScanIgnores(a[1..], c, b, (quad + 1) % 4, if quad == 1 then v % 16 else if quad == 2 then v % 4 else 0, 0);
        }
      }
    }
  }

  // ---- The encoding as digits (section 4 and table 2 of RFC 4648) ----

  /** The alphabet: capitals, small letters, digits, hyphen and underscore, each run in order. */
  lemma Alphabet()
    ensures SextetChar(0) == 'A' && SextetChar(25) == 'Z' && SextetChar(26) == 'a' && SextetChar(51) == 'z'
    ensures SextetChar(52) == '0' && SextetChar(61) == '9' && SextetChar(62) == '-' && SextetChar(63) == '_'
    ensures forall v | 0 <= v < 61 && v != 25 && v != 51 :: SextetChar(v + 1) as int == SextetChar(v) as int + 1
    ensures forall v | 0 <= v < 64 :: SextetValue(SextetChar(v)) == Some(v)
  {
  }

  ghost function Word(a: int, b: int, c: int): int {
    (a * 0x100 + b) * 0x100 + c
  }

  /** The number whose digits to base 64 these characters are. */
  ghost function Number(s: string): nat {
    if s == [] then 0
    else Number(s[..|s| - 1]) * 64 + match SextetValue(s[|s| - 1]) case None => 0 case Some(v) => v
  }

  lemma NumberAppend(s: string, v: int)
    requires 0 <= v < 64
    ensures Number(s + [SextetChar(v)]) == Number(s) * 64 + v
  {
    SextetRoundTrip(v);
    assert (s + [SextetChar(v)])[..|s|] == s;
  }

  lemma GroupNumber(v0: int, v1: int, v2: int, v3: int)
    requires 0 <= v0 < 64 && 0 <= v1 < 64 && 0 <= v2 < 64 && 0 <= v3 < 64
    ensures Number([SextetChar(v0), SextetChar(v1)]) == v0 * 64 + v1
    ensures Number([SextetChar(v0), SextetChar(v1), SextetChar(v2)]) == (v0 * 64 + v1) * 64 + v2
    ensures Number([SextetChar(v0), SextetChar(v1), SextetChar(v2), SextetChar(v3)]) == ((v0 * 64 + v1) * 64 + v2) * 64 + v3
  {
    hide SextetChar, Number;
    var c0, c1, c2, c3 := SextetChar(v0), SextetChar(v1), SextetChar(v2), SextetChar(v3);
    NumberEmpty();
    assert [] + [c0] == [c0] && [c0] + [c1] == [c0, c1] && [c0, c1] + [c2] == [c0, c1, c2] && [c0, c1, c2] + [c3] == [c0, c1, c2, c3];
    NumberAppend([], v0);
    NumberAppend([c0], v1);
    NumberAppend([c0, c1], v2);
    NumberAppend([c0, c1, c2], v3);
  }

  lemma NumberEmpty()
    ensures Number([]) == 0
  {
  }

  lemma FirstDigits(data: Bytes)
    requires data != []
    ensures var p := Padded(data);
            && |p| >= 4
            && (|data| == 1 ==> p[2..] == "==" && Number(p[..2]) == Word(0, 0, data[0]) * 16)
            && (|data| == 2 ==> p[3..] == "=" && Number(p[..3]) == Word(0, data[0], data[1]) * 4)
            && (|data| > 2 ==> Number(p[..4]) == Word(data[0], data[1], data[2]))
  {
    hide Number, SextetChar;
    var a: int := data[0];
    if |data| == 1 {
      GroupNumber(a / 4, a % 4 * 16, 0, 0);
      assert Padded(data)[..2] == [SextetChar(a / 4), SextetChar(a % 4 * 16)];
    } else {
      var b: int := data[1];
      var v0, v1 := a / 4, a % 4 * 16 + b / 16;
      if |data| == 2 {
        GroupNumber(v0, v1, b % 16 * 4, 0);
        assert Padded(data)[..3] == [SextetChar(v0), SextetChar(v1), SextetChar(b % 16 * 4)];
      } else {
        var c: int := data[2];
        var v2, v3 := b % 16 * 4 + c / 64, c % 64;
        GroupNumber(v0, v1, v2, v3);
        assert Padded(data)[..4] == [SextetChar(v0), SextetChar(v1), SextetChar(v2), SextetChar(v3)];
        assert (v0 * 64 + v1) * 64 + v2 == (a * 0x100 + b) * 4 + c / 64;
      }
    }
  }

  /**
   Three bytes become the four digits of one number; two that are left over become three digits
   with two bits to spare, and one becomes two digits with four.
   */
  lemma {:induction false} EncodeDigits(data: Bytes, k: nat)
    requires 3 * k < |data|
    ensures var e, left := B64Encode(data), data[3 * k..];
            && (|left| > 2 ==> 4 * k + 4 <= |e| && Number(e[4 * k..4 * k + 4]) == Word(left[0], left[1], left[2]))
            && (|left| == 2 ==> |e| == 4 * k + 3 && Number(e[4 * k..]) == Word(0, left[0], left[1]) * 4)
            && (|left| == 1 ==> |e| == 4 * k + 2 && Number(e[4 * k..]) == Word(0, 0, left[0]) * 16)
    decreases k
  {
    hide Padded, Number, Padding, StripPadding;
    if k == 0 {
      assert data[0..] == data;
      FirstDigits(data);
      Stripped(data);
    } else {
      EncodeDigits(data[3..], k - 1);
      assert data[3..][3 * (k - 1)..] == data[3 * k..];
      Stripped(data);
      var e, rest := B64Encode(data), B64Encode(data[3..]);
      assert e[4..] == rest;
      assert e[4 * k..] == rest[4 * (k - 1)..];
      if |data| > 3 * k + 2 {
        assert e[4 * k..4 * k + 4] == rest[4 * (k - 1)..4 * (k - 1) + 4];
      }
    }
  }

  /** What is left of the padded groups once the padding is stripped. */
  lemma Stripped(data: Bytes)
    requires data != []
    ensures |data| == 1 ==> B64Encode(data) == Padded(data)[..2]
    ensures |data| == 2 ==> B64Encode(data) == Padded(data)[..3]
    ensures |data| > 2 ==> |Padded(data)| >= 4 && B64Encode(data) == Padded(data)[..4] + B64Encode(data[3..])
  {
    var p := Padded(data);
    if |data| == 1 {
      StripExact(p[..2], 2);
      assert p == p[..2] + seq(2, _ => '=');
    } else if |data| == 2 {
      StripExact(p[..3], 1);
      assert p == p[..3] + seq(1, _ => '=');
    } else {
      EncodeShape(data[3..]);
      ShapeGroup(Group(data[0], data[1], data[2]), B64Encode(data[3..]), p);
    }
  }
}
