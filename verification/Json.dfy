/**
 JSON values, the printer behind `json.dumps(sort_keys=True, separators=(",", ":"))`
 in both its UTF-8 form (`ensure_ascii=False`) and its ASCII form, and the parser behind
 `json.loads`. Equality is Python's `==` on such values, except that true and false here
 differ from the numbers 1 and 0; so an object is a map, and the order in which a dictionary
 was filled is the subject of module `Dictionaries`.
 */
module Json {
  import opened Wrappers
  import opened Text

  datatype Json =
    | JNull
    | JBool(b: bool)
    | JInt(n: int)
    | JStr(s: string)
    | JArr(items: seq<Json>)
    | JObj(members: map<string, Json>)
  {
    /** `self.get(key)`, with None for an absent key and for a value that is no object. */
    function Get(key: string): Option<Json> {
      if JObj? && key in members then Some(members[key]) else None
    }

    /** The values Python counts as false. */
    predicate Falsy() {
      match this
      case JNull => true
      case JBool(b) => !b
      case JInt(n) => n == 0
      case JStr(s) => s == ""
      case JArr(items) => items == []
      case JObj(members) => members == map[]
    }

    /** `self[key]` where the program expects text. */
    function GetText(key: string): Option<string> {
      match Get(key)
      case Some(JStr(t)) => Some(t)
      case _ => None
    }
  }

  // ---- Printing ----

  function HexDigit(n: nat): char
    requires n < 16
  {
    if n < 10 then DigitChar(n) else ('a' as int + (n - 10)) as char
  }

  function Hex4(n: nat): (h: string)
    requires n < 0x10000
    ensures |h| == 4
  {
    [HexDigit(n / 0x1000), HexDigit(n / 0x100 % 16), HexDigit(n / 16 % 16), HexDigit(n % 16)]
  }

  function Escape(ascii: bool, c: char): (e: string) {
    var n := c as int;
    if c == '\"' then "\\\""
    else if c == '\\' then "\\\\"
    else if c == '\n' then "\\n"
    else if c == '\r' then "\\r"
    else if c == '\t' then "\\t"
    else if n == 8 then "\\b"
    else if n == 12 then "\\f"
    else if n < 0x20 || (ascii && 0x7e < n < 0x10000) then "\\u" + Hex4(n)
    else if ascii && n >= 0x10000 then
      "\\u" + Hex4(0xD800 + (n - 0x10000) / 0x400) + "\\u" + Hex4(0xDC00 + (n - 0x10000) % 0x400)
    else [c]
  }

  function EscapeAll(ascii: bool, t: string): string {
    if t == [] then "" else Escape(ascii, t[0]) + EscapeAll(ascii, t[1..])
  }

  function Quote(ascii: bool, t: string): string {
    "\"" + EscapeAll(ascii, t) + "\""
  }

  function Print(ascii: bool, v: Json): string
    decreases v, 1, 0
  {
    match v
    case JNull => "null"
    case JBool(b) => if b then "true" else "false"
    case JInt(n) => IntText(n)
    case JStr(s) => Quote(ascii, s)
    case JArr(items) => "[" + PrintItems(ascii, v, 0) + "]"
    case JObj(members) => "{" + PrintMembers(ascii, v, SortedKeys(members.Keys)) + "}"
  }

  /** The items from position `i` on, separated by commas. */
  function PrintItems(ascii: bool, v: Json, i: nat): string
    requires v.JArr? && i <= |v.items|
    decreases v, 0, |v.items| - i
  {
    if i == |v.items| then ""
    else Print(ascii, v.items[i]) + (if i + 1 == |v.items| then "" else "," + PrintItems(ascii, v, i + 1))
  }

  function PrintMembers(ascii: bool, v: Json, keys: seq<string>): string
    requires v.JObj? && forall k | k in keys :: k in v.members
    decreases v, 0, |keys|
  {
    if keys == [] then ""
    else
      Quote(ascii, keys[0]) + ":" + Print(ascii, v.members[keys[0]])
      + (if |keys| == 1 then "" else "," + PrintMembers(ascii, v, keys[1..]))
  }

  // ---- Parsing ----

  predicate IsSpace(c: char) {
    c == ' ' || c == '\t' || c == '\n' || c == '\r'
  }

  function SkipSpace(s: string): (rest: string)
    ensures |rest| <= |s|
  {
    if s != [] && IsSpace(s[0]) then SkipSpace(s[1..]) else s
  }

  function HexValue(c: char): Option<nat> {
    if IsDigit(c) then Some(DigitValue(c))
    else if 'a' <= c <= 'f' then Some(c as int - 'a' as int + 10)
    else if 'A' <= c <= 'F' then Some(c as int - 'A' as int + 10)
    else None
  }

  function ParseHex4(s: string): (r: Option<nat>)
    ensures r.Some? ==> |s| >= 4 && r.value < 0x10000
  {
    if |s| < 4 then None else
      var a :- HexValue(s[0]);
      var b :- HexValue(s[1]);
      var c :- HexValue(s[2]);
      var d :- HexValue(s[3]);
      Some(a * 0x1000 + b * 0x100 + c * 16 + d)
  }

  /** The character after a backslash-u; a lone surrogate is no scalar value and is refused. */
  function ParseUnicode(s: string): (r: Option<(char, string)>)
    ensures r.Some? ==> |r.value.1| < |s|
  {
    var n :- ParseHex4(s);
    if 0xD800 <= n < 0xDC00 then
      if |s| >= 6 && s[4] == '\\' && s[5] == 'u' then
        var m :- ParseHex4(s[6..]);
        if 0xDC00 <= m < 0xE000 then
          Some(((0x10000 + (n - 0xD800) * 0x400 + (m - 0xDC00)) as char, s[10..]))
        else None
      else None
    else if 0xDC00 <= n < 0xE000 then None
    else Some((n as char, s[4..]))
  }

  /** One possibly escaped character of a string body. */
  function ParseChar(s: string): (r: Option<(char, string)>)
    ensures r.Some? ==> |r.value.1| < |s|
  {
    if s == [] || s[0] < ' ' || s[0] == '\"' then None
    else if s[0] != '\\' then Some((s[0], s[1..]))
    else if |s| == 1 then None
    else
      var rest := s[2..];
      match s[1]
      case '\"' => Some(('\"', rest))
      case '\\' => Some(('\\', rest))
      case '/' => Some(('/', rest))
      case 'b' => Some((8 as char, rest))
      case 'f' => Some((12 as char, rest))
      case 'n' => Some(('\n', rest))
      case 'r' => Some(('\r', rest))
      case 't' => Some(('\t', rest))
      case 'u' => ParseUnicode(rest)
      case _ => None
  }

  /** A string body up to and including its closing quote. */
  function ParseText(s: string): (r: Option<(string, string)>)
    ensures r.Some? ==> |r.value.1| < |s|
    decreases |s|
  {
    if s != [] && s[0] == '\"' then Some(("", s[1..]))
    else
      var (c, rest) :- ParseChar(s);
      var (t, tail) :- ParseText(rest);
      Some(([c] + t, tail))
  }

  function DigitSpan(s: string): (k: nat)
    ensures k <= |s|
    ensures forall c | c in s[..k] :: IsDigit(c)
  {
    if s != [] && IsDigit(s[0]) then
      var k := DigitSpan(s[1..]);
      assert s[..1 + k] == [s[0]] + s[1..][..k];
      1 + k
    else 0
  }

  predicate ContinuesNumber(s: string) {
    s != [] && (IsDigit(s[0]) || s[0] == '.' || s[0] == 'e' || s[0] == 'E')
  }

  /** An integer; a numeral with a fraction or an exponent is refused. */
  function ParseInt(s: string): (r: Option<(int, string)>)
    ensures r.Some? ==> |r.value.1| < |s|
  {
    var negative := s != [] && s[0] == '-';
    var digits := if negative then s[1..] else s;
    var k := DigitSpan(digits);
    var width := if k > 0 && digits[0] == '0' then 1 else k;
    var rest := digits[width..];
    if width == 0 || ContinuesNumber(rest) then None
    else
      assert forall c | c in digits[..width] :: c in digits[..k];
      var n: int := NatValue(digits[..width]);
      Some((if negative then -n else n, rest))
  }

  function ParseValue(s: string): (r: Option<(Json, string)>)
    ensures r.Some? ==> |r.value.1| < |s|
    decreases |s|, 1
  {
    if s == [] then None
    else if s[0] == '\"' then
      var (t, rest) :- ParseText(s[1..]);
      Some((JStr(t), rest))
    else if s[0] == '[' then
      var body := SkipSpace(s[1..]);
      if body != [] && body[0] == ']' then Some((JArr([]), body[1..])) else ParseItems(body, [])
    else if s[0] == '{' then
      var body := SkipSpace(s[1..]);
      if body != [] && body[0] == '}' then Some((JObj(map[]), body[1..])) else ParseMembers(body, map[])
    else if "null" <= s then Some((JNull, s[4..]))
    else if "true" <= s then Some((JBool(true), s[4..]))
    else if "false" <= s then Some((JBool(false), s[5..]))
    else
      var (n, rest) :- ParseInt(s);
      Some((JInt(n), rest))
  }

  function ParseItems(s: string, seen: seq<Json>): (r: Option<(Json, string)>)
    ensures r.Some? ==> |r.value.1| < |s|
    decreases |s|, 2
  {
    var (v, after) :- ParseValue(s);
    var rest := SkipSpace(after);
    if rest == [] then None
    else if rest[0] == ']' then Some((JArr(seen + [v]), rest[1..]))
    else if rest[0] == ',' then ParseItems(SkipSpace(rest[1..]), seen + [v])
    else None
  }

  /** A repeated key keeps its last value. */
  function ParseMembers(s: string, seen: map<string, Json>): (r: Option<(Json, string)>)
    ensures r.Some? ==> |r.value.1| < |s|
    decreases |s|, 2
  {
    if s == [] || s[0] != '\"' then None
    else
      var (k, afterKey) :- ParseText(s[1..]);
      var colon := SkipSpace(afterKey);
      if colon == [] || colon[0] != ':' then None
      else
        var (v, after) :- ParseValue(SkipSpace(colon[1..]));
        var rest := SkipSpace(after);
        if rest == [] then None
        else if rest[0] == '}' then Some((JObj(seen[k := v]), rest[1..]))
        else if rest[0] == ',' then ParseMembers(SkipSpace(rest[1..]), seen[k := v])
        else None
  }

  /** `json.loads` on text. */
  function Loads(s: string): Option<Json> {
    var (v, rest) :- ParseValue(SkipSpace(s));
    if SkipSpace(rest) == [] then Some(v) else None
  }

  // ---- Round trip ----

  lemma ParseCharEscape(ascii: bool, c: char, tail: string)
    ensures ParseChar(Escape(ascii, c) + tail) == Some((c, tail))
    ensures Escape(ascii, c) != [] && Escape(ascii, c)[0] != '\"'
  {
    hide ParseUnicode, ParseHex4, Hex4;
    var n := c as int;
    var e := Escape(ascii, c);
    var s := e + tail;
    if e == [c] {
      assert s[1..] == tail;
    } else if |e| == 2 {
      assert s[0] == '\\' && s[2..] == tail;
    } else if n < 0x10000 {
      assert s[0] == '\\' && s[1] == 'u' && s[2..] == Hex4(n) + tail;
      ParseScalar(c, tail);
    } else {
      var hi, lo := 0xD800 + (n - 0x10000) / 0x400, 0xDC00 + (n - 0x10000) % 0x400;
      assert s[0] == '\\' && s[1] == 'u' && s[2..] == Hex4(hi) + ("\\u" + (Hex4(lo) + tail));
      ParseSurrogates(c, tail);
    }
  }

  lemma ParseScalar(c: char, tail: string)
    requires c as int < 0x10000
    ensures ParseUnicode(Hex4(c as int) + tail) == Some((c, tail))
  {
    ParseHex4Print(c as int, tail);
    assert (Hex4(c as int) + tail)[4..] == tail;
  }

  lemma ParseSurrogates(c: char, tail: string)
    requires c as int >= 0x10000
    ensures var n := c as int - 0x10000;
            ParseUnicode(Hex4(0xD800 + n / 0x400) + ("\\u" + (Hex4(0xDC00 + n % 0x400) + tail))) == Some((c, tail))
  {
    hide ParseHex4, Hex4;
    var n := c as int - 0x10000;
    var hi, lo := 0xD800 + n / 0x400, 0xDC00 + n % 0x400;
    var second := Hex4(lo) + tail;
    var s := Hex4(hi) + ("\\u" + second);
    ParseHex4Print(hi, "\\u" + second);
    assert s[4] == '\\' && s[5] == 'u' && s[6..] == second;
    ParseHex4Print(lo, tail);
    assert s[10..] == tail;
    assert 0x10000 + (hi - 0xD800) * 0x400 + (lo - 0xDC00) == c as int;
  }

  lemma ParseHex4Print(n: nat, tail: string)
    requires n < 0x10000
    ensures ParseHex4(Hex4(n) + tail) == Some(n)
  {
    ParseHexDigits(n / 0x1000, n / 0x100 % 16, n / 16 % 16, n % 16, tail);
    HexPlaces(n);
  }

  lemma HexPlaces(n: nat)
    ensures n / 0x1000 * 0x1000 + n / 0x100 % 16 * 0x100 + n / 16 % 16 * 16 + n % 16 == n
  {
    var q, r := n / 0x100, n % 0x100;
    assert n / 16 == 16 * q + r / 16;
    assert n / 0x1000 == q / 16;
    assert n % 16 == r % 16;
  }

  lemma ParseHexDigits(a: nat, b: nat, c: nat, d: nat, tail: string)
    requires a < 16 && b < 16 && c < 16 && d < 16
    ensures ParseHex4([HexDigit(a), HexDigit(b), HexDigit(c), HexDigit(d)] + tail)
            == Some(a * 0x1000 + b * 0x100 + c * 16 + d)
  {
    HexDigitValue(a);
    HexDigitValue(b);
    HexDigitValue(c);
    HexDigitValue(d);
    var s := [HexDigit(a), HexDigit(b), HexDigit(c), HexDigit(d)] + tail;
    assert s[0] == HexDigit(a) && s[1] == HexDigit(b) && s[2] == HexDigit(c) && s[3] == HexDigit(d);
  }

  lemma HexDigitValue(n: nat)
    requires n < 16
    ensures HexValue(HexDigit(n)) == Some(n)
  {
  }

  lemma {:induction false} ParseTextPrint(ascii: bool, t: string, tail: string)
    ensures ParseText(EscapeAll(ascii, t) + "\"" + tail) == Some((t, tail))
  {
    hide ParseChar, Escape;
    var s := EscapeAll(ascii, t) + "\"" + tail;
    if t == [] {
      assert s == "\"" + tail;
    } else {
      var rest := EscapeAll(ascii, t[1..]) + "\"" + tail;
      ParseCharEscape(ascii, t[0], rest);
      assert s == Escape(ascii, t[0]) + rest;
      ParseTextPrint(ascii, t[1..], tail);
      assert t == [t[0]] + t[1..];
    }
  }

  lemma {:induction false} DigitSpanPrefix(d: string, tail: string)
    requires forall c | c in d :: IsDigit(c)
    requires tail == [] || !IsDigit(tail[0])
    ensures DigitSpan(d + tail) == |d|
  {
    if d == [] {
      assert d + tail == tail;
    } else {
      assert (d + tail)[1..] == d[1..] + tail;
      DigitSpanPrefix(d[1..], tail);
    }
  }

  lemma ParseIntPrint(n: int, tail: string)
    requires !ContinuesNumber(tail)
    ensures ParseInt(IntText(n) + tail) == Some((n, tail))
  {
    var m: nat := if n < 0 then -n else n;
    var s := IntText(n) + tail;
    var digits := if n < 0 then s[1..] else s;
    assert digits == NatText(m) + tail;
    DigitSpanPrefix(NatText(m), tail);
    assert digits[..|NatText(m)|] == NatText(m);
    assert digits[|NatText(m)|..] == tail;
    NatRoundTrip(m);
  }

  lemma PrintStart(ascii: bool, v: Json)
    ensures var p := Print(ascii, v);
            p != [] && !IsSpace(p[0]) && p[0] != ']' && p[0] != '}' && p[0] != ','
            && (p[0] == '{' <==> v.JObj?)
  {
    match v
    case JInt(n) =>
      assert NatText(if n < 0 then -n else n)[0] in NatText(if n < 0 then -n else n);
    case _ =>
  }

  lemma SkipNothing(s: string)
    requires s == [] || !IsSpace(s[0])
    ensures SkipSpace(s) == s
  {
  }

  lemma ArrayStep(body: string)
    requires body != [] && !IsSpace(body[0]) && body[0] != ']'
    ensures ParseValue("[" + body) == ParseItems(body, [])
  {
    assert ("[" + body)[1..] == body;
  }

  lemma ObjectStep(body: string)
    requires body != [] && body[0] == '\"'
    ensures ParseValue("{" + body) == ParseMembers(body, map[])
  {
    assert ("{" + body)[1..] == body;
  }

  lemma ItemStep(s: string, x: Json, after: string, seen: seq<Json>)
    requires ParseValue(s) == Some((x, after)) && after != []
    ensures after[0] == ']' ==> ParseItems(s, seen) == Some((JArr(seen + [x]), after[1..]))
    ensures after[0] == ',' ==> ParseItems(s, seen) == ParseItems(SkipSpace(after[1..]), seen + [x])
  {
  }

  lemma MemberStep(k: string, ascii: bool, value: string, x: Json, after: string, seen: map<string, Json>)
    requires value != [] && !IsSpace(value[0]) && ParseValue(value) == Some((x, after)) && after != []
    ensures var s := Quote(ascii, k) + (":" + value);
            && (after[0] == '}' ==> ParseMembers(s, seen) == Some((JObj(seen[k := x]), after[1..])))
            && (after[0] == ',' ==> ParseMembers(s, seen) == ParseMembers(SkipSpace(after[1..]), seen[k := x]))
  {
    var s := Quote(ascii, k) + (":" + value);
    hide ParseText, EscapeAll;
    assert s[1..] == EscapeAll(ascii, k) + "\"" + (":" + value);
    ParseTextPrint(ascii, k, ":" + value);
    assert (":" + value)[1..] == value;
  }

  lemma {:induction false} ParsePrint(ascii: bool, v: Json, tail: string)
    requires !ContinuesNumber(tail)
    ensures ParseValue(Print(ascii, v) + tail) == Some((v, tail))
    decreases v, 1, 0
  {
    match v
    case JArr(items) => ParseArrayPrint(ascii, v, tail);
    case JObj(members) => ParseObjectPrint(ascii, v, tail);
    case _ => ParseLeafPrint(ascii, v, tail);
  }

  lemma ParseLeafPrint(ascii: bool, v: Json, tail: string)
    requires !v.JArr? && !v.JObj? && !ContinuesNumber(tail)
    ensures ParseValue(Print(ascii, v) + tail) == Some((v, tail))
  {
    match v
    case JNull => assert ("null" + tail)[4..] == tail;
    case JBool(b) =>
      assert ("true" + tail)[4..] == tail;
      assert ("false" + tail)[5..] == tail;
    case JInt(n) => ParseNumberPrint(n, tail);
    case JStr(t) => ParseStringPrint(ascii, t, tail);
  }

  lemma ParseStringPrint(ascii: bool, t: string, tail: string)
    ensures ParseValue(Quote(ascii, t) + tail) == Some((JStr(t), tail))
  {
    var body := EscapeAll(ascii, t) + "\"" + tail;
    assert Quote(ascii, t) + tail == "\"" + body;
    assert ("\"" + body)[1..] == body;
    ParseTextPrint(ascii, t, tail);
  }

  lemma ParseNumberPrint(n: int, tail: string)
    requires !ContinuesNumber(tail)
    ensures ParseValue(IntText(n) + tail) == Some((JInt(n), tail))
  {
    var s := IntText(n) + tail;
    var m: nat := if n < 0 then -n else n;
    assert NatText(m)[0] in NatText(m);
    assert s[0] == '-' || IsDigit(s[0]);
    ParseIntPrint(n, tail);
  }

  lemma {:induction false} ParseArrayPrint(ascii: bool, v: Json, tail: string)
    requires v.JArr?
    ensures ParseValue(Print(ascii, v) + tail) == Some((v, tail))
    decreases v, 0, |v.items| + 1
  {
    var body := PrintItems(ascii, v, 0) + "]" + tail;
    assert Print(ascii, v) + tail == "[" + body;
    if v.items == [] {
      assert body == "]" + tail;
      SkipNothing(body);
      assert ("[" + body)[1..] == body && body[1..] == tail;
    } else {
      PrintStart(ascii, v.items[0]);
      assert body[0] == Print(ascii, v.items[0])[0];
      ArrayStep(body);
      ParseItemsPrint(ascii, v, 0, tail);
      assert v.items[..0] == [];
    }
  }

  ghost function ItemsTail(ascii: bool, v: Json, i: nat, tail: string): string
    requires v.JArr? && 0 < i <= |v.items|
  {
    if i == |v.items| then "]" + tail else "," + (PrintItems(ascii, v, i) + "]" + tail)
  }

  lemma ItemsUnfold(ascii: bool, v: Json, i: nat, tail: string)
    requires v.JArr? && i < |v.items|
    ensures var s := PrintItems(ascii, v, i) + "]" + tail;
            && s == Print(ascii, v.items[i]) + ItemsTail(ascii, v, i + 1, tail)
            && !IsSpace(s[0])
  {
    PrintStart(ascii, v.items[i]);
    hide Print;
  }

  lemma ItemsStep(ascii: bool, v: Json, i: nat, tail: string)
    requires v.JArr? && i < |v.items|
    requires var after := ItemsTail(ascii, v, i + 1, tail);
             ParseValue(Print(ascii, v.items[i]) + after) == Some((v.items[i], after))
    ensures var s := PrintItems(ascii, v, i) + "]" + tail;
            if i + 1 == |v.items| then ParseItems(s, v.items[..i]) == Some((v, tail))
            else ParseItems(s, v.items[..i]) == ParseItems(PrintItems(ascii, v, i + 1) + "]" + tail, v.items[..i + 1])
  {
    hide ParseItems, ParseValue, Print, PrintItems;
    var s := PrintItems(ascii, v, i) + "]" + tail;
    var x, after := v.items[i], ItemsTail(ascii, v, i + 1, tail);
    ItemsUnfold(ascii, v, i, tail);
    ItemStep(s, x, after, v.items[..i]);
    assert v.items[..i] + [x] == v.items[..i + 1];
    if i + 1 == |v.items| {
      assert v.items[..i + 1] == v.items && after[1..] == tail;
    } else {
      var rest := PrintItems(ascii, v, i + 1) + "]" + tail;
      assert after[1..] == rest;
      ItemsUnfold(ascii, v, i + 1, tail);
      SkipNothing(rest);
    }
  }

  lemma {:induction false} ParseItemsPrint(ascii: bool, v: Json, i: nat, tail: string)
    requires v.JArr? && i < |v.items|
    ensures ParseItems(PrintItems(ascii, v, i) + "]" + tail, v.items[..i]) == Some((v, tail))
    decreases v, 0, |v.items| - i
  {
    hide ParseItems, ParseValue, Print, PrintItems;
    ParsePrint(ascii, v.items[i], ItemsTail(ascii, v, i + 1, tail));
    ItemsStep(ascii, v, i, tail);
    if i + 1 < |v.items| {
      ParseItemsPrint(ascii, v, i + 1, tail);
    }
  }

  ghost function Restrict(v: Json, keys: seq<string>): map<string, Json>
    requires v.JObj?
  {
    map k | k in v.members && k in keys :: v.members[k]
  }

  lemma {:induction false} ParseObjectPrint(ascii: bool, v: Json, tail: string)
    requires v.JObj?
    ensures ParseValue(Print(ascii, v) + tail) == Some((v, tail))
    decreases v, 0, |SortedKeys(v.members.Keys)| + 1
  {
    hide ParseMembers, Quote, Escape, EscapeAll;
    var keys := SortedKeys(v.members.Keys);
    var body := PrintMembers(ascii, v, keys) + "}" + tail;
    assert Print(ascii, v) + tail == "{" + body;
    assert v.members == Restrict(v, keys);
    if keys == [] {
      assert v == JObj(map[]) && PrintMembers(ascii, v, keys) == "";
      assert body == "}" + tail;
      SkipNothing(body);
      assert ("{" + body)[1..] == body && body[1..] == tail;
    } else {
      MembersStart(ascii, v, keys);
      ObjectStep(body);
      ParseMembersPrint(ascii, v, keys, map[], tail);
      assert map[] + Restrict(v, keys) == v.members;
    }
  }

  ghost function MembersTail(ascii: bool, v: Json, keys: seq<string>, tail: string): string
    requires v.JObj? && forall k | k in keys :: k in v.members
  {
    if keys == [] then "}" + tail else "," + PrintMembers(ascii, v, keys) + "}" + tail
  }

  lemma MembersUnfold(ascii: bool, v: Json, keys: seq<string>, tail: string)
    requires v.JObj? && keys != [] && forall k | k in keys :: k in v.members
    ensures PrintMembers(ascii, v, keys) + "}" + tail
            == Quote(ascii, keys[0]) + (":" + (Print(ascii, v.members[keys[0]]) + MembersTail(ascii, v, keys[1..], tail)))
  {
    hide Print, Quote;
    var more := if |keys| == 1 then "" else "," + PrintMembers(ascii, v, keys[1..]);
    assert MembersTail(ascii, v, keys[1..], tail) == more + "}" + tail;
    Regroup(Quote(ascii, keys[0]), Print(ascii, v.members[keys[0]]), more, tail);
  }

  lemma Regroup(q: string, p: string, t: string, tail: string)
    ensures q + ":" + p + t + "}" + tail == q + (":" + (p + (t + "}" + tail)))
  {
    assert q + ":" + p + t + "}" + tail == (q + ":" + p) + (t + "}" + tail);
  }

  lemma MembersStart(ascii: bool, v: Json, keys: seq<string>)
    requires v.JObj? && keys != [] && forall k | k in keys :: k in v.members
    ensures PrintMembers(ascii, v, keys) != [] && PrintMembers(ascii, v, keys)[0] == '\"'
  {
    hide Print, EscapeAll;
  }

  lemma MembersStep(ascii: bool, v: Json, keys: seq<string>, seen: map<string, Json>, tail: string)
    requires v.JObj? && keys != [] && forall k | k in keys :: k in v.members
    requires var after := MembersTail(ascii, v, keys[1..], tail);
             ParseValue(Print(ascii, v.members[keys[0]]) + after) == Some((v.members[keys[0]], after))
    ensures var s, more := PrintMembers(ascii, v, keys) + "}" + tail, seen[keys[0] := v.members[keys[0]]];
            if |keys| == 1 then ParseMembers(s, seen) == Some((JObj(more), tail))
            else ParseMembers(s, seen) == ParseMembers(PrintMembers(ascii, v, keys[1..]) + "}" + tail, more)
  {
    hide ParseMembers, ParseValue, ParseText, Print, PrintMembers, Quote;
    var k, x := keys[0], v.members[keys[0]];
    var after := MembersTail(ascii, v, keys[1..], tail);
    PrintStart(ascii, x);
    MembersUnfold(ascii, v, keys, tail);
    MemberStep(k, ascii, Print(ascii, x) + after, x, after, seen);
    if |keys| == 1 {
      assert after[1..] == tail;
    } else {
      var rest := PrintMembers(ascii, v, keys[1..]) + "}" + tail;
      MembersStart(ascii, v, keys[1..]);
      assert after[1..] == rest;
      SkipNothing(rest);
    }
  }

  lemma {:induction false} ParseMembersPrint(ascii: bool, v: Json, keys: seq<string>, seen: map<string, Json>, tail: string)
    requires v.JObj? && keys != [] && forall k | k in keys :: k in v.members
    ensures ParseMembers(PrintMembers(ascii, v, keys) + "}" + tail, seen)
            == Some((JObj(seen + Restrict(v, keys)), tail))
    decreases v, 0, |keys|
  {
    hide ParseMembers, ParseValue, ParseText, Print, PrintMembers;
    ParsePrint(ascii, v.members[keys[0]], MembersTail(ascii, v, keys[1..], tail));
    MembersStep(ascii, v, keys, seen, tail);
    RestrictStep(v, keys, seen);
    if |keys| == 1 {
      var more := seen[keys[0] := v.members[keys[0]]];
      assert more + Restrict(v, keys[1..]) == more;
    } else {
      ParseMembersPrint(ascii, v, keys[1..], seen[keys[0] := v.members[keys[0]]], tail);
    }
  }

  lemma RestrictStep(v: Json, keys: seq<string>, seen: map<string, Json>)
    requires v.JObj? && keys != [] && keys[0] in v.members
    ensures seen[keys[0] := v.members[keys[0]]] + Restrict(v, keys[1..]) == seen + Restrict(v, keys)
  {
    forall j
      ensures j in keys <==> j == keys[0] || j in keys[1..]
    {
      assert keys == [keys[0]] + keys[1..];
    }
  }

  /** Loading undoes dumping, in the UTF-8 form and in the ASCII-escaped form alike. */
  lemma LoadsPrint(ascii: bool, v: Json)
    ensures Loads(Print(ascii, v)) == Some(v)
  {
    var p := Print(ascii, v);
    PrintStart(ascii, v);
    SkipNothing(p);
    ParsePrint(ascii, v, "");
    assert p + "" == p;
  }
}
