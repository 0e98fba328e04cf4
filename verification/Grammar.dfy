/**
 JSON texts as RFC 8259 has them, with every choice a writer has: blanks, escapes, repeated keys.
 The parser reads exactly these, as the values they stand for. Numbers are integers here.
 */
module Grammar {
  import opened Wrappers
  import opened Text
  import opened Json

  /** One character of a text, as written. */
  datatype Sign = Sign(text: string, c: char)

  datatype Tree =
    | Word(text: string, value: Json)
    | Numeral(text: string, n: int)
    | Quoted(signs: seq<Sign>)
    | List(blank: string, slots: seq<Slot>)
    | Dict(blank: string, entries: seq<Entry>)

  /** An item and the blanks after it and after the comma that follows. */
  datatype Slot = Slot(tree: Tree, after: string, next: string)

  datatype Entry = Entry(key: seq<Sign>, beforeColon: string, afterColon: string, tree: Tree, after: string, next: string)

  // ---- Which characters, numerals and blanks may be written ----

  predicate Blank(s: string) {
    forall c | c in s :: c in " \t\n\r"
  }

  /** Section 7 of RFC 8259: a character itself, a short escape, a hexadecimal one, or a surrogate pair. */
  predicate Spells(text: string, c: char) {
    || (text == [c] && c >= ' ' && c != '\"' && c != '\\')
    || (|text| == 2 && text[0] == '\\' && ShortEscape(text[1]) == Some(c))
    || (IsHexEscape(text, 6) && HexNumber(text[2..6]) == c as int)
    || (IsHexEscape(text, 12) && IsHexEscape(text[6..], 6)
        && var hi, lo := HexNumber(text[2..6]), HexNumber(text[8..12]);
           0xD800 <= hi < 0xDC00 <= lo < 0xE000 && c as int == 0x10000 + (hi - 0xD800) * 0x400 + (lo - 0xDC00))
  }

  function ShortEscape(c: char): Option<char> {
    match c
    case '\"' => Some('\"')
    case '\\' => Some('\\')
    case '/' => Some('/')
    case 'b' => Some(8 as char)
    case 'f' => Some(12 as char)
    case 'n' => Some('\n')
    case 'r' => Some('\r')
    case 't' => Some('\t')
    case _ => None
  }

  predicate IsHex(c: char) {
    '0' <= c <= '9' || 'a' <= c <= 'f' || 'A' <= c <= 'F'
  }

  function Nibble(c: char): (n: int)
    requires IsHex(c)
    ensures 0 <= n < 16
  {
    if c <= '9' then c as int - '0' as int else if c <= 'F' then c as int - 'A' as int + 10 else c as int - 'a' as int + 10
  }

  /** The text has this length and starts with a backslash, a `u` and four hexadecimal digits. */
  predicate IsHexEscape(text: string, length: nat) {
    |text| == length && length >= 6 && text[0] == '\\' && text[1] == 'u' && forall i | 2 <= i < 6 :: IsHex(text[i])
  }

  function HexNumber(h: string): (n: int)
    requires |h| == 4 && forall i | 0 <= i < 4 :: IsHex(h[i])
    ensures 0 <= n < 0x10000
  {
    ((Nibble(h[0]) * 16 + Nibble(h[1])) * 16 + Nibble(h[2])) * 16 + Nibble(h[3])
  }

  /** Digits without a needless zero in front, and perhaps a minus sign. */
  predicate IsNumeral(text: string, n: int) {
    var negative := text != [] && text[0] == '-';
    var digits := if negative then text[1..] else text;
    && digits != [] && (forall c | c in digits :: IsDigit(c)) && (digits[0] == '0' ==> |digits| == 1)
    && n == if negative then 0 - NatValue(digits) else NatValue(digits)
  }

  // ---- The text and the value of a tree ----

  function Written(signs: seq<Sign>): string {
    if signs == [] then "" else signs[0].text + Written(signs[1..])
  }

  function Chars(signs: seq<Sign>): string {
    seq(|signs|, i requires 0 <= i < |signs| => signs[i].c)
  }

  ghost predicate SignsFit(signs: seq<Sign>) {
    forall i | 0 <= i < |signs| :: Spells(signs[i].text, signs[i].c)
  }

  ghost predicate Fits(t: Tree) {
    match t
    case Word(text, v) => (text, v) in {("null", JNull), ("true", JBool(true)), ("false", JBool(false))}
    case Numeral(text, n) => IsNumeral(text, n)
    case Quoted(signs) => SignsFit(signs)
    case List(blank, slots) =>
      Blank(blank) && forall i | 0 <= i < |slots| :: Fits(slots[i].tree) && Blank(slots[i].after) && Blank(slots[i].next)
    case Dict(blank, entries) =>
      Blank(blank) && forall i | 0 <= i < |entries| ::
        && SignsFit(entries[i].key) && Blank(entries[i].beforeColon) && Blank(entries[i].afterColon)
        && Fits(entries[i].tree) && Blank(entries[i].after) && Blank(entries[i].next)
  }

  function Render(t: Tree): string
    decreases t, 1, 0
  {
    match t
    case Word(text, _) => text
    case Numeral(text, _) => text
    case Quoted(signs) => "\"" + Written(signs) + "\""
    case List(blank, slots) => "[" + blank + if slots == [] then "]" else RenderSlots(t, 0)
    case Dict(blank, entries) => "{" + blank + if entries == [] then "}" else RenderEntries(t, 0)
  }

  function RenderSlots(t: Tree, i: nat): string
    requires t.List? && i < |t.slots|
    decreases t, 0, |t.slots| - i
  {
    Render(t.slots[i].tree) + t.slots[i].after
    + if i + 1 == |t.slots| then "]" else "," + t.slots[i].next + RenderSlots(t, i + 1)
  }

  function RenderEntries(t: Tree, i: nat): string
    requires t.Dict? && i < |t.entries|
    decreases t, 0, |t.entries| - i
  {
    var e := t.entries[i];
    "\"" + Written(e.key) + "\"" + e.beforeColon + ":" + e.afterColon + Render(e.tree) + e.after
    + if i + 1 == |t.entries| then "}" else "," + e.next + RenderEntries(t, i + 1)
  }

  /** Of a repeated key the last value stands. */
  function Fold(pairs: seq<(string, Json)>): map<string, Json> {
    if pairs == [] then map[] else Fold(pairs[..|pairs| - 1])[pairs[|pairs| - 1].0 := pairs[|pairs| - 1].1]
  }

  function Value(t: Tree): Json {
    match t
    case Word(_, v) => v
    case Numeral(_, n) => JInt(n)
    case Quoted(signs) => JStr(Chars(signs))
    case List(_, slots) => JArr(seq(|slots|, i requires 0 <= i < |slots| => Value(slots[i].tree)))
    case Dict(_, entries) => JObj(Fold(seq(|entries|, i requires 0 <= i < |entries| => (Chars(entries[i].key), Value(entries[i].tree)))))
  }

  // ---- Characters ----

  lemma ReadHex4(h: string, tail: string)
    requires |h| == 4 && forall i | 0 <= i < 4 :: IsHex(h[i])
    ensures ParseHex4(h + tail) == Some(HexNumber(h))
  {
    hide HexValue, Nibble, IsHex;
    var s := h + tail;
    assert s[0] == h[0] && s[1] == h[1] && s[2] == h[2] && s[3] == h[3];
    assert IsHex(h[0]) && IsHex(h[1]) && IsHex(h[2]) && IsHex(h[3]);
    NibbleIsValue(h[0]);
    NibbleIsValue(h[1]);
    NibbleIsValue(h[2]);
    NibbleIsValue(h[3]);
    HexPower(Nibble(h[0]), Nibble(h[1]), Nibble(h[2]), Nibble(h[3]));
  }

  lemma NibbleIsValue(c: char)
    requires IsHex(c)
    ensures HexValue(c) == Some(Nibble(c))
  {
  }

  lemma HexPower(a: int, b: int, c: int, d: int)
    ensures a * 0x1000 + b * 0x100 + c * 16 + d == ((a * 16 + b) * 16 + c) * 16 + d
  {
  }

  lemma Hex4Written(s: string)
    requires ParseHex4(s).Some?
    ensures |s| >= 4 && (forall i | 0 <= i < 4 :: IsHex(s[..4][i])) && ParseHex4(s).value == HexNumber(s[..4])
  {
    ReadHex4Shape(s);
    ReadHex4(s[..4], s[4..]);
    assert s[..4] + s[4..] == s;
  }

  lemma ReadHex4Shape(s: string)
    requires ParseHex4(s).Some?
    ensures |s| >= 4 && IsHex(s[0]) && IsHex(s[1]) && IsHex(s[2]) && IsHex(s[3])
  {
  }

  lemma ReadSign(text: string, c: char, tail: string)
    requires Spells(text, c)
    ensures ParseChar(text + tail) == Some((c, tail))
    ensures text != [] && text[0] != '\"'
  {
    hide ParseHex4, HexNumber;
    var s := text + tail;
    if text == [c] {
      assert s[1..] == tail;
    } else if |text| == 2 {
      assert s[2..] == tail;
    } else if |text| == 6 {
      assert s[2..] == text[2..6] + tail;
      ReadHex4(text[2..6], tail);
      assert s[2..][4..] == tail;
    } else {
      var second := text[8..12] + tail;
      assert s[2..] == text[2..6] + ("\\u" + second);
      ReadHex4(text[2..6], "\\u" + second);
      assert s[2..][4] == '\\' && s[2..][5] == 'u' && s[2..][6..] == second;
      assert text[6..][2] == text[8] && text[6..][3] == text[9] && text[6..][4] == text[10] && text[6..][5] == text[11];
      ReadHex4(text[8..12], tail);
      assert s[2..][10..] == tail;
    }
  }

  lemma SignWritten(s: string) returns (sign: Sign)
    requires ParseChar(s).Some?
    ensures var (c, rest) := ParseChar(s).value; Spells(sign.text, c) && sign.c == c && s == sign.text + rest && sign.text != []
  {
    hide ParseHex4, HexNumber, ParseUnicode;
    var (c, rest) := ParseChar(s).value;
    if s[0] != '\\' {
      sign := Sign([c], c);
      assert s == [s[0]] + s[1..];
    } else if s[1] != 'u' {
      sign := Sign(s[..2], c);
    } else {
      var text := UnicodeWritten(s[2..]);
      sign := Sign("\\u" + text, c);
      assert s == s[..2] + s[2..];
      assert s[..2] == "\\u";
    }
  }

  lemma UnicodeWritten(s: string) returns (text: string)
    requires ParseUnicode(s).Some?
    ensures var (c, rest) := ParseUnicode(s).value; Spells("\\u" + text, c) && s == text + rest
  {
    hide ParseHex4, HexNumber;
    var (c, rest) := ParseUnicode(s).value;
    Hex4Written(s);
    var n := HexNumber(s[..4]);
    if 0xD800 <= n < 0xDC00 {
      Hex4Written(s[6..]);
      text := s[..10];
      var e := "\\u" + text;
      assert e[2..6] == s[..4] && e[8..12] == s[6..][..4];
      assert forall i | 2 <= i < 6 :: e[i] == s[..4][i - 2] && e[6..][i] == s[6..][..4][i - 2];
      assert e[6..][0] == s[4] && e[6..][1] == s[5];
    } else {
      text := s[..4];
      var e := "\\u" + text;
      assert e[2..6] == s[..4];
      assert forall i | 2 <= i < 6 :: e[i] == s[..4][i - 2];
    }
  }

  lemma {:induction false} ReadSigns(signs: seq<Sign>, tail: string)
    requires SignsFit(signs)
    ensures ParseText(Written(signs) + "\"" + tail) == Some((Chars(signs), tail))
  {
    hide ParseChar, Spells;
    var s := Written(signs) + "\"" + tail;
    if signs == [] {
      assert s == "\"" + tail;
    } else {
      var rest := Written(signs[1..]) + "\"" + tail;
      assert s == signs[0].text + rest;
      ReadSign(signs[0].text, signs[0].c, rest);
      ReadSigns(signs[1..], tail);
      assert Chars(signs) == [signs[0].c] + Chars(signs[1..]);
    }
  }

  lemma {:induction false} SignsWritten(s: string) returns (signs: seq<Sign>)
    requires ParseText(s).Some?
    ensures var (t, rest) := ParseText(s).value; SignsFit(signs) && Chars(signs) == t && s == Written(signs) + "\"" + rest
    decreases |s|
  {
    hide ParseChar, Spells;
    if s != [] && s[0] == '\"' {
      signs := [];
      assert s == "\"" + s[1..];
    } else {
      var (c, rest) := ParseChar(s).value;
      var first := SignWritten(s);
      var others := SignsWritten(rest);
      signs := [first] + others;
      assert signs[1..] == others;
    }
  }

  // ---- Blanks and numerals ----

  lemma {:induction false} SkipBlank(blank: string, s: string)
    requires Blank(blank) && (s == [] || !IsSpace(s[0]))
    ensures SkipSpace(blank + s) == s
  {
    if blank == [] {
      assert blank + s == s;
      SkipNothing(s);
    } else {
      assert blank[0] in blank;
      assert (blank + s)[1..] == blank[1..] + s;
      SkipBlank(blank[1..], s);
    }
  }

  lemma {:induction false} BlankWritten(s: string) returns (blank: string)
    ensures Blank(blank) && s == blank + SkipSpace(s) && (SkipSpace(s) != [] ==> !IsSpace(SkipSpace(s)[0]))
  {
    if s != [] && IsSpace(s[0]) {
      var more := BlankWritten(s[1..]);
      blank := [s[0]] + more;
      assert s == [s[0]] + s[1..];
    } else {
      blank := [];
    }
  }

  lemma ReadNumeral(text: string, n: int, tail: string)
    requires IsNumeral(text, n) && !ContinuesNumber(tail)
    ensures ParseValue(text + tail) == Some((JInt(n), tail))
  {
    hide ParseText, ParseItems, ParseMembers, NatValue;
    var s := text + tail;
    var negative := text[0] == '-';
    var digits := if negative then text[1..] else text;
    assert digits[0] in digits;
    assert (if negative then s[1..] else s) == digits + tail;
    DigitSpanPrefix(digits, tail);
    assert (digits + tail)[..|digits|] == digits && (digits + tail)[|digits|..] == tail;
    assert s[0] == text[0] && (s[0] == '-' || IsDigit(s[0]));
    assert ParseInt(s) == Some((n, tail));
  }

  lemma NumeralStarts(text: string, n: int)
    requires IsNumeral(text, n)
    ensures text != [] && (text[0] == '-' || IsDigit(text[0]))
  {
    assert text[0] in text;
  }

  lemma NumeralWritten(s: string) returns (text: string)
    requires ParseInt(s).Some?
    ensures IsNumeral(text, ParseInt(s).value.0) && s == text + ParseInt(s).value.1
  {
    hide NatValue, DigitSpan, ContinuesNumber, IsNumeral, ParseInt;
    var negative := s != [] && s[0] == '-';
    var digits := if negative then s[1..] else s;
    var k := DigitSpan(digits);
    var width := if k > 0 && digits[0] == '0' then 1 else k;
    IntTaken(s, negative, digits, width);
    SignedDigits(negative, digits, k, width);
    text := (if negative then "-" else "") + digits[..width];
    Regrouped(s, negative, digits, width);
  }

  lemma Regrouped(s: string, negative: bool, digits: string, width: nat)
    requires negative == (s != [] && s[0] == '-') && digits == (if negative then s[1..] else s) && width <= |digits|
    ensures s == (if negative then "-" else "") + digits[..width] + digits[width..]
  {
    assert digits == digits[..width] + digits[width..];
    assert negative ==> s == [s[0]] + s[1..];
  }

  lemma IntTaken(s: string, negative: bool, digits: string, width: nat)
    requires ParseInt(s).Some? && negative == (s != [] && s[0] == '-') && digits == if negative then s[1..] else s
    requires var k := DigitSpan(digits); width == if k > 0 && digits[0] == '0' then 1 else k
    ensures 0 < width <= |digits| && forall c | c in digits[..width] :: IsDigit(c)
    ensures var n := NatValue(digits[..width]); ParseInt(s).value == (if negative then 0 - n else n, digits[width..])
  {
    hide NatValue, ContinuesNumber, DigitSpan;
    PrefixDigits(digits, DigitSpan(digits), width);
  }

  lemma PrefixDigits(digits: string, k: nat, width: nat)
    requires width <= k <= |digits| && forall c | c in digits[..k] :: IsDigit(c)
    ensures forall c | c in digits[..width] :: IsDigit(c)
  {
    forall c | c in digits[..width]
      ensures IsDigit(c)
    {
      var i :| 0 <= i < width && digits[i] == c;
      assert digits[..k][i] == c;
    }
  }

  lemma SignedDigits(negative: bool, digits: string, k: nat, width: nat)
    requires 0 < width <= k <= |digits| && (forall c | c in digits[..k] :: IsDigit(c)) && (digits[0] == '0' ==> width == 1)
    ensures forall c | c in digits[..width] :: IsDigit(c)
    ensures var n := NatValue(digits[..width]); IsNumeral((if negative then "-" else "") + digits[..width], if negative then 0 - n else n)
  {
    hide NatValue;
    PrefixDigits(digits, k, width);
    var d := digits[..width];
    assert d[0] == digits[0] && d[0] in d;
    assert ("-" + d)[1..] == d && "" + d == d;
  }

  // ---- Reading what is written ----

  lemma RenderStart(t: Tree)
    requires Fits(t)
    ensures var s := Render(t); s != [] && !IsSpace(s[0]) && s[0] != ']' && s[0] != '}'
  {
    hide RenderSlots, RenderEntries, NatValue, Written, IsNumeral;
    match t
    case Numeral(text, n) => NumeralStarts(text, n);
    case List(_, _) => assert Render(t)[0] == '[';
    case Dict(_, _) => assert Render(t)[0] == '{';
    case _ =>
  }

  lemma {:induction false} ReadTree(t: Tree, tail: string)
    requires Fits(t) && !ContinuesNumber(tail)
    ensures ParseValue(Render(t) + tail) == Some((Value(t), tail))
    decreases t, 1, 1
  {
    hide ParseValue, ParseText, Render, Written, Chars, Spells, IsNumeral, Value;
    match t
    case List(_, _) => ReadList(t, tail);
    case Dict(_, _) => ReadDict(t, tail);
    case _ => ReadLeaf(t, tail);
  }

  lemma ReadLeaf(t: Tree, tail: string)
    requires Fits(t) && !ContinuesNumber(tail) && !t.List? && !t.Dict?
    ensures ParseValue(Render(t) + tail) == Some((Value(t), tail))
  {
    hide ParseText, ParseInt, ParseItems, ParseMembers, SkipSpace, Written, Chars, Spells, IsNumeral;
    match t
    case Word(text, v) => ReadWord(text, tail);
    case Numeral(text, n) => ReadNumeral(text, n, tail);
    case Quoted(signs) =>
      ReadSigns(signs, tail);
      assert (Render(t) + tail)[1..] == Written(signs) + "\"" + tail;
  }

  lemma {:induction false} ReadList(t: Tree, tail: string)
    requires Fits(t) && t.List?
    ensures ParseValue(Render(t) + tail) == Some((Value(t), tail))
    decreases t, 1, 0
  {
    hide ParseText, ParseInt, ParseItems, ParseMembers, SkipSpace, RenderSlots;
    var s := Render(t) + tail;
    if t.slots == [] {
      SkipBlank(t.blank, "]" + tail);
      assert s[1..] == t.blank + ("]" + tail);
      assert ("]" + tail)[1..] == tail;
      assert Value(t).items == [];
    } else {
      ReadSlots(t, 0, [], tail);
      SlotsStart(t, 0);
      OpenBracket(t.blank, RenderSlots(t, 0) + tail);
      assert s == "[" + (t.blank + (RenderSlots(t, 0) + tail));
    }
  }

  lemma {:induction false} ReadDict(t: Tree, tail: string)
    requires Fits(t) && t.Dict?
    ensures ParseValue(Render(t) + tail) == Some((Value(t), tail))
    decreases t, 1, 0
  {
    hide ParseText, ParseInt, ParseItems, ParseMembers, SkipSpace, RenderEntries, Value, Fold, Pairs;
    var s := Render(t) + tail;
    if t.entries == [] {
      SkipBlank(t.blank, "}" + tail);
      assert s[1..] == t.blank + ("}" + tail);
      assert ("}" + tail)[1..] == tail;
      NothingFolds(t);
    } else {
      ReadEntries(t, 0, tail);
      EntriesStart(t, 0);
      OpenBrace(t.blank, RenderEntries(t, 0) + tail);
      NoPairs(t);
      assert s == "{" + (t.blank + (RenderEntries(t, 0) + tail));
    }
  }

  lemma OpenBracket(blank: string, body: string)
    requires Blank(blank) && body != [] && !IsSpace(body[0]) && body[0] != ']'
    ensures ParseValue("[" + (blank + body)) == ParseItems(body, [])
  {
    hide ParseItems, SkipSpace;
    SkipBlank(blank, body);
    assert ("[" + (blank + body))[1..] == blank + body;
  }

  lemma OpenBrace(blank: string, body: string)
    requires Blank(blank) && body != [] && body[0] == '\"'
    ensures ParseValue("{" + (blank + body)) == ParseMembers(body, map[])
  {
    hide ParseMembers, SkipSpace;
    SkipBlank(blank, body);
    assert ("{" + (blank + body))[1..] == blank + body;
  }

  lemma ReadWord(text: string, tail: string)
    ensures ParseValue("null" + tail) == Some((JNull, tail))
    ensures ParseValue("true" + tail) == Some((JBool(true), tail))
    ensures ParseValue("false" + tail) == Some((JBool(false), tail))
  {
    hide ParseText, ParseInt, ParseItems, ParseMembers, SkipSpace;
    assert ("null" + tail)[4..] == tail && ("true" + tail)[4..] == tail && ("false" + tail)[5..] == tail;
  }

  lemma NothingFolds(t: Tree)
    requires t.Dict? && t.entries == []
    ensures Value(t) == JObj(map[])
  {
  }

  lemma SlotsStart(t: Tree, i: nat)
    requires Fits(t) && t.List? && i < |t.slots|
    ensures var s := RenderSlots(t, i); s != [] && !IsSpace(s[0]) && s[0] != ']'
  {
    hide Render;
    RenderStart(t.slots[i].tree);
  }

  lemma EntriesStart(t: Tree, i: nat)
    requires t.Dict? && i < |t.entries|
    ensures var s := RenderEntries(t, i); s != [] && s[0] == '\"'
  {
    hide Render, Written;
  }

  /** One slot: the value, the blanks after it, and the comma or bracket. */
  lemma ReadSlot(s: string, v: Json, after: string, rest: string, seen: seq<Json>)
    requires Blank(after) && rest != [] && !IsSpace(rest[0]) && ParseValue(s) == Some((v, after + rest))
    ensures rest[0] == ']' ==> ParseItems(s, seen) == Some((JArr(seen + [v]), rest[1..]))
    ensures rest[0] == ',' ==> ParseItems(s, seen) == ParseItems(SkipSpace(rest[1..]), seen + [v])
  {
    hide ParseValue, SkipSpace;
    SkipBlank(after, rest);
  }

  lemma NoContinuation(blank: string, rest: string)
    requires Blank(blank) && rest != [] && rest[0] in ",]}"
    ensures !ContinuesNumber(blank + rest) && !IsSpace(rest[0])
  {
    assert blank != [] ==> blank[0] in blank;
  }

  lemma SlotFits(t: Tree, i: nat)
    requires Fits(t) && t.List? && i < |t.slots|
    ensures Fits(t.slots[i].tree) && Blank(t.slots[i].after) && Blank(t.slots[i].next)
  {
    hide Blank;
  }

  lemma {:induction false} ReadSlots(t: Tree, i: nat, seen: seq<Json>, tail: string)
    requires Fits(t) && t.List? && i < |t.slots|
    requires |seen| == i && forall k | 0 <= k < i :: seen[k] == Value(t.slots[k].tree)
    ensures ParseItems(RenderSlots(t, i) + tail, seen) == Some((Value(t), tail))
    decreases t, 0, |t.slots| - i
  {
    hide ParseValue, ParseItems, SkipSpace, Render, Blank, Fits;
    var slot, last := t.slots[i], i + 1 == |t.slots|;
    var v := Value(slot.tree);
    SlotFits(t, i);
    var rest := (if last then "]" else "," + slot.next + RenderSlots(t, i + 1)) + tail;
    var s := RenderSlots(t, i) + tail;
    assert s == Render(slot.tree) + (slot.after + rest);
    NoContinuation(slot.after, rest);
    ReadTree(slot.tree, slot.after + rest);
    ReadSlot(s, v, slot.after, rest, seen);
    if last {
      assert rest[1..] == tail;
      assert seen + [v] == Value(t).items;
    } else {
      SlotsStart(t, i + 1);
      assert rest[1..] == slot.next + (RenderSlots(t, i + 1) + tail);
      SkipBlank(slot.next, RenderSlots(t, i + 1) + tail);
      ReadSlots(t, i + 1, seen + [v], tail);
    }
  }

  ghost function Pairs(t: Tree, n: nat): seq<(string, Json)>
    requires t.Dict? && n <= |t.entries|
  {
    seq(n, i requires 0 <= i < n => (Chars(t.entries[i].key), Value(t.entries[i].tree)))
  }

  lemma NoPairs(t: Tree)
    requires t.Dict?
    ensures Fold(Pairs(t, 0)) == map[]
  {
  }

  lemma FoldNext(t: Tree, n: nat)
    requires t.Dict? && n < |t.entries|
    ensures Fold(Pairs(t, n + 1)) == Fold(Pairs(t, n))[Chars(t.entries[n].key) := Value(t.entries[n].tree)]
  {
    hide Chars, Value;
    assert Pairs(t, n + 1)[..n] == Pairs(t, n);
  }

  lemma ValueOfPairs(t: Tree)
    requires t.Dict?
    ensures Value(t) == JObj(Fold(Pairs(t, |t.entries|)))
  {
    hide Fold, Chars;
    assert Pairs(t, |t.entries|) == seq(|t.entries|, i requires 0 <= i < |t.entries| => (Chars(t.entries[i].key), Value(t.entries[i].tree)));
  }

  /** One entry: the key, the colon, the value, and the comma or brace. */
  lemma ReadEntry(e: Entry, s: string, rest: string, seen: map<string, Json>)
    requires SignsFit(e.key) && Blank(e.beforeColon) && Blank(e.afterColon) && Blank(e.after) && Fits(e.tree)
    requires rest != [] && !IsSpace(rest[0])
    requires s == "\"" + Written(e.key) + "\"" + e.beforeColon + ":" + e.afterColon + Render(e.tree) + e.after + rest
    requires ParseValue(Render(e.tree) + (e.after + rest)) == Some((Value(e.tree), e.after + rest))
    ensures var now := seen[Chars(e.key) := Value(e.tree)];
            && (rest[0] == '}' ==> ParseMembers(s, seen) == Some((JObj(now), rest[1..])))
            && (rest[0] == ',' ==> ParseMembers(s, seen) == ParseMembers(SkipSpace(rest[1..]), now))
  {
    hide ParseValue, ParseText, SkipSpace, Written, Render, Chars, Value, Spells, Blank, Fits;
    var value := Render(e.tree) + (e.after + rest);
    var colon := ":" + (e.afterColon + value);
    assert s[1..] == Written(e.key) + "\"" + (e.beforeColon + colon);
    ReadSigns(e.key, e.beforeColon + colon);
    SkipBlank(e.beforeColon, colon);
    assert colon[1..] == e.afterColon + value;
    RenderStart(e.tree);
    SkipBlank(e.afterColon, value);
    SkipBlank(e.after, rest);
  }

  lemma {:induction false} ReadEntries(t: Tree, i: nat, tail: string)
    requires Fits(t) && t.Dict? && i < |t.entries|
    ensures ParseMembers(RenderEntries(t, i) + tail, Fold(Pairs(t, i))) == Some((Value(t), tail))
    decreases t, 0, |t.entries| - i
  {
    hide ParseValue, ParseMembers, SkipSpace, Render, Blank, Fold, Pairs, Written, Chars, Value, Spells;
    var e, last := t.entries[i], i + 1 == |t.entries|;
    assert SignsFit(e.key) && Blank(e.beforeColon) && Blank(e.afterColon) && Fits(e.tree) && Blank(e.after) && Blank(e.next);
    var rest := (if last then "}" else "," + e.next + RenderEntries(t, i + 1)) + tail;
    var s := RenderEntries(t, i) + tail;
    NoContinuation(e.after, rest);
    ReadTree(e.tree, e.after + rest);
    ReadEntry(e, s, rest, Fold(Pairs(t, i)));
    FoldNext(t, i);
    ValueOfPairs(t);
    if last {
      assert rest[1..] == tail;
    } else {
      EntriesStart(t, i + 1);
      assert rest[1..] == e.next + (RenderEntries(t, i + 1) + tail);
      SkipBlank(e.next, RenderEntries(t, i + 1) + tail);
      ReadEntries(t, i + 1, tail);
    }
  }

  // ---- Everything that is read was written ----

  lemma {:induction false} TreeWritten(s: string) returns (t: Tree)
    requires ParseValue(s).Some?
    ensures Fits(t) && Value(t) == ParseValue(s).value.0 && s == Render(t) + ParseValue(s).value.1
    decreases |s|, 1
  {
    hide ParseText, ParseInt, ParseItems, ParseMembers, SkipSpace, Render, Value;
    if s[0] == '[' {
      t := ListWritten(s);
    } else if s[0] == '{' {
      t := DictWritten(s);
    } else {
      t := LeafWritten(s);
    }
  }

  lemma LeafWritten(s: string) returns (t: Tree)
    requires ParseValue(s).Some? && s[0] != '[' && s[0] != '{'
    ensures Fits(t) && Value(t) == ParseValue(s).value.0 && s == Render(t) + ParseValue(s).value.1
  {
    hide ParseText, ParseInt, ParseItems, ParseMembers, SkipSpace, Written, Chars, Spells, IsNumeral;
    var v := ParseValue(s).value.0;
    if s[0] == '\"' {
      var signs := SignsWritten(s[1..]);
      t := Quoted(signs);
      assert s == "\"" + s[1..];
    } else if "null" <= s {
      t := Word("null", v);
    } else if "true" <= s {
      t := Word("true", v);
    } else if "false" <= s {
      t := Word("false", v);
    } else {
      var text := NumeralWritten(s);
      t := Numeral(text, v.n);
    }
  }

  lemma {:induction false} ListWritten(s: string) returns (t: Tree)
    requires ParseValue(s).Some? && s[0] == '['
    ensures Fits(t) && Value(t) == ParseValue(s).value.0 && s == Render(t) + ParseValue(s).value.1
    decreases |s|, 0
  {
    hide ParseText, ParseInt, ParseItems, ParseMembers, SkipSpace, RenderSlots, Blank;
    var blank := BlankWritten(s[1..]);
    var body := SkipSpace(s[1..]);
    t := List(blank, []);
    if body != [] && body[0] == ']' {
      assert body == "]" + body[1..];
    } else {
      assert Value(t).items == [];
      t := SlotsWritten(body, blank, []);
    }
    assert s == "[" + s[1..];
  }

  lemma {:induction false} DictWritten(s: string) returns (t: Tree)
    requires ParseValue(s).Some? && s[0] == '{'
    ensures Fits(t) && Value(t) == ParseValue(s).value.0 && s == Render(t) + ParseValue(s).value.1
    decreases |s|, 0
  {
    hide ParseText, ParseInt, ParseItems, ParseMembers, SkipSpace, RenderEntries, Blank, Value;
    var blank := BlankWritten(s[1..]);
    var body := SkipSpace(s[1..]);
    t := Dict(blank, []);
    NothingFolds(t);
    if body != [] && body[0] == '}' {
      assert body == "}" + body[1..];
    } else {
      t := EntriesWritten(body, blank, []);
    }
    assert s == "{" + s[1..];
  }

  lemma {:induction false} SlotsWritten(s: string, blank: string, seen: seq<Slot>) returns (t: Tree)
    requires Blank(blank) && Fits(List(blank, seen)) && ParseItems(s, Value(List(blank, seen)).items).Some?
    ensures var (v, rest) := ParseItems(s, Value(List(blank, seen)).items).value;
            && t.List? && t.blank == blank && |seen| < |t.slots| && t.slots[..|seen|] == seen
            && Fits(t) && Value(t) == v && s == RenderSlots(t, |seen|) + rest
    decreases |s|, 2
  {
    hide ParseValue, SkipSpace, Render, Blank;
    var tree := TreeWritten(s);
    var after := ParseValue(s).value.1;
    var blankAfter := BlankWritten(after);
    var rest := SkipSpace(after);
    assert rest == [rest[0]] + rest[1..];
    if rest[0] == ']' {
      t := List(blank, seen + [Slot(tree, blankAfter, "")]);
      NoBlank();
      SlotsGrow(blank, seen, Slot(tree, blankAfter, ""));
    } else {
      var next := BlankWritten(rest[1..]);
      SlotsGrow(blank, seen, Slot(tree, blankAfter, next));
      t := SlotsWritten(SkipSpace(rest[1..]), blank, seen + [Slot(tree, blankAfter, next)]);
      assert t.slots[|seen|] == t.slots[..|seen| + 1][|seen|];
      assert t.slots[..|seen|] == t.slots[..|seen| + 1][..|seen|];
    }
  }

  lemma NoBlank()
    ensures Blank("")
  {
  }

  lemma SlotsGrow(blank: string, seen: seq<Slot>, slot: Slot)
    requires Fits(List(blank, seen)) && Fits(slot.tree) && Blank(slot.after) && Blank(slot.next)
    ensures Fits(List(blank, seen + [slot]))
    ensures Value(List(blank, seen + [slot])).items == Value(List(blank, seen)).items + [Value(slot.tree)]
  {
    hide Blank;
  }

  /** The first entry, and what is left from the comma or brace on. */
  lemma {:induction false} EntryWritten(s: string, seen: map<string, Json>) returns (e: Entry, rest: string)
    requires ParseMembers(s, seen).Some?
    ensures SignsFit(e.key) && Blank(e.beforeColon) && Blank(e.afterColon) && Fits(e.tree) && Blank(e.after)
    ensures e.next == "" && rest != [] && |rest| < |s| && (rest[0] == '}' || rest[0] == ',')
    ensures s == "\"" + Written(e.key) + "\"" + e.beforeColon + ":" + e.afterColon + Render(e.tree) + e.after + rest
    ensures ParseMembers(s, seen) == var now := seen[Chars(e.key) := Value(e.tree)];
                                     if rest[0] == '}' then Some((JObj(now), rest[1..])) else ParseMembers(SkipSpace(rest[1..]), now)
    decreases |s|, 2
  {
    hide ParseValue, ParseText, SkipSpace, Render, Blank, Value, Written, SignsFit, Chars, Fits;
    var key := SignsWritten(s[1..]);
    var afterKey := ParseText(s[1..]).value.1;
    var beforeColon := BlankWritten(afterKey);
    var colon := SkipSpace(afterKey);
    var afterColon := BlankWritten(colon[1..]);
    var value := SkipSpace(colon[1..]);
    var tree := TreeWritten(value);
    var after := ParseValue(value).value.1;
    var blankAfter := BlankWritten(after);
    rest := SkipSpace(after);
    e := Entry(key, beforeColon, afterColon, tree, blankAfter, "");
    assert s == "\"" + s[1..] && colon == ":" + colon[1..];
  }

  lemma {:induction false} EntriesWritten(s: string, blank: string, seen: seq<Entry>) returns (t: Tree)
    requires Blank(blank) && Fits(Dict(blank, seen)) && Value(Dict(blank, seen)).JObj?
    requires ParseMembers(s, Value(Dict(blank, seen)).members).Some?
    ensures var (v, rest) := ParseMembers(s, Value(Dict(blank, seen)).members).value;
            && t.Dict? && t.blank == blank && |seen| < |t.entries| && t.entries[..|seen|] == seen
            && Fits(t) && Value(t) == v && s == RenderEntries(t, |seen|) + rest
    decreases |s|, 3
  {
    hide ParseMembers, SkipSpace, Render, Blank, Value, Written, SignsFit, Fits, Chars;
    var e, rest := EntryWritten(s, Value(Dict(blank, seen)).members);
    assert rest == [rest[0]] + rest[1..];
    if rest[0] == '}' {
      NoBlank();
      EntriesGrow(blank, seen, e);
      t := Dict(blank, seen + [e]);
    } else {
      var next := BlankWritten(rest[1..]);
      EntriesGrow(blank, seen, e.(next := next));
      t := EntriesWritten(SkipSpace(rest[1..]), blank, seen + [e.(next := next)]);
      assert t.entries[|seen|] == t.entries[..|seen| + 1][|seen|];
      assert t.entries[..|seen|] == t.entries[..|seen| + 1][..|seen|];
    }
  }

  lemma EntriesGrow(blank: string, seen: seq<Entry>, e: Entry)
    requires Fits(Dict(blank, seen)) && SignsFit(e.key) && Blank(e.beforeColon) && Blank(e.afterColon)
    requires Fits(e.tree) && Blank(e.after) && Blank(e.next)
    ensures var t := Dict(blank, seen + [e]);
            Fits(t) && Value(t).JObj? && Value(Dict(blank, seen)).JObj? && Value(t).members == Value(Dict(blank, seen)).members[Chars(e.key) := Value(e.tree)]
  {
    hide Blank, SignsFit, Value, Chars, Fold;
    var t := Dict(blank, seen + [e]);
    FoldNext(t, |seen|);
    ValueOfPairs(t);
    ValueOfPairs(Dict(blank, seen));
    assert Pairs(t, |seen|) == Pairs(Dict(blank, seen), |seen|);
  }

  /** A text loads to a value exactly if it is that value written out, between blanks. */
  lemma LoadsExactly(s: string, v: Json)
    ensures Loads(s) == Some(v) <==>
            exists before, t, after :: Blank(before) && Blank(after) && Fits(t) && Value(t) == v && s == before + Render(t) + after
  {
    hide ParseValue, SkipSpace, Render, Blank, Value, Fits;
    if Loads(s) == Some(v) {
      var before := BlankWritten(s);
      var t := TreeWritten(SkipSpace(s));
      var after := BlankWritten(ParseValue(SkipSpace(s)).value.1);
      assert s == before + Render(t) + after;
    }
    if before, t, after :| Blank(before) && Blank(after) && Fits(t) && Value(t) == v && s == before + Render(t) + after {
      LoadsWritten(before, t, after);
    }
  }

  lemma LoadsWritten(before: string, t: Tree, after: string)
    requires Blank(before) && Blank(after) && Fits(t)
    ensures Loads(before + Render(t) + after) == Some(Value(t))
  {
    hide ParseValue, SkipSpace, Render, Value, Fits;
    assert before + Render(t) + after == before + (Render(t) + after);
    RenderStart(t);
    SkipBlank(before, Render(t) + after);
    assert after != [] ==> after[0] in after;
    ReadTree(t, after);
    SkipBlank(after, []);
    assert after + [] == after;
  }
}
