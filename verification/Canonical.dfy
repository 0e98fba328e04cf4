/**
 The text of a value without its printer: the shortest JSON there is for it, in the characters
 allowed. So there are no spaces, no needless escapes and no long ones.
 */
module Canonical {
  import opened Wrappers
  import opened Text
  import opened Json
  import opened Utf8
  import opened Signing
  import Grammar

  /** All characters from blank to tilde. */
  predicate Printable(s: string) {
    forall i | 0 <= i < |s| :: ' ' <= s[i] <= '~'
  }

  predicate Allowed(ascii: bool, s: string) {
    ascii ==> Printable(s)
  }

  // ---- Characters, texts and numerals ----

  lemma UnicodeLength(ascii: bool, s: string)
    requires ParseUnicode(s).Some? && Allowed(ascii, s)
    ensures var (c, rest) := ParseUnicode(s).value;
            Allowed(ascii, rest) && |rest| + (if c as int < 0x10000 then 4 else 10) <= |s|
  {
    hide ParseHex4;
  }

  lemma EscapeLength(ascii: bool, c: char)
    ensures |Escape(ascii, c)| <= if c as int < 0x10000 then 6 else 12
    ensures ' ' <= c <= '~' && c != '\"' && c != '\\' ==> Escape(ascii, c) == [c]
    ensures !ascii && c as int >= 0x20 && c != '\"' && c != '\\' ==> Escape(ascii, c) == [c]
    ensures c in "\"\\\n\r\t" || c as int == 8 || c as int == 12 ==> |Escape(ascii, c)| == 2
  {
    hide Hex4;
  }

  lemma CharLength(ascii: bool, s: string)
    requires ParseChar(s).Some? && Allowed(ascii, s)
    ensures var (c, rest) := ParseChar(s).value; Allowed(ascii, rest) && |Escape(ascii, c)| + |rest| <= |s|
  {
    hide Escape, ParseUnicode;
    var (c, rest) := ParseChar(s).value;
    EscapeLength(ascii, c);
    if s[0] == '\\' && s[1] == 'u' {
      UnicodeLength(ascii, s[2..]);
    }
  }

  lemma {:induction false} TextLength(ascii: bool, s: string)
    requires ParseText(s).Some? && Allowed(ascii, s)
    ensures var (t, rest) := ParseText(s).value; Allowed(ascii, rest) && |EscapeAll(ascii, t)| + 1 + |rest| <= |s|
    decreases |s|
  {
    hide ParseChar, Escape;
    if s == [] || s[0] != '\"' {
      CharLength(ascii, s);
      var (c, rest) := ParseChar(s).value;
      TextLength(ascii, rest);
    }
  }

  lemma {:induction false} SkipLength(ascii: bool, s: string)
    requires Allowed(ascii, s)
    ensures Allowed(ascii, SkipSpace(s)) && |SkipSpace(s)| <= |s|
  {
    if s != [] && IsSpace(s[0]) {
      SkipLength(ascii, s[1..]);
    }
  }

  lemma {:induction false} NumeralLength(d: string)
    requires d != [] && forall c | c in d :: IsDigit(c)
    ensures |NatText(NatValue(d))| <= |d|
  {
    var n := |d| - 1;
    assert d[n] in d;
    if n == 0 {
      assert d[..0] == [];
    } else {
      assert forall c | c in d[..n] :: c in d;
      NumeralLength(d[..n]);
      assert NatValue(d) / 10 == NatValue(d[..n]);
    }
  }

  lemma IntLength(ascii: bool, s: string)
    requires ParseInt(s).Some? && Allowed(ascii, s)
    ensures var (n, rest) := ParseInt(s).value; Allowed(ascii, rest) && |IntText(n)| + |rest| <= |s|
  {
    hide NatText, NatValue;
    var negative := s != [] && s[0] == '-';
    var digits := if negative then s[1..] else s;
    var k := DigitSpan(digits);
    var width := if k > 0 && digits[0] == '0' then 1 else k;
    assert forall c | c in digits[..width] :: c in digits[..k];
    NumeralLength(digits[..width]);
    ZeroNumeral();
  }

  lemma ZeroNumeral()
    ensures |NatText(0)| == 1
  {
  }

  // ---- Dictionaries ----

  /** The width of an entry with its colon and the comma or brace after it. */
  ghost function Width(ascii: bool, m: map<string, Json>, k: string): nat
    requires k in m
  {
    |Quote(ascii, k)| + 1 + |Print(ascii, m[k])| + 1
  }

  ghost function Widths(ascii: bool, m: map<string, Json>, keys: seq<string>): nat
    requires forall k | k in keys :: k in m
  {
    if keys == [] then 0 else Width(ascii, m, keys[0]) + Widths(ascii, m, keys[1..])
  }

  ghost function Total(ascii: bool, m: map<string, Json>, keys: set<string>): nat
    requires keys <= m.Keys
  {
    Widths(ascii, m, SortedKeys(keys))
  }

  lemma {:induction false} MembersWidth(ascii: bool, v: Json, keys: seq<string>)
    requires v.JObj? && keys != [] && forall k | k in keys :: k in v.members
    ensures |PrintMembers(ascii, v, keys)| + 1 == Widths(ascii, v.members, keys)
  {
    hide Print, Quote;
    if |keys| > 1 {
      MembersWidth(ascii, v, keys[1..]);
    }
  }

  lemma ObjectWidth(ascii: bool, m: map<string, Json>)
    ensures |Print(ascii, JObj(m))| == if m == map[] then 2 else Total(ascii, m, m.Keys) + 1
  {
    hide PrintMembers, SortedKeys;
    var keys := SortedKeys(m.Keys);
    if m == map[] {
      assert keys == [] by { NoKeys(); assert m.Keys == {}; }
      EmptyMembers(ascii, JObj(m));
    } else {
      var k :| k in m;
      assert k in keys;
      MembersWidth(ascii, JObj(m), keys);
    }
  }

  lemma NoKeys()
    ensures SortedKeys({}) == []
  {
  }

  lemma EmptyMembers(ascii: bool, v: Json)
    requires v.JObj?
    ensures PrintMembers(ascii, v, []) == ""
  {
  }

  lemma FirstKey(keys: set<string>) returns (f: string)
    requires keys != {}
    ensures IsFirst(f, keys) && SortedKeys(keys) == [f] + SortedKeys(keys - {f})
  {
    FirstExists(keys);
    FirstUnique(keys);
    f :| IsFirst(f, keys);
  }

  /** The total does not depend on the order of the keys. */
  lemma {:induction false} TotalSplits(ascii: bool, m: map<string, Json>, keys: set<string>, x: string)
    requires keys <= m.Keys && x in keys
    ensures Total(ascii, m, keys) == Width(ascii, m, x) + Total(ascii, m, keys - {x})
    decreases keys
  {
    hide Width, SortedKeys, IsFirst;
    var f := FirstKey(keys);
    StepWidths(ascii, m, f, SortedKeys(keys - {f}));
    if x != f {
      assert f in keys by { FirstIn(f, keys); }
      TotalSplits(ascii, m, keys - {f}, x);
      FirstStays(keys, x, f);
      assert keys - {x} - {f} == keys - {f} - {x};
      StepWidths(ascii, m, f, SortedKeys(keys - {f} - {x}));
    }
  }

  lemma FirstIn(f: string, keys: set<string>)
    requires IsFirst(f, keys)
    ensures f in keys
  {
  }

  lemma FirstStays(keys: set<string>, x: string, f: string)
    requires IsFirst(f, keys) && x in keys && x != f
    ensures SortedKeys(keys - {x}) == [f] + SortedKeys(keys - {x} - {f})
  {
    hide SortedKeys, AtMost;
    var g := FirstKey(keys - {x});
    assert IsFirst(f, keys - {x});
    FirstUnique(keys - {x});
  }

  lemma StepWidths(ascii: bool, m: map<string, Json>, f: string, rest: seq<string>)
    requires f in m && forall k | k in rest :: k in m
    ensures Widths(ascii, m, [f] + rest) == Width(ascii, m, f) + Widths(ascii, m, rest)
  {
    hide Width;
    assert ([f] + rest)[1..] == rest;
  }

  lemma {:induction false} WidthsSame(ascii: bool, m: map<string, Json>, n: map<string, Json>, keys: seq<string>)
    requires forall k | k in keys :: k in m && k in n && m[k] == n[k]
    ensures Widths(ascii, m, keys) == Widths(ascii, n, keys)
  {
    hide Print, Quote;
    if keys != [] {
      WidthsSame(ascii, m, n, keys[1..]);
    }
  }

  /** Adding an entry, new or in place of an old one, adds at most its width. */
  lemma TotalAdds(ascii: bool, m: map<string, Json>, k: string, x: Json)
    ensures var n := m[k := x]; Total(ascii, n, n.Keys) <= Total(ascii, m, m.Keys) + Width(ascii, n, k)
  {
    hide Width, SortedKeys, Widths;
    var n := m[k := x];
    TotalSplits(ascii, n, n.Keys, k);
    assert n.Keys - {k} == m.Keys - {k};
    WidthsSame(ascii, m, n, SortedKeys(m.Keys - {k}));
    if k in m {
      TotalSplits(ascii, m, m.Keys, k);
    } else {
      assert m.Keys - {k} == m.Keys;
    }
  }

  // ---- Values ----

  lemma {:induction false} ValueLength(ascii: bool, s: string)
    requires ParseValue(s).Some? && Allowed(ascii, s)
    ensures var (v, rest) := ParseValue(s).value; Allowed(ascii, rest) && |Print(ascii, v)| + |rest| <= |s|
    decreases |s|, 1
  {
    hide Print, ParseText, ParseInt, ParseItems, ParseMembers, SkipSpace, IntText, EscapeAll;
    if s[0] == '\"' {
      TextLength(ascii, s[1..]);
      PrintLeaf(ascii, ParseValue(s).value.0);
    } else if s[0] == '[' || s[0] == '{' {
      ContainerLength(ascii, s);
    } else {
      PrintLeaf(ascii, ParseValue(s).value.0);
      if !("null" <= s) && !("true" <= s) && !("false" <= s) {
        IntLength(ascii, s);
      }
    }
  }

  lemma PrintLeaf(ascii: bool, v: Json)
    ensures v.JNull? ==> |Print(ascii, v)| == 4
    ensures v.JBool? ==> |Print(ascii, v)| == if v.b then 4 else 5
    ensures v.JInt? ==> Print(ascii, v) == IntText(v.n)
    ensures v.JStr? ==> |Print(ascii, v)| == |EscapeAll(ascii, v.s)| + 2
  {
  }

  lemma {:induction false} ContainerLength(ascii: bool, s: string)
    requires s != [] && (s[0] == '[' || s[0] == '{') && ParseValue(s).Some? && Allowed(ascii, s)
    ensures var (v, rest) := ParseValue(s).value; Allowed(ascii, rest) && |Print(ascii, v)| + |rest| <= |s|
    decreases |s|, 0
  {
    hide Print, PrintItems, ParseItems, ParseMembers, SkipSpace, Total;
    SkipLength(ascii, s[1..]);
    var body := SkipSpace(s[1..]);
    var v := ParseValue(s).value.0;
    if s[0] == '[' {
      if body != [] && body[0] == ']' {
        PrintArray(ascii, v);
      } else {
        ItemsLength(ascii, body, []);
        PrintArray(ascii, v);
      }
    } else if body != [] && body[0] == '}' {
      ObjectWidth(ascii, map[]);
    } else {
      MembersLength(ascii, body, map[]);
      ObjectWidth(ascii, v.members);
      NoTotal(ascii);
    }
  }

  lemma NoTotal(ascii: bool)
    ensures var none: map<string, Json> := map[]; Total(ascii, none, none.Keys) == 0
  {
    NoKeys();
    var none: map<string, Json> := map[];
    assert none.Keys == {};
  }

  lemma PrintArray(ascii: bool, v: Json)
    requires v.JArr?
    ensures |Print(ascii, v)| == |PrintItems(ascii, v, 0)| + 2
    ensures v.items == [] ==> PrintItems(ascii, v, 0) == ""
  {
  }

  lemma ItemUnfold(ascii: bool, v: Json, i: nat)
    requires v.JArr? && i < |v.items|
    ensures |PrintItems(ascii, v, i)| == |Print(ascii, v.items[i])| + if i + 1 == |v.items| then 0 else 1 + |PrintItems(ascii, v, i + 1)|
  {
    hide Print;
  }

  lemma {:induction false} ItemsLength(ascii: bool, s: string, seen: seq<Json>)
    requires ParseItems(s, seen).Some? && Allowed(ascii, s)
    ensures var (v, rest) := ParseItems(s, seen).value;
            && Allowed(ascii, rest) && v.JArr? && |seen| < |v.items| && v.items[..|seen|] == seen
            && |PrintItems(ascii, v, |seen|)| + 1 + |rest| <= |s|
    decreases |s|, 2
  {
    hide Print, PrintItems, ParseValue, SkipSpace;
    ValueLength(ascii, s);
    var (x, after) := ParseValue(s).value;
    SkipLength(ascii, after);
    var rest := SkipSpace(after);
    var v := ParseItems(s, seen).value.0;
    if rest[0] == ']' {
      ItemUnfold(ascii, v, |seen|);
    } else {
      SkipLength(ascii, rest[1..]);
      ItemsLength(ascii, SkipSpace(rest[1..]), seen + [x]);
      assert v.items[|seen|] == v.items[..|seen| + 1][|seen|] == x;
      assert v.items[..|seen|] == v.items[..|seen| + 1][..|seen|];
      ItemUnfold(ascii, v, |seen|);
    }
  }

  lemma {:induction false} MembersLength(ascii: bool, s: string, seen: map<string, Json>)
    requires ParseMembers(s, seen).Some? && Allowed(ascii, s)
    ensures var (v, rest) := ParseMembers(s, seen).value;
            && Allowed(ascii, rest) && v.JObj? && v.members != map[]
            && Total(ascii, v.members, v.members.Keys) + |rest| <= |s| + Total(ascii, seen, seen.Keys)
    decreases |s|, 2
  {
    hide Print, ParseValue, ParseText, SkipSpace, EscapeAll, Total;
    TextLength(ascii, s[1..]);
    var (k, afterKey) := ParseText(s[1..]).value;
    SkipLength(ascii, afterKey);
    var colon := SkipSpace(afterKey);
    SkipLength(ascii, colon[1..]);
    ValueLength(ascii, SkipSpace(colon[1..]));
    var (x, after) := ParseValue(SkipSpace(colon[1..])).value;
    SkipLength(ascii, after);
    var rest := SkipSpace(after);
    TotalAdds(ascii, seen, k, x);
    assert k in seen[k := x];
    if rest[0] == ',' {
      SkipLength(ascii, rest[1..]);
      MembersLength(ascii, SkipSpace(rest[1..]), seen[k := x]);
    }
  }

  /** No text that loads to the value is shorter; nor, for the ASCII form, is any in printable ASCII. */
  lemma ShortestText(ascii: bool, v: Json, s: string)
    requires Loads(s) == Some(v) && Allowed(ascii, s)
    ensures |Print(ascii, v)| <= |s|
  {
    hide Print, ParseValue, SkipSpace;
    SkipLength(ascii, s);
    ValueLength(ascii, SkipSpace(s));
  }

  /** The signed text loads back to its value, and no way of writing that value is shorter. */
  lemma CanonicalIsShortest(v: Json)
    ensures var text := Utf8.Decode(CanonicalJson(v));
            && text.Some? && Loads(text.value) == Some(v)
            && (forall s | Loads(s) == Some(v) :: |text.value| <= |s|)
            && forall t | Grammar.Fits(t) && Grammar.Value(t) == v :: |text.value| <= |Grammar.Render(t)|
  {
    hide Print, Loads, Encode, Utf8.Decode, Grammar.Fits, Grammar.Value, Grammar.Render;
    Utf8.DecodeEncode(Print(false, v));
    LoadsPrint(false, v);
    forall s | Loads(s) == Some(v)
      ensures |Print(false, v)| <= |s|
    {
      ShortestText(false, v, s);
    }
    forall t | Grammar.Fits(t) && Grammar.Value(t) == v
      ensures |Print(false, v)| <= |Grammar.Render(t)|
    {
      Grammar.LoadsWritten("", t, "");
      assert "" + Grammar.Render(t) + "" == Grammar.Render(t);
    }
  }

  // ---- What single characters become ----

  predicate IsLowerHex(c: char) {
    '0' <= c <= '9' || 'a' <= c <= 'f'
  }

  /** A four-digit escape in lower case, once or as a surrogate pair. */
  predicate IsLongEscape(e: string) {
    && (|e| == 6 || |e| == 12)
    && e[0] == '\\' && e[1] == 'u' && (forall i | 2 <= i < 6 :: IsLowerHex(e[i]))
    && (|e| == 12 ==> e[6] == '\\' && e[7] == 'u' && forall i | 8 <= i < 12 :: IsLowerHex(e[i]))
  }

  /**
   A character stands for itself unless it is a quote, a backslash, a control or, in the ASCII
   form, beyond the tilde; seven have an escape of two characters; the rest have a long one.
   */
  lemma CharText(ascii: bool, c: char)
    ensures var e := Escape(ascii, c);
            var plain := c as int >= 0x20 && c != '\"' && c != '\\' && (ascii ==> c <= '~');
            var short := c in "\"\\\n\r\t" || c as int == 8 || c as int == 12;
            && (plain ==> e == [c])
            && (short ==> |e| == 2 && e[0] == '\\')
            && (!plain && !short ==> IsLongEscape(e))
            && forall tail :: ParseChar(e + tail) == Some((c, tail))
  {
    hide ParseChar, Hex4;
    Hex4Lower();
    forall tail
      ensures ParseChar(Escape(ascii, c) + tail) == Some((c, tail))
    {
      ParseCharEscape(ascii, c, tail);
    }
  }

  lemma Hex4Lower()
    ensures forall n: nat, i | n < 0x10000 && 0 <= i < 4 :: IsLowerHex(Hex4(n)[i])
  {
  }

  lemma {:induction false} EscapeAllAscii(t: string)
    ensures Printable(EscapeAll(true, t))
  {
    hide Escape;
    if t != [] {
      EscapeAscii(t[0]);
      EscapeAllAscii(t[1..]);
    }
  }

  lemma EscapeAscii(c: char)
    ensures Printable(Escape(true, c))
  {
    hide Escape;
    CharText(true, c);
    ShortEscapes(c);
  }

  lemma ShortEscapes(c: char)
    ensures |Escape(true, c)| == 2 ==> Printable(Escape(true, c))
  {
    hide Hex4;
  }

  // ---- What lists and dictionaries become ----

  ghost function ItemTexts(ascii: bool, items: seq<Json>): seq<string> {
    seq(|items|, i requires 0 <= i < |items| => Print(ascii, items[i]))
  }

  ghost function MemberTexts(ascii: bool, m: map<string, Json>, keys: seq<string>): seq<string>
    requires forall k | k in keys :: k in m
  {
    seq(|keys|, i requires 0 <= i < |keys| => Quote(ascii, keys[i]) + ":" + Print(ascii, m[keys[i]]))
  }

  lemma {:induction false} ItemsJoin(ascii: bool, v: Json, i: nat)
    requires v.JArr? && i <= |v.items|
    ensures PrintItems(ascii, v, i) == Join(ItemTexts(ascii, v.items[i..]), ',')
    decreases |v.items| - i
  {
    hide Print;
    if i < |v.items| {
      ItemsJoin(ascii, v, i + 1);
      assert ItemTexts(ascii, v.items[i..])[1..] == ItemTexts(ascii, v.items[i + 1..]);
      UnfoldItems(ascii, v, i);
    }
  }

  lemma UnfoldItems(ascii: bool, v: Json, i: nat)
    requires v.JArr? && i < |v.items|
    ensures PrintItems(ascii, v, i) == Print(ascii, v.items[i]) + if i + 1 == |v.items| then "" else [','] + PrintItems(ascii, v, i + 1)
  {
    hide Print;
  }

  lemma {:induction false} MembersJoin(ascii: bool, v: Json, keys: seq<string>)
    requires v.JObj? && forall k | k in keys :: k in v.members
    ensures PrintMembers(ascii, v, keys) == Join(MemberTexts(ascii, v.members, keys), ',')
  {
    hide Print, Quote;
    if keys != [] {
      MembersJoin(ascii, v, keys[1..]);
      assert MemberTexts(ascii, v.members, keys)[1..] == MemberTexts(ascii, v.members, keys[1..]);
      UnfoldMembers(ascii, v, keys);
    }
  }

  lemma UnfoldMembers(ascii: bool, v: Json, keys: seq<string>)
    requires v.JObj? && keys != [] && forall k | k in keys :: k in v.members
    ensures PrintMembers(ascii, v, keys)
            == Quote(ascii, keys[0]) + ":" + Print(ascii, v.members[keys[0]])
               + if |keys| == 1 then "" else [','] + PrintMembers(ascii, v, keys[1..])
  {
    hide Print, Quote;
  }

  /**
   A list is its items between commas; a dictionary is its entries between commas, under every
   listing of its keys in ascending order of code points, of which there is one.
   */
  lemma ContainerText(ascii: bool, items: seq<Json>, m: map<string, Json>, keys: seq<string>)
    requires StrictlySorted(keys) && forall k :: k in keys <==> k in m
    ensures Print(ascii, JArr(items)) == "[" + Join(ItemTexts(ascii, items), ',') + "]"
    ensures Print(ascii, JObj(m)) == "{" + Join(MemberTexts(ascii, m, keys), ',') + "}"
  {
    hide PrintItems, PrintMembers, SortedKeys, StrictlySorted;
    SortedKeysAreSorted(m.Keys);
    SortedListingUnique(keys, SortedKeys(m.Keys));
    ItemsJoin(ascii, JArr(items), 0);
    assert items[0..] == items;
    MembersJoin(ascii, JObj(m), keys);
  }

  // ---- The stored form is ASCII ----

  lemma {:induction false} PrintAscii(v: Json)
    ensures Printable(Print(true, v))
    decreases v, 1, 0
  {
    hide PrintItems, PrintMembers, SortedKeys, EscapeAll, NatText;
    match v
    case JStr(s) => EscapeAllAscii(s);
    case JArr(items) => ItemsAscii(v, 0);
    case JObj(members) => MembersAscii(v, SortedKeys(members.Keys));
    case JInt(n) => NumeralAscii(if n < 0 then -n else n);
    case _ =>
  }

  lemma NumeralAscii(n: nat)
    ensures Printable(NatText(n))
  {
    forall i | 0 <= i < |NatText(n)|
      ensures IsDigit(NatText(n)[i])
    {
      assert NatText(n)[i] in NatText(n);
    }
  }

  lemma {:induction false} ItemsAscii(v: Json, i: nat)
    requires v.JArr? && i <= |v.items|
    ensures Printable(PrintItems(true, v, i))
    decreases v, 0, |v.items| - i
  {
    hide Print;
    if i < |v.items| {
      PrintAscii(v.items[i]);
      ItemsAscii(v, i + 1);
      UnfoldItems(true, v, i);
    }
  }

  lemma {:induction false} MembersAscii(v: Json, keys: seq<string>)
    requires v.JObj? && forall k | k in keys :: k in v.members
    ensures Printable(PrintMembers(true, v, keys))
    decreases v, 0, |keys|
  {
    hide Print, EscapeAll;
    if keys != [] {
      EscapeAllAscii(keys[0]);
      PrintAscii(v.members[keys[0]]);
      MembersAscii(v, keys[1..]);
      UnfoldMembers(true, v, keys);
    }
  }

  /** The stored text is printable ASCII, loads back to its value, and no such text is shorter. */
  lemma StorageIsShortestAscii(v: Json)
    ensures Printable(StorageText(v)) && Loads(StorageText(v)) == Some(v)
    ensures forall s | Printable(s) && Loads(s) == Some(v) :: |StorageText(v)| <= |s|
  {
    hide Print, Loads;
    PrintAscii(v);
    LoadsPrint(true, v);
    forall s | Printable(s) && Loads(s) == Some(v)
      ensures |StorageText(v)| <= |s|
    {
      ShortestText(true, v, s);
    }
  }
}
