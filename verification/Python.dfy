/** What Python's equality and conversions, and sqlite3's binding of parameters, make of JSON values. */
module Python {
  import opened Wrappers
  import opened Text
  import opened Json

  // ---- Equality ----

  /** True and false count as one and zero. */
  function NumberOf(v: Json): Option<int> {
    match v
    case JInt(n) => Some(n)
    case JBool(b) => Some(if b then 1 else 0)
    case _ => None
  }

  /** `a == b` for values that are not containers. */
  predicate Equal(a: Json, b: Json) {
    a == b || (NumberOf(a).Some? && NumberOf(a) == NumberOf(b))
  }

  // ---- str(), int(), dict() ----

  /** `str(v)` of a scalar; containers are outside this model. */
  function StrOf(v: Json): Option<string> {
    match v
    case JStr(s) => Some(s)
    case JInt(n) => Some(IntText(n))
    case JBool(b) => Some(if b then "True" else "False")
    case JNull => Some("None")
    case _ => None
  }

  predicate IsBlank(c: char) {
    9 <= c as int <= 13 || 28 <= c as int <= 32
  }

  function StripLeft(s: string): string {
    if s != [] && IsBlank(s[0]) then StripLeft(s[1..]) else s
  }

  function StripRight(s: string): string {
    if s != [] && IsBlank(s[|s| - 1]) then StripRight(s[..|s| - 1]) else s
  }

  /** The digits of a numeral in which single underscores may stand between digits. */
  function Digits(s: string): (d: Option<string>)
    ensures d.Some? ==> forall c | c in d.value :: IsDigit(c)
  {
    if s == [] || !IsDigit(s[0]) then None
    else if |s| == 1 then Some(s)
    else
      var rest :- Digits(if s[1] == '_' then s[2..] else s[1..]);
      Some([s[0]] + rest)
  }

  function IntOfText(s: string): Option<int> {
    var t := StripRight(StripLeft(s));
    var signed := t != [] && (t[0] == '-' || t[0] == '+');
    var digits :- Digits(if signed then t[1..] else t);
    var n: int := NatValue(digits);
    Some(if signed && t[0] == '-' then -n else n)
  }

  /** `int(v)`. */
  function IntOf(v: Json): Option<int> {
    match v
    case JStr(s) => IntOfText(s)
    case _ => NumberOf(v)
  }

  /** One element of a sequence given to `dict`: a list of key and value, or a text of two characters. */
  function PairOf(v: Json): Option<(string, Json)> {
    match v
    case JArr(items) => if |items| == 2 && items[0].JStr? then Some((items[0].s, items[1])) else None
    case JStr(s) => if |s| == 2 then Some((s[..1], JStr(s[1..]))) else None
    case _ => None
  }

  function DictOfPairs(items: seq<Json>): Option<map<string, Json>> {
    if items == [] then Some(map[])
    else
      var before :- DictOfPairs(items[..|items| - 1]);
      var pair :- PairOf(items[|items| - 1]);
      Some(before[pair.0 := pair.1])
  }

  /** `dict(v or {})` for a value looked up with `get`. */
  function DictOf(v: Option<Json>): Option<map<string, Json>> {
    match v
    case None => Some(map[])
    case Some(JObj(members)) => Some(members)
    case Some(JArr(items)) => DictOfPairs(items)
    case Some(x) => if x.Falsy() then Some(map[]) else None
  }

  // ---- Binding to a TEXT column ----

  predicate InInt64(n: int) {
    -0x8000_0000_0000_0000 <= n < 0x8000_0000_0000_0000
  }

  type Int64 = n: int | InInt64(n)

  /** The values sqlite3 takes as a parameter. */
  predicate Bindable(v: Json) {
    match v
    case JInt(n) => InInt64(n)
    case JArr(_) => false
    case JObj(_) => false
    case _ => true
  }

  /** What a TEXT column holds for a value, None being NULL: numbers become numerals. */
  function ColumnOf(v: Json): Option<string> {
    match v
    case JStr(s) => Some(s)
    case JInt(n) => Some(IntText(n))
    case JBool(b) => Some(IntText(if b then 1 else 0))
    case _ => None
  }

  lemma NumberColumn(v: Json)
    requires NumberOf(v).Some?
    ensures ColumnOf(v) == Some(IntText(NumberOf(v).value))
  {
  }

  /** Numerals start with a digit or a minus sign. */
  lemma NumeralStart(n: int)
    ensures IntText(n) != "" && (IsDigit(IntText(n)[0]) || IntText(n)[0] == '-')
  {
    var s := NatText(if n < 0 then -n else n);
    assert s[0] in s;
  }

  lemma StripsNothing(s: string)
    requires s != [] && !IsBlank(s[0]) && !IsBlank(s[|s| - 1])
    ensures StripRight(StripLeft(s)) == s
  {
  }

  /** `int` undoes `str`. */
  lemma IntOfNumeral(n: int)
    ensures IntOf(JStr(IntText(n))) == Some(n)
  {
    hide Digits, NatText, NatValue, StripLeft, StripRight;
    var m: nat := if n < 0 then -n else n;
    var d := NatText(m);
    assert d[0] in d && d[|d| - 1] in d;
    DigitsOf(d);
    NatRoundTrip(m);
    StripsNothing(IntText(n));
    assert n < 0 ==> IntText(n)[1..] == d;
  }

  lemma {:induction false} DigitsOf(d: string)
    requires d != [] && forall c | c in d :: IsDigit(c)
    ensures Digits(d) == Some(d)
  {
    assert d[0] in d;
    if |d| > 1 {
      assert d[1] in d;
      DigitsOf(d[1..]);
      assert d == [d[0]] + d[1..];
    }
  }
}
