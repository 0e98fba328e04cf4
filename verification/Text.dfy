/** Text helpers: the code-point order of strings, splitting, and decimal numerals. */
module Text {
  // ---- Order by code points: Python's string order and SQLite's BINARY collation ----

  predicate Less(a: string, b: string) {
    b != [] && (a == [] || a[0] < b[0] || (a[0] == b[0] && Less(a[1..], b[1..])))
  }

  predicate AtMost(a: string, b: string) {
    a == b || Less(a, b)
  }

  /** A text is less than another if it is a proper beginning of it or smaller where they first differ. */
  lemma {:induction false} LessMeans(a: string, b: string)
    ensures Less(a, b) <==> a < b || exists i :: 0 <= i < |a| && i < |b| && a[..i] == b[..i] && a[i] < b[i]
  {
    if a != [] && b != [] && a[0] == b[0] {
      LessMeans(a[1..], b[1..]);
      assert a == [a[0]] + a[1..] && b == [b[0]] + b[1..];
      if i :| 0 <= i < |a[1..]| && i < |b[1..]| && a[1..][..i] == b[1..][..i] && a[1..][i] < b[1..][i] {
        assert a[..i + 1] == [a[0]] + a[1..][..i] && b[..i + 1] == [b[0]] + b[1..][..i];
        assert a[i + 1] < b[i + 1];
      }
      if i :| 0 <= i < |a| && i < |b| && a[..i] == b[..i] && a[i] < b[i] {
        assert i > 0;
        assert a[1..][..i - 1] == a[..i][1..] && b[1..][..i - 1] == b[..i][1..];
        assert a[1..][i - 1] < b[1..][i - 1];
      }
    } else if a != [] && b != [] {
      assert a[..0] == b[..0];
      assert forall i | 0 < i < |a| && i < |b| && a[..i] == b[..i] :: a[..i][0] == b[..i][0];
    }
  }

  lemma {:induction false} LessTransitive(a: string, b: string, c: string)
    requires Less(a, b) && Less(b, c)
    ensures Less(a, c)
  {
    if a != [] && a[0] == b[0] && b[0] == c[0] {
      LessTransitive(a[1..], b[1..], c[1..]);
    }
  }

  lemma {:induction false} LessIrreflexive(a: string)
    ensures !Less(a, a)
  {
    if a != [] {
      LessIrreflexive(a[1..]);
    }
  }

  lemma {:induction false} LessTotal(a: string, b: string)
    ensures Less(a, b) || a == b || Less(b, a)
  {
    if a != [] && b != [] && a[0] == b[0] {
      LessTotal(a[1..], b[1..]);
      assert a == [a[0]] + a[1..] && b == [b[0]] + b[1..];
    }
  }

  lemma LessAsymmetric(a: string, b: string)
    requires Less(a, b)
    ensures !Less(b, a)
  {
    if Less(b, a) {
      LessTransitive(a, b, a);
      LessIrreflexive(a);
    }
  }

  // ---- The keys of a dictionary in sorted order ----

  predicate IsFirst(k: string, keys: set<string>) {
    k in keys && forall other | other in keys :: AtMost(k, other)
  }

  lemma {:induction false} FirstExists(keys: set<string>)
    requires keys != {}
    ensures exists k :: IsFirst(k, keys)
    decreases keys
  {
    var x :| x in keys;
    if keys == {x} {
      assert IsFirst(x, keys);
    } else {
      var rest := keys - {x};
      FirstExists(rest);
      var y :| IsFirst(y, rest);
      LessTotal(x, y);
      if Less(x, y) {
        forall other | other in keys
          ensures AtMost(x, other)
        {
          if other != x && other != y {
            assert other in rest;
            LessTransitive(x, y, other);
          }
        }
        assert IsFirst(x, keys);
      } else {
        assert IsFirst(y, keys);
      }
    }
  }

  lemma FirstUnique(keys: set<string>)
    ensures forall k, l | IsFirst(k, keys) && IsFirst(l, keys) :: k == l
  {
    forall k, l | IsFirst(k, keys) && IsFirst(l, keys)
      ensures k == l
    {
      if k != l {
        LessAsymmetric(k, l);
      }
    }
  }

  function SortedKeys(keys: set<string>): (sorted: seq<string>)
    ensures forall k :: k in sorted <==> k in keys
    decreases keys
  {
    if keys == {} then [] else
      FirstExists(keys);
      FirstUnique(keys);
      var k :| k in keys && IsFirst(k, keys);
      [k] + SortedKeys(keys - {k})
  }

  ghost predicate StrictlySorted(keys: seq<string>) {
    forall i, j | 0 <= i < j < |keys| :: Less(keys[i], keys[j])
  }

  lemma {:induction false} SortedKeysAreSorted(keys: set<string>)
    ensures StrictlySorted(SortedKeys(keys))
    decreases keys
  {
    hide Less;
    if keys != {} {
      FirstExists(keys);
      var k :| IsFirst(k, keys) && SortedKeys(keys) == [k] + SortedKeys(keys - {k});
      var rest := SortedKeys(keys - {k});
      SortedKeysAreSorted(keys - {k});
      forall x | x in rest
        ensures Less(k, x)
      {
      }
      PrependFirst(k, rest);
    }
  }

  lemma PrependFirst(k: string, rest: seq<string>)
    requires StrictlySorted(rest) && forall x | x in rest :: Less(k, x)
    ensures StrictlySorted([k] + rest)
  {
    hide Less;
    var all := [k] + rest;
    forall i, j | 0 <= i < j < |all|
      ensures Less(all[i], all[j])
    {
      assert all[j] == rest[j - 1] && all[j] in rest;
      if i > 0 {
        assert all[i] == rest[i - 1];
      }
    }
  }

  /** A strictly sorted listing is determined by the set it lists. */
  lemma {:induction false} SortedListingUnique(a: seq<string>, b: seq<string>)
    requires StrictlySorted(a) && StrictlySorted(b)
    requires forall k :: k in a <==> k in b
    ensures a == b
  {
    assert a != [] ==> a[0] in b;
    assert b != [] ==> b[0] in a;
    if a != [] {
      var i :| 0 <= i < |b| && b[i] == a[0];
      var j :| 0 <= j < |a| && a[j] == b[0];
      if i > 0 && j > 0 {
        LessAsymmetric(b[0], b[i]);
      }
      assert a[0] == b[0];
      forall k
        ensures k in a[1..] <==> k in b[1..]
      {
        TailMembers(a, k);
        TailMembers(b, k);
      }
      SortedListingUnique(a[1..], b[1..]);
      assert a == [a[0]] + a[1..] && b == [b[0]] + b[1..];
    }
  }

  lemma TailMembers(a: seq<string>, k: string)
    requires a != [] && StrictlySorted(a)
    ensures k in a[1..] <==> k in a && k != a[0]
  {
    LessIrreflexive(a[0]);
    if k in a[1..] {
      var i :| 0 <= i < |a[1..]| && a[1..][i] == k;
      assert a[i + 1] == k;
    }
  }

  // ---- Splitting, as str.split does ----

  function Split(s: string, d: char): (parts: seq<string>)
    ensures |parts| > 0
  {
    if s == [] then [""]
    else
      var rest := Split(s[1..], d);
      if s[0] == d then [""] + rest else [[s[0]] + rest[0]] + rest[1..]
  }

  function Join(parts: seq<string>, d: char): string {
    if |parts| == 0 then ""
    else if |parts| == 1 then parts[0]
    else parts[0] + [d] + Join(parts[1..], d)
  }

  lemma {:induction false} SplitIsLocal(s: string, d: char)
    ensures forall p | p in Split(s, d) :: d !in p
  {
    if s != [] {
      SplitIsLocal(s[1..], d);
    }
  }

  lemma {:induction false} JoinSplit(s: string, d: char)
    ensures Join(Split(s, d), d) == s
  {
    if s != [] {
      JoinSplit(s[1..], d);
      var rest := Split(s[1..], d);
      if s[0] == d {
        assert ([""] + rest)[1..] == rest;
      } else {
        var parts := [[s[0]] + rest[0]] + rest[1..];
        assert parts[1..] == rest[1..];
        if |rest| > 1 {
          assert [s[0]] + rest[0] + [d] + Join(rest[1..], d) == [s[0]] + (rest[0] + [d] + Join(rest[1..], d));
        }
      }
      assert s == [s[0]] + s[1..];
    }
  }

  lemma {:induction false} SplitAtFirst(p: string, d: char, s: string)
    requires d !in p
    ensures Split(p + [d] + s, d) == [p] + Split(s, d)
  {
    var whole := p + [d] + s;
    if p == [] {
      assert whole[1..] == s;
    } else {
      SplitAtFirst(p[1..], d, s);
      assert whole[1..] == p[1..] + [d] + s;
      assert whole[0] == p[0];
      assert p == [p[0]] + p[1..];
    }
  }

  lemma {:induction false} SplitAbsent(p: string, d: char)
    requires d !in p
    ensures Split(p, d) == [p]
  {
    if p != [] {
      SplitAbsent(p[1..], d);
      assert p == [p[0]] + p[1..];
    }
  }

  // ---- Decimal numerals ----

  function DigitChar(n: nat): (c: char)
    requires n < 10
  {
    ('0' as int + n) as char
  }

  predicate IsDigit(c: char) {
    '0' <= c <= '9'
  }

  function DigitValue(c: char): (n: nat)
    requires IsDigit(c)
  {
    c as int - '0' as int
  }

  function NatText(n: nat): (s: string)
    ensures s != [] && forall c | c in s :: IsDigit(c)
    ensures s[0] == '0' ==> n == 0
    ensures n == 0 ==> s == "0"
  {
    if n < 10 then [DigitChar(n)] else NatText(n / 10) + [DigitChar(n % 10)]
  }

  function NatValue(s: string): nat
    requires forall c | c in s :: IsDigit(c)
  {
    if s == [] then 0 else NatValue(s[..|s| - 1]) * 10 + DigitValue(s[|s| - 1])
  }

  lemma {:induction false} NatRoundTrip(n: nat)
    ensures NatValue(NatText(n)) == n
  {
    var s := NatText(n);
    if n >= 10 {
      NatRoundTrip(n / 10);
      assert s[..|s| - 1] == NatText(n / 10);
    } else {
      assert s[..0] == [];
    }
  }

  function IntText(n: int): (s: string) {
    if n < 0 then "-" + NatText(-n) else NatText(n)
  }
}
