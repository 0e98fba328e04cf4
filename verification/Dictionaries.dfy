/**
 Python's own values, whose dictionaries remember the order in which they were filled,
 and the dumping of such values with sorted keys.
 */
module Dictionaries {
  import opened Text
  import opened Json

  datatype Py =
    | Leaf(value: Json)
    | List(items: seq<Py>)
    | Dict(entries: seq<(string, Py)>)

  /** Leaves are scalars and no dictionary holds a key twice. */
  ghost predicate WellFormed(p: Py) {
    match p
    case Leaf(v) => !v.JArr? && !v.JObj?
    case List(items) => forall i | 0 <= i < |items| :: WellFormed(items[i])
    case Dict(entries) =>
      && (forall i, j | 0 <= i < j < |entries| :: entries[i].0 != entries[j].0)
      && (forall i | 0 <= i < |entries| :: WellFormed(entries[i].1))
  }

  // ---- What a value means to `==` ----

  function Meaning(p: Py): (v: Json)
    decreases p, 1, 0
  {
    match p
    case Leaf(v) => v
    case List(items) => JArr(ItemMeanings(p, 0))
    case Dict(entries) => JObj(EntryMeanings(p, |entries|))
  }

  function ItemMeanings(p: Py, i: nat): (vs: seq<Json>)
    requires p.List? && i <= |p.items|
    ensures |vs| == |p.items| - i
    ensures forall k | 0 <= k < |vs| :: vs[k] == Meaning(p.items[i + k])
    decreases p, 0, |p.items| - i
  {
    if i == |p.items| then [] else [Meaning(p.items[i])] + ItemMeanings(p, i + 1)
  }

  /** The first `n` entries; filling a dictionary overwrites an earlier value of the same key. */
  function EntryMeanings(p: Py, n: nat): (m: map<string, Json>)
    requires p.Dict? && n <= |p.entries|
    decreases p, 0, n
  {
    if n == 0 then map[] else EntryMeanings(p, n - 1)[p.entries[n - 1].0 := Meaning(p.entries[n - 1].1)]
  }

  // ---- Dumping: entries are sorted by key, then written out ----

  function Dumps(ascii: bool, p: Py): string
    requires WellFormed(p)
    decreases p, 1, 0
  {
    match p
    case Leaf(JNull) => "null"
    case Leaf(JBool(b)) => if b then "true" else "false"
    case Leaf(JInt(n)) => IntText(n)
    case Leaf(JStr(s)) => Quote(ascii, s)
    case List(items) => "[" + DumpItems(ascii, p, 0) + "]"
    case Dict(entries) => "{" + JoinPairs(ascii, SortPairs(DumpEntries(ascii, p, |entries|))) + "}"
  }

  function DumpItems(ascii: bool, p: Py, i: nat): string
    requires p.List? && WellFormed(p) && i <= |p.items|
    decreases p, 0, |p.items| - i
  {
    if i == |p.items| then ""
    else Dumps(ascii, p.items[i]) + (if i + 1 == |p.items| then "" else "," + DumpItems(ascii, p, i + 1))
  }

  /** The first `n` entries as pairs of a key and the text of its value. */
  function DumpEntries(ascii: bool, p: Py, n: nat): (pairs: seq<(string, string)>)
    requires p.Dict? && WellFormed(p) && n <= |p.entries|
    ensures |pairs| == n
    ensures forall i | 0 <= i < n :: pairs[i] == (p.entries[i].0, Dumps(ascii, p.entries[i].1))
    decreases p, 0, n
  {
    if n == 0 then []
    else DumpEntries(ascii, p, n - 1) + [(p.entries[n - 1].0, Dumps(ascii, p.entries[n - 1].1))]
  }

  function InsertPair(pair: (string, string), sorted: seq<(string, string)>): (r: seq<(string, string)>)
    ensures forall x :: x in r <==> x == pair || x in sorted
  {
    if sorted == [] then [pair]
    else if Less(pair.0, sorted[0].0) then [pair] + sorted
    else [sorted[0]] + InsertPair(pair, sorted[1..])
  }

  function SortPairs(pairs: seq<(string, string)>): (sorted: seq<(string, string)>)
    ensures forall x :: x in sorted <==> x in pairs
  {
    if pairs == [] then [] else InsertPair(pairs[0], SortPairs(pairs[1..]))
  }

  function JoinPairs(ascii: bool, pairs: seq<(string, string)>): string {
    if pairs == [] then ""
    else
      Quote(ascii, pairs[0].0) + ":" + pairs[0].1
      + (if |pairs| == 1 then "" else "," + JoinPairs(ascii, pairs[1..]))
  }

  // ---- Dumping depends on the meaning alone ----

  ghost function Keys(pairs: seq<(string, string)>): (ks: seq<string>)
    ensures |ks| == |pairs| && forall i | 0 <= i < |ks| :: ks[i] == pairs[i].0
  {
    seq(|pairs|, i requires 0 <= i < |pairs| => pairs[i].0)
  }

  lemma {:induction false} InsertSorted(pair: (string, string), sorted: seq<(string, string)>)
    requires StrictlySorted(Keys(sorted)) && pair.0 !in Keys(sorted)
    ensures StrictlySorted(Keys(InsertPair(pair, sorted)))
  {
    hide Less;
    if sorted != [] {
      var ks := Keys(sorted);
      if Less(pair.0, sorted[0].0) {
        forall k | k in ks
          ensures Less(pair.0, k)
        {
          if k != ks[0] {
            LessTransitive(pair.0, ks[0], k);
          }
        }
        PrependFirst(pair.0, ks);
        assert Keys([pair] + sorted) == [pair.0] + ks;
      } else {
        LessTotal(pair.0, ks[0]);
        assert pair.0 != ks[0];
        assert ks[1..] == Keys(sorted[1..]);
        InsertSorted(pair, sorted[1..]);
        var rest := InsertPair(pair, sorted[1..]);
        forall k | k in Keys(rest)
          ensures Less(ks[0], k)
        {
          var i :| 0 <= i < |rest| && rest[i].0 == k;
          assert rest[i] in rest;
          if rest[i] != pair {
            var j :| 0 <= j < |sorted[1..]| && sorted[1..][j] == rest[i];
            assert ks[j + 1] == k;
          }
        }
        PrependFirst(ks[0], Keys(rest));
        assert Keys([sorted[0]] + rest) == [ks[0]] + Keys(rest);
      }
    }
  }

  lemma {:induction false} SortSorted(pairs: seq<(string, string)>)
    requires forall i, j | 0 <= i < j < |pairs| :: pairs[i].0 != pairs[j].0
    ensures StrictlySorted(Keys(SortPairs(pairs)))
  {
    if pairs != [] {
      SortSorted(pairs[1..]);
      var rest := SortPairs(pairs[1..]);
      forall i | 0 <= i < |rest|
        ensures rest[i].0 != pairs[0].0
      {
        assert rest[i] in pairs[1..];
        var j :| 0 <= j < |pairs[1..]| && pairs[1..][j] == rest[i];
        assert pairs[j + 1].0 == rest[i].0;
      }
      InsertSorted(pairs[0], rest);
    }
  }

  lemma {:induction false} EntryMeaningsLookup(p: Py, n: nat)
    requires p.Dict? && WellFormed(p) && n <= |p.entries|
    ensures forall i | 0 <= i < n :: p.entries[i].0 in EntryMeanings(p, n)
                                     && EntryMeanings(p, n)[p.entries[i].0] == Meaning(p.entries[i].1)
    ensures forall k | k in EntryMeanings(p, n) :: exists i :: 0 <= i < n && p.entries[i].0 == k
    decreases n
  {
    if n > 0 {
      EntryMeaningsLookup(p, n - 1);
      forall i | 0 <= i < n
        ensures p.entries[i].0 in EntryMeanings(p, n)
                && EntryMeanings(p, n)[p.entries[i].0] == Meaning(p.entries[i].1)
      {
        assert i < n - 1 ==> p.entries[i].0 != p.entries[n - 1].0;
      }
      forall k | k in EntryMeanings(p, n)
        ensures exists i :: 0 <= i < n && p.entries[i].0 == k
      {
        if k == p.entries[n - 1].0 {
        } else {
          assert k in EntryMeanings(p, n - 1);
        }
      }
    }
  }

  lemma {:induction false} JoinIsPrint(ascii: bool, v: Json, pairs: seq<(string, string)>)
    requires v.JObj?
    requires forall x | x in pairs :: x.0 in v.members && x.1 == Print(ascii, v.members[x.0])
    ensures forall k | k in Keys(pairs) :: k in v.members
    ensures JoinPairs(ascii, pairs) == PrintMembers(ascii, v, Keys(pairs))
  {
    hide Print, Quote;
    assert forall i | 0 <= i < |pairs| :: pairs[i] in pairs;
    if pairs != [] {
      assert Keys(pairs)[1..] == Keys(pairs[1..]);
      JoinIsPrint(ascii, v, pairs[1..]);
    }
  }

  /** The text dumped is the canonical text of the meaning, whatever the insertion orders were. */
  lemma {:induction false} DumpsPrintsMeaning(ascii: bool, p: Py)
    requires WellFormed(p)
    ensures Dumps(ascii, p) == Print(ascii, Meaning(p))
    decreases p, 1, 0
  {
    match p
    case Leaf(v) =>
    case List(items) => DumpItemsPrints(ascii, p, 0);
    case Dict(entries) =>
      forall i | 0 <= i < |entries|
        ensures Dumps(ascii, entries[i].1) == Print(ascii, Meaning(entries[i].1))
      {
        DumpsPrintsMeaning(ascii, entries[i].1);
      }
      DumpDictPrints(ascii, p);
  }

  lemma DumpDictPrints(ascii: bool, p: Py)
    requires p.Dict? && WellFormed(p)
    requires forall i | 0 <= i < |p.entries| :: Dumps(ascii, p.entries[i].1) == Print(ascii, Meaning(p.entries[i].1))
    ensures JoinPairs(ascii, SortPairs(DumpEntries(ascii, p, |p.entries|)))
            == PrintMembers(ascii, Meaning(p), SortedKeys(Meaning(p).members.Keys))
  {
    hide Print, Quote, Dumps, SortPairs, JoinPairs, PrintMembers, StrictlySorted;
    var n := |p.entries|;
    var pairs, m := DumpEntries(ascii, p, n), EntryMeanings(p, n);
    EntryMeaningsLookup(p, n);
    forall x | x in pairs
      ensures x.0 in m && x.1 == Print(ascii, m[x.0])
    {
      var i :| 0 <= i < n && x == pairs[i];
      assert p.entries[i].0 in m;
    }
    forall k | k in m
      ensures exists x :: x in pairs && x.0 == k
    {
      var i :| 0 <= i < n && p.entries[i].0 == k;
      assert pairs[i] in pairs;
    }
    JoinIsPrint(ascii, JObj(m), SortPairs(pairs));
    SortSorted(pairs);
    SortedPairKeys(SortPairs(pairs), m.Keys);
  }

  lemma SortedPairKeys(sorted: seq<(string, string)>, keys: set<string>)
    requires StrictlySorted(Keys(sorted))
    requires forall x | x in sorted :: x.0 in keys
    requires forall k | k in keys :: exists x :: x in sorted && x.0 == k
    ensures Keys(sorted) == SortedKeys(keys)
  {
    hide SortedKeys, StrictlySorted;
    SortedKeysAreSorted(keys);
    forall k
      ensures k in Keys(sorted) <==> k in SortedKeys(keys)
    {
      if k in keys {
        var x :| x in sorted && x.0 == k;
        var j :| 0 <= j < |sorted| && sorted[j] == x;
        assert Keys(sorted)[j] == k;
      }
      if k in Keys(sorted) {
        var j :| 0 <= j < |sorted| && Keys(sorted)[j] == k;
        assert sorted[j] in sorted;
      }
    }
    SortedListingUnique(Keys(sorted), SortedKeys(keys));
  }

  lemma {:induction false} DumpItemsPrints(ascii: bool, p: Py, i: nat)
    requires p.List? && WellFormed(p) && i <= |p.items|
    ensures DumpItems(ascii, p, i) == PrintItems(ascii, Meaning(p), i)
    decreases p, 0, |p.items| - i
  {
    if i < |p.items| {
      DumpsPrintsMeaning(ascii, p.items[i]);
      DumpItemsPrints(ascii, p, i + 1);
    }
  }

  /** Dumping is a canonical form: the same text exactly for values that are equal. */
  lemma DumpsCanonical(ascii: bool, p: Py, q: Py)
    requires WellFormed(p) && WellFormed(q)
    ensures Dumps(ascii, p) == Dumps(ascii, q) <==> Meaning(p) == Meaning(q)
  {
    DumpsPrintsMeaning(ascii, p);
    DumpsPrintsMeaning(ascii, q);
    LoadsPrint(ascii, Meaning(p));
    LoadsPrint(ascii, Meaning(q));
  }

  /** Refilling a dictionary in another order changes neither its meaning nor its text. */
  lemma InsertionOrderIrrelevant(ascii: bool, p: Py, q: Py)
    requires p.Dict? && q.Dict? && WellFormed(p) && WellFormed(q)
    requires multiset(p.entries) == multiset(q.entries)
    ensures Meaning(p) == Meaning(q) && Dumps(ascii, p) == Dumps(ascii, q)
  {
    EntriesWithin(p, q);
    EntriesWithin(q, p);
    var a, b := EntryMeanings(p, |p.entries|), EntryMeanings(q, |q.entries|);
    assert forall k :: k in a <==> k in b;
    assert a == b;
    DumpsCanonical(ascii, p, q);
  }

  lemma EntriesWithin(p: Py, q: Py)
    requires p.Dict? && q.Dict? && WellFormed(p) && WellFormed(q)
    requires multiset(p.entries) == multiset(q.entries)
    ensures forall k | k in EntryMeanings(p, |p.entries|) ::
              k in EntryMeanings(q, |q.entries|)
              && EntryMeanings(p, |p.entries|)[k] == EntryMeanings(q, |q.entries|)[k]
  {
    var a, b := EntryMeanings(p, |p.entries|), EntryMeanings(q, |q.entries|);
    EntryMeaningsLookup(p, |p.entries|);
    EntryMeaningsLookup(q, |q.entries|);
    forall k | k in a
      ensures k in b && a[k] == b[k]
    {
      var i :| 0 <= i < |p.entries| && p.entries[i].0 == k;
      assert p.entries[i] in multiset(q.entries);
      var j :| 0 <= j < |q.entries| && q.entries[j] == p.entries[i];
    }
  }
}
