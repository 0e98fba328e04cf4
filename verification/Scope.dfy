/**
 The authority order on dotted capability names. The source writes the prefix test twice,
 once for token scopes and once for manifests; both mean the order on dot-split segments.
 */
module Scope {
  import opened Wrappers
  import opened Text
  import opened Json

  predicate StartsWith(s: string, prefix: string) {
    prefix <= s
  }

  /** `_scope_covers`: some scope of the token is the required one or a dotted prefix of it. */
  predicate ScopeCovers(scopes: seq<string>, required: string) {
    exists i :: 0 <= i < |scopes| && (scopes[i] == required || StartsWith(required, scopes[i] + "."))
  }

  /** `c.get("name", "")`: a capability without a name declares the empty one. */
  function DeclaredName(capability: Json): Option<string> {
    match capability.Get("name")
    case None => if capability.JObj? then Some("") else None
    case Some(JStr(n)) => Some(n)
    case Some(_) => None
  }

  /** The scan over declared capabilities; None where the source raises on malformed content. */
  function ScanDeclared(items: seq<Json>, capability: string): Option<bool> {
    if items == [] then Some(false)
    else
      var declared :- DeclaredName(items[0]);
      if capability == declared || StartsWith(capability, declared + ".") then Some(true)
      else ScanDeclared(items[1..], capability)
  }

  function DeclaredItems(content: Json): Option<seq<Json>> {
    match content.Get("capabilities")
    case None => if content.JObj? then Some([]) else None
    case Some(JArr(items)) => Some(items)
    case Some(JStr("")) => Some([])
    case Some(JObj(members)) => if members == map[] then Some([]) else None
    case Some(_) => None
  }

  /** `manifest_has_capability` returns True. */
  predicate ManifestHas(content: Json, capability: string) {
    var items := DeclaredItems(content);
    items.Some? && ScanDeclared(items.value, capability) == Some(true)
  }

  // ---- The order ----

  /** `narrow` lies under `broad`: the segments of `broad` begin those of `narrow`. */
  predicate Under(broad: string, narrow: string) {
    Split(broad, '.') <= Split(narrow, '.')
  }

  lemma SplitStep(c: char, w: string)
    ensures Split([c] + w, '.') ==
            if c == '.' then [""] + Split(w, '.') else [[c] + Split(w, '.')[0]] + Split(w, '.')[1..]
  {
    assert ([c] + w)[1..] == w;
  }

  lemma {:induction false} SplitExtends(p: string, s: string)
    ensures Split(p + "." + s, '.') == Split(p, '.') + Split(s, '.')
  {
    if p == [] {
      assert p + "." + s == ['.'] + s;
      SplitStep('.', s);
    } else {
      SplitExtends(p[1..], s);
      assert p == [p[0]] + p[1..] && p + "." + s == [p[0]] + (p[1..] + "." + s);
      SplitStep(p[0], p[1..] + "." + s);
      SplitStep(p[0], p[1..]);
      PrependSplit(p[0], Split(p[1..], '.'), Split(s, '.'));
    }
  }

  lemma PrependSplit(c: char, a: seq<string>, b: seq<string>)
    requires a != []
    ensures [[c] + (a + b)[0]] + (a + b)[1..] == [[c] + a[0]] + a[1..] + b
    ensures [""] + (a + b) == [""] + a + b
  {
  }

  lemma {:induction false} JoinExtends(a: seq<string>, b: seq<string>)
    requires a != [] && b != []
    ensures Join(a + b, '.') == Join(a, '.') + "." + Join(b, '.')
  {
    if |a| == 1 {
      assert (a + b)[1..] == b;
    } else {
      assert (a + b)[1..] == a[1..] + b;
      JoinExtends(a[1..], b);
    }
  }

  /** The string test is the segment order, for all strings. */
  lemma MatchIsUnder(broad: string, narrow: string)
    ensures broad == narrow || StartsWith(narrow, broad + ".") <==> Under(broad, narrow)
  {
    if StartsWith(narrow, broad + ".") {
      var rest := narrow[|broad| + 1..];
      assert narrow == broad + "." + rest;
      SplitExtends(broad, rest);
    }
    if Under(broad, narrow) {
      var a, b := Split(broad, '.'), Split(narrow, '.');
      JoinSplit(broad, '.');
      JoinSplit(narrow, '.');
      if |a| == |b| {
        assert a == b;
      } else {
        assert b == a + b[|a|..];
        JoinExtends(a, b[|a|..]);
      }
    }
  }

  lemma UnderPartialOrder(a: string, b: string, c: string)
    ensures Under(a, a)
    ensures Under(a, b) && Under(b, a) ==> a == b
    ensures Under(a, b) && Under(b, c) ==> Under(a, c)
  {
    if Under(a, b) && Under(b, a) {
      assert Split(a, '.') == Split(b, '.');
      JoinSplit(a, '.');
      JoinSplit(b, '.');
    }
  }

  lemma CoversMeans(scopes: seq<string>, required: string)
    ensures ScopeCovers(scopes, required) <==> exists i :: 0 <= i < |scopes| && Under(scopes[i], required)
  {
    forall i | 0 <= i < |scopes|
      ensures scopes[i] == required || StartsWith(required, scopes[i] + ".") <==> Under(scopes[i], required)
    {
      MatchIsUnder(scopes[i], required);
    }
  }

  /** The scan succeeds exactly when a readable run of capabilities ends in one above `capability`. */
  lemma {:induction false} ScanMeans(items: seq<Json>, capability: string)
    ensures ScanDeclared(items, capability) == Some(true) <==>
            exists i :: 0 <= i < |items| && Declares(items, i, capability)
  {
    if items != [] {
      ScanMeans(items[1..], capability);
      forall i | 0 < i < |items|
        ensures DeclaredName(items[0]).Some? ==>
                  (Declares(items, i, capability) <==> Declares(items[1..], i - 1, capability))
      {
        var rest := items[1..];
        assert items[..i + 1] == [items[0]] + rest[..i];
      }
      forall i | 0 <= i < |items| && Declares(items, i, capability)
        ensures DeclaredName(items[0]).Some?
      {
        assert items[0] in items[..i + 1];
      }
      if DeclaredName(items[0]).Some? {
        MatchIsUnder(DeclaredName(items[0]).value, capability);
        if exists i :: 0 <= i < |items[1..]| && Declares(items[1..], i, capability) {
          var i :| 0 <= i < |items[1..]| && Declares(items[1..], i, capability);
          assert Declares(items, i + 1, capability);
        }
        assert Under(DeclaredName(items[0]).value, capability) ==> Declares(items, 0, capability);
      }
    }
  }

  predicate Declares(items: seq<Json>, i: nat, capability: string)
    requires i < |items|
  {
    && (forall c | c in items[..i + 1] :: DeclaredName(c).Some?)
    && DeclaredName(items[i]).Some? && Under(DeclaredName(items[i]).value, capability)
  }

  /**
   The two matchers compose: when every scope of a token lies in a manifest and the token
   covers a capability, the manifest itself has the capability.
   */
  lemma AuthorityComposes(content: Json, scopes: seq<string>, required: string)
    requires ScopeCovers(scopes, required)
    requires forall i | 0 <= i < |scopes| :: ManifestHas(content, scopes[i])
    ensures ManifestHas(content, required)
  {
    CoversMeans(scopes, required);
    var i :| 0 <= i < |scopes| && Under(scopes[i], required);
    assert ManifestHas(content, scopes[i]);
    var items := DeclaredItems(content).value;
    ScanMeans(items, scopes[i]);
    var j :| 0 <= j < |items| && Declares(items, j, scopes[i]);
    UnderPartialOrder(DeclaredName(items[j]).value, scopes[i], required);
    assert Declares(items, j, required);
    ScanMeans(items, required);
  }
}
