/** The hash chain of the log: what a head commits to, and the shape the links make. */
module ChainLaws {
  import opened Json
  import opened Utf8
  import opened Signing
  import opened AuditTable
  import opened AuditLaws

  // ---- Hashing ----

  predicate IsLine(s: string) {
    '\n' !in s
  }

  lemma {:induction false} SplitAtByte(a: Bytes, x: Bytes, b: Bytes, y: Bytes)
    requires 10 !in a && 10 !in b && a + [10] + x == b + [10] + y
    ensures a == b && x == y
  {
    var s := a + [10] + x;
    assert s[|a|] == 10 && s[|b|] == 10;
    assert forall i | 0 <= i < |a| :: s[i] == a[i];
    assert forall i | 0 <= i < |b| :: s[i] == b[i];
    assert |a| == |b|;
    assert a == s[..|a|] && b == s[..|b|] && x == s[|a| + 1..] && y == s[|b| + 1..];
  }

  /** The hashed bytes split in only one way into previous hash and record. */
  lemma ChainHashInjective(cr: Crypto, p1: string, r1: Json, p2: string, r2: Json)
    requires IdealHash(cr) && IsLine(p1) && IsLine(p2)
    requires ChainHash(cr, p1, r1) == ChainHash(cr, p2, r2)
    ensures p1 == p2 && r1 == r2
  {
    hide CanonicalJson, Encode;
    var b1, b2 := Encode(p1) + [10] + CanonicalJson(r1), Encode(p2) + [10] + CanonicalJson(r2);
    assert cr.sha256(b1) == ChainHash(cr, p1, r1)[7..] && cr.sha256(b2) == ChainHash(cr, p2, r2)[7..];
    AsciiOccurs(p1, '\n');
    AsciiOccurs(p2, '\n');
    SplitAtByte(Encode(p1), CanonicalJson(r1), Encode(p2), CanonicalJson(r2));
    Utf8.EncodeInjective(p1, p2);
    CanonicalInjective(r1, r2);
  }

  lemma ChainHashShape(cr: Crypto, p: string, r: Json)
    requires IdealHash(cr)
    ensures IsLine(ChainHash(cr, p, r)) && ChainHash(cr, p, r) != GenesisHash()
  {
    hide CanonicalJson, Encode, Zeros;
    var d := cr.sha256(Encode(p) + [10] + CanonicalJson(r));
    assert ChainHash(cr, p, r)[7..] == d && GenesisHash()[7..] == Zeros();
  }

  lemma HashesAreLines(cr: Crypto, t: Table, i: nat)
    requires IdealHash(cr) && Linked(cr, t) && i < |t|
    ensures IsLine(t[i].chainHash) && IsLine(t[i].prevHash) && t[i].chainHash != GenesisHash()
  {
    hide ChainHash, IdealHash;
    ChainHashShape(cr, t[i].prevHash, t[i].original);
    if i > 0 {
      var m := Newest(t[..i]);
      ChainHashShape(cr, t[m].prevHash, t[m].original);
    }
  }

  /** Equal chain hashes, in one log or in two, mean equal records and equal predecessors. */
  lemma HashDetermines(cr: Crypto, t: Table, i: nat, u: Table, j: nat)
    requires IdealHash(cr) && Linked(cr, t) && Linked(cr, u) && i < |t| && j < |u|
    requires t[i].chainHash == u[j].chainHash
    ensures t[i].original == u[j].original && t[i].prevHash == u[j].prevHash
  {
    hide ChainHash, IdealHash, IsLine, LatestHash;
    HashesAreLines(cr, t, i);
    HashesAreLines(cr, u, j);
    ChainHashInjective(cr, t[i].prevHash, t[i].original, u[j].prevHash, u[j].original);
  }

  // ---- Walking the links ----

  /** Following prev_hash from `h` down to genesis passes exactly these records, oldest first. */
  ghost predicate Walk(t: Table, h: string, records: seq<Json>)
    decreases |records|
  {
    if records == [] then h == GenesisHash()
    else
      var n := |records| - 1;
      exists i :: 0 <= i < |t| && t[i].chainHash == h && t[i].original == records[n] && Walk(t, t[i].prevHash, records[..n])
  }

  /** Two walks from the same hash meet the same records, whichever logs they are taken in. */
  lemma {:induction false} WalksAgree(cr: Crypto, t: Table, u: Table, h: string, a: seq<Json>, b: seq<Json>)
    requires IdealHash(cr) && Linked(cr, t) && Linked(cr, u)
    requires Walk(t, h, a) && Walk(u, h, b)
    ensures a == b
    decreases |a|
  {
    hide ChainHash, IdealHash, IsLine, LatestHash, GenesisHash, Linked;
    if a != [] {
      var n := |a| - 1;
      var i :| 0 <= i < |t| && t[i].chainHash == h && t[i].original == a[n] && Walk(t, t[i].prevHash, a[..n]);
      HashesAreLines(cr, t, i);
      var m := |b| - 1;
      var j :| 0 <= j < |u| && u[j].chainHash == h && u[j].original == b[m] && Walk(u, u[j].prevHash, b[..m]);
      HashDetermines(cr, t, i, u, j);
      WalksAgree(cr, t, u, t[i].prevHash, a[..n], b[..m]);
      assert a == a[..n] + [a[n]] && b == b[..m] + [b[m]];
    } else if b != [] {
      var m := |b| - 1;
      var j :| 0 <= j < |u| && u[j].chainHash == h && u[j].original == b[m] && Walk(u, u[j].prevHash, b[..m]);
      HashesAreLines(cr, u, j);
    }
  }

  /** The records from genesis to the head, found by stepping to the head of each row's time. */
  ghost function Ancestry(t: Table): seq<Json> {
    if t == [] then [] else Ancestry(t[..Newest(t)]) + [t[Newest(t)].original]
  }

  lemma {:induction false} WalkInPrefix(t: Table, k: nat, h: string, records: seq<Json>)
    requires k <= |t| && Walk(t[..k], h, records)
    ensures Walk(t, h, records)
    decreases |records|
  {
    if records != [] {
      var n := |records| - 1;
      var i :| 0 <= i < k && t[..k][i].chainHash == h && t[..k][i].original == records[n] && Walk(t[..k], t[..k][i].prevHash, records[..n]);
      WalkInPrefix(t, k, t[i].prevHash, records[..n]);
    }
  }

  lemma WalkStep(t: Table, i: nat, records: seq<Json>)
    requires i < |t| && Walk(t, t[i].prevHash, records)
    ensures Walk(t, t[i].chainHash, records + [t[i].original])
  {
    hide GenesisHash;
    assert (records + [t[i].original])[..|records|] == records;
  }

  lemma LinkedPrefix(cr: Crypto, t: Table, n: nat)
    requires Linked(cr, t) && n <= |t|
    ensures Linked(cr, t[..n])
  {
    hide ChainHash, LatestHash;
    assert forall k | 0 <= k < n :: t[..n][..k] == t[..k];
  }

  /** Walking from the head always reaches genesis. */
  lemma {:induction false} WalkFromHead(cr: Crypto, t: Table)
    requires Linked(cr, t)
    ensures Walk(t, LatestHash(t), Ancestry(t))
  {
    hide ChainHash, Newest;
    if t != [] {
      var i := Newest(t);
      var older := t[..i];
      LinkedPrefix(cr, t, i);
      WalkFromHead(cr, older);
      WalkInPrefix(t, i, LatestHash(older), Ancestry(older));
      WalkStep(t, i, Ancestry(older));
    }
  }

  /**
   Tamper evidence: any two linked logs, or one log at two times, that show the same head agree
   on the whole sequence of records, as inserted, from genesis to that head.
   */
  lemma TamperEvidence(cr: Crypto, t: Table, u: Table, a: seq<Json>, b: seq<Json>)
    requires IdealHash(cr) && Linked(cr, t) && Linked(cr, u)
    requires LatestHash(t) == LatestHash(u)
    requires Walk(t, LatestHash(t), a) && Walk(u, LatestHash(u), b)
    ensures a == b == Ancestry(t) == Ancestry(u)
  {
    hide IdealHash, LatestHash, Walk, Ancestry, Linked;
    WalkFromHead(cr, t);
    WalkFromHead(cr, u);
    WalksAgree(cr, t, u, LatestHash(t), a, b);
    WalksAgree(cr, t, u, LatestHash(t), a, Ancestry(u));
    WalksAgree(cr, t, t, LatestHash(t), a, Ancestry(t));
  }

  // ---- Shape ----

  /** The links form a tree: the first row hangs off genesis, every other off an earlier row. */
  lemma TreeShape(cr: Crypto, t: Table, i: nat)
    requires IdealHash(cr) && Linked(cr, t) && i < |t|
    ensures t[i].prevHash == GenesisHash() <==> i == 0
    ensures i > 0 ==> exists j :: 0 <= j < i && t[j].chainHash == t[i].prevHash
  {
    hide ChainHash, IdealHash;
    if i > 0 {
      var m := Newest(t[..i]);
      assert t[i].prevHash == t[..i][m].chainHash == t[m].chainHash;
      HashesAreLines(cr, t, m);
    }
  }

  ghost predicate NoFork(t: Table) {
    forall i, j | 0 <= i < j < |t| :: t[i].prevHash != t[j].prevHash
  }

  /** Every row but possibly the last came with a key no row before it exceeds. */
  ghost predicate RisingKeys(t: Table) {
    forall k, i | 0 <= k < i < |t| - 1 :: !Before(t[i], t[k])
  }

  lemma NewestStep(t: Table, n: nat)
    requires 0 < n < |t|
    ensures Newest(t[..n + 1]) == if Before(t[n], t[Newest(t[..n])]) then Newest(t[..n]) else n
  {
    assert t[..n + 1][..n] == t[..n];
  }

  lemma LateRowKeepsHead(t: Table, k: nat, i: nat)
    requires k < i < |t| && Before(t[i], t[k])
    ensures LatestHash(t[..i + 1]) == LatestHash(t[..i])
  {
    hide Before, Newest;
    NewestIsGreatest(t[..i]);
    NewestStep(t, i);
    assert t[..i][k] == t[k];
    BeforeTransitive(t[k], t[Newest(t[..i])], t[i]);
  }

  lemma TopRowIsHead(t: Table, i: nat)
    requires i < |t| && forall k | 0 <= k < i :: !Before(t[i], t[k])
    ensures LatestHash(t[..i + 1]) == t[i].chainHash
  {
    hide Before, Newest;
    if i == 0 {
      NewestSingle(t[..1]);
    } else {
      NewestStep(t, i);
    }
  }

  lemma NewestSingle(t: Table)
    requires |t| == 1
    ensures Newest(t) == 0
  {
  }

  /** With rising keys each row but the last is the predecessor of the next. */
  lemma RisingLink(cr: Crypto, t: Table, i: nat)
    requires Linked(cr, t) && RisingKeys(t) && 0 < i < |t|
    ensures t[i].prevHash == t[i - 1].chainHash
  {
    hide ChainHash, Before, LatestHash;
    TopRowIsHead(t, i - 1);
  }

  lemma {:induction false} RisingDistinct(cr: Crypto, t: Table, i: nat, j: nat)
    requires IdealHash(cr) && Linked(cr, t) && RisingKeys(t) && i < j < |t|
    ensures t[i].prevHash != t[j].prevHash
  {
    hide ChainHash, IdealHash, Linked, RisingKeys, GenesisHash;
    RisingLink(cr, t, j);
    if i == 0 {
      TreeShape(cr, t, 0);
      HashesAreLines(cr, t, j - 1);
    } else {
      RisingLink(cr, t, i);
      RisingDistinct(cr, t, i - 1, j - 1);
      if t[i - 1].chainHash == t[j - 1].chainHash {
        HashDetermines(cr, t, i - 1, t, j - 1);
      }
    }
  }

  /** The chain is a single line exactly when no row but the last came with a key below an earlier one. */
  lemma LinearExactly(cr: Crypto, t: Table)
    requires IdealHash(cr) && Linked(cr, t)
    ensures NoFork(t) <==> RisingKeys(t)
  {
    hide ChainHash, Before, IdealHash, LatestHash, GenesisHash;
    if NoFork(t) {
      forall k, i | 0 <= k < i < |t| - 1
        ensures !Before(t[i], t[k])
      {
        if Before(t[i], t[k]) {
          LateRowKeepsHead(t, k, i);
        }
      }
    }
    if RisingKeys(t) {
      forall i, j | 0 <= i < j < |t|
        ensures t[i].prevHash != t[j].prevHash
      {
        RisingDistinct(cr, t, i, j);
      }
    }
  }
}
