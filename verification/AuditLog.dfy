/**
 The audit log as the source keeps it: rows with the record as stored text, appended and
 updated in place. Every method is tied to the operation of `AuditTable` on the rows' values.
 */
module AuditLog {
  import opened Wrappers
  import opened Json
  import opened Python
  import opened Signing
  import opened AuditEvent
  import Spec = AuditTable
  import Laws = AuditLaws

  datatype DbRow = DbRow(
    eventId: Option<string>, ts: int, typ: string, tokenJti: Option<string>,
    prevHash: string, recordJson: string, chainHash: string, pendingPeer: bool)

  ghost function Reloaded(text: string): Json {
    match Loads(text)
    case None => JNull
    case Some(v) => v
  }

  ghost function RowOf(d: DbRow, original: Json): Spec.Row {
    Spec.Row(d.eventId, d.ts, d.typ, d.tokenJti, d.prevHash, Reloaded(d.recordJson), d.chainHash, d.pendingPeer, original)
  }

  ghost function RowsOf(ds: seq<DbRow>, originals: seq<Json>): (t: Spec.Table)
    requires |ds| == |originals|
    ensures |t| == |ds| && forall i | 0 <= i < |t| :: t[i] == RowOf(ds[i], originals[i])
  {
    seq(|ds|, i requires 0 <= i < |ds| => RowOf(ds[i], originals[i]))
  }

  lemma RecordIsMade(record: Json)
    requires Spec.IsRecord(record)
    ensures record == Spec.MakeRecord(Spec.ContentOf(record), Spec.SignaturesOf(record))
  {
    var r := Spec.MakeRecord(Spec.ContentOf(record), Spec.SignaturesOf(record));
    assert r.members == record.members;
  }

  /** Storing a record and reading it back yields the record. */
  lemma StoredReloads(record: Json)
    ensures Loads(StorageText(record)) == Some(record) && Reloaded(StorageText(record)) == record
  {
    LoadsPrint(true, record);
  }

  lemma RowsAppend(ds: seq<DbRow>, originals: seq<Json>, d: DbRow, original: Json)
    requires |ds| == |originals|
    ensures RowsOf(ds + [d], originals + [original]) == RowsOf(ds, originals) + [RowOf(d, original)]
  {
    hide RowOf;
  }

  lemma RowsUpdate(ds: seq<DbRow>, originals: seq<Json>, i: nat, d: DbRow)
    requires |ds| == |originals| && i < |ds|
    ensures RowsOf(ds[i := d], originals) == RowsOf(ds, originals)[i := RowOf(d, originals[i])]
  {
    hide RowOf;
  }

  lemma InsertedValid(cr: Crypto, t: Spec.Table, event: AuditEvent, record: Json, pending: bool)
    requires Laws.Valid(cr, t) && Storable(event) && !Spec.Taken(t, event)
    requires Spec.IsRecord(record) && Spec.ContentOf(record) == Content(event)
    requires 1 <= |Spec.SignaturesOf(record)| <= if pending then 1 else 2
    ensures Laws.Valid(cr, t + [Spec.NewRow(cr, t, event, record, pending)])
  {
    hide Laws.Valid, Spec.NewRow, Spec.IsRecord, Spec.MakeRecord, Spec.HasEvent, Content;
    RecordIsMade(record);
    Laws.InsertValid(cr, t, event, Spec.SignaturesOf(record), pending);
  }

  lemma FinalizedValid(cr: Crypto, t: Spec.Table, eventId: string, peerSignature: Json, peerKey: PublicKey)
    requires Laws.Valid(cr, t)
    ensures match Spec.FinalizePending(cr, t, eventId, peerSignature, peerKey)
            case Ok(u) =>
              && Laws.Valid(cr, u) && Spec.HasEvent(t, eventId)
              && u == t[Spec.FindEvent(t, eventId) := Laws.SettledRow(t[Spec.FindEvent(t, eventId)], peerSignature)]
            case Raise(_) => true
  {
    hide Laws.Valid, Spec.FinalizePending, Spec.FindEvent, Laws.SettledRow, Laws.SameChain, Laws.Indexed, Laws.Commits, VerifyEnvelope;
    if Spec.FinalizePending(cr, t, eventId, peerSignature, peerKey).Ok? {
      Laws.FinalizeValid(cr, t, eventId, peerSignature, peerKey);
      Laws.FinalizeShape(cr, t, eventId, peerSignature, peerKey);
    }
  }

  lemma SettledRecord(cr: Crypto, t: Spec.Table, eventId: string, i: nat)
    requires Laws.Valid(cr, t) && i < |t| && t[i].eventId == Some(eventId)
    ensures Spec.RecordOf(t, eventId) == Some(t[i].record)
  {
    hide Laws.Linked, Laws.Indexed, Laws.Commits, Spec.FindEvent;
    Laws.FindUnique(t, eventId, i);
  }

  lemma NamesMeans(signatures: seq<Json>, peerSignature: Json)
    ensures Spec.Names(signatures, peerSignature) <==> exists s :: s in signatures && s.Get("signed_by") == peerSignature.Get("signed_by")
  {
  }

  lemma RowRecord(cr: Crypto, t: Spec.Table, i: nat)
    requires Laws.Valid(cr, t) && i < |t|
    ensures Spec.IsRecord(t[i].record)
  {
    hide Laws.Linked, Laws.DistinctIds;
    assert Laws.Commits(t[i]);
  }

  /** Where `InsertByKey` puts a row. */
  lemma {:induction false} InsertAt(r: Spec.Row, sorted: Spec.Table, k: nat)
    requires k <= |sorted| && forall x | 0 <= x < k :: !Spec.Before(r, sorted[x])
    requires k < |sorted| ==> Spec.Before(r, sorted[k])
    ensures Spec.InsertByKey(r, sorted) == sorted[..k] + [r] + sorted[k..]
  {
    hide Spec.Before;
    if k > 0 {
      var rest := sorted[1..];
      assert forall x | 0 <= x < |rest| :: rest[x] == sorted[x + 1];
      InsertAt(r, rest, k - 1);
      SplitFirst(r, sorted, k);
    }
  }

  lemma SplitFirst(r: Spec.Row, s: Spec.Table, k: nat)
    requires 0 < k <= |s|
    ensures [s[0]] + (s[1..][..k - 1] + [r] + s[1..][k - 1..]) == s[..k] + [r] + s[k..]
  {
  }

  lemma InsertRows(ds: seq<DbRow>, originals: seq<Json>, d: DbRow, original: Json, k: nat)
    requires |ds| == |originals| && k <= |ds|
    requires forall x | 0 <= x < k :: !Spec.KeyBefore(d.ts, d.eventId, ds[x].ts, ds[x].eventId)
    requires k < |ds| ==> Spec.KeyBefore(d.ts, d.eventId, ds[k].ts, ds[k].eventId)
    ensures RowsOf(ds[..k] + [d] + ds[k..], originals[..k] + [original] + originals[k..])
            == Spec.InsertByKey(RowOf(d, original), RowsOf(ds, originals))
  {
    hide Spec.KeyBefore, Spec.InsertByKey, Reloaded;
    InsertAt(RowOf(d, original), RowsOf(ds, originals), k);
  }

  lemma SortStep(t: Spec.Table, i: nat)
    requires i < |t|
    ensures Spec.SortByKey(t[..i + 1]) == Spec.InsertByKey(t[i], Spec.SortByKey(t[..i]))
  {
    hide Spec.InsertByKey;
    assert t[..i + 1][..i] == t[..i];
  }

  lemma NewestStep(t: Spec.Table, i: nat)
    requires i < |t|
    ensures Spec.Newest(t[..i + 1]) ==
            if i > 0 && Spec.Before(t[i], t[Spec.Newest(t[..i])]) then Spec.Newest(t[..i]) else i
  {
    hide Spec.Before;
    assert t[..i + 1][..i] == t[..i];
  }

  lemma CountStep(t: Spec.Table, i: nat)
    requires i < |t|
    ensures Spec.PendingPeerCount(t[..i + 1]) == Spec.PendingPeerCount(t[..i]) + if t[i].pendingPeer then 1 else 0
  {
    assert t[..i + 1][..i] == t[..i];
  }

  lemma CountNone()
    ensures Spec.PendingPeerCount([]) == 0
  {
  }

  lemma SortNone()
    ensures Spec.SortByKey([]) == []
  {
  }

  class AuditLog {
    const cr: Crypto
    var rows: seq<DbRow>
    ghost var originals: seq<Json>

    /** The rows as values; each remembers the record it was inserted with. */
    ghost function Model(): Spec.Table
      reads this
      requires |rows| == |originals|
    {
      RowsOf(rows, originals)
    }

    ghost predicate Valid()
      reads this
    {
      && |rows| == |originals|
      && (forall i | 0 <= i < |rows| :: Loads(rows[i].recordJson).Some?)
      && Laws.Valid(cr, Model())
    }

    /** Opens a file with the rows a log wrote to it; `inserted` are the records those rows began with. */
    constructor (cr: Crypto, stored: seq<DbRow>, ghost inserted: seq<Json>)
      requires |stored| == |inserted| && forall i | 0 <= i < |stored| :: Loads(stored[i].recordJson).Some?
      requires Laws.Valid(cr, RowsOf(stored, inserted))
      ensures Valid() && this.cr == cr && rows == stored && originals == inserted
    {
      hide Laws.Valid;
      this.cr := cr;
      rows, originals := stored, inserted;
    }

    // ---- Introspection ----

    method LatestHash() returns (h: string)
      requires Valid()
      ensures h == Spec.LatestHash(Model())
    {
      hide Laws.Valid, Reloaded, RowsOf, Spec.KeyBefore, Spec.GenesisHash, Spec.Newest;
      ghost var t := Model();
      if rows == [] {
        return Spec.GenesisHash();
      }
      var newest := 0;
      NewestStep(t, 0);
      for i := 1 to |rows|
        invariant newest < i && newest == Spec.Newest(t[..i])
      {
        NewestStep(t, i);
        if !Spec.KeyBefore(rows[i].ts, rows[i].eventId, rows[newest].ts, rows[newest].eventId) {
          newest := i;
        }
      }
      assert t[..|rows|] == t;
      return rows[newest].chainHash;
    }

    method HasJti(jti: Json) returns (r: Result<bool, Spec.AuditError>)
      requires Valid()
      ensures r == if Bindable(jti) then Ok(Spec.HasJti(Model(), jti)) else Raise(Spec.NotStorable)
    {
      hide Laws.Valid, Reloaded, RowsOf, Spec.MatchesJti, Bindable;
      ghost var t := Model();
      if !Bindable(jti) {
        return Raise(Spec.NotStorable);
      }
      for i := 0 to |rows|
        invariant forall k | 0 <= k < i :: !Spec.MatchesJti(rows[k].tokenJti, jti)
      {
        if Spec.MatchesJti(rows[i].tokenJti, jti) {
          assert t[i].tokenJti == rows[i].tokenJti;
          return Ok(true);
        }
      }
      return Ok(false);
    }

    /** The row with the given primary key. */
    method Find(eventId: string) returns (index: Option<nat>)
      requires Valid()
      ensures index.Some? <==> Spec.HasEvent(Model(), eventId)
      ensures index.Some? ==> index.value == Spec.FindEvent(Model(), eventId)
    {
      hide Laws.Linked, Laws.Indexed, Laws.Commits, Reloaded, RowsOf, Spec.FindEvent;
      ghost var t := Model();
      for i := 0 to |rows|
        invariant forall k | 0 <= k < i :: rows[k].eventId != Some(eventId)
      {
        if rows[i].eventId == Some(eventId) {
          Laws.FindUnique(t, eventId, i);
          return Some(i);
        }
      }
      return None;
    }

    method Get(eventId: string) returns (record: Option<Json>)
      requires Valid()
      ensures record == Spec.RecordOf(Model(), eventId)
    {
      hide Laws.Linked, Laws.Indexed, Laws.Commits, Spec.FindEvent, Spec.HasEvent;
      var index := Find(eventId);
      if index.None? {
        return None;
      }
      return Some(Loads(rows[index.value].recordJson).value);
    }

    method PendingPeerCount() returns (n: nat)
      requires Valid()
      ensures n == Spec.PendingPeerCount(Model())
    {
      hide Laws.Valid, Reloaded, RowsOf, Spec.PendingPeerCount;
      ghost var t := Model();
      CountNone();
      n := 0;
      for i := 0 to |rows|
        invariant n == Spec.PendingPeerCount(t[..i])
      {
        CountStep(t, i);
        if rows[i].pendingPeer {
          n := n + 1;
        }
      }
      assert t[..|rows|] == t;
    }

    /** `SELECT record_json ... ORDER BY ts ASC, event_id ASC`. */
    method SelectOrdered() returns (ordered: seq<DbRow>, ghost inserted: seq<Json>)
      requires Valid()
      ensures |inserted| == |ordered| && RowsOf(ordered, inserted) == Spec.SortByKey(Model())
      ensures forall d | d in ordered :: d in rows
    {
      hide Laws.Valid, RowOf, Spec.InsertByKey, Spec.KeyBefore, Spec.SortByKey;
      ghost var t := Model();
      SortNone();
      ordered, inserted := [], [];
      for i := 0 to |rows|
        invariant |inserted| == |ordered| && RowsOf(ordered, inserted) == Spec.SortByKey(t[..i])
        invariant forall d | d in ordered :: d in rows
      {
        var r := rows[i];
        var k := 0;
        while k < |ordered| && !Spec.KeyBefore(r.ts, r.eventId, ordered[k].ts, ordered[k].eventId)
          invariant k <= |ordered|
          invariant forall x | 0 <= x < k :: !Spec.KeyBefore(r.ts, r.eventId, ordered[x].ts, ordered[x].eventId)
        {
          k := k + 1;
        }
        InsertRows(ordered, inserted, r, originals[i], k);
        SortStep(t, i);
        ordered := ordered[..k] + [r] + ordered[k..];
        inserted := inserted[..k] + [originals[i]] + inserted[k..];
      }
      assert t[..|rows|] == t;
    }

    method AllEvents() returns (records: seq<Json>)
      requires Valid()
      ensures records == Spec.Records(Spec.SortByKey(Model()))
    {
      hide Laws.Valid, Spec.SortByKey;
      var ordered, inserted := SelectOrdered();
      records := [];
      for i := 0 to |ordered|
        invariant |records| == i && forall k | 0 <= k < i :: records[k] == Reloaded(ordered[k].recordJson)
      {
        assert ordered[i] in rows;
        records := records + [Loads(ordered[i].recordJson).value];
      }
    }

    // ---- Writing ----

    /** The new row is committed, or a parameter SQLite refuses or a repeated key leaves everything as it was. */
    method Insert(event: AuditEvent, record: Json, pending: bool) returns (r: Result<(), Spec.AuditError>)
      requires Valid() && Spec.IsRecord(record) && Spec.ContentOf(record) == Content(event)
      requires 1 <= |Spec.SignaturesOf(record)| <= if pending then 1 else 2
      modifies this
      ensures Valid()
      ensures match Spec.Insert(cr, old(Model()), event, record, pending)
              case Ok(t) => r == Ok(()) && Model() == t
              case Raise(e) => r == Raise(e) && rows == old(rows) && originals == old(originals)
    {
      hide Laws.Valid, Content, Spec.LatestHash, Spec.ChainHash, Spec.HasEvent, Spec.IsRecord, RowsOf, Reloaded, Loads, StorageText,
           Storable, KeyOf, TypeOf;
      ghost var t := Model();
      var prev := LatestHash();
      var chain := Spec.ChainHash(cr, prev, record);
      if !Storable(event) {
        return Raise(Spec.NotStorable);
      }
      var key := KeyOf(event);
      if key.Some? {
        var existing := Find(key.value);
        if existing.Some? {
          return Raise(Spec.DuplicateEvent);
        }
      }
      var row := DbRow(key, event.ts, TypeOf(event), ColumnOf(event.tokenJti), prev, StorageText(record), chain, pending);
      StoredReloads(record);
      RowsAppend(rows, originals, row, record);
      InsertedValid(cr, t, event, record, pending);
      rows, originals := rows + [row], originals + [record];
      return Ok(());
    }

    method AppendSelf(event: AuditEvent, kp: KeyPair, signer: string) returns (r: Result<Json, Spec.AuditError>)
      requires Valid()
      modifies this
      ensures Valid()
      ensures match Spec.AppendSelf(cr, old(Model()), event, kp, signer)
              case Ok(t) => Model() == t && r == Ok(t[|t| - 1].record)
              case Raise(e) => r == Raise(e) && rows == old(rows) && originals == old(originals)
    {
      hide Laws.Valid, Content, SignEnvelope, Spec.LatestHash, Spec.ChainHash, Spec.HasEvent, Spec.IsRecord, Spec.MakeRecord, RowsOf, Reloaded;
      var content := Content(event);
      var signature := SignEnvelope(cr, content, kp, signer);
      var record := Spec.MakeRecord(content, [signature]);
      Laws.MakeRecordShape(content, [signature]);
      var _ :- Insert(event, record, false);
      return Ok(record);
    }

    method SignOnly(event: AuditEvent, kp: KeyPair, signer: string) returns (signature: Json)
      ensures signature == Spec.SignOnly(cr, event, kp, signer)
      ensures IdealSignatures(cr) ==>
                forall content, key :: VerifyEnvelope(cr, content, signature, key).Ok? <==> content == Content(event) && key == kp.Public(cr)
    {
      hide SignEnvelope, VerifyEnvelope, Content, IdealSignatures;
      if IdealSignatures(cr) {
        forall content, key
          ensures VerifyEnvelope(cr, content, SignEnvelope(cr, Content(event), kp, signer), key).Ok?
                  <==> content == Content(event) && key == kp.Public(cr)
        {
          EnvelopeExact(cr, Content(event), kp, signer, content, key);
        }
      }
      return SignEnvelope(cr, Content(event), kp, signer);
    }

    method AppendPending(event: AuditEvent, mySignature: Json) returns (r: Result<Json, Spec.AuditError>)
      requires Valid()
      modifies this
      ensures Valid()
      ensures match Spec.AppendPending(cr, old(Model()), event, mySignature)
              case Ok(t) => Model() == t && r == Ok(t[|t| - 1].record)
              case Raise(e) => r == Raise(e) && rows == old(rows) && originals == old(originals)
    {
      hide Laws.Valid, Content, Spec.LatestHash, Spec.ChainHash, Spec.HasEvent, Spec.IsRecord, Spec.MakeRecord, RowsOf, Reloaded;
      var record := Spec.MakeRecord(Content(event), [mySignature]);
      Laws.MakeRecordShape(Content(event), [mySignature]);
      var _ :- Insert(event, record, true);
      return Ok(record);
    }

    method AppendFinalized(event: AuditEvent, mySignature: Json, peerSignature: Json, peerKey: PublicKey)
      returns (r: Result<Json, Spec.AuditError>)
      requires Valid()
      modifies this
      ensures Valid()
      ensures match Spec.AppendFinalized(cr, old(Model()), event, mySignature, peerSignature, peerKey)
              case Ok(t) => Model() == t && r == Ok(t[|t| - 1].record)
              case Raise(e) => r == Raise(e) && rows == old(rows) && originals == old(originals)
    {
      hide Laws.Valid, Content, VerifyEnvelope, Spec.LatestHash, Spec.ChainHash, Spec.HasEvent, Spec.IsRecord, Spec.MakeRecord, RowsOf, Reloaded;
      var content := Content(event);
      var verdict := VerifyEnvelope(cr, content, peerSignature, peerKey);
      if verdict.Raise? {
        return Raise(Spec.CrossSignFailed);
      }
      var record := Spec.MakeRecord(content, [mySignature, peerSignature]);
      Laws.MakeRecordShape(content, [mySignature, peerSignature]);
      var _ :- Insert(event, record, false);
      return Ok(record);
    }

    /** `{s["signed_by"] for s in signatures}`; None where a label is missing or cannot be hashed. */
    static method ExistingSigners(signatures: seq<Json>) returns (signers: Option<set<Option<Json>>>)
      ensures signers.Some? <==> forall s | s in signatures :: Spec.Labelled(s)
      ensures signers.Some? ==> forall v :: v in signers.value <==> exists s :: s in signatures && s.Get("signed_by") == v
    {
      hide Spec.Labelled;
      var found: set<Option<Json>> := {};
      for i := 0 to |signatures|
        invariant forall s | s in signatures[..i] :: Spec.Labelled(s)
        invariant forall v :: v in found <==> exists s :: s in signatures[..i] && s.Get("signed_by") == v
      {
        assert signatures[..i + 1] == signatures[..i] + [signatures[i]];
        if !Spec.Labelled(signatures[i]) {
          return None;
        }
        found := found + {signatures[i].Get("signed_by")};
      }
      assert signatures[..|signatures|] == signatures;
      return Some(found);
    }

    method FinalizePending(eventId: string, peerSignature: Json, peerKey: PublicKey) returns (r: Result<Json, Spec.AuditError>)
      requires Valid()
      modifies this
      ensures Valid()
      ensures match Spec.FinalizePending(cr, old(Model()), eventId, peerSignature, peerKey)
              case Ok(t) => Model() == t && r.Ok? && Spec.RecordOf(t, eventId) == Some(r.value)
              case Raise(e) => r == Raise(e) && rows == old(rows) && originals == old(originals)
    {
      hide Laws.Valid, VerifyEnvelope, Spec.HasEvent, Spec.FindEvent, Spec.IsRecord, Spec.MakeRecord, Spec.Labelled, Spec.Names, Spec.RecordOf, RowsOf;
      ghost var t := Model();
      FinalizedValid(cr, t, eventId, peerSignature, peerKey);
      var index := Find(eventId);
      if index.None? {
        return Raise(Spec.EventNotFound);
      }
      var i := index.value;
      if !rows[i].pendingPeer {
        return Raise(Spec.NotPending);
      }
      var record := Loads(rows[i].recordJson).value;
      RowRecord(cr, t, i);
      var verdict := VerifyEnvelope(cr, Spec.ContentOf(record), peerSignature, peerKey);
      if verdict.Raise? {
        return Raise(Spec.CrossSignFailed);
      }
      var signatures := Spec.SignaturesOf(record);
      var signers := ExistingSigners(signatures);
      NamesMeans(signatures, peerSignature);
      if signers.None? || !Spec.Labelled(peerSignature) {
        return Raise(Spec.MalformedRecord);
      }
      if peerSignature.Get("signed_by") !in signers.value {
        record := Spec.MakeRecord(Spec.ContentOf(record), signatures + [peerSignature]);
      }
      var row := rows[i].(recordJson := StorageText(record), pendingPeer := false);
      StoredReloads(record);
      RowsUpdate(rows, originals, i, row);
      rows := rows[i := row];
      SettledRecord(cr, Model(), eventId, i);
      return Ok(record);
    }
  }
}
