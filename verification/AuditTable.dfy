/**
 The audit log as a value: the rows in the order they were inserted, and what each
 operation of `AuditLog` does to them. A row here holds its record as a JSON value and
 remembers, for the statements only, the record it was first inserted with. A NULL key is None.
 */
module AuditTable {
  import opened Wrappers
  import opened Text
  import opened Json
  import opened Python
  import opened Utf8
  import opened Signing
  import opened AuditEvent

  function GenesisHash(): string {
    "sha256:" + Zeros()
  }

  lemma GenesisText()
    ensures |GenesisHash()| == 71 && GenesisHash()[..7] == "sha256:" && forall i | 7 <= i < 71 :: GenesisHash()[i] == '0'
  {
  }

  datatype Row = Row(
    eventId: Option<string>, ts: int, typ: string, tokenJti: Option<string>,
    prevHash: string, record: Json, chainHash: string, pendingPeer: bool,
    original: Json)

  type Table = seq<Row>

  datatype AuditError = EventNotFound | NotPending | CrossSignFailed | DuplicateEvent | MalformedRecord | NotStorable

  // ---- Records ----

  function MakeRecord(content: Json, signatures: seq<Json>): Json {
    JObj(map["content" := content, "signatures" := JArr(signatures)])
  }

  predicate IsRecord(r: Json) {
    r.JObj? && r.members.Keys == {"content", "signatures"} && r.members["signatures"].JArr?
  }

  function ContentOf(r: Json): Json
    requires IsRecord(r)
  {
    r.members["content"]
  }

  function SignaturesOf(r: Json): seq<Json>
    requires IsRecord(r)
  {
    r.members["signatures"].items
  }

  // ---- Order, head and hash ----

  /** NULL sorts before every text. */
  predicate IdBefore(a: Option<string>, b: Option<string>) {
    b.Some? && (a.None? || Less(a.value, b.value))
  }

  /** `ORDER BY ts, event_id`. */
  predicate KeyBefore(ts: int, eventId: Option<string>, ts': int, eventId': Option<string>) {
    ts < ts' || (ts == ts' && IdBefore(eventId, eventId'))
  }

  predicate Before(a: Row, b: Row) {
    KeyBefore(a.ts, a.eventId, b.ts, b.eventId)
  }

  /** The row that `ORDER BY ts DESC, event_id DESC LIMIT 1` picks; of rows with NULL keys the later one. */
  function Newest(t: Table): (i: nat)
    requires t != []
    ensures i < |t|
  {
    var n := |t| - 1;
    if n == 0 then 0
    else
      var i := Newest(t[..n]);
      if Before(t[n], t[i]) then i else n
  }

  function LatestHash(t: Table): string {
    if t == [] then GenesisHash() else t[Newest(t)].chainHash
  }

  function ChainHash(cr: Crypto, prev: string, record: Json): string {
    "sha256:" + cr.sha256(Encode(prev) + [10] + CanonicalJson(record))
  }

  // ---- Operations ----

  predicate HasEvent(t: Table, eventId: string) {
    exists i :: 0 <= i < |t| && t[i].eventId == Some(eventId)
  }

  /** The primary key of the event is taken; NULL never is. */
  predicate Taken(t: Table, event: AuditEvent) {
    KeyOf(event).Some? && HasEvent(t, KeyOf(event).value)
  }

  function FindEvent(t: Table, eventId: string): (i: nat)
    requires HasEvent(t, eventId)
    ensures i < |t| && t[i].eventId == Some(eventId)
  {
    if t[0].eventId == Some(eventId) then 0
    else
      assert forall i | 1 <= i < |t| :: t[i] == t[1..][i - 1];
      1 + FindEvent(t[1..], eventId)
  }

  /** `get`. */
  function RecordOf(t: Table, eventId: string): Option<Json> {
    if HasEvent(t, eventId) then Some(t[FindEvent(t, eventId)].record) else None
  }

  function NewRow(cr: Crypto, t: Table, event: AuditEvent, record: Json, pending: bool): Row {
    var prev := LatestHash(t);
    Row(KeyOf(event), event.ts, TypeOf(event), ColumnOf(event.tokenJti), prev, record, ChainHash(cr, prev, record), pending, record)
  }

  /** `_insert`; a parameter may not bind, and the primary key turns a repeated event id away. */
  function Insert(cr: Crypto, t: Table, event: AuditEvent, record: Json, pending: bool): Result<Table, AuditError> {
    if !Storable(event) then Raise(NotStorable)
    else if Taken(t, event) then Raise(DuplicateEvent)
    else Ok(t + [NewRow(cr, t, event, record, pending)])
  }

  function SignOnly(cr: Crypto, event: AuditEvent, kp: KeyPair, signer: string): Json {
    SignEnvelope(cr, Content(event), kp, signer)
  }

  function AppendSelf(cr: Crypto, t: Table, event: AuditEvent, kp: KeyPair, signer: string): Result<Table, AuditError> {
    Insert(cr, t, event, MakeRecord(Content(event), [SignOnly(cr, event, kp, signer)]), false)
  }

  function AppendPending(cr: Crypto, t: Table, event: AuditEvent, mySignature: Json): Result<Table, AuditError> {
    Insert(cr, t, event, MakeRecord(Content(event), [mySignature]), true)
  }

  function AppendFinalized(cr: Crypto, t: Table, event: AuditEvent, mySignature: Json,
                           peerSignature: Json, peerKey: PublicKey): Result<Table, AuditError>
  {
    if VerifyEnvelope(cr, Content(event), peerSignature, peerKey).Raise? then Raise(CrossSignFailed)
    else Insert(cr, t, event, MakeRecord(Content(event), [mySignature, peerSignature]), false)
  }

  /** `s["signed_by"]` of every signature, usable as members of a Python set. */
  predicate Labelled(signature: Json) {
    var signer := signature.Get("signed_by");
    signer.Some? && !signer.value.JArr? && !signer.value.JObj?
  }

  predicate Names(signatures: seq<Json>, peerSignature: Json) {
    exists i :: 0 <= i < |signatures| && signatures[i].Get("signed_by") == peerSignature.Get("signed_by")
  }

  function AddSignature(record: Json, peerSignature: Json): (r: Json)
    requires IsRecord(record)
    ensures IsRecord(r) && ContentOf(r) == ContentOf(record)
    ensures SignaturesOf(r) == if Names(SignaturesOf(record), peerSignature) then SignaturesOf(record)
                               else SignaturesOf(record) + [peerSignature]
  {
    if Names(SignaturesOf(record), peerSignature) then record
    else
      var r := MakeRecord(ContentOf(record), SignaturesOf(record) + [peerSignature]);
      assert r.members.Keys == {"content", "signatures"};
      r
  }

  function FinalizePending(cr: Crypto, t: Table, eventId: string, peerSignature: Json, peerKey: PublicKey): Result<Table, AuditError> {
    if !HasEvent(t, eventId) then Raise(EventNotFound)
    else
      var i := FindEvent(t, eventId);
      if !t[i].pendingPeer then Raise(NotPending)
      else if !IsRecord(t[i].record) then Raise(MalformedRecord)
      else if VerifyEnvelope(cr, ContentOf(t[i].record), peerSignature, peerKey).Raise? then Raise(CrossSignFailed)
      else if !Labelled(peerSignature) || exists k :: 0 <= k < |SignaturesOf(t[i].record)| && !Labelled(SignaturesOf(t[i].record)[k]) then
        Raise(MalformedRecord)
      else Ok(t[i := t[i].(record := AddSignature(t[i].record, peerSignature), pendingPeer := false)])
  }

  // ---- Queries ----

  /** `token_jti = ?`: the column has TEXT affinity, so a number is looked up by its numeral. */
  predicate MatchesJti(column: Option<string>, jti: Json) {
    column.Some? && ColumnOf(jti) == column
  }

  predicate HasJti(t: Table, jti: Json) {
    exists i :: 0 <= i < |t| && MatchesJti(t[i].tokenJti, jti)
  }

  function InsertByKey(r: Row, sorted: Table): (s: Table)
    ensures multiset(s) == multiset(sorted) + multiset{r}
  {
    if sorted == [] then [r]
    else if Before(r, sorted[0]) then [r] + sorted
    else
      assert sorted == [sorted[0]] + sorted[1..];
      [sorted[0]] + InsertByKey(r, sorted[1..])
  }

  /** The rows in the order of `all_events`: ascending by timestamp, then event id. */
  function SortByKey(t: Table): (s: Table)
    ensures multiset(s) == multiset(t)
  {
    if t == [] then []
    else
      assert t == t[..|t| - 1] + [t[|t| - 1]];
      InsertByKey(t[|t| - 1], SortByKey(t[..|t| - 1]))
  }

  function Records(t: Table): (rs: seq<Json>)
    ensures |rs| == |t| && forall i | 0 <= i < |t| :: rs[i] == t[i].record
  {
    seq(|t|, i requires 0 <= i < |t| => t[i].record)
  }

  function PendingPeerCount(t: Table): nat {
    if t == [] then 0
    else PendingPeerCount(t[..|t| - 1]) + if t[|t| - 1].pendingPeer then 1 else 0
  }

  // ---- Third-party verification ----

  datatype RecordError = NoKeyForSigner | SignatureRejected | NotARecord

  function VerifySignatures(cr: Crypto, content: Json, signatures: seq<Json>, keys: map<string, PublicKey>): Result<(), RecordError> {
    if signatures == [] then Ok(())
    else
      match signatures[0].GetText("signed_by")
      case None => Raise(NoKeyForSigner)
      case Some(signer) =>
        if signer !in keys then Raise(NoKeyForSigner)
        else if VerifyEnvelope(cr, content, signatures[0], keys[signer]).Raise? then Raise(SignatureRejected)
        else VerifySignatures(cr, content, signatures[1..], keys)
  }

  function VerifyRecordSignatures(cr: Crypto, record: Json, keys: map<string, PublicKey>): Result<(), RecordError> {
    match (record.Get("content"), record.Get("signatures"))
    case (Some(content), None) => Ok(())
    case (Some(content), Some(JArr(signatures))) => VerifySignatures(cr, content, signatures, keys)
    case _ => Raise(NotARecord)
  }

  // ---- Runs of operations ----

  datatype Op =
    | Self(event: AuditEvent, kp: KeyPair, signer: string)
    | Pending(event: AuditEvent, kp: KeyPair, signer: string)
    | Finalized(event: AuditEvent, kp: KeyPair, signer: string, peerSignature: Json, peerKey: PublicKey)
    | Finalize(eventId: string, peerSignature: Json, peerKey: PublicKey)

  function Apply(cr: Crypto, t: Table, op: Op): Result<Table, AuditError> {
    match op
    case Self(event, kp, signer) => AppendSelf(cr, t, event, kp, signer)
    case Pending(event, kp, signer) => AppendPending(cr, t, event, SignOnly(cr, event, kp, signer))
    case Finalized(event, kp, signer, peerSignature, peerKey) =>
      AppendFinalized(cr, t, event, SignOnly(cr, event, kp, signer), peerSignature, peerKey)
    case Finalize(eventId, peerSignature, peerKey) => FinalizePending(cr, t, eventId, peerSignature, peerKey)
  }

  /** A raising operation commits nothing. */
  function Step(cr: Crypto, t: Table, op: Op): Table {
    match Apply(cr, t, op)
    case Ok(u) => u
    case Raise(_) => t
  }

  function Run(cr: Crypto, ops: seq<Op>): Table {
    if ops == [] then [] else Step(cr, Run(cr, ops[..|ops| - 1]), ops[|ops| - 1])
  }
}
