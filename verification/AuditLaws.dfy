/** What every run of log operations keeps. */
module AuditLaws {
  import opened Wrappers
  import opened Text
  import opened Json
  import opened Python
  import opened Signing
  import opened AuditEvent
  import opened AuditTable

  // ---- The invariant ----

  ghost predicate DistinctIds(t: Table) {
    forall i, j | 0 <= i < j < |t| && t[i].eventId.Some? :: t[i].eventId != t[j].eventId
  }

  /** Each row was chained to the head of its time, over the record it was inserted with. */
  ghost predicate Linked(cr: Crypto, t: Table) {
    forall i | 0 <= i < |t| ::
      t[i].prevHash == LatestHash(t[..i]) && t[i].chainHash == ChainHash(cr, t[i].prevHash, t[i].original)
  }

  /** The stored content is an event's that SQLite takes, and the columns hold its fields, numbers as numerals. */
  ghost predicate Indexed(r: Row) {
    && IsRecord(r.record)
    && var e := FromContent(ContentOf(r.record));
    && e.Some? && Content(e.value) == ContentOf(r.record)
    && Storable(e.value) && r.eventId == KeyOf(e.value) && r.ts == e.value.ts && r.typ == TypeOf(e.value)
    && r.tokenJti == ColumnOf(e.value.tokenJti)
  }

  /** The record is the inserted one, extended by at most one signature, and only after the pending mark fell. */
  ghost predicate Commits(r: Row) {
    && IsRecord(r.original) && IsRecord(r.record)
    && ContentOf(r.record) == ContentOf(r.original)
    && var inserted, stored := SignaturesOf(r.original), SignaturesOf(r.record);
    && 1 <= |inserted| <= 2
    && inserted <= stored && |stored| <= |inserted| + 1
    && (r.pendingPeer ==> |inserted| == 1)
    && (r.pendingPeer || |inserted| == 2 ==> stored == inserted)
  }

  ghost predicate Valid(cr: Crypto, t: Table) {
    && DistinctIds(t)
    && Linked(cr, t)
    && (forall i | 0 <= i < |t| :: Indexed(t[i]) && Commits(t[i]))
  }

  // ---- The head depends on keys and hashes alone ----

  ghost predicate SameChain(t: Table, u: Table) {
    && |t| == |u|
    && (forall i | 0 <= i < |t| ::
          t[i].eventId == u[i].eventId && t[i].ts == u[i].ts && t[i].chainHash == u[i].chainHash
          && t[i].prevHash == u[i].prevHash && t[i].original == u[i].original)
  }

  lemma {:induction false} SameHead(t: Table, u: Table)
    requires SameChain(t, u)
    ensures LatestHash(t) == LatestHash(u)
    ensures t != [] ==> Newest(t) == Newest(u)
  {
    if |t| > 1 {
      SameHead(t[..|t| - 1], u[..|u| - 1]);
    }
  }

  // ---- The operations keep the invariant ----

  lemma MakeRecordShape(content: Json, signatures: seq<Json>)
    ensures var r := MakeRecord(content, signatures);
            IsRecord(r) && ContentOf(r) == content && SignaturesOf(r) == signatures
  {
    assert MakeRecord(content, signatures).members.Keys == {"content", "signatures"};
  }

  lemma NewRowFits(cr: Crypto, t: Table, event: AuditEvent, signatures: seq<Json>, pending: bool)
    requires Storable(event) && 1 <= |signatures| <= if pending then 1 else 2
    ensures var r := NewRow(cr, t, event, MakeRecord(Content(event), signatures), pending);
            Indexed(r) && Commits(r)
  {
    hide ChainHash, FromContent, Content, IsRecord, LatestHash, MakeRecord;
    MakeRecordShape(Content(event), signatures);
    FromContentOfContent(event);
  }

  lemma InsertLinked(cr: Crypto, t: Table, event: AuditEvent, record: Json, pending: bool)
    requires Linked(cr, t)
    ensures Linked(cr, t + [NewRow(cr, t, event, record, pending)])
  {
    hide ChainHash, LatestHash;
    var u := t + [NewRow(cr, t, event, record, pending)];
    forall i | 0 <= i < |u|
      ensures u[i].prevHash == LatestHash(u[..i]) && u[i].chainHash == ChainHash(cr, u[i].prevHash, u[i].original)
    {
      assert u[..i] == t[..i];
      assert t[..|t|] == t;
    }
  }

  lemma InsertValid(cr: Crypto, t: Table, event: AuditEvent, signatures: seq<Json>, pending: bool)
    requires Valid(cr, t) && 1 <= |signatures| <= if pending then 1 else 2
    requires Storable(event) && !Taken(t, event)
    ensures Valid(cr, t + [NewRow(cr, t, event, MakeRecord(Content(event), signatures), pending)])
  {
    hide ChainHash, LatestHash, Indexed, Commits, Linked, MakeRecord, Content;
    NewRowFits(cr, t, event, signatures, pending);
    InsertLinked(cr, t, event, MakeRecord(Content(event), signatures), pending);
  }

  /** A pending row settled with a peer signature. */
  ghost function SettledRow(r: Row, peerSignature: Json): Row
    requires IsRecord(r.record)
  {
    r.(record := AddSignature(r.record, peerSignature), pendingPeer := false)
  }

  lemma SettledRowFits(r: Row, peerSignature: Json)
    requires Indexed(r) && Commits(r) && r.pendingPeer
    ensures Indexed(SettledRow(r, peerSignature)) && Commits(SettledRow(r, peerSignature))
  {
    hide FromContent, AddSignature, Content;
  }

  lemma FinalizeShape(cr: Crypto, t: Table, eventId: string, peerSignature: Json, peerKey: PublicKey)
    requires Valid(cr, t) && FinalizePending(cr, t, eventId, peerSignature, peerKey).Ok?
    ensures HasEvent(t, eventId)
    ensures var u := FinalizePending(cr, t, eventId, peerSignature, peerKey).value;
            var i := FindEvent(t, eventId);
            && t[i].pendingPeer && IsRecord(t[i].record)
            && VerifyEnvelope(cr, ContentOf(t[i].record), peerSignature, peerKey).Ok?
            && u == t[i := SettledRow(t[i], peerSignature)]
            && SameChain(t, u) && Indexed(u[i]) && Commits(u[i])
  {
    hide VerifyEnvelope, FindEvent, AddSignature, Linked, Labelled, Indexed, Commits;
    SettledRowFits(t[FindEvent(t, eventId)], peerSignature);
  }

  lemma SameChainLinked(cr: Crypto, t: Table, u: Table)
    requires SameChain(t, u) && Linked(cr, t)
    ensures Linked(cr, u)
  {
    hide ChainHash, LatestHash, Newest;
    forall i | 0 <= i < |u|
      ensures u[i].prevHash == LatestHash(u[..i]) && u[i].chainHash == ChainHash(cr, u[i].prevHash, u[i].original)
    {
      SameHead(t[..i], u[..i]);
    }
  }

  lemma FinalizeValid(cr: Crypto, t: Table, eventId: string, peerSignature: Json, peerKey: PublicKey)
    requires Valid(cr, t) && FinalizePending(cr, t, eventId, peerSignature, peerKey).Ok?
    ensures Valid(cr, FinalizePending(cr, t, eventId, peerSignature, peerKey).value)
  {
    hide FinalizePending, FindEvent, Linked, Indexed, Commits, SettledRow;
    FinalizeShape(cr, t, eventId, peerSignature, peerKey);
    SameChainLinked(cr, t, FinalizePending(cr, t, eventId, peerSignature, peerKey).value);
  }

  lemma StepValid(cr: Crypto, t: Table, op: Op)
    requires Valid(cr, t)
    ensures Valid(cr, Step(cr, t, op))
  {
    hide Valid, NewRow, MakeRecord, VerifyEnvelope, Content, FinalizePending, SignOnly, HasEvent;
    if Apply(cr, t, op).Ok? {
      match op
      case Self(e, kp, signer) => InsertValid(cr, t, e, [SignOnly(cr, e, kp, signer)], false);
      case Pending(e, kp, signer) => InsertValid(cr, t, e, [SignOnly(cr, e, kp, signer)], true);
      case Finalized(e, kp, signer, sig, key) => InsertValid(cr, t, e, [SignOnly(cr, e, kp, signer), sig], false);
      case Finalize(id, sig, key) => FinalizeValid(cr, t, id, sig, key);
    }
  }

  /**
   In every reachable log the columns repeat the stored content, each row commits to the
   record it was inserted with, and that record is extended by at most one signature.
   */
  lemma {:induction false} RunValid(cr: Crypto, ops: seq<Op>)
    ensures Valid(cr, Run(cr, ops))
  {
    if ops != [] {
      hide Step;
      RunValid(cr, ops[..|ops| - 1]);
      StepValid(cr, Run(cr, ops[..|ops| - 1]), ops[|ops| - 1]);
    }
  }

  // ---- Rows are never removed and never change their content ----

  ghost predicate Grows(t: Table, u: Table) {
    && |t| <= |u|
    && (forall i | 0 <= i < |t| ::
          && IsRecord(t[i].record) && IsRecord(u[i].record)
          && ContentOf(u[i].record) == ContentOf(t[i].record)
          && u[i].original == t[i].original
          && SignaturesOf(t[i].record) <= SignaturesOf(u[i].record)
          && u[i].eventId == t[i].eventId && u[i].ts == t[i].ts && u[i].typ == t[i].typ && u[i].tokenJti == t[i].tokenJti)
  }

  lemma StepGrows(cr: Crypto, t: Table, op: Op)
    requires Valid(cr, t)
    ensures Grows(t, Step(cr, t, op))
  {
    hide MakeRecord, VerifyEnvelope, Content, SignOnly, HasEvent, Indexed, Linked, FindEvent, NewRow, FinalizePending;
    if Apply(cr, t, op).Ok? {
      match op
      case Finalize(id, sig, key) =>
        FinalizeShape(cr, t, id, sig, key);
      case _ =>
    }
  }

  // ---- Life cycle of an event ----

  datatype Phase = Absent | AwaitingPeer | Settled

  ghost function PhaseOf(t: Table, eventId: string): Phase {
    if !HasEvent(t, eventId) then Absent
    else if t[FindEvent(t, eventId)].pendingPeer then AwaitingPeer
    else Settled
  }

  lemma FindUnique(t: Table, eventId: string, i: nat)
    requires DistinctIds(t) && i < |t| && t[i].eventId == Some(eventId)
    ensures HasEvent(t, eventId) && FindEvent(t, eventId) == i
  {
    var j := FindEvent(t, eventId);
  }

  /** What one operation may do to one event: nothing, enter the log, or settle it; and what it does to the rest. */
  lemma StepPhase(cr: Crypto, t: Table, op: Op, eventId: string)
    requires Valid(cr, t)
    ensures var u := Step(cr, t, op);
            && (PhaseOf(u, eventId) == PhaseOf(t, eventId)
                || (PhaseOf(t, eventId) == Absent && op.Pending? && KeyOf(op.event) == Some(eventId) && PhaseOf(u, eventId) == AwaitingPeer)
                || (PhaseOf(t, eventId) == Absent && (op.Self? || op.Finalized?) && KeyOf(op.event) == Some(eventId)
                    && PhaseOf(u, eventId) == Settled)
                || (PhaseOf(t, eventId) == AwaitingPeer && op.Finalize? && op.eventId == eventId && PhaseOf(u, eventId) == Settled))
            && (Apply(cr, t, op).Ok? && op.Finalize? && op.eventId == eventId ==>
                  PhaseOf(t, eventId) == AwaitingPeer && PhaseOf(u, eventId) == Settled)
            && (Apply(cr, t, op).Raise? ==> u == t)
  {
    hide ChainHash, FromContent, VerifyEnvelope, Content, SignEnvelope, FindEvent, LatestHash;
    var u := Step(cr, t, op);
    StepValid(cr, t, op);
    if Apply(cr, t, op).Ok? {
      if op.Finalize? {
        FinalizeShape(cr, t, op.eventId, op.peerSignature, op.peerKey);
        if HasEvent(t, eventId) {
          FindUnique(u, eventId, FindEvent(t, eventId));
        }
        if HasEvent(u, eventId) {
          FindUnique(t, eventId, FindEvent(u, eventId));
        }
      } else {
        AppendPhase(cr, t, u, KeyOf(op.event), eventId);
      }
    }
  }

  lemma AppendPhase(cr: Crypto, t: Table, u: Table, added: Option<string>, eventId: string)
    requires DistinctIds(t) && DistinctIds(u) && |u| == |t| + 1 && u[..|t|] == t && u[|t|].eventId == added
    ensures PhaseOf(u, eventId) ==
            if added != Some(eventId) then PhaseOf(t, eventId)
            else if u[|t|].pendingPeer then AwaitingPeer else Settled
  {
    hide FindEvent;
    assert forall i | 0 <= i < |t| :: t[i] == u[i];
    if added == Some(eventId) {
      FindUnique(u, eventId, |t|);
    } else {
      if HasEvent(t, eventId) {
        FindUnique(u, eventId, FindEvent(t, eventId));
      }
      if HasEvent(u, eventId) {
        FindUnique(t, eventId, FindEvent(u, eventId));
      }
    }
  }

  /** Successful finalizations of one event in a run. */
  ghost function Finalizations(cr: Crypto, ops: seq<Op>, eventId: string): nat {
    if ops == [] then 0
    else
      var before, op := ops[..|ops| - 1], ops[|ops| - 1];
      Finalizations(cr, before, eventId)
      + if op.Finalize? && op.eventId == eventId && Apply(cr, Run(cr, before), op).Ok? then 1 else 0
  }

  /** An event is finalized at most once, and once finalized it is settled for good. */
  lemma {:induction false} FinalizedOnce(cr: Crypto, ops: seq<Op>, eventId: string)
    ensures Finalizations(cr, ops, eventId) <= 1
    ensures Finalizations(cr, ops, eventId) == 1 ==> PhaseOf(Run(cr, ops), eventId) == Settled
  {
    hide Step, Apply, PhaseOf;
    if ops != [] {
      var before, op := ops[..|ops| - 1], ops[|ops| - 1];
      FinalizedOnce(cr, before, eventId);
      RunValid(cr, before);
      StepPhase(cr, Run(cr, before), op, eventId);
    }
  }

  // ---- The count of pending rows ----

  lemma {:induction false} CountUpdate(t: Table, i: nat, r: Row)
    requires i < |t|
    ensures PendingPeerCount(t[i := r])
            == PendingPeerCount(t) - (if t[i].pendingPeer then 1 else 0) + (if r.pendingPeer then 1 else 0)
  {
    var u, n := t[i := r], |t| - 1;
    if i == n {
      assert u[..n] == t[..n];
    } else {
      assert u[..n] == t[..n][i := r];
      CountUpdate(t[..n], i, r);
    }
  }

  lemma CountAppend(t: Table, r: Row)
    ensures PendingPeerCount(t + [r]) == PendingPeerCount(t) + if r.pendingPeer then 1 else 0
  {
    assert (t + [r])[..|t|] == t;
  }

  /** Successful `append_pending` calls minus successful `finalize_pending` calls. */
  ghost function Balance(cr: Crypto, ops: seq<Op>): int {
    if ops == [] then 0
    else
      var before, op := ops[..|ops| - 1], ops[|ops| - 1];
      Balance(cr, before)
      + if Apply(cr, Run(cr, before), op).Raise? then 0
        else if op.Pending? then 1
        else if op.Finalize? then -1
        else 0
  }

  lemma {:induction false} PendingCountBalances(cr: Crypto, ops: seq<Op>)
    ensures PendingPeerCount(Run(cr, ops)) == Balance(cr, ops)
  {
    hide PendingPeerCount, VerifyEnvelope, Content, SignEnvelope, FindEvent;
    if ops == [] {
      CountEmpty();
    } else {
      var before, op := ops[..|ops| - 1], ops[|ops| - 1];
      var t := Run(cr, before);
      PendingCountBalances(cr, before);
      match Apply(cr, t, op)
      case Raise(_) =>
      case Ok(u) =>
        if op.Finalize? {
          var i := FindEvent(t, op.eventId);
          CountUpdate(t, i, u[i]);
          assert u == t[i := u[i]];
        } else {
          CountAppend(t, u[|t|]);
          assert u == t + [u[|t|]];
        }
    }
  }

  lemma CountEmpty()
    ensures PendingPeerCount([]) == 0
  {
  }

  // ---- The index answers for the records ----

  predicate IsUse(typ: string) {
    typ == "delegation.started" || typ == "delegation.completed"
  }

  /** `e["content"].get("token_jti") == jti` and a type that counts as use. */
  predicate UsesJti(record: Json, jti: Json) {
    match record.Get("content")
    case None => false
    case Some(content) =>
      Equal(GetOrNull(content, "token_jti"), jti) && content.GetText("type").Some? && IsUse(content.GetText("type").value)
  }

  /** The replay test as written: the indexed pre-filter, then the scan of all events. */
  predicate ReplayDetected(t: Table, jti: Json) {
    HasJti(t, jti) && exists i :: 0 <= i < |t| && UsesJti(t[i].record, jti)
  }

  /** The content is about this jti: the same text, or the same number however written; null is no jti. */
  ghost predicate Carries(content: Json, jti: Json) {
    match jti
    case JStr(s) => content.GetText("token_jti") == Some(s)
    case _ => NumberOf(jti).Some? && content.Get("token_jti").Some? && NumberOf(content.Get("token_jti").value) == NumberOf(jti)
  }

  ghost predicate UsedBy(r: Row, jti: Json) {
    IsUse(r.typ) && IsRecord(r.record) && Carries(ContentOf(r.record), jti)
  }

  ghost predicate JtiUsed(t: Table, jti: Json) {
    exists i :: 0 <= i < |t| && UsedBy(t[i], jti)
  }

  lemma UseColumn(typ: Json)
    requires ColumnOf(typ).Some?
    ensures IsUse(ColumnOf(typ).value) <==> typ.JStr? && IsUse(typ.s)
  {
    if NumberOf(typ).Some? {
      NumberColumn(typ);
      NumeralStart(NumberOf(typ).value);
    }
  }

  /** On a stored row the pre-filter and the scan together ask whether the row uses the jti. */
  lemma UsesJtiColumns(r: Row, jti: Json)
    requires Indexed(r)
    ensures UsedBy(r, jti) ==> MatchesJti(r.tokenJti, jti) && UsesJti(r.record, jti)
    ensures UsesJti(r.record, jti) && ColumnOf(jti).Some? ==> UsedBy(r, jti)
  {
    hide IntText;
    var e := FromContent(ContentOf(r.record)).value;
    var c := Content(e);
    assert r.record.Get("content") == Some(c);
    assert c.Get("type") == Some(e.typ) && c.Get("token_jti") == Some(e.tokenJti);
    UseColumn(e.typ);
    if NumberOf(jti).Some? {
      NumberColumn(jti);
    }
    if NumberOf(e.tokenJti).Some? {
      NumberColumn(e.tokenJti);
    }
  }

  /**
   On every reachable log the test decides exactly whether the jti was used: a text by a started
   or completed record with that text, a number by one with that number, written either way.
   */
  lemma ReplayExact(cr: Crypto, t: Table, jti: Json)
    requires Valid(cr, t)
    ensures ReplayDetected(t, jti) <==> JtiUsed(t, jti)
  {
    hide ChainHash, UsesJti, FromContent, UsedBy, MatchesJti, Linked, Commits;
    forall i | 0 <= i < |t|
      ensures UsedBy(t[i], jti) ==> MatchesJti(t[i].tokenJti, jti) && UsesJti(t[i].record, jti)
      ensures UsesJti(t[i].record, jti) && ColumnOf(jti).Some? ==> UsedBy(t[i], jti)
    {
      assert Indexed(t[i]);
      UsesJtiColumns(t[i], jti);
    }
    assert HasJti(t, jti) ==> ColumnOf(jti).Some? by { PreFilterColumn(t, jti); }
  }

  lemma PreFilterColumn(t: Table, jti: Json)
    ensures HasJti(t, jti) ==> ColumnOf(jti).Some?
  {
  }

  // ---- Order of `all_events` ----

  lemma BeforeTransitive(a: Row, b: Row, c: Row)
    ensures Before(a, b) && Before(b, c) ==> Before(a, c)
    ensures !Before(b, a) && !Before(c, b) ==> !Before(c, a)
    ensures !(Before(a, b) && Before(b, a))
  {
    var x, y, z := Key(a), Key(b), Key(c);
    LessOrder(x, y, z);
    LessOrder(z, y, x);
    LessOrder(y, x, z);
  }

  ghost function Key(r: Row): string {
    match r.eventId
    case None => ""
    case Some(id) => id
  }

  lemma LessOrder(a: string, b: string, c: string)
    ensures Less(a, b) && Less(b, c) ==> Less(a, c)
    ensures !(Less(a, b) && Less(b, a))
    ensures !Less(b, a) && !Less(c, b) ==> !Less(c, a)
  {
    if Less(a, b) && Less(b, c) {
      LessTransitive(a, b, c);
    }
    if Less(a, b) {
      LessAsymmetric(a, b);
    }
    LessTotal(a, b);
    LessTotal(b, c);
    if Less(c, a) {
      if Less(a, b) {
        LessTransitive(c, a, b);
      }
      if Less(b, c) {
        LessTransitive(b, c, a);
      }
    }
  }

  /** No row has a key above the head's, and later rows have keys below it. */
  lemma {:induction false} NewestIsGreatest(t: Table)
    requires t != []
    ensures forall i | 0 <= i < |t| :: !Before(t[Newest(t)], t[i])
    ensures forall i | Newest(t) < i < |t| :: Before(t[i], t[Newest(t)])
  {
    hide Before;
    var n := |t| - 1;
    BeforeTransitive(t[n], t[n], t[n]);
    if n > 0 {
      var before := t[..n];
      NewestIsGreatest(before);
      var m := Newest(before);
      forall i | 0 <= i < |t|
        ensures !Before(t[Newest(t)], t[i]) && (i > Newest(t) ==> Before(t[i], t[Newest(t)]))
      {
        assert i < n ==> before[i] == t[i];
        BeforeTransitive(t[i], t[m], t[n]);
        BeforeTransitive(t[n], t[m], t[i]);
      }
    }
  }

  ghost predicate Ascending(t: Table) {
    forall i, j | 0 <= i < j < |t| :: !Before(t[j], t[i])
  }

  lemma PrependAscending(r: Row, rest: Table)
    requires Ascending(rest) && forall x | x in rest :: !Before(x, r)
    ensures Ascending([r] + rest)
  {
    hide Before;
    var s := [r] + rest;
    forall i, j | 0 <= i < j < |s|
      ensures !Before(s[j], s[i])
    {
      assert s[j] == rest[j - 1] && s[j] in rest;
      if i > 0 {
        assert s[i] == rest[i - 1];
      }
    }
  }

  lemma InsertMembers(r: Row, sorted: Table)
    ensures forall x :: x in InsertByKey(r, sorted) <==> x == r || x in sorted
  {
    var s := InsertByKey(r, sorted);
    assert forall x :: x in s <==> x in multiset(s);
  }

  lemma {:induction false} InsertAscending(r: Row, sorted: Table)
    requires Ascending(sorted)
    ensures Ascending(InsertByKey(r, sorted))
  {
    hide Before;
    if sorted != [] {
      forall x | x in sorted[1..]
        ensures !Before(x, sorted[0])
      {
        var k :| 0 <= k < |sorted[1..]| && sorted[1..][k] == x;
        assert sorted[k + 1] == x;
      }
      if Before(r, sorted[0]) {
        forall x | x in sorted
          ensures !Before(x, r)
        {
          assert x == sorted[0] || x in sorted[1..];
          BeforeTransitive(r, sorted[0], x);
          BeforeTransitive(x, r, sorted[0]);
        }
        PrependAscending(r, sorted);
      } else {
        InsertAscending(r, sorted[1..]);
        InsertMembers(r, sorted[1..]);
        PrependAscending(sorted[0], InsertByKey(r, sorted[1..]));
      }
    }
  }

  lemma {:induction false} SortAscending(t: Table)
    ensures Ascending(SortByKey(t))
    ensures forall x :: x in SortByKey(t) <==> x in t
  {
    hide Before, InsertByKey;
    if t != [] {
      var before, last := t[..|t| - 1], t[|t| - 1];
      SortAscending(before);
      InsertAscending(last, SortByKey(before));
      InsertMembers(last, SortByKey(before));
      assert t == before + [last];
    }
  }

  /** A row inserted in order becomes the last unless the last one has a key above it. */
  lemma {:induction false} InsertLast(r: Row, sorted: Table)
    requires sorted != [] && Ascending(sorted)
    ensures var s := InsertByKey(r, sorted);
            s != [] && s[|s| - 1] == if Before(r, sorted[|sorted| - 1]) then sorted[|sorted| - 1] else r
  {
    hide Before;
    var last := sorted[|sorted| - 1];
    if !Before(r, sorted[0]) {
      if |sorted| > 1 {
        InsertLast(r, sorted[1..]);
      }
    } else {
      BeforeTransitive(last, last, last);
      BeforeTransitive(sorted[0], last, r);
    }
  }

  /** `all_events` lists every row once, in ascending key order, and ends in the chain head. */
  lemma {:induction false} HeadIsLastEvent(t: Table)
    requires t != []
    ensures var s := SortByKey(t);
            && s != [] && Ascending(s) && multiset(s) == multiset(t)
            && s[|s| - 1] == t[Newest(t)] && LatestHash(t) == s[|s| - 1].chainHash
  {
    hide Before, InsertByKey;
    SortAscending(t);
    var n := |t| - 1;
    if n == 0 {
      SortOne(t[0]);
      assert t == [t[0]];
    } else {
      HeadIsLastEvent(t[..n]);
      SortAscending(t[..n]);
      InsertLast(t[n], SortByKey(t[..n]));
    }
  }

  /** In plain terms: the head is the latest row and, among those, the one with the greatest id; the listing runs forward in time. */
  lemma HeadInTime(t: Table)
    requires t != []
    ensures var head := t[Newest(t)];
            && (forall i | 0 <= i < |t| :: t[i].ts <= head.ts)
            && (forall i | 0 <= i < |t| && t[i].ts == head.ts && t[i].eventId.Some? ::
                  head.eventId.Some? && AtMost(t[i].eventId.value, head.eventId.value))
            && |SortByKey(t)| == |t|
            && forall i, j | 0 <= i < j < |t| :: SortByKey(t)[i].ts <= SortByKey(t)[j].ts
  {
    hide Less, Newest, SortByKey;
    NewestIsGreatest(t);
    HeadIsLastEvent(t);
    SameLength(t);
    var head := t[Newest(t)];
    forall i | 0 <= i < |t| && t[i].ts == head.ts && t[i].eventId.Some?
      ensures head.eventId.Some? && AtMost(t[i].eventId.value, head.eventId.value)
    {
      assert !Before(head, t[i]);
      if head.eventId.Some? {
        LessTotal(t[i].eventId.value, head.eventId.value);
      }
    }
  }

  lemma SameLength(t: Table)
    ensures |SortByKey(t)| == |t|
  {
    assert |multiset(SortByKey(t))| == |multiset(t)|;
  }

  lemma SortOne(r: Row)
    ensures SortByKey([r]) == [r]
  {
    assert [r][..0] == [];
  }

  // ---- Verification by a third party ----

  ghost predicate LabelFits(signature: Json, key: PublicKey, keys: map<string, PublicKey>) {
    var signer := signature.GetText("signed_by");
    signer.Some? && signer.value in keys && keys[signer.value] == key
  }

  ghost function EventOf(op: Op): Option<string> {
    if op.Finalize? then Some(op.eventId) else KeyOf(op.event)
  }

  /**
   The key map sends the labels the operation put on a row to the keys they stand for: its own
   label, and the peer's if the row ends up with the peer's signature.
   */
  ghost predicate KeysFit(cr: Crypto, op: Op, keys: map<string, PublicKey>, stored: seq<Json>) {
    && (!op.Finalize? ==> op.signer in keys && keys[op.signer] == op.kp.Public(cr))
    && ((op.Finalized? || op.Finalize?) && op.peerSignature in stored ==> LabelFits(op.peerSignature, op.peerKey, keys))
  }

  /** The labels fit in the operations that wrote this event's row; what was refused does not matter. */
  ghost predicate WritersFit(cr: Crypto, ops: seq<Op>, keys: map<string, PublicKey>, eventId: Option<string>, stored: seq<Json>) {
    forall k | 0 <= k < |ops| && EventOf(ops[k]) == eventId && Apply(cr, Run(cr, ops[..k]), ops[k]).Ok? ::
      KeysFit(cr, ops[k], keys, stored)
  }

  ghost predicate Accepts(cr: Crypto, content: Json, signature: Json, keys: map<string, PublicKey>) {
    var signer := signature.GetText("signed_by");
    signer.Some? && signer.value in keys && VerifyEnvelope(cr, content, signature, keys[signer.value]).Ok?
  }

  /** All signatures hold for the content, and the first one for no other. */
  ghost predicate Vouched(cr: Crypto, content: Json, signatures: seq<Json>, keys: map<string, PublicKey>) {
    && signatures != []
    && (forall s | s in signatures :: Accepts(cr, content, s, keys))
    && (forall other :: Accepts(cr, other, signatures[0], keys) ==> other == content)
  }

  lemma {:induction false} VerifySignaturesMeans(cr: Crypto, content: Json, signatures: seq<Json>, keys: map<string, PublicKey>)
    ensures VerifySignatures(cr, content, signatures, keys).Ok? <==> forall s | s in signatures :: Accepts(cr, content, s, keys)
  {
    hide VerifyEnvelope;
    if signatures != [] {
      VerifySignaturesMeans(cr, content, signatures[1..], keys);
      assert signatures == [signatures[0]] + signatures[1..];
      assert signatures[0] in signatures;
    }
  }

  /** A record that carries no signatures passes under every key map: there is nothing to check. */
  lemma UnsignedPasses(cr: Crypto, record: Json, keys: map<string, PublicKey>)
    requires record.Get("content").Some? && (record.Get("signatures").None? || record.Get("signatures") == Some(JArr([])))
    ensures VerifyRecordSignatures(cr, record, keys).Ok?
  {
  }

  /** The first signature that does not hold decides, by an unknown signer or by failing under the signer's key. */
  lemma {:induction false} FirstFailure(cr: Crypto, content: Json, signatures: seq<Json>, keys: map<string, PublicKey>, i: nat)
    requires i < |signatures| && (forall k | 0 <= k < i :: Accepts(cr, content, signatures[k], keys))
    requires !Accepts(cr, content, signatures[i], keys)
    ensures var signer := signatures[i].GetText("signed_by");
            VerifySignatures(cr, content, signatures, keys)
            == Raise(if signer.Some? && signer.value in keys then SignatureRejected else NoKeyForSigner)
  {
    hide VerifyEnvelope;
    if i > 0 {
      assert Accepts(cr, content, signatures[0], keys);
      FirstFailure(cr, content, signatures[1..], keys, i - 1);
    }
  }

  lemma OwnSignatureVouches(cr: Crypto, event: AuditEvent, kp: KeyPair, signer: string, keys: map<string, PublicKey>)
    requires IdealSignatures(cr) && signer in keys && keys[signer] == kp.Public(cr)
    ensures forall c :: Accepts(cr, c, SignOnly(cr, event, kp, signer), keys) <==> c == Content(event)
  {
    hide VerifyEnvelope, Content, IdealSignatures;
    assert SignOnly(cr, event, kp, signer).GetText("signed_by") == Some(signer);
    forall c
      ensures Accepts(cr, c, SignOnly(cr, event, kp, signer), keys) <==> c == Content(event)
    {
      EnvelopeExact(cr, Content(event), kp, signer, c, kp.Public(cr));
    }
  }

  lemma NewRecordVouched(cr: Crypto, event: AuditEvent, kp: KeyPair, signer: string, extra: seq<Json>, keys: map<string, PublicKey>)
    requires IdealSignatures(cr) && signer in keys && keys[signer] == kp.Public(cr)
    requires forall s | s in extra :: Accepts(cr, Content(event), s, keys)
    ensures var r := MakeRecord(Content(event), [SignOnly(cr, event, kp, signer)] + extra);
            IsRecord(r) && Vouched(cr, ContentOf(r), SignaturesOf(r), keys)
  {
    hide Accepts, Content, IdealSignatures, SignOnly, MakeRecord, IsRecord;
    OwnSignatureVouches(cr, event, kp, signer, keys);
    MakeRecordShape(Content(event), [SignOnly(cr, event, kp, signer)] + extra);
  }

  ghost function SignaturesIn(record: Json): seq<Json> {
    if IsRecord(record) then SignaturesOf(record) else []
  }

  /** The event's row, if its signatures are among those stored in the end, is vouched for. */
  ghost predicate RowVouched(cr: Crypto, t: Table, keys: map<string, PublicKey>, eventId: Option<string>, stored: seq<Json>) {
    forall i | 0 <= i < |t| && t[i].eventId == eventId && IsRecord(t[i].record) && SignaturesOf(t[i].record) <= stored ::
      Vouched(cr, ContentOf(t[i].record), SignaturesOf(t[i].record), keys)
  }

  lemma AppendVouches(cr: Crypto, t: Table, op: Op, keys: map<string, PublicKey>, eventId: Option<string>, stored: seq<Json>)
    requires IdealSignatures(cr) && !op.Finalize? && Apply(cr, t, op).Ok?
    requires EventOf(op) == eventId ==> KeysFit(cr, op, keys, stored)
    requires RowVouched(cr, t, keys, eventId, stored)
    ensures RowVouched(cr, Step(cr, t, op), keys, eventId, stored)
  {
    hide VerifyEnvelope, Content, IdealSignatures, SignOnly, MakeRecord, IsRecord, Vouched, HasEvent, LatestHash, ChainHash;
    if EventOf(op) == eventId {
      var own := SignOnly(cr, op.event, op.kp, op.signer);
      var extra := if op.Finalized? then [op.peerSignature] else [];
      assert [own] + extra == if op.Finalized? then [own, op.peerSignature] else [own];
      MakeRecordShape(Content(op.event), [own] + extra);
      if [own] + extra <= stored {
        assert op.Finalized? ==> stored[1] == op.peerSignature;
        NewRecordVouched(cr, op.event, op.kp, op.signer, extra, keys);
      }
    }
  }

  lemma FinalizeVouches(cr: Crypto, t: Table, op: Op, keys: map<string, PublicKey>, eventId: Option<string>, stored: seq<Json>)
    requires Valid(cr, t) && op.Finalize? && Apply(cr, t, op).Ok?
    requires EventOf(op) == eventId ==> KeysFit(cr, op, keys, stored)
    requires RowVouched(cr, t, keys, eventId, stored)
    ensures RowVouched(cr, Step(cr, t, op), keys, eventId, stored)
  {
    hide VerifyEnvelope, FindEvent, Linked, Indexed, Commits, FinalizePending, IsRecord, Vouched, Labelled, Names, HasEvent;
    FinalizeShape(cr, t, op.eventId, op.peerSignature, op.peerKey);
    var i := FindEvent(t, op.eventId);
    var r := SettledRow(t[i], op.peerSignature);
    if t[i].eventId == eventId && SignaturesOf(r.record) <= stored {
      var before := SignaturesOf(t[i].record);
      assert before <= stored;
      if SignaturesOf(r.record) != before {
        assert stored[|before|] == op.peerSignature;
        ExtendVouched(cr, ContentOf(t[i].record), before, op.peerSignature, keys);
      }
    }
  }

  lemma ExtendVouched(cr: Crypto, content: Json, signatures: seq<Json>, more: Json, keys: map<string, PublicKey>)
    requires Vouched(cr, content, signatures, keys) && Accepts(cr, content, more, keys)
    ensures Vouched(cr, content, signatures + [more], keys)
  {
    hide Accepts;
  }

  lemma {:induction false} RunVouches(cr: Crypto, ops: seq<Op>, keys: map<string, PublicKey>, eventId: Option<string>, stored: seq<Json>)
    requires IdealSignatures(cr) && WritersFit(cr, ops, keys, eventId, stored)
    ensures RowVouched(cr, Run(cr, ops), keys, eventId, stored)
  {
    hide Step, RowVouched, IdealSignatures, Valid, Apply, KeysFit;
    if ops == [] {
      NothingVouched(cr, keys, eventId, stored);
    } else {
      var before, op := ops[..|ops| - 1], ops[|ops| - 1];
      assert forall k | 0 <= k < |before| :: before[..k] == ops[..k];
      RunVouches(cr, before, keys, eventId, stored);
      RunValid(cr, before);
      StepVouches(cr, Run(cr, before), op, keys, eventId, stored);
    }
  }

  lemma NothingVouched(cr: Crypto, keys: map<string, PublicKey>, eventId: Option<string>, stored: seq<Json>)
    ensures RowVouched(cr, [], keys, eventId, stored)
  {
  }

  lemma StepVouches(cr: Crypto, t: Table, op: Op, keys: map<string, PublicKey>, eventId: Option<string>, stored: seq<Json>)
    requires IdealSignatures(cr) && Valid(cr, t) && RowVouched(cr, t, keys, eventId, stored)
    requires EventOf(op) == eventId && Apply(cr, t, op).Ok? ==> KeysFit(cr, op, keys, stored)
    ensures RowVouched(cr, Step(cr, t, op), keys, eventId, stored)
  {
    hide IdealSignatures, Valid, RowVouched, Apply, KeysFit;
    if Apply(cr, t, op).Ok? {
      if op.Finalize? {
        FinalizeVouches(cr, t, op, keys, eventId, stored);
      } else {
        AppendVouches(cr, t, op, keys, eventId, stored);
      }
    }
  }

  /**
   After any run a stored record passes third-party verification, and the same signatures over
   any other content fail it, under every key map that fits the labels on that record.
   */
  lemma ThirdPartyExact(cr: Crypto, ops: seq<Op>, keys: map<string, PublicKey>, i: nat, content: Json)
    requires IdealSignatures(cr) && i < |Run(cr, ops)|
    requires WritersFit(cr, ops, keys, Run(cr, ops)[i].eventId, SignaturesIn(Run(cr, ops)[i].record))
    ensures var record := Run(cr, ops)[i].record;
            && IsRecord(record)
            && (VerifyRecordSignatures(cr, MakeRecord(content, SignaturesOf(record)), keys).Ok? <==> content == ContentOf(record))
  {
    hide VerifyEnvelope, IdealSignatures, Run, Accepts, WritersFit, Linked, Indexed;
    RunValid(cr, ops);
    var record := Run(cr, ops)[i].record;
    assert Commits(Run(cr, ops)[i]);
    var signatures := SignaturesOf(record);
    RunVouches(cr, ops, keys, Run(cr, ops)[i].eventId, signatures);
    VerifySignaturesMeans(cr, content, signatures, keys);
    assert Vouched(cr, ContentOf(record), signatures, keys);
    assert signatures[0] in signatures;
  }

  /**
   A label is not among the signed bytes: the log takes a peer signature whatever its label says,
   and the record then verifies exactly under key maps that send that label to the peer's key.
   */
  lemma LabelDecides(cr: Crypto, t: Table, event: AuditEvent, kp: KeyPair, signer: string, peer: KeyPair, written: string,
                     keys: map<string, PublicKey>)
    requires IdealSignatures(cr) && Storable(event) && !Taken(t, event) && signer in keys && keys[signer] == kp.Public(cr)
    ensures var own, other := SignOnly(cr, event, kp, signer), SignEnvelope(cr, Content(event), peer, written);
            var u := AppendFinalized(cr, t, event, own, other, peer.Public(cr));
            && u.Ok? && |u.value| == |t| + 1
            && (VerifyRecordSignatures(cr, u.value[|t|].record, keys).Ok?
                <==> written in keys && keys[written] == peer.Public(cr))
  {
    hide VerifyEnvelope, IdealSignatures, Content, MakeRecord, HasEvent, LatestHash, ChainHash, VerifySignatures, CanonicalJson;
    var content := Content(event);
    var own, other := SignOnly(cr, event, kp, signer), SignEnvelope(cr, content, peer, written);
    MakeRecordShape(content, [own, other]);
    VerifySignaturesMeans(cr, content, [own, other], keys);
    OwnSignatureVouches(cr, event, kp, signer, keys);
    EnvelopeExact(cr, content, peer, written, content, peer.Public(cr));
    if written in keys {
      EnvelopeExact(cr, content, peer, written, content, keys[written]);
    }
    assert other.GetText("signed_by") == Some(written);
    assert Accepts(cr, content, other, keys) <==> written in keys && keys[written] == peer.Public(cr);
    assert own in [own, other] && other in [own, other];
    var record := MakeRecord(content, [own, other]);
    assert record.Get("content") == Some(content) && record.Get("signatures") == Some(JArr([own, other]));
    assert VerifyRecordSignatures(cr, record, keys) == VerifySignatures(cr, content, [own, other], keys);
    assert AppendFinalized(cr, t, event, own, other, peer.Public(cr)) == Ok(t + [NewRow(cr, t, event, record, false)]);
  }

  // ---- Settling twice ----

  /** A finalized event cannot be finalized again, by any signature under any key. */
  lemma FinalizeTwice(cr: Crypto, t: Table, eventId: string, peerSignature: Json, peerKey: PublicKey,
                      peerSignature': Json, peerKey': PublicKey)
    requires Valid(cr, t) && FinalizePending(cr, t, eventId, peerSignature, peerKey).Ok?
    ensures FinalizePending(cr, FinalizePending(cr, t, eventId, peerSignature, peerKey).value, eventId, peerSignature', peerKey')
            == Raise(NotPending)
  {
    hide VerifyEnvelope, FindEvent, Linked, Indexed, Commits, AddSignature, Labelled;
    FinalizeValid(cr, t, eventId, peerSignature, peerKey);
    FinalizeShape(cr, t, eventId, peerSignature, peerKey);
    FindUnique(FinalizePending(cr, t, eventId, peerSignature, peerKey).value, eventId, FindEvent(t, eventId));
  }
}
