/**
 What a settled row proves on the hostile network, where answers and cosigns may be recombined:
 the cosigner holds the event, and the two rows carry the same signers exactly when the cosigner
 took it under the delegatee's key.
 */
module Settlement {
  import opened Wrappers
  import opened Json
  import opened Signing
  import opened AuditEvent
  import opened AuditTable
  import opened AuditLaws
  import opened Node
  import opened NodeLaws
  import opened Network
  import opened NetworkLaws
  import opened Agreement
  import opened Cosigning
  import Outcome

  // ---- How rows come to be signed ----

  ghost function OwnSignature(cr: Crypto, n: Node, content: Json): Json {
    SignEnvelope(cr, content, n.kp, n.id)
  }

  /** An own row starts under the agent's signature, a received one under it and the one received. */
  lemma StepSigns(cr: Crypto, n: Node, step: NodeStep)
    requires NodeValid(cr, n)
    ensures var u := Next(cr, n, step).0.log;
            RowAdded(cr, n, step, u) ==>
              var r := u[|n.log|];
              && r.record == r.original
              && SignaturesOf(r.record) == if OwnRow(r) then [OwnSignature(cr, n, ContentOf(r.record))]
                                           else [OwnSignature(cr, n, ContentOf(r.record)), step.response.signature]
  {
    hide Next, Valid, Matched, Counted, AtMostOnce, Content, SignEnvelope, VerifyEnvelope, FinalizePending, LatestHash, ChainHash,
         MakeRecord, IsRecord, FromContent, HasEvent;
    NextEffect(cr, n, step);
    var t, u := n.log, Next(cr, n, step).0.log;
    if u != t {
      var op :| u == Step(cr, t, op) && OpOf(n, step, op);
      match op
      case Self(e, kp, signer) => MakeRecordShape(Content(e), [SignOnly(cr, e, kp, signer)]);
      case Pending(e, kp, signer) => MakeRecordShape(Content(e), [SignOnly(cr, e, kp, signer)]);
      case Finalized(e, kp, signer, sig, key) => MakeRecordShape(Content(e), [SignOnly(cr, e, kp, signer), sig]);
      case Finalize(id, sig, key) =>
        if Apply(cr, t, op).Ok? {
          FinalizeLength(cr, t, id, sig, key);
        }
    }
  }

  ghost predicate OwnSigned(cr: Crypto, s: System) {
    forall a | a in s.nodes :: forall i | 0 <= i < |s.nodes[a].log| && OwnRow(s.nodes[a].log[i]) ::
      OwnSignedRow(cr, s.nodes[a], s.nodes[a].log[i])
  }

  ghost predicate OwnSignedRow(cr: Crypto, n: Node, r: Row) {
    IsRecord(r.original) && SignaturesOf(r.original) == [OwnSignature(cr, n, ContentOf(r.original))]
  }

  lemma StepOwnSigned(cr: Crypto, n: Node, step: NodeStep, i: nat)
    requires NodeValid(cr, n) && forall k | 0 <= k < |n.log| && OwnRow(n.log[k]) :: OwnSignedRow(cr, n, n.log[k])
    requires i < |Next(cr, n, step).0.log| && OwnRow(Next(cr, n, step).0.log[i])
    ensures OwnSignedRow(cr, Next(cr, n, step).0, Next(cr, n, step).0.log[i])
  {
    hide Next, NodeValid, SignEnvelope, VerifyEnvelope, IsRecord;
    var u := Next(cr, n, step).0.log;
    NextEffect(cr, n, step);
    StepAdds(cr, n, step);
    StepSigns(cr, n, step);
    if SameEvents(n.log, u) {
      assert OwnRow(n.log[i]);
    } else if i < |n.log| {
      assert u[i] == u[..|n.log|][i];
    }
  }

  lemma {:induction false} ReachSigned(cr: Crypto, start: System, events: seq<Event>)
    requires Initial(cr, start)
    ensures var s := Reach(cr, start, events); OwnSigned(cr, s) && OwnUnique(s)
  {
    hide Next, Signed, Minted, Enabled, NodeValid, OwnRow, OwnSignedRow, OwnApart, Possession, Origins;
    if events != [] {
      var before, e := events[..|events| - 1], events[|events| - 1];
      var s := Reach(cr, start, before);
      ReachSigned(cr, start, before);
      ReachValid(cr, start, before);
      if Enabled(cr, s, e) {
        EnabledNode(cr, s, e);
        OwnUniqueKept(cr, s, e);
        OwnSignedKept(cr, s, e);
      }
    } else {
      InitialSigned(cr, start);
    }
  }

  lemma InitialSigned(cr: Crypto, s: System)
    requires Initial(cr, s)
    ensures OwnSigned(cr, s) && OwnUnique(s)
  {
  }

  lemma OwnSignedKept(cr: Crypto, s: System, e: Event)
    requires NodesValid(cr, s) && OwnSigned(cr, s) && e.node in s.nodes
    ensures OwnSigned(cr, Advance(cr, s, e))
  {
    hide Next, Signed, Minted, NodeValid, OwnRow, OwnSignedRow;
    var t := Advance(cr, s, e);
    forall a, i | a in t.nodes && 0 <= i < |t.nodes[a].log| && OwnRow(t.nodes[a].log[i])
      ensures OwnSignedRow(cr, t.nodes[a], t.nodes[a].log[i])
    {
      if a == e.node {
        StepOwnSigned(cr, s.nodes[a], e.step, i);
      }
    }
  }

  // ---- How rows come to be received ----

  /** The event was taken from a peer registered under this key. */
  ghost predicate TakenUnder(cr: Crypto, s: System, e: Event, x: string, eventId: Option<string>, key: PublicKey) {
    && Enabled(cr, s, e) && e.node == x && e.step.Receive? && e.step.delegateeId in s.nodes[x].peers
    && s.nodes[x].peers[e.step.delegateeId].publicKey == key
    && var u := Next(cr, s.nodes[x], e.step).0.log;
    RowAdded(cr, s.nodes[x], e.step, u) && u[|s.nodes[x].log|].eventId == eventId
  }

  ghost predicate TakenAt(cr: Crypto, start: System, events: seq<Event>, k: nat, x: string, eventId: Option<string>, key: PublicKey) {
    k < |events| && TakenUnder(cr, Reach(cr, start, events[..k]), events[k], x, eventId, key)
  }

  ghost predicate ReceivedRow(cr: Crypto, n: Node, r: Row, other: Json, key: PublicKey) {
    && IsRecord(r.record) && SignaturesOf(r.record) == [OwnSignature(cr, n, ContentOf(r.record)), other]
    && VerifyEnvelope(cr, ContentOf(r.record), other, key).Ok?
  }

  /** Some event of the history took this row, and its second signature verified under the key it was taken under. */
  ghost predicate Received(cr: Crypto, start: System, events: seq<Event>, n: Node, x: string, r: Row) {
    exists k: nat, other, key :: ReceivedRow(cr, n, r, other, key) && TakenAt(cr, start, events, k, x, r.eventId, key)
  }

  /** Received rows do not change. */
  lemma ReceivedStays(cr: Crypto, n: Node, m: Node, i: nat)
    requires NodeValid(cr, n) && NodeValid(cr, m) && i < |n.log| && i < |m.log| && Grows(n.log, m.log) && !OwnRow(m.log[i])
    ensures !OwnRow(n.log[i]) && n.log[i].record == m.log[i].record && n.log[i].eventId == m.log[i].eventId
  {
    hide Matched, Counted, AtMostOnce, Linked, Indexed;
    assert Commits(n.log[i]) && Commits(m.log[i]);
    var r, q := n.log[i].record, m.log[i].record;
    assert r.members["content"] == q.members["content"] && r.members["signatures"] == q.members["signatures"];
    assert r.members == q.members;
  }

  lemma StepReceives(cr: Crypto, s: System, e: Event, i: nat)
    requires NodesValid(cr, s) && Enabled(cr, s, e)
    requires |s.nodes[e.node].log| <= i < |Next(cr, s.nodes[e.node], e.step).0.log|
    requires !OwnRow(Next(cr, s.nodes[e.node], e.step).0.log[i])
    ensures var r := Next(cr, s.nodes[e.node], e.step).0.log[i];
            exists other, key :: ReceivedRow(cr, s.nodes[e.node], r, other, key) && TakenUnder(cr, s, e, e.node, r.eventId, key)
  {
    hide Next, NodeValid, SignEnvelope, VerifyEnvelope, IsRecord, OwnRow, FreshStamp, Known, KnownEnvelope;
    var n := s.nodes[e.node];
    StepAdds(cr, n, e.step);
    StepSigns(cr, n, e.step);
    var r := Next(cr, n, e.step).0.log[i];
    assert ReceivedRow(cr, n, r, e.step.response.signature, n.peers[e.step.delegateeId].publicKey);
    assert TakenUnder(cr, s, e, e.node, r.eventId, n.peers[e.step.delegateeId].publicKey);
  }

  /** Each received row carries the agent's signature and one that verified under the key it was taken under. */
  lemma {:induction false} ReceivedHistory(cr: Crypto, start: System, events: seq<Event>, x: string, i: nat)
    requires Initial(cr, start) && x in Reach(cr, start, events).nodes
    requires i < |Reach(cr, start, events).nodes[x].log| && !OwnRow(Reach(cr, start, events).nodes[x].log[i])
    ensures var n := Reach(cr, start, events).nodes[x];
            Received(cr, start, events, n, x, n.log[i])
  {
    hide Next, Signed, Minted, Enabled, NodeValid, OwnRow, ReceivedRow, TakenUnder, Possession, Origins, Grows;
    if events == [] {
      EmptyLog(cr, start, x);
    } else {
      var before, e := events[..|events| - 1], events[|events| - 1];
      var s, t := Reach(cr, start, before), Reach(cr, start, events);
      assert events == before + [e];
      ReachValid(cr, start, before);
      ReachValid(cr, start, events);
      if Enabled(cr, s, e) && e.node == x {
        EnabledNode(cr, s, e);
        EffectGrows(cr, s.nodes[x], e.step);
        NextEffect(cr, s.nodes[x], e.step);
        if i < |s.nodes[x].log| {
          ReceivedStays(cr, s.nodes[x], t.nodes[x], i);
          ReceivedHistory(cr, start, before, x, i);
          HistoryGrows(cr, start, before, e, s.nodes[x], t.nodes[x], x, s.nodes[x].log[i], t.nodes[x].log[i]);
        } else {
          StepReceives(cr, s, e, i);
          var other, key :| ReceivedRow(cr, s.nodes[x], t.nodes[x].log[i], other, key) && TakenUnder(cr, s, e, x, t.nodes[x].log[i].eventId, key);
          SameAgent(cr, s.nodes[x], t.nodes[x], t.nodes[x].log[i], t.nodes[x].log[i], other, key);
          assert TakenAt(cr, start, events, |events| - 1, x, t.nodes[x].log[i].eventId, key);
        }
      } else {
        SameNodeElsewhere(cr, s, e, x);
        ReceivedHistory(cr, start, before, x, i);
        HistoryGrows(cr, start, before, e, s.nodes[x], t.nodes[x], x, s.nodes[x].log[i], t.nodes[x].log[i]);
      }
    }
  }

  lemma EmptyLog(cr: Crypto, s: System, x: string)
    requires Initial(cr, s) && x in s.nodes
    ensures s.nodes[x].log == []
  {
  }

  lemma SameNodeElsewhere(cr: Crypto, s: System, e: Event, x: string)
    requires Enabled(cr, s, e) ==> e.node != x
    ensures Enabled(cr, s, e) && x in s.nodes ==> x in Advance(cr, s, e).nodes && Advance(cr, s, e).nodes[x] == s.nodes[x]
  {
    hide Next, Signed, Minted;
  }

  lemma SameAgent(cr: Crypto, n: Node, m: Node, r: Row, q: Row, other: Json, key: PublicKey)
    requires n.kp == m.kp && n.id == m.id && r.record == q.record && ReceivedRow(cr, n, r, other, key)
    ensures ReceivedRow(cr, m, q, other, key)
  {
    hide SignEnvelope, VerifyEnvelope, IsRecord;
  }

  lemma HistoryGrows(cr: Crypto, start: System, events: seq<Event>, e: Event, n: Node, m: Node, x: string, r: Row, q: Row)
    requires n.kp == m.kp && n.id == m.id && r.record == q.record && r.eventId == q.eventId
    requires Received(cr, start, events, n, x, r)
    ensures Received(cr, start, events + [e], m, x, q)
  {
    hide ReceivedRow, TakenUnder, Reach;
    var k: nat, other, key :| ReceivedRow(cr, n, r, other, key) && TakenAt(cr, start, events, k, x, r.eventId, key);
    SameAgent(cr, n, m, r, q, other, key);
    assert (events + [e])[..k] == events[..k];
    assert TakenAt(cr, start, events + [e], k, x, q.eventId, key);
  }

  // ---- The theorem ----

  /** Row i of x's log, taken under `key`, stands opposite row j of b's log. */
  ghost predicate Opposite(cr: Crypto, s: System, x: string, i: nat, b: string, j: nat, other: Json, key: PublicKey)
    requires x in s.nodes && b in s.nodes
  {
    && i < |s.nodes[x].log| && j < |s.nodes[b].log|
    && var r, q := s.nodes[x].log[i], s.nodes[b].log[j];
    && ReceivedRow(cr, s.nodes[x], r, other, key)
    && IsRecord(q.record) && r.eventId == q.eventId && ContentOf(r.record) == ContentOf(q.record)
    && (key == s.nodes[b].kp.Public(cr) ==> VerifyEnvelope(cr, ContentOf(q.record), other, s.nodes[b].kp.Public(cr)).Ok?)
    && (forall maker, signer :: other == SignEnvelope(cr, ContentOf(q.record), maker, signer) ==>
          (VerifyEnvelope(cr, ContentOf(q.record), other, s.nodes[b].kp.Public(cr)).Ok? <==> key == s.nodes[b].kp.Public(cr)))
  }

  /**
   In every reachable state of the hostile network: if b's own row was settled by a signature that
   verifies under another honest agent x's key, then b's row carries b's own signature first, and
   x's log holds the event with the same content under x's own signature and one from the peer x
   took it from. The two rows carry the same two signers if x took it under b's key; and, where
   that signature is one a key pair made, only then.
   */
  lemma SettledBy(cr: Crypto, start: System, events: seq<Event>, b: string, j: nat, x: string)
    requires IdealSignatures(cr) && Initial(cr, start)
    requires var s := Reach(cr, start, events);
             && b in s.nodes && x in s.nodes && b != x && j < |s.nodes[b].log| && OwnRow(s.nodes[b].log[j])
             && IsRecord(s.nodes[b].log[j].record) && |SignaturesOf(s.nodes[b].log[j].record)| == 2
             && VerifyEnvelope(cr, ContentOf(s.nodes[b].log[j].record), SignaturesOf(s.nodes[b].log[j].record)[1], s.nodes[x].kp.Public(cr)).Ok?
    ensures var s := Reach(cr, start, events);
            && SignaturesOf(s.nodes[b].log[j].record)[0] == OwnSignature(cr, s.nodes[b], ContentOf(s.nodes[b].log[j].record))
            && exists i: nat, k: nat, other, key :: Opposite(cr, s, x, i, b, j, other, key) && TakenAt(cr, start, events, k, x, s.nodes[b].log[j].eventId, key)
  {
    hide Reach, Initial, IdealSignatures, NodesValid, Possession, Origins, OwnUnique, OwnSigned, VerifyEnvelope, SignEnvelope, IsRecord, OwnRow,
         TakenAt, Opposite, ReceivedRow;
    var s := Reach(cr, start, events);
    ReachValid(cr, start, events);
    ReachSigned(cr, start, events);
    var content := ContentOf(s.nodes[b].log[j].record);
    PossessedBySigner(cr, s, b, j, SignaturesOf(s.nodes[b].log[j].record)[1], x);
    SettledFirst(cr, s, b, j);
    var i := HeldApart(cr, s, b, j, x);
    ReceivedHistory(cr, start, events, x, i);
    var n := s.nodes[x];
    var k: nat, other, key :| ReceivedRow(cr, n, n.log[i], other, key) && TakenAt(cr, start, events, k, x, n.log[i].eventId, key);
    StandsOpposite(cr, s, x, i, b, j, other, key);
  }

  lemma SettledFirst(cr: Crypto, s: System, b: string, j: nat)
    requires NodesValid(cr, s) && OwnSigned(cr, s) && b in s.nodes && j < |s.nodes[b].log| && OwnRow(s.nodes[b].log[j])
    ensures IsRecord(s.nodes[b].log[j].record) && SignaturesOf(s.nodes[b].log[j].record) != []
    ensures SignaturesOf(s.nodes[b].log[j].record)[0] == OwnSignature(cr, s.nodes[b], ContentOf(s.nodes[b].log[j].record))
  {
    hide Matched, Counted, AtMostOnce, Linked, Indexed, SignEnvelope, OwnRow, IsRecord;
    assert OwnSignedRow(cr, s.nodes[b], s.nodes[b].log[j]);
    assert Commits(s.nodes[b].log[j]);
  }

  /** Another agent's row with the content of one's own row is a received one. */
  lemma HeldApart(cr: Crypto, s: System, b: string, j: nat, x: string) returns (i: nat)
    requires NodesValid(cr, s) && OwnUnique(s) && b in s.nodes && x in s.nodes && b != x
    requires j < |s.nodes[b].log| && OwnRow(s.nodes[b].log[j]) && IsRecord(s.nodes[b].log[j].record)
    requires HasContent(s.nodes[x].log, ContentOf(s.nodes[b].log[j].record))
    ensures i < |s.nodes[x].log| && !OwnRow(s.nodes[x].log[i]) && IsRecord(s.nodes[x].log[i].record)
    ensures ContentOf(s.nodes[x].log[i].record) == ContentOf(s.nodes[b].log[j].record)
    ensures s.nodes[x].log[i].eventId == s.nodes[b].log[j].eventId
  {
    hide NodeValid, OwnRow, IsRecord;
    i :| 0 <= i < |s.nodes[x].log| && IsRecord(s.nodes[x].log[i].record)
         && ContentOf(s.nodes[x].log[i].record) == ContentOf(s.nodes[b].log[j].record);
    RowIsEvent(cr, s.nodes[x], i);
    RowIsEvent(cr, s.nodes[b], j);
    assert OwnApart(s.nodes[x].log, s.nodes[b].log);
  }

  lemma StandsOpposite(cr: Crypto, s: System, x: string, i: nat, b: string, j: nat, other: Json, key: PublicKey)
    requires IdealSignatures(cr) && x in s.nodes && b in s.nodes && i < |s.nodes[x].log| && j < |s.nodes[b].log|
    requires ReceivedRow(cr, s.nodes[x], s.nodes[x].log[i], other, key) && IsRecord(s.nodes[b].log[j].record)
    requires s.nodes[x].log[i].eventId == s.nodes[b].log[j].eventId
    requires ContentOf(s.nodes[x].log[i].record) == ContentOf(s.nodes[b].log[j].record)
    ensures Opposite(cr, s, x, i, b, j, other, key)
  {
    hide IdealSignatures, VerifyEnvelope, SignEnvelope, IsRecord;
    var content := ContentOf(s.nodes[b].log[j].record);
    forall maker, signer | other == SignEnvelope(cr, content, maker, signer)
      ensures VerifyEnvelope(cr, content, other, s.nodes[b].kp.Public(cr)).Ok? <==> key == s.nodes[b].kp.Public(cr)
    {
      EnvelopeExact(cr, content, maker, signer, content, key);
      EnvelopeExact(cr, content, maker, signer, content, s.nodes[b].kp.Public(cr));
    }
  }

  // ---- Recombination ----

  /** Agent c's signature over b's event, handed to x as an answer of c's. */
  ghost function Handed(cr: Crypto, s: System, c: string, x: string, content: Json, outcome: Json, stamp: Stamp): Event
    requires c in s.nodes
  {
    Event(x, Receive(c, None, JNull, Response(outcome, content, SignatureOf(cr, s, c, content)), "", stamp, true))
  }

  /** The answer is one x may receive, and takes. */
  lemma HandedTaken(cr: Crypto, s: System, c: string, x: string, event: AuditEvent, outcome: Json, stamp: Stamp)
    requires IdealSignatures(cr) && c in s.nodes && x in s.nodes && s.nodes[x].id == x && Storable(event) && !Taken(s.nodes[x].log, event)
    requires Released(cr, s, c, Content(event)) && FreshId(s, stamp.eventId)
    requires c in s.nodes[x].peers && s.nodes[x].peers[c].publicKey == s.nodes[c].kp.Public(cr)
    requires Outcome.VerifyOutcome(cr, outcome, s.nodes[c].kp.Public(cr), None).Ok?
    ensures var e, n := Handed(cr, s, c, x, Content(event), outcome, stamp), s.nodes[x];
            var sx, sc := OwnSignature(cr, n, Content(event)), SignatureOf(cr, s, c, Content(event));
            && Enabled(cr, s, e) && CanonicalJson(Content(event)) in Signed(cr, n, e.step)
            && Next(cr, n, e.step).0 == n.(log := n.log + [NewRow(cr, n.log, event, MakeRecord(Content(event), [sx, sc]), false)])
  {
    hide IdealSignatures, SignEnvelope, VerifyEnvelope, Content, FromContent, MakeRecord, LatestHash, ChainHash, Outcome.VerifyOutcome,
         CanonicalJson, FreshId, KnownEnvelope, Storable;
    ReleasedIsKnown(cr, s, c, Content(event));
    FromContentOfContent(event);
    EnvelopeExact(cr, Content(event), s.nodes[c].kp, c, Content(event), s.nodes[c].kp.Public(cr));
    EventIdOf(event);
  }

  lemma EventIdOf(event: AuditEvent)
    ensures Content(event).Get("event_id") == Some(event.eventId)
  {
  }

  /** The state after c's signature was handed to x: x holds the event under x's and c's signatures and has released its own. */
  lemma HandedState(cr: Crypto, s: System, c: string, x: string, b: string, event: AuditEvent, outcome: Json, stamp: Stamp)
    requires IdealSignatures(cr) && c in s.nodes && x in s.nodes && s.nodes[x].id == x && Storable(event) && !Taken(s.nodes[x].log, event)
    requires Released(cr, s, c, Content(event)) && FreshId(s, stamp.eventId) && b in s.nodes && b != x
    requires c in s.nodes[x].peers && s.nodes[x].peers[c].publicKey == s.nodes[c].kp.Public(cr)
    requires Outcome.VerifyOutcome(cr, outcome, s.nodes[c].kp.Public(cr), None).Ok?
    ensures var e := Handed(cr, s, c, x, Content(event), outcome, stamp);
            var t := Advance(cr, s, e);
            && Enabled(cr, s, e) && x in t.nodes && b in t.nodes && t.nodes[b] == s.nodes[b] && t.nodes[x].kp == s.nodes[x].kp
            && Released(cr, t, x, Content(event))
            && |t.nodes[x].log| == |s.nodes[x].log| + 1
            && var r := t.nodes[x].log[|s.nodes[x].log|];
            && r.eventId == KeyOf(event) && IsRecord(r.record) && ContentOf(r.record) == Content(event)
            && SignaturesOf(r.record) == [SignatureOf(cr, t, x, Content(event)), SignatureOf(cr, s, c, Content(event))]
  {
    hide IdealSignatures, SignEnvelope, Content, Next, Signed, Minted, MakeRecord, IsRecord, LatestHash, ChainHash, Outcome.VerifyOutcome,
         CanonicalJson, FreshId, Storable, Enabled, Handed, HasEvent;
    var e := Handed(cr, s, c, x, Content(event), outcome, stamp);
    HandedTaken(cr, s, c, x, event, outcome, stamp);
    HandedTo(cr, s, c, x, Content(event), outcome, stamp);
    MakeRecordShape(Content(event), [OwnSignature(cr, s.nodes[x], Content(event)), SignatureOf(cr, s, c, Content(event))]);
  }

  lemma HandedTo(cr: Crypto, s: System, c: string, x: string, content: Json, outcome: Json, stamp: Stamp)
    requires c in s.nodes
    ensures Handed(cr, s, c, x, content, outcome, stamp).node == x
  {
  }

  /**
   A third party's signature is enough for x to take b's event, and x's own is enough to settle
   b's row: handing c's released signature to x as an answer, and what x pushes back to b, are
   two steps the hostile network may take. Then b's row carries b's and x's signatures, and x's
   row x's and c's, of which the second is not b's.
   */
  lemma Recombined(cr: Crypto, s: System, b: string, j: nat, c: string, x: string, event: AuditEvent, outcome: Json, stamp: Stamp)
    requires IdealSignatures(cr) && NodesValid(cr, s) && b in s.nodes && c in s.nodes && x in s.nodes && b != x && b != c
    requires Stored(s.nodes[b].log, j, Content(event), [SignatureOf(cr, s, b, Content(event))]) && s.nodes[b].log[j].pendingPeer
    requires Storable(event) && event.eventId.JStr? && !HasEvent(s.nodes[x].log, event.eventId.s)
    requires x in s.nodes[b].peers && s.nodes[b].peers[x].publicKey == s.nodes[x].kp.Public(cr)
    requires c in s.nodes[x].peers && s.nodes[x].peers[c].publicKey == s.nodes[c].kp.Public(cr)
    requires Released(cr, s, c, Content(event)) && FreshId(s, stamp.eventId)
    requires Outcome.VerifyOutcome(cr, outcome, s.nodes[c].kp.Public(cr), None).Ok?
    ensures var content, sc := Content(event), SignatureOf(cr, s, c, Content(event));
            var handed := Handed(cr, s, c, x, content, outcome, stamp);
            var t := Advance(cr, s, handed);
            && Enabled(cr, s, handed) && x in t.nodes && |s.nodes[x].log| < |t.nodes[x].log|
            && var pushed := Event(b, Cosign(event.eventId, SignatureOf(cr, t, x, content)));
            && Enabled(cr, t, pushed)
            && var u := Advance(cr, t, pushed);
            && b in u.nodes && j < |u.nodes[b].log|
            && var q, r := u.nodes[b].log[j], t.nodes[x].log[|s.nodes[x].log|];
            && q.eventId == r.eventId && IsRecord(q.record) && IsRecord(r.record) && ContentOf(q.record) == ContentOf(r.record) == content
            && !q.pendingPeer
            && SignaturesOf(q.record) == [SignatureOf(cr, s, b, content), SignatureOf(cr, t, x, content)]
            && SignaturesOf(r.record) == [SignatureOf(cr, t, x, content), sc]
            && VerifyEnvelope(cr, content, sc, s.nodes[b].kp.Public(cr)).Raise?
  {
    hide IdealSignatures, NodeValid, SignEnvelope, VerifyEnvelope, Content, Next, Signed, Minted, IsRecord, Outcome.VerifyOutcome, FreshId,
         Storable, Enabled, Handed, HasEvent, Released, Stored;
    var content := Content(event);
    var handed := Handed(cr, s, c, x, content, outcome, stamp);
    HandedState(cr, s, c, x, b, event, outcome, stamp);
    HandedTo(cr, s, c, x, content, outcome, stamp);
    var t := Advance(cr, s, handed);
    var sx := SignatureOf(cr, t, x, content);
    ReleasedIsKnown(cr, t, x, content);
    PushEnabled(cr, t, b, event.eventId, sx);
    EnvelopeExact(cr, content, s.nodes[c].kp, c, content, s.nodes[b].kp.Public(cr));
    PushSettles(cr, s.nodes[b], b, j, event, t.nodes[x].kp, x);
  }

  lemma PushEnabled(cr: Crypto, s: System, b: string, eventId: Json, signature: Json)
    requires b in s.nodes && KnownEnvelope(cr, s, signature)
    ensures Enabled(cr, s, Event(b, Cosign(eventId, signature)))
  {
    hide KnownEnvelope;
  }

  /** A pushed signature over the pending event's content settles its row. */
  lemma PushSettles(cr: Crypto, n: Node, b: string, j: nat, event: AuditEvent, kx: KeyPair, x: string)
    requires IdealSignatures(cr) && NodeValid(cr, n) && b != x && event.eventId.JStr?
    requires Stored(n.log, j, Content(event), [SignEnvelope(cr, Content(event), n.kp, b)]) && n.log[j].pendingPeer
    requires x in n.peers && n.peers[x].publicKey == kx.Public(cr)
    ensures var m := Next(cr, n, Cosign(event.eventId, SignEnvelope(cr, Content(event), kx, x))).0;
            && j < |m.log| && m.log[j].eventId == n.log[j].eventId == KeyOf(event) && !m.log[j].pendingPeer
            && IsRecord(m.log[j].record) && ContentOf(m.log[j].record) == Content(event)
            && SignaturesOf(m.log[j].record)
               == [SignEnvelope(cr, Content(event), n.kp, b), SignEnvelope(cr, Content(event), kx, x)]
  {
    hide IdealSignatures, Matched, Counted, AtMostOnce, SignEnvelope, VerifyEnvelope, Content, FromContent, IsRecord, AddSignature,
         Linked, Indexed, Commits, FinalizePending, FindEvent;
    var content := Content(event);
    var sb, sx := SignEnvelope(cr, content, n.kp, b), SignEnvelope(cr, content, kx, x);
    PendingIsOwn(cr, n, j);
    StoredSignatures(n.log, j, content, [sb]);
    StoredIsEvent(cr, n, j, content, [sb]);
    FromContentOfContent(event);
    FindUnique(n.log, event.eventId.s, j);
    CosignAccepted(cr, n, x, kx, n.kp, b, content, event.eventId.s);
    Labels(cr, content, kx, x);
    assert sx.GetText("signed_by") == Some(x);
    assert AuditCosign(cr, n, event.eventId, sx).Ok?;
    assert FinalizePending(cr, n.log, event.eventId.s, sx, kx.Public(cr)).Ok?;
    FinalizeShape(cr, n.log, event.eventId.s, sx, kx.Public(cr));
    AppendsPeer(cr, n.log[j].record, content, n.kp, b, kx, x);
  }
}
