/**
 What cosigning achieves when the network delivers only what was sent, to whomever, however
 often and in whatever order: settled completion rows have a twin with the same signatures.
 */
module Cosigning {
  import opened Wrappers
  import opened Json
  import opened Python
  import opened Signing
  import opened AuditEvent
  import opened AuditTable
  import opened AuditLaws
  import opened Node
  import opened NodeLaws
  import opened Network
  import opened NetworkLaws
  import opened Agreement
  import Delegation
  import Outcome

  // ---- Faithful delivery ----

  ghost predicate Faithful(s: System, e: Event) {
    && (e.step.Receive? ==> exists b :: (b, ResponseSent(e.step.response)) in s.sent)
    && (e.step.Cosign? ==> exists a :: (a, CosignSent(e.step.eventId, e.step.signature)) in s.sent)
  }

  ghost predicate FaithfulRun(cr: Crypto, start: System, events: seq<Event>) {
    forall k | 0 <= k < |events| :: Faithful(Reach(cr, start, events[..k]), events[k])
  }

  // ---- What stands behind each message ----

  /** Row j was inserted with this content and these signatures. */
  ghost predicate Stored(t: Table, j: nat, content: Json, signatures: seq<Json>) {
    j < |t| && IsRecord(t[j].original) && ContentOf(t[j].original) == content && SignaturesOf(t[j].original) == signatures
  }

  ghost function SignatureOf(cr: Crypto, s: System, a: string, content: Json): Json
    requires a in s.nodes
  {
    SignEnvelope(cr, content, s.nodes[a].kp, a)
  }

  ghost predicate Released(cr: Crypto, s: System, a: string, content: Json) {
    a in s.nodes && (s.nodes[a].kp.Public(cr), CanonicalJson(content)) in s.released
  }

  ghost predicate ResponseBacked(cr: Crypto, s: System, b: string, response: Response) {
    && Released(cr, s, b, response.content)
    && response.signature == SignatureOf(cr, s, b, response.content) && response.content.GetText("event_id").Some?
    && exists j :: Stored(s.nodes[b].log, j, response.content, [response.signature])
  }

  /** Delegator a's row i and delegatee b's row j record one event. */
  datatype Pairing = Pairing(a: string, i: nat, b: string, j: nat, content: Json)

  ghost predicate Holds(cr: Crypto, s: System, p: Pairing) {
    && p.a in s.nodes && p.b in s.nodes && p.a != p.b
    && Released(cr, s, p.a, p.content)
    && Stored(s.nodes[p.a].log, p.i, p.content, [SignatureOf(cr, s, p.a, p.content), SignatureOf(cr, s, p.b, p.content)])
    && Stored(s.nodes[p.b].log, p.j, p.content, [SignatureOf(cr, s, p.b, p.content)])
  }

  ghost predicate CosignBacked(cr: Crypto, s: System, a: string, eventId: Json, signature: Json) {
    && eventId.JStr?
    && exists p :: Holds(cr, s, p) && p.a == a && signature == SignatureOf(cr, s, a, p.content)
                   && p.content.GetText("event_id") == Some(eventId.s)
  }

  ghost predicate MessagesBacked(cr: Crypto, s: System) {
    && (forall b, response | (b, ResponseSent(response)) in s.sent :: ResponseBacked(cr, s, b, response))
    && (forall a, id, signature | (a, CosignSent(id, signature)) in s.sent :: CosignBacked(cr, s, a, id, signature))
  }

  ghost predicate RowPaired(cr: Crypto, s: System, b: string, j: nat) {
    exists p :: Holds(cr, s, p) && p.b == b && p.j == j && IsRecord(s.nodes[b].log[j].record)
                && SignaturesOf(s.nodes[b].log[j].record)
                   == [SignatureOf(cr, s, b, p.content), SignatureOf(cr, s, p.a, p.content)]
  }

  /** A settled completion row stands in a pairing. */
  ghost predicate SettledPaired(cr: Crypto, s: System) {
    forall b | b in s.nodes :: forall j | 0 <= j < |s.nodes[b].log| ::
      OwnCompletion(s.nodes[b].log[j]) && !s.nodes[b].log[j].pendingPeer ==> RowPaired(cr, s, b, j)
  }

  /** One's own rows carry ids nobody else's own rows carry. */
  ghost predicate OwnUnique(s: System) {
    forall a, b | a in s.nodes && b in s.nodes && a != b :: OwnApart(s.nodes[a].log, s.nodes[b].log)
  }

  ghost predicate OwnApart(t: Table, u: Table) {
    forall i, j | 0 <= i < |t| && 0 <= j < |u| && OwnRow(t[i]) && OwnRow(u[j]) :: t[i].eventId != u[j].eventId
  }

  // ---- Growth ----

  lemma AdvanceGrows(cr: Crypto, s: System, e: Event, a: string)
    requires NodesValid(cr, s) && e.node in s.nodes && a in s.nodes
    ensures var t := Advance(cr, s, e); a in t.nodes && t.nodes[a].kp == s.nodes[a].kp && Grows(s.nodes[a].log, t.nodes[a].log)
  {
    hide Next, Signed, Minted, Valid, Matched, Counted, AtMostOnce, Grows;
    NextEffect(cr, s.nodes[e.node], e.step);
    EffectGrows(cr, s.nodes[e.node], e.step);
    GrowsReflexive(cr, s.nodes[a].log);
  }

  lemma StoredGrows(t: Table, u: Table, j: nat, content: Json, signatures: seq<Json>)
    requires Grows(t, u) && Stored(t, j, content, signatures)
    ensures Stored(u, j, content, signatures)
  {
    hide IsRecord;
  }

  lemma HoldsGrows(cr: Crypto, s: System, e: Event, p: Pairing)
    requires NodesValid(cr, s) && e.node in s.nodes && Holds(cr, s, p)
    ensures Holds(cr, Advance(cr, s, e), p)
  {
    hide NodeValid, Next, Signed, Minted, Stored, SignEnvelope, CanonicalJson, Grows;
    var t := Advance(cr, s, e);
    AdvanceGrows(cr, s, e, p.a);
    AdvanceGrows(cr, s, e, p.b);
    StoredGrows(s.nodes[p.a].log, t.nodes[p.a].log, p.i, p.content, [SignatureOf(cr, s, p.a, p.content), SignatureOf(cr, s, p.b, p.content)]);
    StoredGrows(s.nodes[p.b].log, t.nodes[p.b].log, p.j, p.content, [SignatureOf(cr, s, p.b, p.content)]);
  }

  lemma ResponseBackedGrows(cr: Crypto, s: System, e: Event, b: string, response: Response)
    requires NodesValid(cr, s) && e.node in s.nodes && ResponseBacked(cr, s, b, response)
    ensures ResponseBacked(cr, Advance(cr, s, e), b, response)
  {
    hide NodeValid, Next, Signed, Minted, Stored, SignEnvelope, CanonicalJson, Grows;
    AdvanceGrows(cr, s, e, b);
    var j :| Stored(s.nodes[b].log, j, response.content, [response.signature]);
    StoredGrows(s.nodes[b].log, Advance(cr, s, e).nodes[b].log, j, response.content, [response.signature]);
  }

  // ---- What a step sends ----

  lemma ResponseShape(cr: Crypto, n: Node, step: NodeStep, response: Response)
    requires Next(cr, n, step).1 == Some(ResponseSent(response))
    ensures CanonicalJson(response.content) in Signed(cr, n, step)
    ensures response.signature == SignEnvelope(cr, response.content, n.kp, n.id)
    ensures response.content.GetText("event_id").Some?
    ensures Stored(Next(cr, n, step).0.log, |n.log|, response.content, [response.signature])
  {
    hide CanonicalJson, SignEnvelope, Content, CompletionEvent, OutcomeOf, LatestHash, ChainHash, MakeRecord, IsRecord,
         Outcome.SignOutcome, HasEvent, InvokeBegin, ClientReceive, IssueDelegation, PublishManifest, RegisterPeer, AuditCosign, Crash;
    assert step.Finish?;
    var exec := n.execs[step.exec];
    var outcome := OutcomeOf(exec, step.result, step.executedAt);
    var event := CompletionEvent(cr, exec.claims, outcome, step.stamp);
    MakeRecordShape(Content(event), [SignOnly(cr, event, n.kp, n.id)]);
    CompletionId(cr, exec.claims, outcome, step.stamp);
  }

  lemma CompletionId(cr: Crypto, claims: Delegation.Claims, o: Outcome.Outcome, stamp: Stamp)
    ensures Content(CompletionEvent(cr, claims, o, stamp)).GetText("event_id") == Some(stamp.eventId)
  {
  }

  lemma CosignShape(cr: Crypto, n: Node, step: NodeStep, eventId: Json, signature: Json)
    requires Next(cr, n, step).1 == Some(CosignSent(eventId, signature))
    ensures step.Receive? && FromContent(step.response.content).Some?
    ensures step.response.content.Get("event_id") == Some(eventId)
    ensures var event := FromContent(step.response.content).value;
            && !Taken(n.log, event)
            && CanonicalJson(Content(event)) in Signed(cr, n, step)
            && signature == SignEnvelope(cr, Content(event), n.kp, n.id)
            && Stored(Next(cr, n, step).0.log, |n.log|, Content(event), [signature, step.response.signature])
  {
    hide CanonicalJson, SignEnvelope, Content, FromContent, LatestHash, ChainHash, MakeRecord, IsRecord, VerifyEnvelope,
         Outcome.VerifyOutcome, HasEvent, InvokeBegin, InvokeFinish, IssueDelegation, PublishManifest, RegisterPeer, AuditCosign, Crash;
    assert step.Receive?;
    var event := FromContent(step.response.content).value;
    MakeRecordShape(Content(event), [SignOnly(cr, event, n.kp, n.id), step.response.signature]);
  }

  // ---- Each step keeps the backing ----

  lemma NewResponseBacked(cr: Crypto, s: System, e: Event, response: Response)
    requires NodesValid(cr, s) && e.node in s.nodes && Next(cr, s.nodes[e.node], e.step).1 == Some(ResponseSent(response))
    ensures ResponseBacked(cr, Advance(cr, s, e), e.node, response)
  {
    hide NodeValid, Next, Signed, Minted, Stored, SignEnvelope, CanonicalJson, Grows;
    var n := s.nodes[e.node];
    ResponseShape(cr, n, e.step, response);
    AdvanceGrows(cr, s, e, e.node);
  }

  /** Content that a log stored is an event's, so rebuilding the event keeps it. */
  lemma StoredIsEvent(cr: Crypto, n: Node, j: nat, content: Json, signatures: seq<Json>)
    requires NodeValid(cr, n) && Stored(n.log, j, content, signatures)
    ensures FromContent(content).Some? && Content(FromContent(content).value) == content
    ensures n.log[j].eventId == KeyOf(FromContent(content).value) == IdOf(content)
  {
    hide Matched, Counted, AtMostOnce, Linked, FromContent, Content, IsRecord;
    assert Indexed(n.log[j]) && Commits(n.log[j]);
    RowIsEvent(cr, n, j);
  }

  lemma NewCosignBacked(cr: Crypto, s: System, e: Event, eventId: Json, signature: Json)
    requires NodesValid(cr, s) && MessagesBacked(cr, s) && e.node in s.nodes && Faithful(s, e)
    requires Next(cr, s.nodes[e.node], e.step).1 == Some(CosignSent(eventId, signature))
    ensures CosignBacked(cr, Advance(cr, s, e), e.node, eventId, signature)
  {
    hide NodeValid, Next, Signed, Minted, Stored, SignEnvelope, CanonicalJson, Grows, FromContent, Content, CosignBacked, HasEvent;
    var n, t := s.nodes[e.node], Advance(cr, s, e);
    CosignShape(cr, n, e.step, eventId, signature);
    var b :| (b, ResponseSent(e.step.response)) in s.sent;
    var content, sb := e.step.response.content, e.step.response.signature;
    var j :| Stored(s.nodes[b].log, j, content, [sb]);
    StoredIsEvent(cr, s.nodes[b], j, content, [sb]);
    AdvanceGrows(cr, s, e, b);
    AdvanceGrows(cr, s, e, e.node);
    StoredGrows(s.nodes[b].log, t.nodes[b].log, j, content, [sb]);
    StoredHasEvent(s.nodes[b].log, j, content, [sb]);
    var p := Pairing(e.node, |n.log|, b, j, content);
    assert Holds(cr, t, p);
    BackedBy(cr, t, p, eventId.s);
  }

  lemma StoredHasEvent(t: Table, j: nat, content: Json, signatures: seq<Json>)
    requires Stored(t, j, content, signatures)
    ensures t[j].eventId.Some? ==> HasEvent(t, t[j].eventId.value)
  {
  }

  lemma BackedBy(cr: Crypto, s: System, p: Pairing, eventId: string)
    requires Holds(cr, s, p) && p.content.GetText("event_id") == Some(eventId)
    ensures CosignBacked(cr, s, p.a, JStr(eventId), SignatureOf(cr, s, p.a, p.content))
  {
  }

  lemma CosignBackedGrows(cr: Crypto, s: System, e: Event, a: string, eventId: Json, signature: Json)
    requires NodesValid(cr, s) && e.node in s.nodes && CosignBacked(cr, s, a, eventId, signature)
    ensures CosignBacked(cr, Advance(cr, s, e), a, eventId, signature)
  {
    hide NodeValid, Next, Signed, Minted, Stored, Released, SignEnvelope, Grows;
    var p :| Holds(cr, s, p) && p.a == a && signature == SignatureOf(cr, s, a, p.content)
             && p.content.GetText("event_id") == Some(eventId.s);
    HoldsGrows(cr, s, e, p);
    AdvanceGrows(cr, s, e, a);
  }

  lemma MessagesKept(cr: Crypto, s: System, e: Event)
    requires NodesValid(cr, s) && MessagesBacked(cr, s) && e.node in s.nodes && Faithful(s, e)
    ensures MessagesBacked(cr, Advance(cr, s, e))
  {
    hide NodesValid, Next, Signed, Minted, ResponseBacked, CosignBacked, Faithful;
    var t := Advance(cr, s, e);
    forall b, response | (b, ResponseSent(response)) in t.sent
      ensures ResponseBacked(cr, t, b, response)
    {
      if (b, ResponseSent(response)) in s.sent {
        ResponseBackedGrows(cr, s, e, b, response);
      } else {
        NewResponseBacked(cr, s, e, response);
      }
    }
    forall a, id, signature | (a, CosignSent(id, signature)) in t.sent
      ensures CosignBacked(cr, t, a, id, signature)
    {
      if (a, CosignSent(id, signature)) in s.sent {
        CosignBackedGrows(cr, s, e, a, id, signature);
      } else {
        NewCosignBacked(cr, s, e, id, signature);
      }
    }
  }

  // ---- Own rows stay apart ----

  /** A row a step adds as its own has an id no honest log held. */
  lemma OwnUniqueKept(cr: Crypto, s: System, e: Event)
    requires NodesValid(cr, s) && OwnUnique(s) && Enabled(cr, s, e)
    ensures OwnUnique(Advance(cr, s, e))
  {
    hide Next, Signed, Minted, NodeValid, OwnApart, FreshStamp, KnownEnvelope, Known;
    var n, t := s.nodes[e.node], Advance(cr, s, e);
    forall a | a in s.nodes && a != e.node
      ensures OwnApart(t.nodes[e.node].log, s.nodes[a].log) && OwnApart(s.nodes[a].log, t.nodes[e.node].log)
    {
      assert OwnApart(n.log, s.nodes[a].log);
      StepApart(cr, s, e, a);
      ApartSymmetric(t.nodes[e.node].log, s.nodes[a].log);
    }
  }

  lemma ApartSymmetric(t: Table, u: Table)
    requires OwnApart(t, u)
    ensures OwnApart(u, t)
  {
    hide OwnRow;
  }

  lemma StepApart(cr: Crypto, s: System, e: Event, a: string)
    requires Enabled(cr, s, e) && a in s.nodes
    requires NodeValid(cr, s.nodes[e.node]) && OwnApart(s.nodes[e.node].log, s.nodes[a].log)
    ensures OwnApart(Next(cr, s.nodes[e.node], e.step).0.log, s.nodes[a].log)
  {
    hide Next, NodeValid, OwnRow, KnownEnvelope, Known, IsRecord, VerifyEnvelope, SameEvents;
    var n := s.nodes[e.node];
    var t, u, v := n.log, Next(cr, n, e.step).0.log, s.nodes[a].log;
    StepAdds(cr, n, e.step);
    if SameEvents(t, u) {
      SameEventsApart(t, u, v);
    } else {
      forall i, j | 0 <= i < |u| && 0 <= j < |v| && OwnRow(u[i]) && OwnRow(v[j])
        ensures u[i].eventId != v[j].eventId
      {
        assert i < |t| ==> u[i] == u[..|t|][i] == t[i];
      }
    }
  }

  lemma SameEventsApart(t: Table, u: Table, v: Table)
    requires SameEvents(t, u) && OwnApart(t, v)
    ensures OwnApart(u, v)
  {
    hide OwnRow, IsRecord;
    forall i | 0 <= i < |t|
      ensures OwnRow(t[i]) == OwnRow(u[i])
    {
      OwnRowSame(t[i], u[i]);
    }
  }

  // ---- Settling ----

  lemma RowPairedGrows(cr: Crypto, s: System, e: Event, b: string, j: nat)
    requires NodesValid(cr, s) && e.node in s.nodes && b in s.nodes && j < |s.nodes[b].log| && RowPaired(cr, s, b, j)
    requires j < |Advance(cr, s, e).nodes[b].log| && Advance(cr, s, e).nodes[b].log[j] == s.nodes[b].log[j]
    ensures RowPaired(cr, Advance(cr, s, e), b, j)
  {
    hide NodeValid, Next, Signed, Minted, Stored, Released, SignEnvelope, Grows, IsRecord;
    var t := Advance(cr, s, e);
    var p :| Holds(cr, s, p) && p.b == b && p.j == j && IsRecord(s.nodes[b].log[j].record)
             && SignaturesOf(s.nodes[b].log[j].record) == [SignatureOf(cr, s, b, p.content), SignatureOf(cr, s, p.a, p.content)];
    HoldsGrows(cr, s, e, p);
    AdvanceGrows(cr, s, e, b);
    AdvanceGrows(cr, s, e, p.a);
  }

  /** What a step does to a node's rows: one settles under a delivered signature, or the old ones stay. */
  lemma StepRows(cr: Crypto, n: Node, step: NodeStep)
    requires NodeValid(cr, n)
    ensures var u := Next(cr, n, step).0.log;
            || u == n.log
            || (|u| == |n.log| + 1 && u[..|n.log|] == n.log && (OwnCompletion(u[|n.log|]) ==> u[|n.log|].pendingPeer))
            || (step.Cosign? && ColumnOf(step.eventId).Some?
                && exists key :: Apply(cr, n.log, Finalize(ColumnOf(step.eventId).value, step.signature, key)) == Ok(u))
  {
    hide Next, Valid, Matched, Counted, AtMostOnce, Content, SignOnly, VerifyEnvelope, FinalizePending, LatestHash, ChainHash,
         MakeRecord, IsRecord, FromContent, HasEvent;
    NextEffect(cr, n, step);
    var t, u := n.log, Next(cr, n, step).0.log;
    if u != t {
      var op :| u == Step(cr, t, op) && OpOf(n, step, op);
      match op
      case Self(_, _, _) =>
      case Pending(_, _, _) =>
      case Finalized(e, kp, signer, sig, key) => MakeRecordShape(Content(e), [SignOnly(cr, e, kp, signer), sig]);
      case Finalize(id, sig, key) =>
    }
  }

  lemma Labels(cr: Crypto, content: Json, kp: KeyPair, signer: string)
    ensures SignEnvelope(cr, content, kp, signer).Get("signed_by") == Some(JStr(signer))
  {
    hide CanonicalJson;
  }

  /** Stored under the other's label, a delivered signature is appended. */
  lemma AppendsPeer(cr: Crypto, record: Json, content: Json, kb: KeyPair, b: string, ka: KeyPair, a: string)
    requires a != b && IsRecord(record) && SignaturesOf(record) == [SignEnvelope(cr, content, kb, b)]
    ensures SignaturesOf(AddSignature(record, SignEnvelope(cr, content, ka, a)))
            == [SignEnvelope(cr, content, kb, b), SignEnvelope(cr, content, ka, a)]
  {
    hide SignEnvelope, IsRecord;
    Labels(cr, content, ka, a);
    Labels(cr, content, kb, b);
  }

  /** The pending row a sent signature fits is the one its pairing names. */
  lemma PairedTarget(cr: Crypto, s: System, p: Pairing, b: string, eventId: string)
    requires NodesValid(cr, s) && OwnUnique(s) && Holds(cr, s, p) && p.content.GetText("event_id") == Some(eventId)
    requires b in s.nodes && HasEvent(s.nodes[b].log, eventId) && s.nodes[b].log[FindEvent(s.nodes[b].log, eventId)].pendingPeer
    ensures p.b == b && p.j == FindEvent(s.nodes[b].log, eventId)
    ensures s.nodes[b].log[p.j].record == s.nodes[b].log[p.j].original
  {
    hide NodeValid, SignEnvelope, Released, FindEvent, HasEvent, Content, FromContent;
    var j := FindEvent(s.nodes[b].log, eventId);
    var signatures := [SignatureOf(cr, s, p.b, p.content)];
    StoredIsEvent(cr, s.nodes[p.b], p.j, p.content, signatures);
    PendingIsOwn(cr, s.nodes[b], j);
    assert OwnRow(s.nodes[p.b].log[p.j]);
    assert p.b != b ==> OwnApart(s.nodes[p.b].log, s.nodes[b].log);
    if p.b == b {
      SameIdSameRow(cr, s.nodes[b], p.j, j);
    }
  }

  lemma PendingIsOwn(cr: Crypto, n: Node, j: nat)
    requires NodeValid(cr, n) && j < |n.log| && n.log[j].pendingPeer
    ensures OwnRow(n.log[j]) && IsRecord(n.log[j].record)
    ensures n.log[j].record == n.log[j].original
  {
    hide Matched, Counted, AtMostOnce, Linked, Indexed;
    assert Commits(n.log[j]);
    var r, o := n.log[j].record, n.log[j].original;
    assert r.members["content"] == o.members["content"] && r.members["signatures"] == o.members["signatures"];
    assert r.members == o.members;
  }

  /** The log u is b's log with the paired row settled: b's own signature, then a's. */
  ghost predicate SettlesTo(cr: Crypto, s: System, p: Pairing, u: Table) {
    && p.a in s.nodes && p.b in s.nodes && p.j < |s.nodes[p.b].log| == |u|
    && u == s.nodes[p.b].log[p.j := u[p.j]] && IsRecord(u[p.j].record)
    && SignaturesOf(u[p.j].record) == [SignatureOf(cr, s, p.b, p.content), SignatureOf(cr, s, p.a, p.content)]
  }

  /** Settling a row by a signature that was sent makes it the twin of the sender's row. */
  lemma SettlePairs(cr: Crypto, s: System, b: string, a: string, eventId: string, signature: Json, key: PublicKey) returns (p: Pairing)
    requires NodesValid(cr, s) && OwnUnique(s) && CosignBacked(cr, s, a, JStr(eventId), signature)
    requires b in s.nodes && FinalizePending(cr, s.nodes[b].log, eventId, signature, key).Ok?
    ensures Holds(cr, s, p) && p.a == a && p.b == b
    ensures SettlesTo(cr, s, p, FinalizePending(cr, s.nodes[b].log, eventId, signature, key).value)
  {
    hide NodeValid, SignEnvelope, Released, FindEvent, HasEvent, FinalizePending, VerifyEnvelope, AddSignature,
         IsRecord, SameChain, Indexed, Commits, OwnUnique, Stored, Valid;
    p :| Holds(cr, s, p) && p.a == a && signature == SignatureOf(cr, s, a, p.content) && p.content.GetText("event_id") == Some(eventId);
    var t := s.nodes[b].log;
    ValidLog(cr, s.nodes[b]);
    FinalizeShape(cr, t, eventId, signature, key);
    PairedTarget(cr, s, p, b, eventId);
    StoredSignatures(t, p.j, p.content, [SignatureOf(cr, s, b, p.content)]);
    AppendsPeer(cr, t[p.j].record, p.content, s.nodes[b].kp, b, s.nodes[a].kp, a);
  }

  lemma StoredSignatures(t: Table, j: nat, content: Json, signatures: seq<Json>)
    requires Stored(t, j, content, signatures)
    ensures j < |t| && IsRecord(t[j].original) && SignaturesOf(t[j].original) == signatures && ContentOf(t[j].original) == content
  {
  }

  lemma SettledPairedKept(cr: Crypto, s: System, e: Event)
    requires NodesValid(cr, s) && OwnUnique(s) && MessagesBacked(cr, s) && SettledPaired(cr, s)
    requires e.node in s.nodes && Faithful(s, e)
    ensures SettledPaired(cr, Advance(cr, s, e))
  {
    hide NodeValid, Next, Signed, Minted, OwnCompletion, RowPaired, OwnUnique, Faithful, MessagesBacked;
    var n, t := s.nodes[e.node], Advance(cr, s, e);
    var u := t.nodes[e.node].log;
    StepRows(cr, n, e.step);
    forall b, j | b in t.nodes && 0 <= j < |t.nodes[b].log| && OwnCompletion(t.nodes[b].log[j]) && !t.nodes[b].log[j].pendingPeer
      ensures RowPaired(cr, t, b, j)
    {
      if j < |s.nodes[b].log| && t.nodes[b].log[j] == s.nodes[b].log[j] {
        RowPairedGrows(cr, s, e, b, j);
      } else {
        NewlySettled(cr, s, e, j);
      }
    }
  }

  lemma CosignText(cr: Crypto, s: System, a: string, eventId: Json, signature: Json)
    requires CosignBacked(cr, s, a, eventId, signature)
    ensures eventId.JStr?
  {
  }

  lemma NewlySettled(cr: Crypto, s: System, e: Event, j: nat)
    requires NodesValid(cr, s) && OwnUnique(s) && MessagesBacked(cr, s)
    requires e.node in s.nodes && Faithful(s, e) && e.step.Cosign?
    requires ColumnOf(e.step.eventId).Some?
    requires exists key :: Apply(cr, s.nodes[e.node].log, Finalize(ColumnOf(e.step.eventId).value, e.step.signature, key))
                           == Ok(Next(cr, s.nodes[e.node], e.step).0.log)
    requires j < |s.nodes[e.node].log| && j < |Next(cr, s.nodes[e.node], e.step).0.log|
    requires Next(cr, s.nodes[e.node], e.step).0.log[j] != s.nodes[e.node].log[j]
    ensures RowPaired(cr, Advance(cr, s, e), e.node, j)
  {
    hide NodeValid, Next, Signed, Minted, Holds, SignEnvelope, FinalizePending, CosignBacked, ResponseBacked, OwnUnique,
         FindEvent, HasEvent, IsRecord, Grows;
    var n, t := s.nodes[e.node], Advance(cr, s, e);
    var u := t.nodes[e.node].log;
    var a :| (a, CosignSent(e.step.eventId, e.step.signature)) in s.sent;
    CosignText(cr, s, a, e.step.eventId, e.step.signature);
    var key :| Apply(cr, n.log, Finalize(e.step.eventId.s, e.step.signature, key)) == Ok(u);
    var p := SettlePairs(cr, s, e.node, a, e.step.eventId.s, e.step.signature, key);
    HoldsGrows(cr, s, e, p);
    AdvanceGrows(cr, s, e, e.node);
    AdvanceGrows(cr, s, e, p.a);
  }

  // ---- Whole runs ----

  ghost predicate Cosignable(cr: Crypto, s: System) {
    NodesValid(cr, s) && MessagesBacked(cr, s) && OwnUnique(s) && SettledPaired(cr, s)
  }

  lemma {:induction false} ReachCosignable(cr: Crypto, start: System, events: seq<Event>)
    requires Initial(cr, start) && FaithfulRun(cr, start, events)
    ensures Cosignable(cr, Reach(cr, start, events))
  {
    hide Advance, Enabled, NodesValid, MessagesBacked, OwnUnique, SettledPaired, Faithful;
    if events == [] {
      InitialCosignable(cr, start);
    } else {
      var before, e := events[..|events| - 1], events[|events| - 1];
      var s := Reach(cr, start, before);
      assert forall k | 0 <= k < |before| :: before[k] == events[k] && before[..k] == events[..k];
      ReachCosignable(cr, start, before);
      assert Faithful(s, e);
      if Enabled(cr, s, e) {
        EnabledNode(cr, s, e);
        NodesKept(cr, s, e);
        MessagesKept(cr, s, e);
        OwnUniqueKept(cr, s, e);
        SettledPairedKept(cr, s, e);
      }
    }
  }

  lemma InitialCosignable(cr: Crypto, s: System)
    requires Initial(cr, s)
    ensures Cosignable(cr, s)
  {
    hide NodeValid;
    InitialValid(cr, s);
  }

  /** Final rows of one event: equal content, and the same two signatures in opposite order. */
  ghost predicate Twins(t: Table, i: nat, u: Table, j: nat) {
    && i < |t| && j < |u| && t[i].eventId == u[j].eventId
    && IsRecord(t[i].record) && IsRecord(u[j].record)
    && ContentOf(t[i].record) == ContentOf(u[j].record)
    && |SignaturesOf(t[i].record)| == 2
    && SignaturesOf(u[j].record) == [SignaturesOf(t[i].record)[1], SignaturesOf(t[i].record)[0]]
  }

  lemma StoredRecord(cr: Crypto, n: Node, i: nat, content: Json, signatures: seq<Json>)
    requires NodeValid(cr, n) && Stored(n.log, i, content, signatures)
    ensures IsRecord(n.log[i].record) && ContentOf(n.log[i].record) == content
    ensures |signatures| == 2 ==> SignaturesOf(n.log[i].record) == signatures
  {
    hide Matched, Counted, AtMostOnce, Linked, Indexed;
    assert Commits(n.log[i]);
  }

  lemma PairedAreTwins(cr: Crypto, s: System, b: string, j: nat) returns (p: Pairing)
    requires NodesValid(cr, s) && b in s.nodes && j < |s.nodes[b].log| && RowPaired(cr, s, b, j)
    ensures Holds(cr, s, p) && p.b == b && p.j == j
    ensures Twins(s.nodes[p.a].log, p.i, s.nodes[b].log, j)
    ensures SignaturesOf(s.nodes[p.a].log[p.i].record) == [SignatureOf(cr, s, p.a, p.content), SignatureOf(cr, s, b, p.content)]
    ensures ContentOf(s.nodes[b].log[j].record) == p.content
  {
    hide NodeValid, SignEnvelope, Released, Stored, IsRecord, Content, FromContent;
    p :| Holds(cr, s, p) && p.b == b && p.j == j && IsRecord(s.nodes[b].log[j].record)
         && SignaturesOf(s.nodes[b].log[j].record) == [SignatureOf(cr, s, b, p.content), SignatureOf(cr, s, p.a, p.content)];
    var sa, sb := SignatureOf(cr, s, p.a, p.content), SignatureOf(cr, s, b, p.content);
    StoredRecord(cr, s.nodes[p.a], p.i, p.content, [sa, sb]);
    StoredRecord(cr, s.nodes[b], j, p.content, [sb]);
    StoredIsEvent(cr, s.nodes[p.a], p.i, p.content, [sa, sb]);
    StoredIsEvent(cr, s.nodes[b], j, p.content, [sb]);
    StoredSignatures(s.nodes[p.a].log, p.i, p.content, [sa, sb]);
    StoredSignatures(s.nodes[b].log, j, p.content, [sb]);
  }

  /**
   Once a delegatee's pending row has been finalized, some other agent's log holds the same
   event with the same content, both rows carry the same two signatures in opposite order,
   and each signature verifies under its maker's key.
   */
  lemma SettledRowsMeet(cr: Crypto, start: System, events: seq<Event>, b: string, j: nat)
    requires IdealSignatures(cr) && Initial(cr, start) && FaithfulRun(cr, start, events)
    requires var s := Reach(cr, start, events);
             && b in s.nodes && j < |s.nodes[b].log|
             && OwnCompletion(s.nodes[b].log[j]) && !s.nodes[b].log[j].pendingPeer
    ensures var s := Reach(cr, start, events);
            exists a, i ::
              && a in s.nodes && a != b && Twins(s.nodes[a].log, i, s.nodes[b].log, j)
              && var content, signatures := ContentOf(s.nodes[b].log[j].record), SignaturesOf(s.nodes[b].log[j].record);
              && VerifyEnvelope(cr, content, signatures[0], s.nodes[b].kp.Public(cr)).Ok?
              && VerifyEnvelope(cr, content, signatures[1], s.nodes[a].kp.Public(cr)).Ok?
  {
    hide Reach, Initial, FaithfulRun, NodesValid, MessagesBacked, OwnUnique, RowPaired, OwnCompletion, IdealSignatures, SignEnvelope,
         VerifyEnvelope, IsRecord, Stored, Released;
    ReachCosignable(cr, start, events);
    var s := Reach(cr, start, events);
    var p := PairedAreTwins(cr, s, b, j);
    EnvelopeExact(cr, p.content, s.nodes[p.a].kp, p.a, p.content, s.nodes[p.a].kp.Public(cr));
    EnvelopeExact(cr, p.content, s.nodes[b].kp, b, p.content, s.nodes[b].kp.Public(cr));
  }

  // ---- Delivery ----

  /** A signature an agent released over stored content gives away nothing more. */
  lemma ReleasedIsKnown(cr: Crypto, s: System, a: string, content: Json)
    requires IdealSignatures(cr) && Released(cr, s, a, content)
    ensures KnownEnvelope(cr, s, SignatureOf(cr, s, a, content))
  {
    hide CanonicalJson;
    var v := cr.sign(s.nodes[a].kp.private, CanonicalJson(content));
    Base64Url.DecodeEncode(v);
    assert SignatureOf(cr, s, a, content).GetText("value") == Some(Base64Url.B64Encode(v));
  }

  /** Whatever honest agents sent may be delivered to anyone at any time. */
  lemma DeliveryEnabled(cr: Crypto, start: System, events: seq<Event>, e: Event)
    requires IdealSignatures(cr) && Initial(cr, start) && FaithfulRun(cr, start, events)
    requires var s := Reach(cr, start, events);
             e.node in s.nodes && (e.step.Receive? || e.step.Cosign?) && Faithful(s, e) && FreshStamp(s, e.step)
    ensures Enabled(cr, Reach(cr, start, events), e)
  {
    hide Reach, Initial, FaithfulRun, NodesValid, OwnUnique, SettledPaired, IdealSignatures, SignEnvelope, KnownEnvelope, Stored, FreshStamp;
    ReachCosignable(cr, start, events);
    var s := Reach(cr, start, events);
    if e.step.Receive? {
      var b :| (b, ResponseSent(e.step.response)) in s.sent;
      ReleasedIsKnown(cr, s, b, e.step.response.content);
    } else {
      var a :| (a, CosignSent(e.step.eventId, e.step.signature)) in s.sent;
      var p :| Holds(cr, s, p) && p.a == a && e.step.signature == SignatureOf(cr, s, a, p.content);
      ReleasedIsKnown(cr, s, a, p.content);
    }
  }

  lemma CosignAccepted(cr: Crypto, n: Node, a: string, ka: KeyPair, kb: KeyPair, b: string, content: Json, eventId: string)
    requires IdealSignatures(cr) && HasEvent(n.log, eventId)
    requires var r := n.log[FindEvent(n.log, eventId)];
             r.pendingPeer && IsRecord(r.record) && ContentOf(r.record) == content
             && SignaturesOf(r.record) == [SignEnvelope(cr, content, kb, b)]
    ensures AuditCosign(cr, n, JStr(eventId), SignEnvelope(cr, content, ka, a)).Ok?
            <==> a in n.peers && n.peers[a].publicKey == ka.Public(cr)
  {
    hide IdealSignatures, SignEnvelope, VerifyEnvelope, FindEvent, HasEvent, IsRecord;
    Labels(cr, content, ka, a);
    Labels(cr, content, kb, b);
    if a in n.peers {
      EnvelopeExact(cr, content, ka, a, content, n.peers[a].publicKey);
    }
  }

  /** A cosign that was accepted is refused when it comes again. */
  lemma CosignTwice(cr: Crypto, n: Node, eventId: Json, signature: Json)
    requires NodeValid(cr, n) && AuditCosign(cr, n, eventId, signature).Ok?
    ensures AuditCosign(cr, AuditCosign(cr, n, eventId, signature).value, eventId, signature) == Raise(Audit(NotPending))
  {
    hide Matched, Counted, AtMostOnce, Valid, FinalizePending;
    var key := n.peers[signature.GetText("signed_by").value].publicKey;
    FinalizeTwice(cr, n.log, ColumnOf(eventId).value, signature, key, signature, key);
  }

  /**
   A cosign push that was sent is accepted exactly where the event still waits for its peer and
   the sender is registered under its own key; and a repeated push is refused, changing nothing.
   */
  lemma CosignDelivery(cr: Crypto, start: System, events: seq<Event>, a: string, eventId: Json, signature: Json, b: string)
    requires IdealSignatures(cr) && Initial(cr, start) && FaithfulRun(cr, start, events)
    requires var s := Reach(cr, start, events); (a, CosignSent(eventId, signature)) in s.sent && a in s.nodes && b in s.nodes
    ensures var s := Reach(cr, start, events);
            var n := s.nodes[b];
            && eventId.JStr?
            && (AuditCosign(cr, n, eventId, signature).Ok? <==>
                  && PhaseOf(n.log, eventId.s) == AwaitingPeer
                  && a in n.peers && n.peers[a].publicKey == s.nodes[a].kp.Public(cr))
    ensures var n := Reach(cr, start, events).nodes[b];
            AuditCosign(cr, n, eventId, signature).Ok? ==>
              var m := AuditCosign(cr, n, eventId, signature).value;
              AuditCosign(cr, m, eventId, signature) == Raise(Audit(NotPending)) && Next(cr, m, Cosign(eventId, signature)).0 == m
  {
    hide Reach, Initial, FaithfulRun, NodesValid, MessagesBacked, OwnUnique, SettledPaired, IdealSignatures, AuditCosign, PhaseOf;
    ReachCosignable(cr, start, events);
    var s := Reach(cr, start, events);
    CosignBackedMeans(cr, s, a, eventId, signature, b);
    if AuditCosign(cr, s.nodes[b], eventId, signature).Ok? {
      NodeOf(cr, s, b);
      CosignTwice(cr, s.nodes[b], eventId, signature);
    }
  }

  lemma NodeOf(cr: Crypto, s: System, b: string)
    requires NodesValid(cr, s) && b in s.nodes
    ensures NodeValid(cr, s.nodes[b])
  {
  }

  lemma CosignBackedMeans(cr: Crypto, s: System, a: string, eventId: Json, signature: Json, b: string)
    requires IdealSignatures(cr) && NodesValid(cr, s) && OwnUnique(s) && MessagesBacked(cr, s)
    requires (a, CosignSent(eventId, signature)) in s.sent && a in s.nodes && b in s.nodes
    ensures eventId.JStr?
    ensures AuditCosign(cr, s.nodes[b], eventId, signature).Ok?
            <==> && PhaseOf(s.nodes[b].log, eventId.s) == AwaitingPeer
                 && a in s.nodes[b].peers && s.nodes[b].peers[a].publicKey == s.nodes[a].kp.Public(cr)
  {
    hide NodesValid, OwnUnique, IdealSignatures, SignEnvelope, VerifyEnvelope, IsRecord, Stored, FindEvent, HasEvent, AddSignature, Released,
         ResponseBacked;
    var n := s.nodes[b];
    CosignText(cr, s, a, eventId, signature);
    var p :| Holds(cr, s, p) && p.a == a && signature == SignatureOf(cr, s, a, p.content)
             && p.content.GetText("event_id") == Some(eventId.s);
    if PhaseOf(n.log, eventId.s) == AwaitingPeer {
      PairedTarget(cr, s, p, b, eventId.s);
      StoredSignatures(n.log, p.j, p.content, [SignatureOf(cr, s, b, p.content)]);
      CosignAccepted(cr, n, a, s.nodes[a].kp, n.kp, b, p.content, eventId.s);
    }
  }
}
