/** When two honest logs that hold the same event id must hold the same event. */
module Agreement {
  import opened Wrappers
  import opened Json
  import opened Signing
  import opened AuditEvent
  import opened AuditTable
  import opened AuditLaws
  import opened Node
  import opened NodeLaws
  import opened Network
  import opened NetworkLaws
  import Outcome

  // ---- What one step adds to a log ----

  /** Same rows up to signatures and pending marks. */
  ghost predicate SameEvents(t: Table, u: Table) {
    && |t| == |u|
    && (forall i | 0 <= i < |t| ::
          u[i].eventId == t[i].eventId && u[i].original == t[i].original
          && IsRecord(t[i].record) && IsRecord(u[i].record) && ContentOf(u[i].record) == ContentOf(t[i].record))
  }

  /** One row was added: an own one under the step's fresh id, or a peer's event verified under a registered key. */
  ghost predicate RowAdded(cr: Crypto, n: Node, step: NodeStep, u: Table) {
    && |u| == |n.log| + 1 && u[..|n.log|] == n.log
    && var r := u[|n.log|];
    && IsRecord(r.record)
    && ((OwnRow(r) && (step.Issue? || step.Begin? || step.Finish? || step.Receive?) && r.eventId == Some(step.stamp.eventId))
        || (!OwnRow(r) && step.Receive? && step.delegateeId in n.peers
            && VerifyEnvelope(cr, ContentOf(r.record), step.response.signature, n.peers[step.delegateeId].publicKey).Ok?))
  }

  lemma StepAdds(cr: Crypto, n: Node, step: NodeStep)
    requires NodeValid(cr, n)
    ensures var u := Next(cr, n, step).0.log; SameEvents(n.log, u) || RowAdded(cr, n, step, u)
  {
    hide Next, Valid, Matched, Counted, AtMostOnce, Content, SignOnly, VerifyEnvelope, FinalizePending, LatestHash, ChainHash,
         MakeRecord, IsRecord, OpOf;
    NextEffect(cr, n, step);
    var t, u := n.log, Next(cr, n, step).0.log;
    SameEventsReflexive(cr, t);
    if u != t {
      var op :| u == Step(cr, t, op) && OpOf(n, step, op);
      if op.Finalize? {
        FinalizeSame(cr, t, op);
      } else {
        AppendAdds(cr, n, step, op);
      }
    }
  }

  lemma SameEventsReflexive(cr: Crypto, t: Table)
    requires Valid(cr, t)
    ensures SameEvents(t, t)
  {
    hide Linked, Indexed, IsRecord;
  }

  lemma FinalizeSame(cr: Crypto, t: Table, op: Op)
    requires Valid(cr, t) && op.Finalize?
    ensures SameEvents(t, Step(cr, t, op))
  {
    hide Linked, Indexed, IsRecord, FinalizePending, VerifyEnvelope, FindEvent, Valid;
    SameEventsReflexive(cr, t);
    if Apply(cr, t, op).Ok? {
      FinalizeShape(cr, t, op.eventId, op.peerSignature, op.peerKey);
    }
  }

  lemma AppendAdds(cr: Crypto, n: Node, step: NodeStep, op: Op)
    requires OpOf(n, step, op) && !op.Finalize?
    ensures Step(cr, n.log, op) == n.log || RowAdded(cr, n, step, Step(cr, n.log, op))
  {
    hide Content, SignOnly, VerifyEnvelope, LatestHash, ChainHash, MakeRecord, IsRecord, FromContent, HasEvent;
    if Apply(cr, n.log, op).Ok? {
      match op
      case Self(e, kp, signer) => MakeRecordShape(Content(e), [SignOnly(cr, e, kp, signer)]);
      case Pending(e, kp, signer) => MakeRecordShape(Content(e), [SignOnly(cr, e, kp, signer)]);
      case Finalized(e, kp, signer, sig, key) => MakeRecordShape(Content(e), [SignOnly(cr, e, kp, signer), sig]);
    }
  }

  // ---- All registered peers honest ----

  ghost predicate HonestKey(cr: Crypto, s: System, key: PublicKey) {
    exists x :: x in s.nodes && s.nodes[x].kp.Public(cr) == key
  }

  ghost predicate PeersHonest(cr: Crypto, s: System) {
    forall a | a in s.nodes :: forall p | p in s.nodes[a].peers :: HonestKey(cr, s, s.nodes[a].peers[p].publicKey)
  }

  /** Every row of every log is an event some honest agent created, with the content it was created with. */
  ghost predicate AllMinted(s: System) {
    forall a | a in s.nodes :: LogMinted(s, s.nodes[a].log)
  }

  ghost predicate LogMinted(s: System, t: Table) {
    forall i | 0 <= i < |t| :: MintedRow(s, t[i])
  }

  ghost predicate MintedRow(s: System, r: Row) {
    IsRecord(r.record) && r.eventId.Some? && r.eventId.value in s.minted && s.minted[r.eventId.value] == ContentOf(r.record)
  }

  ghost predicate RegistersHonest(cr: Crypto, start: System, events: seq<Event>) {
    forall k | 0 <= k < |events| && events[k].step.Register? :: HonestKey(cr, start, events[k].step.key)
  }

  lemma PeersOfNext(cr: Crypto, n: Node, step: NodeStep)
    ensures var m := Next(cr, n, step).0;
            m.peers == n.peers || (step.Register? && m.peers == n.peers[step.agentId := m.peers[step.agentId]]
                                   && step.agentId in m.peers && m.peers[step.agentId].publicKey == step.key)
  {
    hide Apply, ReplayDetected, FromContent, Outcome.VerifyOutcome, PeekPayload, Step;
  }

  lemma PeersHonestKept(cr: Crypto, s: System, e: Event)
    requires e.node in s.nodes && PeersHonest(cr, s)
    requires e.step.Register? ==> HonestKey(cr, s, e.step.key)
    ensures PeersHonest(cr, Advance(cr, s, e))
  {
    hide Next, Signed, Minted;
    var n := s.nodes[e.node];
    var t := Advance(cr, s, e);
    PeersOfNext(cr, n, e.step);
    NextEffect(cr, n, e.step);
    forall key | HonestKey(cr, s, key)
      ensures HonestKey(cr, t, key)
    {
      var x :| x in s.nodes && s.nodes[x].kp.Public(cr) == key;
      assert t.nodes[x].kp.Public(cr) == key;
    }
  }

  lemma HonestKeySame(cr: Crypto, start: System, events: seq<Event>, key: PublicKey)
    ensures HonestKey(cr, Reach(cr, start, events), key) <==> HonestKey(cr, start, key)
    decreases |events|
  {
    hide Next, Signed, Minted, Enabled;
    if events != [] {
      HonestKeySame(cr, start, events[..|events| - 1], key);
      var s, e := Reach(cr, start, events[..|events| - 1]), events[|events| - 1];
      if Enabled(cr, s, e) {
        EnabledNode(cr, s, e);
        NextEffect(cr, s.nodes[e.node], e.step);
        if HonestKey(cr, s, key) {
          var x :| x in s.nodes && s.nodes[x].kp.Public(cr) == key;
          assert Advance(cr, s, e).nodes[x].kp.Public(cr) == key;
        }
        if HonestKey(cr, Advance(cr, s, e), key) {
          var x :| x in Advance(cr, s, e).nodes && Advance(cr, s, e).nodes[x].kp.Public(cr) == key;
          assert s.nodes[x].kp.Public(cr) == key;
        }
      }
    }
  }

  /** A peer event an agent accepts under an honest key was created by an honest agent. */
  lemma AcceptedIsMinted(cr: Crypto, s: System, key: PublicKey, content: Json, signature: Json)
    requires SystemValid(cr, s) && AllMinted(s) && HonestKey(cr, s, key) && KnownEnvelope(cr, s, signature)
    requires VerifyEnvelope(cr, content, signature, key).Ok? && EventLike(content)
    ensures IdOf(content).Some? && IdOf(content).value in s.minted && s.minted[IdOf(content).value] == content
  {
    hide NodeValid, CanonicalJson, Origins, IsRecord;
    var x :| x in s.nodes && s.nodes[x].kp.Public(cr) == key;
    assert (key, CanonicalJson(content)) in s.released;
    var t := s.nodes[x].log;
    var k :| 0 <= k < |t| && IsRecord(t[k].record) && ContentOf(t[k].record) == content;
    RowIsEvent(cr, s.nodes[x], k);
    assert LogMinted(s, t) && MintedRow(s, t[k]);
  }

  ghost predicate MintsMore(s: System, t: System) {
    forall id | id in s.minted :: id in t.minted && t.minted[id] == s.minted[id]
  }

  lemma LogMintedGrows(s: System, t: System, log: Table)
    requires LogMinted(s, log) && MintsMore(s, t)
    ensures LogMinted(t, log)
  {
    hide IsRecord;
    forall i | 0 <= i < |log|
      ensures MintedRow(t, log[i])
    {
      assert MintedRow(s, log[i]);
    }
  }

  /** A step that adds no row mints nothing and leaves minted rows minted. */
  lemma SameEventsMinted(cr: Crypto, s: System, e: Event)
    requires e.node in s.nodes && LogMinted(s, s.nodes[e.node].log)
    requires SameEvents(s.nodes[e.node].log, Next(cr, s.nodes[e.node], e.step).0.log)
    ensures var t := Advance(cr, s, e); t.minted == s.minted && LogMinted(t, t.nodes[e.node].log)
  {
    hide Next, Signed, IsRecord, OwnRow;
    var log, u := s.nodes[e.node].log, Next(cr, s.nodes[e.node], e.step).0.log;
    forall i | 0 <= i < |u|
      ensures MintedRow(Advance(cr, s, e), u[i])
    {
      assert MintedRow(s, log[i]);
    }
  }

  lemma MintedShape(cr: Crypto, n: Node, step: NodeStep, u: Table)
    requires RowAdded(cr, n, step, u)
    ensures var r := u[|n.log|]; OwnRow(r) ==> step.Issue? || step.Begin? || step.Finish? || step.Receive?
    ensures var r := u[|n.log|]; Minted(n.log, u) == if OwnRow(r) then map[step.stamp.eventId := ContentOf(r.record)] else map[]
  {
    hide OwnRow, IsRecord, VerifyEnvelope;
  }

  /** A row a step adds is minted by that step, or was minted before. */
  lemma AddedIsMinted(cr: Crypto, s: System, e: Event)
    requires SystemValid(cr, s) && AllMinted(s) && PeersHonest(cr, s) && Enabled(cr, s, e)
    requires RowAdded(cr, s.nodes[e.node], e.step, Next(cr, s.nodes[e.node], e.step).0.log)
    ensures var t := Advance(cr, s, e);
            && MintsMore(s, t) && MintedRow(t, t.nodes[e.node].log[|s.nodes[e.node].log|])
  {
    hide Next, Signed, Minted, NodeValid, Possession, Origins, IsRecord, OwnRow, VerifyEnvelope, EventLike, KnownEnvelope, Known,
         HonestKey, AllMinted;
    var n := s.nodes[e.node];
    var t := Advance(cr, s, e);
    var r := t.nodes[e.node].log[|n.log|];
    MintedShape(cr, n, e.step, t.nodes[e.node].log);
    NextKeeps(cr, n, e.step);
    RowIsEvent(cr, t.nodes[e.node], |n.log|);
    if !OwnRow(r) {
      AcceptedIsMinted(cr, s, n.peers[e.step.delegateeId].publicKey, ContentOf(r.record), e.step.response.signature);
    }
  }

  lemma AllMintedKept(cr: Crypto, s: System, e: Event)
    requires SystemValid(cr, s) && AllMinted(s) && PeersHonest(cr, s) && Enabled(cr, s, e)
    ensures AllMinted(Advance(cr, s, e))
  {
    hide Next, Signed, Minted, NodeValid, Possession, Origins, MintedRow, FreshStamp, KnownEnvelope, Known, SameEvents;
    var n := s.nodes[e.node];
    var t := Advance(cr, s, e);
    StepAdds(cr, n, e.step);
    if SameEvents(n.log, t.nodes[e.node].log) {
      SameEventsMinted(cr, s, e);
    } else {
      AddedIsMinted(cr, s, e);
      LogMintedGrows(s, t, n.log);
      assert t.nodes[e.node].log == n.log + [t.nodes[e.node].log[|n.log|]];
    }
    forall a | a in t.nodes && a != e.node
      ensures LogMinted(t, t.nodes[a].log)
    {
      LogMintedGrows(s, t, s.nodes[a].log);
    }
  }

  lemma {:induction false} ReachMinted(cr: Crypto, start: System, events: seq<Event>)
    requires Initial(cr, start) && PeersHonest(cr, start) && RegistersHonest(cr, start, events)
    ensures var s := Reach(cr, start, events); AllMinted(s) && PeersHonest(cr, s)
  {
    hide Advance, Enabled, SystemValid, Initial, PeersHonest, HonestKey, AllMinted;
    if events == [] {
      InitialMinted(cr, start);
    } else {
      var before, e := events[..|events| - 1], events[|events| - 1];
      var s := Reach(cr, start, before);
      ReachMinted(cr, start, before);
      ReachValid(cr, start, before);
      if Enabled(cr, s, e) {
        EnabledNode(cr, s, e);
        if e.step.Register? {
          HonestKeySame(cr, start, before, e.step.key);
        }
        PeersHonestKept(cr, s, e);
        AllMintedKept(cr, s, e);
      }
    }
  }

  lemma InitialMinted(cr: Crypto, s: System)
    requires Initial(cr, s)
    ensures AllMinted(s)
  {
  }

  /**
   Agreement: when agents register only honest keys, any event id that two logs hold has the
   same content in both, in every reachable state of the hostile network.
   */
  lemma LogsAgree(cr: Crypto, start: System, events: seq<Event>, a: string, i: nat, b: string, j: nat)
    requires Initial(cr, start) && PeersHonest(cr, start) && RegistersHonest(cr, start, events)
    requires var s := Reach(cr, start, events);
             && a in s.nodes && b in s.nodes && i < |s.nodes[a].log| && j < |s.nodes[b].log|
             && s.nodes[a].log[i].eventId == s.nodes[b].log[j].eventId
    ensures var s := Reach(cr, start, events);
            && IsRecord(s.nodes[a].log[i].record) && IsRecord(s.nodes[b].log[j].record)
            && ContentOf(s.nodes[a].log[i].record) == ContentOf(s.nodes[b].log[j].record)
  {
    hide Reach, PeersHonest, Initial, RegistersHonest, IsRecord;
    ReachMinted(cr, start, events);
    var s := Reach(cr, start, events);
    assert LogMinted(s, s.nodes[a].log) && LogMinted(s, s.nodes[b].log);
  }

  // ---- Without honest peers ----

  /** No row has this key; NULL is nobody's. */
  ghost predicate Lacks(t: Table, eventId: Option<string>) {
    eventId.Some? ==> !HasEvent(t, eventId.value)
  }

  /** A response a dishonest peer with keys `d` can make up about the event of another log's row. */
  ghost function ForgedResponse(cr: Crypto, event: AuditEvent, d: KeyPair): Response {
    var altered := event.(typ := JStr(TypeOf(event) + "'"));
    var outcome := Outcome.Outcome("", "ok", JNull, "", 0, None);
    Response(Outcome.SignOutcome(cr, outcome, d, ""), Content(altered), SignEnvelope(cr, Content(altered), d, ""))
  }

  /**
   The assumption is needed: an agent that registered one dishonest key can be led, in one
   step, to hold an event id of another honest log with different content.
   */
  lemma DishonestPeerSplits(cr: Crypto, s: System, a: string, x: string, j: nat, peer: string, d: KeyPair, stamp: Stamp)
    requires IdealSignatures(cr) && SystemValid(cr, s)
    requires a in s.nodes && x in s.nodes && j < |s.nodes[x].log|
    requires peer in s.nodes[a].peers && s.nodes[a].peers[peer].publicKey == d.Public(cr) && !HonestKey(cr, s, d.Public(cr))
    requires Lacks(s.nodes[a].log, s.nodes[x].log[j].eventId) && FreshId(s, stamp.eventId)
    ensures exists e, i ::
              && Enabled(cr, s, e) && e.node == a
              && var t := Advance(cr, s, e);
              && 0 <= i < |t.nodes[a].log| && t.nodes[a].log[i].eventId == s.nodes[x].log[j].eventId
              && IsRecord(t.nodes[a].log[i].record) && IsRecord(s.nodes[x].log[j].record)
              && ContentOf(t.nodes[a].log[i].record) != ContentOf(s.nodes[x].log[j].record)
  {
    hide NodeValid, IsRecord, Possession, Origins, CanonicalJson, VerifyEnvelope, SignEnvelope, Outcome.VerifyOutcome, Outcome.SignOutcome,
         LatestHash, ChainHash, FromContent, Content, HasEvent, IdealSignatures, MakeRecord, Known, HonestKey, FreshId;
    var row := s.nodes[x].log[j];
    RowIsEvent(cr, s.nodes[x], j);
    RowContent(cr, s.nodes[x], j);
    var event := FromContent(ContentOf(row.record)).value;
    var altered := event.(typ := JStr(TypeOf(event) + "'"));
    var response := ForgedResponse(cr, event, d);
    var outcome := Outcome.Outcome("", "ok", JNull, "", 0, None);
    Outcome.OutcomeExact(cr, outcome, d, "", d.Public(cr), None);
    EnvelopeExact(cr, Content(altered), d, "", Content(altered), d.Public(cr));
    FromContentOfContent(altered);
    OutsiderKnown(cr, s, Content(altered), d, "");
    var e := Event(a, Receive(peer, None, JNull, response, "", stamp, false));
    assert Enabled(cr, s, e);
    var n := s.nodes[a];
    var mine := SignOnly(cr, altered, n.kp, n.id);
    MakeRecordShape(Content(altered), [mine, response.signature]);
    var i := |n.log|;
    assert Advance(cr, s, e).nodes[a].log == n.log + [NewRow(cr, n.log, altered, MakeRecord(Content(altered), [mine, response.signature]), false)];
    if Content(altered) == ContentOf(row.record) {
      ContentInjective(altered, event);
    }
  }

  lemma RowContent(cr: Crypto, n: Node, i: nat)
    requires NodeValid(cr, n) && i < |n.log|
    ensures IsRecord(n.log[i].record) && FromContent(ContentOf(n.log[i].record)).Some?
    ensures Content(FromContent(ContentOf(n.log[i].record)).value) == ContentOf(n.log[i].record)
    ensures var e := FromContent(ContentOf(n.log[i].record)).value; KeyOf(e) == n.log[i].eventId && Storable(e)
  {
    hide Matched, Counted, AtMostOnce, Linked, FromContent, Content, IsRecord, Commits;
    assert Indexed(n.log[i]);
  }

  /** A signature by a key that is nobody's among the honest releases nothing of theirs. */
  lemma OutsiderKnown(cr: Crypto, s: System, content: Json, d: KeyPair, signer: string)
    requires IdealSignatures(cr) && !HonestKey(cr, s, d.Public(cr))
    ensures KnownEnvelope(cr, s, SignEnvelope(cr, content, d, signer))
  {
    hide CanonicalJson;
    var v := cr.sign(d.private, CanonicalJson(content));
    Base64Url.DecodeEncode(v);
    var e := SignEnvelope(cr, content, d, signer);
    assert e.GetText("value") == Some(Base64Url.B64Encode(v));
    assert forall h, m | h in s.nodes :: !cr.verify(s.nodes[h].kp.Public(cr), m, v);
  }

  // ---- Exactly when logs can come apart ----

  /** The step leaves a row of agent a's under this id with content other than the given one. */
  ghost predicate Splits(cr: Crypto, s: System, e: Event, a: string, eventId: Option<string>, content: Json)
    requires e.node in s.nodes
  {
    var t := Advance(cr, s, e);
    && a in t.nodes
    && exists i :: 0 <= i < |t.nodes[a].log| && t.nodes[a].log[i].eventId == eventId
                   && IsRecord(t.nodes[a].log[i].record) && ContentOf(t.nodes[a].log[i].record) != content
  }

  /** A row that splits an honest event was taken from a peer whose registered key is nobody's. */
  lemma SplitNeedsDishonest(cr: Crypto, s: System, e: Event, x: string, j: nat)
    requires SystemValid(cr, s) && AllMinted(s) && Enabled(cr, s, e)
    requires x in s.nodes && j < |s.nodes[x].log|
    requires RowAdded(cr, s.nodes[e.node], e.step, Next(cr, s.nodes[e.node], e.step).0.log)
    requires var r := Next(cr, s.nodes[e.node], e.step).0.log[|s.nodes[e.node].log|];
             r.eventId == s.nodes[x].log[j].eventId && ContentOf(r.record) != ContentOf(s.nodes[x].log[j].record)
    ensures e.step.Receive? && e.step.delegateeId in s.nodes[e.node].peers
    ensures !HonestKey(cr, s, s.nodes[e.node].peers[e.step.delegateeId].publicKey)
  {
    hide Next, NodeValid, Possession, Origins, IsRecord, OwnRow, VerifyEnvelope, EventLike, KnownEnvelope, Known, HonestKey;
    var n := s.nodes[e.node];
    var r := Next(cr, n, e.step).0.log[|n.log|];
    NextKeeps(cr, n, e.step);
    RowIsEvent(cr, Next(cr, n, e.step).0, |n.log|);
    assert LogMinted(s, s.nodes[x].log) && MintedRow(s, s.nodes[x].log[j]);
    if !OwnRow(r) && HonestKey(cr, s, n.peers[e.step.delegateeId].publicKey) {
      AcceptedIsMinted(cr, s, n.peers[e.step.delegateeId].publicKey, ContentOf(r.record), e.step.response.signature);
    }
  }

  /**
   While logs agree, an agent can be led to split an event of another honest log if and only if
   one of the keys it registered is no honest agent's.
   */
  lemma SplitExactly(cr: Crypto, s: System, a: string, x: string, j: nat, stamp: Stamp)
    requires IdealSignatures(cr) && SystemValid(cr, s) && AllMinted(s)
    requires a in s.nodes && x in s.nodes && j < |s.nodes[x].log|
    requires Lacks(s.nodes[a].log, s.nodes[x].log[j].eventId) && FreshId(s, stamp.eventId)
    requires forall p | p in s.nodes[a].peers :: exists d: KeyPair :: d.Public(cr) == s.nodes[a].peers[p].publicKey
    ensures IsRecord(s.nodes[x].log[j].record)
    ensures (exists e :: Enabled(cr, s, e) && e.node == a
                         && Splits(cr, s, e, a, s.nodes[x].log[j].eventId, ContentOf(s.nodes[x].log[j].record)))
            <==> exists p :: p in s.nodes[a].peers && !HonestKey(cr, s, s.nodes[a].peers[p].publicKey)
  {
    hide Next, NodeValid, Possession, Origins, IsRecord, HonestKey, FreshId, FreshStamp, KnownEnvelope, Known, HasEvent, IdealSignatures,
         Signed, Minted, SameEvents, RowAdded;
    RowIsEvent(cr, s.nodes[x], j);
    var id, content := s.nodes[x].log[j].eventId, ContentOf(s.nodes[x].log[j].record);
    assert LogMinted(s, s.nodes[x].log) && MintedRow(s, s.nodes[x].log[j]);
    if e :| Enabled(cr, s, e) && e.node == a && Splits(cr, s, e, a, id, content) {
      SplitIsNew(cr, s, e, id, content);
      SplitNeedsDishonest(cr, s, e, x, j);
    }
    if p :| p in s.nodes[a].peers && !HonestKey(cr, s, s.nodes[a].peers[p].publicKey) {
      var d: KeyPair :| d.Public(cr) == s.nodes[a].peers[p].publicKey;
      DishonestPeerSplits(cr, s, a, x, j, p, d, stamp);
    }
  }

  lemma SplitIsNew(cr: Crypto, s: System, e: Event, eventId: Option<string>, content: Json)
    requires SystemValid(cr, s) && e.node in s.nodes && eventId.Some? && Lacks(s.nodes[e.node].log, eventId)
    requires Splits(cr, s, e, e.node, eventId, content)
    ensures var n := s.nodes[e.node];
            var u := Next(cr, n, e.step).0.log;
            RowAdded(cr, n, e.step, u) && u[|n.log|].eventId == eventId && ContentOf(u[|n.log|].record) != content
  {
    hide Next, NodeValid, Possession, Origins, IsRecord, Signed, Minted, OwnRow, VerifyEnvelope;
    var n := s.nodes[e.node];
    StepAdds(cr, n, e.step);
    var u := Next(cr, n, e.step).0.log;
    if !SameEvents(n.log, u) {
      assert forall i | 0 <= i < |n.log| :: u[i] == u[..|n.log|][i];
    }
  }
}
