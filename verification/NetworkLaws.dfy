/** Safety of the whole system: who must hold what when a signature is seen, and agreement. */
module NetworkLaws {
  import opened Wrappers
  import opened Json
  import opened Utf8
  import opened Signing
  import opened Delegation
  import opened AuditEvent
  import opened AuditTable
  import opened AuditLaws
  import opened Node
  import opened NodeLaws
  import opened Network
  import Manifest
  import Outcome

  // ---- The invariant ----

  ghost predicate HasContent(t: Table, content: Json) {
    exists i :: 0 <= i < |t| && IsRecord(t[i].record) && ContentOf(t[i].record) == content
  }

  /** Content with an event id is an event's, never a manifest or an outcome. */
  ghost predicate EventLike(content: Json) {
    content.Get("event_id").Some?
  }

  ghost predicate NodesValid(cr: Crypto, s: System) {
    && (forall a | a in s.nodes :: NodeValid(cr, s.nodes[a]) && s.nodes[a].id == a)
    && (forall a, b | a in s.nodes && b in s.nodes && a != b :: s.nodes[a].kp.Public(cr) != s.nodes[b].kp.Public(cr))
  }

  /** Store before release: whatever event content an agent has let its signature out over is in its log. */
  ghost predicate Possession(cr: Crypto, s: System) {
    forall a, content | a in s.nodes && EventLike(content) && (s.nodes[a].kp.Public(cr), CanonicalJson(content)) in s.released ::
      HasContent(s.nodes[a].log, content)
  }

  /** A stored signature is the agent's own over this content, or one that releases nothing new. */
  ghost predicate SignatureOrigin(cr: Crypto, s: System, kp: KeyPair, content: Json, signature: Json) {
    match SignatureBytes(signature)
    case None => true
    case Some(v) => v == cr.sign(kp.private, CanonicalJson(content)) || Known(cr, s, v)
  }

  ghost predicate RowOrigin(cr: Crypto, s: System, kp: KeyPair, r: Row) {
    IsRecord(r.record) ==> forall x | x in SignaturesOf(r.record) :: SignatureOrigin(cr, s, kp, ContentOf(r.record), x)
  }

  ghost predicate Origins(cr: Crypto, s: System) {
    forall a | a in s.nodes :: forall i | 0 <= i < |s.nodes[a].log| :: RowOrigin(cr, s, s.nodes[a].kp, s.nodes[a].log[i])
  }

  ghost predicate SystemValid(cr: Crypto, s: System) {
    NodesValid(cr, s) && Possession(cr, s) && Origins(cr, s)
  }

  // ---- Logs grow, knowledge grows ----

  lemma EffectGrows(cr: Crypto, n: Node, step: NodeStep)
    requires NodeValid(cr, n)
    ensures Grows(n.log, Next(cr, n, step).0.log) && Valid(cr, Next(cr, n, step).0.log)
  {
    hide Next, Valid, Matched, Counted, AtMostOnce, OpOf, Step;
    NextEffect(cr, n, step);
    var m := Next(cr, n, step).0;
    if m.log != n.log {
      var op :| m.log == Step(cr, n.log, op) && OpOf(n, step, op);
      StepGrows(cr, n.log, op);
      StepValid(cr, n.log, op);
    } else {
      GrowsReflexive(cr, n.log);
    }
  }

  lemma GrowsReflexive(cr: Crypto, t: Table)
    requires Valid(cr, t)
    ensures Grows(t, t)
  {
    hide Linked, Indexed, IsRecord;
  }

  lemma HasContentGrows(t: Table, u: Table, content: Json)
    requires Grows(t, u) && HasContent(t, content)
    ensures HasContent(u, content)
  {
    hide IsRecord;
    var i :| 0 <= i < |t| && IsRecord(t[i].record) && ContentOf(t[i].record) == content;
    assert IsRecord(u[i].record) && ContentOf(u[i].record) == content;
  }

  lemma KnownGrows(cr: Crypto, s: System, e: Event, v: Bytes)
    requires e.node in s.nodes && Known(cr, s, v)
    ensures Known(cr, Advance(cr, s, e), v)
  {
    hide Next, Signed, Minted;
    NextEffect(cr, s.nodes[e.node], e.step);
  }

  // ---- What a step signs, the agent holds ----

  lemma NotAnEvent(content: Json, other: Json)
    requires EventLike(content) && !EventLike(other)
    ensures CanonicalJson(content) != CanonicalJson(other)
  {
    if CanonicalJson(content) == CanonicalJson(other) {
      CanonicalInjective(content, other);
    }
  }

  lemma AppendedContent(cr: Crypto, t: Table, op: Op)
    requires !op.Finalize? && Apply(cr, t, op).Ok?
    ensures HasContent(Apply(cr, t, op).value, Content(op.event))
  {
    hide Content, SignOnly, VerifyEnvelope, IsRecord, MakeRecord, LatestHash, ChainHash, HasEvent;
    var u := Apply(cr, t, op).value;
    match op
    case Self(e, kp, signer) =>
      MakeRecordShape(Content(e), [SignOnly(cr, e, kp, signer)]);
      assert IsRecord(u[|t|].record) && ContentOf(u[|t|].record) == Content(e);
    case Pending(e, kp, signer) =>
      MakeRecordShape(Content(e), [SignOnly(cr, e, kp, signer)]);
      assert IsRecord(u[|t|].record) && ContentOf(u[|t|].record) == Content(e);
    case Finalized(e, kp, signer, sig, key) =>
      MakeRecordShape(Content(e), [SignOnly(cr, e, kp, signer), sig]);
      assert IsRecord(u[|t|].record) && ContentOf(u[|t|].record) == Content(e);
  }

  /** Store before release, for one step: event content signed by the step is in the log it leaves. */
  lemma SignedIsStored(cr: Crypto, n: Node, step: NodeStep, content: Json)
    requires EventLike(content) && CanonicalJson(content) in Signed(cr, n, step)
    ensures HasContent(Next(cr, n, step).0.log, content)
  {
    hide Next, CanonicalJson, HasContent, EventLike, NewClaims, FromContent, Header;
    match step
    case Publish(capabilities, version, description) => SignedPublish(cr, n, step, content);
    case Issue(to, scope, purpose, constraints, expiresIn, now, jti, stamp) =>
      SignedIssue(cr, n, step, content);
    case Finish(i, result, executedAt, stamp) => SignedFinish(cr, n, step, content);
    case Receive(delegateeId, expectedSchema, jti, response, detail, stamp, push) => SignedReceive(cr, n, step, content);
    case ServeLog => SignedServe(cr, n, step, content);
    case _ =>
  }

  lemma SignedPublish(cr: Crypto, n: Node, step: NodeStep, content: Json)
    requires step.Publish? && EventLike(content)
    ensures CanonicalJson(content) !in Signed(cr, n, step)
  {
    hide CanonicalJson, SignEnvelope;
    var m := Manifest.Manifest(n.id, step.version, step.capabilities, [], step.description, None);
    assert Manifest.SignManifest(cr, m, n.kp).Get("manifest") == Some(m.ToContent());
    NotAnEvent(content, m.ToContent());
  }

  lemma SignedIssue(cr: Crypto, n: Node, step: NodeStep, content: Json)
    requires step.Issue? && EventLike(content)
    ensures CanonicalJson(content) !in Signed(cr, n, step)
  {
    hide CanonicalJson, Next, SigningInput;
    var claims := NewClaims(n.id, step.to, step.scope, step.purpose, step.constraints, step.expiresIn, Some("local://" + n.id), step.now, step.newJti);
    DomainsDisjoint(Header(n.kp.kid), ToJson(claims), content);
  }

  lemma SignedFinish(cr: Crypto, n: Node, step: NodeStep, content: Json)
    requires step.Finish? && EventLike(content) && CanonicalJson(content) in Signed(cr, n, step)
    ensures HasContent(Next(cr, n, step).0.log, content)
  {
    hide CanonicalJson, SignEnvelope, HasContent, Apply, SignOnly;
    if step.exec < |n.execs| && n.execs[step.exec].phase.Running? {
      var exec := n.execs[step.exec];
      var outcome := OutcomeOf(exec, step.result, step.executedAt);
      var event := CompletionEvent(cr, exec.claims, outcome, step.stamp);
      var op := Pending(event, n.kp, n.id);
      if Apply(cr, n.log, op).Ok? {
        AppendedContent(cr, n.log, op);
        assert Outcome.SignOutcome(cr, outcome, n.kp, n.id).Get("outcome") == Some(Outcome.ToContent(cr, outcome));
        NotAnEvent(content, Outcome.ToContent(cr, outcome));
        CanonicalInjective(content, Content(event));
      }
    }
  }

  lemma SignedReceive(cr: Crypto, n: Node, step: NodeStep, content: Json)
    requires step.Receive? && EventLike(content) && CanonicalJson(content) in Signed(cr, n, step)
    ensures HasContent(Next(cr, n, step).0.log, content)
  {
    hide CanonicalJson, HasContent, Apply, SignOnly, FromContent, Outcome.VerifyOutcome, Content;
    var event := FromContent(step.response.content).value;
    var op := Finalized(event, n.kp, n.id, step.response.signature, n.peers[step.delegateeId].publicKey);
    AppendedContent(cr, n.log, op);
    CanonicalInjective(content, Content(event));
  }

  lemma SignedServe(cr: Crypto, n: Node, step: NodeStep, content: Json)
    requires step.ServeLog? && EventLike(content) && CanonicalJson(content) in Signed(cr, n, step)
    ensures HasContent(Next(cr, n, step).0.log, content)
  {
    hide CanonicalJson, IsRecord, SortByKey;
    var records := Records(SortByKey(n.log));
    var r :| r in records && IsRecord(r) && CanonicalJson(ContentOf(r)) == CanonicalJson(content);
    CanonicalInjective(content, ContentOf(r));
    var k :| 0 <= k < |records| && records[k] == r;
    var row := SortByKey(n.log)[k];
    assert row in multiset(n.log);
    var i :| 0 <= i < |n.log| && n.log[i] == row;
  }

  // ---- Each step keeps the invariant ----

  lemma PossessionKept(cr: Crypto, s: System, e: Event)
    requires NodesValid(cr, s) && Possession(cr, s) && e.node in s.nodes
    ensures Possession(cr, Advance(cr, s, e))
  {
    hide Next, Signed, Minted, HasContent, EventLike, CanonicalJson, NodeValid, Grows;
    var t := Advance(cr, s, e);
    var n := s.nodes[e.node];
    NextEffect(cr, n, e.step);
    EffectGrows(cr, n, e.step);
    forall a, content | a in t.nodes && EventLike(content) && (t.nodes[a].kp.Public(cr), CanonicalJson(content)) in t.released
      ensures HasContent(t.nodes[a].log, content)
    {
      if (s.nodes[a].kp.Public(cr), CanonicalJson(content)) in s.released {
        if a == e.node {
          HasContentGrows(n.log, t.nodes[a].log, content);
        }
      } else {
        assert a == e.node;
        SignedIsStored(cr, n, e.step, content);
      }
    }
  }

  lemma OwnOrigin(cr: Crypto, s: System, event: AuditEvent, kp: KeyPair, signer: string)
    ensures SignatureOrigin(cr, s, kp, Content(event), SignOnly(cr, event, kp, signer))
  {
    hide Known, Content, CanonicalJson;
    var sig := SignOnly(cr, event, kp, signer);
    Base64Url.DecodeEncode(cr.sign(kp.private, CanonicalJson(Content(event))));
    assert sig.GetText("value") == Some(Base64Url.B64Encode(cr.sign(kp.private, CanonicalJson(Content(event)))));
  }

  /** Signatures a log operation adds are the agent's own or come from outside. */
  lemma OpOrigins(cr: Crypto, s: System, n: Node, step: NodeStep, op: Op)
    requires Valid(cr, n.log) && OpOf(n, step, op)
    requires step.Cosign? ==> KnownEnvelope(cr, s, step.signature)
    requires step.Receive? ==> KnownEnvelope(cr, s, step.response.signature)
    requires forall i | 0 <= i < |n.log| :: RowOrigin(cr, s, n.kp, n.log[i])
    ensures forall i | 0 <= i < |Step(cr, n.log, op)| :: RowOrigin(cr, s, n.kp, Step(cr, n.log, op)[i])
  {
    hide SignatureOrigin, Content, SignOnly, VerifyEnvelope, MakeRecord, IsRecord, FinalizePending, Linked, Indexed, FindEvent,
         FromContent, HasEvent, KnownEnvelope;
    if Apply(cr, n.log, op).Ok? {
      match op
      case Self(event, kp, signer) =>
        OwnOrigin(cr, s, event, kp, signer);
        MakeRecordShape(Content(event), [SignOnly(cr, event, kp, signer)]);
      case Pending(event, kp, signer) =>
        OwnOrigin(cr, s, event, kp, signer);
        MakeRecordShape(Content(event), [SignOnly(cr, event, kp, signer)]);
      case Finalized(event, kp, signer, sig, key) =>
        OwnOrigin(cr, s, event, kp, signer);
        PeerOrigin(cr, s, kp, Content(event), sig);
        MakeRecordShape(Content(event), [SignOnly(cr, event, kp, signer), sig]);
      case Finalize(id, sig, key) =>
        FinalizeShape(cr, n.log, id, sig, key);
        PeerOrigin(cr, s, n.kp, ContentOf(n.log[FindEvent(n.log, id)].record), sig);
    }
  }

  lemma PeerOrigin(cr: Crypto, s: System, kp: KeyPair, content: Json, signature: Json)
    requires KnownEnvelope(cr, s, signature)
    ensures SignatureOrigin(cr, s, kp, content, signature)
  {
  }

  lemma OriginGrows(cr: Crypto, s: System, e: Event, kp: KeyPair, r: Row)
    requires e.node in s.nodes && RowOrigin(cr, s, kp, r)
    ensures RowOrigin(cr, Advance(cr, s, e), kp, r)
  {
    hide Known, Advance, CanonicalJson, IsRecord;
    if IsRecord(r.record) {
      forall x | x in SignaturesOf(r.record)
        ensures SignatureOrigin(cr, Advance(cr, s, e), kp, ContentOf(r.record), x)
      {
        assert SignatureOrigin(cr, s, kp, ContentOf(r.record), x);
        if SignatureBytes(x).Some? && Known(cr, s, SignatureBytes(x).value) {
          KnownGrows(cr, s, e, SignatureBytes(x).value);
        }
      }
    }
  }

  lemma OriginsKept(cr: Crypto, s: System, e: Event)
    requires NodesValid(cr, s) && Origins(cr, s) && Enabled(cr, s, e)
    ensures Origins(cr, Advance(cr, s, e))
  {
    hide Next, Signed, Minted, NodeValid, RowOrigin, Step, OpOf, KnownEnvelope, Known, FreshStamp;
    var t := Advance(cr, s, e);
    var n := s.nodes[e.node];
    NextEffect(cr, n, e.step);
    ValidLog(cr, n);
    forall a | a in t.nodes
      ensures forall i | 0 <= i < |t.nodes[a].log| :: RowOrigin(cr, t, t.nodes[a].kp, t.nodes[a].log[i])
    {
      if a == e.node && t.nodes[a].log != n.log {
        var op :| t.nodes[a].log == Step(cr, n.log, op) && OpOf(n, e.step, op);
        OpOrigins(cr, s, n, e.step, op);
      }
      forall i | 0 <= i < |t.nodes[a].log|
        ensures RowOrigin(cr, t, t.nodes[a].kp, t.nodes[a].log[i])
      {
        OriginGrows(cr, s, e, t.nodes[a].kp, t.nodes[a].log[i]);
      }
    }
  }

  lemma ValidLog(cr: Crypto, n: Node)
    requires NodeValid(cr, n)
    ensures Valid(cr, n.log)
  {
  }

  lemma NodesKept(cr: Crypto, s: System, e: Event)
    requires NodesValid(cr, s) && e.node in s.nodes
    ensures NodesValid(cr, Advance(cr, s, e))
  {
    hide Next, Signed, Minted, NodeValid;
    NextEffect(cr, s.nodes[e.node], e.step);
    NextKeeps(cr, s.nodes[e.node], e.step);
  }

  lemma {:induction false} ReachValid(cr: Crypto, start: System, events: seq<Event>)
    requires Initial(cr, start)
    ensures SystemValid(cr, Reach(cr, start, events))
  {
    hide Advance, Enabled, NodesValid, Possession, Origins;
    if events == [] {
      InitialValid(cr, start);
    } else {
      var s, e := Reach(cr, start, events[..|events| - 1]), events[|events| - 1];
      ReachValid(cr, start, events[..|events| - 1]);
      if Enabled(cr, s, e) {
        EnabledNode(cr, s, e);
        NodesKept(cr, s, e);
        PossessionKept(cr, s, e);
        OriginsKept(cr, s, e);
      }
    }
  }

  lemma EnabledNode(cr: Crypto, s: System, e: Event)
    requires Enabled(cr, s, e)
    ensures e.node in s.nodes
  {
  }

  lemma InitialValid(cr: Crypto, s: System)
    requires Initial(cr, s)
    ensures SystemValid(cr, s)
  {
    hide NodeValid;
    forall a | a in s.nodes
      ensures NodeValid(cr, s.nodes[a])
    {
      FreshValid(cr, s.nodes[a]);
    }
  }

  // ---- The laws of runs apply to every agent's log ----

  ghost predicate IsRun(cr: Crypto, t: Table) {
    exists ops :: t == Run(cr, ops)
  }

  lemma StepIsRun(cr: Crypto, t: Table, op: Op)
    requires IsRun(cr, t)
    ensures IsRun(cr, Step(cr, t, op))
  {
    hide Step;
    var ops :| t == Run(cr, ops);
    assert (ops + [op])[..|ops|] == ops;
    assert Step(cr, t, op) == Run(cr, ops + [op]);
  }

  lemma NextIsRun(cr: Crypto, n: Node, step: NodeStep)
    requires IsRun(cr, n.log)
    ensures IsRun(cr, Next(cr, n, step).0.log)
  {
    hide Next, IsRun, OpOf, Step;
    NextEffect(cr, n, step);
    var u := Next(cr, n, step).0.log;
    if u != n.log {
      var op :| u == Step(cr, n.log, op) && OpOf(n, step, op);
      StepIsRun(cr, n.log, op);
    }
  }

  /** Every log in a reachable system is what some run of log operations makes. */
  lemma {:induction false} LogsAreRuns(cr: Crypto, start: System, events: seq<Event>, a: string)
    requires Initial(cr, start) && a in Reach(cr, start, events).nodes
    ensures IsRun(cr, Reach(cr, start, events).nodes[a].log)
  {
    hide Next, Signed, Minted, Enabled, IsRun;
    if events == [] {
      EmptyIsRun(cr);
    } else {
      var s, e := Reach(cr, start, events[..|events| - 1]), events[|events| - 1];
      if Enabled(cr, s, e) {
        EnabledNode(cr, s, e);
        LogsAreRuns(cr, start, events[..|events| - 1], a);
        NextIsRun(cr, s.nodes[a], e.step);
      } else {
        LogsAreRuns(cr, start, events[..|events| - 1], a);
      }
    }
  }

  lemma EmptyIsRun(cr: Crypto)
    ensures IsRun(cr, [])
  {
    assert Run(cr, []) == [];
  }

  // ---- Signature implies possession ----

  /**
   In every reachable state, under any loss, duplication, reordering or forgery short of an
   honest signature: if a row of any honest log carries a signature that verifies under honest
   agent x's key, then x's own log holds a row with exactly that content.
   */
  lemma SignatureImpliesPossession(cr: Crypto, start: System, events: seq<Event>, a: string, i: nat, signature: Json, x: string)
    requires IdealSignatures(cr) && Initial(cr, start)
    requires var s := Reach(cr, start, events);
             && a in s.nodes && x in s.nodes && i < |s.nodes[a].log|
             && IsRecord(s.nodes[a].log[i].record) && signature in SignaturesOf(s.nodes[a].log[i].record)
             && VerifyEnvelope(cr, ContentOf(s.nodes[a].log[i].record), signature, s.nodes[x].kp.Public(cr)).Ok?
    ensures var s := Reach(cr, start, events); HasContent(s.nodes[x].log, ContentOf(s.nodes[a].log[i].record))
  {
    hide Reach, Initial, NodesValid, Possession, Origins, RowOrigin, IsRecord;
    ReachValid(cr, start, events);
    PossessedBySigner(cr, Reach(cr, start, events), a, i, signature, x);
  }

  lemma PossessedBySigner(cr: Crypto, s: System, a: string, i: nat, signature: Json, x: string)
    requires IdealSignatures(cr) && SystemValid(cr, s)
    requires a in s.nodes && x in s.nodes && i < |s.nodes[a].log|
    requires IsRecord(s.nodes[a].log[i].record) && signature in SignaturesOf(s.nodes[a].log[i].record)
    requires VerifyEnvelope(cr, ContentOf(s.nodes[a].log[i].record), signature, s.nodes[x].kp.Public(cr)).Ok?
    ensures HasContent(s.nodes[x].log, ContentOf(s.nodes[a].log[i].record))
  {
    hide CanonicalJson, NodeValid, IsRecord;
    var r := s.nodes[a].log[i];
    var content := ContentOf(r.record);
    var key := s.nodes[x].kp.Public(cr);
    RowIsEvent(cr, s.nodes[a], i);
    assert RowOrigin(cr, s, s.nodes[a].kp, r);
    assert SignatureOrigin(cr, s, s.nodes[a].kp, content, signature);
    var v := SignatureBytes(signature).value;
    assert cr.verify(key, CanonicalJson(content), v);
    if Known(cr, s, v) {
      assert (key, CanonicalJson(content)) in s.released;
    } else {
      assert x == a;
    }
  }

  lemma RowIsEvent(cr: Crypto, n: Node, i: nat)
    requires NodeValid(cr, n) && i < |n.log|
    ensures IsRecord(n.log[i].record) && EventLike(ContentOf(n.log[i].record))
    ensures IdOf(ContentOf(n.log[i].record)) == n.log[i].eventId
  {
    hide Matched, Counted, AtMostOnce, Linked, FromContent, IsRecord, Commits;
    assert Indexed(n.log[i]);
    var e := FromContent(ContentOf(n.log[i].record)).value;
    assert Content(e).Get("event_id") == Some(e.eventId);
  }

  // ---- Agreement ----

  /**
   Agreement, whoever else takes part: if a's row carries a signature valid under x's key, any
   row of x's log with the same event id has the same content.
   */
  lemma SignedRowsAgree(cr: Crypto, s: System, a: string, i: nat, signature: Json, x: string, j: nat)
    requires IdealSignatures(cr) && SystemValid(cr, s)
    requires a in s.nodes && x in s.nodes && i < |s.nodes[a].log| && j < |s.nodes[x].log|
    requires IsRecord(s.nodes[a].log[i].record) && signature in SignaturesOf(s.nodes[a].log[i].record)
    requires VerifyEnvelope(cr, ContentOf(s.nodes[a].log[i].record), signature, s.nodes[x].kp.Public(cr)).Ok?
    requires s.nodes[a].log[i].eventId == s.nodes[x].log[j].eventId && s.nodes[x].log[j].eventId.Some?
    ensures IsRecord(s.nodes[x].log[j].record)
    ensures ContentOf(s.nodes[x].log[j].record) == ContentOf(s.nodes[a].log[i].record)
  {
    hide NodeValid, IsRecord, Possession, Origins;
    PossessedBySigner(cr, s, a, i, signature, x);
    RowIsEvent(cr, s.nodes[a], i);
    RowIsEvent(cr, s.nodes[x], j);
    var t := s.nodes[x].log;
    var k :| 0 <= k < |t| && IsRecord(t[k].record) && ContentOf(t[k].record) == ContentOf(s.nodes[a].log[i].record);
    RowIsEvent(cr, s.nodes[x], k);
    SameIdSameRow(cr, s.nodes[x], j, k);
  }

  lemma SameIdSameRow(cr: Crypto, n: Node, j: nat, k: nat)
    requires NodeValid(cr, n) && j < |n.log| && k < |n.log| && n.log[j].eventId == n.log[k].eventId && n.log[j].eventId.Some?
    ensures j == k
  {
    hide Matched, Counted, AtMostOnce, Linked, Indexed, Commits;
  }
}
