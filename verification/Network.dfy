/**
 Several honest agents on an open network. Between any two atomic segments anything may be
 delivered, any number of times and in any order, from whatever source, as long as it shows
 no honest signature that was not released before. Messages between honest agents are kept
 in a history, so that a faithful network can be told from a hostile one.
 */
module Network {
  import opened Wrappers
  import opened Json
  import opened Python
  import opened Utf8
  import opened Signing
  import opened Delegation
  import opened AuditEvent
  import opened AuditTable
  import opened AuditLaws
  import opened Node
  import opened NodeLaws
  import Manifest
  import Outcome

  datatype System = System(
    nodes: map<string, Node>,
    released: set<(PublicKey, Bytes)>, // honest signatures that have left their signer
    sent: set<(string, Message)>,      // messages honest agents have sent, with the sender
    minted: map<string, Json>)         // contents of the events honest agents created

  datatype Event = Event(node: string, step: NodeStep)

  // ---- What a step signs and lets out ----

  ghost function Signed(cr: Crypto, n: Node, step: NodeStep): set<Bytes> {
    var (_, message) := Next(cr, n, step);
    match (step, message)
    case (Publish(_, _, _), Some(ManifestSent(envelope))) =>
      (match envelope.Get("manifest") case None => {} case Some(m) => {CanonicalJson(m)})
    case (Issue(to, scope, purpose, constraints, expiresIn, now, jti, _), Some(TokenSent(_))) =>
      {Encode(SigningInput(Header(n.kp.kid), ToJson(NewClaims(n.id, to, scope, purpose, constraints, expiresIn, Some("local://" + n.id), now, jti))))}
    case (Finish(_, _, _, _), Some(ResponseSent(response))) =>
      (match response.outcome.Get("outcome") case None => {} case Some(o) => {CanonicalJson(o)}) + {CanonicalJson(response.content)}
    case (Receive(_, _, _, response, _, _, _), Some(CosignSent(_, _))) =>
      (match FromContent(response.content) case None => {} case Some(e) => {CanonicalJson(Content(e))})
    case (ServeLog, Some(LogSent(records))) =>
      set r | r in records && IsRecord(r) :: CanonicalJson(ContentOf(r))
    case _ => {}
  }

  /** The event content a step created, if it wrote a row of its own. */
  ghost function Minted(before: Table, after: Table): map<string, Json> {
    if |after| == |before| + 1 && OwnRow(after[|before|]) && IsRecord(after[|before|].record) && after[|before|].eventId.Some? then
      map[after[|before|].eventId.value := ContentOf(after[|before|].record)]
    else map[]
  }

  // ---- The environment ----

  /** No honest agent's key makes `value` a signature that this agent has not released. */
  ghost predicate Known(cr: Crypto, s: System, value: Bytes) {
    forall a, m | a in s.nodes && cr.verify(s.nodes[a].kp.Public(cr), m, value) :: (s.nodes[a].kp.Public(cr), m) in s.released
  }

  ghost predicate KnownEnvelope(cr: Crypto, s: System, signature: Json) {
    SignatureBytes(signature).Some? ==> Known(cr, s, SignatureBytes(signature).value)
  }

  /** uuid4: a drawn event id is new to every honest agent. */
  ghost predicate FreshId(s: System, eventId: string) {
    eventId !in s.minted && forall a | a in s.nodes :: !HasEvent(s.nodes[a].log, eventId)
  }

  ghost predicate FreshStamp(s: System, step: NodeStep) {
    (step.Issue? || step.Begin? || step.Finish? || step.Receive?) ==> FreshId(s, step.stamp.eventId)
  }

  ghost predicate Enabled(cr: Crypto, s: System, e: Event) {
    && e.node in s.nodes
    && FreshStamp(s, e.step)
    && (e.step.Begin? ==> TokenSignature(e.step.token).Some? ==> Known(cr, s, TokenSignature(e.step.token).value))
    && (e.step.Cosign? ==> KnownEnvelope(cr, s, e.step.signature))
    && (e.step.Receive? ==> KnownEnvelope(cr, s, e.step.response.signature))
  }

  ghost function Advance(cr: Crypto, s: System, e: Event): System
    requires e.node in s.nodes
  {
    var n := s.nodes[e.node];
    var (m, message) := Next(cr, n, e.step);
    System(
      s.nodes[e.node := m],
      s.released + (set b | b in Signed(cr, n, e.step) :: (n.kp.Public(cr), b)),
      s.sent + (match message case None => {} case Some(x) => {(e.node, x)}),
      s.minted + Minted(n.log, m.log))
  }

  ghost function Reach(cr: Crypto, start: System, events: seq<Event>): System {
    if events == [] then start
    else
      var s := Reach(cr, start, events[..|events| - 1]);
      var e := events[|events| - 1];
      if Enabled(cr, s, e) then Advance(cr, s, e) else s
  }

  ghost predicate Initial(cr: Crypto, s: System) {
    && (forall a | a in s.nodes :: Fresh(s.nodes[a]) && s.nodes[a].id == a)
    && (forall a, b | a in s.nodes && b in s.nodes && a != b :: s.nodes[a].kp.Public(cr) != s.nodes[b].kp.Public(cr))
    && s.released == {} && s.sent == {} && s.minted == map[]
  }

  // ---- The effect of a step on the log ----

  /** The log operation is one the step may perform: own signatures under the own key, peer signatures as delivered. */
  ghost predicate OpOf(n: Node, step: NodeStep, op: Op) {
    && (!op.Finalize? ==> op.kp == n.kp && op.signer == n.id)
    && (op.Self? || op.Pending? ==> (step.Issue? || step.Begin? || step.Finish? || step.Receive?) && op.event.eventId == JStr(step.stamp.eventId))
    && (op.Self? ==> op.event.typ !in {JStr("delegation.completed"), JStr("delegation.failed")})
    && (op.Self? && op.event.typ == JStr("delegation.issued") ==> step.Issue? && op.event.tokenJti == JStr(step.newJti))
    && (op.Self? || op.Pending? ==> op.event.typ.JStr?)
    && (op.Pending? ==> step.Finish? && op.event.typ in {JStr("delegation.completed"), JStr("delegation.failed")})
    && (op.Finalized? ==> step.Receive? && op.peerSignature == step.response.signature && step.delegateeId in n.peers
                          && op.peerKey == n.peers[step.delegateeId].publicKey && FromContent(step.response.content) == Some(op.event))
    && (op.Finalize? ==> step.Cosign? && op.peerSignature == step.signature && ColumnOf(step.eventId) == Some(op.eventId))
  }

  ghost predicate LogEffect(cr: Crypto, n: Node, step: NodeStep) {
    var m := Next(cr, n, step).0;
    m.log == n.log || exists op :: m.log == Step(cr, n.log, op) && OpOf(n, step, op)
  }

  lemma NextEffect(cr: Crypto, n: Node, step: NodeStep)
    ensures var m := Next(cr, n, step).0; m.id == n.id && m.kp == n.kp && LogEffect(cr, n, step)
  {
    hide AppendSelf, AppendPending, AppendFinalized, FinalizePending, Manifest.VerifyManifest, Manifest.SignManifest, IssueToken,
         VerifyToken, ReplayDetected, FromContent, Outcome.VerifyOutcome;
    match step
    case Issue(to, scope, purpose, constraints, expiresIn, now, jti, stamp) =>
      IssueEffect(cr, n, to, scope, purpose, constraints, expiresIn, now, jti, stamp);
    case Begin(action, token, now, stamp) => BeginEffect(cr, n, action, token, now, stamp);
    case Finish(i, result, executedAt, stamp) =>
      if i < |n.execs| && n.execs[i].phase.Running? {
        FinishEffect(cr, n, i, result, executedAt, stamp);
      }
    case Cosign(eventId, signature) => CosignEffect(cr, n, eventId, signature);
    case Receive(delegateeId, expectedSchema, jti, response, detail, stamp, push) =>
      ReceiveEffect(cr, n, delegateeId, expectedSchema, jti, response, detail, stamp, push);
    case _ =>
  }

  lemma IssueEffect(cr: Crypto, n: Node, to: string, scope: seq<string>, purpose: string, constraints: Option<map<string, Json>>,
                    expiresIn: int, now: int, jti: string, stamp: Stamp)
    ensures LogEffect(cr, n, Issue(to, scope, purpose, constraints, expiresIn, now, jti, stamp))
    ensures var m := Next(cr, n, Issue(to, scope, purpose, constraints, expiresIn, now, jti, stamp)).0; m.id == n.id && m.kp == n.kp
  {
    hide Apply, IssueToken, NewClaims, Scope.ManifestHas;
    var op := Self(IssuedEvent(n, to, scope, purpose, jti, stamp), n.kp, n.id);
    assert OpOf(n, Issue(to, scope, purpose, constraints, expiresIn, now, jti, stamp), op);
  }

  lemma BeginEffect(cr: Crypto, n: Node, action: string, token: string, now: int, stamp: Stamp)
    ensures LogEffect(cr, n, Begin(action, token, now, stamp))
    ensures var m := Next(cr, n, Begin(action, token, now, stamp)).0; m.id == n.id && m.kp == n.kp
  {
    hide Apply, VerifyToken, ReplayDetected, PeekPayload;
    if action in n.handlers {
      var v := VerifyDelegation(cr, n, token, n.handlers[action].capability, now, stamp);
      if v.1.Ok? {
        var op := Self(StartedEvent(n, v.1.value, stamp), n.kp, n.id);
        assert OpOf(n, Begin(action, token, now, stamp), op);
      } else if v.0 != n {
        var payload := PeekPayload(token).value;
        var op := Self(ReplayEvent(n, payload.GetText("iss").value, payload.Get("jti").value, stamp), n.kp, n.id);
        assert OpOf(n, Begin(action, token, now, stamp), op);
      }
    }
  }

  lemma FinishEffect(cr: Crypto, n: Node, i: nat, result: HandlerResult, executedAt: int, stamp: Stamp)
    requires i < |n.execs| && n.execs[i].phase.Running?
    ensures LogEffect(cr, n, Finish(i, result, executedAt, stamp))
    ensures var m := Next(cr, n, Finish(i, result, executedAt, stamp)).0; m.id == n.id && m.kp == n.kp
  {
    hide Apply;
    var op := Pending(CompletionEvent(cr, n.execs[i].claims, OutcomeOf(n.execs[i], result, executedAt), stamp), n.kp, n.id);
    assert OpOf(n, Finish(i, result, executedAt, stamp), op);
  }

  lemma CosignEffect(cr: Crypto, n: Node, eventId: Json, signature: Json)
    ensures LogEffect(cr, n, Cosign(eventId, signature))
    ensures var m := Next(cr, n, Cosign(eventId, signature)).0; m.id == n.id && m.kp == n.kp
  {
    hide Apply;
    var peerId := signature.GetText("signed_by");
    if peerId.Some? && peerId.value in n.peers && ColumnOf(eventId).Some? {
      assert OpOf(n, Cosign(eventId, signature), Finalize(ColumnOf(eventId).value, signature, n.peers[peerId.value].publicKey));
    }
  }

  lemma ReceiveEffect(cr: Crypto, n: Node, delegateeId: string, expectedSchema: Option<string>, jti: Json,
                      response: Response, detail: string, stamp: Stamp, push: bool)
    ensures LogEffect(cr, n, Receive(delegateeId, expectedSchema, jti, response, detail, stamp, push))
    ensures var m := Next(cr, n, Receive(delegateeId, expectedSchema, jti, response, detail, stamp, push)).0; m.id == n.id && m.kp == n.kp
  {
    hide Apply, FromContent, Outcome.VerifyOutcome;
    var step := Receive(delegateeId, expectedSchema, jti, response, detail, stamp, push);
    assert OpOf(n, step, Self(DisputeEvent(n, delegateeId, jti, detail, stamp), n.kp, n.id));
    if delegateeId in n.peers && FromContent(response.content).Some? {
      assert OpOf(n, step, Finalized(FromContent(response.content).value, n.kp, n.id, response.signature, n.peers[delegateeId].publicKey));
    }
  }
}
