/** The exchange the protocol exists for: issue, invoke, answer, receive, cosign. */
module Exchange {
  import opened Wrappers
  import opened Json
  import opened Signing
  import opened Delegation
  import opened Scope
  import opened AuditEvent
  import opened AuditTable
  import opened AuditLaws
  import opened Node
  import opened NodeLaws
  import opened Cosigning
  import Outcome
  import Replay

  // ---- The answer ----

  /** The event behind an answer. */
  ghost function AnswerEvent(cr: Crypto, n: Node, i: nat, result: HandlerResult, executedAt: int, stamp: Stamp): AuditEvent
    requires i < |n.execs|
  {
    CompletionEvent(cr, n.execs[i].claims, OutcomeOf(n.execs[i], result, executedAt), stamp)
  }

  /** An answer is the signed outcome and the signed event, stored as a pending row. */
  lemma AnswerShape(cr: Crypto, n: Node, i: nat, result: HandlerResult, executedAt: int, stamp: Stamp)
    requires i < |n.execs| && n.execs[i].phase.Running? && !HasEvent(n.log, stamp.eventId)
    ensures var (m, answer) := InvokeFinish(cr, n, i, result, executedAt, stamp);
            var event := AnswerEvent(cr, n, i, result, executedAt, stamp);
            && answer == Ok(Response(Outcome.SignOutcome(cr, OutcomeOf(n.execs[i], result, executedAt), n.kp, n.id),
                                     Content(event), SignOnly(cr, event, n.kp, n.id)))
            && m.log == n.log + [NewRow(cr, n.log, event, MakeRecord(Content(event), [SignOnly(cr, event, n.kp, n.id)]), true)]
            && m.id == n.id && m.kp == n.kp && m.peers == n.peers
  {
    hide Outcome.SignOutcome, OutcomeOf, Content, SignOnly, NewRow, HasEvent, MakeRecord;
  }

  /**
   The answer to a request says what the handler did, and its event binds that by the payload's
   hash: same jti, same status, same schema, and `delegation.completed` exactly for a result.
   */
  lemma AnswerBindsOutcome(cr: Crypto, n: Node, i: nat, result: HandlerResult, executedAt: int, stamp: Stamp)
    requires i < |n.execs| && n.execs[i].phase.Running? && !HasEvent(n.log, stamp.eventId)
    ensures var claims := n.execs[i].claims;
            var answer := InvokeFinish(cr, n, i, result, executedAt, stamp).1;
            && answer.Ok?
            && var outcome, event := answer.value.outcome.Get("outcome"), FromContent(answer.value.content);
            && outcome.Some? && event.Some? && event.value.eventId == JStr(stamp.eventId) && event.value.ts == stamp.ts
            && event.value.tokenJti == JStr(claims.jti) && outcome.value.Get("token_jti") == Some(JStr(claims.jti))
            && event.value.delegatorId == JStr(claims.iss) && event.value.delegateeId == JStr(claims.sub)
            && JObj(event.value.fields).Get("status") == outcome.value.Get("status")
            && JObj(event.value.fields).Get("schema_id") == outcome.value.Get("schema_id") == Some(JStr(n.execs[i].schemaId))
            && outcome.value.Get("payload").Some?
            && JObj(event.value.fields).Get("outcome_hash") == Some(JStr(Outcome.PayloadHash(cr, outcome.value.Get("payload").value)))
            && (event.value.typ == JStr("delegation.completed") <==> result.Returned?)
            && (event.value.typ == JStr("delegation.failed") <==> result.Raised?)
            && (result.Returned? ==> outcome.value.Get("payload") == Some(result.payload))
            && (result.Raised? ==> outcome.value.GetText("reason") == Some(result.message)
                                   && outcome.value.Get("payload").value.GetText("error") == Some(result.className))
  {
    hide InvokeFinish, SignEnvelope, Content, FromContent, SignOnly, NewRow, HasEvent, MakeRecord, Outcome.PayloadHash, Texts;
    AnswerShape(cr, n, i, result, executedAt, stamp);
    var event := AnswerEvent(cr, n, i, result, executedAt, stamp);
    var o := OutcomeOf(n.execs[i], result, executedAt);
    FromContentOfContent(event);
    OutcomeFields(cr, o, n.kp, n.id);
    EventFields(cr, n.execs[i].claims, o, stamp);
  }

  lemma OutcomeFields(cr: Crypto, o: Outcome.Outcome, kp: KeyPair, signer: string)
    ensures Outcome.SignOutcome(cr, o, kp, signer).Get("outcome") == Some(Outcome.ToContent(cr, o))
    ensures var c := Outcome.ToContent(cr, o);
            && c.Get("token_jti") == Some(JStr(o.tokenJti)) && c.Get("status") == Some(JStr(o.status))
            && c.Get("payload") == Some(o.payload) && c.Get("schema_id") == Some(JStr(o.schemaId))
            && (o.reason.Some? ==> c.GetText("reason") == Some(o.reason.value))
  {
    hide SignEnvelope, Outcome.PayloadHash;
  }

  lemma EventFields(cr: Crypto, claims: Claims, o: Outcome.Outcome, stamp: Stamp)
    ensures var f := JObj(CompletionEvent(cr, claims, o, stamp).fields);
            && f.Get("status") == Some(JStr(o.status)) && f.Get("schema_id") == Some(JStr(o.schemaId))
            && f.Get("outcome_hash") == Some(JStr(Outcome.PayloadHash(cr, o.payload)))
  {
    hide Outcome.PayloadHash, Texts;
  }

  /**
   A client accepts an honest answer exactly when it knows the answerer under its own key,
   expects no other schema, and does not hold the event already.
   */
  lemma AnswerAccepted(cr: Crypto, b: Node, i: nat, result: HandlerResult, executedAt: int, stamp: Stamp,
                       a: Node, expectedSchema: Option<string>, jti: Json, detail: string, stamp': Stamp)
    requires IdealSignatures(cr) && i < |b.execs| && b.execs[i].phase.Running? && !HasEvent(b.log, stamp.eventId)
    ensures var answer := InvokeFinish(cr, b, i, result, executedAt, stamp).1.value;
            var (m, receipt) := ClientReceive(cr, a, b.id, expectedSchema, jti, answer, detail, stamp');
            var event := AnswerEvent(cr, b, i, result, executedAt, stamp);
            && (receipt.Ok? <==> && b.id in a.peers && a.peers[b.id].publicKey == b.kp.Public(cr)
                                 && (expectedSchema.None? || expectedSchema.value == b.execs[i].schemaId)
                                 && !HasEvent(a.log, stamp.eventId))
            && (receipt.Ok? ==> && receipt.value == SignOnly(cr, event, a.kp, a.id)
                                && m == a.(log := a.log + [NewRow(cr, a.log, event, MakeRecord(Content(event),
                                                                   [receipt.value, SignOnly(cr, event, b.kp, b.id)]), false)]))
  {
    hide IdealSignatures, InvokeFinish, SignEnvelope, VerifyEnvelope, Content, FromContent, HasEvent, MakeRecord, Outcome.SignOutcome,
         Outcome.VerifyOutcome, CompletionEvent, LatestHash, ChainHash;
    AnswerShape(cr, b, i, result, executedAt, stamp);
    var event := AnswerEvent(cr, b, i, result, executedAt, stamp);
    EventId(cr, b.execs[i].claims, OutcomeOf(b.execs[i], result, executedAt), stamp);
    FromContentOfContent(event);
    if b.id in a.peers {
      var key := a.peers[b.id].publicKey;
      Outcome.OutcomeExact(cr, OutcomeOf(b.execs[i], result, executedAt), b.kp, b.id, key, expectedSchema);
      EnvelopeExact(cr, Content(event), b.kp, b.id, Content(event), key);
    }
  }

  lemma EventId(cr: Crypto, claims: Claims, o: Outcome.Outcome, stamp: Stamp)
    ensures var e := CompletionEvent(cr, claims, o, stamp); e.eventId == JStr(stamp.eventId) && Storable(e)
  {
  }

  // ---- The whole exchange ----

  /** What the delegator asks for, what the handler does, and the clock and ids along the way. */
  datatype Plan = Plan(
    action: string, scope: seq<string>, purpose: string, constraints: Option<map<string, Json>>, expiresIn: int,
    issuedAt: int, jti: string, begunAt: int, result: HandlerResult, executedAt: int,
    issue: Stamp, start: Stamp, end: Stamp, dispute: Stamp)

  /** The parties know each other, the delegator may delegate the scope, and the handler falls under it. */
  ghost predicate Ready(cr: Crypto, a: Node, b: Node, p: Plan) {
    && a.manifest.Some? && a.id != b.id
    && (forall k | 0 <= k < |p.scope| :: ManifestHas(a.manifest.value, p.scope[k]))
    && a.id in b.peers && b.peers[a.id].publicKey == a.kp.Public(cr) && b.peers[a.id].manifest == a.manifest.value
    && b.id in a.peers && a.peers[b.id].publicKey == b.kp.Public(cr)
    && p.action != "" && p.action in b.handlers && ScopeCovers(p.scope, b.handlers[p.action].capability)
    && 0 < p.expiresIn <= MAX_TTL_SECONDS && p.issuedAt <= p.begunAt < p.issuedAt + p.expiresIn
  }

  ghost predicate FreshIds(a: Node, b: Node, p: Plan) {
    && !JtiUsed(b.log, JStr(p.jti))
    && !HasEvent(a.log, p.issue.eventId) && !HasEvent(b.log, p.start.eventId)
    && !HasEvent(a.log, p.end.eventId) && !HasEvent(b.log, p.end.eventId)
    && p.end.eventId != p.issue.eventId && p.end.eventId != p.start.eventId
  }

  ghost function Issued(cr: Crypto, a: Node, b: Node, p: Plan): Result<(Node, string), NodeError> {
    IssueDelegation(cr, a, b.id, p.scope, p.purpose, p.constraints, p.expiresIn, p.issuedAt, p.jti, p.issue)
  }

  ghost function PlanClaims(a: Node, b: Node, p: Plan): Claims {
    IssuedClaims(a, b.id, p.scope, p.purpose, p.constraints, p.expiresIn, p.issuedAt, p.jti)
  }

  lemma IssueSucceeds(cr: Crypto, a: Node, b: Node, p: Plan)
    requires Ready(cr, a, b, p) && FreshIds(a, b, p)
    ensures Issued(cr, a, b, p).Ok?
    ensures var (a1, token) := Issued(cr, a, b, p).value;
            && a1 == a.(log := a1.log) && !HasEvent(a1.log, p.end.eventId)
            && token == SignCompact(cr, ToJson(PlanClaims(a, b, p)), a.kp) && token != ""
  {
    hide SignCompact, ManifestHas, ToJson, ScopeCovers, JtiUsed, LatestHash, ChainHash, SignOnly, MakeRecord, Content;
    Replay.TokenNotEmpty(cr, ToJson(PlanClaims(a, b, p)), a.kp);
  }

  lemma BeginSucceeds(cr: Crypto, a: Node, b: Node, p: Plan)
    requires IdealSignatures(cr) && NodeValid(cr, b) && Ready(cr, a, b, p) && FreshIds(a, b, p)
    ensures var token := SignCompact(cr, ToJson(PlanClaims(a, b, p)), a.kp);
            var (b1, begun) := InvokeBegin(cr, b, p.action, token, p.begunAt, p.start);
            && begun == Ok(|b.execs|) && !HasEvent(b1.log, p.end.eventId) && |b1.log| == |b.log| + 1
            && b1.id == b.id && b1.kp == b.kp && b1.peers == b.peers && |b1.execs| == |b.execs| + 1
            && b1.execs[|b.execs|].phase.Running? && b1.execs[|b.execs|].claims == PlanClaims(a, b, p)
            && b1.execs[|b.execs|].schemaId == b.handlers[p.action].schemaId
  {
    hide IdealSignatures, NodeValid, SignCompact, ManifestHas, ToJson, ScopeCovers, JtiUsed, LatestHash, ChainHash, SignOnly, MakeRecord,
         VerifyDelegation, Content, RawJti;
    var claims := PlanClaims(a, b, p);
    var token := SignCompact(cr, ToJson(claims), a.kp);
    Replay.TokenNotEmpty(cr, ToJson(claims), a.kp);
    AcceptsIssued(cr, a, b, p);
    AcceptedFacts(cr, b, token, b.handlers[p.action].capability, p.begunAt, p.start);
  }

  lemma AcceptsIssued(cr: Crypto, a: Node, b: Node, p: Plan)
    requires IdealSignatures(cr) && NodeValid(cr, b) && Ready(cr, a, b, p) && FreshIds(a, b, p)
    ensures VerifyDelegation(cr, b, SignCompact(cr, ToJson(PlanClaims(a, b, p)), a.kp), b.handlers[p.action].capability, p.begunAt, p.start).1
            == Ok(PlanClaims(a, b, p))
  {
    hide IdealSignatures, NodeValid, SignCompact, ManifestHas, ToJson, ScopeCovers, JtiUsed, VerifyDelegation, IssueDelegation, HasEvent,
         Begun, ReceivedUse;
    IssueSucceeds(cr, a, b, p);
    UsedExactly(cr, b, JStr(p.jti));
    IssuedAccepted(cr, a, b.id, p.scope, p.purpose, p.constraints, p.expiresIn, p.issuedAt, p.jti, p.issue,
                   b, b.handlers[p.action].capability, p.begunAt, p.start);
  }

  /** The row an append put last is the one its id finds. */
  lemma FindLast(t: Table, r: Row)
    requires r.eventId.Some? && !HasEvent(t, r.eventId.value)
    ensures HasEvent(t + [r], r.eventId.value) && FindEvent(t + [r], r.eventId.value) == |t|
  {
    var u := t + [r];
    assert u[|t|] == r && forall k | 0 <= k < |t| :: u[k] == t[k];
  }

  /** Cosigning the pending answer makes the twin of the delegator's row. */
  lemma SettleAnswer(cr: Crypto, a: Node, b: Node, event: AuditEvent)
    requires IdealSignatures(cr) && a.id != b.id && event.eventId.JStr? && !HasEvent(b.log, event.eventId.s)
    requires a.id in b.peers && b.peers[a.id].publicKey == a.kp.Public(cr)
    ensures var sa, sb := SignOnly(cr, event, a.kp, a.id), SignOnly(cr, event, b.kp, b.id);
            var t := a.log + [NewRow(cr, a.log, event, MakeRecord(Content(event), [sa, sb]), false)];
            var n := b.(log := b.log + [NewRow(cr, b.log, event, MakeRecord(Content(event), [sb]), true)]);
            var settled := AuditCosign(cr, n, event.eventId, sa);
            && settled.Ok? && Twins(t, |a.log|, settled.value.log, |b.log|)
            && !settled.value.log[|b.log|].pendingPeer
  {
    hide IdealSignatures, SignEnvelope, VerifyEnvelope, Content, HasEvent, FindEvent, LatestHash, ChainHash, MakeRecord, IsRecord, AddSignature;
    var content := Content(event);
    var sa, sb := SignOnly(cr, event, a.kp, a.id), SignOnly(cr, event, b.kp, b.id);
    var row := NewRow(cr, b.log, event, MakeRecord(content, [sb]), true);
    MakeRecordShape(content, [sb]);
    MakeRecordShape(content, [sa, sb]);
    FindLast(b.log, row);
    CosignAccepted(cr, b.(log := b.log + [row]), a.id, a.kp, b.kp, b.id, content, event.eventId.s);
    AppendsPeer(cr, row.record, content, b.kp, b.id, a.kp, a.id);
    Labels(cr, content, a.kp, a.id);
  }

  /**
   The exchange succeeds: two agents that know each other, a delegable scope over the handler,
   a token presented within its window, and fresh ids take every step to the end, and leave the
   completion in both logs with the same two signatures and nothing pending.
   */
  lemma ExchangeSucceeds(cr: Crypto, a: Node, b: Node, p: Plan)
    requires IdealSignatures(cr) && NodeValid(cr, b) && Ready(cr, a, b, p) && FreshIds(a, b, p)
    ensures Issued(cr, a, b, p).Ok?
    ensures var (a1, token) := Issued(cr, a, b, p).value;
            var (b1, begun) := InvokeBegin(cr, b, p.action, token, p.begunAt, p.start);
            && begun == Ok(|b.execs|) && |b.execs| < |b1.execs| && b1.execs[|b.execs|].phase.Running?
            && var (b2, answer) := InvokeFinish(cr, b1, |b.execs|, p.result, p.executedAt, p.end);
            && answer.Ok?
            && var (a2, receipt) := ClientReceive(cr, a1, b.id, Some(b.handlers[p.action].schemaId), JStr(p.jti), answer.value, "", p.dispute);
            && receipt.Ok?
            && var settled := AuditCosign(cr, b2, JStr(p.end.eventId), receipt.value);
            && settled.Ok?
            && Twins(a2.log, |a1.log|, settled.value.log, |b1.log|) && !settled.value.log[|b1.log|].pendingPeer
  {
    hide IdealSignatures, NodeValid, ManifestHas, ScopeCovers, IssueDelegation, InvokeBegin, InvokeFinish, ClientReceive, AuditCosign,
         HasEvent, SignOnly, NewRow, MakeRecord, Content, ToJson, SignCompact, CompletionEvent, OutcomeOf, JtiUsed, Outcome.SignOutcome, Twins;
    IssueSucceeds(cr, a, b, p);
    BeginSucceeds(cr, a, b, p);
    var (a1, token) := Issued(cr, a, b, p).value;
    var b1 := InvokeBegin(cr, b, p.action, token, p.begunAt, p.start).0;
    AnswerShape(cr, b1, |b.execs|, p.result, p.executedAt, p.end);
    AnswerAccepted(cr, b1, |b.execs|, p.result, p.executedAt, p.end, a1, Some(b.handlers[p.action].schemaId), JStr(p.jti), "", p.dispute);
    var event := AnswerEvent(cr, b1, |b.execs|, p.result, p.executedAt, p.end);
    EventId(cr, b1.execs[|b.execs|].claims, OutcomeOf(b1.execs[|b.execs|], p.result, p.executedAt), p.end);
    SettleAnswer(cr, a1, b1, event);
    CosignReadsLogAndPeers(cr, InvokeFinish(cr, b1, |b.execs|, p.result, p.executedAt, p.end).0, b1, JStr(p.end.eventId), SignOnly(cr, event, a1.kp, a1.id));
  }

  /** Accepting a cosign depends on the log and the peers alone. */
  lemma CosignReadsLogAndPeers(cr: Crypto, m: Node, n: Node, eventId: Json, signature: Json)
    requires m.peers == n.peers
    ensures var x, y := AuditCosign(cr, m, eventId, signature), AuditCosign(cr, n.(log := m.log), eventId, signature);
            x.Ok? == y.Ok? && (x.Ok? ==> x.value.log == y.value.log)
  {
    hide Apply;
  }
}
