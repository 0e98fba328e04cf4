/** wire.py without HTTP: the server's request handlers and the client, around one agent. */
module Wire {
  import opened Wrappers
  import opened Json
  import opened Python
  import opened Signing
  import opened Delegation
  import opened AuditEvent
  import Agent
  import Laws = AuditLaws
  import Manifest
  import NodeLaws
  import Outcome
  import Scope
  import Spec = Node
  import Table = AuditTable

  // ---- The agent's pure helpers ----

  function MakeOutcome(cr: Crypto, kp: KeyPair, signer: string, tokenJti: string, status: string, payload: Json,
                       schemaId: string, reason: Option<string>, executedAt: int): Json
  {
    Outcome.SignOutcome(cr, Outcome.Outcome(tokenJti, status, payload, schemaId, executedAt, reason), kp, signer)
  }

  /** `build_completion_event`: the event repeats what the signed outcome says. */
  function BuildCompletionEvent(claims: Claims, envelope: Json, stamp: Spec.Stamp): Option<AuditEvent> {
    var outcome :- envelope.Get("outcome");
    var status :- outcome.Get("status");
    var hash :- outcome.Get("payload_hash");
    var schemaId :- outcome.Get("schema_id");
    Some(OwnEvent(if status == JStr("ok") then "delegation.completed" else "delegation.failed",
                  JStr(claims.jti), claims.iss, claims.sub,
                  map["purpose" := JStr(claims.purpose), "scope" := Texts(claims.scope), "status" := status,
                      "outcome_hash" := hash, "schema_id" := schemaId],
                  stamp.eventId, stamp.ts))
  }

  /** The completion event binds the outcome by its hash, status and schema. */
  lemma CompletionFromEnvelope(cr: Crypto, claims: Claims, o: Outcome.Outcome, kp: KeyPair, signer: string, stamp: Spec.Stamp)
    ensures BuildCompletionEvent(claims, Outcome.SignOutcome(cr, o, kp, signer), stamp)
            == Some(Spec.CompletionEvent(cr, claims, o, stamp))
  {
    hide SignEnvelope, Outcome.PayloadHash, Texts;
    var envelope := Outcome.SignOutcome(cr, o, kp, signer);
    var content := Outcome.ToContent(cr, o);
    assert envelope.Get("outcome") == Some(content);
    assert content.Get("status") == Some(JStr(o.status)) && content.Get("schema_id") == Some(JStr(o.schemaId));
    assert content.Get("payload_hash") == Some(JStr(Outcome.PayloadHash(cr, o.payload)));
  }

  /** Verification looks at neither the handlers nor the executions in flight. */
  lemma VerifyIsLocal(cr: Crypto, n: Spec.Node, handlers: map<string, Spec.HandlerSpec>, execs: seq<Spec.Exec>,
                      token: string, requiredScope: string, now: int, stamp: Spec.Stamp)
    ensures var (m, r) := Spec.VerifyDelegation(cr, n, token, requiredScope, now, stamp);
            Spec.VerifyDelegation(cr, n.(handlers := handlers, execs := execs), token, requiredScope, now, stamp)
            == (m.(handlers := handlers, execs := execs), r)
  {
    hide Laws.ReplayDetected, VerifyToken, PeekPayload, Table.Apply;
  }

  lemma ReceiveIsLocal(cr: Crypto, n: Spec.Node, handlers: map<string, Spec.HandlerSpec>, execs: seq<Spec.Exec>,
                       delegateeId: string, expectedSchema: Option<string>, jti: Json,
                       response: Spec.Response, detail: string, stamp: Spec.Stamp)
    ensures var (m, r) := Spec.ClientReceive(cr, n, delegateeId, expectedSchema, jti, response, detail, stamp);
            Spec.ClientReceive(cr, n.(handlers := handlers, execs := execs), delegateeId, expectedSchema, jti, response, detail, stamp)
            == (m.(handlers := handlers, execs := execs), r)
  {
    hide Outcome.VerifyOutcome, FromContent, Table.Apply;
  }

  lemma CosignKeeps(cr: Crypto, n: Spec.Node, eventId: Json, signature: Json)
    requires NodeLaws.NodeValid(cr, n)
    ensures match Spec.AuditCosign(cr, n, eventId, signature) case Ok(m) => NodeLaws.NodeValid(cr, m) case Raise(_) => true
  {
    hide NodeLaws.NodeValid, Spec.AuditCosign;
    NodeLaws.NextKeeps(cr, n, Spec.Cosign(eventId, signature));
  }

  // ---- The server ----

  class Server {
    const agent: Agent.Agent
    const handlers: map<string, Spec.HandlerSpec>
    /** The coroutines this server has started, with the locals they hold across their await. */
    ghost var execs: seq<Spec.Exec>

    ghost function State(): Spec.Node
      reads this, agent, agent.auditLog
      requires |agent.auditLog.rows| == |agent.auditLog.originals|
    {
      agent.State().(handlers := handlers, execs := execs)
    }

    ghost predicate Valid()
      reads this, agent, agent.auditLog
    {
      agent.Valid() && NodeLaws.NodeValid(agent.auditLog.cr, State())
    }

    /** A server over a log its agent has kept so far; `history` lists the executions that log records. */
    constructor (agent: Agent.Agent, handlers: map<string, Spec.HandlerSpec>, ghost history: seq<Spec.Exec>)
      requires agent.Valid()
      requires NodeLaws.NodeValid(agent.auditLog.cr, agent.State().(handlers := handlers, execs := history))
      ensures Valid() && this.agent == agent && this.handlers == handlers && execs == history
    {
      hide NodeLaws.NodeValid;
      this.agent, this.handlers := agent, handlers;
      execs := history;
    }

    /** `invoke` up to the await: verify, journal the start, hand over to the handler. */
    method InvokeBegin(action: string, token: string, now: int, stamp: Spec.Stamp)
      returns (r: Result<(Claims, string), Spec.NodeError>, ghost exec: nat)
      requires Valid()
      modifies this`execs, agent.auditLog
      ensures Valid()
      ensures var (n, verdict) := Spec.InvokeBegin(agent.auditLog.cr, old(State()), action, token, now, stamp);
              && State() == n
              && match verdict
                 case Raise(e) => r == Raise(e)
                 case Ok(i) => exec == i && execs[i].phase.Running? && r == Ok((execs[i].claims, execs[i].schemaId))
    {
      hide Laws.Valid, NodeLaws.NodeValid, Spec.VerifyDelegation, Table.AppendSelf, Spec.RawJti;
      exec := 0;
      NodeLaws.BeginKeeps(agent.auditLog.cr, State(), action, token, now, stamp);
      if token == "" {
        return Raise(Spec.MissingToken), 0;
      }
      if action == "" {
        return Raise(Spec.MissingAction), 0;
      }
      if action !in handlers {
        return Raise(Spec.UnknownAction), 0;
      }
      var spec := handlers[action];
      VerifyIsLocal(agent.auditLog.cr, agent.State(), handlers, execs, token, spec.capability, now, stamp);
      var verdict := agent.VerifyDelegation(token, spec.capability, now, stamp);
      if verdict.Raise? {
        return Raise(verdict.error), 0;
      }
      var claims := verdict.value;
      NodeLaws.AcceptedFacts(agent.auditLog.cr, old(State()), token, spec.capability, now, stamp);
      var event := OwnEvent("delegation.started", JStr(claims.jti), claims.iss, agent.id,
                            map["scope" := Texts(claims.scope)], stamp.eventId, stamp.ts);
      var journaled := agent.auditLog.AppendSelf(event, agent.keypair, agent.id);
      if journaled.Raise? {
        return Raise(Spec.Audit(journaled.error)), 0;
      }
      exec := |execs|;
      execs := execs + [Spec.Exec(claims, Spec.RawJti(token), spec.schemaId, |old(State()).log|, Spec.Running)];
      return Ok((claims, spec.schemaId)), exec;
    }

    /** `invoke` after the await: sign the outcome, store the pending completion, answer. */
    method InvokeFinish(ghost exec: nat, claims: Claims, schemaId: string, result: Spec.HandlerResult, executedAt: int, stamp: Spec.Stamp)
      returns (r: Result<Spec.Response, Spec.NodeError>)
      requires Valid() && exec < |execs| && execs[exec].phase.Running?
      requires execs[exec].claims == claims && execs[exec].schemaId == schemaId
      modifies this`execs, agent.auditLog
      ensures Valid()
      ensures (State(), r) == Spec.InvokeFinish(agent.auditLog.cr, old(State()), exec, result, executedAt, stamp)
    {
      hide Laws.Valid, NodeLaws.NodeValid, Table.AppendPending, Spec.CompletionEvent, SignEnvelope, Outcome.SignOutcome, Content,
           BuildCompletionEvent;
      NodeLaws.FinishKeeps(agent.auditLog.cr, State(), exec, result, executedAt, stamp);
      var status, payload, reason;
      match result {
        case Returned(value) =>
          status, payload, reason := "ok", value, None;
        case Raised(className, message) =>
          status, payload := "error", JObj(map["error" := JStr(className), "message" := JStr(message)]);
          reason := Some(message);
      }
      var envelope := MakeOutcome(agent.auditLog.cr, agent.keypair, agent.id, claims.jti, status, payload, schemaId, reason, executedAt);
      CompletionFromEnvelope(agent.auditLog.cr, claims, Outcome.Outcome(claims.jti, status, payload, schemaId, executedAt, reason),
                             agent.keypair, agent.id, stamp);
      var event := BuildCompletionEvent(claims, envelope, stamp).value;
      var mySignature := agent.auditLog.SignOnly(event, agent.keypair, agent.id);
      ghost var row := |State().log|;
      var stored := agent.auditLog.AppendPending(event, mySignature);
      if stored.Raise? {
        execs := execs[exec := execs[exec].(phase := Spec.Crashed)];
        return Raise(Spec.Audit(stored.error));
      }
      execs := execs[exec := execs[exec].(phase := Spec.Finished(row))];
      return Ok(Spec.Response(envelope, Content(event), mySignature));
    }

    method AuditCosign(eventId: Json, peerSignature: Json) returns (r: Result<(), Spec.NodeError>)
      requires Valid()
      modifies agent.auditLog
      ensures Valid()
      ensures match Spec.AuditCosign(agent.auditLog.cr, old(State()), eventId, peerSignature)
              case Ok(n) => r == Ok(()) && State() == n
              case Raise(e) => r == Raise(e) && State() == old(State())
    {
      hide Laws.Valid, NodeLaws.NodeValid, Table.FinalizePending, Table.FindEvent;
      CosignKeeps(agent.auditLog.cr, State(), eventId, peerSignature);
      var signer := peerSignature.GetText("signed_by");
      if signer.None? || signer.value !in agent.peers {
        return Raise(Spec.UnknownPeer);
      }
      if !Bindable(eventId) {
        return Raise(Spec.Audit(Table.NotStorable));
      }
      var key := ColumnOf(eventId);
      if key.None? {
        return Raise(Spec.Audit(Table.EventNotFound));
      }
      var finalized := agent.auditLog.FinalizePending(key.value, peerSignature, agent.peers[signer.value].publicKey);
      if finalized.Raise? {
        return Raise(Spec.Audit(finalized.error));
      }
      return Ok(());
    }

    method AuditEvents() returns (records: seq<Json>)
      requires Valid()
      ensures records == Table.Records(Table.SortByKey(State().log))
    {
      hide NodeLaws.NodeValid;
      records := agent.auditLog.AllEvents();
    }
  }

  // ---- The client ----

  class Client {
    const agent: Agent.Agent

    constructor (agent: Agent.Agent)
      ensures this.agent == agent
    {
      this.agent := agent;
    }

    /** `invoke` from the response on: check the outcome, store the cross-signed event, return the signature to push. */
    method Receive(delegateeId: string, expectedSchema: Option<string>, jti: Json, response: Spec.Response,
                   detail: string, stamp: Spec.Stamp) returns (r: Result<Json, Spec.NodeError>)
      requires agent.Valid()
      modifies agent.auditLog
      ensures agent.Valid()
      ensures (agent.State(), r)
              == Spec.ClientReceive(agent.auditLog.cr, old(agent.State()), delegateeId, expectedSchema, jti, response, detail, stamp)
    {
      hide Laws.Valid, Table.AppendSelf, Table.AppendFinalized, Outcome.VerifyOutcome, FromContent, Content, SignEnvelope;
      if delegateeId !in agent.peers {
        return Raise(Spec.UnknownPeer);
      }
      var peer := agent.peers[delegateeId];
      var verdict := Outcome.VerifyOutcome(agent.auditLog.cr, response.outcome, peer.publicKey, expectedSchema);
      if verdict == Raise(Outcome.OutcomeInvalidSignature) {
        var dispute := OwnEvent("delegation.disputed", jti, agent.id, delegateeId,
                                map["reason" := JStr("outcome.invalid_signature"), "detail" := JStr(detail)],
                                stamp.eventId, stamp.ts);
        var logged := agent.auditLog.AppendSelf(dispute, agent.keypair, agent.id);
        return Raise(if logged.Raise? then Spec.Audit(logged.error) else Spec.OutcomeRejected(Outcome.OutcomeInvalidSignature));
      }
      if verdict.Raise? {
        return Raise(Spec.OutcomeRejected(verdict.error));
      }
      var rebuilt := FromContent(response.content);
      if rebuilt.None? {
        return Raise(Spec.MalformedEvent);
      }
      var event := rebuilt.value;
      var mySignature := agent.auditLog.SignOnly(event, agent.keypair, agent.id);
      var stored := agent.auditLog.AppendFinalized(event, mySignature, response.signature, peer.publicKey);
      if stored.Raise? {
        return Raise(Spec.Audit(stored.error));
      }
      return Ok(mySignature);
    }
  }

  // ---- One agent in both roles ----

  lemma IssueIsLocal(cr: Crypto, n: Spec.Node, handlers: map<string, Spec.HandlerSpec>, execs: seq<Spec.Exec>,
                     to: string, scope: seq<string>, purpose: string, constraints: Option<map<string, Json>>,
                     expiresIn: int, now: int, newJti: string, stamp: Spec.Stamp)
    ensures var m := n.(handlers := handlers, execs := execs);
            Spec.IssueDelegation(cr, m, to, scope, purpose, constraints, expiresIn, now, newJti, stamp)
            == match Spec.IssueDelegation(cr, n, to, scope, purpose, constraints, expiresIn, now, newJti, stamp)
               case Ok((k, token)) => Ok((k.(handlers := handlers, execs := execs), token))
               case Raise(e) => Raise(e)
  {
    hide IssueToken, Scope.ManifestHas, Table.Apply;
  }

  lemma IssueKeeps(cr: Crypto, n: Spec.Node, to: string, scope: seq<string>, purpose: string, constraints: Option<map<string, Json>>,
                   expiresIn: int, now: int, newJti: string, stamp: Spec.Stamp)
    requires NodeLaws.NodeValid(cr, n)
    ensures match Spec.IssueDelegation(cr, n, to, scope, purpose, constraints, expiresIn, now, newJti, stamp)
            case Ok((m, _)) => NodeLaws.NodeValid(cr, m)
            case Raise(_) => true
  {
    hide NodeLaws.NodeValid, Spec.IssueDelegation;
    NodeLaws.NextKeeps(cr, n, Spec.Issue(to, scope, purpose, constraints, expiresIn, now, newJti, stamp));
  }

  /** A client call on the agent of a running server: the server's agent takes the step, its executions stand. */
  method ReceiveBesideServer(server: Server, client: Client, delegateeId: string, expectedSchema: Option<string>, jti: Json,
                             response: Spec.Response, detail: string, stamp: Spec.Stamp) returns (r: Result<Json, Spec.NodeError>)
    requires server.Valid() && client.agent == server.agent
    modifies server.agent.auditLog
    ensures server.Valid()
    ensures (server.State(), r)
            == Spec.ClientReceive(server.agent.auditLog.cr, old(server.State()), delegateeId, expectedSchema, jti, response, detail, stamp)
  {
    hide NodeLaws.NodeValid, Spec.ClientReceive, Laws.Valid;
    ghost var cr := server.agent.auditLog.cr;
    NodeLaws.ReceiveKeeps(cr, server.State(), delegateeId, expectedSchema, jti, response, detail, stamp);
    ReceiveIsLocal(cr, server.agent.State(), server.handlers, server.execs, delegateeId, expectedSchema, jti, response, detail, stamp);
    r := client.Receive(delegateeId, expectedSchema, jti, response, detail, stamp);
  }

  /** Issuing a token while serving likewise. */
  method IssueBesideServer(server: Server, to: string, scope: seq<string>, purpose: string, constraints: Option<map<string, Json>>,
                           expiresIn: int, now: int, newJti: string, stamp: Spec.Stamp) returns (r: Result<string, Spec.NodeError>)
    requires server.Valid()
    modifies server.agent.auditLog
    ensures server.Valid()
    ensures match Spec.IssueDelegation(server.agent.auditLog.cr, old(server.State()), to, scope, purpose, constraints, expiresIn,
                                       now, newJti, stamp)
            case Ok((n, token)) => server.State() == n && r == Ok(token)
            case Raise(e) => r == Raise(e) && server.State() == old(server.State())
  {
    hide NodeLaws.NodeValid, Spec.IssueDelegation, Laws.Valid;
    ghost var cr := server.agent.auditLog.cr;
    IssueKeeps(cr, server.State(), to, scope, purpose, constraints, expiresIn, now, newJti, stamp);
    IssueIsLocal(cr, server.agent.State(), server.handlers, server.execs, to, scope, purpose, constraints, expiresIn, now, newJti, stamp);
    r := server.agent.IssueDelegation(to, scope, purpose, constraints, expiresIn, now, newJti, stamp);
  }

  /** Meeting a peer while serving. */
  method RegisterBesideServer(server: Server, agentId: string, publicKey: PublicKey, envelope: Json)
    returns (r: Result<Spec.Peer, Spec.NodeError>)
    requires server.Valid()
    modifies server.agent`peers
    ensures server.Valid()
    ensures match Spec.RegisterPeer(server.agent.auditLog.cr, old(server.State()), agentId, publicKey, envelope)
            case Ok(n) => server.State() == n && r == Ok(n.peers[agentId])
            case Raise(e) => r == Raise(e) && server.State() == old(server.State())
  {
    hide Laws.Valid, NodeLaws.Matched, NodeLaws.Counted, NodeLaws.AtMostOnce, Manifest.VerifyManifest;
    r := server.agent.RegisterPeer(agentId, publicKey, envelope);
  }

  /** Publishing a manifest while serving. */
  method PublishBesideServer(server: Server, given: seq<Agent.Given>, version: string, description: string) returns (envelope: Json)
    requires server.Valid()
    modifies server.agent`manifestEnvelope
    ensures server.Valid()
    ensures (server.State(), envelope)
            == Spec.PublishManifest(server.agent.auditLog.cr, old(server.State()), Agent.Capabilities(given), version, description)
  {
    hide Laws.Valid, NodeLaws.Matched, NodeLaws.Counted, NodeLaws.AtMostOnce, Manifest.SignManifest;
    envelope := server.agent.PublishManifest(given, version, description);
  }
}
