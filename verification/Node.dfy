/**
 One agent as a value: its peers, its log, and the handler executions it has begun. Each
 function is one atomic segment of agent.py or wire.py, from one await to the next.
 */
module Node {
  import opened Wrappers
  import opened Json
  import opened Python
  import opened Signing
  import opened Delegation
  import opened Scope
  import opened AuditEvent
  import opened AuditTable
  import opened AuditLaws
  import Manifest
  import Outcome

  datatype Peer = Peer(agentId: string, publicKey: PublicKey, manifest: Json)

  datatype HandlerSpec = HandlerSpec(capability: string, schemaId: string)

  /** A freshly drawn event id and a clock reading. */
  datatype Stamp = Stamp(eventId: string, ts: Int64)

  datatype Phase = Running | Crashed | Finished(row: nat)

  /** One handler execution: what it runs for, the row that journaled it, and how far it came. */
  datatype Exec = Exec(claims: Claims, rawJti: Json, schemaId: string, startRow: nat, phase: Phase)

  datatype Node = Node(
    id: string, kp: KeyPair, handlers: map<string, HandlerSpec>, manifest: Option<Json>,
    peers: map<string, Peer>, log: Table, execs: seq<Exec>)

  datatype HandlerResult = Returned(payload: Json) | Raised(className: string, message: string)

  datatype Response = Response(outcome: Json, content: Json, signature: Json)

  datatype NodeError =
    | MissingToken
    | MissingAction
    | UnknownAction
    | MalformedToken
    | UnknownPeer
    | TokenReplay
    | Token(error: TokenError)
    | Audit(audit: AuditError)
    | ManifestRejected
    | WrongAgentId
    | ScopeNotInManifest
    | OutcomeRejected(outcome: Outcome.OutcomeError)
    | MalformedEvent

  // ---- Manifests and peers ----

  function RegisterPeer(cr: Crypto, n: Node, agentId: string, key: PublicKey, envelope: Json): Result<Node, NodeError> {
    match Manifest.VerifyManifest(cr, envelope, key)
    case Raise(_) => Raise(ManifestRejected)
    case Ok(content) =>
      if content.Get("agent_id") != Some(JStr(agentId)) then Raise(WrongAgentId)
      else Ok(n.(peers := n.peers[agentId := Peer(agentId, key, content)]))
  }

  function PublishManifest(cr: Crypto, n: Node, capabilities: seq<Manifest.Capability>, version: string, description: string): (Node, Json) {
    var m := Manifest.Manifest(n.id, version, capabilities, [], description, None);
    (n.(manifest := Some(m.ToContent())), Manifest.SignManifest(cr, m, n.kp))
  }

  // ---- Issuing ----

  function IssuedEvent(n: Node, to: string, scope: seq<string>, purpose: string, jti: string, stamp: Stamp): AuditEvent {
    OwnEvent("delegation.issued", JStr(jti), n.id, to,
             map["scope" := Texts(scope), "purpose" := JStr(purpose)], stamp.eventId, stamp.ts)
  }

  function IssueDelegation(cr: Crypto, n: Node, to: string, scope: seq<string>, purpose: string,
                           constraints: Option<map<string, Json>>, expiresIn: int,
                           now: int, jti: string, stamp: Stamp): Result<(Node, string), NodeError>
  {
    if n.manifest.Some? && exists i :: 0 <= i < |scope| && !ManifestHas(n.manifest.value, scope[i]) then Raise(ScopeNotInManifest)
    else
      var claims := NewClaims(n.id, to, scope, purpose, constraints, expiresIn, Some("local://" + n.id), now, jti);
      match IssueToken(cr, n.kp, claims, expiresIn)
      case Raise(e) => Raise(Token(e))
      case Ok(token) =>
        match Apply(cr, n.log, Self(IssuedEvent(n, to, scope, purpose, jti, stamp), n.kp, n.id))
        case Raise(e) => Raise(Audit(e))
        case Ok(log) => Ok((n.(log := log), token))
  }

  // ---- Verifying a delegation ----

  function ReplayEvent(n: Node, iss: string, jti: Json, stamp: Stamp): AuditEvent {
    OwnEvent("delegation.replay_attempt", jti, iss, n.id, map[], stamp.eventId, stamp.ts)
  }

  function VerifyDelegation(cr: Crypto, n: Node, token: string, requiredScope: string, now: int, stamp: Stamp)
    : (r: (Node, Result<Claims, NodeError>))
  {
    match PeekPayload(token)
    case None => (n, Raise(MalformedToken))
    case Some(payload) =>
      match payload.GetText("iss")
      case None => (n, Raise(MalformedToken))
      case Some(iss) =>
        if iss !in n.peers then (n, Raise(UnknownPeer))
        else
          match payload.Get("jti")
          case None => (n, Raise(MalformedToken))
          case Some(jti) =>
            if !Bindable(jti) then (n, Raise(MalformedToken))
            else if ReplayDetected(n.log, jti) then
              (match Apply(cr, n.log, Self(ReplayEvent(n, iss, jti, stamp), n.kp, n.id))
               case Raise(e) => (n, Raise(Audit(e)))
               case Ok(log) => (n.(log := log), Raise(TokenReplay)))
            else
              match VerifyToken(cr, token, n.peers[iss].publicKey, n.id, requiredScope, n.peers[iss].manifest, now)
              case Raise(e) => (n, Raise(Token(e)))
              case Ok(claims) => (n, Ok(claims))
  }

  // ---- Serving an invocation ----

  function StartedEvent(n: Node, claims: Claims, stamp: Stamp): AuditEvent {
    OwnEvent("delegation.started", JStr(claims.jti), claims.iss, n.id,
             map["scope" := Texts(claims.scope)], stamp.eventId, stamp.ts)
  }

  /** The jti claim as it stands in the token, before `str()`. */
  function RawJti(token: string): Json {
    match PeekPayload(token)
    case None => JNull
    case Some(payload) => (match payload.Get("jti") case None => JNull case Some(j) => j)
  }

  /** The request up to the point where the handler starts running. */
  function InvokeBegin(cr: Crypto, n: Node, action: string, token: string, now: int, stamp: Stamp)
    : (r: (Node, Result<nat, NodeError>))
    ensures r.1.Ok? ==> r.1.value == |n.execs| < |r.0.execs|
  {
    if token == "" then (n, Raise(MissingToken))
    else if action == "" then (n, Raise(MissingAction))
    else if action !in n.handlers then (n, Raise(UnknownAction))
    else
      match VerifyDelegation(cr, n, token, n.handlers[action].capability, now, stamp)
      case (rejected, Raise(e)) => (rejected, Raise(e))
      case (_, Ok(claims)) =>
        match Apply(cr, n.log, Self(StartedEvent(n, claims, stamp), n.kp, n.id))
        case Raise(e) => (n, Raise(Audit(e)))
        case Ok(log) =>
          var exec := Exec(claims, RawJti(token), n.handlers[action].schemaId, |n.log|, Running);
          (n.(log := log, execs := n.execs + [exec]), Ok(|n.execs|))
  }

  function OutcomeOf(exec: Exec, result: HandlerResult, executedAt: int): Outcome.Outcome {
    match result
    case Returned(payload) =>
      Outcome.Outcome(exec.claims.jti, "ok", payload, exec.schemaId, executedAt, None)
    case Raised(className, message) =>
      Outcome.Outcome(exec.claims.jti, "error", JObj(map["error" := JStr(className), "message" := JStr(message)]),
                      exec.schemaId, executedAt, Some(message))
  }

  function CompletionEvent(cr: Crypto, claims: Claims, outcome: Outcome.Outcome, stamp: Stamp): AuditEvent {
    OwnEvent(if outcome.status == "ok" then "delegation.completed" else "delegation.failed",
             JStr(claims.jti), claims.iss, claims.sub,
             map["purpose" := JStr(claims.purpose), "scope" := Texts(claims.scope), "status" := JStr(outcome.status),
                 "outcome_hash" := JStr(Outcome.PayloadHash(cr, outcome.payload)), "schema_id" := JStr(outcome.schemaId)],
             stamp.eventId, stamp.ts)
  }

  /** The rest of the request once the handler has returned or raised. */
  function InvokeFinish(cr: Crypto, n: Node, i: nat, result: HandlerResult, executedAt: int, stamp: Stamp)
    : (r: (Node, Result<Response, NodeError>))
    requires i < |n.execs| && n.execs[i].phase.Running?
  {
    var exec := n.execs[i];
    var outcome := OutcomeOf(exec, result, executedAt);
    var event := CompletionEvent(cr, exec.claims, outcome, stamp);
    match Apply(cr, n.log, Pending(event, n.kp, n.id))
    case Raise(e) => (n.(execs := n.execs[i := exec.(phase := Crashed)]), Raise(Audit(e)))
    case Ok(log) =>
      (n.(log := log, execs := n.execs[i := exec.(phase := Finished(|n.log|))]),
       Ok(Response(Outcome.SignOutcome(cr, outcome, n.kp, n.id), Content(event), SignOnly(cr, event, n.kp, n.id))))
  }

  /** The event id is looked up as it comes; NULL finds no row. */
  function AuditCosign(cr: Crypto, n: Node, eventId: Json, signature: Json): Result<Node, NodeError> {
    match signature.GetText("signed_by")
    case None => Raise(UnknownPeer)
    case Some(peerId) =>
      if peerId !in n.peers then Raise(UnknownPeer)
      else if !Bindable(eventId) then Raise(Audit(NotStorable))
      else if ColumnOf(eventId).None? then Raise(Audit(EventNotFound))
      else
        match Apply(cr, n.log, Finalize(ColumnOf(eventId).value, signature, n.peers[peerId].publicKey))
        case Raise(e) => Raise(Audit(e))
        case Ok(log) => Ok(n.(log := log))
  }

  // ---- The client's side ----

  function DisputeEvent(n: Node, delegateeId: string, jti: Json, detail: string, stamp: Stamp): AuditEvent {
    OwnEvent("delegation.disputed", jti, n.id, delegateeId,
             map["reason" := JStr("outcome.invalid_signature"), "detail" := JStr(detail)], stamp.eventId, stamp.ts)
  }

  /** What the client does with a response; the result is the signature it may push back. */
  function ClientReceive(cr: Crypto, n: Node, delegateeId: string, expectedSchema: Option<string>, jti: Json,
                         response: Response, detail: string, stamp: Stamp): (r: (Node, Result<Json, NodeError>))
  {
    if delegateeId !in n.peers then (n, Raise(UnknownPeer))
    else
      var key := n.peers[delegateeId].publicKey;
      match Outcome.VerifyOutcome(cr, response.outcome, key, expectedSchema)
      case Raise(OutcomeInvalidSignature) =>
        (match Apply(cr, n.log, Self(DisputeEvent(n, delegateeId, jti, detail, stamp), n.kp, n.id))
         case Raise(e) => (n, Raise(Audit(e)))
         case Ok(log) => (n.(log := log), Raise(OutcomeRejected(Outcome.OutcomeInvalidSignature))))
      case Raise(e) => (n, Raise(OutcomeRejected(e)))
      case Ok(_) =>
        match FromContent(response.content)
        case None => (n, Raise(MalformedEvent))
        case Some(event) =>
          match Apply(cr, n.log, Finalized(event, n.kp, n.id, response.signature, key))
          case Raise(e) => (n, Raise(Audit(e)))
          case Ok(log) => (n.(log := log), Ok(SignOnly(cr, event, n.kp, n.id)))
  }

  /** The process dies: nothing in flight survives, the log does. */
  function Crash(n: Node): Node {
    n.(execs := seq(|n.execs|, i requires 0 <= i < |n.execs| =>
         if n.execs[i].phase.Running? then n.execs[i].(phase := Crashed) else n.execs[i]))
  }

  // ---- A node's steps and what they let out ----

  datatype NodeStep =
    | Publish(capabilities: seq<Manifest.Capability>, version: string, description: string)
    | Register(agentId: string, key: PublicKey, envelope: Json)
    | Issue(to: string, scope: seq<string>, purpose: string, constraints: Option<map<string, Json>>, expiresIn: int,
            now: int, newJti: string, stamp: Stamp)
    | Begin(action: string, token: string, now: int, stamp: Stamp)
    | Finish(exec: nat, result: HandlerResult, executedAt: int, stamp: Stamp)
    | Cosign(eventId: Json, signature: Json)
    | Receive(delegateeId: string, expectedSchema: Option<string>, jti: Json, response: Response,
              detail: string, stamp: Stamp, push: bool)
    | ServeLog
    | Die

  datatype Message =
    | ManifestSent(envelope: Json)
    | TokenSent(token: string)
    | ResponseSent(response: Response)
    | CosignSent(eventId: Json, signature: Json)
    | LogSent(records: seq<Json>)

  function Next(cr: Crypto, n: Node, step: NodeStep): (r: (Node, Option<Message>)) {
    match step
    case Publish(capabilities, version, description) =>
      var (m, envelope) := PublishManifest(cr, n, capabilities, version, description);
      (m, Some(ManifestSent(envelope)))
    case Register(agentId, key, envelope) =>
      (match RegisterPeer(cr, n, agentId, key, envelope)
       case Raise(_) => (n, None)
       case Ok(m) => (m, None))
    case Issue(to, scope, purpose, constraints, expiresIn, now, jti, stamp) =>
      (match IssueDelegation(cr, n, to, scope, purpose, constraints, expiresIn, now, jti, stamp)
       case Raise(_) => (n, None)
       case Ok((m, token)) => (m, Some(TokenSent(token))))
    case Begin(action, token, now, stamp) => (InvokeBegin(cr, n, action, token, now, stamp).0, None)
    case Finish(i, result, executedAt, stamp) =>
      if i < |n.execs| && n.execs[i].phase.Running? then
        (match InvokeFinish(cr, n, i, result, executedAt, stamp)
         case (m, Raise(_)) => (m, None)
         case (m, Ok(response)) => (m, Some(ResponseSent(response))))
      else (n, None)
    case Cosign(eventId, signature) =>
      (match AuditCosign(cr, n, eventId, signature)
       case Raise(_) => (n, None)
       case Ok(m) => (m, None))
    case Receive(delegateeId, expectedSchema, jti, response, detail, stamp, push) =>
      (match ClientReceive(cr, n, delegateeId, expectedSchema, jti, response, detail, stamp)
       case (m, Raise(_)) => (m, None)
       case (m, Ok(signature)) =>
         var eventId := response.content.Get("event_id");
         (m, if push && eventId.Some? then Some(CosignSent(eventId.value, signature)) else None))
    case ServeLog => (n, Some(LogSent(Records(SortByKey(n.log)))))
    case Die => (Crash(n), None)
  }

  /** A node with an empty log and nothing in flight, stepped through a history. */
  function RunNode(cr: Crypto, start: Node, steps: seq<NodeStep>): Node {
    if steps == [] then start else Next(cr, RunNode(cr, start, steps[..|steps| - 1]), steps[|steps| - 1]).0
  }

  predicate Fresh(n: Node) {
    n.log == [] && n.execs == []
  }
}
