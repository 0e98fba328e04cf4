/**
 What each operation of an agent leaves behind and what it asks for first, read off its
 arguments: rows by their fields, signatures by what they verify, tokens by their claims.
 */
module Effects {
  import opened Wrappers
  import opened Text
  import opened Json
  import opened Python
  import opened Utf8
  import opened Base64Url
  import opened Signing
  import opened Delegation
  import opened Scope
  import opened AuditEvent
  import opened AuditTable
  import opened AuditLaws
  import opened Node
  import opened NodeLaws
  import Manifest
  import Outcome

  // ---- Signatures ----

  /** The signature claims Ed25519, and the bytes it carries verify over the canonical content. */
  ghost predicate Stands(cr: Crypto, content: Json, signature: Json, key: PublicKey) {
    && signature.GetText("alg") == Some("EdDSA")
    && signature.GetText("value").Some?
    && var bytes := B64Decode(signature.GetText("value").value);
    && bytes.Some? && cr.verify(key, CanonicalJson(content), bytes.value)
  }

  lemma VerifyMeans(cr: Crypto, content: Json, signature: Json, key: PublicKey)
    ensures VerifyEnvelope(cr, content, signature, key).Ok? <==> Stands(cr, content, signature, key)
  {
    hide B64Decode, CanonicalJson;
  }

  /** A signature by the agent: labelled with its id and key id, standing over this content under this key alone. */
  ghost predicate SignedBy(cr: Crypto, n: Node, content: Json, signature: Json) {
    && signature.JObj? && signature.members.Keys == {"alg", "kid", "signed_by", "value"}
    && signature.GetText("kid") == Some(n.kp.kid) && signature.GetText("signed_by") == Some(n.id)
    && (forall other, key :: Stands(cr, other, signature, key) <==> other == content && key == cr.publicKey(n.kp.private))
  }

  lemma SignsContent(cr: Crypto, n: Node, content: Json)
    requires IdealSignatures(cr)
    ensures SignedBy(cr, n, content, SignEnvelope(cr, content, n.kp, n.id))
  {
    hide IdealSignatures, CanonicalJson, B64Encode, B64Decode, Stands, VerifyEnvelope;
    var signature := SignEnvelope(cr, content, n.kp, n.id);
    forall other, key
      ensures Stands(cr, other, signature, key) <==> other == content && key == cr.publicKey(n.kp.private)
    {
      EnvelopeExact(cr, content, n.kp, n.id, other, key);
      VerifyMeans(cr, other, signature, key);
    }
    assert signature.members.Keys == {"alg", "kid", "signed_by", "value"};
  }

  // ---- Rows ----

  /** The log gained exactly one row: this content under these signatures, chained to the old head. */
  ghost predicate Gained(cr: Crypto, t: Table, u: Table, content: Json, signatures: seq<Json>, pending: bool) {
    && |u| == |t| + 1 && u[..|t|] == t
    && var row := u[|t|];
    && row.record == row.original == JObj(map["content" := content, "signatures" := JArr(signatures)])
    && row.pendingPeer == pending
    && row.prevHash == LatestHash(t)
    && row.chainHash == "sha256:" + cr.sha256(Encode(row.prevHash) + [10] + CanonicalJson(row.record))
    && content.Get("event_id").Some? && row.eventId == ColumnOf(content.Get("event_id").value)
    && content.Get("ts") == Some(JInt(row.ts))
    && content.Get("type").Some? && ColumnOf(content.Get("type").value) == Some(row.typ)
    && content.Get("token_jti").Some? && row.tokenJti == ColumnOf(content.Get("token_jti").value)
  }

  /** The content of an event about a token, all seven fields. */
  ghost predicate Says(content: Json, typ: string, jti: Json, delegator: string, delegatee: string, fields: map<string, Json>, stamp: Stamp) {
    content == JObj(map[
      "event_id" := JStr(stamp.eventId), "ts" := JInt(stamp.ts), "type" := JStr(typ), "token_jti" := jti,
      "delegator_id" := JStr(delegator), "delegatee_id" := JStr(delegatee), "fields" := JObj(fields)])
  }

  /** The agent entered an event of its own, under its one signature. */
  ghost predicate Entered(cr: Crypto, n: Node, u: Table, typ: string, jti: Json, delegator: string, delegatee: string,
                          fields: map<string, Json>, stamp: Stamp, pending: bool)
  {
    exists content, signature ::
      Says(content, typ, jti, delegator, delegatee, fields, stamp) && SignedBy(cr, n, content, signature)
      && Gained(cr, n.log, u, content, [signature], pending)
  }

  lemma RowGained(cr: Crypto, t: Table, event: AuditEvent, signatures: seq<Json>, pending: bool)
    requires Storable(event)
    ensures Gained(cr, t, t + [NewRow(cr, t, event, MakeRecord(Content(event), signatures), pending)], Content(event), signatures, pending)
  {
    hide CanonicalJson, Encode, LatestHash;
    var c := Content(event);
    assert c.Get("event_id") == Some(event.eventId) && c.Get("ts") == Some(JInt(event.ts));
    assert c.Get("type") == Some(event.typ) && c.Get("token_jti") == Some(event.tokenJti);
  }

  lemma EntersOwn(cr: Crypto, n: Node, typ: string, jti: Json, delegator: string, delegatee: string,
                  fields: map<string, Json>, stamp: Stamp)
    requires IdealSignatures(cr) && !HasEvent(n.log, stamp.eventId)
    ensures var event := OwnEvent(typ, jti, delegator, delegatee, fields, stamp.eventId, stamp.ts);
            var self, pending := Apply(cr, n.log, Self(event, n.kp, n.id)), Apply(cr, n.log, Pending(event, n.kp, n.id));
            && (self.Ok? <==> Bindable(jti)) && (pending.Ok? <==> Bindable(jti))
            && (self.Ok? ==> Entered(cr, n, self.value, typ, jti, delegator, delegatee, fields, stamp, false))
            && (pending.Ok? ==> Entered(cr, n, pending.value, typ, jti, delegator, delegatee, fields, stamp, true))
  {
    hide IdealSignatures, HasEvent, NewRow, Gained, SignedBy, SignEnvelope, MakeRecord, Storable;
    var event := OwnEvent(typ, jti, delegator, delegatee, fields, stamp.eventId, stamp.ts);
    var content := Content(event);
    OwnColumns(typ, jti, delegator, delegatee, fields, stamp.eventId, stamp.ts);
    SignsContent(cr, n, content);
    assert Says(content, typ, jti, delegator, delegatee, fields, stamp);
    if Bindable(jti) {
      RowGained(cr, n.log, event, [SignOnly(cr, event, n.kp, n.id)], false);
      RowGained(cr, n.log, event, [SignOnly(cr, event, n.kp, n.id)], true);
    }
  }

  /** Which jtis a new row uses up: the one it carries, and only if it says that work started or was completed. */
  lemma GainedUses(cr: Crypto, t: Table, u: Table, content: Json, signatures: seq<Json>, pending: bool, jti: Json)
    requires Gained(cr, t, u, content, signatures, pending)
    ensures JtiUsed(u, jti) <==>
            JtiUsed(t, jti)
            || (content.GetText("type") in {Some("delegation.started"), Some("delegation.completed")} && Carries(content, jti))
  {
    hide CanonicalJson, Encode, LatestHash, Carries;
    var row := u[|t|];
    UseColumn(content.Get("type").value);
    assert IsRecord(row.record) && ContentOf(row.record) == content;
    assert forall i | 0 <= i < |t| :: u[i] == u[..|t|][i] == t[i];
    assert UsedBy(row, jti) <==> IsUse(row.typ) && Carries(content, jti);
    if i :| 0 <= i < |t| && UsedBy(t[i], jti) {
      assert UsedBy(u[i], jti);
    }
    if i :| 0 <= i < |u| && UsedBy(u[i], jti) && i != |t| {
      assert UsedBy(t[i], jti);
    }
  }

  // ---- Publishing and registering ----

  /**
   A published manifest names the agent and lists each capability it was given, in order; it has
   exactly the capabilities under those; and the envelope stands under the agent's key.
   */
  lemma PublishMeans(cr: Crypto, n: Node, capabilities: seq<Manifest.Capability>, version: string, description: string)
    requires IdealSignatures(cr)
    ensures var (m, envelope) := PublishManifest(cr, n, capabilities, version, description);
            && m == n.(manifest := m.manifest) && m.manifest.Some? && envelope.Get("manifest") == m.manifest
            && var content := m.manifest.value;
            && envelope.Get("signature").Some? && SignedBy(cr, n, content, envelope.Get("signature").value)
            && content.GetText("agent_id") == Some(n.id)
            && content.GetText("version") == Some(version) && content.GetText("description") == Some(description)
            && content.Get("homepage") == Some(JNull) && content.Get("evidence") == Some(JArr([]))
            && content.Get("capabilities").Some? && content.Get("capabilities").value.JArr?
            && var items := content.Get("capabilities").value.items;
            && |items| == |capabilities|
            && (forall i | 0 <= i < |items| :: Lists(items[i], capabilities[i]))
            && forall x :: ManifestHas(content, x) <==> exists i :: 0 <= i < |capabilities| && Under(capabilities[i].name, x)
  {
    hide IdealSignatures, SignedBy, SignEnvelope, ManifestHas;
    var (m, envelope) := PublishManifest(cr, n, capabilities, version, description);
    var content := m.manifest.value;
    SignsContent(cr, n, content);
    var items := content.Get("capabilities").value.items;
    forall i | 0 <= i < |items|
      ensures Lists(items[i], capabilities[i])
    {
      ListsCapability(capabilities[i]);
    }
    forall x
      ensures ManifestHas(content, x) <==> exists i :: 0 <= i < |capabilities| && Under(capabilities[i].name, x)
    {
      HasListed(content, capabilities, x);
    }
  }

  /** The entry of a capability: name, description, and metadata if there is any. */
  ghost predicate Lists(item: Json, c: Manifest.Capability) {
    && item.GetText("name") == Some(c.name) && item.GetText("description") == Some(c.description)
    && item.Get("metadata") == if c.metadata == map[] then None else Some(JObj(c.metadata))
  }

  lemma ListsCapability(c: Manifest.Capability)
    ensures Lists(c.ToJson(), c)
  {
  }

  lemma HasListed(content: Json, capabilities: seq<Manifest.Capability>, x: string)
    requires content.Get("capabilities").Some? && content.Get("capabilities").value.JArr?
    requires var items := content.Get("capabilities").value.items;
             |items| == |capabilities| && forall i | 0 <= i < |items| :: Lists(items[i], capabilities[i])
    ensures ManifestHas(content, x) <==> exists i :: 0 <= i < |capabilities| && Under(capabilities[i].name, x)
  {
    hide Under, ScanDeclared;
    var items := content.Get("capabilities").value.items;
    ScanMeans(items, x);
    forall i | 0 <= i < |items|
      ensures DeclaredName(items[i]) == Some(capabilities[i].name)
    {
      assert Lists(items[i], capabilities[i]);
    }
    assert forall i | 0 <= i < |items| :: Declares(items, i, x) <==> Under(capabilities[i].name, x);
  }

  /** The envelope holds a manifest of this agent, signed under this key. */
  ghost predicate ManifestStands(cr: Crypto, agentId: string, key: PublicKey, envelope: Json) {
    && envelope.Get("manifest").Some? && envelope.Get("signature").Some?
    && Stands(cr, envelope.Get("manifest").value, envelope.Get("signature").value, key)
    && envelope.Get("manifest").value.GetText("agent_id") == Some(agentId)
  }

  /**
   Registering succeeds exactly for a manifest that names the agent and stands under the key it is
   registered with; it then records that manifest for that agent and touches nothing else.
   */
  lemma RegisterExactly(cr: Crypto, n: Node, agentId: string, key: PublicKey, envelope: Json)
    ensures var r := RegisterPeer(cr, n, agentId, key, envelope);
            && (r.Ok? <==> ManifestStands(cr, agentId, key, envelope))
            && (r.Ok? ==>
                  && r.value == n.(peers := r.value.peers) && r.value.peers.Keys == n.peers.Keys + {agentId}
                  && r.value.peers[agentId] == Peer(agentId, key, envelope.Get("manifest").value)
                  && forall other | other in n.peers && other != agentId :: r.value.peers[other] == n.peers[other])
  {
    hide VerifyEnvelope, Stands;
    if envelope.Get("manifest").Some? && envelope.Get("signature").Some? {
      VerifyMeans(cr, envelope.Get("manifest").value, envelope.Get("signature").value, key);
    }
  }

  /** A published manifest registers for its own agent and under its own key, and in no other way. */
  lemma RegisterPublished(cr: Crypto, n: Node, agentId: string, key: PublicKey,
                          a: Node, capabilities: seq<Manifest.Capability>, version: string, description: string)
    requires IdealSignatures(cr)
    ensures var (m, envelope) := PublishManifest(cr, a, capabilities, version, description);
            var r := RegisterPeer(cr, n, agentId, key, envelope);
            && (r.Ok? <==> agentId == a.id && key == a.kp.Public(cr))
            && (r.Ok? ==> m.manifest.Some? && r.value.peers[agentId] == Peer(a.id, a.kp.Public(cr), m.manifest.value))
  {
    hide IdealSignatures, Stands, PublishManifest, RegisterPeer, ManifestHas;
    var (m, envelope) := PublishManifest(cr, a, capabilities, version, description);
    PublishMeans(cr, a, capabilities, version, description);
    RegisterExactly(cr, n, agentId, key, envelope);
  }

  // ---- Issuing ----

  /** The payload of a token: ten claims and no more. */
  ghost predicate Grants(payload: Json, iss: string, to: string, scope: seq<string>, purpose: string,
                         constraints: Option<map<string, Json>>, expiresIn: int, now: int, jti: string)
  {
    payload == JObj(map[
      "iss" := JStr(iss), "sub" := JStr(to), "scope" := Texts(scope),
      "exp" := JInt(now + expiresIn), "nbf" := JInt(now), "iat" := JInt(now),
      "jti" := JStr(jti), "purpose" := JStr(purpose),
      "constraints" := JObj(match constraints case None => map[] case Some(given) => given),
      "audit_uri" := JStr("local://" + iss)])
  }

  /**
   A token is issued exactly for a lifetime of up to a day and scopes the agent's manifest has, if
   it has one. The token carries the arguments claim by claim, stands under the issuer's key with
   the header of its kind, and is journaled with scope and purpose.
   */
  lemma IssueExactly(cr: Crypto, n: Node, to: string, scope: seq<string>, purpose: string, constraints: Option<map<string, Json>>,
                     expiresIn: int, now: int, jti: string, stamp: Stamp)
    requires IdealSignatures(cr) && !HasEvent(n.log, stamp.eventId)
    ensures var r := IssueDelegation(cr, n, to, scope, purpose, constraints, expiresIn, now, jti, stamp);
            && (r.Ok? <==> 0 < expiresIn <= 86400
                           && (n.manifest.Some? ==> forall i | 0 <= i < |scope| :: ManifestHas(n.manifest.value, scope[i])))
            && (r.Ok? ==>
                  && var (m, token) := r.value;
                  && PeekPayload(token).Some?
                  && Grants(PeekPayload(token).value, n.id, to, scope, purpose, constraints, expiresIn, now, jti)
                  && VerifyCompact(cr, token, n.kp.Public(cr))
                     == Ok((JObj(map["alg" := JStr("EdDSA"), "kid" := JStr(n.kp.kid), "typ" := JStr("atf+jws")]), PeekPayload(token).value))
                  && m == n.(log := m.log)
                  && Entered(cr, n, m.log, "delegation.issued", JStr(jti), n.id, to,
                             map["scope" := Texts(scope), "purpose" := JStr(purpose)], stamp, false))
  {
    hide IdealSignatures, HasEvent, ManifestHas, Apply, SignCompact, VerifyCompact, PeekPayload, Entered, Texts, Content;
    var claims := IssuedClaims(n, to, scope, purpose, constraints, expiresIn, now, jti);
    CompactRoundTrip(cr, ToJson(claims), n.kp);
    EntersOwn(cr, n, "delegation.issued", JStr(jti), n.id, to, map["scope" := Texts(scope), "purpose" := JStr(purpose)], stamp);
    GrantsClaims(n, to, scope, purpose, constraints, expiresIn, now, jti);
  }

  lemma GrantsClaims(n: Node, to: string, scope: seq<string>, purpose: string, constraints: Option<map<string, Json>>,
                     expiresIn: int, now: int, jti: string)
    ensures Grants(ToJson(IssuedClaims(n, to, scope, purpose, constraints, expiresIn, now, jti)), n.id, to, scope, purpose, constraints, expiresIn, now, jti)
  {
    hide Texts;
  }

  /** Whoever accepts an issued token, under whatever key, gets back the arguments of the issue. */
  lemma AcceptedAsIssued(cr: Crypto, a: Node, to: string, scope: seq<string>, purpose: string, constraints: Option<map<string, Json>>,
                         expiresIn: int, issuedAt: int, jti: string, s1: Stamp,
                         b: Node, requiredScope: string, now: int, s2: Stamp)
    requires IssueDelegation(cr, a, to, scope, purpose, constraints, expiresIn, issuedAt, jti, s1).Ok?
    ensures var token := IssueDelegation(cr, a, to, scope, purpose, constraints, expiresIn, issuedAt, jti, s1).value.1;
            var r := VerifyDelegation(cr, b, token, requiredScope, now, s2).1;
            r.Ok? ==>
              && r.value.iss == a.id && r.value.sub == to == b.id && r.value.scope == scope && ScopeCovers(scope, requiredScope)
              && r.value.nbf == r.value.iat == issuedAt && r.value.exp == issuedAt + expiresIn && issuedAt <= now < issuedAt + expiresIn
              && r.value.jti == jti && r.value.purpose == purpose && r.value.auditUri == JStr("local://" + a.id)
              && r.value.constraints == match constraints case None => map[] case Some(given) => given
  {
    hide SignCompact, VerifyCompact, PeekPayload, ScopeCovers, ManifestHas, VerifyDelegation, IssueDelegation, ToJson, ReplayDetected;
    var claims := IssuedClaims(a, to, scope, purpose, constraints, expiresIn, issuedAt, jti);
    IssueShape(cr, a, to, scope, purpose, constraints, expiresIn, issuedAt, jti, s1);
    var token := SignCompact(cr, ToJson(claims), a.kp);
    if VerifyDelegation(cr, b, token, requiredScope, now, s2).1.Ok? {
      AcceptedFacts(cr, b, token, requiredScope, now, s2);
      var peer := b.peers[VerifyDelegation(cr, b, token, requiredScope, now, s2).1.value.iss];
      AcceptedClaims(cr, claims, a.kp, peer.publicKey, b.id, requiredScope, peer.manifest, now);
      AcceptedAuthority(cr, token, peer.publicKey, b.id, requiredScope, peer.manifest, now);
    }
  }

  lemma AcceptedClaims(cr: Crypto, claims: Claims, kp: KeyPair, key: PublicKey, expectedSub: string, requiredScope: string,
                       manifest: Json, now: int)
    ensures var r := VerifyToken(cr, SignCompact(cr, ToJson(claims), kp), key, expectedSub, requiredScope, manifest, now);
            r.Ok? ==> r.value == claims
  {
    hide SignCompact, VerifyCompact, PeekPayload, ScopeCovers, ManifestHas, ReadClaims, ReadScope, Texts;
    var token := SignCompact(cr, ToJson(claims), kp);
    PeekSigned(cr, ToJson(claims), kp);
    CompactPayload(cr, token, key);
    ReadScopeBack(claims);
    ReadBack(claims);
    assert ToJson(claims).Get("exp") == Some(JInt(claims.exp)) && ToJson(claims).Get("nbf") == Some(JInt(claims.nbf));
  }

  /** A compact token that verifies is of the one algorithm, carries the payload that peeking reads, and its signature covers both parts. */
  lemma CompactPayload(cr: Crypto, token: string, key: PublicKey)
    ensures VerifyCompact(cr, token, key).Ok? ==>
              && PeekPayload(token) == Some(VerifyCompact(cr, token, key).value.1)
              && VerifyCompact(cr, token, key).value.0.GetText("alg") == Some("EdDSA")
              && TokenSignature(token).Some?
              && var parts := Split(token, '.');
              && |parts| == 3 && cr.verify(key, Encode(parts[0] + "." + parts[1]), TokenSignature(token).value)
  {
    hide DecodeJson, B64Decode, Encode;
  }

  // ---- Verifying and beginning ----

  /**
   A replay leaves evidence: the log gains one row that says which jti was tried, on whose behalf
   and on whom, under the agent's own signature. No other verdict changes anything.
   */
  lemma ReplayLeavesEvidence(cr: Crypto, n: Node, token: string, requiredScope: string, now: int, stamp: Stamp)
    requires IdealSignatures(cr) && Valid(cr, n.log)
    requires PeekPayload(token).Some? && PeekPayload(token).value.GetText("iss").Some?
    requires PeekPayload(token).value.GetText("iss").value in n.peers && !HasEvent(n.log, stamp.eventId)
    ensures var iss := PeekPayload(token).value.GetText("iss").value;
            var (m, r) := VerifyDelegation(cr, n, token, requiredScope, now, stamp);
            && (JtiUsed(n.log, RawJti(token)) ==>
                  && r == Raise(TokenReplay) && m == n.(log := m.log)
                  && Entered(cr, n, m.log, "delegation.replay_attempt", RawJti(token), iss, n.id, map[], stamp, false))
            && (!JtiUsed(n.log, RawJti(token)) ==> r != Raise(TokenReplay) && m == n)
  {
    hide IdealSignatures, ReplayDetected, VerifyToken, Valid, JtiUsed, Apply, HasEvent, PeekPayload, Bindable, Entered;
    var iss, jti := PeekPayload(token).value.GetText("iss").value, RawJti(token);
    ReplayVerdict(cr, n, token, requiredScope, now, stamp);
    ReplayExact(cr, n.log, jti);
    EntersOwn(cr, n, "delegation.replay_attempt", jti, iss, n.id, map[], stamp);
    if JtiUsed(n.log, jti) {
      UsedIsBindable(cr, n.log, jti);
      UsedIsPresent(cr, n, token);
    }
  }

  /**
   An invocation begins exactly for a token and a known action whose capability the token passes
   for. It is journaled as started, and the execution runs for the claims that were verified.
   Otherwise the agent is left as verifying the token left it.
   */
  lemma BeginExactly(cr: Crypto, n: Node, action: string, token: string, now: int, stamp: Stamp)
    requires IdealSignatures(cr) && !HasEvent(n.log, stamp.eventId)
    ensures var (m, r) := InvokeBegin(cr, n, action, token, now, stamp);
            && (token == "" ==> (m, r) == (n, Raise(MissingToken)))
            && (token != "" && action == "" ==> (m, r) == (n, Raise(MissingAction)))
            && (token != "" && action != "" && action !in n.handlers ==> (m, r) == (n, Raise(UnknownAction)))
            && (token != "" && action != "" && action in n.handlers ==>
                  var (k, verdict) := VerifyDelegation(cr, n, token, n.handlers[action].capability, now, stamp);
                  && (verdict.Raise? ==> (m, r) == (k, Raise(verdict.error)))
                  && (verdict.Ok? ==>
                        && r == Ok(|n.execs|) && m == n.(log := m.log, execs := m.execs)
                        && m.execs == n.execs + [Exec(verdict.value, RawJti(token), n.handlers[action].schemaId, |n.log|, Running)]
                        && ScopeCovers(verdict.value.scope, n.handlers[action].capability)
                        && Entered(cr, n, m.log, "delegation.started", JStr(verdict.value.jti), verdict.value.iss, n.id,
                                   map["scope" := Texts(verdict.value.scope)], stamp, false)))
  {
    hide IdealSignatures, VerifyDelegation, HasEvent, Entered, Texts, RawJti, Apply, ScopeCovers, VerifyToken, ReplayDetected, ManifestHas;
    if token != "" && action != "" && action in n.handlers {
      var capability := n.handlers[action].capability;
      var verdict := VerifyDelegation(cr, n, token, capability, now, stamp).1;
      if verdict.Ok? {
        var claims := verdict.value;
        AcceptedFacts(cr, n, token, capability, now, stamp);
        var peer := n.peers[claims.iss];
        AcceptedAuthority(cr, token, peer.publicKey, n.id, capability, peer.manifest, now);
        EntersOwn(cr, n, "delegation.started", JStr(claims.jti), claims.iss, n.id, map["scope" := Texts(claims.scope)], stamp);
      }
    }
  }

  /** The verdict on an issued token, error by error, in the order in which the checks come. */
  lemma IssuedVerdict(cr: Crypto, claims: Claims, kp: KeyPair, key: PublicKey, expectedSub: string, requiredScope: string,
                      manifest: Json, now: int)
    requires IdealSignatures(cr)
    ensures VerifyToken(cr, SignCompact(cr, ToJson(claims), kp), key, expectedSub, requiredScope, manifest, now) ==
            if key != kp.Public(cr) then Raise(TokenInvalidSignature)
            else if now >= claims.exp then Raise(TokenExpired)
            else if now < claims.nbf then Raise(TokenNotYetValid)
            else if claims.sub != expectedSub || !ScopeCovers(claims.scope, requiredScope)
                    || (exists i :: 0 <= i < |claims.scope| && !ManifestHas(manifest, claims.scope[i])) then Raise(TokenInsufficientScope)
            else Ok(claims)
  {
    hide IdealSignatures, SignCompact, VerifyCompact, PeekPayload, ScopeCovers, ManifestHas, ReadClaims, ReadScope, Texts;
    CompactRoundTrip(cr, ToJson(claims), kp);
    CompactKey(cr, ToJson(claims), kp, key);
    ReadScopeBack(claims);
    ReadBack(claims);
    assert ToJson(claims).Get("exp") == Some(JInt(claims.exp)) && ToJson(claims).Get("nbf") == Some(JInt(claims.nbf));
    assert ToJson(claims).Get("sub") == Some(JStr(claims.sub));
  }

  /** A signed token verifies under its maker's key alone. */
  lemma CompactKey(cr: Crypto, payload: Json, kp: KeyPair, key: PublicKey)
    requires IdealSignatures(cr)
    ensures VerifyCompact(cr, SignCompact(cr, payload, kp), key).Ok? <==> key == kp.Public(cr)
  {
    hide IdealSignatures, B64Encode, B64Decode, CanonicalJson, Split, Encode, SignCompact, DecodeJson, VerifyCompact;
    CompactRoundTrip(cr, payload, kp);
    var token := SignCompact(cr, payload, kp);
    if VerifyCompact(cr, token, key).Ok? {
      ForeignKey(cr, payload, kp, key);
    }
  }

  lemma ForeignKey(cr: Crypto, payload: Json, kp: KeyPair, key: PublicKey)
    requires IdealSignatures(cr) && VerifyCompact(cr, SignCompact(cr, payload, kp), key).Ok?
    ensures key == kp.Public(cr)
  {
    hide B64Encode, B64Decode, CanonicalJson, Split, Encode, SignCompact, DecodeJson;
    SplitCompact(cr, payload, kp);
    var input := SigningInput(Header(kp.kid), payload);
    Base64Url.DecodeEncode(cr.sign(kp.private, Encode(input)));
  }

  // ---- Answering ----

  /** The outcome of an execution: what the handler returned, or the exception it raised. */
  ghost predicate Reports(cr: Crypto, outcome: Json, exec: Exec, result: HandlerResult, executedAt: int) {
    var payload := match result
                   case Returned(value) => value
                   case Raised(className, message) => JObj(map["error" := JStr(className), "message" := JStr(message)]);
    outcome == JObj(map[
      "token_jti" := JStr(exec.claims.jti),
      "status" := JStr(if result.Returned? then "ok" else "error"),
      "payload" := payload,
      "payload_hash" := JStr("sha256:" + cr.sha256(CanonicalJson(payload))),
      "schema_id" := JStr(exec.schemaId),
      "executed_at" := JInt(executedAt),
      "reason" := match result case Returned(_) => JNull case Raised(_, message) => JStr(message)])
  }

  /** What the completion event carries of an outcome. */
  ghost function Bound(claims: Claims, outcome: Json): map<string, Json> {
    map["purpose" := JStr(claims.purpose), "scope" := Texts(claims.scope), "status" := GetOrNull(outcome, "status"),
        "outcome_hash" := GetOrNull(outcome, "payload_hash"), "schema_id" := GetOrNull(outcome, "schema_id")]
  }

  /**
   Finishing answers with the signed outcome of the handler and the signed event that binds it. The
   event is the one new row, pending, and the execution is finished with that row.
   */
  lemma FinishExactly(cr: Crypto, n: Node, i: nat, result: HandlerResult, executedAt: int, stamp: Stamp)
    requires IdealSignatures(cr) && i < |n.execs| && n.execs[i].phase.Running? && !HasEvent(n.log, stamp.eventId)
    ensures var (m, r) := InvokeFinish(cr, n, i, result, executedAt, stamp);
            var exec, claims := n.execs[i], n.execs[i].claims;
            && r.Ok?
            && m == n.(log := m.log, execs := n.execs[i := exec.(phase := Finished(|n.log|))])
            && r.value.outcome.Get("outcome").Some? && r.value.outcome.Get("signature").Some?
            && var outcome := r.value.outcome.Get("outcome").value;
            && Reports(cr, outcome, exec, result, executedAt)
            && SignedBy(cr, n, outcome, r.value.outcome.Get("signature").value)
            && Says(r.value.content, if result.Returned? then "delegation.completed" else "delegation.failed",
                    JStr(claims.jti), claims.iss, claims.sub, Bound(claims, outcome), stamp)
            && SignedBy(cr, n, r.value.content, r.value.signature)
            && Gained(cr, n.log, m.log, r.value.content, [r.value.signature], true)
  {
    hide IdealSignatures, SignedBy, SignEnvelope, CanonicalJson, Texts, HasEvent, Gained, NewRow, MakeRecord;
    var exec := n.execs[i];
    var o := OutcomeOf(exec, result, executedAt);
    var outcome := Outcome.ToContent(cr, o);
    var event := CompletionEvent(cr, exec.claims, o, stamp);
    OutcomeReports(cr, exec, result, executedAt);
    SignsContent(cr, n, outcome);
    SignsContent(cr, n, Content(event));
    BindsOutcome(cr, exec.claims, o, stamp);
    RowGained(cr, n.log, event, [SignOnly(cr, event, n.kp, n.id)], true);
  }

  lemma OutcomeReports(cr: Crypto, exec: Exec, result: HandlerResult, executedAt: int)
    ensures Reports(cr, Outcome.ToContent(cr, OutcomeOf(exec, result, executedAt)), exec, result, executedAt)
  {
    hide CanonicalJson;
  }

  lemma BindsOutcome(cr: Crypto, claims: Claims, o: Outcome.Outcome, stamp: Stamp)
    ensures CompletionEvent(cr, claims, o, stamp).fields == Bound(claims, Outcome.ToContent(cr, o))
  {
    hide Outcome.PayloadHash, Texts;
    var c := Outcome.ToContent(cr, o);
    assert c.Get("status") == Some(JStr(o.status)) && c.Get("schema_id") == Some(JStr(o.schemaId));
    assert c.Get("payload_hash") == Some(JStr(Outcome.PayloadHash(cr, o.payload)));
  }

  // ---- Receiving ----

  /** The outcome is signed under this key. */
  ghost predicate OutcomeSigned(cr: Crypto, envelope: Json, key: PublicKey) {
    && envelope.Get("outcome").Some? && envelope.Get("signature").Some?
    && Stands(cr, envelope.Get("outcome").value, envelope.Get("signature").value, key)
  }

  /** And it is complete, of the expected schema, with the hash of its payload. */
  ghost predicate OutcomeStands(cr: Crypto, envelope: Json, key: PublicKey, expectedSchema: Option<string>) {
    && OutcomeSigned(cr, envelope, key)
    && var outcome := envelope.Get("outcome").value;
    && outcome.Get("token_jti").Some? && outcome.Get("status").Some? && outcome.Get("schema_id").Some?
    && outcome.Get("executed_at").Some? && outcome.Get("payload").Some?
    && (expectedSchema.Some? ==> outcome.Get("schema_id") == Some(JStr(expectedSchema.value)))
    && outcome.Get("payload_hash") == Some(JStr("sha256:" + cr.sha256(CanonicalJson(outcome.Get("payload").value))))
  }

  lemma OutcomeMeans(cr: Crypto, envelope: Json, key: PublicKey, expectedSchema: Option<string>)
    ensures var r := Outcome.VerifyOutcome(cr, envelope, key, expectedSchema);
            && (r.Ok? <==> OutcomeStands(cr, envelope, key, expectedSchema))
            && (r == Raise(Outcome.OutcomeInvalidSignature) <==> !OutcomeSigned(cr, envelope, key))
            && (OutcomeSigned(cr, envelope, key) && expectedSchema.Some?
                && envelope.Get("outcome").value.Get("schema_id") != Some(JStr(expectedSchema.value)) ==>
                  r == Raise(Outcome.OutcomeSchemaMismatch))
  {
    hide VerifyEnvelope, Stands, CanonicalJson;
    if envelope.Get("outcome").Some? && envelope.Get("signature").Some? {
      var outcome := envelope.Get("outcome").value;
      VerifyMeans(cr, outcome, envelope.Get("signature").value, key);
      FiveKeys(outcome);
    }
  }

  lemma FiveKeys(outcome: Json)
    ensures Outcome.HasKeys(outcome, ["token_jti", "status", "schema_id", "executed_at", "payload_hash"]) <==>
            && outcome.Get("token_jti").Some? && outcome.Get("status").Some? && outcome.Get("schema_id").Some?
            && outcome.Get("executed_at").Some? && outcome.Get("payload_hash").Some?
  {
    var keys := ["token_jti", "status", "schema_id", "executed_at", "payload_hash"];
    assert keys[0] == "token_jti" && keys[1] == "status" && keys[2] == "schema_id" && keys[3] == "executed_at" && keys[4] == "payload_hash";
    if Outcome.HasKeys(outcome, keys) {
      assert forall i | 0 <= i < 5 :: outcome.Get(keys[i]).Some?;
      assert outcome.Get(keys[0]).Some? && outcome.Get(keys[1]).Some? && outcome.Get(keys[2]).Some?;
      assert outcome.Get(keys[3]).Some? && outcome.Get(keys[4]).Some?;
    }
  }

  /** The event is readable, signed under this key as rebuilt, storable and new. */
  ghost predicate EventStands(cr: Crypto, t: Table, response: Response, key: PublicKey) {
    var event := FromContent(response.content);
    && event.Some? && Stands(cr, Content(event.value), response.signature, key)
    && Storable(event.value) && !Taken(t, event.value)
  }

  /**
   What a client does with a response, whatever it says. It succeeds exactly if the delegatee is
   registered, the outcome stands under its key and the event does; then the log gains one row with
   both signatures and the client's own is returned. An outcome not signed under that key leaves one
   row of dispute. Every other failure leaves the agent as it was.
   */
  lemma ReceiveExactly(cr: Crypto, n: Node, delegateeId: string, expectedSchema: Option<string>, jti: Json,
                       response: Response, detail: string, stamp: Stamp)
    requires IdealSignatures(cr) && !HasEvent(n.log, stamp.eventId)
    ensures var (m, r) := ClientReceive(cr, n, delegateeId, expectedSchema, jti, response, detail, stamp);
            var known := delegateeId in n.peers;
            && (!known ==> (m, r) == (n, Raise(UnknownPeer)))
            && (known ==>
                  var key := n.peers[delegateeId].publicKey;
                  && (r.Ok? <==> OutcomeStands(cr, response.outcome, key, expectedSchema) && EventStands(cr, n.log, response, key))
                  && (r.Ok? ==>
                        var content := Content(FromContent(response.content).value);
                        && SignedBy(cr, n, content, r.value)
                        && m == n.(log := m.log) && Gained(cr, n.log, m.log, content, [r.value, response.signature], false))
                  && (!OutcomeSigned(cr, response.outcome, key) && Bindable(jti) ==>
                        && r == Raise(OutcomeRejected(Outcome.OutcomeInvalidSignature)) && m == n.(log := m.log)
                        && Entered(cr, n, m.log, "delegation.disputed", jti, n.id, delegateeId,
                                   map["reason" := JStr("outcome.invalid_signature"), "detail" := JStr(detail)], stamp, false))
                  && (r.Raise? && (OutcomeSigned(cr, response.outcome, key) || !Bindable(jti)) ==> m == n))
  {
    hide IdealSignatures, HasEvent, Outcome.VerifyOutcome, OutcomeStands, OutcomeSigned, FromContent, Content, Stands, Apply, Entered,
         Gained, SignedBy, SignEnvelope, Storable, Taken, Bindable;
    if delegateeId in n.peers {
      var key := n.peers[delegateeId].publicKey;
      OutcomeMeans(cr, response.outcome, key, expectedSchema);
      EntersOwn(cr, n, "delegation.disputed", jti, n.id, delegateeId,
                map["reason" := JStr("outcome.invalid_signature"), "detail" := JStr(detail)], stamp);
      if FromContent(response.content).Some? {
        TakesEvent(cr, n, FromContent(response.content).value, response.signature, key);
      }
    }
  }

  lemma TakesEvent(cr: Crypto, n: Node, event: AuditEvent, signature: Json, key: PublicKey)
    requires IdealSignatures(cr)
    ensures var r := Apply(cr, n.log, Finalized(event, n.kp, n.id, signature, key));
            && (r.Ok? <==> Stands(cr, Content(event), signature, key) && Storable(event) && !Taken(n.log, event))
            && SignedBy(cr, n, Content(event), SignOnly(cr, event, n.kp, n.id))
            && (r.Ok? ==> Gained(cr, n.log, r.value, Content(event), [SignOnly(cr, event, n.kp, n.id), signature], false))
  {
    hide IdealSignatures, Content, Stands, VerifyEnvelope, SignedBy, SignEnvelope, Gained, NewRow, MakeRecord, Storable, Taken;
    VerifyMeans(cr, Content(event), signature, key);
    SignsContent(cr, n, Content(event));
    if Storable(event) {
      RowGained(cr, n.log, event, [SignOnly(cr, event, n.kp, n.id), signature], false);
    }
  }

  // ---- Cosigning ----

  /** The signature's label is known and its key verifies it over the content of the pending row. */
  ghost predicate CosignStands(cr: Crypto, n: Node, eventId: Json, signature: Json) {
    && signature.GetText("signed_by").Some? && signature.GetText("signed_by").value in n.peers
    && Bindable(eventId) && ColumnOf(eventId).Some? && HasEvent(n.log, ColumnOf(eventId).value)
    && var row := n.log[FindEvent(n.log, ColumnOf(eventId).value)];
    && row.pendingPeer && IsRecord(row.record)
    && Stands(cr, ContentOf(row.record), signature, n.peers[signature.GetText("signed_by").value].publicKey)
    && forall k | 0 <= k < |SignaturesOf(row.record)| :: Labelled(SignaturesOf(row.record)[k])
  }

  /**
   A cosign is taken exactly if its label is a registered peer whose key verifies it over a row
   that still awaits one. Then that row is settled with the signature added, unless its label is
   there already, and no other row and nothing else of the agent changes.
   */
  lemma CosignExactly(cr: Crypto, n: Node, eventId: Json, signature: Json)
    ensures var r := AuditCosign(cr, n, eventId, signature);
            && (r.Ok? <==> CosignStands(cr, n, eventId, signature))
            && (r.Ok? ==>
                  var i := FindEvent(n.log, ColumnOf(eventId).value);
                  var row, held := n.log[i], SignaturesOf(n.log[i].record);
                  var after := if exists k :: 0 <= k < |held| && held[k].Get("signed_by") == signature.Get("signed_by")
                               then held else held + [signature];
                  && r.value == n.(log := r.value.log) && |r.value.log| == |n.log|
                  && (forall j | 0 <= j < |n.log| && j != i :: r.value.log[j] == n.log[j])
                  && IsRecord(r.value.log[i].record)
                  && ContentOf(r.value.log[i].record) == ContentOf(row.record) && SignaturesOf(r.value.log[i].record) == after
                  && r.value.log[i] == row.(record := r.value.log[i].record, pendingPeer := false))
  {
    hide VerifyEnvelope, Stands, FindEvent, HasEvent, IsRecord;
    if signature.GetText("signed_by").Some? && signature.GetText("signed_by").value in n.peers
       && ColumnOf(eventId).Some? && HasEvent(n.log, ColumnOf(eventId).value) {
      var row := n.log[FindEvent(n.log, ColumnOf(eventId).value)];
      if IsRecord(row.record) {
        VerifyMeans(cr, ContentOf(row.record), signature, n.peers[signature.GetText("signed_by").value].publicKey);
      }
    }
  }

  /** Why a finalization fails: no such event, one that is settled, or a signature that does not stand. */
  lemma FinalizeRefused(cr: Crypto, t: Table, eventId: string, signature: Json, key: PublicKey)
    requires Valid(cr, t)
    ensures var r := FinalizePending(cr, t, eventId, signature, key);
            && (r == Raise(EventNotFound) <==> PhaseOf(t, eventId).Absent?)
            && (r == Raise(NotPending) <==> PhaseOf(t, eventId).Settled?)
            && (r == Raise(CrossSignFailed) <==>
                  PhaseOf(t, eventId).AwaitingPeer? && !Stands(cr, ContentOf(t[FindEvent(t, eventId)].record), signature, key))
  {
    hide VerifyEnvelope, Stands, FindEvent, HasEvent, IsRecord, Linked, DistinctIds, Indexed;
    if HasEvent(t, eventId) {
      var row := t[FindEvent(t, eventId)];
      assert Commits(row);
      VerifyMeans(cr, ContentOf(row.record), signature, key);
    }
  }

  // ---- Dying ----

  /** A crash ends every running execution and leaves everything else, the log above all. */
  lemma CrashStops(n: Node)
    ensures var m := Crash(n);
            && m == n.(execs := m.execs) && |m.execs| == |n.execs|
            && forall e | 0 <= e < |n.execs| ::
                 m.execs[e] == if n.execs[e].phase.Running? then n.execs[e].(phase := Crashed) else n.execs[e]
  {
  }
}
