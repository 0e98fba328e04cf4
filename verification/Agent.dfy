/** agent.py's `Agent`: identity, peers and audit log behind one object, updated in place. */
module Agent {
  import opened Wrappers
  import opened Json
  import opened Python
  import opened Signing
  import opened Delegation
  import opened Scope
  import opened AuditEvent
  import AuditLog
  import Laws = AuditLaws
  import Manifest
  import Spec = Node
  import Table = AuditTable

  /** A capability given by its bare name or in full. */
  datatype Given = Name(name: string) | Full(capability: Manifest.Capability) {
    function Capability(): Manifest.Capability {
      match this
      case Name(n) => Manifest.Capability(n, "", map[])
      case Full(c) => c
    }
  }

  function Capabilities(given: seq<Given>): seq<Manifest.Capability> {
    seq(|given|, i requires 0 <= i < |given| => given[i].Capability())
  }

  /** Scanning the listed events finds a use of the jti exactly when some row of the table is one. */
  lemma ScanAgrees(t: Table.Table, jti: Json)
    ensures (exists r :: r in Table.Records(Table.SortByKey(t)) && Laws.UsesJti(r, jti))
            <==> exists i :: 0 <= i < |t| && Laws.UsesJti(t[i].record, jti)
  {
    hide Laws.UsesJti, Table.SortByKey;
    var s := Table.SortByKey(t);
    if r :| r in Table.Records(s) && Laws.UsesJti(r, jti) {
      var k :| 0 <= k < |s| && s[k].record == r;
      assert s[k] in multiset(s);
      var i :| 0 <= i < |t| && t[i] == s[k];
    }
    if i :| 0 <= i < |t| && Laws.UsesJti(t[i].record, jti) {
      assert t[i] in multiset(t);
      var k :| 0 <= k < |s| && s[k] == t[i];
      assert Table.Records(s)[k] == t[i].record;
    }
  }

  class Agent {
    const id: string
    const keypair: KeyPair
    const auditLog: AuditLog.AuditLog
    var manifestEnvelope: Option<Json>
    var peers: map<string, Spec.Peer>

    /** The agent as a value, before any handlers are installed. */
    ghost function State(): Spec.Node
      reads this, auditLog
      requires |auditLog.rows| == |auditLog.originals|
    {
      Spec.Node(id, keypair, map[], ManifestContent(), peers, auditLog.Model(), [])
    }

    ghost predicate Valid()
      reads this, auditLog
    {
      auditLog.Valid() && (manifestEnvelope.Some? ==> manifestEnvelope.value.Get("manifest").Some?)
    }

    constructor (id: string, keypair: KeyPair, auditLog: AuditLog.AuditLog)
      requires auditLog.Valid()
      ensures Valid() && this.id == id && this.keypair == keypair && this.auditLog == auditLog
      ensures manifestEnvelope.None? && peers == map[]
    {
      this.id, this.keypair, this.auditLog := id, keypair, auditLog;
      manifestEnvelope, peers := None, map[];
    }

    function ManifestContent(): Option<Json>
      reads this
    {
      match manifestEnvelope
      case None => None
      case Some(envelope) => envelope.Get("manifest")
    }

    method PublishManifest(given: seq<Given>, version: string, description: string) returns (envelope: Json)
      requires Valid()
      modifies this`manifestEnvelope
      ensures Valid()
      ensures (State(), envelope)
              == Spec.PublishManifest(auditLog.cr, old(State()), Capabilities(given), version, description)
    {
      hide Laws.Valid, SignEnvelope;
      var caps := [];
      for i := 0 to |given|
        invariant caps == Capabilities(given[..i])
      {
        assert given[..i + 1] == given[..i] + [given[i]];
        caps := caps + [given[i].Capability()];
      }
      assert given[..|given|] == given;
      var manifest := Manifest.Manifest(id, version, caps, [], description, None);
      envelope := Manifest.SignManifest(auditLog.cr, manifest, keypair);
      assert envelope.Get("manifest") == Some(manifest.ToContent());
      manifestEnvelope := Some(envelope);
    }

    method RegisterPeer(agentId: string, publicKey: PublicKey, envelope: Json) returns (r: Result<Spec.Peer, Spec.NodeError>)
      requires Valid()
      modifies this`peers
      ensures Valid()
      ensures match Spec.RegisterPeer(auditLog.cr, old(State()), agentId, publicKey, envelope)
              case Ok(n) => State() == n && r == Ok(n.peers[agentId])
              case Raise(e) => r == Raise(e) && State() == old(State())
    {
      hide Laws.Valid, Manifest.VerifyManifest;
      var verdict := Manifest.VerifyManifest(auditLog.cr, envelope, publicKey);
      if verdict.Raise? {
        return Raise(Spec.ManifestRejected);
      }
      var content := verdict.value;
      if content.Get("agent_id") != Some(JStr(agentId)) {
        return Raise(Spec.WrongAgentId);
      }
      var record := Spec.Peer(agentId, publicKey, content);
      peers := peers[agentId := record];
      return Ok(record);
    }

    method IssueDelegation(to: string, scope: seq<string>, purpose: string, constraints: Option<map<string, Json>>,
                           expiresIn: int, now: int, newJti: string, stamp: Spec.Stamp) returns (r: Result<string, Spec.NodeError>)
      requires Valid()
      modifies auditLog
      ensures Valid()
      ensures match Spec.IssueDelegation(auditLog.cr, old(State()), to, scope, purpose, constraints, expiresIn, now, newJti, stamp)
              case Ok((n, token)) => State() == n && r == Ok(token)
              case Raise(e) => r == Raise(e) && State() == old(State())
    {
      hide Laws.Valid, ManifestHas, SignCompact, PeekPayload, ToJson, Content, Table.AppendSelf;
      if manifestEnvelope.Some? {
        var content := ManifestContent().value;
        for i := 0 to |scope|
          invariant forall k | 0 <= k < i :: ManifestHas(content, scope[k])
        {
          if !ManifestHas(content, scope[i]) {
            return Raise(Spec.ScopeNotInManifest);
          }
        }
      }
      var claims := NewClaims(id, to, scope, purpose, constraints, expiresIn, Some("local://" + id), now, newJti);
      var issued := IssueToken(auditLog.cr, keypair, claims, expiresIn);
      if issued.Raise? {
        return Raise(Spec.Token(issued.error));
      }
      var token := issued.value;
      PeekIssuedJti(auditLog.cr, claims, keypair);
      var jti := PeekPayload(token).value.GetText("jti").value;
      var event := OwnEvent("delegation.issued", JStr(jti), id, to,
                            map["scope" := Texts(scope), "purpose" := JStr(purpose)], stamp.eventId, stamp.ts);
      var logged := auditLog.AppendSelf(event, keypair, id);
      if logged.Raise? {
        return Raise(Spec.Audit(logged.error));
      }
      return Ok(token);
    }

    /** The replay check: the indexed pre-filter first, then a scan of all events. */
    method SeenBefore(jti: Json) returns (r: Result<bool, Table.AuditError>)
      requires Valid()
      ensures r == if Bindable(jti) then Ok(Laws.ReplayDetected(auditLog.Model(), jti)) else Raise(Table.NotStorable)
    {
      hide Laws.Valid, Laws.UsesJti, Table.HasJti, Table.SortByKey, Bindable;
      ScanAgrees(auditLog.Model(), jti);
      var indexed :- auditLog.HasJti(jti);
      if !indexed {
        return Ok(false);
      }
      var events := auditLog.AllEvents();
      var existing := [];
      for i := 0 to |events|
        invariant existing == [] <==> forall k | 0 <= k < i :: !Laws.UsesJti(events[k], jti)
      {
        if Laws.UsesJti(events[i], jti) {
          existing := existing + [events[i]];
        }
      }
      return Ok(existing != []);
    }

    method VerifyDelegation(token: string, requiredScope: string, now: int, stamp: Spec.Stamp) returns (r: Result<Claims, Spec.NodeError>)
      requires Valid()
      modifies auditLog
      ensures Valid()
      ensures (State(), r) == Spec.VerifyDelegation(auditLog.cr, old(State()), token, requiredScope, now, stamp)
    {
      hide Laws.Valid, Laws.ReplayDetected, VerifyToken, PeekPayload, Content, Table.AppendSelf, Bindable;
      var peeked := PeekPayload(token);
      if peeked.None? || peeked.value.GetText("iss").None? {
        return Raise(Spec.MalformedToken);
      }
      var iss := peeked.value.GetText("iss").value;
      if iss !in peers {
        return Raise(Spec.UnknownPeer);
      }
      var peer := peers[iss];
      var claimed := peeked.value.Get("jti");
      if claimed.None? {
        return Raise(Spec.MalformedToken);
      }
      var jti := claimed.value;
      var seen := SeenBefore(jti);
      if seen.Raise? {
        return Raise(Spec.MalformedToken);
      }
      if seen.value {
        var event := OwnEvent("delegation.replay_attempt", jti, iss, id, map[], stamp.eventId, stamp.ts);
        var logged := auditLog.AppendSelf(event, keypair, id);
        return Raise(if logged.Raise? then Spec.Audit(logged.error) else Spec.TokenReplay);
      }
      var verdict := VerifyToken(auditLog.cr, token, peer.publicKey, id, requiredScope, peer.manifest, now);
      return if verdict.Ok? then Ok(verdict.value) else Raise(Spec.Token(verdict.error));
    }
  }

  /** Decoding a token just issued gives back its jti. */
  lemma PeekIssuedJti(cr: Crypto, claims: Claims, kp: KeyPair)
    ensures PeekPayload(SignCompact(cr, ToJson(claims), kp)).Some?
    ensures PeekPayload(SignCompact(cr, ToJson(claims), kp)).value.GetText("jti") == Some(claims.jti)
  {
    hide SignCompact, PeekPayload, Texts;
    PeekSigned(cr, ToJson(claims), kp);
  }
}
