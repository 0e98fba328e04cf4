/** Which issued tokens are accepted, in every reachable state of agents that know only honest keys. */
module Presentation {
  import opened Wrappers
  import opened Json
  import opened Python
  import opened Utf8
  import opened Signing
  import opened Delegation
  import opened Scope
  import opened AuditEvent
  import opened AuditTable
  import opened AuditLaws
  import opened Node
  import opened NodeLaws
  import opened Network
  import opened NetworkLaws
  import opened Agreement
  import opened Issuance
  import Base64Url

  // ---- Fresh jtis ----

  /** uuid4: no event any honest agent created mentions the jti. */
  ghost predicate FreshJti(s: System, jti: string) {
    forall id | id in s.minted :: s.minted[id].GetText("token_jti") != Some(jti)
  }

  ghost predicate FreshJtis(cr: Crypto, start: System, events: seq<Event>) {
    forall k | 0 <= k < |events| && events[k].step.Issue? :: FreshJti(Reach(cr, start, events[..k]), events[k].step.newJti)
  }

  // ---- The invariant ----

  ghost predicate OwnMint(s: System, id: string, c: string, i: nat) {
    && id in s.minted && c in s.nodes && i < |s.nodes[c].log|
    && var r := s.nodes[c].log[i];
    && OwnRow(r) && r.eventId == Some(id) && IsRecord(r.record) && ContentOf(r.record) == s.minted[id]
  }

  /** Every event created stands as an own row of some agent. */
  ghost predicate MintedStored(s: System) {
    forall id | id in s.minted :: exists c, i :: OwnMint(s, id, c, i)
  }

  ghost predicate SameIssue(content: Json, other: Json) {
    && content.GetText("type") == Some("delegation.issued") && other.GetText("type") == Some("delegation.issued")
    && content.GetText("token_jti") == other.GetText("token_jti")
  }

  /** No two issues share a jti. */
  ghost predicate IssuesUnique(s: System) {
    forall id, id' | id in s.minted && id' in s.minted && SameIssue(s.minted[id], s.minted[id']) :: id == id'
  }

  ghost predicate TokenIssued(cr: Crypto, s: System, a: string, token: string) {
    a in s.nodes && exists claims :: token == SignCompact(cr, ToJson(claims), s.nodes[a].kp) && IssuedBy(s.nodes[a], claims)
  }

  ghost predicate TokensIssued(cr: Crypto, s: System) {
    forall a, token | (a, TokenSent(token)) in s.sent :: TokenIssued(cr, s, a, token)
  }

  ghost predicate Traceable(cr: Crypto, s: System) {
    MintedStored(s) && IssuesUnique(s) && TokensIssued(cr, s)
  }

  // ---- Each step keeps it ----

  lemma ContentTexts(e: AuditEvent)
    ensures Content(e).Get("type") == Some(e.typ) && Content(e).Get("token_jti") == Some(e.tokenJti)
  {
  }

  /** An own row of type `delegation.issued` comes from issuing, under the jti drawn there. */
  lemma StepIssues(cr: Crypto, n: Node, step: NodeStep)
    requires NodeValid(cr, n)
    ensures var u := Next(cr, n, step).0.log;
            RowAdded(cr, n, step, u) && OwnRow(u[|n.log|])
            && ContentOf(u[|n.log|].record).GetText("type") == Some("delegation.issued") ==>
              step.Issue? && ContentOf(u[|n.log|].record).GetText("token_jti") == Some(step.newJti)
  {
    hide Next, Valid, Matched, Counted, AtMostOnce, Content, SignOnly, VerifyEnvelope, FinalizePending, LatestHash, ChainHash,
         MakeRecord, IsRecord, FromContent, HasEvent;
    NextEffect(cr, n, step);
    var t, u := n.log, Next(cr, n, step).0.log;
    if u != t {
      var op :| u == Step(cr, t, op) && OpOf(n, step, op);
      match op
      case Self(e, kp, signer) =>
        ContentTexts(e);
        MakeRecordShape(Content(e), [SignOnly(cr, e, kp, signer)]);
      case Pending(e, kp, signer) =>
        ContentTexts(e);
        MakeRecordShape(Content(e), [SignOnly(cr, e, kp, signer)]);
      case Finalized(e, kp, signer, sig, key) => MakeRecordShape(Content(e), [SignOnly(cr, e, kp, signer), sig]);
      case Finalize(id, sig, key) => SettleLength(cr, t, id, sig, key);
    }
  }

  lemma SettleLength(cr: Crypto, t: Table, eventId: string, peerSignature: Json, peerKey: PublicKey)
    ensures |Step(cr, t, Finalize(eventId, peerSignature, peerKey))| == |t|
  {
    hide VerifyEnvelope, AddSignature, Labelled;
  }

  lemma OwnMintGrows(cr: Crypto, s: System, e: Event, id: string, c: string, i: nat)
    requires NodesValid(cr, s) && e.node in s.nodes && OwnMint(s, id, c, i) && MintsMore(s, Advance(cr, s, e))
    ensures OwnMint(Advance(cr, s, e), id, c, i)
  {
    hide Next, Signed, Minted, NodeValid, IsRecord;
    var t := Advance(cr, s, e);
    EffectGrows(cr, s.nodes[e.node], e.step);
    OwnRowSame(s.nodes[c].log[i], t.nodes[c].log[i]);
  }

  /** What a step mints: nothing, or the own row it added. */
  lemma MintedByStep(cr: Crypto, s: System, e: Event)
    requires NodesValid(cr, s) && Enabled(cr, s, e)
    ensures var n, t := s.nodes[e.node], Advance(cr, s, e);
            var u := t.nodes[e.node].log;
            && MintsMore(s, t)
            && (t.minted == s.minted
                || (RowAdded(cr, n, e.step, u) && OwnRow(u[|n.log|])
                    && u[|n.log|].eventId.Some?
                    && t.minted == s.minted[u[|n.log|].eventId.value := ContentOf(u[|n.log|].record)]
                    && OwnMint(t, u[|n.log|].eventId.value, e.node, |n.log|)))
  {
    hide Next, Signed, NodeValid, IsRecord, OwnRow, VerifyEnvelope, KnownEnvelope, Known;
    StepAdds(cr, s.nodes[e.node], e.step);
  }

  lemma MintedStoredKept(cr: Crypto, s: System, e: Event)
    requires NodesValid(cr, s) && MintedStored(s) && Enabled(cr, s, e)
    ensures MintedStored(Advance(cr, s, e))
  {
    hide Next, Signed, Minted, NodesValid, OwnMint, RowAdded, OwnRow, IsRecord, FreshStamp, Known, KnownEnvelope;
    var t := Advance(cr, s, e);
    MintedByStep(cr, s, e);
    forall id | id in t.minted
      ensures exists c, i :: OwnMint(t, id, c, i)
    {
      if id in s.minted {
        var c, i :| OwnMint(s, id, c, i);
        OwnMintGrows(cr, s, e, id, c, i);
      } else {
        assert OwnMint(t, id, e.node, |s.nodes[e.node].log|);
      }
    }
  }

  /** Rows with one content are used alike. */
  lemma SameContentSameUse(cr: Crypto, n: Node, i: nat, m: Node, k: nat, jti: Json)
    requires NodeValid(cr, n) && NodeValid(cr, m) && i < |n.log| && k < |m.log|
    requires IsRecord(n.log[i].record) && IsRecord(m.log[k].record) && ContentOf(n.log[i].record) == ContentOf(m.log[k].record)
    ensures UsedBy(n.log[i], jti) == UsedBy(m.log[k], jti)
  {
    hide Matched, Counted, AtMostOnce, Linked, FromContent, IsRecord, Commits, Carries, Content;
    assert Indexed(n.log[i]) && Indexed(m.log[k]);
  }

  lemma IssuesUniqueKept(cr: Crypto, s: System, e: Event)
    requires NodesValid(cr, s) && IssuesUnique(s) && Enabled(cr, s, e)
    requires e.step.Issue? ==> FreshJti(s, e.step.newJti)
    ensures IssuesUnique(Advance(cr, s, e))
  {
    hide Next, Signed, Minted, NodeValid, OwnRow, IsRecord, OwnMint, RowAdded, FreshStamp, Known, KnownEnvelope;
    var n, t := s.nodes[e.node], Advance(cr, s, e);
    MintedByStep(cr, s, e);
    if t.minted != s.minted {
      var u := t.nodes[e.node].log;
      AddedLength(cr, n, e.step, u);
      StepIssues(cr, n, e.step);
    }
  }

  lemma AddedLength(cr: Crypto, n: Node, step: NodeStep, u: Table)
    requires RowAdded(cr, n, step, u)
    ensures |u| == |n.log| + 1
  {
  }

  lemma TokenIssuedGrows(cr: Crypto, s: System, e: Event, a: string, token: string)
    requires NodesValid(cr, s) && e.node in s.nodes && TokenIssued(cr, s, a, token)
    ensures TokenIssued(cr, Advance(cr, s, e), a, token)
  {
    hide Next, Signed, Minted, NodeValid, Grows, IssuedBy, SignCompact, ToJson;
    var t := Advance(cr, s, e);
    NextEffect(cr, s.nodes[e.node], e.step);
    EffectGrows(cr, s.nodes[e.node], e.step);
    var claims :| token == SignCompact(cr, ToJson(claims), s.nodes[a].kp) && IssuedBy(s.nodes[a], claims);
    if a == e.node {
      IssuedByGrows(s.nodes[a], t.nodes[a], claims);
    }
  }

  lemma SentIsIssued(cr: Crypto, n: Node, step: NodeStep, token: string)
    requires Next(cr, n, step).1 == Some(TokenSent(token))
    ensures var m := Next(cr, n, step).0;
            m.kp == n.kp && exists claims :: token == SignCompact(cr, ToJson(claims), n.kp) && IssuedBy(m, claims)
  {
    hide SignCompact, ToJson, HasContent, Content, RecordsIssue, Apply, ManifestHas, InvokeBegin, InvokeFinish, ClientReceive,
         PublishManifest, RegisterPeer, AuditCosign, Crash;
    assert step.Issue?;
    var claims := IssuedClaims(n, step.to, step.scope, step.purpose, step.constraints, step.expiresIn, step.now, step.newJti);
    var op := Self(IssuedEvent(n, step.to, step.scope, step.purpose, step.newJti, step.stamp), n.kp, n.id);
    AppendedContent(cr, n.log, op);
    IssuedEventRecords(n, claims, step.stamp);
    assert HasContent(Next(cr, n, step).0.log, Content(op.event));
    assert token == SignCompact(cr, ToJson(claims), n.kp);
  }

  lemma TokensIssuedKept(cr: Crypto, s: System, e: Event)
    requires NodesValid(cr, s) && TokensIssued(cr, s) && e.node in s.nodes
    ensures TokensIssued(cr, Advance(cr, s, e))
  {
    hide Next, Signed, Minted, NodesValid, IssuedBy, SignCompact, ToJson;
    var t := Advance(cr, s, e);
    forall a, token | (a, TokenSent(token)) in t.sent
      ensures TokenIssued(cr, t, a, token)
    {
      if (a, TokenSent(token)) in s.sent {
        TokenIssuedGrows(cr, s, e, a, token);
      } else {
        SentIsIssued(cr, s.nodes[e.node], e.step, token);
      }
    }
  }

  lemma {:induction false} ReachTraceable(cr: Crypto, start: System, events: seq<Event>)
    requires Initial(cr, start) && FreshJtis(cr, start, events)
    ensures Traceable(cr, Reach(cr, start, events))
  {
    hide Advance, Enabled, NodesValid, MintedStored, IssuesUnique, TokensIssued, Possession, Origins, FreshJti;
    if events == [] {
      InitialTraceable(cr, start);
    } else {
      var before, e := events[..|events| - 1], events[|events| - 1];
      var s := Reach(cr, start, before);
      assert forall k | 0 <= k < |before| :: before[k] == events[k] && before[..k] == events[..k];
      ReachTraceable(cr, start, before);
      ReachValid(cr, start, before);
      if Enabled(cr, s, e) {
        EnabledNode(cr, s, e);
        MintedStoredKept(cr, s, e);
        IssuesUniqueKept(cr, s, e);
        TokensIssuedKept(cr, s, e);
      }
    }
  }

  lemma InitialTraceable(cr: Crypto, s: System)
    requires Initial(cr, s)
    ensures Traceable(cr, s)
  {
  }

  // ---- A used jti was used by its delegatee ----

  /** Whoever holds a row that counts as use, some agent began an execution under the jti. */
  lemma UseHasExec(cr: Crypto, s: System, b: string, i: nat, jti: Json)
    requires NodesValid(cr, s) && AllMinted(s) && MintedStored(s)
    requires b in s.nodes && i < |s.nodes[b].log| && UsedBy(s.nodes[b].log[i], jti)
    ensures jti.JStr? && exists c, e :: c in s.nodes && 0 <= e < |s.nodes[c].execs| && s.nodes[c].execs[e].claims.jti == jti.s
  {
    hide Valid, Matched, Counted, AtMostOnce, OwnRow, IsRecord, UsedBy;
    var r := s.nodes[b].log[i];
    assert LogMinted(s, s.nodes[b].log) && MintedRow(s, r);
    var c, k :| OwnMint(s, r.eventId.value, c, k);
    SameContentSameUse(cr, s.nodes[b], i, s.nodes[c], k, jti);
    OwnUseHasExec(cr, s.nodes[c].log, s.nodes[c].execs, k, jti);
  }

  /** The record of an issue is a minted event. */
  lemma IssueIsMinted(cr: Crypto, s: System, a: string, claims: Claims) returns (id: string)
    requires NodesValid(cr, s) && AllMinted(s) && a in s.nodes && IssuedBy(s.nodes[a], claims)
    ensures id in s.minted && RecordsIssue(s.minted[id], claims)
  {
    hide NodeValid, RecordsIssue, IsRecord;
    var content :| HasContent(s.nodes[a].log, content) && RecordsIssue(content, claims);
    var t := s.nodes[a].log;
    var i :| 0 <= i < |t| && IsRecord(t[i].record) && ContentOf(t[i].record) == content;
    assert LogMinted(s, t) && MintedRow(s, t[i]);
    id := t[i].eventId.value;
  }

  lemma SameJtiSameIssue(cr: Crypto, s: System, a: string, claims: Claims, a': string, claims': Claims)
    requires NodesValid(cr, s) && AllMinted(s) && IssuesUnique(s)
    requires a in s.nodes && IssuedBy(s.nodes[a], claims) && a' in s.nodes && IssuedBy(s.nodes[a'], claims')
    requires claims.jti == claims'.jti
    ensures claims.sub == claims'.sub
  {
    hide NodesValid, AllMinted, IssuedBy;
    var id := IssueIsMinted(cr, s, a, claims);
    var id' := IssueIsMinted(cr, s, a', claims');
    assert SameIssue(s.minted[id], s.minted[id']);
  }

  /** For the delegatee of an issued token, its jti is used exactly if it began an execution under it. */
  lemma UsedMeansBegun(cr: Crypto, s: System, a: string, b: string, claims: Claims)
    requires NodesValid(cr, s) && AllMinted(s) && MintedStored(s) && IssuesUnique(s) && AllIssued(s)
    requires a in s.nodes && b in s.nodes && IssuedBy(s.nodes[a], claims) && claims.sub == b
    ensures JtiUsed(s.nodes[b].log, JStr(claims.jti)) <==> Begun(s.nodes[b].execs, claims.jti)
  {
    hide NodeValid, AllMinted, MintedStored, IssuesUnique, IssuedBy, OwnRow;
    var n := s.nodes[b];
    UsedExactly(cr, n, JStr(claims.jti));
    if i :| 0 <= i < |n.log| && UsedBy(n.log[i], JStr(claims.jti)) {
      UseHasExec(cr, s, b, i, JStr(claims.jti));
      var c, e :| c in s.nodes && 0 <= e < |s.nodes[c].execs| && s.nodes[c].execs[e].claims.jti == claims.jti;
      var x := s.nodes[c].execs[e];
      assert ExecIssued(s, c, x);
      SameJtiSameIssue(cr, s, a, claims, x.claims.iss, x.claims);
      assert Begun(n.execs, claims.jti);
    }
  }

  // ---- Exactly which tokens are accepted ----

  /** A compact token verifies under its maker's key only. */
  lemma SignedKeyOnly(cr: Crypto, payload: Json, kp: KeyPair, key: PublicKey)
    requires IdealSignatures(cr) && VerifyCompact(cr, SignCompact(cr, payload, kp), key).Ok?
    ensures key == kp.Public(cr)
  {
    hide CanonicalJson, SigningInput, Base64Url.B64Encode, Base64Url.B64Decode, DecodeJson, SignCompact, Encode;
    SplitCompact(cr, payload, kp);
    Base64Url.DecodeEncode(cr.sign(kp.private, Encode(SigningInput(Header(kp.kid), payload))));
  }

  lemma ClaimsOfToken(cr: Crypto, kp: KeyPair, claims: Claims, claims': Claims)
    requires SignCompact(cr, ToJson(claims), kp) == SignCompact(cr, ToJson(claims'), kp)
    ensures claims == claims'
  {
    hide SignCompact, PeekPayload, ToJson, ReadClaims, ReadScope;
    PeekSigned(cr, ToJson(claims), kp);
    PeekSigned(cr, ToJson(claims'), kp);
    SamePayloadSameClaims(claims, claims');
  }

  lemma SamePayloadSameClaims(claims: Claims, claims': Claims)
    requires ToJson(claims) == ToJson(claims')
    ensures claims == claims'
  {
    hide ReadClaims, ReadScope, Texts;
    ReadScopeBack(claims);
    ReadScopeBack(claims');
    ReadBack(claims);
    ReadBack(claims');
    assert ToJson(claims).Get("exp") == Some(JInt(claims.exp)) && ToJson(claims').Get("exp") == Some(JInt(claims'.exp));
    assert ToJson(claims).Get("nbf") == Some(JInt(claims.nbf)) && ToJson(claims').Get("nbf") == Some(JInt(claims'.nbf));
  }

  /** What a token that was sent still needs in order to be accepted by agent b for a capability. */
  ghost predicate Acceptable(cr: Crypto, s: System, a: string, b: string, claims: Claims, requiredScope: string, now: int)
    requires a in s.nodes && b in s.nodes
  {
    var n := s.nodes[b];
    && claims.sub == b && claims.nbf <= now < claims.exp
    && a in n.peers && n.peers[a].publicKey == s.nodes[a].kp.Public(cr)
    && ScopeCovers(claims.scope, requiredScope)
    && (forall k | 0 <= k < |claims.scope| :: ManifestHas(n.peers[a].manifest, claims.scope[k]))
    && !Begun(n.execs, claims.jti)
  }

  /**
   First presentation, in every reachable state of agents that register only honest keys and draw
   fresh jtis: an agent accepts a token another has sent if and only if it is the delegatee, knows
   the issuer under its key with a manifest that declares the scope, the capability is covered,
   the clock is inside the window, and it has begun no execution under the jti.
   */
  lemma AcceptedExactly(cr: Crypto, start: System, events: seq<Event>, a: string, b: string, token: string, claims: Claims,
                        requiredScope: string, now: int, stamp: Stamp)
    requires IdealSignatures(cr) && Initial(cr, start) && FreshJtis(cr, start, events)
    requires PeersHonest(cr, start) && RegistersHonest(cr, start, events)
    requires var s := Reach(cr, start, events);
             && a in s.nodes && b in s.nodes && (a, TokenSent(token)) in s.sent
             && token == SignCompact(cr, ToJson(claims), s.nodes[a].kp)
    ensures var s := Reach(cr, start, events);
            var r := VerifyDelegation(cr, s.nodes[b], token, requiredScope, now, stamp).1;
            && (r.Ok? <==> Acceptable(cr, s, a, b, claims, requiredScope, now))
            && (r.Ok? ==> r.value == claims)
  {
    hide Reach, Initial, FreshJtis, PeersHonest, RegistersHonest, IdealSignatures, NodesValid, Possession, Origins, MintedStored, IssuesUnique,
         AllIssued, AllMinted, SignCompact, ToJson, VerifyDelegation, IssuedBy, Acceptable;
    var s := Reach(cr, start, events);
    ReachValid(cr, start, events);
    ReachMinted(cr, start, events);
    ReachTraceable(cr, start, events);
    WorkWasDelegated(cr, start, events);
    assert TokenIssued(cr, s, a, token);
    var issued :| token == SignCompact(cr, ToJson(issued), s.nodes[a].kp) && IssuedBy(s.nodes[a], issued);
    ClaimsOfToken(cr, s.nodes[a].kp, claims, issued);
    JudgedExactly(cr, s, a, b, claims, requiredScope, now, stamp);
  }

  lemma JudgedExactly(cr: Crypto, s: System, a: string, b: string, claims: Claims, requiredScope: string, now: int, stamp: Stamp)
    requires IdealSignatures(cr)
    requires NodesValid(cr, s) && AllMinted(s) && MintedStored(s) && IssuesUnique(s) && AllIssued(s)
    requires a in s.nodes && b in s.nodes && IssuedBy(s.nodes[a], claims)
    ensures var r := VerifyDelegation(cr, s.nodes[b], SignCompact(cr, ToJson(claims), s.nodes[a].kp), requiredScope, now, stamp).1;
            && (r.Ok? <==> Acceptable(cr, s, a, b, claims, requiredScope, now))
            && (r.Ok? ==> r.value == claims)
  {
    hide IdealSignatures, NodeValid, MintedStored, IssuesUnique, AllIssued, AllMinted, SignCompact, ToJson, VerifyDelegation, HasContent,
         RecordsIssue, VerifyCompact, CheckPayload, ScopeCovers, ManifestHas, JtiUsed, Begun, StrOf, RawJti, ReplayDetected;
    var n, kp := s.nodes[b], s.nodes[a].kp;
    var token := SignCompact(cr, ToJson(claims), kp);
    PresentedVerdict(cr, claims, kp, n, requiredScope, now, stamp);
    if VerifyDelegation(cr, n, token, requiredScope, now, stamp).1.Ok? {
      SignedKeyOnly(cr, ToJson(claims), kp, n.peers[a].publicKey);
    }
    if claims.sub == b {
      UsedMeansBegun(cr, s, a, b, claims);
    }
    if a in n.peers {
      IssueVerify(cr, kp, claims, 1, b, requiredScope, n.peers[a].manifest, now);
    }
  }
}
