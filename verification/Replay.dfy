/** What becomes of a token that is presented again, and the one kind of token that can be used twice. */
module Replay {
  import opened Wrappers
  import opened Json
  import opened Python
  import opened Text
  import opened Signing
  import opened Delegation
  import opened Scope
  import opened AuditEvent
  import opened AuditTable
  import opened AuditLaws
  import opened Node
  import opened NodeLaws
  import opened Network
  import opened NetworkLaws
  import opened Agreement
  import Outcome

  // ---- Uses and peers stay ----

  lemma UsedStays(t: Table, u: Table, jti: Json)
    requires Grows(t, u) && JtiUsed(t, jti)
    ensures JtiUsed(u, jti)
  {
    hide IsRecord, Carries;
    var i :| 0 <= i < |t| && UsedBy(t[i], jti);
    assert UsedBy(u[i], jti);
  }

  lemma {:induction false} RunExtends(cr: Crypto, n: Node, steps: seq<NodeStep>, iss: string, jti: Json)
    requires NodeValid(cr, n) && iss in n.peers
    ensures var m := RunNode(cr, n, steps);
            && NodeValid(cr, m) && m.id == n.id && iss in m.peers
            && (JtiUsed(n.log, jti) ==> JtiUsed(m.log, jti))
  {
    hide Next, NodeValid, JtiUsed, Grows;
    if steps != [] {
      var m, step := RunNode(cr, n, steps[..|steps| - 1]), steps[|steps| - 1];
      RunExtends(cr, n, steps[..|steps| - 1], iss, jti);
      NextKeeps(cr, m, step);
      NextEffect(cr, m, step);
      PeersOfNext(cr, m, step);
      EffectGrows(cr, m, step);
      if JtiUsed(m.log, jti) {
        UsedStays(m.log, Next(cr, m, step).0.log, jti);
      }
    }
  }

  // ---- A second presentation ----

  /** An accepted request leaves the jti used, under the issuer the token names. */
  lemma BegunUses(cr: Crypto, n: Node, action: string, token: string, now: int, stamp: Stamp)
    requires NodeValid(cr, n) && InvokeBegin(cr, n, action, token, now, stamp).1.Ok?
    ensures var m := InvokeBegin(cr, n, action, token, now, stamp).0;
            var iss := m.execs[|n.execs|].claims.iss;
            && NodeValid(cr, m) && iss in m.peers && PeekPayload(token).Some?
            && PeekPayload(token).value.GetText("iss") == Some(iss)
            && (RawJti(token).JStr? ==> JtiUsed(m.log, RawJti(token)))
            && Bindable(RawJti(token))
  {
    hide NodeValid, VerifyToken, ReplayDetected, Apply, StartedEvent, PeekPayload, OwnRow, VerifyDelegation;
    BeginKeeps(cr, n, action, token, now, stamp);
    var scope := n.handlers[action].capability;
    AcceptedFacts(cr, n, token, scope, now, stamp);
    AcceptedIssuer(cr, n, token, scope, now, stamp);
    var claims := VerifyDelegation(cr, n, token, scope, now, stamp).1.value;
    StartedRow(cr, n, claims, stamp);
    var m := InvokeBegin(cr, n, action, token, now, stamp).0;
    ValidLog(cr, m);
    WorkUses(cr, m.log, |n.log|, claims);
  }

  /** The issuer whose key vouched for an accepted token is the one its payload names. */
  lemma AcceptedIssuer(cr: Crypto, n: Node, token: string, requiredScope: string, now: int, stamp: Stamp)
    requires VerifyDelegation(cr, n, token, requiredScope, now, stamp).1.Ok?
    ensures PeekPayload(token).Some?
    ensures PeekPayload(token).value.GetText("iss") == Some(VerifyDelegation(cr, n, token, requiredScope, now, stamp).1.value.iss)
  {
    hide ReplayDetected, ScopeCovers, ManifestHas, DecodeJson, DictOf, StrOf;
    var payload := PeekPayload(token).value;
    var iss := payload.GetText("iss").value;
    assert VerifyCompact(cr, token, n.peers[iss].publicKey).value.1 == payload;
  }

  /**
   The verdict on a token that was accepted once, after whatever else has happened since: a
   token with a text jti is a replay for ever; one with a number for a jti is a replay once an
   event received from a peer uses that number; any other is judged as if it were new.
   */
  lemma SecondPresentation(cr: Crypto, n: Node, action: string, token: string, now: int, stamp: Stamp, steps: seq<NodeStep>,
                           requiredScope: string, later: int, stamp': Stamp)
    requires NodeValid(cr, n) && InvokeBegin(cr, n, action, token, now, stamp).1.Ok?
    requires !HasEvent(RunNode(cr, InvokeBegin(cr, n, action, token, now, stamp).0, steps).log, stamp'.eventId)
    ensures var begun := InvokeBegin(cr, n, action, token, now, stamp).0;
            var m := RunNode(cr, begun, steps);
            var iss := begun.execs[|n.execs|].claims.iss;
            var verdict := VerifyDelegation(cr, m, token, requiredScope, later, stamp').1;
            && iss in m.peers
            && var first := VerifyToken(cr, token, m.peers[iss].publicKey, m.id, requiredScope, m.peers[iss].manifest, later);
            verdict == if RawJti(token).JStr? || ReceivedUse(m.log, RawJti(token)) then Raise(TokenReplay)
                       else if first.Ok? then Ok(first.value) else Raise(Token(first.error))
  {
    hide NodeValid, VerifyToken, ReplayDetected, InvokeBegin, RunNode, PeekPayload, JtiUsed, Apply, Valid, HasEvent, Begun, ReceivedUse,
         Bindable;
    var begun := InvokeBegin(cr, n, action, token, now, stamp).0;
    var iss := begun.execs[|n.execs|].claims.iss;
    var jti := RawJti(token);
    var m := RunNode(cr, begun, steps);
    BegunUses(cr, n, action, token, now, stamp);
    RunExtends(cr, begun, steps, iss, jti);
    ValidLog(cr, m);
    ReplayExact(cr, m.log, jti);
    UsedExactly(cr, m, jti);
    BegunHasJti(cr, n, action, token, now, stamp);
    OwnColumns("delegation.replay_attempt", jti, iss, m.id, map[], stamp'.eventId, stamp'.ts);
    SelfAccepted(cr, m.log, ReplayEvent(m, iss, jti, stamp'), m.kp, m.id);
  }

  lemma BegunHasJti(cr: Crypto, n: Node, action: string, token: string, now: int, stamp: Stamp)
    requires InvokeBegin(cr, n, action, token, now, stamp).1.Ok?
    ensures PeekPayload(token).Some? && PeekPayload(token).value.Get("jti") == Some(RawJti(token))
  {
    hide VerifyToken, ReplayDetected, Apply, PeekPayload, Step;
  }

  // ---- A token that runs twice ----

  /** Claims like an issuer's, but with a number for a jti. */
  ghost function NumberedClaims(iss: string, sub: string, scope: string, now: int, jti: int): Claims {
    Claims(iss, sub, [scope], now + 1, now, now, IntText(jti), "", map[], JNull)
  }

  ghost function NumberedPayload(iss: string, sub: string, scope: string, now: int, jti: int): Json {
    JObj(ToJson(NumberedClaims(iss, sub, scope, now, jti)).members["jti" := JInt(jti)])
  }

  lemma NumberedRead(iss: string, sub: string, scope: string, now: int, jti: int, manifest: Json)
    requires ManifestHas(manifest, scope)
    ensures CheckPayload(NumberedPayload(iss, sub, scope, now, jti), sub, scope, manifest, now)
            == Ok(NumberedClaims(iss, sub, scope, now, jti))
  {
    hide ManifestHas, IntText;
    var payload := NumberedPayload(iss, sub, scope, now, jti);
    ReadScopeBack(NumberedClaims(iss, sub, scope, now, jti));
    assert payload.Get("scope") == Some(Texts([scope])) && payload.Get("jti") == Some(JInt(jti));
    assert payload.GetText("iss") == Some(iss) && payload.GetText("sub") == Some(sub) && payload.Get("sub") == Some(JStr(sub));
    assert payload.Get("exp") == Some(JInt(now + 1)) && payload.Get("nbf") == Some(JInt(now)) && payload.Get("iat") == Some(JInt(now));
    assert payload.Get("purpose") == Some(JStr("")) && payload.Get("constraints") == Some(JObj(map[]));
    assert payload.Get("audit_uri") == Some(JNull);
    assert [scope][0] == scope;
    assert ScopeCovers([scope], scope);
  }

  lemma NumberedPeek(cr: Crypto, iss: string, sub: string, scope: string, now: int, jti: int, d: KeyPair)
    ensures var token := SignCompact(cr, NumberedPayload(iss, sub, scope, now, jti), d);
            && PeekPayload(token) == Some(NumberedPayload(iss, sub, scope, now, jti))
            && PeekPayload(token).value.GetText("iss") == Some(iss)
            && PeekPayload(token).value.Get("jti") == Some(JInt(jti)) && RawJti(token) == JInt(jti)
  {
    hide SignCompact, PeekPayload, IntText, Texts;
    PeekSigned(cr, NumberedPayload(iss, sub, scope, now, jti), d);
  }

  lemma NumberedAccepted(cr: Crypto, n: Node, iss: string, d: KeyPair, scope: string, now: int, jti: Int64, stamp: Stamp)
    requires IdealSignatures(cr) && Valid(cr, n.log) && !JtiUsed(n.log, JInt(jti))
    requires iss in n.peers && n.peers[iss].publicKey == d.Public(cr) && ManifestHas(n.peers[iss].manifest, scope)
    ensures var token := SignCompact(cr, NumberedPayload(iss, n.id, scope, now, jti), d);
            VerifyDelegation(cr, n, token, scope, now, stamp) == (n, Ok(NumberedClaims(iss, n.id, scope, now, jti)))
  {
    hide IdealSignatures, Valid, ReplayDetected, SignCompact, PeekPayload, VerifyCompact, ManifestHas, CheckPayload, NumberedPayload, JtiUsed;
    CompactRoundTrip(cr, NumberedPayload(iss, n.id, scope, now, jti), d);
    NumberedPeek(cr, iss, n.id, scope, now, jti, d);
    NumberedRead(iss, n.id, scope, now, jti, n.peers[iss].manifest);
    ReplayExact(cr, n.log, JInt(jti));
  }

  /** Beginning an execution receives nothing. */
  lemma BeginReceivesNothing(cr: Crypto, n: Node, action: string, token: string, now: int, stamp: Stamp, jti: Json)
    requires NodeValid(cr, n) && InvokeBegin(cr, n, action, token, now, stamp).1.Ok?
    ensures ReceivedUse(InvokeBegin(cr, n, action, token, now, stamp).0.log, jti) <==> ReceivedUse(n.log, jti)
  {
    hide NodeValid, VerifyDelegation, Apply, StartedEvent, UsedBy, OwnCompletion, SameWork;
    var v := VerifyDelegation(cr, n, token, n.handlers[action].capability, now, stamp);
    StartedRow(cr, n, v.1.value, stamp);
    var u := InvokeBegin(cr, n, action, token, now, stamp).0.log;
    assert OwnRow(u[|n.log|]) && forall k | 0 <= k < |n.log| :: u[k] == u[..|n.log|][k] == n.log[k];
  }

  /**
   The text condition is needed, and exactly how far: for any agent with a handler and a peer
   entitled to it, a token of that peer whose jti is a number runs if and only if no event
   received from a peer uses that number; and if it runs, it runs again under the same jti.
   */
  lemma NumberedTokenRunsTwice(cr: Crypto, n: Node, action: string, iss: string, d: KeyPair, now: int, jti: Int64, s1: Stamp, s2: Stamp)
    requires IdealSignatures(cr) && NodeValid(cr, n)
    requires action != "" && action in n.handlers
    requires iss in n.peers && n.peers[iss].publicKey == d.Public(cr) && ManifestHas(n.peers[iss].manifest, n.handlers[action].capability)
    requires !HasEvent(n.log, s1.eventId) && !HasEvent(n.log, s2.eventId) && s1.eventId != s2.eventId
    ensures var token := SignCompact(cr, NumberedPayload(iss, n.id, n.handlers[action].capability, now, jti), d);
            var (m, first) := InvokeBegin(cr, n, action, token, now, s1);
            var (k, second) := InvokeBegin(cr, m, action, token, now, s2);
            && (first.Ok? <==> !ReceivedUse(n.log, JInt(jti)))
            && (first.Ok? ==> second.Ok? && first.value < second.value < |k.execs|
                              && k.execs[first.value].claims.jti == k.execs[second.value].claims.jti)
  {
    hide IdealSignatures, NodeValid, VerifyDelegation, SignCompact, StartedEvent, NumberedPayload, ManifestHas, LatestHash, ChainHash, SignOnly,
         MakeRecord, RawJti, JtiUsed, ReceivedUse, PeekPayload, Content;
    var scope := n.handlers[action].capability;
    var token := SignCompact(cr, NumberedPayload(iss, n.id, scope, now, jti), d);
    ValidLog(cr, n);
    UsedExactly(cr, n, JInt(jti));
    NumberedPeek(cr, iss, n.id, scope, now, jti, d);
    TokenNotEmpty(cr, NumberedPayload(iss, n.id, scope, now, jti), d);
    if ReceivedUse(n.log, JInt(jti)) {
      ReplayVerdict(cr, n, token, scope, now, s1);
    } else {
      NumberedAccepted(cr, n, iss, d, scope, now, jti, s1);
      StartedColumns(n, NumberedClaims(iss, n.id, scope, now, jti), s1);
      var (m, first) := InvokeBegin(cr, n, action, token, now, s1);
      BeginKeeps(cr, n, action, token, now, s1);
      BeginReceivesNothing(cr, n, action, token, now, s1, JInt(jti));
      UsedExactly(cr, m, JInt(jti));
      ValidLog(cr, m);
      NumberedAccepted(cr, m, iss, d, scope, now, jti, s2);
      StartedColumns(m, NumberedClaims(iss, n.id, scope, now, jti), s2);
    }
  }

  lemma StartedColumns(n: Node, claims: Claims, stamp: Stamp)
    ensures var e := StartedEvent(n, claims, stamp); KeyOf(e) == Some(stamp.eventId) && Storable(e)
  {
  }

  lemma TokenNotEmpty(cr: Crypto, payload: Json, d: KeyPair)
    ensures SignCompact(cr, payload, d) != ""
  {
    hide Base64Url.B64Encode, CanonicalJson;
  }

  // ---- A token that never runs ----

  /** A completion event about this jti, text or number, as a peer with keys `d` may send it. */
  ghost function PeerCompletion(jti: Json, eventId: string): AuditEvent {
    AuditEvent(JStr("delegation.completed"), jti, JNull, JNull, map[], JStr(eventId), 0)
  }

  ghost function PeerAnswer(cr: Crypto, jti: Json, eventId: string, d: KeyPair): Response {
    var content := Content(PeerCompletion(jti, eventId));
    Response(Outcome.SignOutcome(cr, Outcome.Outcome("", "ok", JNull, "", 0, None), d, ""), content, SignEnvelope(cr, content, d, ""))
  }

  ghost function AfterAnswer(cr: Crypto, b: Node, peer: string, jti: Json, eventId: string, d: KeyPair, stamp: Stamp): Node {
    Next(cr, b, Receive(peer, None, JNull, PeerAnswer(cr, jti, eventId, d), "", stamp, false)).0
  }

  lemma CompletionUses(cr: Crypto, t: Table, jti: Json, eventId: string, signatures: seq<Json>)
    requires jti.JStr? || NumberOf(jti).Some?
    ensures UsedBy(NewRow(cr, t, PeerCompletion(jti, eventId), MakeRecord(Content(PeerCompletion(jti, eventId)), signatures), false), jti)
  {
    hide LatestHash, ChainHash, MakeRecord, IsRecord;
    var e := PeerCompletion(jti, eventId);
    MakeRecordShape(Content(e), signatures);
    assert Content(e).Get("token_jti") == Some(jti);
  }

  /** Receiving such an event begins nothing, and leaves the jti used. */
  lemma ReceivedRowUses(cr: Crypto, b: Node, peer: string, d: KeyPair, jti: Json, eventId: string, stamp: Stamp)
    requires IdealSignatures(cr) && NodeValid(cr, b) && Bindable(jti) && !jti.JNull?
    requires peer in b.peers && b.peers[peer].publicKey == d.Public(cr) && !HasEvent(b.log, eventId)
    ensures var m := AfterAnswer(cr, b, peer, jti, eventId, d, stamp);
            && NodeValid(cr, m) && m == b.(log := m.log) && ReceivedUse(m.log, jti)
            && forall id :: HasEvent(m.log, id) <==> HasEvent(b.log, id) || id == eventId
  {
    hide IdealSignatures, NodeValid, SignEnvelope, VerifyEnvelope, Outcome.SignOutcome, Outcome.VerifyOutcome, Content, FromContent,
         MakeRecord, IsRecord, LatestHash, ChainHash, UsedBy;
    var event, answer := PeerCompletion(jti, eventId), PeerAnswer(cr, jti, eventId, d);
    var step := Receive(peer, None, JNull, answer, "", stamp, false);
    NextKeeps(cr, b, step);
    Outcome.OutcomeExact(cr, Outcome.Outcome("", "ok", JNull, "", 0, None), d, "", d.Public(cr), None);
    EnvelopeExact(cr, Content(event), d, "", Content(event), d.Public(cr));
    FromContentOfContent(event);
    var own := SignOnly(cr, event, b.kp, b.id);
    MakeRecordShape(Content(event), [own, answer.signature]);
    CompletionUses(cr, b.log, jti, eventId, [own, answer.signature]);
    var row := NewRow(cr, b.log, event, MakeRecord(Content(event), [own, answer.signature]), false);
    var u := b.log + [row];
    assert Next(cr, b, step).0.log == u;
    assert u[|b.log|] == row && !OwnRow(row);
    assert forall k | 0 <= k < |b.log| :: u[k] == b.log[k];
  }

  /**
   First presentation does not suffice: one event from any registered peer, and a token nobody
   ever presented is turned away as a replay at every time, though nothing began under its jti.
   */
  lemma NeverBegunYetReplay(cr: Crypto, b: Node, peer: string, d: KeyPair, claims: Claims, kp: KeyPair, eventId: string, received: Stamp,
                            requiredScope: string, now: int, stamp: Stamp)
    requires IdealSignatures(cr) && NodeValid(cr, b) && claims.iss in b.peers && !Begun(b.execs, claims.jti)
    requires peer in b.peers && b.peers[peer].publicKey == d.Public(cr) && !HasEvent(b.log, eventId)
    requires !HasEvent(b.log, stamp.eventId) && stamp.eventId != eventId
    ensures var m := AfterAnswer(cr, b, peer, JStr(claims.jti), eventId, d, received);
            && !Begun(m.execs, claims.jti)
            && VerifyDelegation(cr, m, SignCompact(cr, ToJson(claims), kp), requiredScope, now, stamp).1 == Raise(TokenReplay)
  {
    hide IdealSignatures, NodeValid, SignCompact, ToJson, VerifyDelegation, PeekPayload, HasEvent, Begun, ReceivedUse, AfterAnswer, JtiUsed;
    ReceivedRowUses(cr, b, peer, d, JStr(claims.jti), eventId, received);
    var m := AfterAnswer(cr, b, peer, JStr(claims.jti), eventId, d, received);
    UsedExactly(cr, m, JStr(claims.jti));
    PresentedVerdict(cr, claims, kp, m, requiredScope, now, stamp);
    PeekIssued(cr, claims, kp);
    ValidLog(cr, m);
    ReplayVerdict(cr, m, SignCompact(cr, ToJson(claims), kp), requiredScope, now, stamp);
  }

  /** So for numbers: once a received event has the number for its token_jti, a token with it is a replay at every time. */
  lemma NumberedYetReplay(cr: Crypto, b: Node, peer: string, d: KeyPair, iss: string, kp: KeyPair, scope: string, jti: Int64,
                          eventId: string, received: Stamp, requiredScope: string, now: int, stamp: Stamp)
    requires IdealSignatures(cr) && NodeValid(cr, b) && iss in b.peers
    requires peer in b.peers && b.peers[peer].publicKey == d.Public(cr) && !HasEvent(b.log, eventId)
    requires !HasEvent(b.log, stamp.eventId) && stamp.eventId != eventId
    ensures var m := AfterAnswer(cr, b, peer, JInt(jti), eventId, d, received);
            var token := SignCompact(cr, NumberedPayload(iss, b.id, scope, now, jti), kp);
            VerifyDelegation(cr, m, token, requiredScope, now, stamp).1 == Raise(TokenReplay)
  {
    hide IdealSignatures, NodeValid, SignCompact, NumberedPayload, VerifyDelegation, PeekPayload, HasEvent, ReceivedUse, AfterAnswer, JtiUsed,
         RawJti;
    ReceivedRowUses(cr, b, peer, d, JInt(jti), eventId, received);
    var m := AfterAnswer(cr, b, peer, JInt(jti), eventId, d, received);
    UsedExactly(cr, m, JInt(jti));
    NumberedPeek(cr, iss, b.id, scope, now, jti, kp);
    ValidLog(cr, m);
    ReplayVerdict(cr, m, SignCompact(cr, NumberedPayload(iss, b.id, scope, now, jti), kp), requiredScope, now, stamp);
  }
}
