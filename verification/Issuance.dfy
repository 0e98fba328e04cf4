/**
 No work without a delegation. An honest agent's key signs tokens, manifests, outcomes and
 events alike, so this rests on keeping the kinds apart: the first bytes of every signed
 document, read as base64url, are not UTF-8, hence no token header.
 */
module Issuance {
  import opened Wrappers
  import opened Text
  import opened Json
  import opened Python
  import opened Utf8
  import opened Base64Url
  import opened Signing
  import opened Delegation
  import opened AuditEvent
  import opened AuditTable
  import opened AuditLaws
  import opened Node
  import opened NodeLaws
  import opened Network
  import opened NetworkLaws
  import opened Agreement
  import Manifest
  import Outcome

  // ---- The first key of each kind of document ----

  const MANIFEST_KEYS: set<string> := {"agent_id", "version", "description", "homepage", "capabilities", "evidence"}
  const OUTCOME_KEYS: set<string> := {"token_jti", "status", "payload", "payload_hash", "schema_id", "executed_at", "reason"}

  /** A manifest, an outcome or an event, by its keys. */
  ghost predicate IsDocument(content: Json) {
    content.JObj? && (content.members.Keys == KEYS || content.members.Keys == MANIFEST_KEYS || content.members.Keys == OUTCOME_KEYS)
  }

  lemma {:induction false} LessAfter(p: string, a: string, b: string)
    requires Less(a, b)
    ensures Less(p + a, p + b)
  {
    if p == [] {
      assert p + a == a && p + b == b;
    } else {
      LessAfter(p[1..], a, b);
      assert (p + a)[1..] == p[1..] + a && (p + b)[1..] == p[1..] + b;
    }
  }

  lemma LessByFirst(a: string, b: string)
    requires a != [] && b != [] && a[0] < b[0]
    ensures AtMost(a, b)
  {
  }

  lemma FirstEventKey()
    ensures IsFirst("delegatee_id", KEYS)
  {
    hide Less;
    LessByFirst("ee_id", "or_id");
    LessAfter("delegat", "ee_id", "or_id");
    assert "delegat" + "ee_id" == "delegatee_id" && "delegat" + "or_id" == "delegator_id";
    forall other | other in KEYS && other != "delegatee_id" && other != "delegator_id"
      ensures AtMost("delegatee_id", other)
    {
      LessByFirst("delegatee_id", other);
    }
  }

  lemma FirstManifestKey()
    ensures IsFirst("agent_id", MANIFEST_KEYS)
  {
    hide Less;
    forall other | other in MANIFEST_KEYS && other != "agent_id"
      ensures AtMost("agent_id", other)
    {
      LessByFirst("agent_id", other);
    }
  }

  lemma FirstOutcomeKey()
    ensures IsFirst("executed_at", OUTCOME_KEYS)
  {
    hide Less;
    forall other | other in OUTCOME_KEYS && other != "executed_at"
      ensures AtMost("executed_at", other)
    {
      LessByFirst("executed_at", other);
    }
  }

  lemma FirstOfSorted(k: string, keys: set<string>)
    requires IsFirst(k, keys)
    ensures SortedKeys(keys) != [] && SortedKeys(keys)[0] == k
  {
    FirstUnique(keys);
  }

  predicate Letters(p: string) {
    forall i | 0 <= i < |p| :: 'a' <= p[i] <= 'z'
  }

  lemma EscapeLetter(c: char)
    requires 'a' <= c <= 'z'
    ensures Escape(false, c) == [c]
  {
  }

  lemma {:induction false} EscapePlain(p: string, t: string)
    requires Letters(p)
    ensures EscapeAll(false, p + t) == p + EscapeAll(false, t)
  {
    hide Escape;
    if p == [] {
      assert p + t == t;
    } else {
      assert (p + t)[0] == p[0] && (p + t)[1..] == p[1..] + t;
      EscapeLetter(p[0]);
      EscapePlain(p[1..], t);
      assert p == [p[0]] + p[1..];
    }
  }

  /** How the text of an object begins, when its first key begins with letters. */
  lemma ObjectStart(content: Json, p: string, t: string)
    requires content.JObj? && IsFirst(p + t, content.members.Keys)
    requires Letters(p)
    ensures "{\"" + p <= Print(false, content)
  {
    hide EscapeAll, Escape, SortedKeys;
    var keys := SortedKeys(content.members.Keys);
    FirstOfSorted(p + t, content.members.Keys);
    EscapePlain(p, t);
    var rest := EscapeAll(false, t) + "\"" + ":" + Print(false, content.members[keys[0]])
                + (if |keys| == 1 then "" else "," + PrintMembers(false, content, keys[1..])) + "}";
    assert Print(false, content) == "{\"" + p + rest;
  }

  // ---- Read as base64url, a document begins with no UTF-8 text ----

  lemma SkipsQuote(s: string)
    ensures Scan("{\"" + s, 0, 0, 0) == Scan(s, 0, 0, 0)
  {
    assert ("{\"" + s)[1..] == "\"" + s && ("\"" + s)[1..] == s;
  }

  lemma Groups()
    ensures Group(106, 7, 167) == "agen" && Group(123, 23, 156) == "exec" && Group(117, 233, 94) == "dele"
  {
  }

  lemma BadStart(a: Byte, b: Byte, c: Byte, rest: Bytes)
    requires (a, b, c) == (106, 7, 167) || (a, b, c) == (123, 23, 156) || (a, b, c) == (117, 233, 94)
    ensures Utf8.Decode([a, b, c] + rest).None?
  {
    var s2 := [c] + rest;
    var s1 := [b] + s2;
    assert [a, b, c] + rest == [a] + s1;
    assert ([a] + s1)[1..] == s1 && s1[1..] == s2;
    assert b == 233 ==> DecodeChar(s1).None?;
    assert b != 233 ==> DecodeChar(s2).None?;
    assert Utf8.Decode(s1).None?;
  }

  lemma QuotedGroupUndecodable(a: Byte, b: Byte, c: Byte, s: string)
    requires (a, b, c) == (106, 7, 167) || (a, b, c) == (123, 23, 156) || (a, b, c) == (117, 233, 94)
    ensures DecodeJson("{\"" + Group(a, b, c) + s).None?
  {
    hide Scan, Group, Utf8.Decode;
    var text := "{\"" + Group(a, b, c) + s;
    var padded := s + Padding(text);
    assert text + Padding(text) == "{\"" + (Group(a, b, c) + padded);
    SkipsQuote(Group(a, b, c) + padded);
    ScanGroup(a, b, c, padded);
    if B64Decode(text).Some? {
      var rest := Scan(padded, 0, 0, 0).value;
      assert [a] + ([b] + ([c] + rest)) == [a, b, c] + rest;
      BadStart(a, b, c, rest);
    }
  }

  lemma NoHeader(content: Json, header: string, rest: string, p: string, t: string, a: Byte, b: Byte, c: Byte)
    requires content.JObj? && IsFirst(p + t, content.members.Keys) && Print(false, content) == header + "." + rest
    requires Letters(p) && Group(a, b, c) == p
    requires (a, b, c) == (106, 7, 167) || (a, b, c) == (123, 23, 156) || (a, b, c) == (117, 233, 94)
    ensures DecodeJson(header).None?
  {
    hide DecodeJson, Print, Group, IsFirst;
    ObjectStart(content, p, t);
    HeaderStart(header, rest, p);
    QuotedGroupUndecodable(a, b, c, header[6..]);
  }

  lemma Words()
    ensures "dele" + "gatee_id" == "delegatee_id" && "agen" + "t_id" == "agent_id" && "exec" + "uted_at" == "executed_at"
    ensures Letters("dele") && Letters("agen") && Letters("exec")
  {
  }

  /** No prefix of a document's text up to a full stop decodes to a token header. */
  lemma DocumentIsNoHeader(content: Json, header: string, rest: string)
    requires IsDocument(content) && Print(false, content) == header + "." + rest
    ensures DecodeJson(header).None?
  {
    hide DecodeJson, Print, Group, IsFirst, Letters;
    Groups();
    Words();
    if content.members.Keys == KEYS {
      FirstEventKey();
      NoHeader(content, header, rest, "dele", "gatee_id", 117, 233, 94);
    } else if content.members.Keys == MANIFEST_KEYS {
      FirstManifestKey();
      NoHeader(content, header, rest, "agen", "t_id", 106, 7, 167);
    } else {
      FirstOutcomeKey();
      NoHeader(content, header, rest, "exec", "uted_at", 123, 23, 156);
    }
  }

  lemma HeaderStart(header: string, rest: string, p: string)
    requires Letters(p) && |p| == 4 && "{\"" + p <= header + "." + rest
    ensures |header| >= 6 && header == "{\"" + p + header[6..]
  {
    var start, text := "{\"" + p, header + "." + rest;
    assert start == text[..6];
    assert forall i | 0 <= i < 6 :: start[i] != '.' && text[i] == start[i];
    assert text[|header|] == '.';
    assert header == text[..|header|];
  }

  // ---- What an honest key has signed ----

  /** The content is the issuer's record of issuing these claims. */
  ghost predicate RecordsIssue(content: Json, claims: Claims) {
    && content.GetText("type") == Some("delegation.issued")
    && content.GetText("token_jti") == Some(claims.jti)
    && content.GetText("delegator_id") == Some(claims.iss)
    && content.GetText("delegatee_id") == Some(claims.sub)
    && content.Get("fields") == Some(JObj(map["scope" := Texts(claims.scope), "purpose" := JStr(claims.purpose)]))
  }

  /** The agent's log records that it issued a token with these claims. */
  ghost predicate IssuedBy(n: Node, claims: Claims) {
    claims.iss == n.id && exists content :: HasContent(n.log, content) && RecordsIssue(content, claims)
  }

  ghost predicate TokenForm(n: Node, b: Bytes, claims: Claims) {
    b == Encode(SigningInput(Header(n.kp.kid), ToJson(claims))) && IssuedBy(n, claims)
  }

  ghost predicate DocumentForm(b: Bytes) {
    exists content :: IsDocument(content) && b == CanonicalJson(content)
  }

  ghost predicate SignedForm(n: Node, b: Bytes) {
    DocumentForm(b) || exists claims :: TokenForm(n, b, claims)
  }

  /** Every released signature is over a document, or over a token whose issue is on record. */
  ghost predicate Forms(cr: Crypto, s: System) {
    forall a, b | a in s.nodes && (s.nodes[a].kp.Public(cr), b) in s.released :: SignedForm(s.nodes[a], b)
  }

  lemma IssuedByGrows(n: Node, m: Node, claims: Claims)
    requires Grows(n.log, m.log) && n.id == m.id && IssuedBy(n, claims)
    ensures IssuedBy(m, claims)
  {
    hide HasContent, Grows, RecordsIssue;
    var content :| HasContent(n.log, content) && RecordsIssue(content, claims);
    HasContentGrows(n.log, m.log, content);
  }

  lemma SignedFormGrows(n: Node, m: Node, b: Bytes)
    requires Grows(n.log, m.log) && n.id == m.id && n.kp == m.kp && SignedForm(n, b)
    ensures SignedForm(m, b)
  {
    hide IssuedBy, Grows, DocumentForm, SigningInput, ToJson, Encode;
    if !DocumentForm(b) {
      var claims :| TokenForm(n, b, claims);
      IssuedByGrows(n, m, claims);
      assert TokenForm(m, b, claims);
    }
  }

  // ---- What one step signs ----

  lemma EventIsDocument(event: AuditEvent)
    ensures IsDocument(Content(event)) && DocumentForm(CanonicalJson(Content(event)))
  {
    hide CanonicalJson;
    assert Content(event).members.Keys == KEYS;
  }

  lemma PublishForm(cr: Crypto, n: Node, step: NodeStep, b: Bytes)
    requires step.Publish? && b in Signed(cr, n, step)
    ensures DocumentForm(b)
  {
    hide CanonicalJson, SignEnvelope;
    var m := Manifest.Manifest(n.id, step.version, step.capabilities, [], step.description, None);
    assert Manifest.SignManifest(cr, m, n.kp).Get("manifest") == Some(m.ToContent());
    assert m.ToContent().members.Keys == MANIFEST_KEYS;
    assert IsDocument(m.ToContent());
  }

  lemma IssuedEventRecords(n: Node, claims: Claims, stamp: Stamp)
    requires claims.iss == n.id
    ensures RecordsIssue(Content(IssuedEvent(n, claims.sub, claims.scope, claims.purpose, claims.jti, stamp)), claims)
  {
    hide Texts;
  }

  lemma IssueForm(cr: Crypto, n: Node, step: NodeStep, b: Bytes)
    requires step.Issue? && b in Signed(cr, n, step)
    ensures SignedForm(Next(cr, n, step).0, b)
  {
    hide CanonicalJson, SigningInput, ToJson, Encode, HasContent, Content, RecordsIssue, IssueToken, Apply, Scope.ManifestHas;
    var claims := NewClaims(n.id, step.to, step.scope, step.purpose, step.constraints, step.expiresIn, Some("local://" + n.id), step.now, step.newJti);
    var m := Next(cr, n, step).0;
    var op := Self(IssuedEvent(n, step.to, step.scope, step.purpose, step.newJti, step.stamp), n.kp, n.id);
    AppendedContent(cr, n.log, op);
    IssuedEventRecords(n, claims, step.stamp);
    assert HasContent(m.log, Content(op.event));
    assert TokenForm(m, b, claims);
  }

  lemma FinishForm(cr: Crypto, n: Node, step: NodeStep, b: Bytes)
    requires step.Finish? && b in Signed(cr, n, step)
    ensures DocumentForm(b)
  {
    hide CanonicalJson, SignEnvelope, Apply, Content, CompletionEvent, OutcomeOf, Outcome.PayloadHash, IsDocument;
    var exec := n.execs[step.exec];
    var outcome := OutcomeOf(exec, step.result, step.executedAt);
    EventIsDocument(CompletionEvent(cr, exec.claims, outcome, step.stamp));
    OutcomeIsDocument(cr, outcome);
    assert Outcome.SignOutcome(cr, outcome, n.kp, n.id).Get("outcome") == Some(Outcome.ToContent(cr, outcome));
  }

  lemma OutcomeIsDocument(cr: Crypto, o: Outcome.Outcome)
    ensures IsDocument(Outcome.ToContent(cr, o)) && DocumentForm(CanonicalJson(Outcome.ToContent(cr, o)))
  {
    hide CanonicalJson, Outcome.PayloadHash;
    assert Outcome.ToContent(cr, o).members.Keys == OUTCOME_KEYS;
  }

  lemma ServeForm(cr: Crypto, n: Node, step: NodeStep, b: Bytes)
    requires NodeValid(cr, n) && step.ServeLog? && b in Signed(cr, n, step)
    ensures DocumentForm(b)
  {
    hide CanonicalJson, IsRecord, SortByKey, NodeValid, Content, FromContent, DocumentForm;
    var records := Records(SortByKey(n.log));
    var r :| r in records && IsRecord(r) && b == CanonicalJson(ContentOf(r));
    var k :| 0 <= k < |records| && records[k] == r;
    assert SortByKey(n.log)[k] in multiset(n.log);
    var i :| 0 <= i < |n.log| && n.log[i] == SortByKey(n.log)[k];
    RowContent(cr, n, i);
    EventIsDocument(FromContent(ContentOf(r)).value);
  }

  lemma ReceiveForm(cr: Crypto, n: Node, step: NodeStep, b: Bytes)
    requires step.Receive? && b in Signed(cr, n, step)
    ensures DocumentForm(b)
  {
    hide CanonicalJson, FromContent, Content, Next, DocumentForm, IsDocument;
    EventIsDocument(FromContent(step.response.content).value);
  }

  lemma SignedHasForm(cr: Crypto, n: Node, step: NodeStep, b: Bytes)
    requires NodeValid(cr, n) && b in Signed(cr, n, step)
    ensures SignedForm(Next(cr, n, step).0, b)
  {
    hide Next, DocumentForm, TokenForm, NodeValid, CanonicalJson, FromContent, NewClaims;
    match step
    case Publish(_, _, _) => PublishForm(cr, n, step, b);
    case Issue(_, _, _, _, _, _, _, _) => IssueForm(cr, n, step, b);
    case Finish(_, _, _, _) => FinishForm(cr, n, step, b);
    case Receive(_, _, _, _, _, _, _) => ReceiveForm(cr, n, step, b);
    case ServeLog => ServeForm(cr, n, step, b);
    case _ =>
  }

  lemma FormsKept(cr: Crypto, s: System, e: Event)
    requires NodesValid(cr, s) && Forms(cr, s) && e.node in s.nodes
    ensures Forms(cr, Advance(cr, s, e))
  {
    hide Next, Signed, Minted, NodeValid, SignedForm, Grows;
    var n, t := s.nodes[e.node], Advance(cr, s, e);
    NextEffect(cr, n, e.step);
    EffectGrows(cr, n, e.step);
    forall a, b | a in t.nodes && (t.nodes[a].kp.Public(cr), b) in t.released
      ensures SignedForm(t.nodes[a], b)
    {
      if (s.nodes[a].kp.Public(cr), b) in s.released {
        if a == e.node {
          SignedFormGrows(n, t.nodes[a], b);
        }
      } else {
        assert a == e.node && b in Signed(cr, n, e.step);
        SignedHasForm(cr, n, e.step, b);
      }
    }
  }

  // ---- What an accepted token proves ----

  /** A compact token that verifies under an honest key carries claims its owner has on record as issued. */
  lemma VerifiedWasIssued(cr: Crypto, s: System, a: string, token: string) returns (claims: Claims)
    requires Forms(cr, s) && a in s.nodes && VerifyCompact(cr, token, s.nodes[a].kp.Public(cr)).Ok?
    requires TokenSignature(token).Some? ==> Known(cr, s, TokenSignature(token).value)
    ensures IssuedBy(s.nodes[a], claims)
    ensures VerifyCompact(cr, token, s.nodes[a].kp.Public(cr)).value.1 == ToJson(claims)
  {
    hide Split, B64Decode, DecodeJson, Encode, IssuedBy, SigningInput, ToJson, IsDocument, Print;
    var key := s.nodes[a].kp.Public(cr);
    var parts := Split(token, '.');
    var b := Encode(parts[0] + "." + parts[1]);
    assert cr.verify(key, b, TokenSignature(token).value);
    assert SignedForm(s.nodes[a], b);
    if content :| IsDocument(content) && b == CanonicalJson(content) {
      Utf8.EncodeInjective(Print(false, content), parts[0] + "." + parts[1]);
      DocumentIsNoHeader(content, parts[0], parts[1]);
    } else {
      claims :| TokenForm(s.nodes[a], b, claims);
      AcceptedPayload(cr, token, key, Header(s.nodes[a].kp.kid), ToJson(claims));
    }
  }

  /** Claims read from a payload that some claims were written to are those claims. */
  lemma CheckedClaims(claims: Claims, expectedSub: string, requiredScope: string, manifest: Json, now: int)
    requires CheckPayload(ToJson(claims), expectedSub, requiredScope, manifest, now).Ok?
    ensures CheckPayload(ToJson(claims), expectedSub, requiredScope, manifest, now).value == claims
  {
    hide ReadClaims, ReadScope, Scope.ScopeCovers, Scope.ManifestHas, Texts;
    ReadScopeBack(claims);
    ReadBack(claims);
    assert ToJson(claims).Get("exp") == Some(JInt(claims.exp)) && ToJson(claims).Get("nbf") == Some(JInt(claims.nbf));
  }

  lemma VerdictWasIssued(cr: Crypto, s: System, a: string, b: string, token: string, requiredScope: string, now: int, stamp: Stamp)
    requires Forms(cr, s) && a in s.nodes && b in s.nodes
    requires TokenSignature(token).Some? ==> Known(cr, s, TokenSignature(token).value)
    requires VerifyDelegation(cr, s.nodes[b], token, requiredScope, now, stamp).1.Ok?
    requires var claims := VerifyDelegation(cr, s.nodes[b], token, requiredScope, now, stamp).1.value;
             claims.iss in s.nodes[b].peers && s.nodes[b].peers[claims.iss].publicKey == s.nodes[a].kp.Public(cr)
    ensures IssuedBy(s.nodes[a], VerifyDelegation(cr, s.nodes[b], token, requiredScope, now, stamp).1.value)
    ensures RawJti(token).JStr?
  {
    hide VerifyDelegation, VerifyCompact, CheckPayload, Forms, IssuedBy, Known, ToJson, TokenSignature, StrOf, RawJti, ReplayDetected;
    AcceptedFacts(cr, s.nodes[b], token, requiredScope, now, stamp);
    var claims := VerifiedWasIssued(cr, s, a, token);
    var n := s.nodes[b];
    var read := VerifyDelegation(cr, n, token, requiredScope, now, stamp).1.value;
    CheckedClaims(claims, n.id, requiredScope, n.peers[read.iss].manifest, now);
    VerifiedJti(cr, token, s.nodes[a].kp.Public(cr), claims);
  }

  lemma VerifiedJti(cr: Crypto, token: string, key: PublicKey, claims: Claims)
    requires VerifyCompact(cr, token, key).Ok? && VerifyCompact(cr, token, key).value.1 == ToJson(claims)
    ensures RawJti(token) == JStr(claims.jti)
  {
    hide DecodeJson, Split, Encode, Texts;
    assert PeekPayload(token) == Some(ToJson(claims));
    assert ToJson(claims).Get("jti") == Some(JStr(claims.jti));
  }

  lemma {:induction false} ReachForms(cr: Crypto, start: System, events: seq<Event>)
    requires Initial(cr, start)
    ensures Forms(cr, Reach(cr, start, events))
  {
    hide Advance, Enabled, NodesValid, Forms, Possession, Origins;
    if events == [] {
      InitialForms(cr, start);
    } else {
      var before, e := events[..|events| - 1], events[|events| - 1];
      var s := Reach(cr, start, before);
      ReachForms(cr, start, before);
      ReachValid(cr, start, before);
      if Enabled(cr, s, e) {
        EnabledNode(cr, s, e);
        FormsKept(cr, s, e);
      }
    }
  }

  lemma InitialForms(cr: Crypto, s: System)
    requires Initial(cr, s)
    ensures Forms(cr, s)
  {
  }

  /**
   An accepted token was issued: in every reachable state, if an agent accepts a token whose
   named issuer it knows under an honest agent's key, that agent is the issuer by name, and its
   log records the issue to this delegatee with this jti, scope and purpose.
   */
  lemma AcceptedWasIssued(cr: Crypto, start: System, events: seq<Event>, a: string, b: string,
                          token: string, requiredScope: string, now: int, stamp: Stamp)
    requires Initial(cr, start)
    requires var s := Reach(cr, start, events);
             && a in s.nodes && b in s.nodes
             && (TokenSignature(token).Some? ==> Known(cr, s, TokenSignature(token).value))
             && var r := VerifyDelegation(cr, s.nodes[b], token, requiredScope, now, stamp).1;
             r.Ok? && r.value.iss in s.nodes[b].peers && s.nodes[b].peers[r.value.iss].publicKey == s.nodes[a].kp.Public(cr)
    ensures var s := Reach(cr, start, events);
            var claims := VerifyDelegation(cr, s.nodes[b], token, requiredScope, now, stamp).1.value;
            && claims.iss == a && claims.sub == b
            && exists content :: HasContent(s.nodes[a].log, content) && RecordsIssue(content, claims)
  {
    hide Reach, VerifyDelegation, Forms, Known, Initial, Possession, Origins, TokenSignature, HasContent, NodeValid, StrOf, RawJti,
         ReplayDetected, VerifyToken, RecordsIssue;
    var s := Reach(cr, start, events);
    ReachForms(cr, start, events);
    ReachValid(cr, start, events);
    VerdictWasIssued(cr, s, a, b, token, requiredScope, now, stamp);
    AcceptedFacts(cr, s.nodes[b], token, requiredScope, now, stamp);
  }

  // ---- No work without a delegation ----

  ghost predicate ExecIssued(s: System, b: string, x: Exec) {
    x.claims.iss in s.nodes && x.claims.sub == b && IssuedBy(s.nodes[x.claims.iss], x.claims) && x.rawJti.JStr?
  }

  ghost predicate AllIssued(s: System) {
    forall b | b in s.nodes :: forall e | 0 <= e < |s.nodes[b].execs| :: ExecIssued(s, b, s.nodes[b].execs[e])
  }

  /** A step starts at most one execution, for claims it has just verified. */
  lemma StepExecs(cr: Crypto, n: Node, step: NodeStep)
    ensures var m := Next(cr, n, step).0;
            && |n.execs| <= |m.execs| <= |n.execs| + 1
            && (forall e | 0 <= e < |n.execs| :: m.execs[e].claims == n.execs[e].claims && m.execs[e].rawJti == n.execs[e].rawJti)
            && (|m.execs| > |n.execs| ==>
                  && step.Begin? && step.action in n.handlers
                  && var v := VerifyDelegation(cr, n, step.token, n.handlers[step.action].capability, step.now, step.stamp);
                  v.1 == Ok(m.execs[|n.execs|].claims) && m.execs[|n.execs|].rawJti == RawJti(step.token))
  {
    hide Apply, VerifyToken, ReplayDetected, FromContent, Outcome.VerifyOutcome, PeekPayload, IssueToken, Manifest.VerifyManifest,
         OutcomeOf, CompletionEvent, RawJti;
    if step.Begin? {
      VerifyKeepsExecs(cr, n, step.token, if step.action in n.handlers then n.handlers[step.action].capability else "", step.now, step.stamp);
    }
  }

  lemma VerifyKeepsExecs(cr: Crypto, n: Node, token: string, requiredScope: string, now: int, stamp: Stamp)
    ensures VerifyDelegation(cr, n, token, requiredScope, now, stamp).0.execs == n.execs
  {
    hide Apply, VerifyToken, ReplayDetected, PeekPayload;
  }

  lemma NewExecIssued(cr: Crypto, s: System, e: Event)
    requires NodesValid(cr, s) && Forms(cr, s) && PeersHonest(cr, s) && Enabled(cr, s, e)
    requires |Next(cr, s.nodes[e.node], e.step).0.execs| > |s.nodes[e.node].execs|
    ensures var n := s.nodes[e.node]; ExecIssued(s, e.node, Next(cr, n, e.step).0.execs[|n.execs|])
  {
    hide Next, VerifyDelegation, Forms, IssuedBy, NodeValid, StrOf, RawJti, ReplayDetected, VerifyToken, FreshStamp, Known, TokenSignature;
    var n := s.nodes[e.node];
    StepExecs(cr, n, e.step);
    var scope := n.handlers[e.step.action].capability;
    AcceptedFacts(cr, n, e.step.token, scope, e.step.now, e.step.stamp);
    var claims := VerifyDelegation(cr, n, e.step.token, scope, e.step.now, e.step.stamp).1.value;
    assert HonestKey(cr, s, n.peers[claims.iss].publicKey);
    var a :| a in s.nodes && s.nodes[a].kp.Public(cr) == n.peers[claims.iss].publicKey;
    VerdictWasIssued(cr, s, a, e.node, e.step.token, scope, e.step.now, e.step.stamp);
    IssuerName(s.nodes[a], claims);
  }

  lemma IssuerName(n: Node, claims: Claims)
    requires IssuedBy(n, claims)
    ensures claims.iss == n.id
  {
  }

  lemma ExecIssuedGrows(cr: Crypto, s: System, e: Event, b: string, x: Exec, y: Exec)
    requires NodesValid(cr, s) && e.node in s.nodes && ExecIssued(s, b, x) && y.claims == x.claims && y.rawJti == x.rawJti
    ensures ExecIssued(Advance(cr, s, e), b, y)
  {
    hide Next, Signed, Minted, NodeValid, Grows, IssuedBy;
    var t := Advance(cr, s, e);
    var a := x.claims.iss;
    NextEffect(cr, s.nodes[e.node], e.step);
    EffectGrows(cr, s.nodes[e.node], e.step);
    if a == e.node {
      IssuedByGrows(s.nodes[a], t.nodes[a], x.claims);
    }
  }

  lemma AllIssuedKept(cr: Crypto, s: System, e: Event)
    requires NodesValid(cr, s) && Forms(cr, s) && PeersHonest(cr, s) && AllIssued(s) && Enabled(cr, s, e)
    ensures AllIssued(Advance(cr, s, e))
  {
    hide Next, Signed, Minted, NodesValid, Forms, PeersHonest, ExecIssued, FreshStamp, Known, KnownEnvelope, VerifyDelegation;
    var t := Advance(cr, s, e);
    StepExecs(cr, s.nodes[e.node], e.step);
    forall b, k | b in t.nodes && 0 <= k < |t.nodes[b].execs|
      ensures ExecIssued(t, b, t.nodes[b].execs[k])
    {
      var y := t.nodes[b].execs[k];
      if k < |s.nodes[b].execs| {
        ExecIssuedGrows(cr, s, e, b, s.nodes[b].execs[k], y);
      } else {
        NewExecIssued(cr, s, e);
        ExecIssuedGrows(cr, s, e, b, y, y);
      }
    }
  }

  /**
   No work without a delegation: when agents register only honest keys, every execution any
   agent has ever begun was delegated to it by the agent named as issuer, on whose log the
   issue is recorded, in every reachable state of the hostile network.
   */
  lemma {:induction false} WorkWasDelegated(cr: Crypto, start: System, events: seq<Event>)
    requires Initial(cr, start) && PeersHonest(cr, start) && RegistersHonest(cr, start, events)
    ensures AllIssued(Reach(cr, start, events))
  {
    hide Advance, Enabled, NodesValid, Forms, PeersHonest, Possession, Origins, ExecIssued, AllMinted, HonestKey;
    if events != [] {
      var before, e := events[..|events| - 1], events[|events| - 1];
      var s := Reach(cr, start, before);
      WorkWasDelegated(cr, start, before);
      ReachForms(cr, start, before);
      ReachValid(cr, start, before);
      ReachMinted(cr, start, before);
      if Enabled(cr, s, e) {
        EnabledNode(cr, s, e);
        AllIssuedKept(cr, s, e);
      }
    }
  }

  /**
   At most once, without a condition: when agents register only honest keys, no two executions
   of an agent share a jti, in every reachable state of the hostile network.
   */
  lemma RunsOnce(cr: Crypto, start: System, events: seq<Event>, b: string, e: nat, f: nat)
    requires Initial(cr, start) && PeersHonest(cr, start) && RegistersHonest(cr, start, events)
    requires var s := Reach(cr, start, events); b in s.nodes && e < f < |s.nodes[b].execs|
    ensures var xs := Reach(cr, start, events).nodes[b].execs; xs[e].claims.jti != xs[f].claims.jti
  {
    hide Reach, PeersHonest, Initial, RegistersHonest, Possession, Origins, IssuedBy, Valid, Matched, Counted;
    WorkWasDelegated(cr, start, events);
    ReachValid(cr, start, events);
    var s := Reach(cr, start, events);
    assert ExecIssued(s, b, s.nodes[b].execs[f]);
    assert AtMostOnce(s.nodes[b].execs);
  }
}
