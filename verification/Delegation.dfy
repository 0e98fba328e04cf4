/** Delegation tokens: issuing, verification, and the window and authority they convey. */
module Delegation {
  import opened Wrappers
  import opened Json
  import opened Python
  import opened Signing
  import opened Scope
  import Manifest

  const MAX_TTL_SECONDS := 86400

  datatype Claims = Claims(
    iss: string, sub: string, scope: seq<string>, exp: int, nbf: int, iat: int,
    jti: string, purpose: string, constraints: map<string, Json>, auditUri: Json)

  function Texts(ts: seq<string>): Json {
    JArr(seq(|ts|, i requires 0 <= i < |ts| => JStr(ts[i])))
  }

  function ToJson(c: Claims): Json {
    JObj(map[
      "iss" := JStr(c.iss),
      "sub" := JStr(c.sub),
      "scope" := Texts(c.scope),
      "exp" := JInt(c.exp),
      "nbf" := JInt(c.nbf),
      "iat" := JInt(c.iat),
      "jti" := JStr(c.jti),
      "purpose" := JStr(c.purpose),
      "constraints" := JObj(c.constraints),
      "audit_uri" := c.auditUri])
  }

  datatype TokenError =
    | TokenInvalidSignature
    | TokenExpired
    | TokenNotYetValid
    | TokenInsufficientScope
    | TokenMalformed // the payload lacks a claim or holds one of an unusable type
    | BadLifetime

  // ---- Issuing ----

  function NewClaims(iss: string, to: string, scope: seq<string>, purpose: string,
                     constraints: Option<map<string, Json>>, expiresIn: int,
                     auditUri: Option<string>, now: int, jti: string): Claims
  {
    Claims(iss, to, scope, now + expiresIn, now, now, jti, purpose,
           if constraints.Some? then constraints.value else map[], Manifest.OptionalText(auditUri))
  }

  function IssueToken(cr: Crypto, kp: KeyPair, claims: Claims, expiresIn: int): Result<string, TokenError> {
    if expiresIn <= 0 || expiresIn > MAX_TTL_SECONDS then Raise(BadLifetime)
    else Ok(SignCompact(cr, ToJson(claims), kp))
  }

  // ---- Reading claims ----

  function ReadTexts(items: seq<Json>): (r: Option<seq<string>>)
    ensures r.Some? ==> |r.value| == |items| && forall i | 0 <= i < |items| :: items[i] == JStr(r.value[i])
    ensures (forall i | 0 <= i < |items| :: items[i].JStr?) ==> r.Some?
  {
    if items == [] then Some([])
    else
      var rest := ReadTexts(items[1..]);
      if items[0].JStr? && rest.Some? then Some([items[0].s] + rest.value) else None
  }

  /** The claim under a key, converted. */
  function ReadNumber(v: Option<Json>): Option<int> {
    var x :- v;
    NumberOf(x)
  }

  /** The list of scopes; a text in its place is the list of its characters. */
  function ReadScope(v: Option<Json>): Option<seq<string>> {
    match v
    case Some(JArr(items)) => ReadTexts(items)
    case Some(JStr(s)) => Some(seq(|s|, i requires 0 <= i < |s| => [s[i]]))
    case _ => None
  }

  function ReadClaims(payload: Json, scope: seq<string>, exp: int, nbf: int): Option<Claims> {
    var iss :- payload.GetText("iss");
    var sub :- payload.GetText("sub");
    var rawIat :- payload.Get("iat");
    var iat :- IntOf(rawIat);
    var rawJti :- payload.Get("jti");
    var jti :- StrOf(rawJti);
    var rawPurpose :- payload.Get("purpose");
    var purpose :- StrOf(rawPurpose);
    var constraints :- DictOf(payload.Get("constraints"));
    Some(Claims(iss, sub, scope, exp, nbf, iat, jti, purpose, constraints,
                match payload.Get("audit_uri") case None => JNull case Some(u) => u))
  }

  // ---- Verification ----

  function VerifyToken(cr: Crypto, token: string, pk: PublicKey, expectedSub: string,
                       requiredScope: string, manifest: Json, now: int): Result<Claims, TokenError>
  {
    match VerifyCompact(cr, token, pk)
    case Raise(_) => Raise(TokenInvalidSignature)
    case Ok((_, payload)) => CheckPayload(payload, expectedSub, requiredScope, manifest, now)
  }

  /** The checks after the signature, in the order of the source. */
  function CheckPayload(payload: Json, expectedSub: string, requiredScope: string,
                        manifest: Json, now: int): Result<Claims, TokenError>
  {
    match (ReadNumber(payload.Get("exp")), ReadNumber(payload.Get("nbf")), ReadScope(payload.Get("scope")))
    case (Some(exp), Some(nbf), Some(scope)) =>
      if now >= exp then Raise(TokenExpired)
      else if now < nbf then Raise(TokenNotYetValid)
      else if payload.Get("sub") != Some(JStr(expectedSub)) then Raise(TokenInsufficientScope)
      else if !ScopeCovers(scope, requiredScope) then Raise(TokenInsufficientScope)
      else if exists i :: 0 <= i < |scope| && !ManifestHas(manifest, scope[i]) then Raise(TokenInsufficientScope)
      else (match ReadClaims(payload, scope, exp, nbf)
            case None => Raise(TokenMalformed)
            case Some(claims) => Ok(claims))
    case _ => Raise(TokenMalformed)
  }

  // ---- Theorems ----

  lemma ReadScopeBack(c: Claims)
    ensures ReadScope(ToJson(c).Get("scope")) == Some(c.scope)
  {
    var items := Texts(c.scope).items;
    assert ReadTexts(items).Some?;
    assert ReadTexts(items).value == c.scope;
  }

  lemma ReadBack(c: Claims)
    ensures ReadClaims(ToJson(c), c.scope, c.exp, c.nbf) == Some(c)
  {
    hide Texts;
    var j := ToJson(c);
    assert j.GetText("iss") == Some(c.iss) && j.GetText("sub") == Some(c.sub);
    assert j.Get("jti") == Some(JStr(c.jti)) && j.Get("purpose") == Some(JStr(c.purpose));
    assert j.Get("constraints") == Some(JObj(c.constraints)) && j.Get("iat") == Some(JInt(c.iat));
  }

  /**
   An issued token is accepted exactly inside its window, by the agent it names, for a scope
   it covers, against a manifest that declares what it delegates; and it then yields the
   very claims that were issued.
   */
  lemma IssueVerify(cr: Crypto, kp: KeyPair, claims: Claims, expiresIn: int, expectedSub: string,
                    requiredScope: string, manifest: Json, now: int)
    requires IdealSignatures(cr)
    requires 0 < expiresIn <= MAX_TTL_SECONDS
    ensures var r := VerifyToken(cr, IssueToken(cr, kp, claims, expiresIn).value, kp.Public(cr),
                                 expectedSub, requiredScope, manifest, now);
            && (r.Ok? <==> claims.nbf <= now < claims.exp && expectedSub == claims.sub
                           && ScopeCovers(claims.scope, requiredScope)
                           && forall i | 0 <= i < |claims.scope| :: ManifestHas(manifest, claims.scope[i]))
            && (r.Ok? ==> r.value == claims)
  {
    hide VerifyCompact, SignCompact, ScopeCovers, ManifestHas, ReadClaims, ReadScope;
    CompactRoundTrip(cr, ToJson(claims), kp);
    ReadScopeBack(claims);
    ReadBack(claims);
    assert ToJson(claims).Get("exp") == Some(JInt(claims.exp));
    assert ToJson(claims).Get("nbf") == Some(JInt(claims.nbf));
    assert ToJson(claims).Get("sub") == Some(JStr(claims.sub));
  }

  /** Whatever token is accepted, the registered manifest itself has the required capability. */
  lemma AcceptedAuthority(cr: Crypto, token: string, pk: PublicKey, expectedSub: string,
                          requiredScope: string, manifest: Json, now: int)
    requires VerifyToken(cr, token, pk, expectedSub, requiredScope, manifest, now).Ok?
    ensures ManifestHas(manifest, requiredScope)
    ensures var c := VerifyToken(cr, token, pk, expectedSub, requiredScope, manifest, now).value;
            c.nbf <= now < c.exp && c.sub == expectedSub && ScopeCovers(c.scope, requiredScope)
  {
    hide VerifyCompact, ScopeCovers, ManifestHas;
    var c := VerifyToken(cr, token, pk, expectedSub, requiredScope, manifest, now).value;
    AuthorityComposes(manifest, c.scope, requiredScope);
  }
}
