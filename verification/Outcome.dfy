/** Outcomes a delegatee signs: content, payload hash, verification. */
module Outcome {
  import opened Wrappers
  import opened Json
  import opened Signing
  import Manifest

  datatype Outcome = Outcome(
    tokenJti: string, status: string, payload: Json, schemaId: string, executedAt: int, reason: Option<string>)

  function PayloadHash(cr: Crypto, payload: Json): string {
    "sha256:" + cr.sha256(CanonicalJson(payload))
  }

  function ToContent(cr: Crypto, o: Outcome): Json {
    JObj(map[
      "token_jti" := JStr(o.tokenJti),
      "status" := JStr(o.status),
      "payload" := o.payload,
      "payload_hash" := JStr(PayloadHash(cr, o.payload)),
      "schema_id" := JStr(o.schemaId),
      "executed_at" := JInt(o.executedAt),
      "reason" := Manifest.OptionalText(o.reason)])
  }

  function SignOutcome(cr: Crypto, o: Outcome, kp: KeyPair, signedBy: string): Json {
    JObj(map["outcome" := ToContent(cr, o), "signature" := SignEnvelope(cr, ToContent(cr, o), kp, signedBy)])
  }

  datatype OutcomeError = OutcomeInvalidSignature | OutcomeSchemaMismatch | OutcomeMalformed

  predicate HasKeys(content: Json, keys: seq<string>) {
    forall i | 0 <= i < |keys| :: content.Get(keys[i]).Some?
  }

  function VerifyOutcome(cr: Crypto, envelope: Json, pk: PublicKey, expectedSchema: Option<string>): (r: Result<Json, OutcomeError>)
    ensures r.Ok? ==> r.value.Get("payload").Some? && envelope.Get("signature").Some?
                        && VerifyEnvelope(cr, r.value, envelope.Get("signature").value, pk).Ok?
  {
    match (envelope.Get("outcome"), envelope.Get("signature"))
    case (Some(content), Some(signature)) =>
      if VerifyEnvelope(cr, content, signature, pk).Raise? then Raise(OutcomeInvalidSignature)
      else if expectedSchema.Some? && content.Get("schema_id") != Some(JStr(expectedSchema.value)) then Raise(OutcomeSchemaMismatch)
      else
        (match content.Get("payload")
         case None => Raise(OutcomeMalformed)
         case Some(payload) =>
           if !HasKeys(content, ["token_jti", "status", "schema_id", "executed_at", "payload_hash"]) then Raise(OutcomeMalformed)
           else if content.Get("payload_hash") != Some(JStr(PayloadHash(cr, payload))) then Raise(OutcomeSchemaMismatch)
           else Ok(content))
    case _ => Raise(OutcomeInvalidSignature)
  }

  /** A signed outcome is accepted exactly under its signer's key and for its own schema. */
  lemma OutcomeExact(cr: Crypto, o: Outcome, kp: KeyPair, signedBy: string, pk: PublicKey, expectedSchema: Option<string>)
    requires IdealSignatures(cr)
    ensures VerifyOutcome(cr, SignOutcome(cr, o, kp, signedBy), pk, expectedSchema) ==
            if pk != kp.Public(cr) then Raise(OutcomeInvalidSignature)
            else if expectedSchema.Some? && expectedSchema.value != o.schemaId then Raise(OutcomeSchemaMismatch)
            else Ok(ToContent(cr, o))
  {
    hide VerifyEnvelope, SignEnvelope, PayloadHash;
    var content := ToContent(cr, o);
    EnvelopeExact(cr, content, kp, signedBy, content, pk);
    assert content.Get("schema_id") == Some(JStr(o.schemaId));
  }

  /** The hash an accepted outcome carries determines its payload. */
  lemma HashBindsPayload(cr: Crypto, e1: Json, pk1: PublicKey, s1: Option<string>, e2: Json, pk2: PublicKey, s2: Option<string>)
    requires IdealHash(cr)
    requires VerifyOutcome(cr, e1, pk1, s1).Ok? && VerifyOutcome(cr, e2, pk2, s2).Ok?
    requires VerifyOutcome(cr, e1, pk1, s1).value.Get("payload_hash") == VerifyOutcome(cr, e2, pk2, s2).value.Get("payload_hash")
    ensures VerifyOutcome(cr, e1, pk1, s1).value.Get("payload") == VerifyOutcome(cr, e2, pk2, s2).value.Get("payload")
  {
    hide VerifyEnvelope, CanonicalJson;
    var p1 := VerifyOutcome(cr, e1, pk1, s1).value.Get("payload").value;
    var p2 := VerifyOutcome(cr, e2, pk2, s2).value.Get("payload").value;
    var h1, h2 := cr.sha256(CanonicalJson(p1)), cr.sha256(CanonicalJson(p2));
    assert h1 == ("sha256:" + h1)[7..] && h2 == ("sha256:" + h2)[7..];
    CanonicalInjective(p1, p2);
  }
}
