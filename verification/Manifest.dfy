/** Capability manifests: content, signing, verification. */
module Manifest {
  import opened Wrappers
  import opened Json
  import opened Signing

  datatype Capability = Capability(name: string, description: string, metadata: map<string, Json>) {
    /** Metadata appears only when there is some. */
    function ToJson(): Json {
      var d := map["name" := JStr(name), "description" := JStr(description)];
      JObj(if metadata == map[] then d else d["metadata" := JObj(metadata)])
    }
  }

  function OptionalText(t: Option<string>): Json {
    match t
    case None => JNull
    case Some(s) => JStr(s)
  }

  datatype Manifest = Manifest(
    agentId: string, version: string, capabilities: seq<Capability>,
    evidence: seq<Json>, description: string, homepage: Option<string>)
  {
    function ToContent(): Json {
      JObj(map[
        "agent_id" := JStr(agentId),
        "version" := JStr(version),
        "description" := JStr(description),
        "homepage" := OptionalText(homepage),
        "capabilities" := JArr(seq(|capabilities|, i requires 0 <= i < |capabilities| => capabilities[i].ToJson())),
        "evidence" := JArr(evidence)])
    }
  }

  function SignManifest(cr: Crypto, m: Manifest, kp: KeyPair): Json {
    JObj(map["manifest" := m.ToContent(), "signature" := SignEnvelope(cr, m.ToContent(), kp, m.agentId)])
  }

  datatype ManifestError = ManifestInvalidSignature

  function VerifyManifest(cr: Crypto, envelope: Json, pk: PublicKey): Result<Json, ManifestError> {
    match (envelope.Get("manifest"), envelope.Get("signature"))
    case (Some(content), Some(signature)) =>
      if VerifyEnvelope(cr, content, signature, pk).Ok? then Ok(content) else Raise(ManifestInvalidSignature)
    case _ => Raise(ManifestInvalidSignature)
  }

  /** A published manifest verifies under its author's key, under no other, and comes back unchanged. */
  lemma ManifestRoundTrip(cr: Crypto, m: Manifest, kp: KeyPair, pk: PublicKey)
    requires IdealSignatures(cr)
    ensures VerifyManifest(cr, SignManifest(cr, m, kp), pk) ==
            if pk == kp.Public(cr) then Ok(m.ToContent()) else Raise(ManifestInvalidSignature)
  {
    EnvelopeExact(cr, m.ToContent(), kp, m.agentId, m.ToContent(), pk);
  }
}
