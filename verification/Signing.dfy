/**
 The signing layer: canonical bytes, detached signature envelopes, and compact JWS.
 Ed25519 and SHA-256 enter as the functions of a `Crypto` record; what is assumed of
 them is written down in `IdealSignatures` and `IdealHash`.
 */
module Signing {
  import opened Wrappers
  import opened Text
  import opened Json
  import opened Utf8
  import opened Base64Url

  datatype PrivateKey = PrivateKey(seed: nat)
  datatype PublicKey = PublicKey(point: nat)

  datatype Crypto = Crypto(
    publicKey: PrivateKey -> PublicKey,
    sign: (PrivateKey, Bytes) -> Bytes,
    verify: (PublicKey, Bytes, Bytes) -> bool, // key, message, signature
    sha256: Bytes -> string)                   // hexadecimal digest

  datatype KeyPair = KeyPair(kid: string, private: PrivateKey) {
    function Public(cr: Crypto): PublicKey {
      cr.publicKey(private)
    }
  }

  const ALG := "EdDSA"

  /** A signature made by a key verifies under its public key, for its message, and nowhere else. */
  ghost predicate IdealSignatures(cr: Crypto) {
    && (forall k, m :: cr.verify(cr.publicKey(k), m, cr.sign(k, m)))
    && (forall p, k, m, n :: cr.verify(p, n, cr.sign(k, m)) ==> p == cr.publicKey(k) && n == m)
  }

  /** The digest inside the genesis hash: sixty-four zeros. */
  function Zeros(): string {
    seq(64, _ => '0')
  }

  /** No collisions, a digest is one line of text, and no digest is all zeros. */
  ghost predicate IdealHash(cr: Crypto) {
    && (forall a, b :: cr.sha256(a) == cr.sha256(b) ==> a == b)
    && (forall a :: '\n' !in cr.sha256(a) && cr.sha256(a) != Zeros())
  }

  // ---- Canonical and stored forms ----

  function CanonicalJson(v: Json): Bytes {
    Encode(Print(false, v))
  }

  /** `json.loads` on bytes. */
  function LoadsBytes(b: Bytes): Option<Json> {
    var text :- Utf8.Decode(b);
    Loads(text)
  }

  /** The text kept in the `record_json` column: sorted, without spaces, ASCII-escaped. */
  function StorageText(v: Json): string {
    Print(true, v)
  }

  lemma LoadsCanonical(v: Json)
    ensures LoadsBytes(CanonicalJson(v)) == Some(v)
  {
    Utf8.DecodeEncode(Print(false, v));
    LoadsPrint(false, v);
  }

  /** Distinct values have distinct canonical bytes. */
  lemma CanonicalInjective(v: Json, w: Json)
    requires CanonicalJson(v) == CanonicalJson(w)
    ensures v == w
  {
    LoadsCanonical(v);
    LoadsCanonical(w);
  }

  /** A value read back from its stored form has the canonical bytes it was stored with. */
  lemma StorageKeepsCanonical(v: Json)
    ensures Loads(StorageText(v)).Some?
    ensures CanonicalJson(Loads(StorageText(v)).value) == CanonicalJson(v)
  {
    LoadsPrint(true, v);
  }

  // ---- Detached envelopes ----

  function SignEnvelope(cr: Crypto, content: Json, kp: KeyPair, signedBy: string): Json {
    JObj(map[
      "alg" := JStr(ALG),
      "kid" := JStr(kp.kid),
      "signed_by" := JStr(signedBy),
      "value" := JStr(B64Encode(cr.sign(kp.private, CanonicalJson(content))))])
  }

  datatype SignatureError = UnsupportedAlg | InvalidSignature | MalformedSignature

  function SignatureBytes(signature: Json): Option<Bytes> {
    var value :- signature.GetText("value");
    B64Decode(value)
  }

  function VerifyEnvelope(cr: Crypto, content: Json, signature: Json, pk: PublicKey): Result<(), SignatureError> {
    if !signature.JObj? then Raise(MalformedSignature)
    else if signature.Get("alg") != Some(JStr(ALG)) then Raise(UnsupportedAlg)
    else
      match SignatureBytes(signature)
      case None => Raise(MalformedSignature)
      case Some(value) => if cr.verify(pk, CanonicalJson(content), value) then Ok(()) else Raise(InvalidSignature)
  }

  /** An envelope verifies for exactly the content it was made over and exactly its signer's key. */
  lemma EnvelopeExact(cr: Crypto, content: Json, kp: KeyPair, signedBy: string, other: Json, pk: PublicKey)
    requires IdealSignatures(cr)
    ensures VerifyEnvelope(cr, other, SignEnvelope(cr, content, kp, signedBy), pk).Ok?
            <==> other == content && pk == kp.Public(cr)
  {
    hide CanonicalJson, B64Encode, B64Decode;
    var m := CanonicalJson(content);
    Base64Url.DecodeEncode(cr.sign(kp.private, m));
    assert cr.verify(kp.Public(cr), m, cr.sign(kp.private, m));
    if CanonicalJson(other) == m {
      CanonicalInjective(other, content);
    }
  }

  // ---- Compact JWS ----

  function Header(kid: string): Json {
    JObj(map["alg" := JStr(ALG), "kid" := JStr(kid), "typ" := JStr("atf+jws")])
  }

  function SigningInput(header: Json, payload: Json): string {
    B64Encode(CanonicalJson(header)) + "." + B64Encode(CanonicalJson(payload))
  }

  function SignCompact(cr: Crypto, payload: Json, kp: KeyPair): string {
    var input := SigningInput(Header(kp.kid), payload);
    input + "." + B64Encode(cr.sign(kp.private, Encode(input)))
  }

  datatype CompactError = MalformedJws | UnsupportedJwsAlg | InvalidJwsSignature

  function VerifyCompact(cr: Crypto, jws: string, pk: PublicKey): Result<(Json, Json), CompactError> {
    var parts := Split(jws, '.');
    if |parts| != 3 then Raise(MalformedJws)
    else
      match DecodeJson(parts[0])
      case None => Raise(MalformedJws)
      case Some(header) =>
        if !header.JObj? then Raise(MalformedJws)
        else if header.Get("alg") != Some(JStr(ALG)) then Raise(UnsupportedJwsAlg)
        else
          match (DecodeJson(parts[1]), B64Decode(parts[2]))
          case (Some(payload), Some(signature)) =>
            if cr.verify(pk, Encode(parts[0] + "." + parts[1]), signature) then Ok((header, payload))
            else Raise(InvalidJwsSignature)
          case _ => Raise(MalformedJws)
  }

  function DecodeJson(part: string): Option<Json> {
    var b :- B64Decode(part);
    LoadsBytes(b)
  }

  /** The claims as read before any check: `token.split(".")`, then the middle part. */
  function PeekPayload(jws: string): Option<Json> {
    var parts := Split(jws, '.');
    if |parts| == 3 then DecodeJson(parts[1]) else None
  }

  /** The signature of a compact token, if its text can be taken apart. */
  function TokenSignature(jws: string): Option<Bytes> {
    var parts := Split(jws, '.');
    if |parts| == 3 then B64Decode(parts[2]) else None
  }

  lemma EncodingHasNo(data: Bytes, c: char)
    requires !IsUrlChar(c)
    ensures c !in B64Encode(data)
  {
    EncodeShape(data);
  }

  lemma DecodeJsonRoundTrip(v: Json)
    ensures DecodeJson(B64Encode(CanonicalJson(v))) == Some(v)
  {
    Base64Url.DecodeEncode(CanonicalJson(v));
    LoadsCanonical(v);
  }

  lemma SplitCompact(cr: Crypto, payload: Json, kp: KeyPair)
    ensures var input := SigningInput(Header(kp.kid), payload);
            Split(SignCompact(cr, payload, kp), '.')
            == [B64Encode(CanonicalJson(Header(kp.kid))), B64Encode(CanonicalJson(payload)),
                B64Encode(cr.sign(kp.private, Encode(input)))]
  {
    hide B64Encode, CanonicalJson, Split, Encode;
    var h, p := B64Encode(CanonicalJson(Header(kp.kid))), B64Encode(CanonicalJson(payload));
    var s := B64Encode(cr.sign(kp.private, Encode(h + "." + p)));
    EncodingHasNo(CanonicalJson(Header(kp.kid)), '.');
    EncodingHasNo(CanonicalJson(payload), '.');
    EncodingHasNo(cr.sign(kp.private, Encode(h + "." + p)), '.');
    assert SignCompact(cr, payload, kp) == h + ['.'] + (p + ['.'] + s);
    SplitAtFirst(h, '.', p + ['.'] + s);
    SplitAtFirst(p, '.', s);
    SplitAbsent(s, '.');
  }

  lemma PeekSigned(cr: Crypto, payload: Json, kp: KeyPair)
    ensures PeekPayload(SignCompact(cr, payload, kp)) == Some(payload)
  {
    hide B64Encode, B64Decode, CanonicalJson, Split, Encode, LoadsBytes, SignCompact, DecodeJson;
    SplitCompact(cr, payload, kp);
    DecodeJsonRoundTrip(payload);
  }

  /** Verifying a freshly signed token returns the header and the payload that went in. */
  lemma CompactRoundTrip(cr: Crypto, payload: Json, kp: KeyPair)
    requires IdealSignatures(cr)
    ensures VerifyCompact(cr, SignCompact(cr, payload, kp), kp.Public(cr)) == Ok((Header(kp.kid), payload))
    ensures PeekPayload(SignCompact(cr, payload, kp)) == Some(payload)
  {
    hide B64Encode, B64Decode, CanonicalJson, Split, Encode, LoadsBytes, SignCompact, DecodeJson;
    var input := SigningInput(Header(kp.kid), payload);
    SplitCompact(cr, payload, kp);
    DecodeJsonRoundTrip(Header(kp.kid));
    DecodeJsonRoundTrip(payload);
    Base64Url.DecodeEncode(cr.sign(kp.private, Encode(input)));
  }

  /** What is signed determines header and payload (section 5.1 of RFC 7515). */
  lemma SigningInputInjective(h1: Json, p1: Json, h2: Json, p2: Json)
    requires SigningInput(h1, p1) == SigningInput(h2, p2)
    ensures h1 == h2 && p1 == p2
  {
    hide B64Encode, CanonicalJson, Split;
    SplitInput(h1, p1);
    SplitInput(h2, p2);
    Base64Url.EncodeInjective(CanonicalJson(h1), CanonicalJson(h2));
    Base64Url.EncodeInjective(CanonicalJson(p1), CanonicalJson(p2));
    CanonicalInjective(h1, h2);
    CanonicalInjective(p1, p2);
  }

  lemma SplitInput(h: Json, p: Json)
    ensures Split(SigningInput(h, p), '.') == [B64Encode(CanonicalJson(h)), B64Encode(CanonicalJson(p))]
  {
    hide B64Encode, CanonicalJson, Split;
    EncodingHasNo(CanonicalJson(h), '.');
    EncodingHasNo(CanonicalJson(p), '.');
    SplitAtFirst(B64Encode(CanonicalJson(h)), '.', B64Encode(CanonicalJson(p)));
    SplitAbsent(B64Encode(CanonicalJson(p)), '.');
  }

  /**
   A token that verifies over bytes which an honest issuer signed as a token carries the
   issuer's payload: the signing input leaves no room for another one.
   */
  lemma AcceptedPayload(cr: Crypto, jws: string, pk: PublicKey, header: Json, payload: Json)
    requires VerifyCompact(cr, jws, pk).Ok?
    requires var parts := Split(jws, '.'); Encode(parts[0] + "." + parts[1]) == Encode(SigningInput(header, payload))
    ensures VerifyCompact(cr, jws, pk).value.1 == payload
  {
    hide B64Encode, B64Decode, CanonicalJson, Split, LoadsBytes, Encode, DecodeJson;
    var parts := Split(jws, '.');
    var s := SigningInput(header, payload);
    Utf8.EncodeInjective(parts[0] + "." + parts[1], s);
    SplitIsLocal(jws, '.');
    assert parts[0] in parts && parts[1] in parts;
    SplitAtFirst(parts[0], '.', parts[1]);
    SplitAbsent(parts[1], '.');
    SplitInput(header, payload);
    assert Split(s, '.')[1] == parts[1];
    DecodeJsonRoundTrip(payload);
  }

  /** The two kinds of signed bytes never meet: no token input is the canonical form of an object. */
  lemma DomainsDisjoint(header: Json, payload: Json, content: Json)
    requires content.JObj?
    ensures Encode(SigningInput(header, payload)) != CanonicalJson(content)
  {
    hide B64Encode;
    var input := SigningInput(header, payload);
    EncodingHasNo(CanonicalJson(header), '{');
    EncodingHasNo(CanonicalJson(payload), '{');
    assert '{' !in input;
    AsciiOccurs(input, '{');
    AsciiOccurs(Print(false, content), '{');
    PrintStart(false, content);
    assert Print(false, content)[0] in Print(false, content);
  }

  // ---- The assumptions are consistent ----

  function Unary(n: nat): Bytes {
    seq(n, _ => 0) + [1]
  }

  function MarkedText(b: Bytes): string {
    "#" + seq(|b|, i requires 0 <= i < |b| => (b[i] as int + 32) as char)
  }

  lemma UnaryPrefix(k: nat, l: nat, m: Bytes, n: Bytes)
    requires Unary(k) + m == Unary(l) + n
    ensures k == l && m == n
  {
    var s, t := Unary(k) + m, Unary(l) + n;
    assert s[k] == 1 && forall i | 0 <= i < k :: s[i] == 0;
    assert t[l] == 1 && forall i | 0 <= i < l :: t[i] == 0;
    assert m == s[k + 1..] && n == t[l + 1..];
  }

  /** Some primitives meet both assumptions at once. */
  lemma AssumptionsConsistent()
    ensures exists cr :: IdealSignatures(cr) && IdealHash(cr)
  {
    var cr := Crypto(
      (k: PrivateKey) => PublicKey(k.seed),
      (k: PrivateKey, m: Bytes) => Unary(k.seed) + m,
      (p: PublicKey, m: Bytes, s: Bytes) => s == Unary(p.point) + m,
      (b: Bytes) => MarkedText(b));
    forall p: PublicKey, k: PrivateKey, m: Bytes, n: Bytes | cr.verify(p, n, cr.sign(k, m))
      ensures p == cr.publicKey(k) && n == m
    {
      UnaryPrefix(p.point, k.seed, n, m);
    }
    forall a: Bytes, b: Bytes | cr.sha256(a) == cr.sha256(b)
      ensures a == b
    {
      assert |MarkedText(a)| == |MarkedText(b)|;
      forall i | 0 <= i < |a|
        ensures a[i] == b[i]
      {
        assert MarkedText(a)[i + 1] == MarkedText(b)[i + 1];
      }
    }
    assert Zeros()[0] == '0';
    assert forall a: Bytes :: cr.sha256(a)[0] == '#' && '\n' !in cr.sha256(a);
    assert IdealSignatures(cr) && IdealHash(cr);
  }
}
