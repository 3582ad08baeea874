/** Opaque references: claims sealed by authenticated encryption under a rotating key ring. */
module EntityReference {
  import opened Outcomes
  import opened Bytes
  import opened Text
  import opened ReferenceClaims
  import Base64Url

  /** AES-256-GCM as an inverse pair that adds a 16-byte tag. */
  datatype Aead = Aead(
    encrypt: (seq<byte>, seq<byte>, seq<byte>, seq<byte>) -> seq<byte>,
    decrypt: (seq<byte>, seq<byte>, seq<byte>, seq<byte>) -> Option<seq<byte>>)
  {
    ghost predicate Inverse() {
      forall key, nonce, plaintext, aad ::
        && decrypt(key, nonce, encrypt(key, nonce, plaintext, aad), aad) == Some(plaintext)
        && |encrypt(key, nonce, plaintext, aad)| == |plaintext| + 16
    }
  }

  const PREFIX := "tqr1."

  // The ASCII bytes of "teaql.entity-reference.v1".
  const AAD: seq<byte> := [
    116, 101, 97, 113, 108, 46, 101, 110, 116, 105, 116, 121, 45,
    114, 101, 102, 101, 114, 101, 110, 99, 101, 46, 118, 49]

  datatype ReferenceError = Invalid | BadNonce | TimeOverflow | Unencodable(error: EncodeError)

  datatype Codec = Codec(activeKeyVersion: nat, keys: map<nat, seq<byte>>) {
    /** What the constructor accepts. */
    predicate Valid() {
      activeKeyVersion in keys && forall v :: v in keys ==> v <= 0xFFFF_FFFF && |keys[v]| == 32
    }
  }

  function ValidRequest(entityType: string, id: int, version: int, lifetime: int): bool {
    !Blank(entityType) && 0 < id < MODULUS && FitsSigned(version) && lifetime > 0
  }

  const LAST_TIME := (LAST_SECOND + 1) * SECOND - 1

  /** Key version, nonce and ciphertext behind the prefix, as text. */
  function Sealed(aead: Aead, codec: Codec, nonce: seq<byte>, payload: seq<byte>): string
    requires codec.Valid()
  {
    PREFIX + Base64Url.Encode(
      BigEndian(codec.activeKeyVersion, 4) + nonce + aead.encrypt(codec.keys[codec.activeKeyVersion], nonce, payload, AAD))
  }

  function EncodeReference(
    aead: Aead, utf8: Utf8, codec: Codec, now: int, nonce: seq<byte>,
    entityType: string, id: int, version: int, purpose: string, lifetime: int): Result<string, ReferenceError>
    requires codec.Valid()
  {
    if !ValidRequest(entityType, id, version, lifetime) then Err(Invalid)
    else if |nonce| != 12 then Err(BadNonce)
    else if now + lifetime > LAST_TIME then Err(TimeOverflow)
    else
      var claims := Claims(entityType, id, version, now, now + lifetime, purpose, 0);
      var payload := EncodeClaims(utf8, claims);
      if payload.Err? then Err(Unencodable(payload.error))
      else
        Ok(Sealed(aead, codec, nonce, payload.value))
  }

  /** Expired, issued too far ahead, or meant for something else. */
  function CheckDecoded(claims: Claims, now: int, expectedType: string,
      purpose: string): Result<Claims, ReferenceError> {
    if claims.expiresAt <= now then Err(Invalid)
    else if now + 60 * SECOND > LAST_TIME then Err(TimeOverflow)
    else if claims.issuedAt > now + 60 * SECOND || claims.entityType != expectedType || claims.purpose != purpose then Err(Invalid)
    else Ok(claims)
  }

  function DecodeReference(
    aead: Aead, utf8: Utf8, codec: Codec, now: int, token: string, expectedType: string, purpose: string): Result<Claims, ReferenceError>
  {
    if !(PREFIX <= token) then Err(Invalid)
    else
      var envelope := Base64Url.Decode(token[|PREFIX|..]);
      if envelope.None? || |envelope.value| < 4 + 12 + 16 then Err(Invalid)
      else
        var keyVersion := FromBigEndian(envelope.value[..4]);
        if keyVersion !in codec.keys then Err(Invalid)
        else
          var plaintext := aead.decrypt(codec.keys[keyVersion], envelope.value[4..16], envelope.value[16..], AAD);
          if plaintext.None? then Err(Invalid)
          else
            var claims := DecodeClaims(utf8, plaintext.value);
            if claims.None? then Err(Invalid)
            else CheckDecoded(claims.value.(keyVersion := keyVersion), now, expectedType, purpose)
  }

  /** The later ring still holds the key the token was made under. */
  predicate StillHolds(later: Codec, made: Codec)
    requires made.Valid()
  {
    made.activeKeyVersion in later.keys && later.keys[made.activeKeyVersion] == made.keys[made.activeKeyVersion]
  }

  /** What a holder of the token made for these claims is told. */
  function Answer(claims: Claims, keyVersion: nat, now: int, expectedType: string,
      purpose: string): Result<Claims, ReferenceError> {
    var issued, expires := CutToSeconds(claims.issuedAt), CutToSeconds(claims.expiresAt);
    if expires <= now then Err(Invalid)
    else if now + 60 * SECOND > LAST_TIME then Err(TimeOverflow)
    else if issued <= now + 60 * SECOND && expectedType == claims.entityType && purpose == claims.purpose then
      Ok(claims.(issuedAt := issued, expiresAt := expires, keyVersion := keyVersion))
    else Err(Invalid)
  }

  /**
    A token made under any key ring decodes under every later ring that still holds its key, whatever else
    was rotated: it comes back with the same type, id, version, purpose and key version and with whole-second
    times exactly when it has not expired, was issued at most a minute ahead, and type and purpose match.
   */
  lemma {:induction false} TokenRoundTrip(
    aead: Aead, utf8: Utf8, made: Codec, later: Codec, issued: int, nonce: seq<byte>,
    entityType: string, id: int, version: int, purpose: string, lifetime: int, token: string,
    now: int, expectedType: string, expectedPurpose: string)
    requires aead.Inverse() && utf8.Exact() && made.Valid() && later.Valid() && StillHolds(later, made)
    requires IsTime(issued)
    requires EncodeReference(aead, utf8, made, issued, nonce, entityType, id, version, purpose, lifetime) == Ok(token)
    ensures DecodeReference(aead, utf8, later, now, token, expectedType, expectedPurpose)
         == Answer(Claims(entityType, id, version, issued, issued + lifetime, purpose, 0), made.activeKeyVersion,
                     now, expectedType, expectedPurpose)
  {
    var claims := Claims(entityType, id, version, issued, issued + lifetime, purpose, 0);
    var payload := Issued(aead, utf8, made, issued, nonce, claims, lifetime, token);
    SealedReturns(aead, utf8, made, later, claims, nonce, payload, now, expectedType, expectedPurpose);
  }

  /** Opening a sealed encoding gives the claims back, cut to seconds and with the key version it was made under. */
  lemma {:induction false} SealedReturns(
    aead: Aead, utf8: Utf8, made: Codec, later: Codec, claims: Claims, nonce: seq<byte>, payload: seq<byte>,
    now: int, expectedType: string, purpose: string)
    requires aead.Inverse() && utf8.Exact() && made.Valid() && StillHolds(later, made) && |nonce| == 12
    requires IsTime(claims.issuedAt) && IsTime(claims.expiresAt) && claims.entityType != "" && claims.id != 0
    requires EncodeClaims(utf8, claims) == Ok(payload)
    ensures DecodeReference(aead, utf8, later, now, Sealed(aead, made, nonce, payload), expectedType, purpose)
         == CheckDecoded(Cut(claims).(keyVersion := made.activeKeyVersion), now, expectedType, purpose)
    ensures CheckDecoded(Cut(claims).(keyVersion := made.activeKeyVersion), now, expectedType, purpose)
         == Answer(claims, made.activeKeyVersion, now, expectedType, purpose)
  {
    DecodeEncoded(utf8, claims);
    SealedOpens(aead, utf8, made, later, nonce, payload, now, expectedType, purpose);
  }

  /** What a token that was issued consists of. */
  lemma {:induction false} Issued(
    aead: Aead, utf8: Utf8, codec: Codec, now: int, nonce: seq<byte>, claims: Claims, lifetime: int, token: string)
    returns (payload: seq<byte>)
    requires codec.Valid() && IsTime(now)
    requires EncodeReference(aead, utf8, codec, now, nonce, claims.entityType, claims.id, claims.version, claims.purpose, lifetime)
          == Ok(token)
    requires claims.issuedAt == now && claims.expiresAt == now + lifetime && claims.keyVersion == 0
    ensures |nonce| == 12 && claims.entityType != "" && claims.id != 0 && IsTime(now + lifetime)
    ensures EncodeClaims(utf8, claims) == Ok(payload)
    ensures token == Sealed(aead, codec, nonce, payload)
  {
    payload := EncodeClaims(utf8, claims).value;
    assert Blank("");
  }

  /** A sealed payload is opened under its key version and decoded. */
  lemma {:induction false} SealedOpens(
    aead: Aead, utf8: Utf8, made: Codec, later: Codec, nonce: seq<byte>, payload: seq<byte>,
    now: int, expectedType: string, purpose: string)
    requires aead.Inverse() && made.Valid() && StillHolds(later, made) && |nonce| == 12
    ensures DecodeReference(aead, utf8, later, now, Sealed(aead, made, nonce, payload), expectedType, purpose)
         == var claims := DecodeClaims(utf8, payload);
            if claims.None? then Err(Invalid)
            else CheckDecoded(claims.value.(keyVersion := made.activeKeyVersion), now, expectedType, purpose)
  {
    var token := Sealed(aead, made, nonce, payload);
    var ciphertext := aead.encrypt(made.keys[made.activeKeyVersion], nonce, payload, AAD);
    var envelope := BigEndian(made.activeKeyVersion, 4) + nonce + ciphertext;
    assert token[|PREFIX|..] == Base64Url.Encode(envelope);
    assert token[..|PREFIX|] == PREFIX;
    Base64Url.RoundTrip(envelope);
    assert envelope[..4] == BigEndian(made.activeKeyVersion, 4) && envelope[4..16] == nonce
      && envelope[16..] == ciphertext;
    PackedWidths();
    BigEndianRoundTrip(made.activeKeyVersion, 4);
  }
}
