/** Entity references from their inputs alone: the bytes of a token, and exactly which tokens are accepted as what. */
module ReferenceLayout {
  import opened Outcomes
  import opened Bytes
  import opened Text
  import opened ReferenceClaims
  import opened EntityReference
  import Base64Url

  // ----- the payload

  function TwoBytes(n: nat): seq<byte> {
    [n / 0x100 % 256, n % 256]
  }

  function FourBytes(n: nat): seq<byte> {
    [n / 0x100_0000 % 256, n / 0x1_0000 % 256, n / 0x100 % 256, n % 256]
  }

  function EightBytes(n: nat): seq<byte> {
    FourBytes(n / 0x1_0000_0000) + FourBytes(n)
  }

  /** A number of 64 bits in two's complement. */
  function Residue(n: int): nat
    requires n >= -0x8000_0000_0000_0000
  {
    if n < 0 then n + 0x1_0000_0000_0000_0000 else n
  }

  /** Seconds since the epoch, cut towards zero. */
  function Seconds(t: int): int {
    if t < 0 then -((0 - t) / 1_000_000) else t / 1_000_000
  }

  function TextBytes(utf8: Utf8, text: string): seq<byte> {
    TwoBytes(|utf8.encode(text)|) + utf8.encode(text)
  }

  /** Type, id, version, issue and expiry time, purpose. */
  ghost predicate IsPayload(utf8: Utf8, c: Claims, payload: seq<byte>)
    requires NumbersFit(c)
  {
    payload
    == TextBytes(utf8, c.entityType) + EightBytes(Residue(c.id)) + EightBytes(Residue(c.version))
       + EightBytes(Residue(Seconds(c.issuedAt))) + EightBytes(Residue(Seconds(c.expiresAt)))
       + TextBytes(utf8, c.purpose)
  }

  ghost predicate TextFits(utf8: Utf8, text: string) {
    |utf8.encode(text)| < 0x1_0000
  }

  predicate NumbersFit(c: Claims) {
    && 0 <= c.id < 0x1_0000_0000_0000_0000
    && -0x8000_0000_0000_0000 <= c.version < 0x8000_0000_0000_0000
    && -0x8000_0000_0000_0000 <= Seconds(c.issuedAt) < 0x8000_0000_0000_0000
    && -0x8000_0000_0000_0000 <= Seconds(c.expiresAt) < 0x8000_0000_0000_0000
  }

  lemma {:induction false} OneMoreByte(n: nat, width: nat)
    ensures BigEndian(n, width + 1) == BigEndian(n / 256, width) + [n % 256]
  {
  }

  lemma {:induction false} TwoBytesAre(n: nat)
    ensures BigEndian(n, 2) == TwoBytes(n)
  {
    OneMoreByte(n, 1);
    OneMoreByte(n / 256, 0);
    assert BigEndian(n / 256 / 256, 0) == [];
  }

  lemma {:induction false} FourBytesAre(n: nat)
    ensures BigEndian(n, 4) == FourBytes(n)
  {
    assert n / 256 / 256 == n / 0x1_0000 && n / 0x1_0000 / 256 == n / 0x100_0000;
    OneMoreByte(n, 3);
    OneMoreByte(n / 256, 2);
    TwoBytesAre(n / 0x1_0000);
  }

  lemma {:induction false} EightBytesAre(n: nat)
    ensures BigEndian(n, 8) == EightBytes(n)
  {
    var a := n / 256;
    var b := a / 256;
    var c := b / 256;
    var d := c / 256;
    assert b == n / 0x1_0000 && c == n / 0x100_0000 && d == n / 0x1_0000_0000;
    OneMoreByte(n, 7);
    OneMoreByte(a, 6);
    OneMoreByte(b, 5);
    OneMoreByte(c, 4);
    FourBytesAre(d);
  }

  lemma {:induction false} SignedAre(n: int)
    requires FitsSigned(n)
    ensures Signed(n) == EightBytes(Residue(n))
  {
    EightBytesAre(Residue(n));
  }

  lemma {:induction false} SecondsAre(t: int)
    ensures WholeSeconds(t) == Seconds(t)
  {
  }

  lemma {:induction false} NumbersAre(c: Claims)
    requires NumbersFit(c)
    ensures Numbers(c)
         == EightBytes(Residue(c.id)) + EightBytes(Residue(c.version))
            + EightBytes(Residue(Seconds(c.issuedAt))) + EightBytes(Residue(Seconds(c.expiresAt)))
  {
    SecondsAre(c.issuedAt);
    SecondsAre(c.expiresAt);
    EightBytesAre(c.id);
    SignedAre(c.version);
    SignedAre(Seconds(c.issuedAt));
    SignedAre(Seconds(c.expiresAt));
  }

  lemma {:induction false} TextIs(utf8: Utf8, text: string)
    ensures WriteText(utf8, text) == if TextFits(utf8, text) then Some(TextBytes(utf8, text)) else None
  {
    TwoBytesAre(|utf8.encode(text)|);
  }

  /** Claims are encoded, byte by byte, unless a text or a number does not fit. */
  lemma {:induction false} EncodeClaimsIs(utf8: Utf8, c: Claims)
    ensures EncodeClaims(utf8, c).Ok? <==> TextFits(utf8, c.entityType) && NumbersFit(c) && TextFits(utf8, c.purpose)
    ensures EncodeClaims(utf8, c).Ok? ==> NumbersFit(c) && IsPayload(utf8, c, EncodeClaims(utf8, c).value)
    ensures !TextFits(utf8, c.entityType) ==> EncodeClaims(utf8, c) == Err(TextTooLong)
    ensures TextFits(utf8, c.entityType) && !NumbersFit(c) ==> EncodeClaims(utf8, c) == Err(NumberOutOfRange)
    ensures TextFits(utf8, c.entityType) && NumbersFit(c) && !TextFits(utf8, c.purpose) ==>
      EncodeClaims(utf8, c) == Err(TextTooLong)
  {
    TextIs(utf8, c.entityType);
    TextIs(utf8, c.purpose);
    SecondsAre(c.issuedAt);
    SecondsAre(c.expiresAt);
    if NumbersFit(c) {
      NumbersAre(c);
    }
  }

  // ----- what a payload says

  /** The years 1 to 9999. */
  predicate IsSecond(t: int) {
    -62_135_596_800 <= t <= 253_402_300_799
  }

  /** Claims as they can be read: named, numbered, in whole seconds, without a key version. */
  ghost predicate Readable(c: Claims) {
    && c.entityType != "" && 0 < c.id < 0x1_0000_0000_0000_0000
    && -0x8000_0000_0000_0000 <= c.version < 0x8000_0000_0000_0000
    && c.issuedAt == Seconds(c.issuedAt) * 1_000_000 && IsSecond(Seconds(c.issuedAt))
    && c.expiresAt == Seconds(c.expiresAt) * 1_000_000 && IsSecond(Seconds(c.expiresAt))
    && c.keyVersion == 0
  }

  ghost predicate IsEncoded(utf8: Utf8, c: Claims, payload: seq<byte>) {
    Readable(c) && NumbersFit(c) && TextFits(utf8, c.entityType) && TextFits(utf8, c.purpose) && IsPayload(utf8, c, payload)
  }

  /** A payload is accepted as these claims exactly when they can be read and it is their encoding. */
  lemma {:induction false} DecodeClaimsIff(utf8: Utf8, payload: seq<byte>, c: Claims)
    requires utf8.Exact()
    ensures DecodeClaims(utf8, payload) == Some(c)
       <==> IsEncoded(utf8, c, payload)
  {
    EncodeClaimsIs(utf8, c);
    if DecodeClaims(utf8, payload) == Some(c) {
      EncodeDecoded(utf8, payload);
      DecodedAreReadable(utf8, payload);
    }
    if IsEncoded(utf8, c, payload) {
      assert EncodeClaims(utf8, c) == Ok(payload);
      DecodeEncoded(utf8, c);
      SecondsAre(c.issuedAt);
      SecondsAre(c.expiresAt);
      assert Cut(c) == c;
    }
  }

  lemma {:induction false} DecodedAreReadable(utf8: Utf8, payload: seq<byte>)
    requires DecodeClaims(utf8, payload).Some?
    ensures Readable(DecodeClaims(utf8, payload).value)
  {
    var offset := DecodedParts(utf8, payload);
    PackedWidths();
    FromBigEndianRoundTrip(payload[offset..offset + 8]);
    FromSignedRoundTrip(payload[offset + 8..offset + 16]);
  }

  // ----- tokens

  function Ascii(text: string): seq<byte> {
    seq(|text|, i requires 0 <= i < |text| => text[i] as int % 256)
  }

  const LABEL := "teaql.entity-reference.v1"
  const LAST_MICROSECOND := 253_402_300_799_999_999

  lemma {:induction false} LabelIs()
    ensures AAD == Ascii(LABEL)
  {
  }

  predicate Acceptable(entityType: string, id: int, version: int, lifetime: int) {
    && !Blank(entityType) && 0 < id < 0x1_0000_0000_0000_0000
    && -0x8000_0000_0000_0000 <= version < 0x8000_0000_0000_0000 && lifetime > 0
  }

  /** Prefix, and as text: the active key's version, the nonce, and the payload encrypted under that key. */
  ghost predicate IsToken(aead: Aead, codec: Codec, nonce: seq<byte>, payload: seq<byte>, token: string)
    requires codec.Valid()
  {
    token == "tqr1." + Base64Url.Encode(
      FourBytes(codec.activeKeyVersion) + nonce
      + aead.encrypt(codec.keys[codec.activeKeyVersion], nonce, payload, Ascii(LABEL)))
  }

  lemma {:induction false} TimesFit(t: int)
    requires IsTime(t)
    ensures -0x8000_0000_0000_0000 <= Seconds(t) < 0x8000_0000_0000_0000
  {
    TimesStayInRange(t);
    SecondsAre(t);
  }

  /** Encoding a reference: each refusal, and otherwise the token of the request's payload. */
  lemma {:induction false} EncodeReferenceIs(
    aead: Aead, utf8: Utf8, codec: Codec, now: int, nonce: seq<byte>,
    entityType: string, id: int, version: int, purpose: string, lifetime: int) returns (payload: seq<byte>)
    requires codec.Valid() && IsTime(now)
    ensures var r := EncodeReference(aead, utf8, codec, now, nonce, entityType, id, version, purpose, lifetime);
      var claims := Claims(entityType, id, version, now, now + lifetime, purpose, 0);
      if !Acceptable(entityType, id, version, lifetime) then r == Err(Invalid)
      else if |nonce| != 12 then r == Err(BadNonce)
      else if now + lifetime > LAST_MICROSECOND then r == Err(TimeOverflow)
      else if !TextFits(utf8, entityType) || !TextFits(utf8, purpose) then r == Err(Unencodable(TextTooLong))
      else r.Ok? && NumbersFit(claims) && IsPayload(utf8, claims, payload) && IsToken(aead, codec, nonce, payload, r.value)
  {
    payload := [];
    if Acceptable(entityType, id, version, lifetime) && now + lifetime <= LAST_MICROSECOND {
      var claims := Claims(entityType, id, version, now, now + lifetime, purpose, 0);
      TimesFit(now);
      TimesFit(now + lifetime);
      EncodeClaimsIs(utf8, claims);
      FourBytesAre(codec.activeKeyVersion);
      LabelIs();
      if EncodeClaims(utf8, claims).Ok? {
        payload := EncodeClaims(utf8, claims).value;
      }
    }
  }

  function KeyVersion(envelope: seq<byte>): nat
    requires |envelope| >= 4
  {
    (envelope[0] as nat) * 0x100_0000 + (envelope[1] as nat) * 0x1_0000 + (envelope[2] as nat) * 0x100 + envelope[3]
  }

  lemma {:induction false} KeyVersionIs(envelope: seq<byte>)
    requires |envelope| >= 4
    ensures FromBigEndian(envelope[..4]) == KeyVersion(envelope)
  {
    var b := envelope[..4];
    assert b[..3][..2] == b[..2] && b[..2][..1] == b[..1] && b[..1][..0] == [];
    assert b[3] == envelope[3] && b[..3][2] == envelope[2] && b[..2][1] == envelope[1] && b[..1][0] == envelope[0];
    assert FromBigEndian(b[..1]) == envelope[0];
    assert FromBigEndian(b[..2]) == 256 * (envelope[0] as nat) + envelope[1];
    assert FromBigEndian(b[..3]) == 256 * (256 * (envelope[0] as nat) + envelope[1]) + envelope[2];
  }

  /** What a token holds under one of the codec's keys. */
  ghost predicate Holds(aead: Aead, codec: Codec, token: string, keyVersion: nat, payload: seq<byte>) {
    exists envelope ::
      && |token| >= 5 && token[..5] == "tqr1." && Base64Url.Decode(token[5..]) == Some(envelope)
      && |envelope| >= 32 && KeyVersion(envelope) == keyVersion && keyVersion in codec.keys
      && aead.decrypt(codec.keys[keyVersion], envelope[4..16], envelope[16..], Ascii(LABEL)) == Some(payload)
  }

  /** Neither expired, nor issued more than a minute ahead, and meant for this type and purpose. */
  predicate IsCurrent(claims: Claims, now: int, expectedType: string, purpose: string) {
    && claims.expiresAt > now && claims.issuedAt <= now + 60_000_000
    && claims.entityType == expectedType && claims.purpose == purpose
  }

  /** The envelope behind the prefix, if the text is one and can be opened under a key of the ring. */
  function Envelope(codec: Codec, token: string): Option<seq<byte>> {
    if |token| >= 5 && token[..5] == "tqr1." then
      var envelope := Base64Url.Decode(token[5..]);
      if envelope.Some? && |envelope.value| >= 32 && KeyVersion(envelope.value) in codec.keys then envelope else None
    else None
  }

  lemma {:induction false} UnopenedIs(
    aead: Aead, utf8: Utf8, codec: Codec, now: int, token: string, expectedType: string, purpose: string)
    requires Envelope(codec, token).None?
    ensures DecodeReference(aead, utf8, codec, now, token, expectedType, purpose) == Err(Invalid)
    ensures forall keyVersion, payload :: !Holds(aead, codec, token, keyVersion, payload)
  {
    assert PREFIX <= token <==> |token| >= 5 && token[..5] == "tqr1.";
    if |token| >= 5 && token[..5] == "tqr1." && Base64Url.Decode(token[5..]).Some? {
      var envelope := Base64Url.Decode(token[5..]).value;
      if |envelope| >= 32 {
        KeyVersionIs(envelope);
      }
    }
  }

  lemma {:induction false} OpenedIs(
    aead: Aead, utf8: Utf8, codec: Codec, now: int, token: string, expectedType: string, purpose: string)
    requires Envelope(codec, token).Some?
    ensures var envelope := Envelope(codec, token).value;
      var plaintext := aead.decrypt(codec.keys[KeyVersion(envelope)], envelope[4..16], envelope[16..], Ascii(LABEL));
      && (forall keyVersion, payload :: Holds(aead, codec, token, keyVersion, payload)
            <==> keyVersion == KeyVersion(envelope) && Some(payload) == plaintext)
      && DecodeReference(aead, utf8, codec, now, token, expectedType, purpose)
         == if plaintext.None? || DecodeClaims(utf8, plaintext.value).None? then Err(Invalid)
            else CheckDecoded(DecodeClaims(utf8, plaintext.value).value.(keyVersion := KeyVersion(envelope)), now,
                              expectedType, purpose)
  {
    LabelIs();
    KeyVersionIs(Envelope(codec, token).value);
    assert PREFIX <= token;
  }

  lemma {:induction false} CheckIs(claims: Claims, now: int, expectedType: string, purpose: string)
    ensures CheckDecoded(claims, now, expectedType, purpose)
         == if claims.expiresAt > now && now + 60_000_000 > LAST_MICROSECOND then Err(TimeOverflow)
            else if IsCurrent(claims, now, expectedType, purpose) then Ok(claims) else Err(Invalid)
  {
  }

  /**
    The token holds, under this key of the ring, the encoding of the claims, which can be read; they carry the key's
    version and are current.
   */
  ghost predicate Accepts(
    aead: Aead, utf8: Utf8, codec: Codec, now: int, token: string, expectedType: string, purpose: string, claims: Claims)
  {
    && now + 60_000_000 <= LAST_MICROSECOND && IsCurrent(claims, now, expectedType, purpose)
    && exists payload ::
         Holds(aead, codec, token, claims.keyVersion, payload) && IsEncoded(utf8, claims.(keyVersion := 0), payload)
  }

  lemma {:induction false} DecodedIsAccepted(
    aead: Aead, utf8: Utf8, codec: Codec, now: int, token: string, expectedType: string, purpose: string, claims: Claims)
    requires utf8.Exact() && DecodeReference(aead, utf8, codec, now, token, expectedType, purpose) == Ok(claims)
    ensures Accepts(aead, utf8, codec, now, token, expectedType, purpose, claims)
  {
    if Envelope(codec, token).None? {
      UnopenedIs(aead, utf8, codec, now, token, expectedType, purpose);
      assert false;
    }
    var envelope := Envelope(codec, token).value;
    OpenedIs(aead, utf8, codec, now, token, expectedType, purpose);
    var payload := aead.decrypt(codec.keys[KeyVersion(envelope)], envelope[4..16], envelope[16..], Ascii(LABEL)).value;
    var decoded := DecodeClaims(utf8, payload).value;
    DecodedAreReadable(utf8, payload);
    CheckIs(decoded.(keyVersion := KeyVersion(envelope)), now, expectedType, purpose);
    assert claims.(keyVersion := 0) == decoded;
    DecodeClaimsIff(utf8, payload, decoded);
    assert Holds(aead, codec, token, claims.keyVersion, payload);
  }

  lemma {:induction false} AcceptedIsDecoded(
    aead: Aead, utf8: Utf8, codec: Codec, now: int, token: string, expectedType: string, purpose: string, claims: Claims)
    requires utf8.Exact() && Accepts(aead, utf8, codec, now, token, expectedType, purpose, claims)
    ensures DecodeReference(aead, utf8, codec, now, token, expectedType, purpose) == Ok(claims)
  {
    var payload :| Holds(aead, codec, token, claims.keyVersion, payload)
      && IsEncoded(utf8, claims.(keyVersion := 0), payload);
    if Envelope(codec, token).None? {
      UnopenedIs(aead, utf8, codec, now, token, expectedType, purpose);
      assert false;
    }
    OpenedIs(aead, utf8, codec, now, token, expectedType, purpose);
    DecodeClaimsIff(utf8, payload, claims.(keyVersion := 0));
    CheckIs(claims, now, expectedType, purpose);
    assert claims.(keyVersion := 0).(keyVersion := claims.keyVersion) == claims;
  }

  /**
    Decoding, for every token: it is answered with these claims if and only if it is accepted as them. Every other
    token is refused as invalid, or for the clock in the last minute of the year 9999.
   */
  lemma {:induction false} DecodeReferenceIff(
    aead: Aead, utf8: Utf8, codec: Codec, now: int, token: string, expectedType: string, purpose: string, claims: Claims)
    requires utf8.Exact()
    ensures var r := DecodeReference(aead, utf8, codec, now, token, expectedType, purpose);
      && (r == Ok(claims) <==> Accepts(aead, utf8, codec, now, token, expectedType, purpose, claims))
      && (r.Err? ==> r == Err(Invalid) || (now + 60_000_000 > LAST_MICROSECOND && r == Err(TimeOverflow)))
  {
    if DecodeReference(aead, utf8, codec, now, token, expectedType, purpose) == Ok(claims) {
      DecodedIsAccepted(aead, utf8, codec, now, token, expectedType, purpose, claims);
    }
    if Accepts(aead, utf8, codec, now, token, expectedType, purpose, claims) {
      AcceptedIsDecoded(aead, utf8, codec, now, token, expectedType, purpose, claims);
    }
  }
}
