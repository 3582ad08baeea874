/** The payload of an entity reference: length-prefixed texts around four big-endian 64-bit numbers. */
module ReferenceClaims {
  import opened Outcomes
  import opened Bytes
  import opened Text

  /** Times are microseconds since the epoch. */
  datatype Claims = Claims(entityType: string, id: int, version: int, issuedAt: int, expiresAt: int, purpose: string, keyVersion: nat)

  datatype EncodeError = TextTooLong | NumberOutOfRange

  const SECOND := 1_000_000

  // The first and the last second of the years 1 to 9999.
  const FIRST_SECOND := -62_135_596_800
  const LAST_SECOND := 253_402_300_799

  /** What the date and time type can represent. */
  predicate IsTime(t: int) {
    FIRST_SECOND * SECOND <= t < (LAST_SECOND + 1) * SECOND
  }

  /** `int(timestamp())` cuts towards zero. */
  function WholeSeconds(t: int): int {
    if t >= 0 then t / SECOND else -((-t) / SECOND)
  }

  function CutToSeconds(t: int): int {
    WholeSeconds(t) * SECOND
  }

  lemma {:induction false} TimesStayInRange(t: int)
    requires IsTime(t)
    ensures FIRST_SECOND <= WholeSeconds(t) <= LAST_SECOND
    ensures WholeSeconds(CutToSeconds(t)) == WholeSeconds(t) && IsTime(CutToSeconds(t))
  {
  }

  // ----- numbers

  const MODULUS := 0x1_0000_0000_0000_0000
  const SIGN := 0x8000_0000_0000_0000

  predicate FitsSigned(n: int) {
    -SIGN <= n < SIGN
  }

  /** Two's complement. */
  function Signed(n: int): (b: seq<byte>)
    requires FitsSigned(n)
    ensures |b| == 8
  {
    BigEndian(if n >= 0 then n else n + MODULUS, 8)
  }

  function FromSigned(b: seq<byte>): int {
    var n := FromBigEndian(b);
    if n < SIGN then n else n - MODULUS
  }

  lemma {:induction false} SignedRoundTrip(n: int)
    requires FitsSigned(n)
    ensures FromSigned(Signed(n)) == n
  {
    PackedWidths();
    BigEndianRoundTrip(if n >= 0 then n else n + MODULUS, 8);
  }

  lemma {:induction false} FromSignedRoundTrip(b: seq<byte>)
    requires |b| == 8
    ensures FitsSigned(FromSigned(b)) && Signed(FromSigned(b)) == b
  {
    PackedWidths();
    FromBigEndianRoundTrip(b);
  }

  // ----- texts

  function WriteText(utf8: Utf8, s: string): Option<seq<byte>> {
    var encoded := utf8.encode(s);
    if |encoded| > 0xFFFF then None else Some(BigEndian(|encoded|, 2) + encoded)
  }

  /** The text at the offset and the offset behind it. */
  function ReadText(utf8: Utf8, payload: seq<byte>, offset: nat): (r: Option<(string, nat)>)
    ensures r.Some? ==> offset + 2 <= r.value.1 <= |payload|
  {
    if offset + 2 > |payload| then None
    else
      var length := FromBigEndian(payload[offset..offset + 2]);
      if offset + 2 + length > |payload| then None
      else
        var s := utf8.decode(payload[offset + 2..offset + 2 + length]);
        if s.None? then None else Some((s.value, offset + 2 + length))
  }

  lemma {:induction false} ReadWritten(utf8: Utf8, s: string, before: seq<byte>, after: seq<byte>)
    requires utf8.Exact() && WriteText(utf8, s).Some?
    ensures var w := WriteText(utf8, s).value;
      ReadText(utf8, before + w + after, |before|) == Some((s, |before + w|))
  {
    var encoded, w := utf8.encode(s), WriteText(utf8, s).value;
    var payload := before + w + after;
    assert payload[|before|..|before| + 2] == BigEndian(|encoded|, 2);
    PackedWidths();
    BigEndianRoundTrip(|encoded|, 2);
    assert payload[|before| + 2..|before| + 2 + |encoded|] == encoded;
  }

  lemma {:induction false} WriteRead(utf8: Utf8, payload: seq<byte>, offset: nat)
    requires utf8.Exact() && ReadText(utf8, payload, offset).Some?
    ensures var (s, end) := ReadText(utf8, payload, offset).value;
      WriteText(utf8, s) == Some(payload[offset..end])
  {
    var lengthBytes := payload[offset..offset + 2];
    PackedWidths();
    FromBigEndianRoundTrip(lengthBytes);
    var (s, end) := ReadText(utf8, payload, offset).value;
    assert utf8.encode(s) == payload[offset + 2..end];
    assert payload[offset..end] == lengthBytes + payload[offset + 2..end];
  }

  /** A text that is read is read the same when more bytes follow. */
  lemma {:induction false} ReadTextIgnoresMore(utf8: Utf8, payload: seq<byte>, more: seq<byte>, offset: nat)
    requires ReadText(utf8, payload, offset).Some?
    ensures ReadText(utf8, payload + more, offset) == ReadText(utf8, payload, offset)
  {
    var end := ReadText(utf8, payload, offset).value.1;
    assert (payload + more)[offset..offset + 2] == payload[offset..offset + 2];
    assert (payload + more)[offset + 2..end] == payload[offset + 2..end];
  }

  // ----- claims

  function Numbers(c: Claims): (b: seq<byte>)
    requires FitsSigned(c.version) && FitsSigned(WholeSeconds(c.issuedAt))
      && FitsSigned(WholeSeconds(c.expiresAt)) && c.id >= 0
    ensures |b| == 32
  {
    BigEndian(c.id, 8) + Signed(c.version) + Signed(WholeSeconds(c.issuedAt)) + Signed(WholeSeconds(c.expiresAt))
  }

  function EncodeClaims(utf8: Utf8, c: Claims): Result<seq<byte>, EncodeError> {
    var entityType, purpose := WriteText(utf8, c.entityType), WriteText(utf8, c.purpose);
    if entityType.None? then Err(TextTooLong)
    else if !(0 <= c.id < MODULUS) || !FitsSigned(c.version)
            || !FitsSigned(WholeSeconds(c.issuedAt)) || !FitsSigned(WholeSeconds(c.expiresAt)) then Err(NumberOutOfRange)
    else if purpose.None? then Err(TextTooLong)
    else Ok(entityType.value + Numbers(c) + purpose.value)
  }

  function DecodeClaims(utf8: Utf8, payload: seq<byte>): Option<Claims> {
    var first := ReadText(utf8, payload, 0);
    if first.None? then None
    else
      var (entityType, offset) := first.value;
      if offset + 32 > |payload| then None
      else
        var id := FromBigEndian(payload[offset..offset + 8]);
        var version := FromSigned(payload[offset + 8..offset + 16]);
        var issuedAt := FromSigned(payload[offset + 16..offset + 24]);
        var expiresAt := FromSigned(payload[offset + 24..offset + 32]);
        var second := ReadText(utf8, payload, offset + 32);
        if second.None? then None
        else
          var (purpose, end) := second.value;
          if end != |payload| || entityType == "" || id == 0 then None
          else if !(FIRST_SECOND <= issuedAt <= LAST_SECOND) || !(FIRST_SECOND <= expiresAt <= LAST_SECOND) then None
          else Some(Claims(entityType, id, version, issuedAt * SECOND, expiresAt * SECOND, purpose, 0))
  }

  /** The claims as they come back: times in whole seconds, no key version. */
  function Cut(c: Claims): Claims {
    c.(issuedAt := CutToSeconds(c.issuedAt), expiresAt := CutToSeconds(c.expiresAt), keyVersion := 0)
  }

  lemma {:induction false} NumbersParts(c: Claims)
    requires FitsSigned(c.version) && FitsSigned(WholeSeconds(c.issuedAt))
      && FitsSigned(WholeSeconds(c.expiresAt)) && 0 <= c.id < MODULUS
    ensures var b := Numbers(c);
      && FromBigEndian(b[0..8]) == c.id && FromSigned(b[8..16]) == c.version
      && FromSigned(b[16..24]) == WholeSeconds(c.issuedAt) && FromSigned(b[24..32]) == WholeSeconds(c.expiresAt)
  {
    var b := Numbers(c);
    PackedWidths();
    BigEndianRoundTrip(c.id, 8);
    SignedRoundTrip(c.version);
    SignedRoundTrip(WholeSeconds(c.issuedAt));
    SignedRoundTrip(WholeSeconds(c.expiresAt));
    assert b[0..8] == BigEndian(c.id, 8) && b[8..16] == Signed(c.version);
    assert b[16..24] == Signed(WholeSeconds(c.issuedAt)) && b[24..32] == Signed(WholeSeconds(c.expiresAt));
  }

  /** What was encoded decodes to itself, cut to whole seconds, exactly when it names a type and an id. */
  lemma {:induction false} DecodeEncoded(utf8: Utf8, c: Claims)
    requires utf8.Exact() && IsTime(c.issuedAt) && IsTime(c.expiresAt) && EncodeClaims(utf8, c).Ok?
    ensures DecodeClaims(utf8, EncodeClaims(utf8, c).value)
         == if c.entityType != "" && c.id != 0 then Some(Cut(c)) else None
  {
    var first, numbers, last := WriteText(utf8, c.entityType).value, Numbers(c), WriteText(utf8, c.purpose).value;
    var payload := EncodeClaims(utf8, c).value;
    assert payload == [] + first + (numbers + last);
    ReadWritten(utf8, c.entityType, [], numbers + last);
    assert [] + first == first;
    assert payload == (first + numbers) + last + [];
    ReadWritten(utf8, c.purpose, first + numbers, []);
    NumbersParts(c);
    var offset := |first|;
    assert payload == first + numbers + last;
    SliceOfMiddle(first, numbers, last, 0, 8);
    SliceOfMiddle(first, numbers, last, 8, 16);
    SliceOfMiddle(first, numbers, last, 16, 24);
    SliceOfMiddle(first, numbers, last, 24, 32);
    TimesStayInRange(c.issuedAt);
    TimesStayInRange(c.expiresAt);
  }

  /** Four numbers are read from 32 bytes, and written back they are those bytes. */
  lemma {:induction false} NumbersRead(c: Claims, b: seq<byte>)
    requires |b| == 32 && c.id == FromBigEndian(b[..8]) && c.version == FromSigned(b[8..16])
    requires WholeSeconds(c.issuedAt) == FromSigned(b[16..24]) && WholeSeconds(c.expiresAt) == FromSigned(b[24..])
    ensures c.id < MODULUS && FitsSigned(c.version) && FitsSigned(WholeSeconds(c.issuedAt))
      && FitsSigned(WholeSeconds(c.expiresAt))
    ensures Numbers(c) == b
  {
    PackedWidths();
    FromBigEndianRoundTrip(b[..8]);
    FromSignedRoundTrip(b[8..16]);
    FromSignedRoundTrip(b[16..24]);
    FromSignedRoundTrip(b[24..]);
    assert b == b[..8] + b[8..16] + b[16..24] + b[24..];
  }

  /** What an accepted payload consists of. */
  lemma {:induction false} DecodedParts(utf8: Utf8, payload: seq<byte>) returns (offset: nat)
    requires DecodeClaims(utf8, payload).Some?
    ensures var c := DecodeClaims(utf8, payload).value;
      && offset + 32 <= |payload|
      && ReadText(utf8, payload, 0) == Some((c.entityType, offset))
      && ReadText(utf8, payload, offset + 32) == Some((c.purpose, |payload|))
      && c.id == FromBigEndian(payload[offset..offset + 8]) && c.version == FromSigned(payload[offset + 8..offset + 16])
      && WholeSeconds(c.issuedAt) == FromSigned(payload[offset + 16..offset + 24])
      && WholeSeconds(c.expiresAt) == FromSigned(payload[offset + 24..offset + 32])
  {
    offset := ReadText(utf8, payload, 0).value.1;
  }

  /** Every accepted payload is the encoding of the claims it decodes to. */
  lemma {:induction false} EncodeDecoded(utf8: Utf8, payload: seq<byte>)
    requires utf8.Exact() && DecodeClaims(utf8, payload).Some?
    ensures EncodeClaims(utf8, DecodeClaims(utf8, payload).value) == Ok(payload)
  {
    var offset := DecodedParts(utf8, payload);
    PartsEncode(utf8, payload, DecodeClaims(utf8, payload).value, offset);
  }

  lemma {:induction false} ThreeSlices(b: seq<byte>, i: nat, j: nat)
    requires i <= j <= |b|
    ensures b == b[0..i] + b[i..j] + b[j..|b|]
  {
  }

  lemma {:induction false} PartsEncode(utf8: Utf8, payload: seq<byte>, c: Claims, offset: nat)
    requires utf8.Exact() && offset + 32 <= |payload|
    requires ReadText(utf8, payload, 0) == Some((c.entityType, offset))
    requires ReadText(utf8, payload, offset + 32) == Some((c.purpose, |payload|))
    requires c.id == FromBigEndian(payload[offset..offset + 8])
      && c.version == FromSigned(payload[offset + 8..offset + 16])
    requires WholeSeconds(c.issuedAt) == FromSigned(payload[offset + 16..offset + 24])
    requires WholeSeconds(c.expiresAt) == FromSigned(payload[offset + 24..offset + 32])
    ensures EncodeClaims(utf8, c) == Ok(payload)
  {
    var b := payload[offset..offset + 32];
    assert b[..8] == b[0..8] && b[24..] == b[24..32];
    SliceOfSlice(payload, offset, offset + 32, 0, 8);
    SliceOfSlice(payload, offset, offset + 32, 8, 16);
    SliceOfSlice(payload, offset, offset + 32, 16, 24);
    SliceOfSlice(payload, offset, offset + 32, 24, 32);
    NumbersRead(c, b);
    WriteRead(utf8, payload, 0);
    WriteRead(utf8, payload, offset + 32);
    ThreeSlices(payload, offset, offset + 32);
  }

  /** No accepted payload is accepted with bytes appended. */
  lemma {:induction false} NoTrailingBytes(utf8: Utf8, payload: seq<byte>, more: seq<byte>)
    requires DecodeClaims(utf8, payload).Some? && more != []
    ensures DecodeClaims(utf8, payload + more).None?
  {
    ReadTextIgnoresMore(utf8, payload, more, 0);
    var offset := ReadText(utf8, payload, 0).value.1;
    ReadTextIgnoresMore(utf8, payload, more, offset + 32);
  }
}
