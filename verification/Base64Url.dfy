/** Unpadded base64url (RFC 4648, sections 3.2 and 5) over the standard encoder and its strict decoder. */
module Base64Url {
  import opened Outcomes
  import opened Bytes

  type Sextet = n: nat | n < 64

  const ALPHABET := "ABCDEFGHIJKLMNOPQRSTUVWXYZabcdefghijklmnopqrstuvwxyz0123456789-_"

  function CharOf(v: Sextet): (c: char)
    ensures c != '='
    ensures SextetOf(c) == Some(v)
  {
    if v < 26 then ('A' as int + v) as char
    else if v < 52 then ('a' as int + (v - 26)) as char
    else if v < 62 then ('0' as int + (v - 52)) as char
    else if v == 62 then '-'
    else '_'
  }

  /** The decoder maps the URL characters onto the standard ones, so it takes both. */
  function SextetOf(c: char): Option<Sextet> {
    if 'A' <= c <= 'Z' then Some(c as int - 'A' as int)
    else if 'a' <= c <= 'z' then Some(c as int - 'a' as int + 26)
    else if '0' <= c <= '9' then Some(c as int - '0' as int + 52)
    else if c == '-' || c == '+' then Some(62)
    else if c == '_' || c == '/' then Some(63)
    else None
  }

  /** The four sextets of three bytes. */
  function Quad(a: byte, b: byte, c: byte): (Sextet, Sextet, Sextet, Sextet) {
    (a / 4, a % 4 * 16 + b / 16, b % 16 * 4 + c / 64, c % 64)
  }

  /** The three bytes of four sextets. */
  function Triple(w: Sextet, x: Sextet, y: Sextet, z: Sextet): (byte, byte, byte) {
    (w * 4 + x / 16, x % 16 * 16 + y / 4, y % 4 * 64 + z)
  }

  lemma {:induction false} Sixteen(high: nat, low: nat)
    requires low < 16
    ensures (high * 16 + low) / 16 == high && (high * 16 + low) % 16 == low
  {
  }

  lemma {:induction false} Four(high: nat, low: nat)
    requires low < 4
    ensures (high * 4 + low) / 4 == high && (high * 4 + low) % 4 == low
  {
  }

  lemma {:induction false} QuadRoundTrip(a: byte, b: byte, c: byte)
    ensures var (w, x, y, z) := Quad(a, b, c); Triple(w, x, y, z) == (a, b, c)
  {
    Sixteen(a % 4, b / 16);
    Four(b % 16, c / 64);
  }

  /** Four characters for up to three bytes; missing bytes count as zero and their characters become padding. */
  function EncodeGroup(b: seq<byte>): (s: string)
    requires 1 <= |b| <= 3
    ensures |s| == 4
  {
    var (w, x, y, z) := Quad(b[0], if |b| > 1 then b[1] else 0, if |b| > 2 then b[2] else 0);
    [CharOf(w), CharOf(x), if |b| > 1 then CharOf(y) else '=', if |b| > 2 then CharOf(z) else '=']
  }

  function EncodePadded(b: seq<byte>): string {
    if b == [] then []
    else if |b| <= 3 then EncodeGroup(b)
    else EncodeGroup(b[..3]) + EncodePadded(b[3..])
  }

  /** `rstrip("=")` */
  function StripPadding(s: string): string {
    if s != [] && s[|s| - 1] == '=' then StripPadding(s[..|s| - 1]) else s
  }

  function Encode(b: seq<byte>): string {
    StripPadding(EncodePadded(b))
  }

  /** Three, two or one bytes, as the group ends in no, one or two padding characters. */
  function DecodeGroup(s: string, last: bool): Option<seq<byte>>
    requires |s| == 4
  {
    var a, b, c, d := SextetOf(s[0]), SextetOf(s[1]), SextetOf(s[2]), SextetOf(s[3]);
    if a.None? || b.None? then None
    else if c.Some? && d.Some? then
      var (x, y, z) := Triple(a.value, b.value, c.value, d.value); Some([x, y, z])
    else if last && c.Some? && s[3] == '=' then
      var (x, y, z) := Triple(a.value, b.value, c.value, 0); Some([x, y])
    else if last && s[2] == '=' && s[3] == '=' then
      var (x, y, z) := Triple(a.value, b.value, 0, 0); Some([x])
    else None
  }

  function DecodePadded(s: string): Option<seq<byte>> {
    if s == [] then Some([])
    else if |s| < 4 then None
    else
      var first := DecodeGroup(s[..4], |s| == 4);
      var rest := DecodePadded(s[4..]);
      if first.None? || rest.None? then None else Some(first.value + rest.value)
  }

  /** `"=" * (-len(value) % 4)` */
  function Padding(length: nat): string {
    var n := (4 - length % 4) % 4;
    seq(n, _ => '=')
  }

  function Decode(s: string): Option<seq<byte>> {
    DecodePadded(s + Padding(|s|))
  }

  lemma {:induction false} GroupRoundTrip(b: seq<byte>, last: bool)
    requires 1 <= |b| <= 3 && (|b| < 3 ==> last)
    ensures DecodeGroup(EncodeGroup(b), last) == Some(b)
  {
    QuadRoundTrip(b[0], if |b| > 1 then b[1] else 0, if |b| > 2 then b[2] else 0);
    assert b == if |b| == 1 then [b[0]] else if |b| == 2 then [b[0], b[1]] else [b[0], b[1], b[2]];
  }

  lemma {:induction false} DecodeConcat(head: string, tail: string)
    requires |head| == 4 && DecodeGroup(head, tail == []).Some? && DecodePadded(tail).Some?
    ensures DecodePadded(head + tail) == Some(DecodeGroup(head, tail == []).value + DecodePadded(tail).value)
  {
    assert (head + tail)[..4] == head && (head + tail)[4..] == tail;
  }

  lemma {:induction false} LastGroup(b: seq<byte>)
    requires 1 <= |b| <= 3
    ensures DecodePadded(EncodeGroup(b)) == Some(b)
  {
    GroupRoundTrip(b, true);
    var s := EncodeGroup(b);
    DecodeConcat(s, []);
    assert s + [] == s && b + [] == b;
  }

  lemma {:induction false} FirstGroup(b: seq<byte>, tail: string)
    requires |b| > 3 && DecodePadded(tail) == Some(b[3..])
    ensures DecodePadded(EncodeGroup(b[..3]) + tail) == Some(b)
  {
    GroupRoundTrip(b[..3], tail == []);
    DecodeConcat(EncodeGroup(b[..3]), tail);
    assert b[..3] + b[3..] == b;
  }

  lemma {:induction false} PaddedLength(b: seq<byte>)
    ensures |EncodePadded(b)| % 4 == 0
  {
    if |b| > 3 {
      PaddedLength(b[3..]);
    }
  }

  /** The padded text decodes to the bytes it was made from. */
  lemma {:induction false} PaddedRoundTrip(b: seq<byte>)
    ensures DecodePadded(EncodePadded(b)) == Some(b)
  {
    if b == [] {
    } else if |b| <= 3 {
      LastGroup(b);
    } else {
      PaddedRoundTrip(b[3..]);
      FirstGroup(b, EncodePadded(b[3..]));
    }
  }

  /** At most two characters are stripped, all of them padding. */
  lemma {:induction false} StrippedIsPadding(b: seq<byte>)
    ensures var s, t := EncodePadded(b), Encode(b);
      |t| <= |s| <= |t| + 2 && s == t + seq(|s| - |t|, _ => '=')
    ensures b != [] ==> Encode(b) != []
  {
    if b == [] {
      assert EncodePadded(b) == [];
    } else if |b| <= 3 {
      var s := EncodeGroup(b);
      if |b| == 3 {
        assert StripPadding(s) == s;
        assert s == s + seq(0, _ => '=');
      } else if |b| == 2 {
        assert s[..3][2] != '=';
        assert StripPadding(s) == StripPadding(s[..3]) == s[..3];
        assert s == s[..3] + seq(1, _ => '=');
      } else {
        assert s[..3][..2] == s[..2] && s[..2][1] != '=';
        assert StripPadding(s) == StripPadding(s[..3]) == StripPadding(s[..2]) == s[..2];
        assert s == s[..2] + seq(2, _ => '=');
      }
    } else {
      StrippedIsPadding(b[3..]);
      StripConcat(EncodeGroup(b[..3]), EncodePadded(b[3..]));
      var head, tail := EncodeGroup(b[..3]), EncodePadded(b[3..]);
      assert Encode(b) == head + Encode(b[3..]);
      assert head + tail == head + Encode(b[3..]) + seq(|tail| - |Encode(b[3..])|, _ => '=');
    }
  }

  lemma {:induction false} StripConcat(head: string, tail: string)
    requires StripPadding(tail) != []
    ensures StripPadding(head + tail) == head + StripPadding(tail)
  {
    var s := head + tail;
    if tail[|tail| - 1] == '=' {
      assert s[..|s| - 1] == head + tail[..|tail| - 1];
      StripConcat(head, tail[..|tail| - 1]);
    }
  }

  lemma {:induction false} PaddingIsRestored(s: string, t: string)
    requires |t| <= |s| <= |t| + 2 && s == t + seq(|s| - |t|, _ => '=') && |s| % 4 == 0
    ensures t + Padding(|t|) == s
  {
    assert |s| - |t| == (4 - |t| % 4) % 4;
  }

  /** For every byte string, of every length, the unpadded text decodes to it again. */
  lemma {:induction false} RoundTrip(b: seq<byte>)
    ensures Decode(Encode(b)) == Some(b)
  {
    PaddedRoundTrip(b);
    PaddedLength(b);
    StrippedIsPadding(b);
    PaddingIsRestored(EncodePadded(b), Encode(b));
  }
}
