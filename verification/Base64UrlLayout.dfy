/** Unpadded base64url character by character: which text a byte string becomes, and which texts are accepted as what. */
module Base64UrlLayout {
  import opened Outcomes
  import opened Bytes
  import opened Base64Url

  // ----- six bits at a time

  /** A byte, or zero beyond the end. */
  function At(b: seq<byte>, k: nat): nat {
    if k < |b| then b[k] else 0
  }

  /** The six bits that character `i` stands for. */
  function SixBits(b: seq<byte>, i: nat): nat {
    var k := 3 * (i / 4);
    match i % 4
    case 0 => At(b, k) / 4
    case 1 => At(b, k) % 4 * 16 + At(b, k + 1) / 16
    case 2 => At(b, k + 1) % 16 * 4 + At(b, k + 2) / 64
    case _ => At(b, k + 2) % 64
  }

  /** The URL alphabet of RFC 4648, section 5. */
  predicate IsUrlCharacter(v: nat, c: char) {
    if v < 26 then c as int == 'A' as int + v
    else if v < 52 then c as int == 'a' as int + v - 26
    else if v < 62 then c as int == '0' as int + v - 52
    else if v == 62 then c == '-'
    else v == 63 && c == '_'
  }

  lemma {:induction false} CharacterIs(v: Sextet)
    ensures IsUrlCharacter(v, CharOf(v)) && CharOf(v) != '='
  {
  }

  function EncodedLength(n: nat): nat {
    (4 * n + 2) / 3
  }

  predicate SpelledAt(b: seq<byte>, i: nat, c: char) {
    IsUrlCharacter(SixBits(b, i), c)
  }

  /** Text that spells the bytes, six bits a character. */
  ghost predicate Spells(b: seq<byte>, s: string) {
    |s| == EncodedLength(|b|) && forall i :: 0 <= i < |s| ==> SpelledAt(b, i, s[i])
  }

  lemma {:induction false} GroupBits(b: seq<byte>)
    requires 1 <= |b| <= 3
    ensures var (w, x, y, z) := Quad(b[0], if |b| > 1 then b[1] else 0, if |b| > 2 then b[2] else 0);
      SixBits(b, 0) == w && SixBits(b, 1) == x && SixBits(b, 2) == y && SixBits(b, 3) == z
  {
    assert At(b, 0) == b[0] && At(b, 1) == (if |b| > 1 then b[1] else 0) && At(b, 2) == if |b| > 2 then b[2] else 0;
  }

  lemma {:induction false} GroupSpells(b: seq<byte>)
    requires 1 <= |b| <= 3
    ensures Spells(b, EncodeGroup(b)[..|b| + 1])
  {
    var (w, x, y, z) := Quad(b[0], if |b| > 1 then b[1] else 0, if |b| > 2 then b[2] else 0);
    GroupBits(b);
    CharacterIs(w);
    CharacterIs(x);
    CharacterIs(y);
    CharacterIs(z);
    var s := EncodeGroup(b);
    assert SpelledAt(b, 0, s[0]) && SpelledAt(b, 1, s[1]);
    assert |b| > 1 ==> SpelledAt(b, 2, s[2]);
    assert |b| > 2 ==> SpelledAt(b, 3, s[3]);
  }

  lemma {:induction false} LaterBits(b: seq<byte>, i: nat)
    requires |b| > 3
    ensures SixBits(b, i + 4) == SixBits(b[3..], i)
  {
    assert (i + 4) / 4 == i / 4 + 1 && (i + 4) % 4 == i % 4;
    var k := 3 * (i / 4);
    assert 3 * ((i + 4) / 4) == k + 3;
    assert At(b, k + 3) == At(b[3..], k) && At(b, k + 4) == At(b[3..], k + 1) && At(b, k + 5) == At(b[3..], k + 2);
  }

  lemma {:induction false} EarlierBits(b: seq<byte>, i: nat)
    requires |b| > 3 && i < 4
    ensures SixBits(b, i) == SixBits(b[..3], i)
  {
    assert At(b, 0) == At(b[..3], 0) && At(b, 1) == At(b[..3], 1) && At(b, 2) == At(b[..3], 2);
  }

  lemma {:induction false} SpellsTogether(b: seq<byte>, head: string, tail: string)
    requires |b| > 3 && Spells(b[..3], head) && Spells(b[3..], tail)
    ensures Spells(b, head + tail)
  {
    forall i | 0 <= i < |head + tail|
      ensures SpelledAt(b, i, (head + tail)[i])
    {
      if i < 4 {
        EarlierBits(b, i);
        assert SpelledAt(b[..3], i, head[i]);
      } else {
        LaterBits(b, i - 4);
        assert SpelledAt(b[3..], i - 4, tail[i - 4]);
      }
    }
  }

  lemma {:induction false} ShortIsStripped(b: seq<byte>)
    requires 1 <= |b| <= 3
    ensures Encode(b) == EncodeGroup(b)[..|b| + 1]
  {
    var s := EncodeGroup(b);
    assert EncodePadded(b) == s;
    if |b| == 3 {
      assert StripPadding(s) == s && s[..4] == s;
    } else if |b| == 2 {
      assert s[..3][2] != '=' && StripPadding(s[..3]) == s[..3];
    } else {
      assert s[..3][..2] == s[..2] && s[..2][1] != '=';
      assert StripPadding(s[..3]) == StripPadding(s[..2]) == s[..2];
    }
  }

  /** Every byte string is spelled out, and nothing is added. */
  lemma {:induction false} EncodeSpells(b: seq<byte>)
    ensures Spells(b, Encode(b))
  {
    if b == [] {
      assert EncodePadded(b) == [];
    } else if |b| <= 3 {
      GroupSpells(b);
      ShortIsStripped(b);
    } else {
      EncodeSpells(b[3..]);
      GroupSpells(b[..3]);
      StrippedIsPadding(b[3..]);
      StripConcat(EncodeGroup(b[..3]), EncodePadded(b[3..]));
      assert EncodeGroup(b[..3])[..4] == EncodeGroup(b[..3]);
      SpellsTogether(b, EncodeGroup(b[..3]), Encode(b[3..]));
    }
  }

  // ----- what is accepted

  /** The value of a character; the decoder takes the standard alphabet's last two as well. */
  predicate HasValue(c: char, v: nat) {
    IsUrlCharacter(v, c) || (v == 62 && c == '+') || (v == 63 && c == '/')
  }

  predicate IsCharacter(c: char) {
    'A' <= c <= 'Z' || 'a' <= c <= 'z' || '0' <= c <= '9' || c == '-' || c == '_' || c == '+' || c == '/'
  }

  lemma {:induction false} ValueIs(c: char)
    ensures SextetOf(c).Some? <==> IsCharacter(c)
    ensures SextetOf(c).Some? ==> HasValue(c, SextetOf(c).value)
  {
  }

  /** The character has these bits as its value; the last one of a short group only has them in its high bits. */
  predicate SpelledLoosely(b: seq<byte>, length: nat, i: nat, c: char) {
    exists v :: 0 <= v < 64 && HasValue(c, v) && Agrees(length, i, v, SixBits(b, i))
  }

  predicate Agrees(length: nat, i: nat, v: nat, bits: nat) {
    if i + 1 < length || length % 4 == 0 then v == bits
    else if length % 4 == 2 then v / 16 == bits / 16
    else v / 4 == bits / 4
  }

  /** Text that reads as the bytes: no group of one character, and all of them from the alphabet. */
  ghost predicate Reads(s: string, b: seq<byte>) {
    |s| % 4 != 1 && |b| == 3 * |s| / 4 && forall i :: 0 <= i < |s| ==> SpelledLoosely(b, |s|, i, s[i])
  }

  function Filler(n: nat): (s: string)
    ensures |s| == n
  {
    seq(n, _ => '=')
  }

  ghost predicate ReadsBeforeFiller(s: string, k: nat, b: seq<byte>) {
    k <= 2 && k <= |s| && s == s[..|s| - k] + Filler(k) && Reads(s[..|s| - k], b)
  }

  /** One group: its characters before the filler read as its bytes. */
  lemma {:induction false} GroupReads(s: string, last: bool) returns (k: nat)
    requires |s| == 4 && DecodeGroup(s, last).Some?
    ensures (!last ==> k == 0) && ReadsBeforeFiller(s, k, DecodeGroup(s, last).value)
  {
    ValueIs(s[0]);
    ValueIs(s[1]);
    ValueIs(s[2]);
    ValueIs(s[3]);
    var b := DecodeGroup(s, last).value;
    k := 3 - |b|;
    var w, x := SextetOf(s[0]).value, SextetOf(s[1]).value;
    var y := if SextetOf(s[2]).Some? then SextetOf(s[2]).value else 0;
    var z := if SextetOf(s[3]).Some? then SextetOf(s[3]).value else 0;
    if k == 0 {
      TripleBits(b, w, x, y, z);
    } else if k == 1 {
      TripleBits(b + [(y as nat) % 4 * 64], w, x, y, 0);
    } else {
      TripleBits(b + [(x as nat) % 16 * 16, 0], w, x, 0, 0);
    }
  }

  lemma {:induction false} TripleBits(b: seq<byte>, w: Sextet, x: Sextet, y: Sextet, z: Sextet)
    requires |b| == 3 && (b[0], b[1], b[2]) == Triple(w, x, y, z)
    ensures SixBits(b, 0) == w && SixBits(b, 1) == x && SixBits(b, 2) == y && SixBits(b, 3) == z
  {
    assert At(b, 0) == b[0] && At(b, 1) == b[1] && At(b, 2) == b[2];
  }

  lemma {:induction false} ReadsEarly(c: char, b: seq<byte>, rest: seq<byte>, length: nat, i: nat)
    requires |b| == 3 && i < 4 && SpelledLoosely(b, 4, i, c)
    ensures SpelledLoosely(b + rest, length, i, c)
  {
    SameEarlyBits(b, rest, i);
    var v :| 0 <= v < 64 && HasValue(c, v) && Agrees(4, i, v, SixBits(b, i));
    assert Agrees(length, i, v, SixBits(b + rest, i));
  }

  lemma {:induction false} ReadsLate(c: char, b: seq<byte>, rest: seq<byte>, length: nat, i: nat)
    requires |b| == 3 && rest != [] && SpelledLoosely(rest, length, i, c)
    ensures SpelledLoosely(b + rest, length + 4, i + 4, c)
  {
    assert (b + rest)[3..] == rest;
    LaterBits(b + rest, i);
    var v :| 0 <= v < 64 && HasValue(c, v) && Agrees(length, i, v, SixBits(rest, i));
    assert Agrees(length + 4, i + 4, v, SixBits(b + rest, i + 4));
  }

  lemma {:induction false} ReadsTogether(head: string, b: seq<byte>, tail: string, rest: seq<byte>)
    requires |head| == 4 && Reads(head, b) && Reads(tail, rest)
    ensures Reads(head + tail, b + rest)
  {
    forall i | 0 <= i < 4 + |tail|
      ensures SpelledLoosely(b + rest, |head + tail|, i, (head + tail)[i])
    {
      if i < 4 {
        ReadsEarly(head[i], b, rest, |head + tail|, i);
      } else {
        ReadsLate(tail[i - 4], b, rest, |tail|, i - 4);
      }
    }
  }

  lemma {:induction false} SameEarlyBits(b: seq<byte>, rest: seq<byte>, i: nat)
    requires |b| == 3 && i < 4
    ensures SixBits(b + rest, i) == SixBits(b, i)
  {
    assert (b + rest)[..3] == b;
    if rest == [] {
      assert b + rest == b;
    } else {
      EarlierBits(b + rest, i);
    }
  }

  lemma {:induction false} OneMoreGroupReads(head: string, b: seq<byte>, tail: string, rest: seq<byte>, k: nat)
    requires |head| == 4 && Reads(head, b) && ReadsBeforeFiller(tail, k, rest)
    ensures ReadsBeforeFiller(head + tail, k, b + rest)
  {
    var s, front := head + tail, tail[..|tail| - k];
    ReadsTogether(head, b, front, rest);
    assert s[..|s| - k] == head + front;
    assert s == head + (front + Filler(k)) == (head + front) + Filler(k);
  }

  lemma {:induction false} LastReads(s: string) returns (k: nat)
    requires |s| == 4 && DecodePadded(s).Some?
    ensures ReadsBeforeFiller(s, k, DecodePadded(s).value)
  {
    assert s[..4] == s && s[4..] == [];
    var first := DecodeGroup(s, true);
    assert first.value + [] == first.value;
    k := GroupReads(s, true);
  }

  lemma {:induction false} FirstReads(s: string)
    requires |s| > 4 && DecodePadded(s).Some?
    ensures DecodeGroup(s[..4], false).Some? && DecodePadded(s[4..]).Some?
    ensures DecodePadded(s).value == DecodeGroup(s[..4], false).value + DecodePadded(s[4..]).value
    ensures Reads(s[..4], DecodeGroup(s[..4], false).value)
  {
    var k := GroupReads(s[..4], false);
    assert s[..4][..4 - k] == s[..4];
  }

  lemma {:induction false} LongerReads(s: string, k: nat)
    requires |s| > 4 && DecodePadded(s).Some? && DecodePadded(s[4..]).Some?
    requires ReadsBeforeFiller(s[4..], k, DecodePadded(s[4..]).value)
    ensures ReadsBeforeFiller(s, k, DecodePadded(s).value)
  {
    FirstReads(s);
    OneMoreGroupReads(s[..4], DecodeGroup(s[..4], false).value, s[4..], DecodePadded(s[4..]).value, k);
    assert s == s[..4] + s[4..];
  }

  lemma {:induction false} NothingReads()
    ensures DecodePadded([]) == Some([]) && ReadsBeforeFiller([], 0, [])
  {
  }

  lemma {:induction false} PaddedReads(s: string) returns (k: nat)
    requires DecodePadded(s).Some?
    ensures ReadsBeforeFiller(s, k, DecodePadded(s).value)
  {
    if |s| < 4 {
      NothingReads();
      assert s == [];
      k := 0;
    } else if |s| == 4 {
      k := LastReads(s);
    } else {
      FirstReads(s);
      k := PaddedReads(s[4..]);
      LongerReads(s, k);
    }
  }

  lemma {:induction false} ReadsHasNoFiller(s: string, b: seq<byte>)
    requires Reads(s, b)
    ensures forall i :: 0 <= i < |s| ==> IsCharacter(s[i])
  {
    forall i | 0 <= i < |s|
      ensures IsCharacter(s[i])
    {
      assert SpelledLoosely(b, |s|, i, s[i]);
    }
  }

  /** What is accepted reads as the bytes it is accepted as, but for one or two filler characters at its end. */
  lemma {:induction false} DecodeReads(s: string) returns (k: nat)
    requires Decode(s).Some?
    ensures k <= 2 && k <= |s| && s == s[..|s| - k] + Filler(k) && Reads(s[..|s| - k], Decode(s).value)
  {
    var n := (4 - |s| % 4) % 4;
    var padded := s + Padding(|s|);
    var all := PaddedReads(padded);
    var body := padded[..|padded| - all];
    ReadsHasNoFiller(body, Decode(s).value);
    assert n > 0 ==> padded[|s|] == '=';
    assert n > all ==> body[|s|] == padded[|s|] && IsCharacter(body[|s|]);
    k := all - n;
    assert s == padded[..|s|] && s[..|s| - k] == body;
    forall i | |s| - k <= i < |s|
      ensures s[i] == '='
    {
      assert padded[i] == Filler(all)[i - |body|];
    }
  }

  /** Every text of the alphabet is accepted, unless a single character is left over at its end. */
  lemma {:induction false} AlphabetIsAccepted(s: string)
    requires |s| % 4 != 1 && forall i :: 0 <= i < |s| ==> IsCharacter(s[i])
    ensures Decode(s).Some?
    decreases |s|
  {
    PaddedIsAccepted(s, s + Padding(|s|));
  }

  lemma {:induction false} PaddedIsAccepted(s: string, padded: string)
    requires |s| % 4 != 1 && padded == s + Padding(|s|) && forall i :: 0 <= i < |s| ==> IsCharacter(s[i])
    ensures DecodePadded(padded).Some?
    decreases |s|
  {
    if s != [] {
      ValueIs(padded[0]);
      ValueIs(padded[1]);
      ValueIs(padded[2]);
      ValueIs(padded[3]);
      if |s| <= 4 {
        assert padded[..4] == padded && padded[4..] == [];
      } else {
        assert padded[4..] == s[4..] + Padding(|s| - 4);
        PaddedIsAccepted(s[4..], padded[4..]);
      }
    }
  }
}
