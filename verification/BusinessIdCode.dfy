/** Profile V1: from a sequence number to six characters, by a tweaked permutation walked into its domain. */
module BusinessIdCode {
  import opened Outcomes
  import opened Bytes
  import opened Text
  import opened BusinessIdCore
  import Base36
  import CycleWalking
  import Feistel

  const DOMAIN_SIZE := Base36.DOMAIN_SIZE
  const MAX_SEQUENCE := DOMAIN_SIZE - 1

  // The ASCII bytes of "teaql-business-id-fp-v1" and a zero byte.
  const MAGIC: seq<byte> := [
    116, 101, 97, 113, 108, 45, 98, 117, 115, 105, 110, 101,
    115, 115, 45, 105, 100, 45, 102, 112, 45, 118, 49, 0]

  // ----- the tweak

  /** A text behind its length in four bytes; `struct.pack` refuses longer texts. */
  function Framed(utf8: Utf8, text: string): Option<seq<byte>> {
    var encoded := utf8.encode(text);
    if |encoded| < 0x1_0000_0000 then Some(BigEndian(|encoded|, 4) + encoded) else None
  }

  function FramedAll(utf8: Utf8, texts: seq<string>): Option<seq<byte>> {
    if texts == [] then Some([])
    else
      var first, rest := Framed(utf8, texts[0]), FramedAll(utf8, texts[1..]);
      if first.None? || rest.None? then None else Some(first.value + rest.value)
  }

  function CanonicalTweak(utf8: Utf8, scope: Scope, keyVersion: nat): Option<seq<byte>> {
    var fields := FramedAll(utf8, scope.Fields());
    if fields.None? then None else Some(MAGIC + [1] + BigEndian(keyVersion, 4) + fields.value)
  }

  lemma {:induction false} FrameIsPrefixFree(utf8: Utf8, s: string, t: string, x: seq<byte>, y: seq<byte>)
    requires utf8.Exact() && Framed(utf8, s).Some? && Framed(utf8, t).Some?
    requires Framed(utf8, s).value + x == Framed(utf8, t).value + y
    ensures s == t && x == y
  {
    var a, b := utf8.encode(s), utf8.encode(t);
    var left, right := Framed(utf8, s).value + x, Framed(utf8, t).value + y;
    assert left[..4] == BigEndian(|a|, 4) && right[..4] == BigEndian(|b|, 4);
    PackedWidths();
    BigEndianRoundTrip(|a|, 4);
    BigEndianRoundTrip(|b|, 4);
    assert left[4..4 + |a|] == a && right[4..4 + |a|] == b;
    assert left[4 + |a|..] == x && right[4 + |a|..] == y;
    Utf8IsInjective(utf8, s, t);
  }

  lemma {:induction false} FramesAreInjective(utf8: Utf8, ss: seq<string>, ts: seq<string>)
    requires utf8.Exact() && |ss| == |ts|
    requires FramedAll(utf8, ss).Some? && FramedAll(utf8, ss) == FramedAll(utf8, ts)
    ensures ss == ts
  {
    if ss != [] {
      FrameIsPrefixFree(utf8, ss[0], ts[0], FramedAll(utf8, ss[1..]).value, FramedAll(utf8, ts[1..]).value);
      FramesAreInjective(utf8, ss[1..], ts[1..]);
      assert ss == [ss[0]] + ss[1..] && ts == [ts[0]] + ts[1..];
    }
  }

  /** Scopes or key versions that differ get different tweaks. */
  lemma {:induction false} TweakIsInjective(utf8: Utf8, s: Scope, v: nat, t: Scope, w: nat)
    requires utf8.Exact() && v < 0x1_0000_0000 && w < 0x1_0000_0000
    requires CanonicalTweak(utf8, s, v).Some? && CanonicalTweak(utf8, s, v) == CanonicalTweak(utf8, t, w)
    ensures s == t && v == w
  {
    var a, b := CanonicalTweak(utf8, s, v).value, CanonicalTweak(utf8, t, w).value;
    var x, y := FramedAll(utf8, s.Fields()).value, FramedAll(utf8, t.Fields()).value;
    var n := |MAGIC| + 1;
    assert a[n..n + 4] == BigEndian(v, 4) && b[n..n + 4] == BigEndian(w, 4);
    PackedWidths();
    BigEndianRoundTrip(v, 4);
    BigEndianRoundTrip(w, 4);
    assert a[n + 4..] == x && b[n + 4..] == y;
    FramesAreInjective(utf8, s.Fields(), t.Fields());
    assert s.Fields()[0] == t.Fields()[0] && s.Fields()[1] == t.Fields()[1];
    assert s.Fields()[2] == t.Fields()[2] && s.Fields()[3] == t.Fields()[3];
  }

  // ----- the code

  ghost function Permutation(hmac: Feistel.Hmac, key: seq<byte>, tweak: seq<byte>): nat -> nat {
    x => Feistel.Permuted(hmac, key, tweak, x)
  }

  ghost function Inverse(hmac: Feistel.Hmac, key: seq<byte>, tweak: seq<byte>): nat -> nat {
    x => Feistel.Unpermuted(hmac, key, tweak, x)
  }

  lemma {:induction false} FeistelIsPermutation(hmac: Feistel.Hmac, key: seq<byte>, tweak: seq<byte>)
    ensures CycleWalking.IsPermutation(Permutation(hmac, key, tweak), Inverse(hmac, key, tweak), Feistel.WORD)
    ensures CycleWalking.IsPermutation(Inverse(hmac, key, tweak), Permutation(hmac, key, tweak), Feistel.WORD)
  {
    forall x: nat | x < Feistel.WORD
      ensures Feistel.Permuted(hmac, key, tweak, x) < Feistel.WORD
        && Feistel.Unpermuted(hmac, key, tweak, x) < Feistel.WORD
      ensures Feistel.Unpermuted(hmac, key, tweak, Feistel.Permuted(hmac, key, tweak, x)) == x
      ensures Feistel.Permuted(hmac, key, tweak, Feistel.Unpermuted(hmac, key, tweak, x)) == x
    {
      Feistel.PermutedIsBijective(hmac, key, tweak, x);
    }
  }

  /** The code printed for a sequence number: the digits of its first return into the domain. */
  ghost function CodeOf(hmac: Feistel.Hmac, key: seq<byte>, tweak: seq<byte>, sequence: nat): (code: string)
    requires sequence < DOMAIN_SIZE
    ensures Base36.IsCode(code)
  {
    FeistelIsPermutation(hmac, key, tweak);
    var word := CycleWalking.FirstReturn(
      Permutation(hmac, key, tweak), Inverse(hmac, key, tweak), Feistel.WORD, DOMAIN_SIZE, sequence);
    Base36.DomainSize();
    Base36.DigitsRoundTrip(word, Base36.WIDTH);
    Base36.Digits(word, Base36.WIDTH)
  }

  lemma {:induction false} CodesAreDistinct(hmac: Feistel.Hmac, key: seq<byte>, tweak: seq<byte>, m: nat, n: nat)
    requires m < DOMAIN_SIZE && n < DOMAIN_SIZE
    ensures CodeOf(hmac, key, tweak, m) == CodeOf(hmac, key, tweak, n) ==> m == n
  {
    var f, g := Permutation(hmac, key, tweak), Inverse(hmac, key, tweak);
    FeistelIsPermutation(hmac, key, tweak);
    Base36.DomainSize();
    var x := CycleWalking.FirstReturn(f, g, Feistel.WORD, DOMAIN_SIZE, m);
    var y := CycleWalking.FirstReturn(f, g, Feistel.WORD, DOMAIN_SIZE, n);
    Base36.DigitsRoundTrip(x, Base36.WIDTH);
    Base36.DigitsRoundTrip(y, Base36.WIDTH);
    if x == y {
      CycleWalking.FirstReturnIsInjective(f, g, Feistel.WORD, DOMAIN_SIZE, m, n);
    }
  }

  /** Every six-character code belongs to some sequence number. */
  lemma {:induction false} EveryCodeHasASequence(hmac: Feistel.Hmac, key: seq<byte>, tweak: seq<byte>,
      code: string) returns (sequence: nat)
    requires Base36.IsCode(code)
    ensures sequence < DOMAIN_SIZE && CodeOf(hmac, key, tweak, sequence) == code
  {
    var f, g := Permutation(hmac, key, tweak), Inverse(hmac, key, tweak);
    FeistelIsPermutation(hmac, key, tweak);
    Base36.DomainSize();
    Base36.FromDigitsRoundTrip(code);
    var word := Base36.FromDigits(code);
    CycleWalking.FirstReturnIsSurjective(f, g, Feistel.WORD, DOMAIN_SIZE, word);
    sequence := CycleWalking.FirstReturn(g, f, Feistel.WORD, DOMAIN_SIZE, word);
  }

  /** What the encoder answers. */
  ghost function Encoded(hmac: Feistel.Hmac, utf8: Utf8, sequence: int, scope: Scope,
      key: EncodingKey): Result<string, ErrorCode> {
    if sequence < 0 || sequence >= DOMAIN_SIZE then Err(RangeExhausted)
    else
      var tweak := CanonicalTweak(utf8, scope, key.version);
      if tweak.None? then Err(FramingOverflow) else Ok(CodeOf(hmac, key.key, tweak.value, sequence))
  }

  /**
    The cycle-walking loop. It has no bound of its own; `steps` counts the applications, and the
    walk through numbers outside the domain is too short to go on for ever.
   */
  method Walk(hmac: Feistel.Hmac, key: seq<byte>, tweak: seq<byte>, sequence: nat) returns (word: nat, ghost steps: nat)
    requires sequence < DOMAIN_SIZE
    ensures CodeOf(hmac, key, tweak, sequence) == Base36.Digits(word, Base36.WIDTH)
    ensures steps <= Feistel.WORD - DOMAIN_SIZE + 1 == 2_118_184_961
  {
    var candidate := sequence;
    steps := 0;
    while true
      invariant candidate == Applied(hmac, key, tweak, steps, sequence)
      invariant steps <= Feistel.WORD - DOMAIN_SIZE
      invariant CycleWalking.StaysOutside(Permutation(hmac, key, tweak), DOMAIN_SIZE, sequence, steps)
      decreases Feistel.WORD - DOMAIN_SIZE - steps
    {
      candidate := Feistel.Permute32(hmac, key, tweak, candidate);
      steps := steps + 1;
      if candidate < DOMAIN_SIZE {
        break;
      }
      StillWalking(hmac, key, tweak, sequence, steps);
    }
    WalkedBack(hmac, key, tweak, sequence, steps);
    word := candidate;
  }

  /** The sequence number after `n` applications of the permutation. */
  ghost function Applied(hmac: Feistel.Hmac, key: seq<byte>, tweak: seq<byte>, n: nat, sequence: nat): (word: nat)
    ensures n > 0 ==> word == Feistel.Permuted(hmac, key, tweak, Applied(hmac, key, tweak, n - 1, sequence))
  {
    CycleWalking.Iterate(Permutation(hmac, key, tweak), n, sequence)
  }

  lemma {:induction false} StillWalking(hmac: Feistel.Hmac, key: seq<byte>, tweak: seq<byte>, sequence: nat, steps: nat)
    requires sequence < DOMAIN_SIZE && steps > 0 && Applied(hmac, key, tweak, steps, sequence) >= DOMAIN_SIZE
    requires CycleWalking.StaysOutside(Permutation(hmac, key, tweak), DOMAIN_SIZE, sequence, steps - 1)
    ensures CycleWalking.StaysOutside(Permutation(hmac, key, tweak), DOMAIN_SIZE, sequence, steps)
    ensures steps <= Feistel.WORD - DOMAIN_SIZE
  {
    var f := Permutation(hmac, key, tweak);
    assert CycleWalking.Iterate(f, steps, sequence) >= DOMAIN_SIZE;
    CycleWalking.OneMoreOutside(f, DOMAIN_SIZE, sequence, steps);
    FeistelIsPermutation(hmac, key, tweak);
    CycleWalking.WalkIsShort(f, Inverse(hmac, key, tweak), Feistel.WORD, DOMAIN_SIZE, sequence, steps);
  }

  lemma {:induction false} WalkedBack(hmac: Feistel.Hmac, key: seq<byte>, tweak: seq<byte>, sequence: nat, steps: nat)
    requires sequence < DOMAIN_SIZE && steps > 0 && Applied(hmac, key, tweak, steps, sequence) < DOMAIN_SIZE
    requires CycleWalking.StaysOutside(Permutation(hmac, key, tweak), DOMAIN_SIZE, sequence, steps - 1)
    ensures CodeOf(hmac, key, tweak, sequence) == Base36.Digits(Applied(hmac, key, tweak, steps, sequence), Base36.WIDTH)
  {
    var f, g := Permutation(hmac, key, tweak), Inverse(hmac, key, tweak);
    FeistelIsPermutation(hmac, key, tweak);
    CycleWalking.ReturnIsUnique(f, DOMAIN_SIZE, sequence, steps,
      CycleWalking.ReturnTime(f, g, Feistel.WORD, DOMAIN_SIZE, sequence));
  }

  method Encode(hmac: Feistel.Hmac, utf8: Utf8, sequence: int, scope: Scope, key: EncodingKey)
    returns (r: Result<string, ErrorCode>)
    ensures r == Encoded(hmac, utf8, sequence, scope, key)
  {
    if sequence < 0 || sequence >= DOMAIN_SIZE {
      return Err(RangeExhausted);
    }
    var tweak := CanonicalTweak(utf8, scope, key.version);
    if tweak.None? {
      return Err(FramingOverflow);
    }
    var word, steps := Walk(hmac, key.key, tweak.value, sequence);
    var code := Base36.Print(word);
    r := Ok(code);
  }
}
