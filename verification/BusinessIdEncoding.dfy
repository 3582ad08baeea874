/** The whole encoder, told from its inputs: the bytes of the tweak, the rounds of the walk, and the six characters. */
module BusinessIdEncoding {
  import opened Outcomes
  import opened Bytes
  import opened Text
  import opened BusinessIdCore
  import opened BusinessIdCode
  import Base36
  import CycleWalking
  import Feistel

  // ----- the tweak

  /** Four bytes, the highest first. */
  function FourBytes(n: nat): seq<byte> {
    [n / 0x100_0000 % 256, n / 0x1_0000 % 256, n / 0x100 % 256, n % 256]
  }

  function LengthAndBytes(b: seq<byte>): seq<byte> {
    FourBytes(|b|) + b
  }

  function Ascii(text: string): seq<byte> {
    seq(|text|, i requires 0 <= i < |text| => text[i] as int % 256)
  }

  /** The magic text, a zero, the profile's number, the key version, and the four fields, each behind its length. */
  ghost predicate IsTweak(utf8: Utf8, scope: Scope, keyVersion: nat, tweak: seq<byte>) {
    tweak
    == Ascii("teaql-business-id-fp-v1") + [0] + [1] + FourBytes(keyVersion)
       + LengthAndBytes(utf8.encode(scope.domainRootKey)) + LengthAndBytes(utf8.encode(scope.aggregateType))
       + LengthAndBytes(utf8.encode(scope.namespace)) + LengthAndBytes(utf8.encode(scope.periodKey))
  }

  /** The lengths fit into four bytes. */
  predicate FieldsFit(utf8: Utf8, scope: Scope) {
    && |utf8.encode(scope.domainRootKey)| < 0x1_0000_0000 && |utf8.encode(scope.aggregateType)| < 0x1_0000_0000
    && |utf8.encode(scope.namespace)| < 0x1_0000_0000 && |utf8.encode(scope.periodKey)| < 0x1_0000_0000
  }

  lemma {:induction false} FourBytesAre(n: nat)
    ensures BigEndian(n, 4) == FourBytes(n)
  {
    assert n / 0x100 / 0x100 == n / 0x1_0000 && n / 0x1_0000 / 0x100 == n / 0x100_0000;
    var a := n / 256;
    var b := a / 256;
    var c := b / 256;
    assert BigEndian(c, 1) == [c % 256];
    assert BigEndian(b, 2) == [c % 256, b % 256];
    assert BigEndian(a, 3) == [c % 256, b % 256, a % 256];
  }

  lemma {:induction false} FramesAre(utf8: Utf8, scope: Scope)
    ensures FramedAll(utf8, scope.Fields()).Some? <==> FieldsFit(utf8, scope)
    ensures FieldsFit(utf8, scope) ==>
      FramedAll(utf8, scope.Fields()).value
      == LengthAndBytes(utf8.encode(scope.domainRootKey)) + LengthAndBytes(utf8.encode(scope.aggregateType))
         + LengthAndBytes(utf8.encode(scope.namespace)) + LengthAndBytes(utf8.encode(scope.periodKey))
  {
    FourFrames(utf8, scope.domainRootKey, scope.aggregateType, scope.namespace, scope.periodKey);
    FrameIs(utf8, scope.domainRootKey);
    FrameIs(utf8, scope.aggregateType);
    FrameIs(utf8, scope.namespace);
    FrameIs(utf8, scope.periodKey);
  }

  lemma {:induction false} FourFrames(utf8: Utf8, a: string, b: string, c: string, d: string)
    ensures var w, x, y, z := Framed(utf8, a), Framed(utf8, b), Framed(utf8, c), Framed(utf8, d);
      FramedAll(utf8, [a, b, c, d])
      == if w.None? || x.None? || y.None? || z.None? then None else Some(w.value + x.value + y.value + z.value)
  {
    assert [a, b, c, d][1..] == [b, c, d] && [b, c, d][1..] == [c, d] && [c, d][1..] == [d] && [d][1..] == [];
    assert FramedAll(utf8, []) == Some([]);
    OneMoreFrame(utf8, [d]);
    OneMoreFrame(utf8, [c, d]);
    OneMoreFrame(utf8, [b, c, d]);
    OneMoreFrame(utf8, [a, b, c, d]);
    var w, x, y, z := Framed(utf8, a), Framed(utf8, b), Framed(utf8, c), Framed(utf8, d);
    if w.Some? && x.Some? && y.Some? && z.Some? {
      FromTheRight(w.value, x.value, y.value, z.value);
    }
  }

  lemma {:induction false} FromTheRight(w: seq<byte>, x: seq<byte>, y: seq<byte>, z: seq<byte>)
    ensures w + (x + (y + (z + []))) == w + x + y + z
  {
  }

  lemma {:induction false} FrameIs(utf8: Utf8, text: string)
    ensures Framed(utf8, text)
         == if |utf8.encode(text)| < 0x1_0000_0000 then Some(LengthAndBytes(utf8.encode(text))) else None
  {
    FourBytesAre(|utf8.encode(text)|);
  }

  lemma {:induction false} OneMoreFrame(utf8: Utf8, texts: seq<string>)
    requires texts != []
    ensures var first, rest := Framed(utf8, texts[0]), FramedAll(utf8, texts[1..]);
      FramedAll(utf8, texts) == if first.None? || rest.None? then None else Some(first.value + rest.value)
  {
  }

  lemma {:induction false} MagicIs()
    ensures MAGIC == Ascii("teaql-business-id-fp-v1") + [0]
  {
  }

  /** The tweak, byte by byte; there is none exactly when a field's length does not fit. */
  lemma {:induction false} TweakIs(utf8: Utf8, scope: Scope, keyVersion: nat)
    ensures CanonicalTweak(utf8, scope, keyVersion).Some? <==> FieldsFit(utf8, scope)
    ensures FieldsFit(utf8, scope) ==> IsTweak(utf8, scope, keyVersion, CanonicalTweak(utf8, scope, keyVersion).value)
  {
    FramesAre(utf8, scope);
    if FieldsFit(utf8, scope) {
      TweakStartsWith(keyVersion);
      Associated(MAGIC + [1] + BigEndian(keyVersion, 4), utf8, scope);
    }
  }

  lemma {:induction false} TweakStartsWith(keyVersion: nat)
    ensures MAGIC + [1] + BigEndian(keyVersion, 4)
         == Ascii("teaql-business-id-fp-v1") + [0] + [1] + FourBytes(keyVersion)
  {
    FourBytesAre(keyVersion);
    MagicIs();
  }

  lemma {:induction false} Associated(front: seq<byte>, utf8: Utf8, scope: Scope)
    ensures front + (LengthAndBytes(utf8.encode(scope.domainRootKey)) + LengthAndBytes(utf8.encode(scope.aggregateType))
                     + LengthAndBytes(utf8.encode(scope.namespace)) + LengthAndBytes(utf8.encode(scope.periodKey)))
         == front + LengthAndBytes(utf8.encode(scope.domainRootKey)) + LengthAndBytes(utf8.encode(scope.aggregateType))
            + LengthAndBytes(utf8.encode(scope.namespace)) + LengthAndBytes(utf8.encode(scope.periodKey))
  {
  }

  // ----- the walk

  const LIMIT := 2_176_782_336

  /** Each number is the eight rounds of the one before. */
  ghost predicate AreSteps(hmac: Feistel.Hmac, key: seq<byte>, tweak: seq<byte>, words: seq<nat>,
      halves: seq<seq<Feistel.Half>>)
    requires |words| == |halves| + 1
  {
    forall i :: 0 <= i < |halves| ==> Feistel.IsPermuted(hmac, key, tweak, words[i], words[i + 1], halves[i])
  }

  /** From number to number by the eight rounds, outside the domain until the last one is inside. */
  ghost predicate IsWalk(hmac: Feistel.Hmac, key: seq<byte>, tweak: seq<byte>, words: seq<nat>,
      halves: seq<seq<Feistel.Half>>)
  {
    && |words| == |halves| + 1 >= 2
    && AreSteps(hmac, key, tweak, words, halves)
    && (forall i :: 0 < i < |halves| ==> words[i] >= LIMIT)
    && words[|halves|] < LIMIT
  }

  lemma {:induction false} OneMoreWord(hmac: Feistel.Hmac, key: seq<byte>, tweak: seq<byte>, words: seq<nat>,
      halves: seq<seq<Feistel.Half>>, word: nat, next: seq<Feistel.Half>)
    requires |words| == |halves| + 1 && AreSteps(hmac, key, tweak, words, halves)
    requires Feistel.IsPermuted(hmac, key, tweak, words[|halves|], word, next)
    ensures AreSteps(hmac, key, tweak, words + [word], halves + [next])
  {
    var w, h := words + [word], halves + [next];
    forall i | 0 <= i < |h|
      ensures Feistel.IsPermuted(hmac, key, tweak, w[i], w[i + 1], h[i])
    {
      if i < |halves| {
        assert w[i] == words[i] && w[i + 1] == words[i + 1] && h[i] == halves[i];
      }
    }
  }

  /** The words and halves of the first `n` applications. */
  lemma {:induction false} WalkIs(hmac: Feistel.Hmac, key: seq<byte>, tweak: seq<byte>, sequence: nat, n: nat)
    returns (words: seq<nat>, halves: seq<seq<Feistel.Half>>)
    requires sequence < LIMIT
    ensures |words| == n + 1 && |halves| == n
    ensures forall i :: 0 <= i <= n ==> words[i] == Applied(hmac, key, tweak, i, sequence) < Feistel.WORD
    ensures AreSteps(hmac, key, tweak, words, halves)
  {
    if n == 0 {
      words, halves := [sequence], [];
    } else {
      var front, above := WalkIs(hmac, key, tweak, sequence, n - 1);
      var next := Feistel.PermutedIs(hmac, key, tweak, front[n - 1]);
      Feistel.PermutedIsBijective(hmac, key, tweak, front[n - 1]);
      var word := Applied(hmac, key, tweak, n, sequence);
      words, halves := front + [word], above + [next];
      OneMoreWord(hmac, key, tweak, front, above, word, next);
    }
  }

  // ----- the characters

  function Character(d: nat): char
    requires d < 36
  {
    if d < 10 then ('0' as int + d) as char else ('A' as int + d - 10) as char
  }

  /** Six base-36 digits, the highest first. */
  function SixCharacters(n: nat): string {
    [Character(n / 60_466_176 % 36), Character(n / 1_679_616 % 36), Character(n / 46_656 % 36),
     Character(n / 1_296 % 36), Character(n / 36 % 36), Character(n % 36)]
  }

  lemma {:induction false} CharacterIs(d: nat)
    requires d < 36
    ensures Base36.ALPHABET[d] == Character(d)
  {
    if d < 10 {
      assert Base36.ALPHABET[d] == ('0' as int + d) as char;
    } else {
      assert Base36.ALPHABET[d] == ('A' as int + d - 10) as char;
    }
  }

  lemma {:induction false} OneMoreDigit(n: nat, width: nat)
    ensures Base36.Digits(n, width + 1) == Base36.Digits(n / 36, width) + [Character(n % 36)]
  {
    CharacterIs(n % 36);
  }

  lemma {:induction false} DigitsAre(n: nat)
    ensures Base36.Digits(n, 6) == SixCharacters(n)
  {
    assert n / 36 / 36 == n / 1_296 && n / 1_296 / 36 == n / 46_656;
    assert n / 46_656 / 36 == n / 1_679_616 && n / 1_679_616 / 36 == n / 60_466_176;
    OneMoreDigit(n, 5);
    OneMoreDigit(n / 36, 4);
    OneMoreDigit(n / 1_296, 3);
    OneMoreDigit(n / 46_656, 2);
    OneMoreDigit(n / 1_679_616, 1);
    OneMoreDigit(n / 60_466_176, 0);
    assert Base36.Digits(n / 60_466_176 / 36, 0) == [];
  }

  // ----- the encoder

  /** The code is the six characters of the first number inside the domain on the walk from the sequence. */
  ghost predicate IsCodeFor(hmac: Feistel.Hmac, key: seq<byte>, tweak: seq<byte>, sequence: nat, code: string) {
    exists words: seq<nat>, halves: seq<seq<Feistel.Half>> ::
      IsWalk(hmac, key, tweak, words, halves) && words[0] == sequence && code == SixCharacters(words[|halves|])
  }

  lemma {:induction false} CodeIs(hmac: Feistel.Hmac, key: seq<byte>, tweak: seq<byte>, sequence: nat)
    requires sequence < LIMIT
    ensures IsCodeFor(hmac, key, tweak, sequence, CodeOf(hmac, key, tweak, sequence))
  {
    var f, g := Permutation(hmac, key, tweak), Inverse(hmac, key, tweak);
    FeistelIsPermutation(hmac, key, tweak);
    var n := CycleWalking.ReturnTime(f, g, Feistel.WORD, DOMAIN_SIZE, sequence);
    assert CycleWalking.ReturnsAfter(f, DOMAIN_SIZE, sequence, n);
    var words, halves := WalkIs(hmac, key, tweak, sequence, n);
    forall i | 0 < i < n
      ensures words[i] >= LIMIT
    {
      assert CycleWalking.Iterate(f, i, sequence) >= DOMAIN_SIZE;
    }
    DigitsAre(words[n]);
    assert IsWalk(hmac, key, tweak, words, halves);
  }

  /** Two walks from one number agree as far as both go. */
  lemma {:induction false} WalksAgree(hmac: Feistel.Hmac, key: seq<byte>, tweak: seq<byte>, words: seq<nat>,
      halves: seq<seq<Feistel.Half>>, others: seq<nat>, otherHalves: seq<seq<Feistel.Half>>, n: nat)
    requires IsWalk(hmac, key, tweak, words, halves) && IsWalk(hmac, key, tweak, others, otherHalves)
    requires words[0] == others[0] < LIMIT && n < |words| && n < |others|
    ensures words[n] == others[n] < Feistel.WORD
  {
    if n > 0 {
      WalksAgree(hmac, key, tweak, words, halves, others, otherHalves, n - 1);
      Feistel.PermutedIsOnly(hmac, key, tweak, words[n - 1], words[n], halves[n - 1]);
      Feistel.PermutedIsOnly(hmac, key, tweak, others[n - 1], others[n], otherHalves[n - 1]);
      Feistel.PermutedIsBijective(hmac, key, tweak, words[n - 1]);
    }
  }

  lemma {:induction false} WalksEndTogether(hmac: Feistel.Hmac, key: seq<byte>, tweak: seq<byte>, words: seq<nat>,
      halves: seq<seq<Feistel.Half>>, others: seq<nat>, otherHalves: seq<seq<Feistel.Half>>)
    requires IsWalk(hmac, key, tweak, words, halves) && IsWalk(hmac, key, tweak, others, otherHalves)
    requires words[0] == others[0] < LIMIT && |halves| <= |otherHalves|
    ensures words[|halves|] == others[|otherHalves|]
  {
    WalksAgree(hmac, key, tweak, words, halves, others, otherHalves, |halves|);
  }

  /** So a sequence has one code. */
  lemma {:induction false} CodeIsOnly(hmac: Feistel.Hmac, key: seq<byte>, tweak: seq<byte>, sequence: nat, code: string)
    requires sequence < LIMIT && IsCodeFor(hmac, key, tweak, sequence, code)
    ensures code == CodeOf(hmac, key, tweak, sequence)
  {
    CodeIs(hmac, key, tweak, sequence);
    var words: seq<nat>, halves: seq<seq<Feistel.Half>> :|
      IsWalk(hmac, key, tweak, words, halves) && words[0] == sequence && code == SixCharacters(words[|halves|]);
    var others: seq<nat>, otherHalves: seq<seq<Feistel.Half>> :|
      IsWalk(hmac, key, tweak, others, otherHalves) && others[0] == sequence
      && CodeOf(hmac, key, tweak, sequence) == SixCharacters(others[|otherHalves|]);
    if |halves| <= |otherHalves| {
      WalksEndTogether(hmac, key, tweak, words, halves, others, otherHalves);
    } else {
      WalksEndTogether(hmac, key, tweak, others, otherHalves, words, halves);
    }
  }

  /**
    The encoder from its inputs alone: a sequence outside [0, 36^6) or a field too long to frame is refused, and
    every other sequence gets the six characters at the end of its walk under the tweak of its scope.
   */
  lemma {:induction false} EncodedIs(hmac: Feistel.Hmac, utf8: Utf8, sequence: int, scope: Scope, key: EncodingKey)
    returns (tweak: seq<byte>)
    ensures !(0 <= sequence < LIMIT) ==> Encoded(hmac, utf8, sequence, scope, key) == Err(RangeExhausted)
    ensures 0 <= sequence < LIMIT && !FieldsFit(utf8, scope) ==>
      Encoded(hmac, utf8, sequence, scope, key) == Err(FramingOverflow)
    ensures 0 <= sequence < LIMIT && FieldsFit(utf8, scope) ==>
      && IsTweak(utf8, scope, key.version, tweak)
      && Encoded(hmac, utf8, sequence, scope, key).Ok?
      && IsCodeFor(hmac, key.key, tweak, sequence, Encoded(hmac, utf8, sequence, scope, key).value)
  {
    TweakIs(utf8, scope, key.version);
    tweak := [];
    if 0 <= sequence < LIMIT && FieldsFit(utf8, scope) {
      tweak := CanonicalTweak(utf8, scope, key.version).value;
      CodeIs(hmac, key.key, tweak, sequence);
    }
  }
}
