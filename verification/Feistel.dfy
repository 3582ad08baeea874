/** The keyed permutation of 32-bit words: eight Feistel rounds whose round function is HMAC. */
module Feistel {
  import opened Bytes

  const HALF := 0x1_0000
  const WORD := 0x1_0000_0000
  const ROUNDS := 8

  type Half = n: nat | n < 0x1_0000

  /** HMAC cut to its first two bytes: any function of the key and the message. */
  type Hmac = (seq<byte>, seq<byte>) -> Half

  /** Bitwise exclusive or of the low `bits` bits. */
  function Xor(bits: nat, a: nat, b: nat): (r: nat)
    ensures bits == 16 ==> r < HALF
  {
    XorBound(bits, a, b);
    XorBits(bits, a, b)
  }

  function XorBits(bits: nat, a: nat, b: nat): nat {
    if bits == 0 then 0 else 2 * XorBits(bits - 1, a / 2, b / 2) + (a % 2 + b % 2) % 2
  }

  function Pow2(n: nat): nat {
    if n == 0 then 1 else 2 * Pow2(n - 1)
  }

  lemma {:induction false} XorBound(bits: nat, a: nat, b: nat)
    ensures XorBits(bits, a, b) < Pow2(bits)
    ensures bits == 16 ==> Pow2(bits) == HALF
  {
    if bits > 0 {
      XorBound(bits - 1, a / 2, b / 2);
    }
    if bits == 16 {
      assert Pow2(4) == 16 && Pow2(8) == 256 && Pow2(12) == 4096;
    }
  }

  /** Adding a bit twice brings the lowest bit back and leaves the others alone. */
  lemma {:induction false} BitCancels(high: nat, a: nat, b: nat)
    ensures (2 * high + (a % 2 + b % 2) % 2) / 2 == high
    ensures ((2 * high + (a % 2 + b % 2) % 2) % 2 + b % 2) % 2 == a % 2
  {
    assert a % 2 == 0 || a % 2 == 1;
    assert b % 2 == 0 || b % 2 == 1;
  }

  lemma {:induction false} XorCancels(bits: nat, a: nat, b: nat)
    requires a < Pow2(bits)
    ensures XorBits(bits, XorBits(bits, a, b), b) == a
  {
    if bits > 0 {
      var high := XorBits(bits - 1, a / 2, b / 2);
      var mixed := XorBits(bits, a, b);
      BitCancels(high, a, b);
      XorCancels(bits - 1, a / 2, b / 2);
      assert mixed / 2 == high;
    }
  }

  lemma {:induction false} Xor16Cancels(a: Half, b: Half)
    ensures Xor(16, Xor(16, a, b), b) == a
  {
    XorBound(16, a, b);
    XorCancels(16, a, b);
  }

  /** The two bytes of HMAC that round `round` mixes into the left half. */
  function RoundOutput(hmac: Hmac, key: seq<byte>, tweak: seq<byte>, round: nat, right: Half): Half
    requires round < ROUNDS
  {
    hmac(key, tweak + [round] + BigEndian(right, 2))
  }

  /** Both halves after the first `n` rounds. */
  function Forward(hmac: Hmac, key: seq<byte>, tweak: seq<byte>, n: nat, halves: (Half, Half)): (Half, Half)
    requires n <= ROUNDS
  {
    if n == 0 then halves
    else
      var (left, right) := Forward(hmac, key, tweak, n - 1, halves);
      (right, Xor(16, left, RoundOutput(hmac, key, tweak, n - 1, right)))
  }

  /** Undoes the first `n` rounds, last round first. */
  function Backward(hmac: Hmac, key: seq<byte>, tweak: seq<byte>, n: nat, halves: (Half, Half)): (Half, Half)
    requires n <= ROUNDS
  {
    if n == 0 then halves
    else
      var (left, right) := halves;
      Backward(hmac, key, tweak, n - 1, (Xor(16, right, RoundOutput(hmac, key, tweak, n - 1, left)), left))
  }

  lemma {:induction false} BackwardUndoesForward(hmac: Hmac, key: seq<byte>, tweak: seq<byte>, n: nat,
      halves: (Half, Half))
    requires n <= ROUNDS
    ensures Backward(hmac, key, tweak, n, Forward(hmac, key, tweak, n, halves)) == halves
  {
    if n > 0 {
      var (left, right) := Forward(hmac, key, tweak, n - 1, halves);
      Xor16Cancels(left, RoundOutput(hmac, key, tweak, n - 1, right));
      BackwardUndoesForward(hmac, key, tweak, n - 1, halves);
    }
  }

  lemma {:induction false} ForwardUndoesBackward(hmac: Hmac, key: seq<byte>, tweak: seq<byte>, n: nat,
      halves: (Half, Half))
    requires n <= ROUNDS
    ensures Forward(hmac, key, tweak, n, Backward(hmac, key, tweak, n, halves)) == halves
  {
    if n > 0 {
      var (left, right) := halves;
      var output := RoundOutput(hmac, key, tweak, n - 1, left);
      Xor16Cancels(right, output);
      ForwardUndoesBackward(hmac, key, tweak, n - 1, (Xor(16, right, output), left));
    }
  }

  function Split(value: nat): (Half, Half) {
    ((value / HALF) % HALF, value % HALF)
  }

  function Join(halves: (Half, Half)): (w: nat)
    ensures w < WORD
    ensures Split(w) == halves
  {
    halves.0 * HALF + halves.1
  }

  lemma {:induction false} JoinSplit(value: nat)
    requires value < WORD
    ensures Join(Split(value)) == value
  {
  }

  function Permuted(hmac: Hmac, key: seq<byte>, tweak: seq<byte>, value: nat): nat {
    Join(Forward(hmac, key, tweak, ROUNDS, Split(value)))
  }

  function Unpermuted(hmac: Hmac, key: seq<byte>, tweak: seq<byte>, value: nat): nat {
    Join(Backward(hmac, key, tweak, ROUNDS, Split(value)))
  }

  /** Whatever HMAC is, the eight rounds permute [0, 2^32): both functions stay inside and undo each other. */
  lemma {:induction false} PermutedIsBijective(hmac: Hmac, key: seq<byte>, tweak: seq<byte>, value: nat)
    requires value < WORD
    ensures Permuted(hmac, key, tweak, value) < WORD && Unpermuted(hmac, key, tweak, value) < WORD
    ensures Unpermuted(hmac, key, tweak, Permuted(hmac, key, tweak, value)) == value
    ensures Permuted(hmac, key, tweak, Unpermuted(hmac, key, tweak, value)) == value
  {
    JoinSplit(value);
    BackwardUndoesForward(hmac, key, tweak, ROUNDS, Split(value));
    ForwardUndoesBackward(hmac, key, tweak, ROUNDS, Split(value));
  }

  // ----- the rounds, bit by bit

  /** Bit `i` of a number, the lowest first. */
  function Bit(n: nat, i: nat): nat {
    if i == 0 then n % 2 else Bit(n / 2, i - 1)
  }

  lemma {:induction false} XorBit(bits: nat, a: nat, b: nat, i: nat)
    requires i < bits
    ensures Bit(XorBits(bits, a, b), i) == (Bit(a, i) + Bit(b, i)) % 2
  {
    BitCancels(XorBits(bits - 1, a / 2, b / 2), a, b);
    if i > 0 {
      XorBit(bits - 1, a / 2, b / 2, i - 1);
    }
  }

  /** The new half differs from the old one exactly in the bits that are set in the answer. */
  ghost predicate Flips(half: Half, answer: Half, flipped: Half) {
    forall i :: 0 <= i < 16 ==> Bit(flipped, i) == (Bit(half, i) + Bit(answer, i)) % 2
  }

  /**
    One round: the right half moves over, and the new right half is the left one flipped by what HMAC answers to
    the tweak, the number of the round, and the high and the low byte of the right half.
   */
  ghost predicate IsRound(hmac: Hmac, key: seq<byte>, tweak: seq<byte>, round: byte, left: Half, right: Half, next: Half) {
    Flips(left, hmac(key, tweak + [round, right / 256, right % 256]), next)
  }

  /** Ten halves: the two of the value, and one more for each of the eight rounds; the last two are the result. */
  ghost predicate IsPermuted(hmac: Hmac, key: seq<byte>, tweak: seq<byte>, value: nat, result: nat, halves: seq<Half>) {
    && |halves| == 10
    && halves[0] == value / 0x1_0000 && halves[1] == value % 0x1_0000
    && (forall i :: 0 <= i < 8 ==> IsRound(hmac, key, tweak, i, halves[i], halves[i + 1], halves[i + 2]))
    && result == (halves[8] as nat) * 0x1_0000 + halves[9]
  }

  lemma {:induction false} RoundIs(hmac: Hmac, key: seq<byte>, tweak: seq<byte>, round: nat, left: Half, right: Half)
    requires round < ROUNDS
    ensures IsRound(hmac, key, tweak, round, left, right, Xor(16, left, RoundOutput(hmac, key, tweak, round, right)))
  {
    var answer := RoundOutput(hmac, key, tweak, round, right);
    assert BigEndian(right, 2) == [right / 256, right % 256] by {
      assert BigEndian(right / 256, 1) == [right / 256];
    }
    assert tweak + [round] + [right / 256, right % 256] == tweak + [round, right / 256, right % 256];
    forall i | 0 <= i < 16
      ensures Bit(Xor(16, left, answer), i) == (Bit(left, i) + Bit(answer, i)) % 2
    {
      XorBit(16, left, answer, i);
    }
  }

  lemma {:induction false} RoundsAre(hmac: Hmac, key: seq<byte>, tweak: seq<byte>, n: nat, start: (Half, Half))
    returns (halves: seq<Half>)
    requires n <= ROUNDS
    ensures |halves| == n + 2 && halves[0] == start.0 && halves[1] == start.1
    ensures forall i :: 0 <= i < n ==> IsRound(hmac, key, tweak, i, halves[i], halves[i + 1], halves[i + 2])
    ensures Forward(hmac, key, tweak, n, start) == (halves[n], halves[n + 1])
  {
    if n == 0 {
      halves := [start.0, start.1];
    } else {
      var front := RoundsAre(hmac, key, tweak, n - 1, start);
      RoundIs(hmac, key, tweak, n - 1, front[n - 1], front[n]);
      halves := front + [Xor(16, front[n - 1], RoundOutput(hmac, key, tweak, n - 1, front[n]))];
    }
  }

  /** What the permutation computes, round by round, for every HMAC, key, tweak and 32-bit value. */
  lemma {:induction false} PermutedIs(hmac: Hmac, key: seq<byte>, tweak: seq<byte>, value: nat)
    returns (halves: seq<Half>)
    requires value < WORD
    ensures IsPermuted(hmac, key, tweak, value, Permuted(hmac, key, tweak, value), halves)
  {
    halves := RoundsAre(hmac, key, tweak, ROUNDS, Split(value));
  }

  lemma {:induction false} BitsDetermine(m: nat, n: nat, bits: nat)
    requires m < Pow2(bits) && n < Pow2(bits)
    requires forall i :: 0 <= i < bits ==> Bit(m, i) == Bit(n, i)
    ensures m == n
  {
    if bits > 0 {
      assert Bit(m, 0) == m % 2 && Bit(n, 0) == n % 2;
      forall i | 0 <= i < bits - 1
        ensures Bit(m / 2, i) == Bit(n / 2, i)
      {
        assert Bit(m, i + 1) == Bit(m / 2, i) && Bit(n, i + 1) == Bit(n / 2, i);
      }
      BitsDetermine(m / 2, n / 2, bits - 1);
    }
  }

  lemma {:induction false} RoundIsOnly(hmac: Hmac, key: seq<byte>, tweak: seq<byte>, round: byte, left: Half,
      right: Half, next: Half, other: Half)
    requires IsRound(hmac, key, tweak, round, left, right, next) && IsRound(hmac, key, tweak, round, left, right, other)
    ensures next == other
  {
    XorBound(16, 0, 0);
    BitsDetermine(next, other, 16);
  }

  lemma {:induction false} SameHalves(hmac: Hmac, key: seq<byte>, tweak: seq<byte>, value: nat, r: nat, s: nat,
      hs: seq<Half>, js: seq<Half>, n: nat)
    requires IsPermuted(hmac, key, tweak, value, r, hs) && IsPermuted(hmac, key, tweak, value, s, js) && n < 9
    ensures hs[n] == js[n] && hs[n + 1] == js[n + 1]
  {
    if n > 0 {
      SameHalves(hmac, key, tweak, value, r, s, hs, js, n - 1);
      assert IsRound(hmac, key, tweak, n - 1, hs[n - 1], hs[n], hs[n + 1]);
      assert IsRound(hmac, key, tweak, n - 1, js[n - 1], js[n], js[n + 1]);
      RoundIsOnly(hmac, key, tweak, n - 1, hs[n - 1], hs[n], hs[n + 1], js[n + 1]);
    }
  }

  /** The rounds leave no choice: they have one result. */
  lemma {:induction false} PermutedIsOnly(hmac: Hmac, key: seq<byte>, tweak: seq<byte>, value: nat, result: nat,
      halves: seq<Half>)
    requires value < WORD && IsPermuted(hmac, key, tweak, value, result, halves)
    ensures result == Permuted(hmac, key, tweak, value)
  {
    var others := PermutedIs(hmac, key, tweak, value);
    SameHalves(hmac, key, tweak, value, result, Permuted(hmac, key, tweak, value), halves, others, 8);
  }

  /** The program's loop over the eight rounds. */
  method Permute32(hmac: Hmac, key: seq<byte>, tweak: seq<byte>, value: nat) returns (word: nat)
    ensures word == Permuted(hmac, key, tweak, value)
  {
    var left: Half, right: Half := (value / HALF) % HALF, value % HALF;
    for round := 0 to ROUNDS
      invariant (left, right) == Forward(hmac, key, tweak, round, Split(value))
    {
      var output := RoundOutput(hmac, key, tweak, round, right);
      left, right := right, Xor(16, left, output) % HALF;
    }
    word := left * HALF + right;
  }
}
