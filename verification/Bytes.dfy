/** Byte strings and fixed-width big-endian numbers (the `struct` formats `>H`, `>I`, `>Q` and `>q`). */
module Bytes {

  type byte = n: int | 0 <= n < 256

  function Pow256(width: nat): (p: nat)
    ensures p > 0
  {
    if width == 0 then 1 else 256 * Pow256(width - 1)
  }

  /** The big-endian bytes of `n`, cut to `width` bytes. */
  function BigEndian(n: nat, width: nat): (b: seq<byte>)
    ensures |b| == width
  {
    if width == 0 then [] else BigEndian(n / 256, width - 1) + [n % 256]
  }

  function FromBigEndian(b: seq<byte>): nat {
    if b == [] then 0 else 256 * FromBigEndian(b[..|b| - 1]) + b[|b| - 1]
  }

  lemma {:induction false} BigEndianRoundTrip(n: nat, width: nat)
    requires n < Pow256(width)
    ensures FromBigEndian(BigEndian(n, width)) == n
  {
    if width > 0 {
      var high := BigEndian(n / 256, width - 1);
      LastByte(n, Pow256(width - 1));
      BigEndianRoundTrip(n / 256, width - 1);
      FromBigEndianAppend(high, n % 256);
    }
  }

  lemma {:induction false} LastByte(n: nat, p: nat)
    requires n < 256 * p
    ensures n / 256 < p && 256 * (n / 256) + n % 256 == n
  {
  }

  lemma {:induction false} FromBigEndianAppend(b: seq<byte>, last: byte)
    ensures FromBigEndian(b + [last]) == 256 * FromBigEndian(b) + last
  {
    assert (b + [last])[..|b|] == b;
  }

  lemma {:induction false} FromBigEndianRoundTrip(b: seq<byte>)
    ensures FromBigEndian(b) < Pow256(|b|)
    ensures BigEndian(FromBigEndian(b), |b|) == b
  {
    if b != [] {
      FromBigEndianRoundTrip(b[..|b| - 1]);
    }
  }

  lemma {:induction false} SliceOfSlice(b: seq<byte>, lo: nat, hi: nat, i: nat, j: nat)
    requires lo <= hi <= |b| && i <= j <= hi - lo
    ensures b[lo..hi][i..j] == b[lo + i..lo + j]
  {
    var s, t := b[lo..hi][i..j], b[lo + i..lo + j];
    assert forall k :: 0 <= k < j - i ==> s[k] == b[lo..hi][i + k] == t[k];
  }

  lemma {:induction false} SliceOfMiddle(before: seq<byte>, b: seq<byte>, after: seq<byte>, i: nat, j: nat)
    requires i <= j <= |b|
    ensures (before + b + after)[|before| + i..|before| + j] == b[i..j]
  {
    var s, t := (before + b + after)[|before| + i..|before| + j], b[i..j];
    assert forall k :: 0 <= k < j - i ==> s[k] == (before + b + after)[|before| + (i + k)] == t[k];
  }

  /** The four widths the program packs. */
  lemma {:induction false} PackedWidths()
    ensures Pow256(1) == 0x100
    ensures Pow256(2) == 0x1_0000
    ensures Pow256(4) == 0x1_0000_0000
    ensures Pow256(8) == 0x1_0000_0000_0000_0000
  {
    assert Pow256(1) == 256 && Pow256(2) == 256 * Pow256(1) && Pow256(3) == 256 * Pow256(2);
    assert Pow256(4) == 256 * Pow256(3) && Pow256(5) == 256 * Pow256(4) && Pow256(6) == 256 * Pow256(5);
    assert Pow256(7) == 256 * Pow256(6) && Pow256(8) == 256 * Pow256(7);
  }
}
