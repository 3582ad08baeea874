/**
  Cycle walking: a permutation of [0, size) is applied again and again until the value falls
  below `domain`. The walk always stops, and what it computes is a permutation of [0, domain).
 */
module CycleWalking {

  /** `inverse` undoes `f` on [0, size), in both orders. */
  ghost predicate IsPermutation(f: nat -> nat, inverse: nat -> nat, size: nat) {
    forall x: nat :: x < size ==>
      f(x) < size && inverse(x) < size && inverse(f(x)) == x && f(inverse(x)) == x
  }

  function Iterate(f: nat -> nat, n: nat, x: nat): nat {
    if n == 0 then x else f(Iterate(f, n - 1, x))
  }

  /** None of the first `n` applications falls below `domain`. */
  ghost predicate StaysOutside(f: nat -> nat, domain: nat, x: nat, n: nat) {
    forall k :: 1 <= k <= n ==> Iterate(f, k, x) >= domain
  }

  lemma {:induction false} OneMoreOutside(f: nat -> nat, domain: nat, x: nat, n: nat)
    requires n > 0 && StaysOutside(f, domain, x, n - 1) && Iterate(f, n, x) >= domain
    ensures StaysOutside(f, domain, x, n)
  {
  }

  /** The first application that falls below `domain` is the `n`-th. */
  ghost predicate ReturnsAfter(f: nat -> nat, domain: nat, x: nat, n: nat) {
    && n >= 1
    && Iterate(f, n, x) < domain
    && StaysOutside(f, domain, x, n - 1)
  }

  lemma {:induction false} IterateStays(f: nat -> nat, inverse: nat -> nat, size: nat, n: nat, x: nat)
    requires IsPermutation(f, inverse, size) && x < size
    ensures Iterate(f, n, x) < size
  {
    if n > 0 {
      IterateStays(f, inverse, size, n - 1, x);
    }
  }

  lemma {:induction false} IterateAdds(f: nat -> nat, m: nat, n: nat, x: nat)
    ensures Iterate(f, m + n, x) == Iterate(f, m, Iterate(f, n, x))
  {
    if m > 0 {
      IterateAdds(f, m - 1, n, x);
    }
  }

  /** Equal iterates of two starts peel back to an iterate of one start that is the other start. */
  lemma {:induction false} IteratesCollide(f: nat -> nat, inverse: nat -> nat, size: nat, m: nat, n: nat, x: nat,
      y: nat)
    requires IsPermutation(f, inverse, size) && x < size && y < size
    requires m <= n && Iterate(f, m, x) == Iterate(f, n, y)
    ensures x == Iterate(f, n - m, y)
  {
    if m > 0 {
      IterateStays(f, inverse, size, m - 1, x);
      IterateStays(f, inverse, size, n - 1, y);
      IteratesCollide(f, inverse, size, m - 1, n - 1, x, y);
    }
  }

  /** As long as the walk has not come back, its values are all different. */
  lemma {:induction false} WalkNeverRepeats(f: nat -> nat, inverse: nat -> nat, size: nat, domain: nat, x: nat,
      i: nat, j: nat)
    requires IsPermutation(f, inverse, size) && x < domain <= size
    requires 1 <= i < j
    requires StaysOutside(f, domain, x, j)
    ensures Iterate(f, i, x) != Iterate(f, j, x)
  {
    var gap := j - i;
    assert Iterate(f, gap, x) >= domain;
    if Iterate(f, i, x) == Iterate(f, j, x) {
      IteratesCollide(f, inverse, size, i, j, x, x);
      assert false;
    }
  }

  ghost function Interval(lo: nat, hi: nat): (s: set<nat>)
    requires lo <= hi
    ensures |s| == hi - lo
    ensures forall x: nat :: x in s <==> lo <= x < hi
    decreases hi - lo
  {
    if lo == hi then {} else {lo} + Interval(lo + 1, hi)
  }

  lemma {:induction false} SubsetIsSmaller<T>(small: set<T>, large: set<T>)
    requires small <= large
    ensures |small| <= |large|
    ensures |small| == |large| ==> small == large
  {
    if small != {} {
      var x :| x in small;
      SubsetIsSmaller(small - {x}, large - {x});
    }
  }

  /** The first `n` values of the walk from `x`. */
  ghost function Walked(f: nat -> nat, n: nat, x: nat): set<nat> {
    if n == 0 then {} else Walked(f, n - 1, x) + {Iterate(f, n, x)}
  }

  lemma {:induction false} WalkedAre(f: nat -> nat, n: nat, x: nat, v: nat)
    requires v in Walked(f, n, x)
    ensures exists k :: 1 <= k <= n && v == Iterate(f, k, x)
  {
    if v != Iterate(f, n, x) {
      WalkedAre(f, n - 1, x, v);
    }
  }

  lemma {:induction false} NextIsNew(f: nat -> nat, inverse: nat -> nat, size: nat, domain: nat, x: nat, n: nat)
    requires IsPermutation(f, inverse, size) && x < domain <= size
    requires n > 0 && StaysOutside(f, domain, x, n)
    ensures Iterate(f, n, x) !in Walked(f, n - 1, x)
  {
    if Iterate(f, n, x) in Walked(f, n - 1, x) {
      WalkedAre(f, n - 1, x, Iterate(f, n, x));
      var k :| 1 <= k <= n - 1 && Iterate(f, n, x) == Iterate(f, k, x);
      WalkNeverRepeats(f, inverse, size, domain, x, k, n);
      assert false;
    }
  }

  lemma {:induction false} WalkedAreDistinct(f: nat -> nat, inverse: nat -> nat, size: nat, domain: nat, x: nat, n: nat)
    requires IsPermutation(f, inverse, size) && x < domain <= size
    requires StaysOutside(f, domain, x, n)
    ensures |Walked(f, n, x)| == n
  {
    if n > 0 {
      WalkedAreDistinct(f, inverse, size, domain, x, n - 1);
      NextIsNew(f, inverse, size, domain, x, n);
    }
  }

  /** A walk outside the domain visits `n` different numbers, and there are only `size - domain` of those. */
  lemma {:induction false} WalkIsShort(f: nat -> nat, inverse: nat -> nat, size: nat, domain: nat, x: nat, n: nat)
    requires IsPermutation(f, inverse, size) && x < domain <= size
    requires StaysOutside(f, domain, x, n)
    ensures n <= size - domain
  {
    WalkedAreDistinct(f, inverse, size, domain, x, n);
    forall v | v in Walked(f, n, x)
      ensures v in Interval(domain, size)
    {
      WalkedAre(f, n, x, v);
      var k :| 1 <= k <= n && v == Iterate(f, k, x);
      IterateStays(f, inverse, size, k, x);
    }
    SubsetIsSmaller(Walked(f, n, x), Interval(domain, size));
  }

  lemma {:induction false} ReturnWithin(f: nat -> nat, inverse: nat -> nat, size: nat, domain: nat,
      x: nat) returns (n: nat)
    requires IsPermutation(f, inverse, size) && x < domain <= size
    ensures ReturnsAfter(f, domain, x, n)
    ensures n <= size - domain + 1
  {
    n := 1;
    while Iterate(f, n, x) >= domain
      invariant 1 <= n <= size - domain + 1
      invariant StaysOutside(f, domain, x, n - 1)
      decreases size - domain - n
    {
      WalkIsShort(f, inverse, size, domain, x, n);
      n := n + 1;
    }
  }

  /** The number of applications until the walk from `x` is back in the domain. */
  ghost function ReturnTime(f: nat -> nat, inverse: nat -> nat, size: nat, domain: nat, x: nat): (n: nat)
    requires IsPermutation(f, inverse, size) && x < domain <= size
    ensures ReturnsAfter(f, domain, x, n)
    ensures n <= size - domain + 1
  {
    assert exists n: nat :: ReturnsAfter(f, domain, x, n) && n <= size - domain + 1 by {
      var n := ReturnWithin(f, inverse, size, domain, x);
    }
    var n: nat :| ReturnsAfter(f, domain, x, n) && n <= size - domain + 1;
    n
  }

  /** The first-return map of the permutation to its domain. */
  ghost function FirstReturn(f: nat -> nat, inverse: nat -> nat, size: nat, domain: nat, x: nat): (y: nat)
    requires IsPermutation(f, inverse, size) && x < domain <= size
    ensures y < domain
  {
    Iterate(f, ReturnTime(f, inverse, size, domain, x), x)
  }

  lemma {:induction false} ReturnIsUnique(f: nat -> nat, domain: nat, x: nat, m: nat, n: nat)
    requires ReturnsAfter(f, domain, x, m) && ReturnsAfter(f, domain, x, n)
    ensures m == n
  {
  }

  lemma {:induction false} FirstReturnIsInjective(f: nat -> nat, inverse: nat -> nat, size: nat, domain: nat, x: nat,
      y: nat)
    requires IsPermutation(f, inverse, size) && x < domain <= size && y < domain
    requires FirstReturn(f, inverse, size, domain, x) == FirstReturn(f, inverse, size, domain, y)
    ensures x == y
  {
    var m := ReturnTime(f, inverse, size, domain, x);
    var n := ReturnTime(f, inverse, size, domain, y);
    if m <= n {
      IteratesCollide(f, inverse, size, m, n, x, y);
    } else {
      IteratesCollide(f, inverse, size, n, m, y, x);
    }
  }

  /** Walking forward undoes walking backward, step by step. */
  lemma {:induction false} IterateInverse(f: nat -> nat, inverse: nat -> nat, size: nat, k: nat, n: nat, z: nat)
    requires IsPermutation(f, inverse, size) && z < size && k <= n
    ensures Iterate(f, k, Iterate(inverse, n, z)) == Iterate(inverse, n - k, z)
  {
    if k > 0 {
      IterateInverse(f, inverse, size, k - 1, n, z);
      IterateStays(inverse, f, size, n - k, z);
    }
  }

  /** Walking back with the inverse permutation finds the start of every walk. */
  lemma {:induction false} FirstReturnIsSurjective(f: nat -> nat, inverse: nat -> nat, size: nat, domain: nat, z: nat)
    requires IsPermutation(f, inverse, size) && z < domain <= size
    ensures IsPermutation(inverse, f, size)
    ensures FirstReturn(f, inverse, size, domain, FirstReturn(inverse, f, size, domain, z)) == z
  {
    var n := ReturnTime(inverse, f, size, domain, z);
    var y := FirstReturn(inverse, f, size, domain, z);
    IterateInverse(f, inverse, size, n, n, z);
    forall k | 1 <= k < n
      ensures Iterate(f, k, y) >= domain
    {
      IterateInverse(f, inverse, size, k, n, z);
    }
    assert ReturnsAfter(f, domain, y, n);
    ReturnIsUnique(f, domain, y, n, ReturnTime(f, inverse, size, domain, y));
  }
}
