// Padding of block lengths to the manager's ALIGNMENT.
//
// The source pads every length entering the memory ledgers with
// `(n + ALIGNMENT - 1) & ~(ALIGNMENT - 1)`. ALIGNMENT is a power of two, so the
// mask rounds `n` up to the least multiple of ALIGNMENT that is not below `n`.
// The model states that rounding directly, for any positive alignment `a`.
module Align {

  /** `x` is a multiple of `a` (its low bits under the mask `a - 1` are clear). */
  predicate Aligned(x: nat, a: nat)
    requires a > 0
    decreases x
  {
    x == 0 || (x >= a && Aligned(x - a, a))
  }

  /** The padded length of an `n`-byte request. */
  function Pad(n: nat, a: nat): nat
    requires a > 0
    decreases n
  {
    if n == 0 then 0 else if n <= a then a else a + Pad(n - a, a)
  }

  /** A padded length covers the request, is a multiple of the alignment and
      wastes less than one alignment unit. */
  lemma {:induction false} PadBounds(n: nat, a: nat)
    requires a > 0
    ensures n <= Pad(n, a) < n + a
    ensures Aligned(Pad(n, a), a)
    decreases n
  {
    if n == 0 {
    } else if n <= a {
      assert Aligned(a - a, a);
    } else {
      PadBounds(n - a, a);
    }
  }

  /** The longest aligned length that fits in `n` bytes. */
  function Trunc(n: nat, a: nat): (t: nat)
    requires a > 0
    ensures t <= n < t + a && Aligned(t, a)
    decreases n
  {
    if n < a then 0 else a + Trunc(n - a, a)
  }

  /** Padding leaves an already aligned length alone. */
  lemma {:induction false} PadAligned(n: nat, a: nat)
    requires a > 0 && Aligned(n, a)
    ensures Pad(n, a) == n
    decreases n
  {
    if n > a {
      PadAligned(n - a, a);
    }
  }

  /** Padding is the least aligned cover: any aligned value at or above the
      request is at or above its padding. */
  lemma {:induction false} PadLeast(n: nat, m: nat, a: nat)
    requires a > 0 && Aligned(m, a) && n <= m
    ensures Pad(n, a) <= m
    decreases n
  {
    if n == 0 {
    } else if n <= a {
      assert m >= a;
    } else {
      assert m - a >= n - a && Aligned(m - a, a);
      PadLeast(n - a, m - a, a);
    }
  }

  /** Padding is monotone, so a request that fits a padded size still fits. */
  lemma {:induction false} PadMonotone(m: nat, n: nat, a: nat)
    requires a > 0 && m <= n
    ensures Pad(m, a) <= Pad(n, a)
  {
    PadBounds(n, a);
    PadLeast(m, Pad(n, a), a);
  }

  /** Sums and differences of aligned values stay aligned. */
  lemma {:induction false} AlignedAdd(x: nat, y: nat, a: nat)
    requires a > 0 && Aligned(x, a) && Aligned(y, a)
    ensures Aligned(x + y, a)
    decreases x
  {
    if x > 0 {
      AlignedAdd(x - a, y, a);
      assert x + y - a == (x - a) + y;
    }
  }

  lemma {:induction false} AlignedSub(x: nat, y: nat, a: nat)
    requires a > 0 && Aligned(x, a) && Aligned(y, a) && y <= x
    ensures Aligned(x - y, a)
    decreases y
  {
    if y > 0 {
      AlignedSub(x - a, y - a, a);
      assert x - y == (x - a) - (y - a);
    }
  }
}
