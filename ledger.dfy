// The address ledgers of the handle-based memory manager, as values.
//
// The arena is the address interval [lo, hi). Used blocks are ranges in
// address order (the used-handle list between its two sentinels); the free
// list holds the free runs in address order. The manager keeps one invariant
// between them: the free runs are exactly the non-empty gaps between
// consecutive used blocks (`Gaps`). Every ledger update of the source (the
// scans in ReleaseMemoryRange and GrabMemoryRange) is stated here as a function
// on sequences of ranges, and the lemmas show that these updates carry the
// gaps of one block layout to the gaps of the next.
module MemoryLedger {

  datatype Range = Range(start: nat, len: nat)

  function End(r: Range): nat { r.start + r.len }

  /** Non-empty blocks in address order, the first at or above `lo`, the last
      ending at or below `hi`. */
  predicate Chained(lo: nat, bs: seq<Range>, hi: nat)
    decreases |bs|
  {
    if |bs| == 0 then lo <= hi
    else lo <= bs[0].start && 0 < bs[0].len && Chained(End(bs[0]), bs[1..], hi)
  }

  /** Where the last of `bs` ends, or `lo` if there is none. */
  function EndOf(lo: nat, bs: seq<Range>): nat
  {
    if |bs| == 0 then lo else End(bs[|bs| - 1])
  }

  /** Where the next block starts, or `hi` if there is none. */
  function NextStart(bs: seq<Range>, hi: nat): nat
  {
    if |bs| == 0 then hi else bs[0].start
  }

  /** The free run between `a` and `b`, if any. */
  function Gap(a: nat, b: nat): seq<Range>
  {
    if a < b then [Range(a, b - a)] else []
  }

  /** The free runs left between the blocks `bs` of the arena [lo, hi). */
  function Gaps(lo: nat, bs: seq<Range>, hi: nat): seq<Range>
    decreases |bs|
  {
    if |bs| == 0 then Gap(lo, hi) else Gap(lo, bs[0].start) + Gaps(End(bs[0]), bs[1..], hi)
  }

  /** The gaps after the first block of `bs`. */
  function Rest(bs: seq<Range>, hi: nat): seq<Range>
  {
    if |bs| == 0 then [] else Gaps(End(bs[0]), bs[1..], hi)
  }

  function SumLen(rs: seq<Range>): nat
    decreases |rs|
  {
    if |rs| == 0 then 0 else rs[0].len + SumLen(rs[1..])
  }

  /** Free runs in address order, non-empty, with no two touching: what the
      free list looks like when every release has coalesced. */
  predicate Separated(rs: seq<Range>)
  {
    (forall i :: 0 <= i < |rs| ==> 0 < rs[i].len) &&
    (forall i, j :: 0 <= i < j < |rs| ==> End(rs[i]) < rs[j].start)
  }

  // ---------------------------------------------------------------------
  // The two ledger updates of the source.

  /** How many leading runs start at or below `a`; for an address-ordered free
      list this is one past the run the source's backward scan stops at. */
  function Below(rs: seq<Range>, a: nat): (k: nat)
    ensures k <= |rs|
    decreases |rs|
  {
    if |rs| == 0 || rs[0].start > a then 0 else 1 + Below(rs[1..], a)
  }

  /** The free list after ReleaseMemoryRange of the (padded) range `x`: merged
      into the run ending where it starts, into the run starting where it ends,
      into both, or inserted as a run of its own. */
  function Released(rs: seq<Range>, x: Range): seq<Range>
  {
    ReleasedAt(rs, x, Below(rs, x.start))
  }

  /** The same, once the scan has settled that runs `k` and on start above `x`. */
  function ReleasedAt(rs: seq<Range>, x: Range, k: nat): seq<Range>
    requires k <= |rs|
  {
    if k > 0 && End(rs[k - 1]) == x.start then
      if k < |rs| && End(x) == rs[k].start then
        rs[..k - 1] + [Range(rs[k - 1].start, rs[k - 1].len + x.len + rs[k].len)] + rs[k + 1..]
      else
        rs[..k - 1] + [Range(rs[k - 1].start, rs[k - 1].len + x.len)] + rs[k..]
    else if k < |rs| && End(x) == rs[k].start then
      rs[..k] + [Range(x.start, x.len + rs[k].len)] + rs[k + 1..]
    else
      rs[..k] + [x] + rs[k..]
  }

  /** `x` sits at one edge of run `r`: what GrabMemoryRange relies on. */
  predicate AtEdge(r: Range, x: Range)
  {
    (x.start == r.start && x.len <= r.len) || (r.start < x.start && End(x) == End(r))
  }

  /** The free list after GrabMemoryRange takes the (padded) range `x` out of
      run `k`: the run disappears, loses its front, or loses its tail. */
  function GrabbedAt(rs: seq<Range>, k: nat, x: Range): seq<Range>
    requires k < |rs| && AtEdge(rs[k], x)
  {
    var r := rs[k];
    if r.start == x.start then
      if r.len == x.len then rs[..k] + rs[k + 1..]
      else rs[..k] + [Range(End(x), r.len - x.len)] + rs[k + 1..]
    else
      rs[..k] + [Range(r.start, x.start - r.start)] + rs[k + 1..]
  }

  /** Index of the first run holding address `a`, or |rs| if none does: the
      forward scan of GrabMemoryRange when it is not told the run. */
  function FindRun(rs: seq<Range>, a: nat): (k: nat)
    ensures k <= |rs|
    decreases |rs|
  {
    if |rs| == 0 then 0
    else if rs[0].start <= a < End(rs[0]) then 0
    else 1 + FindRun(rs[1..], a)
  }

  /** How many leading blocks start below `a`: where a block placed at `a`
      goes in the used list. */
  function BlocksBefore(bs: seq<Range>, a: nat): (j: nat)
    ensures j <= |bs|
    decreases |bs|
  {
    if |bs| == 0 || bs[0].start >= a then 0 else 1 + BlocksBefore(bs[1..], a)
  }

  /** The head-first scan of a movable allocation: the lowest run with room
      for `n` bytes, or |rs| when none has. */
  function FirstFit(rs: seq<Range>, n: nat): (k: nat)
    ensures k <= |rs|
    ensures k < |rs| ==> n <= rs[k].len
    ensures forall i :: 0 <= i < k ==> rs[i].len < n
    decreases |rs|
  {
    if |rs| == 0 then 0 else if n <= rs[0].len then 0 else 1 + FirstFit(rs[1..], n)
  }

  /** The tail-first scan of a fixed allocation: the highest run with room
      for `n` bytes, or |rs| when none has. */
  function LastFit(rs: seq<Range>, n: nat): (k: nat)
    ensures k <= |rs|
    ensures k < |rs| ==> n <= rs[k].len && forall i :: k < i < |rs| ==> rs[i].len < n
    ensures k == |rs| ==> forall i :: 0 <= i < |rs| ==> rs[i].len < n
    decreases |rs|
  {
    if |rs| == 0 then 0
    else if n <= rs[|rs| - 1].len then |rs| - 1
    else
      var k := LastFit(rs[..|rs| - 1], n);
      if k < |rs| - 1 then k else |rs|
  }

  /** A head-first scan that stops at the first run with room, or runs off
      the end, stops at FirstFit. */
  lemma {:induction false} FirstFitIs(rs: seq<Range>, n: nat, k: nat)
    requires k <= |rs| && (k < |rs| ==> n <= rs[k].len) && forall i :: 0 <= i < k ==> rs[i].len < n
    ensures k == FirstFit(rs, n)
  {
  }

  /** A tail-first scan that stops at the last run with room, or finds none,
      stops at LastFit. */
  lemma {:induction false} LastFitIs(rs: seq<Range>, n: nat, k: nat)
    requires k <= |rs| && (k < |rs| ==> n <= rs[k].len) && forall i :: k < i < |rs| ==> rs[i].len < n
    requires k == |rs| ==> forall i :: 0 <= i < |rs| ==> rs[i].len < n
    ensures k == LastFit(rs, n)
  {
  }

  /** The run AllocHandle takes `n` bytes from: the highest with room for a
      fixed block, the lowest with room for any other. */
  function Pick(rs: seq<Range>, n: nat, fixed: bool): nat
  {
    if fixed then LastFit(rs, n) else FirstFit(rs, n)
  }

  /** Where in that run the block goes: at its tail for a fixed block, at
      its front otherwise. Some run has room exactly when the lowest-first
      scan finds one, so the highest-first scan finds one too. */
  function Spot(rs: seq<Range>, n: nat, fixed: bool): (x: Range)
    requires FirstFit(rs, n) < |rs|
    ensures Pick(rs, n, fixed) < |rs| && x.len == n && AtEdge(rs[Pick(rs, n, fixed)], x)
    ensures fixed ==> End(x) == End(rs[Pick(rs, n, fixed)]) && forall i :: Pick(rs, n, fixed) < i < |rs| ==> rs[i].len < n
    ensures !fixed ==> x.start == rs[Pick(rs, n, fixed)].start && forall i :: 0 <= i < Pick(rs, n, fixed) ==> rs[i].len < n
  {
    var r := rs[Pick(rs, n, fixed)];
    if fixed then Range(End(r) - n, n) else Range(r.start, n)
  }

  /** Whether `y` can be taken by the forward scan once `x` is released: how
      CompactHandles moves a block. */
  predicate CanMove(rs: seq<Range>, x: Range, y: Range)
  {
    var g := Released(rs, x);
    FindRun(g, y.start) < |g| && AtEdge(g[FindRun(g, y.start)], y)
  }

  /** The free list after the block at `x` moves to `y`. */
  function Moved(rs: seq<Range>, x: Range, y: Range): seq<Range>
    requires CanMove(rs, x, y)
  {
    var g := Released(rs, x);
    GrabbedAt(g, FindRun(g, y.start), y)
  }
}

module LedgerLemmas {
  import opened MemoryLedger

  lemma {:induction false} SumLenConcat(a: seq<Range>, b: seq<Range>)
    ensures SumLen(a + b) == SumLen(a) + SumLen(b)
    decreases |a|
  {
    if |a| > 0 {
      assert (a + b)[1..] == a[1..] + b;
      SumLenConcat(a[1..], b);
    } else {
      assert a + b == b;
    }
  }

  /** Every gap is a non-empty run inside the arena. */
  lemma {:induction false} GapsWithin(lo: nat, bs: seq<Range>, hi: nat)
    requires Chained(lo, bs, hi)
    ensures forall i :: 0 <= i < |Gaps(lo, bs, hi)| ==>
      lo <= Gaps(lo, bs, hi)[i].start && End(Gaps(lo, bs, hi)[i]) <= hi && 0 < Gaps(lo, bs, hi)[i].len
    decreases |bs|
  {
    if |bs| > 0 {
      var g, t := Gap(lo, bs[0].start), Gaps(End(bs[0]), bs[1..], hi);
      GapsWithin(End(bs[0]), bs[1..], hi);
      ChainedEnd(End(bs[0]), bs[1..], hi);
      var G := g + t;
      forall i | 0 <= i < |G| ensures lo <= G[i].start && End(G[i]) <= hi && 0 < G[i].len {
        if i >= |g| { assert G[i] == t[i - |g|]; }
      }
    }
  }

  /** The gaps form a free list with no two runs touching. */
  lemma {:induction false} GapsSeparated(lo: nat, bs: seq<Range>, hi: nat)
    requires Chained(lo, bs, hi)
    ensures Separated(Gaps(lo, bs, hi))
    decreases |bs|
  {
    if |bs| > 0 {
      var g, t := Gap(lo, bs[0].start), Gaps(End(bs[0]), bs[1..], hi);
      GapsSeparated(End(bs[0]), bs[1..], hi);
      GapsWithin(End(bs[0]), bs[1..], hi);
      var G := g + t;
      forall i, j | 0 <= i < j < |G| ensures End(G[i]) < G[j].start {
        if i < |g| {
          assert G[j] == t[j - |g|];
        } else {
          assert G[i] == t[i - |g|] && G[j] == t[j - |g|];
        }
      }
    }
  }

  /** Conservation: the free bytes and the used bytes add up to the arena. */
  lemma {:induction false} GapsConserve(lo: nat, bs: seq<Range>, hi: nat)
    requires Chained(lo, bs, hi)
    ensures SumLen(Gaps(lo, bs, hi)) + SumLen(bs) == hi - lo
    decreases |bs|
  {
    if |bs| > 0 {
      GapsConserve(End(bs[0]), bs[1..], hi);
      SumLenConcat(Gap(lo, bs[0].start), Gaps(End(bs[0]), bs[1..], hi));
    }
  }

  /** A layout splits at any block boundary into two layouts, and so do its gaps. */
  lemma {:induction false} GapsSplit(lo: nat, p: seq<Range>, q: seq<Range>, hi: nat)
    ensures Chained(lo, p + q, hi) <==> Chained(lo, p, EndOf(lo, p)) && Chained(EndOf(lo, p), q, hi)
    ensures Chained(lo, p + q, hi) ==>
      Gaps(lo, p + q, hi) == Gaps(lo, p, EndOf(lo, p)) + Gaps(EndOf(lo, p), q, hi)
    decreases |p|
  {
    if |p| == 0 {
      assert p + q == q;
    } else {
      assert (p + q)[0] == p[0] && (p + q)[1..] == p[1..] + q;
      GapsSplit(End(p[0]), p[1..], q, hi);
      assert EndOf(lo, p) == EndOf(End(p[0]), p[1..]);
    }
  }

  /** The gaps of a layout that ends at its last block all end before it. */
  lemma {:induction false} GapsBeforeEnd(lo: nat, p: seq<Range>)
    requires Chained(lo, p, EndOf(lo, p))
    ensures forall i :: 0 <= i < |Gaps(lo, p, EndOf(lo, p))| ==> End(Gaps(lo, p, EndOf(lo, p))[i]) < EndOf(lo, p)
    decreases |p|
  {
    if |p| > 0 {
      var g, t := Gap(lo, p[0].start), Gaps(End(p[0]), p[1..], EndOf(lo, p));
      assert EndOf(lo, p) == EndOf(End(p[0]), p[1..]);
      GapsBeforeEnd(End(p[0]), p[1..]);
      ChainedEnd(End(p[0]), p[1..], EndOf(lo, p));
      var G := g + t;
      forall i | 0 <= i < |G| ensures End(G[i]) < EndOf(lo, p) {
        if i >= |g| { assert G[i] == t[i - |g|]; }
      }
    }
  }

  lemma {:induction false} ChainedEnd(lo: nat, bs: seq<Range>, hi: nat)
    requires Chained(lo, bs, hi)
    ensures lo <= EndOf(lo, bs) <= hi
    ensures |bs| > 0 ==> lo < EndOf(lo, bs)
    decreases |bs|
  {
    if |bs| > 0 {
      ChainedEnd(End(bs[0]), bs[1..], hi);
      assert EndOf(lo, bs) == EndOf(End(bs[0]), bs[1..]);
    }
  }

  /** The blocks of a layout lie in [lo, hi), in address order, none empty. */
  lemma {:induction false} ChainedOrder(lo: nat, bs: seq<Range>, hi: nat)
    requires Chained(lo, bs, hi)
    ensures forall i :: 0 <= i < |bs| ==> lo <= bs[i].start && 0 < bs[i].len && End(bs[i]) <= hi
    ensures forall i, j :: 0 <= i < j < |bs| ==> End(bs[i]) <= bs[j].start
    decreases |bs|
  {
    if |bs| > 0 {
      var t := bs[1..];
      ChainedOrder(End(bs[0]), t, hi);
      ChainedEnd(End(bs[0]), t, hi);
      forall i | 0 < i < |bs| ensures bs[i] == t[i - 1] {}
    }
  }

  /** The gaps that follow the first block start after it. */
  lemma {:induction false} RestAfter(q: seq<Range>, e: nat, hi: nat)
    requires Chained(e, q, hi)
    ensures forall i :: 0 <= i < |Rest(q, hi)| ==> NextStart(q, hi) < Rest(q, hi)[i].start
  {
    if |q| > 0 {
      GapsWithin(End(q[0]), q[1..], hi);
    }
  }

  lemma {:induction false} GapsUnfold(e: nat, q: seq<Range>, hi: nat)
    ensures Gaps(e, q, hi) == Gap(e, NextStart(q, hi)) + Rest(q, hi)
  {
  }

  /** The gaps of a layout with a block `x` after the prefix `p` and before the
      suffix `q`, and of the same layout without `x`. */
  lemma {:induction false} GapsAround(lo: nat, p: seq<Range>, x: Range, q: seq<Range>, hi: nat)
    requires Chained(lo, p + [x] + q, hi)
    ensures Chained(lo, p + q, hi)
    ensures EndOf(lo, p) <= x.start && 0 < x.len && End(x) <= NextStart(q, hi)
    ensures Gaps(lo, p + [x] + q, hi) ==
      Gaps(lo, p, EndOf(lo, p)) + Gap(EndOf(lo, p), x.start) + Gap(End(x), NextStart(q, hi)) + Rest(q, hi)
    ensures Gaps(lo, p + q, hi) ==
      Gaps(lo, p, EndOf(lo, p)) + Gap(EndOf(lo, p), NextStart(q, hi)) + Rest(q, hi)
  {
    GapsWith(lo, p, x, q, hi);
    GapsWithout(lo, p, q, hi, End(x));
  }

  /** The layout with `x` splits around it. */
  lemma {:induction false} GapsWith(lo: nat, p: seq<Range>, x: Range, q: seq<Range>, hi: nat)
    requires Chained(lo, p + [x] + q, hi)
    ensures Chained(lo, p, EndOf(lo, p)) && Chained(End(x), q, hi)
    ensures EndOf(lo, p) <= x.start && 0 < x.len && End(x) <= NextStart(q, hi)
    ensures Gaps(lo, p + [x] + q, hi) ==
      Gaps(lo, p, EndOf(lo, p)) + Gap(EndOf(lo, p), x.start) + Gap(End(x), NextStart(q, hi)) + Rest(q, hi)
  {
    var e := EndOf(lo, p);
    assert p + [x] + q == p + ([x] + q);
    GapsSplit(lo, p, [x] + q, hi);
    assert ([x] + q)[1..] == q;
    ChainedEnd(End(x), q, hi);
    GapsUnfold(End(x), q, hi);
  }

  /** The layout without `x`: the prefix ends at or before where `x` ended. */
  lemma {:induction false} GapsWithout(lo: nat, p: seq<Range>, q: seq<Range>, hi: nat, e': nat)
    requires Chained(lo, p, EndOf(lo, p)) && Chained(e', q, hi) && EndOf(lo, p) <= NextStart(q, hi)
    ensures Chained(lo, p + q, hi)
    ensures Gaps(lo, p + q, hi) ==
      Gaps(lo, p, EndOf(lo, p)) + Gap(EndOf(lo, p), NextStart(q, hi)) + Rest(q, hi)
  {
    ChainedShift(EndOf(lo, p), e', q, hi);
    GapsSplit(lo, p, q, hi);
    GapsUnfold(EndOf(lo, p), q, hi);
  }

  /** A layout that may start at `e` may also start earlier. */
  lemma {:induction false} ChainedShift(e: nat, e': nat, q: seq<Range>, hi: nat)
    requires Chained(e', q, hi) && e <= NextStart(q, hi)
    ensures Chained(e, q, hi)
  {
  }

  // ---------------------------------------------------------------------
  // The ledger updates at one spot of a free list.

  lemma {:induction false} BelowConcat(s: seq<Range>, t: seq<Range>, a: nat)
    requires forall i :: 0 <= i < |s| ==> s[i].start <= a
    ensures Below(s + t, a) == |s| + Below(t, a)
    decreases |s|
  {
    if |s| == 0 {
      assert s + t == t;
    } else {
      assert (s + t)[0] == s[0] && (s + t)[1..] == s[1..] + t;
      BelowConcat(s[1..], t, a);
    }
  }

  lemma {:induction false} FindRunConcat(s: seq<Range>, t: seq<Range>, a: nat)
    requires forall i :: 0 <= i < |s| ==> !(s[i].start <= a < End(s[i]))
    ensures FindRun(s + t, a) == |s| + FindRun(t, a)
    decreases |s|
  {
    if |s| == 0 {
      assert s + t == t;
    } else {
      assert (s + t)[0] == s[0] && (s + t)[1..] == s[1..] + t;
      FindRunConcat(s[1..], t, a);
    }
  }

  /** Releasing `x` into the hole it left between runs `g1` (which end before
      `e`) and `r` (which start after `n`) coalesces it with the runs touching it. */
  lemma {:induction false} ReleasedSplice(g1: seq<Range>, e: nat, x: Range, n: nat, r: seq<Range>)
    requires forall i :: 0 <= i < |g1| ==> End(g1[i]) < e
    requires e <= x.start && 0 < x.len && End(x) <= n
    requires forall i :: 0 <= i < |r| ==> n < r[i].start
    ensures Released(g1 + Gap(e, x.start) + Gap(End(x), n) + r, x) == g1 + Gap(e, n) + r
  {
    var b, a := Gap(e, x.start), Gap(End(x), n);
    var front, back := g1 + b, a + r;
    assert g1 + b + a + r == front + back;
    forall i | 0 <= i < |front| ensures front[i].start <= x.start {
      if i < |g1| { assert front[i] == g1[i]; }
    }
    assert |back| > 0 ==> back[0].start > x.start;
    BelowSplice(front, back, x.start);
    ReleasedSpliceAt(g1, e, x, n, r);
  }

  lemma {:induction false} ReleasedSpliceAt(g1: seq<Range>, e: nat, x: Range, n: nat, r: seq<Range>)
    requires |g1| > 0 ==> End(g1[|g1| - 1]) < e
    requires e <= x.start && 0 < x.len && End(x) <= n
    requires |r| > 0 ==> n < r[0].start
    ensures ReleasedAt(g1 + Gap(e, x.start) + Gap(End(x), n) + r, x, |g1| + |Gap(e, x.start)|) == g1 + Gap(e, n) + r
  {
    var rs := g1 + Gap(e, x.start) + Gap(End(x), n) + r;
    if e < x.start && End(x) < n {
      assert rs == g1 + [Range(e, x.start - e)] + [Range(End(x), n - End(x))] + r;
      ReleasedBoth(g1, Range(e, x.start - e), x, Range(End(x), n - End(x)), r);
    } else if e < x.start {
      assert rs == g1 + [Range(e, x.start - e)] + r;
      ReleasedAfter(g1, Range(e, x.start - e), x, r);
    } else if End(x) < n {
      assert rs == g1 + [Range(End(x), n - End(x))] + r;
      ReleasedBefore(g1, x, Range(End(x), n - End(x)), r);
    } else {
      assert rs == g1 + r;
      ReleasedAlone(g1, x, r);
    }
  }

  lemma {:induction false} BelowSplice(s: seq<Range>, t: seq<Range>, a: nat)
    requires forall i :: 0 <= i < |s| ==> s[i].start <= a
    requires |t| > 0 ==> t[0].start > a
    ensures Below(s + t, a) == |s|
  {
    BelowConcat(s, t, a);
  }

  lemma {:induction false} ReleasedBoth(g1: seq<Range>, b: Range, x: Range, a: Range, r: seq<Range>)
    requires End(b) == x.start && End(x) == a.start
    ensures ReleasedAt(g1 + [b] + [a] + r, x, |g1| + 1) == g1 + [Range(b.start, b.len + x.len + a.len)] + r
  {
    var rs := g1 + [b] + [a] + r;
    var k := |g1| + 1;
    assert rs[k - 1] == b && rs[k] == a;
    assert rs[..k - 1] == g1 && rs[k + 1..] == r;
  }

  lemma {:induction false} ReleasedAfter(g1: seq<Range>, b: Range, x: Range, r: seq<Range>)
    requires End(b) == x.start && (|r| > 0 ==> End(x) < r[0].start)
    ensures ReleasedAt(g1 + [b] + r, x, |g1| + 1) == g1 + [Range(b.start, b.len + x.len)] + r
  {
    var rs := g1 + [b] + r;
    var k := |g1| + 1;
    assert rs[k - 1] == b && rs[..k - 1] == g1 && rs[k..] == r;
    assert k < |rs| ==> rs[k] == r[0];
  }

  lemma {:induction false} ReleasedBefore(g1: seq<Range>, x: Range, a: Range, r: seq<Range>)
    requires (|g1| > 0 ==> End(g1[|g1| - 1]) < x.start) && End(x) == a.start
    ensures ReleasedAt(g1 + [a] + r, x, |g1|) == g1 + [Range(x.start, x.len + a.len)] + r
  {
    var rs := g1 + [a] + r;
    var k := |g1|;
    assert k > 0 ==> rs[k - 1] == g1[|g1| - 1];
    assert rs[k] == a && rs[..k] == g1 && rs[k + 1..] == r;
  }

  lemma {:induction false} ReleasedAlone(g1: seq<Range>, x: Range, r: seq<Range>)
    requires (|g1| > 0 ==> End(g1[|g1| - 1]) < x.start) && (|r| > 0 ==> End(x) < r[0].start)
    ensures ReleasedAt(g1 + r, x, |g1|) == g1 + [x] + r
  {
    var rs := g1 + r;
    var k := |g1|;
    assert k > 0 ==> rs[k - 1] == g1[|g1| - 1];
    assert k < |rs| ==> rs[k] == r[0];
    assert rs[..k] == g1 && rs[k..] == r;
  }

  /** Taking `x` from an edge of the run [e, n) that sits between `g1` and `r`. */
  lemma {:induction false} GrabbedSplice(g1: seq<Range>, e: nat, x: Range, n: nat, r: seq<Range>)
    requires e < n && 0 < x.len && AtEdge(Range(e, n - e), x)
    ensures (g1 + Gap(e, n) + r)[|g1|] == Range(e, n - e)
    ensures GrabbedAt(g1 + Gap(e, n) + r, |g1|, x) == g1 + Gap(e, x.start) + Gap(End(x), n) + r
  {
    var rs := g1 + Gap(e, n) + r;
    assert rs[|g1|] == Range(e, n - e);
    assert rs[..|g1|] == g1 && rs[|g1| + 1..] == r;
  }

  /** The forward scan for address `e` stops at the run starting at `e`. */
  lemma {:induction false} FindRunSplice(g1: seq<Range>, e: nat, n: nat, r: seq<Range>)
    requires forall i :: 0 <= i < |g1| ==> End(g1[i]) <= e
    requires e < n
    ensures FindRun(g1 + Gap(e, n) + r, e) == |g1|
  {
    assert g1 + Gap(e, n) + r == g1 + (Gap(e, n) + r);
    FindRunConcat(g1, Gap(e, n) + r, e);
  }

  // ---------------------------------------------------------------------
  // The ledger updates carry the gaps of one block layout to the next.

  /** The gaps before block `x` all end before the blocks before `x` do,
      and the gaps after it start past the block after it. */
  lemma {:induction false} GapsEdges(lo: nat, p: seq<Range>, x: Range, q: seq<Range>, hi: nat)
    requires Chained(lo, p + [x] + q, hi)
    ensures forall i :: 0 <= i < |Gaps(lo, p, EndOf(lo, p))| ==> End(Gaps(lo, p, EndOf(lo, p))[i]) < EndOf(lo, p)
    ensures forall i :: 0 <= i < |Rest(q, hi)| ==> NextStart(q, hi) < Rest(q, hi)[i].start
  {
    assert p + [x] + q == p + ([x] + q);
    GapsSplit(lo, p, [x] + q, hi);
    GapsBeforeEnd(lo, p);
    assert ([x] + q)[1..] == q;
    RestAfter(q, End(x), hi);
  }

  /** Freeing a used block: releasing its range into the gaps of the layout
      gives the gaps of the layout without it. */
  lemma {:induction false} GapsRemove(lo: nat, p: seq<Range>, x: Range, q: seq<Range>, hi: nat)
    requires Chained(lo, p + [x] + q, hi)
    ensures Chained(lo, p + q, hi)
    ensures Released(Gaps(lo, p + [x] + q, hi), x) == Gaps(lo, p + q, hi)
  {
    GapsAround(lo, p, x, q, hi);
    GapsEdges(lo, p, x, q, hi);
    ReleasedSplice(Gaps(lo, p, EndOf(lo, p)), EndOf(lo, p), x, NextStart(q, hi), Rest(q, hi));
  }

  /** Placing a block at an edge of the gap between `p` and `q`: grabbing its
      range from that gap's run gives the gaps of the layout with it. */
  lemma {:induction false} GapsInsert(lo: nat, p: seq<Range>, x: Range, q: seq<Range>, hi: nat)
    requires Chained(lo, p + q, hi)
    requires EndOf(lo, p) < NextStart(q, hi) && 0 < x.len
    requires AtEdge(Range(EndOf(lo, p), NextStart(q, hi) - EndOf(lo, p)), x)
    ensures Chained(lo, p + [x] + q, hi)
    ensures |Gaps(lo, p, EndOf(lo, p))| < |Gaps(lo, p + q, hi)|
    ensures Gaps(lo, p + q, hi)[|Gaps(lo, p, EndOf(lo, p))|] == Range(EndOf(lo, p), NextStart(q, hi) - EndOf(lo, p))
    ensures GrabbedAt(Gaps(lo, p + q, hi), |Gaps(lo, p, EndOf(lo, p))|, x) == Gaps(lo, p + [x] + q, hi)
  {
    var e, n := EndOf(lo, p), NextStart(q, hi);
    GapsSplit(lo, p, q, hi);
    ChainedShift(End(x), e, q, hi);
    assert ([x] + q)[1..] == q;
    assert Chained(e, [x] + q, hi);
    assert p + [x] + q == p + ([x] + q);
    GapsSplit(lo, p, [x] + q, hi);
    GapsAround(lo, p, x, q, hi);
    GrabbedSplice(Gaps(lo, p, e), e, x, n, Rest(q, hi));
  }

  /** Compaction's scan for the address just past the previous block finds the
      run of the gap that follows it. */
  lemma {:induction false} GapsFindAfter(lo: nat, p: seq<Range>, q: seq<Range>, hi: nat)
    requires Chained(lo, p + q, hi)
    requires EndOf(lo, p) < NextStart(q, hi)
    ensures FindRun(Gaps(lo, p + q, hi), EndOf(lo, p)) == |Gaps(lo, p, EndOf(lo, p))|
  {
    var e := EndOf(lo, p);
    GapsSplit(lo, p, q, hi);
    GapsBeforeEnd(lo, p);
    assert Gaps(e, q, hi) == Gap(e, NextStart(q, hi)) + Rest(q, hi);
    assert Gaps(lo, p + q, hi) == Gaps(lo, p, e) + Gap(e, NextStart(q, hi)) + Rest(q, hi);
    FindRunSplice(Gaps(lo, p, e), e, NextStart(q, hi), Rest(q, hi));
  }

  /** Compaction slides block `x` down to the end of the blocks before it:
      after releasing `x`, the run found at that end has room for `y` at its
      front, and grabbing `y` there gives the gaps of the slid layout. */
  lemma {:induction false} GapsSlide(lo: nat, p: seq<Range>, x: Range, q: seq<Range>, hi: nat, y: Range)
    requires Chained(lo, p + [x] + q, hi)
    requires y.start == EndOf(lo, p) < x.start && y.len == x.len
    ensures Chained(lo, p + [y] + q, hi)
    ensures CanMove(Gaps(lo, p + [x] + q, hi), x, y)
    ensures Moved(Gaps(lo, p + [x] + q, hi), x, y) == Gaps(lo, p + [y] + q, hi)
  {
    GapsRemove(lo, p, x, q, hi);
    GapsWith(lo, p, x, q, hi);
    GapsFindAfter(lo, p, q, hi);
    GapsInsert(lo, p, y, q, hi);
  }

  /** Cutting the first block in two contiguous pieces leaves the gaps alone. */
  lemma {:induction false} GapsCutFirst(e: nat, x: Range, q: seq<Range>, hi: nat, k: nat)
    requires Chained(e, [x] + q, hi) && 0 < k < x.len
    ensures Chained(e, [Range(x.start, k)] + [Range(x.start + k, x.len - k)] + q, hi)
    ensures Gaps(e, [Range(x.start, k)] + [Range(x.start + k, x.len - k)] + q, hi) == Gaps(e, [x] + q, hi)
  {
    var x1, x2 := Range(x.start, k), Range(x.start + k, x.len - k);
    var t, t' := [x] + q, [x1] + [x2] + q;
    assert t[0] == x && t[1..] == q;
    assert t'[0] == x1 && t'[1..] == [x2] + q;
    assert ([x2] + q)[0] == x2 && ([x2] + q)[1..] == q;
    assert Gaps(End(x1), [x2] + q, hi) == Gaps(End(x), q, hi);
  }

  /** Cutting a block in two contiguous pieces leaves the gaps alone. */
  lemma {:induction false} GapsCut(lo: nat, p: seq<Range>, x: Range, q: seq<Range>, hi: nat, k: nat)
    requires Chained(lo, p + [x] + q, hi) && 0 < k < x.len
    ensures Chained(lo, p + [Range(x.start, k)] + [Range(x.start + k, x.len - k)] + q, hi)
    ensures Gaps(lo, p + [Range(x.start, k)] + [Range(x.start + k, x.len - k)] + q, hi) == Gaps(lo, p + [x] + q, hi)
  {
    var x1, x2 := Range(x.start, k), Range(x.start + k, x.len - k);
    assert p + [x] + q == p + ([x] + q);
    assert p + [x1] + [x2] + q == p + ([x1] + [x2] + q);
    GapsSplit(lo, p, [x] + q, hi);
    GapsSplit(lo, p, [x1] + [x2] + q, hi);
    GapsCutFirst(EndOf(lo, p), x, q, hi, k);
  }

  /** Shrinking a block in place: releasing its tail into the gaps of the
      layout gives the gaps of the layout with the shorter block. */
  lemma {:induction false} GapsShrink(lo: nat, p: seq<Range>, x: Range, q: seq<Range>, hi: nat, k: nat)
    requires Chained(lo, p + [x] + q, hi) && 0 < k < x.len
    ensures Chained(lo, p + [Range(x.start, k)] + q, hi)
    ensures Released(Gaps(lo, p + [x] + q, hi), Range(x.start + k, x.len - k)) == Gaps(lo, p + [Range(x.start, k)] + q, hi)
  {
    var x1, x2 := Range(x.start, k), Range(x.start + k, x.len - k);
    GapsCut(lo, p, x, q, hi, k);
    assert p + [x1] + [x2] + q == (p + [x1]) + [x2] + q;
    GapsRemove(lo, p + [x1], x2, q, hi);
  }

  /** Which blocks precede free run `r`: the layout splits right before it. */
  lemma {:induction false} LocateGap(lo: nat, bs: seq<Range>, hi: nat, r: nat)
    requires Chained(lo, bs, hi) && r < |Gaps(lo, bs, hi)|
    ensures BlocksBefore(bs, Gaps(lo, bs, hi)[r].start) <= |bs|
    ensures var j := BlocksBefore(bs, Gaps(lo, bs, hi)[r].start);
      EndOf(lo, bs[..j]) == Gaps(lo, bs, hi)[r].start &&
      NextStart(bs[j..], hi) == End(Gaps(lo, bs, hi)[r]) &&
      |Gaps(lo, bs[..j], EndOf(lo, bs[..j]))| == r
    decreases |bs|
  {
    var G := Gaps(lo, bs, hi);
    var a := G[r].start;
    if |bs| == 0 {
      assert bs[..0] == [] && bs[0..] == [];
    } else {
      var g, t := Gap(lo, bs[0].start), Gaps(End(bs[0]), bs[1..], hi);
      assert G == g + t;
      if r < |g| {
        assert G[r] == Range(lo, bs[0].start - lo);
        assert BlocksBefore(bs, a) == 0;
        assert bs[..0] == [] && bs[0..] == bs;
      } else {
        var r' := r - |g|;
        assert G[r] == t[r'];
        GapsWithin(End(bs[0]), bs[1..], hi);
        assert a >= End(bs[0]) > bs[0].start;
        LocateGap(End(bs[0]), bs[1..], hi, r');
        var j' := BlocksBefore(bs[1..], a);
        assert BlocksBefore(bs, a) == 1 + j';
        var j := 1 + j';
        assert bs[..j] == [bs[0]] + bs[1..][..j'];
        assert bs[j..] == bs[1..][j'..];
        assert EndOf(lo, bs[..j]) == EndOf(End(bs[0]), bs[1..][..j']);
        assert ([bs[0]] + bs[1..][..j'])[1..] == bs[1..][..j'];
        assert Gaps(lo, bs[..j], EndOf(lo, bs[..j])) ==
          g + Gaps(End(bs[0]), bs[1..][..j'], EndOf(End(bs[0]), bs[1..][..j']));
      }
    }
  }

  // ---------------------------------------------------------------------
  // What a single release or grab does to any free list.

  /** Replacing the runs [i, j) of a list by `mid` changes its byte count by
      the difference of the two. */
  lemma {:induction false} SumLenReplace(rs: seq<Range>, i: nat, j: nat, mid: seq<Range>)
    requires i <= j <= |rs|
    ensures SumLen(rs[..i] + mid + rs[j..]) + SumLen(rs[i..j]) == SumLen(rs) + SumLen(mid)
  {
    assert rs == rs[..i] + rs[i..j] + rs[j..];
    SumLenConcat(rs[..i] + rs[i..j], rs[j..]);
    SumLenConcat(rs[..i], rs[i..j]);
    SumLenConcat(rs[..i] + mid, rs[j..]);
    SumLenConcat(rs[..i], mid);
  }

  lemma {:induction false} SumLenOne(r: Range)
    ensures SumLen([r]) == r.len
  {
    assert [r][1..] == [];
  }

  lemma {:induction false} SumLenTwo(rs: seq<Range>, i: nat)
    requires i + 2 <= |rs|
    ensures SumLen(rs[i..i + 2]) == rs[i].len + rs[i + 1].len
  {
    var t := rs[i..i + 2];
    assert t[1..] == [rs[i + 1]];
    SumLenOne(rs[i + 1]);
  }

  /** Replacing run `k` by `mid` trades its bytes for those of `mid`. */
  lemma {:induction false} SumLenSwapOne(rs: seq<Range>, k: nat, mid: seq<Range>)
    requires k < |rs|
    ensures SumLen(rs[..k] + mid + rs[k + 1..]) + rs[k].len == SumLen(rs) + SumLen(mid)
  {
    assert rs[k..k + 1] == [rs[k]];
    SumLenReplace(rs, k, k + 1, mid);
    SumLenOne(rs[k]);
  }

  /** GrabMemoryRange takes exactly the padded length out of the free bytes. */
  lemma {:induction false} GrabbedSum(rs: seq<Range>, k: nat, x: Range)
    requires k < |rs| && AtEdge(rs[k], x)
    ensures SumLen(GrabbedAt(rs, k, x)) + x.len == SumLen(rs)
  {
    var r := rs[k];
    if r.start == x.start && r.len == x.len {
      SumLenSwapOne(rs, k, []);
      assert rs[..k] + [] + rs[k + 1..] == rs[..k] + rs[k + 1..];
    } else if r.start == x.start {
      SumLenSwapOne(rs, k, [Range(End(x), r.len - x.len)]);
      SumLenOne(Range(End(x), r.len - x.len));
    } else {
      SumLenSwapOne(rs, k, [Range(r.start, x.start - r.start)]);
      SumLenOne(Range(r.start, x.start - r.start));
    }
  }

  /** ReleaseMemoryRange adds exactly the padded length to the free bytes. */
  lemma {:induction false} ReleasedSum(rs: seq<Range>, x: Range)
    ensures SumLen(Released(rs, x)) == SumLen(rs) + x.len
  {
    ReleasedAtSum(rs, x, Below(rs, x.start));
  }

  lemma {:induction false} ReleasedAtSum(rs: seq<Range>, x: Range, k: nat)
    requires k <= |rs|
    ensures SumLen(ReleasedAt(rs, x, k)) == SumLen(rs) + x.len
  {
    if k > 0 && End(rs[k - 1]) == x.start {
      if k < |rs| && End(x) == rs[k].start {
        JoinBothSum(rs, x, k);
      } else {
        SumLenSwapOne(rs, k - 1, [Range(rs[k - 1].start, rs[k - 1].len + x.len)]);
        SumLenOne(Range(rs[k - 1].start, rs[k - 1].len + x.len));
        assert rs[k - 1 + 1..] == rs[k..];
      }
    } else if k < |rs| && End(x) == rs[k].start {
      SumLenSwapOne(rs, k, [Range(x.start, x.len + rs[k].len)]);
      SumLenOne(Range(x.start, x.len + rs[k].len));
    } else {
      InsertSum(rs, x, k);
    }
  }

  lemma {:induction false} JoinBothSum(rs: seq<Range>, x: Range, k: nat)
    requires 0 < k < |rs|
    ensures SumLen(rs[..k - 1] + [Range(rs[k - 1].start, rs[k - 1].len + x.len + rs[k].len)] + rs[k + 1..]) ==
      SumLen(rs) + x.len
  {
    var m := Range(rs[k - 1].start, rs[k - 1].len + x.len + rs[k].len);
    SumLenReplace(rs, k - 1, k + 1, [m]);
    SumLenTwo(rs, k - 1);
    SumLenOne(m);
  }

  lemma {:induction false} InsertSum(rs: seq<Range>, x: Range, k: nat)
    requires k <= |rs|
    ensures SumLen(rs[..k] + [x] + rs[k..]) == SumLen(rs) + x.len
  {
    assert rs[k..k] == [];
    SumLenReplace(rs, k, k, [x]);
    SumLenOne(x);
  }

  lemma {:induction false} SeparatedConcat(a: seq<Range>, b: seq<Range>)
    requires Separated(a) && Separated(b)
    requires |a| > 0 && |b| > 0 ==> End(a[|a| - 1]) < b[0].start
    ensures Separated(a + b)
  {
    var c := a + b;
    forall i, j | 0 <= i < j < |c| ensures End(c[i]) < c[j].start {
      if j < |a| {
        assert c[i] == a[i] && c[j] == a[j];
      } else if i >= |a| {
        assert c[i] == b[i - |a|] && c[j] == b[j - |a|];
      } else {
        assert c[i] == a[i] && c[j] == b[j - |a|];
        assert i < |a| - 1 ==> End(a[i]) < a[|a| - 1].start;
        assert j - |a| > 0 ==> End(b[0]) < b[j - |a|].start;
      }
    }
  }

  lemma {:induction false} SeparatedSlice(rs: seq<Range>, i: nat, j: nat)
    requires Separated(rs) && i <= j <= |rs|
    ensures Separated(rs[i..j])
  {
    var s := rs[i..j];
    forall u, v | 0 <= u < v < |s| ensures End(s[u]) < s[v].start {
      assert s[u] == rs[i + u] && s[v] == rs[i + v];
    }
  }

  /** Replacing one run by a non-empty piece of itself keeps a free list
      ordered and uncoalescable. */
  lemma {:induction false} SeparatedShrink(rs: seq<Range>, k: nat, m: Range)
    requires Separated(rs) && k < |rs|
    requires rs[k].start <= m.start && End(m) <= End(rs[k]) && 0 < m.len
    ensures Separated(rs[..k] + [m] + rs[k + 1..])
  {
    SeparatedSlice(rs, 0, k);
    SeparatedSlice(rs, k + 1, |rs|);
    assert k > 0 ==> End(rs[..k][k - 1]) < rs[k].start;
    SeparatedConcat(rs[..k], [m]);
    assert k + 1 < |rs| ==> End(rs[k]) < rs[k + 1..][0].start;
    SeparatedConcat(rs[..k] + [m], rs[k + 1..]);
  }

  /** GrabMemoryRange keeps the free list ordered and uncoalescable. */
  lemma {:induction false} GrabbedSeparated(rs: seq<Range>, k: nat, x: Range)
    requires Separated(rs) && k < |rs| && AtEdge(rs[k], x)
    ensures Separated(GrabbedAt(rs, k, x))
  {
    var r := rs[k];
    if r.start == x.start && r.len == x.len {
      SeparatedSlice(rs, 0, k);
      SeparatedSlice(rs, k + 1, |rs|);
      assert k > 0 && k + 1 < |rs| ==> End(rs[..k][k - 1]) < rs[k + 1..][0].start;
      SeparatedConcat(rs[..k], rs[k + 1..]);
    } else if r.start == x.start {
      SeparatedShrink(rs, k, Range(End(x), r.len - x.len));
    } else {
      SeparatedShrink(rs, k, Range(r.start, x.start - r.start));
    }
  }

  /** On an ordered free list, the runs before `Below` start at or below `a`
      and the others above it. */
  lemma {:induction false} BelowSplits(rs: seq<Range>, a: nat)
    requires Separated(rs)
    ensures forall i :: 0 <= i < Below(rs, a) ==> rs[i].start <= a
    ensures forall i :: Below(rs, a) <= i < |rs| ==> a < rs[i].start
    decreases |rs|
  {
    if |rs| > 0 {
      SeparatedSlice(rs, 1, |rs|);
      BelowSplits(rs[1..], a);
      if rs[0].start > a {
        forall i | 0 < i < |rs| ensures a < rs[i].start {
          assert End(rs[0]) < rs[i].start;
        }
      } else {
        forall i | 0 < i < |rs| ensures (i < Below(rs, a) ==> rs[i].start <= a) && (Below(rs, a) <= i ==> a < rs[i].start) {
          assert rs[i] == rs[1..][i - 1];
        }
      }
    }
  }

  /** What the forward scan of GrabMemoryRange finds: no run before the one
      it stops at holds `a`, and that one does. */
  lemma {:induction false} FindRunFound(rs: seq<Range>, a: nat)
    ensures forall i :: 0 <= i < FindRun(rs, a) ==> !(rs[i].start <= a < End(rs[i]))
    ensures FindRun(rs, a) < |rs| ==> rs[FindRun(rs, a)].start <= a < End(rs[FindRun(rs, a)])
    decreases |rs|
  {
    if |rs| > 0 && !(rs[0].start <= a < End(rs[0])) {
      FindRunFound(rs[1..], a);
      forall i | 0 < i < FindRun(rs, a) ensures !(rs[i].start <= a < End(rs[i])) {
        assert rs[i] == rs[1..][i - 1];
      }
    }
  }

  /** Where the backward scan of ReleaseMemoryRange stops: the index that the
      scan settles on is `Below`. */
  lemma {:induction false} BelowIs(rs: seq<Range>, a: nat, k: nat)
    requires Separated(rs) && k <= |rs|
    requires forall i :: k <= i < |rs| ==> a < rs[i].start
    requires k > 0 ==> rs[k - 1].start <= a
    ensures Below(rs, a) == k
  {
    BelowSplits(rs, a);
    forall i | 0 <= i < k ensures rs[i].start <= a {
      assert i < k - 1 ==> End(rs[i]) < rs[k - 1].start;
    }
    var b := Below(rs, a);
    if b < |rs| { assert a < rs[b].start; }
    if k < |rs| { assert a < rs[k].start; }
  }

  /** `x` shares no byte with any run. */
  predicate Disjoint(rs: seq<Range>, x: Range)
  {
    forall i :: 0 <= i < |rs| ==> End(rs[i]) <= x.start || End(x) <= rs[i].start
  }

  /** ReleaseMemoryRange of a range that is not already free keeps the free
      list ordered and uncoalescable. */
  lemma {:induction false} ReleasedSeparated(rs: seq<Range>, x: Range)
    requires Separated(rs) && Disjoint(rs, x) && 0 < x.len
    ensures Separated(Released(rs, x))
  {
    var k := Below(rs, x.start);
    BelowSplits(rs, x.start);
    assert k > 0 ==> End(rs[k - 1]) <= x.start;
    assert k < |rs| ==> End(x) <= rs[k].start;
    ReleasedAtSeparated(rs, x, k);
  }

  lemma {:induction false} ReleasedAtSeparated(rs: seq<Range>, x: Range, k: nat)
    requires Separated(rs) && 0 < x.len && k <= |rs|
    requires k > 0 ==> End(rs[k - 1]) <= x.start
    requires k < |rs| ==> End(x) <= rs[k].start
    ensures Separated(ReleasedAt(rs, x, k))
  {
    if k > 0 && End(rs[k - 1]) == x.start {
      if k < |rs| && End(x) == rs[k].start {
        SeparatedJoinBoth(rs, x, k);
      } else {
        SeparatedJoinPrev(rs, x, k);
      }
    } else if k < |rs| && End(x) == rs[k].start {
      SeparatedJoinNext(rs, x, k);
    } else {
      SeparatedInsert(rs, x, k);
    }
  }

  lemma {:induction false} SeparatedJoinBoth(rs: seq<Range>, x: Range, k: nat)
    requires Separated(rs) && 0 < x.len && 0 < k < |rs|
    requires End(rs[k - 1]) == x.start && End(x) == rs[k].start
    ensures Separated(ReleasedAt(rs, x, k))
  {
    var m := Range(rs[k - 1].start, rs[k - 1].len + x.len + rs[k].len);
    MergeAt(rs, k - 1, k + 1, m);
    assert ReleasedAt(rs, x, k) == rs[..k - 1] + [m] + rs[k + 1..];
  }

  lemma {:induction false} SeparatedJoinPrev(rs: seq<Range>, x: Range, k: nat)
    requires Separated(rs) && 0 < x.len && 0 < k <= |rs|
    requires End(rs[k - 1]) == x.start && (k < |rs| ==> End(x) < rs[k].start)
    ensures Separated(ReleasedAt(rs, x, k))
  {
    var m := Range(rs[k - 1].start, rs[k - 1].len + x.len);
    MergeAt(rs, k - 1, k, m);
    assert ReleasedAt(rs, x, k) == rs[..k - 1] + [m] + rs[k..];
  }

  lemma {:induction false} SeparatedJoinNext(rs: seq<Range>, x: Range, k: nat)
    requires Separated(rs) && 0 < x.len && k < |rs|
    requires (k > 0 ==> End(rs[k - 1]) < x.start) && End(x) == rs[k].start
    ensures Separated(ReleasedAt(rs, x, k))
  {
    var m := Range(x.start, x.len + rs[k].len);
    MergeAt(rs, k, k + 1, m);
    assert ReleasedAt(rs, x, k) == rs[..k] + [m] + rs[k + 1..];
  }

  lemma {:induction false} SeparatedInsert(rs: seq<Range>, x: Range, k: nat)
    requires Separated(rs) && 0 < x.len && k <= |rs|
    requires (k > 0 ==> End(rs[k - 1]) < x.start) && (k < |rs| ==> End(x) < rs[k].start)
    ensures Separated(ReleasedAt(rs, x, k))
  {
    MergeAt(rs, k, k, x);
    assert ReleasedAt(rs, x, k) == rs[..k] + [x] + rs[k..];
  }

  /** SeparatedMerge, with the neighbour conditions read off the old list. */
  lemma {:induction false} MergeAt(rs: seq<Range>, i: nat, j: nat, m: Range)
    requires Separated(rs) && i <= j <= |rs| && 0 < m.len
    requires i > 0 ==> (i < |rs| && rs[i].start <= m.start) || End(rs[i - 1]) < m.start
    requires j < |rs| ==> (j > 0 && End(m) <= End(rs[j - 1])) || End(m) < rs[j].start
    ensures Separated(rs[..i] + [m] + rs[j..])
  {
    assert i > 0 && i < |rs| ==> End(rs[i - 1]) < rs[i].start;
    assert j < |rs| && j > 0 ==> End(rs[j - 1]) < rs[j].start;
    SeparatedMerge(rs, i, j, m);
  }

  /** Replacing runs [i, j) by one run that lies strictly between run i - 1 and
      run j keeps a free list ordered and uncoalescable. */
  lemma {:induction false} SeparatedMerge(rs: seq<Range>, i: nat, j: nat, m: Range)
    requires Separated(rs) && i <= j <= |rs| && 0 < m.len
    requires i > 0 ==> End(rs[i - 1]) < m.start
    requires j < |rs| ==> End(m) < rs[j].start
    ensures Separated(rs[..i] + [m] + rs[j..])
  {
    SeparatedSlice(rs, 0, i);
    SeparatedSlice(rs, j, |rs|);
    assert i > 0 ==> rs[..i][i - 1] == rs[i - 1];
    SeparatedConcat(rs[..i], [m]);
    assert j < |rs| ==> rs[j..][0] == rs[j];
    SeparatedConcat(rs[..i] + [m], rs[j..]);
  }
}
