// Handle records of the memory manager and the list operations on them, as
// values. The class in memory_manager.dfy keeps its lists in these shapes.
module HandleRecords {
  import opened Align
  import opened MemoryLedger

  /** The NULL pointer / NULL handle. Real handle records have ids above 0. */
  const NULL: nat := 0

  /** The handle flag bits the core reads or writes. */
  datatype Flag = Fixed | Locked | Purgable | Malloc

  /** A handle record: data pointer (NULL once purged), requested length,
      flags, and the bytes the block holds. */
  datatype Handle = Handle(data: nat, length: nat, flags: set<Flag>, content: seq<bv8>)

  /** A free-list entry: the handle record it occupies and the run it describes. */
  datatype Run = Run(rec: nat, start: nat, len: nat)

  /** Which free run GrabMemoryRange takes from: the caller names it, or
      the routine scans for it. */
  datatype Hint = Scan | At(k: nat)

  /** The stages of AllocHandle's search; the first two are also what the
      application's purge callback is told. */
  datatype Stage = StageCompact | StagePurge | StageHailMary

  function RangeOf(r: Run): Range { Range(r.start, r.len) }

  /** The address ranges of the free list. */
  function Ranges(rs: seq<Run>): (g: seq<Range>)
    ensures |g| == |rs| && forall i {:trigger g[i]} :: 0 <= i < |rs| ==> g[i] == RangeOf(rs[i])
  {
    seq(|rs|, i requires 0 <= i < |rs| => RangeOf(rs[i]))
  }

  predicate AllIn(ids: seq<nat>, hs: map<nat, Handle>)
  {
    forall i :: 0 <= i < |ids| ==> ids[i] in hs
  }

  /** The block a handle occupies: its data and its padded length. */
  function BlockOf(h: Handle, a: nat): Range
    requires a > 0
  {
    Range(h.data, Pad(h.length, a))
  }

  /** The blocks of the used list, in list order. */
  function Blocks(hs: map<nat, Handle>, ids: seq<nat>, a: nat): (b: seq<Range>)
    requires a > 0 && AllIn(ids, hs)
    ensures |b| == |ids| && forall i {:trigger b[i]} :: 0 <= i < |ids| ==> b[i] == BlockOf(hs[ids[i]], a)
  {
    seq(|ids|, i requires 0 <= i < |ids| => BlockOf(hs[ids[i]], a))
  }

  predicate Distinct(s: seq<nat>)
  {
    forall i, j :: 0 <= i < j < |s| ==> s[i] != s[j]
  }

  /** Position of `x` in `s`, or |s| when it is absent. */
  function IndexOf(s: seq<nat>, x: nat): (k: nat)
    ensures k <= |s|
    ensures k < |s| ==> s[k] == x
    ensures forall i :: 0 <= i < k ==> s[i] != x
    decreases |s|
  {
    if |s| == 0 then 0 else if s[0] == x then 0 else 1 + IndexOf(s[1..], x)
  }

  /** `s` with the element at `k` unlinked. */
  function RemoveAt(s: seq<nat>, k: nat): seq<nat>
    requires k < |s|
  {
    s[..k] + s[k + 1..]
  }

  /** `s` with `x` unlinked, if it is there. */
  function Unlink(s: seq<nat>, x: nat): (r: seq<nat>)
  {
    var k := IndexOf(s, x);
    if k < |s| then RemoveAt(s, k) else s
  }

  lemma {:induction false} UnlinkSpec(s: seq<nat>, x: nat)
    requires Distinct(s)
    ensures Distinct(Unlink(s, x))
    ensures x !in Unlink(s, x)
    ensures forall y :: y in Unlink(s, x) <==> y in s && y != x
  {
    var k := IndexOf(s, x);
    if k < |s| {
      var r := RemoveAt(s, k);
      forall i, j | 0 <= i < j < |r| ensures r[i] != r[j] {
        var i', j' := if i < k then i else i + 1, if j < k then j else j + 1;
        assert r[i] == s[i'] && r[j] == s[j'];
      }
      forall y ensures y in r <==> y in s && y != x {
        if y in r {
          var i :| 0 <= i < |r| && r[i] == y;
          var i' := if i < k then i else i + 1;
          assert s[i'] == y && i' != k;
        }
        if y in s && y != x {
          var i :| 0 <= i < |s| && s[i] == y;
          assert i != k;
          if i < k { assert r[i] == y; } else { assert r[i - 1] == y; }
        }
      }
    }
  }

  lemma {:induction false} DistinctCons(x: nat, s: seq<nat>)
    requires Distinct(s) && x !in s
    ensures Distinct([x] + s)
  {
    var r := [x] + s;
    forall i, j | 0 <= i < j < |r| ensures r[i] != r[j] {
      assert r[j] == s[j - 1];
      if i > 0 { assert r[i] == s[i - 1]; }
    }
  }

  lemma {:induction false} DistinctInsert(s: seq<nat>, j: nat, x: nat)
    requires Distinct(s) && x !in s && j <= |s|
    ensures Distinct(s[..j] + [x] + s[j..])
    ensures forall y :: y in s[..j] + [x] + s[j..] <==> y in s || y == x
  {
    var r := s[..j] + [x] + s[j..];
    assert s == s[..j] + s[j..];
    forall i, k | 0 <= i < k < |r| ensures r[i] != r[k] {
      var i', k' := if i < j then i else i - 1, if k < j then k else k - 1;
      if i != j && k != j {
        assert r[i] == s[i'] && r[k] == s[k'];
      } else if i == j {
        assert r[k] == s[k'];
      } else {
        assert r[i] == s[i'];
      }
    }
  }

  /** Unlinking an entry that is there shortens a list by one. */
  lemma {:induction false} UnlinkShorter(s: seq<nat>, x: nat)
    requires x in s
    ensures |Unlink(s, x)| == |s| - 1
  {
    var i :| 0 <= i < |s| && s[i] == x;
    assert IndexOf(s, x) <= i;
  }

  /** A list of distinct entries, all drawn from the distinct list `a`, is
      no longer than `a`. */
  lemma {:induction false} DistinctNoLonger(a: seq<nat>, b: seq<nat>)
    requires Distinct(a) && Distinct(b) && forall x :: x in b ==> x in a
    ensures |b| <= |a|
    decreases |b|
  {
    if |b| > 0 {
      var x := b[0];
      var b' := b[1..];
      UnlinkSpec(a, x);
      UnlinkShorter(a, x);
      forall y | y in b' ensures y in Unlink(a, x) {
        var i :| 0 <= i < |b'| && b'[i] == y;
        assert b[i + 1] == y;
      }
      DistinctNoLonger(Unlink(a, x), b');
    }
  }

  /** ... and strictly shorter when an entry of `a` is missing from it. */
  lemma {:induction false} DistinctShorter(a: seq<nat>, b: seq<nat>, x: nat)
    requires Distinct(a) && Distinct(b) && x in a && x !in b
    requires forall y :: y in b ==> y in a
    ensures |b| < |a|
  {
    UnlinkSpec(a, x);
    UnlinkShorter(a, x);
    DistinctNoLonger(Unlink(a, x), b);
  }

  /** The bytes of a block no one has written yet, taken as zero. */
  function Zeros(n: nat): (z: seq<bv8>)
    ensures |z| == n
  {
    seq(n, i => 0)
  }

  // ---------------------------------------------------------------------
  // How the blocks of the used list follow its edits.

  lemma {:induction false} BlocksAgree(hs1: map<nat, Handle>, ids1: seq<nat>, hs2: map<nat, Handle>, ids2: seq<nat>, a: nat)
    requires a > 0 && AllIn(ids1, hs1) && AllIn(ids2, hs2) && |ids1| == |ids2|
    requires forall i :: 0 <= i < |ids1| ==> BlockOf(hs1[ids1[i]], a) == BlockOf(hs2[ids2[i]], a)
    ensures Blocks(hs1, ids1, a) == Blocks(hs2, ids2, a)
  {
  }

  /** A new record `id` placed at position `j` of the used list. */
  lemma {:induction false} BlocksInsert(hs: map<nat, Handle>, ids: seq<nat>, j: nat, id: nat, h: Handle, a: nat)
    requires a > 0 && AllIn(ids, hs) && id !in ids && j <= |ids|
    ensures AllIn(ids[..j] + [id] + ids[j..], hs[id := h])
    ensures Blocks(hs[id := h], ids[..j] + [id] + ids[j..], a) ==
      Blocks(hs, ids, a)[..j] + [BlockOf(h, a)] + Blocks(hs, ids, a)[j..]
  {
    var ids' := ids[..j] + [id] + ids[j..];
    var hs' := hs[id := h];
    var b, b' := Blocks(hs, ids, a), Blocks(hs', ids', a);
    forall i | 0 <= i < |ids'| ensures ids'[i] in hs' && b'[i] == (b[..j] + [BlockOf(h, a)] + b[j..])[i] {
      if i < j {
        assert ids'[i] == ids[i];
      } else if i > j {
        assert ids'[i] == ids[i - 1];
      }
    }
  }

  /** The record at position `j` unlinked from the used list; the other
      records keep their blocks. */
  lemma {:induction false} BlocksRemove(hs: map<nat, Handle>, ids: seq<nat>, j: nat, hs': map<nat, Handle>, a: nat)
    requires a > 0 && AllIn(ids, hs) && Distinct(ids) && j < |ids|
    requires forall i :: 0 <= i < |ids| && i != j ==> ids[i] in hs' && hs'[ids[i]] == hs[ids[i]]
    ensures AllIn(RemoveAt(ids, j), hs')
    ensures Blocks(hs', RemoveAt(ids, j), a) == Blocks(hs, ids, a)[..j] + Blocks(hs, ids, a)[j + 1..]
  {
    var ids' := RemoveAt(ids, j);
    var b := Blocks(hs, ids, a);
    forall i | 0 <= i < |ids'| ensures ids'[i] in hs' && hs'[ids'[i]] == hs[ids'[i]] {
      if i < j { assert ids'[i] == ids[i]; } else { assert ids'[i] == ids[i + 1]; }
    }
    var b' := Blocks(hs', ids', a);
    forall i | 0 <= i < |ids'| ensures b'[i] == (b[..j] + b[j + 1..])[i] {
      if i < j { assert ids'[i] == ids[i]; } else { assert ids'[i] == ids[i + 1]; }
    }
  }

  /** The record at position `j` given a new block; the others keep theirs. */
  lemma {:induction false} BlocksUpdate(hs: map<nat, Handle>, ids: seq<nat>, j: nat, h: Handle, a: nat)
    requires a > 0 && AllIn(ids, hs) && Distinct(ids) && j < |ids|
    ensures AllIn(ids, hs[ids[j] := h])
    ensures Blocks(hs[ids[j] := h], ids, a) == Blocks(hs, ids, a)[j := BlockOf(h, a)]
  {
    var hs' := hs[ids[j] := h];
    forall i | 0 <= i < |ids| && i != j ensures hs'[ids[i]] == hs[ids[i]] {
      assert ids[i] != ids[j];
    }
  }

  /** The free list's ranges follow its edits. */
  lemma {:induction false} RangesSplice(rs: seq<Run>, i: nat, j: nat, mid: seq<Run>)
    requires i <= j <= |rs|
    ensures Ranges(rs[..i] + mid + rs[j..]) == Ranges(rs)[..i] + Ranges(mid) + Ranges(rs)[j..]
  {
  }
}

// The handle records themselves: every record is a live handle, sits in the
// free-handle pool, or describes a free run, and never two of these at once.
module RecordPool {
  import opened HandleRecords

  predicate RecordsApart(keys: set<nat>, pool: seq<nat>, free: seq<Run>, next: nat)
  {
    (forall id :: id in keys ==> 0 < id < next) &&
    (forall i :: 0 <= i < |pool| ==> 0 < pool[i] < next && pool[i] !in keys) &&
    (forall i :: 0 <= i < |free| ==> 0 < free[i].rec < next && free[i].rec !in keys && free[i].rec !in pool) &&
    Distinct(pool) && (forall i, j :: 0 <= i < j < |free| ==> free[i].rec != free[j].rec)
  }

  /** A record that is in none of the three roles. */
  predicate Spare(keys: set<nat>, pool: seq<nat>, free: seq<Run>, next: nat, id: nat)
  {
    0 < id < next && id !in keys && id !in pool && forall i :: 0 <= i < |free| ==> free[i].rec != id
  }

  /** The records `first`, `first + 1`, ... of a fresh batch, in order. */
  function Batch(first: nat, n: nat): (s: seq<nat>)
    ensures |s| == n && forall i :: 0 <= i < n ==> s[i] == first + i
  {
    seq(n, i requires 0 <= i < n => first + i)
  }

  lemma {:induction false} PoolPop(keys: set<nat>, pool: seq<nat>, free: seq<Run>, next: nat)
    requires RecordsApart(keys, pool, free, next) && |pool| > 0
    ensures RecordsApart(keys, pool[1..], free, next)
    ensures Spare(keys, pool[1..], free, next, pool[0])
  {
    assert pool == [pool[0]] + pool[1..];
    forall i | 0 <= i < |free| ensures free[i].rec !in pool[1..] {
      assert free[i].rec !in pool;
    }
    forall i | 0 <= i < |pool| - 1 ensures pool[1..][i] != pool[0] {
      assert pool[1..][i] == pool[i + 1];
    }
  }

  lemma {:induction false} PoolRefill(keys: set<nat>, free: seq<Run>, next: nat, n: nat)
    requires RecordsApart(keys, [], free, next) && n >= 1 && next > 0
    ensures RecordsApart(keys, Batch(next + 1, n - 1), free, next + n)
    ensures Spare(keys, Batch(next + 1, n - 1), free, next + n, next)
  {
    var b := Batch(next + 1, n - 1);
    assert forall id :: id in b ==> next < id;
  }

  /** A spare record becomes a handle. */
  lemma {:induction false} Adopt(keys: set<nat>, pool: seq<nat>, free: seq<Run>, next: nat, id: nat)
    requires RecordsApart(keys, pool, free, next) && Spare(keys, pool, free, next, id)
    ensures RecordsApart(keys + {id}, pool, free, next)
  {
  }

  /** A record no batch has produced yet becomes a handle. */
  lemma {:induction false} Mint(keys: set<nat>, pool: seq<nat>, free: seq<Run>, next: nat)
    requires RecordsApart(keys, pool, free, next) && next > 0
    ensures next !in keys && RecordsApart(keys + {next}, pool, free, next + 1)
  {
    forall i | 0 <= i < |pool| ensures pool[i] !in keys + {next} {
      assert pool[i] < next;
    }
    forall i | 0 <= i < |free| ensures free[i].rec !in keys + {next} {
      assert free[i].rec < next;
    }
  }

  /** A spare record goes back on the head of the pool. */
  lemma {:induction false} Recycle(keys: set<nat>, pool: seq<nat>, free: seq<Run>, next: nat, id: nat)
    requires RecordsApart(keys, pool, free, next) && Spare(keys, pool, free, next, id)
    ensures RecordsApart(keys, [id] + pool, free, next)
  {
    DistinctCons(id, pool);
  }

  /** A handle is discarded and its record goes on the head of the pool. */
  lemma {:induction false} Discard(keys: set<nat>, pool: seq<nat>, free: seq<Run>, next: nat, id: nat)
    requires RecordsApart(keys, pool, free, next) && id in keys
    ensures RecordsApart(keys - {id}, [id] + pool, free, next)
  {
    DistinctCons(id, pool);
  }

  /** The free run `k` disappears and its record goes on the head of the pool. */
  lemma {:induction false} Retire(keys: set<nat>, pool: seq<nat>, free: seq<Run>, next: nat, k: nat)
    requires RecordsApart(keys, pool, free, next) && k < |free|
    ensures RecordsApart(keys, [free[k].rec] + pool, free[..k] + free[k + 1..], next)
  {
    var f := free[..k] + free[k + 1..];
    var rec := free[k].rec;
    DistinctCons(rec, pool);
    forall i | 0 <= i < |f| ensures f[i] == free[if i < k then i else i + 1] {
    }
    forall i | 0 <= i < |f| ensures f[i].rec != rec {
      var i' := if i < k then i else i + 1;
      assert free[i'].rec != free[k].rec;
    }
    forall i, j | 0 <= i < j < |f| ensures f[i].rec != f[j].rec {
      var i', j' := if i < k then i else i + 1, if j < k then j else j + 1;
      assert free[i'].rec != free[j'].rec;
    }
  }

  /** The free run `k` is given new bounds and keeps its record. */
  lemma {:induction false} Keep(keys: set<nat>, pool: seq<nat>, free: seq<Run>, next: nat, k: nat, m: Run)
    requires RecordsApart(keys, pool, free, next) && k < |free| && m.rec == free[k].rec
    ensures RecordsApart(keys, pool, free[..k] + [m] + free[k + 1..], next)
  {
    var f := free[..k] + [m] + free[k + 1..];
    assert forall i :: 0 <= i < |f| ==> f[i].rec == free[i].rec;
  }

  /** Run `k - 1` grows over run `k`, whose record goes on the head of the pool. */
  lemma {:induction false} Absorb(keys: set<nat>, pool: seq<nat>, free: seq<Run>, next: nat, k: nat, m: Run)
    requires RecordsApart(keys, pool, free, next) && 0 < k < |free| && m.rec == free[k - 1].rec
    ensures RecordsApart(keys, [free[k].rec] + pool, free[..k - 1] + [m] + free[k + 1..], next)
  {
    Keep(keys, pool, free, next, k - 1, m);
    var f1 := free[..k - 1] + [m] + free[k..];
    Retire(keys, pool, f1, next, k);
    assert f1[..k] + f1[k + 1..] == free[..k - 1] + [m] + free[k + 1..];
  }

  /** A new free run with a spare record is linked in at position `k`. */
  lemma {:induction false} Insert(keys: set<nat>, pool: seq<nat>, free: seq<Run>, next: nat, k: nat, r: Run)
    requires RecordsApart(keys, pool, free, next) && k <= |free| && Spare(keys, pool, free, next, r.rec)
    ensures RecordsApart(keys, pool, free[..k] + [r] + free[k..], next)
  {
    var f := free[..k] + [r] + free[k..];
    forall i | 0 <= i < |f| ensures i != k ==> f[i] == free[if i < k then i else i - 1] {
    }
    forall i, j | 0 <= i < j < |f| ensures f[i].rec != f[j].rec {
      var i', j' := if i < k then i else i - 1, if j < k then j else j - 1;
      if i != k && j != k {
        assert free[i'].rec != free[j'].rec;
      }
    }
  }
}
