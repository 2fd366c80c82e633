// The handle-based memory manager (MemoryManagerHandle): one arena shared by
// relocatable and fixed blocks, a free-run ledger, a purged-handle list and a
// purge FIFO, over a pool of handle records.
//
// The source keeps every list as a circular doubly-linked list of handle
// records threaded through sentinels. Here each list is a sequence field:
//   used    the records that own arena memory, in address order (the
//           sentinels are the arena bounds `lo` and `hi`);
//   purged  the purged records, head first;
//   fifo    the purge FIFO, head (most recently marked) first;
//   free    the free runs in address order, each with the record it occupies;
//   pool    the free-handle pool, head first.
// A handle is named by its record id; NULL is 0.
module MemoryManager {
  import opened Align
  import opened MemoryLedger
  import opened LedgerLemmas
  import opened HandleRecords
  import opened RecordPool
  import opened HandleEdits

  /** A handle whose data lives in the arena. */
  predicate Resident(h: Handle)
  {
    Malloc !in h.flags && 0 < h.length && |h.content| == h.length
  }

  /** A purged handle: no data, but it keeps its length and flags. */
  predicate Evicted(h: Handle)
  {
    h.data == NULL && Malloc !in h.flags && 0 < h.length && h.content == []
  }

  /** A handle whose memory came from the operating system directly. */
  predicate Detached(h: Handle)
  {
    Malloc in h.flags && 0 < h.length && |h.content| == h.length
  }

  /** A handle CompactHandles may move: neither locked nor fixed. */
  predicate Movable(h: Handle)
  {
    Locked !in h.flags && Fixed !in h.flags
  }

  /** What Purge leaves of a handle: no data, the lock cleared. */
  function Evict(h: Handle): Handle
  {
    Handle(NULL, h.length, h.flags - {Locked}, [])
  }

  /** The arena [lo, hi) is tiled by the blocks of the used list, in address
      order, and the runs of the free list, which are exactly the gaps. */
  ghost predicate Tiled(align: nat, lo: nat, hi: nat, hs: map<nat, Handle>, used: seq<nat>, free: seq<Run>)
  {
    align > 0 && 0 < lo && Aligned(lo, align) && AllIn(used, hs) &&
    (forall i :: 0 <= i < |used| ==> Resident(hs[used[i]])) &&
    Chained(lo, Blocks(hs, used, align), hi) &&
    Ranges(free) == Gaps(lo, Blocks(hs, used, align), hi)
  }

  /** Each handle is on the used list, on the purged list, or came from the
      operating system; the purge FIFO holds handles of the first two kinds. */
  ghost predicate Listed(hs: map<nat, Handle>, used: seq<nat>, purged: seq<nat>, fifo: seq<nat>)
  {
    Distinct(used) && Distinct(purged) && Distinct(fifo) &&
    AllIn(purged, hs) &&
    (forall i :: 0 <= i < |purged| ==> Evicted(hs[purged[i]])) &&
    (forall i, j :: 0 <= i < |used| && 0 <= j < |purged| ==> used[i] != purged[j]) &&
    (forall id :: id in hs ==> id in used || id in purged || Detached(hs[id])) &&
    (forall i :: 0 <= i < |fifo| ==> fifo[i] in used || fifo[i] in purged)
  }

  /** A used block lies inside the arena, and the free list is ordered. */
  lemma {:induction false} TiledResident(align: nat, lo: nat, hi: nat, hs: map<nat, Handle>, used: seq<nat>, free: seq<Run>, j: nat)
    requires Tiled(align, lo, hi, hs, used, free) && j < |used|
    ensures 0 < lo <= hs[used[j]].data && hs[used[j]].data + Pad(hs[used[j]].length, align) <= hi
    ensures Separated(Ranges(free))
  {
    var b := Blocks(hs, used, align);
    ChainedOrder(lo, b, hi);
    assert b[j] == BlockOf(hs[used[j]], align);
    GapsSeparated(lo, b, hi);
  }

  /** Taking the block at position `j` off the used list and releasing it
      leaves a tiling. */
  lemma {:induction false} TiledRemove(align: nat, lo: nat, hi: nat, hs: map<nat, Handle>, used: seq<nat>, free: seq<Run>, j: nat,
                    hs': map<nat, Handle>, free': seq<Run>)
    requires Tiled(align, lo, hi, hs, used, free) && Distinct(used) && j < |used|
    requires forall i :: 0 <= i < |used| && i != j ==> used[i] in hs' && hs'[used[i]] == hs[used[i]]
    requires Ranges(free') == Released(Ranges(free), BlockOf(hs[used[j]], align))
    ensures Tiled(align, lo, hi, hs', RemoveAt(used, j), free')
  {
    var b := Blocks(hs, used, align);
    assert b == b[..j] + [b[j]] + b[j + 1..];
    GapsRemove(lo, b[..j], b[j], b[j + 1..], hi);
    BlocksRemove(hs, used, j, hs', align);
    var u := RemoveAt(used, j);
    forall i | 0 <= i < |u| ensures Resident(hs'[u[i]]) {
      if i < j { assert u[i] == used[i]; } else { assert u[i] == used[i + 1]; }
    }
  }

  /** A new resident handle placed at an edge of free run `r` goes on the
      used list just after the blocks below that run. */
  lemma {:induction false} TiledInsert(align: nat, lo: nat, hi: nat, hs: map<nat, Handle>, used: seq<nat>, free: seq<Run>, r: nat,
                    id: nat, h: Handle, free': seq<Run>)
    requires Tiled(align, lo, hi, hs, used, free) && r < |free|
    requires id !in hs && Resident(h) && AtEdge(RangeOf(free[r]), BlockOf(h, align))
    requires Ranges(free') == GrabbedAt(Ranges(free), r, BlockOf(h, align))
    ensures BlocksBefore(Blocks(hs, used, align), free[r].start) <= |used|
    ensures var j := BlocksBefore(Blocks(hs, used, align), free[r].start);
      Tiled(align, lo, hi, hs[id := h], used[..j] + [id] + used[j..], free')
  {
    var b := Blocks(hs, used, align);
    var g := Gaps(lo, b, hi);
    var x := BlockOf(h, align);
    assert g[r] == RangeOf(free[r]);
    LocateGap(lo, b, hi, r);
    var j := BlocksBefore(b, g[r].start);
    GapsWithin(lo, b, hi);
    PadBounds(h.length, align);
    assert b[..j] + b[j..] == b;
    GapsInsert(lo, b[..j], x, b[j..], hi);
    assert id !in used;
    BlocksInsert(hs, used, j, id, h, align);
    var u := used[..j] + [id] + used[j..];
    var hs' := hs[id := h];
    forall i | 0 <= i < |u| ensures Resident(hs'[u[i]]) {
      if i < j { assert u[i] == used[i]; } else if i > j { assert u[i] == used[i - 1]; }
    }
  }

  /** A handle that is not on the used list can go without disturbing the tiling. */
  lemma {:induction false} TiledForget(align: nat, lo: nat, hi: nat, hs: map<nat, Handle>, used: seq<nat>, free: seq<Run>, id: nat)
    requires Tiled(align, lo, hi, hs, used, free) && id !in used
    ensures Tiled(align, lo, hi, hs - {id}, used, free)
  {
    var hs' := hs - {id};
    forall i | 0 <= i < |used| ensures used[i] in hs' && hs'[used[i]] == hs[used[i]] {}
    BlocksAgree(hs, used, hs', used, align);
  }

  /** Where a handle is: an arena handle with data is on the used list, one
      without on the purged list, and a handle from the operating system on
      no list at all. */
  lemma {:induction false} Whereabouts(align: nat, lo: nat, hi: nat, hs: map<nat, Handle>, used: seq<nat>, purged: seq<nat>,
                    fifo: seq<nat>, free: seq<Run>, id: nat)
    requires Tiled(align, lo, hi, hs, used, free) && Listed(hs, used, purged, fifo) && id in hs
    ensures Malloc in hs[id].flags ==>
      id !in used && id !in purged && id !in fifo &&
      Unlink(used, id) == used && Unlink(purged, id) == purged && Unlink(fifo, id) == fifo
    ensures Malloc !in hs[id].flags && hs[id].data != NULL ==>
      id in used && id !in purged && Unlink(purged, id) == purged
    ensures Malloc !in hs[id].flags && hs[id].data == NULL ==>
      id !in used && id in purged && Unlink(used, id) == used
  {
    if id in used {
      var j := IndexOf(used, id);
      TiledResident(align, lo, hi, hs, used, free, j);
      assert id !in purged;
    }
    if id in purged {
      var j := IndexOf(purged, id);
      assert Evicted(hs[purged[j]]);
    }
  }

  /** A handle with data holds all of its bytes. */
  lemma {:induction false} HeldBytes(align: nat, lo: nat, hi: nat, hs: map<nat, Handle>, used: seq<nat>, purged: seq<nat>,
                                     fifo: seq<nat>, free: seq<Run>, id: nat)
    requires Tiled(align, lo, hi, hs, used, free) && Listed(hs, used, purged, fifo) && id in hs && hs[id].data != NULL
    ensures |hs[id].content| == hs[id].length
  {
    Whereabouts(align, lo, hi, hs, used, purged, fifo, free, id);
    if Malloc !in hs[id].flags {
      assert Resident(hs[used[IndexOf(used, id)]]);
    }
  }

  /** The bytes past the ALIGNMENT-byte header of a block that ReallocHandle
      regrew to `size + align` bytes from old bytes `c0`. */
  lemma {:induction false} PastHeader(c0: seq<bv8>, c: seq<bv8>, size: nat, align: nat, queued: bool)
    requires c == Carry(c0, size + align) || (queued && c == Zeros(size + align))
    ensures |c| == size + align
    ensures c[align..] == Carry(c0, size + align)[align..] || (queued && c[align..] == Zeros(size))
  {
    if c != Carry(c0, size + align) {
      assert c[align..] == Zeros(size);
    }
  }

  /** A handle on the used list is not on the purged list. */
  lemma {:induction false} UsedApart(hs: map<nat, Handle>, used: seq<nat>, purged: seq<nat>, fifo: seq<nat>, j: nat)
    requires Listed(hs, used, purged, fifo) && j < |used|
    ensures used[j] !in purged
  {
    forall k | 0 <= k < |purged| ensures purged[k] != used[j] {}
  }

  /** A used handle's block released and its record forgotten. */
  lemma {:induction false} TiledDrop(align: nat, lo: nat, hi: nat, hs: map<nat, Handle>, used: seq<nat>, free: seq<Run>, id: nat,
                  free': seq<Run>)
    requires Tiled(align, lo, hi, hs, used, free) && Distinct(used) && id in used
    requires Ranges(free') == Released(Ranges(free), BlockOf(hs[id], align))
    ensures Tiled(align, lo, hi, hs - {id}, Unlink(used, id), free')
  {
    TiledRemove(align, lo, hi, hs, used, free, IndexOf(used, id), hs - {id}, free');
  }

  /** A handle with data in the arena is on the used list, inside the arena,
      and the free list is ordered. */
  lemma {:induction false} ResidentPlace(align: nat, lo: nat, hi: nat, hs: map<nat, Handle>, used: seq<nat>, purged: seq<nat>,
                      fifo: seq<nat>, free: seq<Run>, id: nat)
    requires Tiled(align, lo, hi, hs, used, free) && Listed(hs, used, purged, fifo) && id in hs
    requires Malloc !in hs[id].flags && hs[id].data != NULL
    ensures id in used && id !in purged && 0 < hs[id].data && Separated(Ranges(free))
    ensures hs[id].data + Pad(hs[id].length, align) <= hi
  {
    Whereabouts(align, lo, hi, hs, used, purged, fifo, free, id);
    TiledResident(align, lo, hi, hs, used, free, IndexOf(used, id));
  }

  /** FreeHandle of a used handle: its block released, it leaves the used
      list, the FIFO and the map, and the free bytes grow by its padded length. */
  lemma {:induction false} DropUsedState(align: nat, lo: nat, hi: nat, hs: map<nat, Handle>, used: seq<nat>, purged: seq<nat>,
                      fifo: seq<nat>, free: seq<Run>, free': seq<Run>, id: nat)
    requires Tiled(align, lo, hi, hs, used, free) && Listed(hs, used, purged, fifo) && id in used
    requires Ranges(free') == Released(Ranges(free), BlockOf(hs[id], align))
    ensures Tiled(align, lo, hi, hs - {id}, Unlink(used, id), free')
    ensures Listed(hs - {id}, Unlink(used, id), purged, Unlink(fifo, id))
    ensures Unlink(purged, id) == purged
    ensures SumLen(Ranges(free')) == SumLen(Ranges(free)) + Pad(hs[id].length, align)
  {
    var j := IndexOf(used, id);
    TiledResident(align, lo, hi, hs, used, free, j);
    assert id !in purged;
    ListedFree(hs, used, purged, fifo, id);
    ReleasedSum(Ranges(free), BlockOf(hs[id], align));
    TiledDrop(align, lo, hi, hs, used, free, id, free');
  }

  /** A handle's record goes back to the head of the pool. */
  lemma {:induction false} DropRecord(hs: map<nat, Handle>, held: set<nat>, pool: seq<nat>, free: seq<Run>, next: nat, id: nat)
    requires RecordsApart(hs.Keys + held, pool, free, next) && hs.Keys !! held && id in hs
    ensures RecordsApart((hs - {id}).Keys + held, [id] + pool, free, next) && (hs - {id}).Keys !! held
  {
    Discard(hs.Keys + held, pool, free, next, id);
    assert (hs.Keys + held) - {id} == (hs - {id}).Keys + held;
  }

  /** The address just past the blocks before position `j`: the arena start
      for the first block (the low sentinel ends there), else the padded end
      of the block before. It is at or below block `j`. */
  lemma {:induction false} TiledBefore(align: nat, lo: nat, hi: nat, hs: map<nat, Handle>, used: seq<nat>, free: seq<Run>, j: nat)
    requires Tiled(align, lo, hi, hs, used, free) && j < |used|
    ensures EndOf(lo, Blocks(hs, used, align)[..j]) ==
      if j == 0 then lo else hs[used[j - 1]].data + Pad(hs[used[j - 1]].length, align)
    ensures EndOf(lo, Blocks(hs, used, align)[..j]) <= hs[used[j]].data
  {
    var b := Blocks(hs, used, align);
    ChainedOrder(lo, b, hi);
    assert b[j] == BlockOf(hs[used[j]], align);
    if j > 0 {
      assert b[..j][j - 1] == b[j - 1] == BlockOf(hs[used[j - 1]], align);
      assert End(b[j - 1]) <= b[j].start;
    }
  }

  /** Once block `j` is released, the forward scan for `e`, the end of the
      blocks before it, finds a run with room for the block at `e`. */
  lemma {:induction false} TiledSlideRoom(align: nat, lo: nat, hi: nat, hs: map<nat, Handle>, used: seq<nat>, free: seq<Run>,
                          j: nat, e: nat, h: Handle)
    requires Tiled(align, lo, hi, hs, used, free) && j < |used|
    requires e == EndOf(lo, Blocks(hs, used, align)[..j]) && e < hs[used[j]].data
    requires h == hs[used[j]].(data := e)
    ensures CanMove(Ranges(free), BlockOf(hs[used[j]], align), BlockOf(h, align))
  {
    var b := Blocks(hs, used, align);
    assert b == b[..j] + [b[j]] + b[j + 1..];
    GapsSlide(lo, b[..j], b[j], b[j + 1..], hi, BlockOf(h, align));
  }

  /** Block `j` slid down to `e` keeps the tiling once the free list has
      moved its range there. */
  lemma {:induction false} TiledSlide(align: nat, lo: nat, hi: nat, hs: map<nat, Handle>, used: seq<nat>, free: seq<Run>,
                      j: nat, e: nat, h: Handle, free': seq<Run>)
    requires Tiled(align, lo, hi, hs, used, free) && Distinct(used) && j < |used|
    requires e == EndOf(lo, Blocks(hs, used, align)[..j]) && e < hs[used[j]].data
    requires h == hs[used[j]].(data := e)
    requires CanMove(Ranges(free), BlockOf(hs[used[j]], align), BlockOf(h, align))
    requires Ranges(free') == Moved(Ranges(free), BlockOf(hs[used[j]], align), BlockOf(h, align))
    ensures Tiled(align, lo, hi, hs[used[j] := h], used, free')
  {
    var b := Blocks(hs, used, align);
    assert b == b[..j] + [b[j]] + b[j + 1..];
    GapsSlide(lo, b[..j], b[j], b[j + 1..], hi, BlockOf(h, align));
    SlidBlocks(hs, used, j, h, align);
  }

  /** What Slide needs before it moves block `j` down to `e`. */
  lemma {:induction false} SlideRoom(align: nat, lo: nat, hi: nat, hs: map<nat, Handle>, used: seq<nat>, free: seq<Run>,
                     j: nat, e: nat, h: Handle)
    requires Tiled(align, lo, hi, hs, used, free) && j < |used|
    requires e == PrevEnd(align, lo, hs, used, j) && e < hs[used[j]].data
    requires h == hs[used[j]].(data := e)
    ensures 0 < hs[used[j]].data && Separated(Ranges(free))
    ensures CanMove(Ranges(free), BlockOf(hs[used[j]], align), BlockOf(h, align))
  {
    TiledResident(align, lo, hi, hs, used, free, j);
    TiledBefore(align, lo, hi, hs, used, free, j);
    TiledSlideRoom(align, lo, hi, hs, used, free, j, e, h);
  }

  /** What Slide keeps once block `j` has moved down to `e`. */
  lemma {:induction false} SlideKeeps(align: nat, lo: nat, hi: nat, hs: map<nat, Handle>, used: seq<nat>, purged: seq<nat>,
                      fifo: seq<nat>, free: seq<Run>, j: nat, e: nat, h: Handle, free': seq<Run>)
    requires Tiled(align, lo, hi, hs, used, free) && Listed(hs, used, purged, fifo) && j < |used|
    requires e == PrevEnd(align, lo, hs, used, j) && e < hs[used[j]].data
    requires h == hs[used[j]].(data := e)
    requires CanMove(Ranges(free), BlockOf(hs[used[j]], align), BlockOf(h, align))
    requires Ranges(free') == Moved(Ranges(free), BlockOf(hs[used[j]], align), BlockOf(h, align))
    ensures Tiled(align, lo, hi, hs[used[j] := h], used, free') && Listed(hs[used[j] := h], used, purged, fifo)
  {
    TiledBefore(align, lo, hi, hs, used, free, j);
    TiledSlide(align, lo, hi, hs, used, free, j, e, h, free');
    UsedApart(hs, used, purged, fifo, j);
    TiledResident(align, lo, hi, hs, used, free, j);
    ListedRetag(hs, used, purged, fifo, used[j], h);
  }

  /** The blocks of the used list once block `j` has slid. */
  lemma {:induction false} SlidBlocks(hs: map<nat, Handle>, used: seq<nat>, j: nat, h: Handle, align: nat)
    requires align > 0 && AllIn(used, hs) && Distinct(used) && j < |used|
    requires forall i :: 0 <= i < |used| ==> Resident(hs[used[i]])
    requires Resident(h)
    ensures AllIn(used, hs[used[j] := h])
    ensures forall i :: 0 <= i < |used| ==> Resident(hs[used[j] := h][used[i]])
    ensures var b := Blocks(hs, used, align);
      Blocks(hs[used[j] := h], used, align) == b[..j] + [BlockOf(h, align)] + b[j + 1..]
  {
    var b := Blocks(hs, used, align);
    BlocksUpdate(hs, used, j, h, align);
    assert b[j := BlockOf(h, align)] == b[..j] + [BlockOf(h, align)] + b[j + 1..];
    var hs' := hs[used[j] := h];
    forall i | 0 <= i < |used| ensures Resident(hs'[used[i]]) {
      if i != j { assert hs'[used[i]] == hs[used[i]]; }
    }
  }

  /** A handle changed in place keeps its record. */
  lemma {:induction false} RecordsRetag(hs: map<nat, Handle>, held: set<nat>, pool: seq<nat>, free: seq<Run>, next: nat,
                        id: nat, h: Handle)
    requires RecordsApart(hs.Keys + held, pool, free, next) && hs.Keys !! held && id in hs
    ensures RecordsApart(hs[id := h].Keys + held, pool, free, next) && hs[id := h].Keys !! held
  {
    assert hs[id := h].Keys == hs.Keys;
  }

  /** A handle changed without changing its block keeps the tiling. */
  lemma {:induction false} TiledRetag(align: nat, lo: nat, hi: nat, hs: map<nat, Handle>, used: seq<nat>, free: seq<Run>, id: nat, h: Handle)
    requires Tiled(align, lo, hi, hs, used, free) && Distinct(used) && id in hs
    requires BlockOf(h, align) == BlockOf(hs[id], align) && (id in used ==> Resident(h))
    ensures Tiled(align, lo, hi, hs[id := h], used, free)
  {
    var hs' := hs[id := h];
    forall i | 0 <= i < |used| ensures BlockOf(hs[used[i]], align) == BlockOf(hs'[used[i]], align) {}
    BlocksAgree(hs, used, hs', used, align);
  }

  /** Purge moves a used handle, evicted, to the head of the purged list and
      takes it out of the FIFO. */
  lemma {:induction false} ListedPurge(hs: map<nat, Handle>, used: seq<nat>, purged: seq<nat>, fifo: seq<nat>, id: nat)
    requires Listed(hs, used, purged, fifo) && id in used && id in hs && Resident(hs[id])
    ensures Listed(hs[id := Evict(hs[id])], Unlink(used, id), [id] + purged, Unlink(fifo, id))
  {
    UnlinkSpec(used, id);
    UnlinkSpec(fifo, id);
    PurgeApart(used, purged, id);
    DistinctCons(id, purged);
    var hs' := hs[id := Evict(hs[id])];
    var p := [id] + purged;
    forall i | 0 <= i < |p| ensures p[i] in hs' && Evicted(hs'[p[i]]) {
      if i > 0 { assert p[i] == purged[i - 1]; }
    }
    forall x | x in hs' ensures x in Unlink(used, id) || x in p || Detached(hs'[x]) {
      if x != id { assert x in hs && hs'[x] == hs[x]; }
    }
    PurgeQueue(used, purged, fifo, id);
  }

  /** Purge of a used handle: its block released, it leaves the used list
      and the FIFO, evicted, for the head of the purged list, and the free
      bytes grow by its padded length. */
  lemma {:induction false} PurgeKeeps(align: nat, lo: nat, hi: nat, hs: map<nat, Handle>, used: seq<nat>, purged: seq<nat>,
                      fifo: seq<nat>, free: seq<Run>, free': seq<Run>, id: nat)
    requires Tiled(align, lo, hi, hs, used, free) && Listed(hs, used, purged, fifo) && id in used
    requires Ranges(free') == Released(Ranges(free), BlockOf(hs[id], align))
    ensures Tiled(align, lo, hi, hs[id := Evict(hs[id])], Unlink(used, id), free')
    ensures Listed(hs[id := Evict(hs[id])], Unlink(used, id), [id] + purged, Unlink(fifo, id))
    ensures SumLen(Ranges(free')) == SumLen(Ranges(free)) + Pad(hs[id].length, align)
  {
    var j := IndexOf(used, id);
    var hs' := hs[id := Evict(hs[id])];
    assert Resident(hs[used[j]]);
    ListedPurge(hs, used, purged, fifo, id);
    ReleasedSum(Ranges(free), BlockOf(hs[id], align));
    forall i | 0 <= i < |used| && i != j ensures used[i] in hs' && hs'[used[i]] == hs[used[i]] {
      assert used[i] != used[j];
    }
    TiledRemove(align, lo, hi, hs, used, free, j, hs', free');
  }

  /** The used and purged lists stay apart when a handle moves from one to the other. */
  lemma {:induction false} PurgeApart(used: seq<nat>, purged: seq<nat>, id: nat)
    requires Distinct(used) && id in used
    requires forall i, j :: 0 <= i < |used| && 0 <= j < |purged| ==> used[i] != purged[j]
    ensures id !in purged
    ensures var u, p := Unlink(used, id), [id] + purged;
      forall i, j :: 0 <= i < |u| && 0 <= j < |p| ==> u[i] != p[j]
  {
    UnlinkSpec(used, id);
    var k := IndexOf(used, id);
    forall j | 0 <= j < |purged| ensures purged[j] != id { assert used[k] != purged[j]; }
    var u, p := Unlink(used, id), [id] + purged;
    forall i, j | 0 <= i < |u| && 0 <= j < |p| ensures u[i] != p[j] {
      assert u[i] in used && u[i] != id;
      if j > 0 {
        assert p[j] == purged[j - 1];
        assert u[i] == used[IndexOf(used, u[i])];
      }
    }
  }

  /** The FIFO, without the purged handle, still holds only listed handles. */
  lemma {:induction false} PurgeQueue(used: seq<nat>, purged: seq<nat>, fifo: seq<nat>, id: nat)
    requires Distinct(used) && Distinct(fifo)
    requires forall i :: 0 <= i < |fifo| ==> fifo[i] in used || fifo[i] in purged
    ensures var u, p, f := Unlink(used, id), [id] + purged, Unlink(fifo, id);
      forall i :: 0 <= i < |f| ==> f[i] in u || f[i] in p
  {
    UnlinkSpec(used, id);
    UnlinkSpec(fifo, id);
    var u, p, f := Unlink(used, id), [id] + purged, Unlink(fifo, id);
    forall i | 0 <= i < |f| ensures f[i] in u || f[i] in p {
      assert f[i] in fifo && f[i] != id;
      assert f[i] == fifo[IndexOf(fifo, f[i])];
    }
  }

  /** FreeHandle takes a handle off every list and out of the map. */
  lemma {:induction false} ListedFree(hs: map<nat, Handle>, used: seq<nat>, purged: seq<nat>, fifo: seq<nat>, id: nat)
    requires Listed(hs, used, purged, fifo)
    ensures Listed(hs - {id}, Unlink(used, id), Unlink(purged, id), Unlink(fifo, id))
  {
    UnlinkSpec(used, id);
    UnlinkSpec(purged, id);
    UnlinkSpec(fifo, id);
    var u, p, f := Unlink(used, id), Unlink(purged, id), Unlink(fifo, id);
    forall i | 0 <= i < |p| ensures p[i] in hs - {id} && Evicted(hs[p[i]]) {
      assert p[i] in purged;
    }
    forall i, j | 0 <= i < |u| && 0 <= j < |p| ensures u[i] != p[j] {
      assert u[i] in used && p[j] in purged;
    }
    forall i | 0 <= i < |f| ensures f[i] in u || f[i] in p {
      assert f[i] in fifo;
    }
  }

  /** A new resident handle joins the used list. */
  lemma {:induction false} ListedInsert(hs: map<nat, Handle>, used: seq<nat>, purged: seq<nat>, fifo: seq<nat>, id: nat, h: Handle, j: nat)
    requires Listed(hs, used, purged, fifo) && id !in hs && id !in used && j <= |used| && Resident(h)
    ensures Listed(hs[id := h], used[..j] + [id] + used[j..], purged, fifo)
  {
    assert id !in purged;
    assert used == used[..j] + used[j..];
    DistinctInsert(used, j, id);
    var u := used[..j] + [id] + used[j..];
    forall i, k | 0 <= i < |u| && 0 <= k < |purged| ensures u[i] != purged[k] {
      assert u[i] in used || u[i] == id;
    }
  }

  /** A handle from the operating system is on no list. */
  lemma {:induction false} ListedDetach(hs: map<nat, Handle>, used: seq<nat>, purged: seq<nat>, fifo: seq<nat>, id: nat, h: Handle)
    requires Listed(hs, used, purged, fifo) && id !in hs && Detached(h)
    ensures Listed(hs[id := h], used, purged, fifo)
  {
    assert id !in purged;
  }

  /** A handle changed in place stays where it is. */
  lemma {:induction false} ListedRetag(hs: map<nat, Handle>, used: seq<nat>, purged: seq<nat>, fifo: seq<nat>, id: nat, h: Handle)
    requires Listed(hs, used, purged, fifo) && id in hs
    requires id in purged ==> Evicted(h)
    requires id !in used && id !in purged ==> Detached(h)
    ensures Listed(hs[id := h], used, purged, fifo)
  {
  }

  /** SetPurgeFlag takes a handle out of the FIFO and may put it back at the head. */
  lemma {:induction false} ListedQueue(hs: map<nat, Handle>, used: seq<nat>, purged: seq<nat>, fifo: seq<nat>, id: nat)
    requires Listed(hs, used, purged, fifo) && id in hs && Malloc !in hs[id].flags
    ensures Listed(hs, used, purged, Unlink(fifo, id))
    ensures Listed(hs, used, purged, [id] + Unlink(fifo, id))
  {
    UnlinkSpec(fifo, id);
    var f := Unlink(fifo, id);
    DistinctCons(id, f);
    forall i | 0 <= i < |f| ensures f[i] in used || f[i] in purged {
      assert f[i] in fifo;
    }
    var f' := [id] + f;
    forall i | 0 <= i < |f'| ensures f'[i] in used || f'[i] in purged {
      if i > 0 { assert f'[i] == f[i - 1]; }
    }
  }

  // The free-list edits of ReleaseMemoryRange and GrabMemoryRange, one per
  // branch of the source, against the ledger functions they implement.

  lemma {:induction false} ReleaseJoinBoth(fr: seq<Run>, x: Range, k: nat, m: Run)
    requires 0 < k < |fr| && End(RangeOf(fr[k - 1])) == x.start && End(x) == fr[k].start
    requires m == Run(fr[k - 1].rec, fr[k - 1].start, fr[k - 1].len + x.len + fr[k].len)
    ensures Ranges(fr[..k - 1] + [m] + fr[k + 1..]) == ReleasedAt(Ranges(fr), x, k)
  {
    RangesSplice(fr, k - 1, k + 1, [m]);
  }

  lemma {:induction false} ReleaseJoinPrev(fr: seq<Run>, x: Range, j: nat, m: Run)
    requires j < |fr| && End(RangeOf(fr[j])) == x.start && !(j + 1 < |fr| && End(x) == fr[j + 1].start)
    requires m == Run(fr[j].rec, fr[j].start, fr[j].len + x.len)
    ensures Ranges(fr[..j] + [m] + fr[j + 1..]) == ReleasedAt(Ranges(fr), x, j + 1)
  {
    RangesSplice(fr, j, j + 1, [m]);
  }

  lemma {:induction false} ReleaseJoinNext(fr: seq<Run>, x: Range, k: nat, m: Run)
    requires k < |fr| && !(k > 0 && End(RangeOf(fr[k - 1])) == x.start) && End(x) == fr[k].start
    requires m == Run(fr[k].rec, x.start, x.len + fr[k].len)
    ensures Ranges(fr[..k] + [m] + fr[k + 1..]) == ReleasedAt(Ranges(fr), x, k)
  {
    RangesSplice(fr, k, k + 1, [m]);
  }

  lemma {:induction false} GrabWhole(fr: seq<Run>, x: Range, k: nat)
    requires k < |fr| && fr[k].start == x.start && fr[k].len == x.len
    ensures AtEdge(Ranges(fr)[k], x)
    ensures Ranges(fr[..k] + fr[k + 1..]) == GrabbedAt(Ranges(fr), k, x)
  {
    RangesSplice(fr, k, k + 1, []);
    assert fr[..k] + [] + fr[k + 1..] == fr[..k] + fr[k + 1..];
  }

  lemma {:induction false} GrabFront(fr: seq<Run>, x: Range, k: nat, m: Run)
    requires k < |fr| && fr[k].start == x.start && x.len < fr[k].len
    requires m == Run(fr[k].rec, End(x), fr[k].len - x.len)
    ensures AtEdge(Ranges(fr)[k], x)
    ensures Ranges(fr[..k] + [m] + fr[k + 1..]) == GrabbedAt(Ranges(fr), k, x)
  {
    RangesSplice(fr, k, k + 1, [m]);
  }

  lemma {:induction false} GrabTail(fr: seq<Run>, x: Range, k: nat, m: Run)
    requires k < |fr| && fr[k].start < x.start && End(x) == End(RangeOf(fr[k]))
    requires m == Run(fr[k].rec, fr[k].start, x.start - fr[k].start)
    ensures AtEdge(Ranges(fr)[k], x)
    ensures Ranges(fr[..k] + [m] + fr[k + 1..]) == GrabbedAt(Ranges(fr), k, x)
  {
    RangesSplice(fr, k, k + 1, [m]);
  }

  /** Where CompactHandles puts a movable block: the padded end of the block
      before it on the used list, or the arena start for the first one (the
      low sentinel's data is NULL and its length is the arena start). */
  function PrevEnd(align: nat, lo: nat, hs: map<nat, Handle>, used: seq<nat>, j: nat): nat
    requires align > 0 && AllIn(used, hs) && j < |used|
  {
    if j == 0 then lo else hs[used[j - 1]].data + Pad(hs[used[j - 1]].length, align)
  }

  /** The first `n` used blocks that may move sit right after their predecessors. */
  ghost predicate Packed(align: nat, lo: nat, hs: map<nat, Handle>, used: seq<nat>, n: nat)
    requires align > 0 && AllIn(used, hs) && n <= |used|
  {
    forall j :: 0 <= j < n && Movable(hs[used[j]]) ==> hs[used[j]].data == PrevEnd(align, lo, hs, used, j)
  }

  /** From `hs0` to `hs` only the data of movable used handles changed, and
      only downwards. */
  ghost predicate Slid(hs0: map<nat, Handle>, hs: map<nat, Handle>, used: seq<nat>)
  {
    hs.Keys == hs0.Keys &&
    forall id :: id in hs0 ==>
      hs[id] == hs0[id] ||
      (id in used && Movable(hs0[id]) && hs[id] == hs0[id].(data := hs[id].data) && hs[id].data < hs0[id].data)
  }

  /** Settling block `i` (moved to its predecessor's end if it may move)
      extends the packed prefix by one. */
  lemma {:induction false} PackedStep(align: nat, lo: nat, hs: map<nat, Handle>, used: seq<nat>, i: nat, h: Handle)
    requires align > 0 && AllIn(used, hs) && Distinct(used) && i < |used| && Packed(align, lo, hs, used, i)
    requires Movable(h) ==> h.data == PrevEnd(align, lo, hs, used, i)
    ensures AllIn(used, hs[used[i] := h])
    ensures Packed(align, lo, hs[used[i] := h], used, i + 1)
  {
    var hs' := hs[used[i] := h];
    forall j | 0 <= j < i + 1 && Movable(hs'[used[j]]) ensures hs'[used[j]].data == PrevEnd(align, lo, hs', used, j) {
      if j > 0 { assert hs'[used[j - 1]] == hs[used[j - 1]]; }
      if j < i { assert hs'[used[j]] == hs[used[j]]; }
    }
  }

  /** One more movable used block moving down keeps `hs` slid from `hs0`,
      and makes it differ from `hs0`. */
  lemma {:induction false} SlidStep(hs0: map<nat, Handle>, hs: map<nat, Handle>, used: seq<nat>, id: nat, d: nat)
    requires Slid(hs0, hs, used) && id in hs && id in used && Movable(hs[id]) && d < hs[id].data
    ensures Slid(hs0, hs[id := hs[id].(data := d)], used)
    ensures hs[id := hs[id].(data := d)] != hs0
  {
    var hs' := hs[id := hs[id].(data := d)];
    assert hs'.Keys == hs.Keys;
    assert hs'[id].data < hs0[id].data;
  }

  /** A handle Purge acts on: its data is in the arena. */
  predicate Purgeable(h: Handle)
  {
    h.data != NULL && Malloc !in h.flags
  }

  /** What Purge leaves of a handle. */
  function Purged(h: Handle): (r: Handle)
    ensures Purgeable(h) ==> r.data == NULL && r.length == h.length && r.flags == h.flags - {Locked}
    ensures !Purgeable(h) ==> r == h
  {
    if Purgeable(h) then Evict(h) else h
  }

  /** The padded lengths of the handles `q[k..i]`, added up. */
  function PadSum(hs: map<nat, Handle>, q: seq<nat>, k: nat, i: nat, align: nat): nat
    requires align > 0 && AllIn(q, hs) && k <= i <= |q|
    decreases i
  {
    if k == i then 0 else PadSum(hs, q, k, i - 1, align) + Pad(hs[q[i - 1]].length, align)
  }

  /** The padded lengths of those handles `q[k..n]` that Purge acts on,
      added up: the bytes that purging them gives back. */
  function Freed(hs: map<nat, Handle>, q: seq<nat>, k: nat, n: nat, align: nat): nat
    requires align > 0 && AllIn(q, hs) && k <= n <= |q|
    decreases n - k
  {
    if k == n then 0
    else Freed(hs, q, k + 1, n, align) + if Purgeable(hs[q[k]]) then Pad(hs[q[k]].length, align) else 0
  }

  /** The handles of `q[k..n]` that Purge acts on, in FIFO order. */
  function Evictees(hs: map<nat, Handle>, q: seq<nat>, k: nat, n: nat): seq<nat>
    requires AllIn(q, hs) && k <= n <= |q|
    decreases n - k
  {
    if k == n then [] else (if Purgeable(hs[q[k]]) then [q[k]] else []) + Evictees(hs, q, k + 1, n)
  }

  /** `m` copies of one callback stage. */
  function Repeat(stage: Stage, m: nat): (r: seq<Stage>)
    ensures |r| == m && forall i :: 0 <= i < m ==> r[i] == stage
  {
    if m == 0 then [] else Repeat(stage, m - 1) + [stage]
  }

  /** A log that has heard `m` copies of a stage hears one more. */
  lemma {:induction false} RepeatMore(log: seq<Stage>, stage: Stage, m: nat)
    ensures log + Repeat(stage, m) + [stage] == log + Repeat(stage, m + 1)
  {
  }

  /** The handle map and the three handle lists, as one value. */
  datatype Roster = Roster(hs: map<nat, Handle>, used: seq<nat>, purged: seq<nat>, fifo: seq<nat>)

  /** Purge of handle `id`, on the roster alone. */
  function PurgeOne(r: Roster, id: nat): (r': Roster)
    requires id in r.hs
    ensures r'.hs.Keys == r.hs.Keys
  {
    if Purgeable(r.hs[id]) then
      Roster(r.hs[id := Evict(r.hs[id])], Unlink(r.used, id), [id] + r.purged, Unlink(r.fifo, id))
    else r
  }

  /** The purges of PurgeHandles's walk: q[n - 1] first, then q[n - 2], and
      q[k] last. */
  function Walk(r: Roster, q: seq<nat>, k: nat, n: nat): (r': Roster)
    requires AllIn(q, r.hs) && k <= n <= |q|
    ensures r'.hs.Keys == r.hs.Keys
    decreases n - k
  {
    if k == n then r else PurgeOne(Walk(r, q, k + 1, n), q[k])
  }

  /** The walk leaves each handle of `q[k..n]` as Purge leaves it, and
      every other handle as it was. */
  lemma {:induction false} WalkHandles(r: Roster, q: seq<nat>, k: nat, n: nat, x: nat)
    requires AllIn(q, r.hs) && Distinct(q) && k <= n <= |q| && x in r.hs
    ensures Walk(r, q, k, n).hs[x] == if x in q[k..n] then Purged(r.hs[x]) else r.hs[x]
    decreases n - k
  {
    if k < n {
      WalkHandles(r, q, k + 1, n, x);
      WalkHandles(r, q, k + 1, n, q[k]);
      assert q[k..n] == [q[k]] + q[k + 1..n];
      assert q[k] !in q[k + 1..n] by {
        forall i | k + 1 <= i < n ensures q[i] != q[k] {}
      }
    }
  }

  /** The walk puts on the purged list the handles of `q[k..n]` that Purge
      acts on, the one nearest the FIFO head first. */
  lemma {:induction false} WalkPurged(r: Roster, q: seq<nat>, k: nat, n: nat)
    requires AllIn(q, r.hs) && Distinct(q) && k <= n <= |q|
    ensures Walk(r, q, k, n).purged == Evictees(r.hs, q, k, n) + r.purged
    decreases n - k
  {
    if k < n {
      WalkPurged(r, q, k + 1, n);
      WalkHandles(r, q, k + 1, n, q[k]);
      assert q[k] !in q[k + 1..n] by {
        forall i | k + 1 <= i < n ensures q[i] != q[k] {}
      }
    }
  }

  /** The walk takes off the used list exactly the handles of `q[k..n]`
      that Purge acts on, and the list keeps its entries distinct. */
  lemma {:induction false} WalkUsed(r: Roster, q: seq<nat>, k: nat, n: nat)
    requires AllIn(q, r.hs) && Distinct(q) && k <= n <= |q| && Distinct(r.used)
    ensures var w := Walk(r, q, k, n);
      Distinct(w.used) && forall x :: x in w.used <==> x in r.used && x !in Evictees(r.hs, q, k, n)
    decreases n - k
  {
    if k < n {
      WalkUsed(r, q, k + 1, n);
      WalkHandles(r, q, k + 1, n, q[k]);
      assert q[k] !in q[k + 1..n] by {
        forall i | k + 1 <= i < n ensures q[i] != q[k] {}
      }
      UnlinkSpec(Walk(r, q, k + 1, n).used, q[k]);
    }
  }

  /** The walk takes off the FIFO exactly the handles of `q[k..n]` that
      Purge acts on, and the FIFO keeps its entries distinct. */
  lemma {:induction false} WalkFifo(r: Roster, q: seq<nat>, k: nat, n: nat)
    requires AllIn(q, r.hs) && Distinct(q) && k <= n <= |q| && Distinct(r.fifo)
    ensures var w := Walk(r, q, k, n);
      Distinct(w.fifo) && forall x :: x in w.fifo <==> x in r.fifo && x !in Evictees(r.hs, q, k, n)
    decreases n - k
  {
    if k < n {
      WalkFifo(r, q, k + 1, n);
      WalkHandles(r, q, k + 1, n, q[k]);
      assert q[k] !in q[k + 1..n] by {
        forall i | k + 1 <= i < n ensures q[i] != q[k] {}
      }
      UnlinkSpec(Walk(r, q, k + 1, n).fifo, q[k]);
    }
  }

  /** One more step of the walk, down to `q[i - 1]`, which the steps
      before it have not touched. */
  lemma {:induction false} WalkStep(r: Roster, q: seq<nat>, i: nat, j: nat, n: nat)
    requires AllIn(q, r.hs) && Distinct(q) && j + 1 == i <= n <= |q|
    ensures Walk(r, q, j, n) == PurgeOne(Walk(r, q, i, n), q[j])
    ensures Walk(r, q, i, n).hs[q[j]] == r.hs[q[j]]
  {
    WalkHandles(r, q, i, n, q[j]);
    assert q[j] !in q[i..n] by {
      forall k | i <= k < n ensures q[k] != q[j] {}
    }
  }

  /** Where PurgeHandles's walk down the FIFO, from entry `i - 1` towards the
      head with `size` bytes still wanted, ends: the walk visits `q[Stop..i]`.
      It stops after the first entry whose padded length covers what is
      still wanted, or at the head. */
  function Stop(hs: map<nat, Handle>, q: seq<nat>, i: nat, size: nat, align: nat): (s: nat)
    requires align > 0 && AllIn(q, hs) && i <= |q|
    ensures s <= i && (s == i ==> i == 0)
    decreases i
  {
    if i == 0 then 0
    else if Pad(hs[q[i - 1]].length, align) >= size then i - 1
    else Stop(hs, q, i - 1, size - Pad(hs[q[i - 1]].length, align), align)
  }

  /** The walk stops as soon as the entries visited cover the target, and
      not before: every entry but the last one visited left it uncovered. */
  lemma {:induction false} StopCovers(hs: map<nat, Handle>, q: seq<nat>, i: nat, size: nat, align: nat)
    requires align > 0 && AllIn(q, hs) && i <= |q|
    ensures var s := Stop(hs, q, i, size, align);
      (s == 0 || PadSum(hs, q, s, i, align) >= size) &&
      forall k :: s < k < i ==> PadSum(hs, q, k, i, align) < size
    decreases i
  {
    if i > 0 {
      var n := Pad(hs[q[i - 1]].length, align);
      if n < size {
        StopCovers(hs, q, i - 1, size - n, align);
        var s := Stop(hs, q, i - 1, size - n, align);
        forall k | s <= k < i ensures PadSum(hs, q, k, i, align) == PadSum(hs, q, k, i - 1, align) + n {
        }
      }
    }
  }

  /** The counters of PurgeHandles's walk over `q[i..n]` out of a FIFO of
      `n` entries, `size` bytes wanted: the bytes given back, the callback
      stages heard, whether anything was purged, and where the walk stops,
      `rest` bytes still wanted unless it is `done`. */
  ghost predicate Walked(hs: map<nat, Handle>, q: seq<nat>, n: nat, size: nat, align: nat, callback: bool,
                         i: nat, rest: nat, done: bool, told: nat, freed: nat, any: bool)
    requires align > 0 && AllIn(q, hs) && i <= n <= |q|
  {
    freed == Freed(hs, q, i, n, align) &&
    told == (if callback then |Evictees(hs, q, i, n)| else 0) &&
    any == (Evictees(hs, q, i, n) != []) &&
    (done ==> i == Stop(hs, q, n, size, align)) &&
    (!done ==> Stop(hs, q, i, rest, align) == Stop(hs, q, n, size, align))
  }

  /** The state of PurgeHandles's walk over the FIFO `q` of the roster
      `r0` once the entries `q[i..n]` have been visited: the handle map and
      lists are what the walk made of `r0`, and the free bytes `room` and
      the callback's `log` have grown by the counters. */
  ghost predicate Walking(r0: Roster, q: seq<nat>, n: nat, size: nat, align: nat, callback: bool,
                          e0: seq<Stage>, f0: nat, hs: map<nat, Handle>, used: seq<nat>, purged: seq<nat>,
                          fifo: seq<nat>, room: nat, log: seq<Stage>,
                          i: nat, rest: nat, done: bool, told: nat, freed: nat, any: bool)
  {
    align > 0 && AllIn(q, r0.hs) && AllIn(q, hs) && Distinct(q) && i <= n <= |q| &&
    (var w := Walk(r0, q, i, n); hs == w.hs && used == w.used && purged == w.purged && fifo == w.fifo) &&
    room == f0 + freed && log == e0 + Repeat(StagePurge, told) &&
    Walked(r0.hs, q, n, size, align, callback, i, rest, done, told, freed, any)
  }

  /** Where PurgeHandles's walk begins: the FIFO's entries are distinct
      handles, and nothing has been visited. */
  lemma {:induction false} WalkStart(align: nat, lo: nat, hi: nat, hs: map<nat, Handle>, used: seq<nat>, purged: seq<nat>,
                                     fifo: seq<nat>, free: seq<Run>, size: nat, callback: bool, log: seq<Stage>)
    requires Tiled(align, lo, hi, hs, used, free) && Listed(hs, used, purged, fifo)
    ensures Walking(Roster(hs, used, purged, fifo), fifo, |fifo|, size, align, callback, log, SumLen(Ranges(free)),
                    hs, used, purged, fifo, SumLen(Ranges(free)), log, |fifo|, size, false, 0, 0, false)
  {
    forall i | 0 <= i < |fifo| ensures fifo[i] in hs {
      if fifo[i] in used {
        var j := IndexOf(used, fifo[i]);
      } else {
        var j := IndexOf(purged, fifo[i]);
      }
    }
    assert log + Repeat(StagePurge, 0) == log;
  }

  /** The walk ends where Stop says: at the head of the FIFO, or after the
      entry that covered what was still wanted. */
  lemma {:induction false} WalkedEnd(hs: map<nat, Handle>, q: seq<nat>, n: nat, size: nat, align: nat, callback: bool,
                                     i: nat, rest: nat, done: bool, told: nat, freed: nat, any: bool)
    requires align > 0 && AllIn(q, hs) && i <= n <= |q| && (i == 0 || done)
    requires Walked(hs, q, n, size, align, callback, i, rest, done, told, freed, any)
    ensures i == Stop(hs, q, n, size, align)
  {
  }

  /** The counters after the walk visits `q[i - 1]`. */
  lemma {:induction false} WalkedStep(hs: map<nat, Handle>, q: seq<nat>, n: nat, size: nat, align: nat, callback: bool,
                                      i: nat, j: nat, rest: nat, told: nat, freed: nat, any: bool)
    requires align > 0 && AllIn(q, hs) && j + 1 == i <= n <= |q|
    requires Walked(hs, q, n, size, align, callback, i, rest, false, told, freed, any)
    ensures var h := hs[q[j]]; var m := Pad(h.length, align); var e := Purgeable(h);
      Walked(hs, q, n, size, align, callback, j, if m >= rest then rest else rest - m, m >= rest,
             told + (if callback && e then 1 else 0), freed + (if e then m else 0), any || e)
  {
  }

  /** The walk after it visits `q[j]`, given what Purge did to it: `m` is
      its padded length and `e` whether Purge acted on it. */
  lemma {:induction false} WalkVisited(r0: Roster, q: seq<nat>, n: nat, size: nat, align: nat, callback: bool,
                                       e0: seq<Stage>, f0: nat, hs: map<nat, Handle>, used: seq<nat>,
                                       purged: seq<nat>, fifo: seq<nat>, room: nat, log: seq<Stage>,
                                       i: nat, j: nat, rest: nat, told: nat, freed: nat, any: bool, m: nat, e: bool,
                                       hs': map<nat, Handle>, used': seq<nat>, purged': seq<nat>, fifo': seq<nat>,
                                       room': nat, log': seq<Stage>)
    requires Walking(r0, q, n, size, align, callback, e0, f0, hs, used, purged, fifo, room, log,
                     i, rest, false, told, freed, any)
    requires j + 1 == i && m == Pad(hs[q[j]].length, align) && e == Purgeable(hs[q[j]])
    requires e ==>
               hs' == hs[q[j] := Evict(hs[q[j]])] && used' == Unlink(used, q[j]) &&
               purged' == [q[j]] + purged && fifo' == Unlink(fifo, q[j]) && room' == room + m &&
               log' == log + if callback then [StagePurge] else []
    requires !e ==> hs' == hs && used' == used && purged' == purged && fifo' == fifo && room' == room && log' == log
    ensures Walking(r0, q, n, size, align, callback, e0, f0, hs', used', purged', fifo', room', log',
                    j, if m >= rest then rest else rest - m, m >= rest,
                    told + (if callback && e then 1 else 0), freed + (if e then m else 0), any || e)
  {
    WalkStep(r0, q, i, j, n);
    WalkedStep(r0.hs, q, n, size, align, callback, i, j, rest, told, freed, any);
    RepeatMore(e0, StagePurge, told);
  }

  /** What the compaction and purge stages of AllocHandle may do to a handle
      that exists: leave it alone, purge it when it is `queued` on the purge
      FIFO, or move its block (bytes and all) when it may move. */
  ghost predicate Survives(h0: Handle, h: Handle, queued: bool)
  {
    h == h0 ||
    (queued && Purgeable(h0) && h == Evict(h0)) ||
    (Purgeable(h0) && Movable(h0) && h.data != NULL && h == h0.(data := h.data))
  }

  /** Every handle of `hs0` survives into `hs`, the FIFO being `q`. */
  ghost predicate Survivors(hs0: map<nat, Handle>, hs: map<nat, Handle>, q: seq<nat>)
  {
    hs.Keys == hs0.Keys && forall id :: id in hs0 ==> Survives(hs0[id], hs[id], id in q)
  }

  /** One stage after another, the FIFO only losing entries: a handle
      purged stays purged, a block moved twice has moved once. */
  lemma {:induction false} SurvivorsChain(hs0: map<nat, Handle>, hs1: map<nat, Handle>, hs2: map<nat, Handle>,
                                          q0: seq<nat>, q1: seq<nat>)
    requires Survivors(hs0, hs1, q0) && Survivors(hs1, hs2, q1) && forall x :: x in q1 ==> x in q0
    ensures Survivors(hs0, hs2, q0)
  {
    forall id | id in hs0 ensures Survives(hs0[id], hs2[id], id in q0) {
      var h0, h1, h2 := hs0[id], hs1[id], hs2[id];
      if h1 != h0 && h2 != h1 && h1 != Evict(h0) {
        assert Evict(h1) == Evict(h0);
      }
    }
  }

  /** CompactHandles only moves blocks that may move, to addresses in the
      arena; it purges nothing, whatever the FIFO. */
  lemma {:induction false} SlidSurvivors(align: nat, lo: nat, hi: nat, hs0: map<nat, Handle>, hs: map<nat, Handle>,
                                         used: seq<nat>, free0: seq<Run>, free: seq<Run>, q: seq<nat>)
    requires Tiled(align, lo, hi, hs0, used, free0) && Tiled(align, lo, hi, hs, used, free) && Slid(hs0, hs, used)
    ensures Survivors(hs0, hs, q)
  {
    forall id | id in hs0 && hs[id] != hs0[id] ensures Survives(hs0[id], hs[id], id in q) {
      var j := IndexOf(used, id);
      TiledResident(align, lo, hi, hs0, used, free0, j);
      TiledResident(align, lo, hi, hs, used, free, j);
    }
  }

  /** PurgeHandles's walk only purges, and only handles of the FIFO it walks. */
  lemma {:induction false} WalkSurvivors(r: Roster, q: seq<nat>, k: nat, n: nat)
    requires AllIn(q, r.hs) && Distinct(q) && k <= n <= |q|
    ensures Survivors(r.hs, Walk(r, q, k, n).hs, q)
  {
    forall id | id in r.hs ensures Survives(r.hs[id], Walk(r, q, k, n).hs[id], id in q) {
      WalkHandles(r, q, k, n, id);
      if id in q[k..n] {
        var i :| k <= i < n && q[i] == id;
      }
    }
  }

  /** Every handle the walk purges was one of the handles it visited that
      Purge acts on. */
  lemma {:induction false} EvicteesFrom(hs: map<nat, Handle>, q: seq<nat>, k: nat, n: nat, x: nat)
    requires AllIn(q, hs) && k <= n <= |q| && x in Evictees(hs, q, k, n)
    ensures x in q[k..n] && Purgeable(hs[x])
    decreases n - k
  {
    var e := Evictees(hs, q, k + 1, n);
    assert Evictees(hs, q, k, n) == (if Purgeable(hs[q[k]]) then [q[k]] else []) + e;
    if x != q[k] || !Purgeable(hs[q[k]]) {
      EvicteesFrom(hs, q, k + 1, n, x);
      assert q[k + 1..n] == q[k..n][1..];
    }
  }

  /** A walk that purges anything shortens the used list: what makes
      AllocHandle's retries end. */
  lemma {:induction false} WalkShrinks(align: nat, lo: nat, hi: nat, hs: map<nat, Handle>, used: seq<nat>, purged: seq<nat>,
                                       fifo: seq<nat>, free: seq<Run>, k: nat)
    requires Tiled(align, lo, hi, hs, used, free) && Listed(hs, used, purged, fifo) && AllIn(fifo, hs) && k <= |fifo|
    requires Evictees(hs, fifo, k, |fifo|) != []
    ensures |Walk(Roster(hs, used, purged, fifo), fifo, k, |fifo|).used| < |used|
  {
    var r := Roster(hs, used, purged, fifo);
    var x := Evictees(hs, fifo, k, |fifo|)[0];
    EvicteesFrom(hs, fifo, k, |fifo|, x);
    Whereabouts(align, lo, hi, hs, used, purged, fifo, free, x);
    WalkUsed(r, fifo, k, |fifo|);
    DistinctShorter(used, Walk(r, fifo, k, |fifo|).used, x);
  }

  /** A new resident handle placed at an edge of free run `k` keeps the
      tiling and the lists, on the used list just after the blocks below
      that run. */
  lemma {:induction false} PlaceKeeps(align: nat, lo: nat, hi: nat, hs: map<nat, Handle>, used: seq<nat>, purged: seq<nat>,
                                      fifo: seq<nat>, free: seq<Run>, free': seq<Run>, k: nat, id: nat, h: Handle)
    requires Tiled(align, lo, hi, hs, used, free) && Listed(hs, used, purged, fifo) && k < |free|
    requires id !in hs && Resident(h) && AtEdge(RangeOf(free[k]), BlockOf(h, align))
    requires Ranges(free') == GrabbedAt(Ranges(free), k, BlockOf(h, align))
    ensures var j := BlocksBefore(Blocks(hs, used, align), free[k].start);
      j <= |used| &&
      Tiled(align, lo, hi, hs[id := h], used[..j] + [id] + used[j..], free') &&
      Listed(hs[id := h], used[..j] + [id] + used[j..], purged, fifo)
  {
    TiledInsert(align, lo, hi, hs, used, free, k, id, h, free');
    var j := BlocksBefore(Blocks(hs, used, align), free[k].start);
    assert id !in used;
    ListedInsert(hs, used, purged, fifo, id, h, j);
  }

  /** The record held for a new handle becomes that handle. */
  lemma {:induction false} RecordsAdmit(hs: map<nat, Handle>, pool: seq<nat>, free: seq<Run>, next: nat, id: nat, h: Handle)
    requires RecordsApart(hs.Keys + {id}, pool, free, next)
    ensures RecordsApart(hs[id := h].Keys + {}, pool, free, next) && hs[id := h].Keys !! {}
  {
    assert hs[id := h].Keys + {} == hs.Keys + {id};
  }

  /** A handle from the operating system takes a record no list knows. */
  lemma {:induction false} DetachKeeps(align: nat, lo: nat, hi: nat, hs: map<nat, Handle>, used: seq<nat>, purged: seq<nat>,
                                       fifo: seq<nat>, free: seq<Run>, pool: seq<nat>, next: nat, h: Handle)
    requires Tiled(align, lo, hi, hs, used, free) && Listed(hs, used, purged, fifo) && Detached(h)
    requires RecordsApart(hs.Keys + {}, pool, free, next) && next > 0
    ensures next !in hs
    ensures Tiled(align, lo, hi, hs[next := h], used, free) && Listed(hs[next := h], used, purged, fifo)
    ensures RecordsApart(hs[next := h].Keys + {}, pool, free, next + 1) && hs[next := h].Keys !! {}
  {
    assert hs.Keys + {} == hs.Keys;
    Mint(hs.Keys, pool, free, next);
    var hs' := hs[next := h];
    assert next !in used;
    forall i | 0 <= i < |used| ensures BlockOf(hs[used[i]], align) == BlockOf(hs'[used[i]], align) {}
    BlocksAgree(hs, used, hs', used, align);
    ListedDetach(hs, used, purged, fifo, next, h);
    assert hs'.Keys + {} == hs.Keys + {next};
  }

  /** The layout after one successful scan of AllocHandle from the layout
      (hs0, us0, rs0): record `id` is a new handle of `size` bytes whose
      block is where Spot puts it, with the flags asked for less MALLOC; it
      joins the used list after the blocks below the run it came from, and
      that run gives up the block. */
  ghost predicate Placed(align: nat, hs0: map<nat, Handle>, us0: seq<nat>, rs0: seq<Range>,
                         hs: map<nat, Handle>, us: seq<nat>, rs: seq<Range>, id: nat, size: nat, flags: set<Flag>)
  {
    align > 0 && AllIn(us0, hs0) &&
    var n, fixed := Pad(size, align), Fixed in flags;
    FirstFit(rs0, n) < |rs0| &&
    var x := Spot(rs0, n, fixed);
    var j := BlocksBefore(Blocks(hs0, us0, align), rs0[Pick(rs0, n, fixed)].start);
    j <= |us0| &&
    hs == hs0[id := Handle(x.start, size, flags - {Malloc}, Zeros(size))] &&
    us == us0[..j] + [id] + us0[j..] &&
    rs == GrabbedAt(rs0, Pick(rs0, n, fixed), x)
  }

  /** What one scan's success leaves: the new handle is resident, on the
      used list, and every other handle is as it was. */
  lemma {:induction false} PlacedHandle(align: nat, lo: nat, hi: nat, hs0: map<nat, Handle>, us0: seq<nat>, rs0: seq<Range>,
                                        hs: map<nat, Handle>, us: seq<nat>, free: seq<Run>, id: nat, size: nat, flags: set<Flag>)
    requires Placed(align, hs0, us0, rs0, hs, us, Ranges(free), id, size, flags) && id !in hs0
    requires Tiled(align, lo, hi, hs, us, free)
    ensures id in hs && id in us && Resident(hs[id]) && hs[id].length == size && hs[id].flags == flags - {Malloc}
    ensures hs[id].content == Zeros(size) && hs - {id} == hs0
  {
    var j := IndexOf(us, id);
    assert hs - {id} == hs0;
  }

  /** Every handle of the FIFO exists. */
  lemma {:induction false} FifoIn(align: nat, lo: nat, hi: nat, hs: map<nat, Handle>, used: seq<nat>, purged: seq<nat>,
                                  fifo: seq<nat>, free: seq<Run>)
    requires Tiled(align, lo, hi, hs, used, free) && Listed(hs, used, purged, fifo)
    ensures AllIn(fifo, hs)
  {
    forall i | 0 <= i < |fifo| ensures fifo[i] in hs {
      if fifo[i] in used {
        var j := IndexOf(used, fifo[i]);
      } else {
        var j := IndexOf(purged, fifo[i]);
      }
    }
  }

  /** What PurgeHandles's walk does for AllocHandle: it only purges, it
      never lengthens the used list, and it shortens it when it purges
      anything. */
  lemma {:induction false} PurgeProgress(align: nat, lo: nat, hi: nat, hs: map<nat, Handle>, used: seq<nat>, purged: seq<nat>,
                                         fifo: seq<nat>, free: seq<Run>, size: nat, hs': map<nat, Handle>, used': seq<nat>,
                                         fifo': seq<nat>)
    requires Tiled(align, lo, hi, hs, used, free) && Listed(hs, used, purged, fifo) && AllIn(fifo, hs)
    requires var s := Stop(hs, fifo, |fifo|, size, align);
      var w := Walk(Roster(hs, used, purged, fifo), fifo, s, |fifo|);
      hs' == w.hs && used' == w.used && fifo' == w.fifo
    ensures Survivors(hs, hs', fifo) && |used'| <= |used| && forall x :: x in fifo' ==> x in fifo
    ensures Evictees(hs, fifo, Stop(hs, fifo, |fifo|, size, align), |fifo|) != [] ==> |used'| < |used|
  {
    var r := Roster(hs, used, purged, fifo);
    var s := Stop(hs, fifo, |fifo|, size, align);
    WalkSurvivors(r, fifo, s, |fifo|);
    WalkUsed(r, fifo, s, |fifo|);
    WalkFifo(r, fifo, s, |fifo|);
    DistinctNoLonger(used, used');
    if Evictees(hs, fifo, s, |fifo|) != [] {
      WalkShrinks(align, lo, hi, hs, used, purged, fifo, free, s);
    }
  }

  /** The stage after a purge as the source chooses it: compaction again
      whenever PurgeHandles returns TRUE, which it does whenever the FIFO
      had an entry, purged or not. */
  function AfterPurgeAsWritten(result: bool): Stage
  {
    if result then StageCompact else StageHailMary
  }

  /** The stage after a purge as PurgeHandles's documentation promises it
      (TRUE if any memory was purged): compaction again only when
      something was purged. */
  function AfterPurge(any: bool): Stage
  {
    if any then StageCompact else StageHailMary
  }

  /** A FIFO that holds only a handle already purged: PurgeHandles visits it,
      Purge leaves it alone, nothing changes and nothing is freed, yet the
      source goes back to compaction, so AllocHandle's retries never end.
      With the stage chosen by what was purged, they end. */
  lemma PurgeStallsAsWritten()
    ensures var h := Handle(NULL, 16, {Purgable}, []);
      var r := Roster(map[7 := h], [], [7], [7]);
      var s := Stop(r.hs, r.fifo, 1, 16, 4);
      Walk(r, r.fifo, s, 1) == r && Freed(r.hs, r.fifo, s, 1, 4) == 0 &&
      Evictees(r.hs, r.fifo, s, 1) == [] &&
      AfterPurgeAsWritten(r.fifo != []) == StageCompact &&
      AfterPurge(Evictees(r.hs, r.fifo, s, 1) != []) == StageHailMary
  {
    var h := Handle(NULL, 16, {Purgable}, []);
    var r := Roster(map[7 := h], [], [7], [7]);
    PadBounds(16, 4);
    assert Stop(r.hs, r.fifo, 1, 16, 4) == 0;
    assert !Purgeable(h);
  }

  /** AllocHandle's search in the arena so far, from the handles `hs0`, the
      FIFO `q0`, the free ranges `rs0` and the callback log `e0` it started
      with: handles have only been moved, or purged from `q0`, the FIFO has
      only lost entries, nothing has happened before the first scan, and
      after it the first scan is known to have found no room. */
  ghost predicate Searching(align: nat, hs0: map<nat, Handle>, q0: seq<nat>, rs0: seq<Range>, e0: seq<Stage>,
                            hs: map<nat, Handle>, q: seq<nat>, rs: seq<Range>, log: seq<Stage>, size: nat, first: bool)
  {
    align > 0 && Survivors(hs0, hs, q0) && (forall x :: x in q ==> x in q0) &&
    (first ==> hs == hs0 && rs == rs0 && log == e0) &&
    (!first ==> FirstFit(rs0, Pad(size, align)) == |rs0|)
  }

  /** How far AllocHandle's retries have still to go within one length of
      the used list: compaction, then purging, then the last scan. */
  function Rank(stage: Stage): nat
  {
    match stage
    case StageCompact => 2
    case StagePurge => 1
    case StageHailMary => 0
  }

  /** A handle record rewritten without moving or resizing its block and
      without gaining or losing MALLOC keeps the tiling and the lists. */
  lemma {:induction false} RetagKeeps(align: nat, lo: nat, hi: nat, hs: map<nat, Handle>, used: seq<nat>, purged: seq<nat>,
                                      fifo: seq<nat>, free: seq<Run>, id: nat, h: Handle)
    requires Tiled(align, lo, hi, hs, used, free) && Listed(hs, used, purged, fifo) && id in hs
    requires h.data == hs[id].data && h.length == hs[id].length && |h.content| == |hs[id].content|
    requires (Malloc in h.flags) == (Malloc in hs[id].flags)
    ensures Tiled(align, lo, hi, hs[id := h], used, free) && Listed(hs[id := h], used, purged, fifo)
  {
    if id in used {
      var j := IndexOf(used, id);
      assert Resident(hs[used[j]]);
      UsedApart(hs, used, purged, fifo, j);
    }
    if id in purged {
      var j := IndexOf(purged, id);
      assert Evicted(hs[purged[j]]);
    }
    TiledRetag(align, lo, hi, hs, used, free, id, h);
    ListedRetag(hs, used, purged, fifo, id, h);
  }

  /** Before the shrinking branch of ReallocHandle releases a tail: where
      it starts is above NULL, the free list is ordered, and the tail's
      length is already padded. */
  lemma {:induction false} ShrinkPlan(align: nat, lo: nat, hi: nat, hs: map<nat, Handle>, used: seq<nat>, purged: seq<nat>,
                                      fifo: seq<nat>, free: seq<Run>, id: nat, size: nat)
    requires Tiled(align, lo, hi, hs, used, free) && Listed(hs, used, purged, fifo) && id in hs
    requires Malloc !in hs[id].flags && hs[id].data != NULL
    requires Pad(size, align) < Pad(hs[id].length, align)
    ensures id in used && 0 < hs[id].data + Pad(size, align) && Separated(Ranges(free))
    ensures var n, m := Pad(size, align), Pad(hs[id].length, align); Pad(m - n, align) == m - n
  {
    ResidentPlace(align, lo, hi, hs, used, purged, fifo, free, id);
    var n, m := Pad(size, align), Pad(hs[id].length, align);
    PadBounds(size, align);
    PadBounds(hs[id].length, align);
    AlignedSub(m, n, align);
    PadAligned(m - n, align);
  }

  /** The shrinking branch of ReallocHandle for the handle at position `j`
      of the used list: once the padded tail is released, the shorter handle
      tiles the arena with the new free list, and the free bytes grow by the
      tail. */
  lemma {:induction false} ShrinkKeeps(align: nat, lo: nat, hi: nat, hs: map<nat, Handle>, used: seq<nat>, purged: seq<nat>,
                                       fifo: seq<nat>, free: seq<Run>, free': seq<Run>, j: nat, size: nat)
    requires Tiled(align, lo, hi, hs, used, free) && Listed(hs, used, purged, fifo) && j < |used|
    requires 0 < size < hs[used[j]].length && Pad(size, align) < Pad(hs[used[j]].length, align)
    requires Ranges(free') == Released(Ranges(free),
      Range(hs[used[j]].data + Pad(size, align), Pad(hs[used[j]].length, align) - Pad(size, align)))
    ensures Tiled(align, lo, hi, hs[used[j] := Shrunk(hs[used[j]], size)], used, free')
    ensures Listed(hs[used[j] := Shrunk(hs[used[j]], size)], used, purged, fifo)
    ensures SumLen(Ranges(free')) == SumLen(Ranges(free)) + Pad(hs[used[j]].length, align) - Pad(size, align)
  {
    var x := hs[used[j]];
    TiledShrink(align, lo, hi, hs, used, free, free', j, size);
    ReleasedSum(Ranges(free), Range(x.data + Pad(size, align), Pad(x.length, align) - Pad(size, align)));
    UsedApart(hs, used, purged, fifo, j);
    ListedRetag(hs, used, purged, fifo, used[j], Shrunk(x, size));
  }

  /** ShrinkKeeps for the handle `id`, wherever it sits in the used list. */
  lemma {:induction false} ShrinkStep(align: nat, lo: nat, hi: nat, hs: map<nat, Handle>, used: seq<nat>, purged: seq<nat>,
                                      fifo: seq<nat>, free: seq<Run>, free': seq<Run>, id: nat, size: nat, start: nat, len: nat)
    requires Tiled(align, lo, hi, hs, used, free) && Listed(hs, used, purged, fifo) && id in hs
    requires Malloc !in hs[id].flags && hs[id].data != NULL && 0 < size < hs[id].length
    requires Pad(size, align) < Pad(hs[id].length, align)
    requires start == hs[id].data + Pad(size, align) && len == Pad(hs[id].length, align) - Pad(size, align)
    requires Ranges(free') == Released(Ranges(free), Range(start, Pad(len, align)))
    ensures Tiled(align, lo, hi, hs[id := Shrunk(hs[id], size)], used, free')
    ensures Listed(hs[id := Shrunk(hs[id], size)], used, purged, fifo)
    ensures SumLen(Ranges(free')) == SumLen(Ranges(free)) + Pad(hs[id].length, align) - Pad(size, align)
  {
    ShrinkPlan(align, lo, hi, hs, used, purged, fifo, free, id, size);
    var j := IndexOf(used, id);
    assert used[j] == id;
    ShrinkKeeps(align, lo, hi, hs, used, purged, fifo, free, free', j, size);
  }

  /** The tiling half of ShrinkKeeps, for the handle at position `j`. */
  lemma {:induction false} TiledShrink(align: nat, lo: nat, hi: nat, hs: map<nat, Handle>, used: seq<nat>, free: seq<Run>,
                                       free': seq<Run>, j: nat, size: nat)
    requires Tiled(align, lo, hi, hs, used, free) && Distinct(used) && j < |used|
    requires 0 < size < hs[used[j]].length && Pad(size, align) < Pad(hs[used[j]].length, align)
    requires Ranges(free') == Released(Ranges(free),
      Range(hs[used[j]].data + Pad(size, align), Pad(hs[used[j]].length, align) - Pad(size, align)))
    ensures Tiled(align, lo, hi, hs[used[j] := Shrunk(hs[used[j]], size)], used, free')
  {
    var x := hs[used[j]];
    var h' := Shrunk(x, size);
    assert Resident(x);
    PadBounds(size, align);
    var b := Blocks(hs, used, align);
    assert b[j] == Range(x.data, Pad(x.length, align));
    assert b == b[..j] + [b[j]] + b[j + 1..];
    GapsShrink(lo, b[..j], b[j], b[j + 1..], hi, Pad(size, align));
    SlidBlocks(hs, used, j, h', align);
    assert BlockOf(h', align) == Range(x.data, Pad(size, align));
  }

  /** The shrinking branch of ReallocHandle when nothing is released (the
      handle is purged, or its padded length stays): the record alone changes. */
  lemma {:induction false} ShrinkStill(align: nat, lo: nat, hi: nat, hs: map<nat, Handle>, used: seq<nat>, purged: seq<nat>,
                                       fifo: seq<nat>, free: seq<Run>, id: nat, size: nat)
    requires Tiled(align, lo, hi, hs, used, free) && Listed(hs, used, purged, fifo) && id in hs
    requires Malloc !in hs[id].flags && 0 < size < hs[id].length
    requires hs[id].data == NULL || Pad(size, align) == Pad(hs[id].length, align)
    ensures Tiled(align, lo, hi, hs[id := Shrunk(hs[id], size)], used, free)
    ensures Listed(hs[id := Shrunk(hs[id], size)], used, purged, fifo)
  {
    Whereabouts(align, lo, hi, hs, used, purged, fifo, free, id);
    var h' := Shrunk(hs[id], size);
    var hs' := hs[id := h'];
    if hs[id].data == NULL {
      var k := IndexOf(purged, id);
      assert Evicted(hs[purged[k]]);
      forall i | 0 <= i < |used| ensures used[i] in hs' && hs'[used[i]] == hs[used[i]] {
        assert used[i] != id;
      }
      BlocksAgree(hs, used, hs', used, align);
    } else {
      var j := IndexOf(used, id);
      assert Resident(hs[used[j]]);
      UsedApart(hs, used, purged, fifo, j);
      TiledRetag(align, lo, hi, hs, used, free, id, h');
    }
    ListedRetag(hs, used, purged, fifo, id, h');
  }

  /** The used list is in strictly increasing address order, and every
      handle on it has a positive length. */
  lemma {:induction false} UsedOrder(align: nat, lo: nat, hi: nat, hs: map<nat, Handle>, used: seq<nat>, free: seq<Run>)
    requires Tiled(align, lo, hi, hs, used, free)
    ensures forall i, j :: 0 <= i < j < |used| ==> hs[used[i]].data < hs[used[j]].data
    ensures forall i :: 0 <= i < |used| ==> 0 < hs[used[i]].length
  {
    var b := Blocks(hs, used, align);
    ChainedOrder(lo, b, hi);
    forall i, j | 0 <= i < j < |used| ensures hs[used[i]].data < hs[used[j]].data {
      assert b[i] == BlockOf(hs[used[i]], align) && b[j] == BlockOf(hs[used[j]], align);
    }
    forall i | 0 <= i < |used| ensures 0 < hs[used[i]].length {
      assert Resident(hs[used[i]]);
    }
  }

  /** Every handle has a positive length. */
  lemma {:induction false} LengthPositive(align: nat, lo: nat, hi: nat, hs: map<nat, Handle>, used: seq<nat>, purged: seq<nat>,
                                          fifo: seq<nat>, free: seq<Run>, id: nat)
    requires Tiled(align, lo, hi, hs, used, free) && Listed(hs, used, purged, fifo) && id in hs
    ensures 0 < hs[id].length
  {
    if id in used {
      var j := IndexOf(used, id);
      assert Resident(hs[used[j]]);
    } else if id in purged {
      var j := IndexOf(purged, id);
      assert Evicted(hs[purged[j]]);
    }
  }

  /** The padded lengths of the handles among `used[..k]` that are on the
      purge FIFO and not locked: what GetTotalFreeMemory counts as free. */
  function Reclaimable(hs: map<nat, Handle>, used: seq<nat>, fifo: seq<nat>, k: nat, align: nat): nat
    requires align > 0 && AllIn(used, hs) && k <= |used|
    decreases k
  {
    if k == 0 then 0
    else
      Reclaimable(hs, used, fifo, k - 1, align) +
      if Locked !in hs[used[k - 1]].flags && used[k - 1] in fifo then Pad(hs[used[k - 1]].length, align) else 0
  }

  lemma {:induction false} SumLenStep(rs: seq<Range>, i: nat)
    requires i < |rs|
    ensures SumLen(rs[..i + 1]) == SumLen(rs[..i]) + rs[i].len
  {
    assert rs[..i + 1] == rs[..i] + [rs[i]];
    SumLenConcat(rs[..i], [rs[i]]);
    SumLenOne(rs[i]);
  }

  /** The reclaimable bytes of `used[..k]` are at most the bytes their
      blocks occupy. */
  lemma {:induction false} ReclaimableBound(hs: map<nat, Handle>, used: seq<nat>, fifo: seq<nat>, k: nat, align: nat)
    requires align > 0 && AllIn(used, hs) && k <= |used|
    ensures Reclaimable(hs, used, fifo, k, align) <= SumLen(Blocks(hs, used, align)[..k])
    decreases k
  {
    if k > 0 {
      ReclaimableBound(hs, used, fifo, k - 1, align);
      SumLenStep(Blocks(hs, used, align), k - 1);
    }
  }

  /** The free bytes plus the reclaimable bytes never exceed the arena. */
  lemma {:induction false} FreeMemoryBound(align: nat, lo: nat, hi: nat, hs: map<nat, Handle>, used: seq<nat>,
                                           fifo: seq<nat>, free: seq<Run>)
    requires Tiled(align, lo, hi, hs, used, free)
    ensures SumLen(Ranges(free)) + Reclaimable(hs, used, fifo, |used|, align) <= hi - lo
  {
    var b := Blocks(hs, used, align);
    ReclaimableBound(hs, used, fifo, |used|, align);
    assert b[..|used|] == b;
    GapsConserve(lo, b, hi);
  }

  /** Whether ReallocHandle moves `h` to a new handle for a new length
      `size`: it grows, or it lives in memory from the operating system. */
  predicate Moves(h: Handle, size: nat)
  {
    h.length < size || Malloc in h.flags
  }

  /** A handle that survives an allocation keeps its length and whether it
      came from the operating system. */
  lemma {:induction false} SurvivesShape(h0: Handle, h: Handle, queued: bool)
    requires Survives(h0, h, queued)
    ensures h.length == h0.length && (Malloc in h.flags <==> Malloc in h0.flags)
  {
  }

  /** The copy from a survivor of `h0` leaves what Regrown asks for. */
  lemma {:induction false} RegrownFrom(h0: Handle, h1: Handle, size: nat, r: Handle, queued: bool)
    requires Survives(h0, h1, queued) && r.length == size && r.flags - {Malloc} == h0.flags - {Malloc}
    requires r.content == Carry(h1.content, size)
    ensures Regrown(h0, size, r, queued)
  {
    if h1 != h0 && queued && Purgeable(h0) && h1 == Evict(h0) {
      assert h1.content == [];
    }
  }

  /** What ReallocHandle leaves in the new handle `r` made for the old
      handle `h0`: the new length, the old flags (MALLOC aside), and the old
      bytes that fit. A handle that was purged, before the call or, when it
      was `queued` on the purge FIFO, by the allocation that makes room for
      its new block, has no bytes left, and the new block keeps its own,
      taken as zeros; the source copies from the purged handle's NULL data
      pointer there (GrowReadsNullAsWritten). */
  ghost predicate Regrown(h0: Handle, size: nat, r: Handle, queued: bool)
  {
    r.length == size && r.flags - {Malloc} == h0.flags - {Malloc} &&
    (r.content == Carry(h0.content, size) || (queued && Purgeable(h0) && r.content == Zeros(size)))
  }

  /** The bytes the growing branch of ReallocHandle copies, as written:
      min(old length, new length) bytes from the old handle's data pointer
      as it is once AllocHandle has returned. */
  function GrowCopyAsWritten(h: Handle, size: nat): Range
  {
    Range(h.data, if size < h.length then size else h.length)
  }

  /** As written, growing a handle that is purged, before the call or by
      the allocation that makes room for its new block, copies a non-empty
      range from address NULL. As intended, the new block then holds no old
      bytes, which Regrown allows. */
  lemma {:induction false} GrowReadsNullAsWritten(h0: Handle, h1: Handle, size: nat, r: Handle)
    requires (Evicted(h0) && h1 == h0) || (Resident(h0) && h0.data != NULL && h1 == Evict(h0))
    requires 0 < size && r == Handle(r.data, size, h0.flags, Zeros(size))
    ensures Survives(h0, h1, true)
    ensures var c := GrowCopyAsWritten(h1, size); c.start == NULL && 0 < c.len
    ensures Regrown(h0, size, r, true)
  {
    if Evicted(h0) {
      assert Carry(h0.content, size) == Zeros(size);
    }
  }

  /** The free run the constructor releases, as written: ReleaseMemoryRange
      pads the `swing` bytes it is given, while the arena's high sentinel
      sits at the unpadded end `start + swing`. */
  function FirstRunAsWritten(start: nat, swing: nat, align: nat): Range
    requires align > 0
  {
    Range(start, Pad(swing, align))
  }

  /** As written, whenever `swing` is not a whole number of alignment units
      the first free run reaches past the end of the system block, by less
      than one unit, and a FIXED allocation, which takes the top of the
      highest run, is handed those bytes. The constructor's run ends at or
      before that end. */
  lemma {:induction false} FirstRunOverrunsAsWritten(start: nat, swing: nat, align: nat)
    requires align > 0 && !Aligned(swing, align)
    ensures start + swing < End(FirstRunAsWritten(start, swing, align)) < start + swing + align
  {
    PadBounds(swing, align);
  }

  class MemoryManagerHandle {
    /** ALIGNMENT: every block length is padded to a multiple of it. */
    const align: nat
    /** DEFAULTHANDLECOUNT: how many handle records one refill of the pool makes. */
    const batch: nat
    /** The arena: its first byte, and one past the last byte the ledgers use. */
    const lo: nat
    const hi: nat

    /** The manager still owns its system memory (m_pSystemMemoryBlocks). */
    var live: bool
    var handles: map<nat, Handle>
    var used: seq<nat>
    var purged: seq<nat>
    var fifo: seq<nat>
    var free: seq<Run>
    var pool: seq<nat>
    /** The first record id no batch has produced yet. */
    var nextRecord: nat
    /** m_uTotalHandleCount. */
    var handleCount: nat
    /** m_uTotalAllocatedMemory, the unpadded bytes handed out. */
    var totalAllocated: int
    /** Whether a purge callback is installed (for the life of the manager),
        and what it has been told. */
    const callback: bool
    var events: seq<Stage>
    /** The record AllocHandle has taken for the handle it is making. */
    ghost var held: set<nat>
    /** The back pointers AllocProc stores in the ALIGNMENT bytes in front of
        each pointer it returns, kept beside the arena: pointer to handle. */
    var owners: map<nat, nat>

    /** The arena is tiled by the used blocks and the free runs. */
    ghost predicate Layout()
      reads this`handles, this`used, this`free
    {
      Tiled(align, lo, hi, handles, used, free)
    }

    ghost predicate Lists()
      reads this`handles, this`used, this`purged, this`fifo
    {
      Listed(handles, used, purged, fifo)
    }

    /** Every record is a handle, held by an allocation in progress, in the
        pool, or describing a free run, and only one of these. */
    ghost predicate Records()
      reads this`handles, this`held, this`pool, this`free, this`nextRecord
    {
      batch >= 2 && nextRecord > 0 && handles.Keys !! held &&
      RecordsApart(Owned(), pool, free, nextRecord)
    }

    ghost function Owned(): set<nat>
      reads this`handles, this`held
    {
      handles.Keys + held
    }

    ghost predicate Valid()
      reads this`handles, this`used, this`purged, this`fifo, this`free, this`held, this`pool, this`nextRecord
    {
      Layout() && Lists() && Records()
    }

    /** The manager after its constructor: `count` handle records (at least
        8) in the pool, and the arena, `swing` bytes from an aligned start
        to the end of the system block, cut down to a whole number of
        alignment units so that it never reaches past that end; one record
        describes it as free when it is not empty. */
    constructor (superChunkStart: nat, swing: nat, count: nat, batchSize: nat, alignment: nat, withCallback: bool)
      requires alignment > 0 && batchSize >= 2 && 0 < superChunkStart && Aligned(superChunkStart, alignment)
      ensures Valid() && live && callback == withCallback
      ensures lo == superChunkStart && align == alignment && hi == lo + Trunc(swing, alignment)
      ensures hi <= lo + swing < hi + alignment && Aligned(hi, alignment)
      ensures handles == map[] && used == [] && purged == [] && fifo == [] && events == [] && held == {} && owners == map[]
      ensures Ranges(free) == Gap(lo, hi)
      ensures handleCount == if count < 8 then 8 else count
      ensures totalAllocated == 0
    {
      var n := if count < 8 then 8 else count;
      var t := Trunc(swing, alignment);
      AlignedAdd(superChunkStart, t, alignment);
      align := alignment;
      batch := batchSize;
      lo := superChunkStart;
      hi := superChunkStart + t;
      live := true;
      handles := map[];
      used := [];
      purged := [];
      fifo := [];
      free := if t == 0 then [] else [Run(1, superChunkStart, t)];
      pool := Batch(2, n - 1);
      nextRecord := n + 1;
      handleCount := n;
      totalAllocated := 0;
      callback := withCallback;
      events := [];
      held := {};
      owners := map[];
    }

    /** Takes a record from the head of the pool; an empty pool is first
        refilled with a fresh batch, whose first record is the one returned. */
    method AllocNewHandle() returns (id: nat)
      requires Records()
      modifies this`pool, this`nextRecord, this`handleCount
      ensures Records() && Spare(Owned(), pool, free, nextRecord, id)
      ensures old(pool) != [] ==>
        id == old(pool)[0] && pool == old(pool)[1..] && nextRecord == old(nextRecord) && handleCount == old(handleCount)
      ensures old(pool) == [] ==>
        id == old(nextRecord) && pool == Batch(id + 1, batch - 1) &&
        nextRecord == id + batch && handleCount == old(handleCount) + batch
    {
      if |pool| == 0 {
        PoolRefill(Owned(), free, nextRecord, batch);
        id := nextRecord;
        // Link the rest of the batch, last record first.
        var chain: seq<nat> := [];
        var i := batch - 1;
        while i > 0
          invariant 0 <= i <= batch - 1
          invariant chain == Batch(id + 1 + i, batch - 1 - i)
        {
          chain := [id + i] + chain;
          i := i - 1;
        }
        pool := chain;
        nextRecord := nextRecord + batch;
        handleCount := handleCount + batch;
      } else {
        PoolPop(Owned(), pool, free, nextRecord);
        id := pool[0];
        pool := pool[1..];
      }
    }

    /** The backward scan of ReleaseMemoryRange: from the tail, the first run
        that starts at or below `start`; the result is one past it, or 0. */
    method ScanBack(start: nat) returns (k: nat)
      requires Separated(Ranges(free))
      ensures k == Below(Ranges(free), start)
    {
      k := |free|;
      while k > 0 && free[k - 1].start > start
        invariant 0 <= k <= |free|
        invariant forall i :: k <= i < |free| ==> start < free[i].start
      {
        k := k - 1;
      }
      BelowIs(Ranges(free), start, k);
    }

    /** Gives the range [start, start + Pad(length)) back to the free list:
        the backward scan finds its place, and it is merged with the run that
        ends where it starts, the run that starts where it ends, or both (that
        run's record going back to the pool); otherwise a new run is made. */
    method ReleaseMemoryRange(start: nat, length: nat)
      requires align > 0 && Records()
      requires Separated(Ranges(free)) && 0 < start
      modifies this`free, this`pool, this`nextRecord, this`handleCount
      ensures Records()
      ensures Ranges(free) == Released(Ranges(old(free)), Range(start, Pad(length, align)))
    {
      var x := Range(start, Pad(length, align));
      if |free| == 0 {
        // No free memory at all: the range becomes the only run.
        LinkNewRun(0, x);
        return;
      }
      var k := ScanBack(start);
      if k > 0 && free[k - 1].start + free[k - 1].len == start {
        if k < |free| && start + x.len == free[k].start {
          JoinBoth(k, x);
        } else {
          JoinPrev(k - 1, x);
        }
      } else if k < |free| && start + x.len == free[k].start {
        JoinNext(k, x);
      } else {
        LinkNewRun(k, x);
      }
    }

    /** The range fills the hole between runs `k - 1` and `k`: the first grows
        over both, the second's record goes back to the pool. */
    method JoinBoth(k: nat, x: Range)
      requires Records() && 0 < k < |free|
      requires End(RangeOf(free[k - 1])) == x.start && End(x) == free[k].start
      modifies this`free, this`pool
      ensures Records()
      ensures Ranges(free) == ReleasedAt(Ranges(old(free)), x, k)
    {
      var m := Run(free[k - 1].rec, free[k - 1].start, free[k - 1].len + x.len + free[k].len);
      var retired := free[k].rec;
      ReleaseJoinBoth(free, x, k, m);
      Absorb(Owned(), pool, free, nextRecord, k, m);
      free := free[..k - 1] + [m] + free[k + 1..];
      pool := [retired] + pool;
    }

    /** The range extends run `j`, which ends where it starts. */
    method JoinPrev(j: nat, x: Range)
      requires Records() && j < |free|
      requires End(RangeOf(free[j])) == x.start && !(j + 1 < |free| && End(x) == free[j + 1].start)
      modifies this`free
      ensures Records()
      ensures Ranges(free) == ReleasedAt(Ranges(old(free)), x, j + 1)
    {
      var m := Run(free[j].rec, free[j].start, free[j].len + x.len);
      ReleaseJoinPrev(free, x, j, m);
      Keep(Owned(), pool, free, nextRecord, j, m);
      free := free[..j] + [m] + free[j + 1..];
    }

    /** The range is prepended to run `k`, which starts where it ends. */
    method JoinNext(k: nat, x: Range)
      requires Records() && k < |free|
      requires !(k > 0 && End(RangeOf(free[k - 1])) == x.start) && End(x) == free[k].start
      modifies this`free
      ensures Records()
      ensures Ranges(free) == ReleasedAt(Ranges(old(free)), x, k)
    {
      var m := Run(free[k].rec, x.start, x.len + free[k].len);
      ReleaseJoinNext(free, x, k, m);
      Keep(Owned(), pool, free, nextRecord, k, m);
      free := free[..k] + [m] + free[k + 1..];
    }

    /** The tail of ReleaseMemoryRange that makes a new free run: a record
        from AllocNewHandle describes `x` and is linked in at position `k`. */
    method LinkNewRun(k: nat, x: Range)
      requires Records() && k <= |free|
      modifies this`free, this`pool, this`nextRecord, this`handleCount
      ensures Records()
      ensures Ranges(free) == Ranges(old(free))[..k] + [x] + Ranges(old(free))[k..]
    {
      var id := AllocNewHandle();
      var m := Run(id, x.start, x.len);
      Insert(Owned(), pool, free, nextRecord, k, m);
      RangesSplice(free, k, k, [m]);
      free := free[..k] + [m] + free[k..];
    }

    /** Takes the range [start, start + Pad(length)) out of an edge of the
        free run the caller names, or of the run the forward scan finds: a
        run used up whole goes back to the pool, otherwise it loses its
        front or its tail. */
    method GrabMemoryRange(start: nat, length: nat, hint: Hint)
      requires align > 0 && Records()
      requires hint.At? ==> hint.k < |free|
      requires var k := if hint.At? then hint.k else FindRun(Ranges(free), start);
        k < |free| && AtEdge(RangeOf(free[k]), Range(start, Pad(length, align)))
      modifies this`free, this`pool
      ensures Records()
      ensures Ranges(free) == GrabbedAt(Ranges(old(free)),
        if hint.At? then hint.k else FindRun(Ranges(old(free)), start), Range(start, Pad(length, align)))
    {
      var x := Range(start, Pad(length, align));
      var keys := Owned();
      var k: nat;
      if hint.At? {
        k := hint.k;
      } else {
        FindRunFound(Ranges(free), start);
        k := 0;
        while !(free[k].start <= start < free[k].start + free[k].len)
          invariant k <= FindRun(Ranges(free), start)
          decreases |free| - k
        {
          k := k + 1;
        }
        assert Ranges(free)[k] == RangeOf(free[k]);
      }
      if free[k].start == start {
        if free[k].len == x.len {
          // The whole run is taken: unlink it and pool its record.
          var retired := free[k].rec;
          GrabWhole(free, x, k);
          Retire(keys, pool, free, nextRecord, k);
          free := free[..k] + free[k + 1..];
          pool := [retired] + pool;
        } else {
          var m := Run(free[k].rec, start + x.len, free[k].len - x.len);
          GrabFront(free, x, k, m);
          Keep(keys, pool, free, nextRecord, k, m);
          free := free[..k] + [m] + free[k + 1..];
        }
      } else {
        var m := Run(free[k].rec, free[k].start, start - free[k].start);
        GrabTail(free, x, k, m);
        Keep(keys, pool, free, nextRecord, k, m);
        free := free[..k] + [m] + free[k + 1..];
      }
    }

    /** The ledger side of moving a block: ReleaseMemoryRange of the range at
        `start`, then GrabMemoryRange of the same length at `dest`, found by
        the forward scan. */
    method MoveRange(start: nat, dest: nat, length: nat)
      requires align > 0 && Records() && Separated(Ranges(free)) && 0 < start
      requires CanMove(Ranges(free), Range(start, Pad(length, align)), Range(dest, Pad(length, align)))
      modifies this`free, this`pool, this`nextRecord, this`handleCount
      ensures Records()
      ensures Ranges(free) == Moved(Ranges(old(free)), Range(start, Pad(length, align)), Range(dest, Pad(length, align)))
    {
      ReleaseMemoryRange(start, length);
      var k := FindRun(Ranges(free), dest);
      assert Ranges(free)[k] == RangeOf(free[k]);
      GrabMemoryRange(dest, length, Scan);
    }

    /** Stores a changed handle record, once the lists and the tiling are
        known to hold for it. */
    method Retag(id: nat, h: Handle)
      requires Records() && id in handles
      requires Tiled(align, lo, hi, handles[id := h], used, free) && Listed(handles[id := h], used, purged, fifo)
      modifies this`handles
      ensures Valid() && handles == old(handles)[id := h]
    {
      RecordsRetag(handles, held, pool, free, nextRecord, id, h);
      handles := handles[id := h];
    }

    /** The purge callback, when one is installed, hears `stage`. */
    method Notify(stage: Stage)
      modifies this`events
      ensures events == old(events) + if callback then [stage] else []
    {
      if callback {
        events := events + [stage];
      }
    }

    /** Stores a changed handle record and new lists, once the lists and the
        tiling are known to hold for them. */
    method Relist(id: nat, h: Handle, used': seq<nat>, purged': seq<nat>, fifo': seq<nat>)
      requires Records() && id in handles
      requires Tiled(align, lo, hi, handles[id := h], used', free) && Listed(handles[id := h], used', purged', fifo')
      modifies this`handles, this`used, this`purged, this`fifo
      ensures Valid() && handles == old(handles)[id := h]
      ensures used == used' && purged == purged' && fifo == fifo'
    {
      RecordsRetag(handles, held, pool, free, nextRecord, id, h);
      handles := handles[id := h];
      used, purged, fifo := used', purged', fifo';
    }

    /** Purge: a handle with data in the arena loses it. The callback hears
        StagePurge, the lock is cleared, the handle leaves the FIFO and the
        used list, its block goes back to the free list, and it heads the
        purged list with no data, keeping its length and other flags. NULL,
        a purged handle and a handle from the operating system are left alone. */
    method Purge(h: nat)
      requires Valid() && (h == NULL || h in handles)
      modifies this`handles, this`used, this`purged, this`fifo, this`free, this`pool, this`nextRecord,
        this`handleCount, this`events
      ensures Valid()
      ensures h != NULL && Purgeable(old(handles[h])) ==>
        old(h in used) && handles == old(handles)[h := Evict(old(handles[h]))] &&
        used == Unlink(old(used), h) && purged == [h] + old(purged) && fifo == Unlink(old(fifo), h) &&
        SumLen(Ranges(free)) == old(SumLen(Ranges(free))) + Pad(old(handles[h].length), align) &&
        events == old(events) + if callback then [StagePurge] else []
      ensures h == NULL || !Purgeable(old(handles[h])) ==>
        unchanged(this`handles, this`used, this`purged, this`fifo, this`free, this`pool, this`events)
      ensures h != NULL && !Purgeable(old(handles[h])) ==> h !in used
    {
      if h == NULL {
        return;
      }
      if Purgeable(handles[h]) {
        PurgeResident(h);
      } else {
        assert h !in used by {
          Whereabouts(align, lo, hi, handles, used, purged, fifo, free, h);
        }
      }
    }

    /** Purges handles from the tail of the FIFO, the longest marked first,
        until one whose padded length covers what is still wanted of `size`
        is purged, or the FIFO has been walked to its head. Every handle
        visited goes through Purge; a handle already purged stays on the
        FIFO. `result` is what the source returns: whether the FIFO had any
        entry. `any` says whether a handle was purged at all. */
    method PurgeHandles(size: nat) returns (result: bool, any: bool)
      requires Valid()
      modifies this`handles, this`used, this`purged, this`fifo, this`free, this`pool, this`nextRecord,
        this`handleCount, this`events
      ensures Valid()
      ensures var q := old(fifo); var s := Stop(old(handles), q, |q|, size, align);
        var w := Walk(old(Roster(handles, used, purged, fifo)), q, s, |q|);
        handles == w.hs && used == w.used && purged == w.purged && fifo == w.fifo
      ensures var q := old(fifo); var s := Stop(old(handles), q, |q|, size, align);
        var gone := Evictees(old(handles), q, s, |q|);
        SumLen(Ranges(free)) == old(SumLen(Ranges(free))) + Freed(old(handles), q, s, |q|, align) &&
        events == old(events) + Repeat(StagePurge, if callback then |gone| else 0) &&
        result == (q != []) && any == (gone != [])
    {
      WalkStart(align, lo, hi, handles, used, purged, fifo, free, size, callback, events);
      ghost var r0 := Roster(handles, used, purged, fifo);
      ghost var f0, e0 := SumLen(Ranges(free)), events;
      var q := fifo;
      ghost var n: nat := |q|;
      var i: nat, rest: nat, done := |q|, size, false;
      ghost var told: nat, freed: nat := 0, 0;
      result, any := false, false;
      while i > 0 && !done
        invariant Valid()
        invariant Walking(r0, q, n, size, align, callback, e0, f0, handles, used, purged, fifo, SumLen(Ranges(free)),
                          events, i, rest, done, told, freed, any)
        invariant result == (i < n)
        decreases i
      {
        i, rest, done, told, freed, any := WalkVisit(r0, q, n, size, e0, f0, i, rest, done, told, freed, any);
        result := true;
      }
      WalkedEnd(r0.hs, q, n, size, align, callback, i, rest, done, told, freed, any);
    }

    /** One visit of PurgeHandles's walk: Purge of `q[i - 1]`, the handle
        the earlier visits left untouched, and the counters that follow. */
    method WalkVisit(ghost r0: Roster, q: seq<nat>, ghost n: nat, size: nat, ghost e0: seq<Stage>, ghost f0: nat,
                     i: nat, rest: nat, done: bool, ghost told: nat, ghost freed: nat, any: bool)
      returns (i': nat, rest': nat, done': bool, ghost told': nat, ghost freed': nat, any': bool)
      requires 0 < i && !done && Valid()
      requires Walking(r0, q, n, size, align, callback, e0, f0, handles, used, purged, fifo, SumLen(Ranges(free)),
                       events, i, rest, done, told, freed, any)
      modifies this`handles, this`used, this`purged, this`fifo, this`free, this`pool, this`nextRecord,
        this`handleCount, this`events
      ensures i' == i - 1 && Valid()
      ensures Walking(r0, q, n, size, align, callback, e0, f0, handles, used, purged, fifo, SumLen(Ranges(free)),
                      events, i', rest', done', told', freed', any')
    {
      i' := i - 1;
      var id := q[i'];
      var m := Pad(handles[id].length, align);
      var evicted := Purgeable(handles[id]);
      ghost var hs, us, ps, fs, room, log := handles, used, purged, fifo, SumLen(Ranges(free)), events;
      assert id != NULL;
      Purge(id);
      WalkVisited(r0, q, n, size, align, callback, e0, f0, hs, us, ps, fs, room, log, i, i', rest, told, freed, any,
                  m, evicted, handles, used, purged, fifo, SumLen(Ranges(free)), events);
      rest', done', any' := if m >= rest then rest else rest - m, m >= rest, any || evicted;
      told', freed' := told + (if callback && evicted then 1 else 0), freed + (if evicted then m else 0);
    }

    /** Purge of a handle with data in the arena. */
    method PurgeResident(h: nat)
      requires Valid() && h in handles && Purgeable(handles[h])
      modifies this`handles, this`used, this`purged, this`fifo, this`free, this`pool, this`nextRecord,
        this`handleCount, this`events
      ensures Valid() && old(h in used) && handles == old(handles)[h := Evict(old(handles[h]))]
      ensures used == Unlink(old(used), h) && purged == [h] + old(purged) && fifo == Unlink(old(fifo), h)
      ensures SumLen(Ranges(free)) == old(SumLen(Ranges(free))) + Pad(old(handles[h].length), align)
      ensures events == old(events) + if callback then [StagePurge] else []
    {
      var hs, us, ps, fs := handles, used, purged, fifo;
      ghost var free0 := free;
      ResidentPlace(align, lo, hi, hs, us, ps, fs, free0, h);
      ReleaseMemoryRange(handles[h].data, handles[h].length);
      PurgeKeeps(align, lo, hi, hs, us, ps, fs, free0, free, h);
      Relist(h, Evict(hs[h]), Unlink(us, h), [h] + ps, Unlink(fs, h));
      Notify(StagePurge);
    }

    /** Disposes of a handle. Its length leaves the running total. A handle
        from the arena of a live manager comes off the FIFO and off its list,
        gives its block (if it still has one) back to the free list, and its
        record goes to the head of the pool; a handle from the operating
        system is simply gone. */
    method FreeHandle(h: nat)
      requires Valid() && (h == NULL || h in handles)
      modifies this`handles, this`used, this`purged, this`fifo, this`free, this`pool, this`nextRecord,
        this`handleCount, this`totalAllocated
      ensures Valid()
      ensures h == NULL ==>
        unchanged(this`handles, this`used, this`purged, this`fifo, this`free, this`pool, this`totalAllocated)
      ensures h != NULL ==> totalAllocated == old(totalAllocated - handles[h].length)
      ensures h != NULL && (live || Malloc in old(handles[h].flags)) ==>
        handles == old(handles) - {h} &&
        used == Unlink(old(used), h) && purged == Unlink(old(purged), h) && fifo == Unlink(old(fifo), h)
      ensures h != NULL && live && Malloc !in old(handles[h].flags) ==> |pool| > 0 && pool[0] == h
      ensures h != NULL && !live && Malloc !in old(handles[h].flags) ==>
        unchanged(this`handles, this`used, this`purged, this`fifo, this`free, this`pool)
      ensures h != NULL && live && h in old(used) ==>
        SumLen(Ranges(free)) == old(SumLen(Ranges(free))) + Pad(old(handles[h].length), align)
      ensures h == NULL || !live || h !in old(used) ==> free == old(free)
    {
      if h == NULL {
        return;
      }
      totalAllocated := totalAllocated - handles[h].length;
      Dispose(h);
    }

    /** FreeHandle once the running total is adjusted: what happens to the
        handle depends on where its memory came from. */
    method Dispose(h: nat)
      requires Valid() && h in handles
      modifies this`handles, this`used, this`purged, this`fifo, this`free, this`pool, this`nextRecord, this`handleCount
      ensures Valid()
      ensures live || Malloc in old(handles[h].flags) ==>
        handles == old(handles) - {h} &&
        used == Unlink(old(used), h) && purged == Unlink(old(purged), h) && fifo == Unlink(old(fifo), h)
      ensures live && Malloc !in old(handles[h].flags) ==> |pool| > 0 && pool[0] == h
      ensures !live && Malloc !in old(handles[h].flags) ==>
        unchanged(this`handles, this`used, this`purged, this`fifo, this`free, this`pool)
      ensures live && h in old(used) ==>
        SumLen(Ranges(free)) == old(SumLen(Ranges(free))) + Pad(old(handles[h].length), align)
      ensures !live || h !in old(used) ==> free == old(free)
    {
      if Malloc in handles[h].flags {
        DropDetached(h);
      } else if live {
        DropArena(h);
      }
    }

    /** Dispose for a handle of the arena while the manager runs: it goes back
        to the pool of spare records. */
    method DropArena(h: nat)
      requires Valid() && h in handles && Malloc !in handles[h].flags
      modifies this`handles, this`used, this`purged, this`fifo, this`free, this`pool, this`nextRecord, this`handleCount
      ensures Valid()
      ensures handles == old(handles) - {h} && |pool| > 0 && pool[0] == h
      ensures used == Unlink(old(used), h) && purged == Unlink(old(purged), h) && fifo == Unlink(old(fifo), h)
      ensures h in old(used) ==>
        SumLen(Ranges(free)) == old(SumLen(Ranges(free))) + Pad(old(handles[h].length), align)
      ensures h !in old(used) ==> free == old(free)
    {
      if handles[h].data != NULL {
        DropUsed(h);
      } else {
        DropPurged(h);
      }
    }

    /** FreeHandle for a handle with a block in the arena. */
    method DropUsed(h: nat)
      requires Valid() && h in handles && Malloc !in handles[h].flags && handles[h].data != NULL
      modifies this`handles, this`used, this`fifo, this`free, this`pool, this`nextRecord, this`handleCount
      ensures Valid()
      ensures old(h in used) && handles == old(handles) - {h} && |pool| > 0 && pool[0] == h
      ensures used == Unlink(old(used), h) && purged == Unlink(purged, h) && fifo == Unlink(old(fifo), h)
      ensures SumLen(Ranges(free)) == old(SumLen(Ranges(free))) + Pad(old(handles[h].length), align)
    {
      var us, fs := used, fifo;
      ghost var hs, ps, free0 := handles, purged, free;
      ResidentPlace(align, lo, hi, hs, us, ps, fs, free0, h);
      ReleaseMemoryRange(handles[h].data, handles[h].length);
      DropUsedState(align, lo, hi, hs, us, ps, fs, free0, free, h);
      Forget(h, Unlink(us, h), Unlink(fs, h));
    }

    /** Removes a handle whose block is already released: it leaves the map
        and the lists, and its record heads the pool. */
    method Forget(h: nat, used': seq<nat>, fifo': seq<nat>)
      requires Records() && h in handles
      requires Tiled(align, lo, hi, handles - {h}, used', free) && Listed(handles - {h}, used', purged, fifo')
      modifies this`handles, this`used, this`fifo, this`pool
      ensures Valid() && handles == old(handles) - {h} && pool == [h] + old(pool)
      ensures used == used' && fifo == fifo'
    {
      DropRecord(handles, held, pool, free, nextRecord, h);
      handles, used, fifo, pool := handles - {h}, used', fifo', [h] + pool;
    }

    /** FreeHandle for a purged handle. */
    method DropPurged(h: nat)
      requires Valid() && h in handles && Malloc !in handles[h].flags && handles[h].data == NULL
      modifies this`handles, this`purged, this`fifo, this`pool
      ensures Valid()
      ensures old(h !in used) && handles == old(handles) - {h} && |pool| > 0 && pool[0] == h
      ensures used == Unlink(used, h) && purged == Unlink(old(purged), h) && fifo == Unlink(old(fifo), h)
    {
      Whereabouts(align, lo, hi, handles, used, purged, fifo, free, h);
      ListedFree(handles, used, purged, fifo, h);
      TiledForget(align, lo, hi, handles, used, free, h);
      fifo := Unlink(fifo, h);
      purged := Unlink(purged, h);
      Discard(Owned(), pool, free, nextRecord, h);
      assert Owned() - {h} == (handles - {h}).Keys + held;
      handles := handles - {h};
      pool := [h] + pool;
    }

    /** FreeHandle for a handle from the operating system (FreeSystemMemory):
        it is on no list and owns no arena block. */
    method DropDetached(h: nat)
      requires Valid() && h in handles && Malloc in handles[h].flags
      modifies this`handles
      ensures Valid()
      ensures old(h !in used) && handles == old(handles) - {h}
      ensures used == Unlink(used, h) && purged == Unlink(purged, h) && fifo == Unlink(fifo, h)
    {
      Whereabouts(align, lo, hi, handles, used, purged, fifo, free, h);
      TiledForget(align, lo, hi, handles, used, free, h);
      ListedFree(handles, used, purged, fifo, h);
      assert Owned() - {h} == (handles - {h}).Keys + held;
      handles := handles - {h};
    }
  
    /** Moves used block `j` down to `e`, the padded end of the block before
        it: the range is released, the forward scan of GrabMemoryRange finds
        `e` and takes the block's length from there, and the bytes move with
        the handle. */
    method Slide(j: nat, e: nat)
      requires Valid() && j < |used|
      requires e == PrevEnd(align, lo, handles, used, j) && e < handles[used[j]].data
      modifies this`handles, this`free, this`pool, this`nextRecord, this`handleCount
      ensures Valid()
      ensures handles == old(handles)[used[j] := old(handles[used[j]]).(data := e)]
    {
      var id := used[j];
      var h := handles[id];
      var h' := h.(data := e);
      ghost var hs, us, ps, fs, free0 := handles, used, purged, fifo, free;
      SlideRoom(align, lo, hi, hs, us, free0, j, e, h');
      MoveRange(h.data, e, h.length);
      SlideKeeps(align, lo, hi, hs, us, ps, fs, free0, j, e, h', free);
      Retag(id, h');
    }

    /** Packs the movable blocks together: walking the used list upwards,
        each block that is neither locked nor fixed moves down to the padded
        end of its predecessor. The used list keeps its members and order;
        the purge callback hears StageCompact once, before the first move. */
    method CompactHandles()
      requires Valid()
      modifies this`handles, this`free, this`pool, this`nextRecord, this`handleCount, this`events
      ensures Valid()
      ensures Slid(old(handles), handles, used)
      ensures Packed(align, lo, handles, used, |used|)
      ensures events == old(events) + if callback && handles != old(handles) then [StageCompact] else []
    {
      var called := !callback;
      var i := 0;
      while i < |used|
        invariant i <= |used| && Valid()
        invariant Slid(old(handles), handles, used)
        invariant Packed(align, lo, handles, used, i)
        invariant called == (!callback || handles != old(handles))
        invariant events == old(events) + if callback && handles != old(handles) then [StageCompact] else []
      {
        ghost var hs := handles;
        ghost var h := handles[used[i]];
        ghost var e := PrevEnd(align, lo, handles, used, i);
        called := CompactAt(i, called);
        if Movable(h) && e != h.data {
          SlidStep(old(handles), hs, used, used[i], e);
        }
        i := i + 1;
      }
    }

    /** One step of CompactHandles: used block `i`, when it may move and does
        not already sit at the padded end of its predecessor, moves there; the
        callback is told first unless `called` says it has been. */
    method CompactAt(i: nat, called: bool) returns (called': bool)
      requires Valid() && i < |used| && Packed(align, lo, handles, used, i)
      modifies this`handles, this`free, this`pool, this`nextRecord, this`handleCount, this`events
      ensures Valid() && Packed(align, lo, handles, used, i + 1)
      ensures var h := old(handles[used[i]]); var e := old(PrevEnd(align, lo, handles, used, i));
        if Movable(h) && e != h.data then
          e < h.data && handles == old(handles)[used[i] := h.(data := e)] && called' &&
          events == old(events) + if called then [] else [StageCompact]
        else
          handles == old(handles) && called' == called && events == old(events)
    {
      var h := handles[used[i]];
      var e := PrevEnd(align, lo, handles, used, i);
      if Movable(h) && e != h.data {
        assert e < h.data by {
          TiledBefore(align, lo, hi, handles, used, free, i);
        }
        called' := true;
        if !called {
          events := events + [StageCompact];
        }
        ghost var hs := handles;
        Slide(i, e);
        PackedStep(align, lo, hs, used, i, h.(data := e));
      } else {
        called' := called;
        PackedStep(align, lo, handles, used, i, h);
        assert handles[used[i] := h] == handles;
      }
    }

    /** The head-first scan of AllocHandle for a block that may move: the
        lowest free run with room for `n` bytes, or |free| if none has. */
    method ScanFirst(n: nat) returns (k: nat)
      ensures k == FirstFit(Ranges(free), n)
    {
      k := 0;
      while k < |free| && free[k].len < n
        invariant k <= |free| && forall i :: 0 <= i < k ==> free[i].len < n
      {
        k := k + 1;
      }
      FirstFitIs(Ranges(free), n, k);
    }

    /** The tail-first scan of AllocHandle for a fixed block: the highest
        free run with room for `n` bytes, or |free| if none has. */
    method ScanLast(n: nat) returns (k: nat)
      ensures k == LastFit(Ranges(free), n)
    {
      k := |free|;
      while k > 0 && free[k - 1].len < n
        invariant k <= |free| && forall i :: k <= i < |free| ==> free[i].len < n
      {
        k := k - 1;
      }
      k := if k == 0 then |free| else k - 1;
      LastFitIs(Ranges(free), n, k);
    }

    /** Stores the handle made from the held record, once the tiling and the
        lists are known to hold with it. */
    method Admit(id: nat, h: Handle, used': seq<nat>)
      requires Records() && held == {id}
      requires Tiled(align, lo, hi, handles[id := h], used', free) && Listed(handles[id := h], used', purged, fifo)
      modifies this`handles, this`used, this`held
      ensures Valid() && held == {} && handles == old(handles)[id := h] && used == used'
    {
      RecordsAdmit(handles, pool, free, nextRecord, id, h);
      handles := handles[id := h];
      used := used';
      held := {};
    }

    /** The held record becomes the resident handle `h`, whose block lies at
        an edge of free run `k`: GrabMemoryRange takes the block out of that
        run, and the handle joins the used list just after the run's parent,
        the last block below the run. */
    method Place(id: nat, h: Handle, k: nat)
      requires Valid() && held == {id} && k < |free| && Resident(h)
      requires AtEdge(RangeOf(free[k]), BlockOf(h, align))
      modifies this`handles, this`used, this`free, this`pool, this`held
      ensures Valid() && held == {}
      ensures var j := BlocksBefore(Blocks(old(handles), old(used), align), old(free[k].start));
        j <= |old(used)| && handles == old(handles)[id := h] && used == old(used)[..j] + [id] + old(used)[j..]
      ensures Ranges(free) == GrabbedAt(Ranges(old(free)), k, BlockOf(h, align))
    {
      ghost var hs, free0 := handles, free;
      var us := used;
      var j := BlocksBefore(Blocks(handles, used, align), free[k].start);
      assert Ranges(free)[k] == RangeOf(free[k]);
      GrabMemoryRange(h.data, h.length, At(k));
      PlaceKeeps(align, lo, hi, hs, us, purged, fifo, free0, free, k, id, h);
      Admit(id, h, us[..j] + [id] + us[j..]);
    }

    /** One scan of AllocHandle: when some free run has room for `size`
        bytes (padded), the held record becomes a handle with its block where
        Spot puts it, its flags those asked for less MALLOC, and the running
        total grows by `size`; otherwise nothing changes. */
    method TryPlace(id: nat, size: nat, flags: set<Flag>) returns (found: bool)
      requires Valid() && held == {id} && 0 < size
      modifies this`handles, this`used, this`free, this`pool, this`held, this`totalAllocated
      ensures Valid()
      ensures found == (FirstFit(Ranges(old(free)), Pad(size, align)) < |old(free)|)
      ensures !found ==> unchanged(this`handles, this`used, this`free, this`pool, this`held, this`totalAllocated)
      ensures found ==>
        held == {} && totalAllocated == old(totalAllocated) + size &&
        Placed(align, old(handles), old(used), Ranges(old(free)), handles, used, Ranges(free), id, size, flags)
    {
      var n := Pad(size, align);
      var k: nat;
      if Fixed in flags {
        k := ScanLast(n);
      } else {
        k := ScanFirst(n);
      }
      if k == |free| {
        return false;
      }
      Settle(id, size, flags, k);
      found := true;
    }

    /** TryPlace once its scan has found run `k`. */
    method Settle(id: nat, size: nat, flags: set<Flag>, k: nat)
      requires Valid() && held == {id} && 0 < size
      requires FirstFit(Ranges(free), Pad(size, align)) < |free| && k == Pick(Ranges(free), Pad(size, align), Fixed in flags)
      modifies this`handles, this`used, this`free, this`pool, this`held, this`totalAllocated
      ensures Valid() && held == {} && totalAllocated == old(totalAllocated) + size
      ensures Placed(align, old(handles), old(used), Ranges(old(free)), handles, used, Ranges(free), id, size, flags)
    {
      var n := Pad(size, align);
      var start := if Fixed in flags then free[k].start + free[k].len - n else free[k].start;
      var h := Handle(start, size, flags - {Malloc}, Zeros(size));
      assert Spot(Ranges(free), n, Fixed in flags) == BlockOf(h, align);
      totalAllocated := totalAllocated + size;
      Place(id, h, k);
    }

    /** One retry stage of AllocHandle after a scan found no room.
        StageCompact packs the arena and moves on to StagePurge; StagePurge
        purges from the FIFO towards `size` bytes and goes back to
        compaction if anything was purged, on to the last scan if not. */
    method AllocStage(stage: Stage, size: nat) returns (stage': Stage)
      requires Valid() && stage != StageHailMary
      modifies this`handles, this`used, this`purged, this`fifo, this`free, this`pool, this`nextRecord,
        this`handleCount, this`events
      ensures Valid() && Survivors(old(handles), handles, old(fifo)) && forall x :: x in fifo ==> x in old(fifo)
      ensures stage == StageCompact ==> stage' == StagePurge && used == old(used)
      ensures stage == StagePurge ==> stage' != StagePurge && |used| <= old(|used|)
      ensures stage' == StageCompact ==> |used| < old(|used|)
    {
      if stage == StageCompact {
        ghost var hs, free0 := handles, free;
        CompactHandles();
        SlidSurvivors(align, lo, hi, hs, handles, used, free0, free, fifo);
        stage' := StagePurge;
      } else {
        ghost var hs, us, ps, fs, free0 := handles, used, purged, fifo, free;
        FifoIn(align, lo, hi, hs, us, ps, fs, free0);
        var result, any := PurgeHandles(size);
        PurgeProgress(align, lo, hi, hs, us, ps, fs, free0, size, handles, used, fifo);
        stage' := AfterPurge(any);
      }
    }

    /** AllocHandle: a handle of `size` bytes with the flags asked for.
        Zero bytes give NULL. A live manager takes a record and searches the
        arena (ArenaAlloc); on failure the record goes back to the head of
        the pool. Failing that, or when the manager is not live, the
        operating system is asked: `osData` is the address it grants, NULL
        if it refuses. Its block makes a handle with MALLOC set, on no list.
        The running total grows by `size` when a handle is made. */
    method AllocHandle(size: nat, flags: set<Flag>, osData: nat) returns (h: nat)
      requires Valid() && held == {}
      modifies this`handles, this`used, this`purged, this`fifo, this`free, this`pool, this`nextRecord,
        this`handleCount, this`events, this`held, this`totalAllocated
      ensures Valid() && held == {}
      ensures size == 0 ==> h == NULL && unchanged(this`handles, this`used, this`free, this`events, this`totalAllocated)
      ensures h == NULL ==> totalAllocated == old(totalAllocated) && Survivors(old(handles), handles, old(fifo))
      ensures size > 0 && h == NULL ==> osData == NULL
      ensures h != NULL ==>
        h !in old(handles) && h in handles && handles[h].length == size &&
        totalAllocated == old(totalAllocated) + size && Survivors(old(handles), handles - {h}, old(fifo))
      ensures h != NULL && Malloc !in handles[h].flags ==>
        live && h in used && Resident(handles[h]) && handles[h].flags == flags - {Malloc} &&
        handles[h].content == Zeros(size)
      ensures h != NULL && Malloc in handles[h].flags ==>
        handles[h] == Handle(osData, size, flags + {Malloc}, Zeros(size)) &&
        h !in used && h !in purged && h !in fifo &&
        (live ==> FirstFit(Ranges(free), Pad(size, align)) == |free|)
      ensures size > 0 && live && FirstFit(Ranges(old(free)), Pad(size, align)) < |old(free)| ==>
        h != NULL && Malloc !in handles[h].flags && handles - {h} == old(handles) && events == old(events)
    {
      if size == 0 {
        return NULL;
      }
      var found := false;
      if live {
        h, found := AllocInArena(size, flags);
      }
      if !found {
        h := AllocSystem(size, flags, osData);
      }
    }

    /** AllocHandle in a live manager's arena: a record is taken from the
        pool and held while ArenaAlloc searches; on failure it goes back to
        the head of the pool. */
    method AllocInArena(size: nat, flags: set<Flag>) returns (h: nat, found: bool)
      requires Valid() && held == {} && 0 < size
      modifies this`handles, this`used, this`purged, this`fifo, this`free, this`pool, this`nextRecord,
        this`handleCount, this`events, this`held, this`totalAllocated
      ensures Valid() && held == {}
      ensures found ==>
        h != NULL && h !in old(handles) && h in handles && h in used && Resident(handles[h]) &&
        handles[h].length == size && handles[h].flags == flags - {Malloc} && handles[h].content == Zeros(size) &&
        totalAllocated == old(totalAllocated) + size && Survivors(old(handles), handles - {h}, old(fifo))
      ensures !found ==>
        totalAllocated == old(totalAllocated) && Survivors(old(handles), handles, old(fifo)) &&
        FirstFit(Ranges(free), Pad(size, align)) == |free|
      ensures FirstFit(Ranges(old(free)), Pad(size, align)) < |old(free)| ==>
        found && handles - {h} == old(handles) && events == old(events)
    {
      h := Take();
      found := ArenaAlloc(h, size, flags);
      if !found {
        Unhold(h);
      }
    }

    /** AllocHandle's last resort, AllocSystemMemory: `data` is the address
        the operating system grants, NULL if it refuses. */
    method AllocSystem(size: nat, flags: set<Flag>, data: nat) returns (h: nat)
      requires Valid() && held == {} && 0 < size
      modifies this`handles, this`nextRecord, this`totalAllocated
      ensures Valid()
      ensures data == NULL ==> h == NULL && handles == old(handles) && totalAllocated == old(totalAllocated)
      ensures data != NULL ==>
        h != NULL && h !in old(handles) && handles - {h} == old(handles) &&
        h in handles && handles[h] == Handle(data, size, flags + {Malloc}, Zeros(size)) &&
        h !in used && h !in purged && h !in fifo && totalAllocated == old(totalAllocated) + size
    {
      if data == NULL {
        return NULL;
      }
      totalAllocated := totalAllocated + size;
      h := Detach(size, flags, data);
      assert h !in used && h !in purged && h !in fifo by {
        Whereabouts(align, lo, hi, handles, used, purged, fifo, free, h);
      }
      assert handles - {h} == old(handles);
    }

    /** AllocHandle takes a record from the pool (AllocNewHandle) and holds
        it for the new handle. */
    method Take() returns (id: nat)
      requires Valid() && held == {}
      modifies this`pool, this`nextRecord, this`handleCount, this`held
      ensures Valid() && held == {id} && id != NULL && id !in handles
    {
      id := AllocNewHandle();
      Adopt(Owned(), pool, free, nextRecord, id);
      assert Owned() + {id} == handles.Keys + {id};
      held := {id};
    }

    /** A failed search gives the held record back to the head of the pool
        (its flags cleared: it is no handle). */
    method Unhold(id: nat)
      requires Valid() && held == {id}
      modifies this`held, this`pool
      ensures Valid() && held == {} && pool == [id] + old(pool)
    {
      assert Owned() == handles.Keys + {id};
      assert Spare(handles.Keys, pool, free, nextRecord, id);
      Recycle(handles.Keys, pool, free, nextRecord, id);
      assert handles.Keys + {} == handles.Keys;
      pool := [id] + pool;
      held := {};
    }

    /** The handle made from the operating system's block at `data`: a fresh
        record, MALLOC set, on no list. */
    method Detach(size: nat, flags: set<Flag>, data: nat) returns (h: nat)
      requires Valid() && held == {} && 0 < size
      modifies this`handles, this`nextRecord
      ensures Valid() && h == old(nextRecord) && h !in old(handles) && h != NULL
      ensures handles == old(handles)[h := Handle(data, size, flags + {Malloc}, Zeros(size))]
    {
      h := nextRecord;
      var d := Handle(data, size, flags + {Malloc}, Zeros(size));
      DetachKeeps(align, lo, hi, handles, used, purged, fifo, free, pool, nextRecord, d);
      handles := handles[h := d];
      nextRecord := nextRecord + 1;
    }

    /** The search of AllocHandle in the arena for the held record: scan,
        and while no free run has room, compact, purge, and scan again, until
        a purge frees nothing and the last scan fails too. Existing handles
        are only moved or purged; when the first scan succeeds, none is
        touched. */
    method ArenaAlloc(id: nat, size: nat, flags: set<Flag>) returns (found: bool)
      requires Valid() && held == {id} && 0 < size
      modifies this`handles, this`used, this`purged, this`fifo, this`free, this`pool, this`nextRecord,
        this`handleCount, this`events, this`held, this`totalAllocated
      ensures Valid()
      ensures found ==>
        held == {} && id in used && Resident(handles[id]) && handles[id].length == size &&
        handles[id].flags == flags - {Malloc} && handles[id].content == Zeros(size) &&
        totalAllocated == old(totalAllocated) + size && Survivors(old(handles), handles - {id}, old(fifo))
      ensures !found ==>
        held == {id} && totalAllocated == old(totalAllocated) && Survivors(old(handles), handles, old(fifo)) &&
        FirstFit(Ranges(free), Pad(size, align)) == |free|
      ensures FirstFit(Ranges(old(free)), Pad(size, align)) < |old(free)| ==>
        found && handles - {id} == old(handles) && events == old(events)
    {
      var stage := StageCompact;
      ghost var hs0, q0, rs0, e0 := handles, fifo, Ranges(free), events;
      ghost var first := true;
      while true
        invariant Valid() && held == {id} && totalAllocated == old(totalAllocated)
        invariant Searching(align, hs0, q0, rs0, e0, handles, fifo, Ranges(free), events, size, first)
        decreases |used|, Rank(stage)
      {
        var last := stage == StageHailMary;
        found, stage, first := ArenaStep(id, size, flags, stage, hs0, q0, rs0, e0, first);
        if found || last {
          return;
        }
      }
    }

    /** One pass of ArenaAlloc's loop: a scan, then, if it found no room, the
        retry stage `stage` (nothing after the last scan). */
    method ArenaStep(id: nat, size: nat, flags: set<Flag>, stage: Stage, ghost hs0: map<nat, Handle>,
                     ghost q0: seq<nat>, ghost rs0: seq<Range>, ghost e0: seq<Stage>, ghost first: bool)
      returns (found: bool, stage': Stage, ghost first': bool)
      requires Valid() && held == {id} && 0 < size
      requires Searching(align, hs0, q0, rs0, e0, handles, fifo, Ranges(free), events, size, first)
      modifies this`handles, this`used, this`purged, this`fifo, this`free, this`pool, this`nextRecord,
        this`handleCount, this`events, this`held, this`totalAllocated
      ensures Valid()
      ensures found ==>
        held == {} && id in used && Resident(handles[id]) && handles[id].length == size &&
        handles[id].flags == flags - {Malloc} && handles[id].content == Zeros(size) &&
        totalAllocated == old(totalAllocated) + size && Survivors(hs0, handles - {id}, q0) && (first ==> handles - {id} == hs0 && events == e0)
      ensures !found ==>
        held == {id} && totalAllocated == old(totalAllocated) &&
        Searching(align, hs0, q0, rs0, e0, handles, fifo, Ranges(free), events, size, first')
      ensures !found && stage == StageHailMary ==> FirstFit(Ranges(free), Pad(size, align)) == |free|
      ensures !found && stage != StageHailMary ==>
        |used| < old(|used|) || (|used| == old(|used|) && Rank(stage') < Rank(stage))
      ensures first && FirstFit(rs0, Pad(size, align)) < |rs0| ==> found
    {
      ghost var hs, us, rs, fs := handles, used, Ranges(free), fifo;
      found := TryPlace(id, size, flags);
      stage', first' := stage, first;
      if found {
        PlacedHandle(align, lo, hi, hs, us, rs, handles, used, free, id, size, flags);
        return;
      }
      if stage != StageHailMary {
        stage' := AllocStage(stage, Pad(size, align));
        SurvivorsChain(hs0, hs, handles, q0, fs);
        first' := false;
      }
    }

    // -------------------------------------------------------------------
    // Resizing, refreshing, looking up and flagging handles.

    /** ReallocHandle. NULL asks for a new handle with no flags; size 0 frees
        the handle; the same length returns it untouched; an arena handle that
        shrinks is cut down where it lies; any other change allocates a new
        handle with the old one's flags, copies the bytes that fit, and frees
        the old handle, whether or not the allocation worked. */
    method ReallocHandle(h: nat, size: nat, osData: nat) returns (r: nat)
      requires Valid() && held == {} && (h == NULL || h in handles)
      modifies this`handles, this`used, this`purged, this`fifo, this`free, this`pool, this`nextRecord,
        this`handleCount, this`events, this`held, this`totalAllocated
      ensures Valid() && held == {}
      ensures r != NULL && 0 < size ==> r in handles && handles[r].length == size
      ensures h == NULL && size == 0 ==> r == NULL && handles == old(handles)
      ensures h == NULL && size > 0 && r != NULL ==>
        r !in old(handles) && handles[r].flags - {Malloc} == {} && handles[r].content == Zeros(size)
      ensures h != NULL && size == 0 ==>
        r == NULL && totalAllocated == old(totalAllocated) - old(handles[h].length) &&
        (live || Malloc in old(handles[h].flags) ==> handles == old(handles) - {h})
      ensures h != NULL && size == old(handles[h].length) ==>
        r == h && handles == old(handles) && totalAllocated == old(totalAllocated)
      ensures h != NULL && 0 < size < old(handles[h].length) && Malloc !in old(handles[h].flags) ==>
        r == h && handles == old(handles)[h := Shrunk(old(handles[h]), size)] &&
        totalAllocated == old(totalAllocated) - (old(handles[h].length) - size)
      ensures h != NULL && 0 < size && size != old(handles[h].length) && Moves(old(handles[h]), size) ==>
        r != h && (live || Malloc in old(handles[h].flags) ==> h !in handles)
      ensures h != NULL && 0 < size && size != old(handles[h].length) && Moves(old(handles[h]), size) && r == NULL ==>
        totalAllocated == old(totalAllocated) - old(handles[h].length)
      ensures h != NULL && 0 < size && size != old(handles[h].length) && Moves(old(handles[h]), size) && r != NULL ==>
        r !in old(handles) && Regrown(old(handles[h]), size, handles[r], old(h in fifo)) &&
        totalAllocated == old(totalAllocated) + size - old(handles[h].length)
    {
      if h == NULL {
        if size > 0 {
          r := AllocHandle(size, {}, osData);
        } else {
          r := NULL;
        }
        return;
      }
      if size == 0 {
        FreeHandle(h);
        return NULL;
      }
      var length := handles[h].length;
      if size == length {
        return h;
      }
      if size < length && Malloc !in handles[h].flags {
        Shrink(h, size);
        return h;
      }
      r := Regrow(h, size, osData);
    }

    /** The shrinking branch of ReallocHandle: the length drops to `size`
        and the bytes past it are gone; when the handle has data and its
        padded length drops, the padded tail goes back to the free list. The
        running total drops with the length. */
    method Shrink(h: nat, size: nat)
      requires Valid() && h in handles && Malloc !in handles[h].flags && 0 < size < handles[h].length
      modifies this`handles, this`free, this`pool, this`nextRecord, this`handleCount, this`totalAllocated
      ensures Valid()
      ensures handles == old(handles)[h := Shrunk(old(handles[h]), size)]
      ensures totalAllocated == old(totalAllocated) - (old(handles[h].length) - size)
      ensures old(handles[h].data) == NULL ==> free == old(free)
      ensures old(handles[h].data) != NULL ==>
        SumLen(Ranges(free)) == old(SumLen(Ranges(free))) + Pad(old(handles[h].length), align) - Pad(size, align)
    {
      totalAllocated := totalAllocated - (handles[h].length - size);
      Cut(h, size);
    }

    /** The shrinking branch of ReallocHandle as written as to the running
        total, which it leaves alone; the tail goes back to the free list
        as in Shrink. */
    method ShrinkAsWritten(h: nat, size: nat)
      requires Valid() && h in handles && Malloc !in handles[h].flags && 0 < size < handles[h].length
      modifies this`handles, this`free, this`pool, this`nextRecord, this`handleCount
      ensures Valid()
      ensures handles == old(handles)[h := Shrunk(old(handles[h]), size)]
      ensures totalAllocated == old(totalAllocated)
    {
      Cut(h, size);
    }

    /** Shrink apart from the running total: the handle is cut down where
        it lies and a padded tail of resident data is released. */
    method Cut(h: nat, size: nat)
      requires Valid() && h in handles && Malloc !in handles[h].flags && 0 < size < handles[h].length
      modifies this`handles, this`free, this`pool, this`nextRecord, this`handleCount
      ensures Valid()
      ensures handles == old(handles)[h := Shrunk(old(handles[h]), size)]
      ensures old(handles[h].data) == NULL ==> free == old(free)
      ensures old(handles[h].data) != NULL ==>
        SumLen(Ranges(free)) == old(SumLen(Ranges(free))) + Pad(old(handles[h].length), align) - Pad(size, align)
    {
      var x := handles[h];
      PadMonotone(size, x.length, align);
      if x.data != NULL && Pad(size, align) < Pad(x.length, align) {
        ShrinkTail(h, size);
      } else {
        ShrinkStill(align, lo, hi, handles, used, purged, fifo, free, h, size);
        Retag(h, Shrunk(x, size));
      }
    }

    /** Shrink for a handle with data whose padded length drops: the tail
        past the new padded length is released. */
    method ShrinkTail(h: nat, size: nat)
      requires Valid() && h in handles && Malloc !in handles[h].flags && handles[h].data != NULL
      requires 0 < size < handles[h].length && Pad(size, align) < Pad(handles[h].length, align)
      modifies this`handles, this`free, this`pool, this`nextRecord, this`handleCount
      ensures Valid() && handles == old(handles)[h := Shrunk(old(handles[h]), size)]
      ensures SumLen(Ranges(free)) == old(SumLen(Ranges(free))) + Pad(old(handles[h].length), align) - Pad(size, align)
    {
      var x := handles[h];
      ghost var hs, us, ps, fs, free0 := handles, used, purged, fifo, free;
      ShrinkPlan(align, lo, hi, hs, us, ps, fs, free0, h, size);
      var start, len := x.data + Pad(size, align), Pad(x.length, align) - Pad(size, align);
      ReleaseMemoryRange(start, len);
      ShrinkStep(align, lo, hi, hs, us, ps, fs, free0, free, h, size, start, len);
      Retag(h, Shrunk(x, size));
    }

    /** The growing branch of ReallocHandle: a new handle with the old one's
        flags, the old bytes that fit copied into it, and the old handle
        freed even when no new one could be made. */
    method Regrow(h: nat, size: nat, osData: nat) returns (r: nat)
      requires Valid() && held == {} && h in handles && 0 < size
      modifies this`handles, this`used, this`purged, this`fifo, this`free, this`pool, this`nextRecord,
        this`handleCount, this`events, this`held, this`totalAllocated
      ensures Valid() && held == {} && r != h
      ensures live || Malloc in old(handles[h].flags) ==> h !in handles
      ensures r == NULL ==> totalAllocated == old(totalAllocated) - old(handles[h].length)
      ensures r != NULL ==>
        r !in old(handles) && r in handles && Regrown(old(handles[h]), size, handles[r], old(h in fifo)) &&
        totalAllocated == old(totalAllocated) + size - old(handles[h].length)
    {
      r := Renew(h, size, osData);
      FreeHandle(h);
    }

    /** Regrow up to the copy: the old handle is still there, with its length
        and whether it came from the operating system unchanged. */
    method Renew(h: nat, size: nat, osData: nat) returns (r: nat)
      requires Valid() && held == {} && h in handles && 0 < size
      modifies this`handles, this`used, this`purged, this`fifo, this`free, this`pool, this`nextRecord,
        this`handleCount, this`events, this`held, this`totalAllocated
      ensures Valid() && held == {} && r != h && h in handles
      ensures handles[h].length == old(handles[h].length) && (Malloc in handles[h].flags <==> Malloc in old(handles[h].flags))
      ensures r == NULL ==> totalAllocated == old(totalAllocated)
      ensures r != NULL ==>
        r !in old(handles) && r in handles && Regrown(old(handles[h]), size, handles[r], old(h in fifo)) &&
        totalAllocated == old(totalAllocated) + size
    {
      ghost var h0, queued := handles[h], h in fifo;
      r := Reserve(h, size, osData);
      SurvivesShape(h0, handles[h], queued);
      if r != NULL {
        ghost var h1 := handles[h];
        Fill(r, handles[h].content);
        RegrownFrom(h0, h1, size, handles[r], queued);
      }
    }

    /** AllocHandle for Regrow: a new zero-filled handle with the old one's
        flags, while the old handle survives, perhaps purged or moved. */
    method Reserve(h: nat, size: nat, osData: nat) returns (r: nat)
      requires Valid() && held == {} && h in handles && 0 < size
      modifies this`handles, this`used, this`purged, this`fifo, this`free, this`pool, this`nextRecord,
        this`handleCount, this`events, this`held, this`totalAllocated
      ensures Valid() && held == {} && r != h && h in handles && Survives(old(handles[h]), handles[h], old(h in fifo))
      ensures r == NULL ==> totalAllocated == old(totalAllocated)
      ensures r != NULL ==>
        r !in old(handles) && r in handles && handles[r].length == size &&
        handles[r].flags - {Malloc} == old(handles[h].flags) - {Malloc} &&
        handles[r].content == Zeros(size) && totalAllocated == old(totalAllocated) + size
    {
      var flags := handles[h].flags;
      r := AllocHandle(size, flags, osData);
    }

    /** ReallocHandle's copy into the block of a new handle. */
    method Fill(r: nat, c: seq<bv8>)
      requires Valid() && r in handles && handles[r].content == Zeros(handles[r].length)
      modifies this`handles
      ensures Valid()
      ensures handles == old(handles)[r := old(handles[r]).(content := Carry(c, old(handles[r].length)))]
    {
      var x := handles[r];
      var x' := x.(content := Carry(c, x.length));
      RetagKeeps(align, lo, hi, handles, used, purged, fifo, free, r, x');
      Retag(r, x');
    }

    /** RefreshHandle: a handle that still has data comes off the purge
        FIFO and is returned as it is; a purged handle is freed and a new
        one of the same length and flags is allocated in its place. */
    method RefreshHandle(h: nat, osData: nat) returns (r: nat)
      requires Valid() && held == {} && (h == NULL || h in handles)
      modifies this`handles, this`used, this`purged, this`fifo, this`free, this`pool, this`nextRecord,
        this`handleCount, this`events, this`held, this`totalAllocated
      ensures Valid() && held == {}
      ensures h == NULL ==> r == NULL && handles == old(handles) && fifo == old(fifo)
      ensures h != NULL && old(handles[h].data) != NULL ==>
        r == h && handles == old(handles) && h !in fifo && Unlink(fifo, h) == Unlink(old(fifo), h)
      ensures h != NULL && old(handles[h].data) == NULL && r == NULL ==>
        totalAllocated == old(totalAllocated) - old(handles[h].length) && (live ==> h !in handles)
      ensures h != NULL && old(handles[h].data) == NULL && r != NULL ==>
        r in handles && handles[r].length == old(handles[h].length) &&
        handles[r].flags - {Malloc} == old(handles[h].flags) - {Malloc} &&
        handles[r].content == Zeros(old(handles[h].length)) && totalAllocated == old(totalAllocated)
    {
      if h == NULL {
        return NULL;
      }
      if handles[h].data != NULL {
        Whereabouts(align, lo, hi, handles, used, purged, fifo, free, h);
        SetPurgeFlag(h, false);
        return h;
      }
      r := Reload(h, osData);
    }

    /** RefreshHandle for a purged handle: freed, then allocated afresh with
        the same length and flags. */
    method Reload(h: nat, osData: nat) returns (r: nat)
      requires Valid() && held == {} && h in handles && handles[h].data == NULL
      modifies this`handles, this`used, this`purged, this`fifo, this`free, this`pool, this`nextRecord,
        this`handleCount, this`events, this`held, this`totalAllocated
      ensures Valid() && held == {}
      ensures r == NULL ==> totalAllocated == old(totalAllocated) - old(handles[h].length) && (live ==> h !in handles)
      ensures r != NULL ==>
        r in handles && handles[r].length == old(handles[h].length) &&
        handles[r].flags - {Malloc} == old(handles[h].flags) - {Malloc} &&
        handles[r].content == Zeros(old(handles[h].length)) && totalAllocated == old(totalAllocated)
    {
      var size, flags := handles[h].length, handles[h].flags;
      FreeHandle(h);
      r := AllocHandle(size, flags, osData);
    }

    /** FindHandle: the handle whose bytes [data, data + length) hold `p`,
        by a walk up the address-ordered used list that stops at the first
        block starting above `p`; NULL when no used handle holds it. */
    method FindHandle(p: nat) returns (r: nat)
      requires Valid()
      ensures r != NULL ==> r in used && handles[r].data <= p < handles[r].data + handles[r].length
      ensures r == NULL ==>
        forall i :: 0 <= i < |used| ==> !(handles[used[i]].data <= p < handles[used[i]].data + handles[used[i]].length)
    {
      UsedOrder(align, lo, hi, handles, used, free);
      var i := 0;
      while i < |used|
        invariant i <= |used|
        invariant forall k :: 0 <= k < i ==> !(handles[used[k]].data <= p < handles[used[k]].data + handles[used[k]].length)
      {
        var x := handles[used[i]];
        if x.data > p {
          return NULL;
        }
        if x.data + x.length > p {
          assert used[i] in Owned();
          return used[i];
        }
        i := i + 1;
      }
      return NULL;
    }

    /** GetSize of a handle: its length, and 0 exactly for NULL. */
    function GetSize(h: nat): (n: nat)
      reads this
      requires Valid() && (h == NULL || h in handles)
      ensures n == 0 <==> h == NULL
      ensures h != NULL ==> n == handles[h].length
    {
      if h == NULL then 0
      else
        LengthPositive(align, lo, hi, handles, used, purged, fifo, free, h);
        handles[h].length
    }

    /** GetTotalFreeMemory: the bytes of every free run, then the padded
        lengths of the used handles that are on the purge FIFO and not
        locked. What it reports is at least the free bytes and never more
        than the arena. */
    method GetTotalFreeMemory() returns (n: nat)
      requires Valid()
      ensures n == SumLen(Ranges(free)) + Reclaimable(handles, used, fifo, |used|, align)
      ensures SumLen(Ranges(free)) <= n <= hi - lo
    {
      n := 0;
      var i := 0;
      while i < |free|
        invariant i <= |free| && n == SumLen(Ranges(free)[..i])
      {
        SumLenStep(Ranges(free), i);
        n := n + free[i].len;
        i := i + 1;
      }
      assert Ranges(free)[..|free|] == Ranges(free);
      var j := 0;
      while j < |used|
        invariant j <= |used| && n == SumLen(Ranges(free)) + Reclaimable(handles, used, fifo, j, align)
      {
        var x := handles[used[j]];
        if Locked !in x.flags && used[j] in fifo {
          n := n + Pad(x.length, align);
        }
        j := j + 1;
      }
      FreeMemoryBound(align, lo, hi, handles, used, fifo, free);
    }

    /** Lock: sets LOCKED, so CompactHandles leaves the handle where it is,
        and returns its data pointer; NULL gives NULL. */
    method Lock(h: nat) returns (p: nat)
      requires Valid() && (h == NULL || h in handles)
      modifies this`handles
      ensures Valid()
      ensures h == NULL ==> p == NULL && handles == old(handles)
      ensures h != NULL ==>
        p == old(handles[h].data) && handles == old(handles)[h := old(handles[h]).(flags := old(handles[h].flags) + {Locked})]
      ensures h != NULL ==> !Movable(handles[h])
    {
      if h == NULL {
        return NULL;
      }
      var x := handles[h];
      var x' := x.(flags := x.flags + {Locked});
      RetagKeeps(align, lo, hi, handles, used, purged, fifo, free, h, x');
      Retag(h, x');
      p := x.data;
    }

    /** Unlock: clears LOCKED; NULL does nothing. */
    method Unlock(h: nat)
      requires Valid() && (h == NULL || h in handles)
      modifies this`handles
      ensures Valid()
      ensures h == NULL ==> handles == old(handles)
      ensures h != NULL ==>
        handles == old(handles)[h := old(handles[h]).(flags := old(handles[h].flags) - {Locked})] &&
        Locked !in handles[h].flags
    {
      if h == NULL {
        return;
      }
      var x := handles[h];
      var x' := x.(flags := x.flags - {Locked});
      RetagKeeps(align, lo, hi, handles, used, purged, fifo, free, h, x');
      Retag(h, x');
    }

    /** SetPurgeFlag: an arena handle leaves the purge FIFO and, when
        `flag` is set, goes back at its head; the PURGABLE flag bit itself
        is not touched. NULL and a handle from the operating system are left
        alone. */
    method SetPurgeFlag(h: nat, flag: bool)
      requires Valid() && (h == NULL || h in handles)
      modifies this`fifo
      ensures Valid()
      ensures h == NULL || Malloc in handles[h].flags ==> fifo == old(fifo)
      ensures h != NULL && Malloc !in handles[h].flags ==> fifo == Queued(old(fifo), h, flag)
    {
      if h != NULL && Malloc !in handles[h].flags {
        ListedQueue(handles, used, purged, fifo, h);
        fifo := Queued(fifo, h, flag);
      }
    }

    /** SetLockedState, as intended: PURGABLE and LOCKED become the ones
        asked for, the other flags stay, and an arena handle is on the purge
        FIFO (at its head) exactly when it is now PURGABLE. */
    method SetLockedState(h: nat, state: set<Flag>)
      requires Valid() && h in handles && state <= LockBits
      modifies this`handles, this`fifo
      ensures Valid()
      ensures handles == old(handles)[h := old(handles[h]).(flags := LockedState(old(handles[h].flags), state))]
      ensures Malloc !in handles[h].flags ==>
        fifo == Queued(old(fifo), h, Purgable in state) && (h in fifo <==> Purgable in handles[h].flags)
      ensures Malloc in handles[h].flags ==> fifo == old(fifo)
    {
      var x := handles[h];
      var x' := x.(flags := LockedState(x.flags, state));
      RetagKeeps(align, lo, hi, handles, used, purged, fifo, free, h, x');
      Retag(h, x');
      SetPurgeFlag(h, Purgable in state);
    }

    /** AllocHandle, a shrink by ReallocHandle, then FreeHandle bring the
        running total back to where it was. */
    method ShrinkRoundTrip(size: nat, smaller: nat, osData: nat)
      requires Valid() && held == {} && 0 < smaller < size
      modifies this`handles, this`used, this`purged, this`fifo, this`free, this`pool, this`nextRecord,
        this`handleCount, this`events, this`held, this`totalAllocated
      ensures Valid() && held == {} && totalAllocated == old(totalAllocated)
    {
      var h := AllocHandle(size, {}, osData);
      if h != NULL {
        var r := ReallocHandle(h, smaller, osData);
        FreeHandle(r);
      }
    }

    /** The same sequence with the shrink as written: when the handle is
        made in the arena, the running total ends up higher than it started
        by the bytes the shrink gave up, with the handle gone. */
    method ShrinkTotalDrifts(size: nat, smaller: nat, osData: nat) returns (h: nat)
      requires Valid() && held == {} && 0 < smaller < size
      modifies this`handles, this`used, this`purged, this`fifo, this`free, this`pool, this`nextRecord,
        this`handleCount, this`events, this`held, this`totalAllocated
      ensures Valid() && held == {}
      ensures h != NULL ==> h !in handles && totalAllocated == old(totalAllocated) + (size - smaller)
      ensures h == NULL ==> totalAllocated == old(totalAllocated)
      ensures live && FirstFit(Ranges(old(free)), Pad(size, align)) < |old(free)| ==> h != NULL
    {
      h := AllocHandle(size, {}, osData);
      if h != NULL && Malloc !in handles[h].flags {
        ShrinkThenFree(h, smaller);
      } else if h != NULL {
        FreeHandle(h);
        h := NULL;
      }
    }

    /** ShrinkAsWritten of an arena handle to `size` bytes, then FreeHandle:
        the total loses only the new length. */
    method ShrinkThenFree(h: nat, size: nat)
      requires Valid() && live && h in handles && Malloc !in handles[h].flags && 0 < size < handles[h].length
      modifies this`handles, this`used, this`purged, this`fifo, this`free, this`pool, this`nextRecord,
        this`handleCount, this`totalAllocated
      ensures Valid() && h !in handles && totalAllocated == old(totalAllocated) - size
    {
      ShrinkAsWritten(h, size);
      FreeHandle(h);
    }

    // -------------------------------------------------------------------
    // The pointer interface (AllocProc, FreeProc, ReallocProc).

    /** GetSize of a pointer from AllocProc: the length of the handle behind
        it, which counts the ALIGNMENT bytes of the back pointer. */
    function GetPointerSize(p: nat): nat
      reads this
      requires p == NULL || (p in owners && owners[p] in handles)
    {
      if p == NULL then 0 else handles[owners[p]].length
    }

    /** AllocProc: a FIXED handle ALIGNMENT bytes longer than asked, whose
        first ALIGNMENT bytes the source fills with the back pointer (kept
        in `owners` here, so the contract says nothing of those bytes); the
        pointer returned is just past them. Size 0 gives NULL. */
    method AllocProc(size: nat, osData: nat) returns (p: nat)
      requires Valid() && held == {}
      modifies this`handles, this`used, this`purged, this`fifo, this`free, this`pool, this`nextRecord,
        this`handleCount, this`events, this`held, this`totalAllocated, this`owners
      ensures Valid() && held == {}
      ensures size == 0 ==> p == NULL && handles == old(handles) && free == old(free)
      ensures p == NULL ==> owners == old(owners) && totalAllocated == old(totalAllocated)
      ensures p != NULL ==>
        p in owners && owners == old(owners)[p := owners[p]] &&
        owners[p] in handles && owners[p] !in old(handles) && handles[owners[p]].data + align == p &&
        Fixed in handles[owners[p]].flags && GetPointerSize(p) == size + align &&
        |handles[owners[p]].content| == size + align && handles[owners[p]].content[align..] == Zeros(size) &&
        totalAllocated == old(totalAllocated) + size + align
    {
      if size == 0 {
        return NULL;
      }
      var h := AllocHandle(size + align, {Fixed}, osData);
      if h == NULL {
        return NULL;
      }
      p := handles[h].data + align;
      owners := owners[p := h];
      assert handles[h].content[align..] == Zeros(size);
    }

    /** FreeProc: frees the handle behind the pointer; NULL does nothing. */
    method FreeProc(p: nat)
      requires Valid() && (p == NULL || (p in owners && owners[p] in handles))
      modifies this`handles, this`used, this`purged, this`fifo, this`free, this`pool, this`nextRecord,
        this`handleCount, this`totalAllocated, this`owners
      ensures Valid()
      ensures p == NULL ==> handles == old(handles) && owners == old(owners) && totalAllocated == old(totalAllocated)
      ensures p != NULL ==>
        owners == old(owners) - {p} && totalAllocated == old(totalAllocated) - old(handles[owners[p]].length)
      ensures p != NULL && (live || Malloc in old(handles[owners[p]].flags)) ==> handles == old(handles) - {old(owners[p])}
    {
      if p != NULL {
        FreeHandle(owners[p]);
        owners := owners - {p};
      }
    }

    /** ReallocHandle for ReallocProc, on a handle and a size both given: a
        handle with data keeps its bytes that fit, unless it was on the
        purge FIFO and purged to make room. */
    method Recopy(h: nat, size: nat, osData: nat) returns (r: nat)
      requires Valid() && held == {} && h in handles && 0 < size
      modifies this`handles, this`used, this`purged, this`fifo, this`free, this`pool, this`nextRecord,
        this`handleCount, this`events, this`held, this`totalAllocated
      ensures Valid() && held == {}
      ensures r != NULL ==> r in handles && handles[r].length == size
      ensures r != NULL && old(handles[h].data) != NULL ==>
        handles[r].content == Carry(old(handles[h].content), size) ||
        (old(h in fifo) && handles[r].content == Zeros(size))
    {
      if handles[h].data != NULL {
        HeldBytes(align, lo, hi, handles, used, purged, fifo, free, h);
      }
      r := ReallocHandle(h, size, osData);
    }

    /** ReallocProc: NULL allocates (nothing for size 0), size 0 frees, and
        otherwise the handle behind the pointer goes through ReallocHandle
        with ALIGNMENT bytes more, and the back pointer is stored in front of
        the pointer returned (in `owners` here: the contract states the bytes
        after it). The old pointer is no longer valid. */
    method ReallocProc(p: nat, size: nat, osData: nat) returns (p': nat)
      requires Valid() && held == {} && (p == NULL || (p in owners && owners[p] in handles))
      modifies this`handles, this`used, this`purged, this`fifo, this`free, this`pool, this`nextRecord,
        this`handleCount, this`events, this`held, this`totalAllocated, this`owners
      ensures Valid() && held == {}
      ensures p == NULL && size == 0 ==> p' == NULL && handles == old(handles) && owners == old(owners)
      ensures p == NULL && size > 0 && p' != NULL ==> p' in owners && owners[p'] !in old(handles)
      ensures p != NULL && size == 0 ==> p' == NULL && owners == old(owners) - {p}
      ensures p != NULL && size > 0 && p' == NULL ==> owners == old(owners) - {p}
      ensures size > 0 && p' != NULL ==>
        p' in owners && owners[p'] in handles && handles[owners[p']].data + align == p' &&
        GetPointerSize(p') == size + align
      ensures p != NULL && size > 0 && p' != NULL && old(handles[owners[p]].data) != NULL ==>
        |handles[owners[p']].content| == size + align &&
        (handles[owners[p']].content[align..] == Carry(old(handles[owners[p]].content), size + align)[align..] ||
         (old(owners[p] in fifo) && handles[owners[p']].content[align..] == Zeros(size)))
    {
      if p == NULL {
        if size > 0 {
          p' := AllocProc(size, osData);
        } else {
          p' := NULL;
        }
        return;
      }
      if size == 0 {
        FreeProc(p);
        return NULL;
      }
      ghost var x, queued := handles[owners[p]], owners[p] in fifo;
      var h := Recopy(owners[p], size + align, osData);
      owners := owners - {p};
      if h == NULL {
        return NULL;
      }
      p' := handles[h].data + align;
      owners := owners[p' := h];
      if x.data != NULL {
        PastHeader(x.content, handles[h].content, size, align, queued);
      }
    }
  }
}
