// The edits the memory manager makes to one handle record or to the purge
// FIFO, as values: what ReallocHandle keeps of a shrunk or moved block,
// where SetPurgeFlag puts a handle, and which flags SetLockedState leaves.
// Two branches of the source are also stated as written, next to the
// intended edit the manager uses.
module HandleEdits {
  import opened Align
  import opened MemoryLedger
  import opened HandleRecords

  /** The first `n` bytes of `c`, or all of `c` when it is shorter. */
  function Trim(c: seq<bv8>, n: nat): (t: seq<bv8>)
    ensures |t| == (if n < |c| then n else |c|) && t <= c
  {
    if n < |c| then c[..n] else c
  }

  /** A handle cut down to `size` bytes where it lies: the bytes past the
      new end are gone, data and flags stay. */
  function Shrunk(h: Handle, size: nat): Handle
  {
    h.(length := size, content := Trim(h.content, size))
  }

  /** The bytes of a new `size`-byte block once ReallocHandle has copied the
      old bytes `c` into it: the first min(|c|, size) bytes are the old ones,
      the rest are the new block's own (zero) bytes. */
  function Carry(c: seq<bv8>, size: nat): (d: seq<bv8>)
    ensures |d| == size
    ensures forall i :: 0 <= i < size && i < |c| ==> d[i] == c[i]
    ensures forall i :: |c| <= i < size ==> d[i] == 0
    ensures c == [] ==> d == Zeros(size)
    ensures size <= |c| ==> d == Trim(c, size)
  {
    Trim(c, size) + Zeros(size - |Trim(c, size)|)
  }

  /** The purge FIFO after SetPurgeFlag(h, flag) on an arena handle: `h` is
      unlinked from wherever it was and, when purging is enabled, goes back
      at the head, where PurgeHandles reaches it last. The other entries
      keep their order, so only the last call for `h` matters. */
  function Queued(fifo: seq<nat>, h: nat, flag: bool): (q: seq<nat>)
    requires Distinct(fifo)
    ensures Distinct(q)
    ensures h in q <==> flag
    ensures flag ==> q[0] == h
    ensures Unlink(q, h) == Unlink(fifo, h)
    ensures forall x :: x != h ==> (x in q <==> x in fifo)
  {
    UnlinkSpec(fifo, h);
    var u := Unlink(fifo, h);
    UnlinkAbsent(u, h);
    if flag then
      DistinctCons(h, u);
      assert IndexOf([h] + u, h) == 0;
      assert RemoveAt([h] + u, 0) == u;
      [h] + u
    else
      u
  }

  /** Unlinking what is not there changes nothing. */
  lemma {:induction false} UnlinkAbsent(s: seq<nat>, x: nat)
    requires x !in s
    ensures Unlink(s, x) == s
  {
    assert IndexOf(s, x) == |s|;
  }

  /** The two flags SetLockedState sets. */
  const LockBits: set<Flag> := {Purgable, Locked}

  /** SetLockedState's new flags: PURGABLE and LOCKED as the caller asks,
      every other flag as it was. */
  function LockedState(flags: set<Flag>, state: set<Flag>): (f: set<Flag>)
    ensures f * LockBits == state * LockBits
    ensures f - LockBits == flags - LockBits
  {
    (flags - LockBits) + (state * LockBits)
  }

  /** SetLockedState as written: the caller's word is masked with the
      complement of PURGABLE|LOCKED, so the bits it asks for are the ones
      dropped, and anything else it carries is or-ed into the flags. */
  function LockedStateAsWritten(flags: set<Flag>, state: set<Flag>): set<Flag>
  {
    (flags - LockBits) + (state - LockBits)
  }

  /** Whether SetLockedState as written puts the handle back on the FIFO:
      it tests PURGABLE in the masked word. */
  function RequeuedAsWritten(state: set<Flag>): bool
  {
    Purgable in state - LockBits
  }

  /** As written, SetLockedState with a valid word (PURGABLE and LOCKED
      only) unlocks the handle, clears PURGABLE and takes it off the FIFO,
      whatever it asks for: locking a handle this way leaves it movable and
      unlocked. As intended, the flags are the ones asked for. */
  lemma {:induction false} SetLockedStateIgnoresRequest(flags: set<Flag>, state: set<Flag>)
    requires state <= LockBits
    ensures LockedStateAsWritten(flags, state) == flags - LockBits
    ensures !RequeuedAsWritten(state)
    ensures Locked in state ==> Locked !in LockedStateAsWritten(flags, state) && Locked in LockedState(flags, state)
    ensures Purgable in state ==> Purgable !in LockedStateAsWritten(flags, state) && Purgable in LockedState(flags, state)
  {
    assert state - LockBits == {};
  }

  /** The range the shrinking branch of ReallocHandle gives back to the
      free list, as written: the padded tail past Pad(size) bytes from the
      handle's data pointer, whenever the padded length drops, even when the
      handle is purged and that pointer is NULL. */
  function ShrinkReleaseAsWritten(h: Handle, size: nat, align: nat): seq<Range>
    requires align > 0
  {
    var n, m := Pad(size, align), Pad(h.length, align);
    if n < m then [Range(h.data + n, m - n)] else []
  }

  /** A purged 64-byte handle shrunk to 8 bytes with ALIGNMENT 8: as
      written, the bytes [8, 64) near address zero join the free list,
      although they lie below any arena that starts at or above address 64. */
  lemma {:induction false} PurgedShrinkAsWritten(lo: nat)
    requires 64 <= lo
    ensures var r := ShrinkReleaseAsWritten(Handle(NULL, 64, {}, []), 8, 8);
      r == [Range(8, 56)] && End(r[0]) <= lo
  {
    assert Pad(8, 8) == 8;
    assert Pad(64, 8) == 64 by {
      assert Pad(64, 8) == 8 + Pad(56, 8);
      assert Pad(56, 8) == 8 + Pad(48, 8);
      assert Pad(48, 8) == 8 + Pad(40, 8);
      assert Pad(40, 8) == 8 + Pad(32, 8);
      assert Pad(32, 8) == 8 + Pad(24, 8);
      assert Pad(24, 8) == 8 + Pad(16, 8);
      assert Pad(16, 8) == 8 + Pad(8, 8);
    }
  }
}
