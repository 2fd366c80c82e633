# Burgerlib handle memory manager, Microsoft ADPCM decoder and S3M importer in Dafny

This project models three parts of Burgerlib and proves properties of them.

**The handle memory manager** (`MemoryManagerHandle`) hands out relocatable
blocks of one arena through handles.
- Each handle record is a value in a map from record ids to `Handle`.
- The used list, the purged list, the purge FIFO and the free-record pool are
  sequences of record ids. The free-range list is a sequence of runs.
- Every method keeps one invariant, `Valid()`:
  - the used blocks and the free runs tile the arena exactly;
  - the free list is sorted, with no two runs touching;
  - the lists agree with each handle's flags and data pointer;
  - every record has exactly one role.

  Byte conservation (free bytes plus padded used bytes equal the arena size)
  follows from this invariant.
- Addresses are naturals and ALIGNMENT is a parameter.
- `Pad` is the round-up every length gets before it enters the ledgers.
- The operating system's allocator is consulted only by AllocHandle's last
  resort, the MALLOC fallback. The address it would grant is an input
  (`osData`), NULL when it refuses.

**The Microsoft ADPCM decoder** (`DecompressMicrosoftADPCM`) is modelled in
layers:
- the adaptive step `Decode` and the block headers, as functions over 32-bit
  arithmetic written out;
- `ADPCMDecodeBlock`, as a function of the bytes it reads;
- `Process`, as the resumable state machine. Each state is one step function,
  and a generic driver (`Run`/`Drive`) loops over the steps. The decoder
  object stores the machine's snapshot in its fields between calls.

**The ScreamTracker 3 importer** covers two routines:
- `ImportS3MEffect` is a pure translation from an S3M command and argument to
  a sequencer effect.
- `ImportS3M` is the imperative parser. It fills a `SongPackage` object in
  this order: the song description, the order table, the pans, the channel
  count, the instrument and sample tables, and the 64-row pattern grids.

  The importer's result is specified against pure reference functions over
  the input bytes:
  - `Recognised` and `Complete` are the header checks;
  - `Heading` gives the description;
  - `Instrument` and `Survey` decode the instruments;
  - `Rows` and `PatternGrid` decode the pattern streams;
  - `Clean` says that the import succeeds.

  Allocation success comes from an oracle `grant`, and the sample sign
  conversion is a parameter `toSigned`.

## Model

| member | source | states |
|---|---|---|
| Align.PadBounds | source/memory/brmemoryhandle.cpp:879 | a padded length is at least the length, less than the length plus ALIGNMENT, and a multiple of ALIGNMENT |
| Align.PadAligned | source/memory/brmemoryhandle.cpp:297 | padding an already aligned length leaves it as it is |
| Align.PadMonotone | source/memory/brmemoryhandle.cpp:379 | padding preserves the order of lengths |
| MemoryLedger.FirstFit | source/memory/brmemoryhandle.cpp:940-971 | the bottom-up scan stops at the first free run long enough, and every run before it is too short |
| MemoryLedger.LastFit | source/memory/brmemoryhandle.cpp:886-916 | the top-down scan stops at the last free run long enough, and every run after it is too short; it returns "none" only when no run fits |
| MemoryLedger.Spot | source/memory/brmemoryhandle.cpp:881-990 | a FIXED request takes the last bytes of the highest run that fits; a movable one takes the first bytes of the lowest run that fits; either way the block lies at an edge of that run |
| LedgerLemmas.GapsConserve | source/memory/brmemoryhandle.cpp:293-477 | free bytes plus used bytes equal the arena size whenever the free runs are the gaps between the used blocks |
| LedgerLemmas.GapsSeparated | source/memory/brmemoryhandle.cpp:376-477 | the gaps between address-ordered blocks form a sorted free list with no two runs touching |
| LedgerLemmas.GrabbedSum | source/memory/brmemoryhandle.cpp:293-360 | grabbing a range at an edge of a free run takes exactly that many bytes off the free total |
| LedgerLemmas.GrabbedSeparated | source/memory/brmemoryhandle.cpp:332-359 | after a grab, whether it removes the whole run, its front or its tail, the free list stays sorted with no runs touching |
| LedgerLemmas.ReleasedSum | source/memory/brmemoryhandle.cpp:376-477 | releasing a range adds exactly its length to the free total, whichever merge case applies |
| LedgerLemmas.ReleasedSeparated | source/memory/brmemoryhandle.cpp:402-456 | releasing a range disjoint from the free runs keeps the list sorted with no two runs touching, because abutting runs are merged |
| HandleRecords.UnlinkSpec | source/memory/brmemoryhandle.cpp:1063-1066 | unlinking a record from a list removes exactly that record and keeps every other one, and the list stays free of duplicates |
| HandleEdits.Carry | source/memory/brmemoryhandle.cpp:1150-1157 | the new block holds the first min(old, new) bytes of the old one, and exactly those when it is no longer; the rest keeps the new block's own bytes, taken as zeros |
| HandleEdits.Queued | source/memory/brmemoryhandle.cpp:1393-1410 | SetPurgeFlag unlinks the handle from the FIFO and, when asked, puts it back at the head; no other handle moves |
| HandleEdits.LockedState | source/memory/brmemoryhandle.cpp:1441-1444 | the corrected SetLockedState: PURGABLE and LOCKED become exactly the requested bits, and every other flag is kept |
| HandleEdits.SetLockedStateIgnoresRequest | source/memory/brmemoryhandle.cpp:1441-1444 | as written, a request for LOCKED or PURGABLE clears that very bit and never requeues the handle |
| HandleEdits.PurgedShrinkAsWritten | source/memory/brmemoryhandle.cpp:1133-1146 | as written, shrinking a purged handle releases a range counted from address NULL, outside the arena |
| MemoryManager.Purged | source/memory/brmemoryhandle.cpp:1485-1528 | purging a purgeable handle keeps its length, clears LOCKED and sets data to NULL; any other handle is left as it was |
| MemoryManager.Stop | source/memory/brmemoryhandle.cpp:1550-1567 | the FIFO walk goes from the tail and stops at the first handle whose padded length covers the rest of the request |
| MemoryManager.StopCovers | source/memory/brmemoryhandle.cpp:1556-1565 | the handles walked before the stop cover less than the request; the walk ends at the head of the FIFO or where the sum reaches the request |
| MemoryManager.WalkHandles | source/memory/brmemoryhandle.cpp:1546-1570 | the walk purges exactly the handles it visits and leaves every other handle as it was |
| MemoryManager.WalkSurvivors | source/memory/brmemoryhandle.cpp:1546-1570 | the walk evicts only handles on the FIFO it walks; every other handle keeps its data and bytes |
| MemoryManager.WalkPurged | source/memory/brmemoryhandle.cpp:1522-1527 | each evicted handle is pushed at the head of the purged list, in visiting order |
| MemoryManager.WalkShrinks | source/memory/brmemoryhandle.cpp:1512-1515 | a walk that evicts anything shortens the used list |
| MemoryManager.PurgeProgress | source/memory/brmemoryhandle.cpp:918-930 | a purge stage never lengthens the used list, and shortens it whenever it evicts a handle |
| MemoryManager.PurgeStallsAsWritten | source/memory/brmemoryhandle.cpp:1546-1570 | as written, a FIFO holding only an already purged handle makes PurgeHandles report success while freeing nothing, so AllocHandle compacts again forever |
| MemoryManager.UsedOrder | source/memory/brmemoryhandle.cpp:1211-1238 | the used list is in strictly increasing address order, and every used block is non-empty |
| MemoryManager.FreeMemoryBound | source/memory/brmemoryhandle.cpp:1289-1321 | free bytes plus reclaimable purgeable bytes never exceed the arena size |
| MemoryManager.ShrinkStill | source/memory/brmemoryhandle.cpp:1133-1146 | a shrink that keeps the padded length, or one of a purged handle, needs no change to the ledgers |
| MemoryManager.MemoryManagerHandle.constructor | source/memory/brmemoryhandle.cpp:584-759 | a new manager has at least 8 handle records and nothing allocated; the corrected arena is the swing cut down to whole alignment units, so it ends at or before the end of the system block, and one free run covers it |
| MemoryManager.FirstRunOverrunsAsWritten | source/memory/brmemoryhandle.cpp:715-758 | as written, for every swing that is not a multiple of the alignment, the first free run ends past the high sentinel at start + swing, by less than one alignment unit |
| MemoryManager.GrowReadsNullAsWritten | source/memory/brmemoryhandle.cpp:1148-1157 | as written, growing a handle that is purged before the call, or by the allocation for its new block, copies a non-empty range starting at address NULL; the corrected Regrown result holds no old bytes |
| MemoryManager.MemoryManagerHandle.AllocNewHandle | source/memory/brmemoryhandle.cpp:227-273 | takes the pool head; an empty pool is refilled with a batch whose first record is returned and whose others become the pool |
| MemoryManager.MemoryManagerHandle.ScanBack | source/memory/brmemoryhandle.cpp:380-397 | the backward scan finds the last free run starting at or below the released address |
| MemoryManager.MemoryManagerHandle.ReleaseMemoryRange | source/memory/brmemoryhandle.cpp:376-477 | the free list becomes the reference release of the padded range (merged with either neighbour, or inserted in address order) |
| MemoryManager.MemoryManagerHandle.JoinBoth | source/memory/brmemoryhandle.cpp:405-427 | a range touching both neighbours merges them into one run, and the absorbed record goes back to the pool |
| MemoryManager.MemoryManagerHandle.JoinPrev | source/memory/brmemoryhandle.cpp:405-410 | a range touching only its predecessor extends it |
| MemoryManager.MemoryManagerHandle.JoinNext | source/memory/brmemoryhandle.cpp:434-439 | a range touching only its successor moves that run's start down |
| MemoryManager.MemoryManagerHandle.LinkNewRun | source/memory/brmemoryhandle.cpp:440-476 | a range touching neither neighbour becomes a new run at its address-ordered place |
| MemoryManager.MemoryManagerHandle.GrabMemoryRange | source/memory/brmemoryhandle.cpp:293-360 | the free list becomes the reference grab: the run is removed whole, its start advanced, or its tail cut |
| MemoryManager.MemoryManagerHandle.Purge | source/memory/brmemoryhandle.cpp:1485-1529 | a purgeable handle is unlinked from the used list and the FIFO, put at the head of the purged list, and its padded bytes freed; the callback hears StagePurge; any other handle changes nothing |
| MemoryManager.MemoryManagerHandle.PurgeHandles | source/memory/brmemoryhandle.cpp:1546-1570 | the new state is the reference FIFO walk from the tail; the free bytes grow by what it evicts; it returns TRUE iff the FIFO was non-empty and reports separately whether anything was evicted |
| MemoryManager.MemoryManagerHandle.FreeHandle | source/memory/brmemoryhandle.cpp:1036-1086 | NULL is ignored; the total drops by the handle's length; an arena handle leaves every list, goes back to the pool and frees its padded bytes; a MALLOC handle is dropped |
| MemoryManager.MemoryManagerHandle.CompactHandles | source/memory/brmemoryhandle.cpp:1584-1630 | only unlocked, non-FIXED handles move, each down to the padded end of its predecessor; the used list is unchanged; the callback hears StageCompact once, only if something moved |
| MemoryManager.MemoryManagerHandle.CompactAt | source/memory/brmemoryhandle.cpp:1597-1625 | one visit moves the handle down to its predecessor's padded end exactly when it is movable and not already there |
| MemoryManager.MemoryManagerHandle.ScanFirst | source/memory/brmemoryhandle.cpp:942-971 | the loop returns the reference bottom-up first fit |
| MemoryManager.MemoryManagerHandle.ScanLast | source/memory/brmemoryhandle.cpp:887-916 | the loop returns the reference top-down last fit |
| MemoryManager.MemoryManagerHandle.Place | source/memory/brmemoryhandle.cpp:893-911 | the new handle is linked into the used list at its address-ordered place, and the free list is the reference grab of its block |
| MemoryManager.MemoryManagerHandle.TryPlace | source/memory/brmemoryhandle.cpp:886-972 | the placement succeeds iff some free run fits the padded size; on failure nothing changes; on success the total grows by the size |
| MemoryManager.MemoryManagerHandle.AllocStage | source/memory/brmemoryhandle.cpp:918-933 | the corrected retry ladder: compaction is followed by a purge, and the ladder returns to compaction only after a purge that evicted something, which shortens the used list; a stage evicts only handles on the FIFO it started with, and the FIFO only loses entries |
| MemoryManager.MemoryManagerHandle.AllocHandle | source/memory/brmemoryhandle.cpp:857-1024 | size 0 gives NULL; an arena handle is resident with the requested length and flags minus MALLOC, and the total grows by the size; otherwise a MALLOC handle from the system, or NULL; every other handle is left alone, moved if it may move, or purged only if it was on the purge FIFO; when a run fits at once, nothing else changes |
| MemoryManager.MemoryManagerHandle.AllocSystem | source/memory/brmemoryhandle.cpp:1003-1023 | the last resort records a MALLOC handle outside every list, or returns NULL when the system refuses |
| MemoryManager.MemoryManagerHandle.ReallocHandle | source/memory/brmemoryhandle.cpp:1104-1164 | NULL allocates; size 0 frees; the same size returns the same handle; a shrink of an arena handle keeps it and lowers its length; a growth allocates, copies min(old, new) bytes and frees the original even when the allocation failed; the old bytes are lost only when the handle was purged before the call or was on the purge FIFO |
| MemoryManager.MemoryManagerHandle.Shrink | source/memory/brmemoryhandle.cpp:1133-1146 | the corrected shrink lowers the length and the total, and releases the padded tail only when the handle has data |
| MemoryManager.MemoryManagerHandle.ShrinkAsWritten | source/memory/brmemoryhandle.cpp:1133-1146 | as written, the shrink cuts the handle down but leaves the allocated total alone |
| MemoryManager.MemoryManagerHandle.ShrinkTotalDrifts | source/memory/brmemoryhandle.cpp:857-1164 | as written, AllocHandle(size), a shrink to a smaller size and FreeHandle leave the total higher by size - smaller with the handle gone, for every pair of sizes; the allocation succeeds whenever a free run fits |
| MemoryManager.MemoryManagerHandle.Regrow | source/memory/brmemoryhandle.cpp:1148-1163 | the corrected growth path returns a new handle with the old flags holding the carried contents (none when the old handle was purged, before the call or, being on the purge FIFO, by the allocation), and the original is gone either way |
| MemoryManager.MemoryManagerHandle.RefreshHandle | source/memory/brmemoryhandle.cpp:1182-1196 | a live handle is kept and taken off the FIFO; a purged one is freed and reallocated with its old size and flags |
| MemoryManager.MemoryManagerHandle.FindHandle | source/memory/brmemoryhandle.cpp:1211-1238 | returns the used handle whose block holds the address, or NULL when no used block holds it |
| MemoryManager.MemoryManagerHandle.GetSize | source/memory/brmemoryhandle.cpp:1249-1255 | 0 for NULL, and the unpadded length otherwise |
| MemoryManager.MemoryManagerHandle.GetTotalFreeMemory | source/memory/brmemoryhandle.cpp:1289-1321 | the free bytes plus the padded lengths of unlocked purgeable used handles, bounded by the arena size |
| MemoryManager.MemoryManagerHandle.Lock | source/memory/brmemoryhandle.cpp:1335-1343 | sets LOCKED, so the handle no longer moves, and returns its data pointer |
| MemoryManager.MemoryManagerHandle.Unlock | source/memory/brmemoryhandle.cpp:1356-1362 | clears LOCKED and nothing else |
| MemoryManager.MemoryManagerHandle.SetPurgeFlag | source/memory/brmemoryhandle.cpp:1389-1413 | a non-MALLOC handle is unlinked from the FIFO and, when flagged, put at its head; MALLOC handles and NULL change nothing |
| MemoryManager.MemoryManagerHandle.SetLockedState | source/memory/brmemoryhandle.cpp:1441-1467 | the corrected flags are stored, and the handle is on the FIFO iff it is now PURGABLE |
| MemoryManager.MemoryManagerHandle.ShrinkRoundTrip | source/memory/brmemoryhandle.cpp:1104-1164 | allocating, shrinking and freeing one handle leaves the allocated total where it started |
| MemoryManager.MemoryManagerHandle.AllocProc | source/memory/brmemoryhandle.cpp:79-97 | size 0 gives NULL; otherwise a FIXED handle of size + ALIGNMENT whose data pointer plus ALIGNMENT is returned and recorded with its handle; the size bytes past the header are the new block's own, taken as zeros |
| MemoryManager.MemoryManagerHandle.FreeProc | source/memory/brmemoryhandle.cpp:114-121 | NULL is ignored; otherwise the handle behind the pointer is freed and its record dropped |
| MemoryManager.MemoryManagerHandle.Recopy | source/memory/brmemoryhandle.cpp:167 | ReallocHandle on a pointer's handle: a handle with data keeps its bytes that fit, or, only when it was on the purge FIFO, none |
| MemoryManager.MemoryManagerHandle.ReallocProc | source/memory/brmemoryhandle.cpp:140-179 | NULL allocates; size 0 frees and returns NULL; otherwise the returned pointer is backed by a handle of size + ALIGNMENT whose bytes past the header are the old block's bytes past its header that fit, unless the handle was on the purge FIFO and was purged to make room |
| AdpcmCodec.Wrap32 | source/audio/brmicrosoftadpcm.cpp:64-78 | the 32-bit wrap keeps every value already in range |
| AdpcmCodec.Clamp16 | source/audio/brmicrosoftadpcm.cpp:87-91 | values above 32767 and at or below -32768 clamp to the 16-bit bounds, and in-range values are kept |
| AdpcmCodec.Decode | source/audio/brmicrosoftadpcm.cpp:62-94 | the history shifts (new first = old second, new second = output), the coefficients are kept, and the new scale is at least 16 |
| AdpcmCodec.DecodeExact | source/audio/brmicrosoftadpcm.cpp:66-91 | for in-range state, the scale is max(16, (table[code & 15] * index) >> 8), and the output is the clamped delta plus the weighted prediction |
| AdpcmCodec.Selector | source/audio/brmicrosoftadpcm.cpp:114-118 | the coefficient selector is clamped to at most 6, so the lookup stays inside the 7-entry tables |
| AdpcmCodec.MonoHeaderRoundTrip | source/audio/brmicrosoftadpcm.cpp:107-124 | parsing an encoded mono header gives back the coefficients of its selector and its scale and samples |
| AdpcmCodec.StereoHeaderRoundTrip | source/audio/brmicrosoftadpcm.cpp:137-162 | parsing an encoded stereo header gives back both channels |
| AdpcmCodec.Le16RoundTrip | source/audio/brmicrosoftadpcm.cpp:220-222 | reading back a little-endian 16-bit value gives the value written |
| AdpcmCodec.ScanConcat | source/audio/brmicrosoftadpcm.cpp:232-241 | decoding nibble bytes in two pieces gives the same state and samples as decoding them at once |
| AdpcmCodec.StereoChannelsIndependent | source/audio/brmicrosoftadpcm.cpp:283-292 | in stereo, the left channel's state and samples do not depend on the right decoder |
| MicrosoftAdpcm.SamplesThisBlock | source/audio/brmicrosoftadpcm.cpp:184-205 | a block yields no sample count exactly when it is partial and shorter than 7 bytes per channel |
| MicrosoftAdpcm.MonoLoopWraps | source/audio/brmicrosoftadpcm.cpp:232-241 | as written, a 3-sample mono block runs the nibble loop 2^32 times |
| MicrosoftAdpcm.NibbleBytesFit | source/audio/brmicrosoftadpcm.cpp:232-241 | the corrected loop count never writes more samples than the block holds, and equals the count as written everywhere else |
| MicrosoftAdpcm.BlockResult | source/audio/brmicrosoftadpcm.cpp:181-298 | ADPCMDecodeBlock returns 0 iff the block is refused (too short, or a selector of 7 or more) or counts no samples; otherwise samples * 2 in mono and * 4 in stereo; a refused block writes nothing |
| MicrosoftAdpcm.BlockIgnoresItsOwnBytes | source/audio/brmicrosoftadpcm.cpp:186-190 | as written, the result does not depend on the bytes the call was given, because the header is read past them |
| MicrosoftAdpcm.DecodesWhatFollows | source/audio/brmicrosoftadpcm.cpp:186-298 | the decode as written equals the corrected decode applied to the bytes after the block |
| MicrosoftAdpcm.BlockSkipsItsHeaderAsWritten | source/audio/brmicrosoftadpcm.cpp:186-244 | a 7-byte mono block of two samples followed by a byte 7: as written it is refused and returns 0; corrected, it returns 4 |
| MicrosoftAdpcm.OwnBlockReadsOnlyItself | source/audio/brmicrosoftadpcm.cpp:181-298 | corrected, a block that holds all the decode reads decodes alike whatever follows it in memory |
| MicrosoftAdpcm.DecompressMicrosoftAdpcm.constructor | source/audio/brmicrosoftadpcm.cpp:322-328 | a new decoder starts in the init state with empty cache and zero totals |
| MicrosoftAdpcm.DecompressMicrosoftAdpcm.SetBlockSize | source/audio/brmicrosoftadpcm.cpp:818-825 | sets the block size and nothing else |
| MicrosoftAdpcm.DecompressMicrosoftAdpcm.SetSamplesPerBlock | source/audio/brmicrosoftadpcm.cpp:827-835 | sets the samples per block, which the switch of later Process calls follows, keeping the decoder valid |
| MicrosoftAdpcm.DecompressMicrosoftAdpcm.Reset | source/audio/brmicrosoftadpcm.cpp:338-347 | zeroes the totals and the cache counters, sets the init state, and returns OKAY |
| MicrosoftAdpcm.DecompressMicrosoftAdpcm.Process | source/audio/brmicrosoftadpcm.cpp:365-799 | the corrected Process: the new state and output are the reference run of the state machine; each call adds exactly its consumed input and output to the totals; as written, the status compares the room and the input left with the bytes written and consumed, so a call that fills its output exactly reports OUTPUTUNDERRUN |
| MicrosoftAdpcm.DecompressMicrosoftAdpcm.ProcessAsWritten | source/audio/brmicrosoftadpcm.cpp:381 | as written, the same run, but the stored state is left at its old value |
| MicrosoftAdpcm.DecompressMicrosoftAdpcm.DecodeBlock | source/audio/brmicrosoftadpcm.cpp:181-298 | the method's output, byte count and decoders are those of the reference block decode, which reads the header past the block as written, with the corrected mono loop count NibbleBytes (MonoLoopWraps states the wrap as written) |
| MicrosoftAdpcm.DecompressMicrosoftAdpcm.DecodeOwnBlock | source/audio/brmicrosoftadpcm.cpp:181-298 | the corrected method's output, byte count and decoders are those of the decode of the block's own bytes |
| MicrosoftAdpcm.DecodeBytes | source/audio/brmicrosoftadpcm.cpp:232-241 | the nibble loop produces the reference scan of its bytes |
| AdpcmMachine.Step | source/audio/brmicrosoftadpcm.cpp:383-771 | each state step consumes no more input and writes no more output than the call has, and keeps the machine well formed |
| AdpcmMachine.Run | source/audio/brmicrosoftadpcm.cpp:383-771 | a whole Process run stays within its input and output room, and ends in a state where it can resume |
| AdpcmMachine.Drive | source/audio/brmicrosoftadpcm.cpp:383-771 | the do-while loop computes the reference run |
| AdpcmMachineLemmas.FillTakesWhatFits | source/audio/brmicrosoftadpcm.cpp:697-728 | FILLINGCACHE copies min(needed, available) bytes after the cached ones, and moves on only when the cache is full |
| AdpcmMachineLemmas.FlushLosesNothing | source/audio/brmicrosoftadpcm.cpp:734-771 | CACHEFULL emits min(room, cached) bytes in order, keeps the rest pending, and moves on only when the cache is empty |
| AdpcmMachineLemmas.SplitHeader | source/audio/brmicrosoftadpcm.cpp:398-411 | a header split over two calls is reassembled when the state is kept, and is misread as a new header when the state restarts |
| S3MEffects.ImportS3MEffect | source/audio/brimports3m.cpp:139-274 | unknown commands give no effect and argument 0; the argument is kept for plain effects; extended effects carry one nibble of it; a volume slide has a zero nibble |
| S3MEffects.ImportExportRoundTrip | source/audio/brimports3m.cpp:147-274 | every effect the translation produces is produced again from its reference S3M encoding |
| S3MEffects.SpecialCodesDistinct | source/audio/brimports3m.cpp:236-268 | distinct handled 'S' subcommands give distinct extended effects |
| S3MFormat.Orders | source/audio/brimports3m.cpp:364-373 | the order table keeps each entry below the pattern count and replaces the others by 0 |
| S3MFormat.PansRepeat | source/audio/brimports3m.cpp:376-386 | the default pans repeat every four channels, in the pattern left, right, right, left |
| S3MFormat.ChannelCount | source/audio/brimports3m.cpp:390-400 | the channel count is the number of settings below 32, rounded up to even |
| S3MFormat.Described | source/audio/brimports3m.cpp:430-451 | flag 4 makes a 16-bit sample whose size and loop are doubled in 32 bits; without flag 1 there is no loop |
| S3MFormat.FlipIsSignFlip | source/audio/brimports3m.cpp:461-469 | the conversion xors 0x8000 into every 16-bit word |
| S3MFormat.FlipHighBytesTwice | source/audio/brimports3m.cpp:461-469 | the sign flip is its own inverse |
| S3MFormat.Instrument | source/audio/brimports3m.cpp:405-485 | a sampled instrument has 8 or 16 bits, and its data holds size bytes whenever it is converted |
| S3MFormat.ParapointerUnchecked | source/audio/brimports3m.cpp:418 | a header-valid input whose instrument parapointer points past the end |
| S3MFormat.SampleCountGrows | source/audio/brimports3m.cpp:419 | the sample count never decreases along the instruments |
| S3MFormat.Note | source/audio/brimports3m.cpp:537-542 | a note is octave * 12 + semitone, or 0xFF when that reaches NOTE_MAX |
| S3MFormat.Volume | source/audio/brimports3m.cpp:550-557 | a volume is clamped to 64 and stored plus 0x10 |
| S3MFormat.Entered | source/audio/brimports3m.cpp:533-573 | a missing volume is stored as 255; note, instrument and effect change only when their flag is set |
| S3MFormat.RowsEndInside | source/audio/brimports3m.cpp:507-575 | a pattern stream that parses ends inside the input, on the 0 byte that closes its last row |
| S3MFormat.RowsKeepEndedRows | source/audio/brimports3m.cpp:517-528 | commands only reach the current row and later ones |
| S3MFormat.PatternGrid | source/audio/brimports3m.cpp:496-576 | each parsed pattern has 64 rows of channel-count cells |
| S3MImport.SampleSlot | source/audio/brimports3m.cpp:424 | instrument i's sample goes at i * cSampleMaxCount, inside the table and owned by i alone |
| S3MImport.CleanParts | source/audio/brimports3m.cpp:405-577 | an import succeeds iff no instrument overruns, every sample allocation is granted, every pattern allocation is granted and every pattern stream fits |
| S3MImport.CountChannels | source/audio/brimports3m.cpp:390-400 | the loop returns the reference channel count |
| S3MImport.FlipSigns | source/audio/brimports3m.cpp:461-469 | the buffer is flipped in place to the reference sign conversion |
| S3MImport.ParsePattern | source/audio/brimports3m.cpp:503-576 | the loop builds the reference grid of the pattern stream |
| S3MImport.Enter | source/audio/brimports3m.cpp:523-573 | one channel command advances the stream without changing the grid it leads to |
| S3MImport.SurveyAgrees | source/audio/brimports3m.cpp:415-419 | an instrument the decoding finds sampled is one the source allocates for, and one it allocates for is never a plain instrument |
| S3MImport.Attempt | source/audio/brimports3m.cpp:415-484 | one instrument: IMPORT_OUTOFMEMORY iff it is a PCM record and the description or the copy is refused; accepted iff it does not overrun and any sample allocations are granted; an accepted sampled instrument takes two requests |
| S3MImport.InstrumentRun | source/audio/brimports3m.cpp:404-489 | the instrument loop's outcome is always OKAY, OUTOFMEMORY or a read past the end |
| S3MImport.RunClean | source/audio/brimports3m.cpp:404-489 | the instrument loop succeeds iff every instrument fits and every sample allocation is granted, and then it has made two requests per sample |
| S3MImport.RunReaches | source/audio/brimports3m.cpp:404-489 | once the first j instruments fit with their allocations granted, the loop's outcome is the outcome from instrument j on |
| S3MImport.RunFails | source/audio/brimports3m.cpp:404-489 | a loop that fails, fails at the first instrument whose Attempt fails, every one before it having fit and been granted |
| S3MImport.PatternRun | source/audio/brimports3m.cpp:493-578 | the pattern loop keeps the outcome it started with, or ends with OUTOFMEMORY or a read past the end |
| S3MImport.PatternRunClean | source/audio/brimports3m.cpp:493-578 | the pattern loop succeeds iff it started okay, every pattern allocation is granted and every stream fits |
| S3MImport.PatternRunReadsPast | source/audio/brimports3m.cpp:493-578 | the pattern loop reads past the end iff it started so and the rest succeeds, or a pattern allocation is granted and its stream overruns, every one before it having been granted and fitted |
| S3MImport.InstrumentStage | source/audio/brimports3m.cpp:404-489 | the instruments' outcome and allocation count, one of the three outcomes |
| S3MImport.Outcome | source/audio/brimports3m.cpp:404-584 | the import's outcome: a read past the end in the instruments skips the patterns; otherwise the patterns go on from the instruments' outcome and allocation count, so a refused instrument allocation is followed by the first pattern request |
| S3MImport.OutcomeClean | source/audio/brimports3m.cpp:404-584 | the reference outcome is OKAY iff the input is clean |
| S3MImport.OutcomeReadsPast | source/audio/brimports3m.cpp:404-584 | the reference outcome is a read past the end iff an instrument reached overruns, or the instruments did not and a pattern reached overruns |
| S3MImport.SongPackage.StockedAtStart | source/audio/brimports3m.cpp:404-409 | an empty instrument table and sample table hold the first zero instruments |
| S3MImport.SongPackage.Advance | source/audio/brimports3m.cpp:410-487 | one pass of the instrument loop ends as Attempt says; on success the first i + 1 instruments are in place |
| S3MImport.SongPackage.StockInstruments | source/audio/brimports3m.cpp:404-489 | the loop stops at the first instrument whose Attempt fails, with that outcome and count, or succeeds with every instrument in place |
| S3MImport.SongPackage.Load | source/audio/brimports3m.cpp:404-584 | the instruments, then the patterns, end with the reference Outcome; the package is emptied after OUTOFMEMORY |
| S3MImport.ReadPattern | source/audio/brimports3m.cpp:496-576 | one pattern's grid is its reference grid, or none when its stream overruns |
| S3MImport.SongPackage.Shutdown | source/audio/brimports3m.cpp:346 | clears the description, the tables and the partitions, as SongPackage::Shutdown is taken to do (its body is not part of this model) |
| S3MImport.SongPackage.SetBaseSampleIDs | source/audio/brimports3m.cpp:358-361 | instrument j's base sample id becomes j * cSampleMaxCount |
| S3MImport.SongPackage.SetPatternPointers | source/audio/brimports3m.cpp:364-373 | the first pointers become the reference order table, and the rest are kept |
| S3MImport.SongPackage.SetPans | source/audio/brimports3m.cpp:376-386 | every channel gets the default pan and full volume |
| S3MImport.SongPackage.ImportInstrument | source/audio/brimports3m.cpp:409-486 | one instrument ends with the outcome and allocation count Attempt gives for its reference decoding; when accepted it fills its entry and its one sample slot and nothing else |
| S3MImport.SongPackage.LoadSample | source/audio/brimports3m.cpp:423-482 | OutOfMemory iff the description or the copy is refused, after one request when the first is refused and two otherwise; a loaded sample is stored converted |
| S3MImport.SongPackage.Describe | source/audio/brimports3m.cpp:346-400 | the description becomes the reference heading, with the pointers, pans and volumes set |
| S3MImport.SongPackage.ImportInstruments | source/audio/brimports3m.cpp:404-489 | the loop ends with the outcome and allocation count of InstrumentStage; on success it holds every instrument and sample and counts the samples |
| S3MImport.SongPackage.ImportPatterns | source/audio/brimports3m.cpp:493-578 | the loop ends with the outcome of PatternRun from the instruments' outcome; on success it holds every parsed pattern |
| S3MImport.SongPackage.Convert | source/audio/brimports3m.cpp:333-588 | returns the reference Outcome: IMPORT_OKAY iff the input is clean, and then holds the whole import; ReadPastEnd iff ReadsPast; IMPORT_OUTOFMEMORY otherwise, and then leaves the package empty |
| S3MImport.SongPackage.ImportS3M | source/audio/brimports3m.cpp:290-591 | IMPORT_UNKNOWN iff the input is short or unsigned; IMPORT_TRUNCATION iff a table runs past the end; both leave the package untouched; otherwise the reference Outcome, IMPORT_OKAY iff the rest is clean, and then holds the reference import |

## Left out

- The constructor's binary-search probe of the system allocator is left out. The arena's start and size are constructor parameters.
- The destructor and ShutdownProc are left out. They only hand the arena back to the system allocator. The field `live` stands for m_pSystemMemoryBlocks being non-NULL, which only ShutdownProc undoes, so it stays true; the branches on it follow the source's tests (brmemoryhandle.cpp:864, :1049) but are not reached.
- AllocSystemMemory and FreeSystemMemory are foreign calls. For a MALLOC handle the pointer the allocator would return is a parameter, and freeing a MALLOC handle only drops its record.
- MemoryManager.MemoryManagerHandle.AllocNewHandle: the pool refill always succeeds. In the source a failed AllocSystemMemory there calls Debug::Fatal and returns NULL (brmemoryhandle.cpp:234-265); the model treats that non-recoverable error as not happening.
- MemoryManager.MemoryManagerHandle.AllocHandle: never returns NULL for want of a handle record, as the source does after that failure (brmemoryhandle.cpp:866-869). Its new arena block is stated as zeros, while the source leaves the bytes as they were.
- HandleEdits.Carry: the bytes of the new block past the copied ones are unspecified in the source, which never clears memory; they are taken as zeros here.
- MemoryManager.MemoryManagerHandle.AllocProc / ReallocProc: the back pointer the source writes into the block's first ALIGNMENT bytes (brmemoryhandle.cpp:90, :172) and FreeProc reads back (:118) is kept in `owners`, not in the block; the contracts state only the bytes after it. The bytes of a new block are taken as zeros, as for AllocHandle.
- MemoryManager.MemoryManagerHandle.Regrow: when the old handle was purged, before the call or by the allocation for the new block, the source copies from its NULL data pointer (brmemoryhandle.cpp:1157); the model copies nothing there and the new block keeps its own bytes, taken as zeros. GrowReadsNullAsWritten states the source's copy.
- MemoryManager.MemoryManagerHandle.ReallocHandle: its growth path is Regrow, with the same gap.
- MemoryManager.MemoryManagerHandle.ReallocProc: says nothing of the bytes when the block behind the pointer was already purged, which only SetPurgeFlag on its handle brings about.
- MemoryManager.MemoryManagerHandle.constructor: the arena is the swing cut down to whole alignment units, not the padded run the source releases (brmemoryhandle.cpp:758), which can reach past the end of the system block; FirstRunOverrunsAsWritten states the source's run.
- Debug::Fatal becomes a precondition: GrabMemoryRange requires that the range lies at an edge of a free run.
- PrintHandles, DumpHandles, SetID and GetLockedState are left out. The first two only print, and the others are outside the core.
- The purge callback is recorded as a list of events, and whether it is installed is fixed at construction. SetPurgeProc is not modelled.
- The free runs do not store the back pointer to their preceding used handle. The used-list position is recomputed from addresses.
- MemoryMove and MemoryCopy are sequence copies of each handle's contents.
- The ADPCM decoder's output buffer is a sequence of bytes returned by Process, not memory written through a pointer.
- MicrosoftAdpcm.DecompressMicrosoftAdpcm.DecodeBlock: models ADPCMDecodeBlock as written, reading the header past the block, but with the corrected mono loop count NibbleBytes; MonoLoopWraps states the wrap as written; DecodeOwnBlock is the corrected decode, which nothing else in the model calls.
- AdpcmCodec.Decode works on unbounded integers with the 32-bit wrap written out. Its exact value is stated, in DecodeExact, only for state in the range the header can load.
- Process takes the whole input chunk as a sequence. The input and output pointers of the source are not modelled.
- Process's stereo header step writes decoder 0's samples to both channels, as written (`StereoHeaderOut`). No property is claimed about the right channel's header samples.
- The S3M importer's library code is not shown:
  - SetName is modelled as keeping the 28 raw name bytes.
  - Sequencer::*::New and AllocCopy are modelled as the allocation oracle `grant`.
  - SwapCharsToBytes is modelled as the parameter `toSigned`.
  - PatternData_t::New is modelled as a grid of the `blank` cell.
  - The sequencer constants (cInstrumentMaxCount, cSampleMaxCount, NOTE_MAX, cMaxPan, cMaxVolume) are fields of `Limits`.
- S3MImport.SongPackage.Shutdown: SongPackage::Shutdown's body is not part of this model. It is modelled as clearing the description, every table and the partitions, and the Empty() package that Convert and ImportS3M promise after OutOfMemory rests on that reading.
- ConvertEndian is left out: the model assumes a little-endian host.
- The sample description's m_eLoopType and m_iRelativeNote are constants in the source and are not stored.
- The importer never checks its parapointers. A read past the end becomes the outcome ReadPastEnd, after which the package is left unspecified; S3MFormat.ParapointerUnchecked exhibits such an input.
- The partitions table is a sequence of grids that ImportPatterns appends to.
- ParsePattern parses a pattern and then appends it, whereas the source appends and then parses. The result is the same, because a failed parse aborts the import.
- Description bundles the scalar fields of m_SongDescription into one value.
- After an out-of-memory break in the instrument loop, the pattern loop still runs, as written.
- S3MImport.SongPackage.ImportS3M: says nothing about the package after the ReadPastEnd outcome, because the source's read past the end of the input is undefined behaviour.

## Findings

| source | as written | input that shows it | evidently intended | confidence | as-written member | corrected member |
|---|---|---|---|---|---|---|
| source/memory/brmemoryhandle.cpp:1443 | the request is masked with ~(PURGABLE\|LOCKED) before use, so the requested bits are the ones dropped | SetLockedState(h, LOCKED) on any handle: the handle ends up unlocked | PURGABLE and LOCKED become the requested bits | not executed | HandleEdits.SetLockedStateIgnoresRequest | HandleEdits.LockedState |
| source/memory/brmemoryhandle.cpp:1133-1146 | the shrink path never lowers m_uTotalAllocatedMemory | allocate 64 bytes, shrink to 8, free: the total ends at 56 with nothing allocated | the total drops by the bytes given up | not executed | MemoryManager.MemoryManagerHandle.ShrinkTotalDrifts | MemoryManager.MemoryManagerHandle.Shrink |
| source/memory/brmemoryhandle.cpp:1139-1143 | a purged handle's shrink releases a range counted from its NULL data pointer | a purged 64-byte handle shrunk to 8 with ALIGNMENT 8 frees [8, 64) | a purged handle frees nothing | not executed | HandleEdits.PurgedShrinkAsWritten | MemoryManager.MemoryManagerHandle.Shrink |
| source/memory/brmemoryhandle.cpp:1561 | PurgeHandles returns TRUE whenever the FIFO is non-empty, even when it evicted nothing | a purged handle given SetPurgeFlag(TRUE), then an allocation no run fits: AllocHandle alternates compaction and purging forever | retry only after a purge that freed something | not executed | MemoryManager.PurgeStallsAsWritten | MemoryManager.MemoryManagerHandle.AllocStage |
| source/audio/brmicrosoftadpcm.cpp:381 | Process reads m_eState but never stores the state back, so every call restarts at the stored state | a 7-byte mono header split over two calls: the second call reads it as a new header | the state is kept between calls | not executed | MicrosoftAdpcm.DecompressMicrosoftAdpcm.ProcessAsWritten | MicrosoftAdpcm.DecompressMicrosoftAdpcm.Process |
| source/audio/brmicrosoftadpcm.cpp:233-240 | the mono nibble loop counts (n - 2) >> 1 down with a do-while, so a count of 0 wraps | a mono block of 3 samples: the loop runs 2^32 times | no nibble byte is decoded when the count is 0 | not executed | MicrosoftAdpcm.MonoLoopWraps | MicrosoftAdpcm.NibbleBytesFit |
| source/memory/brmemoryhandle.cpp:1148-1157 | the growing branch copies min(old, new) bytes from the old handle's data pointer, which is NULL when the handle was purged before the call or by the AllocHandle that made room | a purged 64-byte handle grown to 128 bytes: 64 bytes are read from address 0 | a purged handle has nothing to copy | not executed | MemoryManager.GrowReadsNullAsWritten | MemoryManager.MemoryManagerHandle.Regrow |
| source/memory/brmemoryhandle.cpp:715-758 | the high sentinel starts at uSuperChunkStart + uSwing, but the first free run is released as Pad(uSwing) bytes | a swing of 100 bytes with ALIGNMENT 8: the run ends 4 bytes past the system block, and a FIXED allocation of 8 bytes is placed over them | the free memory ends at or before the end of the system block | not executed | MemoryManager.FirstRunOverrunsAsWritten | MemoryManager.MemoryManagerHandle.constructor |
| source/audio/brmicrosoftadpcm.cpp:186-190 | the input pointer is advanced past the min(blockSize, length) bytes given before the header is read, so the header comes from the memory after the block | a 7-byte mono block of two samples followed by a byte 7: the block is refused and 0 is returned | the header is read at the start of the block | not executed | MicrosoftAdpcm.BlockSkipsItsHeaderAsWritten | MicrosoftAdpcm.OwnBlockReadsOnlyItself |
