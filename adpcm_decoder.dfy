// DecompressMicrosoftADPCM: the decoder object. ADPCMDecodeBlock decodes one
// whole block held in memory; Process feeds the resumable state machine of
// AdpcmMachine with whatever input and output room a call brings, and keeps
// the running totals.
module MicrosoftAdpcm {
  import opened AdpcmCodec
  import opened AdpcmMachine

  datatype Option<T> = None | Some(value: T)

  /** The outcome codes Process and Reset return. */
  datatype Status = Okay | OutputUnderrun | OutputOverrun

  /** What ADPCMDecodeBlock leaves behind: the byte count it returns, the
      samples it writes and the two channel decoders. */
  datatype Block = Block(bytes: nat, samples: seq<Sample16>, left: Channel, right: Channel)

  /** The samples ADPCMDecodeBlock takes the block to hold: a whole block
      holds samplesPerBlock; a partial one, when it has room for a header,
      is taken to hold blockSize - 6 samples per channel; a partial block
      too short for its header decodes nothing. */
  function SamplesThisBlock(blockSize: nat, samplesPerBlock: nat, stereo: bool, length: nat): (n: Option<nat>)
    ensures n.None? <==> length < blockSize && length < (if stereo then 14 else 7)
  {
    var t := Min(blockSize, length);
    var channels := if stereo then 2 else 1;
    if t < blockSize then
      if t < 7 * channels then None else Some(blockSize - 6 * channels)
    else Some(samplesPerBlock)
  }

  /** The nibble bytes a mono block of `n` samples decodes after its header:
      each gives two samples, and the header gave the first two. */
  function NibbleBytes(n: nat): nat
  {
    if n > 2 then (n - 2) / 2 else 0
  }

  /** The nibble bytes a stereo block of `n` samples per channel decodes
      after its header: each gives one sample to each channel. */
  function StereoNibbleBytes(n: nat): nat
  {
    if n > 2 then n - 2 else 0
  }

  /** The bytes a block header starts at, `h`, must be there for as far as
      ADPCMDecodeBlock reads them: the selector bytes, and the rest of the
      header and the nibble bytes when the selectors are valid. */
  predicate HeaderReadable(h: seq<byte>, stereo: bool, n: nat)
  {
    if !stereo then |h| >= 1 && (h[0] < 7 ==> |h| >= 7 + NibbleBytes(n))
    else |h| >= 2 && (h[0] < 7 && h[1] < 7 ==> |h| >= 14 + StereoNibbleBytes(n))
  }

  /** The memory ADPCMDecodeBlock reads: it first steps past the
      min(blockSize, length) bytes it was given, then reads the header
      there. */
  predicate BlockReadable(mem: seq<byte>, length: nat, blockSize: nat, samplesPerBlock: nat, stereo: bool)
  {
    var t := Min(blockSize, length);
    match SamplesThisBlock(blockSize, samplesPerBlock, stereo, length)
    case None => true
    case Some(n) => t <= |mem| && HeaderReadable(mem[t..], stereo, n)
  }

  /** A mono block whose header starts at `h`: a selector byte of 7 or more
      decodes nothing; otherwise the header sets the decoder and gives the
      first two samples, and the nibble bytes give two samples each. */
  function MonoBlock(h: seq<byte>, n: nat, left: Channel, right: Channel): (r: Block)
    requires HeaderReadable(h, false, n)
  {
    if h[0] >= 7 then Block(0, [], left, right)
    else
      var c := MonoHeader(h);
      var d := Scan(MonoByte, c, h[7 .. 7 + NibbleBytes(n)]);
      Block(n * 2, [c.first, c.second] + d.1, d.0, right)
  }

  /** A stereo block whose header starts at `h`: an invalid left selector
      decodes nothing; a valid left selector with an invalid right one
      still sets the left decoder's coefficients and then decodes nothing;
      otherwise both decoders are set from the header, whose samples come
      left then right, and each nibble byte gives a left and a right
      sample. */
  function StereoBlock(h: seq<byte>, n: nat, left: Channel, right: Channel): (r: Block)
    requires HeaderReadable(h, true, n)
  {
    if h[0] >= 7 then Block(0, [], left, right)
    else if h[1] >= 7 then Block(0, [], left.(coef1 := Coef1[h[0]], coef2 := Coef2[h[0]]), right)
    else
      var lr := StereoHeader(h);
      var d := Scan(StereoByte, lr, h[14 .. 14 + StereoNibbleBytes(n)]);
      Block(n * 4, [lr.0.first, lr.1.first, lr.0.second, lr.1.second] + d.1, d.0.0, d.0.1)
  }

  /** ADPCMDecodeBlock on `length` bytes at the start of `mem`, as written:
      the header is read past the min(blockSize, length) bytes the call was
      given. */
  function DecodedBlock(mem: seq<byte>, length: nat, blockSize: nat, samplesPerBlock: nat, stereo: bool,
                        left: Channel, right: Channel): (r: Block)
    requires BlockReadable(mem, length, blockSize, samplesPerBlock, stereo)
  {
    var t := Min(blockSize, length);
    match SamplesThisBlock(blockSize, samplesPerBlock, stereo, length)
    case None => Block(0, [], left, right)
    case Some(n) => if stereo then StereoBlock(mem[t..], n, left, right) else MonoBlock(mem[t..], n, left, right)
  }

  /** Whether ADPCMDecodeBlock turns the block down: a partial block too
      short for a header, or a selector byte of 7 or more. */
  predicate Refused(mem: seq<byte>, length: nat, blockSize: nat, samplesPerBlock: nat, stereo: bool)
    requires BlockReadable(mem, length, blockSize, samplesPerBlock, stereo)
  {
    var t := Min(blockSize, length);
    SamplesThisBlock(blockSize, samplesPerBlock, stereo, length).None? ||
    mem[t] >= 7 || (stereo && mem[t + 1] >= 7)
  }

  /** The do-while loop of the mono branch, as written: it runs
      (n - 2) >> 1 times, counted in 32 bits and decremented and tested
      after each pass, so a count of zero wraps around and runs 2^32 times
      (stated for n below 2^32). */
  function MonoLoopCountAsWritten(n: nat): nat
    requires n < 0x1_0000_0000
  {
    if n > 2 then
      var count := (n - 2) / 2;
      if count == 0 then 0x1_0000_0000 else count
    else 0
  }

  /** A mono block of three samples: as written the loop reads 2^32 nibble
      bytes and writes twice as many samples; the block holds no whole
      nibble byte past its header, and none is decoded once the loop is
      not entered with a zero count. */
  lemma MonoLoopWraps()
    ensures MonoLoopCountAsWritten(3) == 0x1_0000_0000
    ensures NibbleBytes(3) == 0
    ensures 2 + 2 * MonoLoopCountAsWritten(3) > 3
  {
  }

  /** The corrected loop count: the header and the nibble bytes never give
      more samples than the block holds, exactly as many for an even count
      of at least two and one fewer for an odd one; and it is the count as
      written for every block but one of three samples. */
  lemma {:induction false} NibbleBytesFit(n: nat)
    requires n >= 2
    ensures 2 + 2 * NibbleBytes(n) == (if n % 2 == 0 then n else n - 1)
    ensures n < 0x1_0000_0000 && n != 3 ==> MonoLoopCountAsWritten(n) == NibbleBytes(n)
  {
    if n > 2 {
      assert 2 * ((n - 2) / 2) == (if n % 2 == 0 then n - 2 else n - 3);
    }
  }

  /** ADPCMDecodeBlock's result: 0 exactly when it turns the block down or
      the block counts no samples; otherwise two bytes per sample in mono
      and four in stereo. A refused block writes nothing and leaves the
      right decoder, and every decoder field but the left coefficients, as
      they were. An accepted mono block writes the two header samples and
      two per nibble byte; a stereo one four and two. */
  lemma {:induction false} BlockResult(mem: seq<byte>, length: nat, blockSize: nat, samplesPerBlock: nat, stereo: bool,
                                       left: Channel, right: Channel)
    requires BlockReadable(mem, length, blockSize, samplesPerBlock, stereo)
    ensures var r := DecodedBlock(mem, length, blockSize, samplesPerBlock, stereo, left, right);
      var n := SamplesThisBlock(blockSize, samplesPerBlock, stereo, length);
      var refused := Refused(mem, length, blockSize, samplesPerBlock, stereo);
      (r.bytes == 0 <==> refused || n.value == 0) &&
      (refused ==>
        r.samples == [] && r.right == right &&
        r.left.index == left.index && r.left.first == left.first && r.left.second == left.second) &&
      (!refused ==>
        r.bytes == n.value * (if stereo then 4 else 2) &&
        |r.samples| == (if stereo then 4 + 2 * StereoNibbleBytes(n.value) else 2 + 2 * NibbleBytes(n.value)))
  {
    var t := Min(blockSize, length);
    match SamplesThisBlock(blockSize, samplesPerBlock, stereo, length)
    case None =>
    case Some(n) =>
      var h := mem[t..];
      assert h[0] == mem[t];
      if stereo {
        assert h[1] == mem[t + 1];
      }
  }

  /** The block's own bytes are never read: the header is taken from past
      the min(blockSize, length) bytes the call was given, so two memories
      that agree from there on decode alike, whatever the block itself
      holds. */
  lemma {:induction false} BlockIgnoresItsOwnBytes(mem: seq<byte>, mem': seq<byte>, length: nat, blockSize: nat,
                                                   samplesPerBlock: nat, stereo: bool, left: Channel, right: Channel)
    requires BlockReadable(mem, length, blockSize, samplesPerBlock, stereo)
    requires Min(blockSize, length) <= |mem| && Min(blockSize, length) <= |mem'|
    requires mem[Min(blockSize, length)..] == mem'[Min(blockSize, length)..]
    ensures BlockReadable(mem', length, blockSize, samplesPerBlock, stereo)
    ensures DecodedBlock(mem, length, blockSize, samplesPerBlock, stereo, left, right) ==
            DecodedBlock(mem', length, blockSize, samplesPerBlock, stereo, left, right)
  {
  }

  /** The memory ADPCMDecodeBlock reads once the header is taken from
      the start of the block it was given. */
  predicate OwnBlockReadable(mem: seq<byte>, length: nat, blockSize: nat, samplesPerBlock: nat, stereo: bool)
  {
    match SamplesThisBlock(blockSize, samplesPerBlock, stereo, length)
    case None => true
    case Some(n) => HeaderReadable(mem, stereo, n)
  }

  /** ADPCMDecodeBlock as intended: the same decode, with the header read
      at the start of the block instead of past it. */
  function DecodedOwnBlock(mem: seq<byte>, length: nat, blockSize: nat, samplesPerBlock: nat, stereo: bool,
                           left: Channel, right: Channel): (r: Block)
    requires OwnBlockReadable(mem, length, blockSize, samplesPerBlock, stereo)
  {
    match SamplesThisBlock(blockSize, samplesPerBlock, stereo, length)
    case None => Block(0, [], left, right)
    case Some(n) => if stereo then StereoBlock(mem, n, left, right) else MonoBlock(mem, n, left, right)
  }

  /** The decode as written is the intended decode of whatever follows
      the block in memory. */
  lemma {:induction false} DecodesWhatFollows(mem: seq<byte>, length: nat, blockSize: nat, samplesPerBlock: nat,
                                              stereo: bool, left: Channel, right: Channel)
    requires BlockReadable(mem, length, blockSize, samplesPerBlock, stereo)
    requires Min(blockSize, length) <= |mem|
    ensures OwnBlockReadable(mem[Min(blockSize, length)..], length, blockSize, samplesPerBlock, stereo)
    ensures DecodedBlock(mem, length, blockSize, samplesPerBlock, stereo, left, right) ==
            DecodedOwnBlock(mem[Min(blockSize, length)..], length, blockSize, samplesPerBlock, stereo, left, right)
  {
  }

  /** As intended, a block that holds everything the decode reads is
      decoded from its own bytes alone: what follows it in memory makes no
      difference. */
  lemma {:induction false} OwnBlockReadsOnlyItself(mem: seq<byte>, mem': seq<byte>, length: nat, blockSize: nat,
                                                   samplesPerBlock: nat, stereo: bool, left: Channel, right: Channel)
    requires Min(blockSize, length) <= |mem| && Min(blockSize, length) <= |mem'|
    requires mem[..Min(blockSize, length)] == mem'[..Min(blockSize, length)]
    requires OwnBlockReadable(mem[..Min(blockSize, length)], length, blockSize, samplesPerBlock, stereo)
    ensures OwnBlockReadable(mem, length, blockSize, samplesPerBlock, stereo)
    ensures OwnBlockReadable(mem', length, blockSize, samplesPerBlock, stereo)
    ensures DecodedOwnBlock(mem, length, blockSize, samplesPerBlock, stereo, left, right) ==
            DecodedOwnBlock(mem', length, blockSize, samplesPerBlock, stereo, left, right)
  {
    var t := Min(blockSize, length);
    match SamplesThisBlock(blockSize, samplesPerBlock, stereo, length)
    case None =>
    case Some(n) =>
      if stereo {
        StereoBlockTrim(mem, t, n, left, right);
        StereoBlockTrim(mem', t, n, left, right);
      } else {
        MonoBlockTrim(mem, t, n, left, right);
        MonoBlockTrim(mem', t, n, left, right);
      }
  }

  /** A mono block decodes from its first `t` bytes alone when they hold
      all it reads. */
  lemma {:induction false} MonoBlockTrim(h: seq<byte>, t: nat, n: nat, left: Channel, right: Channel)
    requires t <= |h| && HeaderReadable(h[..t], false, n)
    ensures HeaderReadable(h, false, n) && MonoBlock(h, n, left, right) == MonoBlock(h[..t], n, left, right)
  {
    var b := h[..t];
    assert b[0] == h[0];
    if h[0] < 7 {
      var k := 7 + NibbleBytes(n);
      assert forall j :: 0 <= j < 7 ==> b[j] == h[j];
      assert MonoHeader(b) == MonoHeader(h);
      assert b[7..k] == h[7..k];
    }
  }

  /** A stereo block decodes from its first `t` bytes alone when they
      hold all it reads. */
  lemma {:induction false} StereoBlockTrim(h: seq<byte>, t: nat, n: nat, left: Channel, right: Channel)
    requires t <= |h| && HeaderReadable(h[..t], true, n)
    ensures HeaderReadable(h, true, n) && StereoBlock(h, n, left, right) == StereoBlock(h[..t], n, left, right)
  {
    var b := h[..t];
    assert b[0] == h[0] && b[1] == h[1];
    if h[0] < 7 && h[1] < 7 {
      var k := 14 + StereoNibbleBytes(n);
      assert forall j :: 0 <= j < 14 ==> b[j] == h[j];
      assert StereoHeader(b) == StereoHeader(h);
      assert b[14..k] == h[14..k];
    }
  }

  /** A mono block of seven bytes holding two samples, followed by a
      byte of 7: as written, that following byte is taken for the
      selector and the block is refused; as intended, the block's own
      header is decoded and its two samples come out. */
  lemma {:induction false} BlockSkipsItsHeaderAsWritten(left: Channel, right: Channel)
    ensures var mem: seq<byte> := [0, 0, 0, 0, 0, 0, 0, 7];
      DecodedBlock(mem, 7, 7, 2, false, left, right).bytes == 0 &&
      DecodedOwnBlock(mem, 7, 7, 2, false, left, right).bytes == 4
  {
    var mem: seq<byte> := [0, 0, 0, 0, 0, 0, 0, 7];
    assert mem[7..][0] == 7;
  }

  /** The decoder object. The channel count is fixed when it is made; the
      block size and the samples per block are set by the caller; the rest
      is the state Process keeps between calls. */
  class DecompressMicrosoftAdpcm {
    const stereo: bool
    var blockSize: nat
    var samplesPerBlock: nat
    /** One pass of the switch of Process for this channel count and block
        length. */
    var step: (Machine, seq<byte>, nat) -> Stepped
    var state: Stage
    var nextState: Stage
    const cache: array<byte>
    var cacheCount: nat
    var cacheSize: nat
    var left: Channel
    var right: Channel
    var samplesRemaining: nat
    var totalInput: nat
    var totalOutput: nat
    var inputLength: nat
    var outputLength: nat

    /** The state machine as the fields hold it between calls. */
    function Snapshot(): Machine
      reads this, cache
    {
      Machine(state, nextState, cache[..], cacheCount, cacheSize, left, right, samplesRemaining, [])
    }

    /** The cache is 14 bytes, the machine is well formed, a call starts
        from the first state or from one it parked in, and the switch keeps
        the promises of every step. */
    ghost predicate Valid()
      reads this, cache
    {
      cache.Length == CacheBytes && WF(Snapshot()) && (state == Init || Parked(state)) && Progressing(step)
    }

    /** The constructor: a cleared decoder (the source's decoders are not
        initialised; they are set from the first header before use). */
    constructor (stereo: bool, blockSize: nat, samplesPerBlock: nat)
      ensures Valid() && fresh(cache)
      ensures this.stereo == stereo && this.blockSize == blockSize && this.samplesPerBlock == samplesPerBlock
      ensures step == Switch(stereo, samplesPerBlock)
      ensures state == Init && cacheCount == 0 && cacheSize == 0 && totalInput == 0 && totalOutput == 0
    {
      this.stereo := stereo;
      this.blockSize := blockSize;
      this.samplesPerBlock := samplesPerBlock;
      step := Switch(stereo, samplesPerBlock);
      SwitchProgresses(stereo, samplesPerBlock);
      state := Init;
      nextState := Init;
      cache := new byte[CacheBytes];
      cacheCount := 0;
      cacheSize := 0;
      left := Channel(0, 0, 0, 0, 0);
      right := Channel(0, 0, 0, 0, 0);
      samplesRemaining := 0;
      totalInput := 0;
      totalOutput := 0;
      inputLength := 0;
      outputLength := 0;
    }

    /** Reset: the totals and the cache counts go to zero and the next call
        starts from the first state; the decoders and the rest stay. */
    method Reset() returns (status: Status)
      requires cache.Length == CacheBytes && Progressing(step)
      modifies this
      ensures Valid() && status == Okay
      ensures totalInput == 0 && totalOutput == 0 && state == Init && cacheCount == 0 && cacheSize == 0
      ensures nextState == old(nextState) && left == old(left) && right == old(right)
      ensures samplesRemaining == old(samplesRemaining) && blockSize == old(blockSize)
      ensures samplesPerBlock == old(samplesPerBlock) && step == old(step)
      ensures inputLength == old(inputLength) && outputLength == old(outputLength)
    {
      totalInput := 0;
      totalOutput := 0;
      state := Init;
      cacheCount := 0;
      cacheSize := 0;
      status := Okay;
    }

    /** SetBlockSize: the size in bytes of each block. */
    method SetBlockSize(size: nat)
      modifies this`blockSize
      ensures blockSize == size
    {
      blockSize := size;
    }

    /** SetSamplesPerBlock: the samples each block holds, which the data
        does not record; the switch of Process follows it from the next
        call on. */
    method SetSamplesPerBlock(count: nat)
      requires Valid()
      modifies this`samplesPerBlock, this`step
      ensures Valid() && samplesPerBlock == count && step == Switch(stereo, count)
    {
      samplesPerBlock := count;
      step := Switch(stereo, count);
      SwitchProgresses(stereo, count);
    }

    /** Puts a machine back into the fields. */
    method Store(m: Machine)
      requires cache.Length == CacheBytes && |m.cache| == CacheBytes
      modifies this, cache
      ensures Snapshot() == m.(chunk := [])
      ensures blockSize == old(blockSize) && samplesPerBlock == old(samplesPerBlock) && step == old(step)
      ensures totalInput == old(totalInput) && totalOutput == old(totalOutput)
      ensures inputLength == old(inputLength) && outputLength == old(outputLength)
    {
      state, nextState, cacheCount, cacheSize := m.stage, m.next, m.count, m.size;
      left, right, samplesRemaining := m.left, m.right, m.remaining;
      forall i | 0 <= i < CacheBytes {
        cache[i] := m.cache[i];
      }
      assert cache[..] == m.cache;
    }

    /** Process, with the state it stops in kept for the next call: the
        switch runs from the stored state until a case stops it, the fields
        take the machine it stopped with, and the call's consumption is
        recorded and added to the totals. The status compares, as written,
        the room left with the bytes written and then the input left with
        the bytes consumed. */
    method Process(input: seq<byte>, room: nat) returns (status: Status, out: seq<byte>)
      requires Valid()
      modifies this, cache
      ensures Valid() && Parked(state)
      ensures var r := Run(step, old(Snapshot()), input, room);
        Snapshot() == r.m.(chunk := []) && out == r.out &&
        inputLength == r.used && outputLength == |r.out| &&
        totalInput == old(totalInput) + r.used && totalOutput == old(totalOutput) + |r.out|
      ensures |out| <= room && inputLength <= |input|
      ensures status == (if room - |out| != |out| then OutputUnderrun
                         else if |input| - inputLength != inputLength then OutputOverrun else Okay)
      ensures blockSize == old(blockSize) && samplesPerBlock == old(samplesPerBlock) && step == old(step)
    {
      var m, used;
      m, used, out := Drive(step, Snapshot(), input, room);
      Store(m);
      inputLength, outputLength := used, |out|;
      totalInput, totalOutput := totalInput + used, totalOutput + |out|;
      status := if room - |out| != |out| then OutputUnderrun
                else if |input| - used != used then OutputOverrun else Okay;
    }

    /** Process as written: the switch runs from m_eState, which only Reset
        and the constructor set, and the state it stops in is not stored,
        so every call starts again from the first state while the cache
        counts, the decoders and the samples left carry over. */
    method ProcessAsWritten(input: seq<byte>, room: nat) returns (status: Status, out: seq<byte>)
      requires Valid() && state == Init
      modifies this, cache
      ensures Valid() && state == Init
      ensures var r := Run(step, old(Snapshot()), input, room);
        Snapshot() == r.m.(stage := Init, chunk := []) && out == r.out &&
        inputLength == r.used && outputLength == |r.out| &&
        totalInput == old(totalInput) + r.used && totalOutput == old(totalOutput) + |r.out|
      ensures status == (if room - |out| != |out| then OutputUnderrun
                         else if |input| - inputLength != inputLength then OutputOverrun else Okay)
      ensures blockSize == old(blockSize) && samplesPerBlock == old(samplesPerBlock) && step == old(step)
    {
      var m, used;
      m, used, out := Drive(step, Snapshot(), input, room);
      Store(m.(stage := Init));
      inputLength, outputLength := used, |out|;
      totalInput, totalOutput := totalInput + used, totalOutput + |out|;
      status := if room - |out| != |out| then OutputUnderrun
                else if |input| - used != used then OutputOverrun else Okay;
    }

    /** ADPCMDecodeBlock: decodes the block at the start of `mem`, given as
        `length` bytes, into samples and returns the byte count of the
        samples; the decoders take the state the block leaves them in. */
    method DecodeBlock(mem: seq<byte>, length: nat) returns (n: nat, out: seq<Sample16>)
      requires BlockReadable(mem, length, blockSize, samplesPerBlock, stereo)
      modifies this`left, this`right
      ensures var r := DecodedBlock(mem, length, blockSize, samplesPerBlock, stereo, old(left), old(right));
        n == r.bytes && out == r.samples && left == r.left && right == r.right
    {
      var t := Min(blockSize, length);
      var samples := SamplesThisBlock(blockSize, samplesPerBlock, stereo, length);
      if samples.None? {
        return 0, [];
      }
      if stereo {
        n, out := DecodeStereo(mem[t..], samples.value);
      } else {
        n, out := DecodeMono(mem[t..], samples.value);
      }
    }

    /** ADPCMDecodeBlock as intended: the header is read at the start of
        the `length` bytes given. */
    method DecodeOwnBlock(mem: seq<byte>, length: nat) returns (n: nat, out: seq<Sample16>)
      requires OwnBlockReadable(mem, length, blockSize, samplesPerBlock, stereo)
      modifies this`left, this`right
      ensures var r := DecodedOwnBlock(mem, length, blockSize, samplesPerBlock, stereo, old(left), old(right));
        n == r.bytes && out == r.samples && left == r.left && right == r.right
    {
      var samples := SamplesThisBlock(blockSize, samplesPerBlock, stereo, length);
      if samples.None? {
        return 0, [];
      }
      if stereo {
        n, out := DecodeStereo(mem, samples.value);
      } else {
        n, out := DecodeMono(mem, samples.value);
      }
    }

    /** The mono branch of ADPCMDecodeBlock, on the memory its header is
        read from. */
    method DecodeMono(h: seq<byte>, count: nat) returns (n: nat, out: seq<Sample16>)
      requires HeaderReadable(h, false, count)
      modifies this`left
      ensures var r := MonoBlock(h, count, old(left), right);
        n == r.bytes && out == r.samples && left == r.left
    {
      if h[0] >= 7 {
        return 0, [];
      }
      var c := MonoHeader(h);
      var d, rest := DecodeBytes(MonoByte, c, h[7 .. 7 + NibbleBytes(count)]);
      left := d;
      return count * 2, [c.first, c.second] + rest;
    }

    /** The stereo branch of ADPCMDecodeBlock, on the memory its header
        is read from. */
    method DecodeStereo(h: seq<byte>, count: nat) returns (n: nat, out: seq<Sample16>)
      requires HeaderReadable(h, true, count)
      modifies this`left, this`right
      ensures var r := StereoBlock(h, count, old(left), old(right));
        n == r.bytes && out == r.samples && left == r.left && right == r.right
    {
      if h[0] >= 7 {
        return 0, [];
      }
      left := left.(coef1 := Coef1[h[0]], coef2 := Coef2[h[0]]);
      if h[1] >= 7 {
        return 0, [];
      }
      var lr := StereoHeader(h);
      var d, rest := DecodeBytes(StereoByte, lr, h[14 .. 14 + StereoNibbleBytes(count)]);
      left, right := d.0, d.1;
      return count * 4, [lr.0.first, lr.1.first, lr.0.second, lr.1.second] + rest;
    }
  }

  /** The nibble loop of ADPCMDecodeBlock: each byte in turn goes through
      the per-byte decoder, and its two samples are appended. */
  method DecodeBytes<S>(step: (S, byte) -> (S, Sample16, Sample16), s0: S, bs: seq<byte>)
    returns (s: S, out: seq<Sample16>)
    ensures (s, out) == Scan(step, s0, bs)
  {
    s, out := s0, [];
    var i := 0;
    while i < |bs|
      invariant i <= |bs|
      invariant (s, out) == Scan(step, s0, bs[..i])
    {
      var r := step(s, bs[i]);
      assert bs[..i + 1][..i] == bs[..i];
      s, out := r.0, out + [r.1, r.2];
      i := i + 1;
    }
    assert bs[..i] == bs;
  }
}
