// The resumable state machine behind DecompressMicrosoftADPCM::Process, one
// switch case at a time. A call hands the machine the input bytes it has and
// the room left in the output buffer; each step consumes input, emits output,
// or moves to a state of lower rank, and the machine parks when it cannot go
// on without more input or more room. A 14-byte cache holds a block header
// that arrives in pieces, and decoded bytes that do not fit the output yet.
module AdpcmMachine {
  import opened AdpcmCodec

  /** The states of Process, as the source names them. */
  datatype Stage = Init | InitMono | GetDecoderMono | WriteSamplesMono | WritingSamplesMono
    | InitStereo | GetDecoderStereo | WriteSamplesStereo | WritingSamplesStereo
    | FillingCache | CacheFull

  /** The cache holds a whole stereo header, the largest thing put in it. */
  const CacheBytes: nat := 14

  /** The states a call can end in: each waits for more input or more room. */
  predicate Parked(s: Stage)
  {
    s == WritingSamplesMono || s == WritingSamplesStereo || s == FillingCache || s == CacheFull
  }

  /** The states that decode nibbles. */
  predicate Writing(s: Stage)
  {
    s == WritingSamplesMono || s == WritingSamplesStereo
  }

  /** The states a flushed cache hands over to. */
  predicate AfterFlush(s: Stage)
  {
    s == InitMono || s == WriteSamplesMono || s == WritingSamplesMono ||
    s == InitStereo || s == WriteSamplesStereo || s == WritingSamplesStereo
  }

  /** The order in which states may follow one another without consuming
      input or emitting output. */
  function Rank(s: Stage): nat
  {
    match s
    case Init => 9
    case WriteSamplesMono | WriteSamplesStereo => 8
    case InitMono | InitStereo => 7
    case GetDecoderMono | GetDecoderStereo => 6
    case WritingSamplesMono | WritingSamplesStereo => 5
    case FillingCache | CacheFull => 3
  }

  /** The decoder's state between and during calls: the current and the
      follow-up state (m_eState, m_eNextState), the cache with its fill count
      and size, the two channel decoders, the samples left in the block, and
      the header bytes the current call is reading (pInputChunk). */
  datatype Machine = Machine(stage: Stage, next: Stage, cache: seq<byte>, count: nat, size: nat,
                             left: Channel, right: Channel, remaining: nat, chunk: seq<byte>)

  /** What the switch cases rely on: the cache is 14 bytes and the counts lie
      within it; a cache being filled is not full yet and holds a header; a
      cache being flushed is not empty; a header is at hand when it is
      decoded; a block being decoded has samples left. */
  predicate WF(m: Machine)
  {
    |m.cache| == CacheBytes && m.count <= m.size <= CacheBytes &&
    (m.stage == FillingCache ==> m.count < m.size && (m.next == GetDecoderMono || m.next == GetDecoderStereo)) &&
    (m.stage == CacheFull ==> 0 < m.count && AfterFlush(m.next)) &&
    (m.stage == GetDecoderMono ==> |m.chunk| >= 7) &&
    (m.stage == GetDecoderStereo ==> |m.chunk| >= 14) &&
    (Writing(m.stage) || (m.stage == CacheFull && Writing(m.next)) ==> m.remaining > 0)
  }

  /** One pass of the switch: the new machine, the input bytes consumed, the
      output bytes written, and whether the loop stops. */
  datatype Stepped = Stepped(m: Machine, used: nat, out: seq<byte>, abort: bool)

  /** The bytes still waiting in the cache to be written out. */
  function Pending(m: Machine): seq<byte>
    requires WF(m)
  {
    if m.stage == CacheFull then m.cache[m.size - m.count .. m.size] else []
  }

  function Min(a: nat, b: nat): nat
  {
    if a < b then a else b
  }

  /** What every step promises: the machine stays well formed, consumes no
      more than it has and writes no more than fits, and either stops in a
      parked state or makes progress. */
  predicate Sound(m: Machine, input: seq<byte>, room: nat, s: Stepped)
  {
    s.used <= |input| && |s.out| <= room &&
    (WF(m) ==> WF(s.m) && (s.abort ==> Parked(s.m.stage))) &&
    (!s.abort ==> s.used + |s.out| > 0 || Rank(s.m.stage) < Rank(m.stage))
  }

  /** STATE_INITMONO and STATE_INITSTEREO: a header that is all there is
      read straight from the input; otherwise the cache starts filling with
      it, from empty. */
  function StepInit(m: Machine, input: seq<byte>, header: nat, get: Stage): (s: Stepped)
    requires WF(m)
    requires (m.stage == InitMono && header == 7 && get == GetDecoderMono) ||
             (m.stage == InitStereo && header == 14 && get == GetDecoderStereo)
    ensures Sound(m, input, 0, s)
  {
    if |input| < header then
      Stepped(m.(next := get, size := header, count := 0, stage := FillingCache), 0, [], false)
    else
      Stepped(m.(chunk := input[..header], stage := get), header, [], false)
  }

  /** The bytes GetDecoder writes for a mono header: the first sample, then
      the second. */
  function MonoHeaderOut(c: Channel): seq<byte>
  {
    Le16(c.first) + Le16(c.second)
  }

  /** The bytes GetDecoder writes for a stereo header, as written: the left
      decoder's first sample twice, then its second sample twice; the right
      channel's samples are not written. */
  function StereoHeaderOut(l: Channel, r: Channel): seq<byte>
  {
    Le16(l.first) + Le16(l.first) + Le16(l.second) + Le16(l.second)
  }

  /** STATE_GETDECODERMONO and STATE_GETDECODERSTEREO: set the decoders from
      the header, then write its samples to the output when they fit, or to
      the cache to be flushed first. */
  function StepGetDecoder(m: Machine, input: seq<byte>, room: nat, stereo: bool, samplesPerBlock: nat): (s: Stepped)
    requires WF(m) && (m.stage == GetDecoderMono || m.stage == GetDecoderStereo)
    ensures Sound(m, input, room, s)
  {
    var mono := m.stage == GetDecoderMono;
    var m' := if mono then m.(left := MonoHeader(m.chunk))
              else m.(left := StereoHeader(m.chunk).0, right := StereoHeader(m.chunk).1);
    var bytes := if mono then MonoHeaderOut(m'.left) else StereoHeaderOut(m'.left, m'.right);
    var after := if mono then WriteSamplesMono else WriteSamplesStereo;
    if room < |bytes| then
      Stepped(m'.(count := |bytes|, size := |bytes|, next := after, stage := CacheFull,
                  cache := bytes + m.cache[|bytes|..]), 0, [], false)
    else
      Stepped(m'.(stage := after), 0, bytes, false)
  }

  /** STATE_WRITESAMPLESMONO and STATE_WRITESAMPLESSTEREO: the header gave
      two samples; the rest of the block's samples are still to come. */
  function StepWriteSamples(m: Machine, samplesPerBlock: nat, init: Stage, writing: Stage): (s: Stepped)
    requires WF(m)
    requires (m.stage == WriteSamplesMono && init == InitMono && writing == WritingSamplesMono) ||
             (m.stage == WriteSamplesStereo && init == InitStereo && writing == WritingSamplesStereo)
    ensures Sound(m, [], 0, s)
  {
    if samplesPerBlock <= 2 then Stepped(m.(stage := init), 0, [], false)
    else Stepped(m.(remaining := samplesPerBlock - 2, stage := writing), 0, [], false)
  }

  /** STATE_WRITINGSAMPLESMONO: decode as many whole bytes (two samples
      each) as the samples left, the input and the room allow straight to
      the output; when the block is done go back for a header. Otherwise,
      if input is left, decode one more byte into the cache — keeping only
      its first sample when a single sample is left in the block — and
      flush the cache. The samples left are not stored when the block is
      done. */
  function StepWritingMono(m: Machine, input: seq<byte>, room: nat, stereo: bool, samplesPerBlock: nat): (s: Stepped)
    requires WF(m) && m.stage == WritingSamplesMono
    ensures Sound(m, input, room, s)
  {
    if |input| == 0 then Stepped(m, 0, [], true)
    else
      var counter := Min(Min(m.remaining / 2, |input|), room / 4);
      var d := Scan(MonoByte, m.left, input[..counter]);
      var rem := m.remaining - 2 * counter;
      if counter > 0 && rem == 0 then
        Stepped(m.(left := d.0, stage := InitMono), counter, Bytes(d.1), false)
      else if counter == |input| then
        Stepped(m.(left := d.0, remaining := rem), counter, Bytes(d.1), true)
      else
        var e := MonoByte(d.0, input[counter]);
        var rem' := if rem < 2 then 0 else rem - 2;
        var n := if rem < 2 then 2 else 4;
        Stepped(m.(left := e.0, cache := Le16(e.1) + Le16(e.2) + m.cache[4..], count := n, size := n,
                   next := if rem' > 0 then WritingSamplesMono else InitMono, stage := CacheFull,
                   remaining := rem'),
                counter + 1, Bytes(d.1), false)
  }

  /** STATE_WRITINGSAMPLESSTEREO: the same with one byte (a left and a right
      sample) per sample left in the block. */
  function StepWritingStereo(m: Machine, input: seq<byte>, room: nat, stereo: bool, samplesPerBlock: nat): (s: Stepped)
    requires WF(m) && m.stage == WritingSamplesStereo
    ensures Sound(m, input, room, s)
  {
    if |input| == 0 then Stepped(m, 0, [], true)
    else
      var counter := Min(Min(m.remaining, |input|), room / 4);
      var d := Scan(StereoByte, (m.left, m.right), input[..counter]);
      var rem := m.remaining - counter;
      if counter > 0 && rem == 0 then
        Stepped(m.(left := d.0.0, right := d.0.1, stage := InitStereo), counter, Bytes(d.1), false)
      else if counter == |input| then
        Stepped(m.(left := d.0.0, right := d.0.1, remaining := rem), counter, Bytes(d.1), true)
      else
        var e := StereoByte(d.0, input[counter]);
        Stepped(m.(left := e.0.0, right := e.0.1, cache := Le16(e.1) + Le16(e.2) + m.cache[4..],
                   count := 4, size := 4,
                   next := if rem - 1 > 0 then WritingSamplesStereo else InitStereo, stage := CacheFull,
                   remaining := rem - 1),
                counter + 1, Bytes(d.1), false)
  }

  /** STATE_FILLINGCACHE: copy as many input bytes as the cache still needs
      and the input has; once it is full, decode the header from it. */
  function StepFilling(m: Machine, input: seq<byte>, room: nat, stereo: bool, samplesPerBlock: nat): (s: Stepped)
    requires WF(m) && m.stage == FillingCache
    ensures Sound(m, input, room, s)
  {
    if |input| == 0 then Stepped(m, 0, [], true)
    else
      var k := Min(m.size - m.count, |input|);
      var cache := m.cache[..m.count] + input[..k] + m.cache[m.count + k..];
      if m.count + k == m.size then
        Stepped(m.(cache := cache, count := m.count + k, stage := m.next, chunk := cache), k, [], false)
      else
        Stepped(m.(cache := cache, count := m.count + k), k, [], true)
  }

  /** STATE_CACHEFULL: write out as many cached bytes as fit, in order; once
      the cache is empty, go on to the follow-up state (the count is then
      left as it was). */
  function StepCacheFull(m: Machine, input: seq<byte>, room: nat, stereo: bool, samplesPerBlock: nat): (s: Stepped)
    requires WF(m) && m.stage == CacheFull
    ensures Sound(m, input, room, s)
  {
    if room == 0 then Stepped(m, 0, [], true)
    else
      var n := Min(room, m.count);
      var out := m.cache[m.size - m.count .. m.size - m.count + n];
      if m.count - n > 0 then Stepped(m.(count := m.count - n), 0, out, true)
      else Stepped(m.(stage := m.next), 0, out, false)
  }

  /** STATE_INIT: go on to the mono or the stereo decoder. */
  function StepStart(m: Machine, input: seq<byte>, room: nat, stereo: bool, samplesPerBlock: nat): (s: Stepped)
    requires WF(m) && m.stage == Init
    ensures Sound(m, input, room, s)
  {
    Stepped(m.(stage := if stereo then InitStereo else InitMono), 0, [], false)
  }

  function StepInitMono(m: Machine, input: seq<byte>, room: nat, stereo: bool, samplesPerBlock: nat): (s: Stepped)
    requires WF(m) && m.stage == InitMono
    ensures Sound(m, input, room, s)
  {
    StepInit(m, input, 7, GetDecoderMono)
  }

  function StepInitStereo(m: Machine, input: seq<byte>, room: nat, stereo: bool, samplesPerBlock: nat): (s: Stepped)
    requires WF(m) && m.stage == InitStereo
    ensures Sound(m, input, room, s)
  {
    StepInit(m, input, 14, GetDecoderStereo)
  }

  function StepWriteSamplesMono(m: Machine, input: seq<byte>, room: nat, stereo: bool, samplesPerBlock: nat): (s: Stepped)
    requires WF(m) && m.stage == WriteSamplesMono
    ensures Sound(m, input, room, s)
  {
    StepWriteSamples(m, samplesPerBlock, InitMono, WritingSamplesMono)
  }

  function StepWriteSamplesStereo(m: Machine, input: seq<byte>, room: nat, stereo: bool, samplesPerBlock: nat): (s: Stepped)
    requires WF(m) && m.stage == WriteSamplesStereo
    ensures Sound(m, input, room, s)
  {
    StepWriteSamples(m, samplesPerBlock, InitStereo, WritingSamplesStereo)
  }

  /** The case of the switch for each state. */
  function Case(stage: Stage): (Machine, seq<byte>, nat, bool, nat) --> Stepped
  {
    match stage
    case Init => StepStart
    case InitMono => StepInitMono
    case InitStereo => StepInitStereo
    case GetDecoderMono | GetDecoderStereo => StepGetDecoder
    case WriteSamplesMono => StepWriteSamplesMono
    case WriteSamplesStereo => StepWriteSamplesStereo
    case WritingSamplesMono => StepWritingMono
    case WritingSamplesStereo => StepWritingStereo
    case FillingCache => StepFilling
    case CacheFull => StepCacheFull
  }

  /** One pass of the switch of Process: the case for the current state (a
      machine that is not well formed stops where it is). */
  function Step(m: Machine, input: seq<byte>, room: nat, stereo: bool, samplesPerBlock: nat): (s: Stepped)
    ensures Sound(m, input, room, s)
  {
    if !WF(m) then Stepped(m, 0, [], true)
    else
      assert Case(m.stage).requires(m, input, room, stereo, samplesPerBlock);
      Case(m.stage)(m, input, room, stereo, samplesPerBlock)
  }

  /** A pass of the switch for a decoder of the given channel count and
      block length in samples. */
  function Switch(stereo: bool, samplesPerBlock: nat): (Machine, seq<byte>, nat) -> Stepped
  {
    (m: Machine, input: seq<byte>, room: nat) => Step(m, input, room, stereo, samplesPerBlock)
  }

  /** A step function that keeps every promise of Sound. */
  ghost predicate Progressing(step: (Machine, seq<byte>, nat) -> Stepped)
  {
    forall m, input, room :: Sound(m, input, room, step(m, input, room))
  }

  /** Every pass of the switch is sound. */
  lemma SwitchProgresses(stereo: bool, samplesPerBlock: nat)
    ensures Progressing(Switch(stereo, samplesPerBlock))
  {
    forall m, input, room
      ensures Sound(m, input, room, Switch(stereo, samplesPerBlock)(m, input, room))
    {
      var s := Step(m, input, room, stereo, samplesPerBlock);
    }
  }

  /** The whole loop of one Process call: steps until one stops. The result
      has consumed at most the input and written at most the room, and a
      well-formed machine stays well formed and ends parked. */
  function Run(step: (Machine, seq<byte>, nat) -> Stepped, m: Machine, input: seq<byte>, room: nat): (r: Stepped)
    requires Progressing(step)
    ensures r.used <= |input| && |r.out| <= room
    ensures WF(m) ==> WF(r.m) && Parked(r.m.stage)
    decreases |input| + room, Rank(m.stage)
  {
    var s := step(m, input, room);
    if s.abort then s
    else
      var t := Run(step, s.m, input[s.used..], room - |s.out|);
      Stepped(t.m, s.used + t.used, s.out + t.out, true)
  }

  /** The loop of Process: it runs the switch until a case stops it and
      reports the machine, the input consumed and the bytes written. */
  method Drive(step: (Machine, seq<byte>, nat) -> Stepped, m0: Machine, input: seq<byte>, room0: nat)
    returns (m: Machine, used: nat, out: seq<byte>)
    requires Progressing(step)
    ensures Stepped(m, used, out, true) == Run(step, m0, input, room0)
  {
    assert input[0..] == input;
    ghost var goal := Run(step, m0, input, room0);
    m, used, out := m0, 0, [];
    var room: nat := room0;
    var abort := false;
    while !abort
      invariant used <= |input| && room + |out| == room0
      invariant !abort ==> Run(step, m, input[used..], room).m == goal.m
      invariant !abort ==> used + Run(step, m, input[used..], room).used == goal.used
      invariant !abort ==> out + Run(step, m, input[used..], room).out == goal.out
      invariant abort ==> m == goal.m && used == goal.used && out == goal.out
      decreases !abort, |input| - used + room, Rank(m.stage)
    {
      var s := step(m, input[used..], room);
      Advance(step, goal, m, input, used, room, out);
      m, used, out, room, abort := s.m, used + s.used, out + s.out, room - |s.out|, s.abort;
    }
  }

  /** One more pass of the loop keeps what the loop promises: the part of
      the run still to come, after what has been consumed and written, is
      the whole run. */
  lemma Advance(step: (Machine, seq<byte>, nat) -> Stepped, goal: Stepped, m: Machine, input: seq<byte>,
                used: nat, room: nat, out: seq<byte>)
    requires Progressing(step) && used <= |input|
    requires Run(step, m, input[used..], room).m == goal.m
    requires used + Run(step, m, input[used..], room).used == goal.used
    requires out + Run(step, m, input[used..], room).out == goal.out
    ensures var s := step(m, input[used..], room);
      if s.abort then s.m == goal.m && used + s.used == goal.used && out + s.out == goal.out
      else
        var t := Run(step, s.m, input[used + s.used..], room - |s.out|);
        t.m == goal.m && used + s.used + t.used == goal.used && out + s.out + t.out == goal.out
  {
    RunUnfolds(step, m, input, used, room);
    var s := step(m, input[used..], room);
    if !s.abort {
      var t := Run(step, s.m, input[used + s.used..], room - |s.out|);
      assert out + (s.out + t.out) == out + s.out + t.out;
    }
  }

  /** One more pass of the loop: a run from a machine is its first step
      followed by the run from where that step leaves off. */
  lemma RunUnfolds(step: (Machine, seq<byte>, nat) -> Stepped, m: Machine, input: seq<byte>, used: nat, room: nat)
    requires Progressing(step) && used <= |input|
    ensures var s := step(m, input[used..], room);
      var r := Run(step, m, input[used..], room);
      if s.abort then r == s
      else
        var t := Run(step, s.m, input[used + s.used..], room - |s.out|);
        r == Stepped(t.m, s.used + t.used, s.out + t.out, true)
  {
    var s := step(m, input[used..], room);
    assert input[used..][s.used..] == input[used + s.used..];
  }
}

// What the cache states promise, and what keeping the state between calls
// changes for a header that arrives in two pieces.
module AdpcmMachineLemmas {
  import opened AdpcmCodec
  import opened AdpcmMachine

  /** FILLINGCACHE copies as many bytes as the cache still needs and the
      input has, after the ones it holds, and goes on to decode the header
      exactly when the cache is then full. */
  lemma {:induction false} FillTakesWhatFits(m: Machine, input: seq<byte>, room: nat, stereo: bool, samplesPerBlock: nat)
    requires WF(m) && m.stage == FillingCache
    ensures var s := Step(m, input, room, stereo, samplesPerBlock);
      s.used == Min(m.size - m.count, |input|) && s.out == [] &&
      s.m.count == m.count + s.used && s.m.size == m.size &&
      s.m.cache[..m.count] == m.cache[..m.count] && s.m.cache[m.count..s.m.count] == input[..s.used] &&
      (s.abort <==> s.m.count < m.size) &&
      (!s.abort ==> s.m.stage == m.next && s.m.chunk == s.m.cache)
  {
    var s := Step(m, input, room, stereo, samplesPerBlock);
    assert s == StepFilling(m, input, room, stereo, samplesPerBlock);
    if |input| > 0 {
      var k := Min(m.size - m.count, |input|);
      var cache := m.cache[..m.count] + input[..k] + m.cache[m.count + k..];
      assert cache[..m.count] == m.cache[..m.count];
      assert cache[m.count..m.count + k] == input[..k];
    }
  }

  /** CACHEFULL writes out as many cached bytes as fit, in order, and loses
      none: what it writes followed by what is still pending is what was
      pending. It goes on to the follow-up state exactly when the cache is
      then empty. */
  lemma {:induction false} FlushLosesNothing(m: Machine, input: seq<byte>, room: nat, stereo: bool, samplesPerBlock: nat)
    requires WF(m) && m.stage == CacheFull
    ensures var s := Step(m, input, room, stereo, samplesPerBlock);
      s.used == 0 && |s.out| == Min(room, m.count) && s.out + Pending(s.m) == Pending(m) &&
      (s.abort <==> room < m.count) && (!s.abort ==> s.m.stage == m.next)
  {
    var s := Step(m, input, room, stereo, samplesPerBlock);
    assert s == StepCacheFull(m, input, room, stereo, samplesPerBlock);
    if room > 0 {
      var n := Min(room, m.count);
      var lo := m.size - m.count;
      assert m.cache[lo .. lo + n] + m.cache[lo + n .. m.size] == m.cache[lo .. m.size];
    }
  }

  /** A run of the switch is its first pass followed by the run from where
      that pass leaves off. */
  lemma RunFrom(step: (Machine, seq<byte>, nat) -> Stepped, m: Machine, input: seq<byte>, room: nat)
    requires Progressing(step)
    ensures var s := step(m, input, room);
      var r := Run(step, m, input, room);
      if s.abort then r == s
      else
        var t := Run(step, s.m, input[s.used..], room - |s.out|);
        r == Stepped(t.m, s.used + t.used, s.out + t.out, true)
  {
    RunUnfolds(step, m, input, 0, room);
    assert input[0..] == input;
  }

  /** The mono header decoded from the cache or from the input: only its
      first seven bytes count. */
  lemma MonoHeaderPrefix(a: seq<byte>, b: seq<byte>)
    requires |a| >= 7 && |b| >= 7 && a[..7] == b[..7]
    ensures MonoHeader(a) == MonoHeader(b)
  {
    assert a[0] == a[..7][0] && b[0] == b[..7][0];
    assert forall i :: 0 <= i < 7 ==> a[i] == b[i] by {
      forall i | 0 <= i < 7 ensures a[i] == b[i] {
        assert a[i] == a[..7][i] && b[i] == b[..7][i];
      }
    }
  }

  /** The first `k` bytes of a mono header, given to a fresh decoder, go to
      the cache and nothing is written. */
  lemma {:induction false} FirstPiece(m: Machine, h: seq<byte>, k: nat, room: nat, samplesPerBlock: nat)
    requires WF(m) && m.stage == Init && |h| == 7 && 0 < k < 7
    ensures Progressing(Switch(false, samplesPerBlock))
    ensures var a := Run(Switch(false, samplesPerBlock), m, h[..k], room);
      a.out == [] && a.used == k && a.m.stage == FillingCache && a.m.next == GetDecoderMono &&
      a.m.count == k && a.m.size == 7 && a.m.cache[..k] == h[..k]
  {
    var spb := samplesPerBlock;
    SwitchProgresses(false, spb);
    RunFrom(Switch(false, spb), m, h[..k], room);
    var m1 := Step(m, h[..k], room, false, spb).m;
    RunFrom(Switch(false, spb), m1, h[..k], room);
    var m2 := Step(m1, h[..k], room, false, spb).m;
    assert m2.stage == FillingCache && m2.count == 0 && m2.size == 7;
    RunFrom(Switch(false, spb), m2, h[..k], room);
    FillTakesWhatFits(m2, h[..k], room, false, spb);
  }

  /** The rest of the header, given to the decoder where the first piece
      left it, completes the header in the cache: the next pass takes the
      bytes still missing, writes nothing, and goes on to set the decoder
      from the whole header. */
  lemma {:induction false} SecondPieceResumed(m: Machine, h: seq<byte>, k: nat, room: nat, samplesPerBlock: nat)
    requires WF(m) && m.stage == FillingCache && m.next == GetDecoderMono
    requires |h| == 7 && 0 < k < 7 && m.count == k && m.size == 7 && m.cache[..k] == h[..k]
    ensures var s := Step(m, h[k..], room, false, samplesPerBlock);
      !s.abort && s.used == 7 - k && s.out == [] && s.m.stage == GetDecoderMono &&
      MonoHeader(s.m.chunk) == MonoHeader(h)
  {
    FillTakesWhatFits(m, h[k..], room, false, samplesPerBlock);
    var s := Step(m, h[k..], room, false, samplesPerBlock);
    var c := s.m.cache;
    assert c[..7] == h by {
      assert c[..k] == m.cache[..k] && c[k..7] == h[k..][..7 - k];
      assert c[..7] == c[..k] + c[k..7];
    }
    MonoHeaderPrefix(s.m.chunk, h);
  }

  /** The rest of the header, given to a decoder that has gone back to
      STATE_INIT, starts the cache over: nothing is written. */
  lemma {:induction false} SecondPieceRestarted(m: Machine, h: seq<byte>, k: nat, room: nat, samplesPerBlock: nat)
    requires WF(m) && m.stage == Init && |h| == 7 && 0 < k < 7
    ensures Progressing(Switch(false, samplesPerBlock))
    ensures var b := Run(Switch(false, samplesPerBlock), m, h[k..], room);
      b.out == [] && b.used == 7 - k && b.m.stage == FillingCache && b.m.count == 7 - k &&
      b.m.cache[..7 - k] == h[k..]
  {
    var spb := samplesPerBlock;
    SwitchProgresses(false, spb);
    RunFrom(Switch(false, spb), m, h[k..], room);
    var m1 := Step(m, h[k..], room, false, spb).m;
    RunFrom(Switch(false, spb), m1, h[k..], room);
    var m2 := Step(m1, h[k..], room, false, spb).m;
    RunFrom(Switch(false, spb), m2, h[k..], room);
    FillTakesWhatFits(m2, h[k..], room, false, spb);
  }

  /** Process as written never stores the state it stops in, so each call
      starts again from STATE_INIT while the cache count, the decoders and
      the samples left are kept. A mono header split over two calls is then
      lost: the second call takes the rest of the header for the start of a
      new one, refills the cache with it from empty and writes nothing.
      Keeping the state between calls, the second call completes the header
      and sets the decoder from it. */
  lemma {:induction false} SplitHeader(m: Machine, h: seq<byte>, k: nat, room: nat, samplesPerBlock: nat)
    requires WF(m) && m.stage == Init && |h| == 7 && 0 < k < 7
    ensures Progressing(Switch(false, samplesPerBlock))
    ensures var step := Switch(false, samplesPerBlock);
      var a := Run(step, m, h[..k], room);
      var resumed := Step(a.m, h[k..], room, false, samplesPerBlock);
      var restarted := Run(step, a.m.(stage := Init), h[k..], room);
      a.out == [] &&
      !resumed.abort && resumed.m.stage == GetDecoderMono && MonoHeader(resumed.m.chunk) == MonoHeader(h) &&
      restarted.out == [] && restarted.m.stage == FillingCache && restarted.m.cache[..7 - k] == h[k..]
  {
    FirstPiece(m, h, k, room, samplesPerBlock);
    var a := Run(Switch(false, samplesPerBlock), m, h[..k], room);
    SecondPieceResumed(a.m, h, k, room, samplesPerBlock);
    SecondPieceRestarted(a.m.(stage := Init), h, k, room, samplesPerBlock);
  }
}
