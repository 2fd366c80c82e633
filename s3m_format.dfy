// The layout of a ScreamTracker 3 module as ImportS3M reads it, and what it
// makes of each part, as values: the header checks, the order table, the
// default pans, the channel count, one instrument record and its sample,
// and the packed rows of one pattern. All values are little-endian.
module S3MFormat {
  import opened S3MEffects

  /** The 16-bit little-endian value at `at`. */
  function U16(b: seq<byte>, at: nat): (v: nat)
    requires at + 2 <= |b|
    ensures v < 0x1_0000
  {
    b[at] as nat + 0x100 * b[at + 1] as nat
  }

  /** The 32-bit little-endian value at `at`. */
  function U32(b: seq<byte>, at: nat): (v: nat)
    requires at + 4 <= |b|
    ensures v < 0x1_0000_0000
  {
    U16(b, at) + 0x1_0000 * U16(b, at + 2)
  }

  /** An unsigned 32-bit result. */
  function Wrap32(x: int): (v: nat)
    ensures v < 0x1_0000_0000
    ensures 0 <= x < 0x1_0000_0000 ==> v == x
  {
    x % 0x1_0000_0000
  }

  /** Whether bit `bit` (a power of two) is set in `flags`. */
  predicate Has(flags: byte, bit: nat)
    requires bit > 0
  {
    (flags as nat / bit) % 2 == 1
  }

  /** Whether the bytes at `at` spell `tag`. */
  predicate Spells(b: seq<byte>, at: nat, tag: string)
    requires at + |tag| <= |b|
  {
    forall k :: 0 <= k < |tag| ==> b[at + k] as int == tag[k] as int
  }

  function Min(a: nat, b: nat): nat
  {
    if a < b then a else b
  }

  const HeaderSize: nat := 96
  const RecordSize: nat := 80
  const RowCount: nat := 64

  /** The sequencer's table sizes and constants ImportS3M relies on. */
  datatype Limits = Limits(
    instrumentMax: nat,    // cInstrumentMaxCount
    sampleMax: nat,        // cSampleMaxCount, sample slots per instrument
    instrumentSlots: nat,  // entries of m_InstrDatas
    pointerSlots: nat,     // entries of m_PatternPointers
    panSlots: nat,         // entries of m_ChannelPans and m_ChannelVolumes
    noteMax: nat,          // NOTE_MAX
    maxPan: nat,           // cMaxPan
    maxVolume: nat,        // cMaxVolume
    volumeFade: nat,       // cDefaultVolumeFade
    blank: Cell)           // the command a new pattern holds in every cell

  /** Table sizes the importer's fixed loops and indices fit in. */
  predicate Sized(l: Limits)
  {
    0 < l.instrumentMax <= l.instrumentSlots && 0 < l.sampleMax && 0 < l.panSlots
  }

  /** A file ImportS3M recognises: a whole header and the 'SCRM' signature. */
  predicate Recognised(input: seq<byte>)
  {
    |input| >= HeaderSize && Spells(input, 44, "SCRM")
  }

  /** The three counts of the header. */
  datatype Counts = Counts(orders: nat, instruments: nat, patterns: nat)

  function CountsOf(input: seq<byte>): Counts
    requires |input| >= HeaderSize
  {
    Counts(U16(input, 32), U16(input, 34), U16(input, 36))
  }

  /** The order table, the instrument and pattern parapointers and room for
      every instrument record all follow the header. */
  predicate Complete(input: seq<byte>)
    requires |input| >= HeaderSize
  {
    var c := CountsOf(input);
    c.orders + 2 * c.instruments + 2 * c.patterns + RecordSize * c.instruments <= |input| - HeaderSize
  }

  /** Where the pattern parapointers start. */
  function PatternTable(input: seq<byte>): nat
    requires |input| >= HeaderSize
  {
    HeaderSize + CountsOf(input).orders + 2 * CountsOf(input).instruments
  }

  // ---- song description ----

  /** The order table with every entry naming a missing pattern set to 0. */
  function Orders(input: seq<byte>, count: nat): (s: seq<nat>)
    requires |input| >= HeaderSize && count <= CountsOf(input).orders && HeaderSize + count <= |input|
    ensures |s| == count
    ensures forall i :: 0 <= i < count ==> s[i] == 0 || s[i] < CountsOf(input).patterns
    ensures forall i :: 0 <= i < count && (input[HeaderSize + i] as nat) < CountsOf(input).patterns ==>
      s[i] == input[HeaderSize + i] as nat
  {
    var p := CountsOf(input).patterns;
    seq(count, i requires 0 <= i < count => if input[HeaderSize + i] as nat >= p then 0 else input[HeaderSize + i] as nat)
  }

  /** The default pan of channel `i`: a quarter of the range for channels
      0, 3, 4, 7, 8, ..., three quarters for channels 1, 2, 5, 6, .... */
  function Pan(i: nat, maxPan: nat): nat
  {
    maxPan / 4 + (((i + 1) / 2) % 2) * (maxPan / 2)
  }

  /** The default pans follow the pattern left, right, right, left every
      four channels. */
  lemma {:induction false} PansRepeat(i: nat, maxPan: nat)
    ensures Pan(i + 4, maxPan) == Pan(i, maxPan)
    ensures i % 4 == 0 || i % 4 == 3 ==> Pan(i, maxPan) == maxPan / 4
    ensures i % 4 == 1 || i % 4 == 2 ==> Pan(i, maxPan) == maxPan / 4 + maxPan / 2
  {
    var q := (i + 1) / 2;
    assert (i + 5) / 2 == q + 2;
    assert (q + 2) % 2 == q % 2;
    if i % 4 == 0 || i % 4 == 3 {
      assert q % 2 == 0;
    } else {
      assert q % 2 == 1;
    }
  }

  /** The number of channel settings below 32, the enabled PCM and AdLib
      channels. */
  function Audible(settings: seq<byte>): (n: nat)
    ensures n <= |settings|
  {
    if settings == [] then 0
    else Audible(settings[..|settings| - 1]) + (if settings[|settings| - 1] < 32 then 1 else 0)
  }

  /** The channel count: the enabled channels rounded up to an even number. */
  function ChannelCount(settings: seq<byte>): (n: nat)
    ensures n % 2 == 0
    ensures Audible(settings) <= n <= Audible(settings) + 1
    ensures n <= |settings| + 1
  {
    (Audible(settings) + 1) / 2 * 2
  }

  // ---- instruments ----

  /** A sample description as ImportS3M fills it in. */
  datatype Sample = Sample(size: nat, loopStart: nat, loopLength: nat, volume: nat, c2Rate: nat,
                           bits: nat, data: seq<byte>)

  /** What one instrument parapointer leads to: a record without a PCM
      sample, one with a sample, or a record or sample data that lies past
      the end of the input. */
  datatype Found = Plain(name: seq<byte>) | Sampled(name: seq<byte>, sample: Sample) | Overrun

  /** A record ImportS3M takes a sample from: PCM, not packed, 'SCRS'. */
  predicate IsPcm(rec: seq<byte>)
    requires |rec| == RecordSize
  {
    rec[0] == 1 && rec[30] == 0 && Spells(rec, 76, "SCRS")
  }

  /** Where the sample data of a record starts: its 24-bit parapointer
      times 16. */
  function SampleAt(rec: seq<byte>): nat
    requires |rec| == RecordSize
  {
    rec[13] as nat * 0x10_0000 + U16(rec, 14) * 16
  }

  /** A record's sample description before its data is copied. Flag 1
      turns the loop on, flag 4 makes the sample 16 bits wide, which
      doubles the byte size and the loop, in 32-bit arithmetic. */
  function Described(rec: seq<byte>): (s: Sample)
    requires |rec| == RecordSize
    ensures s.bits == 16 <==> Has(rec[31], 4)
    ensures s.bits == 8 <==> !Has(rec[31], 4)
    ensures !Has(rec[31], 4) ==> s.size == U32(rec, 16)
    ensures Has(rec[31], 4) ==> s.size == Wrap32(2 * U32(rec, 16))
    ensures !Has(rec[31], 1) ==> s.loopStart == 0 && s.loopLength == 0
    ensures Has(rec[31], 1) && !Has(rec[31], 4) ==> s.loopStart == U32(rec, 20)
    ensures Has(rec[31], 1) && Has(rec[31], 4) ==> s.loopStart == Wrap32(2 * U32(rec, 20))
    ensures Has(rec[31], 1) && !Has(rec[31], 4) ==> s.loopLength == Wrap32(U32(rec, 24) - U32(rec, 20))
    ensures Has(rec[31], 1) && Has(rec[31], 4) && U32(rec, 20) <= U32(rec, 24) ==>
      s.loopLength == Wrap32(2 * (U32(rec, 24) - U32(rec, 20)))
    ensures s.volume == rec[28] as nat && s.c2Rate == U32(rec, 32) && s.data == []
  {
    var looped := Has(rec[31], 1);
    var start := if looped then U32(rec, 20) else 0;
    var length := if looped then Wrap32(U32(rec, 24) - U32(rec, 20)) else 0;
    if Has(rec[31], 4) then
      Sample(Wrap32(2 * U32(rec, 16)), Wrap32(2 * start), Wrap32(2 * length), rec[28] as nat, U32(rec, 32), 16, [])
    else
      Sample(U32(rec, 16), start, length, rec[28] as nat, U32(rec, 32), 8, [])
  }

  /** A byte with its top bit flipped. */
  function Flip(b: byte): (c: byte)
    ensures (c as int + 0x80) % 0x100 == b as int
  {
    if b >= 0x80 then b - 0x80 else b + 0x80
  }

  /** 16-bit data with the top bit of every whole little-endian word
      flipped: unsigned samples made signed. */
  function FlipHighBytes(d: seq<byte>): (e: seq<byte>)
    ensures |e| == |d|
  {
    seq(|d|, j requires 0 <= j < |d| => if j % 2 == 1 then Flip(d[j]) else d[j])
  }

  /** Flipping is an exclusive or with 0x8000 on each whole 16-bit word,
      and a trailing odd byte stays. */
  lemma {:induction false} FlipIsSignFlip(d: seq<byte>, w: nat)
    requires 2 * w + 2 <= |d|
    ensures U16(FlipHighBytes(d), 2 * w) == (U16(d, 2 * w) + 0x8000) % 0x1_0000
    ensures |d| % 2 == 1 ==> FlipHighBytes(d)[|d| - 1] == d[|d| - 1]
  {
    var e := FlipHighBytes(d);
    assert e[2 * w] == d[2 * w];
    assert e[2 * w + 1] == Flip(d[2 * w + 1]);
  }

  /** Flipping twice gives the data back. */
  lemma {:induction false} FlipHighBytesTwice(d: seq<byte>)
    ensures FlipHighBytes(FlipHighBytes(d)) == d
  {
    var e := FlipHighBytes(FlipHighBytes(d));
    forall j | 0 <= j < |d|
      ensures e[j] == d[j]
    {
      if j % 2 == 1 {
        assert Flip(Flip(d[j])) == d[j];
      }
    }
  }

  /** The sample data after conversion to signed: 16-bit words have their
      sign flipped unless the header says the samples are signed (type 1);
      8-bit data goes through `toSigned`, the library's unsigned-to-signed
      byte conversion. */
  function Converted(d: seq<byte>, bits: nat, sampleType: nat, toSigned: seq<byte> -> seq<byte>): seq<byte>
  {
    if sampleType == 1 then d
    else if bits == 16 then FlipHighBytes(d)
    else toSigned(d)
  }

  /** The byte offset of instrument `i`'s record: its parapointer times 16. */
  function InstrumentAt(input: seq<byte>, i: nat): nat
    requires |input| >= HeaderSize && Complete(input) && i < CountsOf(input).instruments
  {
    U16(input, HeaderSize + CountsOf(input).orders + 2 * i) * 16
  }

  /** ImportS3M allocates a sample for instrument `i`: its record lies
      inside the input and is an unpacked PCM sample. */
  predicate Allocates(input: seq<byte>, i: nat)
    requires |input| >= HeaderSize && Complete(input) && i < CountsOf(input).instruments
  {
    var at := InstrumentAt(input, i);
    at + RecordSize <= |input| && IsPcm(input[at..at + RecordSize])
  }

  /** What instrument `i` gives ImportS3M. */
  function Instrument(input: seq<byte>, i: nat, toSigned: seq<byte> -> seq<byte>): (f: Found)
    requires |input| >= HeaderSize && Complete(input) && i < CountsOf(input).instruments
    ensures f.Sampled? ==> Allocates(input, i)
    ensures Allocates(input, i) ==> !f.Plain?
    ensures f.Sampled? ==> f.sample.bits == 8 || f.sample.bits == 16
    ensures f.Sampled? && (U16(input, 42) == 1 || f.sample.bits == 16) ==> |f.sample.data| == f.sample.size
  {
    var at := InstrumentAt(input, i);
    if at + RecordSize > |input| then Overrun
    else
      var rec := input[at..at + RecordSize];
      if !IsPcm(rec) then Plain(rec[48..76])
      else
        var s := Described(rec);
        var from := SampleAt(rec);
        if from + s.size > |input| then Overrun
        else
          var data := input[from..from + s.size];
          Sampled(rec[48..76], s.(data := Converted(data, s.bits, U16(input, 42), toSigned)))
  }

  /** An input the length checks accept whose one instrument parapointer
      points past its end: ImportS3M checks that the records would fit,
      not where they are. */
  function Probe(): seq<byte>
  {
    seq(HeaderSize + 2 + RecordSize, j =>
      if j == 34 then 1
      else if j == 44 then 'S' as int as byte
      else if j == 45 then 'C' as int as byte
      else if j == 46 then 'R' as int as byte
      else if j == 47 then 'M' as int as byte
      else if j == HeaderSize || j == HeaderSize + 1 then 0xFF
      else 0)
  }

  lemma {:induction false} ParapointerUnchecked(toSigned: seq<byte> -> seq<byte>)
    ensures Recognised(Probe()) && Complete(Probe())
    ensures CountsOf(Probe()) == Counts(0, 1, 0)
    ensures Instrument(Probe(), 0, toSigned) == Overrun
  {
    var p := Probe();
    assert p[44] as int == 'S' as int && p[45] as int == 'C' as int;
    assert p[46] as int == 'R' as int && p[47] as int == 'M' as int;
    assert Spells(p, 44, "SCRM");
    assert U16(p, 32) == 0 && U16(p, 34) == 1 && U16(p, 36) == 0;
    assert InstrumentAt(p, 0) == 0xFFFF * 16;
  }

  /** What the first `n` instrument parapointers lead to, in order. */
  function Survey(input: seq<byte>, n: nat, toSigned: seq<byte> -> seq<byte>): (found: seq<Found>)
    requires |input| >= HeaderSize && Complete(input) && n <= CountsOf(input).instruments
    ensures |found| == n
  {
    if n == 0 then [] else Survey(input, n - 1, toSigned) + [Instrument(input, n - 1, toSigned)]
  }

  lemma {:induction false} SurveyAt(input: seq<byte>, n: nat, i: nat, toSigned: seq<byte> -> seq<byte>)
    requires |input| >= HeaderSize && Complete(input) && i < n <= CountsOf(input).instruments
    ensures Survey(input, n, toSigned)[i] == Instrument(input, i, toSigned)
  {
    if i < n - 1 {
      SurveyAt(input, n - 1, i, toSigned);
    }
  }

  /** The number of records among the first `i` found that carry a sample. */
  function SampleCount(found: seq<Found>, i: nat): (c: nat)
    requires i <= |found|
    ensures c <= i
  {
    if i == 0 then 0
    else SampleCount(found, i - 1) + (if found[i - 1].Sampled? then 1 else 0)
  }

  /** Counting samples over more records never gives fewer, and one more
      sampled record gives at least one more. */
  lemma {:induction false} SampleCountGrows(found: seq<Found>, i: nat, n: nat)
    requires i < n <= |found|
    ensures SampleCount(found, i) + (if found[i].Sampled? then 1 else 0) <= SampleCount(found, n)
    decreases n - i
  {
    if i + 1 < n {
      SampleCountGrows(found, i, n - 1);
    }
  }

  // ---- patterns ----

  /** One command of a pattern. */
  datatype Cell = Cell(note: nat, instrument: nat, volume: nat, effect: Effect, argument: byte)

  /** A packed note, octave in the high nibble and semitone in the low one,
      as a note number; 0xFF for none or one beyond NOTE_MAX. */
  function Note(b: byte, noteMax: nat): (n: nat)
    ensures n == 0xFF || n < noteMax
    ensures n < 0x100
    ensures n != 0xFF ==> n == (b as nat / 16) * 12 + b as nat % 16
  {
    var v := (b as nat / 16) * 12 + b as nat % 16;
    if v >= noteMax then 0xFF else v
  }

  /** A volume column value, clamped to 64 and moved up by 0x10. */
  function Volume(b: byte): (v: nat)
    ensures 0x10 <= v <= 0x50
    ensures b as nat <= 64 ==> v == b as nat + 0x10
    ensures b as nat > 64 ==> v == 0x50
  {
    (if b as nat > 64 then 64 else b as nat) + 0x10
  }

  /** The bytes after a non-zero flag byte: two for a note and instrument
      (0x20), one for a volume (0x40), two for an effect (0x80). */
  function EntrySize(flags: byte): (n: nat)
    ensures n <= 5
  {
    (if Has(flags, 0x20) then 2 else 0) + (if Has(flags, 0x40) then 1 else 0) + (if Has(flags, 0x80) then 2 else 0)
  }

  /** A cell after one entry: the note and instrument when given, the
      volume or 255 when none is given, and the translated effect unless
      its command byte is 255. */
  function Entered(c: Cell, flags: byte, e: seq<byte>, noteMax: nat): (d: Cell)
    requires |e| == EntrySize(flags)
    ensures d.volume == 255 <==> !Has(flags, 0x40)
    ensures Has(flags, 0x20) ==> d.note == Note(e[0], noteMax) && d.instrument == e[1] as nat
    ensures !Has(flags, 0x20) ==> d.note == c.note && d.instrument == c.instrument
    ensures !Has(flags, 0x80) ==> d.effect == c.effect && d.argument == c.argument
  {
    var a := if Has(flags, 0x20) then c.(note := Note(e[0], noteMax), instrument := e[1] as nat) else c;
    var j := if Has(flags, 0x20) then 2 else 0;
    var b := if Has(flags, 0x40) then a.(volume := Volume(e[j])) else a.(volume := 255);
    var k := j + (if Has(flags, 0x40) then 1 else 0);
    if Has(flags, 0x80) && e[k] != 255 then
      var r := ImportS3MEffect(e[k], e[k + 1]);
      b.(effect := r.0, argument := r.1)
    else b
  }

  /** Where row `row` starts in a pattern of `channels` channels. */
  function RowStart(row: nat, channels: nat): (k: nat)
    requires row <= RowCount
    ensures k <= 64 * channels
    ensures row < RowCount ==> k + channels <= 64 * channels
  {
    MulMonotone(row, RowCount, channels);
    if row < RowCount then
      MulMonotone(row + 1, RowCount, channels);
      row * channels
    else
      row * channels
  }

  lemma {:induction false} RowStartNext(row: nat, channels: nat)
    requires row < RowCount
    ensures RowStart(row + 1, channels) == RowStart(row, channels) + channels
  {
  }

  /** The index of a row and channel in a pattern of `channels` channels. */
  function Slot(row: nat, channel: nat, channels: nat): (k: nat)
    requires row < RowCount && channel < channels
    ensures RowStart(row, channels) <= k < RowStart(row, channels) + channels
    ensures k < 64 * channels
  {
    RowStart(row, channels) + channel
  }

  lemma {:induction false} MulMonotone(a: nat, b: nat, c: nat)
    requires a <= b
    ensures a * c <= b * c
  {
  }

  /** The outcome of a pattern stream: the cells and where the stream ended,
      or a stream that runs past the end of the input. */
  datatype Parsed = Parsed(grid: seq<Cell>, end: nat) | PastEnd

  /** The packed rows from `pos` on, with `row` rows already ended: a zero
      flag byte ends a row, anything else is an entry for channel
      flags & 0x1F, which is dropped (its bytes still skipped) when that
      channel is not in the pattern. The stream stops after 64 rows. */
  function Rows(input: seq<byte>, pos: nat, row: nat, channels: nat, noteMax: nat, grid: seq<Cell>): (r: Parsed)
    requires row <= RowCount && |grid| == 64 * channels
    ensures r.Parsed? ==> |r.grid| == 64 * channels && pos <= r.end
    decreases |input| - pos
  {
    if row == RowCount then Parsed(grid, pos)
    else if pos >= |input| then PastEnd
    else
      var flags := input[pos];
      if flags == 0 then Rows(input, pos + 1, row + 1, channels, noteMax, grid)
      else
        var next := pos + 1 + EntrySize(flags);
        if next > |input| then PastEnd
        else
          var channel := flags as nat % 32;
          var g := if channel < channels then
            var k := Slot(row, channel, channels);
            grid[k := Entered(grid[k], flags, input[pos + 1..next], noteMax)]
          else grid;
          Rows(input, next, row, channels, noteMax, g)
  }

  /** A stream that has rows left to read ends inside the input, on the
      zero byte that ends its last row. */
  lemma {:induction false} RowsEndInside(input: seq<byte>, pos: nat, row: nat, channels: nat, noteMax: nat, grid: seq<Cell>)
    requires row < RowCount && |grid| == 64 * channels
    ensures var r := Rows(input, pos, row, channels, noteMax, grid);
      r.Parsed? ==> pos < r.end <= |input| && input[r.end - 1] == 0
    decreases |input| - pos
  {
    if pos < |input| {
      var flags := input[pos];
      if flags == 0 {
        if row + 1 < RowCount {
          RowsEndInside(input, pos + 1, row + 1, channels, noteMax, grid);
        }
      } else {
        var next := pos + 1 + EntrySize(flags);
        if next <= |input| {
          var channel := flags as nat % 32;
          var g := if channel < channels then
            var k := Slot(row, channel, channels);
            grid[k := Entered(grid[k], flags, input[pos + 1..next], noteMax)]
          else grid;
          RowsEndInside(input, next, row, channels, noteMax, g);
        }
      }
    }
  }

  /** Rows that have ended are final: the stream only writes the current
      row and the ones after it. */
  lemma {:induction false} RowsKeepEndedRows(input: seq<byte>, pos: nat, row: nat, channels: nat, noteMax: nat, grid: seq<Cell>)
    requires row <= RowCount && |grid| == 64 * channels
    ensures var r := Rows(input, pos, row, channels, noteMax, grid);
      r.Parsed? ==> r.grid[..RowStart(row, channels)] == grid[..RowStart(row, channels)]
    decreases |input| - pos
  {
    if row < RowCount && pos < |input| {
      var lo := RowStart(row, channels);
      var flags := input[pos];
      if flags == 0 {
        RowsKeepEndedRows(input, pos + 1, row + 1, channels, noteMax, grid);
        var hi := RowStart(row + 1, channels);
        RowStartNext(row, channels);
        var r := Rows(input, pos, row, channels, noteMax, grid);
        if r.Parsed? {
          assert r.grid[..hi][..lo] == r.grid[..lo];
          assert grid[..hi][..lo] == grid[..lo];
        }
      } else {
        var next := pos + 1 + EntrySize(flags);
        if next <= |input| {
          var channel := flags as nat % 32;
          var g := if channel < channels then
            var k := Slot(row, channel, channels);
            grid[k := Entered(grid[k], flags, input[pos + 1..next], noteMax)]
          else grid;
          assert g[..lo] == grid[..lo];
          RowsKeepEndedRows(input, next, row, channels, noteMax, g);
        }
      }
    }
  }

  /** Every cell of a new pattern. */
  function Blank(channels: nat, blank: Cell): (g: seq<Cell>)
    ensures |g| == 64 * channels
  {
    seq(64 * channels, _ => blank)
  }

  /** The parapointer of pattern `i`. */
  function PatternAt(input: seq<byte>, i: nat): nat
    requires |input| >= HeaderSize && Complete(input) && i < CountsOf(input).patterns
  {
    U16(input, PatternTable(input) + 2 * i)
  }

  /** The cells of pattern `i`: blank for a zero parapointer, else the
      rows read from two bytes past parapointer times 16; None when they
      run past the end of the input. */
  function PatternGrid(input: seq<byte>, i: nat, channels: nat, noteMax: nat, blank: Cell): (g: Option<seq<Cell>>)
    requires |input| >= HeaderSize && Complete(input) && i < CountsOf(input).patterns
    ensures g.Some? ==> |g.value| == 64 * channels
  {
    var at := PatternAt(input, i);
    if at == 0 then Some(Blank(channels, blank))
    else match Rows(input, at * 16 + 2, 0, channels, noteMax, Blank(channels, blank))
      case Parsed(grid, _) => Some(grid)
      case PastEnd => None
  }

  datatype Option<T> = None | Some(value: T)
}
