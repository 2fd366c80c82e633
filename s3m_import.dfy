// ImportS3M: filling a sequencer SongPackage from a ScreamTracker 3 module.
// The package's fixed tables are arrays the importer writes in loops; the
// patterns are a list it appends to. Allocation is an oracle `grant`: the
// k-th allocation of the import succeeds when grant(k) holds.
module S3MImport {
  import opened S3MEffects
  import opened S3MFormat

  /** ImportS3M's results. ReadPastEnd stands for an input whose
      parapointers send the importer outside it, which it does not check. */
  datatype Import = Okay | Unknown | Truncation | OutOfMemory | ReadPastEnd

  /** One entry of the package's instrument table. */
  datatype InstrData = InstrData(baseSampleID: nat, numberSamples: nat, volumeFade: nat, name: seq<byte>)

  const NoInstrument := InstrData(0, 0, 0, [])

  /** The first of the `m` sample slots of instrument `j`: `j` times `m`,
      counted up by additions so that the solver meets no product. */
  function Stride(j: nat, m: nat): nat
  {
    if j == 0 then 0 else Stride(j - 1, m) + m
  }

  lemma {:induction false} StrideIsProduct(j: nat, m: nat)
    ensures Stride(j, m) == j * m
  {
    if j > 0 {
      StrideIsProduct(j - 1, m);
      assert (j - 1) * m + m == j * m;
    }
  }

  /** The slots of an instrument below the next one lie below the last. */
  lemma {:induction false} StrideBelow(i: nat, n: nat, m: nat)
    requires i < n
    ensures Stride(i, m) + m <= Stride(n, m)
    decreases n
  {
    if i + 1 < n {
      StrideBelow(i, n - 1, m);
    }
  }

  /** The instrument whose first sample slot is `q`, if any. */
  function Owner(q: nat, m: nat): (o: Option<nat>)
    requires m > 0
  {
    if q < m then (if q == 0 then Some(0) else None)
    else match Owner(q - m, m)
      case Some(j) => Some(j + 1)
      case None => None
  }

  lemma {:induction false} OwnerOf(j: nat, m: nat)
    requires m > 0
    ensures Owner(Stride(j, m), m) == Some(j)
  {
    if j > 0 {
      OwnerOf(j - 1, m);
    }
  }

  lemma {:induction false} OwnerUnique(q: nat, m: nat, j: nat)
    requires m > 0 && Owner(q, m) == Some(j)
    ensures q == Stride(j, m)
  {
    if q >= m {
      OwnerUnique(q - m, m, j - 1);
    }
  }

  /** The slot of instrument `i`'s first sample description. */
  function SampleSlot(i: nat, l: Limits): (q: nat)
    requires Sized(l) && i < l.instrumentSlots
    ensures q < Stride(l.instrumentSlots, l.sampleMax)
    ensures Owner(q, l.sampleMax) == Some(i)
  {
    StrideBelow(i, l.instrumentSlots, l.sampleMax);
    OwnerOf(i, l.sampleMax);
    Stride(i, l.sampleMax)
  }

  /** An instrument slot before its record is read: only its base sample. */
  function Unfilled(j: nat, l: Limits): InstrData
  {
    InstrData(Stride(j, l.sampleMax), 0, 0, [])
  }

  /** An instrument slot once its record has been read. */
  function Filled(d: InstrData, f: Found, l: Limits): InstrData
  {
    match f
    case Plain(name) => d.(numberSamples := 0, name := name)
    case Sampled(name, _) => d.(numberSamples := 1, volumeFade := l.volumeFade, name := name)
    case Overrun => d
  }

  /** Instrument slot `j` once the first `i` records found are read. */
  function InstrumentEntry(found: seq<Found>, j: nat, i: nat, l: Limits): InstrData
    requires i <= |found|
  {
    if j < i then Filled(Unfilled(j, l), found[j], l) else Unfilled(j, l)
  }

  /** Sample slot `q` once the first `i` records found are read: the
      sample of the instrument it is the first slot of, if that one has
      been read and has a sample. */
  function SampleEntry(found: seq<Found>, q: nat, i: nat, l: Limits): Option<Sample>
    requires i <= |found| && l.sampleMax > 0
  {
    match Owner(q, l.sampleMax)
    case Some(j) => if j < i && found[j].Sampled? then Some(found[j].sample) else None
    case None => None
  }

  /** Sample slot `q` once record `i` is read: instrument `i`'s first slot
      holds its sample when it has one, the others are as they were. */
  lemma {:induction false} SampleEntryStep(found: seq<Found>, i: nat, q: nat, l: Limits)
    requires i < |found| && Sized(l) && i < l.instrumentSlots
    ensures SampleEntry(found, q, i + 1, l) ==
      if found[i].Sampled? && q == SampleSlot(i, l) then Some(found[i].sample) else SampleEntry(found, q, i, l)
  {
    match Owner(q, l.sampleMax)
    case Some(j) =>
      if j == i {
        OwnerUnique(q, l.sampleMax, j);
      }
    case None =>
  }

  /** The first `k` allocations were all granted. */
  ghost predicate Granted(grant: nat -> bool, k: nat)
  {
    forall j :: 0 <= j < k ==> grant(j)
  }

  /** The `b` allocations from the `a`-th on were all granted. */
  ghost predicate GrantedFrom(grant: nat -> bool, a: nat, b: nat)
  {
    forall j :: a <= j < a + b ==> grant(j)
  }

  lemma {:induction false} GrantedStep(grant: nat -> bool, k: nat)
    requires Granted(grant, k) && grant(k) && grant(k + 1)
    ensures Granted(grant, k + 2)
  {
    forall j | 0 <= j < k + 2
      ensures grant(j)
    {
      if j < k {
        assert grant(j);
      }
    }
  }

  /** The first `a + b` allocations are granted exactly when the first `a`
      are and the `b` after them are. */
  lemma {:induction false} GrantsSplit(grant: nat -> bool, a: nat, b: nat)
    ensures Granted(grant, a + b) <==> Granted(grant, a) && GrantedFrom(grant, a, b)
  {
    if Granted(grant, a) && GrantedFrom(grant, a, b) {
      forall j | 0 <= j < a + b
        ensures grant(j)
      {
        if j < a {
          assert grant(j);
        }
      }
    }
  }

  /** A clean import is one whose instruments go through, with the
      allocations they need, and whose patterns go through after them. */
  lemma {:induction false} CleanParts(input: seq<byte>, l: Limits, grant: nat -> bool, toSigned: seq<byte> -> seq<byte>)
    requires |input| >= HeaderSize && Complete(input)
    ensures var n := Min(CountsOf(input).instruments, l.instrumentMax);
      var found := Survey(input, n, toSigned);
      var a := 2 * SampleCount(found, n);
      var p := CountsOf(input).patterns;
      Clean(input, l, grant, toSigned) <==>
        (Fits(found, n) && Granted(grant, a)) && GrantedFrom(grant, a, p) &&
        PatternsFit(input, ChannelCount(input[64..96]), l)
  {
    var n := Min(CountsOf(input).instruments, l.instrumentMax);
    var found := Survey(input, n, toSigned);
    var a := 2 * SampleCount(found, n);
    var p := CountsOf(input).patterns;
    GrantsSplit(grant, a, p);
  }

  /** None of the first `i` records found overruns the input, and `count`
      of them carry a sample. */
  ghost predicate Scanned(found: seq<Found>, i: nat, count: nat)
    requires i <= |found|
  {
    count == SampleCount(found, i) && Fits(found, i)
  }

  /** None of the first `n` records found overruns the input. */
  ghost predicate Fits(found: seq<Found>, n: nat)
    requires n <= |found|
  {
    forall j :: 0 <= j < n ==> !found[j].Overrun?
  }

  /** Every pattern stream of the input ends inside it. */
  ghost predicate PatternsFit(input: seq<byte>, channels: nat, l: Limits)
    requires |input| >= HeaderSize && Complete(input)
  {
    forall i :: 0 <= i < CountsOf(input).patterns ==> PatternGrid(input, i, channels, l.noteMax, l.blank).Some?
  }

  lemma {:induction false} ScannedStep(found: seq<Found>, i: nat, count: nat)
    requires i < |found| && Scanned(found, i, count) && !found[i].Overrun?
    ensures Scanned(found, i + 1, count + if found[i].Sampled? then 1 else 0)
  {
    forall j | 0 <= j < i + 1
      ensures !found[j].Overrun?
    {
      if j < i {
        assert !found[j].Overrun?;
      }
    }
  }

  /** A record that overruns, or whose two allocations are not both
      granted, rules out a clean import of any `n` records past it. */
  lemma {:induction false} ScanStops(found: seq<Found>, i: nat, n: nat, k: nat, count: nat, grant: nat -> bool)
    requires i < n <= |found| && Scanned(found, i, count) && k == 2 * count
    requires found[i].Overrun? || (found[i].Sampled? && !(grant(k) && grant(k + 1)))
    ensures !(Fits(found, n) && Granted(grant, 2 * SampleCount(found, n)))
  {
    SampleCountGrows(found, i, n);
  }

  /** Sets every entry of a table to 0. */
  method Zero(a: array<nat>)
    modifies a
    ensures forall j :: 0 <= j < a.Length ==> a[j] == 0
  {
    forall j | 0 <= j < a.Length {
      a[j] := 0;
    }
  }

  /** Counts the enabled channels and rounds up to even. */
  method CountChannels(settings: seq<byte>) returns (count: nat)
    ensures count == ChannelCount(settings)
  {
    count := 0;
    var i := 0;
    while i < |settings|
      invariant i <= |settings|
      invariant count == Audible(settings[..i])
    {
      assert settings[..i + 1][..i] == settings[..i];
      if settings[i] < 32 {
        count := count + 1;
      }
      i := i + 1;
    }
    assert settings[..i] == settings;
    count := (count + 1) / 2 * 2;
  }

  /** Flips the sign of each whole 16-bit word of a sample in place. */
  method FlipSigns(buf: array<byte>)
    modifies buf
    ensures buf[..] == FlipHighBytes(old(buf[..]))
  {
    ghost var d := buf[..];
    var w := 0;
    while w < buf.Length / 2
      invariant w <= buf.Length / 2
      invariant forall j :: 0 <= j < buf.Length ==> buf[j] == if j % 2 == 1 && j < 2 * w then Flip(d[j]) else d[j]
    {
      buf[2 * w + 1] := Flip(buf[2 * w + 1]);
      w := w + 1;
    }
  }

  /** Reads the packed rows of one pattern into a new pattern's cells. */
  method ParsePattern(input: seq<byte>, start: nat, channels: nat, noteMax: nat, blank: Cell) returns (r: Parsed)
    ensures r == Rows(input, start, 0, channels, noteMax, Blank(channels, blank))
  {
    var cells := new Cell[64 * channels](_ => blank);
    assert cells[..] == Blank(channels, blank);
    ghost var goal := Rows(input, start, 0, channels, noteMax, Blank(channels, blank));
    var pos, row := start, 0;
    while row < RowCount
      invariant row <= RowCount && cells.Length == 64 * channels
      invariant Rows(input, pos, row, channels, noteMax, cells[..]) == goal
      decreases |input| - pos
    {
      if pos >= |input| {
        return PastEnd;
      }
      var flags := input[pos];
      if flags == 0 {
        assert Rows(input, pos, row, channels, noteMax, cells[..]) == Rows(input, pos + 1, row + 1, channels, noteMax, cells[..]);
        pos, row := pos + 1, row + 1;
      } else {
        var next := pos + 1 + EntrySize(flags);
        if next > |input| {
          return PastEnd;
        }
        Enter(cells, input, pos, row, channels, noteMax);
        pos := next;
      }
    }
    r := Parsed(cells[..], pos);
  }

  /** Pattern `i`'s cells: blank when its parapointer is 0, else read from
      its packed rows; None when they run past the end of the input. */
  method ReadPattern(input: seq<byte>, i: nat, channels: nat, noteMax: nat, blank: Cell) returns (g: Option<seq<Cell>>)
    requires |input| >= HeaderSize && Complete(input) && i < CountsOf(input).patterns
    ensures g == PatternGrid(input, i, channels, noteMax, blank)
  {
    var at := U16(input, PatternTable(input) + 2 * i);
    assert at == PatternAt(input, i);
    if at == 0 {
      return Some(Blank(channels, blank));
    }
    var r := ParsePattern(input, at * 16 + 2, channels, noteMax, blank);
    g := if r.PastEnd? then None else Some(r.grid);
  }

  /** Reads the one channel entry at `pos` into its cell of `row`, when
      that channel is in the pattern. */
  method Enter(cells: array<Cell>, input: seq<byte>, pos: nat, row: nat, channels: nat, noteMax: nat)
    requires cells.Length == 64 * channels && row < RowCount
    requires pos < |input| && input[pos] != 0 && pos + 1 + EntrySize(input[pos]) <= |input|
    modifies cells
    ensures Rows(input, pos, row, channels, noteMax, old(cells[..])) ==
      Rows(input, pos + 1 + EntrySize(input[pos]), row, channels, noteMax, cells[..])
  {
    var flags := input[pos];
    var next := pos + 1 + EntrySize(flags);
    var channel := flags as nat % 32;
    if channel < channels {
      var k := Slot(row, channel, channels);
      cells[k] := Entered(cells[k], flags, input[pos + 1..next], noteMax);
      assert cells[..] == old(cells[..])[k := Entered(old(cells[k]), flags, input[pos + 1..next], noteMax)];
    }
  }

  /** Every record the import reads lies inside the input, every pattern
      stream ends inside it, and every allocation succeeds. */
  ghost predicate Clean(input: seq<byte>, l: Limits, grant: nat -> bool, toSigned: seq<byte> -> seq<byte>)
    requires |input| >= HeaderSize && Complete(input)
  {
    var c := CountsOf(input);
    var n := Min(c.instruments, l.instrumentMax);
    var channels := ChannelCount(input[64..96]);
    var found := Survey(input, n, toSigned);
    Fits(found, n) && Granted(grant, 2 * SampleCount(found, n) + c.patterns) && PatternsFit(input, channels, l)
  }

  // ---- which outcome an import ends with ----

  /** A record found and whether a sample is allocated for it agree: a
      record with a sample is allocated for, and one allocated for has a
      sample unless it overruns. */
  predicate Agrees(f: Found, pcm: bool)
  {
    (f.Sampled? ==> pcm) && (pcm ==> !f.Plain?)
  }

  ghost predicate AllAgree(found: seq<Found>, pcm: seq<bool>)
  {
    |pcm| == |found| && forall j :: 0 <= j < |found| ==> Agrees(found[j], pcm[j])
  }

  /** Whether a sample is allocated for each of the first `n` records. */
  function Pcms(input: seq<byte>, n: nat): seq<bool>
    requires |input| >= HeaderSize && Complete(input) && n <= CountsOf(input).instruments
  {
    seq(n, j requires 0 <= j < n => Allocates(input, j))
  }

  lemma {:induction false} SurveyAgrees(input: seq<byte>, n: nat, toSigned: seq<byte> -> seq<byte>)
    requires |input| >= HeaderSize && Complete(input) && n <= CountsOf(input).instruments
    ensures AllAgree(Survey(input, n, toSigned), Pcms(input, n))
  {
    forall j | 0 <= j < n
      ensures Agrees(Survey(input, n, toSigned)[j], Pcms(input, n)[j])
    {
      SurveyAt(input, n, j, toSigned);
    }
  }

  /** Reading a record found as `f`, allocated for when `pcm`, with `k`
      allocations requested before it: its outcome and the allocations
      requested by the end of it. An allocated-for record asks for a
      description and then for a copy of its data, and stops at the first
      refusal; a record, or granted sample data, that lies past the end of
      the input is read past it. */
  function Attempt(f: Found, pcm: bool, k: nat, grant: nat -> bool): (r: (Import, nat))
    requires Agrees(f, pcm)
    ensures r.0 == Okay || r.0 == OutOfMemory || r.0 == ReadPastEnd
    ensures r.0 == Okay <==> !f.Overrun? && (f.Sampled? ==> grant(k) && grant(k + 1))
    ensures r.0 == Okay ==> r.1 == k + if f.Sampled? then 2 else 0
    ensures r.0 == OutOfMemory <==> pcm && !(grant(k) && grant(k + 1))
  {
    if !pcm then (if f.Overrun? then ReadPastEnd else Okay, k)
    else if !grant(k) then (OutOfMemory, k + 1)
    else if !grant(k + 1) then (OutOfMemory, k + 2)
    else (if f.Overrun? then ReadPastEnd else Okay, k + 2)
  }

  /** The instrument loop from record `i` on, with `k` allocations
      requested before it: it stops at the first record that does not go
      through, with that record's outcome. */
  function InstrumentRun(found: seq<Found>, pcm: seq<bool>, i: nat, k: nat, grant: nat -> bool): (r: (Import, nat))
    requires AllAgree(found, pcm) && i <= |found|
    ensures r.0 == Okay || r.0 == OutOfMemory || r.0 == ReadPastEnd
    decreases |found| - i
  {
    if i == |found| then (Okay, k)
    else
      var a := Attempt(found[i], pcm[i], k, grant);
      if a.0 != Okay then a else InstrumentRun(found, pcm, i + 1, a.1, grant)
  }

  /** Record `j` is reached: every record before it goes through, with
      the allocations it asks for granted. */
  ghost predicate Reached(found: seq<Found>, j: nat, grant: nat -> bool)
    requires j <= |found|
  {
    Fits(found, j) && Granted(grant, 2 * SampleCount(found, j))
  }

  /** The instrument loop goes through iff no record overruns and every
      sample allocation is granted, and it then has asked for two
      allocations per sample. */
  lemma {:induction false} RunClean(found: seq<Found>, pcm: seq<bool>, i: nat, count: nat, grant: nat -> bool)
    requires AllAgree(found, pcm) && i <= |found|
    requires Scanned(found, i, count) && Granted(grant, 2 * count)
    ensures var r := InstrumentRun(found, pcm, i, 2 * count, grant);
      (r.0 == Okay <==> Reached(found, |found|, grant)) &&
      (r.0 == Okay ==> r.1 == 2 * SampleCount(found, |found|))
    decreases |found| - i
  {
    if i < |found| {
      var a := Attempt(found[i], pcm[i], 2 * count, grant);
      if a.0 != Okay {
        ScanStops(found, i, |found|, 2 * count, count, grant);
      } else {
        ScannedStep(found, i, count);
        if found[i].Sampled? {
          GrantedStep(grant, 2 * count);
          RunClean(found, pcm, i + 1, count + 1, grant);
        } else {
          RunClean(found, pcm, i + 1, count, grant);
        }
      }
    }
  }

  /** A reached record is where the loop stands after the records before
      it, with two allocations asked for per sample among them. */
  lemma {:induction false} RunReaches(found: seq<Found>, pcm: seq<bool>, j: nat, grant: nat -> bool)
    requires AllAgree(found, pcm) && j <= |found| && Reached(found, j, grant)
    ensures InstrumentRun(found, pcm, 0, 0, grant) == InstrumentRun(found, pcm, j, 2 * SampleCount(found, j), grant)
  {
    if j > 0 {
      var k := 2 * SampleCount(found, j - 1);
      SampleCountGrows(found, j - 1, j);
      assert Fits(found, j - 1) by {
        forall m | 0 <= m < j - 1
          ensures !found[m].Overrun?
        {
          assert !found[m].Overrun?;
        }
      }
      RunReaches(found, pcm, j - 1, grant);
      assert !found[j - 1].Overrun?;
      if found[j - 1].Sampled? {
        assert grant(k) && grant(k + 1);
      }
    }
  }

  /** A loop that does not go through stops at a reached record, with
      that record's outcome and allocation count. */
  lemma {:induction false} RunFails(found: seq<Found>, pcm: seq<bool>, i: nat, grant: nat -> bool)
    requires AllAgree(found, pcm) && i <= |found| && Reached(found, i, grant)
    ensures var r := InstrumentRun(found, pcm, i, 2 * SampleCount(found, i), grant);
      r.0 != Okay ==>
        exists j :: i <= j < |found| && Reached(found, j, grant) &&
          r == Attempt(found[j], pcm[j], 2 * SampleCount(found, j), grant)
    decreases |found| - i
  {
    if i < |found| {
      var k := 2 * SampleCount(found, i);
      var a := Attempt(found[i], pcm[i], k, grant);
      if a.0 == Okay {
        ScannedStep(found, i, SampleCount(found, i));
        if found[i].Sampled? {
          GrantedStep(grant, k);
        }
        RunFails(found, pcm, i + 1, grant);
      }
    }
  }

  /** The pattern loop from pattern `i` on, the k-th allocation of the
      import being pattern 0's: it stops at the first refused allocation
      or stream that runs past the end of the input, and otherwise keeps
      the outcome `prior` of the instruments. */
  function PatternRun(input: seq<byte>, channels: nat, l: Limits, grant: nat -> bool, k: nat, i: nat, prior: Import): (r: Import)
    requires |input| >= HeaderSize && Complete(input) && i <= CountsOf(input).patterns
    ensures r == prior || r == OutOfMemory || r == ReadPastEnd
    decreases CountsOf(input).patterns - i
  {
    if i == CountsOf(input).patterns then prior
    else if !grant(k + i) then OutOfMemory
    else if PatternGrid(input, i, channels, l.noteMax, l.blank).None? then ReadPastEnd
    else PatternRun(input, channels, l, grant, k, i + 1, prior)
  }

  /** Pattern `j`'s stream is read past the end of the input: the patterns
      before it fit, and its allocation and theirs are granted. */
  ghost predicate PatternOverrun(input: seq<byte>, channels: nat, l: Limits, grant: nat -> bool, k: nat, j: nat)
    requires |input| >= HeaderSize && Complete(input) && j < CountsOf(input).patterns
  {
    GrantedFrom(grant, k, j + 1) &&
    (forall m :: 0 <= m < j ==> PatternGrid(input, m, channels, l.noteMax, l.blank).Some?) &&
    PatternGrid(input, j, channels, l.noteMax, l.blank).None?
  }

  /** The pattern loop goes through iff the instruments did, every
      pattern allocation is granted and every stream fits. */
  lemma {:induction false} PatternRunClean(input: seq<byte>, channels: nat, l: Limits, grant: nat -> bool, k: nat, i: nat, prior: Import)
    requires |input| >= HeaderSize && Complete(input) && i <= CountsOf(input).patterns
    requires GrantedFrom(grant, k, i)
    requires forall m :: 0 <= m < i ==> PatternGrid(input, m, channels, l.noteMax, l.blank).Some?
    ensures PatternRun(input, channels, l, grant, k, i, prior) == Okay <==>
      prior == Okay && GrantedFrom(grant, k, CountsOf(input).patterns) && PatternsFit(input, channels, l)
    decreases CountsOf(input).patterns - i
  {
    if i < CountsOf(input).patterns && grant(k + i) && PatternGrid(input, i, channels, l.noteMax, l.blank).Some? {
      PatternRunClean(input, channels, l, grant, k, i + 1, prior);
    }
  }

  /** The pattern loop ends past the end of the input iff the instruments
      did or a stream is read past it. */
  lemma {:induction false} PatternRunReadsPast(input: seq<byte>, channels: nat, l: Limits, grant: nat -> bool, k: nat, i: nat, prior: Import)
    requires |input| >= HeaderSize && Complete(input) && i <= CountsOf(input).patterns
    requires GrantedFrom(grant, k, i)
    requires forall m :: 0 <= m < i ==> PatternGrid(input, m, channels, l.noteMax, l.blank).Some?
    ensures PatternRun(input, channels, l, grant, k, i, prior) == ReadPastEnd <==>
      (prior == ReadPastEnd && GrantedFrom(grant, k, CountsOf(input).patterns) && PatternsFit(input, channels, l)) ||
      exists j :: i <= j < CountsOf(input).patterns && PatternOverrun(input, channels, l, grant, k, j)
    decreases CountsOf(input).patterns - i
  {
    var p := CountsOf(input).patterns;
    if i < p {
      if !grant(k + i) {
        forall j | i <= j < p
          ensures !PatternOverrun(input, channels, l, grant, k, j)
        {
        }
      } else if PatternGrid(input, i, channels, l.noteMax, l.blank).None? {
        assert PatternOverrun(input, channels, l, grant, k, i);
      } else {
        PatternRunReadsPast(input, channels, l, grant, k, i + 1, prior);
        assert !PatternOverrun(input, channels, l, grant, k, i);
      }
    }
  }

  /** The instrument loop of an import, over its clamped count of
      records. */
  function InstrumentStage(input: seq<byte>, l: Limits, grant: nat -> bool, toSigned: seq<byte> -> seq<byte>): (r: (Import, nat))
    requires |input| >= HeaderSize && Complete(input)
    ensures r.0 == Okay || r.0 == OutOfMemory || r.0 == ReadPastEnd
  {
    var n := Min(CountsOf(input).instruments, l.instrumentMax);
    SurveyAgrees(input, n, toSigned);
    InstrumentRun(Survey(input, n, toSigned), Pcms(input, n), 0, 0, grant)
  }

  /** The outcome of ImportS3M on a module its length checks accept: the
      instruments, then, unless one of them was read past the end of the
      input, the patterns, whose allocations follow those the instruments
      asked for. */
  function Outcome(input: seq<byte>, l: Limits, grant: nat -> bool, toSigned: seq<byte> -> seq<byte>): (r: Import)
    requires |input| >= HeaderSize && Complete(input)
    ensures r == Okay || r == OutOfMemory || r == ReadPastEnd
  {
    var s := InstrumentStage(input, l, grant, toSigned);
    if s.0 == ReadPastEnd then ReadPastEnd
    else PatternRun(input, ChannelCount(input[64..96]), l, grant, s.1, 0, s.0)
  }

  /** Some read of the import runs past the end of the input: that of a
      reached instrument record or of its granted sample data, or, after
      the instruments, that of a pattern stream. */
  ghost predicate ReadsPast(input: seq<byte>, l: Limits, grant: nat -> bool, toSigned: seq<byte> -> seq<byte>)
    requires |input| >= HeaderSize && Complete(input)
  {
    var n := Min(CountsOf(input).instruments, l.instrumentMax);
    var found := Survey(input, n, toSigned);
    var pcm := Pcms(input, n);
    var s := InstrumentStage(input, l, grant, toSigned);
    (exists j :: 0 <= j < n && Reached(found, j, grant) &&
      Agrees(found[j], pcm[j]) && Attempt(found[j], pcm[j], 2 * SampleCount(found, j), grant).0 == ReadPastEnd) ||
    (s.0 != ReadPastEnd &&
      exists j :: 0 <= j < CountsOf(input).patterns && PatternOverrun(input, ChannelCount(input[64..96]), l, grant, s.1, j))
  }

  /** An import succeeds exactly when it is clean. */
  lemma {:induction false} OutcomeClean(input: seq<byte>, l: Limits, grant: nat -> bool, toSigned: seq<byte> -> seq<byte>)
    requires |input| >= HeaderSize && Complete(input)
    ensures Outcome(input, l, grant, toSigned) == Okay <==> Clean(input, l, grant, toSigned)
  {
    var n := Min(CountsOf(input).instruments, l.instrumentMax);
    var s := InstrumentStage(input, l, grant, toSigned);
    SurveyAgrees(input, n, toSigned);
    RunClean(Survey(input, n, toSigned), Pcms(input, n), 0, 0, grant);
    PatternRunClean(input, ChannelCount(input[64..96]), l, grant, s.1, 0, s.0);
    CleanParts(input, l, grant, toSigned);
  }

  /** An import ends in ReadPastEnd exactly when one of its reads runs
      past the end of the input. */
  lemma {:induction false} OutcomeReadsPast(input: seq<byte>, l: Limits, grant: nat -> bool, toSigned: seq<byte> -> seq<byte>)
    requires |input| >= HeaderSize && Complete(input)
    ensures Outcome(input, l, grant, toSigned) == ReadPastEnd <==> ReadsPast(input, l, grant, toSigned)
  {
    var n := Min(CountsOf(input).instruments, l.instrumentMax);
    var found := Survey(input, n, toSigned);
    var pcm := Pcms(input, n);
    var s := InstrumentStage(input, l, grant, toSigned);
    SurveyAgrees(input, n, toSigned);
    RunFails(found, pcm, 0, grant);
    PatternRunReadsPast(input, ChannelCount(input[64..96]), l, grant, s.1, 0, s.0);
    if s.0 == ReadPastEnd {
      var j :| 0 <= j < n && Reached(found, j, grant) &&
        s == Attempt(found[j], pcm[j], 2 * SampleCount(found, j), grant);
    } else {
      forall j | 0 <= j < n && Reached(found, j, grant)
        ensures Attempt(found[j], pcm[j], 2 * SampleCount(found, j), grant).0 != ReadPastEnd
      {
        RunReaches(found, pcm, j, grant);
      }
    }
  }

  /** The scalar part of a song description. */
  datatype Description = Description(name: seq<byte>, patternCount: nat, pointerCount: nat,
    defaultSpeed: nat, defaultTempo: nat, masterVolume: nat, masterSpeed: nat, masterPitch: nat,
    instrumentCount: nat, channelCount: nat, sampleCount: nat)

  const Cleared := Description([], 0, 0, 0, 0, 0, 0, 0, 0, 0, 0)

  /** The description ImportS3M sets from the header before it reads the
      instruments: the 28-byte name, the pattern count, the clamped order
      and instrument counts, the default speed and tempo, master volume 64,
      master speed and pitch 80, and the enabled channels rounded up to
      even. */
  function Heading(input: seq<byte>, l: Limits): Description
    requires |input| >= HeaderSize
  {
    var c := CountsOf(input);
    Description(input[..28], c.patterns, Min(c.orders, l.pointerSlots), input[49] as nat, input[50] as nat,
      64, 80, 80, Min(c.instruments, l.instrumentMax), ChannelCount(input[64..96]), 0)
  }

  class SongPackage {
    const limits: Limits
    var description: Description
    const patternPointers: array<nat>
    const channelPans: array<nat>
    const channelVolumes: array<nat>
    const instruments: array<InstrData>
    const samples: array<Option<Sample>>
    var partitions: seq<seq<Cell>>

    ghost predicate Valid()
    {
      Sized(limits) &&
      patternPointers.Length == limits.pointerSlots &&
      channelPans.Length == limits.panSlots && channelVolumes.Length == limits.panSlots &&
      instruments.Length == limits.instrumentSlots &&
      samples.Length == Stride(limits.instrumentSlots, limits.sampleMax) &&
      patternPointers != channelPans && patternPointers != channelVolumes && channelPans != channelVolumes
    }

    /** A package holding no song. */
    ghost predicate Empty()
      reads this, patternPointers, channelPans, channelVolumes, instruments, samples
    {
      Blanked() && TablesEmpty()
    }

    /** The song description cleared and no patterns. */
    ghost predicate Blanked()
      reads this
    {
      description == Cleared && partitions == []
    }

    /** Every table entry cleared. */
    ghost predicate TablesEmpty()
      reads patternPointers, channelPans, channelVolumes, instruments, samples
    {
      (forall j :: 0 <= j < patternPointers.Length ==> patternPointers[j] == 0) &&
      (forall j :: 0 <= j < channelPans.Length ==> channelPans[j] == 0) &&
      (forall j :: 0 <= j < channelVolumes.Length ==> channelVolumes[j] == 0) &&
      (forall j :: 0 <= j < instruments.Length ==> instruments[j] == NoInstrument) &&
      (forall j :: 0 <= j < samples.Length ==> samples[j] == None)
    }

    /** The channel tables ImportS3M sets from the header and the order
        table: the clamped orders, zero past them, the default pans and full
        volume. */
    ghost predicate Channels(input: seq<byte>)
      requires |input| >= HeaderSize && Complete(input)
      reads patternPointers, channelPans, channelVolumes
    {
      var o := Min(CountsOf(input).orders, limits.pointerSlots);
      (forall j :: 0 <= j < patternPointers.Length ==>
        patternPointers[j] == if j < o then Orders(input, o)[j] else 0) &&
      (forall j :: 0 <= j < channelPans.Length ==> channelPans[j] == Pan(j, limits.maxPan)) &&
      (forall j :: 0 <= j < channelVolumes.Length ==> channelVolumes[j] == limits.maxVolume)
    }

    /** The instrument and sample tables once the first `n` records found
        are read. */
    ghost predicate Stocked(found: seq<Found>, n: nat)
      requires Valid() && n <= |found|
      reads instruments, samples
    {
      (forall j :: 0 <= j < instruments.Length ==> instruments[j] == InstrumentEntry(found, j, n, limits)) &&
      (forall q :: 0 <= q < samples.Length ==> samples[q] == SampleEntry(found, q, n, limits))
    }

    /** Every pattern of the input read, in order. */
    ghost predicate Patterned(input: seq<byte>, channels: nat)
      requires |input| >= HeaderSize && Complete(input)
      reads this`partitions
    {
      |partitions| == CountsOf(input).patterns &&
      forall i :: 0 <= i < |partitions| ==>
        PatternGrid(input, i, channels, limits.noteMax, limits.blank) == Some(partitions[i])
    }

    /** The package ImportS3M builds from a module it imports in full. */
    ghost predicate Imported(input: seq<byte>, toSigned: seq<byte> -> seq<byte>)
      requires Valid() && |input| >= HeaderSize && Complete(input)
      reads this, patternPointers, channelPans, channelVolumes, instruments, samples
    {
      var n := Min(CountsOf(input).instruments, limits.instrumentMax);
      var found := Survey(input, n, toSigned);
      description == Heading(input, limits).(sampleCount := SampleCount(found, n)) &&
      Channels(input) && Stocked(found, n) && Patterned(input, description.channelCount)
    }

    constructor (limits: Limits)
      requires Sized(limits)
      ensures Valid() && Empty() && this.limits == limits
      ensures fresh(patternPointers) && fresh(channelPans) && fresh(channelVolumes) && fresh(instruments) && fresh(samples)
    {
      this.limits := limits;
      description, partitions := Cleared, [];
      patternPointers := new nat[limits.pointerSlots](_ => 0);
      channelPans := new nat[limits.panSlots](_ => 0);
      channelVolumes := new nat[limits.panSlots](_ => 0);
      instruments := new InstrData[limits.instrumentSlots](_ => NoInstrument);
      StrideIsProduct(limits.instrumentSlots, limits.sampleMax);
      samples := new Option<Sample>[limits.instrumentSlots * limits.sampleMax](_ => None);
    }

    /** Releases the song: the description and every table back to empty. */
    method Shutdown()
      requires Valid()
      modifies this, patternPointers, channelPans, channelVolumes, instruments, samples
      ensures Empty()
    {
      description, partitions := Cleared, [];
      ClearTables();
    }

    /** Clears every table. */
    method ClearTables()
      requires Valid()
      modifies patternPointers, channelPans, channelVolumes, instruments, samples
      ensures TablesEmpty()
    {
      Zero(patternPointers);
      Zero(channelPans);
      Zero(channelVolumes);
      forall j | 0 <= j < instruments.Length {
        instruments[j] := NoInstrument;
      }
      forall j | 0 <= j < samples.Length {
        samples[j] := None;
      }
    }

    /** Gives every instrument slot its first sample slot. */
    method SetBaseSampleIDs()
      requires Valid()
      modifies instruments
      ensures forall j :: 0 <= j < instruments.Length ==>
        instruments[j] == old(instruments[j]).(baseSampleID := Stride(j, limits.sampleMax))
    {
      var i := 0;
      while i < instruments.Length
        invariant i <= instruments.Length
        invariant forall j :: 0 <= j < instruments.Length ==>
          instruments[j] == if j < i then old(instruments[j]).(baseSampleID := Stride(j, limits.sampleMax)) else old(instruments[j])
      {
        StrideIsProduct(i, limits.sampleMax);
        instruments[i] := instruments[i].(baseSampleID := i * limits.sampleMax);
        i := i + 1;
      }
    }

    /** Copies the first `o` orders, each naming a missing pattern made 0. */
    method SetPatternPointers(input: seq<byte>, o: nat)
      requires Valid() && |input| >= HeaderSize && o <= CountsOf(input).orders && HeaderSize + o <= |input|
      requires o <= patternPointers.Length
      modifies patternPointers
      ensures patternPointers[..o] == Orders(input, o)
      ensures forall j :: o <= j < patternPointers.Length ==> patternPointers[j] == old(patternPointers[j])
    {
      var p := U16(input, 36);
      var i := 0;
      while i < o
        invariant i <= o
        invariant forall j :: 0 <= j < i ==> patternPointers[j] == Orders(input, o)[j]
        invariant forall j :: i <= j < patternPointers.Length ==> patternPointers[j] == old(patternPointers[j])
      {
        var order := input[HeaderSize + i] as nat;
        if order >= p {
          order := 0;
        }
        patternPointers[i] := order;
        i := i + 1;
      }
    }

    /** Sets the default pan and the full volume of every channel. */
    method SetPans()
      requires Valid()
      modifies channelPans, channelVolumes
      ensures forall j :: 0 <= j < channelPans.Length ==> channelPans[j] == Pan(j, limits.maxPan)
      ensures forall j :: 0 <= j < channelVolumes.Length ==> channelVolumes[j] == limits.maxVolume
    {
      var i := 0;
      while i < channelPans.Length
        invariant i <= channelPans.Length
        invariant forall j :: 0 <= j < i ==> channelPans[j] == Pan(j, limits.maxPan)
        invariant forall j :: 0 <= j < i ==> channelVolumes[j] == limits.maxVolume
      {
        channelPans[i] := limits.maxPan / 4 + (((i + 1) / 2) % 2) * (limits.maxPan / 2);
        channelVolumes[i] := limits.maxVolume;
        i := i + 1;
      }
    }

    /** Reads instrument record `i`: its name, and when it is an unpacked
        PCM sample, its sample description and data. */
    method ImportInstrument(input: seq<byte>, i: nat, grant: nat -> bool, k: nat, toSigned: seq<byte> -> seq<byte>)
      returns (result: Import, sampled: bool, made: nat)
      requires Valid() && |input| >= HeaderSize && Complete(input)
      requires i < CountsOf(input).instruments && i < limits.instrumentSlots
      modifies instruments, samples
      ensures (result, k + made) == Attempt(Instrument(input, i, toSigned), Allocates(input, i), k, grant)
      ensures var f := Instrument(input, i, toSigned);
        (result == Okay ==> (sampled <==> f.Sampled?)) &&
        (result == Okay ==> instruments[i] == Filled(old(instruments[i]), f, limits)) &&
        (result == Okay && f.Sampled? ==> samples[SampleSlot(i, limits)] == Some(f.sample)) &&
        (result == Okay ==> forall q :: 0 <= q < samples.Length && (q != SampleSlot(i, limits) || !f.Sampled?) ==>
          samples[q] == old(samples[q]))
      ensures forall j :: 0 <= j < instruments.Length && j != i ==> instruments[j] == old(instruments[j])
    {
      ghost var f := Instrument(input, i, toSigned);
      var at := U16(input, HeaderSize + U16(input, 32) + 2 * i) * 16;
      assert at == InstrumentAt(input, i);
      if at + RecordSize > |input| {
        assert f.Overrun? && !Allocates(input, i);
        return ReadPastEnd, false, 0;
      }
      var rec := input[at..at + RecordSize];
      assert Allocates(input, i) == IsPcm(rec);
      instruments[i] := instruments[i].(name := rec[48..76]);
      if !IsPcm(rec) {
        assert f == Plain(rec[48..76]);
        instruments[i] := instruments[i].(numberSamples := 0);
        return Okay, false, 0;
      }
      assert f.Overrun? <==> SampleAt(rec) + Described(rec).size > |input|;
      instruments[i] := instruments[i].(numberSamples := 1, volumeFade := limits.volumeFade);
      result, made := LoadSample(input, rec, SampleSlot(i, limits), grant, k, toSigned);
      sampled := result == Okay;
    }

    /** The sample of a PCM record: a description (allocation k) filled
        from the record, then a copy of the data it points to (allocation
        k + 1), converted to signed; `made` counts the allocations asked
        for, up to the first refusal. */
    method LoadSample(input: seq<byte>, rec: seq<byte>, slot: nat, grant: nat -> bool, k: nat, toSigned: seq<byte> -> seq<byte>)
      returns (result: Import, made: nat)
      requires |input| >= HeaderSize && |rec| == RecordSize && slot < samples.Length
      modifies samples
      ensures result == Okay || result == OutOfMemory || result == ReadPastEnd
      ensures result == OutOfMemory <==> !(grant(k) && grant(k + 1))
      ensures made == if grant(k) then 2 else 1
      ensures var s := Described(rec);
        var from := SampleAt(rec);
        (result == Okay <==> grant(k) && grant(k + 1) && from + s.size <= |input|) &&
        (result == Okay ==>
          samples[slot] == Some(s.(data := Converted(input[from..from + s.size], s.bits, U16(input, 42), toSigned))))
      ensures forall q :: 0 <= q < samples.Length && q != slot ==> samples[q] == old(samples[q])
    {
      var from := SampleAt(rec);
      if !grant(k) {
        samples[slot] := None;
        return OutOfMemory, 1;
      }
      var s := Described(rec);
      samples[slot] := Some(s);
      made := 2;
      if !grant(k + 1) {
        return OutOfMemory, made;
      }
      if from + s.size > |input| {
        return ReadPastEnd, made;
      }
      var buf := new byte[s.size](j requires 0 <= j < s.size => input[from + j]);
      assert buf[..] == input[from..from + s.size];
      var data: seq<byte>;
      var sampleType := U16(input, 42);
      if s.bits == 16 {
        if sampleType != 1 {
          FlipSigns(buf);
        }
        data := buf[..];
      } else {
        data := if sampleType != 1 then toSigned(buf[..]) else buf[..];
      }
      samples[slot] := Some(s.(data := data));
      result := Okay;
    }

    /** Sets the song description and the channel tables from the header
        and the order table, and gives every instrument slot its base
        sample. */
    method Describe(input: seq<byte>, n: nat, o: nat)
      requires Valid() && |input| >= HeaderSize && Complete(input) && TablesEmpty()
      requires n == Min(CountsOf(input).instruments, limits.instrumentMax)
      requires o == Min(CountsOf(input).orders, limits.pointerSlots)
      modifies this, patternPointers, channelPans, channelVolumes, instruments
      ensures description == Heading(input, limits) && partitions == old(partitions)
      ensures Channels(input)
      ensures forall j :: 0 <= j < instruments.Length ==> instruments[j] == Unfilled(j, limits)
    {
      description := Description(input[..28], U16(input, 36), o, input[49] as nat, input[50] as nat,
        64, 80, 80, n, 0, 0);
      SetBaseSampleIDs();
      SetPatternPointers(input, o);
      SetPans();
      var channels := CountChannels(input[64..96]);
      description := description.(channelCount := channels);
    }

    /** Tables holding only the base sample of each instrument hold what
        no record found. */
    lemma StockedAtStart(found: seq<Found>)
      requires Valid()
      requires forall j :: 0 <= j < instruments.Length ==> instruments[j] == Unfilled(j, limits)
      requires forall q :: 0 <= q < samples.Length ==> samples[q] == None
      ensures Stocked(found, 0)
    {
      forall q | 0 <= q < samples.Length
        ensures samples[q] == SampleEntry(found, q, 0, limits)
      {
        match Owner(q, limits.sampleMax)
        case Some(_) =>
        case None =>
      }
    }

    /** Reads record `i` of the first `n`, the tables holding what the
        records before it found, into the tables. */
    method Advance(input: seq<byte>, n: nat, i: nat, grant: nat -> bool, k: nat, toSigned: seq<byte> -> seq<byte>)
      returns (result: Import, sampled: bool, made: nat)
      requires Valid() && |input| >= HeaderSize && Complete(input)
      requires i < n <= CountsOf(input).instruments && n <= limits.instrumentSlots
      requires Stocked(Survey(input, n, toSigned), i)
      modifies instruments, samples
      ensures var found := Survey(input, n, toSigned);
        var pcm := Pcms(input, n);
        Agrees(found[i], pcm[i]) && (result, k + made) == Attempt(found[i], pcm[i], k, grant) &&
        (result == Okay ==> (sampled <==> found[i].Sampled?) && !found[i].Overrun?) &&
        (result == Okay ==> made == if sampled then 2 else 0) &&
        (result == Okay && sampled ==> grant(k) && grant(k + 1))
      ensures result == Okay ==> Stocked(Survey(input, n, toSigned), i + 1)
    {
      ghost var found := Survey(input, n, toSigned);
      SurveyAt(input, n, i, toSigned);
      result, sampled, made := ImportInstrument(input, i, grant, k, toSigned);
      if result == Okay {
        forall q | 0 <= q < samples.Length
          ensures samples[q] == SampleEntry(found, q, i + 1, limits)
        {
          SampleEntryStep(found, i, q, limits);
        }
      }
    }

    /** Reads the first `n` instrument records, stopping at the first that
        does not go through. The k-th allocation is the k-th request: two
        for each PCM record, in order, up to the first refusal; `k` ends
        as the number of requests made. */
    method ImportInstruments(input: seq<byte>, n: nat, grant: nat -> bool, toSigned: seq<byte> -> seq<byte>)
      returns (result: Import, k: nat, count: nat)
      requires Valid() && |input| >= HeaderSize && Complete(input)
      requires n == Min(CountsOf(input).instruments, limits.instrumentMax)
      requires Stocked(Survey(input, n, toSigned), 0)
      modifies instruments, samples
      ensures (result, k) == InstrumentStage(input, limits, grant, toSigned)
      ensures var found := Survey(input, n, toSigned);
        result == Okay ==> k == 2 * count && count == SampleCount(found, n) && Stocked(found, n)
    {
      ghost var found := Survey(input, n, toSigned);
      ghost var pcm := Pcms(input, n);
      SurveyAgrees(input, n, toSigned);
      ghost var stop;
      result, k, count, stop := StockInstruments(input, n, grant, toSigned);
      RunReaches(found, pcm, stop, grant);
    }

    /** The loop of ImportInstruments: it stops at record `stop`, reached,
        with that record's outcome, or goes through every record. */
    method StockInstruments(input: seq<byte>, n: nat, grant: nat -> bool, toSigned: seq<byte> -> seq<byte>)
      returns (result: Import, k: nat, count: nat, ghost stop: nat)
      requires Valid() && |input| >= HeaderSize && Complete(input)
      requires n <= CountsOf(input).instruments && n <= limits.instrumentSlots
      requires Stocked(Survey(input, n, toSigned), 0)
      modifies instruments, samples
      ensures var found := Survey(input, n, toSigned);
        var pcm := Pcms(input, n);
        stop <= n && Reached(found, stop, grant) &&
        (result == Okay ==> stop == n && k == 2 * count && count == SampleCount(found, n) && Stocked(found, n)) &&
        (result != Okay ==>
          stop < n && Agrees(found[stop], pcm[stop]) &&
          (result, k) == Attempt(found[stop], pcm[stop], 2 * SampleCount(found, stop), grant))
    {
      ghost var found := Survey(input, n, toSigned);
      var i := 0;
      k, count := 0, 0;
      while i < n
        invariant i <= n && Scanned(found, i, count) && Granted(grant, k) && k == 2 * count
        invariant Stocked(found, i)
      {
        var sampled, made;
        result, sampled, made := Advance(input, n, i, grant, k, toSigned);
        if result != Okay {
          k, stop := k + made, i;
          return;
        }
        ScannedStep(found, i, count);
        if sampled {
          GrantedStep(grant, k);
          count := count + 1;
        }
        k := k + made;
        i := i + 1;
      }
      result, stop := Okay, n;
    }

    /** Reads the patterns: for each, a new pattern (allocation k + i),
        left blank when its parapointer is 0, else filled from its packed
        rows. */
    method ImportPatterns(input: seq<byte>, channels: nat, grant: nat -> bool, k: nat, prior: Import)
      returns (result: Import)
      requires Valid() && |input| >= HeaderSize && Complete(input) && partitions == []
      requires prior == Okay || prior == OutOfMemory
      modifies this`partitions
      ensures result == PatternRun(input, channels, limits, grant, k, 0, prior)
      ensures result == Okay ==> Patterned(input, channels)
    {
      result := prior;
      var p := U16(input, 36);
      var i := 0;
      while i < p
        invariant i <= p && |partitions| == i && result == prior
        invariant PatternRun(input, channels, limits, grant, k, i, prior) == PatternRun(input, channels, limits, grant, k, 0, prior)
        invariant forall j :: 0 <= j < i ==>
          PatternGrid(input, j, channels, limits.noteMax, limits.blank) == Some(partitions[j])
      {
        if !grant(k + i) {
          return OutOfMemory;
        }
        var grid := ReadPattern(input, i, channels, limits.noteMax, limits.blank);
        if grid.None? {
          return ReadPastEnd;
        }
        partitions := partitions + [grid.value];
        i := i + 1;
      }
    }

    /** The conversion ImportS3M runs once the length checks pass: clamp
        the counts, clear the package, describe the song, read the
        instruments and then the patterns, and clear the package again
        when anything failed. */
    method Convert(input: seq<byte>, grant: nat -> bool, toSigned: seq<byte> -> seq<byte>) returns (result: Import)
      requires Valid() && |input| >= HeaderSize && Complete(input)
      modifies this, patternPointers, channelPans, channelVolumes, instruments, samples
      ensures result == Outcome(input, limits, grant, toSigned)
      ensures result == Okay <==> Clean(input, limits, grant, toSigned)
      ensures result == ReadPastEnd <==> ReadsPast(input, limits, grant, toSigned)
      ensures result == Okay ==> Imported(input, toSigned)
      ensures result == OutOfMemory ==> Empty()
    {
      OutcomeReadsPast(input, limits, grant, toSigned);
      var n := U16(input, 34);
      if n > limits.instrumentMax {
        n := limits.instrumentMax;
      }
      var o := U16(input, 32);
      if o >= limits.pointerSlots {
        o := limits.pointerSlots;
      }
      Shutdown();
      Describe(input, n, o);
      result := Load(input, n, grant, toSigned);
    }

    /** The instruments and then the patterns of a described song, and the
        package cleared again when either failed. */
    method Load(input: seq<byte>, n: nat, grant: nat -> bool, toSigned: seq<byte> -> seq<byte>) returns (result: Import)
      requires Valid() && |input| >= HeaderSize && Complete(input)
      requires n == Min(CountsOf(input).instruments, limits.instrumentMax)
      requires description == Heading(input, limits) && Channels(input) && partitions == []
      requires forall j :: 0 <= j < instruments.Length ==> instruments[j] == Unfilled(j, limits)
      requires forall q :: 0 <= q < samples.Length ==> samples[q] == None
      modifies this, patternPointers, channelPans, channelVolumes, instruments, samples
      ensures result == Outcome(input, limits, grant, toSigned)
      ensures result == Okay <==> Clean(input, limits, grant, toSigned)
      ensures result == Okay ==> Imported(input, toSigned)
      ensures result == OutOfMemory ==> Empty()
    {
      CleanParts(input, limits, grant, toSigned);
      OutcomeClean(input, limits, grant, toSigned);
      StockedAtStart(Survey(input, n, toSigned));
      var channels := description.channelCount;
      var k, count;
      result, k, count := ImportInstruments(input, n, grant, toSigned);
      if result == ReadPastEnd {
        return;
      }
      description := description.(sampleCount := count);
      result := ImportPatterns(input, channels, grant, k, result);
      if result != Okay {
        Shutdown();
      }
    }

    /** ImportS3M: Unknown unless the input holds a header with the 'SCRM'
        signature, Truncation unless the order table, the parapointers and
        the instrument records fit after it, the package untouched in both
        cases; otherwise the conversion. */
    method ImportS3M(input: seq<byte>, grant: nat -> bool, toSigned: seq<byte> -> seq<byte>) returns (result: Import)
      requires Valid()
      modifies this, patternPointers, channelPans, channelVolumes, instruments, samples
      ensures result == Unknown <==> !Recognised(input)
      ensures result == Truncation <==> Recognised(input) && !Complete(input)
      ensures result == Unknown || result == Truncation ==>
        unchanged(this) && unchanged(patternPointers, channelPans, channelVolumes, instruments, samples)
      ensures result == Okay <==> Recognised(input) && Complete(input) && Clean(input, limits, grant, toSigned)
      ensures result == Okay ==> Recognised(input) && Complete(input) && Imported(input, toSigned)
      ensures Recognised(input) && Complete(input) ==> result == Outcome(input, limits, grant, toSigned)
      ensures result == ReadPastEnd <==> Recognised(input) && Complete(input) && ReadsPast(input, limits, grant, toSigned)
      ensures result == OutOfMemory ==> Empty()
    {
      if |input| < HeaderSize || !Spells(input, 44, "SCRM") {
        return Unknown;
      }
      var remaining := |input| - HeaderSize;
      var orders := U16(input, 32);
      if remaining < orders {
        return Truncation;
      }
      remaining := remaining - orders;
      var instrumentCount := U16(input, 34);
      if remaining < instrumentCount * 2 {
        return Truncation;
      }
      remaining := remaining - instrumentCount * 2;
      var patternCount := U16(input, 36);
      if remaining < patternCount * 2 {
        return Truncation;
      }
      remaining := remaining - patternCount * 2;
      if remaining < instrumentCount * 80 {
        return Truncation;
      }
      result := Convert(input, grant, toSigned);
    }
  }
}
