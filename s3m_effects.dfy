// ImportS3MEffect: the translation of one ScreamTracker 3 effect command and
// its argument into the sequencer's effect and argument. S3M numbers its
// commands from 1 for 'A'; the translation switches on the letter.
module S3MEffects {
  newtype byte = x: int | 0 <= x < 256

  /** The sequencer effects the translation produces. */
  datatype Effect = NoEffect | Speed | FastSkip | Skip | SlideVolume | Extended | UpSlide | DownSlide
    | Portamento | Vibrato | Arpeggio | VibratoSlide | PortaSlide | Offset

  /** The letter of an S3M command. */
  function Letter(command: byte): int
  {
    command as int + 0x40
  }

  /** The letters the translation knows. */
  predicate Known(command: byte)
  {
    var c := Letter(command);
    c == 'A' as int || c == 'T' as int || c == 'B' as int || c == 'C' as int || c == 'D' as int ||
    c == 'E' as int || c == 'F' as int || c == 'G' as int || c == 'H' as int || c == 'J' as int ||
    c == 'K' as int || c == 'L' as int || c == 'O' as int || c == 'S' as int
  }

  /** The high nibble of the extended effect for each special ('S')
      subcommand the sequencer has: fine tune, vibrato waveform, tremolo
      waveform, pattern loop, note cut, note delay and pattern delay; 0 for
      the others, which are dropped. */
  function SpecialCode(sub: int): (k: int)
    ensures k in {0, 4, 5, 6, 7, 12, 13, 14}
  {
    if sub == 2 then 5
    else if sub == 3 then 4
    else if sub == 4 then 7
    else if sub == 0xB then 6
    else if sub == 0xC then 12
    else if sub == 0xD then 13
    else if sub == 0xE then 14
    else 0
  }

  /** ImportS3MEffect. The argument is kept as it is for every effect but
      the extended ones, whose high nibble names the sub-effect and whose
      low nibble carries one nibble of the S3M argument; a command the
      translation does not know, or a variant it does not handle, gives no
      effect and a zero argument. */
  function ImportS3MEffect(command: byte, argument: byte): (r: (Effect, byte))
    ensures !Known(command) ==> r == (NoEffect, 0)
    ensures r.0 == NoEffect ==> r.1 == 0
    ensures r.0 != NoEffect && r.0 != Extended ==> r.1 == argument
    ensures r.0 == Extended ==> r.1 % 16 == argument % 16 || r.1 % 16 == argument / 16
    ensures r.0 == SlideVolume ==> argument % 16 == 0 || argument / 16 == 0
  {
    var lo := argument % 16;
    var hi := argument / 16;
    var c := Letter(command);
    if c == 'A' as int || c == 'T' as int then (Speed, argument)
    else if c == 'B' as int then (FastSkip, argument)
    else if c == 'C' as int then (Skip, argument)
    else if c == 'D' as int then
      if lo == 0 || hi == 0 then (SlideVolume, argument)
      else if hi == 0xF then (Extended, lo + (11 * 16))
      else if lo == 0xF then (Extended, hi + (10 * 16))
      else (NoEffect, 0)
    else if c == 'E' as int then
      if hi == 0xF then (Extended, lo + (2 * 16))
      else if hi == 0xE then (NoEffect, 0)
      else (UpSlide, argument)
    else if c == 'F' as int then
      if hi == 0xF then (Extended, lo + (1 * 16))
      else if hi == 0xE then (NoEffect, 0)
      else (DownSlide, argument)
    else if c == 'G' as int then (Portamento, argument)
    else if c == 'H' as int then (Vibrato, argument)
    else if c == 'J' as int then (Arpeggio, argument)
    else if c == 'K' as int then (VibratoSlide, argument)
    else if c == 'L' as int then (PortaSlide, argument)
    else if c == 'O' as int then (Offset, argument)
    else if c == 'S' as int then
      var k := SpecialCode(hi as int);
      if k == 0 then (NoEffect, 0) else (Extended, lo + (k as byte) * 16)
    else (NoEffect, 0)
  }

  /** The command number of a letter. */
  function Command(letter: char): byte
    requires 0x40 <= letter as int < 0x140
  {
    (letter as int - 0x40) as byte
  }

  /** The special subcommand behind an extended high nibble. */
  function SpecialFor(k: int): int
  {
    if k == 5 then 2
    else if k == 4 then 3
    else if k == 7 then 4
    else if k == 6 then 0xB
    else if k == 12 then 0xC
    else if k == 13 then 0xD
    else 0xE
  }

  /** One S3M command and argument that give a sequencer effect: the
      reference encoding of each effect the translation produces. */
  function ExportS3MEffect(e: Effect, argument: byte): (r: (byte, byte))
  {
    var lo := argument % 16;
    var hi := argument / 16;
    match e
    case NoEffect => (0, 0)
    case Speed => (Command('A'), argument)
    case FastSkip => (Command('B'), argument)
    case Skip => (Command('C'), argument)
    case SlideVolume => (Command('D'), argument)
    case Extended =>
      if hi == 11 then (Command('D'), 0xF0 + lo)
      else if hi == 10 then (Command('D'), lo * 16 + 0xF)
      else if hi == 2 then (Command('E'), 0xF0 + lo)
      else if hi == 1 then (Command('F'), 0xF0 + lo)
      else (Command('S'), (SpecialFor(hi as int) * 16) as byte + lo)
    case UpSlide => (Command('E'), argument)
    case DownSlide => (Command('F'), argument)
    case Portamento => (Command('G'), argument)
    case Vibrato => (Command('H'), argument)
    case Arpeggio => (Command('J'), argument)
    case VibratoSlide => (Command('K'), argument)
    case PortaSlide => (Command('L'), argument)
    case Offset => (Command('O'), argument)
  }

  /** Every translated effect has an S3M encoding that translates to it
      again: the translation is consistent with the reference encoding on
      all it produces, so each produced (effect, argument) pair names one
      behaviour. */
  lemma {:induction false} ImportExportRoundTrip(command: byte, argument: byte)
    ensures var r := ImportS3MEffect(command, argument);
      var back := ExportS3MEffect(r.0, r.1);
      ImportS3MEffect(back.0, back.1) == r
  {
    var r := ImportS3MEffect(command, argument);
    var lo := argument % 16;
    var hi := argument / 16;
    if r.0 == Extended {
      var c := Letter(command);
      if c == 'D' as int {
        if hi == 0xF {
          assert r.1 / 16 == 11 && r.1 % 16 == lo;
        } else {
          assert r.1 / 16 == 10 && r.1 % 16 == hi;
        }
      } else if c == 'E' as int {
        assert r.1 / 16 == 2 && r.1 % 16 == lo;
      } else if c == 'F' as int {
        assert r.1 / 16 == 1 && r.1 % 16 == lo;
      } else {
        var k := SpecialCode(hi as int);
        assert r.1 / 16 == k as byte && r.1 % 16 == lo;
        assert SpecialFor(k) == hi as int;
      }
    }
  }

  /** Distinct special subcommands the sequencer handles stay distinct. */
  lemma {:induction false} SpecialCodesDistinct(a: byte, b: byte)
    requires ImportS3MEffect(0x13, a).0 == Extended && ImportS3MEffect(0x13, b).0 == Extended
    requires a != b
    ensures ImportS3MEffect(0x13, a) != ImportS3MEffect(0x13, b)
  {
    var ka, kb := SpecialCode((a / 16) as int), SpecialCode((b / 16) as int);
    if a / 16 != b / 16 {
      assert ka != kb;
    }
  }
}
