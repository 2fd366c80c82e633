// The arithmetic of the Microsoft ADPCM decoder (WAVE format tag 0x0002):
// one channel's predictor state, the 4-bit decoding step with its clamps, the
// block header layouts, and the decoding of a run of packed nibbles.
module AdpcmCodec {

  /** The factor, in 1/256ths, that a 4-bit code scales the step size by. */
  const Adaptation: seq<int> := [230, 230, 230, 230, 307, 409, 512, 614, 768, 614, 512, 409, 307, 230, 230, 230]
  /** The signed value of each 4-bit code. */
  const DeltaCode: seq<int> := [0, 1, 2, 3, 4, 5, 6, 7, -8, -7, -6, -5, -4, -3, -2, -1]
  /** The seven predictor coefficient pairs a block header selects from. */
  const Coef1: seq<int> := [256, 512, 0, 192, 240, 460, 392]
  const Coef2: seq<int> := [0, -256, 0, 64, 0, -208, -232]

  /** A byte of the compressed stream or of the output buffer. */
  newtype byte = x: int | 0 <= x < 256

  /** A value that fits a signed 16-bit sample. */
  type Sample16 = v: int | -32768 <= v <= 32767

  /** A 32-bit signed multiply or add as the machine does it: the result
      wraps around modulo 2^32 into [-2^31, 2^31). */
  function Wrap32(x: int): (r: int)
    ensures -0x8000_0000 <= r < 0x8000_0000
    ensures -0x8000_0000 <= x < 0x8000_0000 ==> r == x
  {
    (x + 0x8000_0000) % 0x1_0000_0000 - 0x8000_0000
  }

  /** An arithmetic right shift by 8: division by 256 rounding down, also
      for negative values. */
  function Shr8(x: int): (r: int)
    ensures r * 256 <= x < r * 256 + 256
  {
    x / 256
  }

  /** The output clamp: values above 32767 become 32767, values at or below
      -32768 become -32768, the rest pass unchanged. */
  function Clamp16(v: int): (r: Sample16)
    ensures -32768 <= v <= 32767 ==> r == v
    ensures v > 32767 ==> r == 32767
    ensures v < -32768 ==> r == -32768
  {
    if v > 32767 then 32767 else if v <= -32768 then -32768 else v
  }

  /** The state of one channel's decoder: the two predictor coefficients, the
      adaptive step size (`index`) and the last two samples, oldest first. */
  datatype Channel = Channel(coef1: int, coef2: int, index: int, first: Sample16, second: Sample16)

  /** The prediction from the last two samples, in 32-bit arithmetic. */
  function Predict(s: Channel): int
  {
    Shr8(Wrap32(Wrap32(s.second * s.coef1) + Wrap32(s.first * s.coef2)))
  }

  /** Whether the coefficients are a pair from the tables. */
  predicate Tabled(s: Channel)
  {
    exists k :: 0 <= k < 7 && s.coef1 == Coef1[k] && s.coef2 == Coef2[k]
  }

  /** One decoding step for the 4-bit code held in the low bits of `code`:
      the new step size is the old one scaled by the code's factor, never
      below 16; the sample is the prediction plus the code's value times the
      old step size, clamped to 16 bits; the history shifts by one. */
  function Decode(s: Channel, code: nat): (r: (Channel, Sample16))
    ensures r.0.coef1 == s.coef1 && r.0.coef2 == s.coef2
    ensures r.0.first == s.second && r.0.second == r.1
    ensures 16 <= r.0.index < 0x80_0000
  {
    var c := code % 16;
    var scaled := Shr8(Wrap32(Adaptation[c] * s.index));
    var v := Clamp16(Wrap32(Wrap32(DeltaCode[c] * s.index) + Predict(s)));
    (Channel(s.coef1, s.coef2, if scaled < 16 then 16 else scaled, s.second, v), v)
  }

  /** With table coefficients, 16-bit history and a step size whose products
      stay within 32 bits, Decode is exact arithmetic: the new step size is
      max(16, factor * index / 256) and the sample is the clamped sum of the
      code's value times the step size and the prediction. */
  lemma {:induction false} DecodeExact(s: Channel, code: nat)
    requires Tabled(s) && -0x20_0000 <= s.index < 0x20_0000
    ensures var c := code % 16;
      var r := Decode(s, code);
      r.0.index == (if Adaptation[c] * s.index / 256 < 16 then 16 else Adaptation[c] * s.index / 256) &&
      r.1 == Clamp16(DeltaCode[c] * s.index + (s.second * s.coef1 + s.first * s.coef2) / 256)
  {
    var c := code % 16;
    var k :| 0 <= k < 7 && s.coef1 == Coef1[k] && s.coef2 == Coef2[k];
    assert -512 <= s.coef1 <= 512 && -512 <= s.coef2 <= 512;
    ProductBound(s.second, s.coef1, 32768, 512);
    ProductBound(s.first, s.coef2, 32768, 512);
    assert 0 <= Adaptation[c] <= 768 && -8 <= DeltaCode[c] <= 7;
    ProductBound(Adaptation[c], s.index, 768, 0x20_0000);
    ProductBound(DeltaCode[c], s.index, 8, 0x20_0000);
    assert Predict(s) == (s.second * s.coef1 + s.first * s.coef2) / 256;
  }

  /** |a * b| <= m * n when |a| <= m and |b| <= n. */
  lemma {:induction false} ProductBound(a: int, b: int, m: int, n: int)
    requires 0 <= m && 0 <= n && -m <= a <= m && -n <= b <= n
    ensures -(m * n) <= a * b <= m * n
  {
    if a >= 0 && b >= 0 {
      assert a * b <= m * b <= m * n;
    } else if a >= 0 {
      assert a * b >= a * -n >= m * -n;
    } else if b >= 0 {
      assert a * b >= -m * b >= -m * n;
    } else {
      assert a * b == (-a) * (-b) <= m * (-b) <= m * n;
    }
  }

  /** The signed 16-bit little-endian value at `b[i..i+2]`. */
  function Int16At(b: seq<byte>, i: nat): Sample16
    requires i + 1 < |b|
  {
    var u := b[i] as int + 256 * b[i + 1] as int;
    if u >= 32768 then u - 65536 else u
  }

  /** The two bytes of a 16-bit sample as it is stored in memory (the model
      takes the host to be little-endian). */
  function Le16(v: Sample16): (b: seq<byte>)
    ensures |b| == 2
  {
    var u := if v < 0 then v + 65536 else v;
    [(u % 256) as byte, (u / 256) as byte]
  }

  /** Reading back a stored sample gives the sample. */
  lemma {:induction false} Le16RoundTrip(v: Sample16, b: seq<byte>, i: nat)
    requires i + 1 < |b| && b[i..i + 2] == Le16(v)
    ensures Int16At(b, i) == v
  {
    assert b[i] == b[i..i + 2][0] && b[i + 1] == b[i..i + 2][1];
  }

  /** The bytes of a run of samples, in order. */
  function Bytes(vs: seq<Sample16>): (b: seq<byte>)
    ensures |b| == 2 * |vs|
  {
    if vs == [] then [] else Bytes(vs[..|vs| - 1]) + Le16(vs[|vs| - 1])
  }

  /** Bytes distributes over concatenation. */
  lemma {:induction false} BytesConcat(a: seq<Sample16>, b: seq<Sample16>)
    ensures Bytes(a + b) == Bytes(a) + Bytes(b)
    decreases |b|
  {
    if b == [] {
      assert a + b == a;
    } else {
      var b' := b[..|b| - 1];
      assert (a + b)[..|a + b| - 1] == a + b';
      BytesConcat(a, b');
    }
  }

  /** The coefficient pair a header byte selects: values 7 and above are
      taken as 6, the last table entry. */
  function Selector(b: byte): (k: nat)
    ensures k < 7 && (b < 7 ==> k == b as nat) && (b >= 7 ==> k == 6)
  {
    if b >= 7 then 6 else b as nat
  }

  /** SetMonoDecoder: the 7-byte mono header is the selector byte, then the
      step size, the second sample and the first sample, each 16 bits. */
  function MonoHeader(b: seq<byte>): (c: Channel)
    requires |b| >= 7
    ensures Tabled(c)
  {
    var k := Selector(b[0]);
    Channel(Coef1[k], Coef2[k], Int16At(b, 1), Int16At(b, 5), Int16At(b, 3))
  }

  /** SetStereoDecoder: the 14-byte stereo header is the two selector bytes,
      then each of the step size, the second sample and the first sample for
      the left channel followed by the right, 16 bits each. */
  function StereoHeader(b: seq<byte>): (r: (Channel, Channel))
    requires |b| >= 14
    ensures Tabled(r.0) && Tabled(r.1)
  {
    var k0, k1 := Selector(b[0]), Selector(b[1]);
    (Channel(Coef1[k0], Coef2[k0], Int16At(b, 2), Int16At(b, 10), Int16At(b, 6)),
     Channel(Coef1[k1], Coef2[k1], Int16At(b, 4), Int16At(b, 12), Int16At(b, 8)))
  }

  /** The mono header an encoder writes for coefficient pair `k`. */
  function MonoHeaderBytes(k: nat, index: Sample16, first: Sample16, second: Sample16): seq<byte>
    requires k < 7
  {
    [k as byte] + Le16(index) + Le16(second) + Le16(first)
  }

  /** Reading a written mono header gives back what was written. */
  lemma {:induction false} MonoHeaderRoundTrip(k: nat, index: Sample16, first: Sample16, second: Sample16)
    requires k < 7
    ensures MonoHeader(MonoHeaderBytes(k, index, first, second)) == Channel(Coef1[k], Coef2[k], index, first, second)
  {
    var b := MonoHeaderBytes(k, index, first, second);
    Le16RoundTrip(index, b, 1);
    Le16RoundTrip(second, b, 3);
    Le16RoundTrip(first, b, 5);
  }

  /** The stereo header an encoder writes for two channels. */
  function StereoHeaderBytes(k0: nat, k1: nat, l: Channel, r: Channel): seq<byte>
    requires k0 < 7 && k1 < 7
    requires -32768 <= l.index <= 32767 && -32768 <= r.index <= 32767
  {
    [k0 as byte, k1 as byte] + Le16(l.index) + Le16(r.index) + Le16(l.second) + Le16(r.second) +
    Le16(l.first) + Le16(r.first)
  }

  /** Reading a written stereo header gives back both channels. */
  lemma {:induction false} StereoHeaderRoundTrip(k0: nat, k1: nat, l: Channel, r: Channel)
    requires k0 < 7 && k1 < 7
    requires -32768 <= l.index <= 32767 && -32768 <= r.index <= 32767
    ensures StereoHeader(StereoHeaderBytes(k0, k1, l, r)) ==
      (l.(coef1 := Coef1[k0], coef2 := Coef2[k0]), r.(coef1 := Coef1[k1], coef2 := Coef2[k1]))
  {
    var b := StereoHeaderBytes(k0, k1, l, r);
    Le16RoundTrip(l.index, b, 2);
    Le16RoundTrip(r.index, b, 4);
    Le16RoundTrip(l.second, b, 6);
    Le16RoundTrip(r.second, b, 8);
    Le16RoundTrip(l.first, b, 10);
    Le16RoundTrip(r.first, b, 12);
  }

  /** Decoding a run of bytes with a per-byte step that yields two samples:
      the samples of each byte follow those of the bytes before it. */
  function Scan<S>(step: (S, byte) -> (S, Sample16, Sample16), s: S, bs: seq<byte>): (r: (S, seq<Sample16>))
    ensures |r.1| == 2 * |bs|
    decreases |bs|
  {
    if bs == [] then (s, [])
    else
      var p := Scan(step, s, bs[..|bs| - 1]);
      var m := step(p.0, bs[|bs| - 1]);
      (m.0, p.1 + [m.1, m.2])
  }

  /** Decoding two runs one after the other is decoding them joined. */
  lemma {:induction false} ScanConcat<S>(step: (S, byte) -> (S, Sample16, Sample16), s: S, a: seq<byte>, b: seq<byte>)
    ensures var p := Scan(step, s, a); var q := Scan(step, p.0, b);
      Scan(step, s, a + b) == (q.0, p.1 + q.1)
    decreases |b|
  {
    var p := Scan(step, s, a);
    if b == [] {
      assert a + b == a;
      assert p.1 + [] == p.1;
    } else {
      var b' := b[..|b| - 1];
      SplitLast(a, b);
      ScanConcat(step, s, a, b');
      var q' := Scan(step, p.0, b');
      var m := step(q'.0, b[|b| - 1]);
      assert (p.1 + q'.1) + [m.1, m.2] == p.1 + (q'.1 + [m.1, m.2]);
    }
  }

  /** Dropping the last element of a joined sequence drops it from the
      second part. */
  lemma SplitLast<T>(a: seq<T>, b: seq<T>)
    requires b != []
    ensures (a + b)[..|a + b| - 1] == a + b[..|b| - 1] && (a + b)[|a + b| - 1] == b[|b| - 1]
  {
    assert (a + b)[..|a + b| - 1] == a + b[..|b| - 1];
  }

  /** One byte of mono data: two samples from the one channel, high nibble
      first. */
  function MonoByte(c: Channel, b: byte): (r: (Channel, Sample16, Sample16))
    ensures r.0.second == r.2 && r.0.first == r.1 && 16 <= r.0.index
    ensures r.0.coef1 == c.coef1 && r.0.coef2 == c.coef2
  {
    var x := Decode(c, (b / 16) as nat);
    var y := Decode(x.0, b as nat);
    (y.0, x.1, y.1)
  }

  /** One byte of stereo data: the high nibble is the left channel's next
      sample, the low nibble the right channel's. */
  function StereoByte(lr: (Channel, Channel), b: byte): (r: ((Channel, Channel), Sample16, Sample16))
    ensures r.0.0.second == r.1 && r.0.1.second == r.2
    ensures r.0.0.coef1 == lr.0.coef1 && r.0.0.coef2 == lr.0.coef2
    ensures r.0.1.coef1 == lr.1.coef1 && r.0.1.coef2 == lr.1.coef2
  {
    var x := Decode(lr.0, (b / 16) as nat);
    var y := Decode(lr.1, b as nat);
    ((x.0, y.0), x.1, y.1)
  }

  /** In stereo the two channels never mix: the left channel's state and
      samples depend only on its own start state and the high nibbles. */
  lemma {:induction false} StereoChannelsIndependent(l: Channel, r: Channel, r': Channel, bs: seq<byte>)
    ensures Scan(StereoByte, (l, r), bs).0.0 == Scan(StereoByte, (l, r'), bs).0.0
    ensures forall i :: 0 <= i < |bs| ==> Scan(StereoByte, (l, r), bs).1[2 * i] == Scan(StereoByte, (l, r'), bs).1[2 * i]
    decreases |bs|
  {
    if bs != [] {
      var bs' := bs[..|bs| - 1];
      StereoChannelsIndependent(l, r, r', bs');
      var p, p' := Scan(StereoByte, (l, r), bs'), Scan(StereoByte, (l, r'), bs');
      forall i | 0 <= i < |bs|
        ensures Scan(StereoByte, (l, r), bs).1[2 * i] == Scan(StereoByte, (l, r'), bs).1[2 * i]
      {
        if i < |bs'| {
          assert Scan(StereoByte, (l, r), bs).1[2 * i] == p.1[2 * i];
          assert Scan(StereoByte, (l, r'), bs).1[2 * i] == p'.1[2 * i];
        }
      }
    }
  }
}
