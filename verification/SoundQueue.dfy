/** The sound queue: a ring of bytes that holds whole hardware frames, and the conversion of samples. */
module SoundQueue {
  import opened Modular

  type Byte = b: nat | b < 0x100

  const SOUND_HW_CHANNELS: nat := 2

  datatype WriteFormat = Unsigned8 | Signed16 | Signed24

  datatype HwFormat = HwSigned16 | HwSigned24 | HwUnsigned32

  /** The hardware and the format of what is written. rangeMax matters for HwUnsigned32 only. */
  datatype Setup = Setup(hw: HwFormat, write: WriteFormat, channels: nat, swap: bool, rangeMax: nat)
  {
    predicate Valid() {
      && 1 <= channels <= 2 && 0 < rangeMax < 0x8000_0000
    }

    function HwSampleSize(): nat {
      if hw == HwSigned16 then 2 else 4
    }

    function HwFrameSize(): nat {
      SOUND_HW_CHANNELS * HwSampleSize()
    }

    function WriteSampleSize(): nat {
      match write case Unsigned8 => 1 case Signed16 => 2 case Signed24 => 3
    }

    function WriteFrameSize(): (n: nat)
      ensures Valid() ==> n > 0
    {
      channels * WriteSampleSize()
    }
  }

  // ---------------------------------------------------------------- samples

  /** A sample that was written, as a signed 32-bit number; bytes come in little endian order. */
  function Decoded(write: WriteFormat, s: seq<Byte>): (v: int)
    requires |s| == (match write case Unsigned8 => 1 case Signed16 => 2 case Signed24 => 3)
    ensures -0x8000_0000 <= v < 0x8000_0000
  {
    match write
    case Unsigned8 => (s[0] - 128) * 0x100_0000
    case Signed16 => (var x := s[0] as int + 0x100 * (s[1] as int); (if x >= 0x8000 then x - 0x1_0000 else x) * 0x1_0000)
    case Signed24 => (var x := s[0] as int + 0x100 * (s[1] as int) + 0x1_0000 * (s[2] as int); (if x >= 0x80_0000 then x - 0x100_0000 else x) * 0x100)
  }

  /** The number that the hardware gets for it, as an unsigned 16-bit or 32-bit number. */
  function HwSample(hw: HwFormat, rangeMax: nat, v: int): int
    requires -0x8000_0000 <= v
  {
    match hw
    case HwSigned16 => (v / 0x1_0000) % 0x1_0000
    case HwSigned24 => (v / 0x100) % 0x1_0000_0000
    case HwUnsigned32 => Span(rangeMax, v + 0x8000_0000) / 0x1_0000_0000
  }

  /** Every sample of pulse width hardware lies in its range, whose last value it never reaches. */
  lemma SampleInRange(rangeMax: nat, v: int)
    requires -0x8000_0000 <= v < 0x8000_0000 && 0 < rangeMax < 0x8000_0000
    ensures 0 <= HwSample(HwUnsigned32, rangeMax, v) < rangeMax
  {
    SpanIsProduct(rangeMax, v + 0x8000_0000);
    ScaledBelow(v + 0x8000_0000, 0x1_0000_0000, rangeMax);
    QuotientBelow(rangeMax * (v + 0x8000_0000), 0x1_0000_0000, rangeMax);
  }

  lemma ScaledBelow(x: nat, n: nat, r: nat)
    requires x < n && r > 0
    ensures 0 <= r * x < n * r
  {
    assert n * r == x * r + (n - x) * r;
  }

  lemma HwSampleFits(hw: HwFormat, rangeMax: nat, v: int)
    requires -0x8000_0000 <= v < 0x8000_0000 && 0 < rangeMax < 0x8000_0000
    ensures 0 <= HwSample(hw, rangeMax, v) < if hw == HwSigned16 then 0x1_0000 else 0x1_0000_0000
  {
    if hw == HwUnsigned32 {
      SampleInRange(rangeMax, v);
    }
  }

  function Bytes(x: nat, size: nat): (s: seq<Byte>)
    ensures |s| == size
  {
    if size == 0 then [] else [x % 0x100] + Bytes(x / 0x100, size - 1)
  }

  function Converted(p: Setup, s: seq<Byte>): (r: seq<Byte>)
    requires p.Valid() && |s| == p.WriteSampleSize()
    ensures |r| == p.HwSampleSize()
  {
    var v := Decoded(p.write, s);
    HwSampleFits(p.hw, p.rangeMax, v);
    Bytes(HwSample(p.hw, p.rangeMax, v), p.HwSampleSize())
  }

  /** A frame for the hardware: both channels, or one channel twice, swapped if the hardware wants it so. */
  function ConvertedFrame(p: Setup, s: seq<Byte>): (r: seq<Byte>)
    requires p.Valid() && |s| == p.WriteFrameSize()
    ensures |r| == p.HwFrameSize()
  {
    var first := Converted(p, s[..p.WriteSampleSize()]);
    var second := if p.channels == 2 then Converted(p, s[p.WriteSampleSize()..]) else first;
    if p.swap then second + first else first + second
  }

  /** The first k frames of what was written, converted. */
  function ConvertedFrames(p: Setup, s: seq<Byte>, k: nat): (r: seq<Byte>)
    requires p.Valid() && Span(k, p.WriteFrameSize()) <= |s|
    ensures |r| == Span(k, p.HwFrameSize())
  {
    if k == 0 then []
    else
      var n := p.WriteFrameSize();
      ConvertedFrames(p, s, k - 1) + ConvertedFrame(p, s[Span(k - 1, n)..Span(k, n)])
  }

  /** 16-bit samples go through the conversion unchanged, so the fast path does the same as the slow one. */
  lemma SameFormat(p: Setup, s: seq<Byte>)
    requires p.Valid() && p.hw == HwSigned16 && p.write == Signed16 && |s| == 2
    ensures Converted(p, s) == s
  {
    var x := s[0] as int + 0x100 * (s[1] as int);
    assert HwSample(HwSigned16, p.rangeMax, Decoded(Signed16, s)) == x;
    assert x % 0x100 == s[0] && x / 0x100 == s[1];
    assert Bytes(x, 2) == [s[0]] + Bytes(s[1], 1);
    assert Bytes(s[1], 1) == [s[1]];
  }

  lemma SameFrame(p: Setup, s: seq<Byte>)
    requires p.Valid() && p.hw == HwSigned16 && p.write == Signed16 && p.channels == 2 && !p.swap && |s| == 4
    ensures ConvertedFrame(p, s) == s
  {
    SameFormat(p, s[..2]);
    SameFormat(p, s[2..]);
  }

  lemma OneMoreFrame(p: Setup, s: seq<Byte>, k: nat, a: nat, b: nat)
    requires p.Valid() && k > 0 && a == Span(k - 1, p.WriteFrameSize()) && b == Span(k, p.WriteFrameSize()) <= |s|
    ensures ConvertedFrames(p, s, k) == ConvertedFrames(p, s, k - 1) + ConvertedFrame(p, s[a..b])
  {
  }

  lemma TakeMore(s: seq<Byte>, a: nat, b: nat)
    requires a <= b <= |s|
    ensures s[..a] + s[a..b] == s[..b]
  {
  }

  lemma {:induction false} FastPathConverts(p: Setup, s: seq<Byte>, k: nat)
    requires p.Valid() && p.hw == HwSigned16 && p.write == Signed16 && p.channels == 2 && !p.swap && Span(k, 4) <= |s|
    ensures ConvertedFrames(p, s, k) == s[..Span(k, 4)]
  {
    if k > 0 {
      var a, b := Span(k - 1, 4), Span(k, 4);
      FastPathConverts(p, s, k - 1);
      SameFrame(p, s[a..b]);
      OneMoreFrame(p, s, k, a, b);
      TakeMore(s, a, b);
    }
  }

  // ---------------------------------------------------------------- what the hardware hears

  /** The number in little endian bytes. */
  function Number(s: seq<Byte>): (n: nat) {
    if s == [] then 0 else s[0] + 0x100 * Number(s[1..])
  }

  function Power256(k: nat): nat {
    if k == 0 then 1 else 0x100 * Power256(k - 1)
  }

  lemma {:induction false} NumberOfBytes(x: nat, size: nat)
    requires x < Power256(size)
    ensures Number(Bytes(x, size)) == x
  {
    if size > 0 {
      NumberOfBytes(x / 0x100, size - 1);
      assert Bytes(x, size)[1..] == Bytes(x / 0x100, size - 1);
    }
  }

  lemma NumberOfConverted(p: Setup, s: seq<Byte>)
    requires p.Valid() && |s| == p.WriteSampleSize()
    ensures var v := Decoded(p.write, s);
            HwSample(p.hw, p.rangeMax, v) >= 0 && Number(Converted(p, s)) == HwSample(p.hw, p.rangeMax, v)
  {
    hide Decoded, HwSample, Bytes, Number;
    var v := Decoded(p.write, s);
    HwSampleFits(p.hw, p.rangeMax, v);
    assert Power256(2) == 0x1_0000 && Power256(4) == 0x1_0000_0000;
    NumberOfBytes(HwSample(p.hw, p.rangeMax, v), p.HwSampleSize());
  }

  function Signed(x: nat, range: nat): int {
    if x < range / 2 then x else x - range
  }

  /** What 16-bit hardware gets: the upper half of the sample. */
  lemma UpperHalf(v: int)
    requires -0x8000_0000 <= v < 0x8000_0000
    ensures Signed((v / 0x1_0000) % 0x1_0000, 0x1_0000) == v / 0x1_0000
  {
  }

  lemma Upper24(v: int)
    requires -0x8000_0000 <= v < 0x8000_0000
    ensures Signed((v / 0x100) % 0x1_0000_0000, 0x1_0000_0000) == v / 0x100
  {
  }

  lemma DecodedIsMultiple(write: WriteFormat, s: seq<Byte>)
    requires |s| == (match write case Unsigned8 => 1 case Signed16 => 2 case Signed24 => 3)
    ensures Decoded(write, s) % 0x100 == 0 && (write != Signed24 ==> Decoded(write, s) % 0x1_0000 == 0)
  {
    hide Span;
  }

  /**
    * A sample on its way to the hardware keeps its value as far as the hardware can tell: the signed
    * formats get its highest bits, which are all of them if they are as wide as what was written, and
    * pulse width hardware gets its position in the range, rounded down.
    */
  lemma SampleKept(p: Setup, s: seq<Byte>)
    requires p.Valid() && |s| == p.WriteSampleSize()
    ensures var v, x := Decoded(p.write, s), Number(Converted(p, s));
            match p.hw
            case HwSigned16 => && 0 <= v - Signed(x, 0x1_0000) * 0x1_0000 < 0x1_0000
                               && (p.write != Signed24 ==> v == Signed(x, 0x1_0000) * 0x1_0000)
            case HwSigned24 => v == Signed(x, 0x1_0000_0000) * 0x100
            case HwUnsigned32 => 0 <= p.rangeMax * (v + 0x8000_0000) - x * 0x1_0000_0000 < 0x1_0000_0000
  {
    hide Number, Converted, Bytes, Span, Decoded, Signed;
    var v := Decoded(p.write, s);
    NumberOfConverted(p, s);
    DecodedIsMultiple(p.write, s);
    match p.hw
    case HwSigned16 => UpperHalf(v);
    case HwSigned24 => Upper24(v);
    case HwUnsigned32 => SpanIsProduct(p.rangeMax, v + 0x8000_0000);
  }

  /** Each channel gets what was written for it, or for the other one if the hardware swaps them; one channel counts for both. */
  lemma ChannelKept(p: Setup, frame: seq<Byte>, c: nat)
    requires p.Valid() && c < 2 && |frame| == p.WriteFrameSize()
    ensures var (out, n, w) := (ConvertedFrame(p, frame), p.HwSampleSize(), p.WriteSampleSize());
            (if (c == 0) != p.swap then out[..n] else out[n..])
            == Converted(p, if c == 0 || p.channels == 1 then frame[..w] else frame[w..])
  {
    hide Converted;
  }

  /** A common factor does not matter. */
  lemma Cancelled(x: nat, m: nat, k: nat)
    requires m > 0 && k > 0
    ensures m * k > 0 && x * k / (m * k) == x / m
  {
    var q, r := x / m, x % m;
    assert x == q * m + r;
    assert x * k == (q * m) * k + r * k;
    assert (q * m) * k == q * (m * k);
    ScaledBelow(r, m, k);
    assert k * r == r * k;
    DivisionUnique(x * k, q, r * k, m * k);
  }

  lemma TwoBytes(x: nat, a: Byte, b: Byte)
    requires x == a + 0x100 * b
    ensures Bytes(x, 2) == [a, b]
  {
    assert x % 0x100 == a && x / 0x100 == b;
    assert Bytes(x, 2) == [a] + Bytes(b, 1) && Bytes(b, 1) == [b];
  }

  lemma FourBytes(x: nat, a: Byte, b: Byte, c: Byte, d: Byte)
    requires x == a + 0x100 * b + 0x1_0000 * c + 0x100_0000 * d
    ensures Bytes(x, 4) == [a, b, c, d]
  {
    var y := b + 0x100 * c + 0x1_0000 * d;
    assert x % 0x100 == a && x / 0x100 == y;
    assert y % 0x100 == b && y / 0x100 == c + 0x100 * d;
    TwoBytes(c + 0x100 * d, c, d);
    assert Bytes(x, 4) == [a] + Bytes(y, 3) && Bytes(y, 3) == [b] + Bytes(c + 0x100 * d, 2);
  }

  /** The upper 16 bits, and the upper 24 bits with their sign, of the 32-bit sample v with the bytes z, a, b and c. */
  lemma UpperBytes(z: Byte, a: Byte, b: Byte, c: Byte, v: int)
    requires v == z + 0x100 * a + 0x1_0000 * b + 0x100_0000 * (if c >= 0x80 then c - 0x100 else c as int)
    ensures (v / 0x1_0000) % 0x1_0000 == b + 0x100 * c
    ensures (v / 0x100) % 0x1_0000_0000 == a + 0x100 * b + 0x1_0000 * c + if c >= 0x80 then 0xFF00_0000 else 0
    ensures v + 0x8000_0000 == z + 0x100 * a + 0x1_0000 * b + 0x100_0000 * ((c + 0x80) % 0x100)
  {
    var top := b + 0x100 * if c >= 0x80 then c - 0x100 else c as int;
    DivisionUnique(v, top, z + 0x100 * a, 0x1_0000);
    DivisionUnique(v, a + 0x100 * top, z, 0x100);
  }

  /** What becomes of a sample with these bytes. */
  lemma BytesOut(p: Setup, s: seq<Byte>, z: Byte, a: Byte, b: Byte, c: Byte)
    requires p.Valid() && |s| == p.WriteSampleSize()
    requires Decoded(p.write, s) == z + 0x100 * a + 0x1_0000 * b + 0x100_0000 * (if c >= 0x80 then c - 0x100 else c as int)
    ensures p.hw == HwSigned16 ==> Converted(p, s) == [b, c]
    ensures p.hw == HwSigned24 ==> Converted(p, s) == [a, b, c, if c >= 0x80 then 0xFF else 0]
    ensures p.hw == HwUnsigned32 ==>
              Number(Converted(p, s)) == p.rangeMax * (z + 0x100 * a + 0x1_0000 * b + 0x100_0000 * ((c + 0x80) % 0x100)) / 0x1_0000_0000
  {
    hide Bytes, Span, Decoded;
    var v := Decoded(p.write, s);
    UpperBytes(z, a, b, c, v);
    match p.hw
    case HwSigned16 => TwoBytes(b + 0x100 * c, b, c);
    case HwSigned24 => FourBytes((v / 0x100) % 0x1_0000_0000, a, b, c, if c >= 0x80 then 0xFF else 0);
    case HwUnsigned32 =>
      NumberOfConverted(p, s);
      SpanIsProduct(p.rangeMax, v + 0x8000_0000);
  }

  /** The top byte of the signed sample for an 8-bit one. */
  lemma TopByte(b: Byte) returns (c: Byte)
    ensures c == (b + 128) % 256 && (c >= 0x80 <==> b < 128) && (c + 0x80) % 0x100 == b
    ensures b - 128 == if c >= 0x80 then c - 0x100 else c as int
  {
    c := if b < 128 then b + 128 else b - 128;
  }

  /** An 8-bit sample, of which 128 is silence: what each hardware gets. */
  lemma Unsigned8Sample(p: Setup, b: Byte)
    requires p.Valid() && p.write == Unsigned8
    ensures p.hw == HwSigned16 ==> Converted(p, [b]) == [0, (b + 128) % 256]
    ensures p.hw == HwSigned24 ==> Converted(p, [b]) == [0, 0, (b + 128) % 256, if b < 128 then 0xFF else 0]
    ensures p.hw == HwUnsigned32 ==> Number(Converted(p, [b])) == p.rangeMax * b / 0x100
  {
    hide Converted, Number;
    var c := TopByte(b);
    assert Decoded(Unsigned8, [b]) == 0x100_0000 * if c >= 0x80 then c - 0x100 else c as int by {
      assert Decoded(Unsigned8, [b]) == (b - 128) * 0x100_0000;
    }
    hide Decoded;
    BytesOut(p, [b], 0, 0, 0, c);
    Scaled(p.rangeMax, b, 0x100, 0x100_0000);
  }

  /** A signed 16-bit sample with the bytes a and b. */
  lemma Signed16Sample(p: Setup, a: Byte, b: Byte)
    requires p.Valid() && p.write == Signed16
    ensures p.hw == HwSigned16 ==> Converted(p, [a, b]) == [a, b]
    ensures p.hw == HwSigned24 ==> Converted(p, [a, b]) == [0, a, b, if b >= 0x80 then 0xFF else 0]
    ensures p.hw == HwUnsigned32 ==> Number(Converted(p, [a, b])) == p.rangeMax * (a + 0x100 * ((b + 0x80) % 0x100)) / 0x1_0000
  {
    hide Converted, Number;
    assert Decoded(Signed16, [a, b]) == 0x1_0000 * a + 0x100_0000 * if b >= 0x80 then b - 0x100 else b as int;
    BytesOut(p, [a, b], 0, 0, a, b);
    Scaled(p.rangeMax, a + 0x100 * ((b + 0x80) % 0x100), 0x1_0000, 0x1_0000);
  }

  /** A signed 24-bit sample with the bytes a, b and c. */
  lemma Signed24Sample(p: Setup, a: Byte, b: Byte, c: Byte)
    requires p.Valid() && p.write == Signed24
    ensures p.hw == HwSigned16 ==> Converted(p, [a, b, c]) == [b, c]
    ensures p.hw == HwSigned24 ==> Converted(p, [a, b, c]) == [a, b, c, if c >= 0x80 then 0xFF else 0]
    ensures p.hw == HwUnsigned32 ==>
              Number(Converted(p, [a, b, c])) == p.rangeMax * (a + 0x100 * b + 0x1_0000 * ((c + 0x80) % 0x100)) / 0x100_0000
  {
    hide Converted, Number;
    assert Decoded(Signed24, [a, b, c]) == 0x100 * a + 0x1_0000 * b + 0x100_0000 * if c >= 0x80 then c - 0x100 else c as int;
    BytesOut(p, [a, b, c], 0, a, b, c);
    Scaled(p.rangeMax, a + 0x100 * b + 0x1_0000 * ((c + 0x80) % 0x100), 0x100_0000, 0x100);
  }

  lemma Scaled(r: nat, x: nat, m: nat, k: nat)
    requires m > 0 && k > 0
    ensures m * k > 0 && r * (x * k) / (m * k) == r * x / m
  {
    Cancelled(r * x, m, k);
    assert r * (x * k) == (r * x) * k;
  }

  /** The frames stay in order: the j-th one converted is the j-th one written. */
  lemma {:induction false} FramesKept(p: Setup, s: seq<Byte>, k: nat, j: nat)
    requires p.Valid() && j < k && Span(k, p.WriteFrameSize()) <= |s|
    ensures Span(j + 1, p.HwFrameSize()) <= Span(k, p.HwFrameSize()) && Span(j + 1, p.WriteFrameSize()) <= |s|
    ensures ConvertedFrames(p, s, k)[Span(j, p.HwFrameSize())..Span(j + 1, p.HwFrameSize())]
            == ConvertedFrame(p, s[Span(j, p.WriteFrameSize())..Span(j + 1, p.WriteFrameSize())])
  {
    hide ConvertedFrame;
    var front := ConvertedFrames(p, s, k - 1);
    var last := ConvertedFrame(p, s[Span(k - 1, p.WriteFrameSize())..Span(k, p.WriteFrameSize())]);
    assert ConvertedFrames(p, s, k) == front + last;
    if j < k - 1 {
      FramesKept(p, s, k - 1, j);
      FrontSlice(front, last, Span(j, p.HwFrameSize()), Span(j + 1, p.HwFrameSize()));
    }
  }

  lemma FrontSlice(front: seq<Byte>, last: seq<Byte>, a: nat, b: nat)
    requires a <= b <= |front|
    ensures (front + last)[a..b] == front[a..b]
  {
  }

  // ---------------------------------------------------------------- the ring

  /** What a ring holds between its pointers. */
  function Ring(q: seq<Byte>, inPtr: nat, outPtr: nat): seq<Byte>
    requires inPtr < |q| && outPtr < |q|
  {
    if outPtr <= inPtr then q[outPtr..inPtr] else q[outPtr..] + q[..inPtr]
  }

  function Next(ptr: nat, size: nat): nat {
    if ptr + 1 == size then 0 else ptr + 1
  }

  lemma EnqueueOne(q: seq<Byte>, inPtr: nat, outPtr: nat, b: Byte)
    requires inPtr < |q| && outPtr < |q| && |Ring(q, inPtr, outPtr)| < |q| - 1
    ensures Ring(q[inPtr := b], Next(inPtr, |q|), outPtr) == Ring(q, inPtr, outPtr) + [b]
  {
  }

  lemma DequeueOne(q: seq<Byte>, inPtr: nat, outPtr: nat)
    requires inPtr < |q| && outPtr < |q| && Ring(q, inPtr, outPtr) != []
    ensures q[outPtr] == Ring(q, inPtr, outPtr)[0]
    ensures Ring(q, inPtr, Next(outPtr, |q|)) == Ring(q, inPtr, outPtr)[1..]
  {
  }

  /** The frame that fills a chunk when the queue is empty. */
  function NullFrame(p: Setup): (r: seq<Byte>)
    requires p.Valid()
    ensures |r| == p.HwFrameSize()
  {
    var sample := Bytes(if p.hw == HwUnsigned32 then p.rangeMax / 2 else 0, p.HwSampleSize());
    sample + sample
  }

  /** It holds two samples of silence: zeros, or the middle of the range. */
  lemma NullFrameIs(p: Setup)
    requires p.Valid()
    ensures p.hw != HwUnsigned32 ==> forall i :: 0 <= i < |NullFrame(p)| ==> NullFrame(p)[i] == 0
    ensures p.hw == HwUnsigned32 ==> Number(NullFrame(p)[..4]) == Number(NullFrame(p)[4..]) == p.rangeMax / 2
  {
    if p.hw == HwUnsigned32 {
      NumberOfBytes(p.rangeMax / 2, 4);
      assert Power256(2) == 0x1_0000 && Power256(4) == 0x1_0000_0000;
    } else if p.hw == HwSigned16 {
      TwoBytes(0, 0, 0);
    } else {
      FourBytes(0, 0, 0, 0, 0);
    }
  }

  /** Every one of k null frames. */
  lemma {:induction false} NullFramesAre(p: Setup, k: nat, j: nat)
    requires p.Valid() && j < k
    ensures Span(j + 1, p.HwFrameSize()) <= Span(k, p.HwFrameSize())
    ensures NullFrames(p, k)[Span(j, p.HwFrameSize())..Span(j + 1, p.HwFrameSize())] == NullFrame(p)
  {
    hide NullFrame;
    if j < k - 1 {
      NullFramesAre(p, k - 1, j);
      FrontSlice(NullFrames(p, k - 1), NullFrame(p), Span(j, p.HwFrameSize()), Span(j + 1, p.HwFrameSize()));
    }
  }

  function NullFrames(p: Setup, k: nat): (r: seq<Byte>)
    requires p.Valid()
    ensures |r| == Span(k, p.HwFrameSize())
  {
    if k == 0 then [] else NullFrames(p, k - 1) + NullFrame(p)
  }

  function Min(a: nat, b: nat): nat {
    if a < b then a else b
  }

  // ---------------------------------------------------------------- the device

  class SoundDevice {
    const p: Setup
    var queue: array<Byte>
    var size: nat
    var needDataThreshold: nat
    var inPtr: nat
    var outPtr: nat
    ghost var frames: nat  // the number of frames in the queue
    ghost var converted: seq<Byte>  // all that was ever queued
    ghost var taken: seq<Byte>  // all that the hardware has ever taken

    ghost predicate Valid()
      reads this, queue
    {
      && p.Valid() && queue.Length == size > 1 && inPtr < size && outPtr < size
      && |Contents()| == Span(frames, p.HwFrameSize())
      && converted == taken + Contents()
    }

    ghost function Contents(): seq<Byte>
      requires inPtr < queue.Length && outPtr < queue.Length
      reads this, queue
    {
      Ring(queue[..], inPtr, outPtr)
    }

    constructor (p: Setup, sampleRate: nat, sizeMsecs: nat)
      requires p.Valid() && sampleRate > 0 && 1 <= sizeMsecs <= 1000
      ensures Valid() && this.p == p && Contents() == [] && frames == 0 && converted == taken == [] && fresh(queue)
      ensures needDataThreshold == size / 2
      ensures 1000 * (size - 2) < p.HwFrameSize() * sampleRate * sizeMsecs <= 1000 * (size - 1)
    {
      this.p := p;
      var n := p.HwFrameSize() * sampleRate * sizeMsecs;
      SizePositive(p.HwFrameSize(), sampleRate, sizeMsecs);
      size := (n + 999) / 1000 + 1;
      queue := new Byte[(n + 999) / 1000 + 1](_ => 0);
      needDataThreshold := ((n + 999) / 1000 + 1) / 2;
      inPtr, outPtr, frames, converted, taken := 0, 0, 0, [], [];
    }

    function BytesFree(): (n: nat)
      requires inPtr < size && outPtr < size
      reads this
      ensures n < size
    {
      if outPtr <= inPtr then size + outPtr - inPtr - 1 else outPtr - inPtr - 1
    }

    function BytesAvail(): (n: nat)
      requires inPtr < size && outPtr < size
      reads this
      ensures n < size
    {
      if inPtr < outPtr then size + inPtr - outPtr else inPtr - outPtr
    }

    /** The two counts are what is in the queue and what is not; one byte always stays free. */
    lemma CountsAreExact()
      requires queue.Length == size && inPtr < size && outPtr < size
      ensures BytesAvail() == |Contents()| && BytesFree() == size - 1 - |Contents()|
    {
    }

    method Enqueue(data: seq<Byte>)
      requires queue.Length == size && inPtr < size && outPtr < size && |data| <= BytesFree()
      modifies `inPtr, queue
      ensures inPtr < size && Contents() == old(Contents()) + data
    {
      CountsAreExact();
      var i := 0;
      while i < |data|
        invariant i <= |data| && inPtr < size && Contents() == old(Contents()) + data[..i]
      {
        EnqueueOne(queue[..], inPtr, outPtr, data[i]);
        ghost var q := queue[..];
        queue[inPtr] := data[i];
        assert queue[..] == q[inPtr := data[i]];
        inPtr := inPtr + 1;
        if inPtr == size {
          inPtr := 0;
        }
        i := i + 1;
      }
      assert data[..i] == data;
    }

    /** Converts and queues as many whole frames as there are and as fit; `k` is their number. */
    method Write(buffer: seq<Byte>) returns (result: nat, ghost k: nat)
      requires Valid()
      modifies `inPtr, `frames, `converted, queue
      ensures Valid() && frames == old(frames) + k && result == Span(k, p.WriteFrameSize()) <= |buffer|
      ensures Contents() == old(Contents()) + ConvertedFrames(p, buffer, k)
      ensures converted == old(converted) + ConvertedFrames(p, buffer, k)
      ensures Span(k + 1, p.WriteFrameSize()) > |buffer| || Span(k + 1, p.HwFrameSize()) > old(BytesFree())
    {
      if p.hw == HwSigned16 && p.write == Signed16 && p.channels == SOUND_HW_CHANNELS && !p.swap {
        result, k := WriteFast(buffer);
      } else {
        result, k := WriteSlow(buffer);
      }
      QueueStep(taken, old(Contents()), ConvertedFrames(p, buffer, k));
    }

    /** 16-bit stereo needs no conversion. */
    method WriteFast(buffer: seq<Byte>) returns (result: nat, ghost k: nat)
      requires Valid() && p.hw == HwSigned16 && p.write == Signed16 && p.channels == 2 && !p.swap
      modifies `inPtr, `frames, `converted, queue
      ensures Valid() && frames == old(frames) + k && result == Span(k, 4) <= |buffer|
      ensures Contents() == old(Contents()) + ConvertedFrames(p, buffer, k)
      ensures Span(k + 1, 4) > |buffer| || Span(k + 1, 4) > old(BytesFree())
    {
      var bytes := BytesFree();
      if bytes > |buffer| {
        bytes := |buffer|;
      }
      k := bytes / 4;
      WholeFrames(bytes);
      bytes := bytes - bytes % 4;
      FastPathConverts(p, buffer, k);
      result := 0;
      if bytes > 0 {
        EnqueueFrames(buffer[..bytes], k);
        result := bytes;
      }
    }

    method EnqueueFrames(data: seq<Byte>, ghost k: nat)
      requires Valid() && |data| == Span(k, p.HwFrameSize()) && |data| <= BytesFree()
      modifies `inPtr, `frames, `converted, queue
      ensures Valid() && frames == old(frames) + k && Contents() == old(Contents()) + data
    {
      SpanAdds(frames, k, p.HwFrameSize());
      QueueStep(taken, Contents(), data);
      Enqueue(data);
      frames, converted := frames + k, converted + data;
    }

    method WriteSlow(buffer: seq<Byte>) returns (result: nat, ghost k: nat)
      requires Valid()
      modifies `inPtr, `frames, `converted, queue
      ensures result == Span(k, p.WriteFrameSize()) && Queued(old(Contents()), old(frames), old(BytesFree()), buffer, k)
      ensures Span(k + 1, p.WriteFrameSize()) > |buffer| || Span(k + 1, p.HwFrameSize()) > old(BytesFree())
    {
      hide Ring, ConvertedFrame;
      result, k := 0, 0;
      ghost var start, frames0, free := Contents(), frames, BytesFree();
      var n := p.WriteFrameSize();
      assert ConvertedFrames(p, buffer, 0) == [];
      while |buffer| - result >= n && BytesFree() >= p.HwFrameSize()
        invariant result == Span(k, n) <= |buffer| && Queued(start, frames0, free, buffer, k)
        decreases |buffer| - result
      {
        WriteOne(buffer, result, k, start, frames0, free);
        result := result + n;
        k := k + 1;
      }
    }

    /** The first k frames of the buffer are in the queue, behind what it held before. */
    ghost predicate Queued(start: seq<Byte>, frames0: nat, free: nat, buffer: seq<Byte>, k: nat)
      reads this, queue
    {
      && Valid() && frames == frames0 + k && BytesFree() + Span(k, p.HwFrameSize()) == free
      && Span(k, p.WriteFrameSize()) <= |buffer| && Contents() == start + ConvertedFrames(p, buffer, k)
    }

    method WriteOne(buffer: seq<Byte>, pos: nat, ghost k: nat, ghost start: seq<Byte>, ghost frames0: nat, ghost free: nat)
      requires Queued(start, frames0, free, buffer, k) && BytesFree() >= p.HwFrameSize()
      requires pos == Span(k, p.WriteFrameSize()) && pos + p.WriteFrameSize() <= |buffer|
      modifies `inPtr, `frames, `converted, queue
      ensures Queued(start, frames0, free, buffer, k + 1)
    {
      var piece := buffer[pos..pos + p.WriteFrameSize()];
      ghost var all := Extended(p, buffer, k, start, Contents(), piece);
      QueueFrame(piece);
      assert Contents() == all;
    }

    method QueueFrame(s: seq<Byte>)
      requires Valid() && |s| == p.WriteFrameSize() && BytesFree() >= p.HwFrameSize()
      modifies `inPtr, `frames, `converted, queue
      ensures Valid() && frames == old(frames) + 1 && BytesFree() == old(BytesFree()) - p.HwFrameSize()
      ensures Contents() == old(Contents()) + ConvertedFrame(p, s)
    {
      CountsAreExact();
      var frame := ConvertFrame(s);
      QueueStep(taken, Contents(), frame);
      Enqueue(frame);
      CountsAreExact();
      frames, converted := frames + 1, converted + frame;
    }

    /** Converts one frame, channel by channel. */
    method ConvertFrame(s: seq<Byte>) returns (frame: seq<Byte>)
      requires p.Valid() && |s| == p.WriteFrameSize()
      ensures frame == ConvertedFrame(p, s)
    {
      var n := p.WriteSampleSize();
      var first := Converted(p, s[..n]);
      if !p.swap {
        frame := first + if p.channels == 2 then Converted(p, s[n..]) else first;
      } else {
        frame := (if p.channels == 2 then Converted(p, s[n..]) else first) + first;
      }
    }

    /** Hands out a chunk: what the queue has, filled up with null frames, which end exactly where the chunk ends. */
    method GetChunk(chunkSize: nat) returns (data: seq<Byte>, callback: bool)
      requires Valid() && chunkSize > 0 && chunkSize % SOUND_HW_CHANNELS == 0
      modifies `outPtr, `frames, `taken
      ensures Valid() && |data| == chunkSize * p.HwSampleSize()
      ensures var c := Min(old(frames), chunkSize / 2);
              && frames == old(frames) - c
              && data == old(Contents())[..Min(|old(Contents())|, |data|)] + NullFrames(p, chunkSize / 2 - c)
              && Contents() == old(Contents())[Min(|old(Contents())|, |data|)..]
              && taken == old(taken) + old(Contents())[..Min(|old(Contents())|, |data|)]
      ensures callback == (|Contents()| < needDataThreshold)
    {
      hide Ring, NullFrames;
      var chunkBytes := chunkSize * p.HwSampleSize();
      ChunkIsFrames(chunkSize, p.HwSampleSize());
      TakenFrames(frames, chunkSize / 2, p.HwFrameSize());
      ghost var c := Min(frames, chunkSize / 2);
      var avail;
      data, avail := TakeFrames(chunkBytes, c);
      data := Pad(data, chunkBytes, chunkSize / 2 - c);
      callback := avail < needDataThreshold;
    }

    /** Takes c frames, which are all there are or as many as fit into the chunk. */
    method TakeFrames(chunkBytes: nat, ghost c: nat) returns (data: seq<Byte>, avail: nat)
      requires Valid() && c <= frames && Min(|Contents()|, chunkBytes) == Span(c, p.HwFrameSize())
      requires Span(frames - c, p.HwFrameSize()) == Span(frames, p.HwFrameSize()) - Span(c, p.HwFrameSize())
      modifies `outPtr, `frames, `taken
      ensures Valid() && frames == old(frames) - c && avail == |Contents()|
      ensures data == old(Contents())[..Span(c, p.HwFrameSize())] && Contents() == old(Contents())[Span(c, p.HwFrameSize())..]
      ensures taken == old(taken) + data
    {
      hide Ring, Span;
      CountsAreExact();
      avail := BytesAvail();
      var bytes := avail;
      if bytes > chunkBytes {
        bytes := chunkBytes;
      }
      data := [];
      if bytes > 0 {
        data := Dequeue(bytes);
        avail := avail - bytes;
      }
      QueueStep(taken, data, Contents());
      frames, taken := frames - c, taken + data;
    }

    method Pad(start: seq<Byte>, chunkBytes: nat, ghost k: nat) returns (data: seq<Byte>)
      requires p.Valid() && |start| + Span(k, p.HwFrameSize()) == chunkBytes
      ensures data == start + NullFrames(p, k) && |data| == chunkBytes
    {
      data := start;
      ghost var j := 0;
      while |data| < chunkBytes
        invariant j <= k && data == start + NullFrames(p, j)
        decreases k - j
      {
        SpanMonotone(j, k, p.HwFrameSize());
        QueueStep(start, NullFrames(p, j), NullFrame(p));
        data := data + NullFrame(p);
        j := j + 1;
      }
      SpanMonotone(j, k, p.HwFrameSize());
    }

    method Dequeue(count: nat) returns (data: seq<Byte>)
      requires queue.Length == size && inPtr < size && outPtr < size && count <= BytesAvail()
      modifies `outPtr
      ensures outPtr < size && data == old(Contents()[..count]) && Contents() == old(Contents()[count..])
    {
      CountsAreExact();
      data := [];
      ghost var all := Contents();
      while |data| < count
        invariant |data| <= count && outPtr < size && data == all[..|data|] && Contents() == all[|data|..]
      {
        DequeueOne(queue[..], inPtr, outPtr);
        data := data + [queue[outPtr]];
        outPtr := outPtr + 1;
        if outPtr == size {
          outPtr := 0;
        }
      }
    }
  }

  lemma Extended(p: Setup, s: seq<Byte>, k: nat, start: seq<Byte>, all: seq<Byte>, piece: seq<Byte>) returns (more: seq<Byte>)
    requires p.Valid() && Span(k + 1, p.WriteFrameSize()) <= |s|
    requires piece == s[Span(k, p.WriteFrameSize())..Span(k + 1, p.WriteFrameSize())]
    requires all == start + ConvertedFrames(p, s, k)
    ensures more == all + ConvertedFrame(p, piece) && more == start + ConvertedFrames(p, s, k + 1)
  {
    hide ConvertedFrame;
    more := all + ConvertedFrame(p, piece);
    OneMoreFrame(p, s, k + 1, Span(k, p.WriteFrameSize()), Span(k + 1, p.WriteFrameSize()));
    QueueStep(start, ConvertedFrames(p, s, k), ConvertedFrame(p, piece));
  }

  lemma WholeFrames(bytes: nat)
    ensures Span(bytes / 4, 4) == bytes - bytes % 4 && Span(bytes / 4 + 1, 4) > bytes
  {
    SpanIsProduct(bytes / 4, 4);
  }

  lemma QueueStep(all: seq<Byte>, added: seq<Byte>, one: seq<Byte>)
    ensures (all + added) + one == all + (added + one)
  {
  }

  lemma ChunkIsFrames(chunkSize: nat, sample: nat)
    requires chunkSize % 2 == 0
    ensures chunkSize * sample == Span(chunkSize / 2, 2 * sample)
  {
    SpanIsProduct(chunkSize / 2, 2 * sample);
    assert chunkSize == 2 * (chunkSize / 2);
    Rearrange(chunkSize / 2, sample);
  }

  lemma Rearrange(a: nat, b: nat)
    ensures 2 * a * b == a * (2 * b)
  {
  }

  lemma TakenFrames(frames: nat, chunk: nat, n: nat)
    ensures var c := Min(frames, chunk);
            && Min(Span(frames, n), Span(chunk, n)) == Span(c, n)
            && Span(frames - c, n) == Span(frames, n) - Span(c, n) && Span(chunk - c, n) == Span(chunk, n) - Span(c, n)
  {
    var c := Min(frames, chunk);
    SpanAdds(c, frames - c, n);
    SpanAdds(c, chunk - c, n);
    SpanMonotone(c, frames, n);
    SpanMonotone(c, chunk, n);
  }

  lemma SizePositive(a: nat, b: nat, c: nat)
    requires a > 0 && b > 0 && c > 0
    ensures a * b * c > 0
  {
    assert a * b > 0;
  }
}
