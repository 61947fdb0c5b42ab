/** G.711 A-law companding through lookup tables. */
module Alaw {
  import opened Bytes

  const BASE_ALAW_MASK: byte := 0x55
  const SIGNED_ALAW_MASK: byte := 0xD5
  const SEGMENT_COUNT := 8
  const SEGMENT_EDGES: seq<int> := [0xFF, 0x1FF, 0x3FF, 0x7FF, 0xFFF, 0x1FFF, 0x3FFF, 0x7FFF]

  // ---------------------------------------------------------------- one sample

  /** The magnitude that is quantised: negative samples are moved by 8 towards zero. */
  function Normalized(x: int16): int16 {
    var wide: int := x;
    if wide >= 0 then wide else -wide - 8
  }

  function SegmentFrom(y: int16, i: nat): (s: nat)
    requires i <= SEGMENT_COUNT
    ensures i <= s <= SEGMENT_COUNT
    ensures s < SEGMENT_COUNT ==> y <= SEGMENT_EDGES[s]
    ensures s > i ==> y > SEGMENT_EDGES[s - 1]
    decreases SEGMENT_COUNT - i
  {
    if i == SEGMENT_COUNT || y <= SEGMENT_EDGES[i] then i else SegmentFrom(y, i + 1)
  }

  /** The segment a sample is quantised in; the last edge is the largest sample there is. */
  function Segment(x: int16): (s: nat)
    ensures s < SEGMENT_COUNT
  {
    SegmentFrom(Normalized(x), 0)
  }

  function Step(segment: nat): (step: nat)
    requires segment < SEGMENT_COUNT
    ensures step > 0
  {
    [16, 16, 32, 64, 128, 256, 512, 1024][segment]
  }

  function Unmasked(x: int16): (u: nat)
    ensures u < 0x80
  {
    Normalized(x) / Step(Segment(x)) % 16 + 16 * Segment(x)
  }

  function EncodeSample(x: int16): byte {
    XorByte(Unmasked(x), if x >= 0 then SIGNED_ALAW_MASK else BASE_ALAW_MASK)
  }

  /** The centre of a quantiser cell, from the segment and the four quantisation bits. */
  function Centre(segment: nat, quant: nat): (c: nat)
    requires segment < 8 && quant < 16
    ensures 8 <= c < 0x8000
  {
    var base := 16 * quant + (if segment == 0 then 0x008 else 0x108);
    if segment > 1 then base * [1, 2, 4, 8, 16, 32, 64][segment - 1] else base
  }

  function DecodeSample(b: byte): int16 {
    var u := XorByte(b, BASE_ALAW_MASK);
    var c: int := Centre(u / 16 % 8, u % 16);
    if u >= 0x80 then c else -c
  }

  // ---------------------------------------------------------------- what the code means

  /** The sign bit of the mask is all that separates the two masks. */
  lemma MaskCancels(u: nat)
    requires u < 0x80
    ensures XorByte(XorByte(u, BASE_ALAW_MASK), BASE_ALAW_MASK) == u
    ensures XorByte(XorByte(u, SIGNED_ALAW_MASK), BASE_ALAW_MASK) == u + 0x80
    ensures XorByte(XorByte(u + 0x80, BASE_ALAW_MASK), BASE_ALAW_MASK) == u + 0x80
    ensures XorByte(u, SIGNED_ALAW_MASK) == XorByte(u + 0x80, BASE_ALAW_MASK)
  {
    hide Xor;
    XorCancel(u, BASE_ALAW_MASK);
    XorZero(1);
    XorCancel(u + 0x80, BASE_ALAW_MASK);
    Pow2Values();
    XorSplit(0, u, 1, 0x55, 7);
    XorSplit(1, u, 0, 0x55, 7);
    XorCommutes(0, 1);
  }

  /** Companding leaves a sample with its sign and the centre of the cell it falls in. */
  lemma DecodeOfEncode(x: int16)
    ensures var c: int := Centre(Segment(x), Normalized(x) / Step(Segment(x)) % 16);
            DecodeSample(EncodeSample(x)) == if x >= 0 then c else -c
  {
    hide XorByte, Segment, Step, Centre, Normalized, DecodeSample;
    DecodeOfMasked(Segment(x), Normalized(x) / Step(Segment(x)) % 16);
  }

  lemma DecodeOfMasked(s: nat, q: nat)
    requires s < 8 && q < 16
    ensures DecodeSample(XorByte(q + 16 * s, SIGNED_ALAW_MASK)) == Centre(s, q)
    ensures var c: int := Centre(s, q); DecodeSample(XorByte(q + 16 * s, BASE_ALAW_MASK)) == -c
  {
    hide XorByte, Centre;
    MaskCancels(q + 16 * s);
    Digits(s, q);
  }

  lemma Digits(s: nat, q: nat)
    requires s < 8 && q < 16
    ensures var u := q + 16 * s;
            u / 16 % 8 == s && u % 16 == q && (u + 0x80) / 16 % 8 == s && (u + 0x80) % 16 == q
  {
  }

  lemma SegmentRange(x: int16)
    ensures var y, s, step := Normalized(x), Segment(x), Step(Segment(x));
            && (s == 0 ==> y < 16 * step)
            && (s > 0 ==> 16 * step <= y < 32 * step)
  {
  }

  /** For all magnitudes but the negative ones, the centre is half a step into the cell. */
  lemma CentreIsMidpoint(s: nat, y: nat)
    requires s < SEGMENT_COUNT
    requires if s == 0 then y < 16 * Step(s) else 16 * Step(s) <= y < 32 * Step(s)
    ensures Centre(s, y / Step(s) % 16) == y / Step(s) * Step(s) + Step(s) / 2
  {
    var q := y / Step(s);
    if s == 0 {
      assert q % 16 == q;
    } else {
      CellNumber(y, Step(s));
      assert q % 16 == q - 16;
    }
  }

  lemma CellNumber(y: nat, step: nat)
    requires step > 0 && 16 * step <= y < 32 * step
    ensures 16 <= y / step < 32
  {
    var q := y / step;
    MulBounds(q - 31, step);
    MulBounds(q - 16, step);
  }

  /** Companding by its meaning: round to the middle of the cell, keeping the sign. */
  function Companded(x: int16): int {
    var y, step := Normalized(x), Step(Segment(x));
    var c := y / step * step + step / 2;
    if x >= 0 then c else -c
  }

  lemma CompandedIsDecoded(x: int16)
    requires !(-8 < x < 0)
    ensures DecodeSample(EncodeSample(x)) == Companded(x)
  {
    hide Segment, Centre, DecodeSample, EncodeSample;
    DecodeOfEncode(x);
    SegmentRange(x);
    CentreIsMidpoint(Segment(x), Normalized(x));
  }

  /** The seven smallest negative samples wrap to the far end of the first segment. */
  lemma SmallNegatives(x: int16)
    requires -8 < x < 0
    ensures Segment(x) == 0 && DecodeSample(EncodeSample(x)) == -248
  {
    hide XorByte;
    DecodeOfEncode(x);
    assert Normalized(x) / 16 == -1;
  }

  function Abs(x: int): nat {
    if x < 0 then -x else x
  }

  lemma StepValues(s: nat)
    requires s < SEGMENT_COUNT
    ensures Step(s) % 2 == 0 && 16 <= Step(s) <= 1024
  {
  }

  /** Samples from zero up are off by at most half a step of their segment. */
  lemma ErrorOfNonNegative(x: int16)
    requires x >= 0
    ensures Abs(DecodeSample(EncodeSample(x)) - x) <= Step(Segment(x)) / 2
  {
    hide Segment, Step, DecodeSample, EncodeSample;
    CompandedIsDecoded(x);
    StepValues(Segment(x));
    HalfStep(x, Step(Segment(x)));
  }

  lemma HalfStep(y: nat, step: nat)
    requires step % 2 == 0 && step > 0
    ensures -(step / 2) < y / step * step + step / 2 - y <= step / 2
  {
    assert y == y / step * step + y % step;
  }

  /** The bound for both signs holds for every sample except the seven that wrap. */
  lemma ErrorBoundIff(x: int16)
    ensures Abs(DecodeSample(EncodeSample(x)) - x) <= (if x >= 0 then Step(Segment(x)) / 2 else Step(Segment(x)) / 2 + 7)
            <==> !(-8 < x < 0)
  {
    hide Segment, Step, DecodeSample, EncodeSample;
    StepValues(Segment(x));
    if x >= 0 {
      ErrorOfNonNegative(x);
    } else if x <= -8 {
      CompandedIsDecoded(x);
      HalfStep(Normalized(x), Step(Segment(x)));
    } else {
      SmallNegatives(x);
      FirstStep();
    }
  }

  lemma FirstStep()
    ensures Step(0) == 16
  {
  }

  /** Companding never reorders samples, apart from the seven that wrap. */
  lemma CompandingIsMonotone(x: int16, z: int16)
    requires x <= z && !(-8 < x < 0) && !(-8 < z < 0)
    ensures DecodeSample(EncodeSample(x)) <= DecodeSample(EncodeSample(z))
  {
    hide Segment, Step, DecodeSample, EncodeSample, Normalized;
    CompandedIsDecoded(x);
    CompandedIsDecoded(z);
    StepValues(Segment(x));
    StepValues(Segment(z));
    NormalizedSign(x);
    NormalizedSign(z);
    if x >= 0 {
      CellsInOrder(x, z);
    } else if z < 0 {
      CellsInOrder(z, x);
    } else {
      CellStart(Normalized(x), Step(Segment(x)));
      CellStart(z, Step(Segment(z)));
    }
  }

  lemma NormalizedSign(x: int16)
    ensures x >= 0 ==> Normalized(x) == x
    ensures x < 0 ==> Normalized(x) == 0 - x - 8
  {
  }

  lemma CellStart(y: nat, step: nat)
    requires step > 0
    ensures 0 <= y / step * step <= y
  {
  }

  lemma CellsInOrder(x: int16, z: int16)
    requires 0 <= Normalized(x) <= Normalized(z)
    ensures Normalized(x) / Step(Segment(x)) * Step(Segment(x)) + Step(Segment(x)) / 2
            <= Normalized(z) / Step(Segment(z)) * Step(Segment(z)) + Step(Segment(z)) / 2
  {
    hide Segment, Step;
    var y, w, s, t := Normalized(x), Normalized(z), Segment(x), Segment(z);
    SegmentOrder(x, z);
    SegmentRange(x);
    SegmentRange(z);
    StepValues(s);
    StepValues(t);
    HalfStep(y, Step(s));
    if s == t {
      SameStep(y, w, Step(s));
    } else {
      LaterCell(y, w, s, t);
    }
  }

  lemma SameStep(y: nat, w: nat, step: nat)
    requires y <= w && step > 0
    ensures y / step * step <= w / step * step
  {
    var p, q := y / step, w / step;
    assert p * step <= y && w < q * step + step;
    MulBounds(p - q, step);
  }

  lemma SegmentOrder(x: int16, z: int16)
    requires 0 <= Normalized(x) <= Normalized(z)
    ensures Segment(x) <= Segment(z)
    ensures Segment(x) < Segment(z) ==> Normalized(x) < 16 * Step(Segment(z))
    ensures Segment(x) < Segment(z) ==> Step(Segment(x)) <= Step(Segment(z))
  {
    hide Segment, Step, Normalized;
    var s, t := Segment(x), Segment(z);
    SegmentRange(x);
    SegmentRange(z);
    if s < t {
      StepGrowth(s, t);
    } else if t < s {
      StepGrowth(t, s);
    }
  }

  lemma LaterCell(y: nat, w: nat, s: nat, t: nat)
    requires s < t < SEGMENT_COUNT && Step(s) <= Step(t) && Step(t) > 0 && Step(s) > 0
    requires y < 16 * Step(t) <= w < 32 * Step(t)
    ensures y / Step(s) * Step(s) + Step(s) / 2 <= w / Step(t) * Step(t) + Step(t) / 2
  {
    hide Step;
    CellNumber(w, Step(t));
    CellStart(y, Step(s));
    var a, b := y / Step(s) * Step(s), w / Step(t) * Step(t);
    SixteenCells(w / Step(t), Step(t));
    assert a <= y < 16 * Step(t) <= b;
  }

  lemma SixteenCells(n: nat, step: nat)
    requires n >= 16 && step > 0
    ensures n * step >= 16 * step
  {
    MulBounds(n - 16, step);
  }

  // ---------------------------------------------------------------- the inverse direction

  /** Where a segment ends, the next one has begun. */
  lemma StepGrowth(s: nat, t: nat)
    requires s < t < SEGMENT_COUNT
    ensures (if s == 0 then 16 else 32) * Step(s) <= 16 * Step(t)
  {
  }

  lemma SegmentUnique(x: int16, s: nat)
    requires s < SEGMENT_COUNT
    requires var y := Normalized(x); if s == 0 then y < 16 * Step(s) else 16 * Step(s) <= y < 32 * Step(s)
    ensures Segment(x) == s
  {
    hide Segment, Step;
    SegmentRange(x);
    if Segment(x) < s {
      StepGrowth(Segment(x), s);
    } else if s < Segment(x) {
      StepGrowth(s, Segment(x));
    }
  }

  // ---------------------------------------------------------------- the code bit by bit

  /** Steps double from one segment to the next, from the second one on. */
  lemma StepIsPower(s: nat)
    requires 1 <= s < SEGMENT_COUNT
    ensures Step(s) == Pow2(s + 3) && 16 * Step(s) == Pow2(s + 7) && 32 * Step(s) == Pow2(s + 8)
  {
    Pow2Doubles(s + 3);
    assert Pow2(4) == 16 && (s > 1 ==> Pow2(s + 3) == 2 * Pow2(s + 2));
    if s > 1 {
      StepIsPower(s - 1);
    }
  }

  lemma Pow2Doubles(n: nat)
    ensures Pow2(n + 4) == 16 * Pow2(n) && Pow2(n + 5) == 32 * Pow2(n)
  {
    Pow2Four(n);
  }

  /** The largest power of two in a magnitude from 256 up is its segment; four bits behind it are kept. */
  lemma SegmentByMagnitude(x: int16, s: nat)
    requires 1 <= s < SEGMENT_COUNT
    requires var y := if x >= 0 then x else 0 - x - 8; Pow2(s + 7) <= y < Pow2(s + 8)
    ensures var y := if x >= 0 then x else 0 - x - 8;
            Segment(x) == s && Step(Segment(x)) == Pow2(s + 3) && Unmasked(x) == 16 * s + y / Pow2(s + 3) - 16
  {
    hide Segment, Step, Pow2;
    StepIsPower(s);
    SegmentUnique(x, s);
    var y := Normalized(x);
    CellNumber(y, Step(s));
  }

  /** Below 256 the step is 16, and the code is the number of the step. */
  lemma FirstSegment(x: int16)
    requires -264 < x < 256
    ensures var y := if x >= 0 then x else 0 - x - 8;
            Segment(x) == 0 && Step(Segment(x)) == 16 && Unmasked(x) == y / 16 % 16
  {
  }

  lemma MaskBits(i: nat)
    requires i < 8
    ensures BitAt(BASE_ALAW_MASK, i) == 1 <==> i % 2 == 0
    ensures BitAt(SIGNED_ALAW_MASK, i) == 1 <==> i % 2 == 0 || i == 7
  {
    assert i == 0 || i == 1 || i == 2 || i == 3 || i == 4 || i == 5 || i == 6 || i == 7;
  }

  lemma {:induction false} NoBitAbove(u: nat, k: nat)
    requires u < Pow2(k)
    ensures BitAt(u, k) == 0
  {
    if k > 0 {
      NoBitAbove(u / 2, k - 1);
    }
  }

  /** Of the seven bits of segment and cell every second one is toggled, from the lowest; the highest bit is set for samples from zero up. */
  lemma CodeBits(x: int16, i: nat)
    requires i < 8
    ensures BitAt(EncodeSample(x), i) == 1 <==>
              if i == 7 then x >= 0 else if i % 2 == 0 then BitAt(Unmasked(x), i) == 0 else BitAt(Unmasked(x), i) == 1
  {
    hide Xor, Unmasked, BitAt;
    var u := Unmasked(x);
    MaskBits(i);
    XorBitwise(u, if x >= 0 then SIGNED_ALAW_MASK else BASE_ALAW_MASK, i);
    Pow2Values();
    NoBitAbove(u, 7);
  }

  /**
   * How good the code is, told by the sample alone: from zero up samples below 256 are off by at
   * most 8, and all others by at most a thirty-second part.
   */
  lemma RelativeError(x: int16)
    requires x >= 0
    ensures var y: int := DecodeSample(EncodeSample(x));
            && (x < 256 ==> Abs(y - x) <= 8)
            && (x >= 256 ==> 32 * Abs(y - x) <= x)
  {
    hide DecodeSample, EncodeSample, Segment, Step;
    ErrorOfNonNegative(x);
    if x < 256 {
      FirstSegment(x);
    } else {
      SegmentRange(x);
      StepValues(Segment(x));
      FirstStep();
      NotFirst(x);
    }
  }

  lemma NotFirst(x: int16)
    requires x >= 256
    ensures Segment(x) > 0
  {
  }

  // ---------------------------------------------------------------- every code byte

  lemma CentreInCell(s: nat, q: nat, y: int)
    requires s < 8 && q < 16
    requires y == Centre(s, q) || y == Centre(s, q) - 8
    ensures var r := if s == 0 then q else q + 16;
            0 <= y - r * Step(s) < Step(s)
  {
    assert s == 0 || s == 1 || s == 2 || s == 3 || s == 4 || s == 5 || s == 6 || s == 7;
  }

  lemma SegmentOfCentre(s: nat, q: nat, x: int16)
    requires s < 8 && q < 16
    requires var c: int := Centre(s, q); x == c || x == -c
    ensures Segment(x) == s && Normalized(x) / Step(s) % 16 == q
  {
    hide Segment, Step, Centre, Normalized;
    var y, step := Normalized(x), Step(s);
    var r := if s == 0 then q else q + 16;
    NormalizedSign(x);
    CentreInCell(s, q, y);
    StepValues(s);
    ModUnique(y, r, y - r * step, step);
    RowBounds(r, step);
    SegmentUnique(x, s);
    assert r % 16 == q;
  }

  lemma RowBounds(r: nat, step: nat)
    ensures r <= 15 ==> r * step <= 15 * step
    ensures r >= 16 ==> r * step >= 16 * step
    ensures r <= 31 ==> r * step <= 31 * step
  {
  }

  /** Every code byte survives decoding and encoding. */
  lemma EncodeOfDecode(b: byte)
    ensures EncodeSample(DecodeSample(b)) == b
  {
    hide XorByte, Segment, Centre, Normalized, Step;
    var u := XorByte(b, BASE_ALAW_MASK);
    var x, s, q := DecodeSample(b), u / 16 % 8, u % 16;
    SegmentOfCentre(s, q, x);
    assert Unmasked(x) == q + 16 * s;
    assert x >= 0 <==> u >= 0x80;
    hide Unmasked, DecodeSample;
    MaskOfByte(b);
    MaskCancels(q + 16 * s);
  }

  lemma MaskOfByte(b: byte)
    ensures var u := XorByte(b, BASE_ALAW_MASK);
            XorByte(u, BASE_ALAW_MASK) == b && u == u % 16 + 16 * (u / 16 % 8) + (if u >= 0x80 then 0x80 else 0)
  {
    hide Xor;
    XorCancel(b, BASE_ALAW_MASK);
  }

  // ---------------------------------------------------------------- tables and buffers

  function EncodeAll(pcm: seq<int16>): (r: seq<byte>)
    ensures |r| == |pcm| && forall i :: 0 <= i < |pcm| ==> r[i] == EncodeSample(pcm[i])
  {
    seq(|pcm|, i requires 0 <= i < |pcm| => EncodeSample(pcm[i]))
  }

  function DecodeAll(code: seq<byte>): (r: seq<int16>)
    ensures |r| == |code| && forall i :: 0 <= i < |code| ==> r[i] == DecodeSample(code[i])
  {
    seq(|code|, i requires 0 <= i < |code| => DecodeSample(code[i]))
  }

  /** A decoded stream is encoded back to the very same bytes. */
  lemma BuffersRoundTrip(code: seq<byte>)
    ensures EncodeAll(DecodeAll(code)) == code
  {
    hide EncodeSample, DecodeSample;
    forall i | 0 <= i < |code|
      ensures EncodeAll(DecodeAll(code))[i] == code[i]
    {
      EncodeOfDecode(code[i]);
    }
  }

  /** Companding twice is companding once. */
  lemma CompandingIsIdempotent(pcm: seq<int16>)
    ensures var once := DecodeAll(EncodeAll(pcm));
            DecodeAll(EncodeAll(once)) == once
  {
    BuffersRoundTrip(EncodeAll(pcm));
  }

  method MakeEncodeTable() returns (table: array<byte>)
    ensures fresh(table) && table.Length == 0x1_0000
    ensures forall x: int16 :: table[x + 0x8000] == EncodeSample(x)
  {
    hide EncodeSample;
    table := new byte[0x1_0000];
    for wide := -0x8000 to 0x8000
      invariant forall x: int16 :: x < wide ==> table[x + 0x8000] == EncodeSample(x)
    {
      hide EncodeSample;
      var b := EncodeEntry(wide);
      table[wide + 0x8000] := b;
    }
  }

  /** The body of the table loop. */
  method EncodeEntry(sample: int16) returns (b: byte)
    ensures b == EncodeSample(sample)
  {
    hide XorByte, Segment, Step;
    var mask := if sample >= 0 then SIGNED_ALAW_MASK else BASE_ALAW_MASK;
    var normalized: int16 := if sample >= 0 then sample else 0 - sample - 8;
    var segment := FindSegment(normalized);
    assert segment == Segment(sample) by {
      SegmentFound(sample);
    }
    var unmasked: byte := 0x7F;
    if segment < SEGMENT_COUNT {
      unmasked := normalized / Step(segment) % 16 + 16 * segment;
    }
    b := XorByte(unmasked, mask);
  }

  lemma SegmentFound(x: int16)
    ensures Segment(x) == SegmentFrom(Normalized(x), 0) < SEGMENT_COUNT
  {
  }

  method FindSegment(normalized: int16) returns (segment: nat)
    ensures segment == SegmentFrom(normalized, 0)
  {
    segment := 0;
    while segment < SEGMENT_COUNT
      invariant segment <= SEGMENT_COUNT
      invariant SegmentFrom(normalized, segment) == SegmentFrom(normalized, 0)
    {
      if normalized <= SEGMENT_EDGES[segment] {
        break;
      }
      segment := segment + 1;
    }
  }

  /** Cells of the decode table are unsigned. */
  function ToUnsigned(x: int16): word16 {
    x % 0x1_0000
  }

  function ToSigned(w: word16): int16 {
    if w >= 0x8000 then w - 0x1_0000 else w
  }

  method MakeDecodeTable() returns (table: array<word16>)
    ensures fresh(table) && table.Length == 0x100
    ensures forall b: byte :: ToSigned(table[b]) == DecodeSample(b)
  {
    hide DecodeSample, ToSigned;
    table := new word16[0x100];
    for wide := 0 to 0x100
      invariant forall b: byte :: b < wide ==> ToSigned(table[b]) == DecodeSample(b)
    {
      hide DecodeSample, ToSigned;
      var sample := DecodeEntry(wide);
      SignedRoundTrip(sample);
      table[wide] := ToUnsigned(sample);
    }
  }

  lemma SignedRoundTrip(x: int16)
    ensures ToSigned(ToUnsigned(x)) == x
  {
  }

  /** The body of the table loop. */
  method DecodeEntry(b: byte) returns (r: int16)
    ensures r == DecodeSample(b)
  {
    hide XorByte;
    var masked: nat := XorByte(b, BASE_ALAW_MASK);
    var sample: int := masked % 16 * 16;
    var segment := masked / 16 % 8;
    if segment == 0 {
      sample := sample + 0x008;
    } else {
      sample := sample + 0x108;
    }
    if segment > 1 {
      sample := sample * [1, 2, 4, 8, 16, 32, 64][segment - 1];
    }
    assert sample == Centre(segment, masked % 16);
    if masked < 0x80 {
      sample := -sample;
    }
    r := sample;
  }

  /** Nothing is written when the output is too short. */
  method EncodeAlaw(pcm: seq<int16>, out: array<byte>, off: nat)
    requires off <= out.Length
    modifies out
    ensures |pcm| > out.Length - off ==> out[..] == old(out[..])
    ensures |pcm| <= out.Length - off ==> out[..] == old(out[..off]) + EncodeAll(pcm) + old(out[off + |pcm|..])
  {
    hide EncodeSample;
    if |pcm| > out.Length - off {
      return;
    }
    var table := MakeEncodeTable();
    for i := 0 to |pcm|
      invariant out[..off] == old(out[..off]) && out[off + i..] == old(out[off + i..])
      invariant out[off..off + i] == EncodeAll(pcm)[..i]
      invariant forall x: int16 :: table[x + 0x8000] == EncodeSample(x)
    {
      hide EncodeSample;
      out[off + i] := table[pcm[i] + 0x8000];
      assert out[off..off + i + 1] == out[off..off + i] + [EncodeSample(pcm[i])];
      assert out[off + i + 1..] == old(out[off + i..])[1..];
    }
    assert out[..] == out[..off] + out[off..off + |pcm|] + out[off + |pcm|..];
  }

  method DecodeAlaw(code: seq<byte>, out: array<int16>)
    modifies out
    ensures |code| > out.Length ==> out[..] == old(out[..])
    ensures |code| <= out.Length ==> out[..] == DecodeAll(code) + old(out[|code|..])
  {
    hide DecodeSample;
    if |code| > out.Length {
      return;
    }
    var table := MakeDecodeTable();
    for i := 0 to |code|
      invariant out[i..] == old(out[i..])
      invariant out[..i] == DecodeAll(code)[..i]
      invariant forall b: byte :: ToSigned(table[b]) == DecodeSample(b)
    {
      hide DecodeSample;
      out[i] := ToSigned(table[code[i]]);
      assert out[..i + 1] == out[..i] + [DecodeSample(code[i])];
      assert out[i + 1..] == old(out[i..])[1..];
    }
    assert out[..] == out[..|code|] + out[|code|..];
  }
}
