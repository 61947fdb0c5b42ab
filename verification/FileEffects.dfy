/** The options of a file input: gain and pitch, frame after frame. */
module FileEffects {
  import opened Bytes
  import opened AudioConfig
  import opened GraphNodes
  import opened PitchShifter

  datatype Effects = Effects(gain: real, semitones: real)

  // ---------------------------------------------------------------- what comes out

  function Boosted(gain: real, x: int16): int16 {
    Clamp(Truncate(x as real * gain), -0x8000, 0x7FFF)
  }

  function Louder(gain: real, f: Frame): (r: Frame) {
    if gain == 1.0 then f
    else seq<int16>(SAMPLES_PER_FRAME, i requires 0 <= i < SAMPLES_PER_FRAME => Boosted(gain, f[i]))
  }

  /** What the pitch shifter has received after `n` frames. */
  function Received(gain: real, plain: nat -> Frame, n: nat): (s: seq<int16>)
    ensures |s| == n * SAMPLES_PER_FRAME
  {
    if n == 0 then [] else Received(gain, plain, n - 1) + Louder(gain, plain(n - 1))
  }

  /** A frame that follows on what was received `before`. */
  function ShiftedFrame(change: real, maxDelay: nat, before: seq<int16>, frame: Frame): (r: Frame)
    requires maxDelay > 0
  {
    seq<int16>(SAMPLES_PER_FRAME, i requires 0 <= i < SAMPLES_PER_FRAME =>
      ShiftedSample(before + frame[..i + 1], PhaseAfter(0.0, change, maxDelay, |before| + i), maxDelay))
  }

  /** The frames of a file with its options applied, since it was opened or closed. */
  function Effected(options: Option<Effects>, change: real, maxDelay: nat, plain: nat -> Frame): nat -> Frame
    requires maxDelay > 0
  {
    match options
    case None => plain
    case Some(e) =>
      (k: nat) =>
        if e.semitones == 0.0 then Louder(e.gain, plain(k))
        else ShiftedFrame(change, maxDelay, Received(e.gain, plain, k), Louder(e.gain, plain(k)))
  }

  // ---------------------------------------------------------------- frame by frame

  method Amplify(frame: array<int16>, gain: real)
    requires frame.Length == SAMPLES_PER_FRAME && gain != 1.0
    modifies frame
    ensures frame[..] == Louder(gain, old(frame[..]))
  {
    for i := 0 to frame.Length
      invariant forall j :: 0 <= j < i ==> frame[j] == Boosted(gain, old(frame[j]))
      invariant forall j :: i <= j < frame.Length ==> frame[j] == old(frame[j])
    {
      frame[i] := Boosted(gain, frame[i]);
    }
  }

  /** The shifter has received `s` since its last reset, at one rate all the time. */
  ghost predicate HasReceived(shifter: Shifter, s: seq<int16>, change: real)
    reads shifter, shifter.delayBuffer
  {
    && shifter.Valid() && shifter.channels == 1 && shifter.tracks == [s]
    && shifter.phase == PhaseAfter(0.0, change, shifter.maxDelay, |s|)
  }

  /** The shifter of a file that has played `k` frames since it was opened or closed. */
  ghost predicate InTune(shifter: Shifter, options: Option<Effects>, plain: nat -> Frame, k: nat)
    reads shifter, shifter.delayBuffer
  {
    && shifter.Valid()
    && (options.Some? && options.value.semitones != 0.0 ==>
          HasReceived(shifter, Received(options.value.gain, plain, k), shifter.Change(options.value.semitones)))
  }

  ghost function ChangeOf(shifter: Shifter, options: Option<Effects>): real {
    if options.Some? then shifter.Change(options.value.semitones) else 0.0
  }

  /** Frame `k` out of the buffer becomes frame `k` of the node. */
  method ApplyEffects(frame: array<int16>, options: Option<Effects>, shifter: Shifter, ghost plain: nat -> Frame, ghost k: nat)
    requires frame.Length == SAMPLES_PER_FRAME && frame[..] == plain(k) && InTune(shifter, options, plain, k)
    modifies frame, shifter, shifter.delayBuffer
    ensures InTune(shifter, options, plain, k + 1) && shifter.delayBuffer == old(shifter.delayBuffer)
    ensures shifter.maxDelay > 0 && frame[..] == Effected(options, ChangeOf(shifter, options), shifter.maxDelay, plain)(k)
  {
    hide ShiftedSample, PhaseAfter, Channel, Boosted, Frac;
    match options {
      case None =>
      case Some(e) =>
        if e.gain != 1.0 {
          Amplify(frame, e.gain);
        }
        if e.semitones != 0.0 {
          Shift(frame, shifter, e.semitones, Received(e.gain, plain, k));
        }
    }
  }

  method Shift(frame: array<int16>, shifter: Shifter, semitones: real, ghost before: seq<int16>)
    requires frame.Length == SAMPLES_PER_FRAME && semitones != 0.0 && HasReceived(shifter, before, shifter.Change(semitones))
    modifies frame, shifter, shifter.delayBuffer
    ensures HasReceived(shifter, before + old(frame[..]), shifter.Change(semitones)) && shifter.delayBuffer == old(shifter.delayBuffer)
    ensures shifter.maxDelay > 0 && frame[..] == ShiftedFrame(shifter.Change(semitones), shifter.maxDelay, before, old(frame[..]))
  {
    hide ShiftedSample, PhaseAfter, Channel, Frac, Outputs, Shifter.Valid;
    ghost var input, change, m := frame[..], shifter.Change(semitones), shifter.maxDelay;
    ValidDelay(shifter);
    shifter.Process(frame, semitones);
    OneChannel(input, SAMPLES_PER_FRAME);
    OutputsOfOne(frame[..], input, SAMPLES_PER_FRAME, before, old(shifter.phase), change, m);
    forall i | 0 <= i <= SAMPLES_PER_FRAME
      ensures PhaseAfter(old(shifter.phase), change, m, i) == PhaseAfter(0.0, change, m, |before| + i)
    {
      PhaseAdd(change, m, |before|, i);
    }
    ValidDelay(shifter);
    assert input[..SAMPLES_PER_FRAME] == input;
    assert shifter.tracks == [before + input];
  }

  lemma ValidDelay(shifter: Shifter)
    requires shifter.Valid()
    ensures shifter.maxDelay > 0 && 0.0 <= shifter.phase < 1.0 && |shifter.tracks| == shifter.channels
  {
  }

  /** Opening and closing a file leave its shifter in tune. */
  lemma ResetIsInTune(shifter: Shifter, options: Option<Effects>, plain: nat -> Frame)
    requires shifter.Valid() && shifter.channels == 1 && shifter.phase == 0.0 && shifter.tracks == NoTracks(1)
    ensures InTune(shifter, options, plain, 0)
  {
    hide Shifter.Valid, StepOf;
    ValidDelay(shifter);
    if options.Some? {
      TimesNext(0, StepOf(shifter.Change(options.value.semitones), shifter.maxDelay));
    }
  }

  lemma PhaseAdd(change: real, maxDelay: nat, a: nat, b: nat)
    requires maxDelay > 0
    ensures PhaseAfter(PhaseAfter(0.0, change, maxDelay, a), change, maxDelay, b) == PhaseAfter(0.0, change, maxDelay, a + b)
  {
    hide Frac, StepOf;
    var step := StepOf(change, maxDelay);
    FracStep(0.0 + Times(a, step), Times(b, step));
    TimesAdd(a, b, step);
  }

  lemma TimesAdd(a: nat, b: nat, x: real)
    ensures Times(a + b, x) == Times(a, x) + Times(b, x)
  {
    assert (a + b) as real == a as real + b as real;
    Distribute(a as real, b as real, x);
  }

  lemma Distribute(a: real, b: real, x: real)
    ensures (a + b) * x == a * x + b * x
  {
  }

  lemma {:induction false} OneChannel(input: seq<int16>, n: nat)
    requires n <= |input|
    ensures n * 1 <= |input| && Channel(input, 1, 0, n) == input[..n]
  {
    if n > 0 {
      OneChannel(input, n - 1);
    }
  }

  lemma OutputsOfOne(output: seq<int16>, input: seq<int16>, n: nat, track: seq<int16>, phase: real, change: real, maxDelay: nat)
    requires maxDelay > 0 && |output| == |input| && n <= |input| && 0.0 <= phase < 1.0
    requires n * 1 <= |input| && Outputs(output, input, 1, n, [track], phase, change, maxDelay)
    ensures forall i :: 0 <= i < n ==>
              output[i] == ShiftedSample(track + input[..i + 1], PhaseAfter(phase, change, maxDelay, i), maxDelay)
  {
    hide ShiftedSample, PhaseAfter, Channel;
    forall i | 0 <= i < n
      ensures output[i] == ShiftedSample(track + input[..i + 1], PhaseAfter(phase, change, maxDelay, i), maxDelay)
    {
      OneChannel(input, i + 1);
      assert OutputAt(output, input, 1, i, 0, [track][0], phase, change, maxDelay);
      assert At(i, 1, 0) == i;
    }
  }

  // ---------------------------------------------------------------- laws

  /** What does not fit saturates; what fits is less than one away from the exact product, on the side of zero. */
  lemma GainSaturates(gain: real, x: int16)
    ensures var exact, y := x as real * gain, Boosted(gain, x);
            && (exact >= 32767.0 ==> y == 32767) && (exact <= -32768.0 ==> y == -32768)
            && (0.0 <= exact <= 32767.0 ==> exact - 1.0 < y as real <= exact)
            && (-32768.0 <= exact <= 0.0 ==> exact <= y as real < exact + 1.0)
  {
  }

  /** A gain keeps the order of samples and their sign, a negative one turns both round. */
  lemma GainKeepsOrder(gain: real, x: int16, y: int16)
    requires x <= y
    ensures gain >= 0.0 ==> Boosted(gain, x) <= Boosted(gain, y)
    ensures gain <= 0.0 ==> Boosted(gain, x) >= Boosted(gain, y)
    ensures Boosted(gain, 0) == 0
  {
    TruncateKeepsOrder(x as real * gain, y as real * gain);
    TruncateKeepsOrder(y as real * gain, x as real * gain);
    hide Truncate;
    if gain >= 0.0 {
      Product((y - x) as real, gain);
    } else {
      Product((y - x) as real, -gain);
    }
    assert (y - x) as real * gain == y as real * gain - x as real * gain;
    NoSample(gain);
  }

  lemma NoSample(gain: real)
    ensures Boosted(gain, 0) == 0
  {
    assert 0 as real * gain == 0.0;
  }

  lemma TruncateKeepsOrder(x: real, y: real)
    ensures x <= y ==> Truncate(x) <= Truncate(y)
  {
  }

  lemma {:induction false} ReceivedSlice(gain: real, plain: nat -> Frame, n: nat, k: nat)
    requires k < n
    ensures (k + 1) * SAMPLES_PER_FRAME <= n * SAMPLES_PER_FRAME
    ensures Received(gain, plain, n)[..k * SAMPLES_PER_FRAME] == Received(gain, plain, k)
    ensures Received(gain, plain, n)[k * SAMPLES_PER_FRAME..(k + 1) * SAMPLES_PER_FRAME] == Louder(gain, plain(k))
  {
    hide Louder;
    if k < n - 1 {
      ReceivedSlice(gain, plain, n - 1, k);
    }
  }

  /**
   * The frames of a file do not depend on how it is cut into frames: frame `k` is the `k`-th slice of
   * what one run of the shifter makes of all frames together.
   */
  lemma SliceOfWhole(change: real, maxDelay: nat, e: Effects, plain: nat -> Frame, n: nat, output: seq<int16>, k: nat)
    requires maxDelay > 0 && e.semitones != 0.0 && k < n && |output| == n * SAMPLES_PER_FRAME
    requires n * SAMPLES_PER_FRAME * 1 <= |output|
    requires Outputs(output, Received(e.gain, plain, n), 1, n * SAMPLES_PER_FRAME, [[]], 0.0, change, maxDelay)
    ensures (k + 1) * SAMPLES_PER_FRAME <= |output|
    ensures output[k * SAMPLES_PER_FRAME..(k + 1) * SAMPLES_PER_FRAME] == Effected(Some(e), change, maxDelay, plain)(k)
  {
    hide ShiftedSample, PhaseAfter, Outputs, Received, Louder;
    var input, at := Received(e.gain, plain, n), k * SAMPLES_PER_FRAME;
    OutputsOfOne(output, input, n * SAMPLES_PER_FRAME, [], 0.0, change, maxDelay);
    ReceivedSlice(e.gain, plain, n, k);
    var slice, frame := output[at..(k + 1) * SAMPLES_PER_FRAME], Effected(Some(e), change, maxDelay, plain)(k);
    forall i | 0 <= i < SAMPLES_PER_FRAME
      ensures slice[i] == frame[i]
    {
      assert [] + input[..at + i + 1] == Received(e.gain, plain, k) + Louder(e.gain, plain(k))[..i + 1];
    }
  }

  predicate AllZero(s: seq<int16>) {
    forall i :: 0 <= i < |s| ==> s[i] == 0
  }

  lemma ZeroShifted(track: seq<int16>, phase: real, maxDelay: nat)
    requires 0.0 <= phase < 1.0 && AllZero(track)
    ensures ShiftedSample(track, phase, maxDelay) == 0
  {
    hide Ceil, Lerp, Weight;
    var x := CrossfadeAt(phase, maxDelay);
    ZeroDelayed(track, x.delay1);
    ZeroDelayed(track, x.delay2);
    ZeroWeighted(x.weight1, x.weight2);
  }

  lemma ZeroDelayed(track: seq<int16>, d: real)
    requires AllZero(track)
    ensures Delayed(track, d) == 0.0
  {
    hide Ceil;
    ZeroTimes(Ceil(d) as real - d);
  }

  lemma ZeroTimes(x: real)
    ensures x * (0.0 - 0.0) == 0.0
  {
  }

  lemma ZeroWeighted(v: real, w: real)
    ensures Weighted(0.0, v, 0.0, w) == 0.0
  {
  }

  lemma ZeroLouder(gain: real, f: Frame)
    requires AllZero(f)
    ensures AllZero(Louder(gain, f))
  {
  }

  lemma {:induction false} ZeroReceived(gain: real, plain: nat -> Frame, n: nat)
    requires forall j :: 0 <= j < n ==> plain(j) == Silence()
    ensures AllZero(Received(gain, plain, n))
  {
    hide Louder;
    if n > 0 {
      ZeroReceived(gain, plain, n - 1);
      ZeroLouder(gain, plain(n - 1));
    }
  }

  /** Silence from the start stays silence, whatever the options. */
  lemma SilenceStaysSilent(options: Option<Effects>, change: real, maxDelay: nat, plain: nat -> Frame, k: nat)
    requires maxDelay > 0 && forall j :: 0 <= j <= k ==> plain(j) == Silence()
    ensures Effected(options, change, maxDelay, plain)(k) == Silence()
  {
    hide ShiftedSample, PhaseAfter, Louder, Received;
    if options.Some? {
      var gain := options.value.gain;
      var frame := Louder(gain, plain(k));
      ZeroLouder(gain, plain(k));
      ZeroReceived(gain, plain, k);
      forall i | 0 <= i < SAMPLES_PER_FRAME
        ensures ShiftedFrame(change, maxDelay, Received(gain, plain, k), frame)[i] == 0
      {
        ZeroShifted(Received(gain, plain, k) + frame[..i + 1], PhaseAfter(0.0, change, maxDelay, |Received(gain, plain, k)| + i), maxDelay);
      }
    }
  }
}
