/** A pitch shifter with two read heads on a circular delay line, over real arithmetic. */
module PitchShifter {
  import opened Bytes

  // ---------------------------------------------------------------- the unbounded history

  /** Sample `i` of everything a channel has received; silence before the start. */
  function Past(track: seq<int16>, i: int): real {
    if 0 <= i < |track| then track[i] as real else 0.0
  }

  function Ceil(d: real): int {
    -((-d).Floor)
  }

  /** Between the samples written `Ceil(d)` and `Ceil(d) - 1` frames ago. */
  function Delayed(track: seq<int16>, d: real): real {
    var k := Ceil(d);
    var older, newer := Past(track, |track| - 1 - k), Past(track, |track| - k);
    Lerp(older, newer, k as real - d)
  }

  // ---------------------------------------------------------------- phase and crossfade

  function Frac(x: real): (f: real)
    ensures 0.0 <= f < 1.0
  {
    x - x.Floor as real
  }

  function AbsReal(x: real): real {
    if x < 0.0 then -x else x
  }

  /** A triangular window that peaks at 1 for p = 1/2. */
  function Weight(p: real): (w: real)
  {
    1.0 - AbsReal(2.0 * p - 1.0)
  }

  /** Half a cycle on. */
  function Opposite(p: real): (q: real)
    requires 0.0 <= p < 1.0
    ensures 0.0 <= q < 1.0 && q == Frac(p + 0.5)
  {
    if p + 0.5 >= 1.0 then p + 0.5 - 1.0 else p + 0.5
  }

  lemma WeightsSumToOne(p: real)
    requires 0.0 <= p < 1.0
    ensures Weight(p) + Weight(Opposite(p)) == 1.0
    ensures 0.0 <= Weight(p) <= 1.0 && 0.0 <= Weight(Opposite(p)) <= 1.0
  {
  }

  datatype Crossfade = Crossfade(delay1: real, weight1: real, delay2: real, weight2: real)

  function DelayOf(phase: real, maxDelay: nat): real {
    phase * maxDelay as real
  }

  function CrossfadeAt(phase: real, maxDelay: nat): Crossfade
    requires 0.0 <= phase < 1.0
  {
    var q := Opposite(phase);
    Crossfade(DelayOf(phase, maxDelay), Weight(phase), DelayOf(q, maxDelay), Weight(q))
  }

  /** Towards zero, as a conversion to an integer does. */
  function Truncate(x: real): int {
    if x >= 0.0 then x.Floor else -((-x).Floor)
  }

  function Mixed(track: seq<int16>, phase: real, maxDelay: nat): real
    requires 0.0 <= phase < 1.0
  {
    var x := CrossfadeAt(phase, maxDelay);
    Weighted(Delayed(track, x.delay1), x.weight1, Delayed(track, x.delay2), x.weight2)
  }

  function Weighted(a: real, v: real, b: real, w: real): real {
    a * v + b * w
  }

  predicate InRange(x: real) {
    -32768.0 <= x <= 32767.0
  }

  lemma PastInRange(track: seq<int16>, i: int)
    ensures InRange(Past(track, i))
  {
  }

  function Lerp(a: real, b: real, f: real): real {
    a + f * (b - a)
  }

  lemma LerpUp(a: real, b: real, f: real, g: real)
    requires 0.0 <= f <= 1.0 && a <= b && g == b - a
    ensures a <= Lerp(a, b, f) <= b
  {
    Portion(f, g);
    assert Lerp(a, b, f) == a + f * g;
  }

  lemma LerpDown(a: real, b: real, f: real, g: real)
    requires 0.0 <= f <= 1.0 && b <= a && g == a - b
    ensures b <= Lerp(a, b, f) <= a
  {
    Portion(f, g);
    LerpBackwards(a, b, f, g);
  }

  lemma LerpBackwards(a: real, b: real, f: real, g: real)
    requires g == a - b
    ensures Lerp(a, b, f) == a - f * g
  {
  }

  lemma ConvexInRange(a: real, b: real, f: real)
    requires InRange(a) && InRange(b) && 0.0 <= f <= 1.0
    ensures InRange(Lerp(a, b, f))
  {
    hide Lerp;
    if b >= a {
      LerpUp(a, b, f, b - a);
    } else {
      LerpDown(a, b, f, a - b);
    }
  }

  lemma Portion(f: real, g: real)
    requires 0.0 <= f <= 1.0 && g >= 0.0
    ensures 0.0 <= f * g <= g
  {
    Product(f, g);
    Product(1.0 - f, g);
    assert (1.0 - f) * g == g - f * g;
  }

  lemma Product(x: real, y: real)
    requires x >= 0.0 && y >= 0.0
    ensures x * y >= 0.0
  {
  }

  lemma DelayedInRange(track: seq<int16>, d: real)
    ensures InRange(Delayed(track, d))
  {
    var k := Ceil(d);
    PastInRange(track, |track| - 1 - k);
    PastInRange(track, |track| - k);
    ConvexInRange(Past(track, |track| - 1 - k), Past(track, |track| - k), k as real - d);
  }

  /** Mixing is convex, so the output never leaves the range of the input and is never clamped. */
  lemma MixedInRange(track: seq<int16>, phase: real, maxDelay: nat)
    requires 0.0 <= phase < 1.0
    ensures InRange(Mixed(track, phase, maxDelay))
    ensures -0x8000 <= Truncate(Mixed(track, phase, maxDelay)) < 0x8000
  {
    hide Delayed, Weight, Weighted, Lerp, InRange, Truncate;
    var x := CrossfadeAt(phase, maxDelay);
    var a, b := Delayed(track, x.delay1), Delayed(track, x.delay2);
    WeightsSumToOne(phase);
    DelayedInRange(track, x.delay1);
    DelayedInRange(track, x.delay2);
    ConvexInRange(a, b, x.weight2);
    MixIsLerp(a, b, x.weight1, x.weight2);
    TruncateInRange(Mixed(track, phase, maxDelay));
  }

  lemma MixIsLerp(a: real, b: real, v: real, w: real)
    requires v + w == 1.0
    ensures Weighted(a, v, b, w) == Lerp(a, b, w)
  {
    assert v == 1.0 - w;
    assert a * v == a - a * w;
  }

  lemma TruncateInRange(x: real)
    requires InRange(x)
    ensures -0x8000 <= Truncate(x) < 0x8000
  {
  }

  /** One frame of the shifted signal. */
  function ShiftedSample(track: seq<int16>, phase: real, maxDelay: nat): int16
    requires 0.0 <= phase < 1.0
  {
    MixedInRange(track, phase, maxDelay);
    Truncate(Mixed(track, phase, maxDelay))
  }

  // ---------------------------------------------------------------- phase over whole runs

  function PhaseAfter(phase: real, change: real, maxDelay: nat, frames: nat): (p: real)
    requires maxDelay > 0
    ensures 0.0 <= p < 1.0
  {
    Frac(phase + Times(frames, StepOf(change, maxDelay)))
  }

  function Times(n: nat, x: real): real {
    n as real * x
  }

  /** How far the phase moves per frame when the delay changes by `change`. */
  function StepOf(change: real, maxDelay: nat): real
    requires maxDelay > 0
  {
    change / maxDelay as real
  }

  lemma TimesNext(n: nat, x: real)
    ensures Times(0, x) == 0.0
    ensures Times(n + 1, x) == Times(n, x) + x
  {
    assert (n + 1) as real == n as real + 1.0;
    OneMore(n as real, x);
  }

  lemma FloorUnique(x: real, k: int)
    requires k as real <= x < k as real + 1.0
    ensures x.Floor == k
  {
    var n := x.Floor;
    assert n as real <= x < n as real + 1.0;
    assert n < k ==> (n + 1) as real <= k as real;
    assert n > k ==> n as real >= (k + 1) as real;
  }

  lemma FracValue(x: real)
    ensures Frac(x) == x - x.Floor as real
  {
  }

  lemma FracUnique(x: real, k: int, f: real)
    requires x == k as real + f && 0.0 <= f < 1.0
    ensures Frac(x) == f && x.Floor == k
  {
    hide Frac;
    FloorUnique(x, k);
    FracValue(x);
  }

  lemma FracShift(x: real, k: int)
    ensures Frac(x + k as real) == Frac(x)
  {
    FracUnique(x + k as real, x.Floor + k, Frac(x));
  }

  lemma FracStep(x: real, y: real)
    ensures Frac(Frac(x) + y) == Frac(x + y)
  {
    FracShift(Frac(x) + y, x.Floor);
    assert Frac(x) + y + x.Floor as real == x + y;
  }

  lemma PhaseStep(phase: real, change: real, maxDelay: nat, n: nat)
    requires maxDelay > 0
    ensures PhaseAfter(phase, change, maxDelay, n + 1) == Frac(PhaseAfter(phase, change, maxDelay, n) + StepOf(change, maxDelay))
  {
    hide Times, StepOf, Frac;
    var step := StepOf(change, maxDelay);
    FracStep(phase + Times(n, step), step);
    TimesNext(n, step);
    assert phase + Times(n, step) + step == phase + Times(n + 1, step);
  }

  /**
   * Over `n` frames the delay of a head moves by `n * (1 - ratio)` modulo the longest delay:
   * the head itself advances by `ratio` samples a frame, but for whole turns of the line.
   */
  lemma DelayLaw(phase: real, ratio: real, maxDelay: nat, n: nat) returns (turns: int)
    requires maxDelay > 0 && 0.0 <= phase < 1.0
    ensures var d0, dn := DelayOf(phase, maxDelay), DelayOf(PhaseAfter(phase, 1.0 - ratio, maxDelay, n), maxDelay);
            && 0.0 <= dn < maxDelay as real
            && dn == d0 + Times(n, 1.0 - ratio) - turns as real * maxDelay as real
            && (n as real - dn) - (0.0 - d0) == Times(n, ratio) + turns as real * maxDelay as real
  {
    hide Frac, StepOf, Times;
    var m := maxDelay as real;
    var change := 1.0 - ratio;
    var x := phase + Times(n, StepOf(change, maxDelay));
    turns := x.Floor;
    var p := PhaseAfter(phase, change, maxDelay, n);
    FracValue(x);
    StepScales(n, change, maxDelay);
    Expand(p, phase, Times(n, StepOf(change, maxDelay)), turns as real, m);
    DelayInLine(p, maxDelay);
    Complement(n, ratio);
  }

  lemma StepScales(n: nat, change: real, maxDelay: nat)
    requires maxDelay > 0
    ensures Times(n, StepOf(change, maxDelay)) * maxDelay as real == Times(n, change)
  {
    ScaleBack(n as real, change, maxDelay as real);
  }

  lemma ScaleBack(n: real, change: real, m: real)
    requires m > 0.0
    ensures (n * (change / m)) * m == n * change
  {
    assert (change / m) * m == change;
    assert (n * (change / m)) * m == n * ((change / m) * m);
  }

  lemma Expand(p: real, phase: real, t: real, turns: real, m: real)
    requires p == phase + t - turns
    ensures p * m == phase * m + t * m - turns * m
  {
  }

  lemma Complement(n: nat, ratio: real)
    ensures Times(n, 1.0 - ratio) == n as real - Times(n, ratio)
  {
    OneLess(n as real, ratio);
  }

  lemma OneLess(n: real, r: real)
    ensures n * (1.0 - r) == n - n * r
  {
  }

  lemma Scaled(p: real, m: real)
    requires 0.0 <= p < 1.0 && m > 0.0
    ensures 0.0 <= p * m < m
  {
  }

  /** A head jumps across the line only while it is faded out, before and after the jump. */
  lemma WrapIsFadedOut(p: real, step: real)
    requires 0.0 <= p < 1.0 && (p + step).Floor != 0
    ensures Weight(p) <= 2.0 * AbsReal(step) && Weight(Frac(p + step)) <= 2.0 * AbsReal(step)
  {
    if AbsReal(step) >= 0.5 {
      WeightsSumToOne(p);
      WeightsSumToOne(Frac(p + step));
    } else if step < 0.0 {
      FracUnique(p + step, -1, p + step + 1.0);
    } else {
      FracUnique(p + step, 1, p + step - 1.0);
    }
  }

  /** The second head stays half a cycle away, so the same holds for it. */
  lemma OppositeMovesAlong(p: real, step: real)
    requires 0.0 <= p < 1.0
    ensures Opposite(Frac(p + step)) == Frac(Opposite(p) + step)
  {
    FracStep(p + step, 0.5);
    FracStep(p + 0.5, step);
    assert p + step + 0.5 == p + 0.5 + step;
  }

  // ---------------------------------------------------------------- what is heard of the two heads

  /** A delay of a whole number of samples gives the sample that was written so many samples ago. */
  lemma DelayedByWhole(track: seq<int16>, d: nat)
    ensures Delayed(track, d as real) == if d < |track| then track[|track| - 1 - d] as real else 0.0
  {
    var k: int := d;
    FloorUnique(-(d as real), -k);
  }

  /** In between, it goes in a straight line from one sample to the one before it. */
  lemma DelayedBetween(track: seq<int16>, d: nat, t: real)
    requires 0.0 <= t <= 1.0
    ensures Delayed(track, d as real + t)
            == Delayed(track, d as real) + t * (Delayed(track, (d + 1) as real) - Delayed(track, d as real))
  {
    DelayedByWhole(track, d);
    DelayedByWhole(track, d + 1);
    if t > 0.0 {
      var k: int := d;
      FloorUnique(-(d as real + t), -k - 1);
      assert Ceil(d as real + t) == d + 1;
      Backwards(Past(track, |track| - 2 - d), Past(track, |track| - 1 - d), t);
    }
  }

  lemma Backwards(a: real, b: real, t: real)
    ensures Lerp(a, b, 1.0 - t) == b + t * (a - b)
  {
    assert (1.0 - t) * (b - a) == (b - a) - t * (b - a);
  }

  /**
   * At phase `p` one head is `p` of the longest delay back and the other half a cycle away; the
   * first one counts most in the middle of its way and nothing at its ends.
   */
  lemma MixedByHeads(track: seq<int16>, p: real, maxDelay: nat)
    requires 0.0 <= p < 1.0
    ensures var q := if p < 0.5 then p + 0.5 else p - 0.5;
            var a, b := Delayed(track, p * maxDelay as real), Delayed(track, q * maxDelay as real);
            Mixed(track, p, maxDelay) == b + (if p < 0.5 then 2.0 * p else 2.0 - 2.0 * p) * (a - b)
  {
    hide Delayed;
    var q := if p < 0.5 then p + 0.5 else p - 0.5;
    var w := if p < 0.5 then 2.0 * p else 2.0 - 2.0 * p;
    assert Opposite(p) == q && Weight(p) == w && Weight(q) == 1.0 - w;
    Interpolated(Delayed(track, p * maxDelay as real), Delayed(track, q * maxDelay as real), w);
  }

  lemma Interpolated(a: real, b: real, w: real)
    ensures Weighted(a, w, b, 1.0 - w) == b + w * (a - b)
  {
    assert b * (1.0 - w) == b - b * w;
    assert w * (a - b) == w * a - w * b;
  }

  /** `x` differs from `main` by at most the part `part` of what `other` does. */
  predicate Near(x: real, main: real, other: real, part: real) {
    AbsReal(x - main) <= part * AbsReal(other - main)
  }

  lemma NearMain(a: real, b: real, w: real, part: real)
    requires 0.0 <= w <= part
    ensures Near(Lerp(b, a, w), b, a, part)
  {
    var g := AbsReal(a - b);
    Product(part - w, g);
    assert (part - w) * g == part * g - w * g;
    if a < b {
      assert w * (a - b) == -(w * (b - a));
      Product(w, b - a);
    } else {
      Product(w, a - b);
    }
  }

  lemma FromOtherSide(a: real, b: real, w: real)
    ensures Lerp(a, b, 1.0 - w) == Lerp(b, a, w)
  {
    assert (1.0 - w) * (b - a) == (b - a) - w * (b - a);
    assert w * (b - a) == -(w * (a - b));
  }

  /** The mix is, but for the part `part`, what the second head reads. */
  predicate FirstIsFaded(track: seq<int16>, p: real, maxDelay: nat, part: real)
    requires 0.0 <= p < 1.0
  {
    Near(Mixed(track, p, maxDelay), Delayed(track, Opposite(p) * maxDelay as real), Delayed(track, p * maxDelay as real), part)
  }

  predicate SecondIsFaded(track: seq<int16>, p: real, maxDelay: nat, part: real)
    requires 0.0 <= p < 1.0
  {
    Near(Mixed(track, p, maxDelay), Delayed(track, p * maxDelay as real), Delayed(track, Opposite(p) * maxDelay as real), part)
  }

  lemma FadedByWeight(track: seq<int16>, p: real, maxDelay: nat, part: real)
    requires 0.0 <= p < 1.0
    ensures Weight(p) <= part ==> FirstIsFaded(track, p, maxDelay, part)
    ensures Weight(Opposite(p)) <= part ==> SecondIsFaded(track, p, maxDelay, part)
  {
    hide Delayed, Near, Weight, Weighted, Lerp;
    var a, b := Delayed(track, DelayOf(p, maxDelay)), Delayed(track, DelayOf(Opposite(p), maxDelay));
    var v, w := Weight(p), Weight(Opposite(p));
    WeightsSumToOne(p);
    MixIsLerp(a, b, v, w);
    assert Mixed(track, p, maxDelay) == Lerp(a, b, w);
    FromOtherSide(a, b, v);
    if v <= part {
      NearMain(a, b, v, part);
    }
    if w <= part {
      NearMain(b, a, w, part);
    }
  }

  /**
   * When a head jumps across the line, the output before the jump and the output after it are, but
   * for a part of at most twice the step, what the other head reads.
   */
  lemma WrapsAreNotHeard(before: seq<int16>, after: seq<int16>, p: real, step: real, maxDelay: nat)
    requires 0.0 <= p < 1.0
    ensures (p + step).Floor != 0 ==>
              FirstIsFaded(before, p, maxDelay, 2.0 * AbsReal(step)) && FirstIsFaded(after, Frac(p + step), maxDelay, 2.0 * AbsReal(step))
    ensures (Opposite(p) + step).Floor != 0 ==>
              SecondIsFaded(before, p, maxDelay, 2.0 * AbsReal(step)) && SecondIsFaded(after, Frac(p + step), maxDelay, 2.0 * AbsReal(step))
  {
    hide *;
    var part := 2.0 * AbsReal(step);
    FadedByWeight(before, p, maxDelay, part);
    FadedByWeight(after, Frac(p + step), maxDelay, part);
    if (p + step).Floor != 0 {
      WrapIsFadedOut(p, step);
    }
    if (Opposite(p) + step).Floor != 0 {
      WrapIsFadedOut(Opposite(p), step);
      OppositeMovesAlong(p, step);
    }
  }

  /** A sample that is put out is that mix without its fraction. */
  lemma ShiftedIsMixed(track: seq<int16>, p: real, maxDelay: nat)
    requires 0.0 <= p < 1.0
    ensures var y, x := ShiftedSample(track, p, maxDelay) as real, Mixed(track, p, maxDelay);
            && AbsReal(y) <= AbsReal(x) < AbsReal(y) + 1.0 && (x >= 0.0 ==> y >= 0.0) && (x <= 0.0 ==> y <= 0.0)
  {
    hide Mixed;
  }

  /** When nothing has changed for as long as the line is, the shift changes nothing. */
  lemma SteadyPasses(track: seq<int16>, x: int16, p: real, maxDelay: nat)
    requires 0.0 <= p < 1.0 && maxDelay >= 1 && |track| > maxDelay
    requires forall i :: |track| - maxDelay - 1 <= i < |track| ==> track[i] == x
    ensures ShiftedSample(track, p, maxDelay) == x
  {
    hide Weight, Lerp;
    SteadyDelayed(track, x, p, maxDelay);
    SteadyDelayed(track, x, Opposite(p), maxDelay);
    WeightsSumToOne(p);
    var v, w := Weight(p), Weight(Opposite(p));
    MixIsLerp(x as real, x as real, v, w);
    LerpAtEnd(x as real, x as real, w);
  }

  lemma SteadyDelayed(track: seq<int16>, x: int16, p: real, maxDelay: nat)
    requires 0.0 <= p < 1.0 && maxDelay >= 1 && |track| > maxDelay
    requires forall i :: |track| - maxDelay - 1 <= i < |track| ==> track[i] == x
    ensures Delayed(track, DelayOf(p, maxDelay)) == x as real
  {
    hide DelayOf, Lerp;
    var d := DelayOf(p, maxDelay);
    DelayInLine(p, maxDelay);
    var k := Ceil(d);
    if k == 0 {
      LerpAtStart(x as real, Past(track, |track|), x as real);
    }
    LerpAtEnd(x as real, x as real, k as real - d);
  }

  /** So what a shifter puts out first is silent: the sample it has just received is faded out. */
  lemma StartsSilently(x: int16, maxDelay: nat)
    requires maxDelay >= 2
    ensures ShiftedSample([x], 0.0, maxDelay) == 0
  {
    hide Delayed, Mixed;
    MixedByHeads([x], 0.0, maxDelay);
    Untouched([x], 0.5 * maxDelay as real);
    NothingAdded(Delayed([x], 0.0 * maxDelay as real), 0.0);
  }

  lemma NothingAdded(a: real, b: real)
    ensures b + 0.0 * (a - b) == b
  {
  }

  /** Far enough back there is only the silence before the start. */
  lemma Untouched(track: seq<int16>, d: real)
    requires d >= |track| as real
    ensures Delayed(track, d) == 0.0
  {
    var k := Ceil(d);
    assert k >= |track|;
    LerpAtEnd(Past(track, |track| - 1 - k), Past(track, |track| - k), k as real - d);
  }

  lemma LerpAtEnd(a: real, b: real, f: real)
    ensures a == b ==> Lerp(a, b, f) == a
  {
    if a == b {
      ZeroOf(f);
    }
  }

  lemma ZeroOf(f: real)
    ensures f * 0.0 == 0.0
  {
  }

  /** For a shift of so many semitones the head moves on by `2^(semitones / 12)` samples a frame between its jumps. */
  lemma SemitonesLaw(shifter: Shifter, semitones: real, phase: real, n: nat) returns (turns: int)
    requires shifter.maxDelay > 0 && 0.0 <= phase < 1.0
    ensures var d0 := phase * shifter.maxDelay as real;
            var dn := PhaseAfter(phase, shifter.Change(semitones), shifter.maxDelay, n) * shifter.maxDelay as real;
            && 0.0 <= dn < shifter.maxDelay as real
            && (n as real - dn) - (0.0 - d0)
               == n as real * shifter.pow(2.0, semitones / 12.0) + turns as real * shifter.maxDelay as real
  {
    hide PhaseAfter, Frac;
    turns := DelayLaw(phase, shifter.pow(2.0, semitones / 12.0), shifter.maxDelay, n);
  }

  // ---------------------------------------------------------------- the delay line

  /** Interleaved channels: the cell of frame `j` and channel `c`. */
  function At(j: nat, channels: nat, c: nat): nat {
    j * channels + c
  }

  lemma AtBounds(j: nat, n: nat, channels: nat, c: nat)
    requires j < n && c < channels
    ensures At(j, channels, c) < n * channels
  {
    assert (j + 1) * channels <= n * channels;
    assert (j + 1) * channels == j * channels + channels;
  }

  lemma AtInjective(j: nat, c: nat, k: nat, e: nat, channels: nat)
    requires c < channels && e < channels
    ensures At(j, channels, c) == At(k, channels, e) <==> j == k && c == e
  {
    ModUnique(At(j, channels, c), j, c, channels);
    ModUnique(At(k, channels, e), k, e, channels);
  }

  /** Channel `c` of the line holds the last `size` samples of its track. */
  ghost predicate Holds(line: seq<real>, size: nat, channels: nat, c: nat, track: seq<int16>) {
    && |line| == size * channels && c < channels && size > 0
    && forall i :: |track| - size <= i < |track| ==> CellAt(line, size, channels, c, i) == Past(track, i)
  }

  function CellAt(line: seq<real>, size: nat, channels: nat, c: nat, i: int): real
    requires |line| == size * channels && c < channels && size > 0
  {
    AtBounds(i % size, size, channels, c);
    line[At(i % size, channels, c)]
  }

  /** Writing the next sample of one channel keeps that channel's history. */
  lemma WriteExtends(line: seq<real>, size: nat, channels: nat, c: nat, track: seq<int16>, x: int16)
    requires Holds(line, size, channels, c, track)
    ensures At(|track| % size, channels, c) < |line|
    ensures Holds(line[At(|track| % size, channels, c) := x as real], size, channels, c, track + [x])
  {
    hide At;
    AtBounds(|track| % size, size, channels, c);
    var at := At(|track| % size, channels, c);
    var line', track' := line[at := x as real], track + [x];
    forall i | |track'| - size <= i < |track'|
      ensures CellAt(line', size, channels, c, i) == Past(track', i)
    {
      AtBounds(i % size, size, channels, c);
      AtInjective(i % size, c, |track| % size, c, channels);
      if i < |track| {
        DifferentCells(i, |track|, size);
        assert CellAt(line, size, channels, c, i) == Past(track, i);
      }
    }
  }

  lemma DifferentCells(i: int, n: int, size: nat)
    requires size > 0 && n - size < i < n
    ensures i % size != n % size
  {
    if i % size == n % size {
      SameResidue(i, n, size);
    }
  }

  /** It does not disturb the other channels. */
  lemma WriteKeepsOthers(line: seq<real>, size: nat, channels: nat, c: nat, j: nat, e: nat, track: seq<int16>, x: real)
    requires Holds(line, size, channels, e, track) && c < channels && c != e && j < size
    ensures At(j, channels, c) < |line|
    ensures Holds(line[At(j, channels, c) := x], size, channels, e, track)
  {
    hide At;
    AtBounds(j, size, channels, c);
    var line' := line[At(j, channels, c) := x];
    forall i | |track| - size <= i < |track|
      ensures CellAt(line', size, channels, e, i) == Past(track, i)
    {
      AtBounds(i % size, size, channels, e);
      AtInjective(i % size, e, j, c, channels);
      assert CellAt(line, size, channels, e, i) == Past(track, i);
    }
  }

  /** A fresh line holds nothing but the silence before the start. */
  lemma SilenceHolds(line: seq<real>, size: nat, channels: nat, c: nat)
    requires |line| == size * channels && c < channels && size > 0
    requires forall i :: 0 <= i < |line| ==> line[i] == 0.0
    ensures Holds(line, size, channels, c, [])
  {
    forall i | 0 - size <= i < 0
      ensures CellAt(line, size, channels, c, i) == 0.0
    {
      AtBounds(i % size, size, channels, c);
    }
  }

  /** The two cells around a fractional position are the two samples around the delay. */
  lemma PositionOfDelay(w: nat, d: real, size: nat, pos: real)
    requires w < size && 0.0 <= d <= (size - 1) as real
    requires pos == w as real - d || pos == w as real - d + size as real
    requires 0.0 <= pos < size as real
    ensures pos.Floor == (w - Ceil(d)) % size
    ensures pos - pos.Floor as real == Ceil(d) as real - d
  {
    var k := Ceil(d);
    var turns := if pos == w as real - d then 0 else size;
    FracUnique(pos, w - k + turns, k as real - d);
    ModUnique(w - k, if turns == 0 then 0 else -1, w - k + turns, size);
  }

  lemma ReadCells(line: seq<real>, size: nat, channels: nat, c: nat, track: seq<int16>, d: real, idx1: nat, idx2: nat)
    requires Holds(line, size, channels, c, track) && 0.0 <= d <= (size - 1) as real && |track| > 0
    requires idx1 == (|track| - 1 - Ceil(d)) % size && idx2 == (|track| - Ceil(d)) % size
    ensures At(idx1, channels, c) < |line| && At(idx2, channels, c) < |line|
    ensures Lerp(line[At(idx1, channels, c)], line[At(idx2, channels, c)], Ceil(d) as real - d) == Delayed(track, d)
  {
    hide Lerp, At;
    var n, k := |track|, Ceil(d);
    AtBounds(idx1, size, channels, c);
    AtBounds(idx2, size, channels, c);
    assert 0 <= k <= size - 1;
    assert CellAt(line, size, channels, c, n - 1 - k) == Past(track, n - 1 - k);
    if k > 0 {
      assert CellAt(line, size, channels, c, n - k) == Past(track, n - k);
    } else {
      LerpAtStart(Past(track, n - 1), line[At(idx2, channels, c)], Past(track, n));
    }
  }

  lemma LerpAtStart(a: real, b: real, b': real)
    ensures Lerp(a, b, 0.0) == Lerp(a, b', 0.0)
  {
  }

  lemma DelaysFit(phase: real, maxDelay: nat)
    requires 0.0 <= phase < 1.0 && maxDelay >= 1
    ensures var x := CrossfadeAt(phase, maxDelay);
            && 0.0 <= x.delay1 <= (maxDelay * 2 - 1) as real
            && 0.0 <= x.delay2 <= (maxDelay * 2 - 1) as real
  {
    hide Weight, Opposite;
    DelayFits(phase, maxDelay);
    DelayFits(Opposite(phase), maxDelay);
  }

  lemma DelayFits(p: real, maxDelay: nat)
    requires 0.0 <= p < 1.0 && maxDelay >= 1
    ensures 0.0 <= DelayOf(p, maxDelay) <= (maxDelay * 2 - 1) as real
  {
    hide DelayOf;
    DelayInLine(p, maxDelay);
    LongEnough(maxDelay);
  }

  lemma DelayInLine(p: real, maxDelay: nat)
    requires 0.0 <= p < 1.0 && maxDelay >= 1
    ensures 0.0 <= DelayOf(p, maxDelay) < maxDelay as real
  {
    Scaled(p, maxDelay as real);
  }

  lemma LongEnough(maxDelay: nat)
    requires maxDelay >= 1
    ensures maxDelay as real <= (maxDelay * 2 - 1) as real
  {
  }

  ghost predicate WholeTurns(x: real, y: real, size: nat) {
    exists k: int :: TurnsBy(x, y, size, k)
  }

  ghost predicate TurnsBy(x: real, y: real, size: nat, k: int) {
    y == x + k as real * size as real
  }

  lemma TurnsZero(size: nat)
    ensures 0 as real * size as real == 0.0
  {
  }

  lemma TurnsStep(k: int, size: nat)
    ensures (k + 1) as real * size as real == k as real * size as real + size as real
  {
    assert (k + 1) as real == k as real + 1.0;
    OneMore(k as real, size as real);
  }

  lemma OneMore(x: real, y: real)
    ensures (x + 1.0) * y == x * y + y
  {
  }

  lemma ZeroResidue(m: nat)
    requires m > 0
    ensures 0 % m == 0
  {
  }

  /** From a position less than one turn below the line, at most one turn is needed. */
  lemma OneTurn(x: real, y: real, size: nat)
    requires WholeTurns(x, y, size) && size > 0
    requires -(size as real) < x < size as real && 0.0 <= y < size as real
    ensures y == x || y == x + size as real
  {
    var k :| TurnsBy(x, y, size, k);
    ManyTurns(k, size);
  }

  lemma ManyTurns(k: int, size: nat)
    requires size > 0
    ensures k >= 2 ==> k as real * size as real >= 2.0 * size as real
    ensures k <= -1 ==> k as real * size as real <= -(size as real)
    ensures k == 0 ==> k as real * size as real == 0.0
    ensures k == 1 ==> k as real * size as real == size as real
  {
    var s := size as real;
    if k >= 2 {
      Product((k - 2) as real, s);
    } else if k <= -1 {
      Product((-1 - k) as real, s);
    }
  }

  lemma PositionKept(n: nat, size: nat)
    requires size > 0
    ensures ((n + 1) - 1) % size == n % size
  {
  }

  lemma FramesFit(length: nat, channels: nat)
    requires channels > 0
    ensures length / channels * channels <= length && 0 * channels == 0
  {
  }

  lemma NextFrame(f: nat, n: nat, channels: nat, length: nat)
    requires f < n && n * channels <= length
    ensures f * channels + channels == (f + 1) * channels <= length
  {
    assert (f + 1) * channels <= n * channels;
  }

  lemma PhaseStart(phase: real, change: real, maxDelay: nat)
    requires maxDelay > 0 && 0.0 <= phase < 1.0
    ensures PhaseAfter(phase, change, maxDelay, 0) == phase
  {
    TimesNext(0, StepOf(change, maxDelay));
    FracUnique(phase, 0, phase);
  }

  lemma NeighbourCells(n: nat, k: int, size: nat)
    requires size > 0
    ensures (n % size - k) % size == (n - k) % size
    ensures ((n - k) % size + 1) % size == (n - k + 1) % size
  {
    ModAdd(n, -k, size);
    ModAdd(n - k, 1, size);
  }

  // ---------------------------------------------------------------- the object

  /** The first `n` samples of one channel of an interleaved buffer. */
  function Channel(samples: seq<int16>, channels: nat, c: nat, n: nat): (r: seq<int16>)
    requires c < channels && n * channels <= |samples|
    ensures |r| == n
  {
    if n == 0 then []
    else
      AtBounds(n - 1, n, channels, c);
      assert (n - 1) * channels <= n * channels;
      Channel(samples, channels, c, n - 1) + [samples[At(n - 1, channels, c)]]
  }

  function NoTracks(channels: nat): (r: seq<seq<int16>>)
    ensures |r| == channels && forall c :: 0 <= c < channels ==> r[c] == []
  {
    seq(channels, _ => [])
  }

  function WindowSamples(sampleRate: nat, windowMs: nat): nat {
    sampleRate * windowMs / 1000
  }

  class Shifter {
    const channels: nat
    const maxDelay: nat
    const bufferSize: nat
    const pow: (real, real) -> real
    var delayBuffer: array<real>
    var writePtr: nat
    var phase: real
    ghost var tracks: seq<seq<int16>>  // per channel, everything written since the last reset

    ghost predicate Valid()
      reads this, delayBuffer
    {
      && channels >= 1 && maxDelay >= 1 && bufferSize == maxDelay * 2
      && 0.0 <= phase < 1.0 && writePtr < bufferSize
      && |tracks| == channels
      && forall c :: 0 <= c < channels ==> Keeps(c) && |tracks[c]| % bufferSize == writePtr
    }

    ghost predicate Keeps(c: nat)
      reads this, delayBuffer
    {
      c < |tracks| && Holds(delayBuffer[..], bufferSize, channels, c, tracks[c])
    }

    constructor (sampleRate: nat, channels: nat, windowMs: nat, pow: (real, real) -> real)
      requires channels >= 1 && WindowSamples(sampleRate, windowMs) >= 1
      ensures Valid() && fresh(delayBuffer)
      ensures this.channels == channels && maxDelay == sampleRate * windowMs / 1000 && this.pow == pow
      ensures phase == 0.0 && tracks == NoTracks(channels)
    {
      hide Holds, NoTracks;
      var m := WindowSamples(sampleRate, windowMs);
      var size := m * 2;
      var line := new real[size * channels](_ => 0.0);
      this.channels, this.maxDelay, this.bufferSize, this.pow := channels, m, size, pow;
      delayBuffer, writePtr, phase := line, 0, 0.0;
      tracks := NoTracks(channels);
      new;
      ZeroResidue(bufferSize);
      AllSilent();
    }

    method Reset()
      requires Valid()
      modifies this, delayBuffer
      ensures Valid() && delayBuffer == old(delayBuffer)
      ensures phase == 0.0 && tracks == NoTracks(channels)
    {
      hide Holds, NoTracks;
      assert Keeps(0);
      KeepsLength(0);
      writePtr, phase := 0, 0.0;
      tracks := NoTracks(channels);
      var line := delayBuffer;
      for i := 0 to line.Length
        invariant delayBuffer == line && writePtr == 0 && phase == 0.0 && tracks == NoTracks(channels)
        invariant forall j :: 0 <= j < i ==> line[j] == 0.0
      {
        line[i] := 0.0;
      }
      ZeroResidue(bufferSize);
      AllSilent();
    }

    lemma AllSilent()
      requires bufferSize >= 1 && delayBuffer.Length == bufferSize * channels && tracks == NoTracks(channels)
      requires forall i :: 0 <= i < delayBuffer.Length ==> delayBuffer[i] == 0.0
      ensures forall c :: 0 <= c < channels ==> Keeps(c) && tracks[c] == []
    {
      hide Holds;
      forall c | 0 <= c < channels
        ensures Keeps(c)
      {
        SilenceHolds(delayBuffer[..], bufferSize, channels, c);
      }
    }

    lemma KeepsLength(c: nat)
      requires Keeps(c)
      ensures delayBuffer.Length == bufferSize * channels && c < channels && bufferSize >= 1
    {
    }

    /** For any delay within the line: interpolation between two samples of the unbounded history. */
    method ReadInterpolated(delayFrames: real, c: nat) returns (r: real)
      requires bufferSize >= 1 && Keeps(c) && c < channels
      requires |tracks[c]| > 0 && (|tracks[c]| - 1) % bufferSize == writePtr < bufferSize
      requires 0.0 <= delayFrames <= (bufferSize - 1) as real
      ensures r == Delayed(tracks[c], delayFrames)
    {
      hide Lerp;
      var size := bufferSize;
      var readPos := WrapPosition(writePtr as real - delayFrames, size);
      var idx1: nat := Min(readPos.Floor, size - 1);
      var idx2 := (idx1 + 1) % size;
      var frac := readPos - idx1 as real;

      ghost var n, k := |tracks[c]|, Ceil(delayFrames);
      OneTurn(writePtr as real - delayFrames, readPos, size);
      PositionOfDelay(writePtr, delayFrames, size, readPos);
      NeighbourCells(n - 1, k, size);
      AtBounds(idx1, size, channels, c);
      AtBounds(idx2, size, channels, c);
      var val1 := delayBuffer[At(idx1, channels, c)];
      var val2 := delayBuffer[At(idx2, channels, c)];
      ReadCells(delayBuffer[..], size, channels, c, tracks[c], delayFrames, idx1, idx2);
      r := Lerp(val1, val2, frac);
    }

    /** Brings a position into the line by whole turns, from either side. */
    method WrapPosition(start: real, size: nat) returns (readPos: real)
      requires size > 0
      ensures 0.0 <= readPos < size as real
      ensures WholeTurns(start, readPos, size)
    {
      readPos := start;
      ghost var turns := 0;
      TurnsZero(size);
      while readPos < 0.0
        invariant readPos == start + turns as real * size as real
        decreases -readPos
      {
        TurnsStep(turns, size);
        readPos := readPos + size as real;
        turns := turns + 1;
      }
      while readPos >= size as real
        invariant readPos == start + turns as real * size as real && readPos >= 0.0
        decreases readPos
      {
        TurnsStep(turns - 1, size);
        readPos := readPos - size as real;
        turns := turns - 1;
      }
      assert TurnsBy(start, readPos, size, turns);
    }

    method ProcessFrameChannels(buffer: array<int16>, off: nat, params: Crossfade)
      requires Valid() && off + channels <= buffer.Length
      requires params == CrossfadeAt(phase, maxDelay)
      modifies this`tracks, delayBuffer, buffer
      ensures |tracks| == channels
      ensures forall c :: 0 <= c < channels ==> Keeps(c) && tracks[c] == old(tracks[c]) + [old(buffer[off + c])]
      ensures forall c :: 0 <= c < channels ==> buffer[off + c] == ShiftedSample(tracks[c], phase, maxDelay)
      ensures forall i :: 0 <= i < buffer.Length && !(off <= i < off + channels) ==> buffer[i] == old(buffer[i])
    {
      hide ShiftedSample, Holds;
      ghost var input, tracks0 := buffer[off..off + channels], tracks;
      for c := 0 to channels
        invariant ChannelsDone(buffer, off, c, input, tracks0)
        invariant forall i :: 0 <= i < buffer.Length && !(off <= i < off + channels) ==> buffer[i] == old(buffer[i])
      {
        hide *;
        ProcessChannel(buffer, off, c, params, input, tracks0);
      }
    }

    /** The channels before `c` have their output and one more sample of history, the others wait. */
    ghost predicate ChannelsDone(buffer: array<int16>, off: nat, c: nat, input: seq<int16>, tracks0: seq<seq<int16>>)
      reads this, delayBuffer, buffer
    {
      && bufferSize >= 1 && writePtr < bufferSize && |tracks| == channels == |tracks0| == |input| && off + channels <= buffer.Length
      && (forall e :: 0 <= e < channels ==> Keeps(e) && |tracks0[e]| % bufferSize == writePtr)
      && (forall e :: 0 <= e < channels ==> tracks[e] == if e < c then tracks0[e] + [input[e]] else tracks0[e])
      && (forall e :: c <= e < channels ==> buffer[off + e] == input[e])
      && (maxDelay >= 1 && 0.0 <= phase < 1.0 && bufferSize == maxDelay * 2)
      && (forall e :: 0 <= e < c && e < channels ==> buffer[off + e] == ShiftedSample(tracks[e], phase, maxDelay))
    }

    /** One turn of the channel loop. */
    method ProcessChannel(buffer: array<int16>, off: nat, c: nat, params: Crossfade, ghost input: seq<int16>, ghost tracks0: seq<seq<int16>>)
      requires ChannelsDone(buffer, off, c, input, tracks0) && c < channels
      requires params == CrossfadeAt(phase, maxDelay)
      modifies this`tracks, delayBuffer, buffer
      ensures ChannelsDone(buffer, off, c + 1, input, tracks0)
      ensures forall i :: 0 <= i < buffer.Length && i != off + c ==> buffer[i] == old(buffer[i])
    {
      hide Delayed, Weighted, Holds, Weight, ShiftedSample;
      WriteSample(c, buffer[off + c]);
      assert tracks[c] == tracks0[c] + [input[c]] && |tracks[c]| - 1 == |tracks0[c]|;
      var x := MixSample(c, params);
      buffer[off + c] := x;
    }

    /** Two reads, crossfaded and clamped; the clamp never has anything to do. */
    method MixSample(c: nat, params: Crossfade) returns (x: int16)
      requires maxDelay >= 1 && bufferSize == maxDelay * 2 && 0.0 <= phase < 1.0
      requires params == CrossfadeAt(phase, maxDelay)
      requires Keeps(c) && c < channels
      requires |tracks[c]| > 0 && (|tracks[c]| - 1) % bufferSize == writePtr < bufferSize
      ensures x == ShiftedSample(tracks[c], phase, maxDelay)
    {
      hide Delayed, Weighted, Holds, Weight;
      DelaysFit(phase, maxDelay);
      var out1 := ReadInterpolated(params.delay1, c);
      var out2 := ReadInterpolated(params.delay2, c);
      var mixedOut := Weighted(out1, params.weight1, out2, params.weight2);
      MixedInRange(tracks[c], phase, maxDelay);
      x := Clamp(Truncate(mixedOut), -0x8000, 0x7FFF);
    }

    /** `delay_buffer_[(write_ptr_ * channels_) + c] = x` */
    method WriteSample(c: nat, x: int16)
      requires c < channels == |tracks| && bufferSize >= 1 && writePtr < bufferSize
      requires forall e :: 0 <= e < channels ==> Keeps(e)
      requires |tracks[c]| % bufferSize == writePtr
      modifies this`tracks, delayBuffer
      ensures |tracks| == channels && tracks == old(tracks)[c := old(tracks[c]) + [x]]
      ensures forall e :: 0 <= e < channels ==> Keeps(e)
    {
      hide Holds;
      ghost var line := delayBuffer[..];
      assert Keeps(c);
      WriteExtends(line, bufferSize, channels, c, tracks[c], x);
      delayBuffer[At(writePtr, channels, c)] := x as real;
      ghost var line' := delayBuffer[..];
      PositionKept(|tracks[c]|, bufferSize);
      assert line' == line[At(writePtr, channels, c) := x as real];
      forall e | 0 <= e < channels && e != c
        ensures Holds(line', bufferSize, channels, e, tracks[e])
      {
        assert old(Keeps(e));
        WriteKeepsOthers(line, bufferSize, channels, c, writePtr, e, tracks[e], x as real);
      }
      tracks := tracks[c := tracks[c] + [x]];
    }

    method AdvancePointers(delayChangeRate: real, phaseIncrement: real)
      requires bufferSize >= 1 && 0.0 <= phase < 1.0
      requires phaseIncrement >= 0.0
      modifies this`writePtr, this`phase
      ensures writePtr == (old(writePtr) + 1) % bufferSize
      ensures phase == Frac(old(phase) + (if delayChangeRate < 0.0 then -phaseIncrement else phaseIncrement))
    {
      writePtr := (writePtr + 1) % bufferSize;
      if delayChangeRate < 0.0 {
        ghost var turns := 0;
        phase := phase - phaseIncrement;
        while phase < 0.0
          invariant phase == old(phase) - phaseIncrement + turns as real && phase < 1.0
          invariant writePtr == (old(writePtr) + 1) % bufferSize
          decreases -phase
        {
          phase := phase + 1.0;
          turns := turns + 1;
        }
        FracUnique(old(phase) - phaseIncrement, -turns, phase);
      } else {
        ghost var turns := 0;
        phase := phase + phaseIncrement;
        while phase >= 1.0
          invariant phase == old(phase) + phaseIncrement - turns as real && phase >= 0.0
          invariant writePtr == (old(writePtr) + 1) % bufferSize
          decreases phase
        {
          phase := phase - 1.0;
          turns := turns + 1;
        }
        FracUnique(old(phase) + phaseIncrement, turns, phase);
      }
    }

    function Change(semitones: real): real {
      1.0 - pow(2.0, semitones / 12.0)
    }

    /** Every output sample is the mix of two delayed reads of the whole history of its channel. */
    method Process(buffer: array<int16>, semitones: real)
      requires Valid()
      modifies this, delayBuffer, buffer
      ensures Valid() && delayBuffer == old(delayBuffer)
      ensures semitones == 0.0 ==> buffer[..] == old(buffer[..]) && tracks == old(tracks) && phase == old(phase)
      ensures semitones != 0.0 ==>
                var n := buffer.Length / channels;
                && n * channels <= buffer.Length
                && phase == PhaseAfter(old(phase), Change(semitones), maxDelay, n)
                && (forall c :: 0 <= c < channels ==> tracks[c] == old(tracks[c]) + Channel(old(buffer[..]), channels, c, n))
                && (forall i :: n * channels <= i < buffer.Length ==> buffer[i] == old(buffer[i]))
                && Outputs(buffer[..], old(buffer[..]), channels, n, old(tracks), old(phase), Change(semitones), maxDelay)
    {
      if semitones == 0.0 {
        return;
      }
      hide Holds, ShiftedSample, PhaseAfter, Channel, Outputs, Frac;
      var pitchRatio := pow(2.0, semitones / 12.0);
      var delayChangeRate := 1.0 - pitchRatio;
      var phaseIncrement := StepOf(AbsReal(delayChangeRate), maxDelay);
      var numFrames := buffer.Length / channels;
      ghost var input := buffer[..];
      FramesFit(buffer.Length, channels);
      PhaseStart(phase, delayChangeRate, maxDelay);
      NoOutputs(input, channels, tracks, phase, delayChangeRate, maxDelay);
      for f := 0 to numFrames
        invariant Valid() && delayBuffer == old(delayBuffer)
        invariant Progress(buffer, input, f, old(tracks), old(phase), delayChangeRate)
      {
        NextFrame(f, numFrames, channels, buffer.Length);
        ProcessFrame(buffer, f, delayChangeRate, phaseIncrement, input, old(tracks), old(phase));
      }
    }

    /** What holds when the first `f` frames of a buffer have been processed. */
    ghost predicate Progress(buffer: array<int16>, input: seq<int16>, f: nat, tracks0: seq<seq<int16>>, phase0: real, change: real)
      reads this, buffer
    {
      && maxDelay >= 1 && |tracks0| == channels == |tracks|
      && |input| == buffer.Length && f * channels <= buffer.Length
      && phase == PhaseAfter(phase0, change, maxDelay, f)
      && (forall c :: 0 <= c < channels ==> tracks[c] == tracks0[c] + Channel(input, channels, c, f))
      && (forall i :: f * channels <= i < buffer.Length ==> buffer[i] == input[i])
      && Outputs(buffer[..], input, channels, f, tracks0, phase0, change, maxDelay)
    }

    /** One turn of the frame loop. */
    method ProcessFrame(buffer: array<int16>, f: nat, delayChangeRate: real, phaseIncrement: real,
                        ghost input: seq<int16>, ghost tracks0: seq<seq<int16>>, ghost phase0: real)
      requires Valid() && Progress(buffer, input, f, tracks0, phase0, delayChangeRate)
      requires f * channels + channels == (f + 1) * channels <= buffer.Length
      requires phaseIncrement == StepOf(AbsReal(delayChangeRate), maxDelay)
      modifies this, delayBuffer, buffer
      ensures Valid() && delayBuffer == old(delayBuffer)
      ensures Progress(buffer, input, f + 1, tracks0, phase0, delayChangeRate)
    {
      hide Holds, ShiftedSample, PhaseAfter, Channel, Outputs, Frac;
      ghost var output, before := buffer[..], tracks;
      var params := CrossfadeAt(phase, maxDelay);
      ProcessFrameChannels(buffer, f * channels, params);
      ChannelsGrow(input, channels, f, tracks0);
      OutputsGrow(output, buffer[..], input, channels, f, tracks0, tracks, phase0, delayChangeRate, maxDelay);
      SignedStep(delayChangeRate, maxDelay);
      AdvancePointers(delayChangeRate, phaseIncrement);
      PhaseStep(phase0, delayChangeRate, maxDelay, f);
      forall c | 0 <= c < channels
        ensures |tracks[c]| % bufferSize == writePtr
      {
        ModAdd(|before[c]|, 1, bufferSize);
      }
    }
  }

  function Clamp(x: int, lo: int, hi: int): int {
    if x < lo then lo else if x > hi then hi else x
  }

  /** The first `n` frames of the output, channel by channel. */
  ghost predicate Outputs(output: seq<int16>, input: seq<int16>, channels: nat, n: nat,
                          tracks: seq<seq<int16>>, phase: real, change: real, maxDelay: nat)
    requires |tracks| == channels && maxDelay > 0
    requires |output| == |input| && n * channels <= |input|
  {
    forall f, c :: 0 <= f < n && 0 <= c < channels ==>
      OutputAt(output, input, channels, f, c, tracks[c], phase, change, maxDelay)
  }

  ghost predicate OutputAt(output: seq<int16>, input: seq<int16>, channels: nat, f: nat, c: nat,
                           track: seq<int16>, phase: real, change: real, maxDelay: nat)
    requires maxDelay > 0 && c < channels
  {
    && (f + 1) * channels <= |input| && At(f, channels, c) < |output|
    && output[At(f, channels, c)]
       == ShiftedSample(track + Channel(input, channels, c, f + 1), PhaseAfter(phase, change, maxDelay, f), maxDelay)
  }

  lemma NoOutputs(input: seq<int16>, channels: nat, tracks: seq<seq<int16>>, phase: real, change: real, maxDelay: nat)
    requires |tracks| == channels && maxDelay > 0
    ensures 0 * channels <= |input| && Outputs(input, input, channels, 0, tracks, phase, change, maxDelay)
    ensures forall c :: 0 <= c < channels ==> tracks[c] + Channel(input, channels, c, 0) == tracks[c]
  {
  }

  lemma ChannelsGrow(input: seq<int16>, channels: nat, f: nat, tracks: seq<seq<int16>>)
    requires |tracks| == channels && f * channels + channels == (f + 1) * channels <= |input|
    ensures forall c :: 0 <= c < channels ==>
              tracks[c] + Channel(input, channels, c, f) + [input[f * channels + c]] == tracks[c] + Channel(input, channels, c, f + 1)
  {
    forall c | 0 <= c < channels
      ensures tracks[c] + Channel(input, channels, c, f) + [input[f * channels + c]] == tracks[c] + Channel(input, channels, c, f + 1)
    {
      assert Channel(input, channels, c, f + 1) == Channel(input, channels, c, f) + [input[f * channels + c]];
    }
  }

  /** A new shifter puts out silence first, on every channel, whatever it receives. */
  lemma FirstOutputIsSilent(output: seq<int16>, input: seq<int16>, channels: nat, n: nat, c: nat, change: real, maxDelay: nat)
    requires maxDelay >= 2 && n > 0 && c < channels && |output| == |input| && n * channels <= |input|
    requires Outputs(output, input, channels, n, NoTracks(channels), 0.0, change, maxDelay)
    ensures c < |output| && output[c] == 0
  {
    hide ShiftedSample, PhaseAfter, Channel;
    assert OutputAt(output, input, channels, 0, c, NoTracks(channels)[c], 0.0, change, maxDelay);
    PhaseStart(0.0, change, maxDelay);
    var heard := Channel(input, channels, c, 1);
    assert [] + heard == [heard[0]];
    StartsSilently(heard[0], maxDelay);
    assert At(0, channels, c) == c;
  }

  lemma OutputsGrow(output: seq<int16>, output': seq<int16>, input: seq<int16>, channels: nat, f: nat,
                    tracks: seq<seq<int16>>, tracks': seq<seq<int16>>, phase: real, change: real, maxDelay: nat)
    requires |tracks| == channels == |tracks'| && maxDelay > 0 && |output| == |output'| == |input|
    requires f * channels + channels == (f + 1) * channels <= |input|
    requires Outputs(output, input, channels, f, tracks, phase, change, maxDelay)
    requires forall i :: 0 <= i < f * channels ==> output'[i] == output[i]
    requires forall c :: 0 <= c < channels ==>
               && tracks'[c] == tracks[c] + Channel(input, channels, c, f + 1)
               && output'[f * channels + c] == ShiftedSample(tracks'[c], PhaseAfter(phase, change, maxDelay, f), maxDelay)
    ensures Outputs(output', input, channels, f + 1, tracks, phase, change, maxDelay)
  {
    hide ShiftedSample, PhaseAfter, Channel;
    forall g, c | 0 <= g < f + 1 && 0 <= c < channels
      ensures OutputAt(output', input, channels, g, c, tracks[c], phase, change, maxDelay)
    {
      if g < f {
        assert OutputAt(output, input, channels, g, c, tracks[c], phase, change, maxDelay);
        AtBounds(g, f, channels, c);
      }
    }
  }

  lemma SignedStep(change: real, maxDelay: nat)
    requires maxDelay > 0
    ensures var inc := StepOf(AbsReal(change), maxDelay);
            inc >= 0.0 && StepOf(change, maxDelay) == if change < 0.0 then -inc else inc
  {
    SignedQuotient(change, maxDelay as real);
  }

  lemma SignedQuotient(x: real, m: real)
    requires m > 0.0
    ensures AbsReal(x) / m >= 0.0
    ensures x < 0.0 ==> x / m == -(AbsReal(x) / m)
  {
    var q := AbsReal(x) / m;
    assert q * m == AbsReal(x);
    QuotientSign(AbsReal(x), m);
    if x < 0.0 {
      assert (x / m) * m == x;
      assert (x / m + q) * m == (x / m) * m + q * m;
      NoZeroFactor(x / m + q, m);
    }
  }

  lemma QuotientSign(x: real, m: real)
    requires x >= 0.0 && m > 0.0
    ensures x / m >= 0.0
  {
  }

  lemma NoZeroFactor(a: real, m: real)
    requires m > 0.0 && a * m == 0.0
    ensures a == 0.0
  {
  }
}
