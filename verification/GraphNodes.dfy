/** The nodes of an audio graph: how they are wired, flagged, played and closed. */
module GraphNodes {
  import opened Bytes
  import opened AudioConfig

  const CLIP_LIMIT := 30000

  datatype NodeKind = FileInput | Mixer | Delay | Clients | FileOptions

  datatype ErrorCode = Success | Underrun | EndOfStream | FileIOError | FormatError | Critical | NotSupported

  /** The samples of a frame; anything longer or shorter is not a frame. */
  type Frame = s: seq<int16> | |s| == SAMPLES_PER_FRAME ghost witness seq<int16>(SAMPLES_PER_FRAME, _ => 0)

  function Silence(): (f: seq<int16>)
    ensures |f| == SAMPLES_PER_FRAME && forall i :: 0 <= i < SAMPLES_PER_FRAME ==> f[i] == 0
  {
    seq<int16>(SAMPLES_PER_FRAME, _ => 0)
  }

  // ---------------------------------------------------------------- audio arithmetic

  /** Addition of the server's 32-bit accumulator. */
  function Wrap32(x: int): (w: int)
    ensures -0x8000_0000 <= w < 0x8000_0000 && (w - x) % 0x1_0000_0000 == 0
  {
    (x + 0x8000_0000) % 0x1_0000_0000 - 0x8000_0000
  }

  /** Beyond the limit the sample goes through a saturating curve that is left open. */
  function SoftClip(curve: int -> int16, x: int): int16 {
    if x > CLIP_LIMIT || x < -CLIP_LIMIT then curve(x) else x
  }

  // ---------------------------------------------------------------- what an input adds to a mix

  /** A file input as the mixer meets it at the beginning of a frame. */
  datatype Source = Source(play: nat -> Frame, total: nat, processed: nat, starved: bool, filled: bool)

  function Occurrences<T(==)>(xs: seq<T>, x: T): nat {
    if xs == [] then 0 else Occurrences(xs[..|xs| - 1], x) + (if xs[|xs| - 1] == x then 1 else 0)
  }

  /** How far an input can be played: without bound, to its end, or through one buffer of silence if it was not filled. */
  function Limit(s: Source): Option<nat> {
    if s.filled then
      if s.starved then Some(s.processed) else if s.total == 0 then None else Some(s.total)
    else if 0 < s.total < FRAMES_PER_BUFFER then Some(s.total)
    else Some(FRAMES_PER_BUFFER)
  }

  /** How many of `n` requests for a frame an input can serve. */
  function Served(s: Source, n: nat): nat {
    match Limit(s)
    case None => n
    case Some(limit) =>
      if s.processed >= limit then 0
      else if n <= limit - s.processed then n
      else limit - s.processed
  }

  /** A buffer that was reset and not filled again holds silence. */
  function FrameFrom(s: Source, k: nat): Frame {
    if s.filled then s.play(k) else Silence()
  }

  /** What request `r` of this frame gives, if it is served. */
  function Contribution(s: Source, r: nat): Option<Frame> {
    if Served(s, r + 1) == r + 1 then Some(FrameFrom(s, s.processed + r)) else None
  }

  function Added(f: Option<Frame>, i: nat): int
    requires i < SAMPLES_PER_FRAME
  {
    if f.Some? then f.value[i] else 0
  }

  /** What request `n` of a round over the inputs of a mixer gives; an input may be listed twice. */
  function Heard<T(==)>(inputs: seq<T>, sources: seq<Source>, n: nat): Option<Frame>
    requires n < |inputs| == |sources|
  {
    Contribution(sources[n], Occurrences(inputs[..n], inputs[n]))
  }

  function MixSum<T(==)>(inputs: seq<T>, sources: seq<Source>, n: nat, i: nat): int
    requires n <= |inputs| == |sources| && i < SAMPLES_PER_FRAME
  {
    if n == 0 then 0 else MixSum(inputs, sources, n - 1, i) + Added(Heard(inputs, sources, n - 1), i)
  }

  predicate AnyHeard<T(==)>(inputs: seq<T>, sources: seq<Source>, n: nat)
    requires n <= |inputs| == |sources|
  {
    exists j :: 0 <= j < n && Heard(inputs, sources, j).Some?
  }

  /** The mixed frame: the clipped sums. */
  function MixedFrame<T(==)>(curve: int -> int16, inputs: seq<T>, sources: seq<Source>): (f: seq<int16>)
    requires |inputs| == |sources|
    ensures |f| == SAMPLES_PER_FRAME
  {
    seq<int16>(SAMPLES_PER_FRAME, i requires 0 <= i < SAMPLES_PER_FRAME => Export(curve, MixSum(inputs, sources, |inputs|, i)))
  }

  function Export(curve: int -> int16, sum: int): int16 {
    SoftClip(curve, Wrap32(sum))
  }

  /** With at most 65535 inputs the accumulator is never close to its limits. */
  lemma {:induction false} SumBound<T>(inputs: seq<T>, sources: seq<Source>, n: nat, i: nat)
    requires n <= |inputs| == |sources| && i < SAMPLES_PER_FRAME
    ensures -0x8000 * n <= MixSum(inputs, sources, n, i) <= 0x7FFF * n
  {
    if n != 0 {
      SumBound(inputs, sources, n - 1, i);
    }
  }

  lemma AccumulatorNeverWraps<T>(inputs: seq<T>, sources: seq<Source>, n: nat, i: nat)
    requires n <= |inputs| == |sources| && i < SAMPLES_PER_FRAME && n <= 0xFFFF
    ensures Wrap32(MixSum(inputs, sources, n, i)) == MixSum(inputs, sources, n, i)
  {
    SumBound(inputs, sources, n, i);
  }

  lemma WrapAdd(x: int, y: int)
    ensures Wrap32(Wrap32(x) + y) == Wrap32(x + y)
  {
    ModAdd(x + 0x8000_0000, y, 0x1_0000_0000);
  }

  /** Serving one request after `r` others is serving request `r`. */
  lemma ServeNext(s: Source, r: nat)
    ensures var now := s.(processed := s.processed + Served(s, r));
            Contribution(now, 0) == Contribution(s, r)
    ensures Served(s, r + 1) == Served(s, r) + (if Contribution(s, r).Some? then 1 else 0)
  {
  }

  lemma OccurrencesStep<T>(xs: seq<T>, i: nat)
    requires i < |xs|
    ensures forall x :: Occurrences(xs[..i + 1], x) == Occurrences(xs[..i], x) + (if xs[i] == x then 1 else 0)
  {
    assert xs[..i + 1][..i] == xs[..i];
  }

  /** acc[i] += input[i] */
  method SumBuffers(accumulator: array<int>, input: array<int16>)
    modifies accumulator
    ensures forall i :: 0 <= i < accumulator.Length && i < input.Length ==>
              accumulator[i] == Wrap32(old(accumulator[i]) + input[i])
    ensures forall i :: input.Length <= i < accumulator.Length ==> accumulator[i] == old(accumulator[i])
  {
    hide Wrap32;
    var i := 0;
    while i < accumulator.Length && i < input.Length
      invariant 0 <= i && i <= accumulator.Length && i <= input.Length
      invariant forall k :: 0 <= k < i ==> accumulator[k] == Wrap32(old(accumulator[k]) + input[k])
      invariant forall k :: i <= k < accumulator.Length ==> accumulator[k] == old(accumulator[k])
    {
      accumulator[i] := Wrap32(accumulator[i] + input[i]);
      i := i + 1;
    }
  }

  method CompressAndExport(curve: int -> int16, accumulator: array<int>, output: array<int16>)
    requires output.Length <= accumulator.Length
    modifies output
    ensures forall i :: 0 <= i < output.Length ==> output[i] == SoftClip(curve, accumulator[i])
  {
    for i := 0 to output.Length
      invariant forall k :: 0 <= k < i ==> output[k] == SoftClip(curve, accumulator[k])
    {
      output[i] := SoftClip(curve, accumulator[i]);
    }
  }

  // ---------------------------------------------------------------- nodes

  /** One class for all kinds; which fields matter depends on the kind. */
  class Node {
    const kind: NodeKind
    const play: nat -> Frame  // file inputs: frame k since the file was opened, with its effects applied
    var target: Node?
    var inputs: seq<Node>  // mixers
    var options: Node?  // file inputs
    var processed: nat
    var total: nat
    var inLoop: bool
    var filled: bool  // file inputs: the buffers have been filled since the last reset
    var starved: bool  // file inputs: the next block of a filled buffer is not ready
    var closeFails: bool  // file inputs: the file system refuses to close the file
    var refillLate: bool  // file inputs: a fill that closing starts is not done before the next frame

    constructor (kind: NodeKind, total: nat, play: nat -> Frame)
      ensures this.kind == kind && this.play == play && this.total == total
      ensures target == null && inputs == [] && options == null && processed == 0
      ensures !inLoop && !filled && !starved && !closeFails && !refillLate
    {
      this.kind, this.play, this.total := kind, play, total;
      target, inputs, options, processed := null, [], null, 0;
      inLoop, filled, starved, closeFails, refillLate := false, false, false, false, false;
    }

    predicate IsComplete()
      reads this
    {
      total > 0 && processed >= total
    }

    /** A file input that has no frame to give although it is not complete. */
    predicate IsLate()
      reads this
    {
      if filled then starved else processed >= FRAMES_PER_BUFFER
    }

    function AsSource(): Source
      reads this
    {
      Source(play, total, processed, starved, filled)
    }

    // -------------------------------------------------------------- wiring

    /** `source -> this`; a file input takes its options this way, everything else rewires `source`. */
    method ConnectInput(source: Node) returns (ok: bool)
      modifies this`inputs, this`options, source`target
      ensures ok <==> Accepts(kind, source.kind)
      ensures source.target == if Wires(kind, source.kind) then this else old(source.target)
      ensures ok && (kind == Mixer || kind == Delay || (kind == FileInput && source.kind == Delay)) ==> source.target == this
      ensures inputs == if kind == Mixer && source.kind == FileInput then old(inputs) + [source] else old(inputs)
      ensures options == if kind == FileInput && source.kind == FileOptions then source else old(options)
    {
      match kind {
        case Mixer =>
          if source.kind == Mixer {
            return false;
          }
          if source.kind == Clients {
            return false;
          }
          if source.kind != Delay && source.kind != FileInput {
            return false;
          }
          if source.kind == FileInput {
            inputs := inputs + [source];
          }
          WireStandard(source);
          ok := true;
        case FileInput =>
          if source.kind == Mixer {
            return false;
          }
          if source.kind == FileOptions {
            options := source;
            return true;
          }
          if source.kind == Delay {
            WireStandard(source);
            return true;
          }
          ok := false;
        case Delay =>
          if source.kind == Clients {
            return false;
          }
          WireStandard(source);
          ok := true;
        case Clients =>
          ok := true;
        case FileOptions =>
          ok := false;
      }
    }

    method WireStandard(source: Node)
      modifies source`target
      ensures source.target == this
    {
      source.target := this;
    }

    // -------------------------------------------------------------- flags

    /** A mixer passes the flag on to its inputs, which are file inputs. */
    method SetInLoop(val: bool)
      modifies this`inLoop, inputs`inLoop
      ensures inLoop == val
      ensures forall n :: n in inputs && kind == Mixer ==> n.inLoop == val
      ensures forall n :: n in inputs && kind != Mixer && n != this ==> n.inLoop == old(n.inLoop)
    {
      inLoop := val;
      if kind == Mixer {
        for i := 0 to |inputs|
          invariant inLoop == val
          invariant forall k :: 0 <= k < i ==> inputs[k].inLoop == val
        {
          inputs[i].inLoop := val;
        }
      }
    }

    /** A mixer runs as long as its longest input. */
    method SetMaxFrames()
      modifies this`total
      ensures forall n :: n in inputs && n != this ==> n.total <= total
      ensures total == 0 || exists n :: n in inputs && old(n.total) == total
    {
      var max := 0;
      for i := 0 to |inputs|
        invariant forall k :: 0 <= k < i ==> inputs[k].total <= max
        invariant max == 0 || exists k :: 0 <= k < i && inputs[k].total == max
      {
        if inputs[i].total > max {
          max := inputs[i].total;
        }
      }
      total := max;
    }

    // -------------------------------------------------------------- closing

    /** The first fill of the buffers. */
    method InitializeBuffers()
      modifies this`filled
      ensures filled <==> kind == FileInput || old(filled)
    {
      if kind == FileInput {
        filled := true;
      }
    }

    /** Closing resets the buffers; only in a loop they are filled again. */
    method CloseFile() returns (code: ErrorCode)
      modifies this`processed, this`filled
      ensures code == if closeFails then FileIOError else Success
      ensures processed == if closeFails then old(processed) else 0
      ensures filled == if closeFails then old(filled) else inLoop && !refillLate
    {
      if closeFails {
        return FileIOError;
      }
      processed := 0;
      filled := false;
      if inLoop {
        filled := !refillLate;
      }
      code := Success;
    }

    predicate ClosesFine()
      reads this, inputs
    {
      && (kind == FileInput ==> !closeFails)
      && (kind == Mixer ==> forall n :: n in inputs ==> !n.closeFails)
    }

    /** The first `i` inputs have been closed, and the next one, if any, cannot be. */
    ghost predicate ClosedUpTo(i: nat)
      reads this, inputs
    {
      && i <= |inputs|
      && (forall k :: 0 <= k < i ==>
            !inputs[k].closeFails && inputs[k].processed == 0 && inputs[k].filled == (inputs[k].inLoop && !inputs[k].refillLate))
      && (i < |inputs| ==> inputs[i].closeFails)
    }

    /** A mixer closes its inputs one by one and stops at the first that fails. */
    method Close() returns (code: ErrorCode)
      requires this !in inputs
      modifies this`processed, this`filled, inputs`processed, inputs`filled
      ensures code == if ClosesFine() then Success else FileIOError
      ensures processed == if code == Success && kind in {FileInput, Mixer, Delay} then 0 else old(processed)
      ensures kind == Mixer ==>
                exists i: nat :: ClosedUpTo(i) && forall n :: n in inputs && n !in inputs[..i] ==>
                                   n.processed == old(n.processed) && n.filled == old(n.filled)
      ensures kind != Mixer ==> forall n :: n in inputs ==> n.processed == old(n.processed) && n.filled == old(n.filled)
      ensures code == Success && kind == Mixer ==>
                forall n :: n in inputs ==> n.processed == 0 && n.filled == (n.inLoop && !n.refillLate)
      ensures filled == if code == Success && kind == FileInput then inLoop && !refillLate else old(filled)
    {
      match kind {
        case FileInput =>
          code := CloseFile();
        case Mixer =>
          for i := 0 to |inputs|
            invariant processed == old(processed) && filled == old(filled)
            invariant forall k :: 0 <= k < i ==>
                        !inputs[k].closeFails && inputs[k].processed == 0 && inputs[k].filled == (inputs[k].inLoop && !inputs[k].refillLate)
            invariant forall n :: n in inputs && n !in inputs[..i] ==> n.processed == old(n.processed) && n.filled == old(n.filled)
          {
            var result := inputs[i].CloseFile();
            if result != Success {
              assert ClosedUpTo(i);
              return result;
            }
            assert forall n :: n in inputs && n !in inputs[..i + 1] ==> n !in inputs[..i];
          }
          processed := 0;
          assert ClosedUpTo(|inputs|) && inputs[..|inputs|] == inputs;
          code := Success;
        case Delay =>
          processed := 0;
          code := Success;
        case _ =>
          code := Success;
      }
    }

    // -------------------------------------------------------------- playing

    /** What the next `process_frame` returns. */
    ghost function Result(): ErrorCode
      reads this, inputs
    {
      match kind
      case FileInput => if IsComplete() then EndOfStream else if IsLate() then Underrun else Success
      case Mixer => if AnyHeard(inputs, SourcesOf(inputs), |inputs|) then Success else EndOfStream
      case Delay => Success
      case _ => NotSupported
    }

    /** And what it leaves in a cleared buffer. */
    ghost function Output(curve: int -> int16): seq<int16>
      reads this, inputs
    {
      if Result() != Success then Silence()
      else
        match kind
        case FileInput => FrameFrom(AsSource(), processed)
        case Mixer => MixedFrame(curve, inputs, SourcesOf(inputs))
        case _ => Silence()
    }

    /** Whether the node is complete once that frame has been played. */
    ghost predicate CompleteNext()
      reads this, inputs
    {
      total > 0 && processed + (if Result() == Success then 1 else 0) >= total
    }

    method ProcessFile(buffer: array<int16>) returns (code: ErrorCode)
      requires buffer.Length == SAMPLES_PER_FRAME
      modifies this`processed, buffer
      ensures var f := old(Contribution(AsSource(), 0));
              && (code == Success <==> f.Some?)
              && buffer[..] == (if f.Some? then f.value else Silence())
              && processed == old(processed) + (if f.Some? then 1 else 0)
      ensures code == old(if IsComplete() then EndOfStream else if IsLate() then Underrun else Success)
    {
      if processed >= total && total > 0 {
        FillSilence(buffer);
        return EndOfStream;
      }
      if IsLate() {
        FillSilence(buffer);
        return Underrun;
      }
      CopyFrame(FrameFrom(AsSource(), processed), buffer);
      processed := processed + 1;
      code := Success;
    }

    /** One frame from every input in turn; an input that has none is skipped. */
    method ProcessMixer(curve: int -> int16, buffer: array<int16>) returns (code: ErrorCode)
      requires buffer.Length == SAMPLES_PER_FRAME
      requires this !in inputs
      modifies this`processed, inputs`processed, buffer
      ensures code == if AnyHeard(inputs, old(SourcesOf(inputs)), |inputs|) then Success else EndOfStream
      ensures buffer[..] == if code == Success then MixedFrame(curve, inputs, old(SourcesOf(inputs))) else Silence()
      ensures processed == old(processed) + (if code == Success then 1 else 0)
      ensures Consumed(SourcesOf(inputs), inputs, old(SourcesOf(inputs)), |inputs|)
    {
      hide *;
      var accumulator := new int[SAMPLES_PER_FRAME](_ => 0);
      ghost var sources := SourcesOf(inputs);
      var hasActiveInputs := MixInputs(accumulator, sources);
      if !hasActiveInputs {
        FillSilence(buffer);
        code := EndOfStream;
      } else {
        CompressAndExport(curve, accumulator, buffer);
        ExportedMix(curve, inputs, sources, accumulator[..], buffer[..]);
        processed := processed + 1;
        code := Success;
      }
    }

    method MixInputs(accumulator: array<int>, ghost sources: seq<Source>) returns (hasActiveInputs: bool)
      requires this !in inputs && sources == SourcesOf(inputs)
      requires accumulator.Length == SAMPLES_PER_FRAME && forall k :: 0 <= k < SAMPLES_PER_FRAME ==> accumulator[k] == 0
      modifies inputs`processed, accumulator
      ensures hasActiveInputs == AnyHeard(inputs, sources, |inputs|)
      ensures Accumulated(accumulator[..], inputs, sources, |inputs|)
      ensures Consumed(SourcesOf(inputs), inputs, sources, |inputs|)
    {
      hide *;
      var temp := new int16[SAMPLES_PER_FRAME](_ => 0);
      hasActiveInputs := false;
      MixStart(inputs, sources, accumulator[..]);
      for i := 0 to |inputs|
        invariant Accumulated(accumulator[..], inputs, sources, i)
        invariant hasActiveInputs == AnyHeard(inputs, sources, i)
        invariant Consumed(SourcesOf(inputs), inputs, sources, i)
      {
        hide *;
        var heard := MixInput(i, accumulator, temp, sources);
        AnyHeardStep(inputs, sources, i);
        if heard {
          hasActiveInputs := true;
        }
      }
    }

    /** One turn of the mixer's loop. */
    method MixInput(i: nat, accumulator: array<int>, temp: array<int16>, ghost sources: seq<Source>) returns (heard: bool)
      requires i < |inputs| == |sources| && this !in inputs
      requires temp.Length == SAMPLES_PER_FRAME == accumulator.Length
      requires Accumulated(accumulator[..], inputs, sources, i) && Consumed(SourcesOf(inputs), inputs, sources, i)
      modifies inputs`processed, accumulator, temp
      ensures heard <==> Heard(inputs, sources, i).Some?
      ensures Accumulated(accumulator[..], inputs, sources, i + 1) && Consumed(SourcesOf(inputs), inputs, sources, i + 1)
    {
      hide *;
      ghost var before := accumulator[..];
      heard := RequestInput(i, temp, sources);
      if heard {
        SumBuffers(accumulator, temp);
      }
      AccumulatedStep(before, accumulator[..], temp[..], inputs, sources, i);
    }

    /** The request for one frame. */
    method RequestInput(i: nat, temp: array<int16>, ghost sources: seq<Source>) returns (heard: bool)
      requires i < |inputs| == |sources| && this !in inputs && temp.Length == SAMPLES_PER_FRAME
      requires Consumed(SourcesOf(inputs), inputs, sources, i)
      modifies inputs`processed, temp
      ensures heard <==> Heard(inputs, sources, i).Some?
      ensures heard ==> temp[..] == Heard(inputs, sources, i).value
      ensures Consumed(SourcesOf(inputs), inputs, sources, i + 1)
    {
      hide Contribution, Served, Consumed;
      ghost var now := SourcesOf(inputs);
      RequestServed(now, inputs, sources, i);
      var result := inputs[i].ProcessFile(temp);
      heard := result == Success;
      ConsumedStep(now, SourcesOf(inputs), inputs, sources, i);
    }

    method ProcessDelay(buffer: array<int16>) returns (code: ErrorCode)
      requires buffer.Length == SAMPLES_PER_FRAME
      modifies this`processed, buffer
      ensures code == Success && buffer[..] == Silence() && processed == old(processed) + 1
    {
      FillSilence(buffer);
      processed := processed + 1;
      code := Success;
    }
  }

  /** A file input whose buffers are filled and not late gives the frames of its file one after the other. */
  lemma FileGivesNextFrame(n: Node, curve: int -> int16)
    requires n.kind == FileInput && n.filled && !n.starved && (n.processed < n.total || n.total == 0)
    ensures n.Result() == Success && n.Output(curve) == n.play(n.processed)
  {
  }

  /** A mixer ends as soon as no input has a frame: when all are complete, but also when the others are late. */
  lemma MixerEndsIff(n: Node)
    requires n.kind == Mixer
    ensures n.Result() == EndOfStream <==> forall m :: m in n.inputs ==> m.IsLate() || m.IsComplete()
  {
    var sources := SourcesOf(n.inputs);
    if n.Result() != EndOfStream {
      var j :| 0 <= j < |n.inputs| && Heard(n.inputs, sources, j).Some?;
      assert n.inputs[j] in n.inputs;
    } else {
      forall m | m in n.inputs
        ensures m.IsLate() || m.IsComplete()
      {
        var j := FirstOccurrence(n.inputs, m);
        assert Heard(n.inputs, sources, j).None?;
      }
    }
  }

  lemma FirstOccurrence<T>(xs: seq<T>, x: T) returns (j: nat)
    requires x in xs
    ensures j < |xs| && xs[j] == x && Occurrences(xs[..j], x) == 0
  {
    if x in xs[..|xs| - 1] {
      j := FirstOccurrence(xs[..|xs| - 1], x);
      assert xs[..|xs| - 1][..j] == xs[..j];
    } else {
      j := |xs| - 1;
      NoOccurrence(xs[..j], x);
    }
  }

  lemma {:induction false} NoOccurrence<T>(xs: seq<T>, x: T)
    requires x !in xs
    ensures Occurrences(xs, x) == 0
  {
    if xs != [] {
      NoOccurrence(xs[..|xs| - 1], x);
    }
  }

  /** The inputs of a mixer as they are now. */
  function SourcesOf(inputs: seq<Node>): (s: seq<Source>)
    reads inputs
    ensures |s| == |inputs| && forall i :: 0 <= i < |inputs| ==> s[i] == inputs[i].AsSource()
  {
    if inputs == [] then [] else SourcesOf(inputs[..|inputs| - 1]) + [inputs[|inputs| - 1].AsSource()]
  }

  /** The inputs after `n` requests of a round that began with `sources`. */
  ghost predicate Consumed<T>(now: seq<Source>, inputs: seq<T>, sources: seq<Source>, n: nat)
    requires n <= |inputs| == |sources| == |now|
  {
    && (forall i, j :: 0 <= i < |inputs| && 0 <= j < |inputs| && inputs[i] == inputs[j] ==> sources[i] == sources[j])
    && (forall j :: 0 <= j < |inputs| ==> now[j] == After(sources[j], Occurrences(inputs[..n], inputs[j])))
  }

  function After(s: Source, requests: nat): Source {
    s.(processed := s.processed + Served(s, requests))
  }

  lemma RequestServed<T>(now: seq<Source>, inputs: seq<T>, sources: seq<Source>, i: nat)
    requires i < |inputs| == |sources| == |now| && Consumed(now, inputs, sources, i)
    ensures Contribution(now[i], 0) == Heard(inputs, sources, i)
  {
    ServeNext(sources[i], Occurrences(inputs[..i], inputs[i]));
  }

  lemma ConsumedStep<T>(now: seq<Source>, next: seq<Source>, inputs: seq<T>, sources: seq<Source>, i: nat)
    requires i < |inputs| == |sources| == |now| == |next| && Consumed(now, inputs, sources, i)
    requires forall j :: 0 <= j < |inputs| ==>
               next[j] == if inputs[j] == inputs[i] && Contribution(now[i], 0).Some?
                          then now[j].(processed := now[j].processed + 1) else now[j]
    ensures Consumed(next, inputs, sources, i + 1)
  {
    hide Contribution, Served;
    RequestServed(now, inputs, sources, i);
    OccurrencesStep(inputs, i);
    ServeNext(sources[i], Occurrences(inputs[..i], inputs[i]));
  }

  ghost predicate Accumulated<T>(accumulator: seq<int>, inputs: seq<T>, sources: seq<Source>, n: nat)
    requires n <= |inputs| == |sources|
  {
    |accumulator| == SAMPLES_PER_FRAME &&
    forall k :: 0 <= k < SAMPLES_PER_FRAME ==> accumulator[k] == Wrap32(MixSum(inputs, sources, n, k))
  }

  lemma AccumulatedStep<T>(before: seq<int>, after: seq<int>, temp: seq<int16>, inputs: seq<T>, sources: seq<Source>, i: nat)
    requires i < |inputs| == |sources| && Accumulated(before, inputs, sources, i)
    requires |after| == SAMPLES_PER_FRAME == |temp|
    requires Heard(inputs, sources, i).Some? ==> temp == Heard(inputs, sources, i).value
    requires forall k :: 0 <= k < SAMPLES_PER_FRAME ==>
               after[k] == if Heard(inputs, sources, i).Some? then Wrap32(before[k] + temp[k]) else before[k]
    ensures Accumulated(after, inputs, sources, i + 1)
  {
    hide Heard, Wrap32;
    forall k | 0 <= k < SAMPLES_PER_FRAME
      ensures after[k] == Wrap32(MixSum(inputs, sources, i + 1, k))
    {
      WrapAdd(MixSum(inputs, sources, i, k), temp[k]);
    }
  }

  lemma MixStart(inputs: seq<Node>, sources: seq<Source>, accumulator: seq<int>)
    requires sources == SourcesOf(inputs) && |accumulator| == SAMPLES_PER_FRAME
    requires forall k :: 0 <= k < SAMPLES_PER_FRAME ==> accumulator[k] == 0
    ensures Consumed(sources, inputs, sources, 0) && Accumulated(accumulator, inputs, sources, 0) && !AnyHeard(inputs, sources, 0)
  {
  }

  lemma AnyHeardStep<T>(inputs: seq<T>, sources: seq<Source>, i: nat)
    requires i < |inputs| == |sources|
    ensures AnyHeard(inputs, sources, i + 1) <==> AnyHeard(inputs, sources, i) || Heard(inputs, sources, i).Some?
  {
  }

  lemma ExportedMix(curve: int -> int16, inputs: seq<Node>, sources: seq<Source>, accumulator: seq<int>, output: seq<int16>)
    requires |inputs| == |sources| && Accumulated(accumulator, inputs, sources, |inputs|)
    requires |output| == SAMPLES_PER_FRAME
    requires forall i :: 0 <= i < |output| ==> output[i] == SoftClip(curve, accumulator[i])
    ensures output == MixedFrame(curve, inputs, sources)
  {
  }

  method FillSilence(buffer: array<int16>)
    requires buffer.Length == SAMPLES_PER_FRAME
    modifies buffer
    ensures buffer[..] == Silence()
  {
    for i := 0 to buffer.Length
      invariant forall k :: 0 <= k < i ==> buffer[k] == 0
    {
      buffer[i] := 0;
    }
    assert buffer[..] == Silence();
  }

  method CopyFrame(f: Frame, buffer: array<int16>)
    requires buffer.Length == SAMPLES_PER_FRAME
    modifies buffer
    ensures buffer[..] == f
  {
    for i := 0 to SAMPLES_PER_FRAME
      invariant buffer[..i] == f[..i]
    {
      buffer[i] := f[i];
    }
    assert buffer[..] == buffer[..SAMPLES_PER_FRAME] && f[..SAMPLES_PER_FRAME] == f;
  }

  // ---------------------------------------------------------------- which edges do what

  predicate Accepts(target: NodeKind, source: NodeKind) {
    match target
    case Mixer => source == Delay || source == FileInput
    case FileInput => source == Delay || source == FileOptions
    case Delay => source != Clients
    case Clients => true
    case FileOptions => false
  }

  /** Accepted edges that set the source's `next`. */
  predicate Wires(target: NodeKind, source: NodeKind) {
    match target
    case Mixer => source == Delay || source == FileInput
    case FileInput => source == Delay
    case Delay => source != Clients
    case Clients => false
    case FileOptions => false
  }

  ghost predicate InputsInside(S: set<Node>)
    reads S`inputs
  {
    forall n :: n in S ==> forall m :: m in n.inputs ==> m in S
  }
}
