/** Playing a graph frame by frame, node after node. */
module Executor {
  import opened Bytes
  import opened AudioConfig
  import opened GraphNodes
  import opened MixerLaws
  import opened Programmes

  // ---------------------------------------------------------------- what a node plays

  /** A file input as it is when it has just been closed or opened. */
  function Rested(m: Node): Source
    reads m`total, m`filled
  {
    Source(m.play, m.total, 0, false, m.filled)
  }

  function RestedSources(inputs: seq<Node>): (s: seq<Source>)
    reads inputs`total, inputs`filled
    ensures |s| == |inputs| && forall j :: 0 <= j < |inputs| ==> s[j] == Rested(inputs[j])
  {
    if inputs == [] then [] else RestedSources(inputs[..|inputs| - 1]) + [Rested(inputs[|inputs| - 1])]
  }

  /** The inputs with all buffers filled. */
  function FreshSources(inputs: seq<Node>): (s: seq<Source>)
    reads inputs`total
    ensures |s| == |inputs|
    ensures forall j :: 0 <= j < |inputs| ==> s[j] == Source(inputs[j].play, inputs[j].total, 0, false, true)
  {
    if inputs == [] then []
    else FreshSources(inputs[..|inputs| - 1]) + [Source(inputs[|inputs| - 1].play, inputs[|inputs| - 1].total, 0, false, true)]
  }

  /** What a node plays as its buffers are now. */
  function PartOf(n: Node): Part
    reads n`total, n`inputs, n`filled, n.inputs`total, n.inputs`filled
  {
    Part(n.kind, n.total, n.play, RestedSources(n.inputs), n.kind == FileInput ==> n.filled)
  }

  /** What it plays when all buffers are filled. */
  function FreshPart(n: Node): Part
    reads n`total, n`inputs, n.inputs`total
  {
    Part(n.kind, n.total, n.play, FreshSources(n.inputs), true)
  }

  // ---------------------------------------------------------------- playable graphs

  /** A file input that has frames and keeps its schedule. */
  ghost predicate GoodFile(m: Node)
    reads m`total, m`starved, m`closeFails, m`refillLate
  {
    m.kind == FileInput && m.total > 0 && !m.starved && !m.closeFails && !m.refillLate
  }

  /** A node with frames whose files keep their schedule; whether their buffers are filled is left open. */
  ghost predicate Playable(n: Node, S: set<Node>)
    reads n`total, n`inputs, n`starved, n`closeFails, n`refillLate
    reads n.inputs`total, n.inputs`starved, n.inputs`closeFails, n.inputs`refillLate
  {
    && n.total > 0 && n !in n.inputs && (forall m :: m in n.inputs ==> m in S)
    && match n.kind
       case FileInput => GoodFile(n)
       case Delay => true
       case Mixer =>
         && Distinct(n.inputs) && |n.inputs| <= 0xFFFF && (forall m :: m in n.inputs ==> GoodFile(m))
         && n.total == Longest(FreshSources(n.inputs))
       case _ => false
  }

  /** `n` has played some frames, with its inputs in step, and everything else is at rest. */
  ghost predicate Stepping(n: Node, S: set<Node>)
    reads n`inputs, n`processed, n.inputs`processed, n.inputs`total, n.inputs`filled, S`processed
  {
    && n in S
    && (n.kind == Mixer ==> forall m :: m in n.inputs ==> m.processed == Min(n.processed, Reach(Rested(m))))
    && (forall m :: m in S && m != n && !(n.kind == Mixer && m in n.inputs) ==> m.processed == 0)
  }

  /** And it still has frames to play, or waits for a block that will not come. */
  ghost predicate Playing(n: Node, S: set<Node>)
    reads n`inputs, n`processed, n`total, n`filled, n.inputs`processed, n.inputs`total, n.inputs`filled, S`processed
  {
    && Stepping(n, S)
    && (n.processed < Length(PartOf(n)) || (Stalls(PartOf(n)) && n.processed == Length(PartOf(n))))
  }

  ghost predicate AtRest(S: set<Node>)
    reads S`processed
  {
    forall m :: m in S ==> m.processed == 0
  }

  /** Of the file inputs exactly those in `spent` are not filled. */
  ghost predicate FilledBut(S: set<Node>, spent: set<Node>)
    reads S`filled
  {
    forall m :: m in S && m.kind == FileInput ==> (m.filled <==> m !in spent)
  }

  /** The file inputs that are filled again when they are closed. */
  ghost predicate LoopedAre(S: set<Node>, looped: set<Node>)
    reads S`inLoop
  {
    forall m :: m in S && m.kind == FileInput ==> (m.inLoop <==> m in looped)
  }

  /** The file inputs that closing `n` closes. */
  function Closing(n: Node): set<Node>
    reads n`inputs
  {
    if n.kind == FileInput then {n} else if n.kind == Mixer then set m | m in n.inputs else {}
  }

  // ---------------------------------------------------------------- the next frame

  /** The inputs of a mixer after `k` rounds, as the counters say. */
  lemma InStep(n: Node, S: set<Node>)
    requires n.kind == Mixer && Playable(n, S) && Stepping(n, S)
    ensures SourcesOf(n.inputs) == Rounds(n.inputs, RestedSources(n.inputs), n.processed)
    ensures FreshInputs(RestedSources(n.inputs))
  {
    hide Rounds, Longest, Reach;
    var rested, now := RestedSources(n.inputs), SourcesOf(n.inputs);
    forall j | 0 <= j < |n.inputs|
      ensures now[j] == Rounds(n.inputs, rested, n.processed)[j]
    {
      assert n.inputs[j] in n.inputs;
      CountersAfter(n.inputs, rested, n.processed, j);
    }
  }

  /** One more round: the mix of frame `k`, and every input a frame further unless it has ended. */
  lemma MixerRound(curve: int -> int16, n: Node, S: set<Node>)
    requires n.kind == Mixer && Playable(n, S) && Stepping(n, S)
    ensures AnyHeard(n.inputs, SourcesOf(n.inputs), |n.inputs|) <==> n.processed < Longest(RestedSources(n.inputs))
    ensures MixedFrame(curve, n.inputs, SourcesOf(n.inputs)) == FrameOf(curve, PartOf(n), n.processed)
    ensures forall j :: 0 <= j < |n.inputs| ==>
              After(SourcesOf(n.inputs)[j], Occurrences(n.inputs, n.inputs[j])).processed == Min(n.processed + 1, Reach(Rested(n.inputs[j])))
  {
    hide AnyHeard, MixedFrame, MixerFrame, Longest, After, Occurrences, Reach;
    InStep(n, S);
    var rested := RestedSources(n.inputs);
    PlaysExactlyLongest(n.inputs, rested, n.processed);
    FrameInRound(curve, n.inputs, rested, n.processed);
    forall j | 0 <= j < |n.inputs|
      ensures After(SourcesOf(n.inputs)[j], Occurrences(n.inputs, n.inputs[j])).processed == Min(n.processed + 1, Reach(Rested(n.inputs[j])))
    {
      CountersAfter(n.inputs, rested, n.processed + 1, j);
    }
  }

  /** What a node returns for frame `k`. */
  function CodeOf(p: Part, k: nat): ErrorCode {
    if Late(p, k) then Underrun else if p.kind == Mixer && k >= Longest(p.sources) then EndOfStream else Success
  }

  /** The next frame of a node that is playing, whether it ends the node, and what it returns. */
  lemma NextFrameOf(curve: int -> int16, n: Node, S: set<Node>)
    requires Playable(n, S) && Playing(n, S)
    ensures n.Result() == CodeOf(PartOf(n), n.processed)
    ensures n.Output(curve) == FrameOf(curve, PartOf(n), n.processed)
    ensures n.Result() == EndOfStream || (n.Result() == Success && n.CompleteNext()) <==> Leaves(PartOf(n), n.processed)
    ensures n.ClosesFine()
  {
    if n.kind == Mixer {
      NextOfMixer(curve, n, S);
    }
  }

  lemma NextOfMixer(curve: int -> int16, n: Node, S: set<Node>)
    requires n.kind == Mixer && Playable(n, S) && Playing(n, S)
    ensures n.Result() == CodeOf(PartOf(n), n.processed)
    ensures n.Output(curve) == FrameOf(curve, PartOf(n), n.processed)
    ensures n.Result() == EndOfStream || (n.Result() == Success && n.CompleteNext()) <==> Leaves(PartOf(n), n.processed)
    ensures n.ClosesFine()
  {
    hide AnyHeard, MixedFrame, MixerFrame, Longest, After, Occurrences, Reach, Distinct, Silence;
    MixerRound(curve, n, S);
    NoLongerThanFresh(n);
    if n.processed >= Longest(RestedSources(n.inputs)) {
      SilentMix(curve, RestedSources(n.inputs), n.processed);
    }
  }

  lemma NoLongerThanFresh(n: Node)
    ensures Longest(RestedSources(n.inputs)) <= Longest(FreshSources(n.inputs))
  {
    hide Longest;
    ReachNoLonger(RestedSources(n.inputs), FreshSources(n.inputs));
  }

  /** Where no input reaches there is nothing to hear. */
  lemma SilentMix(curve: int -> int16, sources: seq<Source>, k: nat)
    requires k >= Longest(sources)
    ensures MixerFrame(curve, sources, k) == Silence()
  {
    hide PlainSum, Longest;
    forall i | 0 <= i < SAMPLES_PER_FRAME
      ensures PlainSum(sources, k, i) == 0
    {
      NothingToAdd(sources, k, i);
    }
  }

  lemma {:induction false} NothingToAdd(sources: seq<Source>, k: nat, i: nat)
    requires k >= Longest(sources) && i < SAMPLES_PER_FRAME
    ensures PlainSum(sources, k, i) == 0
  {
    hide Reach;
    if sources != [] {
      NothingToAdd(sources[..|sources| - 1], k, i);
    }
  }

  // ---------------------------------------------------------------- one frame of one node

  method ProcessFile(n: Node, curve: int -> int16, output: array<int16>, ghost S: set<Node>) returns (result: ErrorCode)
    requires output.Length == SAMPLES_PER_FRAME && n.kind == FileInput
    modifies n`processed, output
    ensures result == old(n.Result()) && output[..] == old(n.Output(curve))
    ensures n.processed == old(n.processed) + (if result == Success then 1 else 0)
    ensures old(Playable(n, S) && Playing(n, S)) ==> Stepping(n, S)
  {
    result := n.ProcessFile(output);
  }

  method ProcessDelay(n: Node, curve: int -> int16, output: array<int16>, ghost S: set<Node>) returns (result: ErrorCode)
    requires output.Length == SAMPLES_PER_FRAME && n.kind == Delay
    modifies n`processed, output
    ensures result == old(n.Result()) && output[..] == old(n.Output(curve))
    ensures n.processed == old(n.processed) + (if result == Success then 1 else 0)
    ensures old(Playable(n, S) && Playing(n, S)) ==> Stepping(n, S)
  {
    result := n.ProcessDelay(output);
  }

  method ProcessMixer(n: Node, curve: int -> int16, output: array<int16>, ghost S: set<Node>) returns (result: ErrorCode)
    requires output.Length == SAMPLES_PER_FRAME && n.kind == Mixer && n !in n.inputs
    modifies n`processed, n.inputs`processed, output
    ensures result == old(n.Result()) && output[..] == old(n.Output(curve))
    ensures n.processed == old(n.processed) + (if result == Success then 1 else 0)
    ensures old(Playable(n, S) && Playing(n, S)) ==> Stepping(n, S)
  {
    hide MixedFrame, AnyHeard, Occurrences, Longest, After, Silence, Consumed, Stepping, Reach, Playable, Playing, RestedSources;
    ghost var ready := Playable(n, S) && Playing(n, S);
    if ready {
      RoundAhead(n, S);
    }
    ghost var sources, k := SourcesOf(n.inputs), n.processed;
    result := n.ProcessMixer(curve, output);
    if ready {
      MixerStepped(n, sources, k, result == Success, S);
    }
  }

  lemma RoundAhead(n: Node, S: set<Node>)
    requires n.kind == Mixer && Playable(n, S) && Playing(n, S)
    ensures n in S && forall m :: m in S && m != n && m !in n.inputs ==> m.processed == 0
    ensures AnyHeard(n.inputs, SourcesOf(n.inputs), |n.inputs|) <==> n.processed < Longest(RestedSources(n.inputs))
    ensures forall j :: 0 <= j < |n.inputs| ==>
              After(SourcesOf(n.inputs)[j], Occurrences(n.inputs, n.inputs[j])).processed == Min(n.processed + 1, Reach(Rested(n.inputs[j])))
  {
    hide AnyHeard, Occurrences, Longest, After, Reach, Playable, RestedSources, Length;
    var curve: int -> int16 := _ => 0;
    MixerRound(curve, n, S);
  }

  /** A node that did not leave can be asked again. */
  lemma StillPlaying(n: Node, p: Part, k: nat, S: set<Node>)
    requires Stepping(n, S) && PartOf(n) == p && n.processed == (if Late(p, k) then k else k + 1) && !Leaves(p, k)
    requires k < Length(p) || (Stalls(p) && k == Length(p))
    ensures Playing(n, S)
  {
  }

  lemma NotASource(n: Node, S: set<Node>)
    requires n.kind == Clients || n.kind == FileOptions
    ensures !Playable(n, S) && n.Result() == NotSupported
  {
  }

  /** In the round in which nothing is heard the counters have reached their ends already. */
  lemma MixerStepped(n: Node, sources: seq<Source>, k: nat, heard: bool, S: set<Node>)
    requires n.kind == Mixer && n in S && n.processed == k + (if heard then 1 else 0) && |sources| == |n.inputs|
    requires heard <==> k < Longest(RestedSources(n.inputs))
    requires Consumed(SourcesOf(n.inputs), n.inputs, sources, |n.inputs|)
    requires forall j :: 0 <= j < |n.inputs| ==>
               After(sources[j], Occurrences(n.inputs, n.inputs[j])).processed == Min(k + 1, Reach(Rested(n.inputs[j])))
    requires forall m :: m in S && m != n && m !in n.inputs ==> m.processed == 0
    ensures Stepping(n, S)
  {
    hide Occurrences, After, Reach, Longest;
    InputsStepped(n, sources);
    LongestIsMaximum(RestedSources(n.inputs), k);
    forall m | m in n.inputs
      ensures m.processed == Min(n.processed, Reach(Rested(m)))
    {
      var j :| 0 <= j < |n.inputs| && n.inputs[j] == m;
      assert RestedSources(n.inputs)[j] == Rested(m);
    }
  }

  lemma InputsStepped(n: Node, sources: seq<Source>)
    requires |sources| == |n.inputs| && Consumed(SourcesOf(n.inputs), n.inputs, sources, |n.inputs|)
    ensures forall j :: 0 <= j < |n.inputs| ==>
              n.inputs[j].processed == After(sources[j], Occurrences(n.inputs, n.inputs[j])).processed
  {
    assert n.inputs[..|n.inputs|] == n.inputs;
  }

  // ---------------------------------------------------------------- the executor

  class AudioExecutor {
    const startNode: Node
    const curve: int -> int16
    var currentNode: Node?
    var totalBytesSent: nat
    var packetsSent: nat

    constructor (startNode: Node, curve: int -> int16)
      ensures this.startNode == startNode && this.curve == curve
      ensures currentNode == startNode && totalBytesSent == 0 && packetsSent == 0
    {
      this.startNode, this.curve := startNode, curve;
      currentNode, totalBytesSent, packetsSent := startNode, 0, 0;
    }

    /** The nodes whose counters the next frame may change. */
    ghost function Active(): set<Node>
      reads this, currentNode
    {
      if currentNode == null then {} else {currentNode} + set m | m in currentNode.inputs
    }

    method AdvanceToNextNode(ghost S: set<Node>, ghost spent: set<Node>, ghost looped: set<Node>) returns (code: ErrorCode)
      requires currentNode != null && currentNode !in currentNode.inputs
      modifies this`currentNode, Active()`processed, Active()`filled
      ensures code == if old(currentNode.ClosesFine()) then Success else FileIOError
      ensures currentNode == if code == Success then old(currentNode.target) else old(currentNode)
      ensures old(Playable(currentNode, S) && Stepping(currentNode, S)) ==> code == Success && AtRest(S)
      ensures old(Playable(currentNode, S) && FilledBut(S, spent)) && LoopedAre(S, looped) ==>
                FilledBut(S, AfterClosing(spent, Closing(old(currentNode)), looped))
    {
      hide Distinct, Longest;
      code := currentNode.Close();
      if code != Success {
        return code;
      }
      currentNode := currentNode.target;
    }

    /** The dispatch on the kind of the current node. */
    method ProcessFrame(output: array<int16>, ghost S: set<Node>) returns (result: ErrorCode)
      requires output.Length == SAMPLES_PER_FRAME && output[..] == Silence()
      requires currentNode != null && currentNode !in currentNode.inputs
      modifies Active()`processed, output
      ensures result == old(currentNode.Result()) && output[..] == old(currentNode.Output(curve))
      ensures currentNode.processed == old(currentNode.processed) + (if result == Success then 1 else 0)
      ensures old(Playable(currentNode, S) && Playing(currentNode, S)) ==> Stepping(currentNode, S)
    {
      hide Playable, Playing, Stepping, FrameOf, PartOf, AnyHeard, MixedFrame, Silence;
      match currentNode.kind {
        case FileInput =>
          result := ProcessFile(currentNode, curve, output, S);
        case Delay =>
          result := ProcessDelay(currentNode, curve, output, S);
        case Mixer =>
          result := ProcessMixer(currentNode, curve, output, S);
        case _ =>
          result := NotSupported;
          NotASource(currentNode, S);
      }
    }

    /**
     * What a call does when `n` was current: `result` is what the node returns, `leaves` says that it
     * has played its last frame, `closes` that it can be closed, and `sent` is the bytes counted so far.
     */
    ghost predicate Turned(n: Node, result: ErrorCode, leaves: bool, closes: bool, sent: nat, continues: bool, status: ErrorCode)
      reads this, n`target
    {
      // not an audio source: the end, but no error
      if result == NotSupported then
        !continues && status == Success && currentNode == n && totalBytesSent == sent
      // an underrun does not end the stream, and its frame is not counted
      else if result != Success && result != EndOfStream then
        continues == (result == Underrun) && status == result && currentNode == n && totalBytesSent == sent
      else if (result == EndOfStream || leaves) && !closes then
        !continues && status == FileIOError && currentNode == n && totalBytesSent == sent
      // the frame is counted, also when it is only the silence after the end of a node
      else
        && currentNode == (if result == EndOfStream || leaves then n.target else n)
        && totalBytesSent == sent + FRAME_SIZE_BYTES
        && continues == (currentNode != null) && status == Success
    }

    method GetNextFrame(output: array<int16>, ghost S: set<Node>, ghost spent: set<Node>, ghost looped: set<Node>)
      returns (continues: bool, status: ErrorCode)
      requires output.Length == 0 || output.Length == SAMPLES_PER_FRAME
      requires currentNode != null ==> currentNode !in currentNode.inputs
      modifies this`currentNode, this`totalBytesSent, Active()`processed, Active()`filled, output
      // nothing to play or nowhere to put it
      ensures old(currentNode) == null || output.Length == 0 ==>
                !continues && status == FormatError && currentNode == old(currentNode) && totalBytesSent == old(totalBytesSent)
      ensures output.Length > 0 && old(currentNode) != null ==>
                output[..] == old(currentNode.Output(curve)) &&
                Turned(old(currentNode), old(currentNode.Result()), old(currentNode.CompleteNext()),
                       old(currentNode.ClosesFine()), old(totalBytesSent), continues, status)
      ensures output.Length > 0 && old(currentNode) != null && old(Ready(S, spent, looped)) ==>
                Played(old(currentNode), old(PartOf(currentNode)), old(currentNode.processed), old(totalBytesSent),
                       output[..], continues, status, S, spent, looped)
    {
      hide Ready, Played, Silence, Turned;
      if currentNode == null || output.Length == 0 {
        return false, FormatError;
      }
      FillSilence(output);
      continues, status := Turn(output, S, spent, looped);
    }

    /** The current node can go on, and the buffers are as `spent` says. */
    ghost predicate Ready(S: set<Node>, spent: set<Node>, looped: set<Node>)
      requires currentNode != null
      reads this`currentNode, S, currentNode, currentNode.inputs
    {
      Playable(currentNode, S) && Playing(currentNode, S) && FilledBut(S, spent) && LoopedAre(S, looped)
    }

    /** The rest of the call, with a cleared buffer and a node to ask. */
    method Turn(output: array<int16>, ghost S: set<Node>, ghost spent: set<Node>, ghost looped: set<Node>)
      returns (continues: bool, status: ErrorCode)
      requires output.Length == SAMPLES_PER_FRAME && output[..] == Silence()
      requires currentNode != null && currentNode !in currentNode.inputs
      modifies this`currentNode, this`totalBytesSent, Active()`processed, Active()`filled, output
      ensures output[..] == old(currentNode.Output(curve))
      ensures Turned(old(currentNode), old(currentNode.Result()), old(currentNode.CompleteNext()),
                     old(currentNode.ClosesFine()), old(totalBytesSent), continues, status)
      ensures old(Ready(S, spent, looped)) ==>
                Played(old(currentNode), old(PartOf(currentNode)), old(currentNode.processed), old(totalBytesSent),
                       output[..], continues, status, S, spent, looped)
    {
      hide Playable, Stepping, FrameOf, PartOf, AtRest, Silence, AnyHeard, MixedFrame, FilledBut, LoopedAre, Length, Stalls, AfterClosing;
      ghost var n, p, k, ready := currentNode, PartOf(currentNode), currentNode.processed, Ready(S, spent, looped);
      if ready {
        NextFrameOf(curve, n, S);
      }
      var result := ProcessFrame(output, S);
      if ready && !Leaves(p, k) {
        StillPlaying(n, p, k, S);
      }
      hide Playing, Leaves;
      if result == NotSupported {
        return false, Success;
      }
      if result != Success && result != EndOfStream {
        return result == Underrun, result;
      }
      var isEos := result == EndOfStream;
      if isEos || currentNode.IsComplete() {
        var closed := AdvanceToNextNode(S, spent, looped);
        if closed != Success {
          return false, closed;
        }
      }
      totalBytesSent := totalBytesSent + FRAME_SIZE_BYTES;
      return currentNode != null, Success;
    }

    /**
     * What one call does with frame `k` of a node that plays `p`: it stays where it is if it is late,
     * goes on to the next frame, or closes the node and goes on to the next one.
     */
    ghost predicate Played(n: Node, p: Part, k: nat, sent: nat, output: seq<int16>, continues: bool, status: ErrorCode,
                           S: set<Node>, spent: set<Node>, looped: set<Node>)
      reads this, S, n, n.inputs
    {
      && output == FrameOf(curve, p, k)
      && status == (if Late(p, k) then Underrun else Success)
      && totalBytesSent == sent + (if Late(p, k) then 0 else FRAME_SIZE_BYTES)
      && continues == (currentNode != null)
      && if Leaves(p, k) then
           currentNode == n.target && AtRest(S) && FilledBut(S, AfterClosing(spent, Closing(n), looped))
         else
           currentNode == n && n.processed == (if Late(p, k) then k else k + 1) && Playing(n, S) && FilledBut(S, spent) && PartOf(n) == p
    }
  }
}
