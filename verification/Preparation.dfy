/** Preparing a parsed graph: the length of every mixer, the loop flags, and what then can be played. */
module Preparation {
  import opened GraphNodes
  import opened MixerLaws
  import opened GraphBuilder
  import opened LoopFlagging
  import opened Programmes
  import opened Executor
  import opened Streams

  ghost predicate MixersOf(mixers: seq<Node>, S: set<Node>) {
    forall m :: m in mixers ==> m in S && m.kind == Mixer
  }

  /** `n` plays as long as its longest input. */
  ghost predicate Measured(n: Node)
    reads n`total, n`inputs, n.inputs`total
  {
    n.total == Longest(FreshSources(n.inputs))
  }

  lemma MeasuredBy(n: Node)
    requires forall m :: m in n.inputs ==> m.total <= n.total
    requires n.total == 0 || exists m :: m in n.inputs && m.total == n.total
    ensures Measured(n)
  {
    var sources := FreshSources(n.inputs);
    LongestIsMaximum(sources, n.total);
    if n.total > 0 {
      LongestIsMaximum(sources, n.total - 1);
      var m :| m in n.inputs && m.total == n.total;
      var j :| 0 <= j < |n.inputs| && n.inputs[j] == m;
      assert sources[j].total == n.total;
    }
  }

  /** Setting one mixer leaves the others measured: no mixer is an input. */
  method SetMaxFrames(m: Node, ghost S: set<Node>)
    requires Wired(S) && m in S && m.kind == Mixer
    modifies m`total
    ensures Wired(S) && Measured(m)
    ensures forall n :: n in S && n != m && n.kind == Mixer && old(Measured(n)) ==> Measured(n)
  {
    hide Longest;
    assert NodeWired(m, S);
    m.SetMaxFrames();
    MeasuredBy(m);
    forall n | n in S && n != m && n.kind == Mixer
      ensures m !in n.inputs
    {
      assert NodeWired(n, S);
    }
    hide FreshSources;
  }

  method UpdateMixers(mixers: seq<Node>, ghost S: set<Node>)
    requires Wired(S) && MixersOf(mixers, S)
    modifies S`total
    ensures Wired(S)
    ensures forall m :: m in mixers ==> Measured(m)
    ensures forall n :: n in S && n !in mixers ==> n.total == old(n.total)
  {
    hide Wired, Measured;
    for i := 0 to |mixers|
      invariant Wired(S)
      invariant forall k :: 0 <= k < i ==> Measured(mixers[k])
      invariant forall n :: n in S && n !in mixers ==> n.total == old(n.total)
    {
      hide Wired, Measured;
      SetMaxFrames(mixers[i], S);
    }
  }

  /** The first fill of all buffers. */
  method InitializeNodes(nodes: seq<Node>, ghost S: set<Node>)
    requires forall n :: n in nodes ==> n in S
    modifies S`filled
    ensures forall n :: n in nodes && n.kind == FileInput ==> n.filled
    ensures forall n :: n in S && n !in nodes ==> n.filled == old(n.filled)
  {
    for i := 0 to |nodes|
      invariant forall k :: 0 <= k < i && nodes[k].kind == FileInput ==> nodes[k].filled
      invariant forall n :: n in S && n !in nodes ==> n.filled == old(n.filled)
    {
      nodes[i].InitializeBuffers();
    }
  }

  /** What `prepare` does once all files are there. */
  method Prepare(executor: AudioExecutor, nodes: seq<Node>, mixers: seq<Node>, ghost S: set<Node>)
    requires Wired(S) && MixersOf(mixers, S) && executor.startNode in S && forall n :: n in nodes ==> n in S
    modifies executor`currentNode, executor`totalBytesSent, S`total, S`inLoop, S`filled
    ensures Wired(S) && Closed(S)
    ensures executor.currentNode == executor.startNode && executor.totalBytesSent == 0
    ensures forall n :: n in nodes && n.kind == FileInput ==> n.filled
    ensures forall m :: m in mixers ==> Measured(m)
    ensures forall n :: n in S && n !in mixers ==> n.total == old(n.total)
    ensures forall n :: n in S ==> (n.inLoop <==> old(n.inLoop) || Flagged(executor.startNode, n, S))
  {
    hide Wired, Measured, Closed, InputsInside, Flagged;
    InitializeNodes(nodes, S);
    UpdateMixers(mixers, S);
    WiredIsClosed(S);
    DetectAndFlagLoops(executor.startNode, S);
    executor.currentNode := executor.startNode;
    executor.totalBytesSent := 0;
  }

  // ---------------------------------------------------------------- prepared graphs can be played

  predicate IsSource(kind: NodeKind) {
    kind == FileInput || kind == Mixer || kind == Delay
  }

  /** Nothing that is played is empty, runs late or fails to close. */
  ghost predicate GoodNode(n: Node)
    reads n
  {
    match n.kind
    case FileInput => GoodFile(n)
    case Delay => n.total > 0
    case Mixer => n.inputs != [] && Distinct(n.inputs) && |n.inputs| <= 0xFFFF
    case _ => true
  }

  ghost function RouteOf(S: set<Node>): Route
    requires InputsInside(S)
    reads S`target, S`inputs, S`total, S`inLoop
  {
    Route(map n | n in S && IsSource(n.kind) :: Stage(Stop(FreshPart(n), n, n.inputs), n.target), set n | n in S && n.inLoop)
  }

  lemma PreparedIsPlayable(n: Node, S: set<Node>)
    requires Wired(S) && n in S && IsSource(n.kind) && (forall m :: m in S ==> GoodNode(m))
    requires n.kind == Mixer ==> Measured(n)
    ensures Playable(n, S)
  {
    hide Longest, Distinct, GoodFile;
    assert NodeWired(n, S) && GoodNode(n);
    if n.kind == Mixer {
      forall m | m in n.inputs
        ensures GoodFile(m)
      {
        assert GoodNode(m);
      }
      LongestIsMaximum(FreshSources(n.inputs), 0);
      FirstReaches(n);
    } else if n.kind == FileInput {
      GoodHasFrames(n);
    }
  }

  lemma GoodHasFrames(m: Node)
    requires GoodFile(m)
    ensures m.kind == FileInput && m.total > 0
  {
  }

  lemma FirstReaches(n: Node)
    requires n.inputs != [] && GoodFile(n.inputs[0])
    ensures Reach(FreshSources(n.inputs)[0]) > 0
  {
  }

  /** A parsed and prepared graph is a stream that the session loop can run. */
  lemma PreparedStreams(S: set<Node>)
    requires Wired(S) && forall n :: n in S ==> GoodNode(n) && (n.kind == Mixer ==> Measured(n))
    ensures InputsInside(S) && Describes(RouteOf(S), S)
  {
    hide GoodNode, Playable, Measured, FreshPart;
    WiredIsClosed(S);
    forall n | n in S && IsSource(n.kind)
      ensures DescribesNode(RouteOf(S), n, S)
    {
      PreparedIsPlayable(n, S);
      assert NodeWired(n, S);
      if n.target != null {
        MixersLeadToDelays(S, n);
      }
    }
  }
}
