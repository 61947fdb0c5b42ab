/** The session loop over a whole stream, without pauses. */
module Session {
  import opened Bytes
  import opened AudioConfig
  import opened GraphNodes
  import opened Programmes
  import opened Executor
  import opened Streams

  // ---------------------------------------------------------------- the loop

  class Session {
    const executor: AudioExecutor
    var isRunning: bool
    var dispatched: seq<seq<int16>>  // frames handed to the streamer

    constructor (executor: AudioExecutor)
      ensures this.executor == executor && !isRunning && dispatched == []
    {
      this.executor, isRunning, dispatched := executor, false, [];
    }

    /** The frame on which the executor reports the end is produced but not dispatched. */
    method ProcessAndStreamSingleFrame(pcm: array<int16>, ghost S: set<Node>, ghost spent: set<Node>, ghost looped: set<Node>)
      returns (ok: bool, status: ErrorCode)
      requires pcm.Length == SAMPLES_PER_FRAME
      requires executor.currentNode != null ==> executor.currentNode !in executor.currentNode.inputs
      modifies this`dispatched, executor`currentNode, executor`totalBytesSent, executor`packetsSent, pcm
      modifies executor.Active()`processed, executor.Active()`filled
      ensures dispatched == old(dispatched) + (if ok then [pcm[..]] else [])
      ensures executor.packetsSent == old(executor.packetsSent) + (if ok then 1 else 0)
      ensures old(executor.currentNode) == null ==> !ok && status == FormatError
      // an underrun sends a frame of silence that is not among the bytes counted
      ensures old(executor.currentNode) != null ==>
                pcm[..] == old(executor.currentNode.Output(executor.curve)) &&
                executor.Turned(old(executor.currentNode), old(executor.currentNode.Result()), old(executor.currentNode.CompleteNext()),
                                old(executor.currentNode.ClosesFine()), old(executor.totalBytesSent), ok, status)
      ensures old(executor.currentNode) != null && old(executor.Ready(S, spent, looped)) ==>
                executor.Played(old(executor.currentNode), old(PartOf(executor.currentNode)), old(executor.currentNode.processed),
                                old(executor.totalBytesSent), pcm[..], ok, status, S, spent, looped)
    {
      hide Playable, Playing, FrameOf, PartOf, AtRest, Silence, AnyHeard, MixedFrame, FilledBut, LoopedAre, Length, Stalls;
      ok, status := executor.GetNextFrame(pcm, S, spent, looped);
      if !ok {
        return;
      }
      dispatched := dispatched + [pcm[..]];
      executor.packetsSent := executor.packetsSent + 1;
    }

    /** The executor is where a running stream is due to be, and the buffers are as they are due to be. */
    ghost predicate AtCursor(c: Cursor, S: set<Node>)
      requires InputsInside(S)
      requires c.node != null ==> c.node in S
      reads executor, S
    {
      && executor.currentNode == c.node && FilledBut(S, c.spent)
      && if c.node == null then true else Playing(c.node, S) && c.node.processed == c.k
    }

    /** One turn of the loop: the frame that is due, and the cursor one further. */
    method Tick(pcm: array<int16>, ghost c: Cursor, ghost R: Route, ghost S: set<Node>) returns (ok: bool, status: ErrorCode)
      requires pcm.Length == SAMPLES_PER_FRAME
      requires Describes(R, S) && c.node != null && c.node in R.stages && AtCursor(c, S)
      modifies this`dispatched, executor`currentNode, executor`totalBytesSent, executor`packetsSent, S`processed, S`filled, pcm
      ensures Describes(R, S) && InputsInside(S) && Sound(R) && AtCursor(Advance(R, c), S)
      ensures executor.currentNode == Advance(R, c).node
      ensures ok == (executor.currentNode != null) && status == (if Stuck(R, c) then Underrun else Success) && (!ok ==> status == Success)
      ensures pcm[..] == FrameOf(executor.curve, Here(R, c), c.k)
      ensures executor.totalBytesSent == old(executor.totalBytesSent) + (if Stuck(R, c) then 0 else FRAME_SIZE_BYTES)
      ensures executor.packetsSent == old(executor.packetsSent) + (if ok then 1 else 0)
      ensures dispatched == old(dispatched) + (if ok then [pcm[..]] else [])
    {
      hide Playable, Playing, FrameOf, PartOf, AtRest, Silence, AnyHeard, MixedFrame, AudioExecutor.Turned, FilledBut, LoopedAre, Length,
        Stalls, Here, Closes, AfterClosing, Describes, DescribesNode, Sound, Closing;
      Described(R, S);
      var n := executor.currentNode;
      DescribedNode(R, n, S);
      PartIsWorn(R, c, S);
      NotItsOwnInput(n, S);
      ok, status := ProcessAndStreamSingleFrame(pcm, S, c.spent, R.looped);
      Described(R, S);
      ghost var d := Advance(R, c);
      if d.node != null && Leaves(Here(R, c), c.k) {
        NextIsPlaying(R, d, S);
      }
    }

    /** `i` frames of the stream have been produced; the one that ended it, if it is over, was not dispatched. */
    ghost predicate Streamed(i: nat, R: Route, S: set<Node>)
      reads this`dispatched, executor, S
    {
      && Describes(R, S) && Sound(R) && InputsInside(S) && executor.startNode in R.stages
      && var start := Cursor(executor.startNode, 0, {});
         var c := At(R, start, i);
         && AtCursor(c, S)
         && (c.node == null ==> i > 0 && At(R, start, i - 1).node != null)
         && executor.totalBytesSent == FRAME_SIZE_BYTES * Counted(R, start, i)
         && executor.packetsSent == (if c.node == null then i - 1 else i)
         && dispatched == Frames(executor.curve, R, start, executor.packetsSent)
    }

    method StreamNext(pcm: array<int16>, ghost i: nat, ghost R: Route, ghost S: set<Node>) returns (ok: bool, status: ErrorCode)
      requires pcm.Length == SAMPLES_PER_FRAME && Streamed(i, R, S) && executor.currentNode != null
      modifies this`dispatched, executor`currentNode, executor`totalBytesSent, executor`packetsSent, S`processed, S`filled, pcm
      ensures Streamed(i + 1, R, S) && ok == (executor.currentNode != null) && (!ok ==> status == Success)
    {
      hide Describes, Sound, Playing, FrameOf, Advance, At, Frames, Counted, Here, Stuck, FilledBut;
      ghost var start := Cursor(executor.startNode, 0, {});
      ghost var c := At(R, start, i);
      OneFrame(executor.curve, R, start, i);
      ok, status := Tick(pcm, c, R, S);
      assert At(R, start, i + 1) == Advance(R, c);
    }

    lemma NothingStreamed(R: Route, S: set<Node>)
      requires Describes(R, S) && executor.startNode in R.stages && executor.currentNode == executor.startNode
      requires AtRest(S) && FilledBut(S, {})
      requires executor.totalBytesSent == 0 && executor.packetsSent == 0 && dispatched == []
      ensures Streamed(0, R, S)
    {
      hide Describes, DescribesNode, Sound, Playing;
      Described(R, S);
      NextIsPlaying(R, Cursor(executor.startNode, 0, {}), S);
    }

    /**
     * The loop until the stream ends, or until `stop` is called after `ticks` frames. Every frame is
     * the one that is due, and all but the one that ends the stream are dispatched.
     */
    method RunMainAudioLoop(ticks: nat, ghost R: Route, ghost S: set<Node>) returns (status: ErrorCode, produced: nat)
      requires Describes(R, S) && executor.startNode in R.stages && executor.currentNode == executor.startNode
      requires AtRest(S) && FilledBut(S, {})
      requires executor.totalBytesSent == 0 && executor.packetsSent == 0 && dispatched == []
      modifies this`isRunning, this`dispatched, executor`currentNode, executor`totalBytesSent, executor`packetsSent, S`processed, S`filled
      ensures Streamed(produced, R, S) && status == Success && produced <= ticks
      ensures executor.currentNode != null ==> produced == ticks
    {
      hide Describes, AtRest, Streamed, FilledBut;
      NothingStreamed(R, S);
      var pcm := new int16[SAMPLES_PER_FRAME](_ => 0);
      hide *;
      isRunning := true;
      status := Success;
      produced := 0;
      while isRunning
        invariant Streamed(produced, R, S) && executor.currentNode != null
        invariant produced <= ticks && status == Success
        invariant !isRunning ==> produced == ticks
        decreases ticks - produced, isRunning
      {
        hide *;
        if produced == ticks {
          isRunning := false;
        } else {
          var ok, frameStatus := StreamNext(pcm, produced, R, S);
          produced := produced + 1;
          if !ok {
            return frameStatus, produced;
          }
        }
      }
    }
  }

  /** What a finished or stopped session has sent of a null-ended chain in which no file stalls. */
  lemma ChainTotals(s: Session, path: seq<Node>, i: nat, R: Route, S: set<Node>)
    requires s.Streamed(i, R, S) && Path(R, path, null) && From(path, null, {}) == Cursor(s.executor.startNode, 0, {})
    requires NoStall(WornPath(R, path, {}))
    ensures var parts := WornPath(R, path, {});
            && i <= SumOfLengths(parts)
            && (s.executor.currentNode == null <==> i == SumOfLengths(parts))
            && s.executor.totalBytesSent == FRAME_SIZE_BYTES * i
            && s.executor.packetsSent == (if i == SumOfLengths(parts) then i - 1 else i)
            && |s.dispatched| == s.executor.packetsSent
            && s.dispatched <= Programme(s.executor.curve, parts)
  {
    hide Describes, Sound, Path, From, WornPath, Programme, SumOfLengths, At, Frames, Counted, Playing, FilledBut, NoStall;
    ChainSoFar(s.executor.curve, R, path, i);
  }

  /** The first `i` frames of such a stream; the one that ends it is not among those sent. */
  lemma ChainSoFar(curve: int -> int16, R: Route, path: seq<Node>, i: nat)
    requires Sound(R) && Path(R, path, null) && NoStall(WornPath(R, path, {})) && OnRoute(R, From(path, null, {}))
    requires At(R, From(path, null, {}), i).node == null ==> i > 0 && At(R, From(path, null, {}), i - 1).node != null
    ensures var start, total := From(path, null, {}), SumOfLengths(WornPath(R, path, {}));
            var n := if At(R, start, i).node == null then i - 1 else i;
            && i <= total && (At(R, start, i).node == null <==> i == total) && Counted(R, start, i) == i
            && Frames(curve, R, start, n) <= Programme(curve, WornPath(R, path, {})) && |Frames(curve, R, start, n)| == n
  {
    hide Sound, From, WornPath, Programme, SumOfLengths, At, Frames, Counted, NoStall, OnRoute, SpentPath;
    var start, total := From(path, null, {}), SumOfLengths(WornPath(R, path, {}));
    forall j: nat
      ensures At(R, start, j).node == null <==> j >= total
    {
      ChainEndsIff(R, path, j);
    }
    PathPlaysProgramme(curve, R, path, null, {});
    hide Path;
    AllCounted(R, start, i, total);
    Beginning(curve, R, start, if At(R, start, i).node == null then i - 1 else i, total, Programme(curve, WornPath(R, path, {})));
  }

  lemma Beginning(curve: int -> int16, R: Route, c: Cursor, n: nat, total: nat, frames: seq<seq<int16>>)
    requires Sound(R) && OnRoute(R, c) && n <= total && Frames(curve, R, c, total) == frames && At(R, c, n).node != null
    ensures Frames(curve, R, c, n) <= frames && |Frames(curve, R, c, n)| == n
  {
    hide *;
    FramesAdd(curve, R, c, n, total - n);
    FramesLength(curve, R, c, n);
  }

  /** What a session has sent of a path in which a file stalls: it never ends, and silence that is not counted is all that follows. */
  lemma StalledTotals(s: Session, path: seq<Node>, after: Node?, j: nat, i: nat, R: Route, S: set<Node>)
    requires s.Streamed(i, R, S) && Path(R, path, after) && From(path, after, {}) == Cursor(s.executor.startNode, 0, {})
    requires StallsFirstAt(WornPath(R, path, {}), j)
    ensures var parts := WornPath(R, path, {})[..j + 1];
            && s.executor.currentNode != null
            && s.executor.totalBytesSent == FRAME_SIZE_BYTES * Min(i, SumOfLengths(parts))
            && s.executor.packetsSent == |s.dispatched| == i
            && s.dispatched <= Programme(s.executor.curve, parts) + Silences(i)
  {
    hide Describes, Sound, Path, From, WornPath, Programme, SumOfLengths, At, Frames, Counted, Playing, FilledBut, StallsFirstAt, Silences;
    StallSoFar(s.executor.curve, R, path, after, j, i);
  }

  lemma StallSoFar(curve: int -> int16, R: Route, path: seq<Node>, after: Node?, j: nat, i: nat)
    requires Sound(R) && Path(R, path, after) && StallsFirstAt(WornPath(R, path, {}), j)
    ensures var start, parts := From(path, after, {}), WornPath(R, path, {})[..j + 1];
            && OnRoute(R, start) && At(R, start, i).node != null && Counted(R, start, i) == Min(i, SumOfLengths(parts))
            && Frames(curve, R, start, i) <= Programme(curve, parts) + Silences(i) && |Frames(curve, R, start, i)| == i
  {
    hide Sound, From, WornPath, Programme, SumOfLengths, At, Frames, Counted, OnRoute, Silences, NoStall, Stalls;
    var start, parts := From(path, after, {}), WornPath(R, path, {})[..j + 1];
    PathStalls(curve, R, path, after, {}, j, SumOfLengths(parts) + i);
    StallCounted(curve, R, path, after, j, i);
    hide Path;
    StalledStart(curve, R, start, i, SumOfLengths(parts), Programme(curve, parts));
  }

  lemma StalledStart(curve: int -> int16, R: Route, start: Cursor, i: nat, lead: nat, frames: seq<seq<int16>>)
    requires Sound(R) && OnRoute(R, start) && At(R, start, lead + i).node != null
    requires Frames(curve, R, start, lead + i) == frames + Silences(i)
    ensures At(R, start, i).node != null && Frames(curve, R, start, i) <= frames + Silences(i) && |Frames(curve, R, start, i)| == i
  {
    hide *;
    NotOverBefore(R, start, i, lead + i);
    Beginning(curve, R, start, i, lead + i, frames + Silences(i));
  }

  lemma StallCounted(curve: int -> int16, R: Route, path: seq<Node>, after: Node?, j: nat, i: nat)
    requires Sound(R) && Path(R, path, after) && StallsFirstAt(WornPath(R, path, {}), j)
    ensures OnRoute(R, From(path, after, {}))
    ensures Counted(R, From(path, after, {}), i) == Min(i, SumOfLengths(WornPath(R, path, {})[..j + 1]))
  {
    var lead := SumOfLengths(WornPath(R, path, {})[..j + 1]);
    hide *;
    PathStalls(curve, R, path, after, {}, j, lead);
    if i <= lead {
      CountedAll(R, From(path, after, {}), i, lead);
    } else {
      PathStalls(curve, R, path, after, {}, j, i);
    }
  }

  /** What a session has sent of a chain that reaches a cycle, if no file stalls in its head: it never ends by itself. */
  lemma CycleTotals(s: Session, head: seq<Node>, cycle: seq<Node>, q: nat, i: nat, R: Route, S: set<Node>)
    requires s.Streamed(i, R, S) && |cycle| > 0 && Path(R, cycle, cycle[0]) && Path(R, head, cycle[0]) && LoopedCycle(R, cycle)
    requires From(head, cycle[0], {}) == Cursor(s.executor.startNode, 0, {})
    requires NoStall(WornPath(R, head, {}))
    requires i <= SumOfLengths(WornPath(R, head, {})) + q * SumOfLengths(Parts(R, cycle))
    ensures s.executor.currentNode != null
    ensures s.executor.totalBytesSent == FRAME_SIZE_BYTES * i && s.executor.packetsSent == |s.dispatched| == i
    ensures s.dispatched <= Programme(s.executor.curve, WornPath(R, head, {})) + Repeat(Programme(s.executor.curve, Parts(R, cycle)), q)
  {
    hide Describes, Sound, From, Parts, WornPath, Programme, SumOfLengths, At, Frames, Counted, Playing, FilledBut,
      LoopedCycle, Repeat, Path, NoStall;
    LapsSoFar(s.executor.curve, R, head, cycle, q, i);
  }

  /** The first `i` frames of such a stream. */
  lemma LapsSoFar(curve: int -> int16, R: Route, head: seq<Node>, cycle: seq<Node>, q: nat, i: nat)
    requires Sound(R) && |cycle| > 0 && Path(R, cycle, cycle[0]) && Path(R, head, cycle[0]) && LoopedCycle(R, cycle)
    requires NoStall(WornPath(R, head, {}))
    requires i <= SumOfLengths(WornPath(R, head, {})) + q * SumOfLengths(Parts(R, cycle))
    ensures var start := From(head, cycle[0], {});
            && OnRoute(R, start) && At(R, start, i).node != null && Counted(R, start, i) == i
            && Frames(curve, R, start, i) <= Programme(curve, WornPath(R, head, {})) + Repeat(Programme(curve, Parts(R, cycle)), q)
            && |Frames(curve, R, start, i)| == i
  {
    hide Sound, LoopedCycle, NoStall, Parts, WornPath, SumOfLengths, Programme, Repeat, At, Frames, Counted, SpentPath;
    var start := From(head, cycle[0], {});
    var n := SumOfLengths(WornPath(R, head, {})) + q * SumOfLengths(Parts(R, cycle));
    CyclePlaysLaps(curve, R, head, cycle, q);
    EndlessStart(curve, R, start, i, n, Programme(curve, WornPath(R, head, {})) + Repeat(Programme(curve, Parts(R, cycle)), q));
  }

  lemma EndlessStart(curve: int -> int16, R: Route, start: Cursor, i: nat, n: nat, frames: seq<seq<int16>>)
    requires Sound(R) && OnRoute(R, start) && i <= n && At(R, start, n).node != null && At(R, start, n).k == 0
    requires Frames(curve, R, start, n) == frames
    ensures At(R, start, i).node != null && Counted(R, start, i) == i
    ensures Frames(curve, R, start, i) <= frames && |Frames(curve, R, start, i)| == i
  {
    hide *;
    forall j | 0 <= j <= i
      ensures At(R, start, j).node != null
    {
      NotOverBefore(R, start, j, n);
    }
    AllCounted(R, start, i, n);
    Beginning(curve, R, start, i, n, frames);
  }

  lemma NotOverBefore(R: Route, c: Cursor, j: nat, n: nat)
    requires Sound(R) && OnRoute(R, c) && j <= n && At(R, c, n).node != null
    ensures At(R, c, j).node != null
  {
    hide Sound, At, OnRoute, Stuck;
    if At(R, c, j).node == null {
      StaysFrom(R, c, j, n);
    }
  }
}
