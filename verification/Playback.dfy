/** From node and edge lists to the frames that a session sends. */
module Playback {
  import opened Bytes
  import opened GraphNodes
  import opened Programmes
  import opened GraphBuilder
  import opened Executor
  import opened Streams
  import opened Preparation
  import opened GraphLists
  import opened Promises
  import opened LoopFlagging
  import Session

  ghost function SentBy(session: Session.Session, produced: nat): Sent
    reads session, session.executor
  {
    Sent(session.dispatched, produced, session.executor.totalBytesSent, session.executor.packetsSent)
  }

  /** The nodes that loop detection finds are the ones that are filled again. */
  ghost predicate FlagsFound(start: Node, S: set<Node>)
    requires Closed(S) && start in S
    reads S`target, S`inputs, S`inLoop
  {
    forall n :: n in S ==> (n.inLoop <==> Flagged(start, n, S))
  }

  /** The prepared graph of the lists; playing does not change what makes it one. */
  ghost predicate IsPrepared(specs: seq<NodeSpec>, edges: seq<Edge>, start: nat, nodes: seq<Node>, S: set<Node>)
    reads S`target, S`inputs, S`total, S`inLoop
  {
    && Mirrors(specs, edges, nodes, S) && Closed(S) && start < |specs| && nodes[start] in S && FlagsFound(nodes[start], S)
  }

  /** A session that has run over the graph of the lists. */
  ghost predicate HasPlayed(session: Session.Session, produced: nat, ticks: nat, specs: seq<NodeSpec>, edges: seq<Edge>, start: nat,
                            nodes: seq<Node>, S: set<Node>)
    reads session, session.executor, S
  {
    && IsPrepared(specs, edges, start, nodes, S) && session.executor.startNode == nodes[start]
    && session.Streamed(produced, RouteOf(S), S) && RanOn(session, produced, ticks)
  }

  lemma StreamedSoundly(session: Session.Session, produced: nat, R: Route, S: set<Node>)
    requires session.Streamed(produced, R, S)
    ensures Sound(R)
  {
  }

  lemma MirroredNodes(specs: seq<NodeSpec>, edges: seq<Edge>, nodes: seq<Node>, S: set<Node>)
    requires Mirrors(specs, edges, nodes, S)
    ensures InputsInside(S) && AllDifferent(nodes) && S == (set n | n in nodes) && |nodes| == |specs|
    ensures AllKnown(specs) && AllAllowed(specs, edges)
  {
    hide AllKnown, AllAllowed, WiredAs, Prepared;
  }

  lemma LoopedInRoute(S: set<Node>)
    requires InputsInside(S)
    ensures RouteOf(S).looped == set n | n in S && n.inLoop
  {
  }

  /** The path of a session is played with exactly the files spent that the lists say. */
  lemma SameWornPath(specs: seq<NodeSpec>, edges: seq<Edge>, nodes: seq<Node>, S: set<Node>, path: seq<nat>, after: Option<nat>, looped: set<nat>)
    requires Mirrors(specs, edges, nodes, S) && EntryPath(specs, edges, path, after)
    requires InputsInside(S) && SameSet(nodes, RouteOf(S).looped, looped)
    ensures forall k :: 0 <= k < |path| ==> path[k] < |specs| && specs[path[k]].kind.Some?
    ensures |nodes| == |specs| && Path(RouteOf(S), NodesOf(nodes, path), NodeOf(nodes, after))
    ensures AllKnown(specs) && AllAllowed(specs, edges)
    ensures var R, p := RouteOf(S), NodesOf(nodes, path);
            && WornPath(R, p, {}) == WornAt(specs, edges, path, looped)
            && Parts(R, p) == PartsAt(specs, edges, path)
  {
    hide Mirrors, EntryPath, RouteOf, AllKnown, AllAllowed, WornParts, SpentAfter, SameSet, SameStop, NodesOf, PartAt;
    EntriesInside(specs, edges, path, after, nodes, S);
    SamePath(specs, edges, nodes, S, path, after);
    MirroredNodes(specs, edges, nodes, S);
    var R, p := RouteOf(S), NodesOf(nodes, path);
    SameParts(nodes, Stops(R, p), StopsAt(specs, edges, path), R.looped, looped);
    assert PartsOf(StopsAt(specs, edges, path)) == PartsAt(specs, edges, path);
  }

  lemma NothingLooped(specs: seq<NodeSpec>, edges: seq<Edge>, nodes: seq<Node>, S: set<Node>, path: seq<nat>)
    requires Mirrors(specs, edges, nodes, S) && EntryPath(specs, edges, path, None) && path != [] && Closed(S)
    requires |nodes| == |specs| && path[0] < |specs| && nodes[path[0]] in S && FlagsFound(nodes[path[0]], S)
    ensures InputsInside(S) && SameSet(nodes, RouteOf(S).looped, {})
  {
    hide Mirrors, EntryPath, Closed, Flagged, RouteOf;
    EndingFlagsNothing(specs, edges, nodes, S, path);
    MirroredNodes(specs, edges, nodes, S);
    LoopedInRoute(S);
  }

  // ---------------------------------------------------------------- what a session has sent

  /** It has run until the end or until it was stopped. */
  ghost predicate RanOn(session: Session.Session, produced: nat, ticks: nat)
    reads session, session.executor
  {
    produced <= ticks && (session.executor.currentNode != null ==> produced == ticks)
  }

  lemma ChainSent(session: Session.Session, produced: nat, ticks: nat, R: Route, S: set<Node>, path: seq<Node>)
    requires session.Streamed(produced, R, S) && RanOn(session, produced, ticks)
    requires Path(R, path, null) && From(path, null, {}) == Cursor(session.executor.startNode, 0, {}) && NoStall(WornPath(R, path, {}))
    ensures SendsChain(SentBy(session, produced), session.executor.curve, WornPath(R, path, {}), ticks)
  {
    hide Session.Session.Streamed, Path, From, WornPath, NoStall, SumOfLengths, Programme;
    Session.ChainTotals(session, path, produced, R, S);
  }

  lemma StallSent(session: Session.Session, produced: nat, ticks: nat, R: Route, S: set<Node>, path: seq<Node>, after: Node?)
    requires session.Streamed(produced, R, S) && RanOn(session, produced, ticks)
    requires Path(R, path, after) && From(path, after, {}) == Cursor(session.executor.startNode, 0, {})
    ensures StallsAs(SentBy(session, produced), session.executor.curve, WornPath(R, path, {}), ticks)
  {
    var parts, curve := WornPath(R, path, {}), session.executor.curve;
    hide Session.Session.Streamed, Path, From, WornPath, SumOfLengths, Programme, NoStall, Stalls, Silences;
    forall j: nat | StallsFirstAt(parts, j)
      ensures j < |parts| && SendsStall(SentBy(session, produced), curve, parts[..j + 1], ticks)
    {
      Session.StalledTotals(session, path, after, j, produced, R, S);
    }
  }

  lemma LapsSent(session: Session.Session, produced: nat, ticks: nat, R: Route, S: set<Node>, head: seq<Node>, cycle: seq<Node>)
    requires session.Streamed(produced, R, S) && RanOn(session, produced, ticks)
    requires cycle != [] && Path(R, cycle, cycle[0]) && Path(R, head, cycle[0]) && LoopedCycle(R, cycle) && NoStall(WornPath(R, head, {}))
    requires From(head, cycle[0], {}) == Cursor(session.executor.startNode, 0, {})
    ensures SendsLaps(SentBy(session, produced), session.executor.curve, WornPath(R, head, {}), Parts(R, cycle), ticks)
  {
    hide Session.Session.Streamed, Path, From, WornPath, Parts, LoopedCycle, NoStall, SumOfLengths, Programme, Repeat, Sound;
    StreamedSoundly(session, produced, R, S);
    StopsAreValid(R, cycle, cycle[0]);
    ManyLaps(ticks, SumOfLengths(Parts(R, cycle)));
    Session.CycleTotals(session, head, cycle, ticks, produced, R, S);
  }

  lemma ChainPlayed(session: Session.Session, produced: nat, ticks: nat, specs: seq<NodeSpec>, edges: seq<Edge>, start: nat,
                    nodes: seq<Node>, S: set<Node>, path: seq<nat>)
    requires HasPlayed(session, produced, ticks, specs, edges, start, nodes, S)
    requires EntryPath(specs, edges, path, None) && path != [] && path[0] == start
    ensures AllKnown(specs) && AllAllowed(specs, edges)
    ensures SendsPath(SentBy(session, produced), session.executor.curve, specs, edges, path, ticks)
  {
    var R := RouteOf(S);
    hide AllKnown, AllAllowed, EntryPath, RouteOf, Mirrors, Parts, PartsAt, NodesOf, Session.Session.Streamed, Closed,
      FlagsFound, WornAt, WornPath, NoStall, SameSet, Path, From, SendsChain, StallsAs;
    EntriesInside(specs, edges, path, None, nodes, S);
    NothingLooped(specs, edges, nodes, S, path);
    SameWornPath(specs, edges, nodes, S, path, None, {});
    EntriesKnown(specs, edges, path, None);
    if NoStall(WornPath(R, NodesOf(nodes, path), {})) {
      ChainSent(session, produced, ticks, R, S, NodesOf(nodes, path));
    } else {
      StallSent(session, produced, ticks, R, S, NodesOf(nodes, path), null);
    }
  }

  /** All files of a cycle are among those that are found and filled again. */
  lemma CycleIsLooped(specs: seq<NodeSpec>, edges: seq<Edge>, nodes: seq<Node>, S: set<Node>, cycle: seq<nat>)
    requires Mirrors(specs, edges, nodes, S) && cycle != [] && EntryPath(specs, edges, cycle, Some(cycle[0]))
    requires AllKnown(specs) && AllAllowed(specs, edges) && forall k :: 0 <= k < |cycle| ==> cycle[k] < |specs|
    requires InputsInside(S) && SameSet(nodes, RouteOf(S).looped, FlaggedAt(specs, edges, cycle))
    requires |nodes| == |specs| && Path(RouteOf(S), NodesOf(nodes, cycle), nodes[cycle[0]])
    ensures LoopedCycle(RouteOf(S), NodesOf(nodes, cycle))
  {
    hide Mirrors, EntryPath, RouteOf, AllAllowed, Closes, SameStop, FlaggedAt, SameSet;
    SamePath(specs, edges, nodes, S, cycle, Some(cycle[0]));
    MirroredNodes(specs, edges, nodes, S);
    var R, p := RouteOf(S), NodesOf(nodes, cycle);
    forall k | 0 <= k < |cycle|
      ensures Closes(Stops(R, p)[k]) <= R.looped
    {
      var a, b := Stops(R, p)[k], StopsAt(specs, edges, cycle)[k];
      SameCloses(nodes, a, b);
      ClosesFlagged(specs, edges, cycle, k);
      ClosesNodes(nodes, a, b);
      Included(nodes, Closes(a), Closes(b), R.looped, FlaggedAt(specs, edges, cycle));
    }
  }

  lemma ClosesFlagged(specs: seq<NodeSpec>, edges: seq<Edge>, cycle: seq<nat>, k: nat)
    requires AllKnown(specs) && AllAllowed(specs, edges) && (forall k :: 0 <= k < |cycle| ==> cycle[k] < |specs|) && k < |cycle|
    ensures Closes(StopsAt(specs, edges, cycle)[k]) <= FlaggedAt(specs, edges, cycle)
  {
    hide AllAllowed, InputIndices, PartAt;
    forall x | x in Closes(StopAt(specs, edges, cycle[k]))
      ensures x in FlaggedAt(specs, edges, cycle)
    {
      KindAt(specs, edges, cycle[k]);
      if x !in cycle {
        assert FeedsAt(specs, edges, x, cycle[k]);
      }
    }
  }

  lemma KindAt(specs: seq<NodeSpec>, edges: seq<Edge>, i: nat)
    requires AllAllowed(specs, edges) && i < |specs| && specs[i].kind.Some?
    ensures PartAt(specs, edges, i).kind == specs[i].kind.value
  {
  }

  lemma ClosesNodes(nodes: seq<Node>, a: Stop<Node>, b: Stop<nat>)
    requires SameStop(nodes, a, b)
    ensures forall n :: n in Closes(a) ==> n in nodes
  {
  }

  lemma Included(nodes: seq<Node>, X: set<Node>, Y: set<nat>, K: set<Node>, L: set<nat>)
    requires SameSet(nodes, X, Y) && SameSet(nodes, K, L) && Y <= L && forall n :: n in X ==> n in nodes
    ensures X <= K
  {
    forall n | n in X
      ensures n in K
    {
      var i :| 0 <= i < |nodes| && nodes[i] == n;
      assert i in Y;
    }
  }

  lemma CycleLooped(specs: seq<NodeSpec>, edges: seq<Edge>, nodes: seq<Node>, S: set<Node>, head: seq<nat>, cycle: seq<nat>)
    requires Mirrors(specs, edges, nodes, S) && Laps(specs, edges, head, cycle) && Closed(S)
    requires |nodes| == |specs| && (head + cycle)[0] < |specs| && nodes[(head + cycle)[0]] in S && FlagsFound(nodes[(head + cycle)[0]], S)
    requires AllKnown(specs) && AllAllowed(specs, edges) && forall k :: 0 <= k < |cycle| ==> cycle[k] < |specs|
    ensures InputsInside(S) && SameSet(nodes, RouteOf(S).looped, FlaggedAt(specs, edges, cycle))
  {
    hide Mirrors, EntryPath, Closed, Flagged, RouteOf, AllAllowed, FlaggedAt;
    MirroredNodes(specs, edges, nodes, S);
    LoopedInRoute(S);
    forall i | 0 <= i < |nodes|
      ensures nodes[i] in RouteOf(S).looped <==> i in FlaggedAt(specs, edges, cycle)
    {
      FlaggedEntries(specs, edges, nodes, S, head, cycle, i);
    }
  }

  lemma LapsPlayed(session: Session.Session, produced: nat, ticks: nat, specs: seq<NodeSpec>, edges: seq<Edge>, start: nat,
                   nodes: seq<Node>, S: set<Node>, head: seq<nat>, cycle: seq<nat>)
    requires HasPlayed(session, produced, ticks, specs, edges, start, nodes, S)
    requires Laps(specs, edges, head, cycle) && (head + cycle)[0] == start
    ensures AllKnown(specs) && AllAllowed(specs, edges)
    ensures SendsLoop(SentBy(session, produced), session.executor.curve, specs, edges, head, cycle, ticks)
  {
    var R, after := RouteOf(S), Some(cycle[0]);
    hide AllKnown, AllAllowed, EntryPath, RouteOf, Mirrors, Parts, PartsAt, NodesOf, Session.Session.Streamed, Closed,
      FlagsFound, WornAt, WornPath, NoStall, SameSet, Path, From, SendsLaps, StallsAs, FlaggedAt, LoopedCycle;
    EntriesInside(specs, edges, head, after, nodes, S);
    EntriesInside(specs, edges, cycle, after, nodes, S);
    CycleLooped(specs, edges, nodes, S, head, cycle);
    var looped := FlaggedAt(specs, edges, cycle);
    SameWornPath(specs, edges, nodes, S, head, after, looped);
    SameWornPath(specs, edges, nodes, S, cycle, after, looped);
    CycleIsLooped(specs, edges, nodes, S, cycle);
    var h, c := NodesOf(nodes, head), NodesOf(nodes, cycle);
    if NoStall(WornPath(R, h, {})) {
      LapsSent(session, produced, ticks, R, S, h, c);
    } else {
      StallSent(session, produced, ticks, R, S, h, nodes[cycle[0]]);
    }
  }

  // ---------------------------------------------------------------- from lists to frames

  lemma GraphIsReady(specs: seq<NodeSpec>, edges: seq<Edge>, nodes: seq<Node>, S: set<Node>)
    requires Mirrors(specs, edges, nodes, S) && GoodLists(specs, edges) && Resting(S) && Wired(S)
    ensures InputsInside(S) && Describes(RouteOf(S), S) && AtRest(S)
  {
    hide Mirrors, GoodLists, Wired, Measured, GoodNode, RouteOf;
    GoodGraph(specs, edges, nodes, S);
    PreparedStreams(S);
  }

  /** The graph after parsing: all of what is described but the lengths of the mixers. */
  method Parse(specs: seq<NodeSpec>, startId: string, edges: seq<Edge>) returns (graph: Graph?)
    ensures graph != null <==> Accepted(specs, startId, edges)
    ensures graph != null ==>
              var start := LastNamed(specs, startId).value;
              && fresh(graph) && graph.Valid() && (forall n :: n in graph.nodes ==> fresh(n))
              && |graph.nodes| == |specs| && AsBuilt(specs, graph.nodes)
              && Built(specs, graph.nodes, graph.nodeMap) && WiredAs(specs, edges, graph.nodes)
              && graph.startNode == graph.nodes[start]
              && forall m :: m in graph.mixerNodes <==> m in graph.nodes && m.kind == Mixer
  {
    hide AllAllowed, AllKnown, ClientsCount, LastNamed, Lists, NextAfter, InputsAfter, EdgesOk, Wired, WiredAs, AsBuilt, Built;
    graph := ParseGraph(specs, startId, edges);
    if graph != null {
      ListedIsBuilt(specs, graph.nodes, graph.nodeMap, graph.fileNodes, graph.mixerNodes, graph.clientsNode);
      ParsedIsWired(specs, edges, graph.nodes, graph.nodeMap);
      BuiltNames(specs, startId, graph.nodes, graph.nodeMap);
    }
  }

  lemma BuiltNames(specs: seq<NodeSpec>, id: string, nodes: seq<Node>, nodeMap: map<string, Node>)
    requires Built(specs, nodes, nodeMap) && LastNamed(specs, id).Some?
    ensures |nodes| == |specs| && id in nodeMap && nodeMap[id] == nodes[LastNamed(specs, id).value]
  {
    NamesNode(specs, id, LastNamed(specs, id).value, nodes, nodeMap);
  }

  lemma MirrorsAfter(specs: seq<NodeSpec>, edges: seq<Edge>, nodes: seq<Node>, nodeMap: map<string, Node>, S: set<Node>)
    requires AllKnown(specs) && AllAllowed(specs, edges) && Built(specs, nodes, nodeMap) && S == (set n | n in nodes)
    requires Wired(S) && WiredAs(specs, edges, nodes)
    requires forall n :: n in nodes && n.kind == Mixer ==> Measured(n)
    requires forall k :: 0 <= k < |nodes| ==> nodes[k].kind != Mixer ==> nodes[k].total == specs[k].total
    ensures Mirrors(specs, edges, nodes, S)
  {
    hide WiredAs, Measured, AllAllowed, Found;
    LoopFlagging.WiredIsClosed(S);
  }

  lemma NothingPlayed(specs: seq<NodeSpec>, nodes: seq<Node>, S: set<Node>)
    requires AsBuilt(specs, nodes) && S == (set n | n in nodes)
    ensures Resting(S) && forall n :: n in S ==> !n.inLoop
  {
    forall n | n in S
      ensures Untouched(n)
    {
      var k :| 0 <= k < |nodes| && nodes[k] == n;
    }
  }

  /** The preparation of a parsed graph. */
  method PrepareGraph(graph: Graph, executor: AudioExecutor, ghost specs: seq<NodeSpec>, ghost edges: seq<Edge>)
    requires graph.Valid() && AllKnown(specs) && AllAllowed(specs, edges) && Built(specs, graph.nodes, graph.nodeMap)
    requires WiredAs(specs, edges, graph.nodes) && AsBuilt(specs, graph.nodes)
    requires executor.startNode in graph.nodes
    requires forall m :: m in graph.mixerNodes <==> m in graph.nodes && m.kind == Mixer
    modifies executor`currentNode, executor`totalBytesSent
    modifies graph.NodeSet()`total, graph.NodeSet()`inLoop, graph.NodeSet()`filled
    ensures executor.currentNode == executor.startNode && executor.totalBytesSent == 0
    ensures Wired(graph.NodeSet()) && Mirrors(specs, edges, graph.nodes, graph.NodeSet()) && Resting(graph.NodeSet())
    ensures FilledBut(graph.NodeSet(), {}) && Closed(graph.NodeSet()) && FlagsFound(executor.startNode, graph.NodeSet())
  {
    hide WiredAs, Measured, AllAllowed, Built, Wired, Closed, Flagged, Untouched;
    ghost var S := graph.NodeSet();
    NothingPlayed(specs, graph.nodes, S);
    Prepare(executor, graph.nodes, graph.mixerNodes, S);
    BuiltLength(specs, graph.nodes, graph.nodeMap);
    MirrorsAfter(specs, edges, graph.nodes, graph.nodeMap, S);
  }

  lemma BuiltLength(specs: seq<NodeSpec>, nodes: seq<Node>, nodeMap: map<string, Node>)
    requires Built(specs, nodes, nodeMap)
    ensures |nodes| == |specs|
  {
  }

  /**
   * Parse, prepare and play until the stream ends or is stopped after `ticks` frames: what has been
   * sent is what the lists say.
   */
  method Play(specs: seq<NodeSpec>, startId: string, edges: seq<Edge>, curve: int -> int16, ticks: nat)
    returns (session: Session.Session?, produced: nat)
    requires Accepted(specs, startId, edges) ==>
               GoodLists(specs, edges) && IsSource(specs[LastNamed(specs, startId).value].kind.value)
    ensures session != null <==> Accepted(specs, startId, edges)
    ensures session != null ==> Sends(SentBy(session, produced), curve, specs, edges, LastNamed(specs, startId).value, ticks)
  {
    hide AllAllowed, AllKnown, ClientsCount, LastNamed, GoodLists, IsSource, WiredAs, Built, AsBuilt, Wired, Sends;
    var graph := Parse(specs, startId, edges);
    if graph == null {
      return null, 0;
    }
    session, produced := PlayGraph(graph, specs, edges, LastNamed(specs, startId).value, curve, ticks);
  }

  method PlayGraph(graph: Graph, ghost specs: seq<NodeSpec>, ghost edges: seq<Edge>, ghost start: nat, curve: int -> int16, ticks: nat)
    returns (session: Session.Session, produced: nat)
    requires graph.Valid() && AllKnown(specs) && AllAllowed(specs, edges) && Built(specs, graph.nodes, graph.nodeMap)
    requires WiredAs(specs, edges, graph.nodes) && AsBuilt(specs, graph.nodes) && GoodLists(specs, edges)
    requires start < |specs| == |graph.nodes| && IsSource(specs[start].kind.value) && graph.startNode == graph.nodes[start]
    requires forall m :: m in graph.mixerNodes <==> m in graph.nodes && m.kind == Mixer
    modifies graph.NodeSet()`total, graph.NodeSet()`inLoop, graph.NodeSet()`processed, graph.NodeSet()`filled
    ensures Sends(SentBy(session, produced), curve, specs, edges, start, ticks)
  {
    hide AllAllowed, AllKnown, GoodLists, IsSource, WiredAs, Built, AsBuilt, Wired, Mirrors, Resting, Describes, AtRest, RouteOf,
      Sends, FilledBut, Closed, FlagsFound;
    var executor := new AudioExecutor(graph.startNode, curve);
    StartIsNode(graph, start);
    PrepareGraph(graph, executor, specs, edges);
    ghost var S := graph.NodeSet();
    GraphIsReady(specs, edges, graph.nodes, S);
    EndInRoute(specs, edges, graph.nodes, S, start);
    session, produced := PlayPrepared(executor, specs, edges, start, graph.nodes, S, ticks);
  }

  method PlayPrepared(executor: AudioExecutor, ghost specs: seq<NodeSpec>, ghost edges: seq<Edge>, ghost start: nat,
                      ghost nodes: seq<Node>, ghost S: set<Node>, ticks: nat)
    returns (session: Session.Session, produced: nat)
    requires IsPrepared(specs, edges, start, nodes, S) && InputsInside(S) && Describes(RouteOf(S), S) && nodes[start] in RouteOf(S).stages
    requires AtRest(S) && FilledBut(S, {})
    requires executor.startNode == executor.currentNode == nodes[start] && executor.totalBytesSent == 0 && executor.packetsSent == 0
    modifies executor`currentNode, executor`totalBytesSent, executor`packetsSent, S`processed, S`filled
    ensures AllKnown(specs) && AllAllowed(specs, edges)
    ensures Sends(SentBy(session, produced), executor.curve, specs, edges, start, ticks)
  {
    hide AllAllowed, AllKnown, Describes, AtRest, RouteOf, Sends, Session.Session.Streamed, FilledBut, IsPrepared, InputsInside, RanOn;
    PreparedLength(specs, edges, start, nodes, S);
    ghost var R := RouteOf(S);
    session, produced := Run(executor, R, S, ticks);
    assert R == RouteOf(S);
    AllPlayed(session, produced, ticks, specs, edges, start, nodes, S);
  }

  method Run(executor: AudioExecutor, ghost R: Route, ghost S: set<Node>, ticks: nat) returns (session: Session.Session, produced: nat)
    requires Describes(R, S) && executor.startNode in R.stages && executor.currentNode == executor.startNode
    requires AtRest(S) && FilledBut(S, {}) && executor.totalBytesSent == 0 && executor.packetsSent == 0
    modifies executor`currentNode, executor`totalBytesSent, executor`packetsSent, S`processed, S`filled
    ensures session.executor == executor && session.Streamed(produced, R, S) && RanOn(session, produced, ticks)
  {
    hide Describes, AtRest, FilledBut, Session.Session.Streamed;
    session := new Session.Session(executor);
    var status;
    status, produced := session.RunMainAudioLoop(ticks, R, S);
  }

  lemma PreparedLength(specs: seq<NodeSpec>, edges: seq<Edge>, start: nat, nodes: seq<Node>, S: set<Node>)
    requires IsPrepared(specs, edges, start, nodes, S)
    ensures start < |nodes| == |specs|
  {
  }

  lemma StartIsNode(graph: Graph, start: nat)
    requires start < |graph.nodes| && graph.startNode == graph.nodes[start]
    ensures graph.startNode in graph.nodes
  {
  }

  lemma AllPlayed(session: Session.Session, produced: nat, ticks: nat, specs: seq<NodeSpec>, edges: seq<Edge>, start: nat,
                  nodes: seq<Node>, S: set<Node>)
    requires HasPlayed(session, produced, ticks, specs, edges, start, nodes, S)
    ensures AllKnown(specs) && AllAllowed(specs, edges)
    ensures Sends(SentBy(session, produced), session.executor.curve, specs, edges, start, ticks)
  {
    PlayedOnLists(session, produced, ticks, specs, edges, start, nodes, S);
    hide *;
    var sent, curve := SentBy(session, produced), session.executor.curve;
    forall path: seq<nat> | EntryPath(specs, edges, path, None) && path != [] && path[0] == start
      ensures SendsPath(sent, curve, specs, edges, path, ticks)
    {
      ChainPlayed(session, produced, ticks, specs, edges, start, nodes, S, path);
    }
    forall head: seq<nat>, cycle: seq<nat> | Laps(specs, edges, head, cycle) && (head + cycle)[0] == start
      ensures SendsLoop(sent, curve, specs, edges, head, cycle, ticks)
    {
      LapsPlayed(session, produced, ticks, specs, edges, start, nodes, S, head, cycle);
    }
    SendsAll(sent, curve, specs, edges, start, ticks);
  }

  lemma PlayedOnLists(session: Session.Session, produced: nat, ticks: nat, specs: seq<NodeSpec>, edges: seq<Edge>, start: nat,
                      nodes: seq<Node>, S: set<Node>)
    requires HasPlayed(session, produced, ticks, specs, edges, start, nodes, S)
    ensures AllKnown(specs) && AllAllowed(specs, edges)
  {
    hide Closed, FlagsFound, Session.Session.Streamed, RouteOf, AllKnown, AllAllowed;
  }

  lemma SendsAll(sent: Sent, curve: int -> int16, specs: seq<NodeSpec>, edges: seq<Edge>, start: nat, ticks: nat)
    requires AllKnown(specs) && AllAllowed(specs, edges)
    requires forall path: seq<nat> :: EntryPath(specs, edges, path, None) && path != [] && path[0] == start ==>
               SendsPath(sent, curve, specs, edges, path, ticks)
    requires forall head: seq<nat>, cycle: seq<nat> :: Laps(specs, edges, head, cycle) && (head + cycle)[0] == start ==>
               SendsLoop(sent, curve, specs, edges, head, cycle, ticks)
    ensures Sends(sent, curve, specs, edges, start, ticks)
  {
    hide AllKnown, AllAllowed, EntryPath, Laps, SendsPath, SendsLoop;
  }
}
