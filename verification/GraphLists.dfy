/** What node and edge lists say about the graph that is made of them. */
module GraphLists {
  import opened Bytes
  import opened GraphNodes
  import opened MixerLaws
  import opened GraphBuilder
  import opened Programmes
  import opened Executor
  import opened Streams
  import opened Preparation
  import opened LoopFlagging

  // ---------------------------------------------------------------- what the lists say

  /** The entry after entry `i`: the last edge out of it that may set its next. */
  function NextIndex(specs: seq<NodeSpec>, edges: seq<Edge>, i: nat): (r: Option<nat>)
    requires AllAllowed(specs, edges) && i < |specs| && specs[i].kind.Some?
    ensures r.Some? ==> r.value < |specs| && specs[r.value].kind.Some?
  {
    if edges == [] then None
    else
      var e := edges[|edges| - 1];
      assert EdgeAllowed(specs, e);
      var s, t := LastNamed(specs, e.source).value, LastNamed(specs, e.target).value;
      if s == i && Wires(specs[t].kind.value, specs[i].kind.value) then Some(t)
      else NextIndex(specs, edges[..|edges| - 1], i)
  }

  /** The file inputs of entry `i`, if it is a mixer, in the order of the edges. */
  function InputIndices(specs: seq<NodeSpec>, edges: seq<Edge>, i: nat): (r: seq<nat>)
    requires AllAllowed(specs, edges) && i < |specs| && specs[i].kind.Some?
    ensures forall j :: 0 <= j < |r| ==> r[j] < |specs| && specs[r[j]].kind == Some(FileInput)
  {
    if edges == [] then []
    else
      var e := edges[|edges| - 1];
      assert EdgeAllowed(specs, e);
      var s, t := LastNamed(specs, e.source).value, LastNamed(specs, e.target).value;
      var pre := InputIndices(specs, edges[..|edges| - 1], i);
      if t == i && specs[i].kind == Some(Mixer) && specs[s].kind == Some(FileInput) then pre + [s] else pre
  }

  /** Told by kinds alone: the last edge out of an entry into a mixer or a delay, or from a delay into a file, decides its next. */
  lemma {:induction false} LastEdgeDecidesNext(specs: seq<NodeSpec>, edges: seq<Edge>, i: nat, k: nat, t: nat)
    requires AllAllowed(specs, edges) && i < |specs| && specs[i].kind.Some? && t < |specs| && k < |edges|
    requires Joins(specs, edges[k], i, t)
    requires specs[t].kind == Some(Mixer) || specs[t].kind == Some(Delay) || (specs[i].kind == Some(Delay) && specs[t].kind == Some(FileInput))
    requires forall j, u: nat :: k < j < |edges| && u < |specs| && Joins(specs, edges[j], i, u) ==>
               && specs[u].kind != Some(Mixer) && specs[u].kind != Some(Delay)
               && !(specs[i].kind == Some(Delay) && specs[u].kind == Some(FileInput))
    ensures NextIndex(specs, edges, i) == Some(t)
    decreases |edges|
  {
    hide LastNamed;
    assert EdgeAllowed(specs, edges[k]);
    if k < |edges| - 1 {
      assert EdgeAllowed(specs, edges[|edges| - 1]);
      LastEdgeDecidesNext(specs, edges[..|edges| - 1], i, k, t);
    }
  }

  /** Without such an edge the entry has no next. */
  lemma {:induction false} NoEdgeNoNextIndex(specs: seq<NodeSpec>, edges: seq<Edge>, i: nat)
    requires AllAllowed(specs, edges) && i < |specs| && specs[i].kind.Some?
    requires forall j, u: nat :: 0 <= j < |edges| && u < |specs| && Joins(specs, edges[j], i, u) ==>
               && specs[u].kind != Some(Mixer) && specs[u].kind != Some(Delay)
               && !(specs[i].kind == Some(Delay) && specs[u].kind == Some(FileInput))
    ensures NextIndex(specs, edges, i) == None
  {
    hide LastNamed;
    if edges != [] {
      assert EdgeAllowed(specs, edges[|edges| - 1]);
      NoEdgeNoNextIndex(specs, edges[..|edges| - 1], i);
    }
  }

  /** The inputs of a mixer are the files with an edge into it. */
  lemma {:induction false} InputsAreFilesWithEdges(specs: seq<NodeSpec>, edges: seq<Edge>, i: nat, s: nat)
    requires AllAllowed(specs, edges) && i < |specs| && specs[i].kind == Some(Mixer) && s < |specs|
    ensures s in InputIndices(specs, edges, i)
            <==> specs[s].kind == Some(FileInput) && exists k :: 0 <= k < |edges| && Joins(specs, edges[k], s, i)
  {
    if edges != [] {
      hide *;
      var pre := edges[..|edges| - 1];
      LastEdgeJoins(specs, edges, i, s);
      InputsAreFilesWithEdges(specs, pre, i, s);
      JoinedSomewhere(specs, edges, s, i);
    }
  }

  lemma JoinedSomewhere(specs: seq<NodeSpec>, edges: seq<Edge>, s: nat, t: nat)
    requires edges != []
    ensures var pre := edges[..|edges| - 1];
            (exists k :: 0 <= k < |edges| && Joins(specs, edges[k], s, t)) <==>
              (exists k :: 0 <= k < |pre| && Joins(specs, pre[k], s, t)) || Joins(specs, edges[|edges| - 1], s, t)
  {
    hide Joins;
    var n := |edges| - 1;
    if k :| 0 <= k < n && Joins(specs, edges[..n][k], s, t) {
      assert Joins(specs, edges[k], s, t);
    }
    if k :| 0 <= k < |edges| && Joins(specs, edges[k], s, t) {
      assert k < n ==> Joins(specs, edges[..n][k], s, t);
    }
  }

  lemma LastEdgeJoins(specs: seq<NodeSpec>, edges: seq<Edge>, i: nat, s: nat)
    requires AllAllowed(specs, edges) && i < |specs| && specs[i].kind == Some(Mixer) && s < |specs| && edges != []
    ensures AllAllowed(specs, edges[..|edges| - 1])
    ensures s in InputIndices(specs, edges, i) <==>
              || s in InputIndices(specs, edges[..|edges| - 1], i)
              || (specs[s].kind == Some(FileInput) && Joins(specs, edges[|edges| - 1], s, i))
  {
    hide LastNamed;
    assert EdgeAllowed(specs, edges[|edges| - 1]);
  }

  predicate Joins(specs: seq<NodeSpec>, e: Edge, s: nat, t: nat) {
    LastNamed(specs, e.source) == Some(s) && LastNamed(specs, e.target) == Some(t)
  }

  function SourcesAt(specs: seq<NodeSpec>, indices: seq<nat>): (s: seq<Source>)
    requires forall j :: 0 <= j < |indices| ==> indices[j] < |specs|
    ensures |s| == |indices|
    ensures forall j :: 0 <= j < |indices| ==> s[j] == Source(specs[indices[j]].play, specs[indices[j]].total, 0, false, true)
  {
    seq(|indices|, j requires 0 <= j < |indices| => Source(specs[indices[j]].play, specs[indices[j]].total, 0, false, true))
  }

  /** What entry `i` plays when all buffers are filled; a mixer as long as its longest input. */
  function PartAt(specs: seq<NodeSpec>, edges: seq<Edge>, i: nat): Part
    requires AllAllowed(specs, edges) && i < |specs| && specs[i].kind.Some?
  {
    var sources := SourcesAt(specs, InputIndices(specs, edges, i));
    Part(specs[i].kind.value, if specs[i].kind == Some(Mixer) then Longest(sources) else specs[i].total, specs[i].play, sources, true)
  }

  predicate Accepted(specs: seq<NodeSpec>, startId: string, edges: seq<Edge>) {
    AllKnown(specs) && ClientsCount(specs) <= 1 && LastNamed(specs, startId).Some? && AllAllowed(specs, edges)
  }

  /** Nothing that is played is empty, and mixers have inputs, each once. */
  predicate GoodEntry(specs: seq<NodeSpec>, edges: seq<Edge>, i: nat)
    requires AllAllowed(specs, edges) && i < |specs| && specs[i].kind.Some?
  {
    match specs[i].kind.value
    case FileInput => specs[i].total > 0
    case Delay => specs[i].total > 0
    case Mixer =>
      var indices := InputIndices(specs, edges, i);
      indices != [] && Distinct(indices) && |indices| <= 0xFFFF
    case _ => true
  }

  predicate GoodLists(specs: seq<NodeSpec>, edges: seq<Edge>)
    requires AllKnown(specs) && AllAllowed(specs, edges)
  {
    forall i :: 0 <= i < |specs| ==> GoodEntry(specs, edges, i)
  }

  predicate IsPlayed(specs: seq<NodeSpec>, i: nat) {
    i < |specs| && specs[i].kind.Some? && IsSource(specs[i].kind.value)
  }

  predicate LeadsTo(specs: seq<NodeSpec>, edges: seq<Edge>, i: nat, next: Option<nat>)
    requires AllAllowed(specs, edges)
  {
    IsPlayed(specs, i) && NextIndex(specs, edges, i) == next
  }

  function AfterEntry(path: seq<nat>, after: Option<nat>, k: nat): Option<nat>
    requires k < |path|
  {
    if k == |path| - 1 then after else Some(path[k + 1])
  }

  /** Entries along next, ending before `after`; all of them audio sources. */
  predicate EntryPath(specs: seq<NodeSpec>, edges: seq<Edge>, path: seq<nat>, after: Option<nat>)
    requires AllAllowed(specs, edges)
  {
    && (after.Some? ==> IsPlayed(specs, after.value))
    && (forall k :: 0 <= k < |path| ==> LeadsTo(specs, edges, path[k], AfterEntry(path, after, k)))
  }

  function PartsAt(specs: seq<NodeSpec>, edges: seq<Edge>, path: seq<nat>): (ps: seq<Part>)
    requires AllKnown(specs) && AllAllowed(specs, edges) && forall k :: 0 <= k < |path| ==> path[k] < |specs|
    ensures |ps| == |path| && forall k :: 0 <= k < |path| ==> ps[k] == PartAt(specs, edges, path[k])
  {
    seq(|path|, k requires 0 <= k < |path| => PartAt(specs, edges, path[k]))
  }

  predicate Laps(specs: seq<NodeSpec>, edges: seq<Edge>, head: seq<nat>, cycle: seq<nat>)
    requires AllAllowed(specs, edges)
  {
    cycle != [] && EntryPath(specs, edges, head, Some(cycle[0])) && EntryPath(specs, edges, cycle, Some(cycle[0]))
  }

  lemma {:induction false} NextIsPlayed(specs: seq<NodeSpec>, edges: seq<Edge>, i: nat)
    requires AllAllowed(specs, edges) && IsPlayed(specs, i)
    ensures var r := NextIndex(specs, edges, i); r.Some? ==> IsPlayed(specs, r.value)
  {
    if edges != [] {
      NextIsPlayed(specs, edges[..|edges| - 1], i);
    }
  }

  /** Every start leads to an end or to a cycle. */
  lemma EndsOrLaps(specs: seq<NodeSpec>, edges: seq<Edge>, start: nat, path: seq<nat>, at: nat, left: set<nat>)
    returns (head: seq<nat>, cycle: seq<nat>)
    requires AllAllowed(specs, edges) && EntryPath(specs, edges, path, Some(at)) && (path + [at])[0] == start
    requires forall i :: 0 <= i < |specs| ==> i in left || i in path
    ensures if cycle == [] then EntryPath(specs, edges, head, None) && head != [] && head[0] == start
            else Laps(specs, edges, head, cycle) && (head + cycle)[0] == start
    decreases left
  {
    hide AllAllowed, LeadsTo;
    assert at < |specs|;
    if at in path {
      hide EntryPath;
      var k :| 0 <= k < |path| && path[k] == at;
      head, cycle := path[..k], path[k..];
      assert head + cycle == path && cycle[0] == at;
      CutPath(specs, edges, path, Some(at), k);
    } else {
      hide EntryPath;
      var next := LongerPath(specs, edges, path, at);
      if next.None? {
        head, cycle := path + [at], [];
      } else {
        assert (path + [at] + [next.value])[0] == start;
        head, cycle := EndsOrLaps(specs, edges, start, path + [at], next.value, left - {at});
      }
    }
  }

  lemma CutPath(specs: seq<NodeSpec>, edges: seq<Edge>, path: seq<nat>, after: Option<nat>, k: nat)
    requires AllAllowed(specs, edges) && EntryPath(specs, edges, path, after) && k < |path|
    ensures EntryPath(specs, edges, path[..k], Some(path[k])) && EntryPath(specs, edges, path[k..], after)
  {
    hide AllAllowed;
    assert LeadsTo(specs, edges, path[k], AfterEntry(path, after, k));
    hide LeadsTo, IsPlayed;
    var a, b := path[..k], path[k..];
    forall i | 0 <= i < k
      ensures LeadsTo(specs, edges, a[i], AfterEntry(a, Some(path[k]), i))
    {
      assert LeadsTo(specs, edges, path[i], AfterEntry(path, after, i));
    }
    forall i | 0 <= i < |b|
      ensures LeadsTo(specs, edges, b[i], AfterEntry(b, after, i))
    {
      assert LeadsTo(specs, edges, path[k + i], AfterEntry(path, after, k + i));
    }
  }

  lemma LongerPath(specs: seq<NodeSpec>, edges: seq<Edge>, path: seq<nat>, at: nat) returns (next: Option<nat>)
    requires AllAllowed(specs, edges) && EntryPath(specs, edges, path, Some(at))
    ensures EntryPath(specs, edges, path + [at], next)
  {
    hide AllAllowed;
    next := NextIndex(specs, edges, at);
    NextIsPlayed(specs, edges, at);
    assert LeadsTo(specs, edges, at, next);
    hide LeadsTo, IsPlayed, NextIndex;
    var longer := path + [at];
    forall i | 0 <= i < |longer|
      ensures LeadsTo(specs, edges, longer[i], AfterEntry(longer, next, i))
    {
      if i < |path| {
        assert LeadsTo(specs, edges, path[i], AfterEntry(path, Some(at), i));
      }
    }
  }

  function StopAt(specs: seq<NodeSpec>, edges: seq<Edge>, i: nat): (s: Stop<nat>)
    requires AllAllowed(specs, edges) && i < |specs| && specs[i].kind.Some?
  {
    Stop(PartAt(specs, edges, i), i, InputIndices(specs, edges, i))
  }

  function StopsAt(specs: seq<NodeSpec>, edges: seq<Edge>, path: seq<nat>): (ss: seq<Stop<nat>>)
    requires AllAllowed(specs, edges) && forall k :: 0 <= k < |path| ==> path[k] < |specs| && specs[path[k]].kind.Some?
    ensures |ss| == |path| && forall k :: 0 <= k < |path| ==> ss[k] == StopAt(specs, edges, path[k])
  {
    seq(|path|, k requires 0 <= k < |path| => StopAt(specs, edges, path[k]))
  }

  /** The entries of a cycle and the inputs of its mixers. */
  ghost function FlaggedAt(specs: seq<NodeSpec>, edges: seq<Edge>, cycle: seq<nat>): set<nat>
    requires AllKnown(specs) && AllAllowed(specs, edges) && forall k :: 0 <= k < |cycle| ==> cycle[k] < |specs|
  {
    set i | 0 <= i < |specs| && (i in cycle || exists k :: 0 <= k < |cycle| && FeedsAt(specs, edges, i, cycle[k]))
  }

  predicate FeedsAt(specs: seq<NodeSpec>, edges: seq<Edge>, i: nat, m: nat)
    requires AllAllowed(specs, edges) && m < |specs| && specs[m].kind.Some?
  {
    specs[m].kind == Some(Mixer) && i in InputIndices(specs, edges, m)
  }

  // ---------------------------------------------------------------- the graph says the same

  function NodeOf(nodes: seq<Node>, i: Option<nat>): Node?
    requires i.Some? ==> i.value < |nodes|
  {
    if i.Some? then nodes[i.value] else null
  }

  function NodesOf(nodes: seq<Node>, indices: seq<nat>): (r: seq<Node>)
    requires forall j :: 0 <= j < |indices| ==> indices[j] < |nodes|
    ensures |r| == |indices| && forall j :: 0 <= j < |indices| ==> r[j] == nodes[indices[j]]
  {
    seq(|indices|, j requires 0 <= j < |indices| => nodes[indices[j]])
  }

  /** What parsing has made of the node list. */
  ghost predicate Built(specs: seq<NodeSpec>, nodes: seq<Node>, nodeMap: map<string, Node>) {
    && |nodes| == |specs| && Found(specs, nodes, nodeMap)
    && (forall k :: 0 <= k < |specs| ==> specs[k].kind == Some(nodes[k].kind) && specs[k].play == nodes[k].play)
    && (forall j, k :: 0 <= j < k < |nodes| ==> nodes[j] != nodes[k])
  }

  lemma NamesNode(specs: seq<NodeSpec>, id: string, i: nat, nodes: seq<Node>, nodeMap: map<string, Node>)
    requires Built(specs, nodes, nodeMap) && LastNamed(specs, id).Some? && i < |specs|
    ensures id in nodeMap && nodeMap[id] == nodes[LastNamed(specs, id).value]
    ensures nodeMap[id] == nodes[i] <==> LastNamed(specs, id).value == i
    ensures nodeMap[id].kind == specs[LastNamed(specs, id).value].kind.value
  {
    hide LastNamed;
  }

  lemma {:induction false} SameNext(specs: seq<NodeSpec>, edges: seq<Edge>, i: nat, nodes: seq<Node>, nodeMap: map<string, Node>)
    requires Built(specs, nodes, nodeMap) && AllAllowed(specs, edges) && EdgesOk(edges, nodeMap) && i < |specs|
    ensures NextAfter(edges, nodeMap, nodes[i], null) == NodeOf(nodes, NextIndex(specs, edges, i))
  {
    hide Built, LastNamed;
    KindOf(specs, i, nodes, nodeMap);
    if edges != [] {
      var e := edges[|edges| - 1];
      assert EdgeAllowed(specs, e);
      NamesNode(specs, e.source, i, nodes, nodeMap);
      NamesNode(specs, e.target, i, nodes, nodeMap);
      SameNext(specs, edges[..|edges| - 1], i, nodes, nodeMap);
    }
  }

  lemma KindOf(specs: seq<NodeSpec>, i: nat, nodes: seq<Node>, nodeMap: map<string, Node>)
    requires Built(specs, nodes, nodeMap) && i < |specs|
    ensures |nodes| == |specs| && specs[i].kind == Some(nodes[i].kind) && specs[i].play == nodes[i].play
  {
  }

  lemma {:induction false} SameInputs(specs: seq<NodeSpec>, edges: seq<Edge>, i: nat, nodes: seq<Node>, nodeMap: map<string, Node>)
    requires Built(specs, nodes, nodeMap) && AllAllowed(specs, edges) && EdgesOk(edges, nodeMap) && i < |specs|
    ensures |nodes| == |specs| && specs[i].kind.Some?
    ensures InputsAfter(edges, nodeMap, nodes[i], []) == NodesOf(nodes, InputIndices(specs, edges, i))
  {
    hide Built, LastNamed;
    KindOf(specs, i, nodes, nodeMap);
    if edges != [] {
      var e := edges[|edges| - 1];
      assert EdgeAllowed(specs, e);
      NamesNode(specs, e.source, i, nodes, nodeMap);
      NamesNode(specs, e.target, i, nodes, nodeMap);
      SameInputs(specs, edges[..|edges| - 1], i, nodes, nodeMap);
    }
  }

  /** Pointers and inputs of the graph are the ones of the lists. */
  ghost predicate WiredAs(specs: seq<NodeSpec>, edges: seq<Edge>, nodes: seq<Node>)
    requires AllKnown(specs) && AllAllowed(specs, edges) && |nodes| == |specs|
    reads nodes`target, nodes`inputs
  {
    forall i :: 0 <= i < |specs| ==>
      && nodes[i].target == NodeOf(nodes, NextIndex(specs, edges, i))
      && nodes[i].inputs == NodesOf(nodes, InputIndices(specs, edges, i))
  }

  lemma ParsedIsWired(specs: seq<NodeSpec>, edges: seq<Edge>, nodes: seq<Node>, nodeMap: map<string, Node>)
    requires AllKnown(specs) && AllAllowed(specs, edges) && Built(specs, nodes, nodeMap) && EdgesOk(edges, nodeMap)
    requires forall n :: n in nodes ==>
               n.target == NextAfter(edges, nodeMap, n, null) && n.inputs == InputsAfter(edges, nodeMap, n, [])
    ensures |nodes| == |specs| && WiredAs(specs, edges, nodes)
  {
    hide AllAllowed, EdgesOk, NextAfter, InputsAfter, NextIndex, InputIndices;
    forall i | 0 <= i < |specs|
      ensures nodes[i].target == NodeOf(nodes, NextIndex(specs, edges, i))
      ensures nodes[i].inputs == NodesOf(nodes, InputIndices(specs, edges, i))
    {
      SameNext(specs, edges, i, nodes, nodeMap);
      SameInputs(specs, edges, i, nodes, nodeMap);
    }
  }

  lemma ListedIsBuilt(specs: seq<NodeSpec>, nodes: seq<Node>, nodeMap: map<string, Node>,
                      fileNodes: seq<Node>, mixerNodes: seq<Node>, clientsNode: Node?)
    requires Lists(specs, |specs|, nodes, nodeMap, fileNodes, mixerNodes, clientsNode)
    ensures Built(specs, nodes, nodeMap)
    ensures forall m :: m in mixerNodes <==> m in nodes && m.kind == Mixer
  {
    assert specs[..|specs|] == specs;
    forall m
      ensures m in mixerNodes <==> m in nodes && m.kind == Mixer
    {
      OfKindExactly(nodes, Mixer, m);
    }
  }

  /** Entries that are no mixers have the totals of the list, and mixers are measured. */
  ghost predicate Prepared(specs: seq<NodeSpec>, nodes: seq<Node>, S: set<Node>)
    requires |nodes| == |specs| && InputsInside(S) && forall n :: n in nodes ==> n in S
    reads S`total, S`inputs
  {
    forall i :: 0 <= i < |specs| ==> if nodes[i].kind == Mixer then Measured(nodes[i]) else nodes[i].total == specs[i].total
  }

  /** Nothing has been played, and nothing is late or cannot be closed. */
  ghost predicate Resting(S: set<Node>)
    reads S`processed, S`starved, S`closeFails, S`refillLate
  {
    forall n :: n in S ==> n.processed == 0 && !n.starved && !n.closeFails && !n.refillLate
  }

  /** The whole graph as the lists describe it. */
  ghost predicate Mirrors(specs: seq<NodeSpec>, edges: seq<Edge>, nodes: seq<Node>, S: set<Node>)
    reads S`target, S`inputs, S`total
  {
    && AllKnown(specs) && AllAllowed(specs, edges) && |nodes| == |specs| && S == (set n | n in nodes)
    && (forall k :: 0 <= k < |specs| ==> specs[k].kind == Some(nodes[k].kind) && specs[k].play == nodes[k].play)
    && (forall j, k :: 0 <= j < k < |nodes| ==> nodes[j] != nodes[k])
    && InputsInside(S) && WiredAs(specs, edges, nodes) && Prepared(specs, nodes, S)
  }

  lemma SameSources(specs: seq<NodeSpec>, edges: seq<Edge>, nodes: seq<Node>, S: set<Node>, i: nat)
    requires Mirrors(specs, edges, nodes, S) && i < |specs|
    ensures FreshSources(nodes[i].inputs) == SourcesAt(specs, InputIndices(specs, edges, i))
  {
    hide AllAllowed, NextIndex, InputIndices, Measured;
    var indices := InputIndices(specs, edges, i);
    forall j | 0 <= j < |indices|
      ensures FreshSources(nodes[i].inputs)[j] == SourcesAt(specs, indices)[j]
    {
      var k := indices[j];
      assert nodes[i].inputs[j] == nodes[k];
      assert nodes[k].kind == FileInput;
    }
  }

  lemma SamePart(specs: seq<NodeSpec>, edges: seq<Edge>, nodes: seq<Node>, S: set<Node>, i: nat)
    requires Mirrors(specs, edges, nodes, S) && i < |specs|
    ensures FreshPart(nodes[i]) == PartAt(specs, edges, i) && nodes[i].inputs == NodesOf(nodes, InputIndices(specs, edges, i))
    ensures nodes[i].target == NodeOf(nodes, NextIndex(specs, edges, i)) && nodes[i].kind == specs[i].kind.value
  {
    hide AllAllowed, NextIndex, InputIndices, FreshSources, Longest;
    SameSources(specs, edges, nodes, S, i);
    hide SourcesAt;
    assert if nodes[i].kind == Mixer then Measured(nodes[i]) else nodes[i].total == specs[i].total;
  }

  lemma GoodGraph(specs: seq<NodeSpec>, edges: seq<Edge>, nodes: seq<Node>, S: set<Node>)
    requires Mirrors(specs, edges, nodes, S) && GoodLists(specs, edges) && Resting(S)
    ensures forall n :: n in S ==> GoodNode(n) && (n.kind == Mixer ==> Measured(n))
  {
    hide AllAllowed, NextIndex, InputIndices, Measured, FreshSources;
    forall n | n in S
      ensures GoodNode(n) && (n.kind == Mixer ==> Measured(n))
    {
      var i :| 0 <= i < |nodes| && nodes[i] == n;
      assert GoodEntry(specs, edges, i);
      var indices := InputIndices(specs, edges, i);
      assert n.inputs == NodesOf(nodes, indices);
      if n.kind == Mixer {
        forall j, k | 0 <= j < k < |indices|
          ensures n.inputs[j] != n.inputs[k]
        {
          assert indices[j] != indices[k];
        }
      }
    }
  }

  lemma SameEntry(specs: seq<NodeSpec>, edges: seq<Edge>, nodes: seq<Node>, S: set<Node>, path: seq<nat>, after: Option<nat>, k: nat)
    requires Mirrors(specs, edges, nodes, S) && EntryPath(specs, edges, path, after) && k < |path|
    ensures path[k] < |nodes| && InputsInside(S)
    ensures var R, n := RouteOf(S), nodes[path[k]];
            && n in R.stages && R.stages[n].stop == Stop(PartAt(specs, edges, path[k]), n, NodesOf(nodes, InputIndices(specs, edges, path[k])))
            && (AfterEntry(path, after, k).Some? ==> AfterEntry(path, after, k).value < |nodes|)
            && R.stages[n].next == NodeOf(nodes, AfterEntry(path, after, k))
  {
    hide AllAllowed, PartAt, FreshPart, Prepared, WiredAs;
    SamePart(specs, edges, nodes, S, path[k]);
    assert LeadsTo(specs, edges, path[k], AfterEntry(path, after, k));
    assert nodes[path[k]] in nodes;
  }

  lemma EndInRoute(specs: seq<NodeSpec>, edges: seq<Edge>, nodes: seq<Node>, S: set<Node>, after: nat)
    requires Mirrors(specs, edges, nodes, S) && after < |specs| && IsSource(specs[after].kind.value)
    ensures nodes[after] in RouteOf(S).stages && nodes[after] in S
  {
    hide WiredAs, Prepared, FreshPart;
    assert nodes[after] in nodes;
  }

  lemma EntriesInside(specs: seq<NodeSpec>, edges: seq<Edge>, path: seq<nat>, after: Option<nat>, nodes: seq<Node>, S: set<Node>)
    requires Mirrors(specs, edges, nodes, S) && EntryPath(specs, edges, path, after)
    ensures AllKnown(specs) && AllAllowed(specs, edges)
    ensures |nodes| == |specs| && (after.Some? ==> after.value < |specs|) && InputsInside(S)
    ensures forall k :: 0 <= k < |path| ==> path[k] < |specs| && specs[path[k]].kind.Some?
    ensures path != [] ==> From(NodesOf(nodes, path), NodeOf(nodes, after), {}) == Cursor(nodes[path[0]], 0, {})
    ensures path == [] && after.Some? ==> From(NodesOf(nodes, path), NodeOf(nodes, after), {}) == Cursor(nodes[after.value], 0, {})
    ensures after.Some? ==> nodes[after.value] in RouteOf(S).stages
  {
    hide WiredAs, Prepared, FreshPart, AllKnown, AllAllowed;
    if after.Some? {
      EndInRoute(specs, edges, nodes, S, after.value);
    }
  }

  /** A stop of the lists and the same stop of the graph. */
  ghost predicate SameStop(nodes: seq<Node>, a: Stop<Node>, b: Stop<nat>) {
    && b.self < |nodes| && (forall j :: 0 <= j < |b.inputs| ==> b.inputs[j] < |nodes|)
    && a == Stop(b.part, nodes[b.self], NodesOf(nodes, b.inputs))
  }

  /** Paths of entries are paths of the graph, stop by stop. */
  lemma SamePath(specs: seq<NodeSpec>, edges: seq<Edge>, nodes: seq<Node>, S: set<Node>, path: seq<nat>, after: Option<nat>)
    requires Mirrors(specs, edges, nodes, S) && EntryPath(specs, edges, path, after)
    ensures var R := RouteOf(S);
            && Path(R, NodesOf(nodes, path), NodeOf(nodes, after))
            && forall k :: 0 <= k < |path| ==> SameStop(nodes, Stops(R, NodesOf(nodes, path))[k], StopsAt(specs, edges, path)[k])
  {
    hide Mirrors, EntryPath, RouteOf, PartAt, NodesOf, InputIndices;
    EntriesInside(specs, edges, path, after, nodes, S);
    var R, p := RouteOf(S), NodesOf(nodes, path);
    forall k | 0 <= k < |path|
      ensures p[k] in R.stages && R.stages[p[k]].stop == Stop(PartAt(specs, edges, path[k]), p[k], NodesOf(nodes, InputIndices(specs, edges, path[k])))
      ensures k < |path| - 1 ==> R.stages[p[k]].next == p[k + 1]
      ensures k == |path| - 1 ==> R.stages[p[k]].next == NodeOf(nodes, after)
    {
      SameEntry(specs, edges, nodes, S, path, after, k);
      assert p[k] == nodes[path[k]];
    }
  }

  // ---------------------------------------------------------------- the same files are spent

  predicate SameSet(nodes: seq<Node>, X: set<Node>, Y: set<nat>) {
    forall i :: 0 <= i < |nodes| ==> (nodes[i] in X <==> i in Y)
  }

  predicate AllDifferent(nodes: seq<Node>) {
    forall j, k :: 0 <= j < k < |nodes| ==> nodes[j] != nodes[k]
  }

  lemma SameWorn(nodes: seq<Node>, a: Stop<Node>, b: Stop<nat>, X: set<Node>, Y: set<nat>)
    requires SameStop(nodes, a, b) && SameSet(nodes, X, Y)
    ensures Worn(a, X) == Worn(b, Y)
  {
    assert Worn(a, X).sources == Worn(b, Y).sources;
  }

  lemma SameClosing(nodes: seq<Node>, a: Stop<Node>, b: Stop<nat>, X: set<Node>, Y: set<nat>, K: set<Node>, L: set<nat>)
    requires AllDifferent(nodes) && SameStop(nodes, a, b) && SameSet(nodes, X, Y) && SameSet(nodes, K, L)
    ensures SameSet(nodes, AfterClosing(X, Closes(a), K), AfterClosing(Y, Closes(b), L))
  {
    SameCloses(nodes, a, b);
    hide Closes, SameStop;
  }

  lemma SameCloses(nodes: seq<Node>, a: Stop<Node>, b: Stop<nat>)
    requires AllDifferent(nodes) && SameStop(nodes, a, b)
    ensures SameSet(nodes, Closes(a), Closes(b))
  {
    forall i | 0 <= i < |nodes|
      ensures nodes[i] in Closes(a) <==> i in Closes(b)
    {
      if nodes[i] in a.inputs {
        var j :| 0 <= j < |a.inputs| && a.inputs[j] == nodes[i];
        assert nodes[b.inputs[j]] == nodes[i];
      }
      if i in b.inputs {
        var j :| 0 <= j < |b.inputs| && b.inputs[j] == i;
        assert a.inputs[j] == nodes[i];
      }
    }
  }

  /** Stop by stop the same files are spent, so the same parts are played. */
  lemma {:induction false} SameParts(nodes: seq<Node>, a: seq<Stop<Node>>, b: seq<Stop<nat>>, K: set<Node>, L: set<nat>)
    requires AllDifferent(nodes) && |a| == |b| && (forall k :: 0 <= k < |b| ==> SameStop(nodes, a[k], b[k])) && SameSet(nodes, K, L)
    ensures SameSet(nodes, SpentAfter(a, K, {}), SpentAfter(b, L, {}))
    ensures WornParts(a, K, {}) == WornParts(b, L, {}) && PartsOf(a) == PartsOf(b)
    decreases |a|
  {
    if a != [] {
      hide Worn, Closes, AfterClosing, AllDifferent, SameSet, SameStop;
      var n := |a| - 1;
      SameParts(nodes, a[..n], b[..n], K, L);
      SameWorn(nodes, a[n], b[n], SpentAfter(a[..n], K, {}), SpentAfter(b[..n], L, {}));
      SameClosing(nodes, a[n], b[n], SpentAfter(a[..n], K, {}), SpentAfter(b[..n], L, {}), K, L);
    }
    SamePartsOf(nodes, a, b);
  }

  lemma SamePartsOf(nodes: seq<Node>, a: seq<Stop<Node>>, b: seq<Stop<nat>>)
    requires |a| == |b| && (forall k :: 0 <= k < |b| ==> SameStop(nodes, a[k], b[k]))
    ensures PartsOf(a) == PartsOf(b)
  {
  }

  lemma SameMissed(curve: int -> int16, nodes: seq<Node>, a: seq<Stop<Node>>, b: seq<Stop<nat>>, K: set<Node>, L: set<nat>)
    requires AllDifferent(nodes) && |a| == |b| && (forall k :: 0 <= k < |b| ==> SameStop(nodes, a[k], b[k])) && SameSet(nodes, K, L)
    ensures AnyMissed(curve, a, K, {}) <==> AnyMissed(curve, b, L, {})
  {
    hide AnyMissed, AllDifferent, SameStop, SameSet, WornParts, SpentAfter, AllAlike;
    SameParts(nodes, a, b, K, L);
    AlikeIffNotMissed(curve, a, K, {});
    AlikeIffNotMissed(curve, b, L, {});
  }

  // ---------------------------------------------------------------- the same nodes are flagged

  /** The walk of the graph is the path of the entries. */
  lemma {:induction false} WalkOnPath(specs: seq<NodeSpec>, edges: seq<Edge>, nodes: seq<Node>, S: set<Node>, path: seq<nat>,
                                      after: Option<nat>, k: nat)
    requires Mirrors(specs, edges, nodes, S) && EntryPath(specs, edges, path, after) && Closed(S) && k <= |path|
    ensures AllKnown(specs) && |nodes| == |specs| && (after.Some? ==> after.value < |specs|)
    ensures forall i :: 0 <= i < |path| ==> path[i] < |specs| && nodes[path[i]] in S
    ensures after.Some? ==> nodes[after.value] in S
    ensures path != [] ==> Walk(nodes[path[0]], k, S) == if k < |path| then nodes[path[k]] else NodeOf(nodes, after)
  {
    hide *;
    EntriesAreNodes(specs, edges, nodes, S, path, after);
    if path != [] {
      StartsAt(nodes[path[0]], S);
    }
    if k > 0 {
      WalkOnPath(specs, edges, nodes, S, path, after, k - 1);
      TargetOnPath(specs, edges, nodes, S, path, after, k - 1);
      WalkNext(nodes[path[0]], k - 1, S);
    }
  }

  lemma EntriesAreNodes(specs: seq<NodeSpec>, edges: seq<Edge>, nodes: seq<Node>, S: set<Node>, path: seq<nat>, after: Option<nat>)
    requires Mirrors(specs, edges, nodes, S) && EntryPath(specs, edges, path, after)
    ensures AllKnown(specs) && |nodes| == |specs| && (after.Some? ==> after.value < |specs| && nodes[after.value] in S)
    ensures forall i :: 0 <= i < |path| ==> path[i] < |specs| && nodes[path[i]] in S
  {
    hide WiredAs, Prepared, NextIndex, AllAllowed;
    forall i | 0 <= i < |path|
      ensures path[i] < |specs| && nodes[path[i]] in S
    {
      assert LeadsTo(specs, edges, path[i], AfterEntry(path, after, i));
    }
  }

  lemma TargetOnPath(specs: seq<NodeSpec>, edges: seq<Edge>, nodes: seq<Node>, S: set<Node>, path: seq<nat>, after: Option<nat>, k: nat)
    requires Mirrors(specs, edges, nodes, S) && EntryPath(specs, edges, path, after) && k < |path|
    ensures |nodes| == |specs| && path[k] < |specs| && (after.Some? ==> after.value < |specs|)
    ensures k + 1 < |path| ==> path[k + 1] < |specs|
    ensures nodes[path[k]].target == if k + 1 < |path| then nodes[path[k + 1]] else NodeOf(nodes, after)
  {
    hide AllAllowed, PartAt, FreshPart, Prepared, WiredAs, NodesOf;
    EntriesAreNodes(specs, edges, nodes, S, path, after);
    SamePart(specs, edges, nodes, S, path[k]);
    assert LeadsTo(specs, edges, path[k], AfterEntry(path, after, k));
  }

  /** An ending path meets no cycle, so nothing is flagged. */
  lemma EndingFlagsNothing(specs: seq<NodeSpec>, edges: seq<Edge>, nodes: seq<Node>, S: set<Node>, path: seq<nat>)
    requires Mirrors(specs, edges, nodes, S) && EntryPath(specs, edges, path, None) && path != [] && Closed(S)
    ensures |nodes| == |specs| && path[0] < |specs| && nodes[path[0]] in S
    ensures forall m :: m in S ==> !Flagged(nodes[path[0]], m, S)
  {
    hide Mirrors, EntryPath, Closed, OnCycle, Walk;
    WalkOnPath(specs, edges, nodes, S, path, None, |path|);
    forall m | m in S
      ensures !OnCycle(nodes[path[0]], m, S)
    {
      EndedWalkHasNoCycle(nodes[path[0]], |path|, m, S);
    }
  }

  /** Behind the head the walk goes round the cycle. */
  lemma WalkRound(specs: seq<NodeSpec>, edges: seq<Edge>, nodes: seq<Node>, S: set<Node>, head: seq<nat>, cycle: seq<nat>, x: nat)
    requires Mirrors(specs, edges, nodes, S) && Laps(specs, edges, head, cycle) && Closed(S)
    ensures AllKnown(specs) && |nodes| == |specs| && (head + cycle)[0] < |specs| && nodes[(head + cycle)[0]] in S
    ensures forall i :: 0 <= i < |cycle| ==> cycle[i] < |specs| && nodes[cycle[i]] in S
    ensures Walk(nodes[(head + cycle)[0]], |head| + x, S) == nodes[cycle[x % |cycle|]]
    ensures Walk(nodes[cycle[0]], |cycle|, S) == nodes[cycle[0]]
  {
    hide Mirrors, EntryPath, Closed, Walk;
    var after, l := Some(cycle[0]), |cycle|;
    WalkOnPath(specs, edges, nodes, S, cycle, after, l);
    WalkOnPath(specs, edges, nodes, S, cycle, after, x % l);
    WalkOnPath(specs, edges, nodes, S, head, after, |head|);
    var start, c := nodes[(head + cycle)[0]], nodes[cycle[0]];
    StartsAt(start, S);
    assert Walk(start, |head|, S) == c;
    WithinLap(c, l, x, S);
    WalkAdd(start, |head|, x, S);
  }

  lemma StartsAt(n: Node, S: set<Node>)
    requires Closed(S) && n in S
    ensures Walk(n, 0, S) == n
  {
  }

  /** The nodes on the cycle are exactly the entries of the cycle. */
  lemma CycleOfEntries(specs: seq<NodeSpec>, edges: seq<Edge>, nodes: seq<Node>, S: set<Node>, head: seq<nat>, cycle: seq<nat>, m: Node)
    requires Mirrors(specs, edges, nodes, S) && Laps(specs, edges, head, cycle) && Closed(S) && m in S
    ensures |nodes| == |specs| && (head + cycle)[0] < |specs| && nodes[(head + cycle)[0]] in S
    ensures forall i :: 0 <= i < |cycle| ==> cycle[i] < |specs|
    ensures OnCycle(nodes[(head + cycle)[0]], m, S) <==> m in NodesOf(nodes, cycle)
  {
    hide Mirrors, EntryPath, Closed, Walk;
    WalkRound(specs, edges, nodes, S, head, cycle, 0);
    var start, l := nodes[(head + cycle)[0]], |cycle|;
    if OnCycle(start, m, S) {
      var j: nat :| Walk(start, j, S) == m;
      var p := LapLength(m, S);
      LapsReturn(m, p, |head|, S);
      WalkAdd(start, j, |head| * p, S);
      var x := Beyond(|head|, p, j);
      WalkRound(specs, edges, nodes, S, head, cycle, x);
      assert NodesOf(nodes, cycle)[x % l] == m;
    }
    if m in NodesOf(nodes, cycle) {
      var j :| 0 <= j < l && NodesOf(nodes, cycle)[j] == m;
      EntryOnCycle(specs, edges, nodes, S, head, cycle, j);
    }
  }

  lemma EntryOnCycle(specs: seq<NodeSpec>, edges: seq<Edge>, nodes: seq<Node>, S: set<Node>, head: seq<nat>, cycle: seq<nat>, j: nat)
    requires Mirrors(specs, edges, nodes, S) && Laps(specs, edges, head, cycle) && Closed(S) && j < |cycle|
    ensures |nodes| == |specs| && (head + cycle)[0] < |specs| && nodes[(head + cycle)[0]] in S
    ensures cycle[j] < |specs| && nodes[cycle[j]] in S && OnCycle(nodes[(head + cycle)[0]], nodes[cycle[j]], S)
  {
    hide Mirrors, EntryPath, Closed, Walk;
    WalkRound(specs, edges, nodes, S, head, cycle, j);
    WalkRound(specs, edges, nodes, S, head, cycle, j + |cycle|);
    var start, l, m := nodes[(head + cycle)[0]], |cycle|, nodes[cycle[j]];
    RoundAgain(j, l);
    WalkAdd(start, |head| + j, l, S);
    OneStep(m, S);
    WalkAdd(m, 1, l - 1, S);
    assert Walk(m.target, l - 1, S) == m;
  }

  lemma RoundAgain(j: nat, l: nat)
    requires j < l
    ensures j % l == j && (j + l) % l == j
  {
  }

  /** Flagged are the entries of the cycle and the inputs of its mixers. */
  lemma FlaggedEntries(specs: seq<NodeSpec>, edges: seq<Edge>, nodes: seq<Node>, S: set<Node>, head: seq<nat>, cycle: seq<nat>, i: nat)
    requires Mirrors(specs, edges, nodes, S) && Laps(specs, edges, head, cycle) && Closed(S) && i < |specs|
    ensures |nodes| == |specs| && (head + cycle)[0] < |specs| && nodes[(head + cycle)[0]] in S && nodes[i] in S
    ensures AllKnown(specs) && forall k :: 0 <= k < |cycle| ==> cycle[k] < |specs|
    ensures Flagged(nodes[(head + cycle)[0]], nodes[i], S) <==> i in FlaggedAt(specs, edges, cycle)
  {
    hide EntryPath, Closed, OnCycle, WiredAs, Prepared, InputIndices, AllAllowed;
    assert nodes[i] in nodes;
    CycleOfEntries(specs, edges, nodes, S, head, cycle, nodes[i]);
    var start, p := nodes[(head + cycle)[0]], NodesOf(nodes, cycle);
    if nodes[i] in p {
      var k :| 0 <= k < |cycle| && p[k] == nodes[i];
      assert cycle[k] == i;
    }
    if i in cycle {
      var k :| 0 <= k < |cycle| && cycle[k] == i;
      assert p[k] == nodes[i];
    }
    if x :| x in S && OnCycle(start, x, S) && Feeds(nodes[i], x) {
      CycleOfEntries(specs, edges, nodes, S, head, cycle, x);
      var k :| 0 <= k < |cycle| && p[k] == x;
      FeedsSame(specs, edges, nodes, S, i, cycle[k]);
      assert FeedsAt(specs, edges, i, cycle[k]);
    }
    if k :| 0 <= k < |cycle| && FeedsAt(specs, edges, i, cycle[k]) {
      FeedsSame(specs, edges, nodes, S, i, cycle[k]);
      assert p[k] == nodes[cycle[k]] && p[k] in nodes;
      CycleOfEntries(specs, edges, nodes, S, head, cycle, p[k]);
      assert OnCycle(start, p[k], S) && Feeds(nodes[i], p[k]);
    }
  }

  lemma FeedsSame(specs: seq<NodeSpec>, edges: seq<Edge>, nodes: seq<Node>, S: set<Node>, i: nat, m: nat)
    requires Mirrors(specs, edges, nodes, S) && i < |specs| && m < |specs|
    ensures Feeds(nodes[i], nodes[m]) <==> FeedsAt(specs, edges, i, m)
  {
    hide AllAllowed, Prepared, WiredAs, InputIndices, PartAt, FreshPart;
    SamePart(specs, edges, nodes, S, m);
    var indices, inputs := InputIndices(specs, edges, m), nodes[m].inputs;
    if nodes[i] in inputs {
      var j :| 0 <= j < |inputs| && inputs[j] == nodes[i];
      assert nodes[indices[j]] == nodes[i];
    }
    if i in indices {
      var j :| 0 <= j < |indices| && indices[j] == i;
      assert inputs[j] == nodes[i];
    }
  }
}
