/** From decoded node and edge lists to a wired graph. */
module GraphBuilder {
  import opened Bytes
  import opened GraphNodes

  /** One entry of the node list; a type the factory does not know has no kind. */
  datatype NodeSpec = NodeSpec(id: string, kind: Option<NodeKind>, total: nat, play: nat -> Frame)

  datatype Edge = Edge(source: string, target: string)

  // ---------------------------------------------------------------- what wiring keeps

  /** Every pointer stays in the graph, and every `next` comes from an edge that may set it. */
  ghost predicate Wired(S: set<Node>)
    reads S`target, S`inputs
  {
    forall n :: n in S ==> NodeWired(n, S)
  }

  ghost predicate NodeWired(n: Node, S: set<Node>)
    reads n`target, n`inputs
  {
    && (n.target != null ==> n.target in S && Wires(n.target.kind, n.kind))
    && (forall m :: m in n.inputs ==> m in S && m.kind == FileInput)
    && (n.kind != Mixer ==> n.inputs == [])
  }

  /** The next of a mixer is a delay, and only a delay leads to a file input. */
  lemma MixersLeadToDelays(S: set<Node>, n: Node)
    requires Wired(S) && n in S && n.target != null
    ensures n.kind == Mixer ==> n.target.kind == Delay
    ensures n.target.kind == FileInput ==> n.kind == Delay
    ensures n.kind != Clients && n.target.kind != Clients && n.target.kind != FileOptions
  {
    assert NodeWired(n, S);
  }

  /** Of three nodes in a row at least one is a delay. */
  lemma DelayAmongThree(S: set<Node>, a: Node, b: Node, c: Node)
    requires Wired(S) && a in S && b in S && a.target == b && b.target == c
    ensures a.kind == Delay || b.kind == Delay || c.kind == Delay
  {
    assert NodeWired(a, S) && NodeWired(b, S);
  }

  // ---------------------------------------------------------------- the effect of an edge list

  predicate KnownEdge(e: Edge, m: map<string, Node>) {
    e.source in m && e.target in m
  }

  predicate EdgeOk(e: Edge, m: map<string, Node>) {
    KnownEdge(e, m) && m[e.source].kind != Clients && Accepts(m[e.target].kind, m[e.source].kind)
  }

  predicate EdgesOk(edges: seq<Edge>, m: map<string, Node>) {
    forall i :: 0 <= i < |edges| ==> EdgeOk(edges[i], m)
  }

  /** The last wiring edge out of a node decides its `next`. */
  function NextAfter(edges: seq<Edge>, m: map<string, Node>, n: Node, before: Node?): Node?
    requires EdgesOk(edges, m)
  {
    if edges == [] then before
    else
      var e := edges[|edges| - 1];
      if m[e.source] == n && Wires(m[e.target].kind, n.kind) then m[e.target]
      else NextAfter(edges[..|edges| - 1], m, n, before)
  }

  /** A mixer lists its file inputs in the order of the edges. */
  function InputsAfter(edges: seq<Edge>, m: map<string, Node>, n: Node, before: seq<Node>): seq<Node>
    requires EdgesOk(edges, m)
  {
    if edges == [] then before
    else
      var e := edges[|edges| - 1];
      var pre := InputsAfter(edges[..|edges| - 1], m, n, before);
      if m[e.target] == n && n.kind == Mixer && m[e.source].kind == FileInput then pre + [m[e.source]] else pre
  }

  /** Told by kinds alone: which edges between known nodes are accepted. */
  lemma AcceptedPairs(e: Edge, m: map<string, Node>)
    requires KnownEdge(e, m)
    ensures EdgeOk(e, m) <==>
              (m[e.source].kind, m[e.target].kind) in {
                (FileInput, Mixer), (Delay, Mixer), (Delay, FileInput), (FileOptions, FileInput),
                (FileInput, Delay), (Mixer, Delay), (Delay, Delay), (FileOptions, Delay),
                (FileInput, Clients), (Mixer, Clients), (Delay, Clients), (FileOptions, Clients)}
  {
  }

  /** An edge into a mixer or a delay, or from a delay into a file input, that no later one follows decides what comes next. */
  lemma {:induction false} LastEdgeDecides(edges: seq<Edge>, m: map<string, Node>, n: Node, before: Node?, k: nat)
    requires EdgesOk(edges, m) && k < |edges| && m[edges[k].source] == n
    requires m[edges[k].target].kind in {Mixer, Delay} || (n.kind == Delay && m[edges[k].target].kind == FileInput)
    requires forall j :: k < j < |edges| && m[edges[j].source] == n ==>
               m[edges[j].target].kind !in {Mixer, Delay} && !(n.kind == Delay && m[edges[j].target].kind == FileInput)
    ensures NextAfter(edges, m, n, before) == m[edges[k].target]
    decreases |edges|
  {
    assert EdgeOk(edges[k], m);
    if k < |edges| - 1 {
      LastEdgeDecides(edges[..|edges| - 1], m, n, before, k);
    }
  }

  /** Without such an edge nothing changes. */
  lemma {:induction false} NoEdgeNoNext(edges: seq<Edge>, m: map<string, Node>, n: Node, before: Node?)
    requires EdgesOk(edges, m)
    requires forall j :: 0 <= j < |edges| && m[edges[j].source] == n ==>
               m[edges[j].target].kind !in {Mixer, Delay} && !(n.kind == Delay && m[edges[j].target].kind == FileInput)
    ensures NextAfter(edges, m, n, before) == before
  {
    if edges != [] {
      NoEdgeNoNext(edges[..|edges| - 1], m, n, before);
    }
  }

  lemma OneEdgeMore(edges: seq<Edge>, m: map<string, Node>, n: Node, before: Node?, inputs: seq<Node>)
    requires EdgesOk(edges, m) && edges != []
    ensures var e, pre := edges[|edges| - 1], edges[..|edges| - 1];
            && EdgesOk(pre, m) && e.source in m && e.target in m
            && NextAfter(edges, m, n, before)
               == (if m[e.source] == n && Wires(m[e.target].kind, n.kind) then m[e.target] else NextAfter(pre, m, n, before))
            && InputsAfter(edges, m, n, inputs)
               == InputsAfter(pre, m, n, inputs)
                  + (if m[e.target] == n && n.kind == Mixer && m[e.source].kind == FileInput then [m[e.source]] else [])
  {
  }

  // ---------------------------------------------------------------- the graph

  class Graph {
    var nodes: seq<Node>
    var nodeMap: map<string, Node>
    var startNode: Node?
    var fileNodes: seq<Node>
    var mixerNodes: seq<Node>
    var clientsNode: Node?

    constructor ()
      ensures nodes == [] && nodeMap == map[] && startNode == null && fileNodes == [] && mixerNodes == [] && clientsNode == null
    {
      nodes, nodeMap, startNode, fileNodes, mixerNodes, clientsNode := [], map[], null, [], [], null;
    }

    ghost function NodeSet(): set<Node>
      reads this
    {
      set n | n in nodes
    }

    ghost predicate Valid()
      reads this, NodeSet()
    {
      && (forall id :: id in nodeMap ==> nodeMap[id] in nodes)
      && (startNode != null ==> startNode in nodes)
      && Wired(NodeSet())
    }

    /** The lists are as the first `n` entries of the node list leave them. */
    ghost predicate Listed(specs: seq<NodeSpec>, n: nat)
      requires n <= |specs|
      reads this
    {
      startNode == null && Lists(specs, n, nodes, nodeMap, fileNodes, mixerNodes, clientsNode)
    }

    /** Stops at an unknown type or a second clients node. */
    method ParseNodes(specs: seq<NodeSpec>) returns (ok: bool)
      requires Listed(specs, 0) && clientsNode == null
      modifies this
      ensures ok ==> Valid() && Listed(specs, |specs|) && Blank(nodes) && AsBuilt(specs, nodes)
      ensures forall m :: m in nodes ==> fresh(m)
      ensures ok <==> AllKnown(specs) && ClientsCount(specs) <= 1
    {
      hide *;
      NothingListed(specs);
      NoSpecs(specs);
      for i := 0 to |specs|
        invariant Listed(specs, i) && Blank(nodes) && AsBuilt(specs, nodes)
        invariant forall m :: m in nodes ==> fresh(m)
        invariant AllKnown(specs[..i]) && ClientsCount(specs[..i]) == if clientsNode == null then 0 else 1
      {
        hide *;
        var added := AddNode(specs, i);
        SpecsStep(specs, i);
        if !added {
          return false;
        }
      }
      assert specs[..|specs|] == specs;
      BuiltIsValid(specs);
      ok := true;
    }

    lemma NothingListed(specs: seq<NodeSpec>)
      requires Listed(specs, 0)
      ensures nodes == [] && Blank(nodes) && AsBuilt(specs, nodes)
    {
      assert Lists(specs, 0, nodes, nodeMap, fileNodes, mixerNodes, clientsNode);
    }

    lemma BuiltIsValid(specs: seq<NodeSpec>)
      requires Listed(specs, |specs|) && Blank(nodes)
      ensures Valid()
    {
      BlankIsWired(NodeSet());
    }

    lemma NodesListed(specs: seq<NodeSpec>, i: nat)
      requires i <= |specs| && Listed(specs, i)
      ensures |nodes| == i
    {
    }

    /** One turn of the loop over the node list. */
    method AddNode(specs: seq<NodeSpec>, i: nat) returns (ok: bool)
      requires i < |specs| && Listed(specs, i) && Blank(nodes) && AsBuilt(specs, nodes)
      modifies this
      ensures ok <==> specs[i].kind.Some? && !(specs[i].kind == Some(Clients) && old(clientsNode) != null)
      ensures ok ==> Listed(specs, i + 1) && Blank(nodes) && AsBuilt(specs, nodes)
      ensures ok ==> nodes != [] && nodes == old(nodes) + [nodes[|nodes| - 1]] && fresh(nodes[|nodes| - 1])
      ensures ok ==> clientsNode == if specs[i].kind == Some(Clients) then nodes[|nodes| - 1] else old(clientsNode)
      ensures !ok ==> nodes == old(nodes)
    {
      hide Listed, Blank, AsBuilt;
      NodesListed(specs, i);
      var spec := specs[i];
      if spec.kind.None? {
        return false;
      }
      var node := new Node(spec.kind.value, spec.total, spec.play);
      BlankStep(specs, nodes, node);
      ok := AppendNode(specs, i, node);
    }

    method AppendNode(specs: seq<NodeSpec>, i: nat, node: Node) returns (ok: bool)
      requires i < |specs| && Listed(specs, i) && specs[i].kind == Some(node.kind) && specs[i].play == node.play
      requires node !in nodes
      modifies this
      ensures ok <==> !(node.kind == Clients && old(clientsNode) != null)
      ensures ok ==> Listed(specs, i + 1) && nodes == old(nodes) + [node]
      ensures ok ==> clientsNode == if node.kind == Clients then node else old(clientsNode)
      ensures !ok ==> nodes == old(nodes)
    {
      hide Lists;
      if !(node.kind == Clients && clientsNode != null) {
        ListsStep(specs, i, nodes, nodeMap, fileNodes, mixerNodes, clientsNode, node);
      }
      assert fileNodes + [] == fileNodes && mixerNodes + [] == mixerNodes;
      nodeMap := nodeMap[specs[i].id := node];
      if node.kind == FileInput {
        fileNodes := fileNodes + [node];
      } else if node.kind == Mixer {
        mixerNodes := mixerNodes + [node];
      } else if node.kind == Clients {
        if clientsNode != null {
          return false;
        }
        clientsNode := node;
      }
      nodes := nodes + [node];
      ok := true;
    }

    method SetStartNode(id: string) returns (ok: bool)
      requires Valid()
      modifies this`startNode
      ensures Valid()
      ensures ok <==> id in nodeMap
      ensures startNode == if ok then nodeMap[id] else old(startNode)
    {
      if id !in nodeMap {
        return false;
      }
      startNode := nodeMap[id];
      ok := true;
    }

    /** What `edges` made of pointers and inputs that were `targets` and `inputs`. */
    ghost predicate Effect(edges: seq<Edge>, targets: map<Node, Node?>, inputs: map<Node, seq<Node>>)
      reads this, NodeSet()
    {
      EdgesOk(edges, nodeMap) &&
      forall n :: n in nodes ==>
        && n in targets && n in inputs
        && n.target == NextAfter(edges, nodeMap, n, targets[n])
        && n.inputs == InputsAfter(edges, nodeMap, n, inputs[n])
    }

    ghost function Targets(): (m: map<Node, Node?>)
      reads this, NodeSet()
      ensures forall n :: n in nodes ==> n in m && m[n] == n.target
    {
      map n | n in nodes :: n.target
    }

    ghost function Inputs(): (m: map<Node, seq<Node>>)
      reads this, NodeSet()
      ensures forall n :: n in nodes ==> n in m && m[n] == n.inputs
    {
      map n | n in nodes :: n.inputs
    }

    /** Wires edge by edge and stops at the first that is refused. */
    method ParseEdges(edges: seq<Edge>) returns (ok: bool)
      requires Valid()
      modifies NodeSet()`target, NodeSet()`inputs, NodeSet()`options
      ensures Valid()
      ensures ok <==> EdgesOk(edges, nodeMap)
      ensures ok ==> Effect(edges, old(Targets()), old(Inputs()))
    {
      ghost var targets, inputs := Targets(), Inputs();
      for i := 0 to |edges|
        invariant Valid() && Effect(edges[..i], targets, inputs)
      {
        hide Wired, NextAfter, InputsAfter;
        assert edges[..i + 1][..i] == edges[..i];
        var added := AddEdge(edges[..i + 1], targets, inputs);
        if !added {
          assert !EdgeOk(edges[i], nodeMap);
          return false;
        }
      }
      assert edges[..|edges|] == edges;
      ok := true;
    }

    /** One turn of the loop over the edge list: the last of `edges`. */
    method AddEdge(edges: seq<Edge>, ghost targets: map<Node, Node?>, ghost inputs: map<Node, seq<Node>>) returns (ok: bool)
      requires edges != [] && Valid() && Effect(edges[..|edges| - 1], targets, inputs)
      modifies NodeSet()`target, NodeSet()`inputs, NodeSet()`options
      ensures Valid()
      ensures ok <==> EdgeOk(edges[|edges| - 1], nodeMap)
      ensures ok ==> Effect(edges, targets, inputs)
    {
      hide NextAfter, InputsAfter, Accepts, Wires;
      var edge := edges[|edges| - 1];
      if edge.source !in nodeMap || edge.target !in nodeMap {
        return false;
      }
      var source, target := nodeMap[edge.source], nodeMap[edge.target];
      assert NodeWired(source, NodeSet()) && NodeWired(target, NodeSet());
      if source.kind == Clients {
        return false;
      }
      ok := target.ConnectInput(source);
      forall n | n in NodeSet()
        ensures NodeWired(n, NodeSet())
      {
        assert old(NodeWired(n, NodeSet()));
      }
      if ok {
        forall n | n in nodes
          ensures n.target == NextAfter(edges, nodeMap, n, targets[n]) && n.inputs == InputsAfter(edges, nodeMap, n, inputs[n])
        {
          OneEdgeMore(edges, nodeMap, n, targets[n], inputs[n]);
        }
      }
    }
  }

  function OfKind(nodes: seq<Node>, kind: NodeKind): seq<Node> {
    if nodes == [] then []
    else OfKind(nodes[..|nodes| - 1], kind) + (if nodes[|nodes| - 1].kind == kind then [nodes[|nodes| - 1]] else [])
  }

  /** The last entry with an id decides what the id stands for. */
  function LastNamed(specs: seq<NodeSpec>, id: string): (k: Option<nat>)
    ensures k.Some? ==> k.value < |specs| && specs[k.value].id == id && forall j :: k.value < j < |specs| ==> specs[j].id != id
    ensures k.None? ==> forall j :: 0 <= j < |specs| ==> specs[j].id != id
  {
    if specs == [] then None
    else if specs[|specs| - 1].id == id then Some(|specs| - 1)
    else LastNamed(specs[..|specs| - 1], id)
  }

  ghost predicate Found(specs: seq<NodeSpec>, nodes: seq<Node>, nodeMap: map<string, Node>)
    requires |nodes| == |specs|
  {
    && (forall id :: id in nodeMap ==> LastNamed(specs, id).Some? && nodeMap[id] == nodes[LastNamed(specs, id).value])
    && (forall id :: LastNamed(specs, id).Some? ==> id in nodeMap)
  }

  /** Every node is listed in order, found under its id, and listed again under its kind. */
  ghost predicate Lists(specs: seq<NodeSpec>, n: nat, nodes: seq<Node>, nodeMap: map<string, Node>,
                        fileNodes: seq<Node>, mixerNodes: seq<Node>, clientsNode: Node?)
    requires n <= |specs|
  {
    && |nodes| == n
    && (forall k :: 0 <= k < n ==> specs[k].kind == Some(nodes[k].kind) && specs[k].play == nodes[k].play)
    && (forall j, k :: 0 <= j < k < n ==> nodes[j] != nodes[k])
    && Found(specs[..n], nodes, nodeMap)
    && fileNodes == OfKind(nodes, FileInput)
    && mixerNodes == OfKind(nodes, Mixer)
    && (forall k :: 0 <= k < n && nodes[k].kind == Clients ==> nodes[k] == clientsNode)
    && (clientsNode != null ==> clientsNode in nodes && clientsNode.kind == Clients)
  }

  lemma ListsStep(specs: seq<NodeSpec>, i: nat, nodes: seq<Node>, nodeMap: map<string, Node>,
                  fileNodes: seq<Node>, mixerNodes: seq<Node>, clientsNode: Node?, node: Node)
    requires i < |specs| && Lists(specs, i, nodes, nodeMap, fileNodes, mixerNodes, clientsNode)
    requires node !in nodes && specs[i].kind == Some(node.kind) && specs[i].play == node.play && (node.kind == Clients ==> clientsNode == null)
    ensures Lists(specs, i + 1, nodes + [node], nodeMap[specs[i].id := node],
                  fileNodes + (if node.kind == FileInput then [node] else []),
                  mixerNodes + (if node.kind == Mixer then [node] else []),
                  if node.kind == Clients then node else clientsNode)
  {
    hide OfKind, Found;
    OfKindStep(nodes, node, FileInput);
    OfKindStep(nodes, node, Mixer);
    FoundStep(specs[..i], nodes, nodeMap, specs[i], node);
    assert specs[..i] + [specs[i]] == specs[..i + 1];
  }

  lemma FoundStep(specs: seq<NodeSpec>, nodes: seq<Node>, nodeMap: map<string, Node>, spec: NodeSpec, node: Node)
    requires |specs| == |nodes| && Found(specs, nodes, nodeMap)
    ensures Found(specs + [spec], nodes + [node], nodeMap[spec.id := node])
  {
    var longer := specs + [spec];
    assert longer[..|specs|] == specs;
    forall id
      ensures LastNamed(longer, id) == if spec.id == id then Some(|specs|) else LastNamed(specs, id)
    {
    }
  }

  /** What an edge list must satisfy, in terms of the node list alone. */
  predicate EdgeAllowed(specs: seq<NodeSpec>, e: Edge) {
    var s, t := LastNamed(specs, e.source), LastNamed(specs, e.target);
    && s.Some? && t.Some?
    && specs[s.value].kind.Some? && specs[t.value].kind.Some?
    && specs[s.value].kind.value != Clients && Accepts(specs[t.value].kind.value, specs[s.value].kind.value)
  }

  predicate AllAllowed(specs: seq<NodeSpec>, edges: seq<Edge>) {
    forall i :: 0 <= i < |edges| ==> EdgeAllowed(specs, edges[i])
  }

  lemma EdgesOkIffAllowed(specs: seq<NodeSpec>, edges: seq<Edge>, nodes: seq<Node>, nodeMap: map<string, Node>)
    requires |nodes| == |specs| && Found(specs, nodes, nodeMap)
    requires forall k :: 0 <= k < |specs| ==> specs[k].kind == Some(nodes[k].kind)
    ensures EdgesOk(edges, nodeMap) <==> AllAllowed(specs, edges)
  {
    hide LastNamed;
    forall i | 0 <= i < |edges|
      ensures EdgeOk(edges[i], nodeMap) <==> EdgeAllowed(specs, edges[i])
    {
      NamedNode(specs, edges[i].source, nodes, nodeMap);
      NamedNode(specs, edges[i].target, nodes, nodeMap);
    }
  }

  lemma NamedNode(specs: seq<NodeSpec>, id: string, nodes: seq<Node>, nodeMap: map<string, Node>)
    requires |nodes| == |specs| && Found(specs, nodes, nodeMap)
    requires forall k :: 0 <= k < |specs| ==> specs[k].kind == Some(nodes[k].kind)
    ensures id in nodeMap <==> LastNamed(specs, id).Some?
    ensures id in nodeMap ==> specs[LastNamed(specs, id).value].kind == Some(nodeMap[id].kind)
  {
  }

  /** The nodes listed under a kind are the nodes of that kind. */
  lemma {:induction false} OfKindExactly(nodes: seq<Node>, kind: NodeKind, m: Node)
    ensures m in OfKind(nodes, kind) <==> m in nodes && m.kind == kind
  {
    if nodes != [] {
      OfKindExactly(nodes[..|nodes| - 1], kind, m);
      assert nodes == nodes[..|nodes| - 1] + [nodes[|nodes| - 1]];
    }
  }

  lemma OfKindStep(nodes: seq<Node>, n: Node, kind: NodeKind)
    ensures OfKind(nodes + [n], kind) == OfKind(nodes, kind) + (if n.kind == kind then [n] else [])
  {
    assert (nodes + [n])[..|nodes|] == nodes;
  }

  /** Nodes that nothing has been wired to yet. */
  ghost predicate Blank(nodes: seq<Node>)
    reads nodes`target, nodes`inputs
  {
    forall m :: m in nodes ==> m.target == null && m.inputs == []
  }

  /** Nodes with the lengths of their entries, which have not played anything. */
  ghost predicate AsBuilt(specs: seq<NodeSpec>, nodes: seq<Node>)
    reads nodes`total, nodes`processed, nodes`starved, nodes`closeFails, nodes`refillLate, nodes`inLoop
  {
    && |nodes| <= |specs|
    && forall k :: 0 <= k < |nodes| ==> Untouched(nodes[k]) && nodes[k].total == specs[k].total
  }

  /** A new node: nothing has been played, and nothing is late or fails to close. */
  ghost predicate Untouched(n: Node)
    reads n`processed, n`starved, n`closeFails, n`refillLate, n`inLoop
  {
    n.processed == 0 && !n.starved && !n.closeFails && !n.refillLate && !n.inLoop
  }

  lemma BlankStep(specs: seq<NodeSpec>, nodes: seq<Node>, n: Node)
    requires Blank(nodes) && AsBuilt(specs, nodes) && |nodes| < |specs|
    requires n.target == null && n.inputs == []
    requires n.total == specs[|nodes|].total && Untouched(n)
    ensures Blank(nodes + [n]) && AsBuilt(specs, nodes + [n])
  {
  }

  lemma BlankIsWired(S: set<Node>)
    requires forall n :: n in S ==> n.target == null && n.inputs == []
    ensures Wired(S)
  {
  }

  predicate AllKnown(specs: seq<NodeSpec>) {
    forall i :: 0 <= i < |specs| ==> specs[i].kind.Some?
  }

  function ClientsCount(specs: seq<NodeSpec>): nat {
    if specs == [] then 0
    else ClientsCount(specs[..|specs| - 1]) + (if specs[|specs| - 1].kind == Some(Clients) then 1 else 0)
  }

  lemma NoSpecs(specs: seq<NodeSpec>)
    ensures AllKnown(specs[..0]) && ClientsCount(specs[..0]) == 0
  {
  }

  /** Whether the loop may go on, in terms of the whole list. */
  lemma SpecsStep(specs: seq<NodeSpec>, i: nat)
    requires i < |specs|
    ensures AllKnown(specs[..i + 1]) <==> AllKnown(specs[..i]) && specs[i].kind.Some?
    ensures ClientsCount(specs[..i + 1]) == ClientsCount(specs[..i]) + (if specs[i].kind == Some(Clients) then 1 else 0)
    ensures ClientsCount(specs[..i + 1]) <= ClientsCount(specs)
    ensures specs[i].kind.None? ==> !AllKnown(specs)
  {
    var longer, shorter := specs[..i + 1], specs[..i];
    assert longer[..i] == shorter;
    AllKnownStep(shorter, longer);
    ClientsCountGrows(specs, i + 1);
  }

  lemma AllKnownStep(shorter: seq<NodeSpec>, longer: seq<NodeSpec>)
    requires |longer| == |shorter| + 1 && longer[..|shorter|] == shorter
    ensures AllKnown(longer) <==> AllKnown(shorter) && longer[|shorter|].kind.Some?
  {
    forall k | 0 <= k < |shorter|
      ensures shorter[k] == longer[k]
    {
      assert longer[..|shorter|][k] == longer[k];
    }
  }

  lemma {:induction false} ClientsCountGrows(specs: seq<NodeSpec>, n: nat)
    requires n <= |specs|
    ensures ClientsCount(specs[..n]) <= ClientsCount(specs)
    decreases |specs|
  {
    if n < |specs| {
      ClientsCountGrows(specs[..|specs| - 1], n);
      assert specs[..|specs| - 1][..n] == specs[..n];
    } else {
      assert specs[..n] == specs;
    }
  }

  /** Accepted exactly when types, ids and edges fit, and then wired as the edge list says. */
  method ParseGraph(specs: seq<NodeSpec>, startId: string, edges: seq<Edge>) returns (graph: Graph?)
    ensures graph != null <==>
              AllKnown(specs) && ClientsCount(specs) <= 1 && LastNamed(specs, startId).Some? && AllAllowed(specs, edges)
    ensures graph != null ==>
              && fresh(graph) && graph.Valid() && (forall n :: n in graph.nodes ==> fresh(n))
              && Lists(specs, |specs|, graph.nodes, graph.nodeMap, graph.fileNodes, graph.mixerNodes, graph.clientsNode)
              && AsBuilt(specs, graph.nodes)
              && startId in graph.nodeMap && graph.startNode == graph.nodeMap[startId]
              && EdgesOk(edges, graph.nodeMap)
              && (forall n :: n in graph.nodes ==>
                    && n.target == NextAfter(edges, graph.nodeMap, n, null)
                    && n.inputs == InputsAfter(edges, graph.nodeMap, n, []))
  {
    hide NextAfter, InputsAfter, AllKnown, ClientsCount, EdgesOk, Wired, Lists, AllAllowed, LastNamed, AsBuilt;
    graph := new Graph();
    ParsedNothing(specs);
    var ok := graph.ParseNodes(specs);
    if !ok {
      return null;
    }
    ParsedNodes(specs, startId, edges, graph.nodes, graph.nodeMap, graph.fileNodes, graph.mixerNodes, graph.clientsNode);
    ok := graph.SetStartNode(startId);
    if !ok {
      return null;
    }
    ok := graph.ParseEdges(edges);
    if !ok {
      return null;
    }
  }

  lemma ParsedNothing(specs: seq<NodeSpec>)
    ensures Lists(specs, 0, [], map[], [], [], null)
  {
  }

  lemma ParsedNodes(specs: seq<NodeSpec>, startId: string, edges: seq<Edge>, nodes: seq<Node>, nodeMap: map<string, Node>,
                    fileNodes: seq<Node>, mixerNodes: seq<Node>, clientsNode: Node?)
    requires Lists(specs, |specs|, nodes, nodeMap, fileNodes, mixerNodes, clientsNode)
    ensures startId in nodeMap <==> LastNamed(specs, startId).Some?
    ensures EdgesOk(edges, nodeMap) <==> AllAllowed(specs, edges)
  {
    hide Found, LastNamed, AllAllowed, EdgesOk;
    assert specs[..|specs|] == specs;
    EdgesOkIffAllowed(specs, edges, nodes, nodeMap);
    NamedNode(specs, startId, nodes, nodeMap);
  }
}
