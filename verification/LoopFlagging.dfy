/** Walks along `next`, the cycles they end in, and the flags that mark them. */
module LoopFlagging {
  import opened GraphNodes
  import opened GraphBuilder

  ghost predicate Closed(S: set<Node>)
    reads S`target
  {
    forall n :: n in S && n.target != null ==> n.target in S
  }

  /** The node `k` steps after `n`, or null once the chain has ended. */
  ghost function Walk(n: Node?, k: nat, S: set<Node>): (r: Node?)
    requires Closed(S) && (n != null ==> n in S)
    reads S`target
    ensures r != null ==> r in S
  {
    if k == 0 then n
    else
      var p := Walk(n, k - 1, S);
      if p == null then null else p.target
  }

  lemma {:induction false} WalkAdd(n: Node?, a: nat, b: nat, S: set<Node>)
    requires Closed(S) && (n != null ==> n in S)
    ensures Walk(n, a + b, S) == Walk(Walk(n, a, S), b, S)
  {
    if b != 0 {
      WalkAdd(n, a, b - 1, S);
    }
  }

  lemma {:induction false} NullStays(b: nat, S: set<Node>)
    requires Closed(S)
    ensures Walk(null, b, S) == null
  {
    if b != 0 {
      NullStays(b - 1, S);
    }
  }

  lemma {:induction false} LapsReturn(c: Node, l: nat, q: nat, S: set<Node>)
    requires Closed(S) && c in S && Walk(c, l, S) == c
    ensures Walk(c, q * l, S) == c
  {
    if q != 0 {
      LapsReturn(c, l, q - 1, S);
      WalkAdd(c, (q - 1) * l, l, S);
      assert (q - 1) * l + l == q * l;
    }
  }

  lemma WithinLap(c: Node, l: nat, x: nat, S: set<Node>)
    requires Closed(S) && c in S && l > 0 && Walk(c, l, S) == c
    ensures Walk(c, x, S) == Walk(c, x % l, S)
  {
    LapsReturn(c, l, x / l, S);
    WalkAdd(c, x / l * l, x % l, S);
    assert x / l * l + x % l == x;
  }

  // ---------------------------------------------------------------- cycles

  ghost predicate Reaches(n: Node?, m: Node, S: set<Node>)
    requires Closed(S) && (n != null ==> n in S)
    reads S`target
  {
    exists k: nat :: Walk(n, k, S) == m
  }

  /** `m` comes after `start` and comes after itself. */
  ghost predicate OnCycle(start: Node, m: Node, S: set<Node>)
    requires Closed(S) && start in S && m in S
    reads S`target
  {
    Reaches(start, m, S) && Reaches(m.target, m, S)
  }

  /** What must be flagged: the nodes of the cycle and the inputs of its mixers. */
  ghost predicate Flagged(start: Node, m: Node, S: set<Node>)
    requires Closed(S) && start in S && m in S
    reads S`target, S`inputs
  {
    OnCycle(start, m, S) || exists x :: x in S && OnCycle(start, x, S) && Feeds(m, x)
  }

  ghost predicate Feeds(m: Node, x: Node)
    reads x`inputs
  {
    x.kind == Mixer && m in x.inputs
  }

  /** A walk without repetitions. */
  ghost predicate Trail(order: seq<Node>, start: Node, S: set<Node>)
    requires Closed(S) && start in S
    reads S`target
  {
    && (forall k :: 0 <= k < |order| ==> order[k] in S && order[k] == Walk(start, k, S))
    && (forall i, j :: 0 <= i < j < |order| ==> order[i] != order[j])
  }

  /** A walk that ends in null meets no cycle. */
  lemma EndedWalkHasNoCycle(start: Node, i: nat, m: Node, S: set<Node>)
    requires Closed(S) && start in S && m in S && Walk(start, i, S) == null
    ensures !OnCycle(start, m, S)
  {
    if OnCycle(start, m, S) {
      var j: nat :| Walk(start, j, S) == m;
      var p := LapLength(m, S);
      LapsReturn(m, p, i, S);
      WalkAdd(start, j, i * p, S);
      assert i * p >= i;
      WalkAdd(start, i, j + i * p - i, S);
      NullStays(j + i * p - i, S);
    }
  }

  lemma LapLength(m: Node, S: set<Node>) returns (p: nat)
    requires Closed(S) && m in S && Reaches(m.target, m, S)
    ensures p > 0 && Walk(m, p, S) == m
  {
    var k: nat :| Walk(m.target, k, S) == m;
    WalkAdd(m, 1, k, S);
    assert Walk(m, 0, S) == m && Walk(m, 1, S) == m.target;
    p := 1 + k;
  }

  /** The tail of a trail that runs back into itself is exactly the cycle. */
  lemma CycleNodes(order: seq<Node>, i0: nat, start: Node, m: Node, S: set<Node>)
    requires Closed(S) && start in S && m in S && Trail(order, start, S)
    requires i0 < |order| && Walk(start, |order|, S) == order[i0]
    ensures OnCycle(start, m, S) <==> m in order[i0..]
  {
    hide *;
    if OnCycle(start, m, S) {
      CycleNodeListed(order, i0, start, m, S);
    }
    if m in order[i0..] {
      ListedOnCycle(order, i0, start, m, S);
    }
  }

  lemma CycleNodeListed(order: seq<Node>, i0: nat, start: Node, m: Node, S: set<Node>)
    requires Closed(S) && start in S && m in S && Trail(order, start, S)
    requires i0 < |order| && Walk(start, |order|, S) == order[i0] && OnCycle(start, m, S)
    ensures m in order[i0..]
  {
    hide Walk, Closed;
    var c, l := order[i0], |order| - i0;
    WalkAdd(start, i0, l, S);
    var j: nat :| Walk(start, j, S) == m;
    var p := LapLength(m, S);
    LapsReturn(m, p, i0, S);
    WalkAdd(start, j, i0 * p, S);
    var x := Beyond(i0, p, j);
    WalkAdd(start, i0, x, S);
    WithinLap(c, l, x, S);
    WalkAdd(start, i0, x % l, S);
    assert order[i0 + x % l] == m;
    assert m == order[i0..][x % l];
  }

  lemma Beyond(i: nat, p: nat, j: nat) returns (x: nat)
    requires p > 0
    ensures i + x == j + i * p
  {
    assert i * p >= i;
    x := j + i * p - i;
  }

  lemma OneStep(m: Node, S: set<Node>)
    requires Closed(S) && m in S
    ensures Walk(m, 0, S) == m && Walk(m, 1, S) == m.target
  {
  }

  lemma LapOfTrail(order: seq<Node>, i0: nat, t: nat, start: Node, S: set<Node>)
    requires Closed(S) && start in S && Trail(order, start, S)
    requires i0 + t < |order| && Walk(start, |order|, S) == order[i0]
    ensures Walk(order[i0 + t], |order| - i0, S) == order[i0 + t]
  {
    hide Walk, Closed;
    var l := |order| - i0;
    WalkAdd(start, i0 + t, l, S);
    WalkAdd(start, |order|, t, S);
    WalkAdd(start, i0, t, S);
    assert i0 + t + l == |order| + t;
  }

  lemma ListedOnCycle(order: seq<Node>, i0: nat, start: Node, m: Node, S: set<Node>)
    requires Closed(S) && start in S && m in S && Trail(order, start, S)
    requires i0 < |order| && Walk(start, |order|, S) == order[i0] && m in order[i0..]
    ensures OnCycle(start, m, S)
  {
    hide Closed, Walk;
    var l := |order| - i0;
    var t :| 0 <= t < l && order[i0..][t] == m;
    assert order[i0 + t] == m == Walk(start, i0 + t, S);
    LapOfTrail(order, i0, t, start, S);
    OneStep(m, S);
    WalkAdd(m, 1, l - 1, S);
    assert Walk(m.target, l - 1, S) == m;
  }

  /** The inputs of every node of the graph. */
  type Feeding = map<Node, seq<Node>>

  ghost predicate Current(feeding: Feeding, S: set<Node>)
    reads S`inputs
  {
    forall n :: n in S ==> n in feeding && feeding[n] == n.inputs
  }

  ghost predicate FeedsIn(feeding: Feeding, m: Node, x: Node) {
    x.kind == Mixer && x in feeding && m in feeding[x]
  }

  ghost predicate Touched(feeding: Feeding, ns: seq<Node>, m: Node) {
    exists k :: 0 <= k < |ns| && (ns[k] == m || FeedsIn(feeding, m, ns[k]))
  }

  lemma TouchedIsFlagged(feeding: Feeding, order: seq<Node>, i0: nat, start: Node, m: Node, S: set<Node>)
    requires Closed(S) && start in S && m in S && Trail(order, start, S) && Current(feeding, S)
    requires i0 < |order| && Walk(start, |order|, S) == order[i0]
    ensures Touched(feeding, order[i0..], m) <==> Flagged(start, m, S)
  {
    hide Walk, Closed, OnCycle;
    CycleNodes(order, i0, start, m, S);
    var cycle := order[i0..];
    if Touched(feeding, cycle, m) {
      var k :| 0 <= k < |cycle| && (cycle[k] == m || FeedsIn(feeding, m, cycle[k]));
      CycleNodes(order, i0, start, cycle[k], S);
      assert FeedsIn(feeding, m, cycle[k]) ==> Feeds(m, cycle[k]);
    }
    if Flagged(start, m, S) && !OnCycle(start, m, S) {
      var x :| x in S && OnCycle(start, x, S) && Feeds(m, x);
      CycleNodes(order, i0, start, x, S);
      var k :| 0 <= k < |cycle| && cycle[k] == x;
      assert FeedsIn(feeding, m, cycle[k]);
    }
  }

  // ---------------------------------------------------------------- the algorithm

  /** Flags exactly the cycle that the walk from `start` ends in, and the inputs of its mixers. */
  method DetectAndFlagLoops(start: Node, ghost S: set<Node>)
    requires start in S && Closed(S) && InputsInside(S)
    modifies S`inLoop
    ensures forall m :: m in S ==> (m.inLoop <==> old(m.inLoop) || Flagged(start, m, S))
  {
    var cycleStart, order := FindCycle(start, S);
    if cycleStart != null {
      FlagCycle(cycleStart, order, start, S);
    }
  }

  /** Follows `next` until it meets null or a node it has visited. */
  method FindCycle(start: Node, ghost S: set<Node>) returns (cycleStart: Node?, ghost order: seq<Node>)
    requires start in S && Closed(S)
    ensures Trail(order, start, S) && cycleStart == Walk(start, |order|, S)
    ensures cycleStart != null ==> cycleStart in order
    ensures cycleStart == null ==> forall m :: m in S ==> !OnCycle(start, m, S)
  {
    var curr: Node? := start;
    var visited: set<Node> := {};
    cycleStart := null;
    order := [];
    while curr != null
      invariant Trail(order, start, S) && curr == Walk(start, |order|, S)
      invariant visited <= S && forall n :: n in visited <==> n in order
      invariant cycleStart == null
      decreases S - visited
    {
      if curr in visited {
        cycleStart := curr;
        break;
      }
      visited := visited + {curr};
      order := order + [curr];
      curr := curr.target;
    }
    if cycleStart == null {
      forall m | m in S
        ensures !OnCycle(start, m, S)
      {
        EndedWalkHasNoCycle(start, |order|, m, S);
      }
    }
  }

  method FlagCycle(cycleStart: Node, ghost order: seq<Node>, start: Node, ghost S: set<Node>)
    requires start in S && Closed(S) && InputsInside(S)
    requires Trail(order, start, S) && cycleStart in order && cycleStart == Walk(start, |order|, S)
    modifies S`inLoop
    ensures forall m :: m in S ==> (m.inLoop <==> old(m.inLoop) || Flagged(start, m, S))
  {
    hide Walk, Touched, Flagged, Closed;
    ghost var i0 :| 0 <= i0 < |order| && order[i0] == cycleStart;
    ghost var cycle := order[i0..];
    ghost var feeding: Feeding := map n | n in S :: n.inputs;
    ghost var t := 0;
    var loopNode := cycleStart;
    NothingTouched(feeding);
    while true
      invariant 0 <= t < |cycle| && loopNode == cycle[t]
      invariant forall m :: m in S ==> (m.inLoop <==> old(m.inLoop) || Touched(feeding, cycle[..t], m))
      decreases |cycle| - t
    {
      hide Walk, Touched, Flagged, FeedsIn, Closed;
      FlagNode(loopNode, feeding, S);
      TouchedStep(feeding, cycle, t);
      NextOnCycle(order, i0, start, t, S);
      loopNode := loopNode.target;
      t := t + 1;
      if loopNode == cycleStart {
        break;
      }
    }
    assert cycle[..|cycle|] == cycle;
    forall m | m in S
      ensures m.inLoop <==> old(m.inLoop) || Flagged(start, m, S)
    {
      TouchedIsFlagged(feeding, order, i0, start, m, S);
    }
  }

  method FlagNode(n: Node, ghost feeding: Feeding, ghost S: set<Node>)
    requires n in S && InputsInside(S) && Current(feeding, S)
    modifies S`inLoop
    ensures forall m :: m in S ==> (m.inLoop <==> old(m.inLoop) || n == m || FeedsIn(feeding, m, n))
  {
    n.SetInLoop(true);
  }

  lemma NothingTouched(feeding: Feeding)
    ensures forall m :: !Touched(feeding, [], m)
  {
  }

  lemma TouchedStep(feeding: Feeding, cycle: seq<Node>, t: nat)
    requires t < |cycle|
    ensures forall m :: Touched(feeding, cycle[..t + 1], m) <==>
                        Touched(feeding, cycle[..t], m) || cycle[t] == m || FeedsIn(feeding, m, cycle[t])
  {
    assert cycle[..t + 1] == cycle[..t] + [cycle[t]];
    forall m
      ensures Touched(feeding, cycle[..t] + [cycle[t]], m) <==>
                Touched(feeding, cycle[..t], m) || cycle[t] == m || FeedsIn(feeding, m, cycle[t])
    {
      TouchedLast(feeding, cycle[..t], cycle[t], m);
    }
  }

  lemma TouchedLast(feeding: Feeding, ns: seq<Node>, last: Node, m: Node)
    ensures Touched(feeding, ns + [last], m) <==> Touched(feeding, ns, m) || last == m || FeedsIn(feeding, m, last)
  {
    hide FeedsIn;
    var longer := ns + [last];
    if Touched(feeding, ns, m) {
      var k :| 0 <= k < |ns| && (ns[k] == m || FeedsIn(feeding, m, ns[k]));
      assert longer[k] == ns[k];
    }
    if last == m || FeedsIn(feeding, m, last) {
      assert longer[|ns|] == last;
    }
    if Touched(feeding, longer, m) {
      var k :| 0 <= k < |longer| && (longer[k] == m || FeedsIn(feeding, m, longer[k]));
      assert k == |ns| || ns[k] == longer[k];
    }
  }

  /** The walk meets the start of the cycle again exactly when the cycle is complete. */
  lemma NextOnCycle(order: seq<Node>, i0: nat, start: Node, t: nat, S: set<Node>)
    requires Closed(S) && start in S && Trail(order, start, S)
    requires i0 + t < |order| && Walk(start, |order|, S) == order[i0]
    ensures order[i0 + t].target != null
    ensures order[i0 + t].target == order[i0] <==> i0 + t + 1 == |order|
    ensures i0 + t + 1 < |order| ==> order[i0 + t].target == order[i0 + t + 1]
  {
    assert Walk(start, i0 + t + 1, S) == order[i0 + t].target;
  }

  // ---------------------------------------------------------------- parsed graphs

  lemma WiredIsClosed(S: set<Node>)
    requires Wired(S)
    ensures Closed(S) && InputsInside(S)
  {
    forall n | n in S
      ensures (n.target != null ==> n.target in S) && forall m :: m in n.inputs ==> m in S
    {
      assert NodeWired(n, S);
    }
  }

  /** Every cycle of a parsed graph contains a delay. */
  lemma CycleHasDelay(S: set<Node>, c: Node, l: nat) returns (i: nat)
    requires Wired(S) && Closed(S) && c in S && l > 0 && Walk(c, l, S) == c
    ensures i < 3 && Walk(c, i, S) != null && Walk(c, i, S).kind == Delay
  {
    LapsReturn(c, l, 3, S);
    WalkAdd(c, 1, 3 * l - 1, S);
    WalkAdd(c, 2, 3 * l - 2, S);
    NullStays(3 * l - 1, S);
    NullStays(3 * l - 2, S);
    var a, b := Walk(c, 1, S), Walk(c, 2, S);
    assert a == c.target && a != null && b == a.target && b != null;
    DelayAmongThree(S, c, a, b);
    i := if c.kind == Delay then 0 else if a.kind == Delay then 1 else 2;
  }
}
