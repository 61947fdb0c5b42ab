/** What a graph plays from its start node to the end, if there is one. */
module Streams {
  import opened Bytes
  import opened GraphNodes
  import opened MixerLaws
  import opened Programmes
  import opened Executor
  import opened LoopFlagging

  // ---------------------------------------------------------------- a stream as a value

  /** What playing does not change about a node: what it plays when all buffers are filled, and what comes next. */
  datatype Stage = Stage(stop: Stop<Node>, next: Node?)

  /** The stages of a graph, and the files that are filled again when they are closed. */
  datatype Route = Route(stages: map<Node, Stage>, looped: set<Node>)

  /**
   * The next frame of a stream: frame `k` of `node`, when the files in `spent` are closed and not
   * filled again. The stream is over when there is no node.
   */
  datatype Cursor = Cursor(node: Node?, k: nat, spent: set<Node>)

  ghost predicate SoundStage(R: Route, n: Node)
    requires n in R.stages
  {
    var s := R.stages[n];
    ValidStop(s.stop) && s.stop.self == n && (s.next != null ==> s.next in R.stages)
  }

  /** Every stage has frames and `next` stays inside. */
  ghost predicate Sound(R: Route) {
    forall n :: n in R.stages ==> SoundStage(R, n)
  }

  ghost predicate OnRoute(R: Route, c: Cursor) {
    c.node != null ==> c.node in R.stages
  }

  /** What the node plays now. */
  ghost function Here(R: Route, c: Cursor): Part
    requires c.node != null && OnRoute(R, c)
  {
    Worn(R.stages[c.node].stop, c.spent)
  }

  ghost function Advance(R: Route, c: Cursor): (d: Cursor)
    requires Sound(R) && OnRoute(R, c)
    ensures OnRoute(R, d)
  {
    if c.node == null then c
    else if Leaves(Here(R, c), c.k) then
      var s := R.stages[c.node];
      assert SoundStage(R, c.node);
      Cursor(s.next, 0, AfterClosing(c.spent, Closes(s.stop), R.looped))
    else if Late(Here(R, c), c.k) then c
    else c.(k := c.k + 1)
  }

  ghost function At(R: Route, c: Cursor, i: nat): (d: Cursor)
    requires Sound(R) && OnRoute(R, c)
    ensures OnRoute(R, d)
  {
    if i == 0 then c else Advance(R, At(R, c, i - 1))
  }

  ghost function FrameHere(curve: int -> int16, R: Route, c: Cursor): (fs: seq<seq<int16>>)
    requires OnRoute(R, c)
    ensures |fs| == if c.node == null then 0 else 1
  {
    if c.node == null then [] else [FrameOf(curve, Here(R, c), c.k)]
  }

  /** The next `n` frames of a stream, or as many as it has. */
  ghost function Frames(curve: int -> int16, R: Route, c: Cursor, n: nat): (fs: seq<seq<int16>>)
    requires Sound(R) && OnRoute(R, c)
  {
    if n == 0 then [] else Frames(curve, R, c, n - 1) + FrameHere(curve, R, At(R, c, n - 1))
  }

  /** A file that waits for a block that will not come. */
  ghost predicate Stuck(R: Route, c: Cursor)
    requires OnRoute(R, c)
  {
    c.node != null && Late(Here(R, c), c.k)
  }

  /** How many of the next `n` frames are counted as sent bytes: all but the silence of a file that is stuck. */
  ghost function Counted(R: Route, c: Cursor, n: nat): nat
    requires Sound(R) && OnRoute(R, c)
  {
    if n == 0 then 0
    else
      var d := At(R, c, n - 1);
      Counted(R, c, n - 1) + (if d.node == null || Stuck(R, d) then 0 else 1)
  }

  lemma OneFrame(curve: int -> int16, R: Route, c: Cursor, n: nat)
    requires Sound(R) && OnRoute(R, c)
    ensures var d := At(R, c, n);
            && At(R, c, n + 1) == Advance(R, d)
            && Frames(curve, R, c, n + 1) == Frames(curve, R, c, n) + FrameHere(curve, R, d)
            && Counted(R, c, n + 1) == Counted(R, c, n) + (if d.node == null || Stuck(R, d) then 0 else 1)
  {
  }

  lemma {:induction false} AtAdd(R: Route, c: Cursor, i: nat, j: nat)
    requires Sound(R) && OnRoute(R, c)
    ensures At(R, c, i + j) == At(R, At(R, c, i), j)
  {
    hide Advance, Sound;
    if j != 0 {
      AtAdd(R, c, i, j - 1);
    }
  }

  lemma {:induction false} FramesAdd(curve: int -> int16, R: Route, c: Cursor, i: nat, j: nat)
    requires Sound(R) && OnRoute(R, c)
    ensures Frames(curve, R, c, i + j) == Frames(curve, R, c, i) + Frames(curve, R, At(R, c, i), j)
  {
    hide FrameHere, Advance, Sound, OnRoute;
    if j != 0 {
      FramesAdd(curve, R, c, i, j - 1);
      AtAdd(R, c, i, j - 1);
      hide At, Frames;
      OneFrame(curve, R, c, i + (j - 1));
      OneFrame(curve, R, At(R, c, i), j - 1);
    }
  }

  /** Once over, and once stuck, a stream stays so. */
  lemma {:induction false} Stays(R: Route, c: Cursor, j: nat)
    requires Sound(R) && OnRoute(R, c) && (c.node == null || Stuck(R, c))
    ensures At(R, c, j) == c
  {
    hide Here, Length, Sound;
    if j != 0 {
      Stays(R, c, j - 1);
    }
  }

  lemma StaysFrom(R: Route, c: Cursor, i: nat, j: nat)
    requires Sound(R) && OnRoute(R, c) && i <= j && (At(R, c, i).node == null || Stuck(R, At(R, c, i)))
    ensures At(R, c, j) == At(R, c, i)
  {
    hide At, Stuck, Sound, OnRoute;
    AtAdd(R, c, i, j - i);
    Stays(R, At(R, c, i), j - i);
  }

  lemma {:induction false} FramesLength(curve: int -> int16, R: Route, c: Cursor, n: nat)
    requires Sound(R) && OnRoute(R, c)
    ensures |Frames(curve, R, c, n)| <= n
    ensures At(R, c, n).node != null ==> |Frames(curve, R, c, n)| == n
  {
    hide Sound, Here, Leaves, Late;
    if n != 0 {
      FramesLength(curve, R, c, n - 1);
    }
  }

  lemma {:induction false} LateFrames(curve: int -> int16, R: Route, c: Cursor, i: nat, n: nat)
    requires Sound(R) && OnRoute(R, c) && At(R, c, i).node == null && i <= n
    ensures Frames(curve, R, c, n) == Frames(curve, R, c, i)
    ensures At(R, c, n).node == null
    decreases n
  {
    hide Sound, Here, Leaves, Late;
    if i < n {
      LateFrames(curve, R, c, i, n - 1);
    }
  }

  // ---------------------------------------------------------------- one node

  lemma WornHasFrames(s: Stop<Node>, spent: set<Node>)
    requires ValidStop(s)
    ensures Length(Worn(s, spent)) > 0
  {
    var p := Worn(s, spent);
    if p.kind == Mixer && Longest(p.sources) >= p.total {
      assert p.total > 0;
    }
  }

  /** A node plays its frames one by one; then the next one follows, unless it is stuck. */
  lemma {:induction false} PlaysItsFrames(curve: int -> int16, R: Route, c: Cursor, k: nat)
    requires Sound(R) && OnRoute(R, c) && c.node != null && c.k == 0 && k <= Length(Here(R, c))
    ensures At(R, c, k) == if k < Length(Here(R, c)) || Stalls(Here(R, c)) then c.(k := k) else NextNode(R, c)
    ensures Frames(curve, R, c, k) == FramesOf(curve, Here(R, c), k)
  {
    hide FrameOf, Length, Sound, Worn;
    if k != 0 {
      PlaysItsFrames(curve, R, c, k - 1);
      StallsAtEnd(Here(R, c), k);
      SameHere(R, c, k - 1);
    } else {
      HasFrames(R, c);
    }
  }

  lemma HasFrames(R: Route, c: Cursor)
    requires Sound(R) && OnRoute(R, c) && c.node != null
    ensures ValidStop(R.stages[c.node].stop) && Length(Here(R, c)) > 0
  {
    assert SoundStage(R, c.node);
    WornHasFrames(R.stages[c.node].stop, c.spent);
  }

  lemma SameHere(R: Route, c: Cursor, k: nat)
    requires OnRoute(R, c) && c.node != null
    ensures Here(R, c.(k := k)) == Here(R, c)
  {
  }

  lemma StallsAtEnd(p: Part, k: nat)
    requires 0 < k <= Length(p)
    ensures !Late(p, k - 1)
    ensures k < Length(p) ==> !Leaves(p, k - 1)
    ensures k == Length(p) ==> (Leaves(p, k - 1) <==> !Stalls(p))
    ensures k == Length(p) && Stalls(p) ==> Late(p, k)
  {
  }

  ghost function NextNode(R: Route, c: Cursor): (d: Cursor)
    requires c.node != null && OnRoute(R, c)
  {
    Cursor(R.stages[c.node].next, 0, AfterClosing(c.spent, Closes(R.stages[c.node].stop), R.looped))
  }

  // ---------------------------------------------------------------- chains

  /** `path` goes along `next` and ends before `after`. */
  ghost predicate Path(R: Route, path: seq<Node>, after: Node?) {
    && (forall i :: 0 <= i < |path| ==> path[i] in R.stages)
    && (forall i :: 0 <= i < |path| - 1 ==> R.stages[path[i]].next == path[i + 1])
    && (after != null ==> after in R.stages)
    && (|path| > 0 ==> R.stages[path[|path| - 1]].next == after)
  }

  /** Where a path that ends before `after` begins. */
  ghost function From(path: seq<Node>, after: Node?, spent: set<Node>): (c: Cursor) {
    Cursor(if path == [] then after else path[0], 0, spent)
  }

  ghost function Stops(R: Route, path: seq<Node>): (ss: seq<Stop<Node>>)
    requires forall i :: 0 <= i < |path| ==> path[i] in R.stages
    ensures |ss| == |path|
    ensures forall i :: 0 <= i < |path| ==> ss[i] == R.stages[path[i]].stop
  {
    seq(|path|, i requires 0 <= i < |path| => R.stages[path[i]].stop)
  }

  /** The parts of a path as they are when their turn comes. */
  ghost function WornPath(R: Route, path: seq<Node>, spent: set<Node>): (ps: seq<Part>)
    requires forall i :: 0 <= i < |path| ==> path[i] in R.stages
    ensures |ps| == |path|
  {
    WornParts(Stops(R, path), R.looped, spent)
  }

  ghost function SpentPath(R: Route, path: seq<Node>, spent: set<Node>): set<Node>
    requires forall i :: 0 <= i < |path| ==> path[i] in R.stages
  {
    SpentAfter(Stops(R, path), R.looped, spent)
  }

  /** The parts of a path as its nodes promise them, with all buffers filled. */
  ghost function Parts(R: Route, path: seq<Node>): (ps: seq<Part>)
    requires forall i :: 0 <= i < |path| ==> path[i] in R.stages
    ensures |ps| == |path|
  {
    PartsOf(Stops(R, path))
  }

  /** A path is a shorter one and its last node. */
  lemma LastOfPath(R: Route, path: seq<Node>, after: Node?, spent: set<Node>)
    requires Path(R, path, after) && |path| > 0
    ensures var m := |path| - 1;
            && path[m] in R.stages && R.stages[path[m]].next == after
            && From(path, after, spent).node == path[0] && path[0] in R.stages
            && Path(R, path[..m], path[m]) && From(path[..m], path[m], spent) == From(path, after, spent)
            && OnRoute(R, From(path, after, spent)) && (forall i :: 0 <= i < m ==> path[..m][i] in R.stages)
    ensures var m := |path| - 1;
            var c := Cursor(path[m], 0, SpentPath(R, path[..m], spent));
            && OnRoute(R, c) && WornPath(R, path, spent) == WornPath(R, path[..m], spent) + [Here(R, c)]
            && NextNode(R, c) == Cursor(after, 0, SpentPath(R, path, spent))
  {
    hide WornPath, SpentPath, Here, NextNode;
    LastStop(R, path, spent);
  }

  lemma LastStop(R: Route, path: seq<Node>, spent: set<Node>)
    requires |path| > 0 && forall i :: 0 <= i < |path| ==> path[i] in R.stages
    ensures var m := |path| - 1;
            var c := Cursor(path[m], 0, SpentPath(R, path[..m], spent));
            && OnRoute(R, c) && WornPath(R, path, spent) == WornPath(R, path[..m], spent) + [Here(R, c)]
            && NextNode(R, c) == Cursor(R.stages[path[m]].next, 0, SpentPath(R, path, spent))
  {
    hide Worn, Closes, AfterClosing;
    var m := |path| - 1;
    assert Stops(R, path)[..m] == Stops(R, path[..m]);
  }

  /** A path plays its nodes in chain order, each as far as it gets, and then goes on with the node after it. */
  lemma {:induction false} PathPlaysProgramme(curve: int -> int16, R: Route, path: seq<Node>, after: Node?, spent: set<Node>)
    requires Sound(R) && Path(R, path, after) && NoStall(WornPath(R, path, spent))
    ensures OnRoute(R, From(path, after, spent))
    ensures var ps := WornPath(R, path, spent);
            && At(R, From(path, after, spent), SumOfLengths(ps)) == Cursor(after, 0, SpentPath(R, path, spent))
            && Frames(curve, R, From(path, after, spent), SumOfLengths(ps)) == Programme(curve, ps)
    decreases |path|
  {
    if path == [] {
      hide Sound, Advance, FrameHere;
    } else {
      hide *;
      LastOfPath(R, path, after, spent);
      var m := |path| - 1;
      var before, start := WornPath(R, path[..m], spent), From(path, after, spent);
      var c := Cursor(path[m], 0, SpentPath(R, path[..m], spent));
      StallFreeStart(before, Here(R, c));
      PathPlaysProgramme(curve, R, path[..m], path[m], spent);
      PlaysOneMore(curve, R, start, c, before);
    }
  }

  lemma PlaysOneMore(curve: int -> int16, R: Route, start: Cursor, c: Cursor, before: seq<Part>)
    requires Sound(R) && OnRoute(R, start) && OnRoute(R, c) && c.node != null && c.k == 0 && !Stalls(Here(R, c))
    requires At(R, start, SumOfLengths(before)) == c && Frames(curve, R, start, SumOfLengths(before)) == Programme(curve, before)
    ensures var ps := before + [Here(R, c)];
            && At(R, start, SumOfLengths(ps)) == NextNode(R, c)
            && Frames(curve, R, start, SumOfLengths(ps)) == Programme(curve, ps)
  {
    hide *;
    var p := Here(R, c);
    PlaysItsFrames(curve, R, c, Length(p));
    AtAdd(R, start, SumOfLengths(before), Length(p));
    FramesAdd(curve, R, start, SumOfLengths(before), Length(p));
    OnePartMore(curve, before, p);
  }

  lemma StallFreeStart(ps: seq<Part>, p: Part)
    requires NoStall(ps + [p])
    ensures NoStall(ps) && !Stalls(p)
  {
    hide Stalls;
    assert (ps + [p])[|ps|] == p;
    assert forall i :: 0 <= i < |ps| ==> (ps + [p])[i] == ps[i];
  }

  /** A path with a node that stalls gets stuck there. */
  lemma {:induction false} PathGetsStuck(R: Route, path: seq<Node>, after: Node?, spent: set<Node>) returns (i: nat)
    requires Sound(R) && Path(R, path, after) && !NoStall(WornPath(R, path, spent))
    ensures OnRoute(R, From(path, after, spent)) && Stuck(R, At(R, From(path, after, spent), i))
    decreases |path|
  {
    hide *;
    StallsSomewhere(R, path, after, spent);
    LastOfPath(R, path, after, spent);
    var m := |path| - 1;
    if NoStall(WornPath(R, path[..m], spent)) {
      i := LastGetsStuck(R, path, after, spent);
    } else {
      i := PathGetsStuck(R, path[..m], path[m], spent);
    }
  }

  lemma LastGetsStuck(R: Route, path: seq<Node>, after: Node?, spent: set<Node>) returns (i: nat)
    requires Sound(R) && Path(R, path, after) && path != [] && !NoStall(WornPath(R, path, spent))
    requires Path(R, path[..|path| - 1], path[|path| - 1]) && NoStall(WornPath(R, path[..|path| - 1], spent))
    ensures OnRoute(R, From(path, after, spent)) && Stuck(R, At(R, From(path, after, spent), i))
  {
    hide *;
    LastOfPath(R, path, after, spent);
    var curve: int -> int16 := _ => 0;
    var m := |path| - 1;
    var before, c := WornPath(R, path[..m], spent), Cursor(path[m], 0, SpentPath(R, path[..m], spent));
    OnlyTheLast(before, Here(R, c));
    PathPlaysProgramme(curve, R, path[..m], path[m], spent);
    i := SumOfLengths(before) + Length(Here(R, c));
    StuckAtLength(R, From(path, after, spent), c, SumOfLengths(before));
  }

  lemma StallsSomewhere(R: Route, path: seq<Node>, after: Node?, spent: set<Node>)
    requires Path(R, path, after) && !NoStall(WornPath(R, path, spent))
    ensures path != []
  {
  }

  lemma OnlyTheLast(ps: seq<Part>, p: Part)
    requires NoStall(ps) && !NoStall(ps + [p])
    ensures Stalls(p)
  {
    hide Stalls;
    assert forall i :: 0 <= i < |ps| ==> (ps + [p])[i] == ps[i];
  }

  lemma StuckAtLength(R: Route, start: Cursor, c: Cursor, lead: nat)
    requires Sound(R) && OnRoute(R, start) && OnRoute(R, c) && c.node != null && c.k == 0 && Stalls(Here(R, c))
    requires At(R, start, lead) == c
    ensures Stuck(R, At(R, start, lead + Length(Here(R, c))))
  {
    hide At, Sound;
    var curve: int -> int16 := _ => 0;
    PlaysItsFrames(curve, R, c, Length(Here(R, c)));
    AtAdd(R, start, lead, Length(Here(R, c)));
  }

  /** A null-ended chain ends if and only if no node stalls, and then exactly when all its nodes have been played. */
  lemma ChainEndsIff(R: Route, path: seq<Node>, i: nat)
    requires Sound(R) && Path(R, path, null)
    ensures OnRoute(R, From(path, null, {}))
    ensures At(R, From(path, null, {}), i).node == null
            <==> NoStall(WornPath(R, path, {})) && i >= SumOfLengths(WornPath(R, path, {}))
  {
    var curve: int -> int16 := _ => 0;
    assert OnRoute(R, From(path, null, {}));
    hide *;
    var start, ps := From(path, null, {}), WornPath(R, path, {});
    if NoStall(ps) {
      var total := SumOfLengths(ps);
      PathPlaysProgramme(curve, R, path, null, {});
      EndsAt(curve, R, start, ps, total, i);
    } else {
      var j := PathGetsStuck(R, path, null, {});
      StuckNeverEnds(R, start, j, i);
    }
  }

  lemma EndsAt(curve: int -> int16, R: Route, c: Cursor, ps: seq<Part>, total: nat, i: nat)
    requires Sound(R) && OnRoute(R, c) && total == SumOfLengths(ps)
    requires At(R, c, total).node == null && Frames(curve, R, c, total) == Programme(curve, ps)
    ensures At(R, c, i).node == null <==> i >= total
  {
    hide *;
    if i >= total {
      LateFrames(curve, R, c, total, i);
    } else if At(R, c, i).node == null {
      LateFrames(curve, R, c, i, total);
      ProgrammeLength(curve, ps);
      FramesLength(curve, R, c, i);
    }
  }

  lemma StuckNeverEnds(R: Route, c: Cursor, j: nat, i: nat)
    requires Sound(R) && OnRoute(R, c) && Stuck(R, At(R, c, j))
    ensures At(R, c, i).node != null
  {
    assert At(R, c, j).node != null;
    hide *;
    if i >= j {
      StaysFrom(R, c, j, i);
    } else if At(R, c, i).node == null {
      StaysFrom(R, c, i, j);
    }
  }

  ghost function Silences(n: nat): (fs: seq<seq<int16>>)
    ensures |fs| == n
  {
    if n == 0 then [] else Silences(n - 1) + [Silence()]
  }

  /** Where a path has gone through the nodes before its `j`-th, and that one stalls. */
  ghost predicate StallsFirstAt(ps: seq<Part>, j: nat) {
    j < |ps| && NoStall(ps[..j]) && Stalls(ps[j])
  }

  lemma {:induction false} FirstStall(ps: seq<Part>) returns (j: nat)
    requires !NoStall(ps)
    ensures StallsFirstAt(ps, j)
  {
    hide Stalls;
    var n := |ps| - 1;
    if n >= 0 && !NoStall(ps[..n]) {
      j := FirstStall(ps[..n]);
      assert ps[..n][..j] == ps[..j] && ps[..n][j] == ps[j];
    } else {
      j := n;
      assert forall i :: 0 <= i < n ==> ps[..n][i] == ps[i];
    }
  }

  /** A stuck file gives silence that is not counted, without end. */
  lemma {:induction false} StuckFrames(curve: int -> int16, R: Route, c: Cursor, n: nat)
    requires Sound(R) && OnRoute(R, c) && Stuck(R, c)
    ensures Frames(curve, R, c, n) == Silences(n)
  {
    hide Sound, At;
    if n > 0 {
      StuckFrames(curve, R, c, n - 1);
      Stays(R, c, n - 1);
    }
  }

  lemma {:induction false} StuckCounts(R: Route, c: Cursor, lead: nat, n: nat)
    requires Sound(R) && OnRoute(R, c) && lead <= n && Stuck(R, At(R, c, lead))
    ensures Counted(R, c, n) == Counted(R, c, lead)
    decreases n
  {
    hide Sound, At, Stuck;
    if lead < n {
      StuckCounts(R, c, lead, n - 1);
      StaysFrom(R, c, lead, n - 1);
    }
  }

  /** A path with a node that stalls plays the nodes up to it, a buffer of silence, and silence without end. */
  lemma PathStalls(curve: int -> int16, R: Route, path: seq<Node>, after: Node?, spent: set<Node>, j: nat, n: nat)
    requires Sound(R) && Path(R, path, after) && StallsFirstAt(WornPath(R, path, spent), j)
    requires n >= SumOfLengths(WornPath(R, path, spent)[..j + 1])
    ensures OnRoute(R, From(path, after, spent))
    ensures var start, ps := From(path, after, spent), WornPath(R, path, spent)[..j + 1];
            && At(R, start, n).node != null
            && Frames(curve, R, start, n) == Programme(curve, ps) + Silences(n - SumOfLengths(ps))
            && Counted(R, start, n) == SumOfLengths(ps)
  {
    hide *;
    var c, before := PathUpTo(curve, R, path, after, spent, j);
    var start, lead, l := From(path, after, spent), SumOfLengths(before), Length(Here(R, c));
    OnePartMore(curve, before, Here(R, c));
    StuckAtLength(R, start, c, lead);
    PlaysItsFrames(curve, R, c, l);
    FramesAdd(curve, R, start, lead, l);
    StuckNeverEnds(R, start, lead + l, n);
    FramesAdd(curve, R, start, lead + l, n - (lead + l));
    StuckFrames(curve, R, At(R, start, lead + l), n - (lead + l));
    StuckCounts(R, start, lead + l, n);
    CountedToStall(R, start, c, lead, l);
  }

  /** The node at which it stalls, and what was played before. */
  lemma PathUpTo(curve: int -> int16, R: Route, path: seq<Node>, after: Node?, spent: set<Node>, j: nat)
    returns (c: Cursor, before: seq<Part>)
    requires Sound(R) && Path(R, path, after) && StallsFirstAt(WornPath(R, path, spent), j)
    ensures OnRoute(R, From(path, after, spent)) && OnRoute(R, c) && c.node != null && c.k == 0
    ensures WornPath(R, path, spent)[..j + 1] == before + [Here(R, c)] && Stalls(Here(R, c))
    ensures At(R, From(path, after, spent), SumOfLengths(before)) == c
    ensures Frames(curve, R, From(path, after, spent), SumOfLengths(before)) == Programme(curve, before)
  {
    hide Sound, At, Frames, SumOfLengths, Programme, Here, WornPath, SpentPath;
    c := Cursor(path[j], 0, SpentPath(R, path[..j], spent));
    before := WornPath(R, path[..j], spent);
    WornPathUpTo(R, path, after, spent, j);
    PathPlaysProgramme(curve, R, path[..j], path[j], spent);
  }

  lemma WornPathUpTo(R: Route, path: seq<Node>, after: Node?, spent: set<Node>, j: nat)
    requires Path(R, path, after) && j < |path|
    ensures Path(R, path[..j], path[j]) && From(path[..j], path[j], spent) == From(path, after, spent)
    ensures WornPath(R, path[..j], spent) == WornPath(R, path, spent)[..j]
    ensures WornPath(R, path, spent)[j] == Here(R, Cursor(path[j], 0, SpentPath(R, path[..j], spent)))
    ensures WornPath(R, path, spent)[..j + 1] == WornPath(R, path, spent)[..j] + [WornPath(R, path, spent)[j]]
  {
    hide WornParts, SpentAfter, Worn;
    var stops := Stops(R, path);
    assert stops[..j] == Stops(R, path[..j]);
    WornPartAt(stops, R.looped, spent, j);
    WornPrefix(stops, R.looped, spent, j);
  }

  lemma CountedToStall(R: Route, start: Cursor, c: Cursor, lead: nat, l: nat)
    requires Sound(R) && OnRoute(R, start) && OnRoute(R, c) && c.node != null && c.k == 0
    requires At(R, start, lead) == c && l == Length(Here(R, c))
    ensures Counted(R, start, lead + l) == lead + l
  {
    hide *;
    forall j | 0 <= j < lead
      ensures At(R, start, j).node != null
    {
      if At(R, start, j).node == null {
        StaysFrom(R, start, j, lead);
      }
    }
    AllCounted(R, start, lead, lead);
    CountsNode(R, start, c, lead, l);
  }

  lemma {:induction false} CountsNode(R: Route, start: Cursor, c: Cursor, lead: nat, k: nat)
    requires Sound(R) && OnRoute(R, start) && OnRoute(R, c) && c.node != null && c.k == 0
    requires At(R, start, lead) == c && k <= Length(Here(R, c)) && Counted(R, start, lead) == lead
    ensures Counted(R, start, lead + k) == lead + k
  {
    hide Sound, At, Length, Here, Counted;
    if k > 0 {
      CountsNode(R, start, c, lead, k - 1);
      PlaysFrom(R, start, c, lead, k - 1);
      SameHere(R, c, k - 1);
      NotLateYet(Here(R, c), k - 1);
      var curve: int -> int16 := _ => 0;
      OneFrame(curve, R, start, lead + (k - 1));
    }
  }

  lemma {:induction false} CountedAll(R: Route, c: Cursor, n: nat, m: nat)
    requires Sound(R) && OnRoute(R, c) && n <= m && Counted(R, c, m) == m
    ensures Counted(R, c, n) == n
    decreases m
  {
    hide At, Sound, Stuck;
    if n < m {
      CountedAtMost(R, c, m - 1);
      CountedAll(R, c, n, m - 1);
    }
  }

  lemma {:induction false} CountedAtMost(R: Route, c: Cursor, n: nat)
    requires Sound(R) && OnRoute(R, c)
    ensures Counted(R, c, n) <= n
  {
    hide At, Sound, Stuck;
    if n > 0 {
      CountedAtMost(R, c, n - 1);
    }
  }

  lemma NotLateYet(p: Part, k: nat)
    requires k < Length(p)
    ensures !Late(p, k)
  {
  }

  // ---------------------------------------------------------------- what a chain promises

  lemma StopsAreValid(R: Route, path: seq<Node>, after: Node?)
    requires Sound(R) && Path(R, path, after)
    ensures forall i :: 0 <= i < |path| ==> path[i] in R.stages
    ensures forall i :: 0 <= i < |path| ==> ValidStop(Stops(R, path)[i])
    ensures path != [] ==> SumOfLengths(Parts(R, path)) > 0
  {
    hide ValidStop, Length;
    forall i | 0 <= i < |path|
      ensures ValidStop(Stops(R, path)[i])
    {
      assert SoundStage(R, path[i]);
    }
    if path != [] {
      LastHasFrames(Stops(R, path));
    }
  }

  lemma LastHasFrames(stops: seq<Stop<Node>>)
    requires stops != [] && ValidStop(stops[|stops| - 1])
    ensures SumOfLengths(PartsOf(stops)) > 0
  {
    FreshLength(stops[|stops| - 1].part);
  }

  /** The stream ends after exactly the promised frames, and these were the promised ones. */
  ghost predicate PlaysAsPromised(curve: int -> int16, R: Route, path: seq<Node>)
    requires Sound(R) && Path(R, path, null)
  {
    var start, promised := From(path, null, {}), Parts(R, path);
    && (forall i: nat :: At(R, start, i).node == null <==> i >= SumOfLengths(promised))
    && Frames(curve, R, start, SumOfLengths(promised)) == Programme(curve, promised)
  }

  /**
   * The exact condition: an ending chain plays what its nodes promise if and only if nowhere along
   * it a file that was closed before can be heard to be missing.
   */
  lemma PromisedIffNothingMissed(curve: int -> int16, R: Route, path: seq<Node>)
    requires Sound(R) && Path(R, path, null)
    ensures PlaysAsPromised(curve, R, path) <==> !AnyMissed(curve, Stops(R, path), R.looped, {})
  {
    var ps, qs := WornPath(R, path, {}), Parts(R, path);
    var start := From(path, null, {});
    assert OnRoute(R, start);
    hide *;
    StopsAreValid(R, path, null);
    NeverLonger(R, path, {});
    MissedOnPath(curve, R, path, {});
    forall i: nat
      ensures At(R, start, i).node == null <==> NoStall(ps) && i >= SumOfLengths(ps)
    {
      ChainEndsIff(R, path, i);
    }
    if NoStall(ps) {
      PathPlaysProgramme(curve, R, path, null, {});
      ProgrammeAlikeIff(curve, ps, qs);
      SumNoLonger(ps, qs);
      ProgrammeLength(curve, ps);
      ProgrammeLength(curve, qs);
    }
    Promise(curve, R, path, start, ps, qs);
  }

  lemma NeverLonger(R: Route, path: seq<Node>, spent: set<Node>)
    requires forall i :: 0 <= i < |path| ==> path[i] in R.stages
    requires forall i :: 0 <= i < |path| ==> ValidStop(Stops(R, path)[i])
    ensures NoLonger(WornPath(R, path, spent), Parts(R, path))
  {
    hide ValidStop, NoLonger;
    WornAllNoLonger(Stops(R, path), R.looped, spent);
  }

  lemma MissedOnPath(curve: int -> int16, R: Route, path: seq<Node>, spent: set<Node>)
    requires forall i :: 0 <= i < |path| ==> path[i] in R.stages
    ensures AllAlike(curve, WornPath(R, path, spent), Parts(R, path)) <==> !AnyMissed(curve, Stops(R, path), R.looped, spent)
    ensures !AnyMissed(curve, Stops(R, path), R.looped, spent) ==> NoStall(WornPath(R, path, spent))
  {
    hide AllAlike, AnyMissed, NoStall;
    AlikeIffNotMissed(curve, Stops(R, path), R.looped, spent);
  }

  lemma Promise(curve: int -> int16, R: Route, path: seq<Node>, start: Cursor, ps: seq<Part>, qs: seq<Part>)
    requires Sound(R) && Path(R, path, null) && OnRoute(R, start) && start == From(path, null, {}) && qs == Parts(R, path)
    requires forall i: nat :: At(R, start, i).node == null <==> NoStall(ps) && i >= SumOfLengths(ps)
    requires NoStall(ps) ==>
               && Frames(curve, R, start, SumOfLengths(ps)) == Programme(curve, ps)
               && SumOfLengths(ps) <= SumOfLengths(qs)
               && |Programme(curve, ps)| == SumOfLengths(ps) && |Programme(curve, qs)| == SumOfLengths(qs)
    ensures PlaysAsPromised(curve, R, path) <==> NoStall(ps) && Programme(curve, ps) == Programme(curve, qs)
  {
    hide Sound, Path, From, Parts, At, Frames, Programme, NoStall, SumOfLengths;
    if PlaysAsPromised(curve, R, path) {
      assert At(R, start, SumOfLengths(qs)).node == null;
      assert At(R, start, SumOfLengths(ps)).node == null;
    }
  }

  // ---------------------------------------------------------------- heads of cycles

  /** Frame `k` of the `i`-th node of a path is played at the time that the nodes before it promise. */
  ghost predicate OnTime(R: Route, path: seq<Node>, after: Node?, i: nat, k: nat)
    requires Sound(R) && Path(R, path, after) && i < |path|
  {
    At(R, From(path, after, {}), SumOfLengths(Parts(R, path)[..i]) + k) == Cursor(path[i], k, SpentPath(R, path[..i], {}))
  }

  /** Every frame of the path comes on time, and they are the promised ones. */
  ghost predicate InStep(curve: int -> int16, R: Route, path: seq<Node>, after: Node?)
    requires Sound(R) && Path(R, path, after)
  {
    var start, promised := From(path, after, {}), Parts(R, path);
    && (forall i, k :: 0 <= i < |path| && 0 <= k < Length(promised[i]) ==> OnTime(R, path, after, i, k))
    && At(R, start, SumOfLengths(promised)) == Cursor(after, 0, SpentPath(R, path, {}))
    && Frames(curve, R, start, SumOfLengths(promised)) == Programme(curve, promised)
  }

  lemma PrefixOfPath(R: Route, path: seq<Node>, after: Node?, i: nat)
    requires Path(R, path, after) && i < |path|
    ensures Path(R, path[..i], path[i]) && From(path[..i], path[i], {}) == From(path, after, {})
    ensures Parts(R, path[..i]) == Parts(R, path)[..i] && WornPath(R, path[..i], {}) == WornPath(R, path, {})[..i]
    ensures OnRoute(R, Cursor(path[i], 0, SpentPath(R, path[..i], {})))
    ensures WornPath(R, path, {})[i] == Here(R, Cursor(path[i], 0, SpentPath(R, path[..i], {})))
  {
    hide WornParts, SpentAfter, Worn;
    var stops := Stops(R, path);
    assert stops[..i] == Stops(R, path[..i]);
    WornPartAt(stops, R.looped, {}, i);
    WornPrefix(stops, R.looped, {}, i);
  }

  /** The start of a path up to its `i`-th node, played without stalls. */
  lemma ReachesNode(curve: int -> int16, R: Route, path: seq<Node>, after: Node?, i: nat)
    requires Sound(R) && Path(R, path, after) && i < |path| && NoStall(WornPath(R, path, {})[..i])
    requires SumOfLengths(WornPath(R, path, {})[..i]) == SumOfLengths(Parts(R, path)[..i])
    ensures OnRoute(R, From(path, after, {})) && OnRoute(R, Cursor(path[i], 0, SpentPath(R, path[..i], {})))
    ensures At(R, From(path, after, {}), SumOfLengths(Parts(R, path)[..i])) == Cursor(path[i], 0, SpentPath(R, path[..i], {}))
  {
    hide *;
    PrefixOfPath(R, path, after, i);
    PathPlaysProgramme(curve, R, path[..i], path[i], {});
  }

  /** A path is in step if and only if no file can be heard to be missing along it. */
  lemma InStepIffNothingMissed(curve: int -> int16, R: Route, path: seq<Node>, after: Node?)
    requires Sound(R) && Path(R, path, after)
    ensures InStep(curve, R, path, after) <==> !AnyMissed(curve, Stops(R, path), R.looped, {})
  {
    var ps, qs := WornPath(R, path, {}), Parts(R, path);
    hide *;
    StopsAreValid(R, path, after);
    NeverLonger(R, path, {});
    MissedOnPath(curve, R, path, {});
    if AnyMissed(curve, Stops(R, path), R.looped, {}) {
      if InStep(curve, R, path, after) {
        KeepsLengths(curve, R, path, after, |path|);
        WholeLengths(ps, qs);
        PathPlaysProgramme(curve, R, path, after, {});
        InStepFrames(curve, R, path, after);
        ProgrammeAlikeIff(curve, ps, qs);
      }
    } else {
      ProgrammeAlikeIff(curve, ps, qs);
      AlikeLengths(curve, ps, qs);
      PathPlaysProgramme(curve, R, path, after, {});
      forall i, k | 0 <= i < |path| && 0 <= k < Length(qs[i])
        ensures OnTime(R, path, after, i, k)
      {
        AlikeIsOnTime(curve, R, path, after, i, k);
      }
      AllOnTime(curve, R, path, after);
    }
  }

  lemma AllOnTime(curve: int -> int16, R: Route, path: seq<Node>, after: Node?)
    requires Sound(R) && Path(R, path, after)
    requires forall i, k :: 0 <= i < |path| && 0 <= k < Length(Parts(R, path)[i]) ==> OnTime(R, path, after, i, k)
    requires At(R, From(path, after, {}), SumOfLengths(Parts(R, path))) == Cursor(after, 0, SpentPath(R, path, {}))
    requires Frames(curve, R, From(path, after, {}), SumOfLengths(Parts(R, path))) == Programme(curve, Parts(R, path))
    ensures InStep(curve, R, path, after)
  {
    hide OnTime, Sound, Length, SumOfLengths, Programme, At, Frames, Parts;
  }

  lemma InStepFrames(curve: int -> int16, R: Route, path: seq<Node>, after: Node?)
    requires Sound(R) && Path(R, path, after) && InStep(curve, R, path, after)
    ensures OnRoute(R, From(path, after, {}))
    ensures Frames(curve, R, From(path, after, {}), SumOfLengths(Parts(R, path))) == Programme(curve, Parts(R, path))
  {
  }

  lemma AlikeLengths(curve: int -> int16, ps: seq<Part>, qs: seq<Part>)
    requires AllAlike(curve, ps, qs)
    ensures forall i :: 0 <= i < |qs| ==> Length(ps[i]) == Length(qs[i]) && !Stalls(ps[i])
    ensures SumOfLengths(ps) == SumOfLengths(qs)
  {
    hide Length, Stalls;
    SumSame(ps, qs);
  }

  lemma {:induction false} SumSame(ps: seq<Part>, qs: seq<Part>)
    requires |ps| == |qs| && forall i :: 0 <= i < |qs| ==> Length(ps[i]) == Length(qs[i])
    ensures SumOfLengths(ps) == SumOfLengths(qs)
    decreases |ps|
  {
    hide Length;
    if ps != [] {
      var n := |ps| - 1;
      assert forall i :: 0 <= i < n ==> ps[..n][i] == ps[i] && qs[..n][i] == qs[i];
      SumSame(ps[..n], qs[..n]);
    }
  }

  lemma AlikeIsOnTime(curve: int -> int16, R: Route, path: seq<Node>, after: Node?, i: nat, k: nat)
    requires Sound(R) && Path(R, path, after) && i < |path| && k < Length(Parts(R, path)[i])
    requires forall j :: 0 <= j < |path| ==>
               Length(WornPath(R, path, {})[j]) == Length(Parts(R, path)[j]) && !Stalls(WornPath(R, path, {})[j])
    ensures OnTime(R, path, after, i, k)
  {
    hide Sound, From, Parts, WornPath, SpentPath, At, Length, Stalls, Here, SumOfLengths;
    var ps, qs := WornPath(R, path, {}), Parts(R, path);
    assert forall j :: 0 <= j < i ==> ps[..i][j] == ps[j] && qs[..i][j] == qs[j];
    SumSame(ps[..i], qs[..i]);
    ReachesNode(curve, R, path, after, i);
    PrefixOfPath(R, path, after, i);
    PlaysFrom(R, From(path, after, {}), Cursor(path[i], 0, SpentPath(R, path[..i], {})), SumOfLengths(qs[..i]), k);
  }

  lemma PlaysFrom(R: Route, start: Cursor, c: Cursor, lead: nat, k: nat)
    requires Sound(R) && OnRoute(R, start) && OnRoute(R, c) && c.node != null && c.k == 0 && At(R, start, lead) == c
    requires k <= Length(Here(R, c))
    ensures At(R, start, lead + k) == if k < Length(Here(R, c)) || Stalls(Here(R, c)) then c.(k := k) else NextNode(R, c)
  {
    hide *;
    var curve: int -> int16 := _ => 0;
    PlaysItsFrames(curve, R, c, k);
    AtAdd(R, start, lead, k);
  }

  predicate SameLengthsUpTo(ps: seq<Part>, qs: seq<Part>, n: nat) {
    n <= |ps| == |qs| && forall j :: 0 <= j < n ==> Length(ps[j]) == Length(qs[j]) && !Stalls(ps[j])
  }

  lemma WholeLengths(ps: seq<Part>, qs: seq<Part>)
    requires SameLengthsUpTo(ps, qs, |ps|)
    ensures NoStall(ps) && SumOfLengths(ps) == SumOfLengths(qs)
  {
    hide Length, Stalls;
    SumSame(ps, qs);
  }

  /** A path that is in step has lost no time before its `n`-th node. */
  lemma {:induction false} KeepsLengths(curve: int -> int16, R: Route, path: seq<Node>, after: Node?, n: nat)
    requires Sound(R) && Path(R, path, after) && InStep(curve, R, path, after) && n <= |path|
    ensures SameLengthsUpTo(WornPath(R, path, {}), Parts(R, path), n)
  {
    hide Sound, Path, InStep, Parts, WornPath, Length, Stalls;
    if n > 0 {
      KeepsLengths(curve, R, path, after, n - 1);
      KeepsLength(curve, R, path, after, n - 1);
    }
  }

  lemma KeepsLength(curve: int -> int16, R: Route, path: seq<Node>, after: Node?, i: nat)
    requires Sound(R) && Path(R, path, after) && InStep(curve, R, path, after) && i < |path|
    requires SameLengthsUpTo(WornPath(R, path, {}), Parts(R, path), i)
    ensures Length(WornPath(R, path, {})[i]) == Length(Parts(R, path)[i]) && !Stalls(WornPath(R, path, {})[i])
  {
    hide *;
    StopsAreValid(R, path, after);
    NeverLonger(R, path, {});
    PrefixLengths(WornPath(R, path, {}), Parts(R, path), i);
    ReachesNode(curve, R, path, after, i);
    PrefixOfPath(R, path, after, i);
    NextOnTime(curve, R, path, after, i);
    var l := Length(WornPath(R, path, {})[i]);
    if l < Length(Parts(R, path)[i]) {
      OnTimeAt(curve, R, path, after, i, l);
    }
    TimesAgree(R, From(path, after, {}), Cursor(path[i], 0, SpentPath(R, path[..i], {})), SumOfLengths(Parts(R, path)[..i]),
               l, Length(Parts(R, path)[i]));
  }

  lemma PrefixLengths(ps: seq<Part>, qs: seq<Part>, i: nat)
    requires NoLonger(ps, qs) && SameLengthsUpTo(ps, qs, i) && i < |qs|
    ensures NoStall(ps[..i]) && SumOfLengths(ps[..i]) == SumOfLengths(qs[..i])
    ensures Length(ps[i]) <= Length(qs[i])
    ensures SumOfLengths(qs[..i + 1]) == SumOfLengths(qs[..i]) + Length(qs[i])
  {
    hide Length, Stalls;
    assert forall j :: 0 <= j < i ==> ps[..i][j] == ps[j] && qs[..i][j] == qs[j];
    SumSame(ps[..i], qs[..i]);
    assert qs[..i + 1][..i] == qs[..i];
  }

  /** If the node were shorter or stalled, the stream would be ahead or behind. */
  lemma TimesAgree(R: Route, start: Cursor, c: Cursor, lead: nat, l: nat, t: nat)
    requires Sound(R) && OnRoute(R, start) && OnRoute(R, c) && c.node != null && c.k == 0 && At(R, start, lead) == c
    requires l == Length(Here(R, c)) <= t && At(R, start, lead + t).k == 0
    requires l < t ==> At(R, start, lead + l).k == l
    ensures l == t && !Stalls(Here(R, c))
  {
    hide *;
    HasFrames(R, c);
    PlaysFrom(R, start, c, lead, l);
    NextIsFirst(R, c);
    if Stalls(Here(R, c)) {
      StuckAtLength(R, start, c, lead);
      StaysFrom(R, start, lead + l, lead + t);
    }
  }

  lemma NextIsFirst(R: Route, c: Cursor)
    requires c.node != null && OnRoute(R, c)
    ensures NextNode(R, c).k == 0
  {
  }

  lemma OnTimeAt(curve: int -> int16, R: Route, path: seq<Node>, after: Node?, i: nat, k: nat)
    requires Sound(R) && Path(R, path, after) && InStep(curve, R, path, after) && i < |path| && k < Length(Parts(R, path)[i])
    ensures OnRoute(R, From(path, after, {}))
    ensures At(R, From(path, after, {}), SumOfLengths(Parts(R, path)[..i]) + k).k == k
  {
    hide At, Sound, SumOfLengths, Length, Parts;
    assert OnTime(R, path, after, i, k);
  }

  /** After a node in step comes the first frame of something. */
  lemma NextOnTime(curve: int -> int16, R: Route, path: seq<Node>, after: Node?, i: nat)
    requires Sound(R) && Path(R, path, after) && InStep(curve, R, path, after) && i < |path|
    ensures OnRoute(R, From(path, after, {}))
    ensures At(R, From(path, after, {}), SumOfLengths(Parts(R, path)[..i + 1])).k == 0
  {
    hide At, Sound, SumOfLengths, Length, Parts;
    if i + 1 < |path| {
      PartsHaveFrames(R, path, after, i + 1);
      assert OnTime(R, path, after, i + 1, 0);
    } else {
      assert Parts(R, path)[..i + 1] == Parts(R, path);
    }
  }

  lemma PartsHaveFrames(R: Route, path: seq<Node>, after: Node?, i: nat)
    requires Sound(R) && Path(R, path, after) && i < |path|
    ensures Length(Parts(R, path)[i]) > 0
  {
    assert SoundStage(R, path[i]);
    FreshLength(Parts(R, path)[i]);
  }

  // ---------------------------------------------------------------- laps

  ghost function Repeat<T>(xs: seq<T>, q: nat): seq<T> {
    if q == 0 then [] else Repeat(xs, q - 1) + xs
  }

  /** All files of the cycle are filled again when they are closed. */
  ghost predicate LoopedCycle(R: Route, cycle: seq<Node>)
    requires forall i :: 0 <= i < |cycle| ==> cycle[i] in R.stages
  {
    forall i :: 0 <= i < |cycle| ==> Closes(Stops(R, cycle)[i]) <= R.looped
  }

  /** One lap plays what the nodes of the cycle promise, whatever was closed before outside the cycle. */
  lemma OneLap(curve: int -> int16, R: Route, cycle: seq<Node>, spent: set<Node>)
    requires Sound(R) && |cycle| > 0 && Path(R, cycle, cycle[0]) && LoopedCycle(R, cycle) && spent !! R.looped
    ensures var c := Cursor(cycle[0], 0, spent);
            && OnRoute(R, c)
            && At(R, c, SumOfLengths(Parts(R, cycle))) == c
            && Frames(curve, R, c, SumOfLengths(Parts(R, cycle))) == Programme(curve, Parts(R, cycle))
  {
    assert From(cycle, cycle[0], spent) == Cursor(cycle[0], 0, spent);
    hide *;
    StopsAreValid(R, cycle, cycle[0]);
    CycleIsFresh(R, cycle, spent);
    PathPlaysProgramme(curve, R, cycle, cycle[0], spent);
  }

  lemma CycleIsFresh(R: Route, cycle: seq<Node>, spent: set<Node>)
    requires forall i :: 0 <= i < |cycle| ==> cycle[i] in R.stages
    requires forall i :: 0 <= i < |cycle| ==> ValidStop(Stops(R, cycle)[i])
    requires LoopedCycle(R, cycle) && spent !! R.looped
    ensures WornPath(R, cycle, spent) == Parts(R, cycle) && SpentPath(R, cycle, spent) == spent
    ensures NoStall(WornPath(R, cycle, spent))
  {
    LoopedStaysFresh(Stops(R, cycle), R.looped, spent);
    forall i | 0 <= i < |cycle|
      ensures !Stalls(Parts(R, cycle)[i])
    {
      FreshLength(Stops(R, cycle)[i].part);
    }
  }

  /** Every lap of a cycle plays the same frames. */
  lemma {:induction false} LapsRepeat(curve: int -> int16, R: Route, cycle: seq<Node>, spent: set<Node>, q: nat)
    requires Sound(R) && |cycle| > 0 && Path(R, cycle, cycle[0]) && LoopedCycle(R, cycle) && spent !! R.looped
    ensures OnRoute(R, Cursor(cycle[0], 0, spent))
    ensures var c, lap := Cursor(cycle[0], 0, spent), SumOfLengths(Parts(R, cycle));
            && At(R, c, q * lap) == c
            && Frames(curve, R, c, q * lap) == Repeat(Programme(curve, Parts(R, cycle)), q)
  {
    hide Programme, SumOfLengths, Advance, FrameHere, Sound, Parts, LoopedCycle;
    var lap, c := SumOfLengths(Parts(R, cycle)), Cursor(cycle[0], 0, spent);
    if q == 0 {
      ZeroLaps(lap);
    } else {
      hide At, Frames;
      LapsRepeat(curve, R, cycle, spent, q - 1);
      OneLap(curve, R, cycle, spent);
      OneLapMore(q, lap);
      AtAdd(R, c, (q - 1) * lap, lap);
      FramesAdd(curve, R, c, (q - 1) * lap, lap);
    }
  }

  lemma ZeroLaps(lap: nat)
    ensures 0 * lap == 0
  {
  }

  lemma OneLapMore(q: nat, lap: nat)
    requires q > 0
    ensures q * lap == (q - 1) * lap + lap
  {
  }

  /** A chain that reaches a cycle plays its head, each node as far as it gets, and then lap after lap of the same frames. */
  lemma CyclePlaysLaps(curve: int -> int16, R: Route, head: seq<Node>, cycle: seq<Node>, q: nat)
    requires Sound(R) && |cycle| > 0 && Path(R, cycle, cycle[0]) && Path(R, head, cycle[0]) && LoopedCycle(R, cycle)
    requires NoStall(WornPath(R, head, {}))
    ensures var start, ps := From(head, cycle[0], {}), WornPath(R, head, {});
            var n := SumOfLengths(ps) + q * SumOfLengths(Parts(R, cycle));
            && OnRoute(R, start)
            && At(R, start, n) == Cursor(cycle[0], 0, SpentPath(R, head, {}))
            && Frames(curve, R, start, n) == Programme(curve, ps) + Repeat(Programme(curve, Parts(R, cycle)), q)
  {
    hide Programme, SumOfLengths, At, Frames, Repeat, Parts, WornPath, LoopedCycle, Sound, NoStall;
    var start, lead, laps := From(head, cycle[0], {}), SumOfLengths(WornPath(R, head, {})), q * SumOfLengths(Parts(R, cycle));
    SpentIsNotLooped(Stops(R, head), R.looped, {});
    PathPlaysProgramme(curve, R, head, cycle[0], {});
    LapsRepeat(curve, R, cycle, SpentPath(R, head, {}), q);
    hide SpentPath;
    AtAdd(R, start, lead, laps);
    FramesAdd(curve, R, start, lead, laps);
  }

  /** In particular, if no file can be heard to be missing in the head, it plays what all its nodes promise. */
  lemma CyclePlaysAsPromised(curve: int -> int16, R: Route, head: seq<Node>, cycle: seq<Node>, q: nat)
    requires Sound(R) && |cycle| > 0 && Path(R, cycle, cycle[0]) && Path(R, head, cycle[0]) && LoopedCycle(R, cycle)
    requires !AnyMissed(curve, Stops(R, head), R.looped, {})
    ensures var start, n := From(head, cycle[0], {}), SumOfLengths(Parts(R, head)) + q * SumOfLengths(Parts(R, cycle));
            && OnRoute(R, start)
            && At(R, start, n) == Cursor(cycle[0], 0, SpentPath(R, head, {}))
            && Frames(curve, R, start, n) == Programme(curve, Parts(R, head)) + Repeat(Programme(curve, Parts(R, cycle)), q)
  {
    hide *;
    StopsAreValid(R, head, cycle[0]);
    MissedOnPath(curve, R, head, {});
    NeverLonger(R, head, {});
    ProgrammeAlikeIff(curve, WornPath(R, head, {}), Parts(R, head));
    ProgrammeLength(curve, WornPath(R, head, {}));
    ProgrammeLength(curve, Parts(R, head));
    CyclePlaysLaps(curve, R, head, cycle, q);
  }

  lemma ManyLaps(i: nat, lap: nat)
    requires lap > 0
    ensures i * lap >= i
  {
  }

  /** A stream that is at the beginning of a node, or over, has never been stuck. */
  lemma NotStuckBefore(R: Route, c: Cursor, j: nat, n: nat)
    requires Sound(R) && OnRoute(R, c) && j <= n && (At(R, c, n).node == null || At(R, c, n).k == 0)
    ensures !Stuck(R, At(R, c, j))
  {
    if Stuck(R, At(R, c, j)) {
      assert At(R, c, j).node != null && At(R, c, j).k > 0;
      hide *;
      StaysFrom(R, c, j, n);
    }
  }

  /** Then all its frames so far have been counted. */
  lemma {:induction false} AllCounted(R: Route, c: Cursor, i: nat, n: nat)
    requires Sound(R) && OnRoute(R, c) && i <= n && (At(R, c, n).node == null || At(R, c, n).k == 0)
    requires forall j :: 0 <= j < i ==> At(R, c, j).node != null
    ensures Counted(R, c, i) == i
    decreases i
  {
    hide At, Sound, Stuck, OnRoute;
    if i > 0 {
      AllCounted(R, c, i - 1, n);
      NotStuckBefore(R, c, i - 1, n);
    }
  }

  // ---------------------------------------------------------------- graphs that follow a route

  /** The nodes of `R` are wired as it says, keep their schedule, and are filled again as it says. */
  ghost predicate Describes(R: Route, S: set<Node>)
    reads S`target, S`total, S`inputs, S`inLoop, S`starved, S`closeFails, S`refillLate
  {
    && R.stages.Keys <= S && InputsInside(S) && LoopedAre(S, R.looped)
    && (forall n :: n in R.stages ==> DescribesNode(R, n, S))
  }

  ghost predicate DescribesNode(R: Route, n: Node, S: set<Node>)
    requires n in R.stages && n in S && InputsInside(S)
    reads S`target, S`total, S`inputs, S`starved, S`closeFails, S`refillLate
  {
    var s := R.stages[n];
    && n.target == s.next && s.stop == Stop(FreshPart(n), n, n.inputs) && Playable(n, S)
    && (n.kind != Mixer ==> n.inputs == []) && (s.next != null ==> s.next in R.stages)
  }

  /** What a walk over a described graph needs to know. */
  lemma Described(R: Route, S: set<Node>)
    requires Describes(R, S)
    ensures Sound(R) && R.stages.Keys <= S && InputsInside(S) && LoopedAre(S, R.looped)
    ensures forall n :: n in R.stages ==> DescribesNode(R, n, S)
    ensures forall n :: n in R.stages ==> n.target == R.stages[n].next
  {
    hide DescribesNode, SoundStage;
    forall n | n in R.stages
      ensures SoundStage(R, n) && n.target == R.stages[n].next
    {
      DescribedNode(R, n, S);
    }
  }

  lemma DescribedNode(R: Route, n: Node, S: set<Node>)
    requires n in R.stages && n in S && InputsInside(S) && DescribesNode(R, n, S)
    ensures SoundStage(R, n) && n.target == R.stages[n].next && Playable(n, S)
    ensures Closing(n) == Closes(R.stages[n].stop) && n.inputs == R.stages[n].stop.inputs && forall m :: m in n.inputs ==> m in S
  {
    hide Longest;
  }

  /** With the buffers as `spent` says, the node plays what the route says. */
  lemma PartIsWorn(R: Route, c: Cursor, S: set<Node>)
    requires c.node != null && OnRoute(R, c) && c.node in S && InputsInside(S) && DescribesNode(R, c.node, S)
    requires FilledBut(S, c.spent)
    ensures PartOf(c.node) == Here(R, c)
  {
    hide Longest, Playable;
    var n := c.node;
    forall j | 0 <= j < |n.inputs|
      ensures RestedSources(n.inputs)[j] == Here(R, c).sources[j]
    {
      InputKinds(n, S, j);
    }
  }

  lemma InputKinds(n: Node, S: set<Node>, j: nat)
    requires Playable(n, S) && (n.kind != Mixer ==> n.inputs == []) && j < |n.inputs|
    ensures n.inputs[j].kind == FileInput
  {
    assert n.inputs[j] in n.inputs;
  }

  lemma NextIsPlaying(R: Route, c: Cursor, S: set<Node>)
    requires Describes(R, S) && Sound(R) && c.node != null && c.node in R.stages && c.k == 0
    requires AtRest(S) && FilledBut(S, c.spent)
    ensures c.node in S && c.node.inputs == R.stages[c.node].stop.inputs && (forall m :: m in c.node.inputs ==> m in S)
    ensures Playing(c.node, S) && c.node.processed == 0
  {
    hide Length, Stalls, Playable, Describes, DescribesNode, Sound, Here, PartOf;
    Described(R, S);
    DescribedNode(R, c.node, S);
    PartIsWorn(R, c, S);
    HasFrames(R, c);
  }

  lemma NotItsOwnInput(n: Node, S: set<Node>)
    requires Playable(n, S)
    ensures n !in n.inputs
  {
  }

  // ---------------------------------------------------------------- endless streams and flagged cycles

  /** Every walk runs into null or into itself. */
  lemma TrailEnds(start: Node, order: seq<Node>, visited: set<Node>, S: set<Node>) returns (full: seq<Node>)
    requires LoopFlagging.Closed(S) && start in S && Trail(order, start, S)
    requires visited <= S && forall n :: n in visited <==> n in order
    ensures Trail(full, start, S)
    ensures Walk(start, |full|, S) == null || Walk(start, |full|, S) in full
    decreases S - visited
  {
    hide Walk, LoopFlagging.Closed;
    var n := Walk(start, |order|, S);
    if n == null || n in order {
      full := order;
    } else {
      full := TrailEnds(start, order + [n], visited + {n}, S);
    }
  }

  ghost predicate Linked(R: Route, order: seq<Node>, end: Node?) {
    && (end != null ==> end in R.stages)
    && forall k :: 0 <= k < |order| ==> order[k] in R.stages && R.stages[order[k]].next == if k == |order| - 1 then end else order[k + 1]
  }

  lemma LinkedIsPath(R: Route, order: seq<Node>, end: Node?, i: nat, j: nat)
    requires Linked(R, order, end) && i <= j <= |order|
    ensures Path(R, order[i..j], if j == |order| then end else order[j])
  {
    var path := order[i..j];
    forall k | 0 <= k < |path|
      ensures path[k] in R.stages && R.stages[path[k]].next == if i + k == |order| - 1 then end else order[i + k + 1]
    {
      assert path[k] == order[i + k];
    }
  }

  lemma TrailIsLinked(start: Node, order: seq<Node>, R: Route, S: set<Node>)
    requires Describes(R, S) && LoopFlagging.Closed(S) && start in R.stages && start in S && Trail(order, start, S)
    ensures Linked(R, order, Walk(start, |order|, S))
  {
    hide LoopFlagging.Closed, Describes, DescribesNode, Sound;
    WalkInRoute(start, |order|, R, S);
    Described(R, S);
    forall k | 0 <= k < |order|
      ensures order[k] in R.stages && R.stages[order[k]].next == if k == |order| - 1 then Walk(start, |order|, S) else order[k + 1]
    {
      WalkInRoute(start, k, R, S);
      assert order[k] == Walk(start, k, S);
      WalkNext(start, k, S);
      assert k + 1 < |order| ==> order[k + 1] == Walk(start, k + 1, S);
    }
  }

  lemma WalkNext(start: Node, k: nat, S: set<Node>)
    requires LoopFlagging.Closed(S) && start in S && Walk(start, k, S) != null
    ensures Walk(start, k + 1, S) == Walk(start, k, S).target
  {
  }

  lemma {:induction false} WalkInRoute(start: Node, k: nat, R: Route, S: set<Node>)
    requires Describes(R, S) && LoopFlagging.Closed(S) && start in R.stages && start in S
    ensures Walk(start, k, S) != null ==> Walk(start, k, S) in R.stages
  {
    if k != 0 {
      WalkInRoute(start, k - 1, R, S);
    }
  }

  /** A stream follows the walk along `next`. */
  lemma {:induction false} AtOnWalk(start: Node, i: nat, R: Route, S: set<Node>) returns (j: nat)
    requires Describes(R, S) && Sound(R) && LoopFlagging.Closed(S) && start in R.stages && start in S
    ensures OnRoute(R, Cursor(start, 0, {})) && At(R, Cursor(start, 0, {}), i).node == Walk(start, j, S)
  {
    hide *;
    StartOnRoute(start, R);
    StartTrail(start, S);
    AtStep(R, Cursor(start, 0, {}), i);
    if i == 0 {
      j := 0;
    } else {
      j := AtOnWalk(start, i - 1, R, S);
      var moves := StepsOn(R, At(R, Cursor(start, 0, {}), i - 1), S);
      if moves {
        WalkNext(start, j, S);
        j := j + 1;
      }
    }
  }

  lemma AtStep(R: Route, c: Cursor, i: nat)
    requires Sound(R) && OnRoute(R, c)
    ensures At(R, c, 0) == c && (i > 0 ==> At(R, c, i) == Advance(R, At(R, c, i - 1)))
  {
  }

  /** A step of the stream goes to the next node or stays. */
  lemma StepsOn(R: Route, c: Cursor, S: set<Node>) returns (moves: bool)
    requires Describes(R, S) && Sound(R) && OnRoute(R, c)
    ensures moves ==> c.node != null && Advance(R, c).node == c.node.target
    ensures !moves ==> Advance(R, c).node == c.node
  {
    hide Describes, DescribesNode, Sound, Here, Leaves, Late, AfterClosing, Closes;
    Described(R, S);
    moves := c.node != null && Leaves(Here(R, c), c.k);
  }

  /** What keeps a stream from ending: a flagged cycle ahead, or a closed file that it gets stuck in. */
  ghost predicate NeverStuck(R: Route, c: Cursor)
    requires Sound(R) && OnRoute(R, c)
  {
    forall i: nat :: !Stuck(R, At(R, c, i))
  }

  /** A stream ends if and only if there is nothing to flag ahead and it never gets stuck in a file that was closed before. */
  lemma EndsIff(start: Node, R: Route, S: set<Node>)
    requires Describes(R, S) && LoopFlagging.Closed(S) && start in R.stages
    ensures Sound(R) && start in S
    ensures (exists i: nat :: At(R, Cursor(start, 0, {}), i).node == null)
            <==> (forall m :: m in S ==> !Flagged(start, m, S)) && NeverStuck(R, Cursor(start, 0, {}))
  {
    hide *;
    Described(R, S);
    StartTrail(start, S);
    StartOnRoute(start, R);
    var c := Cursor(start, 0, {});
    if i: nat :| At(R, c, i).node == null {
      EndedIsFree(start, i, R, S);
    }
    if (forall m :: m in S ==> !Flagged(start, m, S)) && NeverStuck(R, c) {
      FreeEnds(start, R, S);
    }
  }

  lemma StartTrail(start: Node, S: set<Node>)
    requires LoopFlagging.Closed(S) && start in S
    ensures Trail([], start, S) && Walk(start, 0, S) == start
  {
  }

  lemma StartOnRoute(start: Node, R: Route)
    requires start in R.stages
    ensures OnRoute(R, Cursor(start, 0, {}))
  {
  }

  lemma EndedIsFree(start: Node, i: nat, R: Route, S: set<Node>)
    requires Describes(R, S) && Sound(R) && LoopFlagging.Closed(S) && start in R.stages && start in S
    requires OnRoute(R, Cursor(start, 0, {})) && At(R, Cursor(start, 0, {}), i).node == null
    ensures forall m :: m in S ==> !Flagged(start, m, S)
    ensures NeverStuck(R, Cursor(start, 0, {}))
  {
    hide Describes, Sound, LoopFlagging.Closed, OnCycle, At, Stuck, Walk;
    var j := AtOnWalk(start, i, R, S);
    forall m | m in S
      ensures !OnCycle(start, m, S)
    {
      EndedWalkHasNoCycle(start, j, m, S);
    }
    forall n: nat
      ensures !Stuck(R, At(R, Cursor(start, 0, {}), n))
    {
      if Stuck(R, At(R, Cursor(start, 0, {}), n)) {
        StuckNeverEnds(R, Cursor(start, 0, {}), n, i);
      }
    }
  }

  lemma FreeEnds(start: Node, R: Route, S: set<Node>)
    requires Describes(R, S) && Sound(R) && LoopFlagging.Closed(S) && start in R.stages && start in S
    requires OnRoute(R, Cursor(start, 0, {})) && NeverStuck(R, Cursor(start, 0, {}))
    requires forall m :: m in S ==> !Flagged(start, m, S)
    ensures exists i: nat :: At(R, Cursor(start, 0, {}), i).node == null
  {
    hide Describes, Sound, LoopFlagging.Closed, OnCycle, At, Stuck, Path, Linked, Trail;
    StartTrail(start, S);
    var order := TrailEnds(start, [], {}, S);
    var end := Walk(start, |order|, S);
    if end != null {
      var i0 :| 0 <= i0 < |order| && order[i0] == end;
      CycleIsFlagged(order, i0, start, end, S);
    } else {
      TrailIsLinked(start, order, R, S);
      LinkedIsPath(R, order, null, 0, |order|);
      assert order[0..|order|] == order;
      StartOfTrail(start, order, S);
      PathEnds(start, order, R);
    }
  }

  lemma CycleIsFlagged(order: seq<Node>, i0: nat, start: Node, m: Node, S: set<Node>)
    requires LoopFlagging.Closed(S) && start in S && m in S && Trail(order, start, S)
    requires i0 < |order| && Walk(start, |order|, S) == order[i0] == m
    ensures Flagged(start, m, S)
  {
    hide Walk, LoopFlagging.Closed, OnCycle;
    CycleNodes(order, i0, start, m, S);
    assert m == order[i0..][0];
  }

  lemma StartOfTrail(start: Node, order: seq<Node>, S: set<Node>)
    requires LoopFlagging.Closed(S) && start in S && Trail(order, start, S) && Walk(start, |order|, S) == null
    ensures order != [] && order[0] == start
  {
  }

  lemma PathEnds(start: Node, path: seq<Node>, R: Route)
    requires Sound(R) && Path(R, path, null) && path != [] && path[0] == start
    requires OnRoute(R, Cursor(start, 0, {})) && NeverStuck(R, Cursor(start, 0, {}))
    ensures exists i: nat :: At(R, Cursor(start, 0, {}), i).node == null
  {
    hide At, SumOfLengths, Sound, Stuck, NoStall;
    assert From(path, null, {}) == Cursor(start, 0, {});
    if NoStall(WornPath(R, path, {})) {
      ChainEndsIff(R, path, SumOfLengths(WornPath(R, path, {})));
    } else {
      var i := PathGetsStuck(R, path, null, {});
    }
  }
}
