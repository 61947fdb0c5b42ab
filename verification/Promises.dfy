/** What node and edge lists promise to play, what is sent of it, and when the two are the same. */
module Promises {
  import opened Bytes
  import opened AudioConfig
  import opened GraphNodes
  import opened MixerLaws
  import opened Programmes
  import opened GraphBuilder
  import opened Streams
  import opened GraphLists

  // ---------------------------------------------------------------- what is sent

  /** What has been sent: the frames, and the counters of produced frames, bytes and packets. */
  datatype Sent = Sent(frames: seq<seq<int16>>, produced: nat, bytes: nat, packets: nat)

  /** A chain that ends: its programme, but for the frame that ends it. */
  ghost predicate SendsChain(sent: Sent, curve: int -> int16, parts: seq<Part>, ticks: nat) {
    var total := SumOfLengths(parts);
    && sent.produced == Min(ticks, total) && sent.bytes == FRAME_SIZE_BYTES * sent.produced
    && sent.packets == |sent.frames| == (if sent.produced == total then total - 1 else sent.produced)
    && sent.frames <= Programme(curve, parts)
  }

  /** A chain with a file that stalls: what comes before, a buffer of silence, and silence that is not counted. */
  ghost predicate SendsStall(sent: Sent, curve: int -> int16, parts: seq<Part>, ticks: nat) {
    && sent.produced == sent.packets == |sent.frames| == ticks
    && sent.bytes == FRAME_SIZE_BYTES * Min(ticks, SumOfLengths(parts))
    && sent.frames <= Programme(curve, parts) + Silences(ticks)
  }

  /** A chain that reaches a cycle: its head and then laps, until it is stopped. */
  ghost predicate SendsLaps(sent: Sent, curve: int -> int16, head: seq<Part>, cycle: seq<Part>, ticks: nat) {
    && sent.produced == sent.packets == |sent.frames| == ticks && sent.bytes == FRAME_SIZE_BYTES * ticks
    && sent.frames <= Programme(curve, head) + Repeat(Programme(curve, cycle), ticks)
  }

  ghost predicate StallsAs(sent: Sent, curve: int -> int16, parts: seq<Part>, ticks: nat) {
    forall j :: StallsFirstAt(parts, j) ==> SendsStall(sent, curve, parts[..j + 1], ticks)
  }

  /** The parts of a path when their turn comes; files that were closed before are silent unless they are in `looped`. */
  ghost function WornAt(specs: seq<NodeSpec>, edges: seq<Edge>, path: seq<nat>, looped: set<nat>): (ps: seq<Part>)
    requires AllAllowed(specs, edges) && forall k :: 0 <= k < |path| ==> path[k] < |specs| && specs[path[k]].kind.Some?
    ensures |ps| == |path|
  {
    WornParts(StopsAt(specs, edges, path), looped, {})
  }

  ghost predicate SendsPath(sent: Sent, curve: int -> int16, specs: seq<NodeSpec>, edges: seq<Edge>, path: seq<nat>, ticks: nat)
    requires AllAllowed(specs, edges) && EntryPath(specs, edges, path, None)
  {
    EntriesKnown(specs, edges, path, None);
    var parts := WornAt(specs, edges, path, {});
    if NoStall(parts) then SendsChain(sent, curve, parts, ticks) else StallsAs(sent, curve, parts, ticks)
  }

  ghost predicate SendsLoop(sent: Sent, curve: int -> int16, specs: seq<NodeSpec>, edges: seq<Edge>, head: seq<nat>, cycle: seq<nat>,
                            ticks: nat)
    requires AllKnown(specs) && AllAllowed(specs, edges) && Laps(specs, edges, head, cycle)
  {
    EntriesKnown(specs, edges, head, Some(cycle[0]));
    EntriesKnown(specs, edges, cycle, Some(cycle[0]));
    var parts := WornAt(specs, edges, head, FlaggedAt(specs, edges, cycle));
    if NoStall(parts) then SendsLaps(sent, curve, parts, PartsAt(specs, edges, cycle), ticks) else StallsAs(sent, curve, parts, ticks)
  }

  lemma EntriesKnown(specs: seq<NodeSpec>, edges: seq<Edge>, path: seq<nat>, after: Option<nat>)
    requires AllAllowed(specs, edges) && EntryPath(specs, edges, path, after)
    ensures forall k :: 0 <= k < |path| ==> path[k] < |specs| && specs[path[k]].kind.Some?
  {
    hide AllAllowed, NextIndex;
    forall k | 0 <= k < |path|
      ensures path[k] < |specs| && specs[path[k]].kind.Some?
    {
      assert LeadsTo(specs, edges, path[k], AfterEntry(path, after, k));
    }
  }

  /** What is sent, for every way from the start to an end or to a cycle. */
  ghost predicate Sends(sent: Sent, curve: int -> int16, specs: seq<NodeSpec>, edges: seq<Edge>, start: nat, ticks: nat)
    requires AllKnown(specs) && AllAllowed(specs, edges)
  {
    && (forall path :: EntryPath(specs, edges, path, None) && path != [] && path[0] == start ==>
          SendsPath(sent, curve, specs, edges, path, ticks))
    && (forall head: seq<nat>, cycle: seq<nat> ::
          Laps(specs, edges, head, cycle) && (head + cycle)[0] == start ==>
            SendsLoop(sent, curve, specs, edges, head, cycle, ticks))
  }

  // ---------------------------------------------------------------- what was promised

  /** An entry can be played when it is good. */
  lemma GoodStop(specs: seq<NodeSpec>, edges: seq<Edge>, i: nat)
    requires AllKnown(specs) && AllAllowed(specs, edges) && GoodLists(specs, edges) && IsPlayed(specs, i)
    ensures ValidStop(StopAt(specs, edges, i))
  {
    hide AllAllowed, AllKnown, InputIndices;
    assert GoodEntry(specs, edges, i);
    var indices := InputIndices(specs, edges, i);
    OnlyMixersHaveInputs(specs, edges, i);
    if specs[i].kind == Some(Mixer) {
      assert GoodEntry(specs, edges, indices[0]);
      LongestIsMaximum(SourcesAt(specs, indices), 0);
      assert Reach(SourcesAt(specs, indices)[0]) > 0;
    }
  }

  lemma {:induction false} OnlyMixersHaveInputs(specs: seq<NodeSpec>, edges: seq<Edge>, i: nat)
    requires AllAllowed(specs, edges) && i < |specs| && specs[i].kind.Some?
    ensures specs[i].kind != Some(Mixer) ==> InputIndices(specs, edges, i) == []
  {
    if edges != [] {
      OnlyMixersHaveInputs(specs, edges[..|edges| - 1], i);
    }
  }

  lemma GoodPath(specs: seq<NodeSpec>, edges: seq<Edge>, path: seq<nat>, after: Option<nat>)
    requires AllKnown(specs) && AllAllowed(specs, edges) && GoodLists(specs, edges) && EntryPath(specs, edges, path, after)
    ensures forall k :: 0 <= k < |path| ==> path[k] < |specs| && specs[path[k]].kind.Some?
    ensures forall k :: 0 <= k < |path| ==> ValidStop(StopsAt(specs, edges, path)[k])
    ensures PartsOf(StopsAt(specs, edges, path)) == PartsAt(specs, edges, path)
  {
    hide AllAllowed, AllKnown, GoodLists, ValidStop, NextIndex, PartAt;
    EntriesKnown(specs, edges, path, after);
    forall k | 0 <= k < |path|
      ensures ValidStop(StopsAt(specs, edges, path)[k])
    {
      assert LeadsTo(specs, edges, path[k], AfterEntry(path, after, k));
      GoodStop(specs, edges, path[k]);
    }
  }

  /** No file stalls along the path, and it plays what the lists promise. */
  ghost predicate KeepsPromise(curve: int -> int16, specs: seq<NodeSpec>, edges: seq<Edge>, path: seq<nat>, looped: set<nat>)
    requires AllKnown(specs) && AllAllowed(specs, edges) && forall k :: 0 <= k < |path| ==> path[k] < |specs| && specs[path[k]].kind.Some?
  {
    var worn := WornAt(specs, edges, path, looped);
    NoStall(worn) && Programme(curve, worn) == Programme(curve, PartsAt(specs, edges, path))
  }

  /** Exactly where no file that was closed before can be heard to be missing. */
  lemma PromiseKeptIff(curve: int -> int16, specs: seq<NodeSpec>, edges: seq<Edge>, path: seq<nat>, after: Option<nat>, looped: set<nat>)
    requires AllKnown(specs) && AllAllowed(specs, edges) && GoodLists(specs, edges) && EntryPath(specs, edges, path, after)
    ensures forall k :: 0 <= k < |path| ==> path[k] < |specs| && specs[path[k]].kind.Some?
    ensures KeepsPromise(curve, specs, edges, path, looped) <==> !AnyMissed(curve, StopsAt(specs, edges, path), looped, {})
  {
    GoodPath(specs, edges, path, after);
    hide AllAllowed, AllKnown, GoodLists, EntryPath, ValidStop, AnyMissed, WornParts, Programme, NoStall, AllAlike, NoLonger;
    var stops := StopsAt(specs, edges, path);
    WornAllNoLonger(stops, looped, {});
    AlikeIffNotMissed(curve, stops, looped, {});
    if NoStall(WornParts(stops, looped, {})) {
      ProgrammeAlikeIff(curve, WornParts(stops, looped, {}), PartsOf(stops));
    }
  }

  /** Where no mix is ever clipped the condition can be read off the files. */
  lemma PromiseOfUnclipped(curve: int -> int16, specs: seq<NodeSpec>, edges: seq<Edge>, path: seq<nat>, after: Option<nat>, looped: set<nat>)
    requires AllKnown(specs) && AllAllowed(specs, edges) && GoodLists(specs, edges) && EntryPath(specs, edges, path, after)
    ensures forall k :: 0 <= k < |path| ==> path[k] < |specs| && specs[path[k]].kind.Some?
    ensures forall k :: 0 <= k < |path| ==> ValidStop(StopsAt(specs, edges, path)[k])
    ensures var stops := StopsAt(specs, edges, path);
            (forall i :: 0 <= i < |path| ==> NeverClips(stops[i], SpentAfter(stops[..i], looped, {}))) ==>
              (KeepsPromise(curve, specs, edges, path, looped)
               <==> !exists i :: 0 <= i < |path| && Lacks(stops[i], SpentAfter(stops[..i], looped, {})))
  {
    GoodPath(specs, edges, path, after);
    PromiseKeptIff(curve, specs, edges, path, after, looped);
    hide AllAllowed, AllKnown, GoodLists, EntryPath, ValidStop, AnyMissed, KeepsPromise, NeverClips, Lacks, SpentAfter;
    var stops := StopsAt(specs, edges, path);
    if forall i :: 0 <= i < |path| ==> NeverClips(stops[i], SpentAfter(stops[..i], looped, {})) {
      AnyMissedIff(curve, stops, looped, {});
    }
  }

  /** In any case the promise is kept where no file outside the loop occurs twice. */
  lemma PromiseOfDistinct(curve: int -> int16, specs: seq<NodeSpec>, edges: seq<Edge>, path: seq<nat>, after: Option<nat>, looped: set<nat>)
    requires AllKnown(specs) && AllAllowed(specs, edges) && GoodLists(specs, edges) && EntryPath(specs, edges, path, after)
    ensures forall k :: 0 <= k < |path| ==> path[k] < |specs| && specs[path[k]].kind.Some?
    ensures !SharesFiles(StopsAt(specs, edges, path), looped) ==> KeepsPromise(curve, specs, edges, path, looped)
  {
    GoodPath(specs, edges, path, after);
    PromiseKeptIff(curve, specs, edges, path, after, looped);
    hide AllAllowed, AllKnown, GoodLists, EntryPath, ValidStop, AnyMissed, KeepsPromise, SharesFiles;
    if !SharesFiles(StopsAt(specs, edges, path), looped) {
      NothingShared(curve, StopsAt(specs, edges, path), looped);
    }
  }

  /** What is sent of an ending path is what the lists promise, unless a file can be heard to be missing. */
  lemma SendsThePromise(sent: Sent, curve: int -> int16, specs: seq<NodeSpec>, edges: seq<Edge>, path: seq<nat>, ticks: nat)
    requires AllKnown(specs) && AllAllowed(specs, edges) && GoodLists(specs, edges) && EntryPath(specs, edges, path, None)
    requires path != [] && Sends(sent, curve, specs, edges, path[0], ticks)
    ensures forall k :: 0 <= k < |path| ==> path[k] < |specs| && specs[path[k]].kind.Some?
    ensures !AnyMissed(curve, StopsAt(specs, edges, path), {}, {}) ==> SendsChain(sent, curve, PartsAt(specs, edges, path), ticks)
  {
    hide AllAllowed, AllKnown, GoodLists, EntryPath, AnyMissed, Laps, WornAt, SendsLoop, StallsAs;
    PromiseKeptIff(curve, specs, edges, path, None, {});
    assert SendsPath(sent, curve, specs, edges, path, ticks);
    if KeepsPromise(curve, specs, edges, path, {}) {
      ProgrammeLength(curve, WornAt(specs, edges, path, {}));
      ProgrammeLength(curve, PartsAt(specs, edges, path));
    }
  }

  /** What is sent of a path into a cycle is what the lists promise, unless a file can be heard to be missing in its head. */
  lemma SendsPromisedLaps(sent: Sent, curve: int -> int16, specs: seq<NodeSpec>, edges: seq<Edge>, head: seq<nat>, cycle: seq<nat>,
                          ticks: nat)
    requires AllKnown(specs) && AllAllowed(specs, edges) && GoodLists(specs, edges) && Laps(specs, edges, head, cycle)
    requires Sends(sent, curve, specs, edges, (head + cycle)[0], ticks)
    ensures forall k :: 0 <= k < |head| ==> head[k] < |specs| && specs[head[k]].kind.Some?
    ensures forall k :: 0 <= k < |cycle| ==> cycle[k] < |specs| && specs[cycle[k]].kind.Some?
    ensures !AnyMissed(curve, StopsAt(specs, edges, head), FlaggedAt(specs, edges, cycle), {}) ==>
              SendsLaps(sent, curve, PartsAt(specs, edges, head), PartsAt(specs, edges, cycle), ticks)
  {
    hide AllAllowed, AllKnown, GoodLists, EntryPath, AnyMissed, WornAt, SendsPath, StallsAs, FlaggedAt;
    EntriesKnown(specs, edges, cycle, Some(cycle[0]));
    PromiseKeptIff(curve, specs, edges, head, Some(cycle[0]), FlaggedAt(specs, edges, cycle));
    assert SendsLoop(sent, curve, specs, edges, head, cycle, ticks);
  }

  // ---------------------------------------------------------------- a file that leads into its own mixer

  /** A file of 500 frames and one of a single frame, */
  function FileAndMixer(a: nat -> Frame, b: nat -> Frame): (specs: seq<NodeSpec>) {
    [NodeSpec("a", Some(FileInput), 500, a), NodeSpec("b", Some(FileInput), 1, b), NodeSpec("m", Some(Mixer), 0, b)]
  }

  /** and a mixer of both that comes next after the first, or the second. */
  function BothIntoMixer(): seq<Edge> {
    [Edge("a", "m"), Edge("b", "m")]
  }

  lemma OneEntryMore(specs: seq<NodeSpec>, x: NodeSpec, id: string)
    ensures LastNamed(specs + [x], id) == if x.id == id then Some(|specs|) else LastNamed(specs, id)
    ensures ClientsCount(specs + [x]) == ClientsCount(specs) + (if x.kind == Some(Clients) then 1 else 0)
  {
    assert (specs + [x])[..|specs|] == specs;
  }

  lemma NamesOfThree(a: nat -> Frame, b: nat -> Frame)
    ensures var specs := FileAndMixer(a, b);
            && LastNamed(specs, "a") == Some(0) && LastNamed(specs, "b") == Some(1) && LastNamed(specs, "m") == Some(2)
            && ClientsCount(specs) == 0 && AllKnown(specs) && AllAllowed(specs, BothIntoMixer())
  {
    var specs := FileAndMixer(a, b);
    assert "a"[0] == 'a' && "b"[0] == 'b' && "m"[0] == 'm';
    assert specs == [] + [specs[0]] + [specs[1]] + [specs[2]];
    forall id: string
      ensures LastNamed(specs, id) == if id == "m" then Some(2) else if id == "b" then Some(1) else if id == "a" then Some(0) else None
      ensures ClientsCount(specs) == 0
    {
      OneEntryMore([], specs[0], id);
      OneEntryMore([] + [specs[0]], specs[1], id);
      OneEntryMore([] + [specs[0]] + [specs[1]], specs[2], id);
    }
  }

  lemma WiringOfThree(a: nat -> Frame, b: nat -> Frame)
    ensures var specs, edges := FileAndMixer(a, b), BothIntoMixer();
            && AllKnown(specs) && AllAllowed(specs, edges)
            && NextIndex(specs, edges, 0) == Some(2) && NextIndex(specs, edges, 2) == None
            && InputIndices(specs, edges, 0) == InputIndices(specs, edges, 1) == [] && InputIndices(specs, edges, 2) == [0, 1]
  {
    hide LastNamed, ClientsCount;
    NamesOfThree(a, b);
    var specs, edges := FileAndMixer(a, b), BothIntoMixer();
    assert edges[..1] == [edges[0]];
    assert AllAllowed(specs, [edges[0]]) && AllAllowed(specs, []);
    assert forall i :: 0 <= i < 3 ==> NextIndex(specs, [], i) == None && InputIndices(specs, [], i) == [];
    assert NextIndex(specs, [edges[0]], 0) == Some(2) && NextIndex(specs, [edges[0]], 2) == None;
    assert InputIndices(specs, [edges[0]], 0) == InputIndices(specs, [edges[0]], 1) == [] && InputIndices(specs, [edges[0]], 2) == [0];
  }

  /** The lists are accepted, nothing in them is empty, and the way from `a` is the file and then the mixer. */
  lemma ListsOfThree(a: nat -> Frame, b: nat -> Frame)
    ensures var specs, edges := FileAndMixer(a, b), BothIntoMixer();
            && Accepted(specs, "a", edges) && LastNamed(specs, "a") == Some(0) && GoodLists(specs, edges)
            && EntryPath(specs, edges, [0, 2], None)
  {
    hide LastNamed, ClientsCount, AllAllowed, NextIndex, InputIndices;
    NamesOfThree(a, b);
    WiringOfThree(a, b);
    var specs, edges, path := FileAndMixer(a, b), BothIntoMixer(), [0, 2];
    assert LeadsTo(specs, edges, path[0], AfterEntry(path, None, 0)) && LeadsTo(specs, edges, path[1], AfterEntry(path, None, 1));
  }

  lemma StopsOfThree(a: nat -> Frame, b: nat -> Frame)
    ensures var specs, edges := FileAndMixer(a, b), BothIntoMixer();
            && AllKnown(specs) && AllAllowed(specs, edges)
            && StopsAt(specs, edges, [0, 2]) == [
                 Stop(Part(FileInput, 500, a, [], true), 0, []),
                 Stop(Part(Mixer, 500, b, [Source(a, 500, 0, false, true), Source(b, 1, 0, false, true)], true), 2, [0, 1])]
  {
    hide LastNamed, AllAllowed, NextIndex, InputIndices;
    WiringOfThree(a, b);
    var specs := FileAndMixer(a, b);
    var sources := [Source(a, 500, 0, false, true), Source(b, 1, 0, false, true)];
    assert SourcesAt(specs, []) == [] && SourcesAt(specs, [0, 1]) == sources;
    LongestOfTwo(sources[0], sources[1]);
  }

  lemma LongestOfTwo(x: Source, y: Source)
    ensures Longest([x, y]) == if Reach(x) < Reach(y) then Reach(y) else Reach(x)
  {
    assert [x, y][..1] == [x] && Longest([x]) == Reach(x);
  }

  /** When the turn of the mixer comes, its first input has been closed. */
  lemma WornOfThree(a: nat -> Frame, b: nat -> Frame)
    ensures var specs, edges := FileAndMixer(a, b), BothIntoMixer();
            && AllKnown(specs) && AllAllowed(specs, edges)
            && WornAt(specs, edges, [0, 2], {}) == [
                 Part(FileInput, 500, a, [], true),
                 Part(Mixer, 500, b, [Source(a, 500, 0, false, false), Source(b, 1, 0, false, true)], true)]
  {
    StopsOfThree(a, b);
    hide AllKnown, AllAllowed;
    var stops := StopsAt(FileAndMixer(a, b), BothIntoMixer(), [0, 2]);
    var none: set<nat> := {};
    assert stops[..1] == [stops[0]] && Closes(stops[0]) == {0};
    assert AfterClosing(none, {0}, {}) == {0};
    assert SpentAfter([stops[0]], {}, {}) == {0};
    assert WornParts([stops[0]], {}, {}) == [Worn(stops[0], none)];
    assert Worn(stops[0], none).sources == [];
    assert Worn(stops[1], {0}).sources == [Source(a, 500, 0, false, false), Source(b, 1, 0, false, true)];
  }

  /**
   * The lists promise 1000 frames. But the mixer finds its first input closed and not filled again:
   * it gets 409 frames of silence from it, and when it is late the other one is complete. So the
   * stream is over after 910 frames, whatever the files hold.
   */
  lemma FileIntoItsOwnMixer(sent: Sent, curve: int -> int16, a: nat -> Frame, b: nat -> Frame, ticks: nat)
    ensures var specs, edges, path := FileAndMixer(a, b), BothIntoMixer(), [0, 2];
            && Accepted(specs, "a", edges) && LastNamed(specs, "a") == Some(0) && GoodLists(specs, edges)
            && EntryPath(specs, edges, path, None)
            && SumOfLengths(PartsAt(specs, edges, path)) == 1000 && AnyMissed(curve, StopsAt(specs, edges, path), {}, {})
            && (Sends(sent, curve, specs, edges, 0, ticks) ==> sent.produced == Min(ticks, 910))
  {
    hide *;
    ListsOfThree(a, b);
    LengthsOfThree(a, b);
    var specs, edges, path := FileAndMixer(a, b), BothIntoMixer(), [0, 2];
    PromiseKeptIff(curve, specs, edges, path, None, {});
    BrokenPromise(curve, specs, edges, path);
    if Sends(sent, curve, specs, edges, 0, ticks) {
      SendsAlong(sent, curve, specs, edges, path, ticks);
    }
  }

  lemma LengthsOfThree(a: nat -> Frame, b: nat -> Frame)
    ensures var specs, edges, path := FileAndMixer(a, b), BothIntoMixer(), [0, 2];
            && AllKnown(specs) && AllAllowed(specs, edges) && path[0] < |specs| && path[1] < |specs|
            && SumOfLengths(PartsAt(specs, edges, path)) == 1000
            && NoStall(WornAt(specs, edges, path, {})) && SumOfLengths(WornAt(specs, edges, path, {})) == 910
  {
    hide AllKnown, AllAllowed;
    StopsOfThree(a, b);
    WornOfThree(a, b);
    var specs, edges, path := FileAndMixer(a, b), BothIntoMixer(), [0, 2];
    var stops, worn := StopsAt(specs, edges, path), WornAt(specs, edges, path, {});
    LongestOfTwo(worn[1].sources[0], worn[1].sources[1]);
    SumOfTwo(worn[0], worn[1]);
    SumOfTwo(stops[0].part, stops[1].part);
    assert PartsAt(specs, edges, path) == [stops[0].part, stops[1].part];
  }

  lemma SumOfTwo(p: Part, q: Part)
    ensures SumOfLengths([p, q]) == Length(p) + Length(q)
  {
    assert [p, q][..1] == [p] && SumOfLengths([p]) == Length(p);
  }

  lemma BrokenPromise(curve: int -> int16, specs: seq<NodeSpec>, edges: seq<Edge>, path: seq<nat>)
    requires AllKnown(specs) && AllAllowed(specs, edges) && forall k :: 0 <= k < |path| ==> path[k] < |specs|
    requires SumOfLengths(WornAt(specs, edges, path, {})) != SumOfLengths(PartsAt(specs, edges, path))
    ensures !KeepsPromise(curve, specs, edges, path, {})
  {
    hide AllAllowed, WornAt, PartAt;
    ProgrammeLength(curve, WornAt(specs, edges, path, {}));
    ProgrammeLength(curve, PartsAt(specs, edges, path));
  }

  lemma SendsAlong(sent: Sent, curve: int -> int16, specs: seq<NodeSpec>, edges: seq<Edge>, path: seq<nat>, ticks: nat)
    requires AllKnown(specs) && AllAllowed(specs, edges) && EntryPath(specs, edges, path, None) && path != []
    requires Sends(sent, curve, specs, edges, path[0], ticks)
    ensures forall k :: 0 <= k < |path| ==> path[k] < |specs| && specs[path[k]].kind.Some?
    ensures NoStall(WornAt(specs, edges, path, {})) ==> sent.produced == Min(ticks, SumOfLengths(WornAt(specs, edges, path, {})))
  {
    hide AllAllowed, AllKnown, EntryPath, WornAt, Laps, SendsLoop, StallsAs, NoStall;
    EntriesKnown(specs, edges, path, None);
    assert SendsPath(sent, curve, specs, edges, path, ticks);
  }
}
