/** What the nodes of a chain play one after the other, and what becomes of files that were closed before. */
module Programmes {
  import opened Bytes
  import opened AudioConfig
  import opened GraphNodes
  import opened MixerLaws

  // ---------------------------------------------------------------- the frames of one node

  /** What counts for the frames of a node from its first to its last: its inputs, and which buffers are filled. */
  datatype Part = Part(kind: NodeKind, total: nat, play: nat -> Frame, sources: seq<Source>, filled: bool)

  function AsFile(p: Part): Source {
    Source(p.play, p.total, 0, false, p.filled)
  }

  /** Frame `k` of a node since it was last closed. */
  function FrameOf(curve: int -> int16, p: Part, k: nat): (f: seq<int16>)
    ensures |f| == SAMPLES_PER_FRAME
  {
    match p.kind
    case FileInput => FrameFrom(AsFile(p), k)
    case Mixer => MixerFrame(curve, p.sources, k)
    case _ => Silence()
  }

  /** A file that was not filled again and is longer than a buffer never gets to its end. */
  predicate Stalls(p: Part) {
    p.kind == FileInput && !p.filled && p.total > FRAMES_PER_BUFFER
  }

  predicate Late(p: Part, k: nat) {
    Stalls(p) && k >= FRAMES_PER_BUFFER
  }

  /** A mixer whose inputs do not reach its total gives one more frame, the one in which it notices. */
  function Length(p: Part): nat {
    match p.kind
    case FileInput => Reach(AsFile(p))
    case Mixer => if Longest(p.sources) < p.total then Longest(p.sources) + 1 else p.total
    case _ => p.total
  }

  /** Frame `k` is the last one of the node. */
  predicate Leaves(p: Part, k: nat) {
    !Stalls(p) && k + 1 >= Length(p)
  }

  /** All buffers are filled, and a mixer is as long as its longest input. */
  predicate Fresh(p: Part) {
    && p.filled
    && (forall j :: 0 <= j < |p.sources| ==> p.sources[j].filled)
    && (p.kind == Mixer ==> p.total == Longest(p.sources))
  }

  lemma FreshLength(p: Part)
    requires Fresh(p)
    ensures Length(p) == p.total && !Stalls(p)
  {
  }

  /** The first `k` frames of a node. */
  function FramesOf(curve: int -> int16, p: Part, k: nat): (fs: seq<seq<int16>>)
    ensures |fs| == k
  {
    if k == 0 then [] else FramesOf(curve, p, k - 1) + [FrameOf(curve, p, k - 1)]
  }

  lemma {:induction false} FramesAt(curve: int -> int16, p: Part, k: nat, i: nat)
    requires i < k
    ensures FramesOf(curve, p, k)[i] == FrameOf(curve, p, i)
  {
    if i < k - 1 {
      FramesAt(curve, p, k - 1, i);
    }
  }

  // ---------------------------------------------------------------- the frames of a chain

  /** All frames of a chain, node after node. */
  function Programme(curve: int -> int16, parts: seq<Part>): seq<seq<int16>> {
    if parts == [] then []
    else Programme(curve, parts[..|parts| - 1]) + FramesOf(curve, parts[|parts| - 1], Length(parts[|parts| - 1]))
  }

  function SumOfLengths(parts: seq<Part>): nat {
    if parts == [] then 0 else SumOfLengths(parts[..|parts| - 1]) + Length(parts[|parts| - 1])
  }

  lemma {:induction false} ProgrammeLength(curve: int -> int16, parts: seq<Part>)
    ensures |Programme(curve, parts)| == SumOfLengths(parts)
  {
    if parts != [] {
      ProgrammeLength(curve, parts[..|parts| - 1]);
    }
  }

  lemma OnePartMore(curve: int -> int16, parts: seq<Part>, p: Part)
    ensures SumOfLengths(parts + [p]) == SumOfLengths(parts) + Length(p)
    ensures Programme(curve, parts + [p]) == Programme(curve, parts) + FramesOf(curve, p, Length(p))
  {
    assert (parts + [p])[..|parts|] == parts;
  }

  /** Two nodes that cannot be told apart by what they play. */
  ghost predicate Alike(curve: int -> int16, p: Part, q: Part) {
    && !Stalls(p) && Length(p) == Length(q)
    && forall k :: 0 <= k < Length(q) ==> FrameOf(curve, p, k) == FrameOf(curve, q, k)
  }

  ghost predicate AllAlike(curve: int -> int16, ps: seq<Part>, qs: seq<Part>) {
    |ps| == |qs| && forall i :: 0 <= i < |qs| ==> Alike(curve, ps[i], qs[i])
  }

  predicate NoStall(ps: seq<Part>) {
    forall i :: 0 <= i < |ps| ==> !Stalls(ps[i])
  }

  predicate NoLonger(ps: seq<Part>, qs: seq<Part>) {
    |ps| == |qs| && forall i :: 0 <= i < |qs| ==> Length(ps[i]) <= Length(qs[i])
  }

  lemma {:induction false} SumNoLonger(ps: seq<Part>, qs: seq<Part>)
    requires NoLonger(ps, qs)
    ensures SumOfLengths(ps) <= SumOfLengths(qs)
    ensures SumOfLengths(ps) == SumOfLengths(qs) ==> forall i :: 0 <= i < |qs| ==> Length(ps[i]) == Length(qs[i])
    decreases |ps|
  {
    hide Length;
    if ps != [] {
      var n := |ps| - 1;
      SumNoLonger(ps[..n], qs[..n]);
      assert forall i :: 0 <= i < n ==> ps[..n][i] == ps[i] && qs[..n][i] == qs[i];
    }
  }

  lemma FramesAlike(curve: int -> int16, p: Part, q: Part, n: nat)
    ensures FramesOf(curve, p, n) == FramesOf(curve, q, n) <==> forall k :: 0 <= k < n ==> FrameOf(curve, p, k) == FrameOf(curve, q, k)
  {
    hide FrameOf;
    forall k | 0 <= k < n
      ensures FramesOf(curve, p, n)[k] == FrameOf(curve, p, k) && FramesOf(curve, q, n)[k] == FrameOf(curve, q, k)
    {
      FramesAt(curve, p, n, k);
      FramesAt(curve, q, n, k);
    }
  }

  /** A chain of shorter parts plays the same if and only if every part does: nothing can make up for a frame that is missing. */
  lemma {:induction false} ProgrammeAlikeIff(curve: int -> int16, ps: seq<Part>, qs: seq<Part>)
    requires NoLonger(ps, qs) && NoStall(ps)
    ensures Programme(curve, ps) == Programme(curve, qs) <==> AllAlike(curve, ps, qs)
    decreases |ps|
  {
    if ps != [] {
      hide *;
      var n := |ps| - 1;
      ShorterChains(curve, ps, qs);
      ProgrammeAlikeIff(curve, ps[..n], qs[..n]);
      LastAlike(curve, ps, qs);
    }
  }

  lemma ShorterChains(curve: int -> int16, ps: seq<Part>, qs: seq<Part>)
    requires NoLonger(ps, qs) && NoStall(ps) && ps != []
    ensures var n := |ps| - 1;
            && |qs| == |ps| && !Stalls(ps[n]) && NoLonger(ps[..n], qs[..n]) && NoStall(ps[..n])
            && (AllAlike(curve, ps, qs) <==> AllAlike(curve, ps[..n], qs[..n]) && Alike(curve, ps[n], qs[n]))
  {
    hide Length, Alike, Stalls;
    var n := |ps| - 1;
    var a, b := ps[..n], qs[..n];
    assert forall i :: 0 <= i < n ==> a[i] == ps[i] && b[i] == qs[i];
    if AllAlike(curve, a, b) && Alike(curve, ps[n], qs[n]) {
      forall i | 0 <= i < |qs|
        ensures Alike(curve, ps[i], qs[i])
      {
        assert i < n ==> Alike(curve, a[i], b[i]);
      }
    }
  }

  lemma LastAlike(curve: int -> int16, ps: seq<Part>, qs: seq<Part>)
    requires NoLonger(ps, qs) && ps != [] && !Stalls(ps[|ps| - 1])
    ensures var n := |ps| - 1;
            Programme(curve, ps) == Programme(curve, qs) <==>
              Programme(curve, ps[..n]) == Programme(curve, qs[..n]) && Alike(curve, ps[n], qs[n])
  {
    var n := |ps| - 1;
    var p, q := ps[n], qs[n];
    hide Length, FrameOf, Stalls, FramesOf;
    assert forall i :: 0 <= i < n ==> ps[..n][i] == ps[i] && qs[..n][i] == qs[i];
    var a, b := Programme(curve, ps[..n]), Programme(curve, qs[..n]);
    var x, y := FramesOf(curve, p, Length(p)), FramesOf(curve, q, Length(q));
    assert Programme(curve, ps) == a + x && Programme(curve, qs) == b + y;
    SameLengths(curve, ps, qs);
    hide Programme;
    FramesAlike(curve, p, q, Length(q));
    if a + x == b + y {
      Tails(a, x, b, y);
    }
  }

  lemma SameLengths(curve: int -> int16, ps: seq<Part>, qs: seq<Part>)
    requires NoLonger(ps, qs) && ps != []
    ensures Programme(curve, ps) == Programme(curve, qs) ==> Length(ps[|ps| - 1]) == Length(qs[|ps| - 1])
  {
    hide Length, Programme;
    ProgrammeLength(curve, ps);
    ProgrammeLength(curve, qs);
    SumNoLonger(ps, qs);
  }

  lemma Tails<T>(a: seq<T>, x: seq<T>, b: seq<T>, y: seq<T>)
    requires a + x == b + y && |x| == |y|
    ensures a == b && x == y
  {
    assert (a + x)[..|a|] == a && (b + y)[..|b|] == b;
    assert (a + x)[|a|..] == x && (b + y)[|b|..] == y;
  }

  // ---------------------------------------------------------------- files that are used again

  /** A node of a chain: what it plays when all buffers are filled, and who it is. */
  datatype Stop<T> = Stop(part: Part, self: T, inputs: seq<T>)

  ghost predicate ValidStop<T>(s: Stop<T>) {
    |s.inputs| == |s.part.sources| && Fresh(s.part) && s.part.total > 0 && (s.part.kind != Mixer ==> s.inputs == [])
  }

  /** The same node when the files in `spent` have been closed and not filled again. */
  function Worn<T(==)>(s: Stop<T>, spent: set<T>): (p: Part)
    ensures |p.sources| == |s.part.sources|
  {
    var sources := s.part.sources;
    s.part.(filled := s.part.kind == FileInput ==> s.self !in spent,
            sources := seq(|sources|, j requires 0 <= j < |sources| =>
                             sources[j].(filled := j < |s.inputs| ==> s.inputs[j] !in spent)))
  }

  /** The files that are closed when a node has been played. */
  function Closes<T(==)>(s: Stop<T>): set<T> {
    if s.part.kind == FileInput then {s.self}
    else if s.part.kind == Mixer then set x | x in s.inputs
    else {}
  }

  /** Closed files are filled again only if they are in the loop. */
  function AfterClosing<T(==)>(spent: set<T>, closed: set<T>, looped: set<T>): set<T> {
    (spent - closed) + (closed - looped)
  }

  /** The files that are spent when a chain has been played that began with `spent`. */
  function SpentAfter<T(==)>(stops: seq<Stop<T>>, looped: set<T>, spent: set<T>): set<T> {
    if stops == [] then spent
    else AfterClosing(SpentAfter(stops[..|stops| - 1], looped, spent), Closes(stops[|stops| - 1]), looped)
  }

  /** The parts of a chain as they are when their turn comes. */
  ghost function WornParts<T>(stops: seq<Stop<T>>, looped: set<T>, spent: set<T>): (ps: seq<Part>)
    ensures |ps| == |stops|
  {
    if stops == [] then []
    else
      var pre := stops[..|stops| - 1];
      WornParts(pre, looped, spent) + [Worn(stops[|stops| - 1], SpentAfter(pre, looped, spent))]
  }

  lemma {:induction false} WornPartAt<T>(stops: seq<Stop<T>>, looped: set<T>, spent: set<T>, i: nat)
    requires i < |stops|
    ensures WornParts(stops, looped, spent)[i] == Worn(stops[i], SpentAfter(stops[..i], looped, spent))
  {
    hide Worn, SpentAfter;
    if i < |stops| - 1 {
      var pre := stops[..|stops| - 1];
      WornPartAt(pre, looped, spent, i);
      assert pre[..i] == stops[..i];
    }
  }

  lemma {:induction false} WornPrefix<T>(stops: seq<Stop<T>>, looped: set<T>, spent: set<T>, i: nat)
    requires i <= |stops|
    ensures WornParts(stops[..i], looped, spent) == WornParts(stops, looped, spent)[..i]
  {
    hide Worn, SpentAfter, WornParts;
    forall j | 0 <= j < i
      ensures WornParts(stops[..i], looped, spent)[j] == WornParts(stops, looped, spent)[j]
    {
      WornPartAt(stops, looped, spent, j);
      WornPartAt(stops[..i], looped, spent, j);
      assert stops[..i][..j] == stops[..j];
    }
  }

  function PartsOf<T>(stops: seq<Stop<T>>): (ps: seq<Part>)
    ensures |ps| == |stops| && forall i :: 0 <= i < |stops| ==> ps[i] == stops[i].part
  {
    seq(|stops|, i requires 0 <= i < |stops| => stops[i].part)
  }

  predicate Reuses<T(==)>(s: Stop<T>, spent: set<T>) {
    (s.part.kind == FileInput && s.self in spent) || (s.part.kind == Mixer && exists j :: 0 <= j < |s.inputs| && s.inputs[j] in spent)
  }

  /** With the spent files silent the node plays something else: they can be heard to be missing. */
  ghost predicate Missed<T>(curve: int -> int16, s: Stop<T>, spent: set<T>)
  {
    !Alike(curve, Worn(s, spent), s.part)
  }

  /** Somewhere along the chain a file that was closed before can be heard to be missing. */
  ghost predicate AnyMissed<T>(curve: int -> int16, stops: seq<Stop<T>>, looped: set<T>, spent: set<T>)
  {
    exists i :: 0 <= i < |stops| && Missed(curve, stops[i], SpentAfter(stops[..i], looped, spent))
  }

  lemma {:induction false} ReachNoLonger(ps: seq<Source>, qs: seq<Source>)
    requires |ps| == |qs| && forall j :: 0 <= j < |qs| ==> Reach(ps[j]) <= Reach(qs[j])
    ensures Longest(ps) <= Longest(qs)
    decreases |ps|
  {
    hide Reach;
    if ps != [] {
      ReachNoLonger(ps[..|ps| - 1], qs[..|qs| - 1]);
    }
  }

  lemma WornNoLonger<T>(s: Stop<T>, spent: set<T>)
    requires ValidStop(s)
    ensures Length(Worn(s, spent)) <= Length(s.part)
  {
    hide Longest;
    ReachNoLonger(Worn(s, spent).sources, s.part.sources);
  }

  lemma WornAllNoLonger<T>(stops: seq<Stop<T>>, looped: set<T>, spent: set<T>)
    requires forall i :: 0 <= i < |stops| ==> ValidStop(stops[i])
    ensures NoLonger(WornParts(stops, looped, spent), PartsOf(stops))
  {
    hide Length, ValidStop, WornParts, SpentAfter;
    forall i | 0 <= i < |stops|
      ensures Length(WornParts(stops, looped, spent)[i]) <= Length(stops[i].part)
    {
      WornPartAt(stops, looped, spent, i);
      assert ValidStop(stops[i]);
      WornNoLonger(stops[i], SpentAfter(stops[..i], looped, spent));
    }
  }

  lemma AlikeIffNotMissed<T>(curve: int -> int16, stops: seq<Stop<T>>, looped: set<T>, spent: set<T>)
    ensures AllAlike(curve, WornParts(stops, looped, spent), PartsOf(stops)) <==> !AnyMissed(curve, stops, looped, spent)
    ensures !AnyMissed(curve, stops, looped, spent) ==> NoStall(WornParts(stops, looped, spent))
  {
    hide Stalls, Length, FrameOf, WornParts, SpentAfter, Worn;
    forall i | 0 <= i < |stops|
      ensures Alike(curve, WornParts(stops, looped, spent)[i], stops[i].part) <==> !Missed(curve, stops[i], SpentAfter(stops[..i], looped, spent))
    {
      WornPartAt(stops, looped, spent, i);
    }
  }

  /** Where no file is used again every node plays what it promises. */
  lemma NothingMissed<T>(curve: int -> int16, s: Stop<T>, spent: set<T>)
    requires ValidStop(s) && !Reuses(s, spent)
    ensures Worn(s, spent) == s.part && !Missed(curve, s, spent)
  {
    assert Worn(s, spent).sources == s.part.sources;
    FreshLength(s.part);
  }

  /** A file that comes up again on its own is missed if and only if it is longer than a buffer or not all silence. */
  lemma FileMissedIff<T>(curve: int -> int16, s: Stop<T>, spent: set<T>)
    requires ValidStop(s) && s.part.kind == FileInput && s.self in spent
    ensures Missed(curve, s, spent) <==>
              s.part.total > FRAMES_PER_BUFFER || exists k :: 0 <= k < s.part.total && s.part.play(k) != Silence()
  {
    hide Silence;
    FreshLength(s.part);
    var p, q := Worn(s, spent), s.part;
    forall k: nat
      ensures FrameOf(curve, p, k) == Silence() && FrameOf(curve, q, k) == q.play(k)
    {
    }
    if Missed(curve, s, spent) && q.total <= FRAMES_PER_BUFFER {
      var k :| 0 <= k < q.total && FrameOf(curve, p, k) != FrameOf(curve, q, k);
      assert q.play(k) != Silence();
    }
    if k :| 0 <= k < q.total && q.play(k) != Silence() {
      assert FrameOf(curve, p, k) != FrameOf(curve, q, k);
    }
  }

  /** What the spent inputs would have added to sample `i` of frame `k` of a mix. */
  function SpentSum<T(==)>(s: Stop<T>, spent: set<T>, n: nat, k: nat, i: nat): int
    requires n <= |s.inputs| == |s.part.sources| && i < SAMPLES_PER_FRAME
  {
    if n == 0 then 0
    else
      var source := s.part.sources[n - 1];
      SpentSum(s, spent, n - 1, k, i) + (if s.inputs[n - 1] in spent && k < Reach(source) then FrameFrom(source, k)[i] else 0)
  }

  lemma {:induction false} SpentIsSilent<T>(s: Stop<T>, spent: set<T>, n: nat, k: nat, i: nat)
    requires ValidStop(s) && n <= |s.inputs| && i < SAMPLES_PER_FRAME
    ensures PlainSum(s.part.sources[..n], k, i) == PlainSum(Worn(s, spent).sources[..n], k, i) + SpentSum(s, spent, n, k, i)
  {
    if n != 0 {
      SpentIsSilent(s, spent, n - 1, k, i);
      var a, b := s.part.sources[..n], Worn(s, spent).sources[..n];
      assert a[..n - 1] == s.part.sources[..n - 1] && b[..n - 1] == Worn(s, spent).sources[..n - 1];
    }
  }

  /** In a mix that is never clipped the spent inputs are missed if and only if they would have added something, or the mix ends early. */
  lemma MixMissedIff<T>(curve: int -> int16, s: Stop<T>, spent: set<T>)
    requires ValidStop(s) && s.part.kind == Mixer && Unclipped(s.part) && Unclipped(Worn(s, spent))
    ensures Missed(curve, s, spent) <==>
              Length(Worn(s, spent)) < s.part.total ||
              exists k, i :: 0 <= k < s.part.total && 0 <= i < SAMPLES_PER_FRAME && WouldAdd(s, spent, k, i)
  {
    hide Longest, PlainSum, MixerFrame, Reach;
    var p, q := Worn(s, spent), s.part;
    FreshLength(q);
    WornNoLonger(s, spent);
    hide Length;
    forall k, i | 0 <= k < q.total && 0 <= i < SAMPLES_PER_FRAME
      ensures FrameOf(curve, q, k)[i] == FrameOf(curve, p, k)[i] + SpentSum(s, spent, |s.inputs|, k, i)
    {
      SpentIsSilent(s, spent, |s.inputs|, k, i);
      assert q.sources[..|s.inputs|] == q.sources && p.sources[..|s.inputs|] == p.sources;
      UnclippedFrame(curve, p, k, i);
      UnclippedFrame(curve, q, k, i);
    }
    hide FrameOf;
    if Missed(curve, s, spent) && Length(p) >= q.total {
      var k :| 0 <= k < q.total && FrameOf(curve, p, k) != FrameOf(curve, q, k);
      var i := Difference(FrameOf(curve, p, k), FrameOf(curve, q, k));
      assert WouldAdd(s, spent, k, i);
    }
    if k, i :| 0 <= k < q.total && 0 <= i < SAMPLES_PER_FRAME && WouldAdd(s, spent, k, i) {
      assert FrameOf(curve, p, k)[i] != FrameOf(curve, q, k)[i];
      assert FrameOf(curve, p, k) != FrameOf(curve, q, k);
      assert !Alike(curve, p, q);
    }
  }

  ghost predicate WouldAdd<T>(s: Stop<T>, spent: set<T>, k: nat, i: nat)
    requires |s.inputs| == |s.part.sources| && i < SAMPLES_PER_FRAME
  {
    SpentSum(s, spent, |s.inputs|, k, i) != 0
  }

  lemma Difference<T>(a: seq<T>, b: seq<T>) returns (i: nat)
    requires |a| == |b| && a != b
    ensures i < |a| && a[i] != b[i]
  {
    i :| 0 <= i < |a| && a[i] != b[i];
  }

  ghost predicate Unclipped(p: Part) {
    forall k, i :: 0 <= k < p.total && 0 <= i < SAMPLES_PER_FRAME ==> -CLIP_LIMIT <= PlainSum(p.sources, k, i) <= CLIP_LIMIT
  }

  lemma UnclippedFrame(curve: int -> int16, p: Part, k: nat, i: nat)
    requires p.kind == Mixer && Unclipped(p) && k < p.total && i < SAMPLES_PER_FRAME
    ensures FrameOf(curve, p, k)[i] == PlainSum(p.sources, k, i)
  {
    hide PlainSum;
  }

  /** A file on its own is longer than a buffer or not all silence; a mix ends early or lacks samples that add something. */
  ghost predicate Lacks<T>(s: Stop<T>, spent: set<T>)
    requires ValidStop(s)
  {
    match s.part.kind
    case FileInput => s.self in spent && (s.part.total > FRAMES_PER_BUFFER || exists k :: 0 <= k < s.part.total && s.part.play(k) != Silence())
    case Mixer => Length(Worn(s, spent)) < s.part.total
                  || exists k, i :: 0 <= k < s.part.total && 0 <= i < SAMPLES_PER_FRAME && WouldAdd(s, spent, k, i)
    case _ => false
  }

  ghost predicate NeverClips<T>(s: Stop<T>, spent: set<T>) {
    s.part.kind == Mixer ==> Unclipped(s.part) && Unclipped(Worn(s, spent))
  }

  lemma MissedIff<T>(curve: int -> int16, s: Stop<T>, spent: set<T>)
    requires ValidStop(s) && NeverClips(s, spent)
    ensures Missed(curve, s, spent) <==> Lacks(s, spent)
  {
    hide Unclipped, WouldAdd, Silence, Length, Longest;
    if s.part.kind == Mixer {
      MixMissedIff(curve, s, spent);
    } else if s.part.kind == FileInput && s.self in spent {
      FileMissedIff(curve, s, spent);
    } else {
      NothingMissed(curve, s, spent);
    }
  }

  /** Along a chain whose mixes are never clipped, what can be heard to be missing can be read off the files. */
  lemma AnyMissedIff<T>(curve: int -> int16, stops: seq<Stop<T>>, looped: set<T>, spent: set<T>)
    requires forall i :: 0 <= i < |stops| ==> ValidStop(stops[i]) && NeverClips(stops[i], SpentAfter(stops[..i], looped, spent))
    ensures AnyMissed(curve, stops, looped, spent)
            <==> exists i :: 0 <= i < |stops| && Lacks(stops[i], SpentAfter(stops[..i], looped, spent))
  {
    hide ValidStop, NeverClips, SpentAfter, Missed, Lacks;
    forall i | 0 <= i < |stops|
      ensures Missed(curve, stops[i], SpentAfter(stops[..i], looped, spent)) <==> Lacks(stops[i], SpentAfter(stops[..i], looped, spent))
    {
      assert ValidStop(stops[i]);
      MissedIff(curve, stops[i], SpentAfter(stops[..i], looped, spent));
    }
  }

  // ---------------------------------------------------------------- files that occur twice

  /** A file outside the loop occurs in both nodes, on its own or as an input of a mixer. */
  ghost predicate Shared<T>(a: Stop<T>, b: Stop<T>, looped: set<T>) {
    exists x :: x in Closes(a) && x in Closes(b) && x !in looped
  }

  /** Some file outside the loop occurs twice along the chain. */
  ghost predicate SharesFiles<T>(stops: seq<Stop<T>>, looped: set<T>) {
    exists i, j :: 0 <= i < j < |stops| && Shared(stops[i], stops[j], looped)
  }

  /** Spent is what an earlier node has closed, unless it is in the loop. */
  lemma {:induction false} SpentIff<T>(stops: seq<Stop<T>>, looped: set<T>, x: T)
    ensures x in SpentAfter(stops, looped, {}) <==> x !in looped && exists i :: 0 <= i < |stops| && x in Closes(stops[i])
  {
    hide Closes;
    if stops != [] {
      var n := |stops| - 1;
      SpentIff(stops[..n], looped, x);
      if i :| 0 <= i < n && x in Closes(stops[..n][i]) {
        assert x in Closes(stops[i]);
      }
      if i :| 0 <= i < |stops| && x in Closes(stops[i]) {
        assert i < n ==> x in Closes(stops[..n][i]);
      }
    }
  }

  lemma ReusesIff<T>(s: Stop<T>, spent: set<T>)
    ensures Reuses(s, spent) <==> exists x :: x in Closes(s) && x in spent
  {
    if j :| s.part.kind == Mixer && 0 <= j < |s.inputs| && s.inputs[j] in spent {
      assert s.inputs[j] in Closes(s);
    }
  }

  /** A node uses a closed file if and only if it shares one with an earlier node. */
  lemma ReusedIffShared<T>(stops: seq<Stop<T>>, looped: set<T>, j: nat)
    requires j < |stops|
    ensures Reuses(stops[j], SpentAfter(stops[..j], looped, {})) <==> exists i :: 0 <= i < j && Shared(stops[i], stops[j], looped)
  {
    hide Closes, Reuses, SpentAfter;
    var spent := SpentAfter(stops[..j], looped, {});
    ReusesIff(stops[j], spent);
    if x :| x in Closes(stops[j]) && x in spent {
      SpentIff(stops[..j], looped, x);
      var i :| 0 <= i < j && x in Closes(stops[..j][i]);
      assert Shared(stops[i], stops[j], looped);
    }
    if i :| 0 <= i < j && Shared(stops[i], stops[j], looped) {
      var x :| x in Closes(stops[i]) && x in Closes(stops[j]) && x !in looped;
      assert x in Closes(stops[..j][i]);
      SpentIff(stops[..j], looped, x);
    }
  }

  /** Where no file occurs twice nothing can be missed. */
  lemma NothingShared<T>(curve: int -> int16, stops: seq<Stop<T>>, looped: set<T>)
    requires !SharesFiles(stops, looped) && forall i :: 0 <= i < |stops| ==> ValidStop(stops[i])
    ensures !AnyMissed(curve, stops, looped, {})
  {
    hide ValidStop, Missed, Reuses, Shared, SpentAfter;
    forall j | 0 <= j < |stops|
      ensures !Missed(curve, stops[j], SpentAfter(stops[..j], looped, {}))
    {
      ReusedIffShared(stops, looped, j);
      assert ValidStop(stops[j]);
      NothingMissed(curve, stops[j], SpentAfter(stops[..j], looped, {}));
    }
  }

  /** A file that comes up again on its own is missed if it is longer than a buffer or not all silence. */
  lemma SharedFileMissed<T>(curve: int -> int16, stops: seq<Stop<T>>, looped: set<T>, i: nat, j: nat)
    requires i < j < |stops| && ValidStop(stops[j]) && stops[j].part.kind == FileInput && Shared(stops[i], stops[j], looped)
    ensures stops[j].part.total > FRAMES_PER_BUFFER || (exists k :: 0 <= k < stops[j].part.total && stops[j].part.play(k) != Silence())
            ==> AnyMissed(curve, stops, looped, {})
  {
    hide ValidStop, Missed, Shared, SpentAfter, Silence;
    ReusedIffShared(stops, looped, j);
    FileMissedIff(curve, stops[j], SpentAfter(stops[..j], looped, {}));
  }

  // ---------------------------------------------------------------- chains of files that are filled again

  /** What closes nothing but looped files leaves nothing spent, and plays what it promises every time. */
  lemma {:induction false} LoopedStaysFresh<T>(stops: seq<Stop<T>>, looped: set<T>, spent: set<T>)
    requires forall i :: 0 <= i < |stops| ==> ValidStop(stops[i]) && Closes(stops[i]) <= looped
    requires spent !! looped
    ensures SpentAfter(stops, looped, spent) == spent && WornParts(stops, looped, spent) == PartsOf(stops)
  {
    if stops != [] {
      hide ValidStop, Closes, Worn;
      var pre, last := stops[..|stops| - 1], stops[|stops| - 1];
      LoopedStaysFresh(pre, looped, spent);
      LoopedIsFresh(last, looped, spent);
      assert PartsOf(stops) == PartsOf(pre) + [last.part];
    }
  }

  lemma LoopedIsFresh<T>(s: Stop<T>, looped: set<T>, spent: set<T>)
    requires ValidStop(s) && Closes(s) <= looped && spent !! looped
    ensures Worn(s, spent) == s.part && AfterClosing(spent, Closes(s), looped) == spent
  {
    assert Worn(s, spent).sources == s.part.sources;
  }

  lemma {:induction false} SpentIsNotLooped<T>(stops: seq<Stop<T>>, looped: set<T>, spent: set<T>)
    requires spent !! looped
    ensures SpentAfter(stops, looped, spent) !! looped
  {
    if stops != [] {
      SpentIsNotLooped(stops[..|stops| - 1], looped, spent);
    }
  }
}
