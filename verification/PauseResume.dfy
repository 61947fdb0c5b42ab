/** Pausing, resuming and stopping a session loop from other threads. */
module PauseResume {
  import opened Bytes
  import opened GraphNodes
  import opened Programmes
  import opened Streams
  import Session

  // ---------------------------------------------------------------- the steps

  /** Where the loop is; `Committed` ones send a frame before they look at the flags again. */
  datatype Place = Top | Check | ToSleep | Asleep | Waking | ToWait | Waiting | Fired | Over

  /** What a thread that called `pause` or `resume` does next. */
  datatype Control = Outside | MayPause | WillPause | MayResume | WillClear | WillSend

  datatype LoopState = LoopState(
    place: Place,
    running: bool,
    paused: bool,
    buffered: bool,  // the one signal the resume channel can hold
    threads: seq<Control>,
    cursor: Cursor,
    dispatched: seq<seq<int16>>)

  datatype Event = Loop | Pause(t: nat) | Resume(t: nat) | Continue(t: nat) | StopFlag | StopTimer

  /** What is played, and from where. */
  datatype Playlist = Playlist(route: Route, start: Node, curve: int -> int16)

  ghost predicate ValidPlaylist(p: Playlist) {
    Sound(p.route) && p.start in p.route.stages
  }

  ghost predicate Inside(p: Playlist, s: LoopState) {
    OnRoute(p.route, s.cursor)
  }

  /** The frame that is due; it is not sent if the stream is over after it. */
  ghost function SendDue(p: Playlist, s: LoopState): (r: LoopState)
    requires ValidPlaylist(p) && Inside(p, s)
    ensures Inside(p, r)
  {
    if s.cursor.node == null then s.(place := Over)
    else
      var next := Advance(p.route, s.cursor);
      if next.node == null then s.(place := Over, cursor := next)
      else s.(place := Top, cursor := next,
              dispatched := s.dispatched + [FrameOf(p.curve, Here(p.route, s.cursor), s.cursor.k)])
  }

  ghost function LoopStep(p: Playlist, s: LoopState): (r: LoopState)
    requires ValidPlaylist(p) && Inside(p, s)
    ensures Inside(p, r)
  {
    match s.place
    case Top => s.(place := if s.running then Check else Over)
    case Check => s.(place := if s.paused then ToSleep else ToWait)
    case ToSleep => s.(place := if s.buffered then Waking else Asleep, buffered := false)
    case Asleep => s
    case Waking => s.(place := Top)
    case ToWait => s.(place := Waiting)
    case Waiting => s.(place := Fired)
    case Fired => SendDue(p, s)
    case Over => s
  }

  /** `try_send`: a loop that waits takes the signal, otherwise the channel holds it. */
  function TrySend(s: LoopState): LoopState {
    if s.place == Asleep then s.(place := Waking) else s.(buffered := true)
  }

  /** The flag is read in one step and written in another. */
  function ThreadStep(s: LoopState, t: nat): LoopState
    requires t < |s.threads|
  {
    match s.threads[t]
    case Outside => s
    case MayPause => s.(threads := s.threads[t := if s.paused then Outside else WillPause])
    case WillPause => s.(paused := true, threads := s.threads[t := Outside])
    case MayResume => s.(threads := s.threads[t := if s.paused then WillClear else Outside])
    case WillClear => s.(paused := false, threads := s.threads[t := WillSend])
    case WillSend => TrySend(s.(threads := s.threads[t := Outside]))
  }

  /** An event that does not apply changes nothing. */
  ghost function Step(p: Playlist, s: LoopState, e: Event): (r: LoopState)
    requires ValidPlaylist(p) && Inside(p, s)
    ensures Inside(p, r)
  {
    match e
    case Loop => LoopStep(p, s)
    case Pause(t) => if t < |s.threads| && s.threads[t] == Outside then s.(threads := s.threads[t := MayPause]) else s
    case Resume(t) => if t < |s.threads| && s.threads[t] == Outside then s.(threads := s.threads[t := MayResume]) else s
    case Continue(t) => if t < |s.threads| then ThreadStep(s, t) else s
    case StopFlag => s.(running := false)
    case StopTimer => if s.place == Waiting then s.(place := Over) else s
  }

  ghost function Initial(p: Playlist, threads: nat): LoopState {
    LoopState(Top, true, false, false, seq(threads, _ => Outside), Cursor(p.start, 0, {}), [])
  }

  ghost function Run(p: Playlist, s: LoopState, events: seq<Event>): (r: LoopState)
    requires ValidPlaylist(p) && Inside(p, s)
    ensures Inside(p, r)
  {
    if events == [] then s
    else Step(p, Run(p, s, events[..|events| - 1]), events[|events| - 1])
  }

  // ---------------------------------------------------------------- no wake-up is lost

  ghost predicate Sending(s: LoopState) {
    exists t :: 0 <= t < |s.threads| && s.threads[t] == WillSend
  }

  /** A loop that sleeps, or is about to, although nothing is paused has a signal coming. */
  ghost predicate WakeupComes(s: LoopState) {
    && (s.place == Asleep ==> !s.buffered)
    && (s.place == Asleep && !s.paused ==> Sending(s))
    && (s.place == ToSleep && !s.paused ==> s.buffered || Sending(s))
  }

  lemma WakeupComesStep(p: Playlist, s: LoopState, e: Event)
    requires ValidPlaylist(p) && Inside(p, s) && WakeupComes(s)
    ensures WakeupComes(Step(p, s, e))
  {
    hide ThreadStep, LoopStep, WakeupComes, ValidPlaylist, Inside;
    match e
    case Loop => LoopKeepsWakeup(p, s);
    case Continue(t) => if t < |s.threads| { ThreadKeepsWakeup(s, t); }
    case Pause(t) => if t < |s.threads| && s.threads[t] == Outside { CallKeepsWakeup(s, t, MayPause); }
    case Resume(t) => if t < |s.threads| && s.threads[t] == Outside { CallKeepsWakeup(s, t, MayResume); }
    case StopFlag => StopKeepsWakeup(s);
    case StopTimer => StopKeepsWakeup(s);
  }

  lemma LoopKeepsWakeup(p: Playlist, s: LoopState)
    requires ValidPlaylist(p) && Inside(p, s) && WakeupComes(s)
    ensures WakeupComes(LoopStep(p, s))
  {
    hide Advance, FrameOf, ValidPlaylist, Inside, Sending;
    assert LoopStep(p, s).threads == s.threads;
    SameSenders(s, LoopStep(p, s));
  }

  lemma SameSenders(s: LoopState, r: LoopState)
    requires s.threads == r.threads
    ensures Sending(s) == Sending(r)
  {
  }

  lemma StopKeepsWakeup(s: LoopState)
    requires WakeupComes(s)
    ensures WakeupComes(s.(running := false)) && WakeupComes(s.(place := Over))
  {
    hide Sending;
    SameSenders(s, s.(running := false));
  }

  lemma CallKeepsWakeup(s: LoopState, t: nat, c: Control)
    requires t < |s.threads| && s.threads[t] == Outside && WakeupComes(s)
    ensures WakeupComes(s.(threads := s.threads[t := c]))
  {
    if Sending(s) {
      OthersKeepSending(s, t, c);
    }
  }

  /** A thread that has nothing to send can move on. */
  lemma OthersKeepSending(s: LoopState, t: nat, c: Control)
    requires t < |s.threads| && s.threads[t] != WillSend && Sending(s)
    ensures Sending(s.(threads := s.threads[t := c]))
  {
    var u :| 0 <= u < |s.threads| && s.threads[u] == WillSend;
    assert s.threads[t := c][u] == WillSend;
  }

  lemma ThreadKeepsWakeup(s: LoopState, t: nat)
    requires t < |s.threads| && WakeupComes(s)
    ensures WakeupComes(ThreadStep(s, t))
  {
    var r := ThreadStep(s, t);
    if s.threads[t] == WillClear {
      assert r.threads[t] == WillSend;
    } else if s.threads[t] != WillSend && Sending(s) {
      OthersKeepSending(s, t, r.threads[t]);
      SameSenders(s.(threads := s.threads[t := r.threads[t]]), r);
    }
  }

  lemma {:induction false} NoLostWakeup(p: Playlist, threads: nat, events: seq<Event>)
    requires ValidPlaylist(p)
    ensures WakeupComes(Run(p, Initial(p, threads), events))
  {
    hide Step;
    if events != [] {
      NoLostWakeup(p, threads, events[..|events| - 1]);
      WakeupComesStep(p, Run(p, Initial(p, threads), events[..|events| - 1]), events[|events| - 1]);
    }
  }

  /** Once all calls have returned, a loop that is not paused can always go on. */
  lemma IdleLoopGoesOn(p: Playlist, threads: nat, events: seq<Event>)
    requires ValidPlaylist(p)
    ensures var s := Run(p, Initial(p, threads), events);
            (forall t :: 0 <= t < |s.threads| ==> s.threads[t] == Outside) && !s.paused && s.place != Over ==>
              LoopStep(p, s) != s
  {
    hide Run, Advance, FrameOf;
    NoLostWakeup(p, threads, events);
  }

  // ---------------------------------------------------------------- frames while paused or stopped

  predicate Committed(s: LoopState) {
    s.place == ToWait || s.place == Waiting || s.place == Fired
  }

  /** As long as the pause lasts, only a frame that the loop had already committed to goes out. */
  lemma {:induction false} AtMostOneWhilePaused(p: Playlist, s: LoopState, events: seq<Event>)
    requires ValidPlaylist(p) && Inside(p, s)
    requires forall i :: 0 <= i <= |events| ==> Run(p, s, events[..i]).paused
    ensures var r := Run(p, s, events);
            && |s.dispatched| <= |r.dispatched|
            && |r.dispatched| + (if Committed(r) then 1 else 0) <= |s.dispatched| + (if Committed(s) then 1 else 0)
  {
    hide Step, Run;
    if events == [] {
      RunNothing(p, s);
    } else {
      var init, e := events[..|events| - 1], events[|events| - 1];
      forall i | 0 <= i <= |init|
        ensures Run(p, s, init[..i]).paused
      {
        assert init[..i] == events[..i];
      }
      AtMostOneWhilePaused(p, s, init);
      RunLast(p, s, events);
      assert init[..|init|] == init && events[..|init|] == init && events[..|events|] == events;
      PausedStep(p, Run(p, s, init), e);
    }
  }

  /** A frame that is due leads back to the top, or to the end. */
  lemma DueFrame(p: Playlist, s: LoopState)
    requires ValidPlaylist(p) && Inside(p, s)
    ensures var r := SendDue(p, s);
            && r.place in {Top, Over} && |s.dispatched| <= |r.dispatched| <= |s.dispatched| + 1
            && r.running == s.running && r.paused == s.paused
  {
    hide Advance, FrameOf, Here;
  }

  lemma PausedStep(p: Playlist, s: LoopState, e: Event)
    requires ValidPlaylist(p) && Inside(p, s) && s.paused
    ensures var r := Step(p, s, e);
            && |s.dispatched| <= |r.dispatched|
            && |r.dispatched| + (if Committed(r) then 1 else 0) <= |s.dispatched| + (if Committed(s) then 1 else 0)
  {
    hide SendDue, ValidPlaylist, Inside;
    DueFrame(p, s);
  }

  lemma RunNothing(p: Playlist, s: LoopState)
    requires ValidPlaylist(p) && Inside(p, s)
    ensures Run(p, s, []) == s
  {
  }

  lemma RunLast(p: Playlist, s: LoopState, events: seq<Event>)
    requires ValidPlaylist(p) && Inside(p, s) && events != []
    ensures Run(p, s, events) == Step(p, Run(p, s, events[..|events| - 1]), events[|events| - 1])
  {
  }

  /** After `stop` at most one more frame goes out, paused or not. */
  lemma {:induction false} AtMostOneAfterStop(p: Playlist, s: LoopState, events: seq<Event>)
    requires ValidPlaylist(p) && Inside(p, s) && !s.running
    ensures var r := Run(p, s, events);
            && !r.running && |s.dispatched| <= |r.dispatched|
            && |r.dispatched| + (if Committed(r) || r.place == Check then 1 else 0)
               <= |s.dispatched| + (if Committed(s) || s.place == Check then 1 else 0)
  {
    hide Step, Run;
    if events == [] {
      RunNothing(p, s);
    } else {
      AtMostOneAfterStop(p, s, events[..|events| - 1]);
      RunLast(p, s, events);
      StoppedStep(p, Run(p, s, events[..|events| - 1]), events[|events| - 1]);
    }
  }

  lemma StoppedStep(p: Playlist, s: LoopState, e: Event)
    requires ValidPlaylist(p) && Inside(p, s) && !s.running
    ensures var r := Step(p, s, e);
            && !r.running && |s.dispatched| <= |r.dispatched|
            && |r.dispatched| + (if Committed(r) || r.place == Check then 1 else 0)
               <= |s.dispatched| + (if Committed(s) || s.place == Check then 1 else 0)
  {
    hide SendDue, ValidPlaylist, Inside;
    DueFrame(p, s);
  }

  /** Stopping does not wake a loop that sleeps: it sleeps until somebody calls `resume`. */
  lemma {:induction false} StopDoesNotWake(p: Playlist, s: LoopState, events: seq<Event>)
    requires ValidPlaylist(p) && Inside(p, s) && s.place == Asleep && s.paused
    requires forall t :: 0 <= t < |s.threads| ==> s.threads[t] in {Outside, MayPause, WillPause}
    requires forall i :: 0 <= i < |events| ==> !events[i].Resume?
    ensures var r := Run(p, s, events);
            && r.place == Asleep && r.paused && |r.threads| == |s.threads|
            && forall t :: 0 <= t < |r.threads| ==> r.threads[t] in {Outside, MayPause, WillPause}
  {
    hide Run;
    if events == [] {
      RunNothing(p, s);
    } else {
      StopDoesNotWake(p, s, events[..|events| - 1]);
      RunLast(p, s, events);
    }
  }

  // ---------------------------------------------------------------- when a stopped loop ends

  /** The loop on its own, for `n` steps. */
  function Loops(n: nat): seq<Event> {
    if n == 0 then [] else Loops(n - 1) + [Loop]
  }

  ghost predicate EndsAfter(p: Playlist, s: LoopState, n: nat)
    requires ValidPlaylist(p) && Inside(p, s)
  {
    Run(p, s, Loops(n)).place == Over
  }

  /** Asleep, or certain to fall asleep, with no signal to wake it. */
  predicate BoundToSleep(s: LoopState) {
    s.place == Asleep || (!s.buffered && (s.place == ToSleep || (s.place == Check && s.paused)))
  }

  /**
   * The exact condition: after `stop` the loop ends if and only if it does not sleep and is not on
   * its way to sleep without a signal.
   */
  lemma StoppedEndsIff(p: Playlist, s: LoopState)
    requires ValidPlaylist(p) && Inside(p, s) && !s.running
    ensures (exists n: nat :: EndsAfter(p, s, n)) <==> !BoundToSleep(s)
  {
    if BoundToSleep(s) {
      forall n: nat
        ensures !EndsAfter(p, s, n)
      {
        StaysStuck(p, s, n);
      }
    } else {
      var n := StepsToEnd(p, s);
      assert EndsAfter(p, s, n);
    }
  }

  lemma {:induction false} StaysStuck(p: Playlist, s: LoopState, n: nat)
    requires ValidPlaylist(p) && Inside(p, s) && !s.running && BoundToSleep(s)
    ensures var r := Run(p, s, Loops(n)); BoundToSleep(r) && !r.running
  {
    hide Run;
    if n == 0 {
      RunNothing(p, s);
    } else {
      StaysStuck(p, s, n - 1);
      LoopOnce(p, s, Loops(n - 1));
    }
  }

  /** How many steps a stopped loop that does not sleep is from its end. */
  function Rank(s: LoopState): nat {
    match s.place
    case Check => 5
    case ToWait => 4
    case ToSleep => 3
    case Waiting => 3
    case Fired => 2
    case Waking => 2
    case Top => 1
    case _ => 0
  }

  lemma {:induction false} StepsToEnd(p: Playlist, s: LoopState) returns (n: nat)
    requires ValidPlaylist(p) && Inside(p, s) && !s.running && !BoundToSleep(s)
    ensures EndsAfter(p, s, n)
    decreases Rank(s)
  {
    if s.place == Over {
      n := 0;
    } else {
      StepDown(p, s);
      n := StepsToEnd(p, LoopStep(p, s));
      LoopFirst(p, s, n);
      n := n + 1;
    }
  }

  lemma StepDown(p: Playlist, s: LoopState)
    requires ValidPlaylist(p) && Inside(p, s) && !s.running && !BoundToSleep(s) && s.place != Over
    ensures var r := LoopStep(p, s); !r.running && !BoundToSleep(r) && Rank(r) < Rank(s)
  {
    hide Advance, FrameOf;
  }

  lemma {:induction false} LoopFirst(p: Playlist, s: LoopState, n: nat)
    requires ValidPlaylist(p) && Inside(p, s)
    ensures Run(p, LoopStep(p, s), Loops(n)) == Run(p, s, Loops(n + 1))
  {
    hide Run, LoopStep;
    if n == 0 {
      RunNothing(p, LoopStep(p, s));
      RunNothing(p, s);
      LoopOnce(p, s, []);
    } else {
      LoopFirst(p, s, n - 1);
      LoopOnce(p, LoopStep(p, s), Loops(n - 1));
      LoopOnce(p, s, Loops(n));
    }
  }

  /** Once all calls have returned, a stopped loop that is not paused always ends. */
  lemma StoppedUnpausedEnds(p: Playlist, threads: nat, events: seq<Event>)
    requires ValidPlaylist(p)
    ensures var s := Run(p, Initial(p, threads), events);
            (forall t :: 0 <= t < |s.threads| ==> s.threads[t] == Outside) && !s.running && !s.paused ==>
              exists n: nat :: EndsAfter(p, s, n)
  {
    hide Run;
    NoLostWakeup(p, threads, events);
    var s := Run(p, Initial(p, threads), events);
    if !s.running {
      StoppedEndsIff(p, s);
    }
  }

  /** One thread pauses, the loop falls asleep, and then the session is stopped. */
  function PauseThenStop(): seq<Event> {
    [Pause(0), Continue(0), Continue(0), Loop, Loop, Loop, StopFlag, StopTimer]
  }

  /** So sleeping forever can happen: this run reaches it, with no call left that could wake the loop. */
  lemma StoppedCanSleepForever(p: Playlist)
    requires ValidPlaylist(p)
    ensures var s := Run(p, Initial(p, 1), PauseThenStop());
            && s.place == Asleep && !s.running && s.threads == [Outside]
            && forall n: nat :: !EndsAfter(p, s, n)
  {
    hide Run, EndsAfter;
    var s := Initial(p, 1);
    RunNothing(p, s);
    var es := PauseThenStop();
    for i := 0 to 8
      invariant Run(p, s, es[..i]) == PausedPart(s, i)
    {
      RunLast(p, s, es[..i + 1]);
      assert es[..i + 1][..i] == es[..i];
    }
    assert es[..8] == es;
    StoppedEndsIff(p, PausedPart(s, 8));
  }

  /** The first `i` steps of that run. */
  function PausedPart(s: LoopState, i: nat): LoopState {
    s.(threads := if i == 0 || i >= 3 then [Outside] else if i == 1 then [MayPause] else [WillPause],
       paused := i >= 3,
       place := if i < 4 then Top else if i == 4 then Check else if i == 5 then ToSleep else Asleep,
       running := i < 7)
  }

  // ---------------------------------------------------------------- what the calls achieve

  /** All calls have returned. */
  predicate Quiet(s: LoopState) {
    forall t :: 0 <= t < |s.threads| ==> s.threads[t] == Outside
  }

  lemma {:induction false} RunAdd(p: Playlist, s: LoopState, a: seq<Event>, b: seq<Event>)
    requires ValidPlaylist(p) && Inside(p, s)
    ensures Run(p, Run(p, s, a), b) == Run(p, s, a + b)
  {
    hide Step, ValidPlaylist, Inside;
    if b == [] {
      assert a + b == a;
    } else {
      RunAdd(p, s, a, b[..|b| - 1]);
      assert (a + b)[..|a + b| - 1] == a + b[..|b| - 1];
    }
  }

  function PauseCall(t: nat): seq<Event> {
    [Pause(t), Continue(t), Continue(t)]
  }

  function ResumeCall(t: nat): seq<Event> {
    [Resume(t), Continue(t), Continue(t), Continue(t)]
  }

  lemma RunThree(p: Playlist, s: LoopState, a: Event, b: Event, c: Event)
    requires ValidPlaylist(p) && Inside(p, s)
    ensures Run(p, s, [a, b, c]) == Step(p, Step(p, Step(p, s, a), b), c)
  {
    hide Run, Step, ValidPlaylist, Inside;
    RunNothing(p, s);
    RunLast(p, s, [a]);
    RunLast(p, s, [a, b]);
    RunLast(p, s, [a, b, c]);
    assert [a][..0] == [] && [a, b][..1] == [a] && [a, b, c][..2] == [a, b];
  }

  lemma RunFour(p: Playlist, s: LoopState, a: Event, b: Event, c: Event, d: Event)
    requires ValidPlaylist(p) && Inside(p, s)
    ensures Run(p, s, [a, b, c, d]) == Step(p, Step(p, Step(p, Step(p, s, a), b), c), d)
  {
    hide Run, Step, ValidPlaylist, Inside;
    RunThree(p, s, a, b, c);
    RunLast(p, s, [a, b, c, d]);
    assert [a, b, c, d][..3] == [a, b, c];
  }

  /** When a call of `pause` returns, the loop is paused, and nothing else has changed. */
  lemma PauseTakesEffect(p: Playlist, s: LoopState, t: nat)
    requires ValidPlaylist(p) && Inside(p, s) && t < |s.threads| && s.threads[t] == Outside
    ensures Run(p, s, PauseCall(t)) == s.(paused := true)
  {
    hide Run, ValidPlaylist, Inside;
    RunThree(p, s, Pause(t), Continue(t), Continue(t));
    assert s.threads[t := Outside] == s.threads;
  }

  /** When a call of `resume` returns that found the loop paused, it is paused no more, and has been woken or has a signal. */
  lemma ResumeTakesEffect(p: Playlist, s: LoopState, t: nat)
    requires ValidPlaylist(p) && Inside(p, s) && t < |s.threads| && s.threads[t] == Outside && s.paused
    ensures Run(p, s, ResumeCall(t))
            == if s.place == Asleep then s.(paused := false, place := Waking) else s.(paused := false, buffered := true)
  {
    hide Run, ValidPlaylist, Inside;
    RunFour(p, s, Resume(t), Continue(t), Continue(t), Continue(t));
    assert s.threads[t := Outside] == s.threads;
  }

  /** The frame that was due has been sent, or it was the one that ends the stream. */
  ghost predicate WentOn(p: Playlist, s: LoopState, r: LoopState)
    requires ValidPlaylist(p) && Inside(p, s) && s.cursor.node != null
  {
    && r.cursor == Advance(p.route, s.cursor) && r.running == s.running && r.paused == s.paused
    && if r.cursor.node == null then r.place == Over && r.dispatched == s.dispatched
       else r.place == Top && r.dispatched == s.dispatched + [FrameOf(p.curve, Here(p.route, s.cursor), s.cursor.k)]
  }

  /** How many steps an undisturbed loop is from sending the frame that is due. */
  function StepsToSend(s: LoopState): nat {
    match s.place
    case ToSleep => 7
    case Waking => 6
    case Top => 5
    case Check => 4
    case ToWait => 3
    case Waiting => 2
    case Fired => 1
    case _ => 0
  }

  lemma {:induction false} LoopSends(p: Playlist, s: LoopState) returns (n: nat)
    requires ValidPlaylist(p) && Inside(p, s) && s.cursor.node != null
    requires s.running && !s.paused && s.place != Over && Quiet(s) && WakeupComes(s)
    ensures WentOn(p, s, Run(p, s, Loops(n)))
    decreases StepsToSend(s)
  {
    hide Run, LoopStep, WentOn, WakeupComes, ValidPlaylist, Inside, Quiet;
    if s.place == Fired {
      n := 1;
      FiredSends(p, s);
    } else {
      LoopCloser(p, s);
      var m := LoopSends(p, LoopStep(p, s));
      LoopFirst(p, s, m);
      n := m + 1;
      WentOnSame(p, s, LoopStep(p, s), Run(p, s, Loops(n)));
    }
  }

  lemma WentOnSame(p: Playlist, s: LoopState, later: LoopState, r: LoopState)
    requires ValidPlaylist(p) && Inside(p, s) && Inside(p, later) && s.cursor.node != null
    requires later == s.(place := later.place, buffered := later.buffered) && WentOn(p, later, r)
    ensures WentOn(p, s, r)
  {
    hide ValidPlaylist, Inside, Advance, FrameOf, Here;
  }

  lemma FiredSends(p: Playlist, s: LoopState)
    requires ValidPlaylist(p) && Inside(p, s) && s.cursor.node != null && s.place == Fired
    ensures WentOn(p, s, Run(p, s, Loops(1)))
  {
    hide Run, Advance, FrameOf, Here, ValidPlaylist;
    RunNothing(p, s);
    LoopOnce(p, s, []);
    assert Loops(1) == [] + [Loop] by {
      assert Loops(0) == [];
    }
  }

  lemma LoopCloser(p: Playlist, s: LoopState)
    requires ValidPlaylist(p) && Inside(p, s) && s.cursor.node != null
    requires s.running && !s.paused && s.place != Over && s.place != Fired && Quiet(s) && WakeupComes(s)
    ensures var r := LoopStep(p, s);
            && r == s.(place := r.place, buffered := r.buffered) && r.place != Over
            && Quiet(r) && WakeupComes(r) && StepsToSend(r) < StepsToSend(s)
  {
    hide ValidPlaylist, Inside, Advance, FrameOf;
  }

  /** In every reachable state in which all calls have returned, a loop that runs and is not paused sends the frame that is due. */
  lemma UnpausedSends(p: Playlist, threads: nat, events: seq<Event>) returns (n: nat)
    requires ValidPlaylist(p)
    ensures var s := Run(p, Initial(p, threads), events);
            Quiet(s) && s.running && !s.paused && s.place != Over && s.cursor.node != null ==> WentOn(p, s, Run(p, s, Loops(n)))
  {
    hide Run, WakeupComes, WentOn;
    n := 0;
    NoLostWakeup(p, threads, events);
    var s := Run(p, Initial(p, threads), events);
    if Quiet(s) && s.running && !s.paused && s.place != Over && s.cursor.node != null {
      n := LoopSends(p, s);
    }
  }

  /**
   * A pause does not outlast a call of `resume`: from every reachable state in which all calls have
   * returned, the loop then goes on by itself and sends the frame that was due.
   */
  lemma ResumedSends(p: Playlist, threads: nat, events: seq<Event>, t: nat) returns (n: nat)
    requires ValidPlaylist(p)
    ensures var s := Run(p, Initial(p, threads), events);
            Quiet(s) && s.running && s.paused && s.place != Over && s.cursor.node != null && t < |s.threads| ==>
              !Run(p, s, ResumeCall(t)).paused && WentOn(p, s.(paused := false), Run(p, s, ResumeCall(t) + Loops(n)))
  {
    hide Run, WakeupComes, Advance, FrameOf, Here;
    n := 0;
    var s := Run(p, Initial(p, threads), events);
    if Quiet(s) && s.running && s.paused && s.place != Over && s.cursor.node != null && t < |s.threads| {
      ResumeTakesEffect(p, s, t);
      RunAdd(p, Initial(p, threads), events, ResumeCall(t));
      n := UnpausedSends(p, threads, events + ResumeCall(t));
      RunAdd(p, s, ResumeCall(t), Loops(n));
    }
  }

  /** How far a loop in a pause is from falling asleep; a signal that is left over costs one more round. */
  function StepsToSleep(s: LoopState): nat {
    (if s.buffered then 10 else 0) +
    match s.place
    case ToWait => 7
    case Waiting => 6
    case Fired => 5
    case Waking => 4
    case Top => 3
    case Check => 2
    case ToSleep => 1
    case _ => 0
  }

  /** In a pause that nobody ends the loop falls asleep, unless it ends. */
  lemma {:induction false} PausedSleeps(p: Playlist, s: LoopState) returns (n: nat)
    requires ValidPlaylist(p) && Inside(p, s) && s.paused
    ensures Run(p, s, Loops(n)).place in {Asleep, Over}
    decreases StepsToSleep(s)
  {
    hide LoopStep, ValidPlaylist, Inside;
    if s.place in {Asleep, Over} {
      n := 0;
    } else {
      SleepCloser(p, s);
      var m := PausedSleeps(p, LoopStep(p, s));
      LoopFirst(p, s, m);
      n := m + 1;
    }
  }

  lemma SleepCloser(p: Playlist, s: LoopState)
    requires ValidPlaylist(p) && Inside(p, s) && s.paused && s.place !in {Asleep, Over}
    ensures LoopStep(p, s).paused && StepsToSleep(LoopStep(p, s)) < StepsToSleep(s)
  {
    hide ValidPlaylist, Inside, Advance, FrameOf, Here;
  }

  /** After a call of `pause`, and as long as nobody calls `resume`, the pause lasts, and at most one frame goes out. */
  lemma PauseHolds(p: Playlist, s: LoopState, t: nat, events: seq<Event>)
    requires ValidPlaylist(p) && Inside(p, s) && Quiet(s) && t < |s.threads|
    requires forall i :: 0 <= i < |events| ==> !events[i].Resume?
    ensures var r := Run(p, s, PauseCall(t) + events);
            r.paused && |s.dispatched| <= |r.dispatched| <= |s.dispatched| + 1
  {
    hide Run, ValidPlaylist, Inside;
    PauseTakesEffect(p, s, t);
    RunAdd(p, s, PauseCall(t), events);
    var now := s.(paused := true);
    forall i | 0 <= i <= |events|
      ensures Run(p, now, events[..i]).paused
    {
      StaysPaused(p, now, events[..i]);
    }
    assert events[..|events|] == events;
    AtMostOneWhilePaused(p, now, events);
  }

  lemma {:induction false} StaysPaused(p: Playlist, s: LoopState, events: seq<Event>)
    requires ValidPlaylist(p) && Inside(p, s) && s.paused
    requires forall t :: 0 <= t < |s.threads| ==> s.threads[t] in {Outside, MayPause, WillPause}
    requires forall i :: 0 <= i < |events| ==> !events[i].Resume?
    ensures var r := Run(p, s, events);
            r.paused && |r.threads| == |s.threads| && forall t :: 0 <= t < |r.threads| ==> r.threads[t] in {Outside, MayPause, WillPause}
  {
    hide Run, SendDue;
    if events == [] {
      RunNothing(p, s);
    } else {
      StaysPaused(p, s, events[..|events| - 1]);
      RunLast(p, s, events);
      DueThreads(p, Run(p, s, events[..|events| - 1]));
    }
  }

  lemma DueThreads(p: Playlist, s: LoopState)
    requires ValidPlaylist(p) && Inside(p, s)
    ensures var r := SendDue(p, s); r.threads == s.threads && r.paused == s.paused
  {
    hide Advance, FrameOf, Here;
  }

  /** After `stop` a loop that waits for its timer is over at once, and any other sends at most one frame. */
  lemma StopHolds(p: Playlist, s: LoopState, events: seq<Event>)
    requires ValidPlaylist(p) && Inside(p, s)
    ensures var stopped := Run(p, s, [StopFlag, StopTimer]);
            !stopped.running && stopped.dispatched == s.dispatched && (s.place == Waiting ==> stopped.place == Over)
    ensures var r := Run(p, s, [StopFlag, StopTimer] + events);
            !r.running && |s.dispatched| <= |r.dispatched| <= |s.dispatched| + 1
  {
    hide Run, ValidPlaylist, Inside;
    RunNothing(p, s);
    RunLast(p, s, [StopFlag]);
    RunLast(p, s, [StopFlag, StopTimer]);
    assert [StopFlag][..0] == [] && [StopFlag, StopTimer][..1] == [StopFlag];
    RunAdd(p, s, [StopFlag, StopTimer], events);
    AtMostOneAfterStop(p, Run(p, s, [StopFlag, StopTimer]), events);
  }

  // ---------------------------------------------------------------- the same frames as without pauses

  /** `n` frames without a pause: top, check, arm the timer, wait, send. */
  function Steady(n: nat): (es: seq<Event>) {
    if n == 0 then [] else Steady(n - 1) + [Loop, Loop, Loop, Loop, Loop]
  }

  /** What has been sent once the loop has asked for `n` frames. */
  ghost predicate SentAfter(p: Playlist, s: LoopState, n: nat)
    requires ValidPlaylist(p)
  {
    var start := Cursor(p.start, 0, {});
    && s.cursor == At(p.route, start, n)
    && s.dispatched == Frames(p.curve, p.route, start, if s.cursor.node == null && n > 0 then n - 1 else n)
    && (s.cursor.node == null ==> s.place == Over && n > 0)
    && (n > 0 ==> At(p.route, start, n - 1).node != null)
  }

  lemma SentAfterStep(p: Playlist, s: LoopState, e: Event, n: nat) returns (m: nat)
    requires ValidPlaylist(p) && Inside(p, s) && SentAfter(p, s, n)
    ensures SentAfter(p, Step(p, s, e), m)
  {
    hide Advance, FrameOf, At, Frames, Sound, Here, ThreadStep;
    OneFrame(p.curve, p.route, Cursor(p.start, 0, {}), n);
    if e.Continue? && e.t < |s.threads| {
      ThreadKeepsStream(s, e.t);
    }
    m := if e == Loop && s.place == Fired then n + 1 else n;
  }

  lemma ThreadKeepsStream(s: LoopState, t: nat)
    requires t < |s.threads|
    ensures var r := ThreadStep(s, t);
            r.cursor == s.cursor && r.dispatched == s.dispatched && (s.place == Over ==> r.place == Over)
  {
  }

  lemma {:induction false} SentInRun(p: Playlist, threads: nat, events: seq<Event>) returns (n: nat)
    requires ValidPlaylist(p)
    ensures SentAfter(p, Run(p, Initial(p, threads), events), n)
  {
    hide Step;
    if events == [] {
      n := 0;
    } else {
      n := SentInRun(p, threads, events[..|events| - 1]);
      n := SentAfterStep(p, Run(p, Initial(p, threads), events[..|events| - 1]), events[|events| - 1], n);
    }
  }

  /** Five steps of an undisturbed loop send the frame that is due. */
  lemma OneTick(p: Playlist, s: LoopState, before: LoopState, events: seq<Event>)
    requires ValidPlaylist(p) && Inside(p, s) && Inside(p, before)
    requires Run(p, before, events) == s && s.place == Top && s.running && !s.paused
    ensures Run(p, before, events + [Loop, Loop, Loop, Loop, Loop]) == SendDue(p, s.(place := Fired))
  {
    hide Run, LoopStep, SendDue, Inside, ValidPlaylist;
    var two, four := events + [Loop, Loop], events + [Loop, Loop, Loop, Loop];
    LoopTwice(p, before, events);
    assert two + [Loop, Loop] == four;
    LoopTwice(p, before, two);
    assert four + [Loop] == events + [Loop, Loop, Loop, Loop, Loop];
    LoopOnce(p, before, four);
    FourSteps(p, s);
  }

  lemma FourSteps(p: Playlist, s: LoopState)
    requires ValidPlaylist(p) && Inside(p, s) && s.place == Top && s.running && !s.paused
    ensures LoopStep(p, LoopStep(p, LoopStep(p, LoopStep(p, s)))) == s.(place := Fired)
    ensures LoopStep(p, s.(place := Fired)) == SendDue(p, s.(place := Fired))
  {
    hide SendDue;
    assert LoopStep(p, s) == s.(place := Check);
    assert LoopStep(p, s.(place := Check)) == s.(place := ToWait);
    assert LoopStep(p, s.(place := ToWait)) == s.(place := Waiting);
  }

  lemma LoopOnce(p: Playlist, s: LoopState, events: seq<Event>)
    requires ValidPlaylist(p) && Inside(p, s)
    ensures Run(p, s, events + [Loop]) == LoopStep(p, Run(p, s, events))
  {
    hide LoopStep;
    assert (events + [Loop])[..|events|] == events;
  }

  lemma LoopTwice(p: Playlist, s: LoopState, events: seq<Event>)
    requires ValidPlaylist(p) && Inside(p, s)
    ensures Run(p, s, events + [Loop, Loop]) == LoopStep(p, LoopStep(p, Run(p, s, events)))
  {
    hide LoopStep, Run;
    assert events + [Loop] + [Loop] == events + [Loop, Loop];
    LoopOnce(p, s, events);
    LoopOnce(p, s, events + [Loop]);
  }

  lemma {:induction false} SteadyRun(p: Playlist, threads: nat, n: nat)
    requires ValidPlaylist(p) && (n > 0 ==> At(p.route, Cursor(p.start, 0, {}), n - 1).node != null)
    ensures var s := Run(p, Initial(p, threads), Steady(n));
            SentAfter(p, s, n) && s.running && !s.paused && (s.cursor.node != null ==> s.place == Top)
  {
    hide Advance, FrameOf, Sound, LoopStep;
    if n != 0 {
      Unfinished(p, n);
      SteadyRun(p, threads, n - 1);
      hide Run, At, Frames, Advance, FrameOf, Sound;
      var s := Run(p, Initial(p, threads), Steady(n - 1));
      OneTick(p, s, Initial(p, threads), Steady(n - 1));
      OneFrame(p.curve, p.route, Cursor(p.start, 0, {}), n - 1);
    }
  }

  lemma Unfinished(p: Playlist, n: nat)
    requires ValidPlaylist(p) && n > 0 && At(p.route, Cursor(p.start, 0, {}), n - 1).node != null
    ensures n > 1 ==> At(p.route, Cursor(p.start, 0, {}), n - 2).node != null
  {
  }

  /** However a session is paused and resumed, it has sent what an undisturbed one sends. */
  lemma PausedSendsTheSame(p: Playlist, threads: nat, events: seq<Event>) returns (n: nat)
    requires ValidPlaylist(p)
    ensures Run(p, Initial(p, threads), events).dispatched == Run(p, Initial(p, threads), Steady(n)).dispatched
    ensures Run(p, Initial(p, threads), events).cursor == Run(p, Initial(p, threads), Steady(n)).cursor
  {
    hide Run, At, Frames, Sound;
    n := SentInRun(p, threads, events);
    SteadyRun(p, threads, n);
  }

  /** In particular what the session object sends that has produced as many frames without a pause. */
  lemma PausedSendsWhatTheSessionSends(p: Playlist, threads: nat, events: seq<Event>, session: Session.Session, S: set<Node>)
    returns (n: nat)
    requires ValidPlaylist(p) && session.executor.startNode == p.start && session.executor.curve == p.curve
    ensures SentAfter(p, Run(p, Initial(p, threads), events), n)
    ensures session.Streamed(n, p.route, S) ==>
              Run(p, Initial(p, threads), events).dispatched == session.dispatched
  {
    hide Run, At, Frames, Sound, Describes;
    n := SentInRun(p, threads, events);
  }
}
