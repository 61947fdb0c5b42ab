/** Double-buffered streaming of a file: a consumer of frames and refills in the background. */
module AsyncBuffer {
  import opened Bytes
  import opened AudioConfig

  datatype BufferState = Idle | Initializing | Ready | Underrun | Faulted | EndOfStream

  /** A refill that was spawned, and one that has captured its block and read `done` bytes so far. */
  datatype Refill = Spawned | Running(target: nat, done: nat)

  /** `clears` says whether a swap clears the ready flag; the contract asks for it, the code does not. */
  datatype Config = Config(blockSize: nat, frameSize: nat, source: seq<byte>, clears: bool)

  datatype StreamState = StreamState(
    blocks: seq<seq<byte>>,
    readIndex: nat,
    backBufferReady: bool,
    processed: nat,
    status: BufferState,
    filePos: nat,
    refills: seq<Refill>)

  datatype Event = Frame | Start(i: nat) | Read(i: nat, n: nat) | Finish(i: nat)

  datatype Outcome = Outcome(state: StreamState, frames: seq<seq<byte>>)

  predicate ValidConfig(c: Config) {
    0 < c.frameSize <= c.blockSize
  }

  ghost predicate Shape(c: Config, st: StreamState) {
    && |st.blocks| == 2 && |st.blocks[0]| == c.blockSize && |st.blocks[1]| == c.blockSize
    && st.readIndex < 2 && st.filePos <= |c.source|
    && forall i :: 0 <= i < |st.refills| && st.refills[i].Running? ==>
         st.refills[i].target < 2 && st.refills[i].done <= c.blockSize
  }

  // ---------------------------------------------------------------- the steps

  /** The rest of the current block has no room for another frame. */
  predicate AtBlockEnd(c: Config, st: StreamState) {
    st.processed * c.frameSize + c.frameSize > c.blockSize
  }

  function Swapped(c: Config, st: StreamState): StreamState
    requires st.readIndex < 2
  {
    st.(readIndex := 1 - st.readIndex,
        processed := 0,
        backBufferReady := st.backBufferReady && !c.clears,
        refills := st.refills + [Spawned])
  }

  /** The frame, or None with an underrun. */
  function NextFrame(c: Config, st: StreamState): (r: (StreamState, Option<seq<byte>>))
    requires ValidConfig(c) && Shape(c, st)
    ensures Shape(c, r.0)
  {
    if AtBlockEnd(c, st) && !st.backBufferReady then (st.(status := Underrun), None)
    else
      var cur := if AtBlockEnd(c, st) then Swapped(c, st) else st;
      var at := cur.processed * c.frameSize;
      (cur.(processed := cur.processed + 1), Some(cur.blocks[cur.readIndex][at..at + c.frameSize]))
  }

  /** Steps of the refill coroutines; an event that does not apply changes nothing. */
  function RefillStep(c: Config, st: StreamState, e: Event): (r: StreamState)
    requires Shape(c, st)
    ensures Shape(c, r)
  {
    match e
    case Frame => st
    case Start(i) =>
      if i < |st.refills| && st.refills[i] == Spawned then
        st.(refills := st.refills[i := Running(1 - st.readIndex, 0)])
      else st
    case Read(i, n) =>
      if i < |st.refills| && st.refills[i].Running? && st.refills[i].done + n <= c.blockSize && st.filePos + n <= |c.source| then
        var t, d := st.refills[i].target, st.refills[i].done;
        var bytes := c.source[st.filePos..st.filePos + n];
        st.(blocks := st.blocks[t := st.blocks[t][..d] + bytes + st.blocks[t][d + n..]],
            filePos := st.filePos + n,
            refills := st.refills[i := Running(t, d + n)])
      else st
    case Finish(i) =>
      if i < |st.refills| && st.refills[i].Running? && (st.refills[i].done == c.blockSize || st.filePos == |c.source|) then
        var t, d := st.refills[i].target, st.refills[i].done;
        st.(blocks := st.blocks[t := st.blocks[t][..d] + Zeros(c.blockSize - d)],
            status := if d == 0 && c.blockSize > 0 then EndOfStream else st.status,
            backBufferReady := true,
            refills := st.refills[..i] + st.refills[i + 1..])
      else st
  }

  function Step(c: Config, o: Outcome, e: Event): (r: Outcome)
    requires ValidConfig(c) && Shape(c, o.state)
    ensures Shape(c, r.state)
  {
    if e == Frame then
      var (st, frame) := NextFrame(c, o.state);
      Outcome(st, if frame.Some? then o.frames + [frame.value] else o.frames)
    else o.(state := RefillStep(c, o.state, e))
  }

  /** After `initialize_buffers` both blocks are full and the first is being read. */
  function Initial(c: Config): (st: StreamState)
    ensures Shape(c, st)
  {
    StreamState([Block(c, 1), Block(c, 0)], 1, true, 0, Ready, Position(c, 2), [])
  }

  function RunFrom(c: Config, st: StreamState, events: seq<Event>): (o: Outcome)
    requires ValidConfig(c) && Shape(c, st)
    ensures Shape(c, o.state)
  {
    if events == [] then Outcome(st, [])
    else Step(c, RunFrom(c, st, events[..|events| - 1]), events[|events| - 1])
  }

  /** A run that begins with filled buffers. */
  function Run(c: Config, events: seq<Event>): (o: Outcome)
    requires ValidConfig(c)
    ensures Shape(c, o.state)
  {
    RunFrom(c, Initial(c), events)
  }

  // ---------------------------------------------------------------- what must be delivered

  /** The source, followed by silence without end. */
  function ByteAt(c: Config, pos: nat): byte {
    if pos < |c.source| then c.source[pos] else 0
  }

  function Piece(c: Config, pos: nat, n: nat): (s: seq<byte>)
    ensures |s| == n && forall i :: 0 <= i < n ==> s[i] == ByteAt(c, pos + i)
  {
    seq<byte>(n, i requires 0 <= i < n => ByteAt(c, pos + i))
  }

  function Block(c: Config, j: nat): (s: seq<byte>)
    ensures |s| == c.blockSize
  {
    Piece(c, j * c.blockSize, c.blockSize)
  }

  /** Whole frames per block; what is left of a block is skipped. */
  function FramesPerBlock(c: Config): (k: nat)
    requires ValidConfig(c)
    ensures k > 0
  {
    FitsOnce(c.blockSize, c.frameSize);
    c.blockSize / c.frameSize
  }

  /** Frames delivered when `p` frames of block `j` have been. */
  function Count(c: Config, j: nat, p: nat): nat
    requires ValidConfig(c)
  {
    j * FramesPerBlock(c) + p
  }

  lemma NextBlock(c: Config, j: nat)
    requires ValidConfig(c)
    ensures Count(c, j + 1, 0) == Count(c, j, FramesPerBlock(c))
    ensures forall p: nat :: Count(c, j, p + 1) == Count(c, j, p) + 1
    ensures Count(c, 0, 0) == 0
  {
    assert (j + 1) * FramesPerBlock(c) == j * FramesPerBlock(c) + FramesPerBlock(c);
  }

  /** Where in the source frame `k` begins. */
  function StartOf(c: Config, k: nat): nat
    requires ValidConfig(c)
  {
    hide FramesPerBlock;
    k / FramesPerBlock(c) * c.blockSize + k % FramesPerBlock(c) * c.frameSize
  }

  /** Frame `k` of a perfect stream. */
  function FrameAt(c: Config, k: nat): seq<byte>
    requires ValidConfig(c)
  {
    Piece(c, StartOf(c, k), c.frameSize)
  }

  /** How far the file has been read when `n` blocks have been fetched. */
  function Position(c: Config, n: nat): (p: nat)
    ensures p <= |c.source|
  {
    if n * c.blockSize < |c.source| then n * c.blockSize else |c.source|
  }

  lemma FitsOnce(b: nat, f: nat)
    requires 0 < f <= b
    ensures b / f > 0
  {
    assert b == b / f * f + b % f;
  }

  // ---------------------------------------------------------------- which bytes are played

  /** Byte `pos` of the source is part of frame `k`. */
  predicate InFrame(c: Config, k: nat, pos: nat)
    requires ValidConfig(c)
  {
    StartOf(c, k) <= pos < StartOf(c, k) + c.frameSize
  }

  /** Frame `p` of block `j` lies in that block. */
  lemma StartInBlock(c: Config, j: nat, p: nat)
    requires ValidConfig(c) && p < FramesPerBlock(c)
    ensures StartOf(c, Count(c, j, p)) == j * c.blockSize + p * c.frameSize
    ensures p * c.frameSize + c.frameSize <= FramesPerBlock(c) * c.frameSize <= c.blockSize
  {
    var k := FramesPerBlock(c);
    ModUnique(j * k + p, j, p, k);
    assert c.blockSize == k * c.frameSize + c.blockSize % c.frameSize;
    MulBounds(k - p, c.frameSize);
    assert (k - p) * c.frameSize == k * c.frameSize - p * c.frameSize;
  }

  /** A byte is played by the frame that its place in its block says, and by no other. */
  lemma PlayedBy(c: Config, k: nat, pos: nat)
    requires ValidConfig(c)
    ensures InFrame(c, k, pos) <==>
              pos % c.blockSize < FramesPerBlock(c) * c.frameSize &&
              k == Count(c, pos / c.blockSize, pos % c.blockSize / c.frameSize)
  {
    var n, f, b := FramesPerBlock(c), c.frameSize, c.blockSize;
    var j, p := k / n, k % n;
    assert k == j * n + p;
    StartInBlock(c, j, p);
    Place(pos, b, f, n, j, p);
    hide FramesPerBlock, StartOf;
    if pos % b < n * f {
      QuotientBelow(pos % b, n, f);
      SamePair(n, j, p, pos / b, pos % b / f);
    }
  }

  lemma SamePair(n: nat, j: nat, p: nat, i: nat, q: nat)
    requires p < n && q < n
    ensures j * n + p == i * n + q <==> j == i && p == q
  {
    ModUnique(j * n + p, j, p, n);
    ModUnique(i * n + q, i, q, n);
  }

  lemma Place(pos: nat, b: nat, f: nat, n: nat, j: nat, p: nat)
    requires f > 0 && p < n && n * f <= b && p * f + f <= n * f
    ensures j * b + p * f <= pos < j * b + p * f + f <==> pos % b < n * f && j == pos / b && p == pos % b / f
  {
    var x, y := pos / b, pos % b;
    Division(pos, b);
    Division(y, f);
    if j * b + p * f <= pos < j * b + p * f + f {
      ModUnique(pos, j, pos - j * b, b);
      ModUnique(y, p, y - p * f, f);
    }
  }

  lemma Division(x: nat, m: nat)
    requires m > 0
    ensures x == x / m * m + x % m && x % m < m
  {
  }

  lemma QuotientBelow(x: nat, n: nat, f: nat)
    requires f > 0 && x < n * f
    ensures x / f < n
  {
    Division(x, f);
    MulBounds(x / f - n, f);
    assert (x / f - n) * f == x / f * f - n * f;
  }

  ghost predicate Played(c: Config, pos: nat)
    requires ValidConfig(c)
  {
    exists k: nat :: InFrame(c, k, pos)
  }

  /** The tail of every block that has no room for a frame is never played, and nothing else is skipped. */
  lemma PlayedIff(c: Config, pos: nat)
    requires ValidConfig(c)
    ensures Played(c, pos) <==> pos % c.blockSize < FramesPerBlock(c) * c.frameSize
  {
    hide InFrame, FramesPerBlock;
    PlayedBy(c, Count(c, pos / c.blockSize, pos % c.blockSize / c.frameSize), pos);
    forall k: nat
      ensures InFrame(c, k, pos) ==> pos % c.blockSize < FramesPerBlock(c) * c.frameSize
    {
      PlayedBy(c, k, pos);
    }
  }

  /** So the whole source is played if and only if blocks are whole numbers of frames. */
  lemma NothingSkippedIff(c: Config)
    requires ValidConfig(c)
    ensures (forall pos: nat :: Played(c, pos)) <==> c.blockSize % c.frameSize == 0
  {
    var n, f, b := FramesPerBlock(c), c.frameSize, c.blockSize;
    hide FramesPerBlock, Played;
    assert n == b / f by {
      WholeFrames(c);
    }
    Division(b, f);
    forall pos: nat
      ensures b % f == 0 ==> Played(c, pos)
    {
      PlayedIff(c, pos);
      Division(pos, b);
    }
    PlayedIff(c, b - 1);
    ModUnique(b - 1, 0, b - 1, b);
  }

  lemma WholeFrames(c: Config)
    requires ValidConfig(c)
    ensures FramesPerBlock(c) == c.blockSize / c.frameSize
  {
  }

  /** With the server's sizes a block gives 409 frames, and exactly its last 192 bytes are skipped. */
  lemma SkippedTail(c: Config, pos: nat)
    requires c.blockSize == BUFFER_SIZE && c.frameSize == FRAME_SIZE_BYTES
    ensures FramesPerBlock(c) == 409
    ensures !Played(c, pos) <==> pos % BUFFER_SIZE >= BUFFER_SIZE - 192
  {
    hide Played;
    PlayedIff(c, pos);
  }

  // ---------------------------------------------------------------- the invariant

  /**
   * Block `j` is being read, and the other block holds block `j + 1` or is being filled with it
   * by the only refill there is.
   */
  ghost predicate Inv(c: Config, st: StreamState, j: nat)
    requires ValidConfig(c)
  {
    && Shape(c, st)
    && st.blocks[st.readIndex] == Block(c, j)
    && st.processed <= FramesPerBlock(c)
    && |st.refills| <= 1
    && if st.refills == [] then
         st.blocks[1 - st.readIndex] == Block(c, j + 1) && st.backBufferReady && st.filePos == Position(c, j + 2)
       else
         && st.backBufferReady == !c.clears
         && match st.refills[0]
            case Spawned =>
              j > 0 && st.blocks[1 - st.readIndex] == Block(c, j - 1) && st.filePos == Position(c, j + 1)
            case Running(t, d) =>
              t == 1 - st.readIndex && Filled(c, st.blocks[t], j + 1, d) && st.filePos == Position(c, j + 1) + d
  }

  ghost predicate Filled(c: Config, block: seq<byte>, j: nat, d: nat) {
    && |block| == c.blockSize && d <= c.blockSize
    && forall i :: 0 <= i < d ==> block[i] == ByteAt(c, j * c.blockSize + i)
  }

  /** No refill writes the block that is being read. */
  predicate Exclusive(st: StreamState) {
    forall i :: 0 <= i < |st.refills| && st.refills[i].Running? ==> st.refills[i].target != st.readIndex
  }

  lemma InvExclusive(c: Config, st: StreamState, j: nat)
    requires ValidConfig(c) && Inv(c, st, j)
    ensures Exclusive(st)
  {
  }

  lemma BlockEnd(c: Config, st: StreamState)
    requires ValidConfig(c) && st.processed <= FramesPerBlock(c)
    ensures AtBlockEnd(c, st) <==> st.processed == FramesPerBlock(c)
    ensures !AtBlockEnd(c, st) ==> st.processed < FramesPerBlock(c)
  {
    BlockEndAt(st.processed, FramesPerBlock(c), c.blockSize, c.frameSize);
  }

  lemma BlockEndAt(p: int, k: int, b: int, f: int)
    requires 0 <= p <= k && f > 0 && k == b / f
    ensures p * f + f > b <==> p == k
  {
    assert b == k * f + b % f;
    MulBounds(k - p, f);
    assert (k - p) * f == k * f - p * f;
  }

  lemma FrameInBlock(c: Config, j: nat, p: nat)
    requires ValidConfig(c) && p < FramesPerBlock(c)
    ensures p * c.frameSize + c.frameSize <= c.blockSize
    ensures Block(c, j)[p * c.frameSize..p * c.frameSize + c.frameSize] == FrameAt(c, Count(c, j, p))
  {
    var k, b, f := FramesPerBlock(c), c.blockSize, c.frameSize;
    assert b == k * f + b % f;
    BlockEnd(c, Initial(c).(processed := p));
    ModUnique(j * k + p, j, p, k);
  }

  /** One frame: taken from the current block, or from the next one after a swap. */
  lemma FrameKeepsInv(c: Config, st: StreamState, j: nat) returns (j': nat)
    requires ValidConfig(c) && Inv(c, st, j)
    requires AtBlockEnd(c, st) ==> c.clears || st.refills == []
    ensures var (st', frame) := NextFrame(c, st);
            && Inv(c, st', j')
            && (frame.Some? ==> frame.value == FrameAt(c, Count(c, j, st.processed)))
            && Count(c, j', st'.processed) == Count(c, j, st.processed) + (if frame.Some? then 1 else 0)
    ensures NextFrame(c, st).1.None? <==> AtBlockEnd(c, st) && st.refills != []
  {
    hide Block, FrameAt, Position, AtBlockEnd, FramesPerBlock, Count;
    NextBlock(c, j);
    NextBlock(c, j + 1);
    BlockEnd(c, st);
    if AtBlockEnd(c, st) {
      if st.refills == [] {
        j' := j + 1;
        FrameInBlock(c, j', 0);
      } else {
        j' := j;
      }
    } else {
      j' := j;
      FrameInBlock(c, j, st.processed);
    }
  }

  lemma PositionStep(c: Config, n: nat)
    ensures Position(c, n) + c.blockSize <= |c.source| ==> Position(c, n + 1) == Position(c, n) + c.blockSize
    ensures Position(c, n) + c.blockSize > |c.source| ==> Position(c, n + 1) == |c.source|
    ensures Position(c, n) < |c.source| ==> Position(c, n) == n * c.blockSize
    ensures Position(c, n) == |c.source| ==> n * c.blockSize >= |c.source|
  {
    assert (n + 1) * c.blockSize == n * c.blockSize + c.blockSize;
  }

  /** The steps of a refill keep the invariant, whatever else happens in between. */
  lemma RefillKeepsInv(c: Config, st: StreamState, j: nat, e: Event)
    requires ValidConfig(c) && Inv(c, st, j)
    ensures Inv(c, RefillStep(c, st, e), j)
    ensures RefillStep(c, st, e).processed == st.processed
  {
    match e
    case Frame =>
    case Start(i) => StartKeepsInv(c, st, j, i);
    case Read(i, n) => ReadKeepsInv(c, st, j, i, n);
    case Finish(i) => FinishKeepsInv(c, st, j, i);
  }

  lemma StartKeepsInv(c: Config, st: StreamState, j: nat, i: nat)
    requires ValidConfig(c) && Inv(c, st, j)
    ensures Inv(c, RefillStep(c, st, Start(i)), j)
  {
    hide FramesPerBlock, Block, Position, Filled;
    NothingFilled(c, st.blocks[1 - st.readIndex], j + 1);
  }

  lemma ReadKeepsInv(c: Config, st: StreamState, j: nat, i: nat, n: nat)
    requires ValidConfig(c) && Inv(c, st, j)
    ensures Inv(c, RefillStep(c, st, Read(i, n)), j)
  {
    hide FramesPerBlock, Block, Position, Filled;
    if RefillStep(c, st, Read(i, n)) != st {
      ReadFills(c, st, j, n);
    }
  }

  lemma FinishKeepsInv(c: Config, st: StreamState, j: nat, i: nat)
    requires ValidConfig(c) && Inv(c, st, j)
    ensures Inv(c, RefillStep(c, st, Finish(i)), j)
  {
    hide FramesPerBlock, Block, Position, Filled;
    if RefillStep(c, st, Finish(i)) != st {
      FinishFills(c, st, j);
    }
  }

  lemma NothingFilled(c: Config, block: seq<byte>, j: nat)
    requires |block| == c.blockSize
    ensures Filled(c, block, j, 0)
  {
  }

  lemma ReadFills(c: Config, st: StreamState, j: nat, n: nat)
    requires ValidConfig(c) && Inv(c, st, j)
    requires |st.refills| == 1 && st.refills[0].Running?
    requires st.refills[0].done + n <= c.blockSize && st.filePos + n <= |c.source|
    ensures var t, d := st.refills[0].target, st.refills[0].done;
            Filled(c, st.blocks[t][..d] + c.source[st.filePos..st.filePos + n] + st.blocks[t][d + n..], j + 1, d + n)
  {
    hide FramesPerBlock, Block, Position;
    PositionStep(c, j + 1);
    var t, d := st.refills[0].target, st.refills[0].done;
    if n > 0 {
      assert st.filePos == (j + 1) * c.blockSize + d;
    }
  }

  lemma FinishFills(c: Config, st: StreamState, j: nat)
    requires ValidConfig(c) && Inv(c, st, j)
    requires |st.refills| == 1 && st.refills[0].Running?
    requires st.refills[0].done == c.blockSize || st.filePos == |c.source|
    ensures var t, d := st.refills[0].target, st.refills[0].done;
            st.blocks[t][..d] + Zeros(c.blockSize - d) == Block(c, j + 1)
    ensures st.filePos == Position(c, j + 2)
  {
    hide FramesPerBlock, Position;
    PositionStep(c, j + 1);
    var t, d := st.refills[0].target, st.refills[0].done;
    var full := st.blocks[t][..d] + Zeros(c.blockSize - d);
    forall i | 0 <= i < c.blockSize
      ensures full[i] == ByteAt(c, (j + 1) * c.blockSize + i)
    {
    }
  }

  // ---------------------------------------------------------------- whole runs

  /** Every refill is done before the swap that needs it. */
  predicate TimelyFrom(c: Config, st: StreamState, events: seq<Event>)
    requires ValidConfig(c) && Shape(c, st)
  {
    if events == [] then true
    else
      var pre := events[..|events| - 1];
      && TimelyFrom(c, st, pre)
      && (events[|events| - 1] == Frame && AtBlockEnd(c, RunFrom(c, st, pre).state) ==> RunFrom(c, st, pre).state.refills == [])
  }

  predicate Timely(c: Config, events: seq<Event>)
    requires ValidConfig(c)
  {
    TimelyFrom(c, Initial(c), events)
  }

  /** From any state of the protocol the frames of the source go on in order. */
  lemma {:induction false} DeliversFrom(c: Config, st: StreamState, j0: nat, events: seq<Event>) returns (j: nat)
    requires ValidConfig(c) && Shape(c, st) && Inv(c, st, j0) && (c.clears || TimelyFrom(c, st, events))
    ensures var o := RunFrom(c, st, events);
            && Inv(c, o.state, j) && Exclusive(o.state)
            && Count(c, j0, st.processed) + |o.frames| == Count(c, j, o.state.processed)
            && forall k :: 0 <= k < |o.frames| ==> o.frames[k] == FrameAt(c, Count(c, j0, st.processed) + k)
  {
    hide NextFrame, RefillStep, FrameAt, Count, FramesPerBlock, Inv, Exclusive, AtBlockEnd;
    if events == [] {
      j := j0;
    } else {
      var pre, e := events[..|events| - 1], events[|events| - 1];
      j := DeliversFrom(c, st, j0, pre);
      if e == Frame {
        j := FrameKeepsInv(c, RunFrom(c, st, pre).state, j);
      } else {
        RefillKeepsInv(c, RunFrom(c, st, pre).state, j, e);
      }
    }
    InvExclusive(c, RunFrom(c, st, events).state, j);
  }

  /**
   * In every interleaving in which refills are timely, or in which swaps clear the flag, the
   * frames that are delivered are exactly the frames of the source in order, and no refill ever
   * writes the block that is being read.
   */
  lemma Delivers(c: Config, events: seq<Event>) returns (j: nat)
    requires ValidConfig(c) && (c.clears || Timely(c, events))
    ensures var o := Run(c, events);
            && Inv(c, o.state, j) && Exclusive(o.state)
            && |o.frames| == Count(c, j, o.state.processed)
            && forall k :: 0 <= k < |o.frames| ==> o.frames[k] == FrameAt(c, k)
  {
    hide FrameAt, FramesPerBlock, Inv, Exclusive, RunFrom, TimelyFrom;
    NextBlock(c, 0);
    InitialInv(c);
    j := DeliversFrom(c, Initial(c), 0, events);
  }

  lemma InitialInv(c: Config)
    requires ValidConfig(c)
    ensures Inv(c, Initial(c), 0)
  {
  }

  /** With the flag cleared, a frame is refused exactly while the refill it needs is under way. */
  lemma UnderrunIffRefillPending(c: Config, events: seq<Event>)
    requires ValidConfig(c) && c.clears
    ensures var st := Run(c, events).state;
            NextFrame(c, st).1.None? <==> AtBlockEnd(c, st) && st.refills != []
  {
    hide Run;
    var j := Delivers(c, events);
    var j' := FrameKeepsInv(c, Run(c, events).state, j);
  }

  /**
   * The code does not clear the flag, so nothing stops a swap while the refill is running: from
   * any state that was fine so far, a swap makes the refill and the reader share a block if and
   * only if a refill is still running.
   */
  lemma SwapSafeIff(c: Config, st: StreamState, j: nat)
    requires ValidConfig(c) && !c.clears && Inv(c, st, j)
    requires AtBlockEnd(c, st) && st.backBufferReady
    ensures Exclusive(NextFrame(c, st).0) <==> !(st.refills != [] && st.refills[0].Running?)
  {
    hide Block, Position, FramesPerBlock;
    var st' := NextFrame(c, st).0;
    assert st'.refills == st.refills + [Spawned];
    if st.refills != [] && st.refills[0].Running? {
      assert st'.refills[0].target == st'.readIndex;
    }
  }

  // ---------------------------------------------------------------- the exact condition for the code as it is

  /** No shared block and no wrong frame, now and at every earlier point of the run. */
  ghost predicate Right(c: Config, events: seq<Event>)
    requires ValidConfig(c)
  {
    RightNow(c, Run(c, events)) && (events == [] || Right(c, events[..|events| - 1]))
  }

  ghost predicate RightNow(c: Config, o: Outcome)
    requires ValidConfig(c)
  {
    Exclusive(o.state) && forall k :: 0 <= k < |o.frames| ==> o.frames[k] == FrameAt(c, k)
  }

  /** The first frame of a block can be told from the one two blocks later. */
  predicate BlocksDiffer(c: Config, i: nat)
    requires ValidConfig(c)
  {
    FrameAt(c, Count(c, i, 0)) != FrameAt(c, Count(c, i + 2, 0))
  }

  /** A swap before the refill is done shares a block or plays the block before last again. */
  lemma UntimelySwapIsWrong(c: Config, o: Outcome, j: nat)
    requires ValidConfig(c) && !c.clears && Inv(c, o.state, j) && |o.frames| == Count(c, j, o.state.processed)
    requires AtBlockEnd(c, o.state) && o.state.refills != []
    requires j > 0 ==> BlocksDiffer(c, j - 1)
    ensures !RightNow(c, Step(c, o, Frame))
  {
    hide Block, Position, FrameAt, FramesPerBlock, AtBlockEnd, Count;
    var st := o.state;
    var r := Step(c, o, Frame);
    assert r.state.refills == st.refills + [Spawned];
    if st.refills[0].Running? {
      assert r.state.refills[0].target == r.state.readIndex;
    } else {
      BlockEnd(c, st);
      NextBlock(c, j);
      FrameInBlock(c, j - 1, 0);
      var n := |o.frames|;
      assert r.frames[n] == FrameAt(c, Count(c, j - 1, 0));
      assert n == Count(c, j + 1, 0);
    }
  }

  /** Every block whose first frame was delivered differs in it from the block two before. */
  ghost predicate ReachedBlocksDiffer(c: Config, frames: nat)
    requires ValidConfig(c)
  {
    forall i: nat :: Count(c, i + 2, 0) < frames ==> BlocksDiffer(c, i)
  }

  /**
   * The exact condition under which the code streams correctly, for sources whose blocks can be
   * told apart as far as they have been played: no block is shared and every frame is the right
   * one if and only if every refill is done before the next swap.
   */
  lemma {:induction false} RightIffTimely(c: Config, events: seq<Event>)
    requires ValidConfig(c) && !c.clears && ReachedBlocksDiffer(c, |Run(c, events).frames|)
    ensures Right(c, events) <==> Timely(c, events)
  {
    hide Run, RightNow, AtBlockEnd, BlocksDiffer, Step, Count;
    if events == [] {
      var j := Delivers(c, events);
      RightByDelivery(c, events);
    } else {
      var pre, e := events[..|events| - 1], events[|events| - 1];
      RunStep(c, events);
      StepAdds(c, Run(c, pre), e);
      RightIffTimely(c, pre);
      if Timely(c, events) {
        var j := Delivers(c, events);
        RightByDelivery(c, events);
      } else if Timely(c, pre) {
        var j := Delivers(c, pre);
        UntimelyReached(c, Run(c, pre), j);
        UntimelySwapIsWrong(c, Run(c, pre), j);
      }
    }
  }

  lemma StepAdds(c: Config, o: Outcome, e: Event)
    requires ValidConfig(c) && Shape(c, o.state)
    ensures |o.frames| <= |Step(c, o, e).frames|
  {
  }

  /** The frame that an untimely swap delivers is the first one of a block. */
  lemma UntimelyReached(c: Config, o: Outcome, j: nat)
    requires ValidConfig(c) && !c.clears && Inv(c, o.state, j) && |o.frames| == Count(c, j, o.state.processed)
    requires AtBlockEnd(c, o.state) && o.state.refills != []
    ensures Count(c, j + 1, 0) < |Step(c, o, Frame).frames|
  {
    hide AtBlockEnd, FramesPerBlock, Count, Block, Position;
    BlockEnd(c, o.state);
    NextBlock(c, j);
  }

  lemma RunStep(c: Config, events: seq<Event>)
    requires ValidConfig(c) && events != []
    ensures Run(c, events) == Step(c, Run(c, events[..|events| - 1]), events[|events| - 1])
    ensures Timely(c, events) <==>
              && Timely(c, events[..|events| - 1])
              && (events[|events| - 1] == Frame && AtBlockEnd(c, Run(c, events[..|events| - 1]).state) ==>
                    Run(c, events[..|events| - 1]).state.refills == [])
  {
  }

  lemma RightByDelivery(c: Config, events: seq<Event>)
    requires ValidConfig(c) && var o := Run(c, events);
             Exclusive(o.state) && forall k :: 0 <= k < |o.frames| ==> o.frames[k] == FrameAt(c, k)
    ensures RightNow(c, Run(c, events))
  {
  }

  // ---------------------------------------------------------------- when no refill ever runs

  /** Frame requests and nothing else: the background never gets to run. */
  function OnlyFrames(n: nat): (es: seq<Event>)
    ensures |es| == n
  {
    if n == 0 then [] else OnlyFrames(n - 1) + [Frame]
  }

  /** Blocks 0 and 1 in turn, `j` swaps into the run. */
  ghost predicate Alternating(c: Config, st: StreamState, j: nat)
    requires ValidConfig(c)
  {
    && Shape(c, st) && st.backBufferReady && st.processed <= FramesPerBlock(c)
    && st.blocks[st.readIndex] == Block(c, j % 2) && st.blocks[1 - st.readIndex] == Block(c, (j + 1) % 2)
  }

  lemma StaleFrame(c: Config, st: StreamState, j: nat) returns (j': nat)
    requires ValidConfig(c) && !c.clears && Alternating(c, st, j)
    ensures var (st', frame) := NextFrame(c, st);
            && Alternating(c, st', j') && frame.Some?
            && st'.processed > 0
            && Count(c, j', st'.processed) == Count(c, j, st.processed) + 1
            && frame.value == FrameAt(c, Count(c, j' % 2, st'.processed - 1))
  {
    hide FrameAt, FramesPerBlock, Block, AtBlockEnd, Count;
    NextBlock(c, j);
    NextBlock(c, j + 1);
    NextBlock(c, j % 2);
    NextBlock(c, (j + 1) % 2);
    BlockEnd(c, st);
    if AtBlockEnd(c, st) {
      j' := j + 1;
      assert (j + 2) % 2 == j % 2;
      FrameInBlock(c, j' % 2, 0);
    } else {
      j' := j;
      FrameInBlock(c, j % 2, st.processed);
    }
  }

  /** Which frame the code plays as its `k`-th when no refill runs. */
  function StaleIndex(c: Config, k: nat): nat
    requires ValidConfig(c)
  {
    Count(c, k / FramesPerBlock(c) % 2, k % FramesPerBlock(c))
  }

  ghost predicate Stale(c: Config, o: Outcome, j: nat, n: nat)
    requires ValidConfig(c)
  {
    && Alternating(c, o.state, j)
    && Count(c, j, o.state.processed) == |o.frames| == n
    && forall k :: 0 <= k < n ==> o.frames[k] == FrameAt(c, StaleIndex(c, k))
  }

  lemma StaleStep(c: Config, o: Outcome, j: nat, n: nat) returns (j': nat)
    requires ValidConfig(c) && !c.clears && Shape(c, o.state) && Stale(c, o, j, n)
    ensures Stale(c, Step(c, o, Frame), j', n + 1)
  {
    hide FrameAt, FramesPerBlock, Alternating, NextFrame, StaleIndex, Count, Step, Shape;
    j' := StaleFrame(c, o.state, j);
    FrameStep(c, o);
    var st := NextFrame(c, o.state).0;
    StaleProcessed(c, st, j');
    NextBlock(c, j');
    assert Count(c, j', st.processed) == Count(c, j', st.processed - 1) + 1;
    StaleIndexAt(c, n, j', st.processed - 1);
  }

  lemma StaleProcessed(c: Config, st: StreamState, j: nat)
    requires ValidConfig(c) && Alternating(c, st, j)
    ensures st.processed <= FramesPerBlock(c)
  {
  }

  /** Then the code keeps playing the first two blocks in turn, without a single underrun. */
  lemma {:induction false} StaleBlocks(c: Config, n: nat) returns (j: nat)
    requires ValidConfig(c) && !c.clears
    ensures Stale(c, Run(c, OnlyFrames(n)), j, n)
  {
    hide Stale, Step;
    if n == 0 {
      j := 0;
      StaleStart(c);
    } else {
      var j0 := StaleBlocks(c, n - 1);
      assert OnlyFrames(n)[..n - 1] == OnlyFrames(n - 1);
      j := StaleStep(c, Run(c, OnlyFrames(n - 1)), j0, n - 1);
    }
  }

  lemma StaleStart(c: Config)
    requires ValidConfig(c)
    ensures Stale(c, Outcome(Initial(c), []), 0, 0)
  {
    NextBlock(c, 0);
  }

  lemma FrameStep(c: Config, o: Outcome)
    requires ValidConfig(c) && Shape(c, o.state) && NextFrame(c, o.state).1.Some?
    ensures Step(c, o, Frame) == Outcome(NextFrame(c, o.state).0, o.frames + [NextFrame(c, o.state).1.value])
  {
  }

  lemma StaleIndexAt(c: Config, n: nat, j: nat, p: nat)
    requires ValidConfig(c) && n == Count(c, j, p) && p < FramesPerBlock(c)
    ensures StaleIndex(c, n) == Count(c, j % 2, p)
  {
    ModUnique(n, j, p, FramesPerBlock(c));
  }

  /**
   * So the delivery law fails for every source whose first and third block start differently:
   * the first frame of the third block is replaced by the first frame of the file.
   */
  lemma WithoutTimelinessItFails(c: Config)
    requires ValidConfig(c) && !c.clears
    requires FrameAt(c, 0) != FrameAt(c, 2 * FramesPerBlock(c))
    ensures var n, o := 2 * FramesPerBlock(c), Run(c, OnlyFrames(2 * FramesPerBlock(c) + 1));
            && |o.frames| == n + 1
            && o.frames[n] == FrameAt(c, 0) != FrameAt(c, n)
  {
    hide FrameAt, FramesPerBlock, Run, StaleIndex;
    var k := FramesPerBlock(c);
    var j := StaleBlocks(c, 2 * k + 1);
    StaleIndexAt(c, 2 * k, 2, 0);
    NextBlock(c, 0);
  }

  // ---------------------------------------------------------------- laps of a looped file

  /** `initialize_buffers`: the block that is not being read is fetched, then read, and the other one is fetched. */
  function Initialized(c: Config, st: StreamState): (r: StreamState)
    requires Shape(c, st)
    ensures Shape(c, r)
  {
    var next := FetchedTo(c, st.filePos);
    var first, second := Piece(c, st.filePos, c.blockSize), Piece(c, next, c.blockSize);
    st.(blocks := if st.readIndex == 0 then [second, first] else [first, second],
        readIndex := 1 - st.readIndex, backBufferReady := true, status := Ready, filePos := FetchedTo(c, next))
  }

  /** Where the file stands after a block has been fetched from `pos`. */
  function FetchedTo(c: Config, pos: nat): (p: nat)
    requires pos <= |c.source|
    ensures p <= |c.source|
  {
    if c.blockSize <= |c.source| - pos then pos + c.blockSize else |c.source|
  }

  /** After `reset`: silence, nothing ready, counters at zero; refills and file are not touched. */
  function ResetState(c: Config, st: StreamState): (r: StreamState)
    requires Shape(c, st)
    ensures Shape(c, r)
  {
    st.(blocks := [Zeros(c.blockSize), Zeros(c.blockSize)], readIndex := 0, backBufferReady := false, processed := 0, status := Idle)
  }

  /** A file that was closed with no refill under way. */
  ghost predicate Closed(c: Config, st: StreamState) {
    Shape(c, st) && st == ResetState(c, st) && st.filePos == 0 && st.refills == []
  }

  /** Filling the buffers of a closed file starts it again, `processed` frames late. */
  lemma InitializedIsInitial(c: Config, st: StreamState, k: nat)
    requires ValidConfig(c) && Closed(c, st)
    ensures Initialized(c, st.(processed := k)) == Initial(c).(processed := k)
  {
    var next := FetchedTo(c, 0);
    assert next == Position(c, 1) && FetchedTo(c, next) == Position(c, 2);
    assert Piece(c, 0, c.blockSize) == Block(c, 0);
    if next == |c.source| {
      SilentPiece(c, next);
      SilentPiece(c, 1 * c.blockSize);
    }
  }

  /** Behind the end of the source there is only silence. */
  lemma SilentPiece(c: Config, pos: nat)
    requires pos >= |c.source|
    ensures forall n: nat :: Piece(c, pos, n) == Zeros(n)
  {
  }

  /** How many frames are asked for. */
  function Requests(events: seq<Event>): (n: nat) {
    if events == [] then 0 else Requests(events[..|events| - 1]) + (if events[|events| - 1] == Frame then 1 else 0)
  }

  /** `k` frames of silence have been given, and there is no block to go on with. */
  ghost predicate Silent(c: Config, st: StreamState, k: nat)
    requires ValidConfig(c)
  {
    Shape(c, st) && st.blocks[st.readIndex] == Zeros(c.blockSize) && !st.backBufferReady && st.processed == k <= FramesPerBlock(c)
  }

  lemma SilentSlice(size: nat, at: nat, n: nat)
    requires at + n <= size
    ensures Zeros(size)[at..at + n] == Zeros(n)
  {
  }

  lemma SilentFrame(c: Config, st: StreamState, k: nat)
    requires ValidConfig(c) && Silent(c, st, k)
    ensures var (st', frame) := NextFrame(c, st);
            && st' == st.(processed := st'.processed, status := st'.status)
            && if k < FramesPerBlock(c) then frame == Some(Zeros(c.frameSize)) && Silent(c, st', k + 1) else frame == None && Silent(c, st', k)
  {
    hide FramesPerBlock;
    BlockEnd(c, st);
    if k < FramesPerBlock(c) {
      hide AtBlockEnd;
      FrameInBlock(c, 0, k);
      SilentSlice(c.blockSize, k * c.frameSize, c.frameSize);
    }
  }

  /**
   * A closed file that is not filled again gives as much silence as a block holds, and then every
   * request is an underrun, for ever.
   */
  lemma {:induction false} ClosedIsSilent(c: Config, st: StreamState, events: seq<Event>)
    requires ValidConfig(c) && Closed(c, st)
    ensures var o := RunFrom(c, st, events);
            && Silent(c, o.state, |o.frames|) && o.state.refills == []
            && |o.frames| == Min(Requests(events), FramesPerBlock(c))
            && forall i :: 0 <= i < |o.frames| ==> o.frames[i] == Zeros(c.frameSize)
  {
    hide FramesPerBlock, NextFrame;
    if events != [] {
      hide Silent;
      var pre, e := events[..|events| - 1], events[|events| - 1];
      ClosedIsSilent(c, st, pre);
      var o := RunFrom(c, st, pre);
      SilentFrame(c, o.state, |o.frames|);
    }
  }

  // ---------------------------------------------------------------- the first fetch of a lap

  /** `initialize_buffers` has captured the block that is not being read. */
  function Filling(c: Config, st: StreamState): (r: StreamState)
    requires Closed(c, st)
    ensures Shape(c, r)
  {
    st.(status := Initializing, refills := [Running(1, 0)])
  }

  /** While it fetches that block, frames are asked for and bytes arrive. */
  predicate OnlyWaiting(events: seq<Event>) {
    forall i :: 0 <= i < |events| ==> events[i].Frame? || events[i].Read?
  }

  /** `k` frames have been asked for; the block that is read is silent and nothing is ready. */
  ghost predicate Waiting(c: Config, st: StreamState, k: nat)
    requires ValidConfig(c)
  {
    && Silent(c, st, k) && st.readIndex == 0 && |st.refills| == 1
    && match st.refills[0]
       case Spawned => false
       case Running(t, d) => t == 1 && Filled(c, st.blocks[1], 0, d) && st.filePos == d
  }

  lemma WaitingFrame(c: Config, st: StreamState, k: nat)
    requires ValidConfig(c) && Waiting(c, st, k)
    ensures var (st', frame) := NextFrame(c, st);
            if k < FramesPerBlock(c) then frame == Some(Zeros(c.frameSize)) && Waiting(c, st', k + 1)
            else frame == None && Waiting(c, st', k)
  {
    hide FramesPerBlock, NextFrame;
    SilentFrame(c, st, k);
  }

  lemma WaitingRead(c: Config, st: StreamState, k: nat, e: Event)
    requires ValidConfig(c) && Waiting(c, st, k) && e.Read?
    ensures Waiting(c, RefillStep(c, st, e), k)
  {
    hide FramesPerBlock;
  }

  /** However the requests fall between the bytes, they get silence, at most one block of it. */
  lemma {:induction false} SilentWhileWaiting(c: Config, st: StreamState, events: seq<Event>)
    requires ValidConfig(c) && Closed(c, st) && OnlyWaiting(events)
    ensures var o := RunFrom(c, Filling(c, st), events);
            && Waiting(c, o.state, |o.frames|) && |o.frames| == Min(Requests(events), FramesPerBlock(c))
            && forall i :: 0 <= i < |o.frames| ==> o.frames[i] == Zeros(c.frameSize)
  {
    if events == [] {
      FillingWaits(c, st);
    } else {
      hide FramesPerBlock, NextFrame, RefillStep, Waiting, Closed, Filling;
      var pre, e := events[..|events| - 1], events[|events| - 1];
      SilentWhileWaiting(c, st, pre);
      var o := RunFrom(c, Filling(c, st), pre);
      if e == Frame {
        WaitingFrame(c, o.state, |o.frames|);
      } else {
        WaitingRead(c, o.state, |o.frames|, e);
      }
    }
  }

  lemma FillingWaits(c: Config, st: StreamState)
    requires ValidConfig(c) && Closed(c, st)
    ensures Waiting(c, Filling(c, st), 0)
  {
  }

  predicate FetchDone(c: Config, st: StreamState) {
    |st.refills| == 1 && st.refills[0].Running? && (st.refills[0].done == c.blockSize || st.filePos == |c.source|)
  }

  /** The first block has arrived: it is padded and the flag goes up. */
  function Flagged(c: Config, st: StreamState): (r: StreamState)
    requires Shape(c, st) && FetchDone(c, st)
    ensures Shape(c, r)
  {
    var t, d := st.refills[0].target, st.refills[0].done;
    st.(blocks := st.blocks[t := st.blocks[t][..d] + Zeros(c.blockSize - d)], backBufferReady := true, refills := [])
  }

  /** Then the coroutine swaps by itself, without touching the counter, and begins to fetch the other block. */
  function OwnSwap(c: Config, st: StreamState): (r: StreamState)
    requires Shape(c, st)
    ensures Shape(c, r)
  {
    st.(readIndex := 1 - st.readIndex, backBufferReady := st.backBufferReady && !c.clears,
        refills := st.refills + [Running(st.readIndex, 0)])
  }

  /** From there on the second fetch is a refill like any other, and frame requests may come at any time. */
  lemma SecondFetch(c: Config, st: StreamState, k: nat)
    requires ValidConfig(c) && Waiting(c, st, k) && FetchDone(c, st)
    ensures Shape(c, st) && Inv(c, OwnSwap(c, Flagged(c, st)), 0) && OwnSwap(c, Flagged(c, st)).processed == k
  {
    hide FramesPerBlock;
    FirstBlock(c, st, k);
    assert 0 * c.blockSize == 0 && 1 * c.blockSize == c.blockSize;
  }

  lemma FirstBlock(c: Config, st: StreamState, k: nat)
    requires ValidConfig(c) && Waiting(c, st, k) && FetchDone(c, st)
    ensures Flagged(c, st).blocks[1] == Block(c, 0) && st.filePos == Position(c, 1)
  {
    hide FramesPerBlock;
    assert 0 * c.blockSize == 0 && 1 * c.blockSize == c.blockSize;
  }

  /** When it is done, the lap is where a first fill would have put it, `processed` frames late. */
  lemma LapIsInitial(c: Config, st: StreamState)
    requires ValidConfig(c) && Inv(c, st, 0) && st.readIndex == 1 && st.refills == []
    ensures st.(status := Ready) == Initial(c).(processed := st.processed)
  {
  }

  /**
   * A looped file is closed and filled again in the background, while frames are asked for at any
   * time. What is asked for before the first block is there gets silence, at most a block of it, and
   * the lap goes on with the frame after as many: the beginning of the file is lost.
   */
  lemma LateLap(c: Config, st: StreamState, waiting: seq<Event>, events: seq<Event>) returns (j: nat)
    requires ValidConfig(c) && Closed(c, st) && OnlyWaiting(waiting)
    requires FetchDone(c, RunFrom(c, Filling(c, st), waiting).state)
    requires c.clears || TimelyFrom(c, OwnSwap(c, Flagged(c, RunFrom(c, Filling(c, st), waiting).state)), events)
    ensures var first := RunFrom(c, Filling(c, st), waiting);
            var lap := RunFrom(c, OwnSwap(c, Flagged(c, first.state)), events);
            && |first.frames| == Min(Requests(waiting), FramesPerBlock(c))
            && (forall i :: 0 <= i < |first.frames| ==> first.frames[i] == Zeros(c.frameSize))
            && (forall i :: 0 <= i < |lap.frames| ==> lap.frames[i] == FrameAt(c, |first.frames| + i))
            && Inv(c, lap.state, j) && Exclusive(lap.state)
  {
    hide *;
    SilentWhileWaiting(c, st, waiting);
    var first := RunFrom(c, Filling(c, st), waiting);
    j := RestOfLap(c, first.state, |first.frames|, events);
  }

  lemma RestOfLap(c: Config, st: StreamState, k: nat, events: seq<Event>) returns (j: nat)
    requires ValidConfig(c) && Waiting(c, st, k) && FetchDone(c, st)
    requires c.clears || TimelyFrom(c, OwnSwap(c, Flagged(c, st)), events)
    ensures var lap := RunFrom(c, OwnSwap(c, Flagged(c, st)), events);
            && (forall i :: 0 <= i < |lap.frames| ==> lap.frames[i] == FrameAt(c, k + i))
            && Inv(c, lap.state, j) && Exclusive(lap.state)
  {
    hide *;
    SecondFetch(c, st, k);
    FirstCount(c, k);
    j := DeliversFrom(c, OwnSwap(c, Flagged(c, st)), 0, events);
  }

  lemma FirstCount(c: Config, k: nat)
    requires ValidConfig(c)
    ensures Count(c, 0, k) == k
  {
    hide FramesPerBlock;
  }

  /**
   * The flag goes up before the coroutine swaps. A request that comes in between does no harm if
   * and only if the silent block is not used up: otherwise it swaps first and gets the beginning
   * of the file, and the coroutine swaps back to the silent block.
   */
  lemma RequestBeforeOwnSwap(c: Config, st: StreamState, k: nat)
    requires ValidConfig(c) && !c.clears && Waiting(c, st, k) && FetchDone(c, st)
    ensures var (st', frame) := NextFrame(c, Flagged(c, st));
            var after := OwnSwap(c, st');
            if k < FramesPerBlock(c) then
              frame == Some(Zeros(c.frameSize)) && Inv(c, after, 0) && after.processed == k + 1
            else
              && frame == Some(FrameAt(c, 0)) && after.processed == 1
              && after.blocks[after.readIndex] == Zeros(c.blockSize) && |after.refills| == 2
  {
    hide FramesPerBlock, FrameAt;
    var up := Flagged(c, st);
    BlockEnd(c, up);
    FirstBlock(c, st, k);
    assert 0 * c.blockSize == 0 && 1 * c.blockSize == c.blockSize;
    if k < FramesPerBlock(c) {
      FrameInBlock(c, 0, k);
      SilentSlice(c.blockSize, k * c.frameSize, c.frameSize);
    } else {
      FrameInBlock(c, 0, 0);
      NextBlock(c, 0);
    }
  }
}
