/** A file input: the file it opens, the buffer that streams it, and the frames the node plays. */
module FileInputs {
  import opened Bytes
  import opened AudioConfig
  import opened GraphNodes
  import opened AsyncBuffer
  import opened RtpStreamer
  import opened FileEffects
  import WavUtils

  /** The buffer of a file that was opened at `offset`; the server's sizes, and the flag as the code treats it. */
  function ConfigOf(file: seq<byte>, offset: nat): (c: Config)
    ensures ValidConfig(c) && |c.source| == if offset < |file| then |file| - offset else 0
    ensures forall i :: 0 <= i < |c.source| ==> c.source[i] == file[offset + i]
  {
    Config(BUFFER_SIZE, FRAME_SIZE_BYTES, if offset < |file| then file[offset..] else [], false)
  }

  /** The frames of a buffer as samples, before any effects. */
  function PlayOf(c: Config): nat -> Frame
    requires ValidConfig(c) && c.frameSize == FRAME_SIZE_BYTES
  {
    (k: nat) => Samples(FrameAt(c, k))
  }

  /** A file input that has opened its file: its length in frames and what it plays with its options applied. */
  method OpenNode(file: seq<byte>, options: Option<Effects>, change: real, maxDelay: nat) returns (n: Node, c: Config)
    requires maxDelay > 0
    ensures ValidConfig(c) && c.frameSize == FRAME_SIZE_BYTES && c.blockSize == BUFFER_SIZE && !c.clears
    ensures exists offset: nat :: c == ConfigOf(file, offset) && (file != [] ==> WavUtils.IsAudioOffset(WavUtils.Front(file), offset))
    ensures fresh(n) && n.kind == FileInput && n.total == |c.source| / FRAME_SIZE_BYTES
    ensures n.play == Effected(options, change, maxDelay, PlayOf(c))
  {
    hide WavUtils.IsAudioOffset, WavUtils.Front, PlayOf, Effected;
    var offset, totalFrames := WavUtils.Open(file);
    c := ConfigOf(file, offset);
    WholeFramesOf(|c.source|, totalFrames);
    n := new Node(FileInput, totalFrames, Effected(options, change, maxDelay, PlayOf(c)));
  }

  lemma WholeFramesOf(size: nat, frames: nat)
    requires frames * FRAME_SIZE_BYTES <= size < (frames + 1) * FRAME_SIZE_BYTES
    ensures frames == size / FRAME_SIZE_BYTES
  {
  }

  /** Whatever the interleaving: as long as refills are timely, the `k`-th frame out of the buffer is frame `k` of the node. */
  lemma BufferGivesTheFrames(c: Config, events: seq<Event>)
    requires ValidConfig(c) && c.frameSize == FRAME_SIZE_BYTES && (c.clears || Timely(c, events))
    ensures var frames := Run(c, events).frames;
            forall k :: 0 <= k < |frames| ==> Samples(frames[k]) == PlayOf(c)(k)
  {
    hide FrameAt, Samples, Run, Inv, Timely;
    var j := Delivers(c, events);
  }

  /**
   * And whatever the interleaving: a file that was closed and is not filled again gives a buffer of
   * silence and is then late, as the node model has it.
   */
  lemma ClosedFilePlays(c: Config, st: AsyncBuffer.StreamState, events: seq<Event>, s: Source)
    requires c.blockSize == BUFFER_SIZE && c.frameSize == FRAME_SIZE_BYTES && Closed(c, st) && !s.filled
    ensures var o := RunFrom(c, st, events);
            && |o.frames| == Min(Requests(events), FRAMES_PER_BUFFER)
            && (forall k :: 0 <= k < |o.frames| ==> Samples(o.frames[k]) == FrameFrom(s, k))
            && (NextFrame(c, o.state).1.None? <==> |o.frames| == FRAMES_PER_BUFFER)
  {
    ClosedIsSilent(c, st, events);
    var o := RunFrom(c, st, events);
    SilentFrame(c, o.state, |o.frames|);
    hide RunFrom, Silent, NextFrame;
    assert FramesPerBlock(c) == FRAMES_PER_BUFFER;
    forall k | 0 <= k < |o.frames|
      ensures Samples(o.frames[k]) == FrameFrom(s, k)
    {
      SilentSamples(o.frames[k]);
    }
  }

  // ---------------------------------------------------------------- the end of a file

  /** How many frames of a block begin within its first `rest` bytes. */
  function FramesWithin(n: nat, f: nat, rest: nat): (m: nat)
    requires f > 0
    ensures m <= n
  {
    if rest > n * f then n
    else
      CeilingBelow(n, f, rest);
      (rest + f - 1) / f
  }

  lemma CeilingBelow(n: nat, f: nat, rest: nat)
    requires f > 0 && rest <= n * f
    ensures (rest + f - 1) / f <= n
  {
    Division(rest + f - 1, f);
    MulBounds((rest + f - 1) / f - n, f);
    assert ((rest + f - 1) / f - n) * f == (rest + f - 1) / f * f - n * f;
  }

  lemma FramesWithinIff(n: nat, f: nat, rest: nat, p: nat)
    requires f > 0 && p < n
    ensures p < FramesWithin(n, f, rest) <==> p * f < rest
  {
    var m := (rest + f - 1) / f;
    Division(rest + f - 1, f);
    MulBounds(n - p, f);
    assert (n - p) * f == n * f - p * f;
    MulBounds(m - p, f);
    assert (m - p) * f == m * f - p * f;
  }

  /** Whole blocks of the source, and what is left behind them. */
  function Blocks(c: Config): nat
    requires ValidConfig(c)
  {
    |c.source| / c.blockSize
  }

  function Rest(c: Config): nat
    requires ValidConfig(c)
  {
    |c.source| % c.blockSize
  }

  /** How many frames begin before the end of the source. */
  function AudibleFrames(c: Config): nat
    requires ValidConfig(c)
  {
    Count(c, Blocks(c), FramesWithin(FramesPerBlock(c), c.frameSize, Rest(c)))
  }

  /** A frame is audible, at least in part, if and only if it begins within the source. */
  lemma AudibleIff(c: Config, k: nat)
    requires ValidConfig(c)
    ensures k < AudibleFrames(c) <==> StartOf(c, k) < |c.source|
  {
    Division(k, FramesPerBlock(c));
    AudibleInBlock(c, k / FramesPerBlock(c), k % FramesPerBlock(c));
  }

  lemma AudibleInBlock(c: Config, j: nat, p: nat)
    requires ValidConfig(c) && p < FramesPerBlock(c)
    ensures Count(c, j, p) < AudibleFrames(c) <==> StartOf(c, Count(c, j, p)) < |c.source|
  {
    hide *;
    var q, rest, n := Blocks(c), Rest(c), FramesPerBlock(c);
    AudibleParts(c, j, p, q, rest, n);
    AudiblePlace(j, p, q, rest, n, c.frameSize, c.blockSize);
  }

  lemma AudibleParts(c: Config, j: nat, p: nat, q: nat, rest: nat, n: nat)
    requires ValidConfig(c) && q == Blocks(c) && rest == Rest(c) && n == FramesPerBlock(c) && p < n
    ensures c.frameSize > 0 && Count(c, j, p) == j * n + p && AudibleFrames(c) == q * n + FramesWithin(n, c.frameSize, rest)
    ensures StartOf(c, Count(c, j, p)) == j * c.blockSize + p * c.frameSize && |c.source| == q * c.blockSize + rest && rest < c.blockSize
    ensures p * c.frameSize + c.frameSize <= n * c.frameSize <= c.blockSize
  {
    StartInBlock(c, j, p);
    hide FramesPerBlock, FramesWithin, StartOf;
    Division(|c.source|, c.blockSize);
  }

  lemma AudiblePlace(j: nat, p: nat, q: nat, rest: nat, n: nat, f: nat, b: nat)
    requires p < n && rest < b && f > 0 && p * f + f <= n * f <= b
    ensures j * n + p < q * n + FramesWithin(n, f, rest) <==> j * b + p * f < q * b + rest
  {
    FramesWithinIff(n, f, rest, p);
    hide FramesWithin;
    InOrder(j, q, n, p, FramesWithin(n, f, rest));
    InOrder(j, q, b, p * f, rest);
  }

  /** Frame `p` of block `j` comes before frame `m` of block `q`. */
  lemma InOrder(j: nat, q: nat, n: nat, p: nat, m: nat)
    requires p < n && m <= n
    ensures j * n + p < q * n + m <==> j < q || (j == q && p < m)
  {
    MulBounds(q - j, n);
    assert (q - j) * n == q * n - j * n;
  }

  /** From there on a node plays silence, up to its total. */
  lemma SilentEnd(c: Config, k: nat)
    requires ValidConfig(c) && c.frameSize == FRAME_SIZE_BYTES && k >= AudibleFrames(c)
    ensures PlayOf(c)(k) == Silence()
  {
    AudibleIff(c, k);
    SilentPiece(c, StartOf(c, k));
    SilentSamples(FrameAt(c, k));
  }

  lemma SilentSamples(pcm: seq<byte>)
    requires pcm == Zeros(FRAME_SIZE_BYTES)
    ensures Samples(pcm) == Silence()
  {
  }

  /**
   * A node counts as many frames as its bytes would fill, but 192 bytes of every block are skipped:
   * the difference is played as silence at the end.
   */
  lemma SilentCount(c: Config)
    requires ValidConfig(c) && c.blockSize == BUFFER_SIZE && c.frameSize == FRAME_SIZE_BYTES
    ensures var q, r := |c.source| / BUFFER_SIZE, |c.source| % BUFFER_SIZE;
            |c.source| / FRAME_SIZE_BYTES - AudibleFrames(c)
            == (192 * q + r) / FRAME_SIZE_BYTES - (if r > 409 * FRAME_SIZE_BYTES then 409 else (r + 319) / FRAME_SIZE_BYTES)
  {
    var l, q, r := |c.source|, |c.source| / BUFFER_SIZE, |c.source| % BUFFER_SIZE;
    Division(l, BUFFER_SIZE);
    assert FramesPerBlock(c) == 409;
    Division(192 * q + r, 320);
    ModUnique(l, 409 * q + (192 * q + r) / 320, (192 * q + r) % 320, 320);
  }

  /** From four blocks on, that is half a megabyte, the last frames of every file are silence. */
  lemma LongFilesEndInSilence(c: Config, k: nat)
    requires ValidConfig(c) && c.blockSize == BUFFER_SIZE && c.frameSize == FRAME_SIZE_BYTES && |c.source| >= 4 * BUFFER_SIZE
    requires k == |c.source| / FRAME_SIZE_BYTES - 1
    ensures PlayOf(c)(k) == Silence()
  {
    hide PlayOf, AudibleFrames;
    SilentCount(c);
    SilentEnd(c, k);
  }
}
