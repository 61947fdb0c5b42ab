/** The objects of double-buffered streaming, method by method against the steps of the protocol. */
module BufferController {
  import opened Bytes
  import opened AsyncBuffer

  class DoubleBuffer {
    const block0: array<byte>
    const block1: array<byte>
    var readIndex: nat
    var backBufferReady: bool

    constructor (size: nat)
      ensures fresh(block0) && fresh(block1) && block0 != block1
      ensures block0.Length == size == block1.Length && block0[..] == Zeros(size) == block1[..]
      ensures readIndex == 0 && !backBufferReady
    {
      block0 := new byte[size](_ => 0);
      block1 := new byte[size](_ => 0);
      readIndex, backBufferReady := 0, false;
    }

    function Span(i: nat): array<byte> {
      if i == 0 then block0 else block1
    }

    method GetReadSpan() returns (span: array<byte>)
      ensures span == Span(readIndex)
    {
      span := Span(readIndex);
    }

    /** The producer never gets the block that is being read. */
    method GetWriteSpan() returns (span: array<byte>)
      requires readIndex < 2
      ensures span == Span(1 - readIndex) && {span, Span(readIndex)} == {block0, block1}
      ensures block0 != block1 ==> span != Span(readIndex)
    {
      span := Span(1 - readIndex);
    }

    /** Reader and writer exchange their blocks. */
    method Swap()
      requires readIndex < 2
      modifies this`readIndex
      ensures readIndex == 1 - old(readIndex)
      ensures Span(readIndex) == old(Span(1 - readIndex)) && Span(1 - readIndex) == old(Span(readIndex))
    {
      readIndex := 1 - readIndex;
    }

    method Reset()
      modifies this, block0, block1
      ensures readIndex == 0 && !backBufferReady
      ensures block0[..] == Zeros(block0.Length) && block1[..] == Zeros(block1.Length)
    {
      readIndex, backBufferReady := 0, false;
      FillZero(block0, 0);
      FillZero(block1, 0);
    }
  }

  class AsyncBufferController {
    const config: Config
    const bf: DoubleBuffer
    var filePos: nat
    var refills: seq<Refill>
    var inBufferProcessedFrames: nat
    var state: BufferState

    ghost predicate Valid()
      reads this, bf, bf.block0, bf.block1
    {
      && ValidConfig(config) && bf.block0 != bf.block1
      && Shape(config, View())
    }

    ghost function View(): StreamState
      reads this, bf, bf.block0, bf.block1
    {
      StreamState([bf.block0[..], bf.block1[..]], bf.readIndex, bf.backBufferReady, inBufferProcessedFrames,
                  state, filePos, refills)
    }

    constructor (config: Config)
      requires ValidConfig(config)
      ensures Valid() && this.config == config && fresh(bf) && fresh(bf.block0) && fresh(bf.block1)
      ensures View() == StreamState([Zeros(config.blockSize), Zeros(config.blockSize)], 0, false, 0, Idle, 0, [])
    {
      this.config := config;
      bf := new DoubleBuffer(config.blockSize);
      filePos, refills, inBufferProcessedFrames, state := 0, [], 0, Idle;
    }

    /** Reads as many bytes as fit and the file still has. */
    method Fetch(span: array<byte>) returns (n: nat)
      requires filePos <= |config.source|
      modifies this`filePos, span
      ensures n == (if span.Length <= |config.source| - old(filePos) then span.Length else |config.source| - old(filePos))
      ensures filePos == old(filePos) + n
      ensures span[..] == config.source[old(filePos)..old(filePos) + n] + old(span[n..])
    {
      n := if span.Length <= |config.source| - filePos then span.Length else |config.source| - filePos;
      Put(span, 0, config.source[filePos..filePos + n]);
      filePos := filePos + n;
    }

    /** A whole block from where the file stands, filled up with silence. */
    method FetchBlock(span: array<byte>)
      requires filePos <= |config.source| && span.Length == config.blockSize
      modifies this`filePos, span
      ensures filePos == FetchedTo(config, old(filePos)) && span[..] == Piece(config, old(filePos), config.blockSize)
    {
      ghost var start := filePos;
      var bytes := Fetch(span);
      if bytes < span.Length {
        FillZero(span, bytes);
      }
      forall i | 0 <= i < config.blockSize
        ensures span[i] == ByteAt(config, start + i)
      {
      }
    }

    /** The first fill, and the fill that a looped file starts when it has been closed. */
    method InitializeBuffers()
      requires Valid()
      modifies this, bf, bf.block0, bf.block1
      ensures Valid() && View() == Initialized(config, old(View()))
    {
      hide Piece;
      state := Initializing;
      var span1 := bf.GetWriteSpan();
      FetchBlock(span1);
      bf.backBufferReady := true;
      bf.Swap();
      var span2 := bf.GetWriteSpan();
      FetchBlock(span2);
      bf.backBufferReady := true;
      state := Ready;
    }

    method GetFrame(output: array<byte>) returns (ok: bool)
      requires Valid() && output.Length == config.frameSize
      requires output != bf.block0 && output != bf.block1
      modifies this, bf, output
      ensures Valid()
      ensures var (st, frame) := NextFrame(config, old(View()));
              View() == st && ok == frame.Some? &&
              output[..] == if ok then frame.value else Zeros(config.frameSize)
    {
      var span := bf.GetReadSpan();
      var bufferOffset := inBufferProcessedFrames * config.frameSize;
      if bufferOffset + config.frameSize > span.Length {
        if !bf.backBufferReady {
          state := Underrun;
          FillZero(output, 0);
          return false;
        }
        SwapAndTriggerRefill();
        span := bf.GetReadSpan();
        bufferOffset := 0;
      }
      CopyOut(span, bufferOffset, output);
      ok := true;
    }

    /** The copy at the end of `get_frame`. */
    method CopyOut(span: array<byte>, bufferOffset: nat, output: array<byte>)
      requires Valid() && output.Length == config.frameSize && output != bf.block0 && output != bf.block1
      requires span == bf.Span(bf.readIndex) && bufferOffset == inBufferProcessedFrames * config.frameSize
      requires bufferOffset + config.frameSize <= span.Length
      modifies this`inBufferProcessedFrames, output
      ensures Valid() && View() == old(View()).(processed := old(inBufferProcessedFrames) + 1)
      ensures output[..] == old(View()).blocks[old(View()).readIndex][bufferOffset..bufferOffset + config.frameSize]
    {
      Put(output, 0, span[bufferOffset..bufferOffset + config.frameSize]);
      inBufferProcessedFrames := inBufferProcessedFrames + 1;
    }

    method SwapAndTriggerRefill()
      requires Valid()
      modifies this, bf
      ensures Valid() && View() == Swapped(config, old(View()))
    {
      bf.Swap();
      if config.clears {
        bf.backBufferReady := false;
      }
      inBufferProcessedFrames := 0;
      refills := refills + [Spawned];
    }

    /** The refill coroutine up to its first suspension. */
    method StartRefill(i: nat)
      requires Valid()
      modifies this
      ensures Valid() && View() == RefillStep(config, old(View()), Start(i))
    {
      if i < |refills| && refills[i] == Spawned {
        refills := refills[i := Running(1 - bf.readIndex, 0)];
      }
    }

    /** Any part of the read that the coroutine waits for. */
    method ContinueRefill(i: nat, n: nat)
      requires Valid()
      modifies this, bf.block0, bf.block1
      ensures Valid() && View() == RefillStep(config, old(View()), Read(i, n))
    {
      if i < |refills| && refills[i].Running? && refills[i].done + n <= config.blockSize && filePos + n <= |config.source| {
        var span, d := bf.Span(refills[i].target), refills[i].done;
        Put(span, d, config.source[filePos..filePos + n]);
        refills := refills[i := Running(refills[i].target, d + n)];
        filePos := filePos + n;
      }
    }

    /** The rest of the coroutine once the read has returned. */
    method FinishRefill(i: nat)
      requires Valid()
      modifies this, bf, bf.block0, bf.block1
      ensures Valid() && View() == RefillStep(config, old(View()), Finish(i))
    {
      if i < |refills| && refills[i].Running? && (refills[i].done == config.blockSize || filePos == |config.source|) {
        var span, bytesRead := bf.Span(refills[i].target), refills[i].done;
        if bytesRead < span.Length {
          FillZero(span, bytesRead);
          if bytesRead == 0 {
            state := EndOfStream;
          }
        }
        bf.backBufferReady := true;
        refills := refills[..i] + refills[i + 1..];
        assert span[..] == old(span[..bytesRead]) + Zeros(config.blockSize - bytesRead);
      }
    }

    method Reset()
      requires Valid()
      modifies this, bf, bf.block0, bf.block1
      ensures Valid() && View() == ResetState(config, old(View()))
    {
      bf.Reset();
      inBufferProcessedFrames := 0;
      state := Idle;
    }

    /** Closing the file of a node: the next fetch opens it again at its first sample. */
    method CloseFile()
      requires Valid()
      modifies this, bf, bf.block0, bf.block1
      ensures Valid() && View() == ResetState(config, old(View())).(filePos := 0)
      ensures old(refills) == [] ==> Closed(config, View())
    {
      filePos := 0;
      Reset();
    }
  }
}
