/** Frames to datagrams: codec, in-place assembly, and the ring of packet buffers. */
module RtpStreamer {
  import opened Bytes
  import opened AudioConfig
  import opened RtpPacket
  import opened CtrCipher
  import opened RtpPacketizer
  import opened KeyDerivation
  import opened Alaw

  const RING_BUFFER_SIZE := 16
  const SLOT_SIZE := MINIMUM_HEADER_SIZE + FRAME_SIZE_BYTES
  const PCMA: byte := 8

  // ---------------------------------------------------------------- the codec

  /** Bytes as native (little-endian) 16-bit samples; an odd last byte is ignored. */
  function Samples(pcm: seq<byte>): (s: seq<int16>)
    ensures |s| == |pcm| / 2
  {
    seq(|pcm| / 2, i requires 0 <= i < |pcm| / 2 => SampleAt(pcm, i))
  }

  function SampleAt(pcm: seq<byte>, i: nat): int16
    requires i < |pcm| / 2
  {
    var lo: int, hi: int := pcm[2 * i], pcm[2 * i + 1];
    ToSigned(lo + 0x100 * hi)
  }

  /** A sample is its two bytes, the low one first, as a number modulo 2^16. */
  lemma SampleIsLittleEndian(pcm: seq<byte>, i: nat)
    requires i < |pcm| / 2
    ensures |Samples(pcm)| == |pcm| / 2 && (Samples(pcm)[i] - FromLe(pcm[2 * i..2 * i + 2])) % 0x1_0000 == 0
  {
    var two := pcm[2 * i..2 * i + 2];
    assert two[1..] == [pcm[2 * i + 1]] && two[1..][1..] == [];
    assert FromLe([pcm[2 * i + 1]]) == pcm[2 * i + 1];
  }

  /** Samples as native bytes, which is how frames are handed over. */
  function Pcm(samples: seq<int16>): (pcm: seq<byte>)
    ensures |pcm| == 2 * |samples|
  {
    seq<byte>(2 * |samples|, i requires 0 <= i < 2 * |samples| => PcmByte(samples[i / 2], i % 2))
  }

  function PcmByte(x: int16, i: nat): byte {
    if i == 0 then x % 0x100 else x / 0x100 % 0x100
  }

  lemma SamplesOfPcm(samples: seq<int16>)
    ensures Samples(Pcm(samples)) == samples
  {
    forall i | 0 <= i < |samples|
      ensures SampleAt(Pcm(samples), i) == samples[i]
    {
      assert 2 * i / 2 == i && (2 * i + 1) / 2 == i && 2 * i % 2 == 0 && (2 * i + 1) % 2 == 1;
      BytesOfSample(samples[i]);
    }
  }

  lemma BytesOfSample(x: int16)
    ensures var lo: int, hi: int := PcmByte(x, 0), PcmByte(x, 1);
            ToSigned(lo + 0x100 * hi) == x
  {
  }

  function TimestampIncrement(pcmByteSize: nat): word32 {
    pcmByteSize / 2 % 0x1_0000_0000
  }

  /** The A-law strategy: one byte per sample, or 0 when the output has no room. */
  method CodecEncode(pcm: seq<byte>, out: array<byte>, off: nat) returns (n: nat)
    requires off <= out.Length
    modifies out
    ensures n == if |pcm| / 2 > out.Length - off then 0 else |pcm| / 2
    ensures out[..] == old(out[..off]) + EncodeAll(Samples(pcm))[..n] + old(out[off + n..])
  {
    var sampleCount := |pcm| / 2;
    if out.Length - off < sampleCount {
      assert out[..] == out[..off] + [] + out[off..];
      return 0;
    }
    EncodeAlaw(Samples(pcm), out, off);
    n := sampleCount;
  }

  /** Encodes behind the header space and then packetizes in place. */
  method PacketToRtp(pcm: seq<byte>, packetizer: Packetizer, encryption: AesEncryption?, out: array<byte>)
    returns (size: nat)
    modifies packetizer, out
    ensures var n := |pcm| / 2;
            if 0 < n <= out.Length - MINIMUM_HEADER_SIZE then
              && size == MINIMUM_HEADER_SIZE + n
              && packetizer.State() == After(old(packetizer.State()), true)
              && out[..] == Datagram(old(packetizer.State()), KeysOf(encryption), EncodeAll(Samples(pcm))) + old(out[MINIMUM_HEADER_SIZE + n..])
            else
              size == 0 && packetizer.State() == old(packetizer.State()) && out[..] == old(out[..])
  {
    hide Datagram, After, EncodeAll, Samples, Protect, PacketIndex;
    if out.Length < MINIMUM_HEADER_SIZE {
      return 0;
    }
    var encodedSize := CodecEncode(pcm, out, MINIMUM_HEADER_SIZE);
    if encodedSize == 0 {
      assert out[..] == old(out[..MINIMUM_HEADER_SIZE]) + old(out[MINIMUM_HEADER_SIZE..]) == old(out[..]);
      return 0;
    }
    ghost var rest := old(out[MINIMUM_HEADER_SIZE + |pcm| / 2..]);
    assert EncodeAll(Samples(pcm))[..encodedSize] == EncodeAll(Samples(pcm));
    assert out[MINIMUM_HEADER_SIZE..MINIMUM_HEADER_SIZE + encodedSize] == EncodeAll(Samples(pcm));
    assert out[MINIMUM_HEADER_SIZE + encodedSize..] == rest;
    size := packetizer.Packetize(out, MINIMUM_HEADER_SIZE, encodedSize, out, encryption);
    assert out[..] == out[..size] + out[size..];
  }

  // ---------------------------------------------------------------- the streamer

  datatype StreamState = StreamState(sender: Sender, ring: seq<seq<byte>>, ringIndex: nat)

  predicate ValidState(st: StreamState) {
    && |st.ring| == RING_BUFFER_SIZE && st.ringIndex < RING_BUFFER_SIZE
    && forall j :: 0 <= j < RING_BUFFER_SIZE ==> |st.ring[j]| == SLOT_SIZE
  }

  /** One frame with clients present: the slot moves on even when nothing can be sent. */
  function SendStep(st: StreamState, keys: Option<Keys>, pcm: seq<byte>): (r: StreamState)
    requires ValidState(st)
    ensures ValidState(r)
  {
    var n := |pcm| / 2;
    var moved := st.(ringIndex := (st.ringIndex + 1) % RING_BUFFER_SIZE);
    if 0 < n <= FRAME_SIZE_BYTES then
      var slot := Datagram(st.sender, keys, EncodeAll(Samples(pcm))) + st.ring[st.ringIndex][MINIMUM_HEADER_SIZE + n..];
      moved.(sender := After(st.sender, true), ring := st.ring[st.ringIndex := slot])
    else moved
  }

  /** What is handed to the socket. */
  function SentOf(st: StreamState, keys: Option<Keys>, pcm: seq<byte>): Option<seq<byte>> {
    if 0 < |pcm| / 2 <= FRAME_SIZE_BYTES then Some(Datagram(st.sender, keys, EncodeAll(Samples(pcm)))) else None
  }

  ghost function Contents(slots: seq<array<byte>>): (r: seq<seq<byte>>)
    reads slots
    ensures |r| == |slots| && forall j :: 0 <= j < |slots| ==> r[j] == slots[j][..]
  {
    if slots == [] then [] else Contents(slots[..|slots| - 1]) + [slots[|slots| - 1][..]]
  }

  class Streamer {
    const packetizer: Packetizer
    const ring: seq<array<byte>>
    var ringIndex: nat
    var encryptor: AesEncryption?
    var clientCount: nat

    ghost predicate Valid()
      reads this
    {
      && |ring| == RING_BUFFER_SIZE && ringIndex < RING_BUFFER_SIZE
      && (forall j :: 0 <= j < |ring| ==> ring[j].Length == SLOT_SIZE)
      && (forall i, j :: 0 <= i < j < |ring| ==> ring[i] != ring[j])
    }

    ghost function State(): (st: StreamState)
      requires Valid()
      reads this, packetizer, ring
      ensures ValidState(st)
    {
      StreamState(packetizer.State(), Contents(ring), ringIndex)
    }

    constructor (ssrc: word32, randomSeq: word16, randomTs: word32)
      ensures Valid() && encryptor == null && clientCount == 0 && ringIndex == 0
      ensures packetizer.State() == Sender(8, ssrc, 160, randomSeq, 0, randomTs)
      ensures fresh(packetizer) && forall a :: a in ring ==> fresh(a)
    {
      var p := new Packetizer(PCMA, ssrc, TimestampIncrement(FRAME_SIZE_BYTES), randomSeq, randomTs);
      var slots: seq<array<byte>> := [];
      for i := 0 to RING_BUFFER_SIZE
        invariant |slots| == i
        invariant forall j :: 0 <= j < i ==> fresh(slots[j]) && slots[j].Length == SLOT_SIZE
        invariant forall j, k :: 0 <= j < k < i ==> slots[j] != slots[k]
        invariant p.State() == Sender(PCMA, ssrc, TimestampIncrement(FRAME_SIZE_BYTES), randomSeq, 0, randomTs)
      {
        var slot := new byte[SLOT_SIZE];
        slots := slots + [slot];
      }
      packetizer, ring, ringIndex, encryptor, clientCount := p, slots, 0, null, 0;
    }

    method SetupSecurity(secrets: Secrets)
      modifies this`encryptor
      ensures encryptor != null && fresh(encryptor)
      ensures KeysOf(encryptor) == Some(Keys(secrets.cipher, SessionKey(secrets, packetizer.ssrc), BaseIv(secrets.salt, packetizer.ssrc)))
    {
      var iv := DeriveIv(secrets.salt, packetizer.ssrc);
      encryptor := new AesEncryption(secrets.cipher, SessionKey(secrets, packetizer.ssrc), iv);
    }

    /** Returns the bytes that are handed to the socket for every client. */
    method SendFrame(pcm: seq<byte>) returns (sent: Option<seq<byte>>)
      requires Valid()
      modifies this`ringIndex, packetizer, ring
      ensures Valid()
      ensures clientCount == 0 ==> State() == old(State()) && sent == None
      ensures clientCount > 0 ==> State() == SendStep(old(State()), KeysOf(encryptor), pcm)
      ensures sent == if clientCount > 0 then SentOf(old(State()), KeysOf(encryptor), pcm) else None
    {
      hide Datagram, After, EncodeAll, Samples;
      if clientCount == 0 {
        return None;
      }
      ghost var before := State();
      var slot := ring[ringIndex];
      ghost var i := ringIndex;
      ringIndex := (ringIndex + 1) % RING_BUFFER_SIZE;
      var packetSize := PacketToRtp(pcm, packetizer, encryptor, slot);
      assert forall j :: 0 <= j < |ring| && j != i ==> ring[j][..] == before.ring[j];
      assert State().ring == before.ring[i := slot[..]];
      if packetSize == 0 {
        return None;
      }
      sent := Some(slot[..packetSize]);
    }
  }

  // ---------------------------------------------------------------- whole runs

  function StreamRun(st: StreamState, keys: Option<Keys>, frames: seq<seq<byte>>): (r: StreamState)
    requires ValidState(st)
    ensures ValidState(r)
  {
    if frames == [] then st else SendStep(StreamRun(st, keys, frames[..|frames| - 1]), keys, frames[|frames| - 1])
  }

  /** Everything that has gone out; empty and oversized frames have not. */
  function OnWire(st: StreamState, keys: Option<Keys>, frames: seq<seq<byte>>): (wire: seq<seq<byte>>)
    requires ValidState(st)
  {
    if frames == [] then []
    else
      var pre := frames[..|frames| - 1];
      var sent := SentOf(StreamRun(st, keys, pre), keys, frames[|frames| - 1]);
      OnWire(st, keys, pre) + (if sent.Some? then [sent.value] else [])
  }

  predicate FullFrames(frames: seq<seq<byte>>) {
    forall k :: 0 <= k < |frames| ==> |frames[k]| == FRAME_SIZE_BYTES
  }

  /** The datagram of the `k`-th frame of a run. */
  function FrameDatagram(s: Sender, keys: Option<Keys>, frames: seq<seq<byte>>, k: nat): seq<byte>
    requires k < |frames|
  {
    Datagram(Run(s, k), keys, EncodeAll(Samples(frames[k])))
  }

  /** The slot of frame `k` still holds its datagram until sixteen later frames have been sent. */
  lemma {:induction false} RingKeepsSixteen(st: StreamState, keys: Option<Keys>, frames: seq<seq<byte>>)
    requires ValidState(st) && FullFrames(frames)
    ensures var r := StreamRun(st, keys, frames);
            && r.sender == Run(st.sender, |frames|)
            && r.ringIndex == (st.ringIndex + |frames|) % RING_BUFFER_SIZE
            && forall k :: 0 <= k < |frames| && |frames| - k <= RING_BUFFER_SIZE ==>
                 r.ring[(st.ringIndex + k) % RING_BUFFER_SIZE][..172] == FrameDatagram(st.sender, keys, frames, k)
  {
    hide Datagram, EncodeAll, Samples, After;
    if frames != [] {
      var n := |frames| - 1;
      var pre := frames[..n];
      RingKeepsSixteen(st, keys, pre);
      var p, r := StreamRun(st, keys, pre), StreamRun(st, keys, frames);
      var d := FrameDatagram(st.sender, keys, frames, n);
      assert |d| == 172 && r == SendStep(p, keys, frames[n]);
      ModAdd(st.ringIndex + n, 1, RING_BUFFER_SIZE);
      forall k | 0 <= k <= n && n + 1 - k <= RING_BUFFER_SIZE
        ensures r.ring[(st.ringIndex + k) % RING_BUFFER_SIZE][..172] == FrameDatagram(st.sender, keys, frames, k)
      {
        if k < n {
          SlotsDiffer(st.ringIndex, k, n);
          assert FrameDatagram(st.sender, keys, frames, k) == FrameDatagram(st.sender, keys, pre, k);
        } else {
          assert r.ring[p.ringIndex][..172] == d;
        }
      }
    }
  }

  /** Whatever the frames are, every one takes a slot of the ring, and the sender counts exactly those that go out. */
  lemma {:induction false} SlotsAndNumbers(st: StreamState, keys: Option<Keys>, frames: seq<seq<byte>>)
    requires ValidState(st)
    ensures var r := StreamRun(st, keys, frames);
            r.ringIndex == (st.ringIndex + |frames|) % 16 && r.sender == Run(st.sender, |OnWire(st, keys, frames)|)
  {
    hide Datagram, EncodeAll, Samples, After;
    if frames != [] {
      var n := |frames| - 1;
      SlotsAndNumbers(st, keys, frames[..n]);
      ModAdd(st.ringIndex + n, 1, 16);
    }
  }

  /** Full frames go out one datagram each, numbered by the sender. */
  lemma {:induction false} WireOfFrames(st: StreamState, keys: Option<Keys>, frames: seq<seq<byte>>)
    requires ValidState(st) && FullFrames(frames)
    ensures var wire := OnWire(st, keys, frames);
            |wire| == |frames| && forall k :: 0 <= k < |frames| ==> wire[k] == FrameDatagram(st.sender, keys, frames, k)
  {
    hide Datagram, EncodeAll, Samples, After, Run, SendStep;
    if frames != [] {
      var n := |frames| - 1;
      WireOfFrames(st, keys, frames[..n]);
      RingKeepsSixteen(st, keys, frames[..n]);
    }
  }

  lemma SlotsDiffer(i: nat, k: nat, n: nat)
    requires k < n && n - k < RING_BUFFER_SIZE
    ensures (i + k) % RING_BUFFER_SIZE != (i + n) % RING_BUFFER_SIZE
  {
    if (i + k) % RING_BUFFER_SIZE == (i + n) % RING_BUFFER_SIZE {
      SameResidue(i + k, i + n, RING_BUFFER_SIZE);
    }
  }

  /** What a peer parses out of the `k`-th datagram of a stream that was set up for A-law. */
  lemma FrameHeader(s: Sender, keys: Option<Keys>, frames: seq<seq<byte>>, k: nat)
    requires k < |frames| && FullFrames(frames)
    requires s.payloadType == 8 && s.increment == 160
    ensures var d := FrameDatagram(s, keys, frames, k);
            && |d| == 172
            && Decode(d) == Some(Packet(
                 Header(false, 2, 8, false, (s.sequenceNum + k) % 0x1_0000, (s.timestamp + 160 * k) % 0x1_0000_0000, s.ssrc, [], None),
                 Protect(keys, PacketIndex(Run(s, k)), EncodeAll(Samples(frames[k])))))
  {
    hide Encode, Decode, Protect, PacketIndex, EncodeAll, Samples, Run, Extended, HeaderSize;
    HeaderOfFrame(s, k);
    var r := Run(s, k);
    var p := Packet(HeaderOf(r), Protect(keys, PacketIndex(r), EncodeAll(Samples(frames[k]))));
    hide HeaderOf;
    EncodeThenDecode(p);
  }

  lemma HeaderOfFrame(s: Sender, k: nat)
    requires s.payloadType == 8 && s.increment == 160
    ensures HeaderOf(Run(s, k))
            == Header(false, 2, 8, false, (s.sequenceNum + k) % 0x1_0000, (s.timestamp + 160 * k) % 0x1_0000_0000, s.ssrc, [], None)
    ensures FitsWire(HeaderOf(Run(s, k)))
  {
    hide Run, Extended;
    RunNumbers(s, k);
    assert k * s.increment == 160 * k;
  }
}
