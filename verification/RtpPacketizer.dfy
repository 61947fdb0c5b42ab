/** Sequence numbers, roll-over counter and timestamps of the sending side. */
module RtpPacketizer {
  import opened Bytes
  import opened RtpPacket
  import opened CtrCipher

  const RTP_VERSION := 2

  /** The fields of a packetizer as a value. */
  datatype Sender = Sender(
    payloadType: byte,
    ssrc: word32,
    increment: word32,
    sequenceNum: word16,
    roc: word32,
    timestamp: word32)

  /** The encryption a packetizer is given, if any. */
  datatype Keys = Keys(cipher: BlockCipher, key: Block, baseIv: Block)

  function HeaderOf(s: Sender): (h: Header)
    ensures HeaderSize(h) == MINIMUM_HEADER_SIZE
  {
    Header(false, RTP_VERSION, s.payloadType, false, s.sequenceNum, s.timestamp, s.ssrc, [], None)
  }

  /** The roll-over counter is bumped before the index is formed from it. */
  function NextRoc(s: Sender): word32 {
    if (s.sequenceNum + 1) % 0x1_0000 == 0 then (s.roc + 1) % 0x1_0000_0000 else s.roc
  }

  function PacketIndex(s: Sender): (i: nat)
    ensures i < INDEX_RANGE
  {
    NextRoc(s) * 0x1_0000 + s.sequenceNum
  }

  /** The state after a call; the timestamp moves only when the packet was written. */
  function After(s: Sender, written: bool): Sender {
    s.(sequenceNum := (s.sequenceNum + 1) % 0x1_0000,
       roc := NextRoc(s),
       timestamp := if written then (s.timestamp + s.increment) % 0x1_0000_0000 else s.timestamp)
  }

  function Protect(keys: Option<Keys>, index: nat, payload: seq<byte>): (r: seq<byte>)
    requires index < INDEX_RANGE
    ensures |r| == |payload|
  {
    match keys
    case None => payload
    case Some(k) => Crypt(k.cipher, k.key, StartBlock(k.baseIv, index), payload)
  }

  function Datagram(s: Sender, keys: Option<Keys>, payload: seq<byte>): (d: seq<byte>)
    ensures |d| == MINIMUM_HEADER_SIZE + |payload|
  {
    Encode(Packet(HeaderOf(s), Protect(keys, PacketIndex(s), payload)))
  }

  // ---------------------------------------------------------------- the object

  function KeysOf(e: AesEncryption?): Option<Keys> {
    if e == null then None else Some(Keys(e.cipher, e.key, e.baseIv))
  }

  class Packetizer {
    const payloadType: byte
    const ssrc: word32
    const timestampIncrement: word32
    var sequenceNum: word16
    var roc: word32
    var timestamp: word32

    /** The first sequence number and timestamp are random. */
    constructor (payloadType: byte, ssrc: word32, timestampIncrement: word32, randomSeq: word16, randomTs: word32)
      ensures State() == Sender(payloadType, ssrc, timestampIncrement, randomSeq, 0, randomTs)
    {
      this.payloadType, this.ssrc, this.timestampIncrement := payloadType, ssrc, timestampIncrement;
      sequenceNum, roc, timestamp := randomSeq, 0, randomTs;
    }

    function State(): Sender
      reads this
    {
      Sender(payloadType, ssrc, timestampIncrement, sequenceNum, roc, timestamp)
    }

    /**
     * The payload lies at `src[off..off + len]`, in the output buffer itself when the caller
     * assembles in place. A buffer that is too small still costs a sequence number, and the
     * payload has been encrypted by then.
     */
    method Packetize(src: array<byte>, off: nat, len: nat, out: array<byte>, encryption: AesEncryption?)
      returns (size: nat)
      requires off + len <= src.Length
      requires src != out || off == MINIMUM_HEADER_SIZE || off >= MINIMUM_HEADER_SIZE + len
      modifies this, src, out
      ensures State() == old(After(State(), MINIMUM_HEADER_SIZE + len <= out.Length))
      ensures MINIMUM_HEADER_SIZE + len <= out.Length ==>
                size == MINIMUM_HEADER_SIZE + len &&
                out[..size] == old(Datagram(State(), KeysOf(encryption), src[off..off + len]))
      ensures MINIMUM_HEADER_SIZE + len > out.Length ==>
                size == 0 && (src != out ==> out[..] == old(out[..]))
      ensures src != out || off == MINIMUM_HEADER_SIZE ==>
                src[off..off + len] == old(Protect(KeysOf(encryption), PacketIndex(State()), src[off..off + len])) &&
                (MINIMUM_HEADER_SIZE + len <= out.Length ==> out[size..] == old(out[MINIMUM_HEADER_SIZE + len..]))
    {
      hide Protect, Encode;
      ghost var before := State();
      ghost var plain := src[off..off + len];
      var currentSeq := sequenceNum;
      sequenceNum := (sequenceNum + 1) % 0x1_0000;
      if sequenceNum == 0 {
        roc := (roc + 1) % 0x1_0000_0000;
      }
      var header := Header(false, RTP_VERSION, payloadType, false, currentSeq, timestamp, ssrc, [], None);
      EncryptPayload(src, off, len, roc * 0x1_0000 + currentSeq, encryption);
      ghost var cipherText := Protect(KeysOf(encryption), PacketIndex(before), plain);
      assert src[off..off + len] == cipherText;
      assert src == out ==> out[off + len..] == old(out[off + len..]);
      var written := ToBuffer(header, src, off, len, out);
      assert src != out ==> src[off..off + len] == cipherText;
      match written {
        case None =>
          return 0;
        case Some(n) =>
          timestamp := (timestamp + timestampIncrement) % 0x1_0000_0000;
          size := n;
          assert out[..size] == Encode(Packet(header, cipherText));
          PayloadOf(Packet(header, cipherText));
          assert off == MINIMUM_HEADER_SIZE && src == out ==> src[off..off + len] == out[..size][off..];
      }
    }

    method EncryptPayload(src: array<byte>, off: nat, len: nat, index: nat, encryption: AesEncryption?)
      requires off + len <= src.Length && index < INDEX_RANGE
      modifies src
      ensures src[..] == old(src[..off]) + Protect(KeysOf(encryption), index, old(src[off..off + len])) + old(src[off + len..])
    {
      hide Crypt, StartBlock;
      if encryption != null {
        var n := encryption.Encrypt(src, off, len, index);
      } else {
        assert src[..] == src[..off] + src[off..off + len] + src[off + len..];
      }
    }

    method UpdateTimestamp()
      modifies this
      ensures State() == old(State()).(timestamp := (old(timestamp) + timestampIncrement) % 0x1_0000_0000)
    {
      timestamp := (timestamp + timestampIncrement) % 0x1_0000_0000;
    }
  }

  // ---------------------------------------------------------------- whole runs

  /** The state after `n` calls that each had room for the packet. */
  function Run(s: Sender, n: nat): (r: Sender)
  {
    if n == 0 then s else After(Run(s, n - 1), true)
  }

  /** Roll-over counter and sequence number together. */
  function Extended(s: Sender): (e: nat)
    ensures e < INDEX_RANGE
  {
    s.roc * 0x1_0000 + s.sequenceNum
  }

  lemma AfterExtended(s: Sender, written: bool)
    ensures Extended(After(s, written)) == (Extended(s) + 1) % INDEX_RANGE
  {
  }

  /**
   * Packet `n` carries the low 16 bits of the extended number `s0 + n` and a timestamp `n`
   * increments on; both wrap, and so does the extended number at 2^48.
   */
  lemma RunNumbers(s: Sender, n: nat)
    ensures var r := Run(s, n);
            && r == s.(sequenceNum := r.sequenceNum, roc := r.roc, timestamp := r.timestamp)
            && Extended(r) == (Extended(s) + n) % INDEX_RANGE
            && r.sequenceNum == (s.sequenceNum + n) % 0x1_0000
            && r.timestamp == (s.timestamp + n * s.increment) % 0x1_0000_0000
  {
    hide Run, Extended;
    RunExtended(s, n);
    RunSequence(s, n);
    RunTimestamp(s, n);
  }

  lemma {:induction false} RunExtended(s: Sender, n: nat)
    ensures Extended(Run(s, n)) == (Extended(s) + n) % INDEX_RANGE
  {
    if n != 0 {
      RunExtended(s, n - 1);
      AfterExtended(Run(s, n - 1), true);
      hide Extended, After;
      ModAdd(Extended(s) + (n - 1), 1, INDEX_RANGE);
    }
  }

  lemma {:induction false} RunSequence(s: Sender, n: nat)
    ensures var r := Run(s, n);
            && r == s.(sequenceNum := r.sequenceNum, roc := r.roc, timestamp := r.timestamp)
            && r.sequenceNum == (s.sequenceNum + n) % 0x1_0000
  {
    hide NextRoc;
    if n != 0 {
      RunSequence(s, n - 1);
      ModAdd(s.sequenceNum + (n - 1), 1, 0x1_0000);
    }
  }

  lemma {:induction false} RunTimestamp(s: Sender, n: nat)
    ensures Run(s, n).increment == s.increment
    ensures Run(s, n).timestamp == (s.timestamp + n * s.increment) % 0x1_0000_0000
  {
    hide NextRoc;
    if n != 0 {
      RunTimestamp(s, n - 1);
      OneMoreTime(n - 1, s.increment);
      ModAdd(s.timestamp + (n - 1) * s.increment, s.increment, 0x1_0000_0000);
    }
  }

  lemma OneMoreTime(k: nat, d: nat)
    ensures (k + 1) * d == k * d + d
  {
  }

  /** The state after calls of which `written[i]` says whether there was room for the packet. */
  function RunCalls(s: Sender, written: seq<bool>): Sender {
    if written == [] then s else After(RunCalls(s, written[..|written| - 1]), written[|written| - 1])
  }

  function HowMany(written: seq<bool>): nat {
    if written == [] then 0 else HowMany(written[..|written| - 1]) + (if written[|written| - 1] then 1 else 0)
  }

  /** Every call costs a number, but only the ones that had room for the packet cost time. */
  lemma {:induction false} CallsCostNumbers(s: Sender, written: seq<bool>)
    ensures var r := RunCalls(s, written);
            && r.roc * 0x1_0000 + r.sequenceNum == (s.roc * 0x1_0000 + s.sequenceNum + |written|) % 0x1_0000_0000_0000
            && r.increment == s.increment
            && r.timestamp == (s.timestamp + HowMany(written) * s.increment) % 0x1_0000_0000
  {
    hide After;
    CallsExtended(s, written);
    CallsTimestamp(s, written);
  }

  lemma {:induction false} CallsExtended(s: Sender, written: seq<bool>)
    ensures Extended(RunCalls(s, written)) == (Extended(s) + |written|) % INDEX_RANGE
  {
    hide Extended, After;
    if written != [] {
      var n := |written| - 1;
      CallsExtended(s, written[..n]);
      AfterExtended(RunCalls(s, written[..n]), written[n]);
      ModAdd(Extended(s) + n, 1, INDEX_RANGE);
    } else {
      SmallResidue(s);
    }
  }

  lemma SmallResidue(s: Sender)
    ensures Extended(s) % INDEX_RANGE == Extended(s)
  {
  }

  lemma {:induction false} CallsTimestamp(s: Sender, written: seq<bool>)
    ensures RunCalls(s, written).increment == s.increment
    ensures RunCalls(s, written).timestamp == (s.timestamp + HowMany(written) * s.increment) % 0x1_0000_0000
  {
    hide NextRoc;
    if written != [] {
      var n := |written| - 1;
      var k := HowMany(written[..n]);
      CallsTimestamp(s, written[..n]);
      OneMoreTime(k, s.increment);
      ModAdd(s.timestamp + k * s.increment, s.increment, 0x1_0000_0000);
    }
  }

  /** The index that an extended number is encrypted under. */
  function IndexOf(e: nat): (i: nat)
    ensures i < INDEX_RANGE
  {
    if e % 0x1_0000 == 0xFFFF then (e + 0x1_0000) % INDEX_RANGE else e % INDEX_RANGE
  }

  /**
   * The index law: the extended number itself, except that the last packet before a wrap is
   * already encrypted under the next roll-over counter.
   */
  lemma RunIndex(s: Sender, n: nat)
    ensures PacketIndex(Run(s, n)) == IndexOf(Extended(s) + n)
  {
    hide Run, NextRoc, PacketIndex;
    RunNumbers(s, n);
    var r, e := Run(s, n), Extended(s) + n;
    LowBits(e);
    IndexFromState(r);
    ModAdd(e, 0x1_0000, INDEX_RANGE);
  }

  lemma IndexFromState(r: Sender)
    ensures r.sequenceNum == 0xFFFF ==> PacketIndex(r) == (Extended(r) + 0x1_0000) % INDEX_RANGE
    ensures r.sequenceNum != 0xFFFF ==> PacketIndex(r) == Extended(r)
    ensures Extended(r) % 0x1_0000 == r.sequenceNum
  {
  }

  lemma IndexInjective(e1: nat, e2: nat)
    requires -INDEX_RANGE < e1 - e2 < INDEX_RANGE
    ensures IndexOf(e1) == IndexOf(e2) <==> e1 == e2
  {
    if IndexOf(e1) == IndexOf(e2) {
      IndexLow(e1);
      IndexLow(e2);
      if e1 % 0x1_0000 == 0xFFFF {
        SameResidue(e1 + 0x1_0000, e2 + 0x1_0000, INDEX_RANGE);
      } else {
        SameResidue(e1, e2, INDEX_RANGE);
      }
    }
  }

  lemma IndexLow(e: nat)
    ensures IndexOf(e) % 0x1_0000 == e % 0x1_0000
  {
    LowBits(e);
    LowBits(e + 0x1_0000);
    assert (e + 0x1_0000) % 0x1_0000 == e % 0x1_0000;
  }

  /**
   * Among any 2^48 consecutive packets under one key and salt, with at most 2^16 blocks each,
   * no counter block is used twice.
   */
  lemma NoCounterBlockReused(s: Sender, baseIv: Block, n1: nat, j1: nat, n2: nat, j2: nat)
    requires -INDEX_RANGE < n1 - n2 < INDEX_RANGE && j1 < 0x1_0000 && j2 < 0x1_0000
    ensures CounterBlock(StartBlock(baseIv, PacketIndex(Run(s, n1))), j1)
            == CounterBlock(StartBlock(baseIv, PacketIndex(Run(s, n2))), j2)
            <==> n1 == n2 && j1 == j2
  {
    hide CounterBlock, StartBlock, Run, IndexOf;
    RunIndex(s, n1);
    RunIndex(s, n2);
    IndexInjective(Extended(s) + n1, Extended(s) + n2);
    CounterBlocksDistinct(baseIv, PacketIndex(Run(s, n1)), j1, PacketIndex(Run(s, n2)), j2);
  }
}
