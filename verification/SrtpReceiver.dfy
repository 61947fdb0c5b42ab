/** The reference receiver: it rebuilds 48-bit packet indices from 16-bit sequence numbers. */
module SrtpReceiver {
  import opened Bytes
  import opened RtpPacket
  import opened CtrCipher
  import opened KeyDerivation

  // ---------------------------------------------------------------- roll-over estimation

  datatype Tracker = Tracker(roc: word32, maxSeq: word16)

  datatype Observation = Observation(roc: word32, tracker: Tracker)

  /** Section 3.3.1 and Appendix A of RFC 3711, with the comparisons of the client. */
  function Observe(t: Tracker, seqNum: word16): (o: Observation) {
    if t.maxSeq < 0x8000 then
      if seqNum - t.maxSeq > 0x8000 then Observation((t.roc - 1) % 0x1_0000_0000, t)
      else Observation(t.roc, t.(maxSeq := if seqNum > t.maxSeq then seqNum else t.maxSeq))
    else if t.maxSeq - seqNum > 0x8000 then
      var next := (t.roc + 1) % 0x1_0000_0000;
      Observation(next, Tracker(next, seqNum))
    else
      Observation(t.roc, if seqNum > t.maxSeq then t.(maxSeq := seqNum) else t)
  }

  function TrackerValue(t: Tracker): (v: nat)
    ensures v < INDEX_RANGE
  {
    t.roc * 0x1_0000 + t.maxSeq
  }

  function Max(x: nat, y: nat): nat {
    if x < y then y else x
  }

  /**
   * How far a packet may lie from the highest one so far. The window holds 2^16 numbers; which
   * of its two ends is open depends on the half that the highest number is in.
   */
  predicate InWindow(highest: nat, e: nat) {
    if highest % 0x1_0000 < 0x8000 then -0x8000 < e - highest <= 0x8000
    else -0x8000 <= e - highest < 0x8000
  }

  /** What `Observe` adds to the highest extended number to get the estimate. */
  function Offset(m: word16, s: word16): (d: int)
    ensures (m + d) % 0x1_0000 == s
    ensures if m < 0x8000 then -0x8000 < d <= 0x8000 else -0x8000 <= d < 0x8000
  {
    if m < 0x8000 then
      if s - m > 0x8000 then s - m - 0x1_0000 else s - m
    else if m - s > 0x8000 then s - m + 0x1_0000
    else s - m
  }

  lemma ObserveOffset(t: Tracker, s: word16)
    ensures var o, x := Observe(t, s), TrackerValue(t) + Offset(t.maxSeq, s);
            && o.roc * 0x1_0000 + s == x % INDEX_RANGE
            && TrackerValue(o.tracker) == (if Offset(t.maxSeq, s) > 0 then x % INDEX_RANGE else TrackerValue(t))
  {
    if t.maxSeq < 0x8000 && s - t.maxSeq > 0x8000 {
      CycleBack(t.roc, s);
    } else if t.maxSeq >= 0x8000 && t.maxSeq - s > 0x8000 {
      CycleOn(t.roc, s);
    } else {
      ModUnique(t.roc * 0x1_0000 + s, 0, t.roc * 0x1_0000 + s, INDEX_RANGE);
    }
  }

  lemma CycleBack(roc: word32, s: word16)
    ensures (roc - 1) % 0x1_0000_0000 * 0x1_0000 + s == ((roc * 0x1_0000 + s) - 0x1_0000) % INDEX_RANGE
  {
    if roc == 0 {
      ModUnique(s - 0x1_0000, -1, 0xFFFF_FFFF * 0x1_0000 + s, INDEX_RANGE);
    } else {
      ModUnique((roc - 1) * 0x1_0000 + s, 0, (roc - 1) * 0x1_0000 + s, INDEX_RANGE);
    }
  }

  lemma CycleOn(roc: word32, s: word16)
    ensures (roc + 1) % 0x1_0000_0000 * 0x1_0000 + s == ((roc * 0x1_0000 + s) + 0x1_0000) % INDEX_RANGE
  {
    if roc == 0xFFFF_FFFF {
      ModUnique(INDEX_RANGE + s, 1, s, INDEX_RANGE);
    } else {
      ModUnique((roc + 1) * 0x1_0000 + s, 0, (roc + 1) * 0x1_0000 + s, INDEX_RANGE);
    }
  }

  lemma TrackerLow(t: Tracker, h: int)
    requires TrackerValue(t) == h % INDEX_RANGE
    ensures t.maxSeq == h % 0x1_0000
  {
    LowBits(h);
    ModUnique(TrackerValue(t), t.roc, t.maxSeq, 0x1_0000);
  }

  /** Inside the window the offset is the true distance, outside it never is. */
  lemma OffsetExact(h: nat, e: nat)
    ensures Offset(h % 0x1_0000, e % 0x1_0000) == e - h <==> InWindow(h, e)
  {
    var m, s := h % 0x1_0000, e % 0x1_0000;
    var d := Offset(m, s);
    if InWindow(h, e) {
      ModAdd(h, d, 0x1_0000);
      assert (h + d) % 0x1_0000 == s == (h + (e - h)) % 0x1_0000;
      SameResidue(h + d, e, 0x1_0000);
    }
  }

  /** One packet: the estimate is the true number, and the tracker holds the highest one. */
  lemma ObserveInWindow(t: Tracker, h: nat, e: nat)
    requires TrackerValue(t) == h % INDEX_RANGE && InWindow(h, e)
    ensures var o := Observe(t, e % 0x1_0000);
            && o.roc * 0x1_0000 + e % 0x1_0000 == e % INDEX_RANGE
            && TrackerValue(o.tracker) == Max(h, e) % INDEX_RANGE
  {
    hide Observe, Offset, InWindow;
    TrackerLow(t, h);
    OffsetExact(h, e);
    ObserveOffset(t, e % 0x1_0000);
    ModAdd(h, e - h, INDEX_RANGE);
  }

  /** Any later number that the estimate gets right lies in the window. */
  lemma ObserveOutOfWindow(t: Tracker, h: nat, e: nat)
    requires TrackerValue(t) == h % INDEX_RANGE && !InWindow(h, e)
    requires -(INDEX_RANGE - 0x1_0000) < e - h < INDEX_RANGE - 0x1_0000
    ensures Observe(t, e % 0x1_0000).roc * 0x1_0000 + e % 0x1_0000 != e % INDEX_RANGE
  {
    hide Observe;
    TrackerLow(t, h);
    OffsetExact(h, e);
    ObserveOffset(t, e % 0x1_0000);
    var d := Offset(t.maxSeq, e % 0x1_0000);
    ModAdd(h, d, INDEX_RANGE);
    if (h + d) % INDEX_RANGE == e % INDEX_RANGE {
      SameResidue(h + d, e, INDEX_RANGE);
    }
  }

  // ---------------------------------------------------------------- whole runs

  function Highest(es: seq<nat>): nat {
    if es == [] then 0 else Max(Highest(es[..|es| - 1]), es[|es| - 1])
  }

  /** The tracker when the last packet of `es` arrives; the first packet starts the stream. */
  function TrackerBefore(es: seq<nat>): Tracker
    requires es != []
  {
    if |es| == 1 then Tracker(0, es[0] % 0x1_0000)
    else Observe(TrackerBefore(es[..|es| - 1]), es[|es| - 2] % 0x1_0000).tracker
  }

  function TrackerAfter(es: seq<nat>): Tracker
    requires es != []
  {
    Observe(TrackerBefore(es), es[|es| - 1] % 0x1_0000).tracker
  }

  /** The index estimated for the last packet of `es`. */
  function Estimate(es: seq<nat>): nat
    requires es != []
  {
    Observe(TrackerBefore(es), es[|es| - 1] % 0x1_0000).roc * 0x1_0000 + es[|es| - 1] % 0x1_0000
  }

  /** The first packet precedes the first wrap, and no packet strays from the highest so far. */
  predicate Followed(es: seq<nat>)
    decreases |es|
  {
    if es == [] then true
    else if |es| == 1 then es[0] < 0x1_0000
    else Followed(es[..|es| - 1]) && InWindow(Highest(es[..|es| - 1]), es[|es| - 1])
  }

  lemma FirstPacket(e: nat)
    ensures Highest([e]) == e && TrackerAfter([e]) == Tracker(0, e % 0x1_0000) && Estimate([e]) == e % 0x1_0000
  {
    assert [e][..0] == [];
  }

  /** Under loss, duplication and reordering within the window every estimate is the true number. */
  lemma {:induction false} FollowedRun(es: seq<nat>)
    requires es != [] && Followed(es)
    ensures Estimate(es) == es[|es| - 1] % INDEX_RANGE
    ensures TrackerValue(TrackerAfter(es)) == Highest(es) % INDEX_RANGE
  {
    if |es| == 1 {
      assert es == [es[0]];
      FirstPacket(es[0]);
    } else {
      hide Observe, InWindow;
      FollowedRun(es[..|es| - 1]);
      ObserveInWindow(TrackerBefore(es), Highest(es[..|es| - 1]), es[|es| - 1]);
    }
  }

  /**
   * The exact condition, for streams that stop 2^16 packets short of the end of the index space:
   * all estimates of a run are right if and only if the run stays in the window.
   */
  lemma {:induction false} AllEstimatesRightIffFollowed(es: seq<nat>)
    requires forall k :: 0 <= k < |es| ==> es[k] < INDEX_RANGE - 0x1_0000
    ensures (forall k :: 0 < k <= |es| ==> Estimate(es[..k]) == es[k - 1] % INDEX_RANGE) <==> Followed(es)
  {
    hide Observe, InWindow, Estimate;
    if |es| == 1 {
      assert es == [es[0]] && es[..1] == es;
      FirstPacket(es[0]);
    } else if |es| > 1 {
      var n, pre, e := |es|, es[..|es| - 1], es[|es| - 1];
      AllEstimatesRightIffFollowed(pre);
      assert forall k :: 0 < k < n ==> es[..k] == pre[..k];
      assert es[..n] == es;
      if Followed(pre) {
        FollowedRun(pre);
        LastEstimate(es);
      }
    }
  }

  lemma LastEstimate(es: seq<nat>)
    requires |es| > 1 && Followed(es[..|es| - 1])
    requires forall k :: 0 <= k < |es| ==> es[k] < INDEX_RANGE - 0x1_0000
    ensures Estimate(es) == es[|es| - 1] % INDEX_RANGE <==> InWindow(Highest(es[..|es| - 1]), es[|es| - 1])
  {
    hide Observe, InWindow;
    var pre, e := es[..|es| - 1], es[|es| - 1];
    FollowedRun(pre);
    HighestBound(pre, INDEX_RANGE - 0x1_0000);
    if InWindow(Highest(pre), e) {
      ObserveInWindow(TrackerBefore(es), Highest(pre), e);
    } else {
      ObserveOutOfWindow(TrackerBefore(es), Highest(pre), e);
    }
  }

  lemma {:induction false} HighestBound(es: seq<nat>, bound: nat)
    requires bound > 0 && forall k :: 0 <= k < |es| ==> es[k] < bound
    ensures Highest(es) < bound
  {
    if es != [] {
      HighestBound(es[..|es| - 1], bound);
    }
  }

  // ---------------------------------------------------------------- the receive loop

  datatype ClientState = ClientState(
    activeSsrc: Option<word32>,
    sessionKey: Block,
    baseIv: Block,
    tracker: Tracker)

  datatype Received = Received(state: ClientState, audio: Option<seq<byte>>)

  /** A packet of a new stream restarts the tracker and derives new keys. */
  function Joined(c: Secrets, st: ClientState, ssrc: word32, seqNum: word16): ClientState {
    if st.activeSsrc == Some(ssrc) then st
    else ClientState(Some(ssrc), SessionKey(c, ssrc), BaseIv(c.salt, ssrc), Tracker(0, seqNum))
  }

  function Receive(c: Secrets, st: ClientState, packet: seq<byte>): Received {
    if |packet| < MINIMUM_HEADER_SIZE then Received(st, None)
    else
      var seqNum := Word16At(packet, 2);
      var joined := Joined(c, st, Word32At(packet, 8), seqNum);
      var o := Observe(joined.tracker, seqNum);
      var iv := StartBlock(joined.baseIv, o.roc * 0x1_0000 + seqNum);
      Received(joined.(tracker := o.tracker), Some(Crypt(c.cipher, joined.sessionKey, iv, packet[12..])))
  }

  class Client {
    const secrets: Secrets
    var activeSsrc: Option<word32>
    var sessionKey: Block
    var baseIv: Block
    var roc: word32
    var maxSeqNum: word16

    constructor (secrets: Secrets)
      ensures this.secrets == secrets && State().activeSsrc == None
    {
      this.secrets := secrets;
      activeSsrc, roc, maxSeqNum := None, 0, 0;
    }

    function State(): ClientState
      reads this
    {
      ClientState(activeSsrc, sessionKey, baseIv, Tracker(roc, maxSeqNum))
    }

    /** One turn of the loop, from the datagram to the A-law bytes. */
    method Ingest(packet: seq<byte>) returns (audio: Option<seq<byte>>)
      modifies this
      ensures Received(State(), audio) == Receive(secrets, old(State()), packet)
    {
      hide Word16At, Word32At, StartBlock, Crypt, BaseIv;
      if |packet| < MINIMUM_HEADER_SIZE {
        return None;
      }
      var seqNum := Word16At(packet, 2);
      var ssrc := Word32At(packet, 8);
      var encryptedPayload := packet[12..];
      if activeSsrc != Some(ssrc) {
        activeSsrc := Some(ssrc);
        roc := 0;
        maxSeqNum := seqNum;
        sessionKey := SessionKey(secrets, ssrc);
        baseIv := DeriveIv(secrets.salt, ssrc);
      }
      var vRoc := roc;
      if maxSeqNum < 0x8000 {
        if seqNum - maxSeqNum > 0x8000 {
          vRoc := (roc - 1) % 0x1_0000_0000;
        } else {
          maxSeqNum := if seqNum > maxSeqNum then seqNum else maxSeqNum;
        }
      } else {
        if maxSeqNum - seqNum > 0x8000 {
          vRoc := (roc + 1) % 0x1_0000_0000;
          roc := vRoc;
          maxSeqNum := seqNum;
        } else if seqNum > maxSeqNum {
          maxSeqNum := seqNum;
        }
      }
      var packetIndex := vRoc * 0x1_0000 + seqNum;
      var decrypted := Crypt(secrets.cipher, sessionKey, StartBlock(baseIv, packetIndex), encryptedPayload);
      audio := Some(decrypted);
    }
  }
}
