/** A sender, a network that drops, duplicates and reorders, and the reference receiver. */
module SrtpChannel {
  import opened Bytes
  import opened RtpPacket
  import opened CtrCipher
  import opened RtpPacketizer
  import opened KeyDerivation
  import opened SrtpReceiver

  /** Both ends derive the same keys from the shared secrets. */
  function StreamKeys(c: Secrets, ssrc: word32): Keys {
    Keys(c.cipher, SessionKey(c, ssrc), BaseIv(c.salt, ssrc))
  }

  /** The datagram that the `n`-th call of the sender puts on the wire. */
  function Sent(c: Secrets, s: Sender, payloads: seq<seq<byte>>, n: nat): seq<byte>
    requires n < |payloads|
  {
    Datagram(Run(s, n), Some(StreamKeys(c, s.ssrc)), payloads[n])
  }

  /**
   * What the network does: `delivered[k]` says which of the sent packets arrives as the k-th.
   * Leaving numbers out, repeating them and permuting them are loss, duplication and reordering.
   */
  predicate Delivery(delivered: seq<nat>, payloads: seq<seq<byte>>) {
    forall k :: 0 <= k < |delivered| ==> delivered[k] < |payloads|
  }

  function Number(s: Sender, n: nat): nat {
    s.sequenceNum + n
  }

  /** The extended numbers of the packets, in the order they arrive. */
  function Arrivals(s: Sender, delivered: seq<nat>): (es: seq<nat>)
    ensures |es| == |delivered|
  {
    seq(|delivered|, k requires 0 <= k < |delivered| => Number(s, delivered[k]))
  }

  /** The client after it has ingested the deliveries one by one, and what it decrypted last. */
  function ClientAfter(c: Secrets, start: ClientState, s: Sender, payloads: seq<seq<byte>>, delivered: seq<nat>): Received
    requires Delivery(delivered, payloads)
    decreases |delivered|
  {
    if delivered == [] then Received(start, None)
    else
      var before := ClientAfter(c, start, s, payloads, delivered[..|delivered| - 1]);
      Receive(c, before.state, Sent(c, s, payloads, delivered[|delivered| - 1]))
  }

  lemma SentFields(c: Secrets, s: Sender, payloads: seq<seq<byte>>, n: nat)
    requires n < |payloads| && s.roc == 0
    ensures var d, e := Sent(c, s, payloads, n), Number(s, n);
            && |d| >= 12 && Word16At(d, 2) == e % 0x1_0000 && Word32At(d, 8) == s.ssrc
            && d[12..] == Crypt(c.cipher, SessionKey(c, s.ssrc), StartBlock(BaseIv(c.salt, s.ssrc), IndexOf(e)), payloads[n])
  {
    hide Run, Crypt, StartBlock, SessionKey, BaseIv, IndexOf, Word16At, Word32At, FirstOctet, SecondOctet, FixedHeader,
      NextRoc, PacketIndex;
    var r := Run(s, n);
    RunNumbers(s, n);
    RunIndex(s, n);
    var p := Packet(HeaderOf(r), Protect(Some(StreamKeys(c, s.ssrc)), PacketIndex(r), payloads[n]));
    var d := Sent(c, s, payloads, n);
    assert d == FixedHeader(p.header) + [] + [] + p.payload;
    FixedHeaderFields(p.header, d);
    PayloadOf(p);
  }

  function FollowingState(c: Secrets, s: Sender, t: Tracker): ClientState {
    ClientState(Some(s.ssrc), SessionKey(c, s.ssrc), BaseIv(c.salt, s.ssrc), t)
  }

  lemma ReceiveFollows(c: Secrets, st: ClientState, s: Sender, payloads: seq<seq<byte>>, n: nat, es: seq<nat>)
    requires n < |payloads| && s.roc == 0
    requires es != [] && es[|es| - 1] == Number(s, n) && Followed(es)
    requires Joined(c, st, s.ssrc, Number(s, n) % 0x1_0000) == FollowingState(c, s, TrackerBefore(es))
    ensures Receive(c, st, Sent(c, s, payloads, n))
            == Received(FollowingState(c, s, TrackerAfter(es)), Some(ClientOutput(c, s, payloads, n)))
  {
    hide Observe, Crypt, StartBlock, SessionKey, BaseIv, IndexOf, Word16At, Word32At, InWindow, Sent, Followed, TrackerBefore, Joined;
    SentFields(c, s, payloads, n);
    FollowedRun(es);
  }

  /** While the deliveries stay in the window the client follows the sender's extended numbers. */
  lemma {:induction false} ClientFollows(c: Secrets, start: ClientState, s: Sender, payloads: seq<seq<byte>>, delivered: seq<nat>)
    requires start.activeSsrc != Some(s.ssrc) && s.roc == 0
    requires delivered != [] && Delivery(delivered, payloads) && Followed(Arrivals(s, delivered))
    ensures ClientAfter(c, start, s, payloads, delivered)
            == Received(FollowingState(c, s, TrackerAfter(Arrivals(s, delivered))),
                        Some(ClientOutput(c, s, payloads, delivered[|delivered| - 1])))
    decreases |delivered|
  {
    hide Observe, SessionKey, BaseIv, InWindow, Sent, Receive, ClientOutput;
    var es := Arrivals(s, delivered);
    var n := |delivered| - 1;
    var pre := delivered[..n];
    if n > 0 {
      assert Arrivals(s, pre) == es[..n];
      ClientFollows(c, start, s, payloads, pre);
    }
    ReceiveFollows(c, ClientAfter(c, start, s, payloads, pre).state, s, payloads, delivered[n], es);
  }

  /** Decryption under the plain extended number of what was encrypted under the sender's index. */
  function ClientOutput(c: Secrets, s: Sender, payloads: seq<seq<byte>>, n: nat): seq<byte>
    requires n < |payloads|
  {
    var e := Number(s, n);
    var key, iv := SessionKey(c, s.ssrc), BaseIv(c.salt, s.ssrc);
    Crypt(c.cipher, key, StartBlock(iv, e % INDEX_RANGE), Crypt(c.cipher, key, StartBlock(iv, IndexOf(e)), payloads[n]))
  }

  /** Every packet but the last before a wrap decrypts to the bytes that were encoded. */
  lemma DeliveredPlaintext(c: Secrets, start: ClientState, s: Sender, payloads: seq<seq<byte>>, delivered: seq<nat>)
    requires start.activeSsrc != Some(s.ssrc) && s.roc == 0
    requires delivered != [] && Delivery(delivered, payloads) && Followed(Arrivals(s, delivered))
    ensures var n := delivered[|delivered| - 1];
            Number(s, n) % 0x1_0000 != 0xFFFF ==>
              ClientAfter(c, start, s, payloads, delivered).audio == Some(payloads[n])
  {
    hide Crypt, StartBlock, SessionKey, BaseIv;
    var n := delivered[|delivered| - 1];
    ClientFollows(c, start, s, payloads, delivered);
    CryptCancels(c.cipher, SessionKey(c, s.ssrc), StartBlock(BaseIv(c.salt, s.ssrc), Number(s, n) % INDEX_RANGE), payloads[n]);
  }

  /**
   * The exact condition: with a cipher that is injective under the session key and payloads of at
   * least one block, a delivered packet decrypts correctly if and only if its sequence number is
   * not 65535. The sender has then already moved to the next roll-over counter; the receiver has not.
   */
  lemma PlaintextIffNotLastBeforeWrap(c: Secrets, start: ClientState, s: Sender, payloads: seq<seq<byte>>, delivered: seq<nat>)
    requires start.activeSsrc != Some(s.ssrc) && s.roc == 0
    requires delivered != [] && Delivery(delivered, payloads) && Followed(Arrivals(s, delivered))
    requires Injective(c.cipher, SessionKey(c, s.ssrc))
    requires |payloads[delivered[|delivered| - 1]]| >= AES_BLOCK_SIZE
    ensures var n := delivered[|delivered| - 1];
            ClientAfter(c, start, s, payloads, delivered).audio == Some(payloads[n])
            <==> Number(s, n) % 0x1_0000 != 0xFFFF
  {
    hide Crypt, StartBlock, SessionKey, BaseIv, Injective, ClientAfter;
    var n := delivered[|delivered| - 1];
    var e, base := Number(s, n), BaseIv(c.salt, s.ssrc);
    DeliveredPlaintext(c, start, s, payloads, delivered);
    if e % 0x1_0000 == 0xFFFF {
      ClientFollows(c, start, s, payloads, delivered);
      IndexMoved(e);
      StartBlockInjective(base, IndexOf(e), e % INDEX_RANGE);
      WrongStartGarbles(c.cipher, SessionKey(c, s.ssrc), StartBlock(base, IndexOf(e)), StartBlock(base, e % INDEX_RANGE), payloads[n]);
    }
  }

  lemma IndexMoved(e: nat)
    ensures IndexOf(e) == e % INDEX_RANGE <==> e % 0x1_0000 != 0xFFFF
  {
    if e % 0x1_0000 == 0xFFFF && IndexOf(e) == e % INDEX_RANGE {
      SameResidue(e + 0x1_0000, e, INDEX_RANGE);
    }
  }
}
