/** From node lists and frames to the samples that a client plays. */
module EndToEnd {
  import opened Bytes
  import opened RtpPacketizer
  import opened KeyDerivation
  import opened SrtpReceiver
  import opened SrtpChannel
  import opened Alaw
  import opened RtpStreamer
  import opened Programmes
  import opened GraphBuilder
  import opened GraphLists
  import opened Promises

  function Payloads(frames: seq<seq<byte>>): (ps: seq<seq<byte>>)
    ensures |ps| == |frames|
    ensures forall k :: 0 <= k < |frames| ==> ps[k] == EncodeAll(Samples(frames[k]))
  {
    seq(|frames|, k requires 0 <= k < |frames| => EncodeAll(Samples(frames[k])))
  }

  /** The frames of a session as they are handed to the streamer. */
  function PcmOf(frames: seq<seq<int16>>): (pcm: seq<seq<byte>>)
    ensures |pcm| == |frames| && forall k :: 0 <= k < |frames| ==> pcm[k] == Pcm(frames[k])
  {
    seq(|frames|, k requires 0 <= k < |frames| => Pcm(frames[k]))
  }

  /** With a client, full frames go on the wire one by one as what the channel model carries. */
  lemma StreamerSends(c: Secrets, st: StreamState, frames: seq<seq<byte>>)
    requires ValidState(st) && FullFrames(frames)
    ensures var wire := OnWire(st, Some(StreamKeys(c, st.sender.ssrc)), frames);
            && |wire| == |frames|
            && forall k :: 0 <= k < |frames| ==> wire[k] == SrtpChannel.Sent(c, st.sender, Payloads(frames), k)
  {
    hide Datagram, EncodeAll, Samples, OnWire;
    WireOfFrames(st, Some(StreamKeys(c, st.sender.ssrc)), frames);
  }

  /** The streamer over the frames of a session. */
  method StreamAll(streamer: Streamer, frames: seq<seq<int16>>) returns (wire: seq<seq<byte>>)
    requires streamer.Valid() && streamer.clientCount > 0
    modifies streamer`ringIndex, streamer.packetizer, streamer.ring
    ensures streamer.Valid() && streamer.State() == StreamRun(old(streamer.State()), KeysOf(streamer.encryptor), PcmOf(frames))
    ensures wire == OnWire(old(streamer.State()), KeysOf(streamer.encryptor), PcmOf(frames))
  {
    hide SendStep, SentOf, Streamer.Valid, Streamer.State, ValidState, Pcm;
    wire := [];
    ghost var start, keys := streamer.State(), KeysOf(streamer.encryptor);
    assert PcmOf(frames[..0]) == [];
    for i := 0 to |frames|
      invariant streamer.Valid() && streamer.clientCount > 0
      invariant streamer.State() == StreamRun(start, keys, PcmOf(frames[..i]))
      invariant wire == OnWire(start, keys, PcmOf(frames[..i]))
    {
      var sent := streamer.SendFrame(Pcm(frames[i]));
      if sent.Some? {
        wire := wire + [sent.value];
      }
      ghost var more := PcmOf(frames[..i + 1]);
      assert more[..i] == PcmOf(frames[..i]) && more[i] == Pcm(frames[i]);
    }
    assert frames[..|frames|] == frames;
  }

  /** How far companding may move a sample. */
  function Tolerance(x: int16): nat {
    if x >= 0 then Step(Segment(x)) / 2 else Step(Segment(x)) / 2 + 7
  }

  /** What is heard is what was sent, but for what companding does to it. */
  ghost predicate HeardAs(heard: seq<byte>, frame: seq<int16>) {
    && |heard| == |frame|
    && forall i :: 0 <= i < |frame| ==>
         var y: int := DecodeAll(heard)[i];
         if -7 <= frame[i] <= -1 then y == -248 else Abs(y - frame[i]) <= Tolerance(frame[i])
  }

  /**
   * Whatever the network loses, repeats or reorders within the window: what the client plays for a
   * packet whose sequence number is not 65535 is its frame, every sample but -7..-1 within the
   * quantiser's tolerance and those at -248.
   */
  lemma FrameArrives(c: Secrets, start: ClientState, s: Sender, frames: seq<seq<byte>>, delivered: seq<nat>)
    requires start.activeSsrc != Some(s.ssrc) && s.roc == 0
    requires delivered != [] && Delivery(delivered, Payloads(frames)) && Followed(Arrivals(s, delivered))
    requires Number(s, delivered[|delivered| - 1]) % 0x1_0000 != 0xFFFF
    ensures var sent := Samples(frames[delivered[|delivered| - 1]]);
            var got := ClientAfter(c, start, s, Payloads(frames), delivered).audio;
            got.Some? && HeardAs(got.value, sent)
  {
    hide ClientAfter, Samples, Followed, Arrivals, DecodeSample, EncodeSample, Segment, Step;
    DeliveredPlaintext(c, start, s, Payloads(frames), delivered);
    var sent := Samples(frames[delivered[|delivered| - 1]]);
    forall i | 0 <= i < |sent|
      ensures var y: int := DecodeAll(EncodeAll(sent))[i];
              if -7 <= sent[i] <= -1 then y == -248 else Abs(y - sent[i]) <= Tolerance(sent[i])
    {
      ErrorBoundIff(sent[i]);
      if -7 <= sent[i] <= -1 {
        SmallNegatives(sent[i]);
      }
    }
  }

  /**
   * From the lists to the ear: where no file can be heard to be missing along the chain, what the client plays
   * for packet `n` is frame `n` of the programme that the lists promise.
   */
  lemma ListsArrive(sent: Promises.Sent, curve: int -> int16, specs: seq<NodeSpec>, edges: seq<Edge>, path: seq<nat>, ticks: nat,
                    c: Secrets, start: ClientState, s: Sender, delivered: seq<nat>)
    requires AllKnown(specs) && AllAllowed(specs, edges) && GoodLists(specs, edges) && EntryPath(specs, edges, path, None) && path != []
    requires Promises.Sends(sent, curve, specs, edges, path[0], ticks)
    requires start.activeSsrc != Some(s.ssrc) && s.roc == 0
    requires delivered != [] && Delivery(delivered, Payloads(PcmOf(sent.frames))) && Followed(Arrivals(s, delivered))
    requires Number(s, delivered[|delivered| - 1]) % 0x1_0000 != 0xFFFF
    ensures forall k :: 0 <= k < |path| ==> path[k] < |specs| && specs[path[k]].kind.Some?
    ensures var n, programme := delivered[|delivered| - 1], Programme(curve, PartsAt(specs, edges, path));
            var got := ClientAfter(c, start, s, Payloads(PcmOf(sent.frames)), delivered).audio;
            !AnyMissed(curve, StopsAt(specs, edges, path), {}, {}) ==> n < |programme| && got.Some? && HeardAs(got.value, programme[n])
  {
    hide AllAllowed, AllKnown, GoodLists, EntryPath, AnyMissed, Promises.Sends, ClientAfter, Samples, Pcm, Followed, Arrivals, DecodeSample,
      Tolerance, Programme, PartAt;
    SendsThePromise(sent, curve, specs, edges, path, ticks);
    var n := delivered[|delivered| - 1];
    FrameArrives(c, start, s, PcmOf(sent.frames), delivered);
    SamplesOfPcm(sent.frames[n]);
  }
}
