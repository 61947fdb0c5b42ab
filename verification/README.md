# Hermes audio server: a verified model

The server reads WAV files, shifts and mixes them along a graph of nodes, cuts the result into frames
of 20 ms, compands each frame with A-law and sends it as an encrypted RTP packet. This project models
those parts in Dafny and proves what they promise, over every input and every run.

The code works by changing things step by step, so its objects are classes here and its loops are
loops. Each such method is proved against a function or predicate on values, and the laws of whole
runs are lemmas about those.

| file | part of the server |
|---|---|
| `AudioConfig.dfy`, `Bytes.dfy` | sizes; bounded words, byte orders, exclusive or |
| `RtpPacket.dfy` | the RTP packet codec |
| `CtrCipher.dfy`, `KeyDerivation.dfy` | counter-mode encryption with a start block per packet; base vectors per stream |
| `RtpPacketizer.dfy` | sequence number, roll-over counter, timestamp and index of the sender |
| `SrtpReceiver.dfy`, `SrtpChannel.dfy` | the reference client; sender, lossy network and client together |
| `RtpStreamer.dfy` | in-place assembly and the ring of packet buffers |
| `Alaw.dfy`, `EndToEnd.dfy` | companding tables and buffers; from node lists and frames to the samples a client plays |
| `PitchShifter.dfy` | the delay line with two read heads |
| `AsyncBuffer.dfy`, `BufferController.dfy` | double-buffered streaming of a file: the protocol and the objects |
| `WavUtils.dfy`, `FileInputs.dfy`, `FileEffects.dfy` | finding the samples of a file; from the file to the frames of a node; gain and pitch of a file |
| `GraphNodes.dfy`, `MixerLaws.dfy` | the nodes; what a mixer plays over a whole run |
| `GraphBuilder.dfy`, `LoopFlagging.dfy`, `Preparation.dfy` | from node and edge lists to a wired, flagged and measured graph |
| `Programmes.dfy` | what a chain of nodes plays, and what becomes of files that were closed before |
| `Executor.dfy`, `Streams.dfy`, `Session.dfy` | playing a graph; whole streams; the session loop |
| `GraphLists.dfy`, `Promises.dfy`, `Playback.dfy` | what node and edge lists say; what they promise and when it is kept; from the lists to the frames that are sent |
| `PauseResume.dfy` | pausing, resuming and stopping the loop from other threads |

AES, key derivation, `pow` and the clipping curve beyond its limit are arbitrary functions, random
start values are arbitrary, and floating point is real arithmetic. Integer widths are modelled: 8, 16,
32 and 48-bit wrap-around is written out.

## Where the code differs from what it promises

- The sender bumps its roll-over counter before it forms the index, so the packet with sequence number
  65535 is encrypted one cycle too high (`src/network/rtp/RTPPacketizer.cpp:43-64`). A client that
  follows RFC 3711 cannot read it. `SrtpChannel.PlaintextIffNotLastBeforeWrap` gives the exact condition.
- A swap does not clear the ready flag, although the contract in `src/infra/audio/DoubleBuffer.hpp:24-26`
  asks for it. `AsyncBuffer.RightIffTimely` gives the exact condition under which the code is right
  nevertheless, as long as the blocks that have been played can be told apart; `AsyncBuffer.Delivers`
  covers both the code under that condition and the contract without it.
- A block of 131072 bytes is not a multiple of 320, so 192 bytes of every block are skipped
  (`AsyncBuffer.PlayedIff`). The frames of a file are counted as if they were played, so files of four
  blocks or more end in silence (`FileInputs.SilentCount`).
- A file that is closed outside a loop is not filled again (`src/core/graph/nodes/FileInputNode.cpp:88-122`).
  When a chain uses it a second time, on its own or in a mixer, it gives 409 frames of silence and is then
  late for ever (`FileInputs.ClosedFilePlays`). Every file that leads into its own mixer is used twice in
  this way: files of 500 frames and 1 frame and their mixer promise 1000 frames and play 910
  (`Promises.FileIntoItsOwnMixer`). A chain keeps its promise if and only if no closed file can be heard to
  be missing (`Promises.PromiseKeptIff`, `Streams.PromisedIffNothingMissed`), which for a file on its own
  means that it is longer than a buffer or not all silence, and for a mix that never clips that it ends
  early or lacks samples that would have added up to something (`Promises.PromiseOfUnclipped`). Where no
  file outside the loop occurs twice, the promise is kept (`Promises.PromiseOfDistinct`).
- Files in a loop are filled again, so laps repeat (`Streams.LapsRepeat`), provided that the fill is done before
  the next frame is asked for. If it is not, the lap begins with silence and loses as much of its beginning
  (`AsyncBuffer.LateLap`); and a request between the raised flag and the swap of the filling coroutine does harm
  if and only if a whole buffer of silence has been used up (`AsyncBuffer.RequestBeforeOwnSwap`).
- Samples -7..-1 become negative magnitudes in the encoder (`src/infra/audio/Alaw.cpp:69`) and come out
  as -248.
- The window of the client is not symmetric: which end it includes depends on the half of the cycle the
  highest sequence number is in (`src/tests/exampleClient.py:135-149`).
- The chunk search ignores the padding byte of RIFF chunks of odd size and then misses the data chunk
  behind it (`WavUtils.FindsDataIffUnpadded`); and a data header that does not end before byte 256 of a
  file is never found (`WavUtils.OpensAtTheAudioIff`).
- A mixer takes late inputs for ended ones: when every input that is not complete is late at the same
  time, it reports its end and the executor leaves it (`GraphNodes.MixerEndsIff`).
- The frame on which a stream ends is counted in bytes but not sent.
- Stopping a session whose loop sleeps in a pause does not wake it. `PauseResume.StoppedEndsIff` says
  exactly when a stopped loop ends, and `PauseResume.StoppedCanSleepForever` gives a run in which it does not.

## Model

| member | source | states |
|---|---|---|
| RtpPacket.ToBuffer | src/network/rtp/Packet.cpp:79-139 | succeeds exactly when header and payload fit; then the buffer begins with the encoding of the packet and its rest is untouched, also when the payload already lies in place; on failure nothing is written |
| RtpPacket.AppendFixedHeader | src/network/rtp/Packet.cpp:94-113 | the twelve fixed octets are written at the front and nothing else changes |
| RtpPacket.AppendExtension | src/network/rtp/Packet.cpp:120-133 | the extension is written after what is already there and nothing else changes |
| RtpPacket.AppendWords | src/network/rtp/Packet.cpp:115-118 | a list of 32-bit words is written in network order after what is already there |
| RtpPacket.FromBuffer | src/network/rtp/Packet.cpp:143-215 | reads exactly the packet that the datagram encodes, or nothing when it is shorter than it announces; no read leaves the buffer |
| RtpPacket.ReadWords | src/network/rtp/Packet.cpp:172-176 | the words that start at the given byte |
| RtpPacket.EncodeThenDecode | src/network/rtp/Packet.cpp:79-215 | a packet whose fields fit the wire comes back unchanged (section 5.1 and section 5.3.1 of RFC 3550) |
| RtpPacket.RoundTripIffFits | src/network/rtp/Packet.cpp:94-125 | a packet comes back if and only if it has at most 15 contributing sources, at most 65535 extension words, a version below 4 and a payload type below 128 |
| RtpPacket.DecodeThenEncode | src/network/rtp/Packet.cpp:143-215 | every datagram that is accepted is reproduced byte for byte |
| RtpPacket.DecodedFitsWire | src/network/rtp/Packet.cpp:150-207 | whatever is accepted fits the wire again |
| RtpPacket.PayloadOf | src/network/rtp/Packet.cpp:135-138 | the payload is what follows the header |
| RtpPacket.OctetsOnTheWire | src/network/rtp/Packet.cpp:94-138 | where every field of a packet is in its encoding, bit by bit in the first two octets and as a number in network order elsewhere (section 5.1 and section 5.3.1 of RFC 3550) |
| CtrCipher.AesEncryption.Create | src/infra/crypto/EncryptionStrategy.cpp:23-30 | keys and base vectors of any other size than 16 bytes are refused |
| CtrCipher.AesEncryption.Encrypt | src/infra/crypto/EncryptionStrategy.cpp:38-65 | the payload is replaced in place by its counter-mode encryption under the per-packet start block; the bytes around it stay |
| CtrCipher.CountsUp | src/infra/crypto/EncryptionStrategy.cpp:55-62 | byte i is masked with byte i mod 16 of the enciphered block whose value is the start block plus i/16, as numbers modulo 2^128 with the most significant byte first |
| CtrCipher.CounterExists | src/infra/crypto/EncryptionStrategy.cpp:57-58 | there is such a block for every start block and every count |
| CtrCipher.CryptCancels | src/tests/exampleClient.py:154-163 | decryption with the same key and start block gives the plaintext back |
| CtrCipher.WrongStartGarbles | src/infra/crypto/EncryptionStrategy.cpp:48-58 | with a cipher that is injective under the key, a payload of at least one block never decrypts under another start block |
| CtrCipher.StartBlockTail | src/infra/crypto/EncryptionStrategy.cpp:50-54 | a 48-bit index is mixed into bytes 8 to 13 only, as an exclusive or of the little-endian tail |
| CtrCipher.StartBlockInjective | src/infra/crypto/EncryptionStrategy.cpp:48-54 | two start blocks are equal if and only if their indices are |
| CtrCipher.CounterBlocksDistinct | src/infra/crypto/EncryptionStrategy.cpp:48-58 | counter blocks of two packets are equal if and only if index and block number are, for up to 65536 blocks a packet and whatever carries occur (section 6.5 of NIST SP 800-38A) |
| RtpPacketizer.Packetizer.constructor | src/network/rtp/RTPPacketizer.cpp:11-29 | a new packetizer starts at the given random numbers with a roll-over counter of zero |
| RtpPacketizer.Packetizer.Packetize | src/network/rtp/RTPPacketizer.cpp:37-76 | new state, size and every byte of the output buffer, with and without encryption, and what happens when the buffer is too short: sequence number and roll-over counter move, the timestamp does not |
| RtpPacketizer.Packetizer.EncryptPayload | src/network/rtp/RTPPacketizer.cpp:60-64 | exactly the payload bytes are encrypted, under the given index |
| RtpPacketizer.Packetizer.UpdateTimestamp | src/network/rtp/RTPPacketizer.cpp:78 | the timestamp moves by one increment modulo 2^32 |
| RtpPacketizer.AfterExtended | src/network/rtp/RTPPacketizer.cpp:40-48 | roll-over counter and sequence number together count up by one modulo 2^48 in every call |
| RtpPacketizer.RunNumbers | src/network/rtp/RTPPacketizer.cpp:40-75 | after n calls: sequence number s0+n, roll-over counter and timestamp t0 plus n increments, each with its wrap, and all other fields as before |
| RtpPacketizer.CallsCostNumbers | src/network/rtp/RTPPacketizer.cpp:37-76 | over any run of calls, with and without room for the packet: every call costs a number of the 48-bit pair, but only the written ones cost an increment of the timestamp |
| RtpPacketizer.RunIndex | src/network/rtp/RTPPacketizer.cpp:40-64 | the index of packet n is s0+n modulo 2^48, and 2^16 more when its sequence number is 65535, because the roll-over counter is bumped before the index is formed |
| RtpPacketizer.IndexInjective | src/network/rtp/RTPPacketizer.cpp:43-64 | among 2^48 consecutive packets no two have the same index, despite that exception |
| RtpPacketizer.NoCounterBlockReused | src/network/rtp/RTPPacketizer.cpp:43-64 | over any 2^48 consecutive packets under one key and salt, counter blocks coincide if and only if packet and block number do |
| KeyDerivation.DeriveIv | src/network/rtp/RTPStreamer.cpp:94-108 | the first four bytes of the salt, as a number in network order, are masked with the stream identifier, and the other twelve stay |
| KeyDerivation.BaseIvInjective | src/network/rtp/RTPStreamer.cpp:94-108 | streams with different identifiers have different base vectors |
| KeyDerivation.SessionKeyOf | src/network/rtp/RTPStreamer.cpp:110-130 | the session key is derived from the master key with the four bytes that stand for the stream identifier in network order |
| SrtpReceiver.OffsetExact | src/tests/exampleClient.py:134-149 | the comparisons of the client find the true distance to the highest number if and only if the packet lies in the window |
| SrtpReceiver.ObserveInWindow | src/tests/exampleClient.py:134-152 | one packet in the window: the estimate is the true 48-bit number and the tracker holds the highest one |
| SrtpReceiver.ObserveOutOfWindow | src/tests/exampleClient.py:134-152 | a packet outside the window is never estimated correctly |
| SrtpReceiver.FollowedRun | src/tests/exampleClient.py:133-152 | over every run with loss, duplication and reordering inside the window each estimate is the true extended number, and roll-over counter and highest sequence number are those of the highest packet (section 3.3.1 and Appendix A of RFC 3711) |
| SrtpReceiver.AllEstimatesRightIffFollowed | src/tests/exampleClient.py:133-152 | all estimates of a run are right if and only if the first packet precedes the first wrap and every later one lies in the window |
| SrtpReceiver.Client.constructor | src/tests/exampleClient.py:76-82 | the client starts without a stream |
| SrtpReceiver.Client.Ingest | src/tests/exampleClient.py:85-163 | one turn of the receive loop: drop, join, estimate, decrypt; the whole new state and the decrypted bytes |
| SrtpChannel.ClientFollows | src/tests/exampleClient.py:85-163 | after any delivery in the window the client holds the keys of the stream and the tracker of the highest packet, and has decrypted the last one under its true number |
| SrtpChannel.DeliveredPlaintext | src/tests/exampleClient.py:151-163 | every delivered packet whose sequence number is not 65535 decrypts to exactly the bytes the sender encoded |
| SrtpChannel.PlaintextIffNotLastBeforeWrap | src/network/rtp/RTPPacketizer.cpp:43-64 | for injective ciphers and payloads of at least a block: a delivered packet decrypts correctly if and only if its sequence number is not 65535 |
| EndToEnd.FrameArrives | src/tests/exampleClient.py:133-163 | end to end, over every lossy, repeating and reordering delivery in the window: the client decrypts the frame of every packet whose sequence number is not 65535, and each sample comes out within the tolerance of its quantiser segment, except that -7..-1 become -248 |
| EndToEnd.StreamerSends | src/network/rtp/RTPStreamer.cpp:141-178 | with a client every full frame goes on the wire as one datagram, in order, and these are the ones the channel carries |
| EndToEnd.StreamAll | src/core/session/Session.cpp:236-238 | the streamer object over all frames of a session: what is handed to the socket, and its whole state afterwards |
| EndToEnd.ListsArrive | src/core/session/Session.cpp:123-149 | from node and edge lists to the ear: where no file can be heard to be missing along the chain, what the client plays for packet n, over every delivery in the window, is frame n of the programme the lists promise, within the tolerance of companding |
| RtpStreamer.CodecEncode | src/infra/audio/CodecStrategy.hpp:40-53 | one byte per sample behind the given offset, or 0 and no change when there is no room |
| RtpStreamer.PacketToRtp | src/network/rtp/PacketUtils.hpp:15-36 | in-place assembly gives exactly the datagram of the encoded frame and leaves the rest of the buffer; an empty or oversized frame changes neither the buffer nor the counters |
| RtpStreamer.Streamer.constructor | src/network/rtp/RTPStreamer.cpp:22-37 | sixteen separate slots, payload type 8, 160 ticks a frame |
| RtpStreamer.Streamer.SetupSecurity | src/network/rtp/RTPStreamer.cpp:132-139 | key and base vector are derived from the stream identifier |
| RtpStreamer.Streamer.SendFrame | src/network/rtp/RTPStreamer.cpp:141-178 | without clients nothing changes; with clients one ring slot takes the datagram, all others stay, and the slot moves on even when nothing can be sent |
| RtpStreamer.RingKeepsSixteen | src/network/rtp/RTPStreamer.cpp:146-151 | over any run of full frames the slot of frame k still holds its datagram until the sixteenth later frame |
| RtpStreamer.WireOfFrames | src/network/rtp/RTPStreamer.cpp:141-178 | a run of full frames puts exactly one datagram per frame on the wire, datagram k under the k-th state of the sender |
| RtpStreamer.SlotsAndNumbers | src/network/rtp/RTPStreamer.cpp:141-154 | whatever the frames are, every one takes a slot of the ring, and the counters of the sender move exactly with those that go out |
| RtpStreamer.SampleIsLittleEndian | src/infra/audio/PcmCast.hpp:43-55 | a sample is its two bytes as a number modulo 2^16, the low byte first |
| RtpStreamer.SamplesOfPcm | src/infra/audio/PcmCast.hpp:29-55 | samples written as bytes are read back unchanged |
| RtpStreamer.FrameHeader | src/network/rtp/RTPStreamer.cpp:141-154 | a peer parses out of datagram n: 172 bytes, payload type 8, sequence number s0+n modulo 2^16, timestamp t0+160n modulo 2^32 and the encrypted A-law payload |
| PitchShifter.Shifter.constructor | src/infra/audio/PitchShifter.cpp:17-31 | a new shifter holds nothing but the silence before the start |
| PitchShifter.Shifter.Reset | src/infra/audio/PitchShifter.cpp:33-37 | reset forgets the whole history and the phase |
| PitchShifter.Shifter.WrapPosition | src/infra/audio/PitchShifter.cpp:41-49 | both wrap loops end with a position inside the line that differs by whole turns |
| PitchShifter.Shifter.ReadInterpolated | src/infra/audio/PitchShifter.cpp:40-64 | reading the circular line at any delay it covers is linear interpolation between two samples of the unbounded history of that channel |
| PitchShifter.PositionOfDelay | src/infra/audio/PitchShifter.cpp:41-58 | index and fraction of a read position, from write pointer and delay |
| PitchShifter.WriteExtends | src/infra/audio/PitchShifter.cpp:94-96 | overwriting the cell at the write pointer extends the history of that channel |
| PitchShifter.WriteKeepsOthers | src/infra/audio/PitchShifter.cpp:94-96 | and leaves the histories of all other channels alone |
| PitchShifter.WeightsSumToOne | src/infra/audio/PitchShifter.cpp:66-90 | the weights of the two heads lie between 0 and 1 and always sum to 1 |
| PitchShifter.MixedInRange | src/infra/audio/PitchShifter.cpp:98-109 | the mix of two reads stays in the 16-bit range, so the clamp never changes a sample |
| PitchShifter.Shifter.MixSample | src/infra/audio/PitchShifter.cpp:98-109 | the output is the truncated mix itself |
| PitchShifter.Shifter.ProcessFrameChannels | src/infra/audio/PitchShifter.cpp:92-111 | every channel of one frame gets its mix and one more sample of history; the rest of the buffer stays |
| PitchShifter.Shifter.AdvancePointers | src/infra/audio/PitchShifter.cpp:113-130 | the write pointer moves round the line and the phase moves by the signed increment modulo 1; both loops end |
| PitchShifter.Shifter.Process | src/infra/audio/PitchShifter.cpp:132-159 | every output sample of a buffer is the mix of two delayed reads of the whole history of its channel, at the phase of its frame; incomplete frames and zero shifts change nothing |
| PitchShifter.PhaseStep | src/infra/audio/PitchShifter.cpp:118-129 | the phase after n+1 frames is one step on from the phase after n |
| PitchShifter.DelayLaw | src/infra/audio/PitchShifter.cpp:74-86 | over n frames at ratio r a head delay grows by n(1-r) modulo the longest delay, so the head advances r samples a frame between wraps |
| PitchShifter.WrapIsFadedOut | src/infra/audio/PitchShifter.cpp:113-130 | a head wraps only while its weight is at most twice the phase increment, before and after |
| PitchShifter.OppositeMovesAlong | src/infra/audio/PitchShifter.cpp:80-84 | the second head stays half a cycle away, so the same holds for it |
| PitchShifter.DelayedByWhole | src/infra/audio/PitchShifter.cpp:40-64 | a delay of d frames gives the sample written d frames ago, or the silence before the start |
| PitchShifter.DelayedBetween | src/infra/audio/PitchShifter.cpp:51-63 | between two whole delays the value goes in a straight line from one sample to the other |
| PitchShifter.MixedByHeads | src/infra/audio/PitchShifter.cpp:66-104 | at phase p the mix is what the head half a cycle away reads, plus 2p, or 2-2p from the middle on, of the difference to what the head at p reads |
| PitchShifter.WrapsAreNotHeard | src/infra/audio/PitchShifter.cpp:78-130 | when a head jumps across the line, the mix before and after the jump is what the other head reads, but for at most twice the step of their difference; for both heads |
| PitchShifter.ShiftedIsMixed | src/infra/audio/PitchShifter.cpp:98-109 | a sample that is put out is the mix without its fraction |
| PitchShifter.SteadyPasses | src/infra/audio/PitchShifter.cpp:66-109 | a signal that has not changed for as long as the delay lasts comes out as it is, at every phase |
| PitchShifter.FirstOutputIsSilent | src/infra/audio/PitchShifter.cpp:132-159 | a new shifter puts out silence first, on every channel, whatever it receives |
| PitchShifter.SemitonesLaw | src/infra/audio/PitchShifter.cpp:132-145 | for a shift of s semitones the head advances 2^(s/12) samples a frame between its jumps |
| FileEffects.Amplify | src/core/graph/nodes/FileInputNode.cpp:193-201 | every sample times the gain, truncated and clamped |
| FileEffects.GainSaturates | src/core/graph/nodes/FileInputNode.cpp:196-199 | a gain saturates at both ends of the 16-bit range, and otherwise gives the exact product without its fraction |
| FileEffects.GainKeepsOrder | src/core/graph/nodes/FileInputNode.cpp:196-199 | a gain keeps order and sign of samples, a negative one reverses both |
| FileEffects.Shift | src/core/graph/nodes/FileInputNode.cpp:203-206 | the shifted frame follows on the whole history of the file, and the history grows by the frame |
| FileEffects.ApplyEffects | src/core/graph/nodes/FileInputNode.cpp:186-207 | frame k out of the buffer becomes frame k of the node, gain first, with and without options, and the shifter is ready for frame k+1 |
| FileEffects.ResetIsInTune | src/core/graph/nodes/FileInputNode.cpp:97-99 | opening and closing a file put the shifter at the beginning of the file |
| FileEffects.SliceOfWhole | src/core/graph/nodes/FileInputNode.cpp:203-206 | the frames of a file with a pitch option are the slices of what one run of the shifter makes of all frames together: it does not matter where the file is cut |
| FileEffects.SilenceStaysSilent | src/core/graph/nodes/FileInputNode.cpp:186-207 | after a reset, silence stays silence whatever the options |
| BufferController.DoubleBuffer.GetWriteSpan | src/infra/audio/DoubleBuffer.cpp:19-22 | the producer gets the one of the two blocks that is not being read |
| BufferController.DoubleBuffer.Swap | src/infra/audio/DoubleBuffer.cpp:28-31 | reader and writer exchange their blocks; flag and contents stay |
| BufferController.DoubleBuffer.Reset | src/infra/audio/DoubleBuffer.cpp:33-38 | index 0, flag down, both blocks silent |
| BufferController.AsyncBufferController.GetFrame | src/infra/io/AsyncBufferController.cpp:32-57 | frame or underrun, new state and every output byte as in one step of the protocol |
| BufferController.AsyncBufferController.SwapAndTriggerRefill | src/infra/io/AsyncBufferController.cpp:65-73 | the swap and the spawned refill; the flag is cleared only in the variant that follows the contract |
| BufferController.AsyncBufferController.StartRefill | src/infra/io/AsyncBufferController.cpp:73-75 | the refill takes the block that is not being read at that moment |
| BufferController.AsyncBufferController.ContinueRefill | src/infra/io/AsyncBufferController.cpp:75 | any part of the read lands behind what was read before |
| BufferController.AsyncBufferController.FinishRefill | src/infra/io/AsyncBufferController.cpp:77-83 | the rest of the block is silence, an empty read marks the end of the stream, and the flag goes up |
| BufferController.AsyncBufferController.InitializeBuffers | src/infra/io/AsyncBufferController.cpp:11-30 | from any state, also with old refills under way: the next block of the file becomes the one being read and the one after it goes behind; counters and refills stay |
| BufferController.AsyncBufferController.Reset | src/infra/io/AsyncBufferController.cpp:59-63 | both blocks are silent, nothing is ready, counter and state start again; refills and file position stay |
| BufferController.AsyncBufferController.CloseFile | src/core/graph/nodes/FileInputNode.cpp:88-102 | closing the file of a node resets the buffer and rewinds the file; without refills under way the buffer is as one that was never filled |
| AsyncBuffer.InitializedIsInitial | src/infra/io/AsyncBufferController.cpp:11-30 | filling the buffers of a closed file gives the state a first run starts from, with the frames that were asked for meanwhile already counted |
| AsyncBuffer.ClosedIsSilent | src/core/graph/nodes/FileInputNode.cpp:88-104 | a closed file that is not filled again gives as much silence as a block holds and then nothing but underruns, over every run |
| AsyncBuffer.SilentWhileWaiting | src/infra/io/AsyncBufferController.cpp:11-18 | while the first block is being fetched, requests get silence, at most a block of it, wherever they fall between the bytes |
| AsyncBuffer.SecondFetch | src/infra/io/AsyncBufferController.cpp:18-27 | after the swap of the coroutine the second fetch keeps the invariant as any refill, with the requests so far already counted |
| AsyncBuffer.LapIsInitial | src/infra/io/AsyncBufferController.cpp:21-29 | when it is done, the buffer is as after a first fill, but for the counter |
| AsyncBuffer.LateLap | src/core/graph/nodes/FileInputNode.cpp:104-120 | a looped file is filled again while frames are asked for at any time: what is asked for before the first block is there is silence, at most a block of it, and the lap goes on with the frame after as many, however the second fetch interleaves with the requests |
| AsyncBuffer.RequestBeforeOwnSwap | src/infra/io/AsyncBufferController.cpp:18-19 | a request between the raised flag and the swap of the coroutine is harmless if and only if the silent block is not used up; otherwise it gets the beginning of the file, and the coroutine swaps back to the silent block with two fetches under way |
| AsyncBuffer.FrameKeepsInv | src/infra/io/AsyncBufferController.cpp:32-57 | a frame request keeps the invariant, delivers the next frame of the source, and fails exactly when the needed refill is under way |
| AsyncBuffer.RefillKeepsInv | src/infra/io/AsyncBufferController.cpp:73-83 | every step of a refill keeps the invariant |
| AsyncBuffer.DeliversFrom | src/infra/io/AsyncBufferController.cpp:32-90 | the same from any state of the protocol: the frames go on from where it is |
| AsyncBuffer.Delivers | src/infra/io/AsyncBufferController.cpp:11-90 | over every interleaving with timely refills, or with the flag cleared on swaps, the k-th frame delivered is the k-th frame of the zero-extended source, block tails skipped, and no refill writes the block being read |
| AsyncBuffer.RightIffTimely | src/infra/io/AsyncBufferController.cpp:65-67 | for the code as it is, and sources whose blocks can be told apart as far as they have been played: no block is shared and every frame is right if and only if every refill is done before the next swap |
| AsyncBuffer.UnderrunIffRefillPending | src/infra/audio/DoubleBuffer.hpp:16-26 | with the flag cleared as the contract asks, a frame is refused if and only if the refill it needs is under way |
| AsyncBuffer.SwapSafeIff | src/infra/io/AsyncBufferController.cpp:65-67 | for the code as it is: a swap makes reader and refill share a block if and only if a refill is running |
| AsyncBuffer.StaleBlocks | src/infra/io/AsyncBufferController.cpp:32-67 | if no refill ever runs, the code plays the first two blocks in turn forever, without an underrun |
| AsyncBuffer.WithoutTimelinessItFails | src/infra/io/AsyncBufferController.cpp:65-67 | then frame 2*(frames per block) is the first frame of the file instead of the third block, for every source where these differ |
| AsyncBuffer.PlayedBy | src/infra/io/AsyncBufferController.cpp:35-53 | which frame plays a byte of the source, and that no other does |
| AsyncBuffer.PlayedIff | src/infra/io/AsyncBufferController.cpp:35-39 | a byte is played if and only if its place in its block leaves room for a whole frame |
| AsyncBuffer.NothingSkippedIff | src/infra/io/AsyncBufferController.cpp:35-39 | the whole source is played if and only if the block size is a multiple of the frame size |
| AsyncBuffer.SkippedTail | src/infra/io/AsyncBufferController.cpp:35-39 | with blocks of 131072 bytes and frames of 320 exactly the last 192 bytes of every block are never played, 409 frames are |
| WavUtils.GetAudioDataOffset | src/infra/audio/WavUtils.hpp:12-46 | terminates; 44 for short files, 0 without the RIFF mark, the position after the first data header on the chunk chain, or 44 when there is none |
| WavUtils.FindsTheAudio | src/infra/audio/WavUtils.hpp:25-43 | in every file written chunk after chunk without padding the first data chunk is found and the audio is what follows |
| WavUtils.FindsDataIffUnpadded | src/infra/audio/WavUtils.hpp:37 | for every list of chunks: the search stops at the data chunk if and only if the chunk before it needs no padding byte |
| WavUtils.PaddingMisleads | src/infra/audio/WavUtils.hpp:37 | behind a padding byte no data chunk at all is found in files with up to 16 MB of audio, whatever chunks precede it |
| WavUtils.OffsetIffUnpadded | src/infra/audio/WavUtils.hpp:17-45 | for such files the returned offset is the beginning of the audio if and only if there is no padding byte, or the audio happens to begin at the default offset |
| WavUtils.Open | src/core/graph/nodes/FileInputNode.cpp:45-70 | offset and number of whole frames of a file, found in its first 256 bytes |
| WavUtils.OpensAtTheAudioIff | src/core/graph/nodes/FileInputNode.cpp:45-57 | a written file is played from its first sample if and only if it has at least 44 bytes and its data header ends before byte 256; a header further back is never found |
| FileInputs.OpenNode | src/core/graph/nodes/FileInputNode.cpp:44-74 | the total of an opened node is the number of whole frames behind the offset, and its frames are those of its buffer with the options applied |
| FileInputs.BufferGivesTheFrames | src/core/graph/nodes/FileInputNode.cpp:130-146 | over every timely interleaving the k-th frame out of the buffer is frame k of the node |
| FileInputs.ClosedFilePlays | src/core/graph/nodes/FileInputNode.cpp:88-104 | over every interleaving a closed file that is not filled again gives the 409 silent frames of the node model and is late from then on |
| FileInputs.AudibleIff | src/infra/io/AsyncBufferController.cpp:35-53 | how many frames begin before the end of the source, exactly |
| FileInputs.SilentEnd | src/infra/io/AsyncBufferController.cpp:77-82 | all later frames are silence |
| FileInputs.SilentCount | src/core/graph/nodes/FileInputNode.cpp:65-70 | how many of the frames a node counts are only silence: the bytes skipped at the ends of blocks are counted but not played |
| FileInputs.LongFilesEndInSilence | src/core/graph/nodes/FileInputNode.cpp:65-70 | every file with four blocks of audio or more ends in silence |
| GraphNodes.Node.ConnectInput | src/core/graph/nodes/MixerNode.cpp:36-65 | which kinds each kind accepts and who collects inputs and options; an accepted edge into a mixer or a delay, or from a delay into a file input, sets the source's next pointer, and nothing else changes (for file inputs, delays and clients see FileInputNode.cpp:254-276, BasicNodes.hpp:50-56 and BasicNodes.hpp:91-99) |
| GraphNodes.Node.WireStandard | src/core/graph/Node.cpp:8 | sets the next pointer of the source |
| GraphNodes.Node.SetInLoop | src/core/graph/nodes/MixerNode.cpp:67-72 | a mixer flags itself and all its inputs, other nodes only themselves |
| GraphNodes.Node.SetMaxFrames | src/core/graph/nodes/MixerNode.cpp:23-30 | the total of a mixer is a maximum over its inputs, 0 without any |
| GraphNodes.Node.CloseFile | src/core/graph/nodes/FileInputNode.cpp:88-121 | a file that cannot be closed keeps everything; otherwise its counter starts again, and its buffers are filled again if and only if it is in the loop and the fill is in time |
| GraphNodes.Node.InitializeBuffers | src/core/graph/nodes/FileInputNode.cpp:126-128 | the first fill of a file input; nothing for other nodes |
| GraphNodes.Node.Close | src/core/graph/nodes/MixerNode.cpp:74-84 | closing succeeds exactly when no file refuses; a mixer resets its inputs one by one up to the first that fails, and its own counter only if none does |
| GraphNodes.Node.ProcessFile | src/core/graph/nodes/FileInputNode.cpp:130-146 | silence and end of stream once complete; underrun when the block is missing, which for a closed file is after one buffer of silence; else the next frame and one count more |
| GraphNodes.FileGivesNextFrame | src/core/graph/nodes/FileInputNode.cpp:130-146 | a filled file that is not late gives the frame of its file that its counter says |
| GraphNodes.Node.ProcessMixer | src/core/graph/nodes/MixerNode.cpp:86-120 | success if and only if some input has a frame; then the clipped sum of what was heard, and the counter of every heard input moves |
| GraphNodes.MixerEndsIff | src/core/graph/nodes/MixerNode.cpp:91-111 | a mixer reports its end if and only if every input is complete or late: it ends early when all that is left is late at once |
| GraphNodes.Node.MixInputs | src/core/graph/nodes/MixerNode.cpp:91-106 | the loop over the inputs: 32-bit sums and counters after all requests, inputs listed twice included |
| GraphNodes.Node.ProcessDelay | src/core/graph/nodes/BasicNodes.hpp:75-83 | silence and one count more |
| GraphNodes.SumBuffers | src/infra/audio/AudioMath.hpp:21-26 | sample-wise 32-bit addition over the common length |
| GraphNodes.CompressAndExport | src/infra/audio/AudioMath.hpp:43-49 | every output sample is the clipped sum |
| GraphNodes.AccumulatorNeverWraps | src/infra/audio/AudioMath.hpp:21-26 | with at most 65535 inputs no sum reaches the limits of the 32-bit accumulator |
| MixerLaws.LongestIsMaximum | src/core/graph/nodes/MixerNode.cpp:23-28 | a frame number is below the longest reach if and only if some input has that frame; a closed input reaches as far as one buffer of silence |
| MixerLaws.CountersAfter | src/core/graph/nodes/MixerNode.cpp:91-106 | after k rounds the counter of an input is the smaller of k and its reach |
| MixerLaws.HeardInRound | src/core/graph/nodes/MixerNode.cpp:91-106 | in round k exactly the inputs that reach beyond k are heard, each with its frame k or with silence if it was closed |
| MixerLaws.PlaysExactlyLongest | src/core/graph/nodes/MixerNode.cpp:108-119 | with distinct freshly reset inputs a mixer plays exactly as many frames as its longest input reaches |
| MixerLaws.FrameInRound | src/core/graph/nodes/MixerNode.cpp:88-114 | frame k of the mix is the clipped plain sum of the frames k of the inputs that still play, with no overflow on the way |
| MixerLaws.QuietMixIsSum | src/infra/audio/AudioMath.hpp:32-38 | sums of at most 30000 come out as they are, all others go through the curve |
| MixerLaws.MixIgnoresOrder | src/core/graph/nodes/MixerNode.cpp:91-114 | the mix does not depend on the order of the inputs |
| Programmes.ProgrammeAlikeIff | src/core/graph/AudioExecutor.cpp:209-220 | a chain whose nodes are no longer than promised plays what is promised if and only if every single node does: no later frame makes up for one that is missing |
| Programmes.AlikeIffNotMissed | src/core/graph/nodes/FileInputNode.cpp:88-104 | every node of a chain plays what it promises if and only if nowhere a file that was closed before can be heard to be missing |
| Programmes.FileMissedIff | src/core/graph/nodes/FileInputNode.cpp:88-104 | a file that comes up again on its own is missed if and only if it is longer than a buffer or not all silence |
| Programmes.MixMissedIff | src/core/graph/nodes/MixerNode.cpp:91-119 | in a mix that is never clipped, closed inputs are missed if and only if the mix ends early or their samples would have added up to something |
| Programmes.AnyMissedIff | src/core/graph/nodes/FileInputNode.cpp:88-104 | so for a chain whose mixes are never clipped the condition can be read off its files |
| Programmes.ReusedIffShared | src/core/graph/nodes/FileInputNode.cpp:104-120 | a node uses a closed file if and only if it shares a file outside the loop with an earlier node |
| Programmes.NothingShared | src/core/graph/nodes/FileInputNode.cpp:88-104 | where no file outside the loop occurs twice nothing is missed |
| Programmes.SharedFileMissed | src/core/graph/nodes/FileInputNode.cpp:88-104 | a file that comes up again on its own, longer than a buffer or not all silence, breaks the promise of the chain |
| Programmes.LoopedStaysFresh | src/core/graph/nodes/FileInputNode.cpp:104-120 | a chain that closes nothing but looped files plays what it promises every time, whatever was closed elsewhere |
| GraphBuilder.Graph.ParseNodes | src/infra/parsers/Json2Graph.cpp:17-59 | succeeds exactly when every type is known and there is at most one clients node; then all nodes are listed in order with the totals of their entries, found under the last entry with their id, and listed again by kind |
| GraphBuilder.Graph.SetStartNode | src/infra/parsers/Json2Graph.cpp:61-81 | the start node is the node with that id, if there is one |
| GraphBuilder.Graph.ParseEdges | src/infra/parsers/Json2Graph.cpp:83-120 | succeeds exactly when every edge is allowed; then the last wiring edge out of a node decides its next and mixers list their inputs in edge order |
| GraphBuilder.Graph.AddEdge | src/infra/parsers/Json2Graph.cpp:92-117 | one edge: refused or applied, with nothing else changed |
| GraphBuilder.ParseGraph | src/infra/parsers/Json2Graph.cpp:124-152 | a description is accepted if and only if its types, ids and edges fit, stated on the lists alone; the graph is then closed, wired as the edge list says, and as long as the entries say |
| GraphBuilder.AcceptedPairs | src/infra/parsers/Json2Graph.cpp:92-117 | told by kinds alone: the twelve pairs of kinds between which an edge is accepted |
| GraphBuilder.LastEdgeDecides | src/infra/parsers/Json2Graph.cpp:92-117 | told by kinds alone: the last accepted edge out of a node into a mixer or a delay, or from a delay into a file input, decides its next |
| GraphBuilder.NoEdgeNoNext | src/infra/parsers/Json2Graph.cpp:92-117 | without such an edge the next of a node stays as it was |
| GraphBuilder.OfKindExactly | src/infra/parsers/Json2Graph.cpp:45-54 | the lists by kind hold exactly the nodes of that kind |
| GraphBuilder.MixersLeadToDelays | src/core/graph/nodes/MixerNode.cpp:36-65 | in every parsed graph the next of a mixer is a delay or nothing, and only a delay leads to a file input |
| GraphBuilder.DelayAmongThree | src/core/graph/nodes/FileInputNode.cpp:254-276 | any three nodes in a row contain a delay |
| LoopFlagging.CycleHasDelay | src/core/graph/nodes/BasicNodes.hpp:91-99 | every cycle of a parsed graph contains a delay, among any three of its steps |
| LoopFlagging.FindCycle | src/core/graph/AudioExecutor.cpp:104-115 | terminates; finds the node at which the walk first repeats, or null when no node is on a cycle |
| LoopFlagging.CycleNodes | src/core/graph/AudioExecutor.cpp:117-124 | the tail of the walk from that node on is exactly the set of nodes that are reached from the start and from themselves |
| LoopFlagging.FlagCycle | src/core/graph/AudioExecutor.cpp:117-124 | the flagging loop ends after one lap and flags exactly the cycle and its mixers' inputs |
| LoopFlagging.DetectAndFlagLoops | src/core/graph/AudioExecutor.cpp:104-125 | flags exactly the nodes on the cycle reachable from the start and the inputs of mixers on it; nothing when the walk ends |
| LoopFlagging.EndedWalkHasNoCycle | src/core/graph/AudioExecutor.cpp:109-115 | a walk that ends in null meets no cycle |
| Preparation.UpdateMixers | src/core/graph/AudioExecutor.cpp:177-181 | every mixer gets the length of its longest input and no other total changes |
| Preparation.InitializeNodes | src/core/graph/AudioExecutor.cpp:166-175 | every file of the list is filled and no other buffer changes |
| Preparation.Prepare | src/core/graph/AudioExecutor.cpp:141-154 | all files filled, mixers measured, exactly the loop flagged, and the stream back at the start node |
| Preparation.PreparedStreams | src/core/graph/AudioExecutor.cpp:128-155 | a parsed and prepared graph whose files and delays are not empty and do not fail is a stream that the session loop can run |
| Executor.MixerRound | src/core/graph/nodes/MixerNode.cpp:86-120 | a mixer in step plays frame k of the mix, closed inputs silent, and every input goes one frame on until it reaches no further |
| Executor.NextFrameOf | src/core/graph/AudioExecutor.cpp:193-209 | what the node that is playing gives next: the frame, the result, and that it is left exactly on the last frame of what it plays, also when files were closed before |
| Executor.AudioExecutor.AdvanceToNextNode | src/core/graph/AudioExecutor.cpp:222-239 | closes the node and moves on, or stays exactly when closing fails |
| Executor.AudioExecutor.ProcessFrame | src/core/graph/AudioExecutor.cpp:193 | result, samples and counter for every kind of node, and the next frame of a playable node |
| Executor.AudioExecutor.GetNextFrame | src/core/graph/AudioExecutor.cpp:182-220 | every case: no node or no buffer, no audio source, underrun, end of a node with and without a failing close; and for playable nodes the frame that is due, 320 bytes counted but for underruns, then the next frame, or the next node with counters reset and closed files filled again only if looped |
| Streams.PathPlaysProgramme | src/core/graph/AudioExecutor.cpp:209-220 | a chain in which no file stalls plays its nodes in chain order, each as far as it gets with the files closed before it, and then goes on behind its last node |
| Streams.ChainEndsIff | src/core/graph/AudioExecutor.cpp:209-220 | a null-ended chain is over after i frames if and only if no file stalls and i is at least the sum of what its nodes play |
| Streams.PathStalls | src/core/graph/AudioExecutor.cpp:201-206 | a chain in which a file stalls plays what comes before it, a buffer of silence, and silence that is not counted, and never ends |
| Streams.PromisedIffNothingMissed | src/core/graph/nodes/FileInputNode.cpp:88-104 | the exact condition: a null-ended chain ends after exactly the promised frames, and these were the promised ones, if and only if nowhere along it a file that was closed before can be heard to be missing |
| Streams.InStepIffNothingMissed | src/core/graph/nodes/FileInputNode.cpp:88-104 | the exact condition for the way into a cycle: every node begins when it should and plays what it should if and only if no file can be heard to be missing |
| Streams.LapsRepeat | src/core/graph/nodes/FileInputNode.cpp:104-120 | every lap of a cycle plays the same frames, because all its files are filled again, whatever was closed outside the cycle |
| Streams.CyclePlaysLaps | src/core/graph/AudioExecutor.cpp:209-220 | a chain that reaches a cycle plays its head once, each node as far as it gets, and then the promised frames of the cycle lap after lap |
| Streams.CyclePlaysAsPromised | src/core/graph/AudioExecutor.cpp:209-220 | and all that is promised of the head, too, if no file can be heard to be missing in it |
| Streams.EndsIff | src/core/graph/AudioExecutor.cpp:104-125 | a stream ends if and only if the loop detection flags nothing and it never gets stuck in a file that was closed before |
| Session.Session.ProcessAndStreamSingleFrame | src/core/session/Session.cpp:215-243 | a frame is dispatched and counted as a packet if and only if the executor wants to go on, in every case of the executor; an underrun sends silence; the frame that ends the stream is produced but not sent |
| Session.Session.Tick | src/core/session/Session.cpp:151-173 | one turn of the loop plays the frame that is due, silence in a file that is stuck, and leaves the stream one frame further |
| Session.Session.RunMainAudioLoop | src/core/session/Session.cpp:151-177 | however long it runs, what was dispatched is the beginning of the stream, with 320 bytes counted for every frame produced that is no underrun and one packet for every frame sent |
| Session.ChainTotals | src/core/session/Session.cpp:215-243 | on a null-ended chain in which no file stalls: if S is the sum of what its nodes play, exactly S frames in chain order, 320*S bytes, S-1 packets |
| Session.StalledTotals | src/core/session/Session.cpp:215-243 | where a file stalls: a packet for every tick, bytes only up to the end of its buffer of silence, and no end |
| Session.CycleTotals | src/core/session/Session.cpp:151-177 | on a chain that reaches a cycle and in whose head no file stalls: never over, every frame produced is sent, and what was sent is the beginning of head and laps |
| GraphLists.SamePath | src/infra/parsers/Json2Graph.cpp:83-120 | a path of entries, read off the lists alone, is a path of the parsed and prepared graph, node by node with the same parts and inputs |
| GraphLists.EndsOrLaps | src/core/graph/AudioExecutor.cpp:104-115 | from every entry the lists lead to an end or to a cycle |
| GraphLists.ParsedIsWired | src/infra/parsers/Json2Graph.cpp:83-120 | next pointers and inputs of the parsed graph are those of the lists |
| GraphLists.LastEdgeDecidesNext | src/infra/parsers/Json2Graph.cpp:83-120 | the same on the lists: the last edge out of an entry into a mixer or a delay, or from a delay into a file, decides what comes next |
| GraphLists.NoEdgeNoNextIndex | src/infra/parsers/Json2Graph.cpp:83-120 | without such an edge an entry has no next |
| GraphLists.InputsAreFilesWithEdges | src/core/graph/nodes/MixerNode.cpp:54-60 | the inputs of a mixer are exactly the files with an edge into it |
| GraphLists.SameParts | src/core/graph/nodes/FileInputNode.cpp:88-120 | along a path the same files are closed and filled again in the graph as the lists say |
| GraphLists.EndingFlagsNothing | src/core/graph/AudioExecutor.cpp:104-125 | when the entries lead to an end, nothing is flagged |
| GraphLists.FlaggedEntries | src/core/graph/AudioExecutor.cpp:104-125 | when they lead to a cycle, flagged are exactly the entries of the cycle and the inputs of its mixers |
| Promises.PromiseKeptIff | src/core/graph/nodes/FileInputNode.cpp:88-104 | the exact condition, on the lists alone: a path plays what its entries promise if and only if nowhere along it a file that was closed before can be heard to be missing |
| Promises.PromiseOfUnclipped | src/core/graph/nodes/FileInputNode.cpp:88-104 | on lists whose mixes never clip: it does if and only if no entry lacks samples of a closed file, where a file on its own does when it is longer than a buffer or not all silence, and a mix when it ends early or the closed samples add up to something |
| Promises.PromiseOfDistinct | src/core/graph/nodes/FileInputNode.cpp:88-104 | in any case it does where no file outside the loop occurs twice among the entries and the inputs of their mixers |
| Promises.SendsThePromise | src/core/session/Session.cpp:215-243 | an ending path then sends its promised programme but for the frame that ends it, with exact frame, byte and packet counts |
| Promises.SendsPromisedLaps | src/core/session/Session.cpp:215-243 | and a path into a cycle its promised head and laps |
| Promises.FileIntoItsOwnMixer | src/core/graph/nodes/MixerNode.cpp:57-61 | accepted lists of two files and their mixer that promise 1000 frames and play 910, whatever the files hold: the first file is closed when the mixer takes it up |
| Playback.PrepareGraph | src/core/graph/AudioExecutor.cpp:127-155 | after preparation the whole graph is as the lists describe it, mixers as long as their longest input, all files filled, and exactly the loop flagged |
| Playback.Play | src/core/session/Session.cpp:123-149 | from node and edge lists to the frames sent, stated on the lists alone: the description is accepted if and only if it fits; an ending chain sends what its nodes play but for the frame that ends it, and a looping one its head and laps until it is stopped, closed files silent where they are used again, with exact frame, byte and packet counts; where such a file is longer than a buffer it stalls |
| PauseResume.NoLostWakeup | src/core/session/Session.cpp:84-98 | in every interleaving of pause, resume, stop and the loop: a loop that sleeps while nothing is paused has a signal being posted, and one about to sleep has one pending or being posted |
| PauseResume.IdleLoopGoesOn | src/core/session/Session.cpp:151-193 | once all calls have returned, a loop that is not paused can always take a step |
| PauseResume.PauseTakesEffect | src/core/session/Session.cpp:84-88 | when a call of pause returns the loop is paused and nothing else has changed |
| PauseResume.ResumeTakesEffect | src/core/session/Session.cpp:90-98 | when a call of resume returns that found the loop paused, it is paused no more, and a sleeping loop has been woken |
| PauseResume.UnpausedSends | src/core/session/Session.cpp:151-173 | in every reachable state in which all calls have returned, a loop that runs unpaused sends the frame that is due, or ends with the stream |
| PauseResume.ResumedSends | src/core/session/Session.cpp:90-98 | from every reachable paused state in which all calls have returned, a call of resume ends the pause, and the loop goes on by itself and sends the frame that was due |
| PauseResume.PausedSleeps | src/core/session/Session.cpp:157-193 | in a pause that nobody ends the loop falls asleep, unless it ends |
| PauseResume.PauseHolds | src/core/session/Session.cpp:84-88 | after a call of pause, and until somebody calls resume, the pause lasts and at most one frame goes out, in every interleaving |
| PauseResume.StopHolds | src/core/session/Session.cpp:77-82 | after stop the loop never runs again, a loop that waits for its timer is over at once, and at most one frame goes out |
| PauseResume.AtMostOneWhilePaused | src/core/session/Session.cpp:157-173 | from a pause to the next resume at most one frame goes out, and only if the loop had passed its check |
| PauseResume.AtMostOneAfterStop | src/core/session/Session.cpp:77-82 | after stop at most one frame goes out |
| PauseResume.StoppedEndsIff | src/core/session/Session.cpp:77-82 | a stopped loop ends if and only if it neither sleeps nor is bound to fall asleep without a signal |
| PauseResume.StoppedUnpausedEnds | src/core/session/Session.cpp:77-98 | in every reachable state in which all calls have returned, a stopped loop that is not paused ends |
| PauseResume.StoppedCanSleepForever | src/core/session/Session.cpp:77-98 | a run that really gets there: pause, sleep, stop, and the loop never ends |
| PauseResume.StopDoesNotWake | src/core/session/Session.cpp:77-82 | a loop that sleeps in a pause keeps sleeping through any run of stops and pauses, as long as nobody calls resume |
| PauseResume.PausedSendsTheSame | src/core/session/Session.cpp:151-193 | whatever the interleaving, the frames sent so far and the position reached are those of an undisturbed run |
| PauseResume.PausedSendsWhatTheSessionSends | src/core/session/Session.cpp:151-193 | and they are those of the session object that has produced as many frames without a pause |
| Alaw.MakeEncodeTable | src/infra/audio/Alaw.cpp:48-113 | cell x+32768 of the encode table holds the code of x, for all 65536 samples |
| Alaw.FindSegment | src/infra/audio/Alaw.cpp:72-81 | the first segment whose edge is not below the magnitude |
| Alaw.EncodeEntry | src/infra/audio/Alaw.cpp:58-106 | the code of one sample |
| Alaw.MakeDecodeTable | src/infra/audio/Alaw.cpp:124-164 | cell b of the decode table holds the sample of b as an unsigned word |
| Alaw.DecodeEntry | src/infra/audio/Alaw.cpp:134-158 | the sample of one code |
| Alaw.EncodeAlaw | src/infra/audio/Alaw.cpp:169-181 | every sample is encoded behind the offset and nothing else changes; nothing is written when the output is too short |
| Alaw.DecodeAlaw | src/infra/audio/Alaw.cpp:184-195 | every code is decoded and nothing else changes; nothing is written when the output is too short |
| Alaw.CompandedIsDecoded | src/infra/audio/Alaw.cpp:48-164 | for all samples but -7..-1, companding rounds the magnitude to the middle of its quantiser cell and keeps the sign |
| Alaw.SmallNegatives | src/infra/audio/Alaw.cpp:69 | samples -7..-1 come out as -248 |
| Alaw.ErrorOfNonNegative | src/infra/audio/Alaw.cpp:62-66 | samples from zero up are off by at most half a step of their segment |
| Alaw.ErrorBoundIff | src/infra/audio/Alaw.cpp:62-100 | the error is at most step/2 for samples from zero up and step/2+7 below zero, if and only if the sample is not in -7..-1 |
| Alaw.RelativeError | src/infra/audio/Alaw.cpp:62-100 | told by the sample alone: below 256 it is off by at most 8, from 256 on by at most a thirty-second part |
| Alaw.SegmentByMagnitude | src/infra/audio/Alaw.cpp:72-100 | for a magnitude of 2^(s+7) or more and less than twice that: segment s, steps of 2^(s+3), and the code 16s plus the number of the step |
| Alaw.FirstSegment | src/infra/audio/Alaw.cpp:84-100 | below 256 the code is the number of a step of 16 |
| Alaw.CodeBits | src/infra/audio/Alaw.cpp:19-102 | the code bit by bit: of the seven low bits every second one is toggled, from the lowest on, and the highest says that the sample is not negative |
| Alaw.CompandingIsMonotone | src/infra/audio/Alaw.cpp:48-164 | apart from -7..-1 companding never reorders two samples |
| Alaw.EncodeOfDecode | src/infra/audio/Alaw.cpp:48-164 | every one of the 256 codes survives decoding and encoding |
| Alaw.BuffersRoundTrip | src/infra/audio/Alaw.cpp:169-195 | a decoded buffer encodes to the same bytes |
| Alaw.CompandingIsIdempotent | src/infra/audio/Alaw.cpp:169-195 | companding twice is companding once |

## Left out

- HTTP, WebSocket, S3, request signing, routing, listeners, logging and observers: plumbing around libraries.
- `ActiveSessions` and its port pool: ports are pushed back twice on some paths, so the intended law does not hold of it.
- JSON text, TOML and hex parsing and the node factory: the model starts from decoded node and edge lists.
- AES, HKDF, `pow`, `tanh` and random numbers: arbitrary functions and values; nothing is claimed about the clipping curve above its limit.
- Float rounding: delays, phases and weights are reals, so nothing is said about drift or about reads that rounding moves onto a cell edge.
- Clocks, tick timing, statistics intervals, file retries and short first reads of a file.
- Client lists, addresses and simulated packet loss on the sending side; loss, duplication and reordering are in SrtpChannel.
- SrtpReceiver.AllEstimatesRightIffFollowed: streams that come within 2^16 packets of the end of the 48-bit index space are excluded.
- SrtpChannel.PlaintextIffNotLastBeforeWrap: the failing direction needs a cipher that is injective under the key and at least one full block, because a shorter payload can agree by chance.
- WavUtils.Open: sizes are unbounded, while the code narrows the frame count to 32 bits.
- GraphNodes.Node.ProcessMixer: the early return on a critical error is left out, because file inputs only report end of stream or underrun; frames are sequences of samples, the byte view of the buffers is left out.
- GraphNodes.Node.ConnectInput: the public setters for totals and next pointers outside parsing, `reset_state`, node ids and `in_buffer_processed_frames_` of nodes are left out.
- Preparation.Prepare: downloading assets and the error for a graph without a start node are left out; the first fill of all buffers is one step.
- Streams.PathPlaysProgramme: nodes with no frames, files that cannot be closed, refills of a playing file that are not in time and fills of a looped file that are not done before its next frame are excluded; what a single call does in those cases is in Executor.AudioExecutor.GetNextFrame, and what the buffer does in AsyncBuffer.RightIffTimely and AsyncBuffer.LateLap.
- PauseResume.NoLostWakeup: pause, resume and stop interleave with the loop between reading and writing a flag, so they are steps of a state machine and not methods of the session object; the resume channel is taken to be usable from any thread, as the code assumes.
- EndToEnd.FrameArrives: the last step is the server's own A-law decoder, because the client calls the library function `audioop.alaw2lin`.
- AsyncBuffer.RightIffTimely: the failing direction needs the blocks that were played to differ in their first frame from the ones two before, because a repetitive source hides a stale block.
- AsyncBuffer.Delivers: a refill that throws leaves the flag as it was and sets a faulted state; this path is not modelled.
- AsyncBuffer.LateLap: no refill is under way when the file is closed, and no request comes between the raised flag and the swap of the coroutine; the first is left open, the second is AsyncBuffer.RequestBeforeOwnSwap.
- BufferController.AsyncBufferController.GetFrame: the `offset` argument is always 0 in the repository and is left out.
- WavUtils.FindsDataIffUnpadded: only the padding of the chunk before the data chunk is modelled; behind an earlier padding byte the search reads bytes of chunk bodies as headers and may end up anywhere.
- GraphNodes.Node.CloseFile: the node only keeps its counter and whether its buffers are filled; resetting the buffer and rewinding the file are in BufferController, resetting the pitch shifter in PitchShifter. `refillLate` says that the fill of a looped file is not done before its next frame, and such a file then counts as one that is not filled again; whole streams exclude it.
- GraphNodes.Node.ProcessFile: in the graph a file input is a function from frame numbers to frames and flags that say whether its buffers were filled and whether its block is late; FileInputs and FileEffects say what that function is. The conversion of delay milliseconds to frames is left out.
- Playback.Play: lists with empty files, delays without frames, mixers without or with repeated inputs, and start nodes that are no audio source are excluded; what single calls do with them is in Executor.AudioExecutor.GetNextFrame.
- PauseResume.StoppedEndsIff: the loop runs on its own after the stop; a resume that comes later wakes it, as any other.
- FileEffects.Amplify: samples times gain are real numbers truncated towards zero, so float rounding and the overflow of the conversion to 32 bits for huge gains are left out.
- Programmes.AnyMissedIff: mixes that the clipping curve can reach are excluded, because clipping can hide what is missing; Promises.PromiseKeptIff covers them, with a condition on the mixed frames.
- EndToEnd.ListsArrive: for chains that end; laps go the same way through Promises.SendsPromisedLaps and EndToEnd.FrameArrives.
