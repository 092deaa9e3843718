# Verified models of rtjam's streaming core

rtjam lets musicians play together over the network. This project models the parts of it where a
byte stream, a circular buffer or a running sum has to mean something simple, and proves that it
does:

- **WebSocket** (`Bytes`, `WsFrame`, `WsState`, `WsSocket`, `WsBytes`, `WsReceive`, `WsTransmit`,
  `WsPolls`): the frame encoder, the incremental decoder with its in-place masking, reassembly and
  control frames, and the transmit buffer with its state machine. The class refines functions on
  values; the theorems are about every byte stream, every chunking and every run, up to two sockets
  back to back.
- **Jitter buffer** (`Samples`, `Statistics`, `JitterRing`, `JitterState`, `JitterTarget`,
  `JitterBuffers`, `JitterRuns`, `JitterOutputs`, `JitterLiveness`): a circular array with two
  indices refines a FIFO queue with duplicate suppression, prefill, underrun refill and trimming to
  an adaptive target.
- **Signal algorithms** (`YinDifference`, `YinMeaning`, `YinPast`, `YinAcf`, `Allpass`,
  `AllpassLines`, `AllpassFilter`): the constant-time update of the YIN difference function equals
  the direct sum; two different all-pass lines are one filter and conserve energy.
- **Jam protocol** (`JamPacket`, `JamPacketClass`, `PacketRuns`, `ChannelMap`, `JamMixer`,
  `JamMixerClass`, `MixerRuns`, `ServerRoom`, `ServerRuns`, `ServerMembers`, `ServerPings`): packet
  encode, relay and decode with the quantisation bound, the client's slot map, the server's room and
  its ping windows.
- **Recording** (`Recording`, `PacketStreamWriter`, `ReplayStream`): the file format, the writer
  thread's queue under every interleaving, and the reader.
- **Pedal board** (`PedalBoard`): the ping-pong loop is function composition; the chain edits.

Sample arithmetic is over the reals. Clocks, the answers of the operating system (recv, send, file
opening) and the contents of uninitialised memory that the code reads are parameters. Classes carry
the fields of the source and are proved against functions on values; what the source promises is
proved about those functions.

Where the code does not do what its names or documentation suggest, the model follows the code:

- `setSmoothness` can leave the target depth outside 512..8192 until the next `getOut`, exactly for
  prefill depths outside 0..7680 (`JitterState.FlushedTarget`, and
  `JitterLiveness.SmoothnessTooHigh` for an input), and a prefill depth above what the overflow
  guard lets in is silence for ever (`JitterLiveness.BufferStarts`).
- The overflow guard is right for blocks of up to 511 samples only (`JitterRing.PutSafeIff`), and
  for every longer one there is a run that it fails on (`JitterRing.OverflowReached`).
- A room admits one player more than its size, exactly when a newcomer's packet finds it full
  (`ServerRuns.StepOverfills`, `ServerRuns.ThirteenPlayers`).
- The dip search looks one value past the end of its row, and what it finds there can decide the
  result: exactly when is `YinPast.PastIgnoredIff`, and silence is such a case
  (`YinPast.SilenceFindsPast`).
- After a CLOSE frame the WebSocket receiver goes on delivering data frames: exactly when is
  `WsReceive.SilentAfterCloseIff`, with an input in `WsReceive.TextAfterClose`.
- A TEXT or BINARY frame inside an unfinished message is treated as its continuation: exactly when
  is `WsReceive.OwnPayloadIff`, with an input in `WsReceive.MessagesRunTogether`.
- The id 40000 is no id: a client that has it shares its slot (`ChannelMap.MarkerIsShared`), and
  slot 0 stays ours exactly if we do not have it (`ChannelMap.OwnSlotIff`).
- A client that sends twice without receiving in between echoes the server's time with its bytes
  reversed: exactly when is `PacketRuns.EchoIff`, with a time in `PacketRuns.OneReversed`.
- The first block of a new client is lost as a duplicate in a buffer just flushed
  (`PacketRuns.NewClientStream`, `JitterLiveness.FirstNumberZero`); a number is taken for a duplicate
  exactly if it repeats the last one (`JitterTarget.NumbersCounted`).
- A recording reopened before the worker has drained the last one loses what was still queued
  (`PacketStreamWriter.RefusalLosesQueue`, `PacketStreamWriter.ReopenedTooSoon`).

`dafny verify dfyconfig.toml` checks everything.

## Model

| member | source | states |
|---|---|---|
| `WsFrame.PeekWire` | plugins/common/easywsclient.cpp:306-407 | every frame of section 5.2 of RFC 6455 - any length form, reserved bits, mask - followed by any bytes is recognised with its exact fin, opcode, unmasked payload and size |
| `WsFrame.WirePeek` | plugins/common/easywsclient.cpp:306-407 | conversely, whatever the receiver takes for a whole frame is the wire form of one with that meaning: the peek and the grammar are inverse |
| `WsFrame.PeekStable` | plugins/common/easywsclient.cpp:306-384 | a complete frame or a refused length stays what it is whatever bytes arrive behind it |
| `WsFrame.MaskedTwice` | plugins/common/easywsclient.cpp:393-399 | masking (section 5.3 of RFC 6455) undoes itself |
| `WsFrame.OutgoingIsShortest` | plugins/common/easywsclient.cpp:471-519 | no frame that carries a payload of that size with that masking is shorter than the one written by the encoder |
| `WsBytes.SentByte` | plugins/common/easywsclient.cpp:459-531 | byte i of a message goes out as it is or, with masking, differing by exactly byte i mod 4 of the key 12 34 56 78, which stands in front; the message is the last thing appended |
| `WsBytes.SentFirstBytes` | plugins/common/easywsclient.cpp:471-519 | the first two bytes of a frame: final, its opcode, mask bit and length code |
| `WsBytes.SentLength` | plugins/common/easywsclient.cpp:471-519 | the longer lengths stand behind, big-endian in two or eight bytes |
| `WsBytes.ReadByte` | plugins/common/easywsclient.cpp:393-399 | byte i of a payload that is read is byte i behind the header or, in a masked frame, that byte differing by exactly byte i mod 4 of the four in front |
| `WsBytes.MaskedAppend` | plugins/common/easywsclient.cpp:393-399 | masking works on blocks of four bytes one after the other, each with the whole key |
| `WsBytes.MaskedRest` | plugins/common/easywsclient.cpp:393-399 | a block of up to four bytes meets the bytes of the key in turn |
| `WsBytes.ZerosShowKey` | plugins/common/easywsclient.cpp:393-399 | a message of zeros shows the key over and over |
| `WsBytes.SectionExamples` | plugins/common/easywsclient.cpp:306-407 | the short examples of section 5.7 of RFC 6455, masked Hello among them, are read as they say |
| `WsBytes.LongExamples` | plugins/common/easywsclient.cpp:306-407 | the examples with lengths of two and of eight bytes too |
| `WsSocket.WebSocket.SendData` | plugins/common/easywsclient.cpp:458-531 | the in-place encoder appends exactly the wire form of the message frame, and nothing once the socket is closing or closed |
| `WsSocket.WebSocket.MaskTx` | plugins/common/easywsclient.cpp:523-530 | the masking loop changes only the bytes from its offset on, to their masked form |
| `WsSocket.WebSocket.Close` | plugins/common/easywsclient.cpp:533-543 | queues one close frame and leaves OPEN; nothing otherwise |
| `WsSocket.WebSocket.UnmaskRx` | plugins/common/easywsclient.cpp:393-399 | the in-place unmasking loop changes only the payload of the current frame |
| `WsSocket.WebSocket.HandleFrame` | plugins/common/easywsclient.cpp:386-431 | data is reassembled and delivered at FIN, PING answered, PONG ignored, everything else answered with a close |
| `WsSocket.WebSocket.DispatchBinary` | plugins/common/easywsclient.cpp:299-435 | the loop over the receive buffer refines the dispatch function that the stream theorems are about, and terminates |
| `WsSocket.WebSocket.Poll` | plugins/common/easywsclient.cpp:195-275 | the receive and transmit loops for any answers of recv and send |
| `WsPolls.ReceiveIs` | plugins/common/easywsclient.cpp:220-247 | every byte that recv gives before it blocks, fails or ends goes into the receive buffer in order; an error or the end closes |
| `WsPolls.TransmitIs` | plugins/common/easywsclient.cpp:248-269 | as many bytes as the answers of send take leave the transmit buffer from its front; a refusal closes |
| `WsPolls.PollIs` | plugins/common/easywsclient.cpp:195-275 | all that one poll does, and when exactly it closes the socket |
| `WsPolls.PolledText` | plugins/common/easywsclient.cpp:220-247 | a text in one answer of recv is in the receive buffer after the poll |
| `WsPolls.PollsAreFeeds` | plugins/common/easywsclient.cpp:195-435 | over any run of polls, dispatches, sends and closes the receiving side is that of a receiver that got exactly the bytes of the polls |
| `WsPolls.PollsAreChunks` | plugins/common/easywsclient.cpp:195-435 | the same with the data of the polls as chunks |
| `WsPolls.TwoSockets` | plugins/common/easywsclient.cpp:195-531 | two sockets, each with its own run: with any part of the bytes taken from the network, what one has delivered is a prefix of what the other was asked to send |
| `WsPolls.TwoSocketsAll` | plugins/common/easywsclient.cpp:195-531 | with all bytes taken and the sender still OPEN, it is exactly what was asked |
| `WsReceive.ChunkingDoesNotMatter` | plugins/common/easywsclient.cpp:299-435 | for every socket state and any two byte strings, dispatching them one after the other or at once gives the same callbacks, leftover bytes, partial message, transmit buffer, ready state and bad flag |
| `WsReceive.AnyChunking` | plugins/common/easywsclient.cpp:299-435 | the same for any number of chunks |
| `WsReceive.ParseWireAll` | plugins/common/easywsclient.cpp:306-407 | any sequence of wire frames and then less than a frame splits into exactly those frames and that remainder |
| `WsReceive.ParseIsWireAll` | plugins/common/easywsclient.cpp:306-407 | every byte string is such a sequence followed by a remainder without a complete frame |
| `WsReceive.DispatchMeaning` | plugins/common/easywsclient.cpp:386-433 | a dispatch delivers the reassembled messages of the frames in the buffer, answers each PING before the first closing frame with one PONG of the same payload in order while OPEN (sections 5.5.2 and 5.5.3 of RFC 6455), sends one close frame for a closing one, and keeps the remainder |
| `WsReceive.OpcodeMeaning` | plugins/common/easywsclient.cpp:386-431 | opcodes 0, 1 and 2 carry data, 9 is answered by 10 with the same payload, 10 is ignored, 8 and all others are answered with the six bytes of a close frame |
| `WsReceive.PongsForPings` | plugins/common/easywsclient.cpp:408-431 | the PONGs queued have the payloads of the PINGs before the first closing frame, in order, and there is nothing else but one close frame for a closing one |
| `WsReceive.ControlFramesAreInvisible` | plugins/common/easywsclient.cpp:386-433 | interleaved control frames change no message (section 5.4 of RFC 6455) |
| `WsReceive.ReassemblyConserves` | plugins/common/easywsclient.cpp:390-407 | delivered messages and partial message are the data payloads in order, no byte lost or doubled, one message for each FIN |
| `WsReceive.AllFragmentsReassemble` | plugins/common/easywsclient.cpp:390-407 | messages cut into any fragments come out whole |
| `WsReceive.Delivery` | plugins/common/easywsclient.cpp:299-531 | end to end: any messages in any fragments, any control frames between, any length forms and masks, any chunking: exactly those messages are delivered, nothing is left over, and the replies are the PONGs owed |
| `WsReceive.SilentAfterCloseIff` | plugins/common/easywsclient.cpp:386-433 | frames behind a closing one reach no callback if and only if no data frame among them has FIN set |
| `WsReceive.TextAfterClose` | plugins/common/easywsclient.cpp:386-433 | the input that shows it: CLOSE and then a text, which a closing socket delivers |
| `WsReceive.OwnPayloadIff` | plugins/common/easywsclient.cpp:390-407 | a final TEXT or BINARY frame is delivered as its own payload if and only if no part of an unfinished message is held |
| `WsReceive.MessagesRunTogether` | plugins/common/easywsclient.cpp:390-407 | the input that shows it: an unfinished text and a binary message, delivered as one |
| `WsTransmit.EveryRunAccounted` | plugins/common/easywsclient.cpp:195-275 | on every run of sends, closes, polls and dispatches: bytes taken by the socket followed by the transmit buffer are the queued frames in order, the ready state never moves back, a close frame is queued at most once and nothing after it |
| `WsTransmit.TransmitKeeps` | plugins/common/easywsclient.cpp:248-269 | partial sends only move bytes from the buffer to the socket |
| `WsTransmit.ReceiveKeeps` | plugins/common/easywsclient.cpp:220-247 | the receive loop only adds to the receive buffer and, on an error, closes |
| `WsTransmit.QueuedIsRequested` | plugins/common/easywsclient.cpp:437-471 | the messages queued are the requested ones up to some point, all of them while the socket is OPEN |
| `WsTransmit.EmptiedIff` | plugins/common/easywsclient.cpp:248-269 | the transmit buffer empties if and only if the answers of send have room for it |
| `WsTransmit.PollDelivers` | plugins/common/easywsclient.cpp:195-275 | progress: a poll with that room leaves every queued frame with the socket and a closing socket closed |
| `WsTransmit.PeerDelivers` | plugins/common/easywsclient.cpp:299-531 | everything one socket queued, in any chunks, is delivered by another: those messages, nothing else, no byte left over |
| `WsTransmit.EveryRequestArrives` | plugins/common/easywsclient.cpp:195-531 | after any run that is still OPEN the peer that got all bytes has delivered exactly the requested messages |
| `WsTransmit.ArrivalsAreRequests` | plugins/common/easywsclient.cpp:195-531 | at any moment of any run, with any part of the bytes arrived, the peer has delivered a prefix of the requested messages |
| `Statistics.StreamTimeStats.Add` | plugins/common/TimersAndStats.cpp:73-87 | the statistics update, field by field |
| `Statistics.LeakyApproaches` | plugins/common/TimersAndStats.cpp:83-86 | each sample moves a running value toward its limit by exactly one window's share of the way; the limit is the input times (w-1)/w |
| `Statistics.SampleMoves` | plugins/common/TimersAndStats.cpp:73-87 | what a sample does to the mean, the deviation around the new mean and the peak, as equations between the fields |
| `Statistics.SigmaNonNegative` | plugins/common/TimersAndStats.cpp:85-86 | the deviation statistic never goes negative |
| `Statistics.PeakDetector.GetSample` | plugins/common/DSP/SignalBlocks/PeakDetector.hpp:25-44 | the envelope update |
| `Statistics.FilterBounds` | plugins/common/DSP/SignalBlocks/PeakDetector.hpp:25-44 | from a non-negative state and coefficients in 0..1 the envelope stays non-negative and never exceeds the larger of its input and its past |
| `Statistics.FilterMoves` | plugins/common/DSP/SignalBlocks/PeakDetector.hpp:25-44 | each sample moves the envelope toward its magnitude by exactly the attack share of the distance when rising and the release share otherwise |
| `Statistics.HeldApproaches` | plugins/common/DSP/SignalBlocks/PeakDetector.hpp:25-44 | under a constant input the distance of the envelope to it loses that same share at every sample |
| `JitterRing.AppendDepth` | plugins/common/JitterBuffer.cpp:61-70 | exactly which appends the two indices can express: depth grows by the block size if and only if the block fits |
| `JitterRing.Append` | plugins/common/JitterBuffer.cpp:108-123 | a block that fits is appended to the circular contents, wrapped or not |
| `JitterRing.Read` | plugins/common/JitterBuffer.cpp:174-187 | a block that is there is the front of the circular contents, and what remains is the rest |
| `JitterRing.PutSafeIff` | plugins/common/JitterBuffer.cpp:96-101 | the overflow guard protects blocks of up to 511 samples and no longer ones: from 512 on a full buffer can look empty |
| `JitterRing.OverflowReached` | plugins/common/JitterBuffer.cpp:96-187 | for every block size from 512 to 1024 and every target in range, a run of puts and one get from empty leads to a put that passes the guard and is lost |
| `JitterRing.GetSafeIff` | plugins/common/JitterBuffer.cpp:157-187 | trimming to the target leaves enough to read for requests of up to 512 samples and no larger ones |
| `JitterBuffers.CopySamples` | plugins/common/JitterBuffer.cpp:190-196 | copies a block into place and nothing else |
| `JitterBuffers.JitterBuffer.constructor` | plugins/common/JitterBuffer.cpp:24-35 | starts empty and filling |
| `JitterBuffers.JitterBuffer.Flush` | plugins/common/JitterBuffer.cpp:37-52 | empties the queue and starts filling to the given depth; the statistics survive |
| `JitterBuffers.JitterBuffer.SetSmoothness` | plugins/common/JitterBuffer.cpp:55-59 | flush to a depth that follows the setting |
| `JitterBuffers.JitterBuffer.CurrentDepth` | plugins/common/JitterBuffer.cpp:61-70 | the index distance is the length of the queue |
| `JitterBuffers.JitterBuffer.PutIn` | plugins/common/JitterBuffer.cpp:78-105 | the class over array and indices refines the queue operation whenever the block fits, so for every block of up to 511 samples |
| `JitterBuffers.JitterBuffer.AppendBuffer` | plugins/common/JitterBuffer.cpp:108-123 | the two-part copy appends to the queue |
| `JitterBuffers.JitterBuffer.GetOut` | plugins/common/JitterBuffer.cpp:125-188 | the class refines the queue operation for every request that does not overtake the writer, so for every one of up to 512 samples; for the others, which cells are read and where the indices end; the rest of the output array is untouched |
| `JitterBuffers.JitterBuffer.MeasureDepth` | plugins/common/JitterBuffer.cpp:127-134 | statistics, filter and clamp give the measured target, in 512..8192 |
| `JitterBuffers.JitterBuffer.PlayBlock` | plugins/common/JitterBuffer.cpp:157-187 | trim and read on the two indices are trim and read on the queue |
| `JitterBuffers.JitterBuffer.ReadBlock` | plugins/common/JitterBuffer.cpp:174-187 | the one- or two-part copy takes the front of the queue |
| `JitterState.TargetInRange` | plugins/common/JitterBuffer.cpp:128-134 | after every measurement the target depth is in 512..8192, whatever the deviation factor and the depths were |
| `JitterTarget.StatisticsFollow` | plugins/common/JitterBuffer.cpp:127-128 | the statistics take in the depth that getOut finds |
| `JitterTarget.EnvelopeFollows` | plugins/common/JitterBuffer.cpp:130 | the envelope takes up its share of nSigma times the deviation that results |
| `JitterTarget.TargetFollows` | plugins/common/JitterBuffer.cpp:130-134 | the target is 512 samples and that envelope, cut to a whole number and to 8192 |
| `JitterTarget.FirstTarget` | plugins/common/JitterBuffer.cpp:127-134 | the first getOut at depth 1000 with an attack share of one half sets the target to 670 |
| `JitterTarget.TrimmedExactly` | plugins/common/JitterBuffer.cpp:157-187 | a played block comes from behind exactly the samples over the target, and the target or the smaller depth less the block is left |
| `JitterTarget.NumbersCounted` | plugins/common/JitterBuffer.cpp:81-95 | a repeated number counts as duplicate, the next one as nothing, a gap of up to 2^31 ahead as a loss, across the wrap of 32 bits |
| `JitterState.FlushedTarget` | plugins/common/JitterBuffer.cpp:48 | between a flush and the next getOut the target field is in that range exactly for prefill depths of 0 to 7680, of all 32-bit depths |
| `JitterRuns.FifoRun` | plugins/common/JitterBuffer.cpp:61-188 | the jitter buffer refines a FIFO queue: after every run of puts and gets with any targets in 512..8192 the queue is the accepted stream from the position reached on, and every output block is silence or the next contiguous part of the stream after an oldest-first trim |
| `JitterRuns.GetLineIsFront` | plugins/common/JitterBuffer.cpp:136-188 | one output block is silence or the front of the queue after the trim, and then at most 8192 less the block remain |
| `JitterRuns.DepthConserved` | plugins/common/JitterBuffer.cpp:61-188 | depth is samples accepted less played less trimmed, over every run |
| `JitterRuns.OperationsAreEvents` | plugins/common/JitterBuffer.cpp:78-188 | runs with the statistics in the loop are such runs |
| `JitterOutputs.OutputsAreBlocks` | plugins/common/JitterBuffer.cpp:125-188 | what the buffer puts out, its statistics in the loop, are the blocks of that run |
| `JitterOutputs.BufferIsFifo` | plugins/common/JitterBuffer.cpp:61-188 | from a flush on, with the targets that the statistics make: all output is silence or contiguous parts of the accepted stream in order, each after exactly what was trimmed, and what is left is the rest of that stream |
| `JitterLiveness.SteadyRounds` | plugins/common/JitterBuffer.cpp:78-188 | the state between rounds of equal puts and gets: filling to a known level, or playing with a bounded rest |
| `JitterLiveness.PlaybackStarts` | plugins/common/JitterBuffer.cpp:78-188 | with puts and gets of equal size alternating and sequence numbers distinct from the one before, playback runs in exactly the rounds from ceil(fillDepth/frames) on if that prefill depth can be reached past the overflow guard, and in no round otherwise |
| `JitterLiveness.BufferStarts` | plugins/common/JitterBuffer.cpp:78-188 | the same for the buffer itself with the targets its statistics make: silence before that round, the front of its queue with a bounded rest from there on, or silence for ever |
| `JitterLiveness.SmoothnessDelays` | plugins/common/JitterBuffer.cpp:55-59 | a smoothness setting x makes playback start in the first round by which floor(10240 x) samples have come in, if so many can, and sets the deviation factor to 7 and 100 x |
| `JitterLiveness.SmoothnessTooHigh` | plugins/common/JitterBuffer.cpp:48-59 | a setting of one puts the target to 10752, and one of ten asks for more prefill than blocks of 128 samples can bring |
| `JitterLiveness.LatencyBounded` | plugins/common/JitterBuffer.cpp:157-188 | after any played round at most 8192 less the block is left |
| `JitterLiveness.FirstNumberZero` | plugins/common/JitterBuffer.cpp:81-95 | a stream whose first sequence number is 0 loses its first block as a duplicate after a flush |
| `YinDifference.Slide` | plugins/common/DSP/YinAcf.hpp:522-540 | sliding the window by one sample removes one term of the difference sum and adds one |
| `YinDifference.AccumulatedIsDifference` | plugins/common/DSP/YinAcf.hpp:522-540 | after any number of samples from reset the value accumulated at each lag is the direct sum over the window |
| `YinDifference.NormalisedBounds` | plugins/common/DSP/YinAcf.hpp:523-540 | the normalised difference at lag i lies in [0,i), as the normaliser is at least 1; so it stays under the search's sentinel for windows of up to 10001 |
| `YinMeaning.NormaliserIsSum` | plugins/common/DSP/YinAcf.hpp:531-538 | the normaliser is one plus the sum of the differences at all lags from 1 on |
| `YinMeaning.CumulativeMean` | plugins/common/DSP/YinAcf.hpp:531-538 | so the normalised difference is the difference over the cumulative mean of the differences |
| `YinMeaning.DifferenceZeroIff` | plugins/common/DSP/YinAcf.hpp:522-540 | the difference vanishes at exactly the lags at which the window repeats itself |
| `YinDifference.SearchIsChosen` | plugins/common/DSP/YinAcf.hpp:428-453 | the running minimum with its early exit finds the dip that the specification of the search chooses |
| `YinPast.PastIgnoredIff` | plugins/common/DSP/YinAcf.hpp:428-453 | the value read past the row changes no result if and only if the search does not reach the last lag, or the row rises to it, or it is not below the sentinel and every dip before it, or one of those ended the search |
| `YinPast.OpenFound` | plugins/common/DSP/YinAcf.hpp:428-453 | otherwise that value decides: the last lag is the result exactly if the value is larger than its entry |
| `YinPast.SilenceFindsPast` | plugins/common/DSP/YinAcf.hpp:225-275 | the input that shows it: on silence, where every estimator starts, the largest lag is found if the value past the row is positive and no lag otherwise |
| `YinDifference.ChosenUnique` | plugins/common/DSP/YinAcf.hpp:428-453 | the specification of the dip search determines its result |
| `YinAcf.YinACF.Reset` | plugins/common/DSP/YinAcf.hpp:225-243 | clears line, ring and rows: silence, and solutions of silence |
| `YinAcf.YinACF.constructor` | plugins/common/DSP/YinAcf.hpp:176-195 | any sizes; from a window of 3 and a maximum period of 2 on, a reset estimator: zero delay line, consistent solutions |
| `YinAcf.YinACF.PushInput` | plugins/common/DSP/YinAcf.hpp:388-391 | the circular store shifts the delay line by one |
| `YinAcf.YinACF.GetSample` | plugins/common/DSP/YinAcf.hpp:397-401 | indexes the delay line from its oldest sample |
| `YinAcf.YinACF.ComputeDiff` | plugins/common/DSP/YinAcf.hpp:522-540 | the in-place update from the previous solution leaves in the new one, for every lag, the direct sum over the delay line and its normalised value, and touches no other solution |
| `YinAcf.YinACF.GetDip` | plugins/common/DSP/YinAcf.hpp:428-453 | returns the first local dip below the threshold, else the lowest local dip (the first of equals), else 0, among dips under the sentinel, whatever value lies past the end of the row |
| `YinAcf.YinACF.Tick` | plugins/common/DSP/YinAcf.hpp:259-275 | every tick keeps this invariant over the run: the delay line is that of all samples heard, and each row of the ring solves the delay line of the tick that wrote it; and it records the chosen dip |
| `YinAcf.HistoryTurns` | plugins/common/DSP/YinAcf.hpp:388-415 | turning the ring by one keeps every row at the tick it belongs to |
| `Allpass.RunConserves` | plugins/common/DSP/SignalBlocks/AllpassDelay.hpp:18-27 | a lossless cell in a line of any length conserves weighted energy on every input from every state |
| `Allpass.DelayLossless` | plugins/common/DSP/SignalBlocks/AllpassDelay.hpp:18-27 | the all-pass step is lossless for every gain, stored squares weighing 1-g*g |
| `Allpass.VerbLossless` | plugins/common/DSP/Pedals/MVerb.h:355-365 | so is the other form, whose stored values carry the weight |
| `Allpass.PassiveIff` | plugins/common/DSP/SignalBlocks/AllpassDelay.hpp:18-27 | a cleared line never emits more energy than it took in exactly if g*g <= 1 |
| `Allpass.CascadeConserves` | plugins/common/DSP/SignalBlocks/AllpassDelay.hpp:18-27 | a cascade of any lengths and gains conserves energy |
| `Allpass.CascadePassive` | plugins/common/DSP/SignalBlocks/AllpassDelay.hpp:18-27 | a cascade that starts empty never emits more energy than it took in |
| `Allpass.VerbStage` | plugins/common/DSP/Pedals/MVerb.h:355-365 | MVerb's form is lossless as a stage of a cascade, stored squares weighing 1/(1-g*g) |
| `Allpass.UnitsConserve` | plugins/common/DSP/Pedals/MVerb.h:143-144 | any cascade of cleared lines conserves energy: any lengths and gains, each line in either form, MVerb's with a gain other than one in magnitude |
| `Allpass.UnitsPassive` | plugins/common/DSP/Pedals/MVerb.h:143-144 | any cascade of cleared lines with gains up to one in magnitude, of any lengths and each in either form, never emits more energy than it took in |
| `Allpass.VerbPassiveIff` | plugins/common/DSP/Pedals/MVerb.h:355-365 | a cleared line of MVerb's form is passive exactly if g*g <= 1 |
| `Allpass.VerbSimulatesDelay` | plugins/common/DSP/Pedals/MVerb.h:355-365 | one step keeps each cell of this form equal to 1-g*g times the matching cell of the other and gives the same output |
| `Allpass.SameFilter` | plugins/common/DSP/Pedals/MVerb.h:355-365 | with the same length and gain the two implementations give the same output on every input sequence |
| `AllpassFilter.DelayEquation` | plugins/common/DSP/SignalBlocks/AllpassDelay.hpp:18-27 | from cleared, every output is the input times minus the gain, and the input a line's length ago, and the gain times the output a line's length ago: the all-pass difference equation |
| `AllpassFilter.VerbEquation` | plugins/common/DSP/Pedals/MVerb.h:355-365 | the other form solves the same equation |
| `Allpass.LineIsHistory` | plugins/common/DSP/Pedals/MVerb.h:441-461 | a tap at a fixed offset reads what was written a fixed number of samples ago |
| `Allpass.PlainDelays` | plugins/common/DSP/Pedals/MVerb.h:507-514 | outputs and then contents of a plain line are its first contents and then its inputs |
| `AllpassLines.AllpassDelay.GetSample` | plugins/common/DSP/SignalBlocks/AllpassDelay.hpp:18-27 | overwriting one cell and advancing the index is one step of the queue |
| `AllpassLines.VerbAllpass.Process` | plugins/common/DSP/Pedals/MVerb.h:355-365 | so is the other update, with the other cell |
| `AllpassLines.StaticAllpassFourTap.Process` | plugins/common/DSP/Pedals/MVerb.h:411-431 | the same for the four-index line; taps keep their distance to the write position |
| `AllpassLines.StaticAllpassFourTap.GetIndex` | plugins/common/DSP/Pedals/MVerb.h:441-461 | a tap reads the queue at its offset |
| `AllpassLines.StaticAllpassFourTap.SetLength` | plugins/common/DSP/Pedals/MVerb.h:463-472 | the length is clamped to the buffer, and the line goes on working exactly if its indices are inside the new length |
| `AllpassLines.StaticAllpassFourTap.ClearAndSetLength` | plugins/common/DSP/Pedals/MVerb.h:463-478 | clearing and resizing gives a zero line of the clamped length |
| `AllpassLines.StaticDelayLineFourTap.Process` | plugins/common/DSP/Pedals/MVerb.h:555-568 | the plain four-tap line: one step of the delay queue, taps at fixed offsets |
| `JamPacket.SwapTwice` | plugins/common/JamNetStuff.cpp:76-84 | byte-order conversion there and back is the identity |
| `JamPacket.SwappedIsBigEndian` | plugins/common/JamNetStuff.cpp:76-84 | a converted field lies in memory, and so on the wire, in network order |
| `JamPacket.ReverseAt` | plugins/common/JamNetStuff.cpp:76-84 | the bytes of a field in memory are those of its network order from the end |
| `JamPacket.SampleFidelity` | plugins/common/JamNetStuff.cpp:86-104 | a decoded sample d of a clamped sample s satisfies s - 5/32768 < d <= s; codes stay in 0..65532 |
| `JamPacket.SampleInRange` | plugins/common/JamNetStuff.cpp:86-104 | for samples in -1..1 the bound is against the sample itself; louder ones get the largest and the smallest code |
| `JamPacket.SampleBytes` | plugins/common/JamNetStuff.cpp:86-104 | a sample is two bytes at its place in the block, the more significant one first |
| `JamPacket.CountsOfGoodPackets` | plugins/common/JamNetStuff.cpp:106-122 | a datagram of the packet's sample rate sets the counts from its size, any other leaves them |
| `JamPacket.SampleMonotone` | plugins/common/JamNetStuff.cpp:86-104 | a larger sample never decodes smaller |
| `JamPacket.RelayKeeps` | plugins/common/JamNetStuff.cpp:455-506 | the server's decode and re-encode preserves client id, sequence number and every audio byte, and stamps channel and beat |
| `JamPacket.EndToEnd` | plugins/common/JamNetStuff.cpp:65-143 | client encode, server relay, receiver decode: client id, sequence number and sample count arrive, and every sample of both channels within the fidelity bound, in its own channel and place |
| `PacketRuns.EmittedCarry` | plugins/common/JamNetStuff.cpp:65-84 | over any run of sends and receptions the k-th block that a client sends carries its id and the k-th number from the first on, modulo 2^32 |
| `PacketRuns.RunArrives` | plugins/common/JamNetStuff.cpp:65-143 | through the server and at the receiver the k-th block has the k-th number, its id, its size and its samples within the bound |
| `PacketRuns.RunIsStream` | plugins/common/JamNetStuff.cpp:65-143 | so the blocks of a client are a stream that no jitter buffer takes for duplicates, if the first number is not the last one it saw |
| `PacketRuns.NewClientStream` | plugins/common/JamNetStuff.cpp:38-39 | a new client's first block has the number 0, which a flushed buffer takes for a duplicate; from the second block on it is such a stream |
| `PacketRuns.ServerFieldsArrive` | plugins/common/JamNetStuff.cpp:76-84 | a client reads the server's time, channel and beat as they were stamped |
| `PacketRuns.EchoIff` | plugins/common/JamNetStuff.cpp:76-84 | after n blocks with nothing received in between, the next one echoes the server's time exactly if n is even or the time reads the same backwards |
| `PacketRuns.OneReversed` | plugins/common/JamNetStuff.cpp:76-84 | the time 1 is one that does not read the same backwards |
| `JamPacketClass.JamPacket.EncodeAudio` | plugins/common/JamNetStuff.cpp:65-74 | the in-place encoder writes both channels at the front of the message buffer and leaves its tail |
| `JamPacketClass.JamPacket.EncodeHeader` | plugins/common/JamNetStuff.cpp:76-84 | a client stamps id and next number, a server passes them on |
| `JamPacketClass.JamPacket.DecodeHeader` | plugins/common/JamNetStuff.cpp:106-122 | a packet of another sample rate or shorter than a header keeps the old counts |
| `JamPacketClass.JamPacket.DecodeJamBuffer` | plugins/common/JamNetStuff.cpp:124-137 | both output arrays get their channel and keep their tails |
| `ChannelMap.ChannelMap.GetChannel` | plugins/common/ChannelMap.cpp:40-66 | the two scans over the array refine the lookup |
| `ChannelMap.ChannelMap.PruneStaleChannels` | plugins/common/ChannelMap.cpp:68-78 | exactly the stale slots from the start index on are emptied |
| `ChannelMap.ChannelMap.ClearFor` | plugins/common/ChannelMap.cpp:25-38 | clear and own id give the initial map |
| `ChannelMap.GetChannelMeaning` | plugins/common/ChannelMap.cpp:40-78 | a lookup answers the slot that holds the id afterwards, or -1 exactly if all twelve slots are held by other live ids; no other slot changes but by expiry |
| `ChannelMap.RefusedIff` | plugins/common/ChannelMap.cpp:40-66 | -1 exactly if all twelve slots are held by other live ids, in any state |
| `ChannelMap.ExpiredIff` | plugins/common/ChannelMap.cpp:68-78 | a client is dropped exactly when last heard more than two seconds ago, our own slot never |
| `ChannelMap.NewcomerGetsFirst` | plugins/common/ChannelMap.cpp:56-66 | a newcomer gets the first slot that is empty or whose client was silent for more than two seconds, and is refused only if there is none |
| `ChannelMap.RunInjective` | plugins/common/ChannelMap.cpp:25-78 | on every run slot 0 holds our id and no id holds two slots |
| `ChannelMap.RunUnique` | plugins/common/ChannelMap.cpp:25-78 | no id ever holds two slots, even if our own id is the empty marker |
| `ChannelMap.OwnSlotIff` | plugins/common/ChannelMap.cpp:25-78 | slot 0 stays ours on every run if and only if our id is not the empty marker |
| `ChannelMap.LiveClientKeepsSlot` | plugins/common/ChannelMap.cpp:40-78 | a client heard at gaps of at most two seconds keeps its slot over any run, gets all its packets routed there and no one else's |
| `ChannelMap.OwnSlot` | plugins/common/ChannelMap.cpp:25-78 | packets with our id, and no others, go to slot 0, at any times |
| `ChannelMap.LiveClientsNeverMix` | plugins/common/JamMixer.cpp:125-135 | while a client is live no other client's packet reaches its jitter buffers |
| `ChannelMap.MarkerIsShared` | plugins/common/ChannelMap.cpp:58-63 | an id equal to the empty marker reserves nothing: the next newcomer gets the same slot |
| `JamMixerClass.JamMixer.AddData` | plugins/common/JamMixer.cpp:125-135 | the class over 24 buffer objects refines the routing on values: a packet goes into the two buffers of its sender's slot and leaves the other objects as they were |
| `JamMixerClass.JamMixer.AddLocalMonitor` | plugins/common/JamMixer.cpp:137-141 | the local input goes into the buffers of slot 0 under the mixer's own number |
| `JamMixerClass.JamMixer.GetMix` | plugins/common/JamMixer.cpp:74-80 | the read loop takes one block from each of the 24 buffers into its own mix buffer |
| `JamMixer.LiveClientStream` | plugins/common/JamMixer.cpp:125-135 | over any run of packets of any clients, the two jitter buffers of a live client get exactly its packets, in order, each channel in its own buffer |
| `MixerRuns.ChannelRun` | plugins/common/JamMixer.cpp:74-141 | over any run of packets of any clients, reads, expiries and local input, each buffer of a live client's slot goes through that client's own puts and the reads, and nothing else |
| `MixerRuns.LiveClientPlays` | plugins/common/JamMixer.cpp:74-141 | so a live client's channel plays silence and contiguous parts of its own accepted samples, in order, each after exactly what was trimmed |
| `ServerRoom.PlayerList.Prune` | plugins/common/JamNetStuff.cpp:224-240 | the erase loop keeps exactly the players heard from within half a second, in order |
| `ServerRoom.PlayerList.UpdateChannel` | plugins/common/JamNetStuff.cpp:242-279 | the scan refreshes a known player or appends a newcomer while there is room |
| `ServerRoom.PlayerList.StartPing` | plugins/common/JamNetStuff.cpp:291-297 | every player owes an answer |
| `ServerRoom.JamServer.DecidePing` | plugins/common/JamNetStuff.cpp:481-504 | the ping window state machine |
| `ServerRoom.JamServer.SendDataToRoomMembers` | plugins/common/JamNetStuff.cpp:455-526 | the decisions of one packet: who is in the room, which pings start, who is sent what |
| `ServerRuns.RunRoom` | plugins/common/JamNetStuff.cpp:224-279 | on every run client ids are distinct and at most room size plus one players are in the room |
| `ServerRuns.StepOverfills` | plugins/common/JamNetStuff.cpp:224-279 | a step leaves more players than the room's size exactly if the prune does, or if it leaves as many and a packet of a newcomer arrives |
| `ServerRuns.CrowdGetsIn` | plugins/common/JamNetStuff.cpp:224-279 | of n clients who turn up at once in an open room, n get in up to one more than its size |
| `ServerRuns.ThirteenPlayers` | plugins/common/JamNetStuff.cpp:264-274 | thirteen packets from distinct clients put thirteen players into a room for twelve |
| `ServerRuns.PrunedKnown` | plugins/common/JamNetStuff.cpp:224-240 | a prune leaves exactly the players heard from in time |
| `ServerMembers.PruneKeepsIff` | plugins/common/JamNetStuff.cpp:224-240 | a prune keeps exactly the members whose last packet was up to half a second ago |
| `ServerMembers.Joins` | plugins/common/JamNetStuff.cpp:264-276 | a newcomer gets in where there is room, at the address of its packet, heard just now, owing no answer, with fresh statistics, and its packet goes to nobody |
| `ServerMembers.StepMember` | plugins/common/JamNetStuff.cpp:242-262 | a step keeps a present member's address, and its own packet and no other renews its time |
| `ServerMembers.MemberStays` | plugins/common/JamNetStuff.cpp:224-279 | a member with packets at gaps of up to half a second stays over the whole run, at its address, and each of its packets is sent on |
| `ServerMembers.MembersKeepOrder` | plugins/common/JamNetStuff.cpp:224-279 | the channel of such a member never rises and two of them keep their order, said on the times of events alone |
| `ServerMembers.ReachesWhereItJoined` | plugins/common/JamNetStuff.cpp:455-526 | from joining on, any member's packet goes to the address that such a client joined from |
| `ServerRuns.ChannelNeverRises` | plugins/common/JamNetStuff.cpp:224-279 | a member's channel number never rises while it stays |
| `ServerRuns.JoinOrderKept` | plugins/common/JamNetStuff.cpp:224-279 | members who stay keep their join order |
| `ServerRuns.RelayedOnceToEach` | plugins/common/JamNetStuff.cpp:455-526 | a packet of a known member goes once to every player, in full to all but its sender, who gets the header; every copy carries the sender's place in the room and, inside a ping window only, the clock; any other packet goes to nobody |
| `ServerRuns.PingsSpaced` | plugins/common/JamNetStuff.cpp:481-504 | with a clock that never goes back, successive ping starts are more than 90 ms apart whenever packets arrive |
| `ServerRuns.OpenedRoom` | plugins/common/JamNetStuff.cpp:481-505 | a room just opened meets what the run theorems start from |
| `ServerPings.StepClock` | plugins/common/JamNetStuff.cpp:481-505 | the window opens in the first 10 ms after the clock was set, closes after that, and the clock is set again after 100 ms; packets carry the time inside and zero outside |
| `ServerPings.PingsKeepComing` | plugins/common/JamNetStuff.cpp:481-505 | while members' packets are relayed at gaps of less than 10 ms, a ping starts with the second packet that comes more than 100 ms after the clock was set |
| `ServerPings.StartOwedByAll` | plugins/common/JamNetStuff.cpp:291-297 | a ping that starts is owed by everybody in the room |
| `ServerPings.SampleIff` | plugins/common/JamNetStuff.cpp:242-262 | a packet yields a sample exactly if its sender owes an answer and echoes a time of the last 200 ms; it is the time since, and goes into the sender's statistics |
| `ServerPings.PingAnswered` | plugins/common/JamNetStuff.cpp:242-297 | the first packet of a member after a ping, in time and with such an echo, yields that sample, whatever the others do in between |
| `ServerRuns.OneSamplePerPing` | plugins/common/JamNetStuff.cpp:242-262 | over every run a client contributes at most one latency sample per ping start beyond one already owed, and every sample is under 200 ms |
| `Recording.ReadWritten` | plugins/common/ReplayStream.cpp:132-171 | a written record is read back from in front of anything exactly if its time stamp fits 64 bits and its packet is neither empty nor a full message |
| `Recording.ReadAllWritten` | plugins/common/ReplayStream.cpp:132-171 | any records are read back in order, then what follows them |
| `Recording.CutRecording` | plugins/common/ReplayStream.cpp:132-155 | a recording cut at any byte yields exactly the records that are completely there |
| `Recording.MetadataIff` | plugins/common/ReplayStream.cpp:42-54 | metadata is read back exactly if it is shorter than 2048 bytes and has no NUL byte, whatever the text buffer held |
| `Recording.EmptyRecording` | plugins/common/ReplayStream.cpp:57-62 | a recording without packets cannot be opened |
| `Recording.FileRoundTrip` | plugins/common/ReplayStream.cpp:23-89 | opening and reading a whole file gives back the metadata and every record in order |
| `Recording.FileExample` | plugins/common/ReplayStream.cpp:157-171 | the bytes of a small recording |
| `PacketStreamWriter.PacketStream.Open` | plugins/common/PacketStreamWriter.hpp:69-86 | a session starts only from an idle writer |
| `PacketStreamWriter.PacketStream.Write` | plugins/common/PacketStreamWriter.hpp:99-117 | queues a chunk while writing, and stops at the size limit |
| `PacketStreamWriter.PacketStream.WorkerWake` | plugins/common/PacketStreamWriter.hpp:25-54 | one pass of the worker drains the queue into the file and closes it when told to |
| `PacketStreamWriter.RunFaithful` | plugins/common/PacketStreamWriter.hpp:25-117 | for every interleaving of writes, closes and wake-ups, spurious ones included, file bytes followed by queued chunks are the accepted writes in order |
| `PacketStreamWriter.RefusalLosesQueue` | plugins/common/PacketStreamWriter.hpp:69-86 | reopening before a closed session has been drained is refused and loses its queue: the file is complete exactly if nothing was queued |
| `PacketStreamWriter.ReopenedTooSoon` | plugins/common/PacketStreamWriter.hpp:69-86 | a run that shows it: one chunk, a close and a refused reopening leave the file empty |
| `PacketStreamWriter.AcceptedIsPrefix` | plugins/common/PacketStreamWriter.hpp:99-117 | what is accepted are the attempted writes up to some point |
| `PacketStreamWriter.AllAccepted` | plugins/common/PacketStreamWriter.hpp:99-117 | within the size limit, and with no write after a close, everything is accepted |
| `PacketStreamWriter.LimitStops` | plugins/common/PacketStreamWriter.hpp:99-117 | the write that takes a session over 1500000000 bytes is accepted and is its last |
| `PacketStreamWriter.ClosedIffWoken` | plugins/common/PacketStreamWriter.hpp:25-96 | within the size limit the file gets closed exactly if the worker is woken after a close |
| `PacketStreamWriter.RecordingRoundTrip` | plugins/common/PacketStreamWriter.hpp:25-117 | a session with any wake-ups in it, with a close at its end and a wake-up after that, leaves the queue drained and the file closed, and reads back as its metadata and all its records in order |
| `PacketStreamWriter.AnyMoment` | plugins/common/PacketStreamWriter.hpp:25-117 | at any moment of any session the file yields exactly the records completely in it |
| `ReplayStream.Recorder.WriteOpen` | plugins/common/ReplayStream.cpp:72-89 | opening a recording queues the length and the text of the metadata |
| `ReplayStream.Recorder.WritePacket` | plugins/common/ReplayStream.cpp:157-171 | a packet is the three writes of the record format |
| `ReplayStream.Replayer.ReadPacket` | plugins/common/ReplayStream.cpp:132-155 | the stream reads with their fail bit succeed exactly where the format holds a record, which is then the current one |
| `ReplayStream.Replayer.ReadOpen` | plugins/common/ReplayStream.cpp:23-70 | opening succeeds exactly where the format says so, with its metadata and first record |
| `PedalBoard.Board.ThroughChain` | plugins/common/PedalBoard.hpp:190-210 | the loop over two alternating buffers computes the in-order composition of the active effects |
| `PedalBoard.Board.ProcessBlock` | plugins/common/PedalBoard.hpp:180-213 | the output is DC removal applied to that composition of the original input, even when input and output are one array; muted while tuning |
| `PedalBoard.Board.DoProcess` | plugins/common/PedalBoard.hpp:104-110 | while the chain is being edited the input passes unchanged and nothing else changes; otherwise the board processes the block, muted while tuning |
| `PedalBoard.BypassedKeepState` | plugins/common/PedalBoard.hpp:200-210 | bypassed effects keep their state, and no effect changes its place or switch |
| `PedalBoard.ThroughAppend` | plugins/common/PedalBoard.hpp:200-210 | a board of two chains in a row is the composition of the two boards |
| `PedalBoard.ThroughOne` | plugins/common/PedalBoard.hpp:200-210 | one pedal changes its state and the block as its effect does, or nothing if bypassed; with the row above this is the meaning of every board |
| `PedalBoard.FilteredOne` | plugins/common/PedalBoard.hpp:212 | one sample goes through one step of the filter at the output, whose state goes on |
| `PedalBoard.FilteredAppend` | plugins/common/PedalBoard.hpp:212 | its state is carried from sample to sample and from block to block |
| `PedalBoard.Board.InsertPedal` | plugins/common/PedalBoard.hpp:43-62 | insertion at an index, at the end for any other index, nothing for an unknown effect |
| `PedalBoard.Board.DeletePedal` | plugins/common/PedalBoard.hpp:65-75 | removes one pedal or nothing |
| `PedalBoard.InsertedIs` | plugins/common/PedalBoard.hpp:43-62 | an insertion puts the pedal at its place, or at the end for any other index, and moves those behind by one |
| `PedalBoard.DeletedIs` | plugins/common/PedalBoard.hpp:65-75 | a deletion takes out the pedal at its place and moves those behind by one, or does nothing for any other index |
| `PedalBoard.Board.MovePedal` | plugins/common/PedalBoard.hpp:78-101 | the erase-and-insert code is the move the next rows are about |
| `PedalBoard.InsertThenDelete` | plugins/common/PedalBoard.hpp:43-75 | deleting the inserted place restores the chain |
| `PedalBoard.MovedPermutes` | plugins/common/PedalBoard.hpp:78-101 | a move permutes the chain |
| `PedalBoard.MovedKeepsOrder` | plugins/common/PedalBoard.hpp:78-101 | the moved pedal is where it was sent and the others keep their order |
| `PedalBoard.MoveBack` | plugins/common/PedalBoard.hpp:78-101 | moving there and back is the identity exactly if the destination was a place on the board or the pedal was the last one already |

## Left out

- Reentrant callbacks: a callback is an append to a trace, and a send made inside one is a later step of the run.
- The HTTP upgrade, host lookup, select timeouts and what a closed socket handle may be reused for.
- 32-bit overflow of the jitter buffer's event counters, and the last-frame copy that nothing reads.
- JitterBuffers.JitterBuffer.PutIn: blocks and requests are of up to 1024 samples, the size of the frame buffers.
- JitterBuffers.JitterBuffer.constructor: the two filter coefficients are any reals in 0..1, not the exponentials computed from the attack and release times.
- Interleavings inside putIn and getOut: each is one step.
- YinAcf.YinACF.Tick: does not model the choice of the best local estimate over the ring of solutions or the parabolic interpolation; the solutions' arrays are rows of two matrices, not separately allocated objects.
- Ticks of an estimator with a window below 3 or a maximum period of 0 or 1, for which the code indexes outside its arrays.
- The eight-tap delay line and MVerb's one-tap `StaticDelayLine`, which are the modelled four-tap line with more or fewer indices.
- AllpassLines.StaticAllpassFourTap.SetLength: does not say what a line plays whose indices a resize without clearing left outside the new length, or that it made longer.
- The rest of the reverbs, equalisers, oscillators and compressors: coefficients from transcendental functions.
- Datagrams shorter than a header, which overwrite only part of the message; frames larger than the message buffer.
- JamPacketClass.JamPacket.DecodeJamBuffer: requires output arrays that hold the packet's samples.
- JamMixerClass.JamMixer.AddData: the slot map, which the source keeps in the packet, is a field of the mixer; for packets of 512 to 1024 samples the contract does not say what the two buffers hold; the copy through the conversion buffers and the beat field are left out.
- JamMixerClass.JamMixer.AddLocalMonitor: the same for local blocks of 512 samples and more.
- JamMixerClass.JamMixer.GetMix: reads of up to 512 samples; the sum with gains and pan, the metronome and the level meters are left out.
- ServerRoom.JamServer.SendDataToRoomMembers: the beat count, recording, playback and live mix that the same function triggers are left out, and so is a datagram of length zero, after which the previous packet is processed again.
- Clocks that go backwards, where the ping and order theorems say so.
- A wake-up that is lost because the worker was not waiting: the closing theorems are about sessions with a wake-up after the close, and no theorem says that there is one.
- Playback timing: `packetReady`, `getMix` and `getPlayBackMix` of the replay stream.
- What happens when the chain is edited while a block is being processed, which the source guards against with a flag and a pause.
- Effects themselves, their settings and JSON, what the tuner makes of a block; user interface, audio devices, shared memory, HTTP and directory code.
