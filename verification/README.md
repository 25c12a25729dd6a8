# vrtc-sdk: a verified model

vrtc-sdk moves compressed audio and video packets from one source to many sinks and serialises them into ISO media
files. This project models its hardest parts in Dafny and proves what holds of them for every input, every run and
every interleaving. `dafny verify dfyconfig.toml` checks everything.

What is modelled, and the main theorem of each part:

| part | files | main results |
|---|---|---|
| fragmented MP4, writer and reader | `Fragment`, `FragmentRoundTrip`, `FragmentReader`, `FragmentMuxer`, `FragmentMuxerRuns`, `FragmentDelivery`, `FragmentOutput` | `FrontToBack`: after any calls, a demuxer that reads the whole output from its first byte returns the packets of every fragment in turn, each batch sorted by decode time, and stops at the last byte; `RunDelivers`: those are exactly the packets accepted; `FragmentRoundTrip`: positions are true if and only if the data offsets fit 31 bits |
| segment index and seeking | `SegmentIndex`, `SegmentSeek` | `SeekFindsFragment`: from the calls on a muxer through its index to the fragment a seek lands on; `SeekNeverLate`: a seek never lands late if and only if no tick conversion loses a tick |
| plain MP4, writer and reader | `Mp4Tables`, `Mp4TablesRoundTrip`, `Mp4File`, `Mp4RoundTrip`, `Mp4Runs` | `RunDelivers`: after any calls, parsing the file gives back stream by stream exactly the packets taken; `Mp4RoundTrip`, for any tracks |
| packet buffer | `PacketBuffer`, `PacketBufferRuns` | `LogRefinement`, `NoLostWakeUp`, `NoStuckReader` over every interleaving |
| consumer goroutine and rotation | `ConsumerRun`, `SegmentRotation` | `CallGrammar`: what every muxer is called with, however calls fail; `SegmentsConserve` |
| relay fan-out | `Relay`, `RelayRuns`, `RelayWitnesses` | `LateJoinerOrder`, `RepeatExactly` (if and only if), `OffersAccounted`, `ResyncOnKeyframe` over every interleaving |
| RTP timeline | `RtpTimeline` | `TotalExact` across 32-bit wraps; `MonotoneDts`, `DtsExactly` and `SessionContinues`, each an if and only if |
| H.264 depacketizing | `H264Depacketizer`, `H264Reassembly` | `FuaRebuilds`, an if and only if; `UnitsOfOneTime`; `EveryBatchOnce`: nothing is lost unless a bound is exceeded |
| bit streams, AudioSpecificConfig | `BitStream`, `AudioConfig` | `BitRoundTrip`, `WriteExact`; `ReadExact`, `ConfigRoundTrip` and `RateSurvives`, each an if and only if |
| NAL unit framing | `StartCodes`, `NaluFraming`, `NaluConversion` | `AvccRecognised`, `AnnexBRecognised`, `ThereAndBack`, each an if and only if |
| segment chaining | `Chain` | `ChainMonotone` and `FitsExactly`, each an if and only if; `AfterAllEnds`, `CodecChangesMarked` |
| low-latency HLS | `FragmentWriter`, `LlHls`, `LlHlsRuns`, `LlHlsDelivery`, `LlHlsWitnesses` | `SegmentDelivers`: the bytes of a served segment play as the packets accepted for it; `StartsExactly` (if and only if), `NothingLost`, `WindowConsecutive`, `AvailableStays` |
| analytics store | `AnalyticsStore` | `LookupIsFullScan`, `NearestFound` |

Conventions. Code that changes state step by step is a class, or a method with loops, and its `ensures` equates the new
state with a specification function of the old one; the theorems are about those functions. Code shared between
goroutines is a state machine whose steps are single lock sections, atomic operations, queue operations or channel
operations, and the theorems are about every sequence of steps that can happen. Clocks, queue outcomes, muxer answers
and I/O results are parameters, so they range over everything the environment can do. Bytes are exact; fixed-width
arithmetic is written out with `Int32`, `Int64` and remainders wherever the width can matter. `Bytes`, `Boxes`, `Ticks`
and `Wrappers` hold what the parts share.

Where the code and its documentation differ, the model follows the code:

- `SetSkipBefore` is documented to skip packets up to and including a DTS; `ShouldSkip` skips only strictly earlier ones
  (av/relayhub/consumer.go:170-212). `LateJoinerOrder` shows that the repeat this allows is the only one,
  `RepeatExactly` when it happens, and `RepeatHappens` is a run in which it does.
- `seekViaSidx` is documented to land at or before the target; `SeekNeverLate` gives the exact condition under which it
  does, and `LateSeekHappens` an index of two fragments at 90 kHz where it does not.
- The bit reader takes widths up to 64; `ReadExact` shows which reads are right and `WideReadLosesBits` two reads from a
  fresh reader of which the second is not.
- A keyframe waiting behind a drop is only demanded by leaky delivery; blocking delivery to a single consumer does not
  look at the flag (av/relayhub/relay.go:594-604). So `ResyncOnKeyframe` speaks of the next leaky enqueue,
  `SoleConsumerSkipsResync` states what blocking delivery does instead, and `ResyncIgnored` is a run that gets there.
- A low-latency HLS segment is meant to start at a keyframe; `StartsExactly` says when all do, `LabelledNeverKeyless`
  that well-labelled packets suffice, and `KeylessSegment` is a run where a keyframe of an unknown stream opens the gate
  and a delta frame starts the segment.
- An access unit released by a change of RTP timestamp takes its DTS from the next packet
  (av/format/rtsp/demuxer.go:848-876); `UnitsOfOneTime` says exactly which units carry their own time.
- A decoded DTS is no longer the due one once elapsed ticks times 10^9 leave 63 bits, after 28 hours at 90 kHz. It stands
  still until the product reaches 2^64, and past that it never catches up with the due time: `DtsExactly`.

## Model

| member | source | states |
|---|---|---|
| `Boxes.SplitMakeBoxes` | av/format/fmp4/muxer.go:1298-1318 | a list of boxes below 2^32 bytes each, serialised, scans back into the same list |
| `Boxes.FindBox` | av/format/fmp4/demuxer.go:647-663 | the scan returns the payload of the first child box of the type, stopping at the first broken header |
| `Boxes.FindBoxes` | av/format/fmp4/demuxer.go:665-684 | the scan returns the payloads of all child boxes of the type, in order |
| `Bytes.ValueOfPut` | av/format/fmp4/muxer.go:1320-1354 | a big-endian field of n bytes reads back as the value modulo 256^n |
| `Fragment.MoofSizeExact` | av/format/fmp4/muxer.go:1138-1170 | the size computed before the moof exists is the length of the moof that is built |
| `Fragment.EstimateMoofSize` | av/format/fmp4/muxer.go:1138-1159 | the loop computes that size, modulo 2^32 |
| `Fragment.ParseTrun` | av/format/fmp4/demuxer.go:1304-1413 | the loop over trun entries returns the specified samples, defaults and running offsets included, or fails exactly when the box is short |
| `FragmentReader.Demuxer.ParseMoof` | av/format/fmp4/demuxer.go:1144-1206 | parsing a moof yields the specified samples and leaves the specified track defaults |
| `FragmentReader.Demuxer.ReadPackets` | av/format/fmp4/demuxer.go:1099-1112 | the packets cut from the mdat are the specified ones, samples outside it or of unknown tracks left out |
| `FragmentReader.Demuxer.ParseMoofMdat` | av/format/fmp4/demuxer.go:1078-1139 | a moof and the mdat that must follow it give the packets in nanoseconds and in decode order, and the position moves past both; anything else is an error |
| `FragmentReader.Demuxer.ReadBox` | av/format/fmp4/demuxer.go:623-642 | a read returns the next whole box and moves past it, or nothing exactly when the rest holds none |
| `FragmentReader.Demuxer.ReadPacket` | av/format/fmp4/demuxer.go:140-215 | the loop over boxes returns the next packet, a moov replacing the tracks and other boxes passed over, or nothing at the end or at an error |
| `FragmentReader.DrainIsByFragment` | av/format/fmp4/demuxer.go:140-215 | reading packet by packet until the first failure gives what is pending and then the batch of each fragment in turn |
| `FragmentRoundTrip.MoofRoundTrip` | av/format/fmp4/muxer.go:1161-1232 | parsing a built moof returns every sample of every track in order with duration, size, flags, composition offset and accumulated decode time |
| `FragmentRoundTrip.WindowsHoldSamples` | av/format/fmp4/muxer.go:604-619 | the mdat window of each sample holds exactly that sample's bytes |
| `FragmentRoundTrip.WindowsTile` | av/format/fmp4/muxer.go:1234-1251 | the windows tile the mdat payload without gap or overlap |
| `FragmentRoundTrip.FragmentRoundTrip` | av/format/fmp4/demuxer.go:1144-1206 | every sample of any set of active tracks is recovered in order; its position is the true one if and only if all data offsets are below 2^31 |
| `FragmentRoundTrip.PayloadRoundTrip` | av/format/fmp4/demuxer.go:1078-1132 | the packets read from a fragment whose offsets fit are the buffered samples byte for byte, none lost, none added |
| `FragmentMuxer.BuildFragment` | av/format/fmp4/muxer.go:576-619 | the loops that place tracks and collect emsg boxes produce the specified fragment bytes |
| `FragmentMuxer.Muxer.FlushFragment` | av/format/fmp4/muxer.go:576-687 | a flush writes emsg boxes, moof and mdat, patches last durations, records the index entry, clears the tracks and advances the counters as specified |
| `FragmentMuxer.Muxer.WriteHeader` | av/format/fmp4/muxer.go:163-202 | a header registers the streams in order and arms the keyframe gate when there is video, or fails leaving the specified state |
| `FragmentMuxer.Muxer.WritePacket` | av/format/fmp4/muxer.go:204-295 | keyframe gate, time origin, flush on key, back-fill, append and eager flush, in that order, as specified |
| `FragmentMuxer.Muxer.Flush` | av/format/fmp4/muxer.go:300-310 | a forced flush happens exactly when the muxer is open and holds samples |
| `FragmentMuxer.Muxer.WriteTrailer` | av/format/fmp4/muxer.go:314-326 | the first trailer flushes what is held and closes; later ones are refused |
| `FragmentMuxer.Muxer.WriteCodecChange` | av/format/fmp4/muxer.go:353-395 | a codec change flushes, replaces the listed tracks and writes the new initialisation segment |
| `FragmentMuxerRuns.HistoryIsPassive` | av/format/fmp4/muxer.go:204-326 | the run history used in the theorems below does not influence the muxer |
| `FragmentMuxerRuns.StepGood` | av/format/fmp4/muxer.go:204-395 | every call keeps the invariant: fragments numbered in order at their recorded places, accepted packets conserved, keyframes first |
| `FragmentMuxerRuns.EverySampleOnce` | av/format/fmp4/muxer.go:576-687 | once the trailer is written, the fragments hold track by track exactly the accepted packets, each once and in order |
| `FragmentMuxerRuns.KeyStartsFragment` | av/format/fmp4/muxer.go:236-255 | in every run a video keyframe is the first packet of its fragment |
| `FragmentMuxerRuns.AcceptanceFrom` | av/format/fmp4/muxer.go:213-227 | the accepted packets are exactly those of known streams, from the first video keyframe on when the header declared video |
| `FragmentMuxerRuns.IndexOffsets` | av/format/fmp4/muxer.go:621-675 | entry k of the index points at fragment k, numbered k+1, shifted only by the initialisation segments written mid-stream; without a codec change the offset is the true byte position; fragments do not overlap and stand in the order of their entries |
| `FragmentMuxerRuns.DecodeTimesExact` | av/format/fmp4/muxer.go:259-272 | a reader recovers every sample's own decode time if and only if supplied durations reach the next sample and unsupplied ones are bridged by a forward step below 2^32 ticks |
| `FragmentDelivery.RunDelivers` | av/format/fmp4/muxer.go:204-326 | end to end: after any calls, each fragment is found at its place as a moof and an mdat from which a reader gets exactly the packets accepted for it |
| `FragmentOutput.OutputIsPieces` | av/format/fmp4/muxer.go:163-395 | after any calls the output is exactly the initialisation segments and fragments written, one after the other |
| `FragmentOutput.FrontToBack` | av/format/fmp4/demuxer.go:140-215 | a demuxer that reads the whole output of any run from its first byte, and knows the tracks of each fragment when it comes, returns one batch per fragment, each a rearrangement of exactly that fragment's packets in ascending decode time, and ends at the last byte |
| `SegmentIndex.ParseSidx` | av/format/fmp4/demuxer.go:478-560 | the loop returns the specified entries, or nothing for a short or empty box |
| `SegmentIndex.SidxRoundTrip` | av/format/fmp4/muxer.go:426-473 | parsing a built index gives its first count mod 2^16 entries with wrapped spans added up |
| `SegmentIndex.IndexRoundTrip` | av/format/fmp4/demuxer.go:478-560 | below 2^16 fragments all access-point flags come back, and all offsets if and only if no span reaches 2^31 |
| `SegmentIndex.TickRoundTrip` | av/format/fmp4/muxer.go:690-698 | ticks converted to nanoseconds and back lose nothing or exactly one tick, and which of the two is stated |
| `SegmentIndex.ParsedTimes` | av/format/fmp4/demuxer.go:478-560 | entry k's parsed time is never late and at most k+1 ticks early, and exact if and only if no conversion before it lost a tick |
| `SegmentIndex.SeekViaSidx` | av/format/fmp4/demuxer.go:267-293 | the scan stops at the first entry past the target and returns the one before it, the first entry when there is none |
| `SegmentIndex.SeekNeverLate` | av/format/fmp4/demuxer.go:267-293 | for every target the chosen fragment starts no later than the target if and only if no conversion before the last fragment loses a tick |
| `SegmentIndex.LateSeek` | av/format/fmp4/demuxer.go:267-293 | wherever a tick was lost, the target just before that fragment's true start lands late |
| `SegmentIndex.LateSeekHappens` | av/format/fmp4/demuxer.go:267-293 | two fragments of 3000 ticks at 90 kHz and a target for which the seek lands late |
| `SegmentSeek.RunDescribes` | av/format/fmp4/muxer.go:621-675 | the index of any run with one stream whose fragments leave no gaps describes them: where each starts, counted from the first packet, and how long it lasts as written |
| `SegmentSeek.GaplessExactly` | av/format/fmp4/muxer.go:621-675 | adding up the written durations gives each fragment's own start if and only if no fragment leaves a gap to the next |
| `SegmentSeek.ContinuousIsGapless` | av/format/fmp4/muxer.go:259-272 | packets that each last until the next leave no gap, wherever the muxer cuts its fragments |
| `SegmentSeek.SeekFindsFragment` | av/format/fmp4/demuxer.go:267-293 | after any such run the index, written as a sidx box and parsed back, leads every seek to the true position of a fragment, whose first packet starts no later than the target unless it is the first fragment or a conversion lost a tick |
| `Mp4Tables.EncodeRuns` | av/format/mp4/muxer.go:486-553 | the loop that bumps the last run or opens a new one yields the canonical run-length encoding |
| `Mp4Tables.ExpandRunLength` | av/format/mp4/muxer.go:486-510 | expanding the encoding gives the values back |
| `Mp4Tables.RunLengthCanonical` | av/format/mp4/muxer.go:486-510 | no run is empty and neighbouring runs differ |
| `Mp4Tables.ParseStsz` | av/format/mp4/demuxer.go:448-484 | the sizes are the table's entries or the common size, with the specified errors |
| `Mp4Tables.ParseChunkOffsets` | av/format/mp4/demuxer.go:486-530 | 64-bit offsets are preferred, 32-bit ones taken otherwise, with the specified errors |
| `Mp4Tables.BuildChunkSamplesMap` | av/format/mp4/demuxer.go:532-577 | the loops give each chunk the sample count of the last entry that covers it |
| `Mp4Tables.ParseStts` | av/format/mp4/demuxer.go:579-621 | the nested loops give each sample its duration and the sum of the earlier ones |
| `Mp4Tables.ParseCtts` | av/format/mp4/demuxer.go:623-663 | the nested loops give each sample its composition offset, zero without a table |
| `Mp4Tables.ParseStss` | av/format/mp4/demuxer.go:665-709 | exactly the listed samples of a video track are sync samples; all are without a readable table, none for audio |
| `Mp4Tables.SamplePositions` | av/format/mp4/demuxer.go:409-422 | walking chunks and samples gives each sample its file position |
| `Mp4Tables.ParseSampleTable` | av/format/mp4/demuxer.go:367-444 | the sample table yields the specified entries or the first table's error |
| `Mp4TablesRoundTrip.SttsRoundTrip` | av/format/mp4/muxer.go:486-510 | durations written as runs parse back with exact start times |
| `Mp4TablesRoundTrip.CttsRoundTrip` | av/format/mp4/muxer.go:512-553 | composition offsets parse back signed, also when the box is left out |
| `Mp4TablesRoundTrip.StssRoundTrip` | av/format/mp4/muxer.go:555-574 | sync flags of a video track parse back exactly |
| `Mp4TablesRoundTrip.StcoRoundTrip` | av/format/mp4/muxer.go:607-621 | chunk offsets parse back below 2^32 |
| `Mp4TablesRoundTrip.TablesRoundTrip` | av/format/mp4/muxer.go:444-463 | all tables together give back each sample's position, size, times and sync flag |
| `Mp4File.Muxer.WriteHeader` | av/format/mp4/muxer.go:87-116 | the first header opens a track without samples per stream of a supported codec, a later stream taking over a repeated index; a second header is refused |
| `Mp4File.Muxer.WritePacket` | av/format/mp4/muxer.go:118-148 | a packet is appended to its track as the specified sample, ignored for an unknown stream, or refused |
| `Mp4File.Muxer.WriteTrailer` | av/format/mp4/muxer.go:150-160 | the first trailer writes the whole file; later ones are refused |
| `Mp4File.FlushTracks` | av/format/mp4/muxer.go:191-247 | the two-pass layout writes ftyp, the moov with final offsets, and the mdat, as specified |
| `Mp4File.FindTopLevelBox` | av/format/mp4/demuxer.go:152-220 | the scan returns the first top-level box of the type, 64-bit sizes included, with the specified errors |
| `Mp4File.ParseTrak` | av/format/mp4/demuxer.go:293-341 | a trak yields its stream and samples, or the specified error |
| `Mp4File.ParseMoov` | av/format/mp4/demuxer.go:263-291 | the moov yields all streams and their samples sorted by decode time |
| `Mp4File.Demuxer.ReadPacket` | av/format/mp4/demuxer.go:106-137 | each read returns the packet at the next sample's window and advances, or ends |
| `Mp4RoundTrip.MoovSizeFixed` | av/format/mp4/muxer.go:204-230 | the placeholder moov has the final moov's length |
| `Mp4RoundTrip.MoovRoundTrip` | av/format/mp4/muxer.go:254-303 | parsing a built moov returns every track's kind and samples |
| `Mp4RoundTrip.SortFilter` | av/format/mp4/demuxer.go:283-288 | sorting commutes with picking out one stream, so it keeps each stream's own order where times are equal |
| `Mp4RoundTrip.Mp4RoundTrip` | av/format/mp4/muxer.go:191-247 | for any tracks in a file below 2^32 bytes: every stream is found, its samples are the written ones in order, and each window holds exactly the sample's bytes with its flag, durations and decode time |
| `Mp4Runs.RunDelivers` | av/format/mp4/muxer.go:87-160 | end to end: whatever calls a muxer has had, the trailer leaves one file, and reading it gives every stream and stream by stream exactly the packets taken for it, in order, with bytes, key flag and times, as long as it stays below 2^32 bytes |
| `PacketBuffer.LastGopExact` | av/packetbuf/buffer.go:86-109 | a suffix is the returned group of pictures if and only if it starts at a video keyframe and holds no other, or is empty because there is none |
| `PacketBuffer.Buffer.Push` | av/packetbuf/buffer.go:49-62 | the lock section of a write appends the stamped packet, evicts the expired head and replaces the channel |
| `PacketBuffer.Buffer.Evict` | av/packetbuf/buffer.go:111-126 | eviction drops exactly the expired leading packets and advances the base offset by their number |
| `PacketBuffer.Buffer.TryClose` | av/packetbuf/buffer.go:66-67 | only one caller wins the close |
| `PacketBuffer.Buffer.SwapNotify` | av/packetbuf/buffer.go:68-71 | the lock section of a close replaces the channel and hands out the old one |
| `PacketBuffer.Buffer.LastGOP` | av/packetbuf/buffer.go:86-109 | the backward scan returns the packets from the last video keyframe on |
| `PacketBuffer.BufDemuxer.Process` | av/packetbuf/buffer.go:161-210 | one pass of the read loop moves the cursor and answers as specified, first scan, eviction and late start included |
| `PacketBufferRuns.LogRefinement` | av/packetbuf/buffer.go:149-211 | in every interleaving the window is the tail of the write log, and a reader returns log packets at strictly increasing positions at or after its start, passing over only older or evicted ones |
| `PacketBufferRuns.NothingMissed` | av/packetbuf/buffer.go:149-211 | while nothing is evicted a reader has returned exactly the packets it asked for up to its cursor |
| `PacketBufferRuns.NoLostWakeUp` | av/packetbuf/buffer.go:54-74 | a waiting reader that was overtaken by a write or a close waits on a channel that is closed or owed a close, never both |
| `PacketBufferRuns.NoStuckReader` | av/packetbuf/buffer.go:203-210 | once writers and closer have finished, a reader that cannot wake has read the whole log of an open buffer |
| `PacketBufferRuns.EndAfterWholeLog` | av/packetbuf/buffer.go:199-201 | a reader told of the end has passed every packet written before the close |
| `PacketBufferRuns.NoDoubleClose` | av/packetbuf/buffer.go:61-73 | no channel is closed twice |
| `ConsumerRun.Consumer.CloseMuxer` | av/relayhub/consumer.go:393-401 | closing calls the trailer and then the close, whatever they answer |
| `ConsumerRun.Consumer.OpenAndInitMuxer` | av/relayhub/consumer.go:306-319 | a muxer that refuses its header is closed again |
| `ConsumerRun.Consumer.RotateMuxer` | av/relayhub/consumer.go:373-391 | rotation closes the old muxer, opens a new one and hands it the packet; a failure leaves the old one in use |
| `ConsumerRun.Consumer.HandlePacket` | av/relayhub/consumer.go:353-371 | a packet announces its codecs, is written, and rotates on demand |
| `ConsumerRun.Consumer.PacketLoop` | av/relayhub/consumer.go:336-351 | packets are handled in order until one fails |
| `ConsumerRun.Consumer.Run` | av/relayhub/consumer.go:259-282 | a run opens, loops and closes the muxer that is in use at the end |
| `ConsumerRun.CallGrammar` | av/relayhub/consumer.go:259-401 | however the factory and the muxers answer, every opened muxer lives by the call grammar and ends after exactly one trailer and close, except that the muxer in use when a rotation fails ends after two |
| `ConsumerRun.CallOrder` | av/relayhub/consumer.go:306-401 | a codec change or packet comes after an accepted header and before any trailer of its muxer |
| `SegmentRotation.SegmentMuxer.WritePacket` | av/segment/muxer.go:113-123 | rotation is demanded exactly at a keyframe past the size limit of a segment that holds a keyframe |
| `SegmentRotation.FlagIsHistory` | av/segment/muxer.go:113-123 | the keyframe flag is whether the segment has accepted a keyframe |
| `SegmentRotation.RotationConserves` | av/relayhub/consumer.go:336-391 | with any muxers, the packets accepted by successive muxers are the dequeued ones in order up to the one that fails; a run without failure has one muxer more than rotations, each later one starting with the packet its predecessor refused |
| `SegmentRotation.SegmentsConserve` | av/segment/muxer.go:113-123 | over segment muxers on a working disk nothing is lost, repeated or reordered, and every later segment starts with the keyframe that ended the one before |
| `Relay.Consumer.SetSkipBefore` | av/relayhub/consumer.go:172-175 | the overlap threshold is armed |
| `Relay.Consumer.ShouldSkip` | av/relayhub/consumer.go:200-212 | packets strictly before the threshold are skipped until the first that is not, which disarms it |
| `Relay.Consumer.NeedsKeyframeRecovery` | av/relayhub/consumer.go:180-194 | after a drop non-keyframes are skipped and counted; a keyframe clears the flag |
| `Relay.Consumer.Offer` | av/relayhub/relay.go:594-616 | one packet offered to one consumer is skipped, sent, dropped or cancelled as specified |
| `Relay.Deliver` | av/relayhub/relay.go:587-616 | one round serves every active consumer by the blocking or the leaky rule and counts the drops |
| `Relay.Inject` | av/relayhub/relay.go:439-448 | the cached packets are sent in order and the threshold set to the last one's DTS |
| `RelayRuns.LateJoinerOrder` | av/relayhub/relay.go:435-474 | in every interleaving a consumer's queue receives source positions in order; only the last cached packet can come twice, and then in a row |
| `RelayRuns.RepeatExactly` | av/relayhub/relay.go:435-474 | in every interleaving a consumer's queue receives a packet twice if and only if the last cached packet found room when injected and the consumer was published in time to be served it live, and it found room again |
| `RelayRuns.StartsAtKeyframe` | av/relayhub/relay.go:435-448 | a late joiner whose injection is not cancelled first receives a video keyframe and then the rest of its group in order |
| `RelayRuns.OffersAccounted` | av/relayhub/relay.go:594-616 | offers are enqueued, dropped, skipped for resync, skipped as overlap, cancelled, or the one in hand; the relay's counter sums all drops; the queue is a bounded FIFO of what was received |
| `RelayRuns.ResyncOnKeyframe` | av/relayhub/relay.go:606-616 | after a drop the next leaky enqueue for that consumer is a keyframe unless a leaky delivery in between was cancelled |
| `RelayRuns.SoleConsumerSkipsResync` | av/relayhub/relay.go:594-604 | whenever the scan lists a single consumer that waits for a keyframe and has room, a packet that is not one is enqueued for it, and it goes on waiting |
| `RelayWitnesses.RepeatHappens` | av/relayhub/consumer.go:170-212 | a run of the relay in which a late joiner receives the same packet twice |
| `RelayWitnesses.ResyncIgnored` | av/relayhub/relay.go:594-604 | a run in which a consumer left alone after a drop is sent a packet that is not a keyframe while it waits for one |
| `RelayRuns.OverlapThenLive` | av/relayhub/consumer.go:196-212 | overlap skips all come before the first packet that passes |
| `RtpTimeline.RtspTrack.DecodeDTS` | av/format/rtsp/demuxer.go:828-846 | the unwrapped, scaled and clamped DTS, as specified in 64-bit arithmetic |
| `RtpTimeline.RtspTrack.EmitFrame` | av/format/rtsp/demuxer.go:858-876 | a video unit gets the DTS and an estimated duration |
| `RtpTimeline.RtspTrack.EstimateDuration` | av/format/rtsp/demuxer.go:961-980 | the duration is positive if and only if the step from the last DTS, if there is one, stays below 2^63; and whenever the timeline advances, the last DTS plus the duration is the new DTS |
| `RtpTimeline.DurationsPositive` | av/format/rtsp/demuxer.go:848-959 | over every run whose DTS neither goes back nor is negative, every duration put out is positive, and so is the one left for the next session |
| `RtpTimeline.AudioDuration` | av/format/rtsp/demuxer.go:982-997 | an audio unit's duration is always positive |
| `RtpTimeline.RtspTrack.EmitUnits` | av/format/rtsp/demuxer.go:921-941 | the units of an audio packet follow each other |
| `RtpTimeline.RtspTrack.DecodeRTP` | av/format/rtsp/demuxer.go:794-826 | one packet's outputs and new state, for video, AAC and other audio |
| `RtpTimeline.TotalExact` | av/format/rtsp/demuxer.go:828-838 | across any number of wraps the running total is the true elapsed ticks, as long as each step is within half the 32-bit range |
| `RtpTimeline.DtsExact` | av/format/rtsp/demuxer.go:828-846 | a decoded DTS is the true elapsed time on the track's clock, held back only by what was emitted |
| `RtpTimeline.DtsExactly` | av/format/rtsp/demuxer.go:840-845 | behind an earlier emission the decoded DTS is the due one if and only if elapsed ticks times 10^9 stay below 2^63; up to 2^64 it is the last DTS over and over |
| `RtpTimeline.MonotoneDts` | av/format/rtsp/demuxer.go:848-959 | over every run of a session the emitted DTS never goes back if and only if the units inside each audio packet fit the 64-bit timeline |
| `RtpTimeline.CarryTrackState` | av/format/rtsp/demuxer.go:1047-1070 | each new track continues the timeline of the first old track with its codec and URL, else of the one in its place with its codec |
| `RtpTimeline.SessionContinues` | av/format/rtsp/demuxer.go:1047-1070 | after a reconnect, everything the new session puts out starts at or after the end of the old session's last packet if and only if the first packet that puts anything out is less than a nanosecond behind the session's first packet |
| `H264Depacketizer.SplitNALUs` | av/format/rtsp/h264_rtp_decoder.go:209-239 | the loop cuts at three- and four-byte start codes as specified |
| `H264Depacketizer.SplitShorter` | av/format/rtsp/h264_rtp_decoder.go:209-239 | every unit cut off is non-empty and free of start codes |
| `H264Depacketizer.SplitWhole` | av/format/rtsp/h264_rtp_decoder.go:209-239 | data comes back as one unit if and only if it holds no start code |
| `H264Depacketizer.JoinFragments` | av/format/rtsp/h264_rtp_decoder.go:250-259 | copying the fragments one behind the other gives their concatenation |
| `H264Depacketizer.DecodeStapA` | av/format/rtsp/h264_rtp_decoder.go:148-168 | the loop returns the aggregated units or the specified error |
| `H264Depacketizer.Decoder.DecodeNALUs` | av/format/rtsp/h264_rtp_decoder.go:71-179 | one payload completes the specified units and leaves the fragment counters equal to the fragments |
| `H264Depacketizer.Decoder.AddToFrameBuffer` | av/format/rtsp/h264_rtp_decoder.go:181-201 | units are added within 512 units and 4 MiB, else the buffer is dropped; its counters always match it |
| `H264Depacketizer.Decoder.Decode` | av/format/rtsp/h264_rtp_decoder.go:33-64 | an access unit is released by a new timestamp or a marker, as specified |
| `H264Reassembly.FuaRebuilds` | av/format/rtsp/h264_rtp_decoder.go:83-143 | a unit cut in any way into consecutive fragments, from any state and across sequence wraps, is rebuilt byte for byte if and only if its forbidden bit is clear, it holds no start code, and it is within 4 MiB or came in one fragment |
| `H264Reassembly.FuaAccessUnit` | av/format/rtsp/h264_rtp_decoder.go:33-143 | such a unit comes out of a decoder with nothing buffered as an access unit of its own |
| `H264Reassembly.StapRoundTrip` | av/format/rtsp/h264_rtp_decoder.go:145-170 | units of 1 to 65535 bytes survive aggregation in order |
| `H264Reassembly.UnitsOfOneTime` | av/format/rtsp/h264_rtp_decoder.go:33-64 | over every packet sequence each access unit is a run of consecutively completed units of one RTP timestamp within both bounds, and the packet whose DTS it takes has that timestamp if and only if it did not release the unit by a change of timestamp |
| `H264Reassembly.EveryBatchOnce` | av/format/rtsp/h264_rtp_decoder.go:33-64 | every completed unit is in exactly one access unit, one loss or the frame buffer, in order; nothing is lost unless what arrived last put the buffer over 512 units or 4 MiB |
| `BitStream.Writer.WriteBits64` | av/utils/bits/bits.go:92-120 | staging, spilling and masking of any 64-bit value at any width up to 64, as specified on the 64-bit word |
| `BitStream.WriteExact` | av/utils/bits/bits.go:92-120 | a write appends the low bits of its width, across a full word too, and ors the bits above them into what was staged |
| `BitStream.SurplusHarmless` | av/utils/bits/bits.go:92-120 | what was staged stays as it was if and only if the surplus bits are already set there |
| `BitStream.Writer.FlushBits` | av/utils/bits/bits.go:143-167 | the staged bits leave as whole bytes |
| `BitStream.WriteAppends` | av/utils/bits/bits.go:92-120 | a value within its width is appended exactly, across a full word and whatever stale bits the word holds |
| `BitStream.FlushAppends` | av/utils/bits/bits.go:143-167 | a flush sends the staged bits followed by zeros up to a byte |
| `BitStream.Reader.ReadBits64` | av/utils/bits/bits.go:11-45 | fetching, shifting and cutting on the 64-bit word, or the end of data |
| `BitStream.ReadExact` | av/utils/bits/bits.go:11-45 | a read gives the leading bits of what is unread if and only if no staged bit is shifted out of the word |
| `BitStream.ReadFits` | av/utils/bits/bits.go:11-45 | reads of up to 57 bits never lose one |
| `BitStream.WideReadLosesBits` | av/utils/bits/bits.go:11-45 | from a fresh reader, a 64-bit read behind a 7-bit one returns 0 where the data spell 2^63 |
| `BitStream.BitRoundTrip` | av/utils/bits/bits.go:11-167 | any values written with widths up to 57 and flushed are read back |
| `AudioConfig.WriteObjectType` | av/codec/aacparser/parser.go:226-245 | object types from 32 on use the escape |
| `AudioConfig.WriteSampleRateIndex` | av/codec/aacparser/parser.go:264-283 | rate indices from 15 on use the 24-bit escape |
| `AudioConfig.FindRate` | av/codec/aacparser/parser.go:345-351 | the index found holds the rate if the table has it, and is the first otherwise |
| `AudioConfig.RateSurvives` | av/codec/aacparser/parser.go:285-375 | a configuration that gives only its sample rate keeps it through writing and parsing if and only if the table has that rate; any other comes back as 96 kHz |
| `AudioConfig.WriteConfig` | av/codec/aacparser/parser.go:337-375 | the bytes are the three fields after lookup of the missing ones, whether or not they fit their widths |
| `AudioConfig.ParseConfig` | av/codec/aacparser/parser.go:299-321 | parsing reads the three fields and completes rate and layout from the tables |
| `AudioConfig.ConfigRoundTrip` | av/codec/aacparser/parser.go:205-375 | parsing what was written gives the normalised configuration back if and only if every field fits its width and the object type is not the escape value itself |
| `AudioConfig.StatedFieldsSurvive` | av/codec/aacparser/parser.go:205-375 | a stated rate index and channel configuration come back unchanged |
| `NaluFraming.EncodeAvcc` | av/codec/h264parser/convert.go:11-22 | each unit is put behind its 32-bit length |
| `NaluFraming.SplitNALUs` | av/codec/parser/parser.go:118-203 | detection and splitting of either framing, as specified |
| `NaluFraming.AvccInjective` | av/codec/h264parser/convert.go:11-22 | a list of units is determined by its AVCC framing |
| `NaluFraming.AvccRecognised` | av/codec/parser/parser.go:76-104 | an AVCC framing below 2^32 bytes is split back and called AVCC if and only if its first unit has at least two bytes, whatever the length prefix looks like |
| `NaluFraming.WalkClean` | av/codec/parser/parser.go:120-174 | every unit split off Annex B data is non-empty and free of start codes |
| `NaluFraming.AnnexBRecognised` | av/codec/parser/parser.go:118-174 | units behind four-byte codes are split back if and only if none is empty and none holds a start code |
| `NaluConversion.AVCCToAnnexB` | av/codec/parser/parser.go:273-292 | lengths are replaced by start codes, or the data is refused for a length past its end |
| `NaluConversion.FindNextAnnexBNALUnit` | av/codec/parser/parser.go:211-241 | the next unit's range, with the search stopping three bytes before the end |
| `NaluConversion.AnnexBToAVCC` | av/codec/parser/parser.go:246-269 | the units found are framed with their lengths |
| `NaluConversion.ThereAndBack` | av/codec/parser/parser.go:205-292 | AVCC data converted to Annex B and back is unchanged if and only if no unit shows the search a start code, trailing zeros and empty units included |
| `Chain.StreamsChanged` | av/chain/chain.go:315-349 | the comparison finds any difference in number, index, type, tag or picture size |
| `Chain.ChainingDemuxer.ReadPacket` | av/chain/chain.go:107-179 | one read in 64-bit arithmetic, moving through exhausted segments, as specified |
| `Chain.DrainIsBySegment` | av/chain/chain.go:107-179 | reading packet by packet up to the first error gives the segments one after the other, each with its own offset, in 64-bit arithmetic |
| `Chain.ChainMonotone` | av/chain/chain.go:107-179 | over any number of tidy segments (times in order, nothing negative), empty ones included, the DTS never goes back if and only if no start leaves the 64-bit timeline and no segment starts before the last DTS that came out |
| `Chain.ShortChainMonotone` | av/chain/chain.go:107-179 | tidy segments whose last packet ends within the 64-bit timeline never go back |
| `Chain.FitsExactly` | av/chain/chain.go:119-123 | no time of tidy segments leaves 64 bits if and only if the end of the last packet does not |
| `Chain.ChainWraps` | av/chain/chain.go:119-123 | two tidy segments past that end, for which the DTS goes back |
| `Chain.SpacingKept` | av/chain/chain.go:119-123 | all packets of a segment are moved by the same offset, in 64-bit arithmetic |
| `Chain.AfterAllEnds` | av/chain/chain.go:121-123 | a segment is placed after the 64-bit end of every packet of every earlier segment, which is the true end unless it leaves 64 bits |
| `Chain.CodecChangesMarked` | av/chain/chain.go:131-176 | a packet announces new codecs if and only if it is the first of a segment whose streams differ from the previous one's |
| `FragmentWriter.Writer.New` | av/format/fmp4/fragment_writer.go:35-62 | one track per stream, numbered in order, or nothing when any stream is unsupported |
| `FragmentWriter.Writer.WritePacket` | av/format/fmp4/fragment_writer.go:66-84 | a packet of a known stream becomes a sample of its track, filling in the duration before it; others are dropped |
| `FragmentWriter.Writer.FirstIsKeyframe` | av/format/fmp4/fragment_writer.go:99-107 | whether the first video track that holds samples starts with a keyframe |
| `FragmentWriter.Writer.Flush` | av/format/fmp4/fragment_writer.go:116-170 | the emsg boxes, moof and mdat of what is buffered, which is then gone; nothing when nothing is buffered |
| `FragmentWriter.FlushWritesAll` | av/format/fmp4/fragment_writer.go:116-170 | a flush returns bytes if and only if a packet was accepted since the last one, its tracks hold exactly those packets, and nothing stays behind |
| `LlHls.Muxer.WriteHeader` | av/format/llhls/muxer.go:169-197 | a header makes the fragment writer, the initialisation segment and segment 0, or fails changing nothing |
| `LlHls.Muxer.FinaliseSegment` | av/format/llhls/muxer.go:399-427 | completing a segment joins its parts, updates the longest duration, trims the window and starts the next number |
| `LlHls.Muxer.EmitPart` | av/format/llhls/muxer.go:362-395 | a flushed fragment joins the current segment as a part with its independence flag, and the segment completes at a keyframe past its target |
| `LlHls.Muxer.WritePacket` | av/format/llhls/muxer.go:202-235 | keyframe gate, flush rule and buffering |
| `LlHls.Muxer.WriteTrailer` | av/format/llhls/muxer.go:238-259 | the last part and segment are completed |
| `LlHls.Muxer.WriteCodecChange` | av/format/llhls/muxer.go:279-315 | a codec change flushes the part, replaces the listed streams and starts a fresh writer and initialisation segment for them; when they are refused the old writer stays |
| `LlHls.Muxer.PartAvailable` | av/format/llhls/muxer.go:520-544 | whether a segment or part has been published |
| `LlHls.Muxer.FindSegmentData` | av/format/llhls/muxer.go:575-583 | the data of a listed segment, nothing for others |
| `LlHls.Muxer.FindPartData` | av/format/llhls/muxer.go:623-643 | the data of a part of a listed or the current segment |
| `LlHlsRuns.WindowConsecutive` | av/format/llhls/muxer.go:399-427 | after any calls the listed segments are the newest, numbered up to just before the current one, each the concatenation of its numbered parts, none longer than the longest on record or the advertised target duration |
| `LlHlsRuns.SegmentIsItsParts` | av/format/llhls/muxer.go:575-643 | a segment is served as exactly the bytes of its parts served one by one, and every segment of the window is found |
| `LlHlsRuns.AvailableStays` | av/format/llhls/muxer.go:520-544 | with a window of at least one segment, what is available stays available |
| `LlHlsWitnesses.AvailabilityLost` | av/format/llhls/muxer.go:415-417 | with an empty window, whatever the other settings, there are calls after which an available part disappears |
| `LlHlsRuns.NothingLost` | av/format/llhls/muxer.go:202-259 | every packet accepted by the fragment writer is in exactly one part, in order, or in the writer; after the trailer all are in complete segments |
| `LlHlsRuns.StartsExactly` | av/format/llhls/muxer.go:202-235 | after any calls every segment starts with a sample marked as a keyframe of a video track if and only if no accepted packet that is not one found nothing open or was labelled as the keyframe that completes what was |
| `LlHlsRuns.LabelledNeverKeyless` | av/format/llhls/muxer.go:213-229 | when every packet labelled as a video keyframe belongs to a known video stream, no such packet comes |
| `LlHlsRuns.SegmentsStartAtKey` | av/format/llhls/muxer.go:213-229 | so, unless such a packet came, each listed segment starts with a sample marked as a keyframe of a video track |
| `LlHlsWitnesses.KeylessSegment` | av/format/llhls/muxer.go:213-229 | with any settings that keep a segment, a keyframe of an unknown stream lets a segment start with a delta frame |
| `LlHlsDelivery.SegmentDelivers` | av/format/llhls/muxer.go:575-583 | after any calls, a demuxer that knows the tracks and reads the bytes of a listed segment returns one batch per part, to the last byte, each a rearrangement of exactly the part's packets in ascending decode time, and each part holds exactly the samples of the packets accepted for it |
| `LlHlsDelivery.FirstPartIndependent` | av/format/llhls/muxer.go:363-380 | with one video stream, and unless such a packet came, the first part of every listed segment is marked independent |
| `AnalyticsStore.Search` | av/pva/store.go:51-60 | the binary search returns the number of entries before the bound |
| `AnalyticsStore.Store.Put` | av/pva/store.go:43-66 | a put drops expired entries and inserts before the first that is not earlier |
| `AnalyticsStore.PutKeeps` | av/pva/store.go:43-66 | the list is sorted again and holds the new entry and exactly the unexpired old ones |
| `AnalyticsStore.Store.Lookup` | av/pva/store.go:82-119 | the lookup returns what a scan of every entry returns |
| `AnalyticsStore.LookupIsFullScan` | av/pva/store.go:82-119 | comparing the two neighbours of the target equals the full scan, ties included |
| `AnalyticsStore.ScanIsNearest` | av/pva/store.go:78-119 | the full scan finds an entry if and only if one is within 200 ms, and then a nearest one |
| `AnalyticsStore.NearestFound` | av/pva/store.go:43-119 | after any puts the lookup finds a nearest entry if and only if one is within 200 ms |

## Left out

- Network, HTTP, gRPC, databases, files and timers: queues, writers and clocks stand in for them.
- Codec parameter sets and the contents of ftyp, tkhd, hdlr, media headers, dinf and sample entries: opaque bytes that parse.
- Playlist text, URL parsing and blocking reload waits of the HLS server.
- Stream headers kept by the packet buffer and the relay, and codec headers after rotation: copied, never interpreted.
- `seekViaMoofScan`, `loadSidx` and emsg parsing in the fMP4 reader; the moof scan repeats the box walk that is modelled.
- H.265 depacketizing and the AAC access-unit header decoder: their outputs are inputs of the RTP timeline.
- `Seek` in the chaining demuxer and the segment ring buffer: independent of the properties above.
- ADTS headers: a fixed bit layout without state.
- FragmentReader.Demuxer.ReadPackets: times stay in track ticks, because `ParseMoofMdat` converts and sorts them.
- FragmentReader.Demuxer.ReadPacket: does not attach analytics from emsg boxes or announce new codecs, and takes the parsing of a moov and the unstable sort as parameters: any parser, and any function that sorts, because packets of equal decode time may come in either order.
- FragmentMuxer.Muxer.FlushFragment: does not model a writer that fails, because the output is a growing byte sequence here.
- FragmentMuxer.Muxer.WriteHeader: takes the initialisation segment's bytes as a parameter, because its boxes are opaque here, and does not model a writer that fails.
- FragmentMuxer.Muxer.WritePacket: does not model `FragmentGaps` or a writer that fails, because neither changes what is buffered.
- FragmentMuxer.Muxer.Flush: does not model a writer that fails.
- FragmentMuxer.Muxer.WriteTrailer: does not model a writer that fails.
- FragmentMuxer.Muxer.WriteCodecChange: takes the initialisation segment's bytes as a parameter and does not model a writer that fails.
- FragmentMuxerRuns.AcceptanceFrom: covers runs without a codec change, because a codec change can change which streams are known.
- SegmentSeek.SeekFindsFragment: uses the stream's own clock, as the segment muxer does for video; an audio-only segment is indexed at 90 kHz.
- Mp4File.Muxer.WriteTrailer: does not model a writer that fails.
- Mp4File.FlushTracks: does not model a writer that fails.
- Mp4File.ParseTrak: does not model codec configurations that fail to parse, because sample entries are opaque here.
- Mp4File.Demuxer.ReadPacket: does not model a cancelled context, because it only ends the reading early.
- SegmentRotation.SegmentMuxer.WritePacket: models only the rotation rule and the keyframe flag, because the analytics flags and the ring buffer do not affect it.
- LlHls.Muxer.EmitPart: durations are exact nanoseconds where the source converts them to floating-point seconds.
- LlHls.Muxer.WriteHeader: takes the initialisation segment as a function of the streams, because its boxes are opaque here.
- AnalyticsStore.Store.Put: shifts entries on a sequence value, so sharing of the backing array between slices is not captured.
- Relay.Consumer.Send: the queue is a sequence with a chosen outcome per send; goroutine scheduling is covered by the step model instead.
