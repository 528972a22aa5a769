# Proofs about the media tools

Dafny models of the parts of this repository whose correctness depends on state, arithmetic or the order of
events: the output side of the transcoder, the queues of the player, the command-line splitter and `getopt`, the
two-file merge, three small decoders, and raw YUV file input and output. `dafny verify dfyconfig.toml` checks
everything.

The code that updates objects, queues and buffers in place is modelled by classes, arrays and loops. Each method
is proved equal to a step function on values, and the theorems are about all runs of those steps, or about all
inputs.

| file | what it models | main theorems |
|---|---|---|
| `BitstreamFilters.dfy` | the pump of `output_packet` over a chain of bitstream filters | `RunIsComposition` |
| `Muxer.dfy` | `write_packet`, the queue before the header, timestamp repair | `PacketsAreConserved`, `DtsIncrease`, `MuxedOrderExactly`, `MuxedMoments` |
| `VideoSync.dfy` | duplicating and dropping of frames in `do_video_out` | `FramesAreConserved`, `DropsAreNeverShown`, `EncoderPtsIncrease`, `PicturesSwitchOnTime`, `PassthroughOrderExactly`, `DriftIsBounded` |
| `FilterInputs.dfy` | frames that wait for a filter graph | `FramesEnterInOrder`, `FramesMeetTheirSource`, `ChangedFramesReopen` |
| `PacketQueue.dfy` | the player's packet queue, its decoder, and seeks | `SeekSafety`, `NothingFromBeforeTheSeek`, `PacketsStayInLine` |
| `FrameRing.dfy` | the player's frame ring between two threads | `RingIsBoundedFifo`, `WritableSlotIsFree`, `PeekedFrameSurvivesNext` |
| `CommandLine.dfy` | splitting a command line into option groups | `EveryWordHasOneRole`, `RoundTrip` |
| `Getopt.dfy` | `getopt` and its static state | `RunIsOnePass`, `BundlingInvariance` |
| `Merge.dfy` | the loop that merges two files | `WrittenBalance`, `StopsAtTheEndOfOne` |
| `EightBps.dfy`, `EightBpsEncoding.dfy` | the 8BPS video decoder | `NothingIsOverwritten`, `RoundTrip` |
| `EightSvx.dfy` | the 8SVX audio decoder | `Chunking`, `MonotoneNonExpansive` |
| `Zero12v.dfy` | the 012v video decoder | `MissingExactly`, `PaddingKeptExactly`, `PictureRoundTrip` |
| `Yuv420p.dfy` | raw picture files | `IndependentExactly`, `LosslessExactly`, `RoundTrip` |
| `Timing.dfy`, `Strides.dfy`, `Common.dfy` | time bases, rows inside a buffer, small shared definitions | |

Calls into libav are interfaces of the model. A bitstream filter is any deterministic transducer with finitely many
pending outputs; a demuxer is a sequence of packets; a codec is the packets sent to it since its last flush, and
answers in any way; AVOption lookup is an oracle; `lrint` is any rounding within one half. Threads take atomic
steps in any order, and a step outside a lock is a step of its own.

Nine times a property fails for some inputs. A lemma gives an input, and another the exact condition:

- The muxed dts need not increase: a copied VP9 stream can step back (`Muxer.Vp9CopyMayStepBack`), and so can any
  stream behind a packet without dts (`Muxer.GapMayStepBack`), since `last_mux_dts` is then no timestamp. Over a
  whole run they are in order exactly when every packet has no dts, or is repaired after a packet with one, or
  arrives no earlier than the next dts allowed and, at a muxer without timestamps, with dts <= pts
  (`Muxer.MuxedOrderExactly`).
- Under passthrough and drop the pts need not increase although the input times do: pictures at 0.25 and 0.4
  ticks are both sent with pts 0 (`VideoSync.CloseTimesCollide`). Over a whole run they strictly increase exactly
  when the rounded input times do (`VideoSync.PassthroughOrderExactly`).
- A picture that was encoded can be reported as dropped: a first one at 2.4 ticks without duration is encoded twice
  and counted as a drop (`VideoSync.FirstPictureMislaid`). Over a run without early return the reported drops are the
  pictures never encoded and those mislaid in this way (`VideoSync.DropsAreNeverShown`); there are none of the second
  kind if pictures with none before them come at most 1.1 ticks late (`VideoSync.DropsExactly`).
- The 8BPS decoder puts colours on the wrong bytes of a pixel exactly for 24-bit video in the padded format on a
  big-endian machine (`EightBps.ColoursAreInPlace`).
- The 012v decoder does not always leave what is behind the visible samples alone: with two or four columns left
  the copy of the chroma samples is one byte longer than them, as for eight columns (`Zero12v.EightColumns`). The
  padding is kept exactly if width % 6 is neither 2 nor 4, or the bytes copied are those that were there
  (`Zero12v.PaddingKeptExactly`); a chroma plane needs one sample more than is visible of its last line.
- The bytes of a raw picture can depend on its line sizes: one of 4x3 takes 18 or 17 bytes
  (`Yuv420p.FourByThree`), since the block of an unpadded chroma plane is width*height/4 bytes and its rows are
  (width/2)*(height/2). They are independent of the line sizes exactly when the size is regular: the width is odd
  (such a chroma plane is never unpadded for the code) or at most 2, or the height is even
  (`Yuv420p.IndependentExactly`).
- So a raw picture is not always read back into a frame of other line sizes (`Yuv420p.FourByThreeOutOfStep`): the
  planes are read from where they were written exactly when the size is regular or each chroma plane is unpadded
  in both frames or in neither (`Yuv420p.InStepExactly`, `Yuv420p.SameSizesExactly`).
- The bytes do not determine the picture for odd sizes, whose last chroma column or line is not written
  (`Yuv420p.OddSizesLose`); they do exactly when both sides are even, or the picture is empty
  (`Yuv420p.LosslessExactly`).
- A file without a separator cannot be given on the command line if it is named "--", and can by any other name
  (`CommandLine.FileNamesExactly`), which is why the round trip excludes this name.

## Model

| member | source | states |
|---|---|---|
| BitstreamFilters.OutputStream.OutputPacket | app/cpp/media/ffmpeg_run/ffmpeg-4.0.2/fftools/ffmpeg.c:836-885 | one call writes, in order, the packets that leave the chain when its input is fed through it, reports an error exactly when a fault leaves the chain, and otherwise leaves every filter drained for the next call |
| BitstreamFilters.OutputStream.Pump | app/cpp/media/ffmpeg_run/ffmpeg-4.0.2/fftools/ffmpeg.c:849-874 | the loop ends on every chain and every filter, and does what driving the chain turn by turn does |
| BitstreamFilters.OutputStream.OneTurn | app/cpp/media/ffmpeg_run/ffmpeg-4.0.2/fftools/ffmpeg.c:851-874 | one turn: a receive from the filter above, and its answer sent down, written, turned into a step up, or ended with |
| BitstreamFilters.OutputStream.constructor | app/cpp/media/ffmpeg_run/ffmpeg-4.0.2/fftools/ffmpeg.c:3002-3036 | a new stream has empty, open, drained filters |
| BitstreamFilters.SendAnswers | app/cpp/media/ffmpeg_run/ffmpeg-4.0.2/libavcodec/bsf.c:175-199 | a filter takes a packet exactly if it is neither closed nor still to be drained; closing releases what it holds back, once |
| BitstreamFilters.ReceiveAnswers | app/cpp/media/ffmpeg_run/ffmpeg-4.0.2/libavcodec/bsf.c:201-204 | a filter gives its pending outputs one after the other, then "again", or "end of file" once closed |
| BitstreamFilters.TurnKeepsRest | app/cpp/media/ffmpeg_run/ffmpeg-4.0.2/fftools/ffmpeg.c:851-874 | each turn from any position leaves exactly the rest of the work to do, loses and repeats nothing, and brings the end nearer |
| BitstreamFilters.DriveIsFinish | app/cpp/media/ffmpeg_run/ffmpeg-4.0.2/fftools/ffmpeg.c:851-874 | walking the chain with one index writes what the position-by-position specification says is left to do |
| BitstreamFilters.FirstSend | app/cpp/media/ffmpeg_run/ffmpeg-4.0.2/fftools/ffmpeg.c:845-850 | sending the first filter its packet or end of file leaves just the rest of the feed to do, or refuses it as the feed does |
| BitstreamFilters.FeedStaysReady | app/cpp/media/ffmpeg_run/ffmpeg-4.0.2/fftools/ffmpeg.c:849-874 | after a call every filter of the chain is drained again |
| BitstreamFilters.FeedSplit | app/cpp/media/ffmpeg_run/ffmpeg-4.0.2/fftools/ffmpeg.c:836-885 | feeding in two calls is feeding at once |
| BitstreamFilters.FeedStage | app/cpp/media/ffmpeg_run/ffmpeg-4.0.2/fftools/ffmpeg.c:849-874 | item-by-item feeding shows the first filter the whole stream and the other filters all it emits |
| BitstreamFilters.FeedIsComposition | app/cpp/media/ffmpeg_run/ffmpeg-4.0.2/fftools/ffmpeg.c:836-885 | what leaves the chain is the composition of the filters, each applied to the whole stream the one before it emits |
| BitstreamFilters.FaultsComeOut | app/cpp/media/ffmpeg_run/ffmpeg-4.0.2/fftools/ffmpeg.c:853-861 | a fault raised anywhere in the chain comes out of it and is never swallowed |
| BitstreamFilters.AfterSawAll | app/cpp/media/ffmpeg_run/ffmpeg-4.0.2/fftools/ffmpeg.c:845-871 | a filter is sent exactly its input stream, in order, and then one end of file |
| BitstreamFilters.RunIsComposition | app/cpp/media/ffmpeg_run/ffmpeg-4.0.2/fftools/ffmpeg.c:836-885 | over any packets and the final end-of-file call, the packets written are the composition of the filters on the input stream; each filter got its whole input in order and end of file once, after it |
| BitstreamFilters.OutputStream.OutputAll | app/cpp/media/ffmpeg_run/ffmpeg-4.0.2/fftools/ffmpeg.c:836-885 | the calls for a whole stream and its end write the composition of the filters on it, fail exactly when a fault leaves the chain, and otherwise leave each filter having got its input and one end of file |
| Timing.RescaleIsNear | app/cpp/media/ffmpeg_run/ffmpeg-4.0.2/libavutil/mathematics.c:134-145 | a rescaled timestamp stands for the same moment, up to half a tick of the new time base |
| Timing.HalvesAwayFromZero | app/cpp/media/ffmpeg_run/ffmpeg-4.0.2/libavutil/mathematics.c:77-95 | of two nearest values rounded division takes the one farther from zero |
| Timing.RescaleMonotone | app/cpp/media/ffmpeg_run/ffmpeg-4.0.2/libavutil/mathematics.c:134-145 | rescaling timestamps keeps their order |
| Timing.CompareIsByTime | app/cpp/media/ffmpeg_run/ffmpeg-4.0.2/libavutil/mathematics.c:147-158 | the sign of the cross-multiplied comparison is that of the comparison of real moments |
| Muxer.OutputStream.WritePacket | app/cpp/media/ffmpeg_run/ffmpeg-4.0.2/fftools/ffmpeg.c:679-812 | the new state and the answer of one call: dropped over the frame limit, queued before the header, refused when the queue may not grow, otherwise repaired and muxed |
| Muxer.OutputStream.MuxPacket | app/cpp/media/ffmpeg_run/ffmpeg-4.0.2/fftools/ffmpeg.c:725-791 | repair of the timestamps and hand-over, or the abort under exit_on_error |
| Muxer.OutputStream.FlushQueue | app/cpp/media/ffmpeg_run/ffmpeg-4.0.2/fftools/ffmpeg.c:2988-2996 | after the header the queue is emptied through write_packet in order, with the muxing time base improved only when nothing waits |
| Muxer.OutputFile.CheckInit | app/cpp/media/ffmpeg_run/ffmpeg-4.0.2/fftools/ffmpeg.c:2956-3000 | the header is written exactly when all streams are initialized and the muxer accepts it, and then every stream is flushed; otherwise nothing changes |
| Muxer.OutputStream.constructor | app/cpp/media/ffmpeg_run/ffmpeg-4.0.2/fftools/ffmpeg_opt.c:1491-1515 | a new stream has an empty queue for eight packets and no last dts |
| Muxer.GuessIsMedian | app/cpp/media/ffmpeg_run/ffmpeg-4.0.2/fftools/ffmpeg.c:760-763 | the guess is the median of pts, dts and the next expected dts |
| Muxer.RepairSound | app/cpp/media/ffmpeg_run/ffmpeg-4.0.2/fftools/ffmpeg.c:753-787 | a repaired packet is in order, keeps its payload, is unchanged exactly when it was in order, and is moved no further than the order demands |
| Muxer.PacketsAreConserved | app/cpp/media/ffmpeg_run/ffmpeg-4.0.2/fftools/ffmpeg.c:693-791 | over every run the packets muxed and then those queued are the accepted packets, each once and in order; nothing is muxed before the header or waits after it; `packets_written` plus queue length is `frame_number`, which stays within the limit; the queue stays within max(8, limit) |
| Muxer.HeaderConserves | app/cpp/media/ffmpeg_run/ffmpeg-4.0.2/fftools/ffmpeg.c:2984-2997 | flushing at the header moves the queued packets to the muxer and loses none |
| Muxer.OverflowIffFull | app/cpp/media/ffmpeg_run/ffmpeg-4.0.2/fftools/ffmpeg.c:704-712 | the overflow error is raised exactly when a counted packet comes before the header and the queue is full at max(8, limit) |
| Muxer.DtsIncrease | app/cpp/media/ffmpeg_run/ffmpeg-4.0.2/fftools/ffmpeg.c:753-788 | over every run of an audio or video stream with timestamps the muxed dts strictly increase (never decrease for a non-strict muxer) and never exceed the pts |
| Muxer.MuxedOrderExactly | app/cpp/media/ffmpeg_run/ffmpeg-4.0.2/fftools/ffmpeg.c:753-791 | over every run of any stream and any packets, with or without timestamps: the muxer gets the accepted packets repaired one after the other, and they are in order exactly when every packet has no dts, or is repaired, or does not arrive before the next dts allowed (nor with dts > pts at a muxer without timestamps) |
| Muxer.StreamTimeStandsFor | app/cpp/media/ffmpeg_run/ffmpeg-4.0.2/fftools/ffmpeg.c:740-751 | a present timestamp is rescaled to within half a tick of the stream time base of its moment, an absent one stays absent, and dropped ones become absent |
| Muxer.MuxedMoments | app/cpp/media/ffmpeg_run/ffmpeg-4.0.2/fftools/ffmpeg.c:740-791 | over every run the i-th packet muxed is the repair of a packet that stands for the moments of the i-th accepted one, and is that packet itself if it needs no repair |
| Muxer.BaseOfTheHeader | app/cpp/media/ffmpeg_run/ffmpeg-4.0.2/fftools/ffmpeg.c:2984-2997 | packets count in the encoder's time base, unless none had been accepted when the header was written: then in the stream's own |
| Muxer.RepairOfGaps | app/cpp/media/ffmpeg_run/ffmpeg-4.0.2/fftools/ffmpeg.c:754-787 | a packet without dts is muxed as it is, and one without pts only has its dts moved where the order demands it |
| Muxer.DroppedExactly | app/cpp/media/ffmpeg_run/ffmpeg-4.0.2/fftools/ffmpeg.c:679-691 | a packet is left out exactly over the frame limit, which counts all packets but those of encoded video |
| Muxer.AbortedExactly | app/cpp/media/ffmpeg_run/ffmpeg-4.0.2/fftools/ffmpeg.c:768-780 | with exit_on_error a run ends exactly at a packet whose dts, guessed if need be, is before the next one allowed |
| Muxer.RoomIsDoubled | app/cpp/media/ffmpeg_run/ffmpeg-4.0.2/fftools/ffmpeg.c:697-712 | over every run the queue's room is eight doubled as often as needed, or the limit |
| Muxer.ExemptRepair | app/cpp/media/ffmpeg_run/ffmpeg-4.0.2/fftools/ffmpeg.c:753-768 | a stream exempt from the order repair keeps its times, unless timestamps are used and a dts is after its pts; then both become the median of pts, dts and the next expected dts |
| Muxer.Vp9CopyMayStepBack | app/cpp/media/ffmpeg_run/ffmpeg-4.0.2/fftools/ffmpeg.c:767 | a copied VP9 stream whose muxed dts step back |
| Muxer.GapMayStepBack | app/cpp/media/ffmpeg_run/ffmpeg-4.0.2/fftools/ffmpeg.c:768-789 | an audio stream whose muxed dts step back behind a packet without dts |
| VideoSync.OutputStream.DoVideoOut | app/cpp/media/ffmpeg_run/ffmpeg-4.0.2/fftools/ffmpeg.c:1043-1336 | the new state and the way the call ends, including the three early returns |
| VideoSync.OutputStream.Choose | app/cpp/media/ffmpeg_run/ffmpeg-4.0.2/fftools/ffmpeg.c:1078-1155 | how many frames to encode, how many of them repeat the last picture, and the next pts, for every sync method |
| VideoSync.OutputStream.CountDuplicates | app/cpp/media/ffmpeg_run/ffmpeg-4.0.2/fftools/ffmpeg.c:1160-1184 | the dup and drop counters, the history of repeats and `last_dropped` |
| VideoSync.OutputStream.EncodeFrames | app/cpp/media/ffmpeg_run/ffmpeg-4.0.2/fftools/ffmpeg.c:1187-1328 | which picture is encoded with which pts, until the count is reached, no picture is there, or the recording time is over |
| VideoSync.DurationNotNegative | app/cpp/media/ffmpeg_run/ffmpeg-4.0.2/fftools/ffmpeg.c:1063-1076 | the duration taken from the frame rates and the packet is never negative |
| VideoSync.DurationMeans | app/cpp/media/ffmpeg_run/ffmpeg-4.0.2/fftools/ffmpeg.c:1063-1076 | the duration is the packet's, rounded, for an unfiltered picture that has one, and otherwise the shorter of the known frame intervals |
| VideoSync.DefaultRoundingFits | app/cpp/media/ffmpeg_run/ffmpeg-4.0.2/fftools/ffmpeg.c:1128-1150 | the default rounding of lrint is within one half, so the assumption made about rounding can be met |
| VideoSync.EncodeShape | app/cpp/media/ffmpeg_run/ffmpeg-4.0.2/fftools/ffmpeg.c:1187-1328 | a call encodes consecutive timestamps, all it decided on if it completes |
| VideoSync.FramesAreConserved | app/cpp/media/ffmpeg_run/ffmpeg-4.0.2/fftools/ffmpeg.c:1157-1749 | over any run without early return, frames encoded = pictures received + dup - drop - last_dropped, that is received + dup - drop as finally reported |
| VideoSync.SyncNeverStepsBack | app/cpp/media/ffmpeg_run/ffmpeg-4.0.2/fftools/ffmpeg.c:1109-1155 | under CFR, VSCFR and VFR a call never moves the next timestamp back |
| VideoSync.EncoderPtsIncrease | app/cpp/media/ffmpeg_run/ffmpeg-4.0.2/fftools/ffmpeg.c:1078-1201 | under CFR, VSCFR and VFR the pts sent to the encoder strictly increase over any calls, early returns and flushes included |
| VideoSync.PassthroughKeepsTimes | app/cpp/media/ffmpeg_run/ffmpeg-4.0.2/fftools/ffmpeg.c:1148-1201 | over any run under passthrough and drop, early returns and flushes included, the encoder is sent each shown picture once with its rounded input time, as far as the frame limit and the recording time allow; flushes send nothing |
| VideoSync.PassthroughOrderExactly | app/cpp/media/ffmpeg_run/ffmpeg-4.0.2/fftools/ffmpeg.c:1148-1201 | so the pts strictly increase over a run exactly when the rounded times of these pictures do |
| VideoSync.CloseTimesCollide | app/cpp/media/ffmpeg_run/ffmpeg-4.0.2/fftools/ffmpeg.c:1148-1151 | two pictures at increasing times, 0.25 and 0.4 ticks, are both sent with pts 0 |
| VideoSync.VfrFollowsInput | app/cpp/media/ffmpeg_run/ffmpeg-4.0.2/fftools/ffmpeg.c:1142-1147 | under VFR a picture is dropped exactly when it ends 0.6 ticks or more before the next timestamp, and otherwise encoded once, close to its end or its time |
| VideoSync.PicturesInOrder | app/cpp/media/ffmpeg_run/ffmpeg-4.0.2/fftools/ffmpeg.c:1187-1336 | over any run and any sync method, early returns and flushes included, pictures are encoded in the order they came, however often each is repeated |
| VideoSync.ShownOnTime | app/cpp/media/ffmpeg_run/ffmpeg-4.0.2/fftools/ffmpeg.c:1128-1201 | in every call each added frame shows the new picture from 1.1 ticks before its time on, and the one before it up to there |
| VideoSync.RunIsOnTime | app/cpp/media/ffmpeg_run/ffmpeg-4.0.2/fftools/ffmpeg.c:1128-1201 | so it is in every call of every run |
| VideoSync.PicturesSwitchOnTime | app/cpp/media/ffmpeg_run/ffmpeg-4.0.2/fftools/ffmpeg.c:1128-1336 | over any run of pictures without early return the picture before is that of the call before |
| VideoSync.BurstShows | app/cpp/media/ffmpeg_run/ffmpeg-4.0.2/fftools/ffmpeg.c:1187-1201 | the loop shows the remembered picture in the first places and the new one in the others, with consecutive pts |
| VideoSync.ConstantExactly | app/cpp/media/ffmpeg_run/ffmpeg-4.0.2/fftools/ffmpeg.c:1120-1131 | at a constant rate a picture adds no frame exactly if it comes too early, one if it ends within 1.1 ticks of the next timestamp, otherwise as many as bring that within half a tick of its end |
| VideoSync.VariableStart | app/cpp/media/ffmpeg_run/ffmpeg-4.0.2/fftools/ffmpeg.c:1109-1119 | with a variable start a late first picture is not preceded by frames but starts at its rounded time; from then on the rate is constant |
| VideoSync.LimitsHold | app/cpp/media/ffmpeg_run/ffmpeg-4.0.2/fftools/ffmpeg.c:1170-1212 | no frame is encoded at or behind the end of the recording, and no burst is longer than the threshold |
| VideoSync.RepeatsAreRemembered | app/cpp/media/ffmpeg_run/ffmpeg-4.0.2/fftools/ffmpeg.c:1157-1165 | a call remembers how many of its frames repeat the picture before, and two calls before that |
| VideoSync.FlushRepeatsMedian | app/cpp/media/ffmpeg_run/ffmpeg-4.0.2/fftools/ffmpeg.c:1078-1083 | the flush repeats the last picture as often as the median of the three |
| VideoSync.DropsAreNeverShown | app/cpp/media/ffmpeg_run/ffmpeg-4.0.2/fftools/ffmpeg.c:1160-1749 | over any run without early return the drops as reported are the pictures never encoded, and those mislaid: shown as the first picture but counted as dropped |
| VideoSync.MislaidExactly | app/cpp/media/ffmpeg_run/ffmpeg-4.0.2/fftools/ffmpeg.c:1157-1184 | with no picture before it one is mislaid exactly if all the frames of its call are meant for that one |
| VideoSync.DropsExactly | app/cpp/media/ffmpeg_run/ffmpeg-4.0.2/fftools/ffmpeg.c:1160-1749 | none is mislaid if pictures with none before them come at most 1.1 ticks late; then the drops are exactly the pictures never encoded |
| VideoSync.FirstPictureMislaid | app/cpp/media/ffmpeg_run/ffmpeg-4.0.2/fftools/ffmpeg.c:1184 | a first picture at 2.4 ticks without duration is encoded twice and reported as a drop |
| VideoSync.DriftStep | app/cpp/media/ffmpeg_run/ffmpeg-4.0.2/fftools/ffmpeg.c:1084-1318 | after each constant-rate picture the output clock is at least -0.5 past its end, and at most 2.1, unless it did not move |
| VideoSync.DriftIsBounded | app/cpp/media/ffmpeg_run/ffmpeg-4.0.2/fftools/ffmpeg.c:1084-1318 | over a whole constant-rate run with non-decreasing end times the drift stays between -0.5 and max(2.1, where it began) |
| VideoSync.VfrDriftIsBounded | app/cpp/media/ffmpeg_run/ffmpeg-4.0.2/fftools/ffmpeg.c:1142-1318 | over a whole variable-rate run with non-decreasing end times the next timestamp is, after each picture, 0.4 ticks or more past its time, and past its end by at most max(1.6, where it began) |
| FilterInputs.FilterGraph.SendFrame | app/cpp/media/ffmpeg_run/ffmpeg-4.0.2/fftools/ffmpeg.c:2117-2188 | the new state: parameters taken over, the frame queued while a format is unknown, otherwise the graph rebuilt if needed and the frame pushed last |
| FilterInputs.FilterGraph.SendEof | app/cpp/media/ffmpeg_run/ffmpeg-4.0.2/fftools/ffmpeg.c:2190-2211 | the end of file is recorded, and closes the source, or the format is taken from the codec, or the stream has no format |
| FilterInputs.FilterGraph.Configure | app/cpp/media/ffmpeg_run/ffmpeg-4.0.2/fftools/ffmpeg_filter.c:996-1154 | a new graph: every source opened anew, its waiting frames pushed in order, recorded ends of file sent again |
| FilterInputs.FilterGraph.DrainQueue | app/cpp/media/ffmpeg_run/ffmpeg-4.0.2/fftools/ffmpeg_filter.c:1136-1145 | all waiting frames of an input are pushed in order |
| FilterInputs.FilterGraph.HasAllInputFormats | app/cpp/media/ffmpeg_run/ffmpeg-4.0.2/fftools/ffmpeg.c:2106-2115 | true exactly when every audio and video input has a format |
| FilterInputs.FilterGraph.Poll | app/cpp/media/ffmpeg_run/ffmpeg-4.0.2/fftools/ffmpeg.c:4545-4552 | the graph is configured exactly when it was not and all formats are known |
| FilterInputs.FilterGraph.Finish | app/cpp/media/ffmpeg_run/ffmpeg-4.0.2/fftools/ffmpeg.c:1868-1883 | the last attempt, with unknown formats taken from the codecs |
| FilterInputs.FilterGraph.constructor | app/cpp/media/ffmpeg_run/ffmpeg-4.0.2/fftools/ffmpeg_filter.c:986-994 | a new graph has no input configured, queued or ended |
| FilterInputs.ReopenedOk | app/cpp/media/ffmpeg_run/ffmpeg-4.0.2/fftools/ffmpeg_filter.c:1136-1154 | rebuilding the graph keeps the history of an input right, also after its end of file |
| FilterInputs.FramesEnterInOrder | app/cpp/media/ffmpeg_run/ffmpeg-4.0.2/fftools/ffmpeg.c:2117-2211 | on every error-free run: a configured graph knows all formats and has no frame waiting; each decoded frame entered its input once and in order; a recorded end of file follows all frames, also in a rebuilt graph |
| FilterInputs.ConfiguredGraphHoldsAll | app/cpp/media/ffmpeg_run/ffmpeg-4.0.2/fftools/ffmpeg_filter.c:1136-1154 | once a graph is configured everything decoded so far has entered it |
| FilterInputs.FramesMeetTheirSource | app/cpp/media/ffmpeg_run/ffmpeg-4.0.2/fftools/ffmpeg.c:2123-2172 | on every error-free run, every frame sent passes its parameters on to its input, and waits, or is pushed last to a source opened for them |
| FilterInputs.ChangedFramesReopen | app/cpp/media/ffmpeg_run/ffmpeg-4.0.2/fftools/ffmpeg.c:2123-2188 | in a configured graph exactly a frame that differs from the one before it of its input, in format, pool, size (video), rate, channels or layout (audio), has all sources opened anew before it is pushed |
| FilterInputs.CodecFillsIn | app/cpp/media/ffmpeg_run/ffmpeg-4.0.2/fftools/ffmpeg.c:1833-1844 | parameters missing at the end of an input come from the codec, but for the hardware pool |
| FilterInputs.ConfiguredExactly | app/cpp/media/ffmpeg_run/ffmpeg-4.0.2/fftools/ffmpeg.c:2106-2172 | the graph comes into being exactly when every audio and video format is known, or at the end can be taken from the codec |
| FilterInputs.EofAnswers | app/cpp/media/ffmpeg_run/ffmpeg-4.0.2/fftools/ffmpeg.c:2190-2211 | an end of file closes the source, and fails exactly if there is none and the format is not even in the codec |
| PacketQueue.Queue.Put | app/cpp/media/ffmpeg_run/ffmpeg-4.0.2/fftools/ffplay.c:422-463 | the packet goes last with the queue's serial, raised first for a flush packet; nothing after an abort; the three counters keep describing the list |
| PacketQueue.Queue.Flush | app/cpp/media/ffmpeg_run/ffmpeg-4.0.2/fftools/ffplay.c:493-509 | the queue and its counters become empty, the serial stays |
| PacketQueue.Queue.Abort | app/cpp/media/ffmpeg_run/ffmpeg-4.0.2/fftools/ffplay.c:518-527 | only the abort request changes |
| PacketQueue.Queue.Start | app/cpp/media/ffmpeg_run/ffmpeg-4.0.2/fftools/ffplay.c:529-535 | the abort request is withdrawn and a flush packet put |
| PacketQueue.Queue.Get | app/cpp/media/ffmpeg_run/ffmpeg-4.0.2/fftools/ffplay.c:538-574 | the first packet with its serial, or the abort, or nothing yet |
| PacketQueue.Queue.constructor | app/cpp/media/ffmpeg_run/ffmpeg-4.0.2/fftools/ffplay.c:476-490 | a new queue is empty and aborted |
| PacketQueue.PutKeepsOrder | app/cpp/media/ffmpeg_run/ffmpeg-4.0.2/fftools/ffplay.c:434-436 | putting keeps serials from decreasing, and rising only at a flush packet |
| PacketQueue.ReaderKeepsInv | app/cpp/media/ffmpeg_run/ffmpeg-4.0.2/fftools/ffplay.c:2934-2945 | every step of the reader, seeks in two steps included, keeps the invariant of the two threads |
| PacketQueue.DecoderKeepsInv | app/cpp/media/ffmpeg_run/ffmpeg-4.0.2/fftools/ffplay.c:585-672 | every step inside decoder_decode_frame keeps that invariant |
| PacketQueue.InvHolds | app/cpp/media/ffmpeg_run/ffmpeg-4.0.2/fftools/ffplay.c:585-672 | the invariant holds at every point of every interleaving |
| PacketQueue.SeekSafety | app/cpp/media/ffmpeg_run/ffmpeg-4.0.2/fftools/ffplay.c:585-672 | in every interleaving: queued serials never decrease; whenever a frame is asked for, everything in the codec has serial `pkt_serial`; inputs of different serials are separated by a codec flush |
| PacketQueue.InputsJoinTheirOwn | app/cpp/media/ffmpeg_run/ffmpeg-4.0.2/fftools/ffplay.c:642-668 | a packet is sent to the codec only when all that is in the codec has its serial |
| PacketQueue.SerialCountsSeeks | app/cpp/media/ffmpeg_run/ffmpeg-4.0.2/fftools/ffplay.c:422-436 | in every interleaving the serial is one plus the number of seeks put before an abort |
| PacketQueue.SeekRaisesSerial | app/cpp/media/ffmpeg_run/ffmpeg-4.0.2/fftools/ffplay.c:434-436 | each seek raises it above the serial of every packet queued, in hand, pending or in the codec |
| PacketQueue.NothingFromBeforeTheSeek | app/cpp/media/ffmpeg_run/ffmpeg-4.0.2/fftools/ffplay.c:585-672 | whenever the decoder goes on to ask for a frame, everything in the codec was put after the last seek |
| PacketQueue.PacketsStayInLine | app/cpp/media/ffmpeg_run/ffmpeg-4.0.2/fftools/ffplay.c:538-668 | in every interleaving the packets handled, the one the decoder is busy with and those queued are all that were put and not thrown out by a seek, in order: none is lost or handled twice |
| PacketQueue.CodecHoldsWhatWasSent | app/cpp/media/ffmpeg_run/ffmpeg-4.0.2/fftools/ffplay.c:585-672 | the codec holds what was accepted since its last flush, and `finished` is the serial in which it came to its end |
| PacketQueue.PacketsWaitInOrder | app/cpp/media/ffmpeg_run/ffmpeg-4.0.2/fftools/ffplay.c:422-509 | what each action does to the queue |
| PacketQueue.DecoderWaitsExactly | app/cpp/media/ffmpeg_run/ffmpeg-4.0.2/fftools/ffplay.c:585-672 | the decoder waits exactly for a packet, and stops exactly at an abort |
| PacketQueue.ChecksSerial | app/cpp/media/ffmpeg_run/ffmpeg-4.0.2/fftools/ffplay.c:585-640 | the decoder goes on to ask for a frame exactly if its serial is that of the queue, and what each answer of the codec leads to |
| PacketQueue.ReaderIsFree | app/cpp/media/ffmpeg_run/ffmpeg-4.0.2/fftools/ffplay.c:518-2945 | the reader can put, seek and abort at any time but in the middle of a seek |
| PacketQueue.StartsWithFlush | app/cpp/media/ffmpeg_run/ffmpeg-4.0.2/fftools/ffplay.c:529-535 | at the start the queue holds a flush packet of serial 1 and the decoder nothing |
| FrameRing.FrameQueue.PeekWritable | app/cpp/media/ffmpeg_run/ffmpeg-4.0.2/fftools/ffplay.c:740-754 | at any point of any interleaving: the writer waits exactly when the waiting frames, the kept one and one being released fill the ring, and otherwise gets the place of the next frame, which none of these holds |
| FrameRing.FrameQueue.Store | app/cpp/media/ffmpeg_run/ffmpeg-4.0.2/fftools/ffplay.c:740-754 | the frame goes into the write slot and nowhere else |
| FrameRing.FrameQueue.Push | app/cpp/media/ffmpeg_run/ffmpeg-4.0.2/fftools/ffplay.c:772-780 | the write index moves on, around the ring, and the count goes up |
| FrameRing.FrameQueue.Next | app/cpp/media/ffmpeg_run/ffmpeg-4.0.2/fftools/ffplay.c:782-795 | the first call with keep_last only marks the frame as shown; otherwise the slot is released, the read index moves on and the count goes down |
| FrameRing.FrameQueue.Peek | app/cpp/media/ffmpeg_run/ffmpeg-4.0.2/fftools/ffplay.c:725-733 | at any point of any interleaving: looking ahead shows the frame that many places down the waiting queue |
| FrameRing.FrameQueue.PeekLast | app/cpp/media/ffmpeg_run/ffmpeg-4.0.2/fftools/ffplay.c:735-738 | at any point of any interleaving: looking back shows the kept frame, or the first waiting one if none is kept |
| FrameRing.FrameQueue.constructor | app/cpp/media/ffmpeg_run/ffmpeg-4.0.2/fftools/ffplay.c:685-704 | an empty ring of at most FRAME_QUEUE_SIZE slots |
| FrameRing.StepKeepsInv | app/cpp/media/ffmpeg_run/ffmpeg-4.0.2/fftools/ffplay.c:725-801 | every atomic step of either thread keeps the invariant of indices, count and contents |
| FrameRing.InvHolds | app/cpp/media/ffmpeg_run/ffmpeg-4.0.2/fftools/ffplay.c:725-801 | the invariant holds at every point of every interleaving |
| FrameRing.StartsEmpty | app/cpp/media/ffmpeg_run/ffmpeg-4.0.2/fftools/ffplay.c:685-704 | at the start nothing waits and nothing is kept |
| FrameRing.StepRefines | app/cpp/media/ffmpeg_run/ffmpeg-4.0.2/fftools/ffplay.c:772-795 | each atomic step is nothing, a put or a take on a simple bounded queue |
| FrameRing.RingIsBoundedFifo | app/cpp/media/ffmpeg_run/ffmpeg-4.0.2/fftools/ffplay.c:725-801 | every interleaving refines a bounded first-in first-out queue plus an optional kept frame |
| FrameRing.WaitsExactly | app/cpp/media/ffmpeg_run/ffmpeg-4.0.2/fftools/ffplay.c:740-795 | the writer waits exactly for a free slot and the reader exactly for a waiting frame |
| FrameRing.WriteCompletes | app/cpp/media/ffmpeg_run/ffmpeg-4.0.2/fftools/ffplay.c:740-780 | with a free slot the four steps of the writer can be taken, and put the frame last |
| FrameRing.ShowCompletes | app/cpp/media/ffmpeg_run/ffmpeg-4.0.2/fftools/ffplay.c:782-786 | with keep_last the first frame is kept by marking it as shown |
| FrameRing.NextCompletes | app/cpp/media/ffmpeg_run/ffmpeg-4.0.2/fftools/ffplay.c:782-795 | with a frame waiting the three steps of the reader can be taken, and take the first |
| FrameRing.PeeksShowTheFifo | app/cpp/media/ffmpeg_run/ffmpeg-4.0.2/fftools/ffplay.c:725-801 | looking shows the first two waiting frames and the kept one, and their number |
| FrameRing.WritableSlotIsFree | app/cpp/media/ffmpeg_run/ffmpeg-4.0.2/fftools/ffplay.c:740-754 | the writable slot is never that of a pending, kept or just released frame |
| FrameRing.PeekedFrameSurvivesNext | app/cpp/media/ffmpeg_run/ffmpeg-4.0.2/fftools/ffplay.c:2332-2402 | with keep_last a frame peeked before frame_queue_next stays untouched until the call after that one |
| FrameRing.UnkeptFrameIsReleased | app/cpp/media/ffmpeg_run/ffmpeg-4.0.2/fftools/ffplay.c:788-790 | without keep_last the next call releases it at once |
| CommandLine.OptionParseContext.Split | app/cpp/media/ffmpeg_run/ffmpeg-4.0.2/fftools/cmdutils.c:759-863 | the status and the context of splitting any command line |
| CommandLine.OptionParseContext.SplitOne | app/cpp/media/ffmpeg_run/ffmpeg-4.0.2/fftools/cmdutils.c:772-854 | one turn: which role the next word or two words take, or which error ends the split |
| CommandLine.OptionParseContext.Finish | app/cpp/media/ffmpeg_run/ffmpeg-4.0.2/fftools/cmdutils.c:668-694 | the collected options become the last group of its kind, and collecting starts afresh |
| CommandLine.OptionParseContext.AddOpt | app/cpp/media/ffmpeg_run/ffmpeg-4.0.2/fftools/cmdutils.c:699-709 | the option goes last, to the globals or to the group being collected |
| CommandLine.OptionParseContext.constructor | app/cpp/media/ffmpeg_run/ffmpeg-4.0.2/fftools/cmdutils.c:711-731 | an empty context with one list per kind of group |
| CommandLine.MatchGroup | app/cpp/media/ffmpeg_run/ffmpeg-4.0.2/fftools/cmdutils.c:648-660 | the first group ended by this option, or none exactly when no group is |
| CommandLine.EveryWordHasOneRole | app/cpp/media/ffmpeg_run/ffmpeg-4.0.2/fftools/cmdutils.c:772-854 | every word takes exactly one role: the events written out are the words of the line in order, all of them in an accepted line, otherwise those before the error |
| CommandLine.NoFileNamedDashes | app/cpp/media/ffmpeg_run/ffmpeg-4.0.2/fftools/cmdutils.c:779-788 | no line yields a file named "--" |
| CommandLine.FileNamesExactly | app/cpp/media/ffmpeg_run/ffmpeg-4.0.2/fftools/cmdutils.c:779-788 | a file can be given by its name exactly if this is not "--", and then by writing "--" before it |
| CommandLine.FindsFirst | app/cpp/media/ffmpeg_run/ffmpeg-4.0.2/fftools/cmdutils.c:221-233 | an option is looked up by its name without stream specifier, and the first entry of that name is found, or none if there is none |
| CommandLine.TableOptionIsRecognised | app/cpp/media/ffmpeg_run/ffmpeg-4.0.2/fftools/cmdutils.c:806-830 | an option in the table is recognised as its first entry whatever the specifier, with its argument where it has one |
| CommandLine.OtherOptionIsRecognised | app/cpp/media/ffmpeg_run/ffmpeg-4.0.2/fftools/cmdutils.c:832-845 | another one is recognised by the libraries, with the next word, or fails |
| CommandLine.NegatedFlagIsRecognised | app/cpp/media/ffmpeg_run/ffmpeg-4.0.2/fftools/cmdutils.c:847-862 | a flag with "no" in front is recognised as that flag with value 0, and nothing else is |
| CommandLine.SeparatorIsRecognised | app/cpp/media/ffmpeg_run/ffmpeg-4.0.2/fftools/cmdutils.c:798-804 | a separator ends a group of the first kind it stands for, and needs a word behind it |
| CommandLine.FileWords | app/cpp/media/ffmpeg_run/ffmpeg-4.0.2/fftools/cmdutils.c:779-788 | a word is a file exactly if it does not begin with a dash, is a single dash, or stands right behind "--" |
| CommandLine.DashFilesFollowDashes | app/cpp/media/ffmpeg_run/ffmpeg-4.0.2/fftools/cmdutils.c:779-788 | so in a whole line a file whose name begins with a dash comes right behind a "--" |
| CommandLine.NeverMixed | app/cpp/media/ffmpeg_run/ffmpeg-4.0.2/fftools/cmdutils.c:699-709 | global options never enter a group, per-file options never the globals |
| CommandLine.CollectsInOrder | app/cpp/media/ffmpeg_run/ffmpeg-4.0.2/fftools/cmdutils.c:668-709 | between two separators options are collected in the order given |
| CommandLine.TurnReads | app/cpp/media/ffmpeg_run/ffmpeg-4.0.2/fftools/cmdutils.c:773-854 | an event written out in words is recognised as that event |
| CommandLine.ParseReads | app/cpp/media/ffmpeg_run/ffmpeg-4.0.2/fftools/cmdutils.c:772-854 | a line of written events splits into these events |
| CommandLine.GroupRoundTrip | app/cpp/media/ffmpeg_run/ffmpeg-4.0.2/fftools/cmdutils.c:668-807 | a group written out, with "--" before a file name that begins with a dash, is split into that group |
| CommandLine.RoundTrip | app/cpp/media/ffmpeg_run/ffmpeg-4.0.2/fftools/cmdutils.c:759-863 | printing a context and splitting the line gives the same context |
| Merge.MediaInfo.ReadPacket | app/cpp/media/merge.cpp:50-64 | the next packet of the stream, or none exactly when none is left |
| Merge.MergeTwoFile | app/cpp/media/merge.cpp:88-121 | the packets written by the loop, over any two files |
| Merge.OutputInterleaves | app/cpp/media/merge.cpp:93-121 | the output is an order-preserving interleaving of prefixes of the two filtered inputs |
| Merge.OutKeepsOrder | app/cpp/media/merge.cpp:111-118 | rescaled timestamps keep their order |
| Merge.OutStandsFor | app/cpp/media/merge.cpp:111-118 | the written packet is the read one in its output stream, with pts, dts and duration within half an output tick; the extreme timestamps stand for themselves |
| Merge.SelectDivides | app/cpp/media/merge.cpp:50-64 | exactly the packets of the picked stream are read |
| Merge.ReadsTheOneBehind | app/cpp/media/merge.cpp:93-107 | every packet written is the next one of the stream whose last timestamp is behind, the video's if both are equal |
| Merge.GapIsBounded | app/cpp/media/merge.cpp:96-107 | the last-read times of the two streams never come further apart than one step |
| Merge.BalancedMerge | app/cpp/media/merge.cpp:88-121 | with steps of at most d, from 0 on, the gap never exceeds d |
| Merge.WrittenBalance | app/cpp/media/merge.cpp:93-121 | in every prefix of the output the last video and the last audio packet written are no further apart than d and half a tick of each output time base |
| Merge.StopsAtTheEndOfOne | app/cpp/media/merge.cpp:93-121 | one stream is written completely, and of the other every packet earlier than its last pts |
| Getopt.Scanner.Next | app/cpp/media/ffmpeg_run/ffmpeg-4.0.2/compat/getopt.c:41-84 | the answer and the new static state of one call, errors included |
| Getopt.Scanner.CallUntilEof | app/cpp/media/ffmpeg_run/ffmpeg-4.0.2/compat/getopt.c:41-84 | calling until EOF ends, having seen what one pass over the words finds, and leaves `optind` behind the options |
| Getopt.Scanner.constructor | app/cpp/media/ffmpeg_run/ffmpeg-4.0.2/compat/getopt.c:36-43 | the initial static state |
| Getopt.BundleUnfold | app/cpp/media/ffmpeg_run/ffmpeg-4.0.2/compat/getopt.c:56-81 | a bundle is its first option and then the rest of the bundle, unless that option takes the rest as its argument |
| Getopt.RunThroughWord | app/cpp/media/ffmpeg_run/ffmpeg-4.0.2/compat/getopt.c:47-81 | from any position inside a word the calls see the rest of its bundle |
| Getopt.RunIsOnePass | app/cpp/media/ffmpeg_run/ffmpeg-4.0.2/compat/getopt.c:41-84 | repeated calls equal a one-pass parse, for every argument vector |
| Getopt.PassReads | app/cpp/media/ffmpeg_run/ffmpeg-4.0.2/compat/getopt.c:41-84 | any writing of options in bundles is read as these options, up to the first operand |
| Getopt.BundlingInvariance | app/cpp/media/ffmpeg_run/ffmpeg-4.0.2/compat/getopt.c:41-84 | however the same options are bundled and their arguments attached or separate, the calls are the same and `optind` is left at the first operand |
| Getopt.LettersMean | app/cpp/media/ffmpeg_run/ffmpeg-4.0.2/compat/getopt.c:56-67 | a letter is an option if it stands in the option string and is no colon, and takes an argument if its first place there is followed by one |
| Getopt.EofExactly | app/cpp/media/ffmpeg_run/ffmpeg-4.0.2/compat/getopt.c:47-55 | a call answers EOF exactly in front of a word that is no option, and steps over it only if it is "--" |
| Getopt.AnswersMean | app/cpp/media/ffmpeg_run/ffmpeg-4.0.2/compat/getopt.c:56-81 | the letter with the rest of the word or the next word as its argument, or '?' for an unknown letter or a missing argument |
| Getopt.CallsMoveOn | app/cpp/media/ffmpeg_run/ffmpeg-4.0.2/compat/getopt.c:56-84 | the next call begins at the next letter, or at the word behind what was used |
| EightBps.PlanesHaveTheirOwnByte | app/cpp/media/ffmpeg_run/ffmpeg-4.0.2/libavcodec/8bps.c:151-180 | in every accepted format, on either byte order, each plane has a byte of its own inside the pixel |
| EightBps.ColoursAreInPlace | app/cpp/media/ffmpeg_run/ffmpeg-4.0.2/libavcodec/8bps.c:131-180 | each plane of a colour format has the byte of its colour in the pixel, exactly but for padded 24-bit video on a big-endian machine |
| EightBps.AcceptedDepths | app/cpp/media/ffmpeg_run/ffmpeg-4.0.2/libavcodec/8bps.c:151-173 | accepted are exactly 8, 24 and 32 bits per pixel |
| EightBps.TurnAt | app/cpp/media/ffmpeg_run/ffmpeg-4.0.2/libavcodec/8bps.c:95-119 | a turn that goes on moves `dp` forward within the packet, and its pixels fit into the room left |
| EightBps.Row | app/cpp/media/ffmpeg_run/ffmpeg-4.0.2/libavcodec/8bps.c:95-120 | the row loop ends on all data, since `dp` advances even when `dlen` wraps |
| EightBps.RowFits | app/cpp/media/ffmpeg_run/ffmpeg-4.0.2/libavcodec/8bps.c:101-112 | whatever the data, the pixels of a row fit into it |
| EightBps.Copy | app/cpp/media/ffmpeg_run/ffmpeg-4.0.2/libavcodec/8bps.c:105-108 | a literal run lands on every px_inc-th byte, in place |
| EightBps.Fill | app/cpp/media/ffmpeg_run/ffmpeg-4.0.2/libavcodec/8bps.c:113-116 | a repeated byte lands on every px_inc-th byte, in place |
| EightBps.DecodeOp | app/cpp/media/ffmpeg_run/ffmpeg-4.0.2/libavcodec/8bps.c:96-119 | one opcode: bad data, a full row, or its pixels written and `dlen` counted down in 32 bits |
| EightBps.DecodeRow | app/cpp/media/ffmpeg_run/ffmpeg-4.0.2/libavcodec/8bps.c:89-120 | the row loop writes the pixels of the row and nothing else |
| EightBps.DecodePlane | app/cpp/media/ffmpeg_run/ffmpeg-4.0.2/libavcodec/8bps.c:85-121 | all rows of a plane, until one is bad |
| EightBps.DecodeFrame | app/cpp/media/ffmpeg_run/ffmpeg-4.0.2/libavcodec/8bps.c:76-123 | all planes of a packet, in place in the frame buffer |
| EightBps.PlaceIsInRow | app/cpp/media/ffmpeg_run/ffmpeg-4.0.2/libavcodec/8bps.c:89-90 | the byte of a pixel lies inside its row, at an offset congruent to `planemap[p]` modulo `px_inc` |
| EightBps.PlaceIsUnique | app/cpp/media/ffmpeg_run/ffmpeg-4.0.2/libavcodec/8bps.c:89-90 | two pixels share a byte only when they are the same pixel of the same row and plane |
| EightBps.DecodedFits | app/cpp/media/ffmpeg_run/ffmpeg-4.0.2/libavcodec/8bps.c:83-123 | whatever the packet, the decoded planes fit into the frame |
| EightBps.NothingIsOverwritten | app/cpp/media/ffmpeg_run/ffmpeg-4.0.2/libavcodec/8bps.c:83-123 | whatever the packet, every decoded pixel of every plane and row is in its own byte at the end, and all other bytes are as before |
| EightBpsEncoding.RowDecodes | app/cpp/media/ffmpeg_run/ffmpeg-4.0.2/libavcodec/8bps.c:95-120 | any division of a row into literal and repeated segments decodes to its pixels |
| EightBpsEncoding.PlaneDecodes | app/cpp/media/ffmpeg_run/ffmpeg-4.0.2/libavcodec/8bps.c:85-121 | a plane whose rows are each given back is given back, row after row |
| EightBpsEncoding.RoundTrip | app/cpp/media/ffmpeg_run/ffmpeg-4.0.2/libavcodec/8bps.c:76-123 | decoding any division of an image that fits recovers the image on its bytes and changes no other |
| EightSvx.DeltaDecode | app/cpp/media/ffmpeg_run/ffmpeg-4.0.2/libavcodec/8svx.c:69-83 | the samples and the saved state are those of the specification |
| EightSvx.DecodeSplit | app/cpp/media/ffmpeg_run/ffmpeg-4.0.2/libavcodec/8svx.c:69-83 | decoding in two pieces with the state carried over is decoding in one |
| EightSvx.DecodeWalksThrough | app/cpp/media/ffmpeg_run/ffmpeg-4.0.2/libavcodec/8svx.c:74-80 | the samples are the clipped running sums of the table steps, the low half of each byte first |
| EightSvx.ClipIsNearest | app/cpp/media/ffmpeg_run/ffmpeg-4.0.2/libavcodec/8svx.c:74-80 | a sample beyond eight bits becomes the nearest one within |
| EightSvx.TablesAreSymmetric | app/cpp/media/ffmpeg_run/ffmpeg-4.0.2/libavcodec/8svx.c:57-58 | the steps are Fibonacci numbers, or powers of two, in both directions |
| EightSvx.UnsignedMeans | app/cpp/media/ffmpeg_run/ffmpeg-4.0.2/libavcodec/8svx.c:107-110 | the start value is the signed header byte moved up by half the range |
| EightSvx.RefusesExactly | app/cpp/media/ffmpeg_run/ffmpeg-4.0.2/libavcodec/8svx.c:96-106 | refused is exactly a first packet without a byte of sound for every channel |
| EightSvx.MonotoneNonExpansive | app/cpp/media/ffmpeg_run/ffmpeg-4.0.2/libavcodec/8svx.c:69-83 | two start values never cross and never move apart |
| EightSvx.Decoder.DecodeFrame | app/cpp/media/ffmpeg_run/ffmpeg-4.0.2/libavcodec/8svx.c:86-152 | the answer and the new state of one call: too small a packet, nothing left, or the next piece of every channel |
| EightSvx.Decoder.Load | app/cpp/media/ffmpeg_run/ffmpeg-4.0.2/libavcodec/8svx.c:96-124 | the first packet is taken over: start values from the two headers, data of each channel |
| EightSvx.ChannelsAreFound | app/cpp/media/ffmpeg_run/ffmpeg-4.0.2/libavcodec/8svx.c:96-124 | each channel is a two-byte header, whose second byte gives the start value, and then its data |
| EightSvx.Decoder.DecodePiece | app/cpp/media/ffmpeg_run/ffmpeg-4.0.2/libavcodec/8svx.c:143-148 | the next piece of every channel, state carried over |
| EightSvx.Decoder.constructor | app/cpp/media/ffmpeg_run/ffmpeg-4.0.2/libavcodec/8svx.c:154-173 | a decoder for one or two channels with nothing loaded |
| EightSvx.Decoder.Close | app/cpp/media/ffmpeg_run/ffmpeg-4.0.2/libavcodec/8svx.c:175-185 | the decoder is as new |
| EightSvx.AfterCalls | app/cpp/media/ffmpeg_run/ffmpeg-4.0.2/libavcodec/8svx.c:96-151 | after n calls the output of a channel is the decoding of its first 2048 n bytes |
| EightSvx.Chunking | app/cpp/media/ffmpeg_run/ffmpeg-4.0.2/libavcodec/8svx.c:96-151 | the frames together are one delta_decode over the whole channel, 2 * `data_size` samples, and the returned byte counts add up to the packet |
| EightSvx.FrameCount | app/cpp/media/ffmpeg_run/ffmpeg-4.0.2/libavcodec/8svx.c:131-136 | there are exactly as many frames as pieces of 2048 bytes |
| EightSvx.StartsDoNotDiverge | app/cpp/media/ffmpeg_run/ffmpeg-4.0.2/libavcodec/8svx.c:96-151 | whole sounds that differ in their start values stay in order and no further apart |
| Zero12v.ShiftsTakeFields | app/cpp/media/ffmpeg_run/ffmpeg-4.0.2/libavcodec/012v.c:92-124 | the shifts and masks take bits 0-9, 10-19 and 20-29 of a word, six bits up |
| Zero12v.ShiftsAreArithmetic | app/cpp/media/ffmpeg_run/ffmpeg-4.0.2/libavcodec/012v.c:92-124 | on 32-bit words these shifts are multiplication modulo 2^32 and division, and the mask 0xFFC0 keeps bits 6 to 15 |
| Zero12v.Stride | app/cpp/media/ffmpeg_run/ffmpeg-4.0.2/libavcodec/012v.c:46-62 | an accepted packet has at least two columns, one line, lines no smaller than width*8/3 and data for all of them |
| Zero12v.FullGroupsAreWhole | app/cpp/media/ffmpeg_run/ffmpeg-4.0.2/libavcodec/012v.c:46-83 | a group with six columns left has sixteen bytes left |
| Zero12v.ReadGroup | app/cpp/media/ffmpeg_run/ffmpeg-4.0.2/libavcodec/012v.c:89-124 | the four words of a group go to their places, as far as the line goes |
| Zero12v.PutWord | app/cpp/media/ffmpeg_run/ffmpeg-4.0.2/libavcodec/012v.c:92-124 | the three shifted and masked samples of each word are its three fields and go to their places |
| Zero12v.CopyLast | app/cpp/media/ffmpeg_run/ffmpeg-4.0.2/libavcodec/012v.c:129-136 | the last group comes from the temporary arrays byte for byte: its visible samples, and with two or four columns left the low byte of the chroma sample behind them |
| Zero12v.Picture.DecodeLine | app/cpp/media/ffmpeg_run/ffmpeg-4.0.2/libavcodec/012v.c:72-136 | every visible sample of a line is the one found directly, without decoding what stands before it, and nothing else in the planes changes but that one byte behind the chroma samples |
| Zero12v.Picture.NextGroup | app/cpp/media/ffmpeg_run/ffmpeg-4.0.2/libavcodec/012v.c:80-128 | whole groups go straight to the planes, the last one to the temporary arrays |
| Zero12v.Picture.DecodeFrame | app/cpp/media/ffmpeg_run/ffmpeg-4.0.2/libavcodec/012v.c:38-145 | the return value, every line of every plane, and the byte behind every chroma line if the width leaves two or four columns; all else is untouched |
| Zero12v.SpilledAt | app/cpp/media/ffmpeg_run/ffmpeg-4.0.2/libavcodec/012v.c:129-136 | the sample behind the visible ones of a line gets its low byte from the temporary array and keeps its high byte |
| Zero12v.SpillsNowhereElse | app/cpp/media/ffmpeg_run/ffmpeg-4.0.2/libavcodec/012v.c:129-136 | no other sample besides the visible ones changes |
| Zero12v.PaddingKeptExactly | app/cpp/media/ffmpeg_run/ffmpeg-4.0.2/libavcodec/012v.c:129-136 | all but the visible samples is kept exactly if width % 6 is neither 2 nor 4, or the channel is luma, or every byte copied is the one that was there |
| Zero12v.EightColumns | app/cpp/media/ffmpeg_run/ffmpeg-4.0.2/libavcodec/012v.c:129-136 | with eight columns in the smallest line the low byte behind the four Cb samples becomes zero |
| Zero12v.MissingExactly | app/cpp/media/ffmpeg_run/ffmpeg-4.0.2/libavcodec/012v.c:46-119 | in the lines of every accepted packet, whatever their size, exactly which visible samples are missing: at most the last one of each channel, when its word is beyond the line |
| Zero12v.MissingSamples | app/cpp/media/ffmpeg_run/ffmpeg-4.0.2/libavcodec/012v.c:46-119 | in lines of the smallest size, for which widths that happens |
| Zero12v.MissingIsMidRange | app/cpp/media/ffmpeg_run/ffmpeg-4.0.2/libavcodec/012v.c:72-74 | missing samples come out as 0x8000 |
| Zero12v.UnpackInvertsPack | app/cpp/media/ffmpeg_run/ffmpeg-4.0.2/libavcodec/012v.c:92-124 | unpacking inverts packing on whatever part of the line is there, and whatever is behind it |
| Zero12v.LinesAreFound | app/cpp/media/ffmpeg_run/ffmpeg-4.0.2/libavcodec/012v.c:46-68 | a packet made of equal lines is accepted and divided into these lines, under the tag that allows any large enough size as for the smallest size |
| Zero12v.LinesCarry | app/cpp/media/ffmpeg_run/ffmpeg-4.0.2/libavcodec/012v.c:46-68 | a packet made of lines that hold packed columns, each as far as it goes, is accepted and carries the picture |
| Zero12v.PictureRoundTrip | app/cpp/media/ffmpeg_run/ffmpeg-4.0.2/libavcodec/012v.c:38-145 | decoding any accepted packet whose lines carry a picture gives every visible sample back, six bits up, but for the missing ones, which come out as 0x8000; besides them only the bytes behind the lines change |
| Yuv420p.File.WritePlane | app/cpp/media/yuv420p_util.cpp:9-19 | one plane, as a block or row by row |
| Yuv420p.File.ReadPlane | app/cpp/media/yuv420p_util.cpp:39-48 | one plane, as a block or row by row, as far as the file goes |
| Yuv420p.Frame.WriteToFile | app/cpp/media/yuv420p_util.cpp:8-36 | the bytes appended to the file |
| Yuv420p.Frame.ReadFromFile | app/cpp/media/yuv420p_util.cpp:38-65 | the planes and the place in the file afterwards |
| Yuv420p.BlockEqualsRows | app/cpp/media/yuv420p_util.cpp:9-18 | the contiguous path writes what the row-by-row path writes, when the block is the size of the rows |
| Yuv420p.LaidOutIsValid | app/cpp/media/yuv420p_util.cpp:9-35 | in a frame with (width+1)/2 columns and (height+1)/2 lines of chroma no block is longer than its plane |
| Yuv420p.RegularMovesRows | app/cpp/media/yuv420p_util.cpp:19-35 | the block, where it is used, is the size of the rows if the width is odd or at most 2, or the height is even |
| Yuv420p.WritingIgnoresLinesizes | app/cpp/media/yuv420p_util.cpp:8-36 | for these sizes pictures that look the same are written alike, whatever their line sizes |
| Yuv420p.IndependentExactly | app/cpp/media/yuv420p_util.cpp:8-36 | and only for these: for any other size two pictures that look the same are written differently |
| Yuv420p.FourByThree | app/cpp/media/yuv420p_util.cpp:19-35 | a picture of 4x3 is written as 18 bytes without padding and as 17 with padded U lines |
| Yuv420p.LosslessExactly | app/cpp/media/yuv420p_util.cpp:8-36 | the bytes written determine all that the picture shows exactly if both sides are even, or it is empty |
| Yuv420p.PlaneReadShows | app/cpp/media/yuv420p_util.cpp:39-48 | reading a plane shows the bytes of the file in its rows, takes as many as writing the plane gives, and changes nothing else but, without padding, the rest of the block |
| Yuv420p.MovedAreRows | app/cpp/media/yuv420p_util.cpp:39-56 | for regular sizes no byte but those of the rows can change |
| Yuv420p.RoundTrip | app/cpp/media/yuv420p_util.cpp:8-65 | what was written, read into any frame whose planes take as many bytes, restores every stored sample, changes nothing that reading does not cover, and leaves the file right behind the picture |
| Yuv420p.SameSizesExactly | app/cpp/media/yuv420p_util.cpp:19-35 | the planes of two frames take as many bytes exactly if the size is regular, or each chroma plane is unpadded in both or in neither |
| Yuv420p.InStepExactly | app/cpp/media/yuv420p_util.cpp:38-65 | reading ends each plane where writing ended it exactly if they take as many bytes, whatever the pictures |
| Yuv420p.FourByThreeOutOfStep | app/cpp/media/yuv420p_util.cpp:38-65 | an unpadded picture of 4x3 is not read in step into a frame with padded U lines |

## Left out

- BitstreamFilters: an empty packet, which av_bsf_send_packet takes for end of file, is not a packet of the model; a filter answers "again" exactly when it has no pending output.
- Muxer: sizes count packets, so the overflow of a queue's byte size is not modelled; the override of packet durations, quality side data, and a failing av_interleaved_write_frame are not modelled either.
- Muxer, VideoSync: a call of exit_program ends the run, although in this fork the function returns.
- Muxer.MuxedOrderExactly: no timestamp is below AV_NOPTS_VALUE, as none of 64 bits is.
- Timing: timestamps are unbounded integers; the overflow answer of av_rescale_rnd is not modelled.
- VideoSync: the choice of a method under VSYNC_AUTO, forced key frames, interlacing flags, encoder errors and the packets the encoder returns.
- VideoSync.FramesAreConserved: does not cover calls that return early, because the skip of an oversize duplication, a missing picture and the end of the recording time leave the counters in between.
- VideoSync.DropsAreNeverShown: does not cover calls that return early either, for the same reason.
- VideoSync.DriftIsBounded: is about the constant-rate method without drop threshold, frame limit, recording-time stop or oversize duplication, as is the source's bound.
- VideoSync.VfrDriftIsBounded: likewise without frame limit or recording-time stop, and for durations that are not negative, as all computed ones are.
- FilterInputs: the contents of filter graphs, reap_filters before a rebuild, subtitle packets turned into video, and errors of libavfilter; no frame follows the end of file of its input.
- PacketQueue: subtitle decoding, the timestamps of decoded frames, condition variables (a waiting thread is one whose step is not enabled), switching streams during a seek, and the size of a list node, which is fixed at 112 bytes.
- FrameRing: the abort request, memory ordering between the threads, and what a frame holds besides its identity; the reader advances only when a frame remains.
- CommandLine: the option dictionaries that opt_default fills (an accepted AVOption is recorded with its group), program-specific argument conversion, and the warning for trailing options.
- CommandLine.RoundTrip: is about options whose keys are recognised as such; options with an optional argument are read but not printed.
- Getopt: the messages on the standard error stream.
- Merge: opening files, picking streams, headers and trailers; the muxer's own interleaving; failures of it, which the loop ignores.
- Merge.WrittenBalance: no pts is the largest or the smallest 64-bit value, which stand for themselves.
- EightBps: the palette of 8-bit video and negative line sizes.
- EightSvx: a missing packet, and failures of memory allocation.
- Zero12v: samples are little-endian in memory, and line sizes are counted in samples.
- Yuv420p: write errors, negative line sizes, and other uses of the same file during a call.
- Yuv420p.InStepExactly: is about a file that has enough bytes for both frames; at its end reading stops short.
- Strides: a multiplication of the source (row times line size) is a repeated addition in the specifications, proved equal to the product in `SpanIsProduct`.
- JNI glue, asset copying, codec callbacks, SDL rendering, audio devices, terminal and keyboard handling, logging, help screens, statistics text, hardware devices, option tables, presets and configuration headers are thin calls into other libraries or user interface.
