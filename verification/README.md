# Wii-Sec-U: verified model

Wii-Sec-U streams a console's TV picture and sound to a PC over UDP and sends the controllers of up
to four players back. This project models the stateful parts of that system in Dafny and proves what
they promise over every run: video slicing and reassembly, the lock-free audio ring, the capture
surfaces shared by the scan-out hook and the encoder, the lobby that assigns player slots, and the
way of an input from a client to the game.

`dafny verify dfyconfig.toml` checks everything.

## How it is laid out

Each component that changes state in place is a class (or a method over arrays) whose methods are
proved equal to a specification function on values; the properties over whole runs are lemmas about
those functions. Clock values, frame ids and ring indices are unsigned 32-bit words in the model as
in the program, with every wrap-around written out, and the run-level lemmas relate them to counters
that do not wrap. Time passing, the network, the GPU, the heap, the audio mixer and the scheduler are
free inputs of the runs, so the lemmas hold for every choice of them.

| file | subject |
|---|---|
| `Words.dfy`, `FrameIds.dfy` | machine words; the wrap-around order of frame ids (section 3.2 of RFC 1982 with 32 bits) |
| `Wire.dfy` | packing into buffers and parsing: header, VIDEO, input states, INPUT_BUNDLE |
| `Slicer.dfy` | cutting a frame into datagrams |
| `Reassembly.dfy`, `AssemblerRuns.dfy`, `FrameAssembler.dfy`, `Receiver.dfy` | the four-entry reassembly window: machine on values, its invariants, and the class with its raw buffers |
| `EndToEnd.dfy`, `NoLoss.dfy` | what comes out of the assembler compared with what went into the slicer, across loss, repetition, reordering and id wrap-around |
| `AudioRing.dfy`, `AudioDrain.dfy`, `AudioCalls.dfy`, `AudioTap.dfy` | the ring under every interleaving of single memory accesses; the draining loop on top of it; calls that run alone; the ring as an array |
| `Capture.dfy`, `CaptureRuns.dfy` | the capture hook as written; hook and encoder thread interleaved |
| `InputHub.dfy`, `SessionServer.dfy`, `SessionRuns.dfy` | input merge, slot assignment, and whole runs of the lobby |
| `ConsoleInput.dfy`, `InputPath.dfy`, `Injection.dfy`, `GameInput.dfy` | the console's table of remote inputs, the way from the hub to it, button edges handed to the game, and what a game reads for each player |

Places where the code does less than one might expect are stated as they are, with the exact condition:

- `drainAudio` loses the pairs of a short read. A pass loses nothing exactly when its last look at the
  ring's head found the ring empty or a full chunk in it (`AudioDrain.PassLosesWhatItSaw`, under every
  schedule of the two threads; `AudioTap.PassLosesNothingIff` is the case of a quiet producer).
  One sample and one pass are enough (`AudioDrain.OnePassLosesIt`).
- The encoder looks up a frame's timestamp after giving its surface back, so it can send the time of a
  later frame (`CaptureRuns.TimestampCanBeOvertaken`). It sends the right one exactly when, at the
  lookup, the slot is neither in state ENCODING again nor in the middle of its hand-off, described but
  not marked (`CaptureRuns.TimestampIsTheCopysOwnIff`; `CaptureRuns.LookupInsideHandOff` is the second
  case). A frame can so be followed by one with an earlier time (`CaptureRuns.TimesCanGoBack`), exactly
  under the slot states that `CaptureRuns.TimesGoBackIff` names.
- Before the first delivery the assembler's window need not have an oldest frame
  (`AssemblerRuns.NoOldestBeforeDelivery`). The scan finds the oldest exactly when some pending frame
  has all others newer than it (`AssemblerRuns.OldestIsMinimumIff`).
- Four pending frames refuse even the frame that is next in order (`NoLoss.FifthFrameIsRefused`), and
  a frame that would be the fifth under way always costs a slice or a frame (`NoLoss.FifthFrameCosts`).
- A GamePad button held remotely when injection stops gets no release
  (`Injection.HeldButtonLosesItsRelease`, `Injection.SwitchingOffSwallowsARelease`). The edges handed to
  the game fit together exactly when injection is only switched off with nothing extra held
  (`Injection.EdgesFitIffSwitchedOffClean`).
- A Pro Controller channel does not look at the real samples it passes through in a gap of injection, so
  a press after the gap can be lost (`Injection.GapSwallowsAPress`). Its edges fit together exactly when
  the two sources held the same buttons at every change between them
  (`Injection.EdgesFitIffChangesMatch`).
- An input older than a whole wrap of the clock counts as fresh again (`InputHub.StaleSlotComesBack`;
  `InputHub.ActiveInTrueTime` is exact).

Specification functions that the classes follow are tied to what they mean by statements that do not
use them: bytes at fixed places (`HeaderOnWire`, `VideoOnWire`, `FrameOnWire`, `StateOnWire`,
`BundleOnWire`), nearest samples (`Renders`, `Plays`), rates (`Paced`), answers (`Answers`), and the
fields of the tables themselves (`Available`).

The comment at pc/src/core/frame_assembler.h:31 counts late slices as dropped frames; the code does not,
and the model follows the code.

## Model

| member | source | states |
|---|---|---|
| FrameIds.Trichotomy | pc/src/core/frame_assembler.cpp:9-12 | of two ids exactly one is newer or they are equal, except for ids exactly half a ring apart, which are neither |
| FrameIds.NotTransitive | pc/src/core/frame_assembler.cpp:9-12 | the comparison has cycles of three, so "oldest" is not always defined |
| FrameIds.OrderedAfterBase | pc/src/core/frame_assembler.cpp:9-12 | among ids newer than one base it is the strict total order of the distances from the base |
| FrameIds.NewerIffGreater | pc/src/core/frame_assembler.cpp:9-12 | on counters less than half a ring apart it decides which counter is greater |
| Words.SubOfWraps | pc/src/util/time_util.h:22-24 | the wrapped age of two clock values is the true one modulo 2^32, and equals it exactly below 2^32 ms |
| Wire.MostSignificantFirst | protocol/wsu_protocol.h:150-186 | 16- and 32-bit words lie with the most significant byte first |
| Wire.PackHeader | protocol/wsu_protocol.h:190-196 | writes exactly the eight header bytes and leaves the rest of the buffer |
| Wire.HeaderRoundTrip | protocol/wsu_protocol.h:202-211 | a header is accepted, with these fields, exactly when the buffer starts with its encoding |
| Wire.KindOnWire | protocol/wsu_protocol.h:202-211 | a datagram is taken for one of this protocol exactly when it has eight bytes and starts with 57 53 55 31, and its type is byte 5; the version is not looked at |
| Wire.PackVideo | protocol/wsu_protocol.h:337-352 | fails exactly when the slice is over 1200 bytes or does not fit; otherwise writes exactly the datagram |
| Wire.VideoRoundTrip | protocol/wsu_protocol.h:356-373 | a VIDEO body parses to a header and payload exactly when it is their encoding and they are well-formed |
| Wire.VideoDatagramRoundTrip | protocol/wsu_protocol.h:337-373 | a whole datagram gives back header, slice header and payload |
| Wire.VideoLayout | protocol/wsu_protocol.h:337-352 | every field of a VIDEO datagram, by byte offset and byte order: magic, version 1, type 4, sequence number, frame id, time, flags, index, count, length, payload |
| Wire.WriteInputState | protocol/wsu_protocol.h:448-464 | writes exactly the 26 bytes of a state in place |
| Wire.StateRoundTrip | protocol/wsu_protocol.h:466-484 | reading gives a state exactly when its encoding lies there, signed sticks and gyro included |
| Wire.StateLayout | protocol/wsu_protocol.h:448-464 | every field of the 26 bytes of a state, by offset, byte order and two's complement |
| Wire.PackInputBundle | protocol/wsu_protocol.h:507-522 | fails exactly for more than four states or too small a buffer, leaving it alone; otherwise writes exactly the bundle |
| Wire.ParseInputBundle | protocol/wsu_protocol.h:526-543 | the parsing loop finds the timestamp and every state at its place, or fails on a bad count or length |
| Wire.BundleRoundTrip | protocol/wsu_protocol.h:507-543 | every timestamp and every list of up to four states survives packing and parsing |
| Wire.BundleParsesExactly | protocol/wsu_protocol.h:526-543 | parsing gives a timestamp and states exactly when there are at most four and the bytes begin with their encoding |
| Wire.BundleLayout | protocol/wsu_protocol.h:507-522 | every field of a bundle datagram by byte offset: type 7, timestamp, count, state j from byte 13 + 26 j |
| Slicer.SlicesRebuildFrame | wiiu/stream-plugin/src/net.cpp:190-211 | the slices joined are the frame exactly when the frame has at most 65535 * 1200 bytes |
| Slicer.SliceShape | protocol/wsu_protocol.h:376-380 | the slice count is the rounded-up quotient, all slices but the last are full, none is empty |
| Slicer.EncoderFramesFit | wiiu/stream-plugin/src/encoder.cpp:113 | an encoder frame needs at most 1025 slices, so the 16-bit count is never cut |
| Slicer.SliceParses | wiiu/stream-plugin/src/net.cpp:194-206 | every slice datagram has at most 1223 bytes and parses back to its own slice |
| Slicer.SliceOnWire | wiiu/stream-plugin/src/net.cpp:190-208 | on the bytes: slice k carries id, time, flags 1 for a keyframe and 0 otherwise, k, the count, and bytes 1200 k up to 1200 (k + 1) of the frame |
| Slicer.DrawnCountsPackets | wiiu/stream-plugin/src/net.cpp:200-208 | a datagram's sequence number is the first one plus the datagrams of the frame and the packets of other threads before it, modulo 2^16 |
| Slicer.StreamSender.NetSendVideoFrame | wiiu/stream-plugin/src/net.cpp:183-212 | sends exactly the datagrams of the frame in order under the next id, with the sequence numbers drawn while other threads draw from the same counter, and says of each, byte by byte, what it carries, the flags byte included; an idle host or empty frame sends nothing and uses no id |
| FrameAssembler.Assembler.Feed | pc/src/core/frame_assembler.cpp:15-39 | the in-place assembler does exactly what the machine on values does, frame handed out included |
| FrameAssembler.Assembler.FindOrAllocate | pc/src/core/frame_assembler.cpp:41-82 | finds the frame's entry, or opens the first free one, or evicts, or refuses |
| FrameAssembler.Assembler.Scan | pc/src/core/frame_assembler.cpp:43-56 | the one-pass scan finds the match, the first free entry and the fold's oldest |
| FrameAssembler.Assembler.Deliver | pc/src/core/frame_assembler.cpp:84-114 | hands out the joined slices, frees the entry and abandons everything not newer |
| FrameAssembler.Assemble | pc/src/core/frame_assembler.cpp:90-97 | the frame is the received slices back to back, each from byte 1200 * index with its recorded length |
| FrameAssembler.CounterTellsCompletion | pc/src/core/frame_assembler.cpp:34-38 | the slice counter reaches the slice count exactly when no slice is missing |
| FrameAssembler.WithSlice | pc/src/core/frame_assembler.cpp:29-34 | storing a slice in the buffer adds exactly that slice to what the entry means |
| AssemblerRuns.FeedOutcome | pc/src/core/frame_assembler.cpp:15-39 | a slice is ignored, or collected in one entry, or completes its frame, with all effects on entries and counters |
| AssemblerRuns.SliceOfPendingFrame | pc/src/core/frame_assembler.cpp:27-38 | a slice of a pending frame fills its own place once; a repeated one or one beyond the count changes nothing; the last missing one delivers the frame under the opening slice's time and flags |
| AssemblerRuns.FeedKeepsGood | pc/src/core/frame_assembler.cpp:23-81 | pending ids stay distinct and newer than the newest delivered, and a pending entry has some but not all slices |
| AssemblerRuns.OldestIsMinimumIff | pc/src/core/frame_assembler.cpp:52-55 | the fold finds the strict minimum exactly when some pending frame has every other pending frame newer than it |
| AssemblerRuns.OldestIsMinimum | pc/src/core/frame_assembler.cpp:52-55 | which is so whenever all pending ids are newer than one base |
| AssemblerRuns.FullWindowPolicy | pc/src/core/frame_assembler.cpp:58-68 | a full window only ever evicts for a newer frame; what it evicts is the strict minimum exactly when there is one, and then it refuses exactly the frames not newer than that |
| AssemblerRuns.FullWindowAfterBase | pc/src/core/frame_assembler.cpp:58-68 | with all ids newer than one base it refuses exactly the frames older than all pending |
| AssemblerRuns.EvictionAfterDelivery | pc/src/core/frame_assembler.cpp:58-68 | once a frame has been delivered this needs no further assumption |
| AssemblerRuns.NoOldestBeforeDelivery | pc/src/core/frame_assembler.cpp:52-55 | before a delivery, three slices can leave a window in which each frame is newer than another and none is the oldest |
| AssemblerRuns.Conservation | pc/src/core/frame_assembler.cpp:60-113 | over any run, frames opened = completed + dropped + pending, and the byte counter is the length of all frames delivered |
| AssemblerRuns.DeliveriesGetNewer | pc/src/core/frame_assembler.cpp:19-21 | each delivered id is newer than the one before it, for any slices whatsoever |
| EndToEnd.DeliveredIsSent | pc/src/core/frame_assembler.cpp:15-114 | for any datagrams drawn from sent slices, in any order, lost or repeated, each delivered frame has the bytes and time of the sent frame of its id, and flags 1 for a keyframe and 0 otherwise |
| EndToEnd.ReachDecides | pc/src/core/frame_assembler.cpp:19-21 | within half a ring, a slice is refused as stale exactly when its frame is not after the newest delivered |
| EndToEnd.DeliveredInOrderAcrossWrap | pc/src/core/frame_assembler.cpp:99-109 | from the received bytes to frames: within half a ring of the newest delivery, the frames come out in strictly increasing order of the number they were sent under, across id wrap-around, each as it was sent: none twice, none resurrected |
| EndToEnd.PlayIsReceived | pc/src/core/frame_assembler.cpp:15-39 | the run in frame numbers is the receiver's run on the bytes |
| EndToEnd.SenderEmitsArrivals | wiiu/stream-plugin/src/net.cpp:183-212 | the datagrams the slicer emits, under whatever sequence numbers, are the arrivals these results speak of |
| NoLoss.EveryFrameDelivered | pc/src/core/frame_assembler.cpp:15-114 | from the received bytes to frames: with at most four frames under way, frames completing in order and none half an id ring away from the last completed one, every complete frame is delivered exactly once, in order and as sent, and none is dropped, across id wrap-around |
| NoLoss.FifthFrameIsRefused | pc/src/core/frame_assembler.cpp:58-68 | the bound counts the arriving frame: with four newer frames pending its slice is refused |
| NoLoss.FifthFrameCosts | pc/src/core/frame_assembler.cpp:58-68 | and it is exactly what is needed: after any orderly run, a slice of a frame that would be the fifth under way is refused or makes the assembler drop a frame |
| Receiver.OnDatagram | pc/src/client/client_app.cpp:102-145 | the receiving step on bytes, on the assembler in place, is the one the end-to-end results are about; a datagram without the magic or of another type changes nothing |
| AudioRing.ClampIsNearest | wiiu/stream-plugin/src/audio.cpp:52-56 | a 16-bit sample is the clamped one exactly when no 16-bit sample is closer to the mixed one |
| AudioRing.SlotOfCounter | wiiu/stream-plugin/src/audio.cpp:83 | a wrapping index finds the place of the unbounded count, because 8192 divides 2^32 |
| AudioRing.UnreadIsNeverWritten | wiiu/stream-plugin/src/audio.cpp:82-86 | in every reachable state the next store misses every pair still to be read, those being read included |
| AudioRing.StepKeepsInv | wiiu/stream-plugin/src/audio.cpp:75-104 | every single memory access of either thread, with stale copies of the other's index, keeps the queue invariant |
| AudioRing.FifoUnderEveryInterleaving | wiiu/stream-plugin/src/audio.cpp:43-105 | under every interleaving the pairs read followed by those in the ring stand for offered samples in their order, each at most once, left for left and right for right; they are as many as were not dropped; the indices are at most 8192 apart |
| AudioRing.PublishedAreTheOldest | wiiu/stream-plugin/src/audio.cpp:75-87 | a callback adds the oldest part of its block, whatever the reader does meanwhile: the newest samples are the ones dropped |
| AudioRing.DropsOnlyWhenFull | wiiu/stream-plugin/src/audio.cpp:77-80 | a callback drops samples exactly when they do not fit, and then fills the ring |
| AudioCalls.CallbackAlone | wiiu/stream-plugin/src/audio.cpp:75-87 | the accesses of a callback the reader does not interrupt add up to appending what fits of its block |
| AudioCalls.ReadAlone | wiiu/stream-plugin/src/audio.cpp:92-105 | the accesses of a read the producer does not interrupt add up to taking the oldest pairs |
| AudioTap.Tap.FinalMix | wiiu/stream-plugin/src/audio.cpp:58-88 | min(samples, room) pairs are added, the j-th nearest to sample j of the first buffer on the left and of the second, or of the only one, on the right; a disabled tap or a missing buffer adds nothing |
| AudioTap.Tap.AudioRead | wiiu/stream-plugin/src/audio.cpp:92-105 | the oldest pairs, at most as many as asked for, leave the queue for the caller's buffer, the left sample of each before the right one |
| AudioDrain.OnlyShortReadsAreLost | wiiu/stream-plugin/src/net.cpp:67-69 | under every schedule of callbacks and draining passes, what was read is the completed reads joined, the chunks sent are the full ones, and the pairs lost are the short ones |
| AudioDrain.PassLosesWhatItSaw | wiiu/stream-plugin/src/net.cpp:67-69 | a pass lost nothing exactly when its last load of the head showed an empty ring or a full chunk, and otherwise lost what that load showed |
| AudioDrain.OnePassLosesIt | wiiu/stream-plugin/src/net.cpp:67-69 | a run of one callback with one sample and one pass, in which the sample is read and thrown away |
| AudioDrain.LoadSeesContents | wiiu/stream-plugin/src/audio.cpp:93-96 | what such a load shows is the number of pairs in the ring at that moment |
| AudioDrain.ChunksAreTheStreamIff | wiiu/stream-plugin/src/net.cpp:61-86 | the chunks sent are everything read exactly when no read was short, and then, while the producer dropped nothing, chunks and ring together are all samples offered, clamped |
| AudioTap.DrainAudio | wiiu/stream-plugin/src/net.cpp:61-86 | a pass that no callback interrupts sends the first full chunks, at most eight, and empties the queue when it comes up short |
| AudioTap.PassLosesNothingIff | wiiu/stream-plugin/src/net.cpp:67-69 | with no callback between its reads, a pass sends as many full chunks as there are and it has reads, a prefix of the queue, and leaves the rest or, short, nothing; sent plus left is everything exactly when enough chunks are queued or nothing is left over |
| Capture.Recorder.OnTvScanout | wiiu/stream-plugin/src/capture.cpp:98-152 | a scan-out is as specified; it leaves everything alone when not eligible; while the queue has room it issues copy number n of the source's size and format exactly when the wrapped age of the last one keeps to the frame rate and the first free slot fits or can be reallocated |
| Capture.IntervalIsThePace | wiiu/stream-plugin/src/capture.cpp:136-138 | the interval is the least age, in whole milliseconds, that keeps to the rate: fps * interval <= 1000 < fps * (interval + 1), and 50 for a rate that is not positive |
| Capture.ScanoutOutcome | wiiu/stream-plugin/src/capture.cpp:117-149 | every copy of an earlier millisecond goes to the encoder with its pixels, size, format and issue time, slot 0 first; the next copy is issued exactly when rate, slot and memory allow |
| Capture.Recorder.HandOffSlot | wiiu/stream-plugin/src/capture.cpp:119-133 | a pending slot of an earlier millisecond is described, marked and submitted |
| Capture.Recorder.PrepareSlot | wiiu/stream-plugin/src/capture.cpp:62-96 | a fitting image is kept, otherwise the old one is freed and replaced if the heap allows |
| Capture.Recorder.IssueCopy | wiiu/stream-plugin/src/capture.cpp:136-149 | the rate cap, the first free slot, and the copy into it |
| Capture.Recorder.EncoderSubmit | wiiu/stream-plugin/src/encoder.cpp:162-170 | a message while there is room, otherwise the surface is released |
| Capture.Recorder.CaptureRelease | wiiu/stream-plugin/src/capture.cpp:161-166 | frees the slot, ignoring bad indices |
| CaptureRuns.StepKeepsInv | wiiu/stream-plugin/src/capture.cpp:98-166 | every step of the hook and of the encoder, interleaved, keeps ownership, order, timestamps and spacing; in a hand-off the description, the state and the message are steps of their own |
| CaptureRuns.SurfacesAreOwnedOnce | wiiu/stream-plugin/src/encoder.cpp:124-170 | the surface held, those queued and the one just being queued are exactly the ENCODING slots, each once; at most two queue entries are ever used; the encoder never gets an empty surface |
| CaptureRuns.HookSparesTheEncoder | wiiu/stream-plugin/src/capture.cpp:119-149 | no copy, reallocation or new description touches a surface the encoder reads or will read |
| CaptureRuns.EveryCopyIsEncodedInOrder | wiiu/stream-plugin/src/capture.cpp:117-149 | copies encoded, in the encoder's line and pending are 0, 1, 2, ... without gap or repetition; at most one slot is pending, it holds the last copy, and its issue time is the last capture time |
| CaptureRuns.RateIsCapped | wiiu/stream-plugin/src/capture.cpp:135-148 | (age + 1) * fps > 1000 for the true age of the copy before, or 50 ms for a rate that is not positive, across clock wrap-around and changes of the rate |
| CaptureRuns.CopyIsIssuedIff | wiiu/stream-plugin/src/capture.cpp:135-149 | in every reachable state a scan-out issues a copy exactly when, in true time, the rate allows it and the first free slot can take it |
| CaptureRuns.CapHoldsWhilePending | wiiu/stream-plugin/src/capture.cpp:136-138 | a copy pending from this very millisecond keeps the next one back |
| CaptureRuns.TimestampIsTheCopysOwnIff | wiiu/stream-plugin/src/encoder.cpp:144-149 | a frame goes out with its own time exactly when, at the lookup, its slot is neither in state ENCODING again nor in the middle of its hand-off |
| CaptureRuns.LookupInsideHandOff | wiiu/stream-plugin/src/capture.cpp:129-130 | a run in which the lookup falls between the store of the time and the store of the state: the slot is still pending, the time another copy's |
| CaptureRuns.TimestampCanBeOvertaken | wiiu/stream-plugin/src/encoder.cpp:144-149 | a run in which the pixels of copy 0 go out with the time of copy 2 |
| CaptureRuns.TimesGoBackIff | wiiu/stream-plugin/src/encoder.cpp:144-149 | a frame has an earlier time than its predecessor exactly when the predecessor's slot was being handed over again behind the other slot at its lookup, and the frame is the very next copy and met its own slot left alone |
| CaptureRuns.TimesCanGoBack | wiiu/stream-plugin/src/encoder.cpp:144-149 | a run that sends copy 0 with time 166 and then copy 1 with time 100 |
| CaptureRuns.UninterruptedScanout | wiiu/stream-plugin/src/capture.cpp:98-152 | the hook's steps without interruption are one call of the hook |
| InputHub.Hub.Set | pc/src/core/input_hub.cpp:8-14 | stores the state under the slot's own number and the time; other slots and bad slots unchanged |
| InputHub.Hub.Clear | pc/src/core/input_hub.cpp:16-21 | makes one slot neutral, field by field, and inactive; the others stay |
| InputHub.Hub.IsActive | pc/src/core/input_hub.cpp:42-48 | a slot in range updated within a second, clock value 0 standing for never |
| InputHub.Hub.PackBundle | pc/src/core/input_hub.cpp:23-40 | writes the bundle of exactly the active states, or returns 0 with the buffer untouched when there is none or no room |
| InputHub.BundledSlotsAscend | pc/src/core/input_hub.cpp:29-35 | a bundle lists every active slot once, in strictly ascending order, under its own number |
| InputHub.ActiveInTrueTime | pc/src/core/input_hub.cpp:31-32 | in true time a slot is active exactly when its update, up to whole wraps of the clock, lies within the last second and not on clock value 0 |
| InputHub.ActiveWithinOneWrap | pc/src/core/input_hub.cpp:31-32 | within one wrap that is exactly a second after the update, and a reading taken before the update misses it |
| InputHub.StaleSlotComesBack | pc/src/core/input_hub.cpp:31-32 | a whole wrap of the clock later a slot counts as active again |
| SessionServer.Server.Find | pc/src/host/session_server.cpp:87-94 | the search finds the first client in use with the endpoint |
| SessionServer.Server.HandleHello | pc/src/host/session_server.cpp:96-139 | the new table and the answer of a HELLO |
| SessionServer.Server.DropClient | pc/src/host/session_server.cpp:141-148 | frees the client and clears its player slot |
| SessionServer.Server.Tick | pc/src/host/session_server.cpp:154-166 | once a second, drops exactly the timed-out clients |
| SessionServer.Server.OnPacket | pc/src/host/session_server.cpp:177-235 | one datagram's effect on lobby and hub, and its answer: PONG with the PING's timestamp exactly to a PING of this version, VERSION_MISMATCH exactly to a HELLO of another version, other acknowledgements exactly to a HELLO of this version that parses, nothing to anything else; other versions change nothing |
| SessionRuns.RunKeepsLobby | pc/src/host/session_server.cpp:87-148 | in every reachable lobby the endpoints in use are distinct and unowned slots show nothing |
| SessionRuns.RunKeepsAuthority | pc/src/core/input_hub.cpp:8-21 | in every reachable lobby an updated slot of the hub names itself, whatever slots clients claim |
| SessionRuns.HelloOutcome | pc/src/host/session_server.cpp:96-139 | FULL exactly for an unknown client while all slots are taken, REJECTED exactly for other roles, otherwise the sender owns the slot it is told, its old one or else the first free one, counts as just heard from, and nothing else changes |
| SessionRuns.AnswersIff | pc/src/host/session_server.cpp:183-232 | the answer to every datagram in every lobby, whether or not the sender is joined |
| SessionRuns.HeardExactly | pc/src/host/session_server.cpp:195-226 | a client counts as heard from exactly on its own HELLO as a client, input or PING of this version; nothing else changes the entry of a client that stays |
| SessionRuns.OwnerKeepsSlot | pc/src/host/session_server.cpp:100-127 | a datagram takes a slot from its owner exactly when it is the owner's goodbye, and no owner ever gets a second slot |
| SessionRuns.PacketOnSlot | pc/src/host/session_server.cpp:202-213 | only its owner's input sets a slot; a new owner starts neutral |
| SessionRuns.PacketIsOneHubUpdate | pc/src/host/session_server.cpp:194-232 | a datagram does nothing to the hub but set its sender's slot or, on goodbye, clear it |
| SessionRuns.SlotShowsItsOwnersLastInput | pc/src/host/session_server.cpp:202-213 | over any run, a slot shows exactly the last input its present owner sent since it joined, and nothing if there is none |
| SessionRuns.SlotZeroIsTheHosts | pc/src/host/session_server.cpp:202-213 | the server never touches slot 0, which shows what the host last set |
| SessionRuns.TimeoutsDecideTrueSilence | pc/src/host/session_server.cpp:154-166 | through clock wrap-around, a client heard from within 5 seconds survives every tick and one silent for 6 seconds survives none |
| SessionRuns.TickDecides | pc/src/host/session_server.cpp:156-166 | a tick drops a client exactly when a second has passed since the last sweep and the client's true silence is over 5 seconds |
| ConsoleInput.RemoteInput.Update | wiiu/input-plugin/src/remote_input.h:23-29 | stores state and time under the state's slot, ignoring bad slots |
| ConsoleInput.RemoteInput.Get | wiiu/input-plugin/src/remote_input.h:34-45 | the slot's state exactly when it was updated within a second |
| ConsoleInput.RemoteInput.DeactivateAll | wiiu/input-plugin/src/remote_input.h:47-51 | silences all slots, keeping their states |
| ConsoleInput.RemoteInput.OnDatagram | wiiu/input-plugin/src/main.cpp:115-144 | a well-formed bundle updates the table state by state, a goodbye silences it |
| ConsoleInput.GoodbyeSilencesAll | wiiu/input-plugin/src/main.cpp:140-144 | after a goodbye no slot is injected at any time until the next bundle; datagrams of other types change nothing |
| ConsoleInput.FreshWithinOneWrap | wiiu/input-plugin/src/remote_input.h:38-42 | within one wrap an entry is injected exactly for the second after its update, clock value 0 standing for never |
| ConsoleInput.ConsoleAgreesWithHub | wiiu/input-plugin/src/main.cpp:115-128 | after a bundle the console's table equals the hub's for every slot active at packing and is unchanged elsewhere |
| ConsoleInput.SetInputIsInjected | wiiu/input-plugin/src/remote_input.h:34-45 | an input set in the hub is what the console injects for that player when the bundle is packed within a second of it and read within a second of its arrival, whatever the table held before |
| InputPath.RunKeepsInv | pc/src/host/host_app.cpp:72-90 | over lossy, repeating, reordering networks every entry of hub, network and console goes back to a recorded update within its age bound, counted from the host's clock reading; readings may be any time older than the stores they stamp |
| InputPath.InjectedInputIsRecent | wiiu/input-plugin/src/remote_input.h:34-45 | what the console injects for a slot is a state the host recorded for that slot less than 2000 ms plus the longest delay ago, the delay counted from the clock reading of the host's turn to the console's reading for the bundle |
| GameInput.AvailableIsRecent | wiiu/input-plugin/src/injection.cpp:172-223 | what a hook would inject for a player, GamePad or Pro Controller, is a state the host recorded for that player within 2000 ms plus the delay |
| GameInput.ReadChannel | wiiu/input-plugin/src/injection.cpp:172-189 | what a game gets on channel c are the buttons of a state the host recorded for player c + 1 within 2000 ms plus the delay |
| Injection.Hooks.FillProStatus | wiiu/input-plugin/src/injection.cpp:142-168 | hold, trigger and release of a sample against the channel's stored hold, which becomes the new one |
| Injection.Hooks.KpadInject | wiiu/input-plugin/src/injection.cpp:172-189 | injects exactly when the channel is 0 to 2, there is room, the master switch and the switch of player channel + 1 are on and that player was updated within a second; the sample holds that player's buttons; other channels stay |
| Injection.Hooks.VpadRead | wiiu/input-plugin/src/injection.cpp:201-267 | with player 0 switched on and fresh, hands over the union of the real hold and the remote one with edges against the stored hold; otherwise passes the real sample through and remembers its hold |
| Injection.Hooks.ReadPro | wiiu/input-plugin/src/injection.cpp:278-294 | the game gets the injected sample or what the real function brings, and the stored hold follows the injected ones only |
| Injection.EdgesTelescope | wiiu/input-plugin/src/injection.cpp:142-189 | on each channel the injected presses and releases of every bit alternate, and their difference is whether the last injected sample holds it, across gaps in injection |
| Injection.EdgesFitIffChangesMatch | wiiu/input-plugin/src/injection.cpp:172-189 | over any run of reads, all edges handed to the game on a Pro channel, injected and passed through, fit the sample before exactly when the buttons last injected and last passed through are the same at every change between the two |
| Injection.GapSwallowsAPress | wiiu/input-plugin/src/injection.cpp:153-161 | a button injected, let go in a gap and injected again: the last sample has no trigger |
| Injection.FittingEdgesTelescope | wiiu/input-plugin/src/injection.cpp:158-161 | edges that fit the sample before make presses and releases of every bit alternate, in a Pro channel's samples and in the GamePad's |
| Injection.MergedEdgesFollowTheGame | wiiu/input-plugin/src/injection.cpp:201-223 | a merged sample's edges are taken against the sample the game saw last, also when injection resumes |
| Injection.EdgesFitIffSwitchedOffClean | wiiu/input-plugin/src/injection.cpp:201-223 | over any run of reads, all edges handed to the game fit the sample before exactly when a real sample is only ever passed through with nothing extra held in the last merge |
| Injection.SwitchingOffSwallowsARelease | wiiu/input-plugin/src/injection.cpp:212-220 | a button merged in, and injection switched off: the edges handed do not fit |
| Injection.NothingExtraMeans | wiiu/input-plugin/src/injection.cpp:209-223 | nothing extra held, read off the words merged, is the stored hold being the hardware's last one |
| Injection.HeldButtonLosesItsRelease | wiiu/input-plugin/src/injection.cpp:209-221 | a button the game last saw down but not on the hardware appears in no later sample, held or released, while injection is off and the hardware button is not pressed |

## Left out

- Sockets, endpoint parsing, logging, settings files, user interface: input and output; datagrams are byte sequences that arrive in any order.
- JPEG encoding and decoding, the GPU, the audio mixer, the real controller reads: foreign code; their outcomes are free inputs of the runs.
- Nearest-neighbour downscaling and colour conversion: arithmetic on one frame, without state.
- Relaxed memory ordering: the audio ring's accesses are sequentially consistent steps; that the acquire and release marks suffice is not shown.
- A mix callback registered earlier, which is called before this one, and the registration itself.
- AUDIO datagrams: draining ends with the chunk of samples that is packed; the record has the shape of VIDEO's.
- The CONFIG datagram that follows an accepted HELLO, the relaying of video and audio to all clients, and the sequence numbers of the host's answers.
- HELLO, CONFIG, PING and RUMBLE records, client names, round-trip times: parsed packets are inputs of the lobby, and only the answers HELLO_ACK and PONG are modelled.
- The console's "host connected" flag, which only feeds a menu text.
- Stop and shutdown paths, which are terminal, and the client application.
- Stick conversion, stick thresholds, button tables and touch mapping: the hold word of a state is a free function of it.
- The 64-bit width of the assembler's counters: they are unbounded here.
- FrameAssembler.Assembler: slots are records in an array rather than objects with vectors of their own; sharing of buffers between slots, which the source does not have, cannot be expressed.
- Words of buttons are sets of bits; arithmetic on them, which the source does not use, is not available.
- EndToEnd.DeliveredInOrderAcrossWrap: holds for datagrams less than 2^31 frame ids away from the newest delivery, which is what the id comparison can tell apart.
- CaptureRuns.CopyIsIssuedIff: for a last copy less than 2^32 ms old, as the 32-bit age cannot tell an older one from a young one; before the first copy the age is counted from clock value 0.
- CaptureRuns.EveryCopyIsEncodedInOrder: for frame rates up to 1000 a second; the settings keep them between 5 and 30 (wiiu/stream-plugin/src/main.cpp:161).
- SessionRuns.TimeoutsDecideTrueSilence: assumes that the loop ticks at least once in 2^31 ms; its receive timeout is 100 ms.
- NoLoss.EveryFrameDelivered: slices lie less than 2^31 frame ids away from the last completed frame, beyond which the id comparison cannot tell old from new.
- Slicer.StreamSender.NetSendVideoFrame: an increment of the shared counter is one step; two threads drawing the same number are not modelled, and receivers ignore the numbers.
- InputPath.InjectedInputIsRecent: assumes a longest network delay, and entries less than a whole wrap of the clock old; `InputHub.StaleSlotComesBack` shows that the latter is needed.
- CaptureRuns.TimestampIsTheCopysOwnIff: that a slot handed over again means a wrong time is shown for an encoder that has not been holding the frame for 2^32 ms, after which the same time could come round again.
- CaptureRuns.StepKeepsInv: of the description only the time is looked up without the mutex, so its fields are stored in one step.
- Injection.EdgesFitIffSwitchedOffClean: assumes that a real read brings one sample. When `count` is over 1 and several come, the edges of sample 0 refer to sample 1 and not to the call before.
- Injection.EdgesFitIffChangesMatch: assumes one sample per real read of a Pro Controller, likewise.
- ConsoleInput.SetInputIsInjected: speaks of one bundle that arrives; that bundles do arrive is up to the network.
- GameInput.ReadChannel: as InputPath.InjectedInputIsRecent; and the button tables that make a hold word of a state are a free function.
- SessionServer.Server.OnPacket: takes one clock reading; the program reads the clock again when it accepts a HELLO (pc/src/host/session_server.cpp:123).
