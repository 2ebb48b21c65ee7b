# A verified model of the virtual DualSense stack

This project models the parts of the repository that move and reshape data under a protocol, and proves what
they promise. Everything is stated for all inputs and all runs. Each component has a specification (datatypes and
functions), theorems about it, and where the source changes state step by step a class or a method with loops that
is proved to compute the specification.

* `HcdSpec`, `HcdQueue`, `HcdInvariant`, `HcdSteps`, `HcdPacing`, `HcdTheorems`, `HcdOrder`, `HcdOutcome`, `HcdState`,
  `HcdDevice`, with `MicQueue` and `IsoTransfer`: the virtual USB host controller. A USB request is accepted, waits or
  is queued with a ready time, is taken by the completion thread and handed back. One function per locked section; an
  invariant kept by all of them; theorems over every run.
* `SbcAllocator`, `SbcGreedy`, `SbcBitStream`, `SbcFrame`, `SbcLayout`, `SbcCrc`, `SbcEncoder`: the bit allocation of
  section 12.6.3.2 of the Advanced Audio Distribution Profile, the bit stream, the frame layout and its check byte.
* `JsonlSpec`, `JsonlTheorems`, `JsonlGrammar`, `Jsonl`, `ConfigSpec`, `ConfigTheorems`, `ConfigText`, `ConfigFile`,
  `ConfigDb`: the record format (strings escaped as in section 7 of RFC 8259) and the controller database written in it.
* `Crc32`: the CRC of section 8 of RFC 1952, bit by bit and by table. `Resample`, `PcmFrames`, `PcmExtractor`: audio.
* `PortSpec`, `PortTheorems`, `PortOutcome`, `PortAllocator`: which controller may use which virtual port.
* `SyncSpec`, `SyncTheorems`, `SyncOutcome`, `BtState`: what a port still has to send to its controller when sends may
  block.
* `OutputSpec`, `OutputTheorems`, `OutputOutcome`, `OutputWriter`: the report queue of the HID output thread.
* `Base`, `BitMath`, `Octets`: shared values, binary arithmetic and eight- and thirty-two-bit words.

A specification says what a step does branch by branch, as the source does. What that amounts to is said a second
time without it: `HcdOutcome` keeps a ticket for one request from what happens at the driver's boundary and shows that
the request comes back as the ticket says, `HcdState` and the other `Outcome` modules state each step from the fields
before it, `SbcGreedy` and `SbcLayout` describe allocation and frame as a receiver reconstructs them, `JsonlGrammar`
gives the language of the record format as syntax trees, and `PcmFrames` builds the stream from samples.

## Findings

Promises that do not hold of the code as written, each with the exact condition under which they do.

* The bit stream is documented for widths up to 32 (`gui/Sbc/SbcBitStream.cs:99-101`, 49-51). A field written behind
  pending bits is kept exactly when nothing is shifted out of the 32-bit accumulator, and a 32-bit field never, unless
  all is zero: `SbcBitStream.StoredIntact`, `SafeWriteWidths`, `ReadIntact`, `SafeReadWidths`. Up to 25 bits are always safe.
* Isochronous descriptors of more than 4096 bytes are counted as played and lost: `IsoTransfer.OutStreamExact`.
* The duration of a transfer is computed in 32 bits; it covers the bytes exactly when they take less than 2^32
  microseconds: `IsoTransfer.DurationCoversBytesExactly`, and over runs `HcdTheorems.ReservedTimeExactly`.
* A completion may be handed back up to 999 nanoseconds before its ready time, because the remaining wait is cut to
  whole microseconds: `HcdTheorems.HandBackTime`.
* Field names are printed unescaped; one is read back exactly when it is plain: `JsonlTheorems.RawReadsBackIffPlain`.
* A microphone state report changes the output state but is sent once and not kept. When that send blocks and there is
  nothing else to send, later rounds do not make up for it: `SyncTheorems.BlockedMicReportIsNotRetried`. When a state
  report was already deferred, it goes out afterwards with the old settings, even if the microphone report was accepted:
  `SyncTheorems.DeferredReportUndoesMic`. Over any run that keeps the settings, `SyncTheorems.MicReachesExactly` says when
  the controller has them.

Three tests in the source never fire under the invariants proved here: the clamp of the interpolation
(`Resample.LerpBetween`), the check for devices handed on already (`PortAllocator.ActiveIsOther`) and the last test of
the queue's size (`OutputWriter.Transport.Admit`).

## Model

| member | source | states |
|---|---|---|
| HcdTheorems.Reachable | module/vds_hcd_core.c:352-1286 | every state reached by any interleaving of the locked sections satisfies the invariant |
| HcdTheorems.AcceptedExactlyOnce | module/vds_hcd_core.c:352-410 | in every reachable state each accepted request is in exactly one place (waiting for input, waiting for a feature report, queued, in hand, given back), once; accepted is the sum of the five |
| HcdTheorems.StateNamesList | module/vds_hcd_core.c:352-410 | a request's state names the list it is on |
| HcdTheorems.StepOnlyGrows | module/vds_hcd_core.c:589-648 | nothing given back is ever taken back by a step; the number accepted never falls |
| HcdTheorems.RunOnlyGrows | module/vds_hcd_core.c:589-648 | the same over any run |
| HcdTheorems.StopThenDrain | module/vds_hcd_core.c:1446-1462 | after stop, once the remaining ready times have passed the completion thread returns every accepted request, each exactly once |
| HcdTheorems.CompletionInOrder | module/vds_hcd_core.c:1064-1115 | between two resets uncancelled paced requests of one stream come back in submission order, each ready at least its own duration after the one before it, where that duration is the one computed from its descriptors (or a polling interval in force) |
| HcdTheorems.NeverAheadOfRealTime | module/vds_hcd_core.c:1064-1115 | over any stretch of an isochronous stream in any run, ready times advance by at least total bytes times 1000/384 (OUT) or 1000/192 (IN) microseconds when each transfer's playing time fits 32 bits, and by at least a millisecond each; none is handed back a microsecond or more before it is ready |
| HcdTheorems.ReservedTimeExactly | module/vds_hcd_core.c:1064-1115 | every part of a stretch has at least its bytes' playing time reserved if and only if each transfer's playing time fits 32 bits |
| HcdTheorems.InputCompletionsAreSpaced | module/vds_hcd_core.c:659-671 | input completions of one connection are at least a polling interval apart, whatever profiles were in force |
| HcdTheorems.ShippedProfilesPollEachMillisecond | module/vds_hcd_core.c:659-671 | with the shipped profiles input completions of one connection are at least a millisecond apart |
| HcdPacing.ReturnedAreMeasured | module/vds_hcd_core.c:1064-1115 | every request handed back in any run occupied its stream for exactly its transfer's duration, or for the polling interval of a profile in force |
| HcdPacing.StepMeasured | module/vds_hcd_core.c:352-1286 | every locked section keeps that true of all queued, held and returned requests |
| HcdTheorems.HandBackTime | module/vds_hcd_core.c:611-631 | a request is taken exactly when less than a microsecond of its wait is left; it is never taken early if and only if the clock is not within that last microsecond |
| HcdTheorems.WaitersAndDataNeverMeet | module/vds_hcd_core.c:673-744 | input readers and buffered input never coexist, at most one report is buffered, and nobody waits for a feature report that is cached |
| HcdTheorems.NewestReportIsKept | module/vds_hcd_core.c:673-744 | after any run the input buffer holds exactly the last accepted report that no reader took and no disconnect or stop discarded |
| HcdTheorems.ReplyCompletesItsWaiters | module/vds_hcd_core.c:758-804 | a feature reply queues exactly the requests waiting for its id, leaves the others waiting and is cached |
| HcdTheorems.WaiterGetsReply | module/vds_hcd_core.c:746-778 | each of those requests is completed with the reply's data |
| HcdTheorems.DisconnectCancelsWaiters | module/vds_hcd_core.c:900-947 | a disconnect queues every waiter with a shutdown error and forgets all buffered data; its second section forgets the feature cache |
| HcdTheorems.HandBackPlaysExactly | module/vds_hcd_core.c:454-517 | with room in the event queue, handing back an OUT transfer appends exactly the valid descriptors' data, in order, if and only if each descriptor has at most 4096 bytes |
| HcdOutcome.HandedBackAsTicketed | module/vds_hcd_core.c:352-1286 | over any run each request handed back has the transfer it was submitted with and the status, ready time, length, error count and bytes its ticket says. The ticket follows one submission from the frames, cancellations and connection changes alone: an input report read at once or taken while waiting (cut to the buffer, ready a polling interval after the stream's clock or now), a feature report cached or written later, an accepted or refused output or feature report, a wrong endpoint, a cancellation, a shutdown, audio played or recorded |
| HcdOutcome.StepTracks | module/vds_hcd_core.c:352-1286 | every locked section keeps each request in step with its ticket |
| HcdOutcome.InputRequestsCarryReports | module/vds_hcd_core.c:650-688 | over any run in which requests are cancelled with errors only, each successful input request handed back carries the bytes of a report the daemon wrote, all or as many as the host asked for |
| HcdOutcome.ReportReachesReader | module/vds_hcd_core.c:673-688 | a report that meets waiting readers queues the one that waits longest with status 0, the shorter of the two lengths and exactly those bytes |
| HcdOutcome.ReaderFindsReport | module/vds_hcd_core.c:1139-1159 | so does a reader that finds a buffered report |
| HcdOutcome.FillInRecords | module/vds_hcd_core.c:519-587 | recording fills the valid descriptors one after the other from the oldest unread microphone bytes and leaves the rest of them unread |
| HcdOutcome.RecordedAt | module/vds_hcd_core.c:552-587 | a byte of a recorded buffer is the microphone's, at the place the earlier valid descriptors leave it, or silence |
| HcdOutcome.UncoveredIsKept | module/vds_hcd_core.c:552-587 | a byte no descriptor covers is left alone |
| HcdState.ClocksMove | module/vds_hcd_core.c:1064-1115 | each step moves the three pacing clocks exactly: by a transfer's duration or a polling interval from the later of clock and now, back to zero on a reset, and not otherwise |
| HcdState.FlagsMove | module/vds_hcd_core.c:780-947 | each step's effect on connection, stopping, profile and remembered feature replies |
| HcdState.MicGrows | module/vds_hcd_core.c:806-855 | a packet goes behind the newest packets that leave it room within 19200 bytes, as many as do |
| HcdState.MicMoves | module/vds_hcd_core.c:519-587 | no other step adds microphone bytes; handing back takes the oldest, exactly those the valid descriptors hold; a disconnect or stop takes all |
| HcdState.EventsMove | module/vds_hcd_core.c:181-317 | the exact events a submission announces to the daemon and the event a read removes; nothing else but a disconnect, a stop or audio changes them |
| HcdState.HandBackFrames | module/vds_hcd_core.c:454-517 | handing back an OUT transfer appends its frames of at most 4096 bytes in order, numbered, as long as there is room, and none once stopping |
| HcdState.SubmitRefused | module/vds_hcd_core.c:1161-1198 | a refused submission changes nothing, and why it is refused |
| HcdState.CancelRefused | module/vds_hcd_core.c:1254-1286 | in a good state cancelling is refused exactly for what was never accepted or is taken already, or as the USB core says; nothing changes then |
| HcdState.HeadIsTaken | module/vds_hcd_core.c:603-637 | the thread takes the head unchanged and records when |
| HcdOrder.ShutDownInOrder | module/vds_hcd_core.c:398-410 | requests shut down together come back in the order they wait in |
| HcdOrder.ReplyInOrder | module/vds_hcd_core.c:758-778 | so do requests answered by one feature reply |
| HcdOrder.FeatureRequestsWaitInOrder | module/vds_hcd_core.c:1200-1205 | over any run feature requests wait in submission order |
| HcdOrder.NothingAheadIsOvertaken | module/vds_hcd_core.c:352-396 | however a run goes on, a queued request, cancelled or not, is taken only after everything that was ahead of it |
| HcdOrder.CancelledComesBackExactly | module/vds_hcd_core.c:1267-1270 | a cancelled queued request is handed back by the thread, run on its own at one reading of the clock, if and only if everything ahead of it is due: no later than the last ready time ahead of it |
| HcdOrder.CancelFindsExactly | module/vds_hcd_core.c:1262-1278 | in every reachable state cancelling finds exactly the accepted requests the thread has not taken |
| HcdOrder.ReadersWaitInOrder | module/vds_hcd_core.c:1139-1159 | over any run input requests wait in submission order |
| HcdQueue.InsertSorted | module/vds_hcd_core.c:352-396 | insertion keeps the timed entries sorted by ready time |
| HcdQueue.UntimedOvertakesTimed | module/vds_hcd_core.c:352-396 | an untimed request goes behind the leading untimed ones and before every timed one |
| HcdQueue.TimedOvertakesLater | module/vds_hcd_core.c:352-396 | a timed request goes in front of the first request that is ready later, and of nothing else |
| HcdQueue.TiesAreFifo | module/vds_hcd_core.c:381-395 | a request goes behind every queued one with the same ready time |
| HcdQueue.PacedRun | module/vds_hcd_core.c:1103-1113 | over any run of one stream in a history, ready times advance by at least the sum of the recorded durations (which HcdPacing.ReturnedAreMeasured ties to the transfers) |
| HcdInvariant.CancelPendingKeeps | module/vds_hcd_core.c:398-410 | cancelling all waiters keeps the lists consistent |
| HcdSteps.StepKeeps | module/vds_hcd_core.c:352-1286 | every locked section keeps the invariant |
| HcdSteps.SubmitKeeps | module/vds_hcd_core.c:1161-1252 | submission keeps the invariant on all its branches |
| HcdSteps.CancelKeeps | module/vds_hcd_core.c:1254-1286 | cancellation keeps it, also when it zeroes a queued entry's ready time in place |
| HcdSteps.WriteInputKeeps | module/vds_hcd_core.c:719-744 | an input report keeps it |
| HcdSteps.WriteFeatureKeeps | module/vds_hcd_core.c:780-804 | a feature reply keeps it |
| HcdSteps.WriteAudioKeeps | module/vds_hcd_core.c:806-855 | a microphone packet keeps it |
| HcdSteps.DisconnectKeeps | module/vds_hcd_core.c:900-947 | a disconnect keeps it |
| HcdSteps.StartKeeps | module/vds_hcd_core.c:1425-1444 | starting the controller keeps it |
| HcdSteps.PopKeeps | module/vds_hcd_core.c:603-637 | taking the head of the completion queue keeps it |
| HcdSteps.FinishKeeps | module/vds_hcd_core.c:639-645 | delivering audio and handing back keeps it |
| HcdDevice.Device.QueueUrbGiveback | module/vds_hcd_core.c:352-396 | refuses a request that is queued or in hand already; else inserts it where the specification says, whatever its ready time |
| HcdDevice.Device.CancelPendingUrbs | module/vds_hcd_core.c:398-410 | both waiting lists end up queued with the given status, and empty |
| HcdDevice.Device.FlushBufferedFrames | module/vds_hcd_core.c:412-438 | queues, counters and byte counter are emptied together |
| HcdDevice.Device.Enqueue | module/vds_hcd_core.c:181-222 | an event is numbered and appended unless it is too long, the driver is stopping or the queue is full |
| HcdDevice.Device.ReadFrame | module/vds_hcd_core.c:269-317 | the oldest event leaves if the reader's buffer holds it; otherwise nothing changes |
| HcdDevice.Device.IsoOutUrb | module/vds_hcd_core.c:454-517 | the loop over the descriptors emits the coalesced frames and reports the valid bytes and the invalid descriptors |
| HcdDevice.Device.FillAudioIn | module/vds_hcd_core.c:519-550 | gives the oldest queued bytes in order, then zeros, and removes exactly those bytes |
| HcdDevice.Device.IsoInUrb | module/vds_hcd_core.c:552-587 | fills each valid descriptor in turn from the microphone queue and counts the rest as errors |
| HcdDevice.Device.DropOldest | module/vds_hcd_core.c:828-844 | drops whole oldest packets until the new one fits |
| HcdDevice.Device.WriteAudioIn | module/vds_hcd_core.c:806-855 | a packet is queued behind what was kept; refusals leave the queue alone |
| HcdDevice.Device.IsoDuration | module/vds_hcd_core.c:1064-1101 | the duration of a transfer in the code's 32-bit arithmetic |
| HcdDevice.Device.SubmitControlUrb | module/vds_hcd_core.c:1200-1205 | a control request is answered at once or waits for its feature report |
| HcdDevice.Device.SubmitSetReport | module/vds_usb_core.c:409-433 | a feature report set by the host becomes an event, or the request fails with the reason it could not |
| HcdDevice.Device.SubmitInterruptInUrb | module/vds_hcd_core.c:1139-1159 | an input request is queued with the buffered report's bytes, or waits |
| HcdDevice.Device.SubmitInterruptOutUrb | module/vds_hcd_core.c:1117-1137 | an output report becomes an event and the request completes |
| HcdDevice.Device.SubmitIsoUrb | module/vds_hcd_core.c:1219-1250 | an isochronous request is scheduled on its stream's clock, or fails on a wrong endpoint |
| HcdDevice.Device.DispatchUrb | module/vds_hcd_core.c:1199-1251 | each kind of request takes its branch |
| HcdDevice.Device.SubmitUrb | module/vds_hcd_core.c:1161-1252 | the whole submission: refused before it is linked, or accepted with the next serial number |
| HcdDevice.Device.CancelUrb | module/vds_hcd_core.c:1254-1286 | a waiting request is queued with the status; a queued one becomes due at once in its place; one in hand is left alone |
| HcdDevice.Device.WriteInputFrame | module/vds_hcd_core.c:719-744 | a report goes to the oldest waiting reader, which is queued with its bytes, else to the one-packet buffer |
| HcdDevice.Device.CompletePendingFeatureReplies | module/vds_hcd_core.c:758-778 | the loop over the waiters completes those with the reply's id, in order |
| HcdDevice.Device.WriteFeatureReply | module/vds_hcd_core.c:780-804 | cache update and completion as one step |
| HcdDevice.Device.SetConnection | module/vds_hcd_core.c:900-947 | connecting, or disconnecting and then resetting the USB state, in two locked sections; nothing once stopping |
| HcdDevice.Device.ChangeConnection | module/vds_hcd_core.c:909-939 | the first section: waiters cancelled, buffers emptied, clocks reset |
| HcdDevice.Device.StartController | module/vds_hcd_core.c:1425-1444 | the controller starts, for the first time or again, with fresh clocks, the invariant kept whatever is queued |
| HcdDevice.Device.StopController | module/vds_hcd_core.c:1446-1462 | stopping cancels the waiters |
| HcdDevice.Device.ChangeProfile | module/vds_usb_core.c:106-118 | refused while connected |
| HcdDevice.Device.TakeCompleted | module/vds_hcd_core.c:603-637 | the thread takes the head when it is due |
| HcdDevice.Device.DeliverAudio | module/vds_hcd_core.c:639-642 | audio is delivered when a successful transfer is handed back, not before |
| HcdDevice.Device.GiveBack | module/vds_hcd_core.c:589-648 | the request in hand is delivered and handed back |
| MicQueue.ConsumeDropsOldest | module/vds_hcd_core.c:519-550 | reading removes exactly the oldest bytes, in order |
| MicQueue.ReadsCompose | module/vds_hcd_core.c:519-550 | two reads give what one read of both lengths gives |
| MicQueue.TrimDropsFewestOldest | module/vds_hcd_core.c:828-844 | the fewest whole oldest packets are dropped that make room |
| MicQueue.WriteKeepsInv | module/vds_hcd_core.c:806-855 | the byte counter stays the sum of the unread bytes, at most 19200 |
| IsoTransfer.CoalescingPreservesStream | module/vds_hcd_core.c:454-517 | the coalesced spans concatenate to the valid descriptors' data |
| IsoTransfer.FramesSmallIffDescsSmall | module/vds_hcd_core.c:486-513 | joining never makes a frame too long: all frames fit if and only if all valid descriptors do |
| IsoTransfer.OutStreamExact | module/vds_hcd_core.c:454-517 | the accepted frames carry the whole stream if and only if each valid descriptor has at most 4096 bytes |
| IsoTransfer.LongDescriptorIsLost | module/vds_hcd_core.c:181-222 | a single descriptor of 4097 bytes that is lost |
| IsoTransfer.DurationCoversBytesExactly | module/vds_hcd_core.c:1064-1101 | the duration covers the bytes at the stream's rate if and only if it fits 32 bits |
| IsoTransfer.DurationAtLeastOneMs | module/vds_hcd_core.c:1084-1101 | every transfer of a plausible number of descriptors takes at least a millisecond |
| IsoTransfer.HugeTransferIsMispaced | module/vds_hcd_core.c:1064-1101 | a transfer whose duration wraps to one millisecond |
| IsoTransfer.DurationIsLeast | module/vds_hcd_core.c:1064-1101 | when it fits 32 bits, the duration is the shortest number of microseconds, at least 1000, that covers the bytes at 384 (OUT) or 192 (IN) a millisecond; without bytes, a millisecond a descriptor |
| IsoTransfer.FramesAreCoalesced | module/vds_hcd_core.c:454-517 | the frames cut the played descriptors into runs of neighbours, each as long as 4096 bytes allow |
| SbcGreedy.AllocationIsGreedy | gui/Sbc/DualShock4SbcEncoder.cs:198-285 | the allocation, said without its loops: a level whose bits fit the pool while the next one's do not; from there entries in cursor order move down a level whenever the bits left suffice; at most one bit is left over, only if someone was passed over, and goes to the first entry below 16 |
| SbcGreedy.AllocationIsUnique | gui/Sbc/DualShock4SbcEncoder.cs:198-285 | scale factors and pool determine that allocation, so a receiver computes the same |
| SbcAllocator.SliceAddsUp | gui/Sbc/DualShock4SbcEncoder.cs:214-238 | one step of the search loop adds exactly what the closed form says |
| SbcAllocator.FinalLevelBrackets | gui/Sbc/DualShock4SbcEncoder.cs:214-244 | the search stops at a level whose cost fits the pool while the next one down does not fit below it |
| SbcAllocator.FirstPassOneShort | gui/Sbc/DualShock4SbcEncoder.cs:256-274 | the first pass serves everyone it counted, uses up the pool, or ends one bit short having passed someone over |
| SbcAllocator.FirstPassSuffices | gui/Sbc/DualShock4SbcEncoder.cs:256-274 | after the first pass at most one bit is left, and some entry has room for it |
| SbcAllocator.AllocationUsesWholePool | gui/Sbc/DualShock4SbcEncoder.cs:198-285 | for any scale factors and any pool the entries can hold (up to 256), the allocations sum to the pool |
| SbcAllocator.AllocationBounds | gui/Sbc/DualShock4SbcEncoder.cs:198-285 | each entry gets at least its share at the final level and at most one bit more than its share one level down, never above 16 |
| SbcAllocator.LouderBandsAreServed | gui/Sbc/DualShock4SbcEncoder.cs:198-285 | a larger scale factor never gets more than one bit less |
| SbcAllocator.Allocator.MaximumNeed | gui/Sbc/DualShock4SbcEncoder.cs:200-212 | the largest need |
| SbcAllocator.Allocator.CountSlice | gui/Sbc/DualShock4SbcEncoder.cs:222-236 | what one slice adds over all channels and bands |
| SbcAllocator.Allocator.FindLevel | gui/Sbc/DualShock4SbcEncoder.cs:214-244 | the loop terminates at the final level, and its running count is the closed-form total there |
| SbcAllocator.Allocator.AssignShares | gui/Sbc/DualShock4SbcEncoder.cs:246-254 | each entry gets its share at the level |
| SbcAllocator.Allocator.AdvanceCursor | gui/Sbc/DualShock4SbcEncoder.cs:287-294 | the cursor visits the entries in order, channel by channel within a band |
| SbcAllocator.Allocator.FirstPass | gui/Sbc/DualShock4SbcEncoder.cs:256-274 | the first distribution loop in place computes the specified pass (which SbcGreedy.AllocationIsGreedy shows to serve the entries in cursor order) |
| SbcAllocator.Allocator.SecondPass | gui/Sbc/DualShock4SbcEncoder.cs:276-287 | the second distribution loop in place |
| SbcAllocator.Allocator.AllocateSnrBits | gui/Sbc/DualShock4SbcEncoder.cs:198-285 | the whole algorithm in place: the array holds the specified allocation (the one SbcGreedy.AllocationIsUnique determines) |
| SbcBitStream.StoredIntact | gui/Sbc/SbcBitStream.cs:102-133 | a field is stored behind the pending bits intact if and only if no set bit leaves the accumulator |
| SbcBitStream.SafeWriteWidths | gui/Sbc/SbcBitStream.cs:102-133 | the widths that are safe whatever is pending: pending plus width at most 32, width below 32 |
| SbcBitStream.ReadIntact | gui/Sbc/SbcBitStream.cs:52-87 | a field is read intact if and only if the refilled accumulator fits 32 bits (for 32-bit fields, if and only if it is zero) |
| SbcBitStream.SafeReadWidths | gui/Sbc/SbcBitStream.cs:52-87 | the widths that are read intact whatever is pending and follows: at most 32 bits once refilled, width below 32 |
| SbcBitStream.ShortReadIntact | gui/Sbc/SbcBitStream.cs:52-87 | fields of up to 25 bits are always read intact |
| SbcBitStream.BitStream.constructor | gui/Sbc/SbcBitStream.cs:24-38 | a stream over a buffer, with nothing pending |
| SbcBitStream.BitStream.BitPosition | gui/Sbc/SbcBitStream.cs:45-47 | the number of bits a writer has put, or a reader has consumed |
| SbcBitStream.BitStream.PutBits | gui/Sbc/SbcBitStream.cs:102-133 | the bits written so far grow by the field as the 32-bit arithmetic stores it; when an error is set; nothing past the limit changes |
| SbcBitStream.BitStream.Flush | gui/Sbc/SbcBitStream.cs:138-153 | pending bits are padded with zeros to a byte, or an error is set if there is no room |
| SbcBitStream.BitStream.GetBits | gui/Sbc/SbcBitStream.cs:52-87 | gives the next field as the 32-bit arithmetic reads it and moves past it; at the end of the data, what is left and an error |
| SbcBitStream.LowIsRemainder | gui/Sbc/SbcBitStream.cs:113-114 | masking to a width is the remainder by its power of two |
| SbcBitStream.WriteFields | gui/Sbc/SbcBitStream.cs:102-153 | a list of fields of 1 to 25 bits is written without an error exactly when it fits, and the buffer begins with its bits |
| SbcBitStream.ReadFields | gui/Sbc/SbcBitStream.cs:52-87 | such a buffer reads back as the list |
| SbcBitStream.RoundTrip | gui/Sbc/SbcBitStream.cs:52-153 | writing, flushing and reading with the same widths gives each value modulo two to its width |
| SbcFrame.HeaderLength | gui/Sbc/DualShock4SbcEncoder.cs:300-317 | the header takes 104 bits |
| SbcFrame.SampleLength | gui/Sbc/DualShock4SbcEncoder.cs:319-340 | each block takes exactly 48 bits more |
| SbcFrame.FrameFillsItsBytes | gui/Sbc/DualShock4SbcEncoder.cs:296-350 | the fields fill the 109 bytes to the last bit |
| SbcFrame.FieldReadsBack | gui/Sbc/DualShock4SbcEncoder.cs:296-350 | every field stands at its position with its value |
| SbcFrame.FramesDecodeUniquely | gui/Sbc/DualShock4SbcEncoder.cs:296-350 | two frames with the same bits have the same header, scale factors, allocation and samples: a decoder can recover them |
| SbcLayout.LeadStands | gui/Sbc/DualShock4SbcEncoder.cs:300-303 | sync word 0x9C, configuration, pool 48 and check stand in the first four bytes |
| SbcLayout.JointStands | gui/Sbc/DualShock4SbcEncoder.cs:305-309 | then a joint flag for each subband but the last, and a zero |
| SbcLayout.ScaleStands | gui/Sbc/DualShock4SbcEncoder.cs:311-317 | then four bits for each scale factor, channel by channel |
| SbcLayout.SampleStands | gui/Sbc/DualShock4SbcEncoder.cs:319-340 | each sample stands behind the earlier ones of its block with its allocated width, cut to the range of that width |
| SbcLayout.WidthsAreKnown | gui/Sbc/DualShock4SbcEncoder.cs:198-340 | the widths worked out from a frame's scale factors are the ones its samples have |
| SbcLayout.LeadBytes | gui/Sbc/DualShock4SbcEncoder.cs:300-303 | the first four bytes |
| SbcLayout.ScaleBytes | gui/Sbc/DualShock4SbcEncoder.cs:311-317 | two scale factors a byte, the earlier one in the high half |
| SbcLayout.AfterBitsIsFeed | gui/Sbc/DualShock4SbcEncoder.cs:352-376 | the check is the register started at 0x0F, shifted and mixed with 0x1D bit by bit |
| SbcLayout.CheckIs | gui/Sbc/DualShock4SbcEncoder.cs:348-363 | when the check of a frame comes out, its fourth byte is the check of bytes 1, 2 and 4 to 12 |
| SbcCrc.ResidueIsZero | gui/Sbc/DualShock4SbcEncoder.cs:352-376 | checked bytes followed by the check byte leave a zero register |
| SbcCrc.ByteErrorsAreDetected | gui/Sbc/DualShock4SbcEncoder.cs:352-376 | changing any one checked byte changes the check |
| SbcCrc.UpdateCrc | gui/Sbc/DualShock4SbcEncoder.cs:365-376 | the loop over a byte's bits is feeding them to the register |
| SbcCrc.CalculateCrc | gui/Sbc/DualShock4SbcEncoder.cs:352-363 | the check covers the two bytes after the sync word and the nine after the check |
| SbcEncoder.StoreCheck | gui/Sbc/DualShock4SbcEncoder.cs:348 | storing the check byte changes that field of the frame only |
| SbcEncoder.Encoder.WriteScales | gui/Sbc/DualShock4SbcEncoder.cs:311-317 | the scale factors follow the joint-stereo flags, channel by channel |
| SbcEncoder.Encoder.WriteSamples | gui/Sbc/DualShock4SbcEncoder.cs:319-340 | the samples of all blocks with the allocated widths |
| SbcEncoder.Encoder.StoreCrc | gui/Sbc/DualShock4SbcEncoder.cs:348-363 | the stored check leaves a zero register |
| SbcEncoder.Encoder.WriteFrame | gui/Sbc/DualShock4SbcEncoder.cs:296-350 | always succeeds: the output's 109 bytes are exactly the specified frame, with a valid check |
| JsonlTheorems.CharReadsBack | src/jsonl.cc:260-298 | every character, escaped or not, is read back |
| JsonlTheorems.StringReadsBack | src/jsonl.cc:81-130 | every string is read back, whatever follows |
| JsonlTheorems.RawReadsBackIffPlain | src/jsonl.cc:302-308 | text printed unescaped is read back if and only if it is plain |
| JsonlTheorems.NumberReadsBack | src/jsonl.cc:132-154 | every 32-bit unsigned number is read back |
| JsonlTheorems.NumbersReadBack | src/jsonl.cc:156-184 | every array of such numbers is read back |
| JsonlTheorems.FieldReadsBack | src/jsonl.cc:302-348 | a field with a plain key is read back |
| JsonlTheorems.ObjectReadsBack | src/jsonl.cc:211-256 | every object with plain keys is read back, its fields in order |
| JsonlGrammar.ParserIsExact | src/jsonl.cc:211-256 | a text is accepted with some fields if and only if it is the text of a good syntax tree with those fields: space, quotes, tokens, digits below 2^32 and separators where the format has them, nothing behind the object |
| JsonlGrammar.MeaningIsUnique | src/jsonl.cc:81-256 | a text means one list of fields at most |
| Jsonl.ParseStringAt | src/jsonl.cc:81-130 | the string loop over an offset computes the parser: same value and end, or same error |
| Jsonl.ParseUnsignedAt | src/jsonl.cc:132-154 | digits with overflow check |
| Jsonl.ParseArrayAt | src/jsonl.cc:156-184 | arrays |
| Jsonl.ParseValueAt | src/jsonl.cc:186-207 | values |
| Jsonl.ParseObjectText | src/jsonl.cc:211-256 | a whole object, with nothing behind it |
| Jsonl.EscapeText | src/jsonl.cc:260-298 | the appending loop escapes every character |
| Jsonl.NumbersText | src/jsonl.cc:327-337 | an array's text |
| Jsonl.StringField | src/jsonl.cc:302-308 | a string field's text |
| Jsonl.NumbersField | src/jsonl.cc:341-348 | an array field's text |
| ConfigTheorems.SortIsSorted | src/vds_config.cc:65-78 | sorting sorts and keeps the same numbers |
| ConfigTheorems.PortsAcceptedExactly | src/vds_config.cc:65-78 | ports are accepted if and only if distinct and in range; a duplicate is reported if and only if there is one |
| ConfigTheorems.AcceptedPortsAreGood | src/vds_config.cc:65-78 | accepted ports come back strictly increasing and are the same ports |
| ConfigTheorems.NormalizeTwice | src/vds_config.cc:137-162 | a normalized address is normal |
| ConfigTheorems.RecordReadsBack | src/vds_config.cc:80-102 | a good record is read back from its line |
| ConfigTheorems.ReadRecordsAreGood | src/vds_config.cc:80-102 | a record read from any line is good |
| ConfigTheorems.RecordIsOneLine | src/vds_config.cc:50-63 | a record's line has no line break in it |
| ConfigTheorems.DbReadsBack | src/vds_config.cc:50-131 | printing then parsing is the identity on every well-formed database |
| ConfigTheorems.ParsedIsWellFormed | src/vds_config.cc:104-131 | whatever the file holds, a database read from it is well-formed |
| ConfigTheorems.EditsKeepWellFormed | src/vds_config.cc:369-391 | upsert and remove keep it well-formed |
| ConfigTheorems.AddressesAreDistinct | src/vds_config.cc:104-131 | no address occurs twice |
| ConfigTheorems.ViewLookup | src/vds_config.cc:333-349 | looking up the list is looking up a map |
| ConfigTheorems.EditsAreMapUpdates | src/vds_config.cc:369-391 | an edit is one map update, and a refused one changes nothing |
| ConfigTheorems.FileActsAsMap | src/vds_config.cc:351-391 | over any run of updates a readable file stays readable and behaves as the map |
| ConfigText.NormalizeIsExact | src/vds_config.cc:137-162 | an address is accepted if and only if it is six pairs of hexadecimal digits with colons between them; its capital letters become small and nothing else changes |
| ConfigText.RecordLine | src/vds_config.cc:50-63 | the line of a record, character by character |
| ConfigText.ReadingIsExact | src/vds_config.cc:80-102 | fields are read as a record if and only if they are its three, in any order, with an address, a known profile and distinct ports below four; the record is what they say, its ports sorted |
| ConfigFile.LineIsExact | src/vds_config.cc:80-102 | a line is read as a record if and only if it is a text of the format with that record's fields |
| ConfigFile.FileIsExact | src/vds_config.cc:104-131 | a file is read as a database if and only if each line is empty, up to a carriage return, or a record with an address no earlier line has; the records come in the order of their lines |
| ConfigFile.EveryTextIsLines | src/vds_config.cc:104-131 | every text is such a list of lines |
| ConfigFile.UpsertStands | src/vds_config.cc:369-379 | a record takes the place of the one with its address, or goes to the end |
| ConfigFile.RemoveStands | src/vds_config.cc:381-391 | removing takes out the one record and leaves the others in their order |
| ConfigDb.FindJsonField | src/jsonl.cc:352-368 | the one value of a key, nothing, or an error exactly when there are several |
| ConfigDb.NormalizeAddress | src/vds_config.cc:137-162 | the loop computes the normal form or its error |
| ConfigDb.CheckPorts | src/vds_config.cc:65-78 | sort, duplicate and range checks |
| ConfigDb.ParseControllerLine | src/vds_config.cc:80-102 | one line's record or the first error |
| ConfigDb.RecordText | src/vds_config.cc:50-63 | one record's line |
| ConfigDb.Database.Load | src/vds_config.cc:104-131 | reads the text line by line; on an error nothing is stored |
| ConfigDb.Database.Serialize | src/vds_config.cc:50-63 | the text, which parses to the same database |
| ConfigDb.Database.UpsertConfig | src/vds_config.cc:369-379 | validates, then replaces or appends; an error changes nothing |
| ConfigDb.Database.RemoveConfig | src/vds_config.cc:381-391 | removes the address and tells whether it was there |
| ConfigDb.Update | src/vds_config.cc:358-367 | one read-change-write of the file |
| Crc32.TableStepIsBitwise | src/vds_protocol.cc:157-170 | one table lookup is eight bitwise steps |
| Crc32.OutputSeedIsPrefix | src/vds_protocol.cc:273-275 | the output seed is the prefix byte 0xA2 folded in |
| Crc32.FeatureSeedIsPrefix | src/vds_protocol.cc:277-279 | the feature seed is the prefix byte 0x53 folded in |
| Crc32.SeededIsPrefixed | src/vds_protocol.cc:262-279 | a seeded checksum is the plain CRC-32 of prefix and data |
| Crc32.ResidueIsConstant | gui/Ds4BtAudioProtocol.cs:117-139 | data followed by its checksum always leaves the same register |
| Crc32.BurstsAreDetected | gui/Ds4BtAudioProtocol.cs:117-139 | changes confined to four neighbouring bytes change the checksum |
| Crc32.ComputeTableEntry | src/vds_protocol.cc:157-162 | a table entry |
| Crc32.MakeTable | src/vds_protocol.cc:164-170 | the table |
| Crc32.Crc32Seeded | src/vds_protocol.cc:262-271 | the table-driven loop computes the bitwise register |
| Crc32.FillOutputReportChecksum | src/vds_protocol.cc:431-442 | stores the prefixed CRC-32 in the last four bytes; refuses reports shorter than that |
| Crc32.FillFeatureReportChecksum | src/vds_protocol.cc:444-455 | the same for feature reports |
| Crc32.UpdateCrc | gui/Ds4BtAudioProtocol.cs:131-139 | one byte, bit by bit |
| Crc32.WriteCrc | gui/Ds4BtAudioProtocol.cs:117-129 | stores the very bytes the table-driven form stores |
| Resample.LerpBetween | src/vds_protocol.cc:192-201 | an interpolated sample lies between its neighbours, so the clamp never acts |
| Resample.MixFitsInt32 | src/vds_protocol.cc:192-201 | the interpolation's 32-bit products and their sum cannot overflow |
| Resample.SourceFrameInRange | src/vds_protocol.cc:204-226 | interpolation indices stay in range |
| Resample.SameRateIsIdentity | src/vds_protocol.cc:204-226 | at equal rates resampling is the identity |
| Resample.ResampleSpeaker | src/vds_protocol.cc:204-226 | the loop computes the interpolated block |
| Resample.IntervalsPartition | src/vds_protocol.cc:228-253 | decimation intervals partition any window |
| Resample.EverySampleCountedOnce | src/vds_protocol.cc:228-253 | the interval sums add up to the sum over the window |
| Resample.HapticsFits | src/vds_protocol.cc:174-177 | means fit 16 bits and their high byte 8 bits |
| Resample.SumsFitInt32 | src/vds_protocol.cc:228-253 | the sums fit 32 bits for every window size the extractor accepts |
| Resample.ResampleHaptics | src/vds_protocol.cc:228-253 | the loop computes the decimated block |
| Resample.SpeakerIsInterpolated | src/vds_protocol.cc:192-226 | output sample by output sample: which two frames it lies between, in what proportion, and cut towards zero |
| Resample.HapticsIsMean | src/vds_protocol.cc:228-253 | each haptics sample is the high byte of the mean of its 32nd of the window, both cut towards zero |
| PcmExtractor.SampleReadsBack | src/vds_protocol.cc:179-183 | the low byte and the high byte of a sample, in this order, read back as the sample |
| PcmExtractor.StreamWindows | src/vds_protocol.cc:1177-1241 | of whatever frames a stream is made, its chunks are their full windows in order: speaker from the first two channels, haptics from the last two, and the flags tell whether any sample is not zero |
| PcmExtractor.StreamResampled | src/vds_protocol.cc:1177-1241 | resampled, the chunks are those windows resampled |
| PcmFrames.EveryStreamIsFrames | src/vds_protocol.cc:1177-1241 | every stream is made of such frames, up to less than one more |
| PcmExtractor.SplitDoesNotMatter | src/vds_protocol.cc:1177-1241 | any way of cutting the stream into pushes gives the blocks, samples and signal flags of one push of the whole |
| PcmExtractor.Extractor.PushInParts | src/vds_protocol.cc:1177-1241 | pushing a stream part by part returns exactly the chunks, with their flags, of the whole: the full windows of the frames it is made of, channel by channel; and holds its remainder |
| PcmExtractor.Extractor.PushAndResample | src/vds_protocol.cc:1177-1241 | a push returns, for each full window of the frames held and pushed, exactly its resampled haptics, its resampled speaker block and its signal flags |
| PcmExtractor.BlockIsItsBytes | src/vds_protocol.cc:1177-1241 | block k is the k-th stretch of the stream |
| PcmExtractor.NothingIsLost | src/vds_protocol.cc:1177-1241 | blocks and remainder make up the stream |
| PcmExtractor.Extractor.Create | src/vds_protocol.cc:415-422 | construction fails exactly for unsupported windows |
| PcmExtractor.Extractor.AddFrame | src/vds_protocol.cc:1177-1241 | a frame's samples and signal flags join the window, as the channels of its bytes (which PcmExtractor.SampleReadsBack and StreamWindows pin to the samples) |
| PcmExtractor.Extractor.PushUsbAudio | src/vds_protocol.cc:1177-1241 | gives the full windows of the frames held and pushed: speaker from channels 0 and 1, haptics from channels 2 and 3, flags for any sample that is not zero; and holds exactly the remainder |
| PortTheorems.AcceptKeeps | src/platform/linux/vdsd.cc:1562-1665 | accepting a channel keeps the invariant |
| PortTheorems.FlushKeeps | src/platform/linux/vdsd.cc:1832-1868 | so does a round of sending |
| PortTheorems.ReconcileKeeps | src/platform/linux/vdsd.cc:1870-2005 | so does taking over a changed device list and database |
| PortTheorems.RefusedExactlyWhenFull | src/platform/linux/vdsd.cc:1345-1372 | a controller gets no port if and only if every port it may use is missing or taken |
| PortTheorems.FlushFindsEveryPort | src/platform/linux/vdsd.cc:1832-1848 | a connected controller's port is always found |
| PortTheorems.OwnDeviceIsUsable | src/platform/linux/vdsd.cc:1588-1595 | a controller with a device keeps it for its second channel |
| PortTheorems.NoSharedDevice | src/platform/linux/vdsd.cc:1325-1342 | in every reachable state a controller in use has a device that is present and allowed, and no other controller has it |
| PortOutcome.ChosenIsFirst | src/vds_config.cc:315-330 | the search gives the first target in order that is present and unused, and nothing exactly when there is none |
| PortOutcome.DeviceIsLowest | src/platform/linux/vdsd.cc:1345-1372 | for a well-formed record that is the lowest-numbered port that is permitted, present and unused; a controller that has a port keeps it |
| PortOutcome.ChannelIsServed | src/platform/linux/vdsd.cc:1562-1665 | a channel makes its controller wait on that port for the other channel, or connects it, or fails and releases everything; or the controller is turned away because no permitted port is open; no other controller changes |
| PortOutcome.ChannelIsRefused | src/platform/linux/vdsd.cc:1573-1586 | a channel from an unknown address or of a connected controller changes nothing |
| PortOutcome.LowestPortIsChosen | src/platform/linux/vdsd.cc:1562-1665 | the same in every reachable state |
| PortOutcome.DropReleases | src/platform/linux/vdsd.cc:1402-1419 | a dropped back-end releases port and channels of its controller only |
| PortOutcome.FlushReleases | src/platform/linux/vdsd.cc:1832-1868 | a round of sending releases exactly the connected controllers to which sending fails |
| PortOutcome.ReloadKeeps | src/platform/linux/vdsd.cc:1902-2004 | a record that names an earlier controller keeps port and channels if and only if the port is still there and permitted |
| PortOutcome.ReloadStarts | src/platform/linux/vdsd.cc:1902-2004 | any other record starts with nothing |
| PortOutcome.UnreadableReload | src/platform/linux/vdsd.cc:1870-1900 | with an unreadable database the ports are renewed all the same and controllers whose port is gone are released |
| PortAllocator.Daemon.PortUsedByOther | src/platform/linux/vdsd.cc:1330-1342 | whether another controller uses a device |
| PortAllocator.Daemon.OccupiedPorts | src/platform/linux/vdsd.cc:1345-1372 | the ports other controllers use |
| PortAllocator.Daemon.AvailablePort | src/platform/linux/vdsd.cc:1345-1372 | for a record whose ports are in order, the lowest-numbered permitted port that is present and unused, or nothing exactly when there is none |
| PortAllocator.Daemon.SelectPort | src/vds_config.cc:315-330 | the first target in order that is present and unused, or nothing when there is none |
| PortAllocator.Daemon.ChooseDevice | src/platform/linux/vdsd.cc:1588-1619 | the own device if usable, else a free one |
| PortAllocator.Daemon.HandleBtAccept | src/platform/linux/vdsd.cc:1562-1665 | one accepted channel |
| PortAllocator.Daemon.DropBtBackend | src/platform/linux/vdsd.cc:1402-1419 | a dropped back-end lets go of its port |
| PortAllocator.Daemon.FlushPendingOutputs | src/platform/linux/vdsd.cc:1832-1868 | one round over all controllers |
| PortAllocator.Daemon.ReconcileConfigs | src/platform/linux/vdsd.cc:1870-2005 | device list and database taken over |
| PortAllocator.Daemon.TakeOver | src/platform/linux/vdsd.cc:1902-2004 | each record gets what its earlier controller may keep |
| PortAllocator.ActiveIsOther | src/platform/linux/vdsd.cc:1945-1958 | no device is handed on twice, so that test never fires |
| SyncTheorems.ReachableIsGood | src/platform/linux/vdsd.cc:479-569 | over every run and every pattern of blocked sends: a deferred state and its report are set together and agree, and what was sent last is what the controller has |
| SyncTheorems.ForwardSettles | src/platform/linux/vdsd.cc:511-569 | after forwarding, either the current state was sent and nothing waits, or exactly the current state waits |
| SyncTheorems.SettledExactly | src/platform/linux/vdsd.cc:479-569 | a port whose state is sent or waiting stays so after any step, unless the step is a microphone report that changes the state: exactly then it does not |
| SyncTheorems.AlwaysSettledExactly | src/platform/linux/vdsd.cc:479-569 | through any run of a connection, however sends block, the state is sent or waiting at every moment if and only if no microphone report along the run changes the state it finds |
| SyncTheorems.CaughtUpExactly | src/platform/linux/vdsd.cc:479-569 | a port that is behind catches up exactly by forwarding, by an accepted audio packet with nothing deferred, or when a microphone report goes back to what was sent |
| SyncTheorems.OneRoundSuffices | src/platform/linux/vdsd.cc:1832-1868 | from there one unblocked round brings the controller up to date: the bytes it was sent last are those of the current state |
| SyncTheorems.StepTellsExactly | src/platform/linux/vdsd.cc:479-569 | after any step that keeps the microphone's settings the controller has them, read off the bytes it was sent, if and only if the step's own report is accepted, or else the deferred report it sends again carries them, or else it had them before |
| SyncTheorems.MicReachesExactly | src/vds_protocol.cc:751-792 | after a microphone report, accepted or not, and any run that keeps its settings, the controller has them if and only if the newest report it accepted since is not one that was deferred before and carries others; with none accepted since, if it had them before |
| SyncTheorems.MicReachesWhenAccepted | src/platform/linux/vdsd.cc:1140-1150 | with nothing deferred: if and only if the report was accepted, any later one was, or the controller had the settings before |
| SyncTheorems.BlockedMicReportIsNotRetried | src/platform/linux/vdsd.cc:1140-1150 | with nothing else to send, no number of rounds tells the controller of the change if the report was blocked, and it stays told if it was accepted |
| SyncTheorems.DeferredReportUndoesMic | src/platform/linux/vdsd.cc:479-495 | a run in which a deferred state report goes out after an accepted microphone report and undoes it, with nothing left to send |
| SyncTheorems.NoStateIsRepeated | src/platform/linux/vdsd.cc:511-569 | over every run no state report repeats the state the controller was given last, and each carries the first 47 bytes of the state it stands for |
| SyncTheorems.AudioWaitsForState | src/platform/linux/vdsd.cc:1851-1859 | no audio leaves while a state report waits; a packet carries the current state and one of the four newest chunks |
| SyncTheorems.AudioKeepsItsOrder | src/platform/linux/vdsd.cc:1710-1789 | over every run chunks leave in the order they were queued, none twice |
| SyncTheorems.AudioIsPaced | src/platform/linux/vdsd.cc:1710-1789 | within a connection audio packets leave at least ten milliseconds apart |
| SyncTheorems.StepKeeps | src/platform/linux/vdsd.cc:479-632 | every step keeps the invariant |
| SyncTheorems.NumbersRepeatAtSixteen | src/vds_protocol.cc:1111-1121 | report numbers repeat exactly every sixteen reports |
| SyncTheorems.DeferredCarriesState | src/vds_protocol.cc:1111-1121 | over every run a deferred report carries the first 47 bytes of the state it was built for |
| SyncTheorems.LastFullIsShown | src/platform/linux/vdsd.cc:479-569 | the state bytes really sent last are those of the state the port takes for sent |
| SyncOutcome.MicSettingsAre | src/vds_protocol.cc:751-792 | where volume, audio control, mute light, power save and second audio control are in the state |
| SyncOutcome.MicStreamTells | src/platform/linux/vdsd.cc:669-681 | the settings' report, then the switch, each logged exactly if it is accepted |
| SyncOutcome.ReportsAreNumbered | src/vds_protocol.cc:1111-1121 | each step builds at most one state report, which takes the next number modulo sixteen whether it is accepted or not; a report sent again keeps its number |
| SyncOutcome.PushKeepsLast | src/platform/linux/vdsd.cc:944-952 | the queue keeps the last eight of old and new chunks |
| SyncOutcome.RoundMovesAudio | src/platform/linux/vdsd.cc:1710-1830 | one round: nothing behind a blocked report; otherwise the tone into an empty queue, and when a packet is due the first of the last four chunks goes, the next time being ten milliseconds on or two after a blocked send |
| SyncOutcome.QueueIsEmptied | src/platform/linux/vdsd.cc:589-681 | no other step adds audio; which ones empty the queue and the send time |
| SyncOutcome.StateMoves | src/platform/linux/vdsd.cc:589-953 | what each step does to the state, the tone and the connection |
| SyncOutcome.ConnectionStarts | src/platform/linux/vdsd.cc:1541-1546 | a connection starts with the initial state sent and nothing deferred |
| SyncOutcome.ConnectionEnds | src/platform/linux/vdsd.cc:1402-1419 | a lost connection forgets what was deferred; a controller taken away leaves it |
| BtState.VirtualPort.FlushPendingState | src/platform/linux/vdsd.cc:479-509 | the deferred report goes out or stays |
| BtState.VirtualPort.ForwardStateIfChanged | src/platform/linux/vdsd.cc:511-569 | all its branches; under the invariant it settles the port, and the report sent or deferred carries the first 47 bytes of its state |
| BtState.VirtualPort.SendMicState | src/platform/linux/vdsd.cc:1140-1150 | the invariant is kept, and the controller is told the new settings exactly if the report is accepted; nothing is kept for later |
| BtState.VirtualPort.PushAudio | src/platform/linux/vdsd.cc:944-952 | the queue keeps the eight newest chunks |
| BtState.VirtualPort.EnqueueTone | src/platform/linux/vdsd.cc:1791-1830 | tone chunks go into an empty queue, up to eight |
| BtState.VirtualPort.DropStale | src/platform/linux/vdsd.cc:1724-1731 | all but the four newest go |
| BtState.VirtualPort.FlushAudio | src/platform/linux/vdsd.cc:1710-1789 | one audio packet, sent or blocked; the chunk leaves the queue either way |
| BtState.VirtualPort.FlushOutputs | src/platform/linux/vdsd.cc:1849-1860 | state first, then audio |
| BtState.VirtualPort.HandleStateChange | src/platform/linux/vdsd.cc:736-759 | a change of state is forwarded to a connected controller |
| BtState.VirtualPort.HandleToneRoute | src/platform/linux/vdsd.cc:862-880 | the test tone's route |
| BtState.VirtualPort.HandleMicChange | src/platform/linux/vdsd.cc:1136-1150 | a mute or headset change: one report, the invariant kept |
| BtState.VirtualPort.HandleMicStream | src/platform/linux/vdsd.cc:669-681 | the microphone interface: the settings, then the report that opens or closes it; the invariant kept |
| BtState.VirtualPort.HandleAudioOut | src/platform/linux/vdsd.cc:905-953 | audio is dropped without a controller |
| BtState.VirtualPort.HandleStreamOff | src/platform/linux/vdsd.cc:659-663 | closing the stream empties the queue |
| BtState.VirtualPort.Reset | src/platform/linux/vdsd.cc:589-613 | a port without a controller is back in its first state, still in the invariant with all it ever sent |
| BtState.VirtualPort.CompleteConnection | src/platform/linux/vdsd.cc:1541-1546 | a new connection starts from the initial state, sent |
| BtState.VirtualPort.DropBackend | src/platform/linux/vdsd.cc:1402-1419 | a lost connection forgets what waited |
| BtState.VirtualPort.ReleaseBackend | src/platform/linux/vdsd.cc:1959-1973 | a changed database takes the controller away; what was deferred stays until the next connection |
| OutputTheorems.ReportsAreConserved | src/platform/win32/vds_bt.cc:711-840 | in every run: queued equals pending, active, completed, coalesced, audio errors, at most one fatal error and what stopping discarded (nothing before stop); at most 64 pending, at most one of them audio |
| OutputTheorems.OneFateEach | src/platform/win32/vds_bt.cc:711-858 | every accepted report is queued, being written or has met one fate, exactly once |
| OutputTheorems.WrittenInOrder | src/platform/win32/vds_bt.cc:783-840 | reports are written in the order they were accepted |
| OutputTheorems.OnlyAudioGivesWay | src/platform/win32/vds_bt.cc:723-748 | only audio is discarded from the queue, and only for a later audio report that was accepted |
| OutputTheorems.NothingIsOvertaken | src/platform/win32/vds_bt.cc:783-840 | once a report has been started, every earlier report that is not audio was started before it |
| OutputTheorems.StepKeeps | src/platform/win32/vds_bt.cc:711-858 | every critical section keeps the invariant |
| OutputTheorems.NoSecondAudio | src/platform/win32/vds_bt.cc:735-748 | discarding the oldest queued audio report leaves none |
| OutputOutcome.ReportIsQueued | src/platform/win32/vds_bt.cc:711-770 | a report is refused without a change, counted as rejected when there is no room, or queued last, filled up with zeros; an audio report takes the place of the oldest queued one |
| OutputOutcome.AcceptedAsOffered | src/platform/win32/vds_bt.cc:699-770 | over any run the n-th accepted report is the n-th that was neither refused nor rejected, with its bytes and zeros behind them |
| OutputOutcome.OutcomeIsRecorded | src/platform/win32/vds_bt.cc:810-838 | how writing ended is recorded; only a report that is not audio stops the writer by failing |
| OutputOutcome.OldestIsTaken | src/platform/win32/vds_bt.cc:786-797 | the oldest report is taken, by a writer that has neither failed nor been stopped |
| OutputOutcome.StopDiscards | src/platform/win32/vds_bt.cc:842-858 | stopping discards what waits, in order, once |
| OutputWriter.Transport.MakeOutputWrite | src/platform/win32/vds_bt.cc:699-709 | a report padded to the device's length, or refused |
| OutputWriter.Transport.CoalesceOldestAudio | src/platform/win32/vds_bt.cc:723-734 | removes the oldest queued audio report |
| OutputWriter.Transport.MakeRoomForAudio | src/platform/win32/vds_bt.cc:735-748 | leaves no queued audio |
| OutputWriter.Transport.Admit | src/platform/win32/vds_bt.cc:716-767 | the section under the mutex: replaced and queued, queued, or rejected |
| OutputWriter.Transport.EnqueueOutputReport | src/platform/win32/vds_bt.cc:711-770 | accepted, rejected exactly when full of other reports, or an error that changes nothing |
| OutputWriter.Transport.TakeWrite | src/platform/win32/vds_bt.cc:786-797 | the oldest report becomes active |
| OutputWriter.Transport.WriteBuffer | src/platform/win32/vds_bt.cc:799-809 | the partial-write loop sends the whole buffer, or a prefix and reports failure |
| OutputWriter.Transport.FinishWrite | src/platform/win32/vds_bt.cc:810-838 | counts the outcome; only audio may fail softly |
| OutputWriter.Transport.StopOutputWriter | src/platform/win32/vds_bt.cc:842-858 | discards what is pending, once |

## Left out

- Host controller: linking a request and putting it on a list, two locked sections in the source, are one step here; so are the cache update and the completion of a feature reply, the locks a control request takes in turn, and the delivery of all frames of one OUT transfer. A request is never cancelled between linking and listing.
- Host controller: requests are values identified by a serial number that the class keeps in one record field; the pointers of the intrusive lists and their aliasing are not captured.
- Host controller: control requests other than feature reads and writes are reduced to their result; descriptors, root-hub ports, SET_INTERFACE events, probe and remove are not modelled. The answers of the USB core to linking and unlinking are inputs.
- Host controller: the test for a stopping driver at the start of a user write, allocation failures and faults in copies to user memory.
- HcdDevice.Device.ChangeProfile: unknown profile numbers are not modelled.
- SBC encoder: the analysis filter, joint-stereo selection and the floating-point quantization; the model starts from scale factors of 0 to 15 and integer samples before clamping.
- SBC bit stream: `Reset` is modelled as a new object, `GetFixedBits` is left out.
- JSONL: bytes are characters; error texts carry no context; booleans are left out, since the parser does not read them.
- ConfigTheorems.SortIsSorted: the library's sort is modelled as an insertion sort with the same result.
- Config database: file locking, the temporary file and its rename; a file is its text.
- Ports: a port's path is its number; listing devices and opening ports succeed; whether connecting works is an input; `candidate` and `occupied` lists are searched by membership, not by binary search.
- PcmExtractor.Extractor.PushAndResample: resamples the windows once all of a push are cut, where the source resamples each as it fills; Opus encoding of the speaker block is left out.
- BtState.VirtualPort.SendMicState: what the report says is what the new state says of volume, audio control, mute light, power save and second audio control; how mute and headset change the state, and the enable flags that go with each field, are inputs.
- State forwarding: how an output report changes the state is an input, as is what the tone generator produces; a send that throws is a disconnect. Trace counters and latencies are left out.
- HID output writer: waiting for the queue to drain, the condition variable, overlapped I/O and the diagnostics text; counters are unbounded.
- Sockets, epoll, D-Bus, udev, the GUI, services, trigger effects, logging and the command-line tools.
