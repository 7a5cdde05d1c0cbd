# Stearlight transport, slot hand-off, settings editor and status server: a Dafny model

This project models the parts of the Stearlight VR streaming system where state, arithmetic and
concurrency meet, and proves what they are for.

**Video transport.** `PacketizerThread` cuts an HEVC byte stream into access units, splits each
into 1164-byte shards in groups of at most ten, adds two parity shards per group and sends each
shard behind a 36-byte header. The receiver reassembles frames in sixteen slots, repairs groups
from parity, skips ahead after 80 ms, waits for keyframes and starts over when the session changes.
The model has both sides in imperative form (`Sender.Packetizer`, `Receiver.SvrtPipe`, the field
and erasure code over byte arrays), and the receiver a second time as a state machine on values
(`Reassembly`). The class is proved equal to the state machine step by step, and the theorems are
about all runs of the state machine. They end in `Transport.StreamDelivered`: however the encoder's
output is cut into reads and whatever datagrams are lost, repeated or reordered, the decoder is
given access units of the stream, whole, unchanged, in increasing order, a keyframe first and after
every gap. `Interleaving.InterleavedStreamIsShown` is its counterpart: if enough of every frame
arrives in time, interleaved at will, the decoder is given all of them from the first keyframe on. In
between, `FrameLife` follows one frame through the receiver and says exactly when it is complete,
shown, discarded or given up, `Deadlines` does so for a frame of which nothing arrives, `Refusals` and
`Counters` say what becomes of datagrams that do not belong, `Continuity` what the reader is told of
gaps and new sessions, `Liveness` what is shown of frames that come one behind the other, and
`Sessions` puts any number of sessions together.

The state machine is written once for two numberings of frames (`FrameIds`): the 32-bit numbers of
the wire, which wrap, and unbounded ones. Most theorems hold of both; `Wraparound.RunWraps` shows
that the two agree step for step while the compared numbers are less than 2^31 apart.

**Capture.** `CapturePacing` is the capture clock with its catch-up rule, `SlotHandoff` the three
staging slots that producers fill under a mutex and the encoder worker reads outside it, as a
transition system with every interleaving, and `HandoffProgress` shows that the newest frame is
never lost in it and can always be written, and that nobody is shut out: a frame can be captured while
the worker reads another.

**Settings.** `JsonScanner`, `JsonText`, `JsonStrings`, `DriverSettings`, `DriverContents`,
`DriverUpdate`, `SectionSearch`, `DriverCondition`, `DriverReaders`, `DriverFailures`,
`SettingsFile`, `MemberEdit`, `ObjectUpdate`, `Readers`, `EditCondition`, `RepeatedEdit`,
`EditFailures`, `ObjectParsing`, `Sections`, `Repairs`, `RepairOnce` and `SettingsWrite` are the
hand-written scanners, the printer, the in-place edits and the two regular expressions of
`utility/config.cpp`. `JsonGrammar` and `JsonFile` are the grammar of RFC 8259, and what the edits do to
any text of it. `JsonText.Text` and
`ObjectUpdate.Doc` describe object text by its structure, including every blank, so that an edit of
text can be compared with an update of members; `ObjectParsing.DocUnique` says that a text has one
such structure only. `SettingsWrite.SecondWriteIsIdle` is about the whole of
`write_steamvr_settings`: what each section reads as afterwards, and that writing again changes
nothing.

**Status server.** `ClientDrain` is the listener, any number of detached client threads and
`svrt_status_server_stop`, as steps on one mutex, one counter and one condition variable: what stop
waits for, that it returns, and that until it is called one connection more can always be served.

Bytes are integers from 0 to 255 and exclusive or is defined bit by bit. Times, datagrams, chunks
and random session numbers are inputs.

Some promises of the code hold only under a condition, and the model says which.

- The inserted settings section is found again exactly when the scanner was in the root object where
  it went: `SettingsFile.InsertedIsFound`, with a text that fails in `StrayBraceHidesSection`.
- `set_value` does not enter a string value that reads like the key (utility/config.cpp:91), and
  from there on takes the inside of strings for the outside. With such a string it can miss a key
  that is there and add it a second time (`EditFailures.StrayDefeatsEdit`), it can overwrite the
  value of another member whose key only ends like one that is not there
  (`EditFailures.EscapedQuoteDefeatsEdit`), and it can add a key correctly and add it again at the
  next edit, so that the file grows (`EditFailures.StrayMakesEditGrow`). No such string before the
  key is a plain sufficient condition (`ObjectUpdate.EditIsUpdate`, and `JsonGrammar.SetsJson` for JSON). The exact conditions are on the
  text. One edit is right for all values if and only if the first position at which the scan,
  outside quotes and at depth one, stands before the quoted key, blanks and a colon is that of the
  key's first member, or there is no such position where no member has the key
  (`EditCondition.UpdatesExactlyWhen`). It is right and a second edit changes nothing if and only if
  besides, where no member has the key, the scan ends outside quotes and at depth one at the closing
  brace (`RepeatedEdit.SettlesExactlyWhen`, for keys that JSON carries without escapes).
- Writing the driver's section updates the file's object, for all settings, if and only if the first
  position at which, at depth one and outside quotes, the quoted key, a colon and a closed pair of
  braces stand is that of the first member driver_svrt, which is one object, or there is no such
  position where no member has that key (`DriverCondition.UpdatesExactlyWhen`). With no quote or
  closing brace in front of the object and no quote behind it, that is so if and only if the first
  member driver_svrt, if there is one, is an object, and no value in front of it holds such a section
  inside square brackets or loose text (`DriverCondition.UpdatesWherePlain`). In JSON no value does, so
  for every JSON file it comes down to the first member driver_svrt being an object, if there is one
  (`JsonFile.WritesJsonExactlyWhen`).
- What readers find is told for all of them. RFC 8259, section 4, leaves open what becomes of several
  members with one name, and the reader of SteamVR is not in the repository. So keys are compared as
  section 7 reads them, with escapes taken back, and `Readers.Values` is the list of all values under
  a key: some readers keep the first, some the last, some refuse more than one. Every reader finds the
  driver's section, for all settings, if and only if the write is the update and at most one member
  was read as driver_svrt, and that one spells it without escapes (`DriverReaders.EveryReaderFinds`).
  Otherwise it fails those that keep the first or those that keep the last:
  `{"driver_svrt":1}` and `{"driver\u005fsvrt":1}` get a second member that the first readers do not
  see, in `{"driver_svrt":1,"driver_svrt":{}}` the second one is exchanged, and in
  `{"driver_svrt":{},"driver_svrt":1}` the first, which the last readers do not see
  (`DriverFailures.NumberHidesSection`, `EscapeHidesSection`, `NumberHidesObject`,
  `NumberBehindHides`). The same holds of `set_value`: where the edit is the update, every reader
  finds the value if and only if at most one member was read as the key, spelled plainly
  (`Readers.UpdateReaches`, `ObjectParsing.EditedReads`); in `{"k":5,"k":7}` the 7 stays behind
  (`EditFailures.DuplicateIsKept`).
- A change of session is told twice: the decoder is reset in front of the next frame, and as the
  reader then does not ask for the other mark, the notice that continuity is restored comes with a
  later frame (`Continuity.ReaderIsTold`).
- A datagram that is refused or ignored can still take a slot. In a session, for a frame not yet
  passed, it leaves the slots as they were if and only if its frame has a slot or none is free
  (`Refusals.TurnedAwayKeepsSlots`); where its frame has none and one is free, what is turned away is
  a datagram that contradicts itself or a parity shard of the wrong length, the latter not counted
  invalid (`Refusals.TurnedAwayExactly`).
- One pass of the regular expressions does not always leave text without a match. The second leaves
  two of three commas (`Repairs.CommasNeedTwoPasses`), and leaves none side by side if and only if
  there were no three with only blanks between (`RepairOnce.CollapsedExactly`). The first takes
  `\n\n.0.0` to `\n.0`, which it would take to nothing (`Repairs.ZerosNeedTwoPasses`). The exact
  conditions for one pass are `RepairOnce.RemovedExactly` for it and `RepairedExactly` for both, on
  the text as it was read, and `SettingsWrite.SecondWriteIsIdle` is about steamvr sections that meet
  them.
- The erasure code does not recover from any ten of the twelve shards: `Fec.ExactRecovery` gives the
  patterns it does recover. The receiver recovers a group only when a parity shard arrives, so what
  counts is what has arrived by then: `Completion.CompletionInAnyOrder` is exact for every order of
  arrival, and `EarlyParityIsWasted` gives arrivals from which a group could be recovered and is not,
  as long as no parity shard is repeated and the missing data shard does not come.

## Model

| member | source | states |
|---|---|---|
| Field.MulIsRemainder | protocol/stearlight_protocol.c:99-109 | the shift-and-xor product of two bytes is the remainder of their carry-less product divided by 0x11d |
| Field.RemainderUnique | protocol/stearlight_protocol.c:105 | division by 0x11d leaves one remainder only, so the product is the one in the field |
| Field.MulCommutative | protocol/stearlight_protocol.c:99-109 | the product is commutative |
| Field.MulAssociative | protocol/stearlight_protocol.c:99-109 | the product is associative |
| Field.MulDistributes | protocol/stearlight_protocol.c:99-109 | the product distributes over exclusive or on both sides |
| Field.PowHalves | protocol/stearlight_protocol.c:111-119 | the step of squaring and halving computes the n-fold product |
| Field.InverseByPower | protocol/stearlight_protocol.c:121-123 | y to the 254th is the inverse of every nonzero y |
| Field.DivThenMul | protocol/stearlight_protocol.c:121-123 | dividing by a nonzero byte and multiplying again gives the dividend back |
| Field.MulThenDiv | protocol/stearlight_protocol.c:121-123 | multiplying and dividing again gives the factor back |
| Field.GfMul | protocol/stearlight_protocol.c:99-109 | the loop returns the field product |
| Field.GfPow | protocol/stearlight_protocol.c:111-119 | the loop returns the n-fold product, for every n |
| Field.GfDiv | protocol/stearlight_protocol.c:121-123 | returns the quotient |
| Fec.EncodeParity | protocol/stearlight_protocol.c:125-137 | fills both parity buffers with the plain and the weighted sum of the shards, in place |
| Fec.FindMissing | protocol/stearlight_protocol.c:144-150 | counts the absent shards and finds the first two, or gives up on a third |
| Fec.RepairBytes | protocol/stearlight_protocol.c:153-172 | writes the one or two absent shards byte by byte and nothing else |
| Fec.RecoverInPlace | protocol/stearlight_protocol.c:139-174 | repairs the absent shards where they lie and returns their number, or returns -1 with every byte unchanged |
| Fec.ExactRecovery | protocol/stearlight_protocol.c:139-174 | of encoded data, exactly the patterns with none absent, one absent and parity 0, or two absent and both parities are recovered, and then every shard is the original |
| Fec.ParityChanges | protocol/stearlight_protocol.c:130-136 | in whatever shards the i-th is exchanged for another, each byte of the plain parity changes by the difference and of the weighted one by i + 1 times the difference |
| Fec.ParityOfZeros | protocol/stearlight_protocol.c:128-136 | the parities of zeros are zeros; with the row above this fixes all parities |
| Wire.EncodeThenDecode | protocol/stearlight_protocol.c:21-76 | every header the encoder accepts is decoded to what was encoded |
| Wire.DecodeThenEncode | protocol/stearlight_protocol.c:47-76 | every accepted header is re-encoded to its own 36 bytes, the reserved byte being zero |
| Wire.DecodesExactly | protocol/stearlight_protocol.c:47-76 | a datagram decodes to a header exactly if it bears that header byte for byte, magic "STAR", version 2, type 1 and every field in network order at its offset, with allowed values, and is as long as it says |
| Wire.EncodesExactly | protocol/stearlight_protocol.c:21-45 | exactly headers with allowed values are encoded, byte for byte so, the reserved byte as 0 |
| Reassembly.FromWire | pipe/pipe.c:117-119 | a datagram that decodes carries a session, a frame of 1 byte to 8 MiB, 1 to 10 data shards, and a payload that fits a shard |
| Reassembly.Ready | pipe/pipe.c:179-217 | the loop ends for every state, on 32 bits too: it frees a slot or catches up with the newest frame on each turn; what it returns is a complete frame |
| ReassemblyInvariant.CompleteMeansPresent | pipe/pipe.c:186 | counting received shards up to the shard count means that every one is present |
| ReassemblyInvariant.SlotForFinds | pipe/pipe.c:65-75 | the search finds the only slot of the frame, a free slot if there is none, and fails only when all sixteen hold other frames |
| ReassemblyInvariant.PlaceShape | pipe/pipe.c:141-176 | a datagram touches one slot, whose frame keeps its identity and never loses a shard |
| ReassemblyInvariant.AcceptValid | pipe/pipe.c:117-177 | every datagram keeps the reassembly invariant: slots well formed, of the session in progress, with distinct numbers, none older than the next frame, received counts equal to presence flags |
| ReassemblyInvariant.ReadValid | pipe/pipe.c:179-217 | a poll with its delivery keeps the invariant |
| ReassemblyInvariant.StepValid | pipe/pipe.c:270-289 | every event keeps the invariant |
| ReassemblyInvariant.Run | pipe/pipe.c:270-289 | every reachable state satisfies the invariant |
| Integrity.RecoveredShards | pipe/pipe.c:94-115 | recovery puts the sender's own shards in place and counts them, or changes nothing |
| Integrity.StoreFaithful | pipe/pipe.c:141-173 | a sender's datagram is never refused by its own frame, and leaves every present shard the zero-padded original and every stored parity the encoder's |
| Integrity.CompleteDelivers | pipe/pipe.c:281-286 | a complete frame is delivered with exactly the bytes, time and keyframe mark that were sent |
| Integrity.PlaceFaithful | pipe/pipe.c:141-176 | a sender's datagram is counted invalid exactly when no slot can be found for it |
| Integrity.RunIsIntact | pipe/pipe.c:117-217 | under any loss, duplication, reordering and garbage every delivery is exactly a frame that was sent |
| DeliveryOrder.ReadMoves | pipe/pipe.c:179-217 | a poll delivers the next frame, or a keyframe if it waits for one or passed others |
| DeliveryOrder.ReadConserves | pipe/pipe.c:179-217 | every number a poll passes was delivered, discarded as non-key, or counted expired |
| DeliveryOrder.RunIsOrdered | pipe/pipe.c:120-140 | in every run the first delivery of a session is a keyframe, each further one is the successor of the last or a keyframe, and unbounded numbers increase |
| DeliveryOrder.FromInitial | pipe/pipe.c:227-233 | the same from a newly opened pipe |
| DeliveryOrder.SessionConserves | pipe/pipe.c:179-217 | over a session the advance of next_frame is the frames delivered plus the complete frames discarded plus the growth of expired_frames |
| Wraparound.NewerIsOrder | pipe/pipe.c:63 | newer on 32 bits is the order of two numbers less than 2^31 apart, as in section 3.2 of RFC 1982 |
| Wraparound.StepWraps | pipe/pipe.c:134-217 | one step of the 32-bit receiver is one step of the unbounded one, modulo 2^32 |
| Wraparound.RunWraps | pipe/pipe.c:134-217 | the same over every run and any number of wraps, deliveries included |
| Wraparound.RunIsIntactAcrossWraps | pipe/pipe.c:117-217 | across wraps each delivery is still a frame that was sent |
| Starvation.RunIsLed | pipe/pipe.c:174-176 | with the sender's datagrams no occupied slot is ever newer than newest_frame |
| Starvation.SkipCures | pipe/pipe.c:194-213 | after a poll that skips at most one slot is occupied, and delivery waits at the newest frame, or behind it if it was complete |
| Starvation.SkipCuresWrapped | pipe/pipe.c:194-213 | the same for 32-bit numbers in the window |
| Completion.CompletionInAnyOrder | pipe/pipe.c:151-173 | with any losses, repetitions and order, a frame is complete exactly when of every group all data shards arrived, or a parity shard arrived when the group was recoverable from what had arrived |
| Completion.GatheredInSendOrder | pipe/pipe.c:165-173 | for a group in send order that is so exactly when it lost nothing, or one shard and kept parity 0, or two and kept both |
| Completion.CompletionInSendOrder | pipe/pipe.c:151-173 | with groups interleaved at will and each in send order, a frame is complete exactly when every group lost no more than its parity repairs |
| Completion.EarlyParityIsWasted | pipe/pipe.c:165-173 | for every group of two or more shards there is an order of arrival in which it is recoverable and is not recovered, because its parity came first |
| FrameLife.CompletionInReceiver | pipe/pipe.c:117-217 | inside the receiver, with other datagrams, garbage and polls at will: from the datagram that opens its slot, which may be the first of a session, and as long as it is in it, a frame is complete exactly when every group is gathered from what arrived |
| FrameLife.PollDecides | pipe/pipe.c:177-213 | a poll delivers a frame only as sent and only when all groups are gathered; when its number is due it is delivered then if it is a keyframe or none is needed, discarded if one is needed, and otherwise given up exactly when a newer number is known and 80 ms have passed, modulo 2^64, since its first datagram came |
| FrameLife.FirstPacketIs | pipe/pipe.c:80 | through any other events a frame keeps the time at which its first datagram came |
| Deadlines.DueWithoutSlot | pipe/pipe.c:194-212 | if nothing of the frame that is due is in a slot: it is given up exactly when a newer number is known and 80 ms have passed since the poll or the datagram that last moved delivery, on either numbering; before, a poll does nothing |
| Deadlines.NewestKeyframeIsShown | pipe/pipe.c:194-213 | if a newer number is known, the due frame is overdue, and the newest frame is a complete keyframe, the next poll delivers that one and goes on behind it, whatever else was lost |
| Deadlines.PollStamps | pipe/pipe.c:187-211 | a poll does nothing, or it moves delivery to another number and stamps the time |
| FrameLife.WholeInSendOrder | pipe/pipe.c:165-173 | for a frame in the receiver whose datagrams came in send order that is so exactly when no group lost more than the parity shards that came can repair |
| Sessions.LeavesOnAnyFeed | pipe/pipe.c:120-217 | whatever has arrived since power-on, on 32-bit numbers, a frame leaves its slot only when delivery passes its number or a datagram of another session arrives |
| Continuity.MarksAre | pipe/pipe.c:120-131 | over any run: a reset of the decoder is asked for exactly if a datagram came of another session than the one in progress, and a gap is to be told exactly if that came, or the first datagram, or a poll gave frames up; nothing takes either back |
| Continuity.ReaderIsTold | lib/svrt.c:219 | with its reader: the decoder is reset in front of a frame exactly if the session changed since the frame before it, and continuity is told restored exactly if it is not, but there is a gap not yet told |
| Continuity.ReaderIsToldFromPowerOn | lib/svrt.c:219 | from power-on so, with nothing to tell before the first datagram |
| Refusals.RefusedExactly | pipe/pipe.c:142-173 | against whatever has arrived of a frame, a datagram is refused exactly if it disagrees with the frame sent in size, time, groups or the length of a data shard, and ignored exactly if it is a parity shard of another length |
| Refusals.RefusedInReceiver | pipe/pipe.c:138-173 | in the receiver a refused datagram changes nothing but the counter, an ignored one nothing, and any other is stored |
| Refusals.FirstCopyStays | pipe/pipe.c:157-168 | a data shard that is there and a parity shard that is held are not replaced by another copy |
| Refusals.TurnedAwayKeepsSlots | pipe/pipe.c:138-164 | in a session, a datagram for a frame not yet passed that is refused or ignored leaves the slots as they were if and only if its frame has a slot or none is free; else the first free slot holds its frame with nothing received, and it is counted invalid exactly if it contradicts itself |
| Refusals.TurnedAwayExactly | pipe/pipe.c:138-164 | where its frame has no slot and one is free, it is refused or ignored exactly if its group, number of data shards or data length is not that of a frame of its size, or it is a parity shard of the wrong length |
| Counters.InvalidCounts | pipe/pipe.c:117-173 | with well-formed senders the counter of invalid datagrams is the number of those that do not decode and of those that find none of the sixteen slots |
| Counters.RecoveredCounts | pipe/pipe.c:110-113 | the counter of recovered shards grows by the shards that are there after a parity shard and were not before |
| Counters.CountersGrow | pipe/pipe.c:117-213 | through any run, changes of session included, no counter goes back |
| ReceiverSlot.VideoFrame.Open | pipe/pipe.c:76-91 | a slot is labelled and gets zeroed buffers of its shard and group counts |
| ReceiverSlot.VideoFrame.StoreShard | pipe/pipe.c:157-160 | a data shard is copied to its place and counted unless it is there already |
| ReceiverSlot.VideoFrame.KeepParity | pipe/pipe.c:165-171 | a parity shard is kept in a buffer of its own unless one is held |
| ReceiverSlot.VideoFrame.RecoverShards | pipe/pipe.c:94-115 | the recovered group is written in place, marked and counted |
| ReceiverSlot.VideoFrame.CopyOut | pipe/pipe.c:284 | the bytes copied out are the frame's contents without padding |
| Receiver.SvrtPipe.EnterSession | pipe/pipe.c:120-132 | another session frees every slot and asks for a keyframe, the first one only asks for it |
| Receiver.SvrtPipe.Judge | pipe/pipe.c:142-164 | the checks on a datagram refuse, ignore or place it as the specification says |
| Receiver.SvrtPipe.AcceptDatagram | pipe/pipe.c:117-177 | the object moves exactly as the state machine does, for all bytes and times |
| Receiver.SvrtPipe.SkipStale | pipe/pipe.c:202-212 | the stale run is freed, counted and passed in one operation |
| Receiver.SvrtPipe.ReadyFrame | pipe/pipe.c:179-217 | the loop over the slots ends where the specification says |
| Receiver.SvrtPipe.ReadFrame | pipe/pipe.c:281-286 | a poll delivers, and leaves the object, as the state machine does |
| Receiver.SvrtPipe.TakeDecoderReset | pipe/pipe.c:292 | the mark is returned and cleared, and nothing else changes |
| Receiver.SvrtPipe.TakeDiscontinuity | pipe/pipe.c:291 | the same for the other mark |
| Receiver.SvrtPipe.TakeNotice | lib/svrt.c:219 | the reader asks for the second mark only if the first is not set |
| Splitter.AudStart | steamvr-driver/direct_mode.cpp:297-299 | finds the first access unit delimiter at or after a position, NAL type 35 of section 7.4.2.2 of ITU-T H.265 |
| Splitter.IsKeyframe | steamvr-driver/direct_mode.cpp:302 | true exactly when the frame holds a NAL unit of type 16 to 21 |
| Splitter.FramesMakeStream | steamvr-driver/direct_mode.cpp:315-316 | the frames, none empty, concatenate to the whole stream |
| Splitter.FramesStartAtDelimiters | steamvr-driver/direct_mode.cpp:315 | every frame but the first starts at a delimiter |
| Splitter.NoDelimiterInside | steamvr-driver/direct_mode.cpp:315 | a second delimiter always makes a cut: no frame, the first and the last included, holds a delimiter four bytes or more behind another |
| Splitter.ChunksDoNotMatter | steamvr-driver/direct_mode.cpp:315-316 | a run that does not fail hands on the frames of the whole stream, however it was read |
| Splitter.SameFramesForAllChunkings | steamvr-driver/direct_mode.cpp:315-316 | two ways of reading the same stream hand on the same frames |
| Splitter.FailsWhere | steamvr-driver/direct_mode.cpp:315 | a run that fails does so at the first chunk with which an access unit, or what is kept of the next, is longer than 8 MiB, and the units before that one are handed on |
| Splitter.NeverTooLong | steamvr-driver/direct_mode.cpp:315 | a run that does not fail never meets such a chunk |
| Splitter.AudBytes | steamvr-driver/direct_mode.cpp:297-298 | the bytes that make an access unit delimiter: a start code and a header of type 35 |
| Splitter.KeyBytes | steamvr-driver/direct_mode.cpp:302 | the bytes that make a frame a keyframe: a start code and a header of a type from 16 to 21 |
| Splitter.KeyframeBytes | steamvr-driver/direct_mode.cpp:302 | a frame is marked as a keyframe exactly if these bytes stand anywhere in it: a start code of three or four bytes and a header byte from 32 to 43 or from 160 to 171 |
| Splitter.KeyframeBehind | steamvr-driver/direct_mode.cpp:302 | nothing in front of them takes the mark away, so a delimiter before the picture does not |
| Sender.DatagramAgrees | steamvr-driver/direct_mode.cpp:305-312 | every datagram of a frame of 1 byte to 8 MiB is at most 1200 bytes, its group number fits 16 bits, and the receiver decodes it to the packet meant |
| Sender.DatagramMarks | steamvr-driver/direct_mode.cpp:309-311 | the first flag of the header marks keyframes and the second parity shards, of which it announces two |
| Sender.WiredIsDatagrams | steamvr-driver/direct_mode.cpp:307-312 | a frame's datagrams on the wire are exactly those of its data and parity shards |
| Sender.WiredInOrder | steamvr-driver/direct_mode.cpp:307-312 | datagram i of group g goes out at place 12g + i: group by group, its data shards and then the two parity shards, and nothing else |
| Sender.SessionWireInOrder | steamvr-driver/direct_mode.cpp:303-314 | behind the datagrams of the first k frames go out those of the next, under the number k + 1 |
| Sender.Packetizer.SendData | steamvr-driver/direct_mode.cpp:308-309 | a group's data shards are sent and left zero-padded in its storage |
| Sender.Packetizer.SendParity | steamvr-driver/direct_mode.cpp:310-311 | the encoder's two parity shards follow |
| Sender.Packetizer.SendFrame | steamvr-driver/direct_mode.cpp:303-314 | an empty or oversized frame is refused, any other takes the next number and all its datagrams go out in order |
| Sender.Packetizer.Drain | steamvr-driver/direct_mode.cpp:315 | every complete access unit is sent, up to one that is refused, and the rest is kept |
| Sender.Packetizer.Run | steamvr-driver/direct_mode.cpp:300-317 | the thread hands on exactly the frames of the specification, each with the time it was handed on, and the wire carries their datagrams |
| Transport.WireIsDatagrams | steamvr-driver/direct_mode.cpp:303-314 | the wire of a session carries exactly the datagrams of its frames, numbered from 1 modulo 2^32 |
| Transport.SeenIsWrapped | protocol/stearlight_protocol.c:47-76 | decoding what was sent gives the packet meant, its number modulo 2^32 |
| Transport.EndToEnd | pipe/pipe.c:117-217 | over any sessions and wraps each delivery is a frame some sender sent, with its bytes, time and keyframe mark |
| Sessions.AnySessionsShown | pipe/pipe.c:117-217 | for any number of sessions, one after another or mixed, on 32-bit numbers from power-on: between two changes of session the deliveries are frames of one session in sending order, none twice, and each that is no keyframe is the successor of the one before |
| Sessions.SkipCuresAnyFeed | pipe/pipe.c:194-213 | whatever has arrived since power-on, a poll that skips leaves at most one slot occupied and delivery at the newest frame or just behind it |
| Transport.ShortSessionsAreTimely | pipe/pipe.c:63 | sessions of fewer than 2^31 frames never leave the window in which numbers compare correctly |
| Transport.StreamDelivered | steamvr-driver/direct_mode.cpp:300-317 | from the encoder's stream to the decoder: deliveries are access units of the stream, unchanged and in order, for every chunking and every loss |
| Transport.CountedInvalid | pipe/pipe.c:138-173 | the receiver counts a sender's datagram invalid exactly when its frame has no slot and none is free |
| Liveness.FrameArrives | pipe/pipe.c:117-217 | a frame of which every group is gathered, polled behind each datagram, is shown exactly once or, if it is no keyframe and one is needed, discarded; what comes of it later changes nothing |
| Liveness.EveryFrameIsShown | pipe/pipe.c:117-217 | if that holds of all frames of a session, one behind the other and each datagram with a poll behind it, every frame from the first keyframe on is delivered, as sent and in order, at whatever times and over any number of wraps |
| Liveness.AllDataIsEnough | pipe/pipe.c:156-161 | it holds whenever all data shards arrive |
| Liveness.StreamIsShown | steamvr-driver/direct_mode.cpp:300-317 | from the encoder's stream to the decoder: then every access unit from the first with a keyframe on is delivered, for every chunking |
| Interleaving.EventFollows | pipe/pipe.c:117-217 | with frames interleaved at will, every event moves delivery, the keyframe gate, the deadline and the slots as the arrivals alone say, as long as no datagram comes sixteen frames ahead of the due one and no due frame is unfinished after 80 ms with something newer there |
| Interleaving.InterleavedFramesAreShown | pipe/pipe.c:117-217 | under these conditions, with losses, repetitions, noise and polls at will: once every frame can be put together and as many polls have followed as there are frames, every frame from the first keyframe on has been delivered, as sent and in order, over any number of wraps |
| Interleaving.InterleavedStreamIsShown | steamvr-driver/direct_mode.cpp:300-317 | so the decoder is given every access unit of the stream from the first with a keyframe on, for every chunking |
| CapturePacing.CaptureClock.Admit | steamvr-driver/direct_mode.cpp:179-183 | a call before the clock is refused; otherwise the clock moves one interval on, or restarts from now when it lags more than two |
| CapturePacing.CaptureClock.Reset | steamvr-driver/direct_mode.cpp:349 | a disconnect stops the clock, so that the next call is admitted |
| CapturePacing.RateBound | steamvr-driver/direct_mode.cpp:179-183 | between two times at most three captures more than intervals are admitted, for any calls and any clock, without a reset |
| CapturePacing.RateBoundIsReached | steamvr-driver/direct_mode.cpp:179-183 | the bound is attained over every number of intervals |
| CapturePacing.MostIsBound | steamvr-driver/direct_mode.cpp:179-183 | from an admitted call to a time there are at most 1 + (time - start) / interval captures, the start being that call if the clock was unset or more than two intervals behind, else where the clock stood |
| CapturePacing.MostIsReached | steamvr-driver/direct_mode.cpp:179-183 | for every clock, first call and time some calls reach that number |
| CapturePacing.CapturesInASecond | steamvr-driver/direct_mode.cpp:180 | with up to 31622 frames a second, at most three captures more than that in any second |
| CapturePacing.NoCaptureWithheld | steamvr-driver/direct_mode.cpp:181-183 | a call an interval after the last capture is never refused |
| CapturePacing.AdmittedExactly | steamvr-driver/direct_mode.cpp:180-183 | in real time: behind the first capture a call is admitted exactly if the nanoseconds passed, and one more, times the frame rate exceed a second; a rate of 0 counts as 1 |
| CapturePacing.NoneHeldUp | steamvr-driver/direct_mode.cpp:180-183 | whatever was called before, a call is admitted once a second over the frame rate has passed since the last capture |
| CapturePacing.FullRate | steamvr-driver/direct_mode.cpp:180-183 | with up to a frame a nanosecond, from any admitted call on some calls capture within a second at least as often again as the frame rate says |
| SlotHandoff.SlotTable.TakeNewest | steamvr-driver/direct_mode.cpp:349 | picks the newest pending slot and drops the older ones, or finds none pending |
| SlotHandoff.SlotTable.FindIdle | steamvr-driver/direct_mode.cpp:218-219 | finds the first slot that is not pending |
| SlotHandoff.SlotTable.Publish | steamvr-driver/direct_mode.cpp:235-236 | the filled slot becomes pending under the next sequence number |
| SlotHandoff.SlotTable.DropAll | steamvr-driver/direct_mode.cpp:349 | a disconnect leaves nothing pending |
| SlotHandoff.StepKeeps | steamvr-driver/direct_mode.cpp:176-249 | every step of producer and worker keeps the hand-off invariant |
| SlotHandoff.HandOffIsSafe | steamvr-driver/direct_mode.cpp:349-379 | in every interleaving the producer never draws into the slot the worker reads, all other pending slots are newer, and what is written are the captured frames, whole, in strictly increasing order |
| SlotHandoff.PickedSlotIsFrozen | steamvr-driver/direct_mode.cpp:349-377 | no step changes the picked slot until the worker releases it |
| SlotHandoff.PicksNeverGoBack | steamvr-driver/direct_mode.cpp:349-360 | through busy retries, failures and disconnects no older frame is picked than before |
| HandoffProgress.NewestIsKept | steamvr-driver/direct_mode.cpp:349-377 | in every run without a disconnect, a failure or a stop, busy retries included: the newest captured frame waits in a slot, as captured, or is the last one written |
| HandoffProgress.NewestGetsThrough | steamvr-driver/direct_mode.cpp:349-377 | whenever the worker waits, no producer is inside and a slot waits, the worker can pick the newest, read it row by row, write and release it, and then it is the last one written and nothing waits |
| HandoffProgress.CaptureGetsThrough | steamvr-driver/direct_mode.cpp:217-237 | whenever a slot is idle besides, a frame can be drawn and handed over and is then written whole |
| HandoffProgress.DroppedForGood | steamvr-driver/direct_mode.cpp:349-379 | after a disconnect, a failure or a stop no frame is ever picked that was captured before it |
| HandoffProgress.ProducerGetsSlot | steamvr-driver/direct_mode.cpp:217-237 | a producer gets the first idle slot exactly if there is one, of the slots there are or of three new ones, and none if new ones are needed and cannot be made |
| HandoffProgress.DisconnectFrees | steamvr-driver/direct_mode.cpp:349 | a disconnect frees all slots at once and drops them when the encoder is closed |
| HandoffProgress.WithoutPipe | steamvr-driver/direct_mode.cpp:375-379 | without a pipe the picked frame is given up, and nothing else that waits |
| HandoffProgress.StopEnds | steamvr-driver/direct_mode.cpp:377-379 | once the driver stops, a worker that is done ends without closing the encoder first |
| HandoffProgress.CaptureBesideWorker | steamvr-driver/direct_mode.cpp:176-249 | wherever the worker is, reading its slot included: as long as the driver runs, no producer is inside and a slot is idle or none is made yet, a frame can be drawn and handed over; it waits under the newest number, and neither the worker nor any slot that waited is moved |
| HandoffProgress.InsideHandsOver | steamvr-driver/direct_mode.cpp:217-249 | a producer inside can give up with nothing changed, or draw and hand over, whatever it drew before |
| HandoffProgress.WorkerReadsAlone | steamvr-driver/direct_mode.cpp:349-376 | outside the mutex the worker reads the rest of its slot and its write comes out in any way, with a producer inside or not and with the driver running or not |
| HandoffProgress.BusyTriesAgain | steamvr-driver/direct_mode.cpp:360 | when the GPU is busy the worker can let go and pick again, the same frame or a newer one |
| HandoffProgress.FailureRecovers | steamvr-driver/direct_mode.cpp:377-379 | after a failed mapping or write the slots are given up and the worker waits again |
| HandoffProgress.WorkerEnds | steamvr-driver/direct_mode.cpp:349-379 | once the driver is stopped the worker can end from wherever it is, and what it was reading can still be written |
| HandoffProgress.StopsAndStarts | steamvr-driver/direct_mode.cpp:349 | a running driver can be stopped whenever no producer is inside, and started again once the worker has ended |
| ClientDrain.StepKeeps | pi-receiver/status.c:307-318 | every step of every thread keeps counter, ownership of the mutex and the pending wakeup consistent |
| ClientDrain.StopIsSafe | pi-receiver/status.c:460-476 | active_clients is the clients registered and not yet deregistered, failed thread starts included; stop passes only after the listener has ended and every client has unlocked for the last time |
| ClientDrain.SomebodyGoesOn | pi-receiver/status.c:469-472 | no wakeup is lost: once stop is called some thread can go on until the server is destroyed |
| ClientDrain.ListenerGoesOn | pi-receiver/status.c:361-394 | until it has ended the listener can go on, whether stop is called or not, but for a mutex in other hands |
| ClientDrain.StopperGoesOn | pi-receiver/status.c:460-476 | the stopping thread waits for the end of the listener, for the mutex and for a broadcast, and for nothing else |
| ClientDrain.StopReturns | pi-receiver/status.c:460-476 | once stop is called a bounded number of steps are left, spurious wakeups aside, and they end in its return |
| ClientDrain.EveryConnectionIsServed | pi-receiver/status.c:368-391 | each accepted connection is registered, but for the one the listener holds; once the server is destroyed each was answered, once, or its thread could not be started |
| ClientDrain.ListenerWakesNobody | pi-receiver/status.c:383-389 | until the listener has ended stop has not come to its wait, so the listener's own broadcast after a failed thread start wakes nobody and the clients' broadcasts are the only ones that matter |
| ClientDrain.ListenerStays | pi-receiver/status.c:361-394 | once its socket is open the listener goes on until stop is called |
| ClientDrain.NobodyWaitsForStop | pi-receiver/status.c:307-394 | in every reachable state, stop called or not: a listener that selects can accept a connection or find none, a client with a thread is answered, and stop can be called |
| ClientDrain.ClientLeaves | pi-receiver/status.c:312-315 | with the mutex free an answered client deregisters, tells a stopper that sleeps, and is gone, the others where they were |
| ClientDrain.ClientIsServed | pi-receiver/status.c:307-315 | so a client with a thread is answered and gone |
| ClientDrain.ConnectionRegistered | pi-receiver/status.c:368-391 | with the mutex free an accepted connection is counted and gets its thread |
| ClientDrain.ConnectionUndone | pi-receiver/status.c:381-389 | or is taken back, and the counter with it, if its thread cannot be started |
| ClientDrain.OneMoreIsServed | pi-receiver/status.c:307-394 | before stop is called, from every reachable state with the mutex free and the listener not ended, there is a run that accepts one more connection, answers it and ends with it gone, in which no other client moves |
| JsonScanner.MatchingBrace | utility/config.cpp:19-36 | the loop returns what the specification of matching braces says |
| JsonScanner.FirstCloseIs | utility/config.cpp:19-36 | that is the first closing brace outside quotes at depth one, and none if there is no such brace |
| JsonScanner.FindObject | utility/config.cpp:38-70 | the loop returns the first section of that key at depth one, with its span |
| JsonScanner.FindIs | utility/config.cpp:44-69 | that span is the first at which the scan is outside quotes at depth one and the quoted key, a colon and a closed pair of braces stand, up to its matching brace |
| JsonScanner.DepthReturns | utility/config.cpp:33 | where the depth has come back to zero a matching brace has been passed |
| JsonText.ValueScans | utility/config.cpp:19-36 | the scanner passes over any value, strings with braces included, and comes out as it went in |
| JsonStrings.PrintJsonString | utility/config.cpp:147-169 | the loop writes the escaped string |
| JsonStrings.RoundTrip | utility/config.cpp:147-169 | every string is read back by the grammar of section 7 of RFC 8259, whatever follows it |
| JsonStrings.EscapeLengths | utility/config.cpp:151-164 | seven characters have an escape of two characters, the other control characters one of six, and all others none |
| JsonStrings.ScannerLeavesString | utility/config.cpp:25-31 | the scanner is inside quotes exactly until the end of every printed string |
| DriverSettings.SectionFound | utility/config.cpp:195-207 | for any host and numbers, the scanner takes exactly the printed section for the section, whatever follows |
| DriverContents.SectionSays | utility/config.cpp:195-207 | the section is the text of an object, and every reader finds "true" under enable exactly if enabled, the host under receiver_host, and the ports, bit rate, refresh rate, half the width towards zero and the height as numbers, each as the only value under its key |
| DriverUpdate.DriverWriteIsUpdate | utility/config.cpp:220-232 | under the exact condition of DriverCondition.UpdatesExactlyWhen the write is an update of the file's object: the member driver_svrt written anew, or added at the end where there is none, every other character kept |
| DriverUpdate.DriverWriteReads | utility/config.cpp:220-232 | under that condition readers find under every other key all the values they found before, and all of them find under driver_svrt an object that says what the driver is to be told if and only if at most one member was read as having that key, spelled plainly |
| SectionSearch.ObjectFound | utility/config.cpp:38-70 | in an object with only plain text around it the search comes upon the first member with the key whose value is an object, or a like section in the values before it outside braces, and else upon nothing |
| DriverCondition.UpdatesExactlyWhen | utility/config.cpp:220-232 | for every object, the write is the update for all settings if and only if the first section standing at depth one is at the first member with the key, which is one object, or none stands where no member has the key |
| DriverCondition.UpdatesWherePlain | utility/config.cpp:220-232 | with plain text around the object, if and only if the first member driver_svrt, if there is one, is an object and no value before it holds a section of that name outside braces |
| JsonFile.DriverJsonIs | utility/config.cpp:195-207 | for all settings the section printed is a key, a colon and an object of the grammar of RFC 8259 |
| JsonFile.ValueHasNoPlace | utility/config.cpp:46-61 | in no JSON value does find_object come upon a section at the depth of the value |
| JsonFile.WritesJsonExactlyWhen | utility/config.cpp:220-232 | for every JSON text that is an object: the write sets the member driver_svrt, for all settings, with every other character kept, if and only if the first member with that key, if there is one, is an object; what is written is JSON again |
| DriverReaders.EveryReaderFinds | utility/config.cpp:220-232 | for every object: for all settings every reader finds the section, or also only those that keep the first and those that keep the last of several do, if and only if the write is the update and at most one member was read as driver_svrt, spelled plainly |
| DriverReaders.EveryReaderFindsWherePlain | utility/config.cpp:220-232 | the same told by the members, with plain text around the object |
| DriverFailures.OtherValueHides | utility/config.cpp:221-227 | where there are members driver_svrt but no object under that key, one is added at the end; readers that keep the first do not find it, readers that keep the last do |
| DriverFailures.EscapedKeyHides | utility/config.cpp:221-227 | so it is where the key is only spelled with escapes |
| DriverFailures.LaterMemberIsWritten | utility/config.cpp:228-231 | where the first object under the key is not the first member with it, that later member is written anew; readers that keep the first find what they found before |
| DriverFailures.LaterMemberHides | utility/config.cpp:228-231 | where the first member is written anew and another is read as the key behind it, readers that keep the last find that one |
| DriverFailures.NumberHidesSection | utility/config.cpp:221-227 | for {"driver_svrt":1}: what is written, and that readers that keep the first find 1 and those that keep the last the section |
| DriverFailures.EscapeHidesSection | utility/config.cpp:221-227 | for {"driver\u005fsvrt":1}, where the write is the update: the same |
| DriverFailures.NumberHidesObject | utility/config.cpp:228-231 | for {"driver_svrt":1,"driver_svrt":{}}: the same |
| DriverFailures.NumberBehindHides | utility/config.cpp:228-231 | for {"driver_svrt":{},"driver_svrt":1}, where the write is the update: readers that keep the first find the section and those that keep the last find 1 |
| SettingsFile.WriteDriver | utility/config.cpp:220-232 | the section is replaced where it is found, else inserted in the root object, else the write is refused |
| SettingsFile.RefusedExactly | utility/config.cpp:221-224 | the write is refused exactly if no section is found and the first brace is not matched, or there is none |
| SettingsFile.NoneBefore | utility/config.cpp:44-69 | a search that passed some text passes it also when something else follows |
| SettingsFile.ReplacedIsSettled | utility/config.cpp:228-232 | after a replacement the section found is exactly the one printed and a second write changes nothing |
| SettingsFile.InsertedIsFound | utility/config.cpp:221-227 | after an insertion it is found exactly if and only if the scanner was outside quotes at depth one where it went |
| SettingsFile.CleanHeadIsInRoot | utility/config.cpp:222-223 | no quote and no closing brace before the first brace is enough for that |
| SettingsFile.PrinterAndScannerAgree | utility/config.cpp:220-232 | then for every host and text the printed span is found again, the rest is kept and a second write changes nothing |
| SettingsFile.StrayBraceHidesSection | utility/config.cpp:221-227 | a text on which the inserted section is not found again |
| MemberEdit.FindValue | utility/config.cpp:77-116 | the loop finds where the key's value starts |
| MemberEdit.FindValueEnd | utility/config.cpp:94-109 | the loop finds where the value ends, trailing space excluded |
| MemberEdit.SetValue | utility/config.cpp:72-121 | the text is edited as specified: value replaced, member appended, or nothing without a matched brace |
| MemberEdit.UnmatchedIsKept | utility/config.cpp:74-76 | a section whose first brace is not matched is left alone |
| ObjectUpdate.ValueMeasured | utility/config.cpp:94-107 | the value scan passes over any one value, nested groups and quoted commas included |
| ObjectUpdate.SearchHits | utility/config.cpp:79-93 | the search stops at the first member with the key |
| ObjectUpdate.EditIsUpdate | utility/config.cpp:72-121 | the edited text is the text of the object with that member updated or appended, every other character kept, if no string value at depth one before it reads like the key |
| JsonGrammar.JsonIsValue | utility/config.cpp:92-112 | every value of the grammar of RFC 8259, null, booleans, numbers, strings, arrays and objects with any blanks, is one that the theorems on edits are about |
| JsonGrammar.JsonIsDoc | utility/config.cpp:72-76 | so is every object of that grammar, behind text without a brace and in front of any text |
| JsonGrammar.SetsJsonExactlyWhen | utility/config.cpp:72-121 | for every JSON object and plain key: set_value exchanges the value of the key's first member, or adds a member behind all others, for all JSON values and with every other character kept, if and only if its scan meets the key right; the outcome is JSON again |
| JsonGrammar.SetsJson | utility/config.cpp:72-121 | it does if no member before the key's has a string equal to the key as its value or in an array |
| EditCondition.UpdatesExactlyWhen | utility/config.cpp:72-121 | for every object and plain key, the edit is the update for all values if and only if the scan, outside quotes and at depth one, meets the quoted key, blanks and a colon first at the key's first member, or nowhere if no member has the key |
| EditCondition.UpdatesIffArriving | utility/config.cpp:79-93 | the half of it where the key is a member |
| EditCondition.UpdatesIffUnmet | utility/config.cpp:79-120 | the half of it where the key is not a member and is to be appended |
| EditFailures.EscapedQuoteDefeatsEdit | utility/config.cpp:87-91 | an object without the key in which the value of another member is overwritten and the key is not added |
| Readers.UpdateReaches | utility/config.cpp:72-121 | after it readers find under other keys all the values they found before, and every reader finds the value under the key, or for all values those that keep the first and those that keep the last do, if and only if at most one member was read as having it, spelled plainly |
| Readers.WrittenReaches | utility/config.cpp:72-121 | so it is wherever a member is written, and then every key still has at most one plainly spelled member that had |
| EditFailures.DuplicateIsKept | utility/config.cpp:79-120 | for {"k":5,"k":7} and the value 1: readers that keep the first find 1 and those that keep the last 7 |
| RepeatedEdit.SettlesExactlyWhen | utility/config.cpp:72-121 | for every object and every key without quote, backslash and control character: the edit is the update and a second edit changes nothing, for all values, if and only if the scan meets the key right and, where it is not there yet, ends outside quotes at depth one at the closing brace |
| RepeatedEdit.SettlesKept | utility/config.cpp:72-121 | an edit with a key that settles leaves an object in which it settles, so this holds of any number of edits |
| RepeatedEdit.LastEditCounts | utility/config.cpp:72-121 | of two edits with such a key only the later one counts |
| RepeatedEdit.EditTwice | utility/config.cpp:72-121 | under that condition a second edit with the same value changes nothing |
| RepeatedEdit.EditGrows | utility/config.cpp:87-120 | where nothing was met and the scan does not end outside quotes at depth one, the key that was added with the value 0 is added again |
| RepeatedEdit.SettlesWithoutStray | utility/config.cpp:72-121 | it settles wherever no string value reads like the key before its member |
| EditFailures.StrayDefeatsEdit | utility/config.cpp:87-91 | with a string value equal to the key before it, the key's member is not found and a second one is added |
| EditFailures.StrayMakesEditGrow | utility/config.cpp:87-120 | an object for which the first edit is right for every value, and the second adds the member again |
| ObjectParsing.DocUnique | utility/config.cpp:72-121 | a text is the text of one object only, blanks included |
| ObjectParsing.EditedReads | utility/config.cpp:72-121 | under the exact condition readers of the edited text find under every other key what they found before, and all of them find the value under the key if and only if at most one member was read as having it, spelled plainly |
| Sections.PutReads | utility/config.cpp:243 | a section put in the place of the one found is the one found |
| Sections.PutKeepsOther | utility/config.cpp:243-251 | and the sections found for all other keys are what they were |
| Sections.InsertKeepsOther | utility/config.cpp:221-227 | so are they when a section is inserted in the root object |
| Repairs.CleanIsKept | utility/config.cpp:238-239 | both regular expressions leave text without a match alone |
| Repairs.CommasNeedTwoPasses | utility/config.cpp:239 | of three commas one pass leaves two, and a second one leaves one |
| Repairs.ZerosNeedTwoPasses | utility/config.cpp:238 | a text of which the first expression leaves what it would take out itself |
| RepairOnce.CollapsedExactly | utility/config.cpp:239 | one pass of the second expression leaves no two commas with only blanks between if and only if there were no three |
| RepairOnce.RemovedExactly | utility/config.cpp:238 | one pass of the first leaves no match of it if and only if there is no line break outside all matches behind which, once the matches there are cut out, blanks and .0 come next |
| RepairOnce.NoBareLineIsEnough | utility/config.cpp:238 | for that it is enough that no match begins behind a line break with only blanks, or blanks and a point, between |
| RepairOnce.RepairedExactly | utility/config.cpp:238-239 | one pass of both leaves nothing to repair if and only if besides no comma has two more behind it with nothing but blanks and matches of the first between |
| Repairs.FirstZeroIsCut | utility/config.cpp:238 | the first match of the first expression is cut out with all blanks behind it, what stands before it is kept, and the search goes on behind it |
| Repairs.FirstCommasAreOne | utility/config.cpp:239 | the first two commas with nothing but blanks between become one, and the search goes on behind them |
| Repairs.OldBugIsRepaired | utility/config.cpp:237-239 | a line with .0 that an older version left between two members is taken out with one of the commas, and nothing else |
| SettingsWrite.WriteSettings | utility/config.cpp:220-253 | the three steps, on the text read, give the text written or refuse it |
| SettingsWrite.EditAllTwice | utility/config.cpp:240-242 | a second run of the edits of a section changes nothing, if no string value reads like one of their keys before its member |
| SettingsWrite.EditedSectionReads | utility/config.cpp:240-242 | after the edits readers find under other keys what they found before, and under each edited key all of them find its value if and only if at most one member was read as having it, spelled plainly |
| SettingsWrite.SettingsAreSet | utility/config.cpp:240-250 | that is so of the three keys of steamvr with true, 1.0 and 1.0 and of the one of power with 0.0 |
| SettingsWrite.UpdateAllClean | utility/config.cpp:238-242 | the edits bring nothing for the repairs to do |
| SettingsWrite.SecondWriteIsIdle | utility/config.cpp:220-253 | for every text with a matched first brace, no quote or closing brace before it, and steamvr and power sections, if any, that read as objects and hold no string that reads like an edited key before its member, the steamvr section meeting, as it was read, the condition of RepairOnce.RepairedExactly: the driver's section is found again as printed, the two read as their objects updated, all other sections are kept, and a second whole write changes nothing |

## Left out

- Integrity.RunIsIntact: covers sessions whose datagrams come from one sender; a second sender that uses the same session number is not modelled.
- Interleaving.InterleavedFramesAreShown: covers one session whose first frame is the first to arrive; a receiver that starts in the middle of a session starts at the first frame of which a datagram comes.
- ClientDrain.StopReturns: answering a client is one step that ends; the receive timeouts inside it are not modelled, nor are the tracking and discovery threads that stop joins.
- ClientDrain.EveryConnectionIsServed: a connection for which no record can be allocated is closed at once and counts as not accepted.
- SlotHandoff.HandOffIsSafe: a slot's three textures are one image, and the device mutex around the GPU calls is not modelled.
- Sender.Packetizer.SendFrame: a socket that fails or is closed in the middle of a frame, the 250 microsecond pacing and log output are not modelled.
- Receiver.SvrtPipe.ReadFrame: allocation always succeeds; a failed av_new_packet, which returns without freeing the slot, is not modelled.
- Receiver.SvrtPipe.AcceptDatagram: the statistics counters are unbounded instead of 64 bits wide. A read of no bytes, which svrt_pipe_read drops before it comes here (pipe/pipe.c:279), is an empty datagram of the model and counts as invalid.
- Fec.RecoverInPlace: shards are rows of one buffer; null shard pointers, which the code answers with -1, are not modelled, nor is a second parity marked as held whose pointer is null, which the code would read when one shard is absent.
- Wire.EncodeThenDecode: encoding and decoding are functions on byte sequences; swap64 is taken as on a little-endian host, the only one where it gives network order.
- DriverSettings.SectionFound: strings are sequences of characters; conversion between UTF-8 and UTF-16 is left out.
- JsonStrings.RoundTrip: the reader covers \u escapes outside the surrogate range, the only ones the printer writes. Keys with escapes inside that range count as unreadable.
- The file replacement behind write_steamvr_settings, its check for a running SteamVR, and load_settings and save_settings.
- The companion-stream and dual-presentation code in lib/, the DRM presenter, decode counters, audio chunking and pose packets: they would add easy members only.
- Sockets, poll, FFmpeg, D3D11, Steam registry, pairing, discovery and authorization: foreign calls and plumbing.
