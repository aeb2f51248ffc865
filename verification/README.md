# Trading pipeline: model and proofs

A Dafny 4.11 model of a low-latency trading stack, and proofs about it. It covers four cores.

1. The MoldUDP64 feed. `Feed` cuts an ITCH file into numbered packets and `Rewinder` caches them and
   answers gap requests. `Sequencer` is the receiver as a state machine over a network that loses, repeats
   and reorders: UMEM frames and 512 reorder slots move between free list, fill ring, burst, ring and
   consumer. `SequencerProofs` and `SequencerRuns` hold its inductive invariant, `Pipeline`, `Reordering`,
   `FirstGap`, `Recovery` and `GapRecovery` what follows from it end to end, and `UdpReceiver` the array and
   cursor code that takes exactly those steps. Three facts carry each other there: every outstanding ring
   entry pins a buffer of its own, so the ring never fills, so no buffered packet is ever stranded.
2. The order path. `Spsc` is the shared ring under every interleaving, `Oms` its producer behind the risk
   gate, `OrderPath` and `OrderThreads` the sender, the byte stream and the exchange, `Wire` and `Streams`
   the frames. `OrderAcks` says what the exchange accepts and answers, and `OrderChain` joins them: from the
   gate to the order the exchange accepts. `Cursors` holds the 32-bit cursor facts of all rings.
3. Trading. `FillSim`, `Pnl`, `MarketMaker`, `Buckets` and `Risk` model one step each, `CostBasis`
   and `Quoting` say what entry prices, profits, quoted prices and messages come to; `TradingRuns` and
   `TradingHalts` state what holds over whole runs on all symbols, and `TradingDesk` is the code with its
   state in place.
4. Fast forms against simple ones. `OrderTable` is the open-addressing table against a map, `Checksum` and
   `AfxdpTx` the lane-parallel, carry-per-step and incremental checksums against the plain ones-complement
   sum, `FrameFilter` the kernel filter against the receiver's parser, `FrameFormat` the parser and the
   sender against the frame format.

Most parts come in two layers: functions on values, with lemmas over whole runs, and classes with the
source's arrays, cursors and counters, whose methods are proved to take exactly those functions' steps, one
step or a list of them (`Reaches`).
A `ghost` field `m` ties the two together where the fields alone do not determine the model's state; a
function of the fields does so elsewhere (`TradingDesk`: `View` and `Now`).

`dafny verify dfyconfig.toml` checks the whole project.

What is assumed of the outside:

- Clocks, reads of the file, outcomes of `send`, chunks of `recv`, deliveries of the kernel and the order
  book's top are parameters or arbitrary choices, so results hold for all of them.
- One session; every packet that arrives was cut by the feed from one file; sequence numbers stay below
  2^64. A UDP payload is at most 1500 bytes, and a captured frame ends with its payload: no link padding
  trails it.
- Quantities and prices are integers and the source's doubles are reals.

Where the source disagrees with its own comments the model follows the code:

- `wire_order` is commented as 32 bytes; its fields add up to 36, and the checksum covers the first 32.
- `extract_feed_payload` is commented as falling back to raw IP; the fallback needs 20 bytes and is tried only
  below 14, so it is unreachable.
- `gap_dropped_packets` counts packets in some branches and messages in others, so losses are stated over a
  ledger of intervals instead.

Six properties one might expect are false of the code. Each has its exact condition and a lemma at an
input where it fails:

- `bulk_feed` stops for good at a message that fits no packet, so it sends the whole file if and only if no
  complete message exceeds 1430 bytes (`Feed.SendsAllIff`, `Feed.OversizeStops`).
- The rewinder's window is its whole cache if and only if the 32-bit cursor has not just wrapped
  (`Rewinder.WindowIsCacheIff`, `Rewinder.WrapForgets`).
- Accepted order numbers strictly increase if and only if no frame with a good checksum follows one numbered
  2^64 - 1 (`OrderPath.AcceptedIncreaseIff`, `OrderPath.WrapAccepts`).
- Inserting a key that is already live keeps the table a map if and only if no tombstone lies before it on its
  probe path (`OrderTable.LiveOrderTable.Insert`, `OrderTable.BehindTombstone`).
- A token bucket does not serve its full rate: a refill that pays drops the fraction of a token it does not pay,
  so it loses nothing if and only if it pays nothing or the time earned whole tokens (`Buckets.NothingLostIff`,
  `Buckets.FractionLost`). More than half the rate is always served (`Buckets.ServiceBound`).
- A kill clears a simulated quote if and only if its side is still marked as resting or is empty
  (`MarketMaker.FlattenClearsIff`, `MarketMaker.ResidualSurvives`): a partial fill removes the mark and leaves
  the rest of the quote. What that can cost is bounded (`TradingHalts.HaltedExposure`).

## Model

| member | source | states |
|---|---|---|
| `Pipeline.EndToEnd` | apps/client/udp_receiver.c:361-488 | in every state of every run, under any loss, repetition, reordering and rewinder replies, the decoded messages are a prefix of the file's messages from the first packet seen up to the expected number minus exactly the numbers given up, and all of them once the ring is drained |
| `Pipeline.InvDecodes` | apps/client/udp_receiver.c:361-488 | the same of any state that satisfies the inductive invariant, so of the receiver in place |
| `Pipeline.NothingLost` | apps/engine/dispatcher.cpp:137-179 | when no number was given up, the decoded messages are the consecutive slice of the file's own message list |
| `Pipeline.FileToEngine` | apps/server/feed.c:141-196 | a file every message of which fits a packet, seen from its first packet with nothing given up, is decoded message for message |
| `Pipeline.LedgerContents` | apps/client/udp_receiver.c:398-488 | published packets, concatenated, hold the session's messages between first and expected number without exactly the skipped intervals |
| `Pipeline.LedgerBalance` | apps/client/udp_receiver.c:398-474 | messages published plus messages given up equal expected minus first number |
| `Pipeline.GivesUpIff` | apps/client/udp_receiver.c:451-474 | handling a packet adds a loss to the ledger if and only if it is a new future packet, every slot is used and one is pending; the loss ends exactly at the nearest pending packet |
| `Pipeline.BuffersInEveryState` | apps/client/udp_receiver.c:524-552 | in every state of every run each UMEM frame is in exactly one place, a slot backs one outstanding ring entry if it is in flight and none otherwise, at most 4608 entries are outstanding, the ring is not full, the free list has not overflowed, no pending slot waits at the expected number and pending numbers are distinct |
| `Pipeline.InvAccounted` | apps/client/udp_receiver.c:349-358 | the same accounting from the inductive invariant alone |
| `Pipeline.ReplyAdvancesIff` | apps/client/udp_receiver.c:425-449 | an in-order rewinder reply moves the expected number, and then past the whole packet, if and only if a reorder slot is free |
| `Pipeline.LiveAdvances` | apps/client/udp_receiver.c:407-423 | an in-order live packet is always pinned in the ring and moves the expected number past it |
| `Pipeline.CutIsPartition` | apps/server/feed.c:141-194 | the packets a packetiser cuts tile the sequence space without overlap |
| `Reordering.KeptIff` | apps/client/udp_receiver.c:385-488 | handling a packet keeps every packet published or waiting before, and besides those exactly the packet itself, if and only if it is not behind the expected number and finds a slot, or is live and at the expected number |
| `Reordering.KeptExactly` | apps/client/udp_receiver.c:385-488 | in every state of every run the packets published or waiting are exactly those that were handed over when there was room for them: none is dropped, none comes from nowhere |
| `Reordering.RequestIff` | apps/client/udp_receiver.c:451-486 | a packet makes a gap request if and only if it lies beyond the expected number, is not held already and finds a slot |
| `FirstGap.ExpectedIsFirstGap` | apps/client/udp_receiver.c:361-488 | while every packet finds room, what is published is exactly the packets handed over from the session's start up to the expected number, no packet at that number was handed over, and what waits is exactly the rest |
| `FirstGap.OrderIndependent` | apps/client/udp_receiver.c:361-488 | two runs that start at the same number and are handed the same packets, in any order and any number of times, live or replayed, expect the same number and have published the same packets in the same order |
| `FirstGap.KeptIsHeardIff` | apps/client/udp_receiver.c:476-481 | with room for all, the packets kept are the packets handed over from the session's start on |
| `FirstGap.StartIsFirstHeard` | apps/client/udp_receiver.c:398-405 | the session starts where the first packet handed over starts, for good |
| `SequencerRuns.InitialInv` | apps/client/udp_receiver.c:633-637 | the state the receiver starts in satisfies the invariant |
| `SequencerRuns.StepInv` | apps/client/udp_receiver.c:633-722 | every step (refill, kernel delivery, live packet, rewinder reply, drop, consume, recycle) keeps the invariant |
| `SequencerRuns.RunInv` | apps/client/udp_receiver.c:633-722 | the invariant holds in every state of every run |
| `SequencerRuns.ReachesRun` | apps/client/udp_receiver.c:633-722 | a list of steps leads from a state to exactly one state |
| `SequencerRuns.RunExtends` | apps/client/udp_receiver.c:633-722 | a list of steps at the end of a run gives a run, so every result about runs holds after it |
| `SequencerRuns.ArriveIntact` | src/afxdp/afxdp_receiver.c:419-447 | the kernel writes no frame that an outstanding ring entry points at |
| `SequencerRuns.RecycleConserved` | apps/client/udp_receiver.c:530-547 | recycling an entry moves its buffer, frame or slot, to its idle place and loses none |
| `SequencerRuns.RecycleIntact` | apps/client/udp_receiver.c:530-547 | recycling an entry leaves what every other entry points at intact |
| `SequencerRuns.EntryIsInFlight` | apps/client/udp_receiver.c:191-192 | a slot behind an outstanding entry is used and below the expected number |
| `SequencerRuns.ConsumeSequence` | apps/engine/dispatcher.cpp:154-174 | what the consumer decodes at the read cursor is the packet that was published there |
| `SequencerProofs.RingBound` | apps/client/udp_receiver.c:349-358 | outstanding entries pin distinct buffers, so there are at most 4096 + 512 |
| `SequencerProofs.RingNeverFull` | apps/client/udp_receiver.c:349-358 | the ring-full branch is unreachable, whatever earlier value of the read cursor is loaded |
| `SequencerProofs.EntriesDistinct` | apps/client/udp_receiver.c:524-552 | no two entries not yet recycled share a buffer |
| `SequencerProofs.FreeBound` | src/afxdp/afxdp_receiver.c:55-64 | the free list never holds more than its 4096 frames, so freeing never fails |
| `SequencerProofs.DrainCore` | apps/client/udp_receiver.c:361-370 | draining keeps the invariant, never moves the expected number back and leaves no slot stranded |
| `SequencerProofs.SkipCore` | apps/client/udp_receiver.c:455-468 | skipping to the smallest pending number keeps history, buffers and order |
| `SequencerProofs.HandleInv` | apps/client/udp_receiver.c:385-488 | handling any packet of the session, live or reply, keeps the invariant |
| `Recovery.RecoveryMakesProgress` | apps/server/rewinder.c:123-143 | when the expected number is in the cached window and a slot is free for each reply, one request is answered from the expected number on and handling the replies moves it past all of them |
| `Recovery.RepliesAdvance` | apps/client/udp_receiver.c:425-449 | consecutive replies from at or below the expected number, with a free slot for each, leave the receiver past the last |
| `Recovery.RequestInsideGap` | apps/client/udp_receiver.c:483-486 | a request starts at the expected number and asks for everything up to the packet that revealed the gap, or for 65535 messages if that is further away |
| `Recovery.IdleRequestsTheGap` | apps/client/udp_receiver.c:665-675 | the idle request is made if and only if something is pending, and asks for everything up to the nearest packet held, or for 65535 messages if that is further away |
| `GapRecovery.RoundAdvances` | apps/client/udp_receiver.c:665-678 | one round of any steps, in which no new packet meets a full pool and the first packet of the answer to the idle request comes through, keeps the invariant, gives nothing up and moves the expected number; the live feed, consuming and recycling go on as they like, and other replies may be lost, repeated or reordered |
| `GapRecovery.GapCloses` | apps/server/rewinder.c:123-143 | while the missing numbers are in the cached window, by the time as many rounds were answered as numbers are missing there was a moment when the gap was closed: the receiver was past it or waited for nothing, every packet it had held inside was passed, and nothing had been given up; other requests may be lost |
| `GapRecovery.AnswerInsideGap` | apps/server/rewinder.c:123-143 | every packet of the answer to an idle request starts below everything the receiver holds |
| `GapRecovery.SettledSlots` | apps/client/udp_receiver.c:524-552 | once everything published is consumed and recycled every slot not pending is free |
| `UdpReceiver.TagRoundTrip` | apps/client/udp_receiver.c:35-38 | the address tag tells reorder slots from frames and names each uniquely |
| `UdpReceiver.AllocSlot` | apps/client/udp_receiver.c:193-199 | the scan returns the first free slot of the model |
| `UdpReceiver.FindSlot` | apps/client/udp_receiver.c:201-210 | the scan returns the pending slot the model finds |
| `UdpReceiver.FindMinSlot` | apps/client/udp_receiver.c:213-223 | the scan returns the pending slot with the smallest number |
| `UdpReceiver.Receiver.constructor` | src/afxdp/afxdp_receiver.c:276-278 | the arrays and cursors start in an initial state of the model |
| `UdpReceiver.Receiver.PublishRef` | apps/client/udp_receiver.c:349-358 | on wrapping 32-bit cursors, publishing always succeeds and is the model's publish step |
| `UdpReceiver.Receiver.DrainPending` | apps/client/udp_receiver.c:361-370 | the loop ends and is the model's drain |
| `UdpReceiver.Receiver.StoreSlot` | apps/client/udp_receiver.c:434-439 | copying into a slot is the model's buffering |
| `UdpReceiver.Receiver.HandleLive` | apps/client/udp_receiver.c:407-423 | the zero-copy path is the model's in-order step |
| `UdpReceiver.Receiver.HandleInOrderReply` | apps/client/udp_receiver.c:425-449 | the copied path is the model's reply step |
| `UdpReceiver.Receiver.SkipAhead` | apps/client/udp_receiver.c:455-473 | the pool-full branch is the model's skip |
| `UdpReceiver.Receiver.HandleFuturePacket` | apps/client/udp_receiver.c:451-487 | buffering or skipping, and the request made, are the model's |
| `UdpReceiver.Receiver.BeginSession` | apps/client/udp_receiver.c:398-402 | the first packet sets the expected number |
| `UdpReceiver.Receiver.HandlePayload` | apps/client/udp_receiver.c:385-488 | the whole handler takes exactly the model's step, pins the frame it says and makes the request it says |
| `UdpReceiver.Receiver.ConsumePacket` | apps/engine/dispatcher.cpp:143-174 | one pass decodes exactly the messages of the packet published at the read cursor |
| `UdpReceiver.Receiver.ReturnBuffer` | apps/client/udp_receiver.c:530-541 | one entry is recycled by its tag as in the model |
| `UdpReceiver.Receiver.RecycleConsumed` | apps/client/udp_receiver.c:524-552 | the loop takes one recycle step for each entry consumed so far and ends with none left |
| `UdpReceiver.Receiver.PushFree` | src/afxdp/afxdp_receiver.c:55-64 | a frame is pushed unless the list is full |
| `UdpReceiver.Receiver.PopFrames` | src/afxdp/afxdp_receiver.c:47-53 | frames are popped from the end of the list |
| `UdpReceiver.Receiver.RefillFillRing` | src/afxdp/afxdp_receiver.c:66-100 | the frames popped are the ones that enter the fill ring |
| `UdpReceiver.Receiver.KernelDeliver` | src/afxdp/afxdp_receiver.c:434-446 | a filled frame moves from the fill ring to the burst once |
| `UdpReceiver.Receiver.HandleFrame` | apps/client/udp_receiver.c:709-712 | one frame of the burst is the model's live step and leaves the hand if pinned |
| `UdpReceiver.Receiver.HandleBurst` | apps/client/udp_receiver.c:684-718 | the burst is a live step for each frame up to the first end of session, that one included, then a drop step for each frame not pinned; all of them leave the hand, and the receiver stops if and only if there is an end of session |
| `UdpReceiver.Receiver.DropFrames` | src/afxdp/afxdp_receiver.c:449-467 | frames put aside all return to the free list, a drop step for each and no other change |
| `UdpReceiver.Receiver.HandleFrames` | apps/client/udp_receiver.c:684-713 | the burst loop takes exactly a live step for each frame up to the first end of session, and every frame it read is pinned or put aside |
| `UdpReceiver.Receiver.PollRewinder` | apps/client/udp_receiver.c:492-505 | a reply step for each reply that has come, and the burst stays in hand |
| `UdpReceiver.Receiver.RequestGap` | apps/client/udp_receiver.c:665-675 | the request of an idle pass is the model's |
| `UdpReceiver.Receiver.Pass` | apps/client/udp_receiver.c:633-722 | one pass of the main loop takes exactly the recycle, reply, live and drop steps of the model, in that order |
| `UdpReceiver.PassExtendsRun` | apps/client/udp_receiver.c:633-722 | a pass takes every run of the model to a longer run of it |
| `UdpReceiver.Receiver.DecodesFile` | apps/client/udp_receiver.c:633-722 | what the dispatcher has decoded from the receiver in place is the file's messages in order less exactly those given up |
| `Mold.UnpackBlocks` | apps/engine/dispatcher.cpp:155-172 | unpacking packed messages gives them back, whatever follows |
| `Mold.UnpackLoop` | apps/engine/dispatcher.cpp:155-172 | the offset loop computes the complete messages at the front of a packet |
| `Mold.ParseEncode` | include/hft/utils/moldudp64.h:12-16 | a packet with its 20-byte header parses to itself |
| `Mold.EncodeParse` | apps/client/udp_receiver.c:385-396 | whatever parses is the encoding of what it parses to, and only fewer than 20 bytes do not parse |
| `Mold.CutMessages` | apps/server/feed.c:171-189 | the messages of a packet are the ones its sequence numbers name |
| `Mold.CutOrder` | apps/server/feed.c:189-189 | later packets start at or after the end of earlier ones |
| `Feed.BulkFeed` | apps/server/feed.c:141-196 | for every file, every split of the reads and every drop and duplicate setting: the packets' contents are the sendable messages, numbers tile 1..N+1, sizes and counts are in bounds, every packet is cached, and the wire carries exactly the packets not dropped, twice where duplicated |
| `Feed.CutChunk` | apps/server/feed.c:146-193 | packets are cut until no complete message that fits is left; no packet ends while the next message would still fit it |
| `Feed.FillPacket` | apps/server/feed.c:154-167 | the packet holds the next messages of the buffer, and stops only where the next one is not complete or does not fit |
| `Feed.SendablePrefix` | apps/server/feed.c:156-158 | the messages sent are the longest prefix of the file's messages that all fit a packet |
| `Feed.SendsAllIff` | apps/server/feed.c:158-169 | the whole file is sent if and only if every complete message in it is at most 1430 bytes |
| `Feed.OversizeStops` | apps/server/feed.c:158-169 | counterexample family: a message that fits no packet and whatever follows it are never sent, though the file holds them |
| `Feed.StuckForGood` | apps/server/feed.c:169-169 | a front stuck with everything read or the buffer full yields nothing more |
| `Feed.TransmitCopies` | apps/server/feed.c:181-187 | of each packet of the cut the wire carries none, one or two copies by its number and the drop and duplicate settings, and no other packet reaches it |
| `Feed.TransmitPlain` | apps/server/feed.c:181-187 | with nothing to drop or duplicate the wire carries the packets as they are |
| `Feed.TimestampFeed` | apps/server/feed.c:268-347 | the packets' contents are the file's messages of at least 11 bytes in order, numbered without gap, one timestamp per packet, none ended before the instant changed or the next message did not fit, and what is sent and cached is exactly those packets encoded |
| `Feed.Flush` | apps/server/feed.c:201-219 | the packet under construction is sent with its header and an empty one begun |
| `Feed.Place` | apps/server/feed.c:279-325 | a message joins the packet of its instant if it fits; a flush comes only where the instant changed or it did not; nothing is lost or reordered |
| `Rewinder.Cache.CachePacket` | apps/server/rewinder.c:43-64 | the slot array and wrapping cursor hold the last packets of the history |
| `Rewinder.Cache.FindPacket` | apps/server/rewinder.c:68-83 | the backward scan over the ring is the lookup over the history |
| `Rewinder.Cache.Serve` | apps/server/rewinder.c:123-143 | the replay loop sends the model's replay with its bound of sixteen |
| `Rewinder.HitIff` | apps/server/rewinder.c:68-83 | a lookup hits if and only if the number lies in the scanned window, and returns the one packet that covers it |
| `Rewinder.WindowIsCacheIff` | apps/server/rewinder.c:70-72 | the window is the whole cache if and only if the cursor has not wrapped or is back above 65536 |
| `Rewinder.WrapForgets` | apps/server/rewinder.c:70-72 | counterexample: just after the cursor wraps a full cache answers nothing |
| `Rewinder.ReplayConsecutive` | apps/server/rewinder.c:127-143 | a request is answered with consecutive packets from the covering one, stopping short only when the count is covered or the newest packet is reached |
| `Rewinder.CutIsChain` | apps/server/feed.c:177-179 | what the feed caches is a consecutive chain |
| `FrameFilter.IsUdpFeed` | src/afxdp/xdp_filter.bpf.c:21-81 | the filter passes a frame if and only if the receiver's parser finds a feed payload in it and it has at most two VLAN tags |
| `FrameFilter.ExtractFeedPayload` | apps/client/udp_receiver.c:76-189 | the parser returns the payload offset of the frame format, and the raw-IP fallback is unreachable |
| `FrameFilter.StampKeepsPayload` | apps/client/udp_receiver.c:407-413 | the payload starts at or after byte 42, so the 32-byte reference stamped over the frame leaves it whole |
| `FrameFilter.FeedFrameParsed` | apps/client/udp_receiver.c:88-147 | every UDP frame to the feed port, with any tags and IPv4 options or IPv6, is parsed to exactly its payload |
| `FrameFilter.FrameCarriesPacket` | apps/client/udp_receiver.c:88-147 | a feed packet in any frame parses back to that packet, and after the reference is stamped over the front the consumer still reads its blocks |
| `FrameFormat.ParsedIsFeedFrame` | apps/client/udp_receiver.c:88-147 | whatever the receiver takes for feed payload comes in a UDP frame to the feed port: addresses, VLAN tags, an IPv4 or IPv6 header and a UDP header, so it parses exactly those |
| `FrameFormat.HeaderFields` | src/afxdp/afxdp_tx.c:259-311 | a frame as it goes out holds each field where Ethernet, IPv4 and UDP put it |
| `FrameFormat.SentIsParsed` | src/afxdp/afxdp_tx.c:259-311 | the receiver's parser takes the payload of a sent frame for feed payload if and only if it goes to the feed port |
| `Spsc.StepInv` | src/engine/oms/oms.cpp:18-33 | every interleaved step of producer and consumer keeps the ring invariant |
| `Spsc.Fifo` | src/engine/oms/oms.cpp:18-33 | for every interleaving with stale views and any number of cursor wraps, what was taken is a prefix of what was published and at most the ring size is unread |
| `Spsc.FullIff` | src/engine/oms/oms.cpp:20-20 | the wrapped full check is exact for the view it is made with |
| `Spsc.EmptyIff` | apps/client/order_sender.c:214-217 | the wrapped empty check is exact for the view it is made with |
| `Spsc.WriteInv` | src/engine/oms/oms.cpp:24-30 | a write never lands on an unread entry |
| `Spsc.FreshPushRefusedIff` | src/engine/oms/oms.cpp:18-20 | with a fresh view a push is refused if and only if the ring holds its full size unread |
| `Oms.OrderRing.constructor` | src/engine/oms/oms.cpp:11-11 | the ring starts empty with ids from 1 |
| `Oms.OrderRing.Submit` | src/engine/oms/oms.cpp:13-35 | the order is appended with the next id unless the ring is full, and then 0 is returned |
| `Oms.OrderRing.Dequeue` | apps/client/order_sender.c:213-230 | the consumer takes the oldest unread order |
| `Oms.Engine.SubmitQuote` | apps/engine/dispatcher.cpp:55-72 | a cancel goes straight to the ring, anything else only through the gate; NEW orders in the ring stay a subsequence of the accepted ones |
| `Oms.Engine.RingWithinLimits` | apps/engine/dispatcher.cpp:70-71 | each NEW order in the ring was accepted and is at most 500, and every symbol's net accepted quantity is within 10000 |
| `OrderPath.AcceptedIncreaseIff` | apps/server/order_receiver.c:150-191 | for any frames at all, accepted sequence numbers strictly increase if and only if no frame with a good checksum comes after one numbered 2^64 - 1 |
| `OrderPath.WrapAccepts` | apps/server/order_receiver.c:168-189 | counterexample family: after an order numbered 2^64 - 1 the exchange expects 0 and accepts any number, so both are accepted and do not increase |
| `OrderAcks.AcceptedAreRecords` | apps/server/order_receiver.c:150-191 | unless a good frame follows one numbered 2^64 - 1, the exchange accepts exactly the orders numbered above every good frame before them, whatever was lost, repeated or damaged |
| `OrderAcks.AcksTell` | apps/server/order_receiver.c:150-191 | for any frames: each damaged one is answered with its own number and the checksum flag, each place where the accepted numbers leave some out with the number before it and the gap flag, and each frame with one answer besides |
| `OrderAcks.DuplicateAck` | apps/server/order_receiver.c:168-181 | a number already passed is answered OK with the number of the last accepted order |
| `OrderAcks.AcceptedIs` | apps/server/order_receiver.c:168-191 | an order at or above the expected number is accepted and answered OK with its own number, after a gap answer if it leaves some out |
| `OrderPath.SendAllOk` | apps/client/order_sender.c:213-298 | for any outcomes of send, each connection carries whole frames numbered from 1 for consecutive ring orders and at most one partial frame |
| `OrderAcks.SenderProgress` | apps/client/order_sender.c:213-298 | while the connection holds, every byte taken is progress, and after 36 for each order of the ring all are on the wire |
| `OrderPath.ConnectionAccepts` | apps/server/order_receiver.c:146-196 | of any delivered prefix of a connection the exchange accepts exactly the orders whose frames arrived whole, with only OK acks |
| `OrderPath.RingOrderAtMostOnce` | apps/client/order_sender.c:282-293 | across any reconnects ring orders are accepted in ring order, each at most once |
| `OrderPath.Delivery` | apps/client/order_sender.c:213-298 | the whole path, for any outcomes of send and any part of each connection delivered |
| `OrderPath.UnbrokenSession` | apps/client/order_sender.c:270-298 | one unbroken connection fully delivered: exactly the sent orders, numbers 1 to n, only OK acks |
| `OrderChain.AcceptedPassedGate` | apps/client/order_sender.c:213-298 | every new order the exchange accepts passed the gate: in gate order, each at most once, within the size limit, for any outcomes of send and any part of each connection delivered; that the orders fit the wire follows from the engine's invariant |
| `OrderThreads.Client.HandleFrame` | apps/server/order_receiver.c:150-191 | the frame state machine updates expected number, counts and acks as the model |
| `OrderThreads.Client.Receive` | apps/server/order_receiver.c:146-196 | for any chunking the receive loop is the model over the whole stream |
| `OrderThreads.SendFrame` | apps/client/order_sender.c:271-298 | the inner send loop writes one frame, with retries and reconnects, as the model |
| `OrderThreads.SenderThread` | apps/client/order_sender.c:213-298 | the sender loop over the ring is the model for any outcomes of send |
| `Wire.RoundTrip` | include/hft/protocol/wire.h:22-33 | every order in range encodes to 36 bytes that pass the checksum test and decode to it |
| `Streams.FramesConcat` | apps/server/order_receiver.c:193-195 | decoding in two parts with carry-over is decoding at once, with and without byte-wise resynchronisation |
| `Streams.FrameInFront` | apps/observer/wire_observer.cpp:210-230 | a frame in front is found whole, whatever follows |
| `Streams.JunkSkipped` | apps/observer/wire_observer.cpp:210-230 | bytes that open no frame are passed over |
| `Streams.StreamBuffer.Clear` | apps/observer/wire_observer.cpp:112-115 | a connection starts with nothing buffered |
| `Streams.StreamBuffer.Append` | apps/observer/wire_observer.cpp:117-130 | bytes are appended; on overflow the buffer keeps the newest only |
| `Streams.StreamBuffer.Drain` | apps/observer/wire_observer.cpp:186-208 | the loop emits exactly the frames in the buffer and keeps the rest |
| `Streams.StreamBuffer.Feed` | apps/client/order_sender.c:113-144 | a chunk yields exactly the frames the longer stream has over the shorter |
| `Streams.FeedAll` | apps/observer/wire_observer.cpp:210-230 | for every chunking the buffer can take beside what it carries the frames are those of the whole stream |
| `OrderTable.LiveOrderTable.constructor` | include/hft/engine/itch_book_adapter.hpp:15-21 | the size is the least power of two from the capacity asked for, the mask is one below it and the map is empty |
| `OrderTable.LiveOrderTable.Find` | include/hft/engine/itch_book_adapter.hpp:22-34 | finds exactly the live keys with their handles, also with no empty slot left |
| `OrderTable.LiveOrderTable.Insert` | include/hft/engine/itch_book_adapter.hpp:35-44 | the probe ends; a new key is gained by the map and nothing else changes; the table stays sound if and only if the key is not one of the two marks and, when live, has no tombstone before it on its probe path |
| `OrderTable.RewriteOk` | include/hft/engine/itch_book_adapter.hpp:35-44 | writing a live key where it stands keeps every probe chain |
| `OrderTable.SecondCopy` | include/hft/engine/itch_book_adapter.hpp:35-44 | writing a live key into a tombstone before it leaves a table that represents no map at all |
| `OrderTable.BehindTombstone` | include/hft/engine/itch_book_adapter.hpp:35-44 | counterexample: a sound table where insert of a live key stops at a tombstone before it and leaves slots that stand for no map |
| `OrderTable.ProbeEndsIff` | include/hft/engine/itch_book_adapter.hpp:35-44 | the unbounded probe of insert meets a slot to stop at if and only if the key is live or not every slot is |
| `Bytes.MaskIsMod` | include/hft/engine/itch_book_adapter.hpp:15-25 | a bitwise and with a power of two less one is the remainder, so masked probing goes round the table |
| `OrderTable.LiveOrderTable.Erase` | include/hft/engine/itch_book_adapter.hpp:45-49 | the map loses exactly the key |
| `OrderTable.InsertOk` | include/hft/engine/itch_book_adapter.hpp:35-44 | writing a new key where its probe first met no live order keeps every key findable |
| `OrderTable.EraseOk` | include/hft/engine/itch_book_adapter.hpp:45-49 | a tombstone cuts no other probe short |
| `OrderTable.RoomLeft` | include/hft/engine/itch_book_adapter.hpp:72-77 | with fewer live orders than slots every insert probe meets a slot it can use |
| `Checksum.FoldLoop` | include/hft/utils/checksum.h:46-50 | the fold loop ends and computes the fold |
| `Checksum.FoldResidue` | include/hft/utils/checksum.h:46-50 | the fold is the residue modulo 65535, with 65535 for non-zero multiples (section 1 of RFC 1071) |
| `Checksum.ScalarSum` | include/hft/utils/checksum.h:37-43 | the scalar loop is seed plus word sum modulo 2^32 |
| `Checksum.LaneParallelSum` | include/hft/utils/checksum.h:9-44 | the eight-lane form with its horizontal adds is seed plus word sum modulo 2^32, for every length and seed |
| `Checksum.WireChecksum` | include/hft/protocol/wire.h:47-59 | the carry-per-step form is the complement of the folded word sum |
| `Checksum.DeferredAgreesIff` | include/hft/utils/checksum.h:46-50 | the 32-bit deferred form agrees with it if and only if the wraps of the accumulator do not show, so for every sum below 2^32 |
| `AfxdpTx.Replace2Iff` | src/afxdp/afxdp_tx.c:75-81 | the incremental update equals the checksum from scratch if and only if something is left to sum (section 3 of RFC 1624) |
| `AfxdpTx.PatchIsExact` | src/afxdp/afxdp_tx.c:284-296 | for every address pair and length the patched IP checksum is the one from scratch |
| `AfxdpTx.IpHeaderVerifies` | src/afxdp/afxdp_tx.c:68-71 | a header that carries its checksum folds to all ones |
| `AfxdpTx.UdpAlwaysVerifies` | src/afxdp/afxdp_tx.c:301-311 | the UDP checksum always verifies at an RFC 768 receiver |
| `AfxdpTx.BuildTemplate` | src/afxdp/afxdp_tx.c:115-151 | the template holds the headers for its length |
| `AfxdpTx.PatchHeaders` | src/afxdp/afxdp_tx.c:284-296 | whatever length the template was laid out for, the patched headers are those of the payload |
| `AfxdpTx.UdpChecksumOf` | src/afxdp/afxdp_tx.c:301-311 | the one-pass sum is the checksum of the segment, never zero |
| `AfxdpTx.FillFrame` | src/afxdp/afxdp_tx.c:259-311 | for every payload of 1 to MAX_PAYLOAD bytes the frame is the datagram with both checksums from scratch, and other lengths are refused |
| `FillSim.FillsConserve` | include/hft/engine/sim/fill_sim.hpp:38-71 | over any mix of trades the fills are exactly what the quote lost, so never more than it had |
| `FillSim.AtLevel` | include/hft/engine/sim/fill_sim.hpp:59-67 | trades at our level of total volume T fill min(q, max(0, T - a)) however T is split |
| `FillSim.Sweep` | include/hft/engine/sim/fill_sim.hpp:54-58 | one print through our price fills all that is left |
| `FillSim.MixedPrints` | include/hft/engine/sim/fill_sim.hpp:38-71 | while nothing prints through our price, fills and the quote left depend only on the volume printed at it: the queue ahead first, then us |
| `FillSim.ShortPrints` | include/hft/engine/sim/fill_sim.hpp:46-49 | trades that all stay short of our price fill nothing and leave the quote as it was |
| `FillSim.FillsExactly` | include/hft/engine/sim/fill_sim.hpp:38-71 | over any trades at all, everything is filled if one prints through our price, else what the volume at it leaves beyond the queue |
| `FillSim.Sim.OnQuote` | include/hft/engine/sim/fill_sim.hpp:27-31 | the side's quote is replaced and the other side kept |
| `FillSim.Sim.OnCancel` | include/hft/engine/sim/fill_sim.hpp:33-36 | the side's quote is cleared and the other side kept |
| `FillSim.Sim.OnTrade` | include/hft/engine/sim/fill_sim.hpp:38-71 | the quote, the fill and its price are the model's |
| `Pnl.RealizedIdentity` | include/hft/engine/strategy/mm_mean_reversion.hpp:284-319 | after every fill sequence booked profit is cash plus inventory at average entry price, and the rounded total is within half a tick per closing fill |
| `Pnl.MarkToMarket` | include/hft/engine/strategy/mm_mean_reversion.hpp:201-207 | reported realized plus unrealized profit is cash plus inventory at mid, within half a tick per closing fill and half for the mark |
| `CostBasis.OpeningAverages` | include/hft/engine/strategy/mm_mean_reversion.hpp:292-302 | fills that open or add to a position make its entry price the average by quantity of all that is held, and book no profit |
| `CostBasis.ReducingBooks` | include/hft/engine/strategy/mm_mean_reversion.hpp:304-319 | fills that reduce a position without closing it leave its entry price alone and book, before rounding, what they traded for less what the quantity cost |
| `CostBasis.FlippingReprices` | include/hft/engine/strategy/mm_mean_reversion.hpp:304-319 | a fill of the whole position or more books it all at its entry price, and what is over opens the other way at the fill's price |
| `CostBasis.TallyExact` | include/hft/engine/strategy/mm_mean_reversion.hpp:284-319 | over any fills the position is their net, the cash their net cost, and profit is booked exactly by the fills that reduce a position |
| `CostBasis.AverageWithin` | include/hft/engine/strategy/mm_mean_reversion.hpp:284-319 | over any fills the entry price of an open position lies between the lowest and the highest price traded |
| `CostBasis.RoundIs` | include/hft/engine/strategy/mm_mean_reversion.hpp:306-310 | rounding is to the nearest integer and of two as near to the one further from zero |
| `TradingDesk.ApplyPnl` | include/hft/engine/strategy/mm_mean_reversion.hpp:284-319 | the fill accounting code computes the model's position |
| `MarketMaker.OnBookOk` | include/hft/engine/strategy/mm_mean_reversion.hpp:86-188 | one book event keeps inventory plus resting quantity within hard band plus one quote on each side, the books and the token ranges |
| `MarketMaker.OnTradeOk` | apps/engine/dispatcher.cpp:121-129 | a trade and its fill keep the same |
| `MarketMaker.QuoteIfOk` | include/hft/engine/strategy/mm_mean_reversion.hpp:168-185 | a quote goes out only where all of it fits under the bound |
| `MarketMaker.InventoryWithin` | include/hft/engine/strategy/mm_mean_reversion.hpp:112-124 | the inventory is within the bound, and a panic band at or above it is not crossed |
| `MarketMaker.FlattenClearsIff` | include/hft/engine/strategy/mm_mean_reversion.hpp:263-269 | a kill clears a side if and only if it is marked resting or has nothing left; both marks are gone, nothing else changes and nothing is sent |
| `MarketMaker.ResidualSurvives` | include/hft/engine/strategy/mm_mean_reversion.hpp:190-197 | counterexample family: what a partial fill leaves outlives the kill |
| `Quoting.ObserveMoves` | include/hft/engine/strategy/mm_mean_reversion.hpp:105-110 | the first book sets the average to its mid price, each later one takes it the given part of the way there, so it stays between the two |
| `Quoting.AverageStays` | include/hft/engine/strategy/mm_mean_reversion.hpp:105-110 | over any books the average stays within the range of their mid prices |
| `Quoting.InventoryLowersPrices` | include/hft/engine/strategy/mm_mean_reversion.hpp:126-138 | a longer position never raises either price, across the soft band too |
| `Quoting.InventoryTicks` | include/hft/engine/strategy/mm_mean_reversion.hpp:126-138 | an inventory skew of n ticks moves both prices n ticks against the position |
| `Quoting.FlatPrices` | include/hft/engine/strategy/mm_mean_reversion.hpp:130-138 | flat with the mid at the average, the bid is the greatest tick at or below the average less the half spread and the ask the least at or above it plus the half spread |
| `Quoting.SpreadIs` | include/hft/engine/strategy/mm_mean_reversion.hpp:135-138 | bid and ask are twice the half spread apart, plus one tick if and only if their centre is not on a tick |
| `Quoting.PricesRevert` | include/hft/engine/strategy/mm_mean_reversion.hpp:130-138 | a mid above the average lowers both prices and one below raises them, by no more than the cap |
| `Quoting.RevertTicks` | include/hft/engine/strategy/mm_mean_reversion.hpp:130-138 | tick for tick up to the cap, and by the cap beyond it |
| `Quoting.MirrorPrices` | include/hft/engine/strategy/mm_mean_reversion.hpp:126-138 | turn average, mid and position round and the bid is the ask turned round |
| `Quoting.BlockedIff` | include/hft/engine/strategy/mm_mean_reversion.hpp:147-148 | a side is blocked if and only if the position on that side is beyond the hard band |
| `Quoting.BandIs` | include/hft/engine/strategy/mm_mean_reversion.hpp:115-117 | a band is the whole part of its share of the largest position |
| `Quoting.QuotesTrack` | include/hft/engine/strategy/mm_mean_reversion.hpp:86-188 | where an event quotes and has two messages to spend, each side not blocked rests at the price for the new book in full size, behind the touch if it joins it, or stays if within the threshold; a blocked side is taken out; and exactly the messages for that go out, cancels first |
| `Quoting.NoBudget` | include/hft/engine/strategy/mm_mean_reversion.hpp:153-185 | without a message to spend nothing goes out and no quote changes |
| `Quoting.HaltsIff` | include/hft/engine/strategy/mm_mean_reversion.hpp:119-124 | a book event halts the symbol if and only if its position is beyond the panic band, and never moves the position |
| `Quoting.IdleEvents` | include/hft/engine/strategy/mm_mean_reversion.hpp:91-102 | an event that does not quote sends nothing, and leaves the quotes alone unless the symbol is halted |
| `Quoting.TradeMoves` | apps/engine/dispatcher.cpp:121-129 | a trade moves the position by what the quote lost, at the quote's own price, clears its mark if anything filled and leaves the other side alone |
| `TradingRuns.RunOk` | apps/engine/dispatcher.cpp:86-132 | the desk invariant holds on every symbol in every state of every run |
| `TradingRuns.InventoryBound` | include/hft/engine/strategy/mm_mean_reversion.hpp:112-197 | in every state of every run of events, trades, kills and arms, on every symbol: inventory plus bid quantity and its mirror are within hard band plus quote quantity, the panic band at or above that is never crossed, and the profit identity holds |
| `TradingRuns.NextCalls` | include/hft/engine/strategy/mm_mean_reversion.hpp:229-261 | an event is one refill-and-spend on the shared bucket and its symbol's, and none on the others |
| `TradingRuns.MessageRate` | include/hft/engine/strategy/mm_mean_reversion.hpp:229-261 | in every stretch of every run whose clock does not step back, whatever was refilled before it and whatever the first event is, fewer than burst + 1 + rate * (t2 - t1) / 1e9 messages go out, in all and per symbol |
| `TradingRuns.MessageService` | include/hft/engine/strategy/mm_mean_reversion.hpp:229-261 | over runs: when a bucket has run dry in a stretch in which it was never full, all its tokens and more than half of what the time earned, less one, were sent |
| `TradingHalts.HaltedExposure` | include/hft/engine/strategy/mm_mean_reversion.hpp:86-96 | from a kill until the symbol is armed again no message of it goes out and its position stays within what the quotes resting at the kill could reach, in every run |
| `TradingHalts.SwitchesWork` | include/hft/engine/strategy/mm_mean_reversion.hpp:210-226 | a kill halts and an arm frees, one symbol or all; no switch touches a position or quote, sends anything, or reaches a symbol it is not for |
| `TradingHalts.OthersUntouched` | apps/engine/dispatcher.cpp:121-131 | a book event touches no other symbol |
| `Buckets.RefillInRange` | src/engine/risk/risk.cpp:25-37 | tokens stay between 0 and the burst |
| `Buckets.RefillPays` | src/engine/risk/risk.cpp:25-37 | where the product fits its width a refill pays every whole token the time since the last one is worth, up to the burst, and keeps its clock when that is none |
| `Buckets.EmptyEarnedNothing` | include/hft/engine/strategy/mm_mean_reversion.hpp:229-253 | a bucket still empty after a refill has earned less than one token |
| `Buckets.PauseFills` | src/engine/risk/risk.cpp:25-37 | a pause worth the burst fills the bucket |
| `Buckets.ClockStarts` | src/engine/risk/risk.cpp:27-27 | the first refill starts the clock and pays nothing |
| `Buckets.NothingLostIff` | src/engine/risk/risk.cpp:28-36 | a refill below the burst pays for all the time it moves the clock over if and only if it pays nothing or the time earned whole tokens |
| `Buckets.FractionLost` | include/hft/engine/strategy/mm_mean_reversion.hpp:229-240 | counterexample: almost two tokens' worth of time pays one and moves the clock over all of it |
| `Buckets.ServiceBound` | src/engine/risk/risk.cpp:25-62 | over any calls on a bucket that never fills up, what was taken and what is left are more than half of what the time earned, less one token |
| `Buckets.WorthGrows` | src/engine/risk/risk.cpp:25-37 | what a bucket can still pay grows with time by at most the rate, also where the product wraps or narrows |
| `Buckets.RateBound` | src/engine/risk/risk.cpp:25-62 | any calls in time order between t1 and t2, from any state of the bucket and its clock and through every wrap and narrowing, take fewer than burst + 1 + rate * (t2 - t1) / 1e9 tokens |
| `Risk.RunSafe` | src/engine/risk/risk.cpp:39-62 | over any run of signals net accepted quantity is within 10000 per symbol, accepted orders are at most 500 and tokens stay in range |
| `Risk.GateRate` | src/engine/risk/risk.cpp:25-62 | the rate bound for the orders the gate accepts, from any state of its clock |
| `Risk.AcceptedIff` | src/engine/risk/risk.cpp:39-62 | a signal is accepted if and only if a token is left after the refill, its size is within 500 and its symbol's accepted net with it within 10000 either way |
| `Risk.GateServes` | src/engine/risk/risk.cpp:25-62 | when the gate has run dry it has accepted all the tokens it had and more than half of what the time earned, less one |
| `Risk.RunTurnover` | src/engine/risk/risk.cpp:60-61 | over any run the day's notional is that of the accepted signals, in 64 bits |
| `Risk.RiskGate.constructor` | src/engine/risk/risk.cpp:9-17 | a full bucket, unprimed clock and flat positions |
| `Risk.RiskGate.SetLimits` | src/engine/risk/risk.cpp:19-23 | zero keeps a knob and a new burst refills the bucket |
| `Risk.RiskGate.InlineRefill` | src/engine/risk/risk.cpp:25-37 | the refill is the model's |
| `Risk.RiskGate.CheckAndFill` | src/engine/risk/risk.cpp:39-62 | the gate takes exactly the model's step; the notional limits never bind |
| `TradingDesk.Maker.constructor` | include/hft/engine/strategy/mm_mean_reversion.hpp:71-76 | every symbol starts fresh with a full bucket |
| `TradingDesk.Maker.RefillBuckets` | include/hft/engine/strategy/mm_mean_reversion.hpp:229-253 | both buckets are refilled as the model |
| `TradingDesk.Maker.TryConsume` | include/hft/engine/strategy/mm_mean_reversion.hpp:255-261 | a token is taken from both buckets or from neither |
| `TradingDesk.Maker.FlattenShard` | include/hft/engine/strategy/mm_mean_reversion.hpp:263-269 | flattening is the model's and touches no other symbol |
| `TradingDesk.Maker.CancelSide` | include/hft/engine/strategy/mm_mean_reversion.hpp:153-166 | the rate-limited cancel is the model's |
| `TradingDesk.Maker.QuoteSide` | include/hft/engine/strategy/mm_mean_reversion.hpp:168-185 | the rate-limited quote is the model's |
| `TradingDesk.Maker.RequoteSides` | include/hft/engine/strategy/mm_mean_reversion.hpp:141-185 | thresholds, blocks, cancels and quotes together are the model's |
| `TradingDesk.Maker.OnBookEvent` | include/hft/engine/strategy/mm_mean_reversion.hpp:86-188 | the event handler takes exactly the model's step and touches no other symbol |
| `TradingDesk.Maker.ApplyFill` | include/hft/engine/strategy/mm_mean_reversion.hpp:190-197 | a fill updates the position and clears the side's mark |
| `TradingDesk.Maker.ArmEverything` | include/hft/engine/strategy/mm_mean_reversion.hpp:222-226 | the global kill and every panic flag are cleared |
| `TradingDesk.TradingEngine.constructor` | apps/engine/dispatcher.cpp:86-132 | the engine starts in a sound state with empty books and one simulator for each symbol |
| `TradingDesk.TradingEngine.ApplyEvent` | apps/engine/dispatcher.cpp:86-132 | trade, fill and book event in place take exactly the step of the run model, keep the desk invariant on all symbols, and leave every position within hard band plus one quote |
| `TradingDesk.TradingEngine.Kill` | include/hft/engine/strategy/mm_mean_reversion.hpp:214-217 | killing one symbol is the run model's step and keeps the desk invariant |
| `TradingDesk.TradingEngine.Arm` | include/hft/engine/strategy/mm_mean_reversion.hpp:210-213 | arming one symbol is the run model's step and keeps the desk invariant |
| `TradingDesk.TradingEngine.KillAll` | include/hft/engine/strategy/mm_mean_reversion.hpp:218-221 | the global kill is the run model's step and keeps the desk invariant |
| `TradingDesk.TradingEngine.ArmAll` | include/hft/engine/strategy/mm_mean_reversion.hpp:222-226 | arming everything is the run model's step and keeps the desk invariant |

## Left out

- The vendored order book and the adapter methods that drive it: the top of book is an arbitrary input, an order handle an opaque value.
- Field decoding of ITCH messages with vector shuffles: fixed byte permutations; a decoded event is an input.
- The rewinder's reader against its writer: a request is served atomically.
- OrderTable.LiveOrderTable.Insert: needs the key live or a slot that is not, which are exactly the calls whose loop ends (`OrderTable.ProbeEndsIff`).
- OrderTable.LiveOrderTable.Find: the hash function is left arbitrary.
- Feed.TimestampFeed: needs every complete message of the file to fit a packet, because the code copies it into the packet unchecked; pacing by timestamp is not modelled.
- GapRecovery.GapCloses: that the pool does not fill up and that the window still covers the gap are conditions; how often a request or its first reply is lost is left open.
- Recovery.RecoveryMakesProgress: the five-millisecond limit on repeated requests and the request's own loss are not modelled.
- UdpReceiver.Receiver.KernelDeliver: fill ring, kernel and RX ring are one step from fill ring to burst; a frame's content is its parsed packet, which `FrameFilter` and `Mold.ParseEncode` connect to bytes.
- Streams.StreamBuffer.Feed: within one connection; the acknowledgement carry that survives a reconnect and partly sent acknowledgements are not modelled.
- Oms.OrderRing.Submit: the 64-bit order id does not wrap.
- TradingDesk.Maker.RefillBuckets: adding earned tokens is assumed not to overflow 32 bits, and parameters are fixed after startup.
- MarketMaker.OnBookOk: rounding of doubles is not modelled, and the counters kept for display are left out.
- Simulated quotes rest before the risk gate is asked, so nothing is claimed about the gate for them.
- The AF_XDP transmit free list, completion ring and descriptor; sockets, thread pinning, the dead-man timer, telemetry, the dashboard and the scripts: plumbing around the modelled logic.
