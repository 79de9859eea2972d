# Verification of the nps core

A Dafny model of the parts of nps on which its tunnels rest, with proofs about them. The centre is `lib/nps_mux`, the
multiplexer that carries every proxied connection over one tunnel:

- **The credit window** (`Window`, `Protocol`, `ProtocolTheorems`, `Credits`, `Boundaries`, `Conn`). `Protocol` is one
  direction of a connection as a system of steps: the writer, the goroutine that applies credits, a data channel, the
  goroutine that delivers frames, the reader, and a credit channel back. Its threads interleave freely; every load and
  compare-and-swap of a window word and every channel operation is a step of its own. Coarser are a resize by calcSize
  (its loop is one step) and the receive queue, whose Push is two steps and whose Pop is two or, at the end of the
  stream, one; `WindowQueue` and `QueueLink` below refine these to single accesses. `ProtocolTheorems` says what holds
  in every reachable state (credit conservation, the byte stream, the window bound, no lost wake-up) and that under
  every schedule a parked writer is released and a closed stream is read to its end. `Credits` says what the credits
  carry and what the sender makes of them. `Boundaries` watches where Writes end and Reads return. `Conn` has the same
  two windows as objects whose methods update their fields, undisturbed.
- **The queues** (`Ring`, `BufDequeue`, `Dequeue`, `DequeueOverlap`, `Chain`, `WindowQueue`, `QueueLink`). The ring buffer
  as an object and as a system of single atomic accesses by any number of goroutines, the growing chain of rings with one
  producer and one consumer, which refines an unbounded FIFO, and the receive queue with its length and wait bit on top of
  such a FIFO. `QueueLink` puts that receive queue in place of the one of `Protocol`: every run is again a run of
  `Protocol`, and the progress theorems hold with the retries and the sleep of the queue counted in.
- **The packet scheduler** (`Scheduler`), **the frame codec** (`Packager`) and both joined to the byte stream between the two
  ends (`Transport`). `Link` turns a connection's frames and credits into packets and back, and `Tunnel` puts the tunnel in
  place of the channels of `Protocol`: every run on the wire is a run of `Protocol`. `TunnelProgress` bounds the runs on the
  wire and shows what they end in, for every schedule and any other traffic.

Around it stand five independent pieces: the TLS ClientHello reader (`ClientHello`, `HelloMeaning`), the LRU cache
(`Lru`), the port shuffle of the P2P client (`PortShuffle`), the token bucket (`TokenBucket`) and the SOCKS5 UDP
datagrams (`SocksUdp`).

Five results go against what one would expect from reading the code:

- The comment on `popTail` (lib/nps_mux/queue.go:428-430) allows any number of consumers. Overlapping calls do keep the
  order as long as no slot is reserved again while a call runs that loaded its previous index. Once that happens the late
  call can take a newer value before older ones, and the value it passed over is overwritten by the next push and lost.
  `DequeueOverlap.FifoIff` and `DequeueOverlap.NothingLostIff` give the exact number of reservations up to which nothing
  can go wrong with two or more consumers, and `DequeueOverlap.TakeKeepsFifoIff` which compare-and-swap breaks the order.
  The chains of the multiplexer have one consumer until the connection or the Mux is closed; then `release`
  (lib/nps_mux/conn.go:403-420, lib/nps_mux/mux.go:342-361) pops them too, possibly beside that consumer.
- A `ClientHelloMsg` that is read into twice keeps four fields of the first message unless the second sets them
  (`ClientHello.CarryOver`, `ClientHello.CarryOverHappens`). The proxy makes a new object for each message
  (server/proxy/https.go:285) and does not meet this.
- A ClientHello whose host name ends in a dot is rejected and leaves that name as the server name all the same
  (`ClientHello.DottedHostIsServed`); the proxy reads the name without asking whether the message was accepted
  (server/proxy/https.go:285-287). `ClientHello.RejectedServerName` says what any rejected message leaves.
- After accesses that add on a miss, a bounded LRU cache has the keys of an unbounded one but not always its values: exactly
  those runs keep them in which no evicted key is stored again with a value other than the unbounded cache's
  (`Lru.AccessEntriesAgreeIff`).
- Fed by its ticks alone, `Rate.Get` never returns for a size above twice the rate (`TokenBucket.LoneGetIsServed`).

`dafny verify dfyconfig.toml` checks the whole project.

## Model

| member | source | states |
|---|---|---|
| `Window.PackUnpack` | lib/nps_mux/conn.go:127-146 | a packed window word holds the low 31 bits of the count in bits 0 to 30, of the size in bits 32 to 62 and the flag in bit 63, and unpacking gives them back |
| `Window.UnpackPack` | lib/nps_mux/conn.go:127-146 | a 64-bit word is rebuilt from its three fields exactly when bit 31 is clear |
| `Window.ArrivalReports` | lib/nps_mux/conn.go:272-297 | an arrival sets the wait bit exactly when it was set or the queue with the segment reaches the window; with the bit clear the whole count is reported with the size of the window and nothing is kept, and with it set nothing is reported |
| `Window.ConsumedReports` | lib/nps_mux/conn.go:351-373 | without an overflow the end of an element is reported exactly when half the window was read, a blocked peer has room again or the queue is empty, and then with the size of the window and the whole count |
| `Window.OverflowReports` | lib/nps_mux/conn.go:374-381 | when the count would overflow its old value is reported and it starts again with the element |
| `Window.CreditSlides` | lib/nps_mux/conn.go:466-495 | the sender's window takes the size in a credit, what it says was read is no longer outstanding, a waiting sender is woken exactly if that leaves room, and a credit for more than was sent is refused |
| `Protocol.InitInv` | lib/nps_mux/conn.go:171-179 | the invariant of the step system holds when both windows are new |
| `Protocol.WriterKeeps` | lib/nps_mux/conn.go:508-635 | every step of WriteFull, WriteTo, sent and Close keeps credits, byte stream, channel shape and window bound, whatever the other threads did since its last load |
| `Protocol.AckerKeeps` | lib/nps_mux/conn.go:453-506 | every step of SetSize and allow keeps the invariant, retried swaps with the kept local wait flag included |
| `Protocol.DelivererKeeps` | lib/nps_mux/conn.go:260-298 | every step of receiveWindow.Write, with any new window size in place of the calculated one, keeps the invariant |
| `Protocol.ReaderKeeps` | lib/nps_mux/conn.go:310-385 | every step of readFromQueue and sendStatus keeps the invariant |
| `Protocol.RunKeeps` | lib/nps_mux/conn.go:260-635 | the invariant survives every run of interleaved steps |
| `ProtocolTheorems.CreditConservation` | lib/nps_mux/conn.go:453-498 | in every reachable state the bytes sent and not credited are exactly those in the channel, at the receiver, unreported or in credits on their way; a credit is never rejected, `send -= read` never underflows, and the overflow branches are never taken |
| `ProtocolTheorems.ReadsArePrefixOfWrites` | lib/nps_mux/conn.go:310-346 | in every reachable state written == delivered + what is at the receiver + what is in flight or unsent, in that order |
| `ProtocolTheorems.EofMeansEverythingWasRead` | lib/nps_mux/conn.go:310-330 | a reader that sees the end of the stream has read every byte written, and the writer has closed |
| `ProtocolTheorems.WindowBound` | lib/nps_mux/conn.go:526-575 | in every reachable state bytes outstanding, a segment cut but not yet counted included, and the receive queue length never exceed the largest window the sender was told; the unreported count stays below 2^30 |
| `ProtocolTheorems.TopWasAdvertised` | lib/nps_mux/conn.go:453-496 | that largest window really was the sender's window size at some point of the run |
| `ProtocolTheorems.NoLostWakeUp` | lib/nps_mux/conn.go:476-506 | the wait bit is set only while the writer is parked on an exhausted window; a parked writer has its wait bit set or a credit about to signal it, never both |
| `ProtocolTheorems.ParkedMeansOutstanding` | lib/nps_mux/conn.go:348-385 | a parked writer has data, credits, unread bytes or a busy thread outstanding: nothing read is kept unreported when the receiver is drained |
| `ProtocolTheorems.MeasureFalls` | lib/nps_mux/conn.go:260-385 | every step of the credit, delivery and reading threads lowers one natural-number measure, lost compare-and-swaps included |
| `ProtocolTheorems.RunsAreBounded` | lib/nps_mux/conn.go:260-385 | a run without steps of the writer is no longer than the measure of its first state |
| `ProtocolTheorems.WindowReopens` | lib/nps_mux/conn.go:526-607 | deadlock freedom: such a run is bounded, as long as the writer is parked one of the other threads can still move, and when none can the writer is not parked |
| `ProtocolTheorems.ParkedWriterIsReleased` | lib/nps_mux/conn.go:493-506 | however the other threads are scheduled they release a parked writer within the measure: in every state of every such run it is about to try again, or still parked with one of them able to move |
| `ProtocolTheorems.CloseReachesEof` | lib/nps_mux/conn.go:310-330 | however the other threads are scheduled after Close, in every state of every such run the reader is at the end of the stream or one of them can move, and the run is no longer than the measure |
| `ProtocolTheorems.WriteThenCloseDeliversAll` | lib/nps_mux/mux.go:268-299 | end to end, for every schedule of the other threads after Close: the run is bounded, can be continued until the reader is at the end of the stream, and then exactly the bytes written have been read |
| `ProtocolTheorems.DrainingRun` | lib/nps_mux/mux.go:268-299 | there is such a run to the end of the stream |
| `Credits.CreditsCarryAdvertisedWindows` | lib/nps_mux/conn.go:260-495 | over every run each credit on its way or in a thread's hands, the sender's window and the largest window it was told are windows that the receiver had at some state of that run |
| `Credits.ArrivalCredits` | lib/nps_mux/conn.go:275-297 | a successful swap of an arrival with room leaves nothing unreported and puts a credit with the present window and the whole count on its way; without room it sets the wait bit and keeps the count, and a set bit changes nothing |
| `Credits.ArrivalMeasures` | lib/nps_mux/conn.go:181-189 | an arrival has room exactly when the queue as measured and the segment together are shorter than the window |
| `Credits.ConsumptionCredits` | lib/nps_mux/conn.go:351-383 | a successful swap of sendStatus puts a credit with the present window and the whole count on its way exactly when half the window was read, a blocked peer has room again or the queue was measured empty, and else adds the element to the count |
| `Credits.LessThanHalfIsKept` | lib/nps_mux/conn.go:351-383 | after it less than half a window is unreported |
| `Credits.CreditIsApplied` | lib/nps_mux/conn.go:466-495 | a successful swap of SetSize gives the sender the window in the credit, frees exactly what it says was read, and is about to wake a parked writer exactly if that leaves room |
| `Credits.LongestSegmentIsCut` | lib/nps_mux/conn.go:536-578 | the writer cuts the longest segment that the rest of the buffer, the cap of 4085 bytes and the loaded window allow, and parks exactly when that window is used up |
| `Conn.CutReadsBack` | lib/nps_mux/conn.go:560-577 | however a Write was cut into segments, the part flags give its boundary back to the reading side, whatever is queued behind it |
| `Boundaries.StepAligns` | lib/nps_mux/conn.go:310-346 | every step of Protocol keeps segments, element, buffer and the Read in progress aligned with the ends of the Writes |
| `Boundaries.ReadReturnsRestOfWrite` | lib/nps_mux/conn.go:310-346 | over every run, whatever arrives during the call: a Read that returns bytes has returned min(what it asked for, what its Write had left), so it never crosses the end of a Write and is short only there |
| `Conn.SendWindow.constructor` | lib/nps_mux/conn.go:432-437 | a new send window has the initial size, nothing sent and nobody waiting |
| `Conn.SendWindow.SetSize` | lib/nps_mux/conn.go:453-496 | an undisturbed credit gives the window its size and frees exactly the bytes it says were read, wakes a parked writer exactly if that leaves room, and changes nothing if it is for more than was sent |
| `Conn.SendWindow.Sent` | lib/nps_mux/conn.go:508-524 | adds exactly the segment to the bytes sent, size and flag unchanged, unless the count would overflow: then it leaves the word alone |
| `Conn.SendWindow.WriteTo` | lib/nps_mux/conn.go:526-578 | cuts the longest segment that rest, cap and window allow, marks it part exactly when more remains, and counts it; or finds the buffer drained; or parks when the window is exhausted |
| `Conn.SendWindow.WriteFull` | lib/nps_mux/conn.go:609-635 | the segments sent are a cut of the data whose bytes are the data up to `off`; all of it unless the credits run out with the window closed; the count equals sent less credited |
| `Conn.ReceiveWindow.constructor` | lib/nps_mux/conn.go:171-179 | a new receive window is empty with the initial size |
| `Conn.ReceiveWindow.Write` | lib/nps_mux/conn.go:260-298 | a frame joins the queue; the wait bit is set exactly when it was or the queue reaches the window; with the bit clear a credit with the window and the whole unreported count is sent and nothing is kept, with it set neither; the ledger grows by the frame |
| `Conn.ReceiveWindow.SendStatus` | lib/nps_mux/conn.go:348-385 | a credit with the window and the whole count is sent exactly when half the window was read, a blocked peer has room again or the queue is empty, or with the old count on an overflow; the window keeps its size and nothing read is lost |
| `Conn.ConsumedAccounts` | lib/nps_mux/conn.go:348-385 | what was read is afterwards counted or reported, on overflow too, and with the queue empty and no overflow nothing is kept back |
| `Conn.ReceiveWindow.ReadFromQueue` | lib/nps_mux/conn.go:310-346 | the buffer gets min(len(p), available bytes of the current Write) bytes, unchanged and in order, and keeps the rest of its content; the call sleeps only if that Write has not ended and there is room |
| `Ring.WrapKeepsSlot` | lib/nps_mux/queue.go:412-412 | a wrapped 32-bit index has the slot of the unbounded index, for every power-of-two size within the limit |
| `Ring.SlotIsMasked` | lib/nps_mux/queue.go:412-412 | masking the wrapped index with size - 1 selects that slot |
| `Ring.MaskIsRemainder` | lib/nps_mux/queue.go:412-412 | masking a number with a power of two less one leaves its remainder |
| `Ring.FullAndEmpty` | lib/nps_mux/queue.go:403-407 | the full and empty tests on wrapped indices mean that the ring holds as many values as slots, or none, however often the indices wrapped |
| `Ring.ReserveKeeps` | lib/nps_mux/queue.go:408-424 | advancing the head index keeps the ring invariant and the slot reserved is empty |
| `Ring.StoreKeeps` | lib/nps_mux/queue.go:423-425 | storing into a reserved slot disturbs no other slot |
| `Ring.ClearKeeps` | lib/nps_mux/queue.go:440-452 | clearing the slot at the tail removes exactly the oldest value |
| `Ring.AdvanceKeeps` | lib/nps_mux/queue.go:456-461 | the 64-bit addition advances the tail index and leaves the head index alone, at the top of the range too |
| `BufDequeue.BufDequeue.constructor` | lib/nps_mux/queue.go:345-371 | a dequeue of a power-of-two size is empty |
| `BufDequeue.BufDequeue.PushHead` | lib/nps_mux/queue.go:397-426 | undisturbed, it appends the value exactly when fewer values than slots are queued, and otherwise changes nothing |
| `BufDequeue.BufDequeue.PopTail` | lib/nps_mux/queue.go:431-463 | undisturbed, it removes and returns the oldest value, and reports empty exactly when there is none |
| `Dequeue.StepKeeps` | lib/nps_mux/queue.go:397-463 | every access of any number of producers and consumers keeps the invariant, if a slot is taken only while the tail is where the taker loaded it |
| `Dequeue.UnlappedIsInPlace` | lib/nps_mux/queue.go:431-452 | with calls of popTail overlapping freely, slots are taken in place as long as no slot is reserved again under a running call that loaded its index |
| `Dequeue.ApartIsUnlapped` | lib/nps_mux/queue.go:431-452 | that is so when calls of popTail do not overlap |
| `Dequeue.FewReservationsGiveInv` | lib/nps_mux/queue.go:397-463 | and in every run with no more reservations than slots |
| `Dequeue.DisciplinedIsFifo` | lib/nps_mux/queue.go:397-463 | in every state so reached the values popped are a prefix of the reservation order, and at most one consumer is between clearing a slot and advancing the tail |
| `Dequeue.DisciplinedKeepsValues` | lib/nps_mux/queue.go:397-463 | there a value reserved and not popped is in its slot, or its producer is about to store it into the slot, which is empty |
| `Dequeue.DisciplinedSlotsAreOwned` | lib/nps_mux/queue.go:408-425 | there a reserved slot is empty, and no two producers hold the same slot |
| `Dequeue.DisciplinedReportsTruly` | lib/nps_mux/queue.go:403-407 | there empty is reported exactly when all reserved values were popped and the tail moved past them, full exactly when the ring holds as many as its slots |
| `DequeueOverlap.OverlapBreaksFifo` | lib/nps_mux/queue.go:428-463 | two overlapping calls of popTail can pop the newest value before the oldest: a run with one reservation more than slots, for every ring of two or more slots |
| `DequeueOverlap.OverlapLosesValue` | lib/nps_mux/queue.go:428-463 | and one reservation later a value is overwritten unpopped |
| `DequeueOverlap.TakeKeepsFifoIff` | lib/nps_mux/queue.go:438-446 | a compare-and-swap of popTail that succeeds keeps the order if and only if the slot it loaded is the one whose turn it is |
| `DequeueOverlap.FifoIff` | lib/nps_mux/queue.go:397-463 | every state with at most m reservations is in order if and only if a discipline is kept, or there is at most one consumer, or m does not exceed the number of slots; for rings of two or more slots with at least one producer |
| `DequeueOverlap.NothingLostIff` | lib/nps_mux/queue.go:397-463 | no state with at most m reservations has lost a value if and only if a discipline is kept, or there is at most one consumer, or m does not exceed the number of slots by more than one; for rings of two or more slots with at least one producer |
| `DequeueOverlap.NothingPoppedTwice` | lib/nps_mux/queue.go:397-463 | however calls of any number of producers and consumers overlap, a value is popped, in a slot or in a producer's hands, taken together, no more often than slots were reserved for it |
| `Chain.ProducerKeeps` | lib/nps_mux/queue.go:516-550 | every access of pushHead, growing included, keeps the invariant of the chain |
| `Chain.ConsumerKeeps` | lib/nps_mux/queue.go:552-590 | every access of popTail, leaving a dequeue behind included, keeps it |
| `Chain.ChainIsFifo` | lib/nps_mux/queue.go:507-590 | with one producer and one consumer the chain refines an unbounded FIFO: popped is a prefix of pushed in every reachable state |
| `Chain.StepRefinesFifo` | lib/nps_mux/queue.go:507-590 | every access is a step of an unbounded FIFO or none: the store of a value or of a link appends the value being pushed, the clearing of a slot takes the head, and the call returns that head |
| `Chain.ChainHoldsTheRest` | lib/nps_mux/queue.go:507-590 | nothing is lost: the values not popped are, in order, in the dequeues from the tail on |
| `Chain.EmptyWasTrue` | lib/nps_mux/queue.go:552-575 | empty is returned only if everything pushed when the link was loaded had been popped |
| `Chain.PassedDequeuesStayEmpty` | lib/nps_mux/queue.go:527-589 | a dequeue left behind is drained and never changes again; sizes are powers of two and double up to 2^30 |
| `Chain.GrowsWhenFull` | lib/nps_mux/queue.go:516-536 | the producer leaves the last dequeue for a new one exactly when that holds as many values as it has slots |
| `WindowQueue.LengthCoversQueue` | lib/nps_mux/queue.go:238-290 | the length field is never below the sum of the queued sizes, never underflows, and equals it when nobody is in the middle of a call |
| `WindowQueue.SleeperIsRemembered` | lib/nps_mux/queue.go:238-325 | no wake-up is lost: while the reader sleeps the queue is empty with the wait bit set, or a pusher has taken the bit and is about to signal |
| `WindowQueue.EofComesLast` | lib/nps_mux/queue.go:256-337 | the end of the stream is reported only after Stop and with everything pushed also popped, and leaves one of the two tokens of Stop |
| `WindowQueue.StopReachesReader` | lib/nps_mux/queue.go:292-337 | a stop token is never taken by a pusher, and a stopped reader that sleeps can take one |
| `WindowQueue.PopGetsOn` | lib/nps_mux/queue.go:256-325 | a call of Pop with something pushed, being pushed or stopped always has a next step that brings it nearer to returning |
| `QueueLink.StepRefines` | lib/nps_mux/queue.go:238-337 | with a connection around the receive queue, every single access of Push, Pop and Stop, failed swaps, sleeping and waking included, is a step of Protocol or none, and every other step of the connection is that step of Protocol |
| `QueueLink.QueueRefinesProtocol` | lib/nps_mux/queue.go:238-337 | so every state reached with the queue working by single accesses is a reachable state of Protocol |
| `QueueLink.CallsAreAccepted` | lib/nps_mux/queue.go:238-275 | a delivered segment always fits the length field, so Push can begin when the connection calls it, and Pop likewise |
| `QueueLink.QueueRefusesNothing` | lib/nps_mux/queue.go:238-337 | whenever Protocol can take a step there is an access that can be made toward it |
| `QueueLink.QueueDeliversAll` | lib/nps_mux/queue.go:238-337 | however the threads are scheduled after Close, retries and sleeps counted in, the run is bounded by the state it starts from, an access can be made as long as the reader is not at the end of the stream, and there it has read exactly the bytes written |
| `QueueLink.QueueReleasesWriter` | lib/nps_mux/queue.go:238-337 | and likewise a parked writer is released |
| `Scheduler.PriorityQueue.Push` | lib/nps_mux/queue.go:40-52 | a packet is appended to the chain of its class, flags 0 and 8 to the highest, 1, 2 and 6 to the middle one and all others to the lowest; the other chains and the counter stay |
| `Scheduler.PriorityQueue.TryPop` | lib/nps_mux/queue.go:86-118 | computes Popped, with the 8-bit wrap of the starvation counter |
| `Scheduler.PoppedTakesAHead` | lib/nps_mux/queue.go:86-118 | a pop takes the head of exactly one chain and returns nil only if all three are empty |
| `Scheduler.FifoPerClass` | lib/nps_mux/queue.go:40-118 | over every run, what leaves a class followed by what is queued is what was queued followed by what entered |
| `Scheduler.PingsComeFirst` | lib/nps_mux/queue.go:86-90 | over every run in which a ping always waits only pings are popped, one for each TryPop, and the counter does not move |
| `Scheduler.MiddleRunIsShort` | lib/nps_mux/queue.go:86-118 | while a low packet waits and none is popped at most 8 middle packets are, from any counter value |
| `Scheduler.LowRunIsShort` | lib/nps_mux/queue.go:86-118 | while a middle packet waits and none is popped at most 5 low packets are, from any counter value |
| `Scheduler.BoundsAreTight` | lib/nps_mux/queue.go:54-118 | both bounds are reached: any 8 middle packets pass a waiting low one from an idle counter, and any 5 low packets pass a waiting middle one from a counter at 255 |
| `Scheduler.LowsHalveTheCounter` | lib/nps_mux/queue.go:101-108 | over every run without a middle pop the counter ends as the quotient of its first value by two to the number of low pops |
| `Scheduler.LowPopsEarnMiddlePops` | lib/nps_mux/queue.go:86-118 | after such a run with k low pops from counter s exactly max(0, 8 - s / 2^k) of the middle packets then queued, or all if there are fewer, go before a waiting low one |
| `Scheduler.MiddleDrainsAlone` | lib/nps_mux/queue.go:91-116 | with the other classes empty the middle one drains in order from any value of the counter, which wraps at 256 |
| `Packager.MuxPackager.Set` | lib/nps_mux/netpackager.go:98-113 | afterwards the object stands for a packet that fits the format, with the given flag, id and body; content over the cap leaves it empty while the call succeeds |
| `Packager.MuxPackager.Pack` | lib/nps_mux/netpackager.go:115-131 | writes exactly the encoding of the packet the object stands for |
| `Packager.MuxPackager.UnPack` | lib/nps_mux/netpackager.go:133-156 | succeeds exactly when the stream starts with a complete packet, becomes that packet and consumes exactly its bytes |
| `Packager.MuxPackager.UnPackContent` | lib/nps_mux/netpackager.go:59-79 | reads exactly the content of a packet, or fails when it is cut short or over the cap |
| `Packager.NumberRoundTrip` | lib/nps_mux/netpackager.go:49-57 | numbers are read back from their bytes |
| `Packager.LowByteFirst` | lib/nps_mux/netpackager.go:49-57 | byte i of a number is its quotient by 256 to the power i, modulo 256 |
| `Packager.HeadLayout` | lib/nps_mux/netpackager.go:115-131 | the first five bytes of a packet are the flag and the id, low byte first, negative ids in two's complement |
| `Packager.BodyLayout` | lib/nps_mux/netpackager.go:49-131 | behind them flags 0, 3, 4 and 8 have the length, low byte first, and the content, flag 5 the window in eight bytes, low byte first, and the others nothing |
| `Packager.SmallFrames` | lib/nps_mux/netpackager.go:49-131 | a frame of one byte and a close, byte by byte |
| `Packager.DecodeEncode` | lib/nps_mux/netpackager.go:115-156 | every packet with content within the cap, negative ids and 64-bit windows included, is read back whatever follows it |
| `Packager.EncodeDecode` | lib/nps_mux/netpackager.go:133-156 | whatever is read fits the format and packs to exactly the bytes it was read from |
| `Packager.PrefixIsTruncated` | lib/nps_mux/netpackager.go:59-79 | no proper prefix of a packet is taken for a packet |
| `Packager.StreamRoundTrip` | lib/nps_mux/netpackager.go:115-156 | any list of packets survives the stream with nothing left over |
| `Transport.ReaderSeesOldest` | lib/nps_mux/mux.go:236-250 | the reader of the tunnel finds the oldest packet in flight or only a part of it, never one too large |
| `Transport.ClassIsFifoChannel` | lib/nps_mux/mux.go:123-166 | over every run of queueing, packing, arrival in arbitrary pieces and unpacking, the packets of each class arrive as a prefix of what was queued, the rest in flight and in the queue |
| `Transport.ConnectionIsFifoChannel` | lib/nps_mux/mux.go:123-166 | one connection's packets arrive in order as a prefix of those sent, whatever else the tunnel carries, and all of them once nothing is under way |
| `Link.MessageRoundTrip` | lib/nps_mux/mux.go:263-322 | every frame and credit of a connection is a packet of the format and of the lowest class, and the dispatch at the other end recognises it |
| `Link.MessageFlags` | lib/nps_mux/mux.go:14-24 | a part of a Write that goes on has flag 4, its last part 3, a close 7, and a credit 5 with the count in the low 31 bits of its window and the size from bit 32 on |
| `Link.TunnelCarriesBothChannels` | lib/nps_mux/mux.go:123-322 | over every run of the tunnel the other end of a connection is given a prefix of the frames and a prefix of the credits sent, in order, and all of them once nothing is under way |
| `Tunnel.StepSimulates` | lib/nps_mux/mux.go:123-322 | every step of a connection whose channels are the two directions of the tunnel, and every step of the tunnel itself with any other traffic, is a step of Protocol on the messages the tunnel holds, or none |
| `Tunnel.WireRefinesProtocol` | lib/nps_mux/mux.go:123-322 | so every state of the connection on the wire is a reachable state of Protocol |
| `Tunnel.WireDelivers` | lib/nps_mux/mux.go:123-322 | end to end on the wire, whatever else the tunnel carries and however its bytes arrive: bytes read are a prefix of bytes written, all of them at the end of the stream, and the credits balance with what is in the tunnel |
| `Tunnel.WireRefusesNothing` | lib/nps_mux/mux.go:123-322 | the wire holds a step of Protocol back only while what the step takes has not arrived |
| `TunnelProgress.SilentRunsAreBounded` | lib/nps_mux/mux.go:123-322 | on the wire a run without the writer is no longer than a measure of connection, queues, network and packets in flight, plus the other traffic it sends |
| `TunnelProgress.SomeWireStepEnabled` | lib/nps_mux/mux.go:123-322 | while the writer is parked, or has closed and the reader is not at the end, a thread other than the writer or the tunnel itself can move |
| `TunnelProgress.WireDeliversAll` | lib/nps_mux/mux.go:123-322 | end to end on the wire, however threads and tunnel are scheduled after Close and whatever else is sent: the run is bounded, what was read is a prefix of what was written, a run that can go no further is at the end of the stream, and there everything was read |
| `TunnelProgress.WireReleasesWriter` | lib/nps_mux/mux.go:123-322 | and likewise on the wire a parked writer is released |
| `ClientHello.ParseExact` | lib/crypt/clientHello.go:50-253 | a byte string is read as a message exactly when the message is legal and the bytes are its encoding, in which vectors and extensions tile the input; the 24-bit message length inside the four header bytes and what follows the first host of a name list are not looked at, so they may be anything |
| `ClientHello.ExtensionsRoundTrip` | lib/crypt/clientHello.go:114-250 | every legal list of extensions is read back |
| `ClientHello.ExtensionsFromBytes` | lib/crypt/clientHello.go:114-250 | whatever list is read is legal and encodes to the bytes it was read from |
| `ClientHello.NamesRoundTrip` | lib/crypt/clientHello.go:126-157 | every server name list without a trailing dot in its host name is read back |
| `ClientHello.NamesFromBytes` | lib/crypt/clientHello.go:126-157 | whatever name list is read is legal and encodes to its bytes |
| `ClientHello.ClientHelloMsg.Unmarshal` | lib/crypt/clientHello.go:50-253 | never reads out of range, terminates, returns true exactly for readable inputs, and then every field has the value the message gives it; accepted or not, the server name is the one that ServerNameIsTheEncodedHost and RejectedServerName describe |
| `ClientHello.RejectedServerName` | lib/crypt/clientHello.go:50-253 | the server name that rejected input leaves: the old one if the front is unreadable, none if the block length is wrong, and else the host of the legal extensions before the offending one or, if that one names a host ending in a dot, that host |
| `ClientHello.DottedHostIsServed` | lib/crypt/clientHello.go:146-153 | a message whose first extension that is not legal is a name list with a dot at the end of its host is rejected, whatever follows, and leaves that host as the server name |
| `ClientHello.ClientHelloMsg.ReadExtension` | lib/crypt/clientHello.go:125-248 | the switch accepts exactly the bodies legal for the extension type and sets exactly its fields |
| `ClientHello.ClientHelloMsg.ReadNames` | lib/crypt/clientHello.go:136-157 | the name loop takes the first host name and accepts exactly legal lists |
| `ClientHello.ClientHelloMsg.ReadSuites` | lib/crypt/clientHello.go:72-79 | all cipher suites in order, and the renegotiation signal noticed |
| `ClientHello.ServerNameIsTheEncodedHost` | lib/crypt/clientHello.go:126-157 | every legal message is accepted and its server name is the host name encoded in it, the first of the last server name extension that has one, or empty |
| `ClientHello.CarryOver` | lib/crypt/clientHello.go:91-98 | what a reused object held before shows in the result exactly through the four fields that are not reset |
| `ClientHello.CarryOverHappens` | lib/crypt/clientHello.go:91-98 | it does: the least message read into an object with curves of an earlier one keeps them |
| `HelloMeaning.HelloLayout` | lib/crypt/clientHello.go:50-112 | an accepted message is, byte by byte, its 38 bytes of head and then session id, suites, compression methods and extensions behind their lengths, two-byte lengths with the high byte first |
| `HelloMeaning.ExtensionLayout` | lib/crypt/clientHello.go:114-124 | an extension starts with its number and the length of its body, high bytes first |
| `HelloMeaning.KindNumbers` | lib/crypt/clientHello.go:11-22 | the numbers of the ten known extensions; any other number is unknown |
| `HelloMeaning.WordsLayout` | lib/crypt/clientHello.go:72-79 | in lists of 16-bit codes the high byte of each stands first |
| `HelloMeaning.GreetingLayout` | lib/crypt/clientHello.go:54-64 | the version is bytes 4 and 5 of the head, high byte first, and the random bytes are the 32 after them |
| `HelloMeaning.SmallHello` | lib/crypt/clientHello.go:50-253 | a message with one suite, one compression method and a server name of two letters, byte by byte |
| `HelloMeaning.MeaningIsLastExtension` | lib/crypt/clientHello.go:91-248 | after a legal message each of the twelve fields is what the last extension of its kind says, all protocol names are kept in order, and without such an extension eight fields are empty and four as before, one of them also set by suite 0x00ff |
| `Lru.Cache.Add` | lib/cache/lru.go:41-52 | moves or inserts the entry at the front and drops the oldest over the bound, list and map staying in bijection; evictions are exactly what no longer fits |
| `Lru.Cache.Get` | lib/cache/lru.go:55-61 | returns the value if the key is there and moves it to the front, changing nothing else |
| `Lru.Cache.Remove` | lib/cache/lru.go:64-68 | removes the key from list and map and reports the eviction |
| `Lru.Cache.RemoveOldest` | lib/cache/lru.go:71-76 | removes the last entry, if any |
| `Lru.Cache.RemoveElement` | lib/cache/lru.go:78-85 | removes the entry from list and map |
| `Lru.Cache.Len` | lib/cache/lru.go:88-90 | the number of entries, never above a positive bound |
| `Lru.AddKeepsInclusion` | lib/cache/lru.go:41-52 | an Add keeps a cache of bound n equal to the first n entries of the unbounded one |
| `Lru.AddsOnlyInclusion` | lib/cache/lru.go:41-52 | for every sequence of Adds a cache of bound n holds the first n entries, keys and values, of the unbounded cache |
| `Lru.AccessInclusion` | lib/cache/lru.go:41-61 | for every sequence of accesses, Get and Add on a miss, the keys are the first n keys of the unbounded cache, in order |
| `Lru.AccessKeepsEntriesIff` | lib/cache/lru.go:41-61 | one access keeps the bounded cache the first n entries, keys and values, of the unbounded one if and only if it does not miss in the bounded cache, hit in the unbounded one and store another value |
| `Lru.AccessEntriesAgreeIff` | lib/cache/lru.go:41-61 | for every sequence of accesses the entries agree after each of them if and only if none of them is such a reload, which the unbounded cache alone decides |
| `Lru.AccessValuesMayDiffer` | lib/cache/lru.go:41-61 | such a reload does occur: a run after which the values differ |
| `Lru.BareGetInclusion` | lib/cache/lru.go:55-61 | a Get without an Add keeps the inclusion if and only if it hits in the bounded cache or misses in the unbounded one |
| `PortShuffle.GetRandomPortArr` | client/control.go:547-564 | for every choice of random numbers the result has each port from min to max once, no port of two or more where the descending order puts it, and the permutation is a single cycle |
| `PortShuffle.Shuffle` | client/control.go:557-562 | the swapping loop computes Shuffled in place |
| `PortShuffle.Descending` | client/control.go:551-554 | the filling loop puts the ports in descending order |
| `PortShuffle.ShuffledBySource` | client/control.go:557-562 | every final element comes from the index that Source names |
| `PortShuffle.LoopMakesCycle` | client/control.go:557-562 | the loop's permutation is one cycle through all indices, by construction of the cycle |
| `PortShuffle.CycleMovesEverything` | client/control.go:557-562 | in a single cycle of two or more nothing stays in place and no two indices share a source |
| `PortShuffle.DrawsDecideTheOrder` | client/control.go:557-562 | two sequences of random numbers give the same order if and only if they draw the same index at every pass, so the n! ways to draw give n! different cycles |
| `PortShuffle.PortsToTry` | client/control.go:423-448 | exactly when the interval is not zero reads 51 ports, which are the first of the shuffled order, within range, all different, and none where the descending order puts it |
| `TokenBucket.Rate.constructor` | lib/rate/rate.go:16-23 | a new bucket is empty and holds two ticks' worth |
| `TokenBucket.Rate.Add` | lib/rate/rate.go:29-36 | adds the size, or fills the bucket when less than a tick's worth is missing |
| `TokenBucket.Rate.Tick` | lib/rate/rate.go:65-76 | one pass of the session loop ticks the bucket and sets the current rate |
| `TokenBucket.Rate.Get` | lib/rate/rate.go:47-63 | takes its size exactly once, at the first poll at which the surplus covers it |
| `TokenBucket.GrantsAreBounded` | lib/rate/rate.go:29-81 | over every run of ticks and polls the surplus stays between 0 and the bucket size, and the bytes granted are at most the bucket plus one rate for each tick |
| `TokenBucket.TicksFill` | lib/rate/rate.go:29-36 | left alone the bucket fills at its rate and then stays full |
| `TokenBucket.LoneGetIsServed` | lib/rate/rate.go:47-63 | a lone Get is served at some time if and only if it asks for no more than the bucket holds, and then from the ceiling of size over rate ticks on |
| `SocksUdp.ReadExact` | lib/common/netpackager.go:125-180 | a datagram is read off a stream exactly when it is transmissible and the stream starts with its encoding, alone on the stream if the reserved field is zero |
| `SocksUdp.RoundTripsExactly` | lib/common/netpackager.go:125-203 | what is written is read back if and only if the datagram has an address of one of the three kinds, a host of the right length, fits the buffer, and its reserved field is zero or the data length |
| `SocksUdp.AddressLayout` | lib/common/netpackager.go:72-101 | the bytes of an address for every kind, the port with the high byte first, zeros for a host that does not suit its kind and the IPv4 address of zeros for another kind |
| `SocksUdp.DatagramLayout` | lib/common/netpackager.go:103-118 | reserved field with the high byte first, fragment number, address and data; without a header or an address seven fixed bytes stand for the address |
| `SocksUdp.ReadGoesWrong` | lib/common/netpackager.go:125-180 | exactly which streams make a read fail and which make it panic |
| `SocksUdp.StreamRoundTrip` | lib/common/netpackager.go:154-168 | in the length mode a stream of any number of datagrams comes apart into exactly those |
| `SocksUdp.EncodeAddr` | lib/common/netpackager.go:72-101 | writes the address into the buffer, or fails exactly when it does not fit |
| `SocksUdp.DecodeAddr` | lib/common/netpackager.go:48-70 | reads back kind, host and port of an encoded address |
| `SocksUdp.WriteHeader` | lib/common/netpackager.go:103-118 | writes exactly the header, or nothing when it does not fit the buffer |
| `SocksUdp.WriteDatagram` | lib/common/netpackager.go:189-204 | writes header and data in one piece |
| `SocksUdp.ReadDatagram` | lib/common/netpackager.go:125-180 | returns, fails or panics exactly as Read says, whatever the pooled buffer held, and leaves the rest of the stream |

## Left out

- Window sizes: calcSize's formula, bandwidth and latency measurement use floats, clocks and socket options; any new size from 1 to 2^31 - 1, or none, may be chosen whenever a frame arrives.
- Deadlines, pings, Mux.Close and release, a Close of the reading side or one that races with the connection's own reads and writes, connection set-up, and the buffer pools.
- Several writers or several readers of one connection; the protocol has one of each.
- Calls of Write with an empty buffer, which send nothing, and with 2^32 bytes or more, whose offset would wrap.
- Conn.SendWindow.SetSize: the method models an undisturbed call without the retry of its compare-and-swap; the retries are steps of Protocol. The same holds for the other methods of Conn.SendWindow and Conn.ReceiveWindow.
- Conn.SendWindow.WriteFull: credits arrive while it is blocked; credits at any other moment are steps of Protocol.
- Conn.ReceiveWindow.Write: calcSize is not called; Protocol may set any window size before it.
- Conn.ReceiveWindow.ReadFromQueue: stops where Pop would sleep and nothing arrives during the call; a call during which frames arrive is in Boundaries, the sleep itself in WindowQueue.
- BufDequeue.BufDequeue.PopTail: an undisturbed call, as is PushHead; the retry loops are steps of Dequeue.
- bufChain with several producers: the dequeue that pushHead loaded can then be stale when its compare-and-swap succeeds, so no order is claimed. The chains of the priority queue do have several producers; the scheduler is modelled with push and TryPop as single operations.
- The `starving` hint and Gosched calls of the dequeue, its memory order (accesses are sequentially consistent), and the `prev` pointers of the chain, which are only written.
- WindowQueue.LengthCoversQueue: a push is assumed to keep the length below 2^32; QueueLink.CallsAreAccepted shows that it does in a connection.
- All layers at once: Chain refines the FIFO in the receive queue, QueueLink the receive queue in Protocol, and Tunnel the channels of Protocol, each by itself.
- A Close at the reading end, and Mux.Close: `release` then pops the queues as a second consumer, which Chain and WindowQueue, with one consumer each, do not cover.
- Protocol.DelivererKeeps: newListElement's check of the declared length against the buffer; the codec delivers both equal.
- Packager.MuxPackager.Set: the ways Set can be given content of another type, which is a fault of the caller.
- ClientHello.ClientHelloMsg.Unmarshal: of the fields after a call that returned false only the server name is described, and that an input shorter than 42 bytes changes nothing; nor is it modelled that the fields share memory with the input. The twelve fields that extensions set are one record here.
- Lru.Cache.Add: concurrent use (the list has no lock), Clear, which drops the list and keeps the map, and the list's own links; the list is a sequence of entry objects. OnEvicted is the log of its calls.
- PortShuffle.GetRandomPortArr: the random source, of which nothing is assumed but that it yields non-negative numbers.
- TokenBucket.Rate.Get: polls and ticks take turns as a given list says; concurrent Gets, whose check and subtraction are separate, ReturnBucket with arbitrary sizes, and int64 overflow of twice the rate.
- SocksUdp.EncodeAddr: hosts of the two IP kinds are raw addresses; parsing and printing their text is a library's. A host of another length stands for text that does not parse and is written as zeros.
- SocksUdp.ReadDatagram: errors of the reader other than its end.
- Fairness: a network that never moves bytes on, a goroutine that is never scheduled and other traffic without end; the progress theorems bound every run by the state it starts from and the other traffic it sends, and say what a run that can go no further has reached.
- connQueue and priorityQueue.Pop, which repeat the sleeping of the receive queue with condition variables.
- PortConn, getNextAddr and getAddrInterval, the JSON database, web controllers, GUI, installer, TLS, AES, MD5, kcp, snappy, HTTP proxying and hole punching: input and output, user interface, or wrappers around libraries.
