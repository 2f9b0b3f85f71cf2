# Proofs about the TCP data path of FreeRTOS+TCP, and a few algorithms beside it

The repository is a network stack for a microcontroller: FreeRTOS+TCP with its sliding window, and
lwIP on top of the vendor's operating system layer. This project models the parts of it that keep
state, and proves what they promise.

The main part is the TCP data path of the build with `ipconfigUSE_TCP_WIN == 1`.

* `StreamBuffer.dfy` is the circular byte buffer. The class works on an array and four markers; the
  value `Ring` is what the buffer means: the bytes from the tail on, and where head, mid and front
  stand.
* `Segments.dfy` is the pool of segment descriptors that all connections share.
* `RxWindow.dfy` and `TxWindow.dfy` say what the two halves of a window do, as functions on values;
  `TxLoops.dfy` proves that the two loops over segments, which unlink while they walk, compute those
  functions; `TcpWindow.dfy` is the class whose methods change fields, flags and lists step by step
  and are proved against the functions.
* `Reception.dfy` and `Transmission.dfy` put windows and streams together and prove the theorems
  about all runs; `Acknowledgement.dfy` says exactly where an acknowledgement takes the left edge.
  `Sockets.dfy` is the class with the glue code of a socket, proved against both.
* `SelectiveAck.dfy` says what a selective acknowledgement does to every segment of the transmit window,
  `Packing.dfy` that it makes no difference in which pieces bytes are handed to it, and `Backoff.dfy`
  what repeated transmissions do to its limit.
* `Flight.dfy`, `Arrival.dfy` and `Connection.dfy` close the system: the sender of one socket, the
  receiver of another, and a network between them that loses, duplicates, delays and reorders. No
  assumption about the arriving segments or acknowledgements is left but their age: what the sender
  cuts into segments is proved to be what the receiver can deal with, and what the receiver
  acknowledges to be what the sender can deal with.
* `Liveness.dfy` and `Progress.dfy` prove that such a connection cannot get stuck: whatever has been
  lost, from every state that can be reached the two sockets can still hand over and confirm all that
  has been written; and that the one first sequence number for which nothing is ever sent is 0.

Beside it: the unrolled 32-bit Internet checksum against the 16-bit sum of RFC 1071, the protocol
checksum and the echo reply (`Checksum.dfy`, `ProtocolChecksum.dfy`, `EchoReply.dfy`); two
concurrent protocols as interleaved steps of any number of tasks (`Mailbox.dfy`, `BufferPool.dfy`);
the ARP cache (`ArpCache.dfy`); lwIP's resolver table (`Resolver.dfy`); and host names in DNS
messages (`DnsNames.dfy`). `Seq32.dfy` and `Common.dfy` are shared.

Positions in a stream are unbounded integers; sequence numbers have 32 bits and wrap. Kernel lists
are sequences, a segment pointer is the index of the descriptor in the pool, the clock is a free
choice at every step, and so are failing allocations.

Where the code does less than its comments or the protocols ask for, the code is modelled as it is,
and the exact condition is proved:

* A retransmission that spans a stored segment and goes on past it takes the head of the receive
  stream beyond what the peer has sent (`Reception.OverlapRunsAway`); window and stream stay in step
  exactly for the arrivals of `Reception.Admissible` (`Reception.StepExact`). Between two sockets of
  this stack all arrivals are of that kind (`Arrival.ArrivalAdmissible`).
* A segment that straddles the left edge is not stored, but takes a descriptor that lies below the
  expected number and that no later segment frees; of two stored segments that overlap the later one
  can be left there too (`Reception.StraddleLeaks`, `RxWindow.OverlapLeft`, `RxWindow.BelowStays`).
* A selective acknowledgement that answers a straddling segment, or a longer copy of a stored one,
  claims bytes that are not held; all others are true (`Reception.SackExact`).
* Bytes in flight are not counted once they straddle the end of the number space
  (`TxWindow.OutstandingExact`, `TxWindow.FlowControl`), and with a first sequence number of 0
  nothing is ever sent (`TxWindow.StuckAtZero`, `Progress.StuckForever`).
* An acknowledgement of everything handed to the window, sent or not, frees the segment that
  `pxHeadSegment` still points to (`Acknowledgement.HeadLinkedExact`).
* From an odd address the seed of the checksum comes in with its bytes exchanged
  (`Checksum.SeedExact`); a TCP segment of 8 to 17 bytes does not cover its own checksum field
  (`ProtocolChecksum.RoundTripExact`).
* The mailbox loses no wake-up if and only if its semaphore can count as high as the queue is long
  (`Mailbox.LosslessExact`).
* A row of the ARP cache whose age has run out keeps its MAC address, and an address for which a
  request is outstanding takes over the MAC address of the row it gets; the reverse lookup finds both
  (`ArpCache.ReverseExact`, `ArpCache.ReservedKeepsOldMac`).
* The resolver refuses a query although a completed entry could make way, once its 8-bit counter has
  wrapped (`Resolver.RefusedExact`), and keeps an answer with a time to live of 0 for 2^32 ticks
  (`Resolver.DoneLeft`).
* lwIP's walk over a name reads on behind the root name, and stops at an offset where the other one
  does not (`DnsNames.SkippersAgree`).

## Model

| member | source | states |
|---|---|---|
| Connections.Delivery | SDK/rtos/FreeRTOS-TCP/FreeRTOS_TCP_IP.c:2047-2120 | in every run of two sockets and a network that loses, duplicates, delays and reorders, the bytes handed to the receiving owner are the first of those the sending owner wrote |
| Connections.NothingLost | SDK/rtos/FreeRTOS-TCP/FreeRTOS_TCP_IP.c:2290-2317 | in every such run each byte written waits in the sender's stream or has reached the receiver (handed over, readable or stored ahead), unless the receiver was closed for want of memory |
| Connections.StartGood | SDK/rtos/FreeRTOS-TCP/FreeRTOS_TCP_WIN.c:561-613 | the invariant holds after the handshake, for every first number, stream size and segment size |
| Connections.StepGood | SDK/rtos/FreeRTOS-TCP/FreeRTOS_TCP_WIN.c:691-1618 | the invariant of both windows, both streams, all segments and all acknowledgements on their way is kept by writing, handing over, sending, arrival, reading, ACK and SACK |
| Connections.SentNew | SDK/rtos/FreeRTOS-TCP/FreeRTOS_TCP_WIN.c:1195-1356 | a segment that goes out carries what the owner wrote and is the same as, or apart from, every segment that went out before |
| Connections.AckAllowed | SDK/rtos/FreeRTOS-TCP/FreeRTOS_TCP_WIN.c:1572-1590 | an acknowledgement sent by the receiver names nothing beyond what has been sent |
| Connections.SackAllowed | SDK/rtos/FreeRTOS-TCP/FreeRTOS_TCP_WIN.c:1597-1618 | so does a selective one, and the block it reports is the one the receiver meant |
| Connections.ConfirmedArrived | SDK/rtos/FreeRTOS-TCP/FreeRTOS_TCP_IP.c:2297-2316 | what leaves the sender's stream is at the receiver |
| Progress.Progress | SDK/rtos/FreeRTOS-TCP/FreeRTOS_TCP_WIN.c:691-1618 | after any run, whatever was lost, there is a continuation in which nothing arrives that was on its way, and at whose end the receiving owner has all that was written and the sender's stream is empty |
| Progress.StuckForever | SDK/rtos/FreeRTOS-TCP/FreeRTOS_TCP_WIN.c:1079-1106 | if the first number is 0, in no run is anything ever sent, acknowledged or handed over |
| Progress.LeftSent | SDK/rtos/FreeRTOS-TCP/FreeRTOS_TCP_WIN.c:1195-1296 | as long as anything is unconfirmed, timeouts alone bring the segment at the left edge to the front of the queues and out |
| Liveness.StepLively | SDK/rtos/FreeRTOS-TCP/FreeRTOS_TCP_WIN.c:691-1618 | every step keeps it that no answer reports a byte that another answer asks for, and that the left edge is where an answer put it |
| Liveness.LeftEdgeQueued | SDK/rtos/FreeRTOS-TCP/FreeRTOS_TCP_WIN.c:1195-1296 | over every run the segment at the left edge is not marked as acknowledged, and is in a queue |
| Liveness.AckMoves | SDK/rtos/FreeRTOS-TCP/FreeRTOS_TCP_WIN.c:1572-1590 | an acknowledgement of the receiver moves the left edge exactly to its number, or not at all if that is not ahead |
| Liveness.SackStays | SDK/rtos/FreeRTOS-TCP/FreeRTOS_TCP_WIN.c:1597-1618 | a selective acknowledgement that does not start at the left edge does not move it |
| Flight.StepLasts | SDK/rtos/FreeRTOS-TCP/FreeRTOS_TCP_WIN.c:910-1618 | whatever the sender does, a segment that has gone out keeps first byte and length until it is confirmed |
| Flight.FlightWithin | SDK/rtos/FreeRTOS-TCP/FreeRTOS_TCP_WIN.c:1280-1282 | a sent segment lies between left edge and highest number sent |
| Flight.EmittedFlies | SDK/rtos/FreeRTOS-TCP/FreeRTOS_TCP_WIN.c:1314-1353 | what goes out is in flight from then on, under the number and length it was sent with |
| Arrival.ArrivalAdmissible | SDK/rtos/FreeRTOS-TCP/FreeRTOS_TCP_WIN.c:714-883 | if segments are the same or disjoint, every arrival is one the receiver deals with correctly |
| Arrival.ArrivalKeeps | SDK/rtos/FreeRTOS-TCP/FreeRTOS_TCP_WIN.c:714-883 | whatever arrives, the receiver keeps every byte it has, and its stored segments are segments that were sent |
| Arrival.AnswerTrue | SDK/rtos/FreeRTOS-TCP/FreeRTOS_TCP_WIN.c:817-880 | number and block of every answer are held in full and end where a segment ends |
| Arrival.BlockTrue | SDK/rtos/FreeRTOS-TCP/FreeRTOS_TCP_WIN.c:817-843 | the whole block of a selective acknowledgement is held |
| Seq32.ComparisonsExact | SDK/rtos/FreeRTOS-TCP/FreeRTOS_TCP_WIN.c:182-209 | the four comparisons agree with the order of unbounded positions exactly for distances below half the number space |
| StreamBuffers.StreamBuffer.constructor | SDK/rtos/FreeRTOS-TCP/FreeRTOS_Sockets.c:2788-2789 | a new stream is empty |
| StreamBuffers.StreamBuffer.GetSpace | SDK/rtos/FreeRTOS-TCP/include/FreeRTOS_Stream_Buffer.h:68-73 | the space is that of the value: one slot stays empty |
| StreamBuffers.StreamBuffer.GetSize | SDK/rtos/FreeRTOS-TCP/include/FreeRTOS_Stream_Buffer.h:89-94 | the size is the number of readable bytes |
| StreamBuffers.StreamBuffer.GetMidSpace | SDK/rtos/FreeRTOS-TCP/include/FreeRTOS_Stream_Buffer.h:99-103 | the bytes from the mid marker round to the head |
| StreamBuffers.StreamBuffer.LessThenEqual | SDK/rtos/FreeRTOS-TCP/include/FreeRTOS_Stream_Buffer.h:156-185 | compares two positions by their distance from the tail |
| StreamBuffers.StreamBuffer.MoveMid | SDK/rtos/FreeRTOS-TCP/include/FreeRTOS_Stream_Buffer.h:108-122 | the mid marker moves by what is asked going round, but not past the head |
| StreamBuffers.StreamBuffer.Add | SDK/rtos/FreeRTOS-TCP/FreeRTOS_Stream_Buffer.c:79-152 | at offset 0 a prefix of the data is appended; ahead of the head positions are filled and nothing else changes; without data only the head moves; tail, head and front stay in order |
| StreamBuffers.AddMarkers | SDK/rtos/FreeRTOS-TCP/FreeRTOS_Stream_Buffer.c:79-152 | adding moves only head and front: the head by what fits and only at offset 0, the front not behind the head nor behind where the bytes were put |
| StreamBuffers.StreamBuffer.Get | SDK/rtos/FreeRTOS-TCP/FreeRTOS_Stream_Buffer.c:162-230 | the bytes at the offset come out in order, peeking leaves the buffer alone, reading removes exactly them |
| StreamBuffers.CopiedView | SDK/rtos/FreeRTOS-TCP/FreeRTOS_Stream_Buffer.c:103-127 | a copy that wraps writes the intended positions seen from the tail, and no others |
| Segments.SegmentPool.constructor | SDK/rtos/FreeRTOS-TCP/FreeRTOS_TCP_WIN.c:254-290 | all descriptors of a new pool are free |
| Segments.SegmentPool.New | SDK/rtos/FreeRTOS-TCP/FreeRTOS_TCP_WIN.c:329-370 | the first free descriptor leaves the pool, written for its owner, or there is none |
| Segments.SegmentPool.Release | SDK/rtos/FreeRTOS-TCP/FreeRTOS_TCP_WIN.c:474-486 | a descriptor comes back wiped, at the end of the pool |
| Segments.PartitionKept | SDK/rtos/FreeRTOS-TCP/FreeRTOS_TCP_WIN.c:329-523 | with any number of windows, every descriptor stays in exactly one list whatever one of them does |
| Segments.GivenKept | SDK/rtos/FreeRTOS-TCP/FreeRTOS_TCP_WIN.c:345-353 | giving a descriptor to a window conserves the descriptors and leaves all others alone |
| Segments.FreedKept | SDK/rtos/FreeRTOS-TCP/FreeRTOS_TCP_WIN.c:463-487 | so does taking one back |
| RxWindow.ChainHeld | SDK/rtos/FreeRTOS-TCP/FreeRTOS_TCP_WIN.c:817-820 | every byte of a run of stored segments is held, and no stored segment starts where it ends |
| RxWindow.DrainIsChain | SDK/rtos/FreeRTOS-TCP/FreeRTOS_TCP_WIN.c:744-751 | the removing loop takes out exactly the segments of the run and stops at its end |
| RxWindow.LowestIsLowest | SDK/rtos/FreeRTOS-TCP/FreeRTOS_TCP_WIN.c:633-684 | the search finds the stored segment with the lowest number inside the arriving one, if there is any |
| RxWindow.InOrderEffect | SDK/rtos/FreeRTOS-TCP/FreeRTOS_TCP_WIN.c:714-776 | where the next expected number lands, what more can be passed on, and what stays stored |
| RxWindow.InOrderHeld | SDK/rtos/FreeRTOS-TCP/FreeRTOS_TCP_WIN.c:731-757 | every byte passed over behind the expected segment was held |
| RxWindow.BelowStays | SDK/rtos/FreeRTOS-TCP/FreeRTOS_TCP_WIN.c:714-776 | a stored segment below the expected number stays stored whatever expected segment arrives, until half the number space has gone by |
| RxWindow.OverlapLeft | SDK/rtos/FreeRTOS-TCP/FreeRTOS_TCP_WIN.c:731-757 | of two stored segments that overlap, the later one ends up there when the expected segment reaches the earlier one |
| RxWindow.RepeatedBlock | SDK/rtos/FreeRTOS-TCP/FreeRTOS_TCP_WIN.c:845-853 | a block acknowledged again is held if and only if the stored run reaches the end of the copy |
| Reception.AcceptedFits | SDK/rtos/FreeRTOS-TCP/FreeRTOS_TCP_IP.c:2068-2097 | what the window accepts is stored in full, also when the stream is created on demand |
| Reception.AppendView | SDK/rtos/FreeRTOS-TCP/FreeRTOS_TCP_IP.c:2085-2109 | data at the head followed by an add without data moves the head by exactly both lengths and writes only the data |
| Reception.InOrderExact | SDK/rtos/FreeRTOS-TCP/FreeRTOS_TCP_WIN.c:714-776 | an expected segment keeps window and stream in step if and only if the stored run reaches its end; both then move alike |
| Reception.OutOfOrderBroken | SDK/rtos/FreeRTOS-TCP/FreeRTOS_TCP_WIN.c:856-880 | remembering a segment that straddles the left edge or overlaps a stored one breaks the step; what that leads to is in the rows of RxWindow.BelowStays, RxWindow.OverlapLeft and Reception.StraddleLeaks |
| Reception.ReadStep | SDK/rtos/FreeRTOS-TCP/FreeRTOS_Sockets.c:2195-2201 | reading hands over as many bytes as were asked for, or all there are, and keeps window and stream in step |
| Reception.StepExact | SDK/rtos/FreeRTOS-TCP/FreeRTOS_TCP_IP.c:2047-2120 | an honest arrival keeps window and stream in step if and only if it is admissible |
| Reception.StepForward | SDK/rtos/FreeRTOS-TCP/FreeRTOS_TCP_WIN.c:771 | the next expected number does not move back |
| Reception.Reassembly | SDK/rtos/FreeRTOS-TCP/FreeRTOS_TCP_IP.c:2047-2120 | over every run of arrivals and reads, what was handed over plus what is readable are exactly the peer's bytes up to the next expected number, which never moves back |
| Reception.StraddleLeaks | SDK/rtos/FreeRTOS-TCP/FreeRTOS_TCP_WIN.c:788-882 | of a segment that straddles the left edge no byte is stored or passed on, and its descriptor is remembered below the expected number |
| Reception.OverlapRunsAway | SDK/rtos/FreeRTOS-TCP/FreeRTOS_TCP_WIN.c:733-757 | a run of a new socket, two arrivals of a three-byte stream, after which the head of the stream is at 7 and the expected number at 2 |
| Reception.SackWhen | SDK/rtos/FreeRTOS-TCP/FreeRTOS_TCP_WIN.c:708-882 | a segment is answered with a block if and only if it is neither the expected one nor a keep-alive, ends ahead of the expected number and within the space, and is stored already or finds a free descriptor |
| Reception.SackExact | SDK/rtos/FreeRTOS-TCP/FreeRTOS_TCP_WIN.c:791-880 | what a selective acknowledgement names; all of it is held if and only if the segment lies ahead and, as a second copy, is no longer than the stored run |
| Reception.ExpectedNoSack | SDK/rtos/FreeRTOS-TCP/FreeRTOS_TCP_WIN.c:708-709 | the expected segment is not answered with a block |
| Reception.NoMemory | SDK/rtos/FreeRTOS-TCP/FreeRTOS_Sockets.c:2779-2784 | without memory for the stream the socket is closed if and only if the window accepts the segment; nothing has been handed over |
| TxWindow.CheckAckOk | SDK/rtos/FreeRTOS-TCP/FreeRTOS_TCP_WIN.c:1363-1508 | any block within what has been sent keeps tiling, queues and edges; the count returned is what the left edge moved (what becomes of each segment is in SelectiveAck.SackSettles) |
| SelectiveAck.SackSettles | SDK/rtos/FreeRTOS-TCP/FreeRTOS_TCP_WIN.c:1363-1508 | after a block within what has been sent that starts where a segment starts, every segment inside it is passed by the left edge, or marked and in no queue; all others keep their mark, and all do if it starts elsewhere |
| SelectiveAck.SackCounts | SDK/rtos/FreeRTOS-TCP/FreeRTOS_TCP_WIN.c:1513-1566 | a waiting segment below the block counts it, and moves to the priority queue when it counts three; no other segment below it changes |
| SelectiveAck.ThreeBlocks | SDK/rtos/FreeRTOS-TCP/FreeRTOS_TCP_WIN.c:1526-1563 | three blocks ahead of a waiting segment, and not two, make it due for a fast retransmission |
| TxWindow.BlockTakesSent | SDK/rtos/FreeRTOS-TCP/FreeRTOS_TCP_WIN.c:1392-1470 | a block acknowledges only sent segments, and only those that lie within it or were acknowledged before |
| TxWindow.FastRetransmitOk | SDK/rtos/FreeRTOS-TCP/FreeRTOS_TCP_WIN.c:1513-1566 | moving segments to the priority queue keeps the structure: each unacknowledged one stays in exactly one queue |
| TxWindow.TxGetOk | SDK/rtos/FreeRTOS-TCP/FreeRTOS_TCP_WIN.c:1195-1356 | choosing and sending a segment keeps the structure |
| TxWindow.TxGetSends | SDK/rtos/FreeRTOS-TCP/FreeRTOS_TCP_WIN.c:1314-1353 | what goes out is a segment of the window, with its number, length and stream position tail + (number - left edge) modulo the length |
| TxWindow.FirstIsNew | SDK/rtos/FreeRTOS-TCP/FreeRTOS_TCP_WIN.c:1246-1296 | a segment sent for the first time is the next one in order, and it has space |
| TxWindow.FlowControl | SDK/rtos/FreeRTOS-TCP/FreeRTOS_TCP_WIN.c:1060-1112 | a first transmission leaves no more in flight than the peer's window, and than the window's own limit unless nothing was in flight; once the bytes in flight straddle the end of the number space it only fits the peer's window by itself |
| TxWindow.OutstandingExact | SDK/rtos/FreeRTOS-TCP/FreeRTOS_TCP_WIN.c:1079-1086 | the plain comparison counts the bytes in flight correctly exactly when they do not straddle the end of the number space |
| TxWindow.WrapIgnoresFlight | SDK/rtos/FreeRTOS-TCP/FreeRTOS_TCP_WIN.c:1079-1106 | when they do, the next segment goes out whenever it fits the peer's window by itself |
| TxWindow.StuckAtZero | SDK/rtos/FreeRTOS-TCP/FreeRTOS_TCP_WIN.c:1079-1106 | with left edge 0 and nothing sent, no segment ever fits |
| TxWindow.SpaceExact | SDK/rtos/FreeRTOS-TCP/FreeRTOS_TCP_WIN.c:1060-1112 | the next new segment has space if and only if it fits the peer's window and the window's own limit together with what is in flight, the two exceptions of the number space apart |
| TxWindow.GetExact | SDK/rtos/FreeRTOS-TCP/FreeRTOS_TCP_WIN.c:1195-1356 | exactly what goes out, if anything: the first of the priority queue, else after a timeout the longest waiting one, else the next new one if there is room; and where it waits from then on |
| TxWindow.TransmissionCounted | SDK/rtos/FreeRTOS-TCP/FreeRTOS_TCP_WIN.c:1328-1345 | a transmission is counted, and the fourth takes the window's own limit down to two segments |
| Backoff.RunLimited | SDK/rtos/FreeRTOS-TCP/FreeRTOS_TCP_WIN.c:1328-1345 | over every run that limit never grows, and is two segments at most as long as one of the window has been sent four times (Backoff.StartLimited: it starts that way) |
| Packing.RunPacked | SDK/rtos/FreeRTOS-TCP/FreeRTOS_TCP_WIN.c:928-1043 | over every run, of the segments not sent yet only the last may be less than full, and that one is the growing one |
| Packing.AddPacks | SDK/rtos/FreeRTOS-TCP/FreeRTOS_TCP_WIN.c:936-1040 | when segments are added, those waiting before become full first, and of the new ones only the last may be short |
| Packing.AddTwice | SDK/rtos/FreeRTOS-TCP/FreeRTOS_TCP_WIN.c:928-1043 | adding m bytes and then n gives the same segments as adding m + n, with whatever descriptors there are |
| Packing.HandTwice | SDK/rtos/FreeRTOS-TCP/FreeRTOS_TCP_IP.c:1823-1854 | so it makes no difference whether bytes are handed over between two writes or only after the second |
| TxWindow.TxAddOk | SDK/rtos/FreeRTOS-TCP/FreeRTOS_TCP_WIN.c:928-1043 | adding data extends the tiling by exactly the bytes taken, at their stream positions, and uses free descriptors only |
| TxWindow.FillGrows | SDK/rtos/FreeRTOS-TCP/FreeRTOS_TCP_WIN.c:936-980 | the growing segment is the last one, unsent and not full, and takes what fits |
| TxLoops.AckLoopIsCheckAck | SDK/rtos/FreeRTOS-TCP/FreeRTOS_TCP_WIN.c:1392-1507 | the walk that frees and unlinks while iterating computes the declarative effect of a block, for any block; SelectiveAck.SackSettles says what that effect is |
| TxLoops.FastLoopIsFastRetransmit | SDK/rtos/FreeRTOS-TCP/FreeRTOS_TCP_WIN.c:1526-1563 | so does the walk over the waiting queue, whatever block has been acknowledged before |
| Acknowledgement.AckExact | SDK/rtos/FreeRTOS-TCP/FreeRTOS_TCP_WIN.c:1572-1590 | the segments an acknowledgement frees, and the count: their lengths, the movement of the left edge |
| Acknowledgement.AckAtBoundary | SDK/rtos/FreeRTOS-TCP/FreeRTOS_TCP_WIN.c:1474-1496 | an acknowledgement of whole segments moves the left edge exactly to it |
| Acknowledgement.AckInside | SDK/rtos/FreeRTOS-TCP/FreeRTOS_TCP_WIN.c:1418-1439 | one inside a segment stops at the start of that segment |
| Acknowledgement.HeadLinkedExact | SDK/rtos/FreeRTOS-TCP/FreeRTOS_TCP_WIN.c:463-487 | the pointer to the growing segment stays good if and only if the acknowledgement does not cover that segment |
| Transmission.WriteExact | SDK/rtos/FreeRTOS-TCP/FreeRTOS_Sockets.c:2314-2408 | what is written goes to the end of the stream, as much of it as there is space for |
| Transmission.StepKeeps | SDK/rtos/FreeRTOS-TCP/FreeRTOS_TCP_IP.c:1823-1854 | window, stream, confirmed bytes and reports stay in step over every send, add, transmission, timeout, ACK and SACK |
| Transmission.EmittedIsWritten | SDK/rtos/FreeRTOS-TCP/FreeRTOS_TCP_IP.c:1605-1636 | a segment, first sent or sent again, carries the owner's bytes for its number |
| Transmission.Integrity | SDK/rtos/FreeRTOS-TCP/FreeRTOS_TCP_IP.c:1605-1636 | so it does over every run, against all that is written later |
| Transmission.Conservation | SDK/rtos/FreeRTOS-TCP/FreeRTOS_TCP_IP.c:2290-2316 | over every run, what was written is what was confirmed followed by the stream, and the left edge is in step with the tail |
| Transmission.ConfirmedWasReported | SDK/rtos/FreeRTOS-TCP/FreeRTOS_TCP_WIN.c:1363-1618 | over every run the left edge passes a byte only if some earlier ACK or SACK covered it |
| Transmission.AckConfirmed | SDK/rtos/FreeRTOS-TCP/FreeRTOS_TCP_IP.c:2292-2303 | what an acknowledgement confirms is covered by reports, and the count moves the tail in full |
| Transmission.SackConfirmed | SDK/rtos/FreeRTOS-TCP/FreeRTOS_TCP_IP.c:1197-1209 | the same for a selective one |
| TcpWindows.FreeIsOffered | SDK/rtos/FreeRTOS-TCP/FreeRTOS_TCP_WIN.c:329-353 | the free descriptors of the pool are none of the window's, so all of them may be offered to it |
| TcpWindows.TcpWindow.constructor | SDK/rtos/FreeRTOS-TCP/FreeRTOS_TCP_WIN.c:527-613 | a new window holds no descriptor and shows the start of both halves |
| TcpWindows.TcpWindow.Free | SDK/rtos/FreeRTOS-TCP/FreeRTOS_TCP_WIN.c:463-487 | a descriptor leaves its queue and its list, wiped, for the pool |
| TcpWindows.TcpWindow.RxFind | SDK/rtos/FreeRTOS-TCP/FreeRTOS_TCP_WIN.c:297-322 | finds the stored segment that starts at a number |
| TcpWindows.TcpWindow.RxConfirm | SDK/rtos/FreeRTOS-TCP/FreeRTOS_TCP_WIN.c:633-684 | computes the search of RxWindow.Lowest |
| TcpWindows.TcpWindow.RxDrain | SDK/rtos/FreeRTOS-TCP/FreeRTOS_TCP_WIN.c:742-751 | the loop ends, and computes RxWindow.Drain |
| TcpWindows.TcpWindow.RxAccept | SDK/rtos/FreeRTOS-TCP/FreeRTOS_TCP_WIN.c:725-771 | computes RxWindow.InOrder |
| TcpWindows.TcpWindow.RxExtent | SDK/rtos/FreeRTOS-TCP/FreeRTOS_TCP_WIN.c:810-820 | the loop ends, at the end of the stored run |
| TcpWindows.TcpWindow.RxKeep | SDK/rtos/FreeRTOS-TCP/FreeRTOS_TCP_WIN.c:845-882 | a segment ahead is remembered unless it is stored already or no descriptor is free; then the block is withdrawn; it stays for one that is stored already (Reception.SackWhen) |
| TcpWindows.TcpWindow.RxCheck | SDK/rtos/FreeRTOS-TCP/FreeRTOS_TCP_WIN.c:691-887 | all branches compute RxWindow.Check, and the descriptors are conserved; when there is a block is in Reception.SackWhen |
| TcpWindows.TcpWindow.TxFill | SDK/rtos/FreeRTOS-TCP/FreeRTOS_TCP_WIN.c:936-980 | computes TxWindow.Fill, also if the segment that was growing has been freed meanwhile |
| TcpWindows.TcpWindow.TxGrow | SDK/rtos/FreeRTOS-TCP/FreeRTOS_TCP_WIN.c:982-1040 | computes TxWindow.Grow, also when descriptors run out, and leaves the last segment growing if it is not full (Packing.AddPacks) |
| TcpWindows.TcpWindow.TxAdd | SDK/rtos/FreeRTOS-TCP/FreeRTOS_TCP_WIN.c:928-1043 | computes TxWindow.TxAdd and returns the bytes taken; small pieces share segments (Packing.AddTwice) |
| TcpWindows.TcpWindow.TxHasSpace | SDK/rtos/FreeRTOS-TCP/FreeRTOS_TCP_WIN.c:1060-1112 | answers TxWindow.HasSpace for the head of the transmit queue, which TxWindow.SpaceExact says exactly; false if it is empty |
| TcpWindows.TcpWindow.Send | SDK/rtos/FreeRTOS-TCP/FreeRTOS_TCP_WIN.c:1314-1353 | flags, counts, queue and the smaller window after four transmissions, as in TxWindow.Transmit |
| TcpWindows.TcpWindow.TxGet | SDK/rtos/FreeRTOS-TCP/FreeRTOS_TCP_WIN.c:1195-1356 | computes TxWindow.TxGet: priority, then expired, then new segments |
| TcpWindows.TcpWindow.TxCheckAck | SDK/rtos/FreeRTOS-TCP/FreeRTOS_TCP_WIN.c:1363-1508 | the loop over the objects computes TxLoops.AckLoop, the effect of SelectiveAck.SackSettles |
| TcpWindows.TcpWindow.TxFastRetransmit | SDK/rtos/FreeRTOS-TCP/FreeRTOS_TCP_WIN.c:1513-1566 | the loop over the objects computes TxLoops.FastLoop |
| TcpWindows.TcpWindow.TxAck | SDK/rtos/FreeRTOS-TCP/FreeRTOS_TCP_WIN.c:1572-1590 | computes TxWindow.TxAck |
| TcpWindows.TcpWindow.TxSack | SDK/rtos/FreeRTOS-TCP/FreeRTOS_TCP_WIN.c:1597-1618 | computes TxWindow.TxSack, for any block; SelectiveAck.SackSettles and SelectiveAck.SackCounts say what that does to each segment |
| TcpWindows.TcpWindow.Destroy | SDK/rtos/FreeRTOS-TCP/FreeRTOS_TCP_WIN.c:494-523 | every descriptor of the window is back in the pool, none is lost or doubled |
| Sockets.Socket.CreateRxStream | SDK/rtos/FreeRTOS-TCP/FreeRTOS_Sockets.c:2742-2807 | the stream has the configured size rounded up, or the error flag is set |
| Sockets.Socket.AddRxData | SDK/rtos/FreeRTOS-TCP/FreeRTOS_Sockets.c:2819-2856 | computes Reception.AddRxData, creating the stream on demand |
| Sockets.Socket.StoreRxData | SDK/rtos/FreeRTOS-TCP/FreeRTOS_TCP_IP.c:2047-2120 | window and stream together compute Reception.StoreRxData |
| Sockets.Socket.Recv | SDK/rtos/FreeRTOS-TCP/FreeRTOS_Sockets.c:2195-2201 | the bytes that FreeRTOS_recv copies out are the next ones of the peer's stream, oldest first; they stay there if it only peeks |
| Sockets.Socket.Send | SDK/rtos/FreeRTOS-TCP/FreeRTOS_Sockets.c:2314-2408 | what fits is appended to the stream, the rest is not taken |
| Sockets.Socket.AddTxData | SDK/rtos/FreeRTOS-TCP/FreeRTOS_TCP_IP.c:1823-1854 | computes Transmission.Hand with the free descriptors, which it may be offered: the mid marker moves by what the window takes |
| Sockets.Socket.PrepareSend | SDK/rtos/FreeRTOS-TCP/FreeRTOS_TCP_IP.c:1605-1636 | the bytes peeked from the stream are those of Transmission.Emitted, and the stream is not changed |
| Sockets.Socket.HandleAck | SDK/rtos/FreeRTOS-TCP/FreeRTOS_TCP_IP.c:2290-2317 | computes Transmission.Ack |
| Sockets.Socket.HandleSack | SDK/rtos/FreeRTOS-TCP/FreeRTOS_TCP_IP.c:1197-1209 | computes Transmission.Sack, for any block: the window takes it as SelectiveAck.SackSettles says |
| Checksum.GenerateChecksum | SDK/rtos/FreeRTOS-TCP/FreeRTOS_IP.c:1969-2080 | from any alignment the unrolled sum is the folded 16-bit one's complement sum of RFC 1071; from an odd address the seed comes in exchanged |
| Checksum.EvenStart | SDK/rtos/FreeRTOS-TCP/FreeRTOS_IP.c:1969-2080 | summing words as a little-endian machine loads them and exchanging the result is summing words in network order |
| Checksum.LoadShiftedIsWordSum | SDK/rtos/FreeRTOS-TCP/FreeRTOS_IP.c:1984-2076 | from an odd address the loaded words are those of the network |
| Checksum.SeedExact | SDK/rtos/FreeRTOS-TCP/FreeRTOS_IP.c:2071-2079 | from an odd address the result is the specified sum if and only if the bytes of the seed are equal |
| Checksum.SumRounds | SDK/rtos/FreeRTOS-TCP/FreeRTOS_IP.c:2003-2046 | the loop of four 32-bit additions with deferred carries keeps the folded sum |
| Checksum.SumRest | SDK/rtos/FreeRTOS-TCP/FreeRTOS_IP.c:2048-2057 | so does the loop over the 16-bit words that are left |
| ProtocolChecksum.GenerateProtocolChecksum | SDK/rtos/FreeRTOS-TCP/FreeRTOS_IP.c:1822-1966 | generating writes the field and nothing else, checking writes nothing; all error codes |
| ProtocolChecksum.PacketSumIsPseudo | SDK/rtos/FreeRTOS-TCP/FreeRTOS_IP.c:1910-1929 | the bytes summed are those of pseudo header and segment |
| ProtocolChecksum.PacketSumOfPseudo | SDK/rtos/FreeRTOS-TCP/FreeRTOS_IP.c:1910-1929 | with a 20-byte IP header the sum of a TCP or UDP packet is that of the pseudo header of RFC 793 (addresses, protocol, length) followed by the segment |
| ProtocolChecksum.FieldOfStandard | SDK/rtos/FreeRTOS-TCP/FreeRTOS_IP.c:1838-1873 | the checksum field is where RFC 768, RFC 793, RFC 792 and RFC 2236 put it |
| ProtocolChecksum.CheckExact | SDK/rtos/FreeRTOS-TCP/FreeRTOS_IP.c:1886-1965 | a frame with a checksum passes if and only if its one's complement sum is 0 modulo 65535 |
| ProtocolChecksum.RoundTripExact | SDK/rtos/FreeRTOS-TCP/FreeRTOS_IP.c:1822-1966 | a generated checksum is never 0, and passes the check if and only if the field is among the bytes summed, chance apart |
| EchoReply.ProcessEchoRequest | SDK/rtos/FreeRTOS-TCP/FreeRTOS_IP.c:1747-1782 | type, checksum and addresses are exchanged in place, nothing else changes |
| EchoReply.SumKept | SDK/rtos/FreeRTOS-TCP/FreeRTOS_IP.c:1766-1780 | the incremental update keeps the one's complement sum of the message, right or wrong |
| EchoReply.ReplyExact | SDK/rtos/FreeRTOS-TCP/FreeRTOS_IP.c:1766-1780 | the reply sums to 0 if and only if the request does, and folds to 0xffff unless it is all zero |
| Mailbox.StepGood | lwip/port/sys_arch.c:171-238 | while a poster sleeps, free slots are matched by counts of the semaphore or tasks on their way, in every interleaving of posts, tryposts and fetches |
| Mailbox.NoLostWakeUp | lwip/port/sys_arch.c:171-238 | over every run, once nothing is on its way a poster sleeps only beside a full queue; messages come out in order, each once |
| Mailbox.TryPostExact | lwip/port/sys_arch.c:190-199 | a trypost puts its message if and only if there is room |
| Mailbox.FetchLetsPost | lwip/port/sys_arch.c:171-238 | a poster asleep beside a full queue gets its message in as soon as the oldest one is fetched |
| Mailbox.LosslessExact | SDK/platform/osa/src/fsl_os_abstraction_free_rtos.c:49-60 | no run of any number of tasks loses a wake-up if and only if the semaphore can count as far as the queue is long |
| Mailbox.LimitNeeded | SDK/platform/osa/src/fsl_os_abstraction_free_rtos.c:49-60 | for every smaller limit, a run from the start at whose end nothing is on its way and a poster sleeps beside a free slot |
| BufferPool.PopFinds | SDK/rtos/FreeRTOS-TCP/BufferAllocation_2.c:190-199 | past the semaphore the free list is not empty |
| BufferPool.GiveCounts | SDK/rtos/FreeRTOS-TCP/BufferAllocation_2.c:289-292 | the semaphore is never given beyond its limit |
| BufferPool.StepGood | SDK/rtos/FreeRTOS-TCP/BufferAllocation_2.c:178-295 | free descriptors are those the semaphore counts and one for each task between semaphore and list |
| BufferPool.PoolSafe | SDK/rtos/FreeRTOS-TCP/BufferAllocation_2.c:178-295 | so they are in every run of any number of tasks, which obtain, pass on and release descriptors; every descriptor is in one place, and one that is taken has no storage |
| BufferPool.Obtained | SDK/rtos/FreeRTOS-TCP/BufferAllocation_2.c:178-265 | a request gets the first free descriptor, with storage if asked for; without memory for that the descriptor and the count of the semaphore go back |
| BufferPool.PassedOn | SDK/rtos/FreeRTOS-TCP/FreeRTOS_UDP_IP.c:183-192 | a task that has been passed a descriptor may release it, and that returns it to the pool |
| BufferPool.ReleaseTwice | SDK/rtos/FreeRTOS-TCP/BufferAllocation_2.c:280-292 | releasing a free descriptor again changes neither list, semaphore nor ownership |
| ArpCache.Cache.Refresh | SDK/rtos/FreeRTOS-TCP/FreeRTOS_ARP.c:237-365 | the rows after a refresh, addresses of other networks ignored |
| ArpCache.Cache.Search | SDK/rtos/FreeRTOS-TCP/FreeRTOS_ARP.c:262-327 | the walk over the table, with both ways to stop early |
| ArpCache.Cache.Lookup | SDK/rtos/FreeRTOS-TCP/FreeRTOS_ARP.c:481-509 | the first row of the address decides: hit, or not valid yet, or miss |
| ArpCache.Cache.ByMac | SDK/rtos/FreeRTOS-TCP/FreeRTOS_ARP.c:369-388 | the first row with the MAC address, valid or not |
| ArpCache.Cache.Age | SDK/rtos/FreeRTOS-TCP/FreeRTOS_ARP.c:512-552 | ages fall by one and a row loses its IP address at zero |
| ArpCache.WalkSound | SDK/rtos/FreeRTOS-TCP/FreeRTOS_ARP.c:262-327 | the walk finds the row of both addresses if there is one, else the rows of either and one of the least age among the others |
| ArpCache.RefreshedInjective | SDK/rtos/FreeRTOS-TCP/FreeRTOS_ARP.c:329-363 | a refresh leaves no two rows with the same nonzero IP or MAC address |
| ArpCache.RunInjective | SDK/rtos/FreeRTOS-TCP/FreeRTOS_ARP.c:237-365 | nor does any run of refreshes and agings from an empty table |
| ArpCache.RefreshThenLookup | SDK/rtos/FreeRTOS-TCP/FreeRTOS_ARP.c:348-358 | after a refresh the IP address leads to the MAC address |
| ArpCache.RefreshLasts | SDK/rtos/FreeRTOS-TCP/FreeRTOS_ARP.c:512-552 | whatever was in the table, a refreshed address is found until 150 ticks have passed without further traffic, and then no longer |
| ArpCache.RequestLasts | SDK/rtos/FreeRTOS-TCP/FreeRTOS_ARP.c:347-363 | an address asked for is reserved for five ticks; asking for one in the table changes nothing |
| ArpCache.ForwardThenReverse | SDK/rtos/FreeRTOS-TCP/FreeRTOS_ARP.c:369-388 | what the forward lookup finds the reverse one inverts |
| ArpCache.ReverseExact | SDK/rtos/FreeRTOS-TCP/FreeRTOS_ARP.c:369-388 | what the reverse lookup finds the forward one inverts if and only if the row is valid |
| ArpCache.ReservedKeepsOldMac | SDK/rtos/FreeRTOS-TCP/FreeRTOS_ARP.c:347-363 | a row reserved for a request keeps a foreign MAC address, and the reverse lookup finds it |
| ArpCache.OthersKept | SDK/rtos/FreeRTOS-TCP/FreeRTOS_ARP.c:316-348 | a row of other addresses is lost only if neither address was present, and then it is one of the least age |
| Resolver.Dns.CheckEntry | lwip/src/core/dns.c:635-712 | one tick of one entry: first question, retry, next server, timeout, expiry |
| Resolver.Dns.CheckEntries | lwip/src/core/dns.c:717-725 | one tick of the table |
| Resolver.Dns.Recv | lwip/src/core/dns.c:732-849 | an answer, an error or an unusable reply for one entry; which address goes to whom is in Resolver.CallbackOrigin |
| Resolver.Dns.Ask | lwip/src/core/dns.c:859-914 | a query takes an unused entry or the oldest completed one, or is refused |
| Resolver.CheckedLeft | lwip/src/core/dns.c:661-693 | every tick brings an entry that is asking one tick nearer to a callback without an address |
| Resolver.NewLeft | lwip/src/core/dns.c:645-659 | a new query waits seven ticks for each configured server it comes to |
| Resolver.EnqueueSpares | lwip/src/core/dns.c:867-895 | no entry that is asking is ever overwritten |
| Resolver.ExactlyOnce | lwip/src/core/dns.c:635-914 | over every run an accepted query waits in one entry or has had its callback once |
| Resolver.CallbackOrigin | lwip/src/core/dns.c:732-849 | over every run, each callback with an address was made by an answer with that address for an entry that asked for this query, each one without by an error for such an entry or by the tick that ended its wait |
| Resolver.EndingExact | lwip/src/core/dns.c:661-693 | a tick ends a wait exactly after the fourth period with a server after which none has an address |
| Resolver.NextServer | lwip/src/core/dns.c:661-693 | the servers are asked in order, the next one only after the last waiting period |
| Resolver.RunServers | lwip/src/core/dns.c:661-693 | over every run only the first server and servers with an address are asked |
| Resolver.CallbackInTime | lwip/src/core/dns.c:635-914 | seven ticks per server later there have been as many callbacks for a query number as queries had been accepted under it, whatever else happens |
| Resolver.DoneLeft | lwip/src/core/dns.c:695-703 | an answer is kept for as many ticks as its time to live says, but 2^32 if that is 0 |
| Resolver.AnswerKept | lwip/src/core/dns.c:790-822 | an answer is handed to whoever waits and kept with its address and time to live, a week at most |
| Resolver.AnswerLasts | lwip/src/core/dns.c:695-703 | over every run it stays as it is for as many ticks as it has left, and no longer, unless a query takes its entry |
| Resolver.SlotExact | lwip/src/core/dns.c:867-895 | a query takes the first unused entry, else the completed one with the lowest number below the counter |
| Resolver.EnqueueAsks | lwip/src/core/dns.c:897-914 | the entry asks the first server at once, under the next number, for the name cut to 255 characters; all others stay |
| Resolver.RefusedExact | lwip/src/core/dns.c:875-889 | exactly when a query is refused, the wrapped counter included |
| Resolver.RefusedAfterWrap | lwip/src/core/dns.c:875-889 | a run from the start at whose end a query is refused although a completed entry could make way |
| Resolver.LastNumberKept | lwip/src/core/dns.c:875-889 | a completed entry with the number 255 makes way for no query, unless it is the first entry |
| DnsNames.EncodeInPlace | SDK/rtos/FreeRTOS-TCP/FreeRTOS_DNS.c:592-651 | the dots of the copied name become lengths: the encoded name, and nothing around it is touched |
| DnsNames.EncodeCopying | lwip/src/core/dns.c:586-602 | lwIP's encoder writes the same bytes |
| DnsNames.CreateDNSMessage | SDK/rtos/FreeRTOS-TCP/FreeRTOS_DNS.c:592-661 | header, name and question fill the reserved length exactly |
| DnsNames.ReadNameField | SDK/rtos/FreeRTOS-TCP/FreeRTOS_DNS.c:666-696 | as much of the decoded text as fits the buffer, and the position behind the field; an offset is skipped |
| DnsNames.SkipNameField | SDK/rtos/FreeRTOS-TCP/FreeRTOS_DNS.c:700-724 | the position behind the field |
| DnsNames.ParseName | lwip/src/core/dns.c:527-548 | the position where lwIP's walk stops |
| DnsNames.SkippersAgree | lwip/src/core/dns.c:527-548 | both walks stop at the same byte exactly for names that start with an offset, or are not the root and hold none |
| DnsNames.ReadExact | SDK/rtos/FreeRTOS-TCP/FreeRTOS_DNS.c:592-696 | a name survives encoding and reading if and only if its labels have 1 to 255 bytes and the first does not look like an offset |
| DnsNames.RoundTrip | SDK/rtos/FreeRTOS-TCP/FreeRTOS_DNS.c:592-724 | names of labels of 1 to 63 bytes are read back, and all three readers stop behind them |

## Left out

- Handshake, FIN, RST, keep-alive and MSS changes: they set the window edges directly; the model starts after the handshake and stops before a FIN.
- Connections: one direction of data; the other is the same with the roles exchanged, and the flags and options that share a segment with data are not modelled. Segments and acknowledgements arrive unchanged (the checksums are proved separately) and no later than half the number space.
- A network buffer that cannot be resized between `ulTCPWindowTxGet` and sending: for the model the segment is sent and lost.
- Parsing of the option bytes in `prvCheckOptions`: blocks arrive as pairs of numbers.
- Round trip times and the length of time-outs: whether the longest waiting segment is due is a free choice at every step. `xTCPWindowTxHasData`, which only computes delays, is not modelled.
- Transmission.Start: the highest number sent is taken as the one below the left edge, that of the SYN.
- Progress.Progress: for sockets that do not insist on whole segments (those keep their last bytes until the option is cleared), and receive streams that can hold a whole segment.
- TcpWindows.TcpWindow.TxAck: stated for windows whose structure is in order; the loop itself is proved for any window and block.
- TcpWindows.TcpWindow.constructor: the rounding of the receive window and the bookkeeping of the segment size are not modelled.
- TcpWindows.TcpWindow.TxFill: a growing segment whose descriptor has been freed and taken by another window meanwhile is not covered; nor is it in TcpWindows.TcpWindow.TxAdd.
- ProtocolChecksum.RoundTripExact: the condition for passing names the chance that a sum without its field is complete.
- Lengths are unbounded where the source has `size_t`; streams are shorter than 2^31 bytes.
- `rx.ulHighestSequenceNumber`, the advertised window, low-water marks and the `xTCPWindowLoggingLevel` output.
- Blocking, time-outs, select, signals and callbacks of the socket API: FreeRTOS_send is modelled up to where it would block, FreeRTOS_recv once there is data. Memory of a new stream is zero in the model.
- The unused variant with `ipconfigUSE_TCP_WIN == 0`, TCP timestamps and zero-copy delivery.
- Kernel lists, queues and semaphores themselves; OSA time-outs are a step that may happen at any time.
- BufferPool: releasing a descriptor that another task has meanwhile obtained is excluded, as no code could tell, and so is passing one on to a task that is about to insert that same one into the free list; the minimal buffer size and the allocation of storage are a flag per descriptor.
- ArpCache: the build that stores remote addresses, the broadcast and gateway cases of `eARPGetCacheEntry`, and the requests that refreshing and aging send.
- Resolver: messages are taken apart before they reach the table (`dns_recv` to an answer, an error or nothing usable), the optional name check and callbacks that call back into the resolver are not modelled; sending a query has no effect on the table.
- DnsNames: following an offset (neither implementation does), and the answers behind the question.
- DHCP, LLMNR, NBNS, outgoing pings, socket lookup, drivers and start-up code.
