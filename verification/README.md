# PT-Proxy, modelled and proved in Dafny

PT-Proxy carries connections through FTP, DPI-resistant HTTP and Snowflake-style transports. Most of
it is plumbing; this project models the state machines and codecs in it that have hard invariants, and
proves what each of them keeps over every run. `dafny verify dfyconfig.toml` checks the whole project.

Code that changes state in place is a class whose methods are proved against a function or relation on
values (`View()`, `table`, `entries`, `Pending()`); the promises are then lemmas about that function, over
whole runs and every interleaving. Pure code is functions and lemmas.

| files | what they model |
|---|---|
| `ClientTable.dfy`, `ClientRuns.dfy`, `HeapOrder.dfy`, `ClientMap.dfy` | the client map of the turbo tunnel: an array heap with an index into it, refined to a plain table; Go's `container/heap` written out over the repository's `Less` and `Swap` |
| `PacketQueues.dfy`, `QueuePacketConn.dfy`, `ConnRuns.dfy`, `TrackedConn.dfy` | the packet connection made of a client map and bounded queues that drop: over objects, over values, and the two tied together step for step |
| `ReorderBuffer.dfy`, `ReorderRuns.dfy` | the FTP reorder buffer, one atomic event at a time |
| `ReorderInterleaving.dfy`, `ReorderBooks.dfy`, `FullChannel.dfy`, `FullChannelRuns.dfy`, `FullChannelOrder.dfy`, `PushesOnly.dfy` | the same buffer as the steps of goroutines that drop the lock while the channel is full: what can go wrong then, and exactly when |
| `FtpStream.dfy`, `FineStream.dfy`, `LateFrames.dfy`, `StreamDelivery.dfy` | the FTP download path from the server's numbering to the client's write loop, over atomic events and over the steps of goroutines |
| `FtpProtocol.dfy`, `FtpFrames.dfy` | FTP frames, batches, and their size limit on the wire |
| `FrameBatcher.dfy` | the client's batcher: adders, signal, timer, loop |
| `Pasv.dfy` | the PASV reply (section 4.1.2 of RFC 959) |
| `ChunkFormat.dfy`, `Encapsulation.dfy` | chunks and padding in a byte stream, and size budgets |
| `MuxSession.dfy`, `MuxRuns.dfy`, `SessionPool.dfy`, `PoolRuns.dfy` | DPI sessions with their pinned connections, and the pool of sessions |
| `PumpWrite.dfy`, `BatchLimit.dfy` | the coalescing writer of a DPI tunnel connection, and its batches against the reader's limit |
| `DpiProtocol.dfy`, `DpiReader.dfy`, `ConnectRequests.dfy` | DPI messages, from the plaintext through encryption and framing to the caller's buffers; connect requests |
| `Bytes.dfy`, `Streams.dfy`, `Ciphers.dfy`, `Sequences.dfy`, `Wrappers.dfy` | bytes and 32-bit numbers, byte streams and ciphers, sequences, results |

Time enters as the parameter `now`; timers are steps that may be taken once they are set. The choices of a
`select`, the outcome of a send, the padding of a batch, nonces and read sizes are parameters, so that each
result holds for all of them. AES-GCM is a pair of functions of which only two things are used: unsealing
inverts sealing, and sealing adds 28 bytes (`Ciphers.Sound`, which `Ciphers.SoundCiphersExist` shows can be met).
Panics are either proved unreachable (`assert false` where the source panics) or a result of their own: `OutOfRange`
(reached by the requests of `ConnectRequests.LongNetworkIsOutOfRange`), `BadBounds` (never reached by a reply of the
server, `Pasv.ParsedReply`) and `Crashed` (`FullChannelRuns.CanCrash`, `FullChannelRuns.AlwaysSafeIff`).

## What the proofs say about the code

Where a property does not hold of the code as it is, the model keeps the code, and the exact condition is proved.

- Packet queues: of the packets written to a client while it has its queue, one is missing from those taken and those
  waiting if and only if one was sent while 32 waited.
- Reorder buffer: the output of a run that ends with nothing held is in order if and only if no frame arrived
  while its number was held (for numbers below 2^32-1). A frame that arrives late is dropped, so a copy of
  a delivered frame is harmless; a copy of a held one is delivered twice.
- Reorder buffer, with a full channel: `deliver` drops the lock while it waits, and two goroutines can then deliver the
  same held frame and both drop the first held one. As long as no goroutine finds the channel full, they amount to a
  sequence of atomic pushes and flushes. For a channel of any size c from 1 on, so also for the client's 1024, every
  run over at most n pushes of different numbers, with any timeouts, is free of panics and delivers no frame twice if
  and only if n <= c. With c + 1 pushes a goroutine can panic; with c + 2 a frame can be lost for good and another be
  delivered twice. Over one run, the frames accepted, delivered, held and waited for balance in every state if and only
  if each goroutine that has the lock again drops the very frame it delivered.
- Order through a full channel: every run over at most n pushes of different numbers below 2^32-1 delivers in order in
  every state if and only if n <= c with any timeouts, and if and only if n <= c + 1 without timeouts.
- Without timeouts a full channel costs nothing but the order: however many pushes of different numbers from 1 to
  2^32-2 there are, no goroutine panics, no frame is delivered twice, and none is dropped. So a stream pushed in any
  order is delivered completely in every interleaving, and is always delivered in order if and only if it has at most
  c + 1 frames.
- FTP download with timeouts: if every frame arrives once and none is held at the end, all were delivered, in order, if
  and only if none arrived after its number had been passed. The same holds of goroutines that never find the channel
  full; and, but for the order, of those that do, as long as each drops its own frame.
- A DPI tunnel whose connection is closed locally leaves its read queue open: a `Read` that finds nothing left reports
  the end if and only if the pump stopped at an error of the stream, and waits for ever otherwise.
- A closed DPI session still takes pins and readers: it has an open pipe if and only if a connection was pinned or
  opened after the close and not unpinned since. A second close does not clear it.
- pumpWrite: a write of no bytes can leave the timer fired but not nil, after which later writes wait without
  a timer. A run never leaves a write waiting without a timer if and only if the timer never fires on an empty
  batch; that never happens if all writes carry bytes.
- MaxDataForSize: the budget is kept if and only if it is positive (a negative one is answered with 2^20-4), and
  the answer is the longest that fits except for 64, 8192, 8193 and from 2^20 on, where it is short by at most 3.
  The comment on the function promises the longest in every case.
- WritePadding: the case for a third prefix byte is never reached with the buffer of 1024 bytes.
- Connect requests: they decode to themselves if and only if the network has at most 65533 bytes and the address
  at most 65535. With a network of 65534 or 65535 bytes the decoder's 16-bit offset wraps, and it slices out of range.
- ReadLengthPrefixed: a stream cut right behind a frame's length ends in the same error as one that ends between frames.
- maybeShrinkSessions: of a pool with more than one session it leaves a live one if and only if the first is live or a
  live one has pinned connections; otherwise it closes them all. In pickSession the second loop of the first
  critical section never finds a session that the first loop has not returned.
- removeExpired: the comment says more than `timeout` in the past; the code, and the model, drop a client from
  exactly `timeout` on.
- PASV: the reply gives back address and port if and only if the address has four parts and neither commas nor "(".

## Model

| member | source | states |
|---|---|---|
| ClientMap.ClientMapInner.Len | snowflake/common/turbotunnel/clientmap.go:107-112 | the panic for an inconsistent map cannot be reached while heap and index agree |
| ClientMap.ClientMapInner.Swap | snowflake/common/turbotunnel/clientmap.go:118-122 | two entries change places, and the index still leads to every entry and to nothing else |
| ClientMap.ClientMapInner.Push | snowflake/common/turbotunnel/clientmap.go:124-133 | for an address not in the table: appended, indexed, in the table; the duplicate panic cannot be reached |
| ClientMap.ClientMapInner.Pop | snowflake/common/turbotunnel/clientmap.go:135-144 | the last entry is returned, and is gone from heap, index and table alike |
| ClientMap.ClientMapInner.Up | snowflake/common/turbotunnel/clientmap.go:100 | Go's up over Less and Swap: an entry out of order with its parent only leaves a heap, index and table agreeing |
| ClientMap.ClientMapInner.Down | snowflake/common/turbotunnel/clientmap.go:92 | Go's down: entries out of order with their children come into order within the first n, the others are untouched, and if nothing moved nothing changed |
| ClientMap.ClientMapInner.HeapPush | snowflake/common/turbotunnel/clientmap.go:100 | a heap stays a heap, and the table gains the record |
| ClientMap.ClientMapInner.HeapPop | snowflake/common/turbotunnel/clientmap.go:78 | a heap stays a heap; the record that was at the root is returned and leaves the table |
| ClientMap.ClientMapInner.HeapFix | snowflake/common/turbotunnel/clientmap.go:92 | a heap is restored after one entry was changed in place, in whichever direction it must move |
| ClientMap.ClientMapInner.See | snowflake/common/turbotunnel/clientmap.go:89-92 | the in-place change of LastSeen and heap.Fix: again a heap, and the table has the new time and the old queue |
| ClientMap.ClientMapInner.SendQueue | snowflake/common/turbotunnel/clientmap.go:85-103 | exactly Touched on the plain table; the queue is the client's own, and fresh and empty if the client is new |
| ClientMap.ClientMapInner.RemoveExpired | snowflake/common/turbotunnel/clientmap.go:76-80 | popping roots until one is young enough leaves exactly the clients seen less than timeout ago |
| ClientMap.AgreeSwap | snowflake/common/turbotunnel/clientmap.go:118-122 | the two index updates of a swap keep index and entries inverse to each other, even if both entries are the same |
| HeapOrder.SwapUp | snowflake/common/turbotunnel/clientmap.go:114-122 | one turn of sifting up moves the only possible disorder to the parent |
| HeapOrder.SwapDown | snowflake/common/turbotunnel/clientmap.go:114-122 | one turn of sifting down with the lesser child moves the only possible disorder to that child |
| HeapOrder.OneEntryChanged | snowflake/common/turbotunnel/clientmap.go:91-92 | in a heap with one entry changed or added only that entry and its children can be out of order |
| HeapOrder.RootIsLeast | snowflake/common/turbotunnel/clientmap.go:76-80 | the root of a heap is its least entry: no client is older than the one at the root |
| ClientRuns.ClientsAreIndependent | snowflake/common/turbotunnel/clientmap.go:76-103 | over every run the shared table treats each client as a map with that client alone would |
| ClientRuns.KeepsQueueIffNeverLate | snowflake/common/turbotunnel/clientmap.go:76-103 | a client keeps its queue through a run if and only if no sweep of the run comes timeout or more after it was last seen |
| ClientRuns.KeepsQueueAtShortGaps | snowflake/common/turbotunnel/clientmap.go:76-103 | with a clock that does not go back, a client seen at gaps below timeout keeps its queue |
| PacketQueues.TakenIsSubsequenceOfOffered | snowflake/common/turbotunnel/queuepacketconn.go:97-103 | of one queue, over every run: packets taken are an in-order subsequence of those offered, and at most 32 wait |
| PacketQueues.KeptAreTakenOrWait | snowflake/common/turbotunnel/queuepacketconn.go:97-103 | going by the sends and receives alone: what was taken and what waits are exactly the packets sent while fewer than 32 waited, in order, and as many wait as were sent then and not received |
| PacketQueues.NoneIsMissingIff | snowflake/common/turbotunnel/queuepacketconn.go:97-103 | none of the packets sent is missing if and only if none was sent while 32 waited |
| PacketQueues.NoneIsMissing | snowflake/common/turbotunnel/queuepacketconn.go:97-103 | so as long as never more than 32 packets are still to be received, all packets sent are received or wait, in order |
| QueuePacketConn.QueuePacketConn.OutgoingQueue | snowflake/common/turbotunnel/queuepacketconn.go:67-69 | the present queue of the address, made if there is none; no other client is affected |
| QueuePacketConn.QueuePacketConn.WriteTo | snowflake/common/turbotunnel/queuepacketconn.go:88-104 | the packet is offered to the queue of its address and to no other, with success even if dropped, and it waits in the queue of a new address; nothing happens once closed |
| QueuePacketConn.QueuePacketConn.Sweep | snowflake/common/turbotunnel/clientmap.go:44-52 | the periodic sweep removes the clients that timed out and no others |
| QueuePacketConn.QueuePacketConn.QueueIncoming | snowflake/common/turbotunnel/queuepacketconn.go:47-62 | appended with its address unless closed or full, and then dropped |
| QueuePacketConn.QueuePacketConn.ReadFrom | snowflake/common/turbotunnel/queuepacketconn.go:72-84 | the oldest packet with its address, cut to the buffer; an error if closed, and nothing taken then |
| QueuePacketConn.QueuePacketConn.Close | snowflake/common/turbotunnel/queuepacketconn.go:108-124 | only the first close succeeds |
| ConnRuns.QueueLife | snowflake/common/turbotunnel/queuepacketconn.go:67-104 | every queue is made by one lookup for one client, is that client's up to one event and nobody's before or after, was found by exactly the client's lookups in between, and was offered exactly the packets of the writes among these, in the order of their sends |
| ConnRuns.TakenWereSent | snowflake/common/turbotunnel/queuepacketconn.go:67-104 | so packets taken from any queue, even one its client has lost, are an in-order subsequence of those, at most 32 waiting, whatever comes between a write's lookup and its send |
| ConnRuns.AllSentAreTakenOrWaitIff | snowflake/common/turbotunnel/queuepacketconn.go:88-104 | the packets taken from a queue and those waiting in it are all those sent by the writes that found it, in order, if and only if none of these was sent while 32 waited; and none was if never more than 32 were still to be received |
| TrackedConn.NewConn | snowflake/common/turbotunnel/queuepacketconn.go:36-43 | a new connection over objects is where these runs start: no client, no queue made |
| TrackedConn.OutgoingQueue | snowflake/common/turbotunnel/queuepacketconn.go:67-69 | over objects, a lookup is the event Find of these runs, and returns the queue that this event found |
| TrackedConn.Send | snowflake/common/turbotunnel/queuepacketconn.go:97-103 | over objects, the send that ends a write is the event Send, to the queue that the write's lookup found, whatever came in between |
| TrackedConn.WriteTo | snowflake/common/turbotunnel/queuepacketconn.go:88-104 | over objects, a write on an open connection is the event Find followed by the event Send |
| TrackedConn.Sweep | snowflake/common/turbotunnel/clientmap.go:44-52 | over objects, the periodic sweep is the event Sweep |
| TrackedConn.Receive | snowflake/common/turbotunnel/queuepacketconn.go:67-69 | over objects, a receive is the event Receive, from whichever queue the receiver has |
| ReorderBuffer.ReorderBuffer.DeliverFrame | ftp/common/reorder.go:72-81 | with room in the channel: the frame is put out, and the number after it is expected |
| ReorderBuffer.ReorderBuffer.FlushHeldInOrder | ftp/common/reorder.go:84-89 | with room in the channel: the loop delivers held frames as long as the first has the expected number |
| ReorderBuffer.ReorderBuffer.Push | ftp/common/reorder.go:41-69 | with room in the channel, one arrival: dropped if late, delivered with all that follow it if expected, or else held in sorted order with a timeout scheduled |
| ReorderBuffer.ReorderBuffer.FlushOnTimeout | ftp/common/reorder.go:92-100 | with room in the channel: all held frames are delivered and no timer is left |
| ReorderBuffer.SortFrames | ftp/common/reorder.go:61-63 | stands for the library sort: sorted by number and a permutation, nothing more |
| ReorderRuns.ArrivalKeepsOrderIff | ftp/common/reorder.go:41-69 | from an ordered state, a push keeps the order and does not move nextExpected back if and only if the number is not held and is not 2^32-1 (or is late) |
| ReorderRuns.RunKeepsOrder | ftp/common/reorder.go:41-100 | over atomic events without such arrivals, in every state: output strictly increasing and below nextExpected, held strictly sorted and above it, nextExpected never going back |
| ReorderRuns.AcceptedIsDeliveredOrHeld | ftp/common/reorder.go:41-100 | in every run of atomic events, the frames delivered and held are exactly those accepted, with multiplicity |
| ReorderRuns.EachFrameOnce | ftp/common/reorder.go:41-100 | over atomic events without faulty arrivals no frame is delivered twice, and none is both delivered and held |
| ReorderRuns.HeldFramesWillBeFlushed | ftp/common/reorder.go:54-68 | in every run of atomic events, frames are held only while a timeout flush is scheduled or under way |
| ReorderRuns.TimerIffHeld | ftp/common/reorder.go:54-68 | in every state of every run of atomic events the timer is set if and only if frames are held |
| ReorderRuns.OneFlushPerTimer | ftp/common/reorder.go:54-68 | if every stop of the timer comes in time, exactly one flush is scheduled while it is set, and none otherwise |
| ReorderRuns.DeliveredInOrderIff | ftp/common/reorder.go:41-100 | over atomic events, when nothing is held any more, the output was in order if and only if no frame came while its number was held |
| ReorderInterleaving.StepSimulates | ftp/common/reorder.go:72-100 | one step of one goroutine, unless it finds the channel full with a frame to deliver, is no change to the atomic buffer, or completes one push or flush of it |
| ReorderInterleaving.RoomMakesAtomic | ftp/common/reorder.go:41-100 | every interleaving in which the default branch of deliver is never taken is a run of atomic events, one for each goroutine that is done, and has its state whenever the lock is free |
| FullChannel.FewPushesKeepLock | ftp/common/reorder.go:72-81 | with no more pushes than the channel has places no interleaving takes that branch |
| FullChannel.FewPushesAreSafe | ftp/common/reorder.go:41-100 | and if their numbers differ, no goroutine ever panics and no frame is delivered twice |
| FullChannelRuns.CanCrash | ftp/common/reorder.go:72-89 | for every capacity from 1 on, c + 1 pushes of different numbers and a timeout have a run in which a goroutine slices an empty held list |
| FullChannelRuns.CanLoseAFrame | ftp/common/reorder.go:72-100 | for every capacity from 1 on, c + 2 pushes of different numbers and a timeout have a run to the end in which an accepted frame is never delivered and another is delivered twice |
| FullChannelRuns.CanSwapFrames | ftp/common/reorder.go:72-81 | for every capacity from 1 on and every stream of at least c + 2 frames pushed in order without a timeout, frames c + 1 and c + 2 can be delivered in the wrong order, by goroutines that all end |
| FullChannelRuns.AlwaysSafeIff | ftp/common/reorder.go:41-100 | every run over every list of at most n pushes of different numbers, with any timeouts, is free of panics and delivers no frame twice, if and only if n is at most the capacity |
| FullChannelOrder.AlwaysInOrderIff | ftp/common/reorder.go:41-100 | every run over every list of at most n pushes of different numbers below 2^32-1, with any timeouts, delivers in order in every state, also in the middle of a flush, if and only if n is at most the capacity |
| FullChannelOrder.InOrderWithoutTimeoutsIff | ftp/common/reorder.go:41-89 | without timeouts, if and only if n is at most the capacity plus one |
| ReorderBooks.StepBalancesIff | ftp/common/reorder.go:72-100 | one step keeps frames accepted, delivered, held and waited for in balance if and only if a goroutine that resumes drops the very frame it delivered |
| ReorderBooks.BooksBalanceIff | ftp/common/reorder.go:41-100 | they balance in every state of a run, full channel or not, if and only if all goroutines that resume do so |
| ReorderBooks.OwnDropsLoseNothing | ftp/common/reorder.go:41-100 | then, once no goroutine is on its way, every frame accepted was delivered or is held, and once |
| ReorderBooks.OwnDropsNeverCrash | ftp/common/reorder.go:84-100 | and no goroutine of such a run panics |
| PushesOnly.PushesDropTheirOwn | ftp/common/reorder.go:41-89 | without timeouts, over any number of pushes of different numbers below 2^32-1 and for any capacity, every goroutine that resumes drops the very frame it delivered: at most one is on its way with a held frame, which is the first held and has been passed |
| PushesOnly.PushesAreSafe | ftp/common/reorder.go:41-89 | so in every reachable state no goroutine has panicked and no frame was delivered twice |
| LateFrames.AcceptedIffInTime | ftp/common/reorder.go:41-52 | in every run with any timeouts and any capacity, the frames accepted are those of the pushes that have started if none started after its number was passed, and else fewer |
| LateFrames.AllDeliveredIffInTime | ftp/common/reorder.go:41-100 | full channel or not, with any timeouts, as long as each goroutine drops its own frame: when all are done and nothing is held, exactly the frames pushed were delivered if and only if no push started after its number had been passed |
| LateFrames.StreamDeliveredIffInTime | ftp/client/client.go:508-513 | if goroutines push the server's frames once each, with any timeouts, none finds the channel full and nothing is held at the end, the stream was delivered in order if and only if no push started after its number had been passed |
| StreamDelivery.NothingIsDropped | ftp/common/reorder.go:41-89 | without timeouts, for any capacity: when all pushes of different numbers from 1 on are done, each frame pushed was delivered or is held, once |
| StreamDelivery.StreamDeliveredInSomeOrder | ftp/client/client.go:508-513 | without timeouts, for any capacity, order of pushes and interleaving: when all pushes of a stream are done, each of its frames was delivered once and none is held |
| StreamDelivery.AlwaysDeliversIff | ftp/client/client.go:111-116 | without timeouts, a stream is delivered in order in every state, and completely in the end, for every order of pushes and every interleaving, if and only if it has at most one frame more than the channel has places |
| StreamDelivery.LosslessIfAllFit | ftp/client/client.go:888-912 | such a stream's bytes are all written by the client in every interleaving without timeouts, and it sees the close frame last |
| FineStream.OrderWhileLockIsKept | ftp/common/reorder.go:41-100 | in every interleaving of pushes of different numbers and timeouts in which no goroutine finds the channel full, the buffer is in order whenever the lock is free |
| FineStream.LosslessWhileLockIsKept | ftp/client/client.go:508-513 | if goroutines push the server's frames in any order and interleaving without timeouts, and none finds the channel full, the client writes exactly the server's bytes, and sees the close frame last |
| FtpStream.PumpTcp | ftp/server/server.go:479-497 | data frames with the non-empty reads, and a close frame with the next number once the upstream ends |
| FtpStream.SentFrameByFrame | ftp/server/server.go:479-497 | each of these frames has the connection, the numbers go up from 1 modulo 2^32, the last has type 3 and no data if the upstream has ended, and all others have type 1 and data |
| FtpStream.SentCarriesTheBytes | ftp/server/server.go:479-497 | the data of these frames is exactly the bytes read, up to the read that ends |
| FtpStream.Drain | ftp/client/client.go:888-912 | the payloads of data frames before the first close frame are written, in order |
| FtpStream.WrittenSoFarIsPrefix | ftp/client/client.go:888-912 | whenever the loop is stopped early, what was written is a prefix of what would have been |
| FtpStream.DeliveredIsSubsequence | ftp/client/client.go:508-513 | with losses, late frames and timeouts, what the buffer delivers is an in-order subsequence of the server's frames |
| FtpStream.PermutationBringsNoneTwice | ftp/client/client.go:508-513 | in a permutation of the server's frames, with or without timeouts, no frame comes while its number is held |
| FtpStream.RunLeavesNoGap | ftp/common/reorder.go:41-69 | without timeouts what was delivered is at all times a gapless prefix of the server's frames |
| FtpStream.AllDeliveredIffNoneStale | ftp/common/reorder.go:41-100 | if every frame arrives once, with any timeouts, and none is held at the end, then all were delivered, in order, if and only if none arrived too late |
| FtpStream.AllDeliveredInOrder | ftp/common/reorder.go:41-69 | over atomic events without timeouts, in whatever order all the frames arrive, all are delivered in the order of their numbers and none is left held |
| FtpStream.WrittenIsInOrderSubsequence | ftp/client/client.go:888-912 | with losses and timeouts, the client writes an in-order subsequence of the server's chunks, each whole |
| FtpStream.LosslessInAnyOrder | ftp/client/client.go:888-912 | while the channel has room: for every arrival order without loss, copy or timeout the client writes exactly the server's bytes, and sees the close frame last |
| Bytes.Be32Bytes | ftp/common/protocol.go:70-73 | a 32-bit number as four bytes, most significant first: each byte by its index |
| Bytes.FromBe32Bytes | ftp/common/protocol.go:82-88 | and four bytes as a number: each byte by its weight |
| Bytes.Be16Bytes | dpi/common/serialize.go:14-20 | the same for 16 bits |
| Bytes.FromBe16Bytes | dpi/common/serialize.go:30-38 | and back |
| FtpProtocol.EncodeFrame | ftp/common/protocol.go:68-76 | the buffer holds the four header fields, each byte of them by its index and most significant first, and the data |
| FtpProtocol.DecodedByBytes | ftp/common/protocol.go:78-96 | the fields of a decoded frame byte by byte, and an error exactly for fewer than 13 bytes or more data announced than there is |
| FtpProtocol.FrameRoundTrip | ftp/common/protocol.go:68-96 | a frame decodes to itself |
| FtpProtocol.EncodeBatch | ftp/common/protocol.go:139-154 | what is sealed is BatchBytes: magic, count, one length and frame after the other, and the padding |
| FtpProtocol.BatchIsLaidOut | ftp/common/protocol.go:139-154 | byte by byte: FA B1 C0 DE, the number of frames, each frame behind its length, and the padding, all lengths most significant byte first |
| FtpProtocol.DecodeBatch | ftp/common/protocol.go:156-187 | on every input, without an index out of range: the frames announced, or the first error in order |
| FtpProtocol.ParsedIsBounded | ftp/common/protocol.go:166-186 | frames accepted are as many as announced, fit in the plaintext, and can be encoded again |
| FtpProtocol.BatchRoundTripIff | ftp/common/protocol.go:139-187 | whatever the padding, a batch decodes to its frames if and only if their number and encoded lengths fit 32 bits |
| FtpProtocol.EveryCutBatch | ftp/common/protocol.go:156-187 | a plaintext cut anywhere is refused as too short inside its header, as truncated at frame j inside the length of frame j, and as overrun at frame j inside that frame |
| FtpProtocol.HeaderIsChecked | ftp/common/protocol.go:161-169 | too short exactly below eight bytes, bad magic exactly if the first four of them are others than FA B1 C0 DE |
| FtpProtocol.AcceptedBatchRoundTrips | ftp/common/protocol.go:139-187 | whatever DecodeBatch accepts can be encoded again and comes back the same |
| FtpProtocol.WriteBatch | ftp/common/channel.go:59-71 | the length of the sealed batch and then the batch are written |
| FtpProtocol.ReadBatch | ftp/common/channel.go:74-88 | exactly the announced bytes are taken from the stream, with an error for a length of zero, beyond the limit, or a short stream |
| FtpProtocol.LengthsAccepted | ftp/common/channel.go:74-88 | whatever follows the four bytes of length, most significant first: 1 to 4194304 bytes are read and decoded, other lengths refused at once, and a short stream fails |
| FtpProtocol.WireIsLaidOut | ftp/common/channel.go:59-71 | on the wire the length is four bytes, most significant first, and the sealed batch follows |
| FtpProtocol.WireRoundTripIff | ftp/common/channel.go:59-88 | a batch written is read back, and the stream goes on behind it, if and only if the 36 bytes of its frame, header and seal, its entries and its padding are at most 4194304 |
| FtpProtocol.HowManyFramesFit | ftp/common/channel.go:20-23 | up to 127 frames always fit the limit, whatever the padding; 128 full ones never do |
| FrameBatcher.Batcher.AddAppend | ftp/client/client.go:480-483 | the locked part of add: the frame joins the queue |
| FrameBatcher.Batcher.AddSignal | ftp/client/client.go:484-487 | the signal is there afterwards, whether or not it was before |
| FrameBatcher.Batcher.LoopTakesSignal | ftp/client/client.go:468-472 | the signal is taken and a timer is running |
| FrameBatcher.Batcher.LoopTakesTick | ftp/client/client.go:473-475 | the timer is nil and the loop is about to flush |
| FrameBatcher.Batcher.FlushQueue | ftp/client/client.go:490-500 | the whole queue becomes one batch, and an empty one none |
| FrameBatcher.NoLostWakeUp | ftp/client/client.go:464-500 | in every reachable state frames in the queue have a signal, a timer, a flush or an adder to wake the loop, and batches and queue hold the frames passed to add, each once, in order |
| FrameBatcher.BatchesAreOfFlushes | ftp/client/client.go:480-500 | the batches are, for each flush, all frames added since the flush before it as one batch, and none for a flush that finds no frame |
| FrameBatcher.LoopStops | ftp/client/client.go:464-478 | if nobody adds, the loop comes to rest within six steps |
| FrameBatcher.StoppedLoopHasSentAll | ftp/client/client.go:464-500 | and when it rests every frame passed to add has been handed to a sender |
| Pasv.ParsedReply | ftp/common/ftpclient.go:599-614 | for every address text and port, what the client makes of the server's reply |
| Pasv.PasvRoundTripIff | ftp/server/server.go:751-755 | the client gets back address and port if and only if the address has three dots, no comma and no "(" |
| Pasv.ReplyText | ftp/server/server.go:751-755 | the text: "Entering Passive Mode (", the four parts of the address and the high and low byte of the port between commas, and ").", for every address of four parts |
| Pasv.ParsesAnyText | ftp/common/ftpclient.go:599-614 | whatever text stands around them: of the six fields between the last parentheses four give the host, and the last two the port, the first of these times 256 |
| Pasv.ScanText | ftp/common/ftpclient.go:611-612 | a number is read behind blanks and a sign, up to the first character that is no digit |
| Pasv.WhyNotParsed | ftp/common/ftpclient.go:600-608 | an error exactly if a parenthesis is missing or there are not six fields, and a panic exactly if the last ")" comes before the last "(" |
| Encapsulation.ReadData | snowflake/common/encapsulation/encapsulation.go:54-99 | on every finite stream it ends, with the next data chunk or the error, and takes exactly those bytes |
| Encapsulation.ReadExplains | snowflake/common/encapsulation/encapsulation.go:46-51 | for every stream, whoever wrote it: the result is data, EOF, unexpected EOF or too long only if the stream is padding followed by, in this order, a whole data chunk, nothing, a proper part of a chunk, or a prefix of more than three bytes |
| Encapsulation.ReadsWholeStream | snowflake/common/encapsulation/encapsulation.go:54-99 | repeated reads of well-formed chunks give the data chunks in order, and then EOF |
| Encapsulation.EveryCut | snowflake/common/encapsulation/encapsulation.go:46-51 | a stream cut anywhere gives the data before the cut, then EOF if the cut is between chunks and unexpected EOF if it is inside one |
| Encapsulation.PrefixIsShortest | snowflake/common/encapsulation/encapsulation.go:103-114 | for every integer, the shift-and-mask cases choose the shortest prefix of the format, and report an error exactly for lengths that no prefix holds |
| Encapsulation.PrefixBits | snowflake/common/encapsulation/encapsulation.go:103-114 | bit by bit: 0x80 marks data, 0x40 in the first byte and 0x80 in the second another byte, and the other bits are the length, for one byte below 64, two below 8192, three below 2^20 |
| Encapsulation.PrefixByBits | snowflake/common/encapsulation/encapsulation.go:60-84 | the reader takes these bits in the same way, of data and of padding |
| Encapsulation.WriteData | snowflake/common/encapsulation/encapsulation.go:119-133 | one well-formed data chunk is written and its size returned, or nothing and ErrTooLong from 2^20 bytes on |
| Encapsulation.PaddingPrefix | snowflake/common/encapsulation/encapsulation.go:154-167 | prefix and zeros make one well-formed padding chunk of exactly the size asked for; the third case is unreachable |
| Encapsulation.PaddingBytes | snowflake/common/encapsulation/encapsulation.go:154-167 | byte by byte: the prefix of a padding chunk and its zeros |
| Encapsulation.WritePadding | snowflake/common/encapsulation/encapsulation.go:142-177 | exactly the bytes asked for, all of them well-formed padding chunks |
| Encapsulation.PaddingInPieces | snowflake/common/encapsulation/encapsulation.go:145-175 | chunks of 1024 bytes, and one for what is left over |
| Encapsulation.SkipsAllPadding | snowflake/common/encapsulation/encapsulation.go:88-97 | padding in front of a stream does not change what is read from it |
| Encapsulation.ReadBackWhatWasWritten | snowflake/common/encapsulation/encapsulation.go:54-177 | for every interleaving of WriteData and WritePadding, reading gives the accepted data in order, and then EOF |
| Encapsulation.BudgetKeptIffPositive | snowflake/common/encapsulation/encapsulation.go:183-194 | all data of the length answered takes no more than the budget when written, if and only if the budget is positive |
| Encapsulation.LongestThatFitsIff | snowflake/common/encapsulation/encapsulation.go:179-194 | no longer data fits the budget when written, if and only if the budget is not 64, 8192 or 8193, and below 2^20 |
| Encapsulation.ShortByAtMostThree | snowflake/common/encapsulation/encapsulation.go:179-194 | it never falls short by more than three |
| MuxSession.ConnPipe.Close | dpi/client/session.go:244-249 | must not be called on a pipe that is closed, so that no channel is closed twice |
| MuxSession.MuxSession.Pin | dpi/client/session.go:230-237 | the connection is pinned with a pipe of its own, an old one if it has one, also in a closed session |
| MuxSession.MuxSession.Unpin | dpi/client/session.go:239-252 | pin and pipe are gone, the pipe closed, and the other pipes untouched |
| MuxSession.MuxSession.OpenConnReader | dpi/client/session.go:268-278 | the connection's open pipe, made and pinned if there is none, also in a closed session |
| MuxSession.MuxSession.Close | dpi/client/session.go:295-318 | every pipe is closed once and both tables are empty; a second close changes nothing |
| SessionPool.Transport.PickFirst | dpi/client/session.go:29-51 | the first live session with room, or None: below 8 flows or with two sessions exactly if none is live, and else exactly if all live ones have more pins than half the flows; the loop for a full pool finds nothing new |
| SessionPool.Transport.PickSecond | dpi/client/session.go:58-68 | the new session joins the pool, still open, if there are fewer than two or none is live; else it is closed, the pool stays as it is, and the first live session is returned |
| SessionPool.Transport.HasLiveSession | dpi/client/transport.go:436-450 | compacting in place keeps exactly the live sessions in order, and the answer is whether there are any |
| SessionPool.Transport.MaybeShrink | dpi/client/session.go:81-99 | compacting in place keeps, of more than one, the live sessions that are first or pinned, and closes the other live ones |
| SessionPool.Transport.SessionFor | dpi/client/session.go:70-79 | the first session that has the connection pinned, or None exactly if there is none |
| MuxRuns.ClosedHasPipeIff | dpi/client/session.go:230-318 | after the close that counts, a connection has an open pipe if and only if it was pinned or opened since and not unpinned after that, whether or not the session is closed again |
| MuxRuns.OpenHasPipeIff | dpi/client/session.go:230-293 | before any close, a connection has an open pipe if and only if the last call about it pinned or opened it |
| MuxRuns.ClosedIsEmpty | dpi/client/session.go:295-318 | a closed session on which nothing was pinned or opened since has no pipe |
| PoolRuns.NextIsGood | dpi/client/session.go:29-99 | every atomic step, in whatever interleaving, keeps the pool's invariant |
| PoolRuns.PoolIsBounded | dpi/client/session.go:29-99 | in every reachable state at most two sessions of the pool are live, none is there twice, and every live session is in the pool or owned by one pickSession that has yet to put it there |
| PoolRuns.JoinsIff | dpi/client/session.go:58-68 | in every state of a run, a new session joins, and stays live, if and only if the pool has fewer than two sessions or no live one |
| PoolRuns.TwoCanJoin | dpi/client/session.go:58-68 | two sessions started one after the other are both in the pool, and live |
| PoolRuns.ShrinkKeeps | dpi/client/session.go:81-99 | of more than one session the live ones that are first or pinned are kept, in order, no other of them stays live, and nothing else changes; a pool of one is not touched |
| PoolRuns.SweepKeeps | dpi/client/transport.go:436-450 | exactly the live sessions are kept, in order, and none is closed |
| PoolRuns.ShrinkLeavesOneIff | dpi/client/session.go:81-99 | shrinking leaves a session if and only if the first is live or a live one is pinned, and all it leaves are live |
| PumpWrite.TunnelWriter.FlushAcks | dpi/client/proxy.go:386-402 | every waiting write gets the outcome, in order; batch, acks and timer are cleared |
| PumpWrite.TunnelWriter.Send | dpi/client/proxy.go:404-416 | a non-empty batch is sent once and all its writes are told; an empty one leaves everything as it is |
| PumpWrite.TunnelWriter.PumpWrite | dpi/client/proxy.go:418-447 | the loop, for every choice of its select and outcome of its sends |
| PumpWrite.RunAccounted | dpi/client/proxy.go:351-448 | in every run each batch sent is the bytes of a group of writes, the groups and those waiting are the writes accepted in order, and all of a group are told the outcome of its batch |
| PumpWrite.WhatIsSent | dpi/client/proxy.go:404-447 | in every state of a run: from 65536 bytes on, when the armed timer fires on a non-empty batch, and at the close of one, the whole batch is sent, all its writes are told how that went, and the loop ends at a close or a failure |
| PumpWrite.WhenNothingIsSent | dpi/client/proxy.go:404-447 | at any other event nothing is sent or told, and a write joins the batch |
| PumpWrite.LoopEndsIff | dpi/client/proxy.go:404-447 | the loop has ended if and only if the connection was closed or a send failed |
| PumpWrite.NothingIsSentIff | dpi/client/proxy.go:421-433 | as long as the timer does not fire and the connection is open, nothing is sent if and only if fewer than 65536 bytes were accepted, and the timer is armed meanwhile |
| PumpWrite.BytesAreConserved | dpi/client/proxy.go:375-448 | bytes accepted are bytes handed to SendData followed by the present batch |
| PumpWrite.EachWriteAcknowledgedOnce | dpi/client/proxy.go:386-416 | every accepted write has been told an outcome once or is still waiting, in order |
| PumpWrite.RunWakesIff | dpi/client/proxy.go:418-447 | writes wait exactly while the timer is armed, in every state of a run, if and only if the timer never fires on an empty batch |
| PumpWrite.NonEmptyWritesWake | dpi/client/proxy.go:418-447 | if all writes carry bytes that is so in every run, and when the loop ends no write is left waiting |
| PumpWrite.EmptyWriteStopsTheTimer | dpi/client/proxy.go:404-407 | a run with an empty write after which a write waits and the timer is spent |
| PumpWrite.BatchesAreBounded | dpi/client/proxy.go:376-433 | with writes of at most 32 KiB every batch sent has 1 to 98303 bytes |
| BatchLimit.EveryBatchIsAccepted | dpi/common/protocol.go:98-106 | such a batch, with header, nonce and tag, is within the reader's frame limit and is read back as sent |
| DpiProtocol.BuildStreamHeader | dpi/common/protocol.go:48-55 | the buffer holds version 1, type, connection and length, each byte by its index and most significant first |
| DpiProtocol.HeaderRoundTrip | dpi/common/protocol.go:48-68 | a header is parsed back, with the payload behind it |
| DpiProtocol.BuildPlain | dpi/client/transport.go:159-162 | the header for the payload, byte by byte, and the payload |
| DpiProtocol.WriteLengthPrefixed | dpi/common/protocol.go:87-95 | the length in four bytes, most significant first, and the data are appended to the stream |
| DpiProtocol.ReadLengthPrefixed | dpi/common/protocol.go:98-112 | exactly one frame is taken, with an error for a length of zero or beyond the limit and for a short stream |
| DpiProtocol.LengthsAccepted | dpi/common/protocol.go:98-112 | whatever follows the four bytes of length, most significant first: a frame is read exactly if it has 1 to 262144 bytes and all are there, and other lengths are refused at once |
| DpiProtocol.PrefixedRoundTrip | dpi/common/protocol.go:87-112 | a frame of 1 to MaxEncryptedFrame bytes is read back, and the stream goes on behind it |
| DpiProtocol.PrefixedCut | dpi/common/protocol.go:98-112 | a cut frame gives unexpected EOF, but EOF if the cut is at its start or just behind its length |
| DpiProtocol.DataByBytes | dpi/client/transport.go:396-409 | the data of a plaintext byte by byte: type 2 at byte 1, and a length at bytes 6 to 9 that fits; an error below ten bytes, and nothing of any other |
| DpiProtocol.MessagesSurvive | dpi/client/transport.go:385-410 | messages that fit, sealed and framed, yield exactly the payloads of the data messages in order, whatever comes behind them |
| DpiProtocol.StreamSurvives | dpi/client/transport.go:385-410 | and a whole stream of them ends in EOF |
| DpiProtocol.OversizeStops | dpi/common/protocol.go:98-106 | a message beyond the limit stops the reader with its length, after all data before it |
| DpiProtocol.CutStream | dpi/client/transport.go:385-410 | a stream cut inside a message yields all data before that message |
| DpiReader.StreamReader.Read | dpi/client/transport.go:385-410 | for every buffer: as much of the message at hand as fits, without reading on, or else of the next that has data; an error only when all data was read |
| DpiReader.PumpRead | dpi/client/proxy.go:301-330 | the pieces queued are exactly those of the data read up to the first error, each message cut into pieces of 32 KiB, or as many as there were before the closing of the connection; the queue is closed if and only if the pump stopped at an error before any closing |
| DpiReader.PiecesFit | dpi/client/proxy.go:301-330 | these pieces are together the data, and each has 1 to 32 KiB |
| DpiReader.TunnelReader.Read | dpi/client/proxy.go:332-349 | as much of the piece at hand, or else of the next, as fits, the rest kept for later; once nothing is left, the end if the queue was closed, and otherwise no answer ever |
| DpiReader.Download | dpi/client/proxy.go:549-553 | from the encrypted stream through both readers, for buffers of whatever sizes: what is written is a prefix of the data of its messages; the copy ends only if it is all of it, and does end unless the connection is closed first |
| ConnectRequests.EncodeConnectRequest | dpi/common/serialize.go:9-24 | the buffer filled in place holds both strings behind lengths of two bytes, most significant first |
| ConnectRequests.RequestRoundTripIff | dpi/common/serialize.go:9-44 | a request decodes to itself if and only if its network has at most 65533 bytes and its address at most 65535 |
| ConnectRequests.DecodedByBytes | dpi/common/serialize.go:26-44 | whatever is decoded stands in the bytes where its lengths say |
| ConnectRequests.CutRequest | dpi/common/serialize.go:26-44 | a request cut short is refused as too short, or for its network or its address, by where it is cut |
| ConnectRequests.LongNetworkIsOutOfRange | dpi/common/serialize.go:35-36 | with a network of 65534 or 65535 bytes the decoder slices out of range |
| ConnectRequests.RequestSurvivesMessage | dpi/server/handler.go:164-194 | a request within those limits is decoded from the plaintext of its own message |

## Left out

- Sockets, TLS, HTTP, WebSocket, KCP, smux, obfs4 and DNS: input and output, or libraries that are not part of this model.
- AES-GCM, SHA-256 and random numbers: only that unsealing inverts sealing, and the 28 bytes added.
- Durations: time is an unbounded integer, without the saturation of Go's `Sub`.
- ReorderBuffer.ReorderBuffer.DeliverFrame: the branch for a full channel is in ReorderInterleaving.
- ReorderBuffer.ReorderBuffer.FlushHeldInOrder: atomic, with room in the channel; the steps are in ReorderInterleaving.
- ReorderBuffer.ReorderBuffer.Push: atomic, with room in the channel; the steps are in ReorderInterleaving.
- ReorderBuffer.ReorderBuffer.FlushOnTimeout: atomic, with room in the channel; the steps are in ReorderInterleaving.
- ReorderRuns.RunKeepsOrder: about atomic events, like all of ReorderRuns; FineStream.OrderWhileLockIsKept says it of goroutines that never find the channel full, and FullChannelOrder.AlwaysInOrderIff when it holds of all.
- ReorderRuns.AcceptedIsDeliveredOrHeld: about atomic events; ReorderBooks.BooksBalanceIff says when it holds of goroutines.
- ReorderRuns.EachFrameOnce: about atomic events; FullChannelRuns.AlwaysSafeIff says when it holds of goroutines.
- FtpStream.DeliveredIsSubsequence: about atomic events, and so about goroutines while none finds the channel full; so is FtpStream.RunLeavesNoGap.
- FtpStream.AllDeliveredIffNoneStale: about atomic events; LateFrames.StreamDeliveredIffInTime says it of goroutines.
- FtpStream.AllDeliveredInOrder: about atomic events; StreamDelivery.AlwaysDeliversIff says when it holds of goroutines.
- ReorderRuns.HeldFramesWillBeFlushed: about atomic events, and so about goroutines while none finds the channel full.
- ReorderRuns.TimerIffHeld: about atomic events, and so about goroutines while none finds the channel full; so is ReorderRuns.OneFlushPerTimer.
- ReorderRuns.DeliveredInOrderIff: about atomic events, and so about goroutines while none finds the channel full.
- FtpStream.LosslessInAnyOrder: about atomic events; StreamDelivery.LosslessIfAllFit says it of goroutines.
- FtpStream.WrittenIsInOrderSubsequence: about atomic events, and so about goroutines while none finds the channel full.
- FullChannelRuns.AlwaysSafeIff: for channels with at least one place and fewer than 2^32 - 4; an unbuffered channel is not modelled, nor are channels that have a place for every number there is.
- FullChannelOrder.AlwaysInOrderIff: for the same channels, and so is FullChannelOrder.InOrderWithoutTimeoutsIff.
- QueuePacketConn.QueuePacketConn.WriteTo: one step, although another goroutine may come between finding the queue and the send; in ConnRuns these are two events.
- TrackedConn.WriteTo: a write that nothing interrupts; for others, OutgoingQueue and then Send.
- QueuePacketConn.QueuePacketConn.ReadFrom: reports an empty queue where the source would wait; a close that races with a waiting packet is not modelled.
- SessionPool.Transport.PickFirst: a session that closes during a critical section counts as closed before or after it.
- SessionPool.Transport.Append: the slice grows by copying; Go's growth policy and shared backing arrays are not modelled.
- PumpWrite.TunnelWriter.PumpWrite: the race of Write with the closing of the connection, and what Close does, are not modelled.
- DpiReader.PumpRead: the queue has no bound; a pump that waits for room only waits.
- DpiReader.TunnelReader.Read: reads from the queue that the pump leaves when it has stopped; before that, an empty queue only makes it wait.
- DpiProtocol.OversizeStops: for lengths that fit the 32 bits of the prefix.
- Encapsulation.WriteData: writers do not fail; nor do they in WritePadding, WriteLengthPrefixed and WriteBatch.
- Encapsulation.ReadData: a reader that returns no bytes and no error is not modelled.
- Encapsulation.MaxDataForSize: the panic for a budget of 0 is a precondition, as it is the documented demand on callers; so it is for a negative size of WritePadding.
- Pasv.ParsedReply: the text behind the reply code; of Sscanf only decimal numbers behind blanks, without the limit of 64 bits.
- Stream-mode delivery to a demultiplexed connection, which drops when its channel is full (dpi/client/session.go:280-293), and its reader.
- The order of FTP uploads and of asynchronous posts: batches are sent from goroutines of their own.
- The choice of a download channel by connection number, the maps of sessions and channels: they would only add easy members.
- The FTP reverse path, and the close frames with number 0 that answer a failed dial.
- SOCKS, muxpipe and hello codecs, configuration, logging and the user interface.
