# Verified models of libn2t and its lwIP core

libn2t turns packets from a tun device into TCP connections that it relays to a
SOCKS5 proxy. It does so on a vendored lwIP stack. This project models the parts of
that stack and of the relay that carry the weight, and proves what they are for:
that the receiver hands the application the sender's byte stream, that the sender
never loses or duplicates a queued byte, that the heap stays a tiling and leaves
clients' data alone, that packet buffers are counted right and split and joined
without loss, that checksums mean what RFC 1071 says, that timers fire in order, and
that the relay forwards both directions in order.

Build parameters are those of `src/custom/lwipopts.h`: TCP_MSS 1460, TCP_SND_BUF
8 * TCP_MSS, TCP_WND 4 * TCP_MSS, MEM_ALIGNMENT 4, window scaling and SACK on, four
SACK entries, a little-endian host.

## How the models are built

Each component has a description on unbounded numbers, on which the theorems over
whole runs are proved, and methods in the form of the source that are proved to
compute that description step by step.

| component | description and theorems | methods in the form of the source |
|---|---|---|
| circular 32-bit order | `Seq32` | |
| TCP receive side | `Reassembly`, `ReassemblyQueue`, `ReassemblyRuns`, `ReassemblyWindow`, `ReassemblyStream`, `ReassemblySack`, `ReassemblyHolds`, `ReassemblyAnnounce` | `TcpReceiver` (32-bit fields, lists, SACK array in place) |
| TCP send side | `SendQueue`, `SendQueueInv`, `SendQueueOps`, `SendQueueWrite`, `SendQueueRuns`, `SendQueueOrder`, `SendQueueRoom`, `SendQueueAsserts`, `SendQueueMoves`, `SendQueueStuck`, `SendQueueExamples` | `TcpSender` (every order decision on 32-bit values), `TcpMemory` (what is allocated and given back, block by block) |
| heap | `HeapSpec`, `HeapClients`, `HeapMemory` | `Heap` (one array that holds headers and data) |
| packet buffers | `PbufStore`, `PbufChains`, `PbufDelivery` | `PbufPool` (reference counts, links, 16-bit totals), `PbufFlat` (payload arrays) |
| Internet checksum | `Checksum`, `ChecksumChain` | the methods of both |
| timeouts | `TimerQueue`, `TimerSpacing` | `Timers` |
| relay | `RelaySteps`, `RelayHandshake`, `RelayWrite` | `Relay` |

Allocation results, the network driver, the clock, the application's answers and the
order of events are parameters: a theorem holds for all of them, except where a side
condition of its own excludes an event (`Safe` on the send side).

## What the code does not do

These are facts of the code found while proving; each has a lemma.

- A fast-retransmitted segment that still waits on `unsent` can be the last one there
  without being the newest. `tcp_write` and `tcp_send_fin` then append to it: a byte
  is queued under the wrong sequence number and its own number is missing
  (`FastRexmitLosesByte`). The queues stay exact if and only if the last unsent
  segment is the newest or nothing is appended to it (`WriteIff`, `FinIff`). That is
  always so as long as every fast retransmission is sent at once, which puts the
  queues back in order (`SentAgain`, `OrderlyIsSafe`).
- Splitting a segment that carries a FIN leaves the FIN on both halves, because the
  flags are written back with an OR (`SplitFinTwice`); a write and a close lead there
  (`SplitFinReached`).
- When the persist timer splits a partly acknowledged segment at a window smaller than
  the acknowledged part, the new head lies below `lastack`; the window test takes its
  distance for a huge one and nothing is sent any more (`SplitUnblocksIff`): without an
  acknowledgement of something sent before, no run of events sends anything again
  (`StuckForGood`, reached by the run of `SplitBlockReached`).
- `tcp_split_unsent_seg` with memory for exactly one of its two allocations frees a
  pbuf twice: `tcp_create_segment` has freed it when the error exit frees it again. That
  is so if and only if the head is really split and one allocation is left
  (`SplitUnsentSeg`); a new connection can get there if and only if its segments may have
  two bytes (`FreedTwiceIff`).
- The assertion "mss_local is too small" can fire on a new connection if and only if
  the peer's window so far is below two bytes and two-byte segments are allowed
  (`AssertionIff`): every such connection has a run of three steps that gets there.
- The window assertion of the in-sequence path fires if and only if the segment, clipped
  to the window, joins up with the whole queue and the last queued segment passes the
  right edge, or it ends at the edge and covers a queued FIN (`AcceptOverruns`). Two
  segments get there (`OverrunReached`); a sender that respects the window never does.
- A queued byte is dropped again if a segment arrives that starts and ends inside the
  queued segment which holds it: that one is cut where the new one starts, so what
  reaches further is gone. With one stream this is the only loss (`EnqueueHolds`); a run
  on every stream of twenty bytes shows it (`QueuedTailDropped`). The sender has to send
  those bytes again.
- An announcement can move the right edge by less than half the window and one segment,
  against silly window syndrome. That is so if and only if rcv_nxt has passed the
  announced edge by less than that and no window is announced (`AnnounceMoves`;
  `SmallStepReached` gets there); with a sender that respects the announced edge it
  never happens (`CourteousSteps`).
- Two sequence numbers exactly half the space apart are each "less than" the other
  (`HalfSpaceIsAmbiguous`).
- A block queued behind the start of a queued FIN segment is not reported in the SACK
  list first, unless the end of the queue is reported first already (`NewestFirst`); a
  run on every stream of eleven bytes or more shows it (`NewestMissed`).
- `mem_trim` asserts that the block it splits is not the last one; a valid trim of the
  last block violates that, and the heap is right all the same (`MemTrim`); on a heap of
  any size two calls get there (`LastBlockTrimmed`).
- `pbuf_dechain` asserts that `tot_len` adds up; with totals that are right modulo 2^16
  that fails exactly for chains whose length does not fit 16 bits (`Dechain`).
- `pbuf_dechain` takes an 8-bit count of released buffers for a truth value: if their
  number is a non-zero multiple of 256 it returns a released buffer (`Dechain`, and
  `DechainDangles` for a chain of 257 pool buffers of any size).
- A relay whose `tcp_write` was refused once never reads from the proxy again
  (`RefusedStalls`; `RefusalReached` leads there for every target and byte). On an idle
  connection the write is refused if and only if it needs more than 32 segments or more
  memory than there is (`IdleWriteIff`), which a window below 512 bytes makes of every
  full read (`SmallWindowRefuses`).

Where documentation and code differ the code was followed: the comment in `tcp_write`
says that a failure changes nothing in the control block, but TF_NAGLEMEMERR is set;
the comment in `tcp_rexmit` says that `unsent` is kept sorted, which the insertion does
only for a list that was sorted before.

## Model

| member | source | states |
|---|---|---|
| Seq32.WireOrder | src/lwip/src/include/lwip/priv/tcp_priv.h:109-115 | on positions less than half the space apart, the circular comparisons and the unsigned difference of the 32-bit values are those of the positions |
| Seq32.HalfSpaceIsAmbiguous | src/lwip/src/include/lwip/priv/tcp_priv.h:109-112 | two values are each less than the other exactly at distance 2^31 |
| ReassemblyRuns.RunKeeps | src/lwip/src/core/tcp_in.c:1373-1816 | for arbitrary segments, also malformed ones and failed copies: in every run ooseq stays strictly increasing, non-overlapping, FIN only on its last segment, head strictly above rcv_nxt; the window stays in bounds and the announced right edge never moves left |
| ReassemblyRuns.ArriveKeeps | src/lwip/src/core/tcp_in.c:1373-1816 | one segment keeps that invariant unless the window assertion fires |
| ReassemblyRuns.AcceptKeeps | src/lwip/src/core/tcp_in.c:1465-1583 | in-sequence data: the window assertion fires exactly if segment and queue overrun the edge; otherwise the invariant holds and no edge moved back |
| ReassemblyWindow.AcceptOverruns | src/lwip/src/core/tcp_in.c:1518-1583 | the condition for that assertion on the queue and the segment as they are before the merge, in both directions |
| ReassemblyWindow.NoOverrun | src/lwip/src/core/tcp_in.c:1578-1583 | queued segments that end inside the window and carry no FIN never make it fire |
| ReassemblyWindow.OverrunReached | src/lwip/src/core/tcp_in.c:1578-1583 | two arrivals on a fresh connection that make it fire |
| ReassemblyRuns.AnnWndKeeps | src/lwip/src/core/tcp.c:930-956 | the announced window is between 0 and rcv_wnd and never pulls the announced edge back |
| ReassemblyAnnounce.RunAnnounces | src/lwip/src/core/tcp.c:930-956 | in every run of any segments, reads and announcements: less than half the window or one segment of the window stays unannounced, and the edge that would be announced is the old one or further by at least that much, unless data beyond the old edge has arrived |
| ReassemblyAnnounce.AnnounceMoves | src/lwip/src/core/tcp.c:930-956 | after any run, an announcement leaves the right edge or moves it by at least that threshold, unless (and this is exact) rcv_nxt has passed the edge by less than the threshold and no window is announced; it hides less than the threshold |
| ReassemblyAnnounce.CourteousSteps | src/lwip/src/core/tcp.c:930-956 | with segments of one stream that respect the announced edge, every announcement of every run leaves the edge or moves it by at least the threshold |
| ReassemblyAnnounce.SmallStepReached | src/lwip/src/core/tcp.c:946-953 | a run in which an announcement moves the edge by 100 bytes with segments of 1460 |
| ReassemblyAnnounce.RunConservesWindow | src/lwip/src/core/tcp.c:968-1003 | in every run in which the application reads no more than it was given, rcv_wnd and the unread bytes add up to TCP_WND |
| ReassemblyAnnounce.ReadAllReopens | src/lwip/src/core/tcp.c:968-1003 | whenever the application has read everything, the next announcement offers the whole window but less than the threshold |
| ReassemblyStream.RunDelivers | src/lwip/src/core/tcp_in.c:1373-1608 | segments cut from one stream inside the window, in any order and overlap, with or without failed copies: in every run what was passed up is exactly the stream up to rcv_nxt, and the window assertions never fire |
| ReassemblyStream.InSequenceAdvances | src/lwip/src/core/tcp_in.c:1452-1583 | a segment at or below rcv_nxt with new data moves rcv_nxt past its end, and what stays queued lies strictly above |
| ReassemblyHolds.AcceptHolds | src/lwip/src/core/tcp_in.c:1518-1608 | in-sequence data takes from ooseq just what it delivers: a position is queued afterwards if and only if it was and lies at or above the new rcv_nxt |
| ReassemblyHolds.ArriveQueues | src/lwip/src/core/tcp_in.c:1651-1796 | a segment above rcv_nxt delivers nothing; the positions queued afterwards are its own and those queued before, except what it cuts off; if the copy fails, nothing changes |
| ReassemblyHolds.EnqueueHolds | src/lwip/src/core/tcp_in.c:1723-1768 | what is cut off: exactly the positions behind the end of the segment that a queued segment starting below it held |
| ReassemblyHolds.PlaceHolds | src/lwip/src/core/tcp_in.c:1651-1796 | the same for segments that need not come from one stream: which segments are ignored and, for each position, whether it is queued afterwards |
| ReassemblyHolds.QueuedTailDropped | src/lwip/src/core/tcp_in.c:1762-1768 | on every stream of twenty bytes that fits the window, a run in which a queued byte is dropped |
| ReassemblyHolds.OldIgnored | src/lwip/src/core/tcp_in.c:1373-1459 | a segment received before or outside the window changes nothing |
| ReassemblySack.RunSackSound | src/lwip/src/core/tcp_in.c:1610-1816 | without allocation failure every SACK entry's bytes are held in ooseq and entries are disjoint, over every run |
| ReassemblyHolds.AcceptReports | src/lwip/src/core/tcp_in.c:1610-1640 | after in-sequence data the SACK list reports a position if and only if it did before and the position is not below the queue |
| ReassemblyHolds.RemoveLtReports | src/lwip/src/core/tcp_in.c:2107-2140 | cutting the list at a number leaves just the positions from it on |
| ReassemblyHolds.AddSackKeeps | src/lwip/src/core/tcp_in.c:2047-2098 | a new block comes first, and while there is room for four, exactly the older entries that do not touch it stay |
| ReassemblySack.NewestFirst | src/lwip/src/core/tcp_in.c:1651-1816 | after queueing, the first entry is the largest contiguous block around the new segment if and only if the segment was not swallowed behind a queued FIN, or the first entry was the block at the end of the queue already |
| ReassemblySack.NewestMissed | src/lwip/src/core/tcp_in.c:1651-1816 | on every stream that fits the window, a run of three honest arrivals after which it is not |
| TcpReceiver.OosInsertSegment | src/lwip/src/core/tcp_in.c:1051-1083 | the removal loop on 32-bit numbers computes the merge of the description |
| TcpReceiver.AddSackEntry | src/lwip/src/core/tcp_in.c:2047-2098 | shifting the array in place puts the new block first, drops touching ones, keeps the order of the others |
| TcpReceiver.RemoveSacksLt | src/lwip/src/core/tcp_in.c:2107-2140 | compacting the array in place keeps exactly the parts above the given number |
| TcpReceiver.Pcb.UpdateRcvAnnWnd | src/lwip/src/core/tcp.c:930-956 | the 32-bit computation of the announced window is that of the description: less than the threshold is hidden, and the edge to be announced is the old one, or a threshold further, or data has passed the old one |
| TcpReceiver.Pcb.TcpRecved | src/lwip/src/core/tcp.c:968-1003 | reopening the window by len, capped at the maximum, keeps the control block right |
| TcpReceiver.Pcb.AnnounceWindow | src/lwip/src/core/tcp_out.c:1491 | sending records the announced right edge |
| TcpReceiver.Pcb.TcpReceive | src/lwip/src/core/tcp_in.c:1373-1816 | the data half on 32-bit numbers, lists and the SACK array: asserts exactly when the description does, and otherwise reaches its state |
| SendQueueInv.Span | src/lwip/src/core/tcp_out.c:318-324 | what is unacknowledged never spans more than the send buffer and the FIN |
| SendQueueInv.QueuelenFits | src/lwip/src/core/tcp_out.c:330-347 | snd_queuelen fits 16 bits and is zero exactly if both queues are empty |
| SendQueueOps.OutputKeeps | src/lwip/src/core/tcp_out.c:1237-1409 | sending moves segments without losing, duplicating or disordering any |
| SendQueueMoves.OutputSends | src/lwip/src/core/tcp_out.c:1237-1409 | tcp_output takes k segments from the front of unsent: each ends at or above lastack and inside the window, none is one that Nagle holds back, and exactly these join unacked; it stops at the end, at a segment that ends outside the window or that Nagle holds back, or, with the error flag set, when the driver refuses one that may go |
| SendQueueOps.PutUnackedSorted | src/lwip/src/core/tcp_out.c:1378-1404 | a segment sent again takes its place so that unacked stays sorted |
| SendQueueOps.RtoKeeps | src/lwip/src/core/tcp_out.c:1631-1676 | a timeout keeps every number queued once |
| SendQueueOps.RexmitKeeps | src/lwip/src/core/tcp_out.c:1724-1774 | a fast retransmission keeps every number queued once |
| SendQueueMoves.TimeoutResends | src/lwip/src/core/tcp_out.c:1631-1676 | after a timeout everything unacknowledged comes first in unsent, and output with room for all sends all of it again; if the driver still holds a segment, nothing changes |
| SendQueueMoves.RexmitMoves | src/lwip/src/core/tcp_out.c:1724-1774 | a fast retransmission moves just the oldest segment in flight, behind the unsent ones that start below it |
| SendQueueMoves.ProbeAcknowledgeable | src/lwip/src/core/tcp_out.c:2116-2190 | after a probe the acknowledgement of its byte is accepted, and only snd_nxt has changed |
| SendQueueOps.AckKeeps | src/lwip/src/core/tcp_in.c:1228-1316 | any acknowledgement keeps every number from the new lastack on queued once |
| SendQueueOps.AckBalanced | src/lwip/src/core/tcp_in.c:1088-1126 | bytes reported as sent are exactly the bytes freed, and buffer space and pbuf count stay balanced |
| SendQueueMoves.AckAdvances | src/lwip/src/core/tcp_in.c:1228-1316 | an acknowledgement above lastack and not above snd_nxt moves lastack to it, frees acknowledged segments until none is left on unacked or in front of unsent, and reports their bytes; any other changes nothing |
| SendQueueMoves.AckEmpties | src/lwip/src/core/tcp_in.c:1228-1316 | the acknowledgement of everything empties both queues, restores snd_buf and reports every queued byte |
| SendQueueMoves.RunDrains | src/lwip/src/core/tcp_in.c:1228-1316 | over every safe run: when the peer has acknowledged everything, every byte written has been reported as sent, both queues are empty and snd_buf is TCP_SND_BUF |
| SendQueueOps.SplitKeeps | src/lwip/src/core/tcp_out.c:827-980 | splitting the head keeps every number queued once unless it carries a FIN |
| SendQueueOps.SplitFinTwice | src/lwip/src/core/tcp_out.c:915-934 | with a FIN, both halves claim the number behind the cut |
| SendQueueExamples.SplitFinReached | src/lwip/src/core/tcp_out.c:915-934 | a run from the initial state into such a split |
| SendQueueWrite.BuildSizes | src/lwip/src/core/tcp_out.c:597-694 | every new segment but the last has the largest size allowed |
| SendQueueMoves.WriteCuts | src/lwip/src/core/tcp_out.c:412-694 | a successful tcp_write fills the last unsent segment before it starts another, every new segment in front of another is full, none is longer than the mss or half the largest window announced, and what was queued stays in front |
| SendQueueMoves.LargestWindow | src/lwip/src/core/tcp_in.c:1160-1162 | over every run, snd_wnd_max is the largest window announced so far |
| SendQueueWrite.PlanFits | src/lwip/src/core/tcp_out.c:485-591 | bytes copied into the spare tail never exceed the space really allocated there |
| SendQueueWrite.WriteIff | src/lwip/src/core/tcp_out.c:390-790 | a successful tcp_write leaves the queues exact, with the new bytes, if and only if it starts new segments or the last unsent segment is the newest |
| SendQueueWrite.BuildIff | src/lwip/src/core/tcp_out.c:597-694 | phase 3 succeeds if and only if there is memory for the fewest segments that hold the rest, with their pbufs, and the queue has room for those pbufs |
| SendQueueWrite.SegmentsFewest | src/lwip/src/core/tcp_out.c:597-601 | that number of segments is the rest divided by the largest size, rounded up |
| SendQueueWrite.WriteAllOrNothing | src/lwip/src/core/tcp_out.c:390-812 | tcp_write succeeds if and only if its checks and assertions pass and memory and queue have room for exactly what the data needs; a memory error sets just the flag, and any other failure changes nothing |
| SendQueueWrite.FinIff | src/lwip/src/core/tcp_out.c:1001-1127 | queueing the FIN leaves the queues exact if and only if the last unsent segment is the newest |
| SendQueueMoves.FinFails | src/lwip/src/core/tcp_out.c:1001-1127 | queueing the FIN fails if and only if unsent is empty and there is no memory for a segment; otherwise the last unsent segment carries it |
| SendQueueRuns.RunKeeps | src/lwip/src/core/tcp_out.c:390-1774 | over every run of writes, output, probes, timeouts, fast retransmissions, splits, closes and acknowledgements in which every event is safe, the invariant holds with exactly the bytes written |
| SendQueueRuns.HeldOnce | src/lwip/src/core/tcp_out.c:766-781 | what that means: each number from lastack to the end is held by exactly one queued segment, with the byte the application wrote there, or is the FIN |
| SendQueueRuns.RunConserves | src/lwip/src/core/tcp_in.c:1316 | bytes written are reported as sent or still queued; snd_buf plus queued bytes is TCP_SND_BUF; snd_queuelen is the number of queued pbufs |
| SendQueueOrder.FastRexmitLosesByte | src/lwip/src/core/tcp_out.c:473-486 | a concrete run in which a byte lands under another byte's number and its own is missing |
| SendQueueOrder.SentAgain | src/lwip/src/core/tcp_out.c:1378-1404 | sending a fast-retransmitted segment puts every segment back where it was |
| SendQueueOrder.OrderlyIsSafe | src/lwip/src/core/tcp_out.c:390-1774 | runs in which every fast retransmission is sent at once and every split is safe meet the side conditions by themselves |
| SendQueueStuck.SplitUnblocksIff | src/lwip/src/core/tcp.c:1248-1260 | after a persist split the head can be sent if and only if the window reaches beyond what is acknowledged of it; otherwise the queue is stuck |
| SendQueueStuck.StuckForGood | src/lwip/src/core/tcp_out.c:1296-1306 | over every run without a further acknowledgement, of any writes, closes, windows, timeouts and splits, the same segment stays in front and nothing is sent |
| SendQueueExamples.SplitBlockReached | src/lwip/src/core/tcp.c:1248-1260 | a run from the initial state after which the split head is never sent, whatever follows |
| SendQueueRoom.StepTight | src/lwip/src/core/tcp_out.c:498-561 | every event keeps unsent_oversize within the space the last unsent segment has, and referenced memory without spare space, whatever the order of the queues |
| SendQueueAsserts.AssertionsHold | src/lwip/src/core/tcp_out.c:486-561 | from a state in which every segment fits, no run of any events reaches a tcp_write whose assertions on the last segment fail |
| SendQueueAsserts.AssertionIff | src/lwip/src/core/tcp_out.c:417-561 | for every new connection: some run of any events reaches a tcp_write that asserts if and only if the window is below two bytes and two-byte segments are allowed |
| SendQueueAsserts.FreedTwiceIff | src/lwip/src/core/tcp_out.c:914-987 | for every new connection: a run reaches a split that frees a pbuf twice if and only if two-byte segments are allowed |
| SendQueueAsserts.SplitFits | src/lwip/src/core/tcp_out.c:827-870 | the assertion of tcp_split_unsent_seg on the split size never fires where every segment fits |
| TcpSender.Reach | src/lwip/src/core/tcp_out.c:1296-1306 | in every reachable state all queued segments are close enough to lastack for circular comparison |
| TcpSender.Pcb.constructor | src/lwip/src/core/tcp.c:1892 | the initial state satisfies the invariant with nothing written |
| TcpSender.Pcb.TcpWrite | src/lwip/src/core/tcp_out.c:390-812 | three phases with local copies and loop compute the described write; a failure gives back every pbuf and segment it allocated, a success has taken exactly the pbufs that snd_queuelen gained and the new segments |
| TcpMemory.Pools.AllocSegment | src/lwip/src/core/tcp_out.c:606-676 | the pbufs and the segment of one round, or nothing: a missing header, segment or place in the queue gives back what was allocated before |
| TcpMemory.Pools.CreateSegment | src/lwip/src/core/tcp_out.c:158-172 | a segment for the pbufs given, or those pbufs are freed |
| TcpMemory.Pools.GiveBack | src/lwip/src/core/tcp_out.c:795-812 | the error exit releases the pbuf for the last segment and the new segments, each block once, and nothing else |
| TcpMemory.Pools.FreeSegs | src/lwip/src/core/tcp.c:1607-1634 | every segment of the list is released with its pbufs, and only those |
| TcpSender.Pcb.TcpSendFin | src/lwip/src/core/tcp_out.c:1001-1018 | the FIN goes onto the last unsent segment or into a new one; the queues stay exact if and only if it failed or the last unsent segment was the newest; the blocks in use grow as snd_queuelen and unsent do |
| TcpSender.Pcb.EnqueueFlags | src/lwip/src/core/tcp_out.c:1032-1130 | an own FIN segment takes a number, a pbuf and a segment, or nothing changes but the flag; the queues stay exact |
| TcpSender.Pcb.SplitUnsentSeg | src/lwip/src/core/tcp_out.c:827-990 | the split with its assertion, both allocations, pbuf_realloc and the pbuf accounting; the queues stay exact unless a segment with a FIN is split; a pbuf is freed twice if and only if the head is really split with one allocation left |
| TcpSender.Pcb.TcpOutput | src/lwip/src/core/tcp_out.c:1237-1409 | the sending loop with the unsigned window test, the Nagle test and the driver's answer takes exactly the segments that OutputSends describes |
| TcpSender.Pcb.RexmitRtoPrepare | src/lwip/src/core/tcp_out.c:1631-1676 | unacked goes in front of unsent, or nothing changes |
| TcpSender.Pcb.TcpRexmit | src/lwip/src/core/tcp_out.c:1724-1774 | the insertion walk with circular comparisons |
| TcpSender.Pcb.ZeroWindowProbe | src/lwip/src/core/tcp_out.c:2116-2190 | the probed byte becomes acknowledgeable |
| TcpSender.Pcb.AckReceived | src/lwip/src/core/tcp_in.c:1190-1316 | any 32-bit acknowledgement number has the effect of its signed distance from lastack, which AckAdvances describes: it is ignored, or exactly what it acknowledges in front is freed and reported |
| TcpSender.FreeAcked | src/lwip/src/core/tcp_in.c:1088-1126 | the loop frees the acknowledged prefix and counts its pbufs and bytes |
| HeapSpec.TakeTiles | src/lwip/src/core/mem.c:886-920 | taking a block keeps the tiling: aligned, at least minimum size, no two free neighbours |
| HeapSpec.ReleaseTiles | src/lwip/src/core/mem.c:474-510 | releasing a block with coalescing keeps the tiling |
| HeapSpec.ShrinkTiles | src/lwip/src/core/mem.c:753-804 | trimming keeps the tiling |
| HeapClients.TakeOwns | src/lwip/src/core/mem.c:886-920 | allocation adds exactly one block to those that clients own, of the size asked for or less than one smallest block more, and changes no other |
| HeapClients.ReleaseOwns | src/lwip/src/core/mem.c:474-510 | releasing takes away exactly the block released |
| HeapClients.ShrinkOwns | src/lwip/src/core/mem.c:753-804 | trimming leaves exactly the size asked for if the rest can join a free block or make one, and the old size otherwise; no other block changes |
| HeapSpec.FreeUndoesMalloc | src/lwip/src/core/mem.c:617-686 | freeing what was just allocated restores the partition |
| HeapSpec.RefusedOnlyWhenFull | src/lwip/src/core/mem.c:870-976 | the search fails if and only if no free block is large enough |
| HeapMemory.HeaderWritesKeep | src/lwip/src/core/mem.c:474-510 | header writes leave every client's bytes alone |
| HeapMemory.InnerWritesKeep | src/lwip/src/core/mem.c:753-804 | writes inside a block from a cut on leave the part below and all other clients' bytes alone |
| HeapMemory.PayloadWriteKeeps | src/lwip/src/core/mem.c:568-607 | a client that writes into its own payload leaves every header and everybody else's bytes alone |
| Heap.Mem.constructor | src/lwip/src/core/mem.c:516-545 | a fresh heap is one free block |
| Heap.Mem.MemSanity | src/lwip/src/core/mem.c:568-607 | every condition of mem_sanity holds in every valid state |
| Heap.Mem.LinksValid | src/lwip/src/core/mem.c:551-565 | mem_link_valid holds of every block |
| Heap.Mem.FindFit | src/lwip/src/core/mem.c:870-885 | the search from the hint finds the first fit of the whole heap |
| Heap.Mem.MemMalloc | src/lwip/src/core/mem.c:831-976 | first fit with split; NULL exactly for an empty, oversized or unsatisfiable request; clients' bytes kept; lfree is the lowest free block |
| Heap.Mem.MemFree | src/lwip/src/core/mem.c:617-686 | a used block is merged with its free neighbours; null, misaligned, foreign and free pointers change nothing; clients' bytes kept |
| Heap.Mem.MallocThenFree | src/lwip/src/core/mem.c:617-976 | malloc then free restores partition and hint |
| Heap.Mem.MemTrim | src/lwip/src/core/mem.c:699-820 | NULL for growing; otherwise the rest joins the free block behind or becomes one; the kept part and everybody else's bytes are kept; says exactly when an assertion fires |
| Heap.LastBlockTrimmed | src/lwip/src/core/mem.c:753-804 | on a heap of any size, a request and a trim that make the assertion on the last block fail |
| Heap.Mem.ClientWrite | src/lwip/src/core/mem.c:568-607 | the heap stays valid when a client writes into its payload |
| PbufPool.Pool.AllocPool | src/lwip/src/core/pbuf.c:235-280 | a pool chain has exactly the requested length and totals, and the caller holds its one reference; it fails if and only if the pool has too few buffers, and then everything is as before |
| PbufPool.Pool.Ref | src/lwip/src/core/pbuf.c:829-836 | one more holder, or the overflow assertion exactly at 255 |
| PbufPool.Pool.Free | src/lwip/src/core/pbuf.c:725-800 | releases exactly the head run without other references, drops one reference of the node behind; all counts stay right |
| PbufPool.Pool.Cat | src/lwip/src/core/pbuf.c:853-875 | the chains are joined, the caller's reference goes to the chain, counts stay right; the assertion on the last buffer never fails if totals are right |
| PbufPool.Pool.Chain | src/lwip/src/core/pbuf.c:895-902 | the store of Cat with one more reference: the bytes are joined, totals stay right, and the caller keeps its reference |
| PbufPool.Pool.Dechain | src/lwip/src/core/pbuf.c:912-940 | both parts get right totals; the unshared run behind p is released and nothing else changes; NULL if the number released is not a multiple of 256; says exactly when the assertion on tot_len fails |
| PbufPool.Pool.DechainDangles | src/lwip/src/core/pbuf.c:929-937 | for pool buffers of any size: 257 of them joined one by one, whose dechaining returns a released buffer without an assertion failing |
| PbufPool.Pool.Realloc | src/lwip/src/core/pbuf.c:402-459 | the chain holds the prefix of that length with right totals; exactly the unshared run behind it is released, and no other node changes |
| PbufPool.Pool.Split64k | src/lwip/src/core/pbuf.c:1113-1147 | cuts at the longest front of at most 65535 bytes, and only if the chain is longer |
| PbufPool.Pool.Deliver | src/lwip/src/core/tcp_in.c:479-527 | what the application can read behind each head when it gets it is one well-formed piece of its exact length, and all of it together is the front of the chain in order; a refused rest is kept whole, and no other node changes |
| PbufDelivery.PieceOk | src/lwip/src/core/pbuf.c:1113-1147 | one delivery hands over just its piece, as a chain of its own with its bytes, and leaves the rest of the chain as it was |
| PbufDelivery.ShownInOrder | src/lwip/src/core/tcp.c:1548-1597 | the bytes readable behind the heads, each in the store of its delivery, are in order the bytes of the chain up to the last cut |
| PbufChains.CatContents | src/lwip/src/core/pbuf.c:853-875 | joining appends the bytes, and 16-bit totals stay right modulo 2^16 |
| PbufChains.SplitContents | src/lwip/src/core/pbuf.c:1125-1144 | both parts of a cut are well-formed with the same bytes; a short front has its exact length |
| PbufChains.RejoinRestores | src/lwip/src/core/tcp_in.c:513-520 | joining a refused front to its rest restores every node up to the FIN mark |
| PbufFlat.Skip | src/lwip/src/core/pbuf.c:1152-1166 | finds the buffer and place of a flat offset, or the end |
| PbufFlat.CopyPartial | src/lwip/src/core/pbuf.c:1027-1057 | copies exactly the bytes there are from offset on, and no others |
| PbufFlat.Take | src/lwip/src/core/pbuf.c:1196-1227 | overwrites the first bytes, or fails without change if they do not fit |
| PbufFlat.TakeAt | src/lwip/src/core/pbuf.c:1240-1262 | overwrites the bytes at offset, or fails without change |
| PbufFlat.TakeThenCopy | src/lwip/src/core/pbuf.c:1240-1262 | reading back what was written gives the same bytes |
| PbufFlat.Copy | src/lwip/src/core/pbuf.c:961-1013 | between chains of any shapes: success means the target starts with the source's bytes; always succeeds without empty buffers if there is room |
| PbufFlat.Memcmp | src/lwip/src/core/pbuf.c:1434-1463 | zero if and only if equal; otherwise the place of the first difference; 0xffff if too short |
| PbufFlat.Memfind | src/lwip/src/core/pbuf.c:1476-1490 | the least match, or 0xffff if and only if there is none (at most 0xfffe bytes) |
| Checksum.Chksum1 | src/lwip/src/core/inet_chksum.c:80-114 | the byte-wise algorithm returns the one's complement sum of RFC 1071 in host order |
| Checksum.Chksum2 | src/lwip/src/core/inet_chksum.c:133-173 | the word-wise algorithm returns the same value for every start parity, without overflow up to 0x20000 bytes |
| Checksum.Chksum3 | src/lwip/src/core/inet_chksum.c:189-255 | the unrolled algorithm returns the same value |
| Checksum.AllAgree | src/lwip/src/core/inet_chksum.c:80-255 | the three results are identical, not merely congruent |
| ChecksumChain.ChainSum | src/lwip/src/core/inet_chksum.c:260-294 | the swap-tracking loop adds the flat bytes whatever the split and alignment |
| ChecksumChain.InetChksumPbuf | src/lwip/src/core/inet_chksum.c:568-588 | the checksum of the concatenated bytes |
| ChecksumChain.InetChksumPseudo | src/lwip/src/core/inet_chksum.c:310-330 | the checksum over the IPv4 pseudo header and the chain |
| ChecksumChain.Ip6ChksumPseudo | src/lwip/src/core/inet_chksum.c:343-366 | the same over the IPv6 pseudo header |
| ChecksumChain.IpChksumPseudo | src/lwip/src/core/inet_chksum.c:379-395 | the checksum over the pseudo header of the version that the addresses have |
| ChecksumChain.FilledVerifies | src/lwip/src/core/tcp_in.c:160-164 | a packet filled with its checksum re-checks to zero |
| ChecksumChain.FillTcp | src/lwip/src/core/tcp_out.c:1559-1600 | a TCP segment filled over IPv4 or IPv6 passes the check of tcp_input |
| ChecksumChain.FillUdp | src/lwip/src/core/udp.c:852-880 | a UDP datagram filled over IPv4 or IPv6 passes the check of udp_input, also when 0 was replaced by 0xffff |
| ChecksumChain.EchoReply | src/lwip/src/core/ipv4/icmp.c:213-223 | the adjusted checksum of the reply verifies whenever the request's did |
| TimerQueue.InsertValid | src/lwip/src/core/timeouts.c:183-221 | the list stays sorted by due time, ties in order of arrival |
| TimerQueue.CheckInOrder | src/lwip/src/core/timeouts.c:352-396 | one call fires only timeouts due at its start, in order of due time, and leaves none of them, whatever its handlers arm or cancel |
| TimerQueue.FiresAtMostTwice | src/lwip/src/core/timeouts.c:352-396 | one call fires each armed timer at most twice, a one-shot at most once, whatever its handlers arm or cancel |
| TimerQueue.SecondFiringIff | src/lwip/src/core/timeouts.c:232-261 | a cyclic timer is due a second time in one call exactly if its next due time is the start of the call and its handler took no time |
| TimerQueue.FiresAlone | src/lwip/src/core/timeouts.c:352-396 | a cyclic timer alone on the list fires twice in a call if and only if the call is exactly one interval late and the first firing took no time |
| TimerQueue.NoneLost | src/lwip/src/core/timeouts.c:183-396 | what is armed after a call is what was armed before and what its handlers got, less the one-shots that fired, up to what handlers cancel and what cannot be restarted for lack of memory |
| TimerSpacing.FiringRestarts | src/lwip/src/core/timeouts.c:142-261 | one firing adds just the restarted timeout to what its handler did: the TCP timer and a cyclic timer that is late are due an interval after the end of the handler, a cyclic timer in time an interval after it was due |
| TimerSpacing.FiringsAre | src/lwip/src/core/timeouts.c:352-396 | the logged firings are those of the call, handlers run one behind the other from its start to its end |
| TimerSpacing.RunSpaced | src/lwip/src/core/timeouts.c:142-175 | over every run of calls, however late, and whatever the handlers do: each firing of the TCP timer starts at least an interval after the end of the one before |
| TimerSpacing.TcpTimerSpaced | src/lwip/src/core/timeouts.c:142-175 | the same for any two firings in a run that starts while the timer is not armed |
| TimerSpacing.ActExactly | src/lwip/src/core/timeouts.c:290-340 | sys_timeout adds one timeout for the time asked for, sys_untimeout takes away the one with the handler that is due first; nothing else changes |
| TimerQueue.RestartValid | src/lwip/src/core/timeouts.c:404-420 | rebasing keeps the order |
| TimerSpacing.RestartKeepsDistances | src/lwip/src/core/timeouts.c:404-420 | rebasing makes the first timeout due now and keeps all distances between due times |
| Timers.Timeouts.TimeoutAbs | src/lwip/src/core/timeouts.c:183-221 | the walk with wrapping comparison is insertion by true time; without memory nothing changes |
| Timers.Timeouts.Timeout | src/lwip/src/core/timeouts.c:290-307 | adds a timeout msecs from now |
| Timers.Timeouts.RunHandler | src/lwip/src/core/timeouts.c:142-340 | what a handler arms and cancels takes effect in turn; the TCP timer and a late cyclic timer are then armed an interval after the end of the handler, a cyclic timer in time an interval after its due time, if there is memory |
| Timers.Timeouts.Untimeout | src/lwip/src/core/timeouts.c:317-340 | the first matching timeout goes and only that |
| Timers.Timeouts.RestartTimeouts | src/lwip/src/core/timeouts.c:404-420 | every timeout is moved by the same amount |
| Timers.Timeouts.SleepTime | src/lwip/src/core/timeouts.c:426-444 | exactly the time until the first timeout is due |
| Timers.Timeouts.CheckTimeouts | src/lwip/src/core/timeouts.c:352-396 | the firing loop with 32-bit times terminates and fires what the description fires |
| RelaySteps.StepKeeps | src/n2t/tcpsession.cpp:54-163 | every callback keeps the relay's invariant |
| RelaySteps.RelayDelivers | src/n2t/tcpsession.cpp:109-163 | in every run that forwards: one operation pending per direction; the proxy has been given greeting, request and the client's bytes in order, early ones included; lwIP has been given what was read |
| RelayHandshake.ForwardNeedsBoth | src/n2t/tcpsession.cpp:121-143 | over every run, data is forwarded only if the answer read in HANDSHAKE was the bytes 5, 0 and a later one, read in REQUEST, was longer than three bytes and began with 5, 0, 0 |
| RelayHandshake.StatusIff | src/n2t/tcpsession.cpp:54-178 | exactly which steps lead to REQUEST, FORWARD and DESTROY, in terms of the bytes, the errors and the state of the client's connection |
| RelayHandshake.OtherAnswersDestroy | src/n2t/tcpsession.cpp:86-143 | every other answer and every failed operation, wherever in a run, ends the relay for good |
| RelayHandshake.DestroyedSilent | src/n2t/tcpsession.cpp:165-178 | over every run, once destroyed the relay gives nothing more to either side and nothing is pending but a read started on the closed socket |
| RelayHandshake.FreedIff | src/n2t/socket.cpp:77-127 | the client's connection counts as gone if and only if its data has ended or it has failed |
| RelaySteps.EarlyByteForwarded | src/n2t/tcpsession.cpp:198-213 | for every target, byte and continuation: the handshake leads to a state in which the byte the client sent early is the first to follow the request |
| RelaySteps.RefusedStalls | src/n2t/socket.cpp:145-155 | after a refused tcp_write the relay never reads from the proxy again |
| RelayWrite.IdleWriteIff | src/n2t/socket.cpp:145-155 | with nothing pending, lwIP refuses a packet of one read if and only if it needs more than 32 segments or more memory than there is |
| RelayWrite.LargeEnough | src/lwip/src/core/tcp_out.c:416-418 | segments of 256 bytes and memory for 32 of them always suffice |
| RelayWrite.SmallWindowRefuses | src/lwip/src/core/tcp_out.c:416-418 | a window below 512 bytes makes lwIP refuse every full read, whatever the memory |
| RelaySteps.RefusalReached | src/n2t/socket.cpp:145-155 | a run from the start, for every target, byte and continuation, in which a write is refused and the proxy is never read again |
| Relay.SentHandlerSet | src/n2t/socket.cpp:105-115 | when everything is acknowledged, the handler about to be called is set |
| Relay.Session.OnConnected | src/n2t/tcpsession.cpp:205-213 | the greeting is sent, or everything is cancelled |
| Relay.Session.OnClientErr | src/n2t/socket.cpp:116-127 | a freed connection ends the relay |
| Relay.Session.OnProxyRead | src/n2t/tcpsession.cpp:80-149 | bytes from the proxy are a step of the relay that keeps its invariant |
| Relay.Session.OutReceived | src/n2t/tcpsession.cpp:121-149 | the branches of out_recv on the proxy's answer, of which StatusIff says where they lead: only the bytes 5, 0 lead on to the request, and only an answer of more than three bytes that begins with 5, 0, 0 to forwarding |
| Relay.Session.OnProxyWritten | src/n2t/tcpsession.cpp:151-163 | after a write the next read is armed on the side the state asks for |
| Relay.Session.OnClientData | src/n2t/socket.cpp:88-100 | a waiting handler gets the data, otherwise it is kept |
| Relay.Session.OnClientEof | src/n2t/socket.cpp:77-87 | the client has closed: its connection counts as freed, and the relay's invariant holds |
| Relay.Session.OnClientSent | src/n2t/socket.cpp:105-115 | the pending count falls; at zero the next proxy read starts |
| Relay.Session.InRead | src/n2t/socket.cpp:130-143 | early data is handed over at once, otherwise the handler waits; with nothing pending on the client's side this establishes the relay's invariant |

## Left out

- TcpReceiver.Pcb.TcpReceive: takes an arriving segment to be nearer to rcv_nxt than 2^31 - 1, because at the two excluded distances the code takes it for both older and newer, and asks that an announcement was sent within the last 2^27 received bytes, since the announced edge is compared circularly.
- TcpSender: the fields hold unbounded positions and the code reads their 32-bit values; struct sharing between the queues and the driver is not modelled.
- TcpSender.Pcb.EnqueueFlags: the FIN only, since SYN segments are sent before the connection is established.
- TcpSender.Pcb.SplitUnsentSeg: the pbufs of the head are not shared with the driver, so those cut off are released; what a pool does after a double free is not modelled.
- TCP states other than ESTABLISHED and its closing successors, SYN segments, options, timestamps, RTT, congestion window arithmetic, keepalive and PSH flags.
- Refused data during reassembly, and the limits TCP_OOSEQ_MAX_BYTES and TCP_OOSEQ_MAX_PBUFS, which are off in this build.
- A FIN piggybacked on a data segment does not advance snd_lbb (src/lwip/src/core/tcp_out.c:1011-1015); the model follows that, and the theorems count its number separately.
- tcp_output while the connection is processing input, and routing failures: both leave the queues as they are.
- Heap.Mem.MemFree: a pointer into a payload whose bytes look like a used, correctly linked header is excluded.
- Heap.Mem.MemTrim: an in-heap pointer is taken to be the payload of a used block; the code does not look at that and would trim any other by whatever its preceding bytes say.
- MEM_OVERFLOW_CHECK, statistics, locking and LWIP_ALLOW_MEM_FREE_FROM_OTHER_CONTEXT.
- Headers in front of payloads, ROM payloads and custom pbufs; allocated payloads start as zeroes.
- PbufPool.Pool.Cat: joining a chain to its own tail is excluded; it would make a circle.
- PbufPool.Pool.Split64k: asks for totals that are right modulo 2^16, which CatContents provides.
- PbufFlat.Copy: says nothing of the contents when it fails on chains with empty buffers.
- UDP-Lite and partial checksums.
- Timers.Timeouts.CheckTimeouts: asks that pending times stay within a quarter of the 32-bit range of the clock, that handlers ask for timeouts at most six days ahead and that a call lasts less than three days; a timeout is asked for with a positive delay, because a handler that asks for itself at once can keep the call from ending.
- TimerQueue.NoneLost: says nothing of the TCP timer, which stops when it is not needed any more; the assertion of sys_timeout_abs on an empty pool is taken for its early return.
- TimerSpacing.RunSpaced: the TCP timer is armed only as tcp_timer_needed does it, that is while it is not armed and for a whole interval; runs with sys_restart_timeouts, which nothing in this repository calls, are left out, because rebasing moves due times closer.
- RelaySteps.RelayDelivers: says nothing after DESTROY, where buffered data may be discarded; bytes that arrive in the same read as the SOCKS reply belong to that read.
- Address encoding, UDP sessions and the tun device of src/n2t.
