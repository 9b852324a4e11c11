# A verified model of the packet offload engine and the Windows adapter

The repository moves IP packets between a program and a virtual network device. Two parts of it are
easy to get wrong and hard to observe going wrong, and this project models both in Dafny and proves
what they are for.

**The Linux offload engine** (`src/platform/linux/offload.rs`, `checksum.rs`, and parts of
`device.rs`). Before a batch is written, `handle_gro` merges consecutive TCP segments of one flow,
behind or in front of each other, and consecutive UDP datagrams, in place in the caller's buffers;
then it rewrites IP, transport and virtio headers. When a large packet is read, `gso_split` cuts it
into segments with fresh lengths, identifications, sequence numbers, flags and checksums. The main
results:

- *Merging undone by splitting.* A finished frame, read back by `handle_virtio_read`'s checks and
  `gso_split`, yields one packet per member, in sequence order, with the member's payload, sequence
  number, flow, options and IP fields, through any mix of appends and prepends
  (`RoundTrip.TcpRoundTrip`, `RoundTripUdp.UdpRoundTrip`). What the first member's header replaces in
  the others, such as identification and window, is listed below; PSH may be lost but never gained.
  That packets agree is said byte by byte, at the positions the standards give (`Wire`).
- *Conservation.* Reading back everything a batch writes gives every packet of the batch exactly once,
  unmerged packets byte for byte, and every UDP flow's datagrams in the order they came
  (`Conservation.BatchIsConserved`), for every batch, every mix of flows, every bad checksum and every
  buffer capacity.
- *Exactness.* After any number of packets, the next one is merged if and only if it continues or
  precedes the packets of some item of its flow evenly, has room, and all checksums involved are right;
  it goes to the last such item (`GroExact.TcpMergesIffWelcome`, `GroExact.UdpMergesIffWelcome`).
- *Grouping.* What is merged is exactly what could have been one packet: segments with right checksums are
  well grouped if and only if some large packet is split into just them (`Grouping.GroupedIffSplit`,
  `Grouping.UdpGroupedIffSplit`).
- *Eligibility.* Which packets are candidates at all, and when two are of one flow, is given by header
  bytes and bits (`Wire.TcpEligible`, `Wire.UdpEligible`, `Wire.TcpFlowBytes`, `Wire.UdpFlowBytes`).
- *Well-formedness.* Every segment that is cut has exact lengths and verifying checksums
  (`Gso.SegmentsAreWellFormed`), and a header checksum left partial can be completed
  (`PartialSums.CompletionVerifies`).
- *The checksum.* Three ways of accumulating 32-bit words compute one function, whose fold is the
  one's-complement sum of section 2 of RFC 1071 (`Checksum`).

**The Windows adapter** (`src/platform/windows/tun/mod.rs`). A mutex, an atomic flag, a read-write
lock around an optional session and a manual-reset event are shared by senders, readers, and callers
of enable, disable and drop. They are modelled as steps that any number of threads take in any order,
with every foreign call free to fail. Every run keeps flag, session and driver in step
(`WintunSafety`); undisturbed, each call comes to a known end, and among other threads it fails only by
a step of its own (`WintunCalls`); no run deadlocks, and from every reachable state every call of enable
or disable can still return with what it is for (`WintunProgress`).

## How the model is laid out

Each imperative routine is a method proved equal to a function of the old state; what the routine is
for is then proved about that function. `Bytes`, `Packet`, `Checksum` hold fields, headers and sums, and
`Wire` says what they come to byte by byte.
`Gso` defines the segments of a packet and proves them well formed; `Splitter` is `gso_split` itself.
`Tcp`, `TcpItem`, `TcpCoalesce`, `TcpTable` and their UDP counterparts `Udp`, `UdpTable` are the
routines of GRO, from one packet to one table. `Ledger`, `TcpBook`, `UdpBook`, `GroBatch`, `GroRun`
keep the book: a ghost map from each frame to be written to the batch positions it carries, which every
step keeps balanced. `Accounting` and `Gro` are the header rewriting and `handle_gro`. `VirtioRead` is
the reading side. `RoundTrip`, `RoundTripUdp`, `PartialSums`, `Frames`, `Rolls`, `DatagramOrder`,
`Conservation`, `GroChoice`, `GroSearch`, `GroCount`, `GroReachable`, `GroExact`, `Grouping` and `Sending`
hold the results that span several of these. `Wintun` has the steps of the adapter's threads, and
`WintunSafety`, `WintunCalls` and `WintunProgress` what is proved of them.

A packet buffer is a value `Buf(bytes, cap)` in an `array<Buf>`: its contents and the capacity it owns.
Bytes are integers below 256; shifts and masks are written as arithmetic and proved equal to the bit
operations.

## What the model assumes

- The tables and the list of frames are empty when `handle_gro` is called, as `reset` leaves them
  (`src/platform/linux/offload.rs:2044`, `src/platform/linux/device.rs:384`).
- Whatever stands between writing a frame and reading it back hands the frame over whole, with the length
  it was written with. Conservation needs no bound on that length; the 16-bit length field of a merged
  packet is right if and only if its true length fits (`PartialSums.LengthFieldExact`), and it does when no
  buffer has a capacity above 65535 plus twice the offset (`GroReachable.MergesFit`). The code bounds a
  merged packet by capacity only.
- When `gso_split` writes a segment, the checksum field lies inside the output buffer; it compares the field
  with the length of the input only, and panics otherwise. A field inside the transport header always does
  (`Splitter.CsumInHeaderFits`), and so does every header that GRO writes.
- The virtio-net header has 10 bytes, two of one byte and four of two, as its declaration says; comments
  in the source that say 12 are wrong.
- Additions of 16-bit values in `handle_virtio_read` wrap; the model keeps the wrap and proves that the
  checks that follow turn every wrap into an error.
- Steps of the Windows adapter are sequentially consistent. What the ring holds, timeouts, back-off and
  failures of foreign calls are free choices of the environment.

## Model

| member | source | states |
|---|---|---|
| Checksum.ChecksumNoFoldScalar | src/platform/linux/checksum.rs:6-25 | The scalar loop returns the unfolded accumulator for every input whose sum fits 64 bits |
| Checksum.ChecksumNoFoldAvx2 | src/platform/linux/checksum.rs:33-70 | The four-lane loop, with its byte shuffle, lane additions and scalar tail, returns the same unfolded value as the scalar one |
| Checksum.ChecksumNoFoldSse41 | src/platform/linux/checksum.rs:78-110 | The two-lane loop returns the same unfolded value as the scalar one |
| Checksum.ChecksumNoFold | src/platform/linux/checksum.rs:117-131 | Whichever routine the processor selects, the result is the same |
| Checksum.ComputeChecksum | src/platform/linux/checksum.rs:134-142 | The fold loop ends, with the folded sum |
| Checksum.ShuffledWord | src/platform/linux/checksum.rs:33-70 | Shuffling a 16-byte lane and widening one of its four 32-bit parts yields the big-endian word in memory |
| Checksum.LaneWords | src/platform/linux/checksum.rs:33-70 | The accumulator of a 16-byte lane is the sum of its four big-endian 32-bit words |
| Checksum.AccFits | src/platform/linux/checksum.rs:6-25 | How long an input may be for the 64-bit accumulator not to overflow |
| Checksum.SumIsOnesComplement | src/platform/linux/checksum.rs:134-142 | Section 2 of RFC 1071: the folded sum is 0 if and only if the initial value and every byte are 0, and otherwise the value in 1..65535 congruent mod 65535 to the sum of the 16-bit words, odd tail padded |
| Checksum.SumComposes | src/platform/linux/checksum.rs:145-158 | After a prefix of even length the sum goes on from the prefix's accumulator |
| Checksum.PseudoHeaderSum | src/platform/linux/checksum.rs:145-158 | The 4-byte trailer form sums like the whole pseudo-header of section 8.1 of RFC 8200 and like that of section 3.1 of RFC 9293 |
| Checksum.WordSumPut | src/platform/linux/checksum.rs:134-142 | Writing an aligned 16-bit field changes the word sum by the difference |
| Checksum.ChecksumCompletes | src/platform/linux/offload.rs:1886-1893 | A cleared, aligned field filled with the complement of the sum makes the whole sum verify, also from another accumulator of the same residue |
| Wire.FragmentGate | src/platform/linux/offload.rs:1028-1031 | A packet is taken for a fragment if and only if the more-fragments bit or one of the 13 bits of the fragment offset is set; don't-fragment and the reserved bit do not matter |
| Wire.TcpEligible | src/platform/linux/offload.rs:992-1058 | tcp_gro goes on with a packet if and only if version, header lengths, protocol, length field, fragment bits, data offset, flags byte and a payload are as given byte by byte |
| Wire.UdpEligible | src/platform/linux/offload.rs:1386-1419 | The same for udp_gro |
| Wire.TcpFlowBytes | src/platform/linux/offload.rs:417-434 | Two segments have equal keys if and only if addresses, both ports and the acknowledgment number are the same bytes |
| Wire.UdpFlowBytes | src/platform/linux/offload.rs:555-577 | Two datagrams have equal keys if and only if addresses and both ports are the same bytes |
| Wire.IpFieldsDecide | src/platform/linux/offload.rs:677-708 | The IP headers allow merging if and only if type of service, flag bits and time to live agree, or for IPv6 version, traffic class and hop limit |
| Wire.SameStreamBytes | src/platform/linux/offload.rs:738-770 | One stream, one sequence number and one payload mean the same bytes in every field that counts, and conversely |
| Wire.SameUdpStreamBytes | src/platform/linux/offload.rs:710-732 | The same for datagrams |
| Wire.ChecksumValidIff | src/platform/linux/offload.rs:817-834 | checksum_valid holds if and only if the pseudo-header with both addresses of the packet, protocol and length, followed by the transport bytes, sums to 0xFFFF |
| Wire.HdrLayout | src/platform/linux/offload.rs:216-322 | Where each field of an encoded virtio header is; the empty header is ten zero bytes |
| Packet.Nibbles | src/platform/linux/offload.rs:1348-1370 | The arithmetic used for shifts and masks is the bit arithmetic |
| Packet.MoreFragmentsBit | src/platform/linux/offload.rs:1028-1031 | The test of the more-fragments flag, written as arithmetic, is the one on bits |
| Packet.FragmentOffsetBits | src/platform/linux/offload.rs:1028-1031 | The shift that drops the flag bits from the fragment offset, written as arithmetic, is the one on bits |
| Packet.SetsPsh | src/platform/linux/offload.rs:949-953 | Setting PSH, written as arithmetic, is the bit operation |
| Packet.ClearsFinPsh | src/platform/linux/offload.rs:1871-1873 | Clearing FIN and PSH, written as arithmetic, is the bit operation |
| Gso.SegmentExists | src/platform/linux/offload.rs:1795-1806 | Segment i exists exactly when its payload starts before the input ends: the count is the payload length over the segment size, rounded up |
| Gso.OnlyLastIsShort | src/platform/linux/offload.rs:1803-1829 | Every segment but the last is full, each starts where the one before ends, and the last ends the input |
| Gso.PayloadsConcatenate | src/platform/linux/offload.rs:1795-1899 | The payloads of the segments, concatenated, are the payload of the input |
| Gso.SegmentPayload | src/platform/linux/offload.rs:1882-1884 | The payload of a segment is its slice of the input |
| Gso.SegmentKeeps | src/platform/linux/offload.rs:1841-1863 | Every header byte outside length, identification, sequence number, flags and checksums is the input's |
| Gso.SegmentIpFields | src/platform/linux/offload.rs:1841-1860 | Exact IP length, identification plus i mod 2^16, and an IPv4 header that sums to 0xFFFF |
| Gso.SegmentTransportFields | src/platform/linux/offload.rs:1862-1880 | Sequence number advanced by i segment sizes mod 2^32, FIN and PSH on the last segment only, exact UDP length |
| Gso.SegmentChecksum | src/platform/linux/offload.rs:1886-1893 | The transport checksum of every segment verifies over the pseudo-header with the segment's own two addresses and protocol 6 or 17 |
| Gso.SegmentsAreWellFormed | src/platform/linux/offload.rs:1795-1893 | All of this for every segment of every accepted input, of any length, as long as the segment itself fits 16-bit lengths |
| Gso.PartialChecksumCompletes | src/platform/linux/offload.rs:1922-1940 | A packet with the folded pseudo-header sum in its checksum field is completed to one that verifies |
| Gso.CompletedSums | src/platform/linux/offload.rs:1922-1940 | Completing a field makes the bytes from csum_start on sum to 0xFFFF on top of what the field held |
| Gso.HeaderAccepted | src/platform/linux/offload.rs:1680-1775 | The checks before the first segment pass if and only if sizes, offsets and lengths are as given |
| Splitter.GsoSplit | src/platform/linux/offload.rs:1671-1899 | Errors in the order of the checks; on success the count and exactly the segments behind out_offset, everything else in the outputs untouched; on failure the segments before the failing one; sizes, and what is left of the input, in each case; for an input of any length |
| Splitter.SplitSucceedsIffAllFit | src/platform/linux/offload.rs:1795-1838 | Past the header checks splitting succeeds if and only if there is an output buffer with room for every segment |
| Splitter.FilledIsSegment | src/platform/linux/offload.rs:1862-1893 | What one pass lays over an output window, checksum written at the header's own offset, is the segment followed by what was there, whenever the field lies in the transport header |
| Splitter.CsumInHeaderFits | src/platform/linux/offload.rs:1831-1838 | A checksum field inside the transport header lies inside every output buffer that the loop reaches |
| Splitter.GsoNoneChecksum | src/platform/linux/offload.rs:1922-1940 | Completes the checksum in place, or refuses offsets beyond the packet and changes nothing |
| Tcp.SeqNoAt | src/platform/linux/offload.rs:768-772 | In a well-grouped run segment k starts k segment sizes after the first, mod 2^32 |
| Tcp.AppendedRun | src/platform/linux/offload.rs:772-791 | When a segment can follow a run: same stream, adjacent, no larger, and the last one full without PSH; if and only if |
| Tcp.PrependedRun | src/platform/linux/offload.rs:792-811 | When a segment can precede a run: same stream, adjacent, without PSH, of the run's size, or no smaller than a lone segment; if and only if |
| TcpItem.AppendIsExact | src/platform/linux/offload.rs:738-791 | tcp_packets_can_coalesce answers append exactly when the members followed by the segment are well grouped |
| TcpItem.PrependIsExact | src/platform/linux/offload.rs:738-814 | tcp_packets_can_coalesce answers prepend exactly when the members preceded by the segment are well grouped |
| TcpItem.HeaderTestsDecideStream | src/platform/linux/offload.rs:750-767 | The comparisons of header lengths, options and IP fields decide whether the segment is of the members' stream |
| TcpItem.GroupExtent | src/platform/linux/offload.rs:769-771 | A group's payload is num_merged full segments and a last one of 1 to gso_size bytes; the divisibility test tells whether the last is full |
| TcpItem.NotBothSides | src/platform/linux/offload.rs:769-799 | No segment can both follow and precede an item: the 32-bit sequence space is too large for that |
| TcpItem.NewGroup | src/platform/linux/offload.rs:467-498 | A stored segment is a group of one |
| TcpCoalesce.CoalesceTcpPackets | src/platform/linux/offload.rs:882-964 | Every result code in order, the new item, and the new buffers, exchanged on prepend; nothing changes unless it succeeds |
| TcpCoalesce.AppendKeepsGroup | src/platform/linux/offload.rs:930-962 | Item and buffer after an append describe the members followed by the segment |
| TcpCoalesce.PrependKeepsGroup | src/platform/linux/offload.rs:891-929 | Item and buffer after a prepend describe the segment followed by the members |
| TcpCoalesce.PrependLosesPsh | src/platform/linux/offload.rs:891-929 | After a prepend the merged header is without PSH, while the item still remembers a PSH of its last member |
| TcpTable.TcpGROTable.Insert | src/platform/linux/offload.rs:467-498 | Stores the segment as the last item of its flow |
| TcpTable.TcpGROTable.LookupOrInsert | src/platform/linux/offload.rs:441-464 | The flow's items, or none and the segment is stored |
| TcpTable.TcpGROTable.Reset | src/platform/linux/offload.rs:512-517 | Empties the table |
| TcpTable.TcpGro | src/platform/linux/offload.rs:983-1139 | Result, buffers and table are those of the step function: gates, search from the last item to the first, removal of items with a bad checksum, storing |
| TcpTable.Place | src/platform/linux/offload.rs:1078-1139 | The part after the gates, for a candidate |
| TcpTable.TryItem | src/platform/linux/offload.rs:1087-1127 | One turn of the search: merged, refused, or the search goes on below with the item kept or removed |
| TcpBook.MergeFits | src/platform/linux/offload.rs:895-935 | A merged packet leaves header space at both ends of the buffer, and capacities at most change places |
| TcpBook.MergeKeepsItem | src/platform/linux/offload.rs:882-964 | A successful merge keeps item, buffer and booked members in agreement |
| TcpBook.DropStep | src/platform/linux/offload.rs:1111-1119 | A removed item's frame is its original packet behind an empty virtio header |
| TcpBook.SearchKeepsBook | src/platform/linux/offload.rs:1087-1129 | A search keeps its flow booked and touches no frame of another flow |
| Udp.AppendedUdpRun | src/platform/linux/offload.rs:710-732 | When a datagram can follow a run: same stream, no larger, and the last one full; if and only if |
| UdpTable.CoalesceUdpPackets | src/platform/linux/offload.rs:848-878 | Every result code in order, and item and buffer after an append; nothing changes unless it succeeds |
| UdpTable.UdpGROTable.Insert | src/platform/linux/offload.rs:609-636 | Stores the datagram as the last item of its flow, with what is known of its checksum |
| UdpTable.UdpGROTable.LookupOrInsert | src/platform/linux/offload.rs:584-606 | The flow's items, or none and the datagram is stored |
| UdpTable.UdpGROTable.Reset | src/platform/linux/offload.rs:653-658 | Empties the table |
| UdpTable.UdpGro | src/platform/linux/offload.rs:1379-1477 | Result, buffers and table are those of the step function: gates, the last item only, storing |
| UdpTable.PlaceDatagram | src/platform/linux/offload.rs:1432-1477 | The part after the gates, for a candidate |
| UdpBook.UdpGroupExtent | src/platform/linux/offload.rs:722-726 | A group's payload is num_merged full datagrams and a last one of 1 to gso_size bytes |
| UdpBook.UdpAppendIsExact | src/platform/linux/offload.rs:710-732 | udp_packets_can_coalesce answers append exactly when the members followed by the datagram are well grouped |
| UdpBook.UdpAppendKeepsGroup | src/platform/linux/offload.rs:848-878 | Item and buffer after an append describe the members followed by the datagram |
| UdpBook.UdpMergeStep | src/platform/linux/offload.rs:1441-1465 | A merge keeps the flow booked, touches no other flow's frame, and adds the datagram behind all earlier ones of its flow |
| GroRun.StepKeepsBalance | src/platform/linux/offload.rs:1561-1589 | Every step of the loop keeps the book: each position seen is carried by exactly one frame to write, every item agrees with its buffer, UDP flows keep their order, capacities at most change places |
| GroRun.Run | src/platform/linux/offload.rs:1561-1589 | Every run of the loop, from empty tables, has a balanced book |
| GroRun.MembersBounded | src/platform/linux/offload.rs:962-962 | No frame carries more packets than have been looked at, so num_merged never overflows |
| GroRun.TcpEntryKeepsBalance | src/platform/linux/offload.rs:1130-1138 | Storing a segment keeps the book |
| GroRun.SearchKeepsBalance | src/platform/linux/offload.rs:1087-1129 | Searching a flow, with or without a merge, keeps the book |
| GroRun.UdpMergeKeepsBalance | src/platform/linux/offload.rs:1441-1465 | Merging a datagram keeps the book |
| GroRun.LooseKeepsBalance | src/platform/linux/offload.rs:1577-1584 | A packet written as it is keeps the book |
| GroReachable.TablesAgreeWithList | src/platform/linux/offload.rs:1577-1589 | In every reachable state to_write is strictly increasing, and every item of both tables has a frame of its own in it |
| GroReachable.TcpItemsStandForPackets | src/platform/linux/offload.rs:905-948 | In every reachable state a TCP item stands for original packets, whole and in sequence, and no corrupt one has been merged |
| GroReachable.UdpItemsStandForPackets | src/platform/linux/offload.rs:857-877 | In every reachable state a UDP item stands for original datagrams in order, and no corrupt one has been merged |
| GroReachable.MergesFit | src/platform/linux/offload.rs:857-863 | In every reachable state capacities are a permutation of those at the start, and a merged frame fits; under the capacity bound its length fits 16 bits |
| GroChoice.SearchFindsTaker | src/platform/linux/offload.rs:1087-1129 | The search merges a segment if and only if some item of the flow takes it, and refuses it only if its own checksum is wrong |
| GroChoice.TakesIff | src/platform/linux/offload.rs:738-964 | An item takes a segment if and only if it continues or precedes the members evenly, has room, and all checksums involved are right |
| GroChoice.MergesUdpIff | src/platform/linux/offload.rs:1432-1465 | A datagram goes behind its flow's last item if and only if it continues its members evenly, has room, and all checksums involved are right |
| GroChoice.LastTakerTakes | src/platform/linux/offload.rs:1087-1129 | The item a segment is merged into is the last that takes it, also when corrupt items are removed on the way |
| GroExact.TcpMergesIffWelcome | src/platform/linux/offload.rs:983-1139 | In every reachable state the next TCP candidate adds no frame if and only if some item of its flow stands for packets among which it is welcome: it continues or precedes them evenly, has room, and all checksums involved are right; and the last such item's frame is the one that grows |
| GroExact.UdpMergesIffWelcome | src/platform/linux/offload.rs:1379-1477 | In every reachable state with UDP merging on, the next UDP candidate adds no frame if and only if it is welcome among the datagrams of its flow's last item |
| GroChoice.FoundInvalidIff | src/platform/linux/offload.rs:1441-1475 | A datagram is stored as known to be corrupt if and only if nothing but its own checksum kept it from being merged |
| GroSearch.SaysByMode | src/platform/linux/offload.rs:882-964 | An item takes a segment, finds its checksum wrong, or turns out corrupt itself, as adjacency, PSH, room and the checksums of both say |
| GroSearch.SearchExactly | src/platform/linux/offload.rs:1087-1129 | The search ends at the last item that takes the segment or finds its checksum wrong; behind it just the corrupt items are removed, before it nothing changes |
| GroSearch.EndsSomewhere | src/platform/linux/offload.rs:1087-1129 | For every flow there is such an item, or none at which the search ends |
| GroSearch.TcpStepExactly | src/platform/linux/offload.rs:1078-1139 | The result and the flow's items after tcp_gro for a candidate, in terms of that item |
| GroExact.TcpGates | src/platform/linux/offload.rs:983-1139 | tcp_gro leaves alone what is no candidate, answers Coalesced if and only if some item of the flow takes the segment, and Noop for a candidate only if its checksum is wrong |
| GroExact.UdpGates | src/platform/linux/offload.rs:1379-1477 | udp_gro answers Noop if and only if the packet is no candidate |
| GroExact.OthersLeftAlone | src/platform/linux/offload.rs:1561-1589 | A packet that is no candidate, and any datagram when UDP merging is off, is listed as it is behind an empty virtio header, and no table changes |
| Grouping.SplitIsGrouped | src/platform/linux/offload.rs:772-811 | The segments that one packet is split into are well grouped |
| Grouping.GroupedIffSplit | src/platform/linux/offload.rs:772-811 | Segments with right checksums are well grouped if and only if some large packet is split into just them, PSH included |
| Grouping.SplitIsUdpGrouped | src/platform/linux/offload.rs:710-732 | The datagrams that one packet is split into are well grouped |
| Grouping.UdpGroupedIffSplit | src/platform/linux/offload.rs:710-732 | Datagrams with right checksums are well grouped if and only if some large packet is split into just them |
| GroCount.SearchCounts | src/platform/linux/offload.rs:1087-1129 | A search adds one merge or none: the items it removes had none |
| GroCount.StepCounts | src/platform/linux/offload.rs:1577-1589 | Every step counts its packet once, as a frame to write or as a merge |
| GroCount.RunCounts | src/platform/linux/offload.rs:1561-1589 | After n packets, frames to write plus num_merged over both tables are n |
| Accounting.ApplyTcpCoalesceAccounting | src/platform/linux/offload.rs:1181-1254 | Every item's frame is finished and no other buffer changes, whatever the order of the flows |
| Accounting.ApplyUdpCoalesceAccounting | src/platform/linux/offload.rs:1257-1332 | Every item's frame is finished and no other buffer changes, whatever the order of the flows |
| Accounting.TcpAccountingIgnoresOrder | src/platform/linux/offload.rs:1186-1253 | Accounting has one outcome for every iteration order of the hash map |
| Accounting.UdpAccountingIgnoresOrder | src/platform/linux/offload.rs:1262-1331 | Accounting has one outcome for every iteration order of the hash map |
| Accounting.FinishIp | src/platform/linux/offload.rs:1216-1228 | The IP header brought up to date: length and IPv4 header checksum, computed over the cleared field |
| Accounting.FinishTcpFrame | src/platform/linux/offload.rs:1187-1251 | The frame of one TCP item |
| Accounting.FinishUdpFrame | src/platform/linux/offload.rs:1263-1330 | The frame of one UDP item |
| PartialSums.LengthFieldExact | src/platform/linux/offload.rs:1216-1228 | The rewritten IP length is right if and only if the true length fits its 16 bits |
| PartialSums.FinishedIpHeader | src/platform/linux/offload.rs:1221-1228 | The rewritten IPv4 header sums to 0xFFFF, whatever it was before |
| PartialSums.CompletionVerifies | src/platform/linux/offload.rs:1922-1940 | What accounting leaves partial, gso_none_checksum completes to a packet whose checksum, IP header and length all verify |
| PartialSums.TcpFinishedCompletes | src/platform/linux/offload.rs:1211-1244 | This for every merged TCP packet |
| PartialSums.UdpFinishedCompletes | src/platform/linux/offload.rs:1278-1322 | This for every merged UDP packet, with an exact UDP length |
| PartialSums.TcpFrameReadsUnsplit | src/platform/linux/offload.rs:1188-1244 | A merged TCP frame that comes back unsplit is read as one packet that verifies throughout: the written header asks for the checksum and says where it goes |
| PartialSums.UdpFrameReadsUnsplit | src/platform/linux/offload.rs:1265-1322 | The same for a merged UDP frame |
| Gro.TablesDisjoint | src/platform/linux/offload.rs:1561-1595 | A frame is in a table exactly when the book says so, and never in both |
| Gro.TcpFramesReady | src/platform/linux/offload.rs:1181-1254 | After every run each TCP item has a frame of its own with whole headers, as accounting relies on |
| Gro.UdpFramesReady | src/platform/linux/offload.rs:1257-1332 | After every run each UDP item has a frame of its own with whole headers, as accounting relies on |
| Gro.LookAt | src/platform/linux/offload.rs:1570-1589 | One turn of the loop is the step function |
| Gro.HandleGro | src/platform/linux/offload.rs:1546-1596 | Success with all frames finished after a run over the whole batch; or too many buffers and nothing changed; or the first packet that ends before its header space does, and the state of the run up to it |
| Gro.GROTable.Reset | src/platform/linux/offload.rs:2027-2031 | Empties both tables and the list |
| Gro.GROTable.ApplyGro | src/platform/linux/offload.rs:2038-2060 | handle_gro on fresh tables |
| VirtioRead.ValidationDischargesSplitter | src/platform/linux/device.rs:564-679 | Once the checks pass, the header length is the true, unwrapped sum, and the only check of gso_split that can still fail is csum_start below the fixed IP header |
| VirtioRead.CheckedExactly | src/platform/linux/device.rs:601-677 | The checks pass if and only if kind and IP version agree and transport header and checksum field lie inside the packet without a 16-bit wrap; the header length is then the true one |
| VirtioRead.PlainRead | src/platform/linux/device.rs:582-598 | For every flags byte: bit 0 clear, and the frame is delivered byte for byte; bit 0 set, and only the two checksum bytes change, so that the sum completes; an error if and only if the bit is set and the field ends behind the frame, or the buffer is too short |
| VirtioRead.SplitReadSucceedsIff | src/platform/linux/device.rs:601-679 | A frame to split is read if and only if its checks pass, csum_start is not inside the fixed IP header, and every segment has a buffer with room |
| VirtioRead.CheckHdr | src/platform/linux/device.rs:601-677 | The checks before splitting, in order, on the input as it was read |
| VirtioRead.HandleVirtioRead | src/platform/linux/device.rs:556-679 | Every error in order; a plain frame whole in the first buffer, its checksum completed; a large one split |
| VirtioRead.ReadDelivers | src/platform/linux/device.rs:556-679 | A successful read has put exactly the frame's packets, in order, behind the caller's offset |
| RoundTrip.TcpHdrAccepted | src/platform/linux/offload.rs:1188-1196 | The virtio header written for a TCP item passes the checks of the reading side |
| RoundTrip.TcpHdrBytes | src/platform/linux/offload.rs:1188-1246 | The ten bytes in front of a merged TCP packet: checksum wanted, kind 1 or 4, the length of the packet's headers, the first segment's size, and where TCP has its checksum |
| RoundTrip.TcpRoundTrip | src/platform/linux/offload.rs:1181-1254 | Splitting a merged TCP frame yields one segment per member, in sequence order, with the member's addresses, ports, sequence and acknowledgment number, options, payload and IP fields byte for byte, and checksums that verify; a segment has PSH if and only if it is the last and the merged header has PSH, and then its member has it |
| RoundTripUdp.UdpHdrAccepted | src/platform/linux/offload.rs:1264-1276 | The virtio header written for a UDP item passes the checks of the reading side |
| RoundTripUdp.UdpHdrBytes | src/platform/linux/offload.rs:1265-1276 | The ten bytes in front of a merged UDP packet |
| RoundTripUdp.UdpRoundTrip | src/platform/linux/offload.rs:1257-1332 | Splitting a merged UDP frame yields one datagram per member, in order, with the member's addresses, ports, payload and IP fields byte for byte, exact lengths and checksums that verify |
| Frames.TcpFrameDelivers | src/platform/linux/offload.rs:1186-1253 | Reading back the finished frame of a TCP item gives its members; an unmerged one byte for byte |
| Frames.UdpFrameDelivers | src/platform/linux/offload.rs:1262-1331 | Reading back the finished frame of a UDP item gives its members; an unmerged one byte for byte |
| Frames.SamePacketGist | src/platform/linux/offload.rs:673-708 | Packets that the round trip identifies agree on flow, sequence number, payload, options and IP fields |
| Conservation.EveryFrameDelivers | src/platform/linux/offload.rs:1561-1595 | Every frame to write, also one whose item was removed, delivers the packets booked for it behind a freshly written virtio header |
| Conservation.LoneUntouched | src/platform/linux/offload.rs:1561-1595 | A frame that yields one packet is that packet of the batch, byte for byte, behind an empty virtio header, whatever buffers were exchanged or items removed |
| Conservation.ReadBackMatchesRoll | src/platform/linux/offload.rs:1561-1595 | The packets read back match, one by one, the batch positions the frames carry |
| Conservation.GistsConserved | src/platform/linux/offload.rs:1546-1596 | A roll of all positions reads every packet once |
| DatagramOrder.RollByFlow | src/platform/linux/offload.rs:1441-1475 | Of everything the frames carry, a UDP flow's datagrams are those of its items, in their order |
| DatagramOrder.ArrivalsInOrder | src/platform/linux/offload.rs:1379-1477 | What arrives for a UDP flow is its datagrams in batch order |
| Conservation.BatchIsConserved | src/platform/linux/offload.rs:1546-1596 | When handle_gro succeeds, reading back the frames in order gives every packet of the batch exactly once, unmerged ones byte for byte at their own position, and the datagrams of each UDP flow in order; for buffers of any capacity |
| Sending.SendMultiple | src/platform/linux/device.rs:377-428 | Which frames are written and what the caller is told, with and without offload |
| Sending.WriteFrames | src/platform/linux/device.rs:409-427 | The writing loop: stops at a frame that is too short or a descriptor in a bad state, goes on after other failures |
| Sending.WritesInOrder | src/platform/linux/device.rs:409-427 | Frames go out in list order from the offset on; success is told if and only if every write succeeded, with the sum of their counts |
| Sending.ToldWhy | src/platform/linux/device.rs:409-427 | A failure that is told is that of the first frame that ends the writing, after which nothing is written, or else the code of the last write that failed |
| Sending.SendsPlain | src/platform/linux/device.rs:401-427 | With offload off and success told, every packet has been written as it is, in order |
| Sending.SendsTheBatch | src/platform/linux/device.rs:394-427 | With offload on and success told, the frames written are all those listed, each from its virtio header on, and carry the whole batch |
| Wintun.EndedOnce | src/platform/windows/tun/mod.rs:204-210 | In a proper history of driver calls every session is ended as often as it was started, save the one still running |
| Wintun.StartedOnce | src/platform/windows/tun/mod.rs:120-147 | In a history that numbers its sessions none is started twice |
| WintunSafety.EnableSound | src/platform/windows/tun/mod.rs:120-147 | Every step of enable, with starting or the read event failing, keeps flag, session and driver in step |
| WintunSafety.DisableSound | src/platform/windows/tun/mod.rs:106-118 | Every step of disable, with setting or resetting the event failing, keeps flag, session and driver in step |
| WintunSafety.ReadSound | src/platform/windows/tun/mod.rs:159-202 | Every step of send, recv, try_send, try_recv and the wait uses the handle of the running session only |
| WintunSafety.DropSound | src/platform/windows/tun/mod.rs:56-67 | Every step of dropping the adapter ends its session before closing it |
| WintunSafety.NextKeepsInv | src/platform/windows/tun/mod.rs:106-210 | Every step of every thread keeps the invariant |
| WintunSafety.RunKeepsInv | src/platform/windows/tun/mod.rs:106-210 | So does every run, for any number of threads and any interleaving |
| WintunSafety.EnabledIffSession | src/platform/windows/tun/mod.rs:106-147 | Whenever the mutex is free the adapter is enabled if and only if it has a session, and what enable and disable return tells which |
| WintunSafety.SessionsEndOnce | src/platform/windows/tun/mod.rs:56-67 | The driver is only asked what it can do: each session is started at most once and ended no more often, as often when no thread is inside and it is not stored, and before closing |
| WintunSafety.EndsUnused | src/platform/windows/tun/mod.rs:106-118 | A session is ended, the event reset and the adapter closed only when no thread uses a session's handle |
| WintunCalls.AloneIsRun | src/platform/windows/tun/mod.rs:106-210 | A thread taking turns on its own is one of the runs |
| WintunCalls.Begins | src/platform/windows/tun/mod.rs:106-202 | Every call starts by waiting for its lock; drop only when no other call is under way |
| WintunCalls.EnableAlone | src/platform/windows/tun/mod.rs:120-147 | Undisturbed, enable returns: an enabled adapter stays as it is, a disabled one gets exactly one new session and its flag; no session from the driver changes nothing, no event ends the session again |
| WintunCalls.DisableAlone | src/platform/windows/tun/mod.rs:106-118 | Undisturbed, disable returns: nothing changes if the adapter is disabled or the event cannot be set; otherwise flag and session are gone and the session is ended |
| WintunCalls.DropAlone | src/platform/windows/tun/mod.rs:56-67 | Undisturbed, dropping ends the session, if there is one, and closes the adapter |
| WintunCalls.ReadAlone | src/platform/windows/tun/mod.rs:159-202 | Undisturbed, a reading call without a session changes nothing, and one with a session uses it and returns |
| WintunCalls.RecvSpins | src/platform/windows/tun/mod.rs:248-267 | recv looks at the ring 16 times before it waits |
| WintunCalls.FailsIff | src/platform/windows/tun/mod.rs:106-147 | A step of enable or disable turns to failure if and only if it asks for a session, its event, or the setting or resetting of the adapter's event, and does not get it |
| WintunCalls.FailsByItself | src/platform/windows/tun/mod.rs:106-147 | In every run of any number of threads a call of enable or disable fails only by such a step of its own |
| WintunCalls.ReadUsesItsSession | src/platform/windows/tun/mod.rs:159-202 | In every run a reading call that finds no session asks nothing of the driver, and one that finds a session uses that session and no other at least once, just once if it is not to block |
| WintunCalls.BlockedUntilDisabled | src/platform/windows/tun/mod.rs:213-268 | In every run a send or recv for which the ring has nothing gives up only after finding the flag clear or the event set |
| WintunProgress.ReadersCanLeave | src/platform/windows/tun/mod.rs:213-268 | While disable waits for the write lock every holder of the read lock can step, whatever the ring does, and comes closer to leaving unless a packet wakes it |
| WintunProgress.DisableCanFinish | src/platform/windows/tun/mod.rs:106-118 | From every reachable state in which disable waits, a schedule that needs nothing from the ring lets it return with the adapter disabled |
| WintunProgress.CallCanFinish | src/platform/windows/tun/mod.rs:106-147 | From every reachable state in which a call of enable or disable is under way and nothing has failed for it, a schedule that needs nothing from the ring lets it return with the adapter enabled, or disabled |
| WintunProgress.NoDeadlock | src/platform/windows/tun/mod.rs:106-202 | When no thread can step, every thread is outside or waits under the read lock for a packet or the event, with the adapter enabled |

## Left out

- Device creation, ioctls, routes, addresses, bindings, logging and the asynchronous wrappers: foreign calls and plumbing.
- Detection of processor features: a parameter selects the checksum routine; vector instructions are modelled as sequences of lanes over bytes.
- The pools of spare vectors in both tables, which only save allocations.
- Aliasing and reallocation of buffers: a buffer is a value with a capacity, held in an array; `extend` and `resize` within the capacity do not reallocate.
- Machines that are not little-endian: virtio headers are encoded with the low byte first.
- IPv4 options under GRO: classification leaves packets that have them alone, and so does the model.
- What survives a merge beyond the proved fields: IP identification, TCP window, urgent pointer and IPv6 flow label are the first member's, and nothing is claimed about them.
- RoundTrip.TcpRoundTrip: a last member's PSH is lost when an earlier segment was prepended after it (`TcpCoalesce.PrependLosesPsh`); the segments cut from such a frame have no PSH at all.
- The order of TCP packets across items, and of UDP datagrams relative to packets that bypass the tables.
- A UDP checksum of zero, which RFC 768 reserves: the code writes what it computes, and so does the model.
- VirtioRead.HandleVirtioRead: does not say what is left in the input buffer, which the caller discards.
- Gro.HandleGro: requires empty tables and an empty list; items left from an earlier batch would name buffers of that batch, and the callers reset the tables first (`src/platform/linux/offload.rs:2044`, `src/platform/linux/device.rs:384`).
- Conservation.BatchIsConserved: the length a frame is read back with is the length it was written with; a device whose packets are limited to 65535 bytes would not take a longer one.
- Sending.SendMultiple: what each write comes to is a parameter; the device itself is not modelled.
- Vectored and single sends, recv_multiple's read from the device, and everything of the other platforms.
- Wintun.Next: the retry loops of send and recv are steps of a thread, not loops over fields; time, back-off and the contents of the ring are choices of the environment, and writer fairness is not claimed.
- Wintun.StepRead: the refusal of a buffer above 4 GiB, which comes before any use of the driver, is not a step of its own.
- The `poll_*` slots behind the asynchronous Windows API, and poisoning of locks by panics.
