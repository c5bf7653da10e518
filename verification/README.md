# Offload and snapshot proofs

A Dafny model of two parts of the repository, with proofs about them.

**The Linux TUN offload engine** (`tun/offload_linux.go`, `tun/checksum.go`, and `handleVirtioRead` and the GRO bracket of
`Write` in `tun/tun_linux.go`). A batch of packets is coalesced in place (GRO) before it is written to the device, and a large
packet read from the device is split into segments (GSO). The model follows the code twice:

- as functions of values (`Packet`, `Gro`, `Gso`, `Accounting`), about which the properties are proved;
- as methods over mutable state (`Buffers.Batch`: byte slices over distinct arrays that are extended and swapped;
  `Tables.GroTable`: a map of flows to slices whose arrays come from a pool; `Offload`, `Batches`, `VirtioRead`,
  `Tun.NativeTun`), each proved to compute the corresponding function.

Alongside the buffers, `Gro.State` carries as history which original packets each buffer holds, in stream order. The batch
invariant (`GroInvariant.Inv`) and the item invariant (`GroItem.Holds`) are kept by every packet of every batch, and from them
the end-to-end results follow: every packet of a batch sits in exactly one written buffer, every written buffer reads back
through `handleVirtioRead` as exactly its packets, and unmerged packets go out unchanged. The TCP flags come back with them
exactly when no packet of the batch is prepended to an item with PSH (`PshLoss`), and `Intact` says exactly which packets
come back byte for byte. What goes into which frame is determined: `Grouping` says for every batch which packets of a
flow GRO puts together, as a function of the packets alone, and `Frames` gives every byte that is written for them. A flow
that arrives as a stream ends up in one buffer, in order (`InOrder`) or growing at either end (`EitherEnd`), whatever lies
between its packets, and the segments of a large packet, handed back in order, are written as the large packet again
(`Rejoin`). `Wire` and `Reads` say in figures what the code reads and writes: the virtio header, which packets GRO takes up,
the flows, the checksums, and what a read delivers or why it is refused.

The unrolled 64-bit checksum (`FastChecksum`) is proved equal to the one's complement fold of the mathematical word sum of
sections 1 and 2(B) of RFC 1071, on both byte orders, and compared with the simple loop of `tun/tuntest`.

**The lock-free snapshots of `common/a_star`.** `Cas` is a state machine of threads that load a shared pointer, build a new
immutable snapshot and compare-and-swap, with plain stores mixed in. It is linearizable in every interleaving.
`Telemetry`, `RttEstimator` and `ConfigManager` are its three uses, and `Reloads` composes the two cells of a
`ConfigManager` into whole `SwitchProfile` and `Reload` calls.

`dafny verify dfyconfig.toml` checks the project. The files by layer:

| layer | files |
|---|---|
| bytes, sums | `Options`, `Bytes`, `Arithmetic`, `ChecksumSpec`, `FastChecksum` |
| packets, GRO as functions | `Packet`, `Wire`, `Gro`, `GroItem`, `GroInvariant`, `UdpOrder`, `InOrder`, `Decisions`, `Grouping` |
| GSO, accounting, round trip as functions | `Gso`, `GsoSegments`, `Accounting`, `RoundTrip`, `Delivery` |
| methods over buffers and tables | `Buffers`, `Tables`, `Offload`, `Batches`, `VirtioRead`, `Tun` |
| whole reads and batches, there and back | `Reads`, `Frames`, `EitherEnd`, `PshLoss`, `Intact`, `Rejoin` |
| snapshots | `Cas`, `Telemetry`, `RttEstimator`, `MeshConfig`, `ConfigManager`, `Reloads` |
| example and failing inputs | `Examples`, `Counterexamples` |

## Where the code falls short

- Prepending a packet to an item that has PSH drops PSH from the merged header while the item keeps claiming it
  (`tun/offload_linux.go:468-474`). The flags come back exactly when that branch is not taken: `RoundTrip.FlagsRoundTrip`
  for one frame, `PshLoss.FlagsDelivered` for a batch. `Counterexamples.PrependLosesPsh` is a batch of two packets on
  which they do not.
- `gsoSplit` promises the number of buffers populated (`tun/offload_linux.go:890-892`), but on overflow returns one less
  (`tun/offload_linux.go:915-917`): `VirtioRead.ReadDelivers` for all reads, `Counterexamples.SplitMiscounts` for one read
  of two segments into one buffer, which is filled while 0 is returned.
- The IPv6 payload length of a segment is right exactly when `csumStart` is 40, because the code subtracts `csumStart`
  (`tun/offload_linux.go:942`): `GsoSegments.Ipv6LengthRight`, and `Counterexamples.Ipv6LengthWrong` for a read with
  destination options before its UDP header.
- The simple loop of `tun/tuntest` has a 32-bit accumulator that can wrap beyond 131072 bytes:
  `FastChecksum.SimpleAgrees`, `Counterexamples.SimpleLoopOverflows`.

## Model

| member | source | states |
|---|---|---|
| FastChecksum.SwapWeight | tun/checksum.go:10-12 | reading a 64-bit value in the other byte order multiplies it by 256 modulo 65535 on a little-endian host and leaves it alone on a big-endian one |
| FastChecksum.Add64Folds | tun/checksum.go:16-17 | one Add64 step keeps the sum modulo 65535, and a carry out of 1 leaves the accumulator below 2^64-1, so that adding the carry cannot wrap |
| FastChecksum.ChainStep | tun/checksum.go:15-33 | along a chain of Add64 steps accumulator plus carry fold to the start value plus the words taken so far, and no carry is lost |
| FastChecksum.Block128 | tun/checksum.go:15-34 | sixteen chained additions and the closing carry add exactly the 128 bytes' words to the folded accumulator |
| FastChecksum.ChecksumNoFold | tun/checksum.go:9-84 | for every length, initial value and byte order, the 64-bit result folds to the initial value plus the mathematical word sum, and is zero only when both are |
| FastChecksum.FourFolds | tun/checksum.go:86-93 | four folds bring every 64-bit accumulator to at most 65535 and keep its folded value: the conversion to 16 bits drops nothing |
| FastChecksum.ThreeFoldsFallShort | tun/checksum.go:86-93 | an accumulator that still has 17 bits after three folds |
| FastChecksum.Checksum | tun/checksum.go:86-93 | the result is the one's complement fold of initial value plus word sum, the same on either byte order, with 0 only for a zero sum |
| FastChecksum.ChainedPrefix | tun/checksum.go:95-102 | an even-length prefix can be summed first and handed on as the initial value |
| FastChecksum.PseudoHeaderChecksumNoFold | tun/checksum.go:95-102 | the sum folds like the pseudo-header's words: addresses, protocol and length |
| FastChecksum.SimpleChecksum | tun/tuntest/tuntest.go:29-41 | the simple loop returns the complement of the folded sum, the sum being cut to 32 bits |
| FastChecksum.SimpleAgrees | tun/tuntest/tuntest.go:29-41 | the two checksums are complements of each other exactly when the lost carries cancel, and always up to 131072 bytes |
| Packet.EncodeDecode | tun/offload_linux.go:38-52 | decoding an encoded virtio header gives it back, on either byte order, whatever follows |
| Packet.Classified | tun/offload_linux.go:531-590 | a packet that becomes an item has a fixed-size IP header, whole headers and a payload of exactly gsoSize bytes |
| Packet.SameFlowAgrees | tun/offload_linux.go:279-312 | packets with one flow key, coalescible IP headers and equal options agree on every header byte that coalescing keeps |
| Packet.CheckChecksum | tun/offload_linux.go:388-398 | true exactly when pseudo-header, transport header and payload fold to all ones |
| Wire.VirtioLayout | tun/offload_linux.go:29-52 | which bytes hold which field of the virtio header, written and read, in the order of the host: flags, type, header length, segment size, checksum start and offset |
| Wire.TakenUpExactly | tun/offload_linux.go:747-771 | a packet enters a table exactly when its bytes are those of a whole, unfragmented TCP packet with ACK or ACK and PSH and a payload, or, if the device has UDP GSO, of a whole UDP packet with a payload |
| Wire.ItemFields | tun/offload_linux.go:531-590 | the fields of a new item are the packet's: header lengths, payload size, sequence number, PSH |
| Wire.KeysExactly | tun/offload_linux.go:85-96 | two packets have one flow key exactly when version, protocol, addresses, ports and, for TCP, acknowledgement number are the same |
| Wire.PseudoHeaderSum | tun/checksum.go:95-102 | the sum is that of the words of the pseudo-header of section 3.1 of RFC 9293 or section 8.1 of RFC 8200 |
| Wire.ValidExactly | tun/offload_linux.go:388-398 | a checksum counts as valid exactly when the words of pseudo-header and segment fold to all ones |
| Wire.PaddedSum | tun/checksum.go:76-80 | an odd last byte counts as if a zero byte followed it |
| Wire.Rfc1071Example | tun/checksum.go:86-93 | the example of section 3 of RFC 1071 |
| GroItem.LastIsFull | tun/offload_linux.go:358-362 | when the merged payload is a multiple of the segment size its last segment is whole, so that nothing is ever appended after a short one |
| GroItem.LhsLenExact | tun/offload_linux.go:350-351 | the 16-bit length used to align an append is (numMerged+1)*gsoSize, without wrap-around |
| GroItem.ItemInserted | tun/offload_linux.go:112-129 | a packet stored as a new item starts one that holds exactly that packet |
| GroItem.UdpAppended | tun/offload_linux.go:414-440 | a successful UDP append keeps the item invariant, with the new packet last, and touches no other buffer |
| GroItem.TcpAppended | tun/offload_linux.go:475-506 | a successful TCP append keeps the item invariant: payloads concatenated, segment sizes, contiguous sequence numbers modulo 2^32, PSH on the last packet only, all checksums valid |
| GroItem.TcpPrepended | tun/offload_linux.go:450-474 | a successful TCP prepend keeps the item invariant with the new packet first, and swaps the two buffers |
| GroItem.PayloadsCount | tun/offload_linux.go:314-386 | the buffer's length is offset, headers, numMerged whole segments and a last one of 1 to gsoSize bytes |
| GroInvariant.OnlyUnmergedDropped | tun/offload_linux.go:608-617 | the reverse scan deletes an item only when nothing was merged into it and its checksum is wrong |
| GroInvariant.TcpScanKeeps | tun/offload_linux.go:591-624 | the reverse scan with its deletions keeps the batch invariant, whatever it does |
| GroInvariant.UdpScanKeeps | tun/offload_linux.go:824-853 | offering a packet to the last item of its UDP flow keeps the batch invariant |
| GroInvariant.StepKeeps | tun/offload_linux.go:861-885 | every packet that passes the offset check keeps the batch invariant |
| GroInvariant.Run | tun/offload_linux.go:861-885 | the batch after any number of packets, from empty tables, satisfies the batch invariant |
| GroInvariant.MoveConserves | tun/offload_linux.go:444-506 | moving packets between buffers neither loses nor copies any |
| GroInvariant.DistinctBuffers | tun/offload_linux.go:144-153 | no two items, of one or of different flows, describe the same buffer |
| Decisions.TcpCompares | tun/offload_linux.go:334-386 | a TCP packet is appended to an item exactly when it comes right after the packets the item holds, all whole and without PSH, and is not larger; prepended exactly when it comes right before them, without PSH, and is as large, or larger than a single one; never both |
| Decisions.UdpCompares | tun/offload_linux.go:314-330 | a UDP packet may join an item exactly when the headers agree, all packets the item holds are whole and it is not larger |
| Decisions.TcpItemFate | tun/offload_linux.go:591-621 | what a TCP packet makes of an item, in terms of the packets the item holds: passed over, deleted, the end of the search, or merged, and at which end |
| Decisions.UdpItemFate | tun/offload_linux.go:824-853 | a UDP packet joins the last item of its flow exactly when it may, there is room and both checksums are right; otherwise it starts a new one, which remembers a checksum found wrong |
| Grouping.TcpScanPlaces | tun/offload_linux.go:591-624 | the search through a flow's items, deletions included, regroups the packets as the search through the groups themselves does |
| Grouping.RunGroups | tun/offload_linux.go:861-885 | after any number of packets the items of every flow hold exactly the groups that are a function of the packets alone |
| UdpOrder.RunInOrder | tun/offload_linux.go:824-853 | after any number of packets the items of a UDP flow, in list order, hold its packets in arrival order, and a flow in the table has an item |
| InOrder.StreamMerges | tun/offload_linux.go:591-624 | when the packets of one TCP or UDP flow are an in-order stream, with valid checksums and just enough room in the first buffer, they end up in one item, in the first one's buffer, that holds them all in order, however many they are and whatever packets of other flows lie between them |
| InOrder.StreamAlone | tun/offload_linux.go:861-885 | when the batch is nothing but that stream, the tables hold no other flow and the first buffer is the only one to write |
| EitherEnd.EndsMerge | tun/offload_linux.go:371-384 | a TCP stream whose packets arrive in any order in which each is next to those that are there, in front or behind, becomes one group in stream order, whatever packets of other flows lie between |
| EitherEnd.Forwards | tun/offload_linux.go:371-384 | the order of the stream itself is such an order |
| EitherEnd.Backwards | tun/offload_linux.go:371-384 | the reverse order is such an order |
| EitherEnd.EndsWritten | tun/offload_linux.go:861-889 | handleGRO writes such a stream as one frame, which reads back as its packets in stream order |
| Examples.StreamExists | tun/offload_linux.go:591-624 | two packets that form an in-order stream |
| Examples.BackwardsExists | tun/offload_linux.go:371-384 | two packets that form a stream backwards |
| Examples.PairFrame | tun/offload_linux.go:629-681 | the first ten bytes of the frame written for those two, on either byte order, its lengths, flags and payload |
| Gso.ChecksExact | tun/tun_linux.go:401-447 | the checks, done in 16 bits, pass exactly the packets with a known version, a segment type of that version, whole headers and the checksum field within the packet; wrap-around lets no shorter one through, and the header length is exact |
| Reads.UnsplitRead | tun/tun_linux.go:378-399 | a read of segment type 0 is delivered whole: as it is when bit 0 of its flags is clear, otherwise with the checksum completed, no other byte changed, and valid if it was the pseudo-header's folded sum; too large for the first buffer, it leaves everything untouched |
| Reads.SplitRead | tun/tun_linux.go:400-449 | a read that is split is cut, after the headers that its own transport header measures, into pieces of the size in bytes 4 and 5 |
| Reads.SplitHeaders | tun/offload_linux.go:919-973 | every header byte of every packet that a read is split into, by the bytes of the read: lengths, IDs, sequence numbers, flags and checksums, and the input's otherwise |
| Reads.RefusedRead | tun/tun_linux.go:375-447 | a read is refused exactly when something is wrong with it, with the first error to be found |
| GsoSegments.OffsetExact | tun/offload_linux.go:950 | the 16-bit product of segment size and index is the true stream offset |
| GsoSegments.SegmentIs | tun/offload_linux.go:912-973 | every segment is a valid packet: lengths, IPv4 header checksum, transport checksum, ID, sequence number, flags, payload, and otherwise the input's headers |
| GsoSegments.SegmentsPartition | tun/offload_linux.go:912-974 | the segments' payloads concatenate to the input's, all but the last have gsoSize bytes, IPv4 IDs count up, FIN and PSH only on the last |
| GsoSegments.Ipv6LengthRight | tun/offload_linux.go:940-943 | a segment's IP length is right exactly for IPv4, or for IPv6 with csumStart 40 |
| Accounting.AccountedPacket | tun/offload_linux.go:629-672 | accounting sets the lengths, a valid IPv4 header checksum and the folded pseudo-header sum, and changes no other byte |
| Accounting.PartialChecksum | tun/offload_linux.go:977-985 | completing the checksum that accounting leaves, as gsoNoneChecksum does, makes the merged packet's transport checksum valid |
| RoundTrip.MergedRoundTrip | tun/tun_linux.go:375-449 | reading back an accounted merged buffer yields its original packets in stream order: boundaries, payloads, addresses, ports, sequence numbers, acknowledgement, options, valid checksums; IPv4 ID (counted up), flow label, TCP reserved bits, window and urgent pointer are the first packet's |
| RoundTrip.FlagsRoundTrip | tun/offload_linux.go:468-474 | the packets read back from an accounted merged TCP buffer have their original flags exactly when the item has no PSH or its first packet did not arrive after its last |
| RoundTrip.PlainRoundTrip | tun/tun_linux.go:378-399 | a buffer with a cleared virtio header reads back as its one packet, unchanged |
| Delivery.AccountingUnique | tun/offload_linux.go:629-735 | accounting has one outcome, in whatever order the maps are walked |
| Delivery.ExactlyOnce | tun/offload_linux.go:861-888 | every packet of a batch sits in exactly one buffer to write, once |
| Delivery.Delivered | tun/offload_linux.go:861-888 | every buffer to write, once accounted for, reads back as exactly the packets it holds, TCP flags included, but for the PSH of a last packet that arrived before the first one |
| Delivery.WrittenHeader | tun/offload_linux.go:608-617 | a written buffer's virtio header is all zero over its untouched packet, or the encoding of its own merged item |
| Frames.FrameOf | tun/offload_linux.go:861-888 | every packet is in one frame, once: with exactly the other packets of its group, in their order, or alone when it is in none; the frame goes out in the place of the packet among them that arrived first |
| Frames.LeftAlone | tun/offload_linux.go:747-771 | a packet that GRO does not take up, such as UDP for a device without UDP GSO, goes out alone in its own buffer, unchanged, with a zero virtio header |
| Frames.NoUdpFlows | tun/offload_linux.go:759-766 | without UDP GSO on the device no UDP flow is ever in a table |
| Frames.WrittenShows | tun/offload_linux.go:629-735 | every byte of every frame: a lone packet under a zero header, otherwise the virtio header in figures, the first packet's headers with true lengths, a valid IPv4 header checksum and the folded pseudo-header sum, the flags, and the payloads in order |
| Buffers.Batch.Extend | tun/offload_linux.go:432-438 | appending zeros within capacity lengthens one buffer and leaves the others alone |
| Buffers.Batch.Swap | tun/offload_linux.go:468-474 | exchanges two buffers |
| Tables.GroTable.constructor | tun/offload_linux.go:74-83 | an empty map and a full pool of distinct arrays |
| Tables.GroTable.NewItems | tun/offload_linux.go:155-159 | pops the last slice of a pool that is not empty |
| Tables.GroTable.Insert | tun/offload_linux.go:112-129 | the item goes to the end of its flow, other flows keep theirs, and pooled slices plus live flows stay batchSize |
| Tables.GroTable.LookupOrInsert | tun/offload_linux.go:98-110 | the flow's slice of the shared array, or the insertion of a new flow with the item alone |
| Tables.GroTable.UpdateAt | tun/offload_linux.go:131-134 | replaces one item of one flow |
| Tables.GroTable.DeleteAt | tun/offload_linux.go:136-140 | removes one item in place: those after it move down, those before it stay where a stale slice still sees them |
| Tables.GroTable.Reset | tun/offload_linux.go:161-167 | the map is empty and the pool full, with distinct arrays |
| Offload.CoalesceUdp | tun/offload_linux.go:414-440 | result, item and buffers are those of Gro.CoalesceUdpPackets |
| Offload.CoalesceTcpPrepend | tun/offload_linux.go:450-474 | result, item and buffers are those of Gro.CoalesceTcpPackets for a prepend, swap included |
| Offload.CoalesceTcpAppend | tun/offload_linux.go:475-506 | result, item and buffers are those of Gro.CoalesceTcpPackets for an append |
| Offload.ExamineItem | tun/offload_linux.go:591-621 | one iteration over the stale slice does what the scan does to the table's own item |
| Offload.TcpGroItem | tun/offload_linux.go:586-624 | buffers, table and result after tcpGRO are those of the scan of the packet's flow |
| Offload.UdpGroItem | tun/offload_linux.go:820-853 | buffers, table and result after udpGRO are those of the scan of the packet's flow |
| Offload.AccountBuffer | tun/offload_linux.go:629-681 | one item's buffer becomes its accounted form, the others stay |
| Batches.ApplyCoalesceAccounting | tun/offload_linux.go:629-735 | walking the map in any order accounts for every item once and touches nothing else |
| Batches.BothAccounted | tun/offload_linux.go:886-888 | accounting for the two tables one after the other is accounting for all items |
| Batches.GroPacket | tun/offload_linux.go:863-885 | one iteration of handleGRO does what the batch step does: buffers, both tables, indices to write |
| Batches.HandleGro | tun/offload_linux.go:861-889 | fails exactly when a packet fails the offset check; otherwise leaves the run over all packets, accounted for |
| Batches.BatchDelivered | tun/offload_linux.go:861-889 | indices to write increase strictly, every packet lives in exactly one written buffer, each written buffer reads back as its packets, with their TCP flags but for a PSH lost to a prepend |
| PshLoss.StepLoses | tun/offload_linux.go:468-474 | a step loses a PSH exactly when it prepends its packet to an item that has PSH, and no step brings one back |
| PshLoss.RunLoses | tun/offload_linux.go:861-885 | after any number of packets some buffer lacks its PSH exactly when one of them was prepended to an item that had PSH |
| PshLoss.FlagsDelivered | tun/offload_linux.go:861-889 | the frames written for a batch give all TCP packets back with their flags exactly when no packet was prepended to an item that had PSH |
| Intact.ByteForByte | tun/tun_linux.go:375-449 | a packet read back from a frame is the original one byte for byte exactly when it is alone in its buffer, or its lengths and checksums are canonical, it agrees with the first packet on the fields taken from there, and its PSH is not dropped |
| Intact.BatchByteForByte | tun/offload_linux.go:861-889 | the same for every frame written for a batch |
| Rejoin.SegmentsStream | tun/offload_linux.go:912-974 | the segments of a packet that GRO takes up are an in-order stream of it, among whatever other packets |
| Rejoin.FrameRejoins | tun/offload_linux.go:861-889 | given the segments of a large packet in order among other traffic, handleGRO writes them as one frame: from two segments on the virtio header of the large packet, flags and header length aside, then every byte of the packet but the lengths and checksums, with true lengths, a valid IPv4 header checksum and a transport checksum that is valid once completed; a single segment goes out as it is |
| Rejoin.ReadRejoins | tun/tun_linux.go:335-450 | what handleVirtioRead makes of a large TCP or UDP packet, handed to handleGRO in order among other traffic with room in the first buffer, is written as the large packet again, in the sense of FrameRejoins |
| VirtioRead.SegmentOut | tun/offload_linux.go:919-973 | the loop body leaves segment i in output buffer i from outOffset on, and nothing else changed |
| VirtioRead.GsoSplit | tun/offload_linux.go:893-975 | buffers and sizes after splitting, the input left with its checksums cleared, for every segment size including 0 |
| VirtioRead.SplitOutcome | tun/offload_linux.go:912-917 | fails exactly when there are more segments than buffers, for size 0 when there is any payload; all buffers are filled by then |
| VirtioRead.GsoNoneChecksumAt | tun/offload_linux.go:977-985 | completes the partial checksum in place |
| VirtioRead.Validate | tun/tun_linux.go:401-447 | every check of a segmented packet, in order; it passes exactly the packets with whole headers and the checksum field within, their header length exact |
| VirtioRead.HandleVirtioRead | tun/tun_linux.go:375-450 | delivers what the plan of the read says, or its error with the buffers untouched |
| VirtioRead.ReadDelivers | tun/tun_linux.go:375-450 | succeeds exactly when the packets fit the buffers, then holds all of them in order; a packet that is too large for the first buffer leaves everything untouched, and with too many segments every buffer holds its packet and the count is one less |
| Tun.NativeTun.Write | tun/tun_linux.go:335-373 | with virtio headers it succeeds exactly when the batch is empty or the offset leaves room for a header and every packet reaches beyond it; the frames handed to the file, and both tables empty with full pools afterwards, whatever the outcome |
| Tun.FramesCarryBatch | tun/tun_linux.go:335-373 | the frames written read back as the packets of the batch, each packet in exactly one of them |
| Tun.FrameComesBack | tun/tun_linux.go:375-450 | a written frame, read by handleVirtioRead into buffers enough, shows its original packets in order |
| Examples.TwoSegmentsBytes | tun/tun_linux.go:375-449 | the ten bytes of a virtio header, on either byte order, and the sizes and payloads of the packets a read with it is split into |
| Examples.RejoinExists | tun/tun_linux.go:335-450 | a read of two segments and a batch that meet what ReadRejoins asks for |
| Counterexamples.PrependLosesPsh | tun/offload_linux.go:468-474 | a batch of two packets whose second step prepends to an item with PSH, after which the merged header lacks the PSH of its last packet |
| Counterexamples.SplitMiscounts | tun/offload_linux.go:915-917 | a read of two segments into one buffer: the buffer is filled, the error is ErrTooManySegments and the count is 0 |
| Counterexamples.Ipv6LengthWrong | tun/offload_linux.go:940-943 | a read of an IPv6 packet with destination options that is delivered with a wrong payload length |
| Counterexamples.SimpleLoopOverflows | tun/tuntest/tuntest.go:29-41 | a buffer on which the two checksums differ |
| Cas.StepKeeps | common/a_star/weight.go:60-79 | every step of every thread keeps the invariant that history, threads and shared snapshot agree |
| Cas.Linearizable | common/a_star/config.go:83-100 | in every interleaving the shared snapshot is the effects applied one after the other, each call has one effect or refusal between its invocation and its return, and each is justified |
| Cas.LockFree | common/a_star/weight.go:74-78 | a compare-and-swap fails exactly when another call has taken effect since the load |
| Cas.Published | common/a_star/weight.go:149 | at any point of any run the snapshot readers see is what some accepted calls, one after the other, have made |
| Cas.ReturnMeans | common/a_star/config.go:83-100 | a call returns success when it took effect, and failure when it was turned down, by what had taken effect before, at one point after its invocation |
| Cas.ReturnsAccepted | common/a_star/weight.go:60-79 | a call that no snapshot turns down returns with its effect made exactly when its argument is accepted |
| Cas.CanGoOn | common/a_star/weight.go:64-78 | a thread can always take the next step of its call |
| Cas.DoneAlone | common/a_star/weight.go:64-78 | a call that nobody gets in the way of is done after one load and one attempt |
| Telemetry.SnapshotIs | common/a_star/weight.go:60-149 | in every interleaving of the four writers each field is the last committed update of that field, within its range |
| Telemetry.UpdateReturns | common/a_star/weight.go:56-149 | an update takes effect exactly when its value is finite, not negative and, but for the round-trip time, at most 1 |
| RttEstimator.EstimateExact | common/a_star/rtt.go:49-97 | in every interleaving the published metrics in closed form over the committed calls: one eighth of each sample and seven eighths of what came before, starting from the last seed where the estimate is zero |
| RttEstimator.UpdateReturns | common/a_star/rtt.go:45-66 | a call takes effect exactly when its value is finite and not negative |
| RttEstimator.EstimateIs | common/a_star/rtt.go:49-97 | smoothed time, seed and sample stay between 0 and the largest committed value, the coefficient is the smoothed time over 500 cut off at 1 and never at 0 |
| RttEstimator.SeededEstimateIs | common/a_star/rtt.go:49-97 | a seeded estimate never falls below the smallest committed value |
| MeshConfig.SpaceExactly | common/a_star/config.go:175 | white space is the 25 characters of the Unicode property White_Space |
| MeshConfig.TrimSpace | common/a_star/config.go:175 | what is between the leading and the trailing white space; empty exactly for a blank string |
| MeshConfig.ValidateRawConfig | common/a_star/config.go:174-219 | no error exactly for a valid configuration, and every error about something that is wrong |
| MeshConfig.Limits | common/a_star/config.go:189-215 | a profile's weights are valid exactly when each is finite and from 0 to 100 and they come to at least 10^-9 |
| ConfigManager.ActiveProfileDefined | common/a_star/config.go:77-143 | in every interleaving the active profile is defined in its own snapshot, with valid weights, and the profiles are those of the last configuration installed |
| ConfigManager.SnapshotIs | common/a_star/config.go:77-143 | in every interleaving the profiles are those of the last configuration installed, and the active one is that named by the last call that took effect |
| ConfigManager.SwitchReturns | common/a_star/config.go:83-100 | SwitchProfile succeeds exactly when the profile is defined at the one point, between its call and its return, at which it takes effect or is turned down |
| ConfigManager.CountersExact | common/a_star/config.go:129-172 | the counters are the first load and the numbers of committed increments, in 64 bits |
| Reloads.MoveKeeps | common/a_star/config.go:83-172 | every move of a switch or reload keeps the balance between what was loaded or failed, stored, counted and owed |
| Reloads.ReloadsConserved | common/a_star/config.go:102-172 | each counter plus the reloads not counted yet equals the configurations stored, the first included, or the reloads that found no loadable file; what is stored is what reloads have loaded, but for what is about to be stored |
| Reloads.QuietExact | common/a_star/config.go:102-172 | with no call under way both counters and the configurations stored are exactly what the calls made come to |
| Reloads.ReadersSafe | common/a_star/config.go:77-81 | whatever switches and reloads race each other, readers find the profiles of the last configuration stored and active, with valid weights, the one named last |

## Left out

Assumptions on the offload engine, as the program and its own tests arrange them:

- Buffers are distinct, there are at most `IdealBatchSize` of them in a batch, their capacities are at most 65535, and
  offsets are natural numbers where the code slices with them. `IdealBatchSize` is a parameter of the tables; the byte
  order of the host is the parameter `le`.
- `gsoSplit` and `gsoNoneChecksum` take `csumStart` and `csumOffset` on trust from the kernel: an IP header of at least 20
  bytes (40 for IPv6), offsets 16 for TCP and 6 for UDP, and a checksum field within the packet (`Gso.Trusted`).
- HandleVirtioRead: promises nothing of a segmented read that breaks this trust, which the code takes without an error.
- Output buffers of a read have room for a segment, lie apart from the input, and `sizes` is at least as long as they are
  many.

What the model does differently:

- One datatype `Item`, one `FlowKey` and one class `GroTable` serve both protocols; the code has a pair of each. Two
  tables are two objects.
- tcpGRO and udpGRO: the parsing before the table lookup is the function `Packet.Classify`, of which the methods get the
  result.
- An append within capacity is an extension with zeros and a copy over them; reallocation cannot happen within the
  capacity checks.
- NativeTun.Write: the file is not modelled: errors of single writes, `EBADFD` and the byte count. The frames are what the
  loop hands to it.
- HandleGro: when the offset is below 10 and the batch is empty, the accounting loops over empty tables are skipped.
- Cas: threads are modelled as interleaved steps over values, not as a class; addresses are never reused, which garbage
  collection guarantees while a thread still holds a snapshot.
- RttEstimator, Telemetry, MeshConfig: finite floats are reals, so IEEE rounding is not captured; NaN and the infinities
  are.
- ConfigManager: file reading, JSON decoding and the clock behind `LastReloadTime` are left out. Reloads start from an
  arbitrary parsed configuration or from none, on a manager whose first load has succeeded.

What the code does not promise and the proofs do not claim:

- TCP window, urgent pointer and reserved bits beside the data offset, IPv4 ID and IPv6 flow label of merged packets are
  those of the first one. "TCP flags" means byte 13 of the TCP header.
- A computed UDP checksum of 0 is not replaced by 0xffff as RFC 768 asks (`tun/offload_linux.go:969-970`).
- UDP order relative to packets of the flow that are not candidates is not claimed, nor that packets out of order are
  coalesced as far as possible: two groups of a flow never join.
- A weight of minus infinity is reported as negative, not as an invalid float (`common/a_star/config.go:202-207`); it is
  refused all the same.
- The first-sample rule of section 2 of RFC 6298 is not followed by the estimator.

Not modelled, because it is system calls, wrappers or has little to prove: device set-up, events and closing in `tun/`, the
Windows and Darwin devices, `tun/netstack`, `crypto/`, generated code, and the rest of `tun/tuntest` (`genICMPv4` complements
an already complemented sum).
