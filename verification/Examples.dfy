/** Example packets, and batches that meet what the theorems ask for. */
module Examples {
  import opened Bytes
  import opened ChecksumSpec
  import opened Options
  import opened Packet
  import opened Gro
  import opened GroItem
  import opened Gso
  import opened GsoSegments
  import opened Accounting
  import opened RoundTrip
  import opened UdpOrder
  import opened InOrder
  import opened Rejoin
  import opened Batches
  import opened Decisions
  import opened EitherEnd
  import opened Frames
  import opened Reads
  import opened Wire

  // ---- a TCP stream of one-byte packets -----------------------------------------------

  /** The header bytes that are not zero. */
  function DraftByte(k: nat, seqNum: byte, flags: byte): byte {
    match k
    case 0 => 0x45
    case 3 => 41
    case 8 => 64
    case 9 => PROTO_TCP
    case 12 => 10
    case 15 => 1
    case 16 => 10
    case 19 => 2
    case 21 => 1
    case 23 => 2
    case 27 => seqNum
    case 31 => 9
    case 32 => 0x50
    case 33 => flags
    case 40 => seqNum
    case _ => 0
  }

  /** A TCP packet of one payload byte, the low byte of its sequence number, before its checksum. */
  function Draft(seqNum: byte, flags: byte): (b: seq<byte>)
    ensures |b| == 41 && forall k :: 0 <= k < 41 ==> b[k] == DraftByte(k, seqNum, flags)
  {
    seq(41, k requires 0 <= k < 41 => DraftByte(k, seqNum, flags))
  }

  function Finished(seqNum: byte, flags: byte): (b: seq<byte>)
    ensures |b| == 41
  {
    var d := Draft(seqNum, flags);
    PatchCsum(d, 20, 36, PROTO_TCP, SrcAddr(d, false), DstAddr(d, false))
  }

  lemma FinishedIs(seqNum: byte, flags: byte)
    ensures forall k :: 0 <= k < 41 && k != 36 && k != 37 ==> Finished(seqNum, flags)[k] == Draft(seqNum, flags)[k]
    ensures ChecksumValid(Finished(seqNum, flags), 20, PROTO_TCP, false)
  {
    hide WordSum, OnesFold;
    var d := Draft(seqNum, flags);
    var b := Finished(seqNum, flags);
    PatchedCsum(d, 20, 36, PROTO_TCP, SrcAddr(d, false), DstAddr(d, false));
    assert SrcAddr(b, false) == SrcAddr(d, false) && DstAddr(b, false) == DstAddr(d, false);
  }

  /** Two packets of one stream in one batch: the second byte, with PSH, arrives before the first. */
  function Pair(): Input {
    Input([Buf(Zeros(10) + Finished(1, FLAG_ACK + FLAG_PSH), 200), Buf(Zeros(10) + Finished(0, FLAG_ACK), 200)], 10,
        false)
  }

  function Key(): FlowKey {
    TcpKey(Padded([10, 0, 0, 1]), Padded([10, 0, 0, 2]), 1, 2, 9, false)
  }

  lemma Classes()
    ensures Good(Pair(), 2)
    ensures Pkt(Pair(), 0) == Finished(1, FLAG_ACK + FLAG_PSH) && Pkt(Pair(), 1) == Finished(0, FLAG_ACK)
  {
    hide Finished;
  }

  lemma Fields(seqNum: byte, flags: byte)
    ensures var b := Finished(seqNum, flags);
            && b[0] == 0x45 && b[1] == 0 && b[6] == 0 && b[7] == 0 && b[8] == 64 && b[9] == PROTO_TCP && b[32] == 0x50
               && b[33] == flags
            && SrcAddr(b, false) == [10, 0, 0, 1] && DstAddr(b, false) == [10, 0, 0, 2]
            && BE16(b, 2) == 41 && BE16(b, 20) == 1 && BE16(b, 22) == 2 && BE32(b, 28) == 9 && BE32(b, 24) == seqNum
  {
    hide Finished, Draft;
    FinishedIs(seqNum, flags);
    var b := Finished(seqNum, flags);
    assert b[12..16] == [b[12], b[13], b[14], b[15]] && b[16..20] == [b[16], b[17], b[18], b[19]];
  }

  lemma ClassOf(seqNum: byte, flags: byte, i: nat)
    requires i < 2 && (flags == FLAG_ACK || flags == FLAG_ACK + FLAG_PSH)
    ensures Classify(Finished(seqNum, flags), false, i)
         == Some(TcpItem(Key(), seqNum, i, 0, 1, 20, 20, flags == FLAG_ACK + FLAG_PSH))
  {
    hide Padded, Finished, SrcAddr, DstAddr, BE16, BE32;
    Fields(seqNum, flags);
  }

  // ---- a stream -----------------------------------------------------------------------

  /** The two packets of the pair, in order. */
  function Ordered(): Input {
    Input([Pair().bufs[1], Pair().bufs[0]], 10, false)
  }

  function Lead(): Item { TcpItem(Key(), 0, 0, 0, 1, 20, 20, false) }

  function Follow(): Item { TcpItem(Key(), 1, 1, 0, 1, 20, 20, true) }

  lemma OrderedIs()
    ensures Good(Ordered(), 2) && Ordered().bufs[0].cap == 200 && Ordered().offset == 10
    ensures Pkt(Ordered(), 0) == Finished(0, FLAG_ACK) && Pkt(Ordered(), 1) == Finished(1, FLAG_ACK + FLAG_PSH)
    ensures Desc(Ordered(), 0) == Some(Lead()) && Desc(Ordered(), 1) == Some(Follow())
  {
    hide Finished, Classify, Key;
    Classes();
    assert Pkt(Ordered(), 0) == Pkt(Pair(), 1) && Pkt(Ordered(), 1) == Pkt(Pair(), 0);
    ClassOf(0, FLAG_ACK, 0);
    ClassOf(1, FLAG_ACK + FLAG_PSH, 1);
  }

  lemma SameIp(seqNum: byte, flags: byte)
    ensures IpHeadersCanCoalesce(Finished(seqNum, flags), Finished(0, FLAG_ACK))
    ensures Finished(seqNum, flags)[40..40] == Finished(0, FLAG_ACK)[40..40]
    ensures ChecksumValid(Finished(seqNum, flags), 20, PROTO_TCP, Key().isV6) && Key().TcpKey? && !Key().isV6
  {
    hide Finished, ChecksumValid, Padded, SrcAddr, DstAddr, BE16, BE32;
    FinishedIs(seqNum, flags);
    Fields(seqNum, flags);
    Fields(0, FLAG_ACK);
  }

  lemma OrderedContinues()
    ensures Continues(Ordered(), Lead(), 0, 0, 0) && Continues(Ordered(), Lead(), 0, 1, 1)
  {
    hide Finished, Desc, Pkt, ChecksumValid, Key, Ordered, IpHeadersCanCoalesce, SeqAt;
    OrderedIs();
    SameIp(0, FLAG_ACK);
    SameIp(1, FLAG_ACK + FLAG_PSH);
    SeqStart(0, 1);
    SeqShift(1, 0, 0, 1);
    SeqStart(1, 1);
  }

  /** The pair that loses its PSH out of order is a stream in order. */
  lemma StreamExists()
    ensures Arrivals(Ordered(), Key(), 2) == [0, 1] && Stream(Ordered(), [0, 1], Lead())
  {
    hide Finished, Desc, Key, Good, Continues, Ordered;
    OrderedIs();
    OrderedContinues();
    BothArrive(Ordered(), Key());
  }

  // ---- the same stream backwards ------------------------------------------------------

  function Late(): Item { TcpItem(Key(), 1, 0, 0, 1, 20, 20, true) }

  function Early(): Item { TcpItem(Key(), 0, 1, 0, 1, 20, 20, false) }

  lemma PairIs()
    ensures Good(Pair(), 2) && |Pair().bufs| == 2 && Pair().bufs[0].cap == Pair().bufs[1].cap == 200
    ensures Pair().offset == 10
    ensures Pkt(Pair(), 0) == Finished(1, FLAG_ACK + FLAG_PSH) && Pkt(Pair(), 1) == Finished(0, FLAG_ACK)
    ensures Desc(Pair(), 0) == Some(Late()) && Desc(Pair(), 1) == Some(Early())
  {
    hide Finished, Classify, Key;
    Classes();
    ClassOf(1, FLAG_ACK + FLAG_PSH, 0);
    ClassOf(0, FLAG_ACK, 1);
  }

  lemma PairAlike(p: nat, q: nat)
    requires p < 2 && q < 2
    ensures Alike(Pair(), p, q) && RightSum(Pair(), p)
  {
    hide Finished, Desc, Pkt, ChecksumValid, Key, Pair, SrcAddr, DstAddr, BE16, BE32;
    PairIs();
    SameIp(0, FLAG_ACK);
    SameIp(1, FLAG_ACK + FLAG_PSH);
    Fields(0, FLAG_ACK);
    Fields(1, FLAG_ACK + FLAG_PSH);
    assert Pkt(Pair(), p)[40..40] == Pkt(Pair(), q)[40..40];
  }

  lemma PairPayload()
    ensures Joined(Pair(), 40, [1, 0]) == [0, 1]
  {
    hide Finished, Desc, Pkt, Key, Good, Pair;
    PairIs();
    FinishedIs(0, FLAG_ACK);
    FinishedIs(1, FLAG_ACK + FLAG_PSH);
    assert [1, 0][1..] == [0];
    assert Finished(0, FLAG_ACK)[40..] == [0] && Finished(1, FLAG_ACK + FLAG_PSH)[40..] == [1];
    assert Joined(Pair(), 40, [0]) == [1] + Joined(Pair(), 40, []);
  }

  lemma PairRoom()
    ensures RoomForAll(Pair(), [1, 0])
  {
    hide Finished, Desc, Pkt, Key, Good, Pair, Joined;
    PairIs();
    PairPayload();
  }

  lemma PairStream()
    ensures OneStream(Pair(), Key(), [1, 0])
  {
    hide Finished, Desc, Pkt, Good, Pair, Alike, RightSum, SeqAt;
    PairIs();
    PairAlike(0, 0);
    PairAlike(0, 1);
    PairAlike(1, 0);
    PairAlike(1, 1);
    SeqStart(0, 1);
    NextSeq(0, 1);
  }

  /** The second byte, with PSH, and then the first: a stream that arrives backwards. */
  lemma BackwardsExists()
    ensures OneStream(Pair(), Key(), [1, 0]) && RoomForAll(Pair(), [1, 0])
    ensures FromEnds(Arrivals(Pair(), Key(), |Pair().bufs|), [1, 0])
  {
    hide Finished, Desc, Pkt, Key, Good, Pair, OneStream, RoomForAll, FromEnds;
    PairIs();
    PairRoom();
    PairStream();
    BothArrive(Pair(), Key());
    Backwards([0, 1]);
    assert EitherEnd.Reversed([0, 1]) == [1, 0];
  }

  /**
   What handleGRO writes for that pair: one frame, whose first ten bytes say GSO for TCP over
   IPv4, 40 header bytes, segments of 1 byte, a checksum from 20 on at 16; then 42 bytes of packet.
   */
  lemma PairFrame(le: bool, after: seq<Buf>, toWrite: seq<nat>) returns (k: nat)
    requires Handled(le, Pair(), after, toWrite)
    ensures WrittenAs(le, Pair(), [1, 0], after, toWrite, k)
    ensures var frame := Frame(after[k].data, 10);
            && frame[..10] == (if le then [1, 1, 40, 0, 1, 0, 20, 0, 16, 0] else [1, 1, 0, 40, 0, 1, 0, 20, 0, 16])
            && |frame| == 52 && frame[10] == 0x45 && frame[12] == 0 && frame[13] == 42 && frame[43] == FLAG_ACK
            && frame[50..] == [0, 1]
  {
    hide *;
    BackwardsExists();
    PairIs();
    k := EndsWritten(le, Pair(), Key(), [1, 0], after, toWrite);
    WrittenIs(le, Pair(), [1, 0], after, toWrite, k);
    PairShows(le, Frame(after[k].data, Pair().offset));
  }

  lemma WrittenIs(le: bool, inp: Input, ps: seq<nat>, after: seq<Buf>, toWrite: seq<nat>, k: nat)
    requires WrittenAs(le, inp, ps, after, toWrite, k)
    ensures k < |after| && VIRTIO_NET_HDR_LEN <= inp.offset <= |after[k].data|
    ensures |ps| > 1 ==> FrameShows(le, inp, ps, Frame(after[k].data, inp.offset))
  {
    hide FrameShows;
  }

  lemma PairShows(le: bool, frame: seq<byte>)
    requires FrameShows(le, Pair(), [1, 0], frame)
    ensures |frame| == 52 && frame[50..] == [0, 1] && frame[10] == 0x45 && frame[12] == 0 && frame[13] == 42
    ensures frame[43] == FLAG_ACK
    ensures frame[..10] == if le then [1, 1, 40, 0, 1, 0, 20, 0, 16, 0] else [1, 1, 0, 40, 0, 1, 0, 20, 0, 16]
  {
    hide Finished, Pkt, Pair, Desc, OnesFold, SrcAddr, DstAddr, WordSum, Joined;
    PairIs();
    PairPayload();
    Fields(0, FLAG_ACK);
  }

  // ---- a large packet -----------------------------------------------------------------

  const SPLIT_UDP := VirtioNetHdr(NEEDS_CSUM, GSO_UDP_L4, 28, 1, 20, 6)

  /** An IPv4 UDP packet with two bytes of payload. */
  function TwoBytes(): (pkt: seq<byte>)
    ensures |pkt| == 30 && pkt[0] == 0x45 && pkt[9] == PROTO_UDP && pkt[6] == 0 && pkt[7] == 0
  {
    Zeros(30)[0 := 0x45][9 := PROTO_UDP][28 := 7][29 := 9]
  }

  /** A read of that packet, to be split into segments of one byte. */
  function TwoSegments(le: bool): seq<byte> {
    Encode(le, SPLIT_UDP) + TwoBytes()
  }

  lemma TwoSegmentsRead(le: bool)
    ensures Readable(le, TwoSegments(le)) && PlanRead(le, TwoSegments(le)) == Split(TwoBytes(), SPLIT_UDP, false)
    ensures |Packets(le, TwoSegments(le))| == 2
  {
    hide TwoBytes, Encode, Decode, Segment, Cleared;
    EncodeDecode(le, SPLIT_UDP, TwoBytes());
    assert TwoSegments(le)[VIRTIO_NET_HDR_LEN..] == TwoBytes();
    assert PlanSplit(SPLIT_UDP, TwoBytes()) == Split(TwoBytes(), SPLIT_UDP, false);
  }

  /** The bytes of that read's virtio header, and what it is split into. */
  lemma TwoSegmentsBytes(le: bool)
    ensures TwoSegments(le)[..10] == if le then [1, 5, 28, 0, 1, 0, 20, 0, 6, 0] else [1, 5, 0, 28, 0, 1, 0, 20, 0, 6]
    ensures Readable(le, TwoSegments(le))
    ensures var packets := Packets(le, TwoSegments(le));
            && |packets| == 2 && |packets[0]| == 29 && |packets[1]| == 29 && packets[0][28] == 7 && packets[1][28] == 9
  {
    hide Packets, Trusted, PlanRead, TwoBytes, TwoSegments, Encode, Payloads;
    TwoSegmentsRead(le);
    TwoSegmentsHeader(le);
    SplitRead(le, TwoSegments(le));
    var packets := Packets(le, TwoSegments(le));
    TwoPayload(le);
    assert TwoSegments(le)[10 + PayloadAt(le, TwoSegments(le))..] == [7, 9];
    PayloadsOfTwo(packets, 28);
    assert (packets[0][28..] + packets[1][28..])[0] == 7 && (packets[0][28..] + packets[1][28..])[1] == 9;
  }

  lemma TwoSegmentsHeader(le: bool)
    ensures TwoSegments(le)[..10] == if le then [1, 5, 28, 0, 1, 0, 20, 0, 6, 0] else [1, 5, 0, 28, 0, 1, 0, 20, 0, 6]
    ensures |TwoSegments(le)| == 40 && TwoSegments(le)[1] == 5
    ensures PayloadAt(le, TwoSegments(le)) == 28 && Host(le, TwoSegments(le), 4) == 1
  {
    hide TwoBytes;
  }

  lemma TwoPayload(le: bool)
    ensures |TwoSegments(le)| == 40 && TwoSegments(le)[38..] == [7, 9]
  {
    assert TwoSegments(le)[38..] == TwoBytes()[28..];
  }

  lemma PayloadsOfTwo(packets: seq<seq<byte>>, hl: nat)
    requires |packets| == 2 && hl <= |packets[0]| && hl <= |packets[1]|
    ensures Payloads(packets, hl) == packets[0][hl..] + packets[1][hl..]
  {
    var one := packets[..1];
    assert Payloads(one, hl) == Payloads(one[..0], hl) + packets[0][hl..];
    assert one[..0] == [];
  }

  /** The two segments of that read, in buffers of their own. */
  function Handed(le: bool): Input
    requires Readable(le, TwoSegments(le)) && |Packets(le, TwoSegments(le))| == 2
  {
    var packets := Packets(le, TwoSegments(le));
    Input([Buf(Zeros(10) + packets[0], 200), Buf(Zeros(10) + packets[1], 200)], 10, true)
  }

  /** A read and a batch that meet what Rejoin.ReadRejoins asks for. */
  lemma RejoinExists(le: bool)
    ensures Readable(le, TwoSegments(le)) && |Packets(le, TwoSegments(le))| == 2
    ensures var p := PlanRead(le, TwoSegments(le));
            p.Split? && HandsBack(le, TwoSegments(le), Handed(le), [0, 1]) && GroTakes(p.input, p.hdr, p.isV6, true)
  {
    hide TwoBytes, TwoSegments, Packets, PlanRead, Trusted, WholeFlow;
    TwoSegmentsRead(le);
    HandedFlow(le);
    SegmentLengths(le);
    assert Handed(le).bufs[0].data[10..] == Packets(le, TwoSegments(le))[0];
    assert Handed(le).bufs[1].data[10..] == Packets(le, TwoSegments(le))[1];
  }

  /** GRO takes up the segments of that packet. */
  lemma TwoTaken()
    ensures GroTakes(TwoBytes(), SPLIT_UDP, false, true) && |TwoBytes()| > 28
  {
    hide TwoBytes;
  }

  lemma HandedDesc(le: bool, k: nat)
    requires Readable(le, TwoSegments(le)) && |Packets(le, TwoSegments(le))| == 2 && k < 2
    requires PlanRead(le, TwoSegments(le)) == Split(TwoBytes(), SPLIT_UDP, false)
    ensures var d := Desc(Handed(le), k);
            && d.Some? && SplitInput(PlanRead(le, TwoSegments(le))) != []
            && d.value.key == NewUdpFlowKey(SplitInput(PlanRead(le, TwoSegments(le))), false, 20)
  {
    hide TwoBytes, TwoSegments, Trusted, PlanRead, Cleared, Segment, Classify, Rejoinable, Sound, GroTakes, Ready,
        NewUdpFlowKey;
    var p, cleared := ReadSound(le, TwoSegments(le));
    TwoTaken();
    TakesPayload(p.input, p.hdr, p.isV6, true);
    SameRejoinable(p.input, cleared, p.hdr, p.isV6, true);
    SegmentClassified(cleared, p.hdr, p.isV6, true, k, k);
    HandedPkt(le, k);
  }

  lemma HandedPkt(le: bool, k: nat)
    requires Readable(le, TwoSegments(le)) && |Packets(le, TwoSegments(le))| == 2 && k < 2
    ensures Pkt(Handed(le), k) == Packets(le, TwoSegments(le))[k]
  {
    hide Packets, PlanRead, Trusted, TwoSegments;
    assert Handed(le).bufs[k].data[10..] == Packets(le, TwoSegments(le))[k];
  }

  /** Both segments are of one flow. */
  lemma HandedFlow(le: bool)
    requires Readable(le, TwoSegments(le)) && |Packets(le, TwoSegments(le))| == 2
    requires PlanRead(le, TwoSegments(le)) == Split(TwoBytes(), SPLIT_UDP, false)
    ensures WholeFlow(Handed(le), [0, 1])
  {
    hide TwoBytes, TwoSegments, Trusted, PlanRead, Packets, Desc, SplitInput, NewUdpFlowKey;
    HandedDesc(le, 0);
    HandedDesc(le, 1);
    BothArrive(Handed(le), Desc(Handed(le), 0).value.key);
  }

  lemma BothArrive(inp: Input, key: FlowKey)
    requires forall k: nat :: k < 2 ==> Desc(inp, k).Some? && Desc(inp, k).value.key == key
    ensures Arrivals(inp, key, 2) == [0, 1]
  {
    hide Desc;
    assert Arrivals(inp, key, 0) == [];
    assert Arrivals(inp, key, 1) == [0];
  }

  lemma SegmentLengths(le: bool)
    requires Readable(le, TwoSegments(le)) && |Packets(le, TwoSegments(le))| == 2
    requires PlanRead(le, TwoSegments(le)) == Split(TwoBytes(), SPLIT_UDP, false)
    ensures forall k :: 0 <= k < 2 ==> 28 < |Packets(le, TwoSegments(le))[k]| <= 30
  {
    hide TwoBytes, TwoSegments, Trusted, PlanRead, Cleared, Segment, IpFields, TransportFields, ChecksumValid, Ready;
    var p := PlanRead(le, TwoSegments(le));
    PlannedSplit(le, TwoSegments(le));
    ClearedReady(p.input, p.hdr, p.isV6);
    SegmentIs(SplitInput(p), p.hdr, p.isV6, 0);
    SegmentIs(SplitInput(p), p.hdr, p.isV6, 1);
  }
}
