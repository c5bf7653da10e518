/** Concrete inputs on which the code falls short of what one might expect of it. */
module Counterexamples {
  import opened Bytes
  import opened ChecksumSpec
  import opened FastChecksum
  import opened Options
  import opened Packet
  import opened Gro
  import opened GroItem
  import opened GroInvariant
  import opened Gso
  import opened GsoSegments
  import opened RoundTrip
  import opened PshLoss
  import opened VirtioRead
  import opened Examples

  // ---- the simple checksum loop overflows ---------------------------------------------

  function Ones(n: nat): (b: seq<byte>)
    ensures |b| == 2 * n
  {
    if n == 0 then [] else [0xff, 0xff] + Ones(n - 1)
  }

  lemma {:induction false} OnesSum(n: nat)
    ensures WordSum(Ones(n)) == n * 0xffff
  {
    if n > 0 {
      OnesSum(n - 1);
      WordSumPair([0xff, 0xff]);
      WordSumConcat([0xff, 0xff], Ones(n - 1));
    }
  }

  /** 131076 bytes of all ones overflow the simple loop's 32-bit accumulator. */
  lemma SimpleLoopOverflows()
    ensures var buf := Ones(0x1_0002); OnesFold(0 + WordSum(buf)) != SimpleFold(0 + WordSum(buf))
  {
    hide Ones, WordSum;
    OnesSum(0x1_0002);
    SimpleAgrees(Ones(0x1_0002), 0);
  }

  // ---- IPv6 extension headers ---------------------------------------------------------

  const EXTENDED := VirtioNetHdr(NEEDS_CSUM, GSO_UDP_L4, 56, 4, 48, 6)

  /** An IPv6 packet with eight bytes of destination options (60) before its UDP header (17), and four of payload. */
  function Optioned(): (pkt: seq<byte>)
    ensures |pkt| == 60 && pkt[0] == 0x60
  {
    Zeros(60)[0 := 0x60][6 := 60][40 := PROTO_UDP]
  }

  lemma ExtendedRead(le: bool)
    ensures var read := Encode(le, EXTENDED) + Optioned();
            Readable(le, read) && PlanRead(le, read) == Split(Optioned(), EXTENDED, true)
  {
    hide Optioned, Encode, Decode;
    EncodeDecode(le, EXTENDED, Optioned());
    assert (Encode(le, EXTENDED) + Optioned())[VIRTIO_NET_HDR_LEN..] == Optioned();
    assert PlanSplit(EXTENDED, Optioned()) == Split(Optioned(), EXTENDED, true);
  }

  /** With an eight-byte extension header, the IPv6 payload length of the packet that a read delivers is wrong. */
  lemma Ipv6LengthWrong(le: bool)
    ensures var read := Encode(le, EXTENDED) + Optioned();
            && Readable(le, read) && PlanRead(le, read).Split? && PlanRead(le, read).isV6
            && |Packets(le, read)| == 1 && |Packets(le, read)[0]| >= 20
            && !LengthMatches(Packets(le, read)[0], true)
  {
    hide Optioned, Encode, Segment, LengthMatches, Trusted, PlanRead, Cleared, Ready;
    var read := Encode(le, EXTENDED) + Optioned();
    ExtendedRead(le);
    PlannedSplit(le, read);
    ClearedReady(Optioned(), EXTENDED, true);
    Ipv6LengthRight(SplitInput(PlanRead(le, read)), EXTENDED, true, 0);
    SegmentIs(SplitInput(PlanRead(le, read)), EXTENDED, true, 0);
  }

  // ---- a count one short --------------------------------------------------------------

  /** Read into one buffer, a packet of two segments fills it, and handleVirtioRead reports none filled. */
  lemma SplitMiscounts(le: bool, n: int, error: Option<ReadError>, v: seq<Buf>, before: seq<Buf>, sizes: seq<int>,
          sizesBefore: seq<int>, offset: nat)
    requires |before| == 1
    requires Trusted(le, TwoSegments(le))
        && Carried(PlanRead(le, TwoSegments(le)), n, error, v, before, sizes, sizesBefore, offset)
    ensures n == 0 && error == Some(TooManySegments)
    ensures Readable(le, TwoSegments(le)) && |Packets(le, TwoSegments(le))| == 2
    ensures |v| == 1 && HoldsPacket(v[0], before[0], offset, Packets(le, TwoSegments(le))[0])
  {
    hide Carried, TwoSegments, Packets, PlanRead, Trusted, HoldsPacket;
    TwoSegmentsRead(le);
    ReadDelivers(le, TwoSegments(le), n, error, v, before, sizes, sizesBefore, offset);
  }

  // ---- a prepend loses PSH ------------------------------------------------------------

  /** The first packet starts a flow; the second one belongs in front of it. */
  lemma PrependOf()
    ensures TcpPacketsCanCoalesce(Finished(0, FLAG_ACK), Early(), Late(), Finished(1, FLAG_ACK + FLAG_PSH)) == Prepend
  {
    hide Finished, SrcAddr, DstAddr, BE16, BE32, Key;
    Fields(0, FLAG_ACK);
    Fields(1, FLAG_ACK + FLAG_PSH);
  }

  lemma Merging(bufs: seq<Buf>)
    requires bufs == Pair().bufs
    ensures Fits(Late(), bufs, 10) && 10 + Late().HdrLen() <= |bufs[1].data|
    ensures CoalesceTcpPackets(Prepend, 1, Early(), Late(), bufs, 10)
         == Coalesced(Success, Grown(Late(), Early(), 0, true),
                      bufs[0 := Buf(bufs[1].data + Finished(1, FLAG_ACK + FLAG_PSH)[40..], 200)][1 := bufs[0]])
  {
    hide Finished, ChecksumValid, Padded;
    FinishedIs(0, FLAG_ACK);
    FinishedIs(1, FLAG_ACK + FLAG_PSH);
    Classes();
    assert bufs[0].data[10..] == Finished(1, FLAG_ACK + FLAG_PSH) && bufs[1].data[10..] == Finished(0, FLAG_ACK);
  }

  lemma FirstStep()
    ensures StepOk(Start(Pair()), 10, 0, Some(Late()))
    ensures GroStep(Start(Pair()), 10, 0, Some(Late())) == State(Pair().bufs, map[Key() := [Late()]], [0], [[0], [1]])
  {
    hide Finished, Key;
    var none: map<FlowKey, seq<Item>> := map[];
    assert none[Key() := [Late()]] == map[Key() := [Late()]];
    assert Singletons(0, 2) == [[0], [1]];
  }

  function JoinedBufs(): seq<Buf> {
    Pair().bufs[0 := Buf(Pair().bufs[1].data + Finished(1, FLAG_ACK + FLAG_PSH)[40..], 200)][1 := Pair().bufs[0]]
  }

  function MergedItem(): Item { TcpItem(Key(), 0, 0, 1, 1, 20, 20, true) }

  lemma SecondStep(s: State)
    requires s == State(Pair().bufs, map[Key() := [Late()]], [0], [[0], [1]])
    ensures StepOk(s, 10, 1, Some(Early())) && DropsPsh(s, 10, 1, Some(Early()))
    ensures GroStep(s, 10, 1, Some(Early())) == State(JoinedBufs(), map[Key() := [MergedItem()]], [0], [[1, 0], []])
  {
    hide Finished, Key, TcpPacketsCanCoalesce, CoalesceTcpPackets;
    Classes();
    PrependOf();
    Merging(s.bufs);
    assert s.bufs[1].data[10..] == Finished(0, FLAG_ACK) && s.bufs[0].data[10..] == Finished(1, FLAG_ACK + FLAG_PSH);
    assert s.flows[Key() := [MergedItem()]] == map[Key() := [MergedItem()]];
    assert [Late()][0 := MergedItem()] == [MergedItem()];
    assert s.parts[1] + s.parts[0] == [1, 0];
    assert MoveParts(s.parts, 1, Prepended(0)) == [[1, 0], []];
    assert Psh([Late()][0]);
  }

  lemma RunsTo()
    ensures PrependDropsPsh(Pair(), 1)
    ensures Good(Pair(), 2) && Run(Pair(), 2) == State(JoinedBufs(), map[Key() := [MergedItem()]], [0], [[1, 0], []])
  {
    hide Finished, Classify, Key, Inv, GroStep, Start, JoinedBufs, Pair, StepOk, DropsPsh;
    Classes();
    ClassOf(1, FLAG_ACK + FLAG_PSH, 0);
    ClassOf(0, FLAG_ACK, 1);
    PairOffset();
    FirstStep();
    SecondStep(GroStep(Start(Pair()), 10, 0, Some(Late())));
    assert Run(Pair(), 0) == Start(Pair());
    assert Run(Pair(), 1) == GroStep(Start(Pair()), 10, 0, Some(Late()));
  }

  lemma PairOffset()
    ensures Pair().offset == 10 && !Pair().canUdpGro
  {
  }

  /** The merged packet's header has lost the PSH that its last packet had, and that its item still claims. */
  lemma PrependLosesPsh()
    ensures Good(Pair(), 2)
    ensures var s := Run(Pair(), 2);
            && s.parts == [[1, 0], []] && s.flows == map[Key() := [MergedItem()]] && MergedItem().pshSet
            && |s.bufs| == 2 && |s.bufs[0].data| == 52 && s.bufs[0].data[10 + 33] == FLAG_ACK
    ensures Pkt(Pair(), 0)[33] == FLAG_ACK + FLAG_PSH
    ensures PrependDropsPsh(Pair(), 1)
  {
    hide Finished, Key, Run, Good, PrependDropsPsh;
    RunsTo();
    Classes();
    Fields(0, FLAG_ACK);
    Fields(1, FLAG_ACK + FLAG_PSH);
  }
}