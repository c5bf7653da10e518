/**
 What GRO achieves in the best case: when the packets of one TCP or UDP flow are an in-order
 stream, they end up in a single buffer, however many they are and whatever lies between them.
 */
module InOrder {
  import opened Arithmetic
  import opened Bytes
  import opened Options
  import opened Packet
  import opened Gro
  import opened GroItem
  import opened GroInvariant
  import opened UdpOrder

  /** Packet p comes j places after packet q, which first describes: same flow and options, in sequence, valid. */
  ghost predicate Continues(inp: Input, first: Item, q: nat, j: nat, p: nat) {
    && Desc(inp, p).Some?
    && var d := Desc(inp, p).value;
       && d.TcpItem? == first.TcpItem? && d.key == first.key && d.iphLen == first.iphLen && Shaped(d)
       && d.HdrLen() == first.HdrLen() <= |Pkt(inp, p)| && first.HdrLen() <= |Pkt(inp, q)|
       && (d.TcpItem? ==>
             && d.tcphLen == first.tcphLen
             && Pkt(inp, p)[d.iphLen + 20..d.HdrLen()] == Pkt(inp, q)[d.iphLen + 20..d.HdrLen()]
             && d.sentSeq == SeqAt(first.sentSeq, j, first.gsoSize))
       && IpHeadersCanCoalesce(Pkt(inp, p), Pkt(inp, q))
       && d.gsoSize <= first.gsoSize
       && ChecksumValid(Pkt(inp, p), d.iphLen, d.Proto(), d.key.isV6)
  }

  /** Packet p has a whole segment, and no PSH. */
  ghost predicate Inner(inp: Input, first: Item, p: nat) {
    Desc(inp, p).Some? && Desc(inp, p).value.gsoSize == first.gsoSize && !Psh(Desc(inp, p).value)
  }

  /** The packets ps are one stream, for which the buffer of the first one has room. */
  ghost predicate Stream(inp: Input, ps: seq<nat>, first: Item) {
    && ps != [] && ps[0] < |inp.bufs| && Desc(inp, ps[0]) == Some(first)
    && (forall j :: 0 <= j < |ps| ==> Continues(inp, first, ps[0], j, ps[j]))
    && (forall j :: 0 <= j < |ps| - 1 ==> Inner(inp, first, ps[j]))
    && 2 * inp.offset + first.HdrLen() + Times(|ps| - 1, first.gsoSize) + PayloadLen(inp, first, ps[|ps| - 1])
       <= inp.bufs[ps[0]].cap
  }

  /** The item that first becomes when n packets are merged, the last one with or without PSH. */
  function Joint(first: Item, n: nat, psh: bool): (item: Item)
    requires n >= 1
    ensures item.key == first.key && item.bufsIndex == first.bufsIndex && item.TcpItem? == first.TcpItem?
    ensures item.iphLen == first.iphLen && item.gsoSize == first.gsoSize && item.HdrLen() == first.HdrLen()
    ensures item.numMerged == U16(n - 1) && Psh(item) == (first.TcpItem? && psh)
    ensures item.TcpItem? ==> item.sentSeq == first.sentSeq && item.tcphLen == first.tcphLen
    ensures item.UdpItem? ==> item.cSumKnownInvalid == first.cSumKnownInvalid
  {
    match first
    case TcpItem(key, sentSeq, bufsIndex, _, gsoSize, iphLen, tcphLen, _) =>
      TcpItem(key, sentSeq, bufsIndex, U16(n - 1), gsoSize, iphLen, tcphLen, psh)
    case UdpItem(key, bufsIndex, _, gsoSize, iphLen, cSumKnownInvalid) =>
      UdpItem(key, bufsIndex, U16(n - 1), gsoSize, iphLen, cSumKnownInvalid)
  }

  /** The flow of the packets ps is one item, in the buffer of the first one, that holds them all. */
  ghost predicate AllMerged(inp: Input, ps: seq<nat>, first: Item, s: State) {
    && ps != [] && Desc(inp, ps[|ps| - 1]).Some?
    && first.key in s.flows && s.flows[first.key] == [Joint(first, |ps|, Psh(Desc(inp, ps[|ps| - 1]).value))]
    && ps[0] < |s.parts| && s.parts[ps[0]] == ps
    && ps[0] < |s.bufs| && ps[0] < |inp.bufs| && s.bufs[ps[0]].cap == inp.bufs[ps[0]].cap
  }

  // ---- what a stream says of its packets ----------------------------------------------

  lemma StreamIs(inp: Input, ps: seq<nat>, first: Item, j: nat)
    requires Stream(inp, ps, first) && j < |ps|
    ensures ps[0] < |inp.bufs| && Desc(inp, ps[0]) == Some(first)
    ensures Continues(inp, first, ps[0], j, ps[j]) && (j < |ps| - 1 ==> Inner(inp, first, ps[j]))
  {
    hide Continues, Inner, Desc, Times;
  }

  lemma InStream(inp: Input, first: Item, q: nat, j: nat, p: nat)
    requires Continues(inp, first, q, j, p) && p < TWO16
    ensures Desc(inp, p).Some? && Desc(inp, p).value.key == first.key && PayloadLen(inp, first, p) >= 0
    ensures Inner(inp, first, p) ==> !Psh(Desc(inp, p).value) && PayloadLen(inp, first, p) == first.gsoSize
  {
    hide Classify, ChecksumValid, IpHeadersCanCoalesce;
    Classified(Pkt(inp, p), inp.canUdpGro, p);
  }

  lemma First(inp: Input, first: Item, q: nat)
    requires Desc(inp, q) == Some(first) && q < TWO16
    ensures first.bufsIndex == q && first.numMerged == 0 && (first.UdpItem? ==> !first.cSumKnownInvalid)
  {
    hide Classify;
    Classified(Pkt(inp, q), inp.canUdpGro, q);
  }

  lemma Small(inp: Input, n: nat)
    requires Good(inp, n)
    ensures n <= |inp.bufs| <= TWO16
  {
  }

  /** The packets so far are whole, and packet p comes next. */
  lemma StreamFacts(inp: Input, ps: seq<nat>, p: nat, first: Item)
    requires Stream(inp, ps + [p], first) && ps != [] && Good(inp, p + 1)
    ensures first.bufsIndex == ps[0] && first.numMerged == 0 && (first.UdpItem? ==> !first.cSumKnownInvalid)
    ensures Continues(inp, first, ps[0], |ps|, p) && Continues(inp, first, ps[0], 0, ps[0])
    ensures ps[0] < |inp.bufs| && Desc(inp, ps[0]) == Some(first)
    ensures Desc(inp, ps[|ps| - 1]).Some? && !Psh(Desc(inp, ps[|ps| - 1]).value)
    ensures PayloadLen(inp, first, ps[|ps| - 1]) == first.gsoSize
  {
    hide *;
    var all, last := ps + [p], ps[|ps| - 1];
    assert all[0] == ps[0] && all[|ps| - 1] == last && all[|ps|] == p;
    Small(inp, p + 1);
    StreamIs(inp, all, first, 0);
    StreamIs(inp, all, first, |ps| - 1);
    StreamIs(inp, all, first, |ps|);
    ContinuesIs(inp, first, ps[0], |ps| - 1, last);
    Described(inp, last);
    InStream(inp, first, ps[0], |ps| - 1, last);
    First(inp, first, ps[0]);
  }

  lemma ContinuesIs(inp: Input, first: Item, q: nat, j: nat, p: nat)
    requires Continues(inp, first, q, j, p)
    ensures Desc(inp, p).Some? && Desc(inp, p).value.key == first.key
  {
    hide Desc, ChecksumValid, IpHeadersCanCoalesce;
  }

  /** A stream without its last packet is one. */
  lemma Shorter(inp: Input, ps: seq<nat>, p: nat, first: Item)
    requires Stream(inp, ps + [p], first) && ps != [] && Good(inp, p + 1)
    ensures Stream(inp, ps, first)
  {
    hide Desc, Continues, Inner, Times, Pkt, Good;
    var all := ps + [p];
    StreamFacts(inp, ps, p, first);
    ContinuesNonneg(inp, first, ps[0], |ps|, p);
    TimesNext(|ps| - 1, first.gsoSize);
    assert all[0] == ps[0] && all[|all| - 1] == p;
    forall j | 0 <= j < |ps|
      ensures Continues(inp, first, ps[0], j, ps[j])
      ensures j < |ps| - 1 ==> Inner(inp, first, ps[j])
    {
      assert all[j] == ps[j];
    }
  }

  lemma ContinuesNonneg(inp: Input, first: Item, q: nat, j: nat, p: nat)
    requires Continues(inp, first, q, j, p)
    ensures PayloadLen(inp, first, p) >= 0
  {
    hide Desc, ChecksumValid, IpHeadersCanCoalesce, Pkt;
  }

  // ---- one more packet ----------------------------------------------------------------

  lemma MergedFacts(inp: Input, ps: seq<nat>, first: Item, s: State)
    requires AllMerged(inp, ps, first, s) && Desc(inp, ps[|ps| - 1]).Some? && !Psh(Desc(inp, ps[|ps| - 1]).value)
    ensures first.key in s.flows && s.flows[first.key] == [Joint(first, |ps|, false)]
    ensures ps[0] < |s.parts| && ps[0] < |s.bufs| && s.parts[ps[0]] == ps
    ensures ps[0] < |inp.bufs| && s.bufs[ps[0]].cap == inp.bufs[ps[0]].cap
  {
    hide Desc;
  }

  lemma SameSize(inp: Input, first: Item, item: Item, p: nat)
    requires item.HdrLen() == first.HdrLen()
    ensures PayloadLen(inp, item, p) == PayloadLen(inp, first, p)
  {
    hide Pkt;
  }

  /** The item that holds the stream so far: as many packets as there were, all of them whole. */
  lemma SoFar(inp: Input, ps: seq<nat>, p: nat, first: Item, s: State)
    requires Stream(inp, ps + [p], first) && Inv(inp, s, p) && Good(inp, p + 1) && ps != []
        && AllMerged(inp, ps, first, s)
    ensures var item, q := Joint(first, |ps|, false), ps[0];
            && first.key in s.flows && s.flows[first.key] == [item]
            && item.bufsIndex == q < p && item.numMerged as int == |ps| - 1 < 0xffff
            && q < |s.bufs| && |s.bufs[q].data| <= 0xffff && Fits(item, s.bufs, inp.offset) && Shaped(item)
            && Holds(inp, item, ps, s.bufs[q].data)
            && |s.bufs[q].data| == inp.offset + first.HdrLen() + Times(|ps|, first.gsoSize)
  {
    hide *;
    StreamFacts(inp, ps, p, first);
    MergedFacts(inp, ps, first, s);
    InvSizes(inp, s, p);
    Small(inp, p + 1);
    Sooner(inp, p);
    FlowItem(inp, s, p, first.key, 0);
    var item, q := s.flows[first.key][0], ps[0];
    HoldsParts(inp, item, ps, s.bufs[q].data);
    PayloadsCount(inp, item, ps, s.bufs[q].data);
    TimesNext(|ps| - 1, first.gsoSize);
    SameSize(inp, first, item, ps[|ps| - 1]);
  }

  /** What the comparison finds of the next packet of the stream. */
  lemma Aligns(inp: Input, ps: seq<nat>, p: nat, first: Item, item: Item, data: seq<byte>)
    requires ps != [] && Good(inp, p + 1) && Continues(inp, first, ps[0], |ps|, p) && inp.offset <= |data|
    requires |ps| <= 0xffff && item == Joint(first, |ps|, false) && item.numMerged as int == |ps| - 1 && Shaped(item)
    requires Holds(inp, item, ps, data)
    requires |data| == inp.offset + first.HdrLen() + Times(|ps|, first.gsoSize) <= 0xffff
    ensures var target, pkt := data[inp.offset..], Pkt(inp, p);
            && item.HdrLen() <= |target|
            && IpHeadersCanCoalesce(pkt, target)
            && (|target| - item.HdrLen()) % item.gsoSize == 0
            && (item.TcpItem? ==>
                  && pkt[item.iphLen + 20..item.HdrLen()] == target[item.iphLen + 20..item.HdrLen()]
                  && U32(item.sentSeq + LhsLen(item)) == SeqAt(first.sentSeq, |ps|, first.gsoSize))
  {
    hide Classify, Good, ChecksumValid, Times, Holds, LhsLen, SeqAt, Multiple, Joined, Head, U32, IpHeadersCanCoalesce;
    Sooner(inp, p);
    MergedPacket(inp, item, ps, data);
    SameHeaders(Pkt(inp, p), Pkt(inp, ps[0]), data[inp.offset..], first.iphLen, first.HdrLen());
    TimesIs(|ps|, first.gsoSize);
    TimesNext(|ps|, first.gsoSize);
    MultipleIs(|data[inp.offset..]| - item.HdrLen(), item.gsoSize);
    LhsLenExact(item, Times(|ps|, first.gsoSize));
    if item.TcpItem? {
      AppendedSeq(item);
    }
  }

  /** With room and valid checksums, a UDP packet that aligns is merged. */
  lemma UdpMerges(bufs: seq<Buf>, offset: nat, i: nat, neu: Item, item: Item)
    requires neu.UdpItem? && item.UdpItem? && !item.cSumKnownInvalid && ScanOk(bufs, offset, i, neu, [item])
    requires Fits(item, bufs, offset) && Describes(neu, bufs[i].data[offset..])
    requires var pkt, target := bufs[i].data[offset..], bufs[item.bufsIndex].data[offset..];
             && item.HdrLen() <= |pkt| && item.HdrLen() <= |target| && neu.HdrLen() == item.HdrLen()
             && IpHeadersCanCoalesce(pkt, target) && (|target| - item.HdrLen()) % item.gsoSize == 0
                && neu.gsoSize <= item.gsoSize
             && 2 * offset + |target| + |pkt| - item.HdrLen() <= bufs[item.bufsIndex].cap
             && (item.numMerged == 0 ==> ChecksumValid(target, item.iphLen, PROTO_UDP, item.key.isV6))
             && ChecksumValid(pkt, item.iphLen, PROTO_UDP, item.key.isV6)
    ensures var scan := UdpScan(bufs, offset, i, neu, [item]);
            && scan.verdict == Appended(item.bufsIndex)
            && scan.items == [UdpItem(item.key, item.bufsIndex, U16(item.numMerged + 1), item.gsoSize, item.iphLen,
                 false)]
            && scan.bufs[item.bufsIndex].cap == bufs[item.bufsIndex].cap
  {
    hide IpHeadersCanCoalesce, ChecksumValid;
    assert [item][0] == item;
  }

  /** With room and valid checksums, a TCP packet that aligns is appended. */
  lemma TcpMerges(bufs: seq<Buf>, offset: nat, i: nat, neu: Item, item: Item)
    requires neu.TcpItem? && item.TcpItem? && !item.pshSet && ScanOk(bufs, offset, i, neu, [item])
    requires Fits(item, bufs, offset) && Describes(neu, bufs[i].data[offset..])
    requires var pkt, target := bufs[i].data[offset..], bufs[item.bufsIndex].data[offset..];
             && item.HdrLen() <= |pkt| && item.HdrLen() <= |target| && neu.tcphLen == item.tcphLen
                && neu.iphLen == item.iphLen
             && pkt[item.iphLen + 20..item.HdrLen()] == target[item.iphLen + 20..item.HdrLen()]
             && neu.sentSeq == U32(item.sentSeq + LhsLen(item))
             && IpHeadersCanCoalesce(pkt, target) && (|target| - item.HdrLen()) % item.gsoSize == 0
                && neu.gsoSize <= item.gsoSize
             && 2 * offset + |target| + |pkt| - item.HdrLen() <= bufs[item.bufsIndex].cap
             && (item.numMerged == 0 ==> ChecksumValid(target, item.iphLen, PROTO_TCP, item.key.isV6))
             && ChecksumValid(pkt, item.iphLen, PROTO_TCP, item.key.isV6)
    ensures var scan := TcpScan(bufs, offset, i, neu, [item], 1);
            && scan.verdict == Appended(item.bufsIndex)
            && scan.items == [item.(numMerged := U16(item.numMerged + 1), pshSet := neu.pshSet)]
            && scan.bufs[item.bufsIndex].cap == bufs[item.bufsIndex].cap
  {
    hide IpHeadersCanCoalesce, ChecksumValid, LhsLen, U32;
    assert [item][0] == item;
  }

  /** What the packet that continues the stream brings along. */
  lemma NextPacket(inp: Input, ps: seq<nat>, p: nat, first: Item, s: State)
    requires Stream(inp, ps + [p], first) && Inv(inp, s, p) && Good(inp, p + 1) && ps != []
        && AllMerged(inp, ps, first, s)
    ensures Desc(inp, p).Some? && p < |s.bufs| && inp.offset <= |s.bufs[p].data| && ps[0] < |s.bufs|
        && s.bufs[p].data[inp.offset..] == Pkt(inp, p)
    ensures first.key in s.flows && s.flows[first.key] == [Joint(first, |ps|, false)]
    ensures var neu := Desc(inp, p).value;
            && neu.key == first.key && |Pkt(inp, p)| == first.HdrLen() + neu.gsoSize
            && ScanOk(s.bufs, inp.offset, p, neu, s.flows[first.key])
            && 2 * inp.offset + first.HdrLen() + Times(|ps|, first.gsoSize) + neu.gsoSize <= s.bufs[ps[0]].cap
  {
    hide *;
    StreamFacts(inp, ps, p, first);
    MergedFacts(inp, ps, first, s);
    ContinuesIs(inp, first, ps[0], |ps|, p);
    StepReady(inp, s, p);
    StepOkIs(s, inp.offset, p, Desc(inp, p).value);
    DescribedSize(inp, first, ps[0], |ps|, p);
    StreamRoom(inp, ps, p, first);
  }

  lemma StepOkIs(s: State, offset: nat, i: nat, neu: Item)
    requires StepOk(s, offset, i, Some(neu))
    ensures i < |s.bufs| && offset <= |s.bufs[i].data|
    ensures neu.key in s.flows ==> ScanOk(s.bufs, offset, i, neu, s.flows[neu.key])
  {
    hide ScanOk;
  }

  lemma DescribedSize(inp: Input, first: Item, q: nat, j: nat, p: nat)
    requires Continues(inp, first, q, j, p) && Desc(inp, p).Some? && Describes(Desc(inp, p).value, Pkt(inp, p))
    ensures |Pkt(inp, p)| == first.HdrLen() + Desc(inp, p).value.gsoSize
  {
    hide Desc, Pkt, ChecksumValid, IpHeadersCanCoalesce;
  }

  lemma StreamRoom(inp: Input, ps: seq<nat>, p: nat, first: Item)
    requires Stream(inp, ps + [p], first) && ps != []
    ensures ps[0] < |inp.bufs|
    ensures 2 * inp.offset + Times(|ps|, first.gsoSize) + |Pkt(inp, p)| <= inp.bufs[ps[0]].cap
  {
    hide Desc, Continues, Inner, Times, Pkt;
    assert (ps + [p])[0] == ps[0] && (ps + [p])[|ps|] == p;
  }

  /** The stream's own packet when nothing has been merged yet is valid. */
  lemma AloneValid(inp: Input, ps: seq<nat>, first: Item, data: seq<byte>)
    requires ps != [] && Good(inp, 0) && Shaped(first) && inp.offset <= |data|
    requires Continues(inp, first, ps[0], 0, ps[0])
    requires Holds(inp, Joint(first, |ps|, false), ps, data) && first.HdrLen() <= |data[inp.offset..]|
    ensures |ps| == 1 ==> ChecksumValid(data[inp.offset..], first.iphLen, first.Proto(), first.key.isV6)
  {
    hide Classify, ChecksumValid, IpHeadersCanCoalesce, Good, Holds;
    if |ps| == 1 {
      assert ps == [ps[0]];
      Unmerged(inp, Joint(first, 1, false), ps[0], data);
    }
  }

  /** The scan appends the packet to the item of the stream. */
  lemma OneMoreScan(inp: Input, ps: seq<nat>, p: nat, first: Item, s: State)
    requires Stream(inp, ps + [p], first) && Inv(inp, s, p) && Good(inp, p + 1) && ps != []
        && AllMerged(inp, ps, first, s)
    requires StepOk(s, inp.offset, p, Desc(inp, p))
    ensures Desc(inp, p).Some? && ps[0] < |s.bufs|
    ensures var neu := Desc(inp, p).value;
            var scan := FlowScan(s.bufs, inp.offset, p, neu, s.flows);
            && scan.verdict == Appended(ps[0]) && scan.items == [Joint(first, |ps| + 1, Psh(neu))]
            && |scan.bufs| == |s.bufs| && scan.bufs[ps[0]].cap == s.bufs[ps[0]].cap
  {
    hide Classify, Good, ChecksumValid, Times, Holds, Inv, Desc, IpHeadersCanCoalesce, TcpScan, UdpScan, ScanOk, LhsLen,
      SeqAt, U32, Pkt, Stream, AllMerged, StepOk;
    StreamFacts(inp, ps, p, first);
    Sooner(inp, p);
    NextPacket(inp, ps, p, first, s);
    SoFar(inp, ps, p, first, s);
    var item, neu, q := Joint(first, |ps|, false), Desc(inp, p).value, ps[0];
    Aligns(inp, ps, p, first, item, s.bufs[q].data);
    AloneValid(inp, ps, first, s.bufs[q].data);
    if neu.TcpItem? {
      TcpMerges(s.bufs, inp.offset, p, neu, item);
    } else {
      UdpMerges(s.bufs, inp.offset, p, neu, item);
    }
  }

  /** One more packet of the stream joins the others. */
  lemma OneMoreMerged(inp: Input, ps: seq<nat>, p: nat, first: Item, s: State)
    requires Stream(inp, ps + [p], first) && Inv(inp, s, p) && Good(inp, p + 1) && ps != []
        && AllMerged(inp, ps, first, s)
    requires StepOk(s, inp.offset, p, Desc(inp, p))
    ensures AllMerged(inp, ps + [p], first, GroStep(s, inp.offset, p, Desc(inp, p)))
  {
    hide *;
    OneMoreScan(inp, ps, p, first, s);
    NextPacket(inp, ps, p, first, s);
    SoFar(inp, ps, p, first, s);
    StepReady(inp, s, p);
    var neu := Desc(inp, p).value;
    StepSettles(s, inp.offset, p, neu);
    SettledMerge(inp, ps, p, first, s, neu, FlowScan(s.bufs, inp.offset, p, neu, s.flows));
  }

  lemma StepSettles(s: State, offset: nat, i: nat, neu: Item)
    requires StepOk(s, offset, i, Some(neu))
    ensures SameShape(s.bufs, FlowScan(s.bufs, offset, i, neu, s.flows))
    ensures i < |s.bufs| == |s.parts| && VIRTIO_NET_HDR_LEN <= offset <= |s.bufs[i].data|
    ensures GroStep(s, offset, i, Some(neu)) == Settle(s, offset, i, neu.key, FlowScan(s.bufs, offset, i, neu, s.flows))
  {
    hide FlowScan, SameShape;
  }

  lemma SettledMerge(inp: Input, ps: seq<nat>, p: nat, first: Item, s: State, neu: Item, scan: Scan)
    requires AllMerged(inp, ps, first, s) && Desc(inp, p) == Some(neu) && neu.key == first.key
    requires ps[0] < p < |s.bufs| == |s.parts| && s.parts[p] == [p] && SameShape(s.bufs, scan)
    requires VIRTIO_NET_HDR_LEN <= inp.offset <= |s.bufs[p].data|
    requires scan.verdict == Appended(ps[0]) && scan.items == [Joint(first, |ps| + 1, Psh(neu))]
    requires |scan.bufs| == |s.bufs| && scan.bufs[ps[0]].cap == s.bufs[ps[0]].cap
    ensures AllMerged(inp, ps + [p], first, Settle(s, inp.offset, p, neu.key, scan))
  {
    hide Desc, Joint, Psh;
  }

  // ---- the whole run ------------------------------------------------------------------

  /** The first packet of a flow starts its item. */
  lemma StreamStarts(inp: Input, s: State, p: nat, first: Item)
    requires Inv(inp, s, p) && Good(inp, p + 1) && Stream(inp, [p], first) && first.key !in s.flows
    requires StepOk(s, inp.offset, p, Desc(inp, p))
    ensures AllMerged(inp, [p], first, GroStep(s, inp.offset, p, Desc(inp, p)))
  {
    hide Desc, Continues, Inner, Times, Inv, Good;
    StepReady(inp, s, p);
    InvSizes(inp, s, p);
    Small(inp, p + 1);
    First(inp, first, p);
    assert Joint(first, 1, Psh(first)) == first;
  }

  lemma OtherMerged(inp: Input, s: State, i: nat, ps: seq<nat>, first: Item)
    requires Inv(inp, s, i) && Good(inp, i + 1) && StepOk(s, inp.offset, i, Desc(inp, i))
    requires Desc(inp, i).Some? ==> Desc(inp, i).value.key != first.key
    requires AllMerged(inp, ps, first, s) && first.bufsIndex == ps[0]
    ensures AllMerged(inp, ps, first, GroStep(s, inp.offset, i, Desc(inp, i)))
  {
    hide Desc, Inv, Good, GroStep, StepOk;
    OtherFlow(inp, s, i, first.key);
    assert SameBuffer(s, GroStep(s, inp.offset, i, Desc(inp, i)), s.flows[first.key][0].bufsIndex);
  }

  /** A flow none of whose packets has arrived is not in the table. */
  lemma {:induction false} NotYet(inp: Input, n: nat, key: FlowKey)
    requires Good(inp, n) && Arrivals(inp, key, n) == []
    ensures key !in Run(inp, n).flows
  {
    hide Desc, Inv, GroStep;
    if n > 0 {
      NotYet(inp, n - 1, key);
      StepKeeps(inp, Run(inp, n - 1), n - 1);
      OtherFlow(inp, Run(inp, n - 1), n - 1, key);
    }
  }

  /**
   When the packets of a flow are an in-order stream, they end up in one item of the flow,
   however many they are and whatever packets of other flows arrive between them: its buffer is
   the first packet's and holds them all in order.
   */
  lemma {:induction false} StreamMerges(inp: Input, n: nat, first: Item)
    requires Good(inp, n) && Stream(inp, Arrivals(inp, first.key, n), first)
    ensures AllMerged(inp, Arrivals(inp, first.key, n), first, Run(inp, n))
  {
    hide Desc, Inv, GroStep, AllMerged, Stream, Good;
    GoodSooner(inp, n);
    StreamNotEmpty(inp, Arrivals(inp, first.key, n), first);
    var before, s := Arrivals(inp, first.key, n - 1), Run(inp, n - 1);
    StepKeeps(inp, s, n - 1);
    if Desc(inp, n - 1).Some? && Desc(inp, n - 1).value.key == first.key {
      assert Arrivals(inp, first.key, n) == before + [n - 1];
      if before == [] {
        assert before + [n - 1] == [n - 1];
        NotYet(inp, n - 1, first.key);
        StreamStarts(inp, s, n - 1, first);
      } else {
        Shorter(inp, before, n - 1, first);
        StreamMerges(inp, n - 1, first);
        OneMoreMerged(inp, before, n - 1, first, s);
      }
    } else {
      assert Arrivals(inp, first.key, n) == before;
      StreamMerges(inp, n - 1, first);
      StreamFirst(inp, before, first, n);
      OtherMerged(inp, s, n - 1, before, first);
    }
  }

  lemma StreamNotEmpty(inp: Input, ps: seq<nat>, first: Item)
    requires Stream(inp, ps, first)
    ensures ps != []
  {
    hide Desc, Continues, Inner;
  }

  lemma StreamFirst(inp: Input, ps: seq<nat>, first: Item, n: nat)
    requires Stream(inp, ps, first) && Good(inp, n)
    ensures first.bufsIndex == ps[0]
  {
    hide Desc, Continues, Inner, Times;
    First(inp, first, ps[0]);
  }

  // ---- a batch of nothing else --------------------------------------------------------

  /** A batch that is one stream leaves one item in the tables, and one buffer to write. */
  lemma StreamAlone(inp: Input, n: nat, first: Item)
    requires Good(inp, n) && n > 0 && Arrivals(inp, first.key, n) == UpTo(n) && Stream(inp, UpTo(n), first)
    ensures Run(inp, n).toWrite == [0]
    ensures forall key :: key in Run(inp, n).flows ==> key == first.key
  {
    hide Desc, Stream, AllMerged, Inv, Good, Run;
    StreamMerges(inp, n, first);
    var s := Run(inp, n);
    MergedParts(inp, UpTo(n), first, s);
    OneWritten(inp, s, n);
    forall key | key != first.key
      ensures key !in s.flows
    {
      OthersAbsent(inp, first.key, key, n);
      NotYet(inp, n, key);
    }
  }

  lemma MergedParts(inp: Input, ps: seq<nat>, first: Item, s: State)
    requires AllMerged(inp, ps, first, s)
    ensures ps[0] < |s.parts| && s.parts[ps[0]] == ps
  {
    hide Desc;
  }

  /** The packets of one flow are not those of another. */
  lemma {:induction false} OthersAbsent(inp: Input, key: FlowKey, other: FlowKey, n: nat)
    requires Arrivals(inp, key, n) == UpTo(n) && key != other
    ensures Arrivals(inp, other, n) == []
  {
    hide Desc;
    if n > 0 {
      var before := Arrivals(inp, key, n - 1);
      ArrivalsCount(inp, key, n - 1);
      assert Arrivals(inp, key, n) == before || Arrivals(inp, key, n) == before + [n - 1];
      assert before == UpTo(n)[..n - 1] == UpTo(n - 1);
      OthersAbsent(inp, key, other, n - 1);
    }
  }

  lemma {:induction false} ArrivalsCount(inp: Input, key: FlowKey, n: nat)
    ensures |Arrivals(inp, key, n)| <= n
  {
    hide Desc;
    if n > 0 {
      ArrivalsCount(inp, key, n - 1);
    }
  }

  lemma OneWritten(inp: Input, s: State, n: nat)
    requires Inv(inp, s, n) && n > 0 && s.parts != [] && s.parts[0] == UpTo(n)
    ensures s.toWrite == [0]
  {
    hide All, FlowHolds, Untouched, Capacities, Tracked, Plain;
    forall k: nat | 0 < k < n
      ensures s.parts[k] == []
    {
      if s.parts[k] != [] {
        var p := s.parts[k][0];
        AllSingletons(0, |inp.bufs|, p);
        assert UpTo(n)[p] == p;
        NotInBoth(s.parts, 0, k, p);
      }
    }
    assert forall k: nat :: k in s.toWrite <==> k == 0;
    OnlyZero(s.toWrite);
  }

  lemma OnlyZero(ks: seq<nat>)
    requires forall a, b :: 0 <= a < b < |ks| ==> ks[a] < ks[b]
    requires forall k: nat :: k in ks <==> k == 0
    ensures ks == [0]
  {
    assert 0 in ks;
    AtLeastIndex(ks, |ks| - 1);
    assert ks[|ks| - 1] in ks;
  }

  lemma {:induction false} AtLeastIndex(ks: seq<nat>, a: nat)
    requires a < |ks| && forall a, b :: 0 <= a < b < |ks| ==> ks[a] < ks[b]
    ensures ks[a] >= a
  {
    if a > 0 {
      AtLeastIndex(ks, a - 1);
    }
  }
}
