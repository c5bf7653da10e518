/** What handleGRO writes, in full: which packets each frame holds, and every byte of it. */
module Frames {
  import opened Bytes
  import opened ChecksumSpec
  import opened FastChecksum
  import opened Packet
  import opened Wire
  import opened Gro
  import opened GroItem
  import opened GroInvariant
  import opened GsoSegments
  import opened Accounting
  import opened RoundTrip
  import opened Delivery
  import opened Batches
  import opened Decisions
  import opened Grouping
  import opened Reads

  // ---- which packets are in a frame ---------------------------------------------------

  /** Packet p is in no group of the batch. */
  ghost predicate InNoGroup(inp: Input, p: nat) {
    forall key, g :: g in Groups(inp, key, |inp.bufs|) ==> p !in g
  }

  lemma GroupOfItem(inp: Input, s: State, key: FlowKey, g: seq<nat>) returns (k: nat)
    requires Inv(inp, s, |inp.bufs|) && g in GroupsOf(s, key)
    ensures k < |s.parts| && s.parts[k] == g
  {
    hide All, Holds, Untouched, Capacities, Writing, Plain, Tracked;
    assert FlowHolds(inp, s, |inp.bufs|, key);
    var j :| 0 <= j < |s.flows[key]| && HeldIn(s.parts, s.flows[key])[j] == g;
    assert ItemAt(inp, s, |inp.bufs|, key, s.flows[key][j]);
    k := s.flows[key][j].bufsIndex;
  }

  lemma TrackedGroup(s: State, k: nat) returns (key: FlowKey)
    requires Tracked(s.flows, k) && k < |s.parts|
    ensures s.parts[k] in GroupsOf(s, key)
  {
    key :| key in s.flows && TrackedIn(s.flows[key], k);
    var j :| 0 <= j < |s.flows[key]| && s.flows[key][j].bufsIndex == k;
    assert HeldIn(s.parts, s.flows[key])[j] == s.parts[k];
  }

  /**
   Every packet is in one frame, once: that of its group, with the others of the group and in
   their order, or a frame of its own when it is in no group. The frame goes out in the place of
   the packet among them that arrived first.
   */
  lemma FrameOf(inp: Input, p: nat) returns (k: nat)
    requires Good(inp, |inp.bufs|) && p < |inp.bufs|
    ensures var s := Run(inp, |inp.bufs|);
            && LivesIn(s, p, k)
            && (forall key, g :: g in Groups(inp, key, |inp.bufs|) && p in g ==> s.parts[k] == g)
            && (InNoGroup(inp, p) ==> k == p && s.parts[k] == [p])
            && k in s.parts[k] && forall j :: 0 <= j < |s.parts[k]| ==> k <= s.parts[k][j]
  {
    hide Inv, Run, GroupsOf, Good, Tracked, Groups;
    RunEarliest(inp, |inp.bufs|);
    var s := Run(inp, |inp.bufs|);
    k := ExactlyOnce(inp, s, p);
    forall key, g | g in Groups(inp, key, |inp.bufs|) && p in g
      ensures s.parts[k] == g
    {
      RunGroups(inp, |inp.bufs|, key);
      var k' := GroupOfItem(inp, s, key, g);
    }
    TrackedOrPlain(inp, s, k);
    if Tracked(s.flows, k) {
      var key := TrackedGroup(s, k);
      RunGroups(inp, |inp.bufs|, key);
      assert s.parts[k] in Groups(inp, key, |inp.bufs|) && p in s.parts[k];
    }
  }

  lemma TrackedOrPlain(inp: Input, s: State, k: nat)
    requires Inv(inp, s, |inp.bufs|) && k in s.toWrite
    ensures k < |s.parts| && (Tracked(s.flows, k) || s.parts[k] == [k])
  {
    hide All, FlowHolds, Untouched, Capacities, Tracked;
  }

  // ---- packets that GRO does not take up ----------------------------------------------

  /** Only packets that GRO takes up are in a flow. */
  lemma {:induction false} GroupMembers(inp: Input, key: FlowKey, n: nat, g: seq<nat>, p: nat)
    requires Good(inp, n) && g in Groups(inp, key, n) && p in g
    ensures Desc(inp, p).Some? && Desc(inp, p).value.key == key
  {
    hide Inv, Desc, GroupsOf, Run, Groups, Holds, All, Good;
    var s := Run(inp, n);
    RunGroups(inp, n, key);
    MemberOfItem(inp, s, n, key, g, p);
  }

  lemma MemberOfItem(inp: Input, s: State, n: nat, key: FlowKey, g: seq<nat>, p: nat)
    requires Inv(inp, s, n) && g in GroupsOf(s, key) && p in g
    ensures Desc(inp, p).Some? && Desc(inp, p).value.key == key
  {
    hide All, Desc, Merged, Sized, Sequenced, PshOnLast, AllValid, HeadersAgree, ChecksumValid, Untouched, Capacities,
        Writing, Plain, Tracked;
    assert FlowHolds(inp, s, n, key);
    var j :| 0 <= j < |s.flows[key]| && HeldIn(s.parts, s.flows[key])[j] == g;
    assert ItemAt(inp, s, n, key, s.flows[key][j]);
    var a :| 0 <= a < |g| && g[a] == p;
    assert Member(inp, s.flows[key][j], g[0], g[a]);
  }

  /** A packet that is not taken up goes out alone, as it came, whatever else is in the batch. */
  lemma LeftAlone(le: bool, inp: Input, after: seq<Buf>, toWrite: seq<nat>, p: nat)
    requires Handled(le, inp, after, toWrite) && p < |inp.bufs| && !TakenUp(Pkt(inp, p), inp.canUdpGro)
    ensures p in toWrite && p < |after| && VIRTIO_NET_HDR_LEN <= inp.offset <= |after[p].data|
    ensures Frame(after[p].data, inp.offset) == Zeros(10) + Pkt(inp, p)
  {
    hide Inv, Run, Classify, Groups, Good, AccountedBy, Frame, TakenUp, Pkt;
    TakenUpExactly(Pkt(inp, p), inp.canUdpGro, p);
    forall key, g | g in Groups(inp, key, |inp.bufs|)
      ensures p !in g
    {
      if p in g {
        GroupMembers(inp, key, |inp.bufs|, g, p);
      }
    }
    var k := FrameOf(inp, p);
    WrittenHeader(le, inp, Run(inp, |inp.bufs|), after, p);
  }

  /** Without UDP GSO on the device no UDP flow is ever in a table. */
  lemma NoUdpFlows(inp: Input, n: nat, key: FlowKey)
    requires Good(inp, n) && !inp.canUdpGro && key in Run(inp, n).flows
    ensures key.TcpKey?
  {
    hide All, Classify, Groups, Run, Merged, Sized, Sequenced, PshOnLast, AllValid, HeadersAgree, ChecksumValid,
        Untouched, Capacities, Writing, Plain, Tracked, Pkt;
    var s := Run(inp, n);
    assert FlowHolds(inp, s, n, key);
    if key.UdpKey? {
      var item := s.flows[key][0];
      assert ItemAt(inp, s, n, key, item);
      var ps := s.parts[item.bufsIndex];
      assert Member(inp, item, ps[0], ps[0]);
      TcpOnly(Pkt(inp, ps[0]), ps[0]);
    }
  }

  lemma TcpOnly(pkt: seq<byte>, i: nat)
    requires Classify(pkt, false, i).Some?
    ensures Classify(pkt, false, i).value.key.TcpKey?
  {
    hide LengthMatches, BE32;
  }

  // ---- the bytes of a frame -----------------------------------------------------------

  /** The virtio header of merged packets with hl header bytes, h of them before the transport header. */
  predicate HeaderFigures(le: bool, frame: seq<byte>, tcp: bool, h: nat, hl: nat, size: nat) {
    && |frame| >= 10
    && frame[0] == 1 && frame[1] == (if !tcp then 5 else if h == 40 then 4 else 1)
    && Host(le, frame, 2) == hl && Host(le, frame, 4) == size
    && Host(le, frame, 6) == h && Host(le, frame, 8) == (if tcp then 16 else 6)
  }

  /** The first packet's headers, but for lengths, checksums and TCP flags. */
  predicate HeadersKept(pkt: seq<byte>, first: seq<byte>, tcp: bool, h: nat, hl: nat)
    requires hl <= |pkt| && hl <= |first|
  {
    forall k: nat :: k < hl ==>
      || pkt[k] == first[k]
      || (if h == 40 then 4 <= k < 6 else 2 <= k < 4 || 10 <= k < 12)
      || (if tcp then k == h + 13 || h + 16 <= k < h + 18 else h + 4 <= k < h + 8)
  }

  /**
   The headers of a merged packet: the first packet's, but for the lengths, which are those of
   the whole, the IPv4 header checksum, which is right, and the transport checksum, which is the
   folded sum of the pseudo-header.
   */
  predicate PacketFigures(pkt: seq<byte>, first: seq<byte>, tcp: bool, h: nat, hl: nat) {
    && (h == 20 || h == 40) && h + (if tcp then 20 else 8) <= hl <= |pkt| <= 0xffff && hl <= |first|
    && HeadersKept(pkt, first, tcp, h, hl)
    && (if h == 40 then Big(pkt, 4) == |pkt| - 40
        else Big(pkt, 2) == |pkt| && OnesFold(WordSum(pkt[..20])) == 0xffff)
    && (!tcp ==> Big(pkt, h + 4) == |pkt| - h)
    && Big(pkt, if tcp then h + 16 else h + 6) == OnesFold(PseudoOf(pkt, h, if tcp then 6 else 17, h == 40))
  }

  /** A frame of more than one packet, byte by byte. */
  ghost predicate FrameShows(le: bool, inp: Input, ps: seq<nat>, frame: seq<byte>) {
    && ps != [] && |frame| >= 10
    && var first, last := Pkt(inp, ps[0]), Pkt(inp, ps[|ps| - 1]);
       && |first| >= 28
       && var h := HeaderLen(first);
          var tcp := first[if h == 40 then 6 else 9] == 6;
          && h + (if tcp then 20 else 8) <= |first| && (tcp ==> h + 20 <= |last|)
          && var hl := h + if tcp then first[h + 12] / 16 * 4 else 8;
             && hl <= |first|
             && HeaderFigures(le, frame, tcp, h, hl, |first| - hl)
             && PacketFigures(frame[10..], first, tcp, h, hl)
             && frame[10 + hl..] == Joined(inp, hl, ps)
             && (tcp ==> frame[10 + h + 13] == if last[h + 13] == 0x18 && ps[0] <= ps[|ps| - 1] then 0x18 else 0x10)
  }

  lemma HeaderIs(le: bool, item: Item, rest: seq<byte>)
    requires Shaped(item)
    ensures HeaderFigures(le, Encode(le, HeaderOf(item)) + rest, item.TcpItem?, item.iphLen, item.HdrLen(),
                item.gsoSize)
  {
    hide Encode;
    VirtioLayout(le, HeaderOf(item), []);
    var frame := Encode(le, HeaderOf(item)) + rest;
    assert forall k :: 0 <= k < 10 ==> frame[k] == Encode(le, HeaderOf(item))[k];
  }

  lemma PacketIs(item: Item, merged: seq<byte>, first: seq<byte>)
    requires Shaped(item) && item.HdrLen() <= |merged| <= 0xffff && item.HdrLen() <= |first|
    requires forall k: nat :: k < item.HdrLen() && (item.TcpItem? ==> k != item.iphLen + TCP_FLAGS_OFFSET) ==>
               merged[k] == first[k]
    ensures var pkt, h, hl := AccountPacket(merged, item), item.iphLen as nat, item.HdrLen();
            && PacketFigures(pkt, first, item.TcpItem?, h, hl)
            && pkt[hl..] == merged[hl..] && (item.TcpItem? ==> pkt[h + 13] == merged[h + 13])
  {
    hide *;
    ShapedSizes(item);
    AccountedPacket(merged, item);
    KeepsTail(AccountPacket(merged, item), merged, item.TcpItem?, item.key.isV6, item.iphLen, item.HdrLen());
    PacketKept(item, AccountPacket(merged, item), merged, first);
    PacketFields(item, AccountPacket(merged, item), merged, first);
  }

  lemma ShapedSizes(item: Item)
    requires Shaped(item)
    ensures item.iphLen >= (if item.key.isV6 then 40 else 20)
    ensures item.iphLen as nat + (if item.TcpItem? then 20 else 8) <= item.HdrLen()
  {
  }

  lemma PacketKept(item: Item, pkt: seq<byte>, merged: seq<byte>, first: seq<byte>)
    requires Shaped(item) && item.HdrLen() <= |merged| <= 0xffff && item.HdrLen() <= |first|
    requires Keeps(pkt, merged, item.TcpItem?, item.key.isV6, item.iphLen)
    requires item.TcpItem? ==> forall k: nat :: item.iphLen <= k < item.iphLen + 16 ==> pkt[k] == merged[k]
    requires IpFields(pkt, merged, item.iphLen, item.key.isV6, 0)
    requires forall k: nat :: k < item.HdrLen() && (item.TcpItem? ==> k != item.iphLen + TCP_FLAGS_OFFSET) ==>
               merged[k] == first[k]
    ensures HeadersKept(pkt, first, item.TcpItem?, item.iphLen, item.HdrLen())
    ensures item.TcpItem? ==> pkt[item.iphLen + 13] == merged[item.iphLen + 13]
  {
    hide WordSum, OnesFold;
    if !item.key.isV6 {
      BE16Injective(pkt, 4, merged, 4);
    }
  }

  lemma PacketFields(item: Item, pkt: seq<byte>, merged: seq<byte>, first: seq<byte>)
    requires Shaped(item) && item.HdrLen() <= |merged| == |pkt| <= 0xffff && item.HdrLen() <= |first|
    requires HeadersKept(pkt, first, item.TcpItem?, item.iphLen, item.HdrLen())
    requires IpFields(pkt, merged, item.iphLen, item.key.isV6, 0)
    requires item.UdpItem? ==> BE16(pkt, item.iphLen as nat + 4) == |merged| - item.iphLen
    requires BE16(pkt, item.iphLen as nat + item.CsumOffset())
          == OnesFold(PseudoSum(item.Proto(), SrcAddr(pkt, item.key.isV6), DstAddr(pkt, item.key.isV6),
              U16(|merged| - item.iphLen)))
    ensures PacketFigures(pkt, first, item.TcpItem?, item.iphLen, item.HdrLen())
  {
    hide WordSum, OnesFold, PseudoSum, SrcAddr, DstAddr, HeadersKept;
  }

  /** What an item's packets say of it. */
  predicate ItemFigures(item: Item, first: seq<byte>, last: seq<byte>) {
    && |first| >= 28 && HeaderLen(first) == item.iphLen as nat
    && var h := HeaderLen(first);
       && item.TcpItem? == (first[if h == 40 then 6 else 9] == 6)
       && h + (if item.TcpItem? then 20 else 8) <= |first|
       && item.HdrLen() <= |first| && item.gsoSize as int == |first| - item.HdrLen()
       && (item.TcpItem? ==>
             && item.tcphLen == first[h + 12] / 16 * 4
             && h + 20 <= |last| && item.pshSet == (last[h + 13] == 0x18))
  }

  lemma HeldFigures(inp: Input, item: Item, ps: seq<nat>, data: seq<byte>)
    requires Holds(inp, item, ps, data) && Good(inp, 0) && Shaped(item)
    ensures ItemFigures(item, Pkt(inp, ps[0]), Pkt(inp, ps[|ps| - 1]))
  {
    hide Desc, Pkt, Good, Holds, Joined;
    HoldsParts(inp, item, ps, data);
    HeldCandidates(inp, item, ps, data);
    HeldSizes(inp, item, ps, data);
    SmallInput(inp, ps[0]);
    SmallInput(inp, ps[|ps| - 1]);
    CandidateFields(inp, ps[0]);
    CandidateFields(inp, ps[|ps| - 1]);
  }

  /** The merged packet before accounting. */
  predicate MergedFigures(inp: Input, item: Item, ps: seq<nat>, merged: seq<byte>) {
    && ps != [] && Shaped(item) && item.HdrLen() < |merged| && item.HdrLen() <= |Pkt(inp, ps[0])|
    && (forall k: nat :: k < item.HdrLen() && (item.TcpItem? ==> k != item.iphLen + TCP_FLAGS_OFFSET) ==>
         merged[k] == Pkt(inp, ps[0])[k])
    && merged[item.HdrLen()..] == Joined(inp, item.HdrLen(), ps)
    && (item.TcpItem? ==> merged[item.iphLen + 13] == if PshShown(item, ps) then 0x18 else 0x10)
  }

  lemma HeldMerged(inp: Input, item: Item, ps: seq<nat>, data: seq<byte>)
    requires Holds(inp, item, ps, data) && Good(inp, 0) && Shaped(item)
    ensures inp.offset <= |data| && MergedFigures(inp, item, ps, data[inp.offset..])
  {
    hide Desc, Pkt, Good, Holds, Joined, PshShown;
    HoldsParts(inp, item, ps, data);
    MergedPacket(inp, item, ps, data);
    JoinedNotEmpty(inp, item, ps);
  }

  lemma ShowsFrom(le: bool, inp: Input, item: Item, ps: seq<nat>, merged: seq<byte>, frame: seq<byte>)
    requires MergedFigures(inp, item, ps, merged) && ItemFigures(item, Pkt(inp, ps[0]), Pkt(inp, ps[|ps| - 1]))
    requires frame == Encode(le, HeaderOf(item)) + AccountPacket(merged, item) && |merged| <= 0xffff
    ensures FrameShows(le, inp, ps, frame)
  {
    hide Pkt, Joined, AccountPacket, Encode, HeaderOf, HeaderFigures, PacketFigures;
    var first, pkt, hl := Pkt(inp, ps[0]), AccountPacket(merged, item), item.HdrLen();
    HeaderIs(le, item, pkt);
    PacketIs(item, merged, first);
    VirtioLayout(le, HeaderOf(item), []);
    assert frame[10..] == pkt && frame[10 + hl..] == pkt[hl..];
    assert item.TcpItem? ==> frame[10 + item.iphLen + 13] == pkt[item.iphLen + 13];
  }

  lemma MergedShows(le: bool, inp: Input, item: Item, ps: seq<nat>, data: seq<byte>)
    requires Holds(inp, item, ps, data) && Good(inp, 0) && |data| <= 0xffff && Shaped(item) && item.numMerged > 0
    requires inp.offset + item.HdrLen() <= |data| && VIRTIO_NET_HDR_LEN <= inp.offset
    ensures FrameShows(le, inp, ps, Frame(AccountItem(le, data, inp.offset, item), inp.offset))
  {
    hide Desc, Pkt, AccountPacket, AccountItem, Frame, Joined, Encode, HeaderOf, Holds, Good, FrameShows, ItemFigures;
    HeldFigures(inp, item, ps, data);
    HeldMerged(inp, item, ps, data);
    FrameOfMerged(le, data, inp.offset, item);
    ShowsFrom(le, inp, item, ps, data[inp.offset..], Frame(AccountItem(le, data, inp.offset, item), inp.offset));
  }

  lemma SmallInput(inp: Input, p: nat)
    requires Good(inp, 0) && Desc(inp, p).Some?
    ensures p < TWO16
  {
    hide Classify;
    Described(inp, p);
  }

  /** The item of a tracked buffer, and what accounting has made of the buffer. */
  lemma WrittenItem(le: bool, inp: Input, s: State, after: seq<Buf>, k: nat) returns (item: Item)
    requires Inv(inp, s, |inp.bufs|) && AccountedBy(le, inp.offset, s.flows, s.bufs, after) && Tracked(s.flows, k)
    ensures k < |after| == |s.bufs| == |s.parts| && Good(inp, 0) && |s.bufs[k].data| <= 0xffff
    ensures Holds(inp, item, s.parts[k], s.bufs[k].data) && Shaped(item) && |s.parts[k]| == item.numMerged as int + 1
    ensures VIRTIO_NET_HDR_LEN <= inp.offset && inp.offset + item.HdrLen() <= |s.bufs[k].data|
    ensures after[k].data == AccountItem(le, s.bufs[k].data, inp.offset, item)
  {
    hide All, Holds, AccountItem, Untouched, Writing, Plain;
    var key :| key in s.flows && TrackedIn(s.flows[key], k);
    var j :| 0 <= j < |s.flows[key]| && s.flows[key][j].bufsIndex == k;
    item := s.flows[key][j];
    assert FlowHolds(inp, s, |inp.bufs|, key) && ItemAt(inp, s, |inp.bufs|, key, item);
    assert ItemAccounted(le, inp.offset, item, s.bufs, after);
    PartsCount(inp, item, s.parts[k], s.bufs[k].data);
  }

  /** Every frame of more than one packet, byte by byte. */
  lemma WrittenShows(le: bool, inp: Input, after: seq<Buf>, toWrite: seq<nat>, k: nat)
    requires Handled(le, inp, after, toWrite) && k in toWrite
    ensures k < |after| && VIRTIO_NET_HDR_LEN <= inp.offset <= |after[k].data|
    ensures Good(inp, |inp.bufs|) && k < |Run(inp, |inp.bufs|).parts|
    ensures var ps, frame := Run(inp, |inp.bufs|).parts[k], Frame(after[k].data, inp.offset);
            if |ps| == 1 then frame == Zeros(10) + Pkt(inp, ps[0]) else FrameShows(le, inp, ps, frame)
  {
    hide Inv, AccountedBy, Holds, AccountItem, FrameShows, Frame, Run, Pkt, Tracked, Good, Shaped;
    var s := Run(inp, |inp.bufs|);
    WrittenHeader(le, inp, s, after, k);
    TrackedOrPlain(inp, s, k);
    if Tracked(s.flows, k) {
      var item := WrittenItem(le, inp, s, after, k);
      if item.numMerged > 0 {
        MergedShows(le, inp, item, s.parts[k], s.bufs[k].data);
      }
    }
  }
}
