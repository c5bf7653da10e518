/**
 What GRO does with each packet, exactly: which item of its flow takes it, at which end, and
 when it stays alone, in terms of the original packets that the items hold.
 */
module Decisions {
  import opened Arithmetic
  import opened Bytes
  import opened Options
  import opened Packet
  import opened Wire
  import opened Gro
  import opened GroItem
  import opened GroInvariant

  // ---- packets in figures -------------------------------------------------------------

  /** The item that candidate p is stored as. */
  function ItemOf(inp: Input, p: nat): Item
    requires Desc(inp, p).Some?
  {
    Desc(inp, p).value
  }

  /** A candidate's payload size. */
  function Size(inp: Input, p: nat): nat
    requires Desc(inp, p).Some?
  {
    ItemOf(inp, p).gsoSize
  }

  ghost predicate Candidates(inp: Input, ps: seq<nat>) {
    ps != [] && forall j :: 0 <= j < |ps| ==> Desc(inp, ps[j]).Some?
  }

  /** The same traffic class or type of service, hop limit or time to live, and in IPv4 DF and reserved bits. */
  predicate SameService(a: seq<byte>, b: seq<byte>) {
    && |a| >= 9 && |b| >= 9
    && if a[0] / 16 == 6 then a[0] == b[0] && a[1] / 16 == b[1] / 16 && a[7] == b[7]
       else a[1] == b[1] && a[6] / 32 == b[6] / 32 && a[8] == b[8]
  }

  /** TCP headers of one length, with the same options. */
  predicate SameOptions(a: seq<byte>, b: seq<byte>) {
    && |a| > 0 && |b| > 0
    && var h := HeaderLen(a);
       && h + 20 <= |a| && h + 20 <= |b|
       && var hl := h + a[h + 12] / 16 * 4;
          a[h + 12] / 16 == b[h + 12] / 16 && h + 20 <= hl <= |a| && hl <= |b| && a[h + 20..hl] == b[h + 20..hl]
  }

  /** Packets whose headers may be merged into one. */
  predicate Alike(inp: Input, p: nat, q: nat) {
    && SameService(Pkt(inp, p), Pkt(inp, q))
    && (Desc(inp, p).Some? && Desc(inp, p).value.TcpItem? ==> SameOptions(Pkt(inp, p), Pkt(inp, q)))
  }

  /** All of ps have the size of the first one: there is no short last segment. */
  ghost predicate AllWhole(inp: Input, ps: seq<nat>)
    requires Candidates(inp, ps)
  {
    forall j :: 0 <= j < |ps| ==> Size(inp, ps[j]) == Size(inp, ps[0])
  }

  // ---- aligned packets ----------------------------------------------------------------

  ghost predicate BothTcp(inp: Input, ps: seq<nat>, p: nat) {
    Candidates(inp, ps) && Desc(inp, p).Some? && ItemOf(inp, p).TcpItem? && ItemOf(inp, ps[0]).TcpItem?
  }

  /** TCP packet p comes right after the packets ps: no PSH or short segment before it, and it is not larger. */
  ghost predicate Follows(inp: Input, ps: seq<nat>, p: nat) {
    && BothTcp(inp, ps, p)
    && Alike(inp, p, ps[0]) && AllWhole(inp, ps) && !Psh(ItemOf(inp, ps[|ps| - 1]))
    && Size(inp, p) <= Size(inp, ps[0])
    && ItemOf(inp, p).sentSeq == (ItemOf(inp, ps[0]).sentSeq + |ps| * Size(inp, ps[0])) % 0x1_0000_0000
  }

  /** TCP packet p comes right before the packets ps: without PSH, and as large as they are, or larger than just one. */
  ghost predicate Precedes(inp: Input, ps: seq<nat>, p: nat) {
    && BothTcp(inp, ps, p)
    && Alike(inp, p, ps[0]) && !Psh(ItemOf(inp, p))
    && (Size(inp, p) == Size(inp, ps[0]) || (Size(inp, p) > Size(inp, ps[0]) && |ps| == 1))
    && (ItemOf(inp, p).sentSeq + Size(inp, p)) % 0x1_0000_0000 == ItemOf(inp, ps[0]).sentSeq
  }

  /** UDP packet p may join the packets ps. */
  ghost predicate Joins(inp: Input, ps: seq<nat>, p: nat) {
    && Candidates(inp, ps) && Desc(inp, p).Some? && ItemOf(inp, p).UdpItem?
    && Alike(inp, p, ps[0]) && AllWhole(inp, ps) && Size(inp, p) <= Size(inp, ps[0])
  }

  // ---- an item's buffer, in terms of its packets --------------------------------------

  lemma HeldCandidates(inp: Input, item: Item, ps: seq<nat>, data: seq<byte>)
    requires Holds(inp, item, ps, data)
    ensures Candidates(inp, ps)
    ensures forall j :: 0 <= j < |ps| ==>
              && ItemOf(inp, ps[j]).key == item.key && ItemOf(inp, ps[j]).TcpItem? == item.TcpItem?
              && ItemOf(inp, ps[j]).HdrLen() == item.HdrLen() && ItemOf(inp, ps[j]).iphLen == item.iphLen
              && Size(inp, ps[j]) == PayloadLen(inp, item, ps[j])
  {
    hide Desc, Merged, Sized, Sequenced, PshOnLast, AllValid, HeadersAgree, ChecksumValid, Pkt;
    forall j | 0 <= j < |ps|
      ensures Desc(inp, ps[j]).Some?
      ensures ItemOf(inp, ps[j]).key == item.key && ItemOf(inp, ps[j]).TcpItem? == item.TcpItem?
      ensures ItemOf(inp, ps[j]).HdrLen() == item.HdrLen() && ItemOf(inp, ps[j]).iphLen == item.iphLen
      ensures Size(inp, ps[j]) == PayloadLen(inp, item, ps[j])
    {
      assert Member(inp, item, ps[0], ps[j]);
    }
  }

  /** The item's segment size is the first packet's. */
  lemma HeldSizes(inp: Input, item: Item, ps: seq<nat>, data: seq<byte>)
    requires Holds(inp, item, ps, data)
    ensures Candidates(inp, ps) && Size(inp, ps[0]) == item.gsoSize && |ps| == item.numMerged as int + 1
    ensures AllWhole(inp, ps) <==> PayloadLen(inp, item, ps[|ps| - 1]) == item.gsoSize
    ensures item.TcpItem? ==>
              ItemOf(inp, ps[0]).sentSeq == item.sentSeq && Psh(ItemOf(inp, ps[|ps| - 1])) == item.pshSet
    ensures item.TcpItem? == ItemOf(inp, ps[0]).TcpItem? && ItemOf(inp, ps[0]).HdrLen() == item.HdrLen()
  {
    hide Desc, Merged, AllValid, Members, ChecksumValid, Pkt, SeqAt;
    HeldCandidates(inp, item, ps, data);
    if item.TcpItem? {
      SeqStart(item.sentSeq, item.gsoSize);
    }
  }

  // ---- the comparison -----------------------------------------------------------------

  /** Within 32 bits nothing comes both right after and right before the same packets. */
  lemma OneSide(start: u32, len: u16, size: u16)
    requires size >= 1
    ensures U32(U32(start + len) + size) != start
  {
  }

  /** The comparison of headers is with the first packet's. */
  lemma HeadersCompare(inp: Input, item: Item, ps: seq<nat>, data: seq<byte>, i: nat, neu: Item)
    requires Holds(inp, item, ps, data) && Good(inp, i + 1) && Desc(inp, i) == Some(neu) && neu.key == item.key
    requires neu.TcpItem? == item.TcpItem? && Describes(neu, Pkt(inp, i))
    ensures inp.offset <= |data| && item.HdrLen() <= |data[inp.offset..]| && neu.HdrLen() <= |Pkt(inp, i)|
    ensures var target, pkt := data[inp.offset..], Pkt(inp, i);
            Alike(inp, i, ps[0])
            <==> IpHeadersCanCoalesce(pkt, target)
                 && (item.TcpItem? ==>
                       neu.tcphLen == item.tcphLen
                       && pkt[neu.iphLen + 20..neu.HdrLen()] == target[item.iphLen + 20..item.HdrLen()])
  {
    hide Desc, Holds, Joined, Head, IpHeadersCanCoalesce, SameService, Good, Pkt;
    Sooner(inp, i);
    HoldsParts(inp, item, ps, data);
    MergedPacket(inp, item, ps, data);
    HeldCandidates(inp, item, ps, data);
    var first := ItemOf(inp, ps[0]);
    Described(inp, ps[0]);
    CandidateFields(inp, ps[0]);
    CandidateFields(inp, i);
    SameHeaders(Pkt(inp, i), Pkt(inp, ps[0]), data[inp.offset..], item.iphLen, item.HdrLen());
    ServiceIs(Pkt(inp, i), Pkt(inp, ps[0]));
  }

  lemma ServiceIs(a: seq<byte>, b: seq<byte>)
    ensures SameService(a, b) == IpHeadersCanCoalesce(a, b)
  {
  }

  lemma CandidateFields(inp: Input, p: nat)
    requires Desc(inp, p).Some? && p < TWO16
    ensures ItemShows(ItemOf(inp, p), Pkt(inp, p), p)
  {
    hide Classify, ItemShows;
    ItemFields(Pkt(inp, p), inp.canUdpGro, p);
  }

  /** The remainder of the merged payload, and the 16-bit length, say what they are meant to. */
  lemma Lengths(inp: Input, item: Item, ps: seq<nat>, data: seq<byte>)
    requires Holds(inp, item, ps, data) && Good(inp, 0) && |data| <= 0xffff && inp.offset + item.HdrLen() <= |data|
    requires Candidates(inp, ps) && item.gsoSize >= 1
    ensures var total := |data[inp.offset..]| - item.HdrLen();
            && total == |Joined(inp, item.HdrLen(), ps)|
            && (AllWhole(inp, ps) <==> total % item.gsoSize == 0)
            && (AllWhole(inp, ps) ==> LhsLen(item) as int == Times(|ps|, item.gsoSize))
  {
    hide *;
    HeldSizes(inp, item, ps, data);
    PayloadsCount(inp, item, ps, data);
    MergedPacket(inp, item, ps, data);
    NoRemainder(item.numMerged, item.gsoSize, PayloadLen(inp, item, ps[|ps| - 1]));
    if AllWhole(inp, ps) {
      TimesIs(|ps|, item.gsoSize);
      LhsLenExact(item, Times(|ps|, item.gsoSize));
    }
  }

  /** A last segment of at most g bytes is whole exactly when nothing remains. */
  lemma NoRemainder(n: nat, g: nat, last: int)
    requires 1 <= last <= g
    ensures last == g <==> (Times(n, g) + last) % g == 0
    ensures last == g ==> Times(n, g) + last == Times(n + 1, g)
  {
    hide *;
    TimesNext(n, g);
    if last == g {
      TimesNext(n + 1, g);
      MultipleIs(Times(n + 1, g), g);
    } else {
      ShortRemainder(n, g, last);
      TimesIs(n, g);
    }
  }

  lemma ShortRemainder(n: nat, g: nat, last: int)
    requires 1 <= last < g
    ensures (n * g + last) % g != 0
  {
    if (n * g + last) % g == 0 {
      WholeSegments(n, g, last);
    }
  }

  /** The comparison of TCP packets, exactly. */
  lemma TcpCompares(inp: Input, item: Item, ps: seq<nat>, data: seq<byte>, i: nat, neu: Item)
    requires Holds(inp, item, ps, data) && Good(inp, i + 1) && Desc(inp, i) == Some(neu) && neu.key == item.key
    requires neu.TcpItem? && item.TcpItem? && Describes(neu, Pkt(inp, i)) && |data| <= 0xffff && Shaped(item)
    ensures inp.offset <= |data| && item.HdrLen() <= |data[inp.offset..]| && neu.HdrLen() <= |Pkt(inp, i)|
    ensures neu.iphLen == item.iphLen && 20 <= neu.tcphLen && Candidates(inp, ps) && ItemOf(inp, ps[0]).TcpItem?
    ensures TcpPacketsCanCoalesce(Pkt(inp, i), neu, item, data[inp.offset..])
         == if Follows(inp, ps, i) then Append else if Precedes(inp, ps, i) then Prepend else Unavailable
    ensures !(Follows(inp, ps, i) && Precedes(inp, ps, i))
  {
    hide Desc, Holds, Joined, LhsLen, IpHeadersCanCoalesce, Good, Alike, AllWhole, U32, Pkt, Times;
    Sooner(inp, i);
    HeadersCompare(inp, item, ps, data, i, neu);
    HeldSizes(inp, item, ps, data);
    Lengths(inp, item, ps, data);
    Sums(item.sentSeq, neu.gsoSize, LhsLen(item), |ps|, item.gsoSize, neu.sentSeq);
  }

  /** Sequence numbers in 32 bits. */
  lemma Sums(start: u32, size: u16, len: u16, n: nat, g: nat, seqNum: u32)
    requires size >= 1
    ensures U32(start + len) == (start as int + len) % 0x1_0000_0000
    ensures Times(n, g) == n * g
    ensures U32(seqNum + size) == (seqNum as int + size) % 0x1_0000_0000
    ensures seqNum == U32(start + len) ==> U32(seqNum + size) != start
  {
    OneSide(start, len, size);
  }

  // ---- what becomes of an item that is offered a packet -------------------------------

  /** The buffer of packet head has room for the packets ps, merged, and p with them; the offset is set aside twice. */
  predicate Room(inp: Input, ps: seq<nat>, p: nat, head: nat) {
    && ps != [] && Desc(inp, ps[0]).Some? && Desc(inp, p).Some? && head < |inp.bufs|
    && var hl := ItemOf(inp, ps[0]).HdrLen();
       2 * inp.offset + hl + |Joined(inp, hl, ps)| + Size(inp, p) <= inp.bufs[head].cap
  }

  /** The transport checksum of candidate p is right. */
  predicate RightSum(inp: Input, p: nat) {
    && Desc(inp, p).Some?
    && var item, pkt := Desc(inp, p).value, Pkt(inp, p);
       && item.iphLen as nat <= |pkt| && |pkt| >= (if item.key.isV6 then 40 else 20)
       && ChecksumValid(pkt, item.iphLen, item.Proto(), item.key.isV6)
  }

  /** An item is passed over, deleted from its flow, ends the search without result, or takes the packet. */
  datatype Fate = Passed | Deleted | Ending | Taking

  /** What TCP packet i makes of an item that holds ps. */
  ghost function TcpFate(inp: Input, ps: seq<nat>, i: nat): Fate {
    if !Follows(inp, ps, i) && !Precedes(inp, ps, i) then Passed
    else if !Room(inp, ps, i, if Precedes(inp, ps, i) then i else ps[0]) then Passed
    else if |ps| == 1 && !RightSum(inp, ps[0]) then Deleted
    else if !RightSum(inp, i) then Ending
    else Taking
  }

  /** UDP packet i is added to an item that holds ps. */
  ghost predicate UdpTaken(inp: Input, ps: seq<nat>, i: nat) {
    Joins(inp, ps, i) && Room(inp, ps, i, ps[0]) && (|ps| == 1 ==> RightSum(inp, ps[0])) && RightSum(inp, i)
  }

  /** UDP packet i would be added if its own checksum were right, which is remembered of it. */
  ghost predicate UdpRefused(inp: Input, ps: seq<nat>, i: nat) {
    Joins(inp, ps, i) && Room(inp, ps, i, ps[0]) && (|ps| == 1 ==> RightSum(inp, ps[0])) && !RightSum(inp, i)
  }

  /** The item invariant and the buffer, in the terms of the merge. */
  lemma MergeTerms(inp: Input, item: Item, ps: seq<nat>, data: seq<byte>, i: nat, neu: Item)
    requires Holds(inp, item, ps, data) && Good(inp, i + 1) && Desc(inp, i) == Some(neu) && neu.key == item.key
    requires neu.TcpItem? == item.TcpItem? && Describes(neu, Pkt(inp, i)) && |data| <= 0xffff && Shaped(item)
    requires neu.HdrLen() == item.HdrLen() && i < TWO16
    ensures Candidates(inp, ps) && inp.offset + item.HdrLen() <= |data|
    ensures forall head: nat :: Room(inp, ps, i, head)
              <==> head < |inp.bufs|
                   && 2 * inp.offset + |data[inp.offset..]| + |Pkt(inp, i)| - item.HdrLen() <= inp.bufs[head].cap
    ensures var target, pkt := data[inp.offset..], Pkt(inp, i);
            && (if item.key.isV6 then 40 else 20) <= |target| && (if item.key.isV6 then 40 else 20) <= |pkt|
            && item.iphLen as nat <= |target| && item.iphLen as nat <= |pkt|
            && (|ps| == 1 ==> RightSum(inp, ps[0]) == ChecksumValid(target, item.iphLen, item.Proto(), item.key.isV6))
            && RightSum(inp, i) == ChecksumValid(pkt, item.iphLen, item.Proto(), item.key.isV6)
  {
    hide Desc, Holds, Joined, ChecksumValid, Good, Pkt;
    Sooner(inp, i);
    HoldsParts(inp, item, ps, data);
    HeldSizes(inp, item, ps, data);
    HeldCandidates(inp, item, ps, data);
    MergedPacket(inp, item, ps, data);
    Lengths(inp, item, ps, data);
    if |ps| == 1 {
      assert ps == [ps[0]];
      Unmerged(inp, item, ps[0], data);
    }
  }

  /** What the comparison and the merge come to, for item j of the packet's flow. */
  ghost predicate ComesTo(can: CanCoalesce, result: CoalesceResult, fate: Fate) {
    if can == Unavailable then fate == Passed
    else match result
         case InsufficientCap => fate == Passed
         case PshEnding => false
         case ItemInvalidCsum => fate == Deleted
         case PktInvalidCsum => fate == Ending
         case Success => fate == Taking
  }

  /** A buffer that holds packets has the capacity that the buffer of the first one came with. */
  predicate CapsFollow(inp: Input, s: State) {
    && |s.bufs| == |s.parts| == |inp.bufs|
    && forall k :: 0 <= k < |s.parts| && s.parts[k] != [] ==>
         s.parts[k][0] < |inp.bufs| && s.bufs[k].cap == inp.bufs[s.parts[k][0]].cap
  }

  /** Packet i has come to a flow that is in the table. */
  ghost predicate InFlow(inp: Input, s: State, i: nat, neu: Item) {
    && Inv(inp, s, i) && CapsFollow(inp, s) && Good(inp, i + 1) && Desc(inp, i) == Some(neu)
    && neu.key in s.flows && ScanOk(s.bufs, inp.offset, i, neu, s.flows[neu.key])
  }

  /** The packets that a list of items hold, item by item. */
  function HeldIn(parts: seq<seq<nat>>, items: seq<Item>): (groups: seq<seq<nat>>)
    ensures |groups| == |items|
  {
    seq(|items|, j requires 0 <= j < |items| =>
      if items[j].bufsIndex < |parts| then parts[items[j].bufsIndex] else [])
  }

  lemma ItemFacts(inp: Input, s: State, i: nat, neu: Item, j: nat)
    requires InFlow(inp, s, i, neu) && j < |s.flows[neu.key]|
    ensures i < |s.bufs| == |s.parts| && i < TWO16 && s.bufs[i] == inp.bufs[i] && inp.offset <= |s.bufs[i].data|
    ensures s.bufs[i].data[inp.offset..] == Pkt(inp, i) && Describes(neu, Pkt(inp, i))
    ensures var item, ps := s.flows[neu.key][j], HeldIn(s.parts, s.flows[neu.key])[j];
            && item.bufsIndex < i && Fits(item, s.bufs, inp.offset) && item.key == neu.key && Shaped(item)
            && item.TcpItem? == neu.TcpItem? && ps == s.parts[item.bufsIndex] && ps != []
            && |ps| == item.numMerged as int + 1 && ps[0] < |inp.bufs|
            && Holds(inp, item, ps, s.bufs[item.bufsIndex].data) && |s.bufs[item.bufsIndex].data| <= 0xffff
            && s.bufs[item.bufsIndex].cap == inp.bufs[ps[0]].cap
  {
    hide Inv, Desc, Good, ScanOk, Pkt, Holds, Capacities, ChecksumValid;
    StepReady(inp, s, i);
    InvSizes(inp, s, i);
    SmallIndex(inp, i);
    FlowItem(inp, s, i, neu.key, j);
    var item := s.flows[neu.key][j];
    HoldsParts(inp, item, s.parts[item.bufsIndex], s.bufs[item.bufsIndex].data);
  }

  lemma TcpItemFate(inp: Input, s: State, i: nat, neu: Item, j: nat)
    requires InFlow(inp, s, i, neu) && neu.TcpItem? && j < |s.flows[neu.key]|
    ensures i < |s.bufs| && s.flows[neu.key][j].bufsIndex < i && s.flows[neu.key][j].TcpItem?
    ensures var item, ps := s.flows[neu.key][j], HeldIn(s.parts, s.flows[neu.key])[j];
            && Fits(item, s.bufs, inp.offset) && inp.offset <= |s.bufs[i].data| && neu.iphLen == item.iphLen
            && neu.HdrLen() <= |s.bufs[i].data[inp.offset..]| && 20 <= neu.tcphLen
            && var pkt, target := s.bufs[i].data[inp.offset..], s.bufs[item.bufsIndex].data[inp.offset..];
               var can := TcpPacketsCanCoalesce(pkt, neu, item, target);
               && (can == Unavailable ==> TcpFate(inp, ps, i) == Passed)
               && (can != Unavailable ==>
                     && inp.offset + item.HdrLen() <= |s.bufs[i].data|
                     && ComesTo(can, CoalesceTcpPackets(can, i, neu, item, s.bufs, inp.offset).result,
                          TcpFate(inp, ps, i))
                     && (can == Prepend <==> Precedes(inp, ps, i)))
  {
    hide Inv, CapsFollow, Desc, Good, Holds, ScanOk, TcpPacketsCanCoalesce, ChecksumValid, Room, RightSum, Follows,
        Precedes, Pkt, Joined, HeldIn;
    ItemFacts(inp, s, i, neu, j);
    var item, ps := s.flows[neu.key][j], HeldIn(s.parts, s.flows[neu.key])[j];
    var data := s.bufs[item.bufsIndex].data;
    InFlowIs(inp, s, i, neu);
    TcpCompares(inp, item, ps, data, i, neu);
    if TcpPacketsCanCoalesce(Pkt(inp, i), neu, item, data[inp.offset..]) != Unavailable {
      MergeTerms(inp, item, ps, data, i, neu);
      NoPshInFront(inp, ps, i);
    }
  }

  lemma InFlowIs(inp: Input, s: State, i: nat, neu: Item)
    requires InFlow(inp, s, i, neu)
    ensures Good(inp, i + 1) && Desc(inp, i) == Some(neu) && neu.key in s.flows && i < |inp.bufs|
  {
    hide Inv, Desc, CapsFollow, ScanOk, Pkt;
  }

  lemma UdpItemFate(inp: Input, s: State, i: nat, neu: Item)
    requires InFlow(inp, s, i, neu) && neu.UdpItem? && s.flows[neu.key] != []
    ensures i < |s.bufs| == |s.parts|
    ensures var items := s.flows[neu.key];
            var last := items[|items| - 1];
            var scan := UdpScan(s.bufs, inp.offset, i, neu, items);
            && last.bufsIndex < i
            && if UdpTaken(inp, HeldIn(s.parts, items)[|items| - 1], i) then
                 && scan.verdict == Appended(last.bufsIndex)
                 && |scan.items| == |items| && scan.items[|items| - 1].bufsIndex == last.bufsIndex
                 && scan.items[..|items| - 1] == items[..|items| - 1]
               else
                 && scan.verdict == Inserted
                 && |scan.items| == |items| + 1
                 && scan.items[|items|]
                    == neu.(cSumKnownInvalid := UdpRefused(inp, HeldIn(s.parts, items)[|items| - 1], i))
                 && scan.items[..|items|] == items
  {
    hide Inv, CapsFollow, Desc, Good, Holds, ScanOk, ChecksumValid, Room, RightSum, Joins, Pkt, Joined, HeldIn,
        UdpPacketsCanCoalesce;
    var items := s.flows[neu.key];
    ItemFacts(inp, s, i, neu, |items| - 1);
    var item, ps := items[|items| - 1], HeldIn(s.parts, items)[|items| - 1];
    var data := s.bufs[item.bufsIndex].data;
    InFlowIs(inp, s, i, neu);
    CandidateFields(inp, i);
    UdpCompares(inp, item, ps, data, i, neu);
    MergeTerms(inp, item, ps, data, i, neu);
    if item.cSumKnownInvalid {
      Sooner(inp, i);
      KnownInvalid(inp, item, ps, data);
    }
  }

  /** The comparison of UDP packets, exactly. */
  lemma UdpCompares(inp: Input, item: Item, ps: seq<nat>, data: seq<byte>, i: nat, neu: Item)
    requires Holds(inp, item, ps, data) && Good(inp, i + 1) && Desc(inp, i) == Some(neu) && neu.key == item.key
    requires neu.UdpItem? && item.UdpItem? && Describes(neu, Pkt(inp, i)) && |data| <= 0xffff && Shaped(item)
    ensures inp.offset <= |data| && item.HdrLen() <= |data[inp.offset..]| && neu.HdrLen() == item.HdrLen()
    ensures UdpPacketsCanCoalesce(Pkt(inp, i), neu, item, data[inp.offset..]) == Append <==> Joins(inp, ps, i)
  {
    hide Desc, Holds, Joined, IpHeadersCanCoalesce, Good, Alike, AllWhole, Pkt, Times;
    Sooner(inp, i);
    HeadersCompare(inp, item, ps, data, i, neu);
    HeldSizes(inp, item, ps, data);
    Lengths(inp, item, ps, data);
  }

  lemma KnownInvalid(inp: Input, item: Item, ps: seq<nat>, data: seq<byte>)
    requires Holds(inp, item, ps, data) && item.UdpItem? && item.cSumKnownInvalid && Good(inp, 0)
    requires inp.offset <= |data| && item.iphLen as nat <= |data[inp.offset..]|
    requires |data[inp.offset..]| >= if item.key.isV6 then 40 else 20
    ensures |ps| == 1 && !ChecksumValid(data[inp.offset..], item.iphLen, PROTO_UDP, item.key.isV6)
  {
    hide Desc, ChecksumValid, Pkt, Joined;
    HoldsParts(inp, item, ps, data);
    assert ps == [ps[0]];
    Unmerged(inp, item, ps[0], data);
  }

  lemma NoPshInFront(inp: Input, ps: seq<nat>, i: nat)
    ensures Precedes(inp, ps, i) ==> Desc(inp, i).Some? && !Psh(ItemOf(inp, i))
  {
    hide Desc, Alike;
  }

  lemma SmallIndex(inp: Input, i: nat)
    requires Good(inp, i + 1)
    ensures i < TWO16 && i < |inp.bufs|
  {
  }
}
