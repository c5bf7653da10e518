/**
 The item invariant: what a buffer that GRO has merged packets into holds, in terms of the
 original packets, and that every append and prepend keeps it.
 */
module GroItem {
  import opened Arithmetic
  import opened Bytes
  import opened Options
  import opened Packet
  import opened Gro

  /** A batch as handed to handleGRO. */
  datatype Input = Input(bufs: seq<Buf>, offset: nat, canUdpGro: bool)

  /** Capacities fit 16 bits, and the first n packets pass the offset check. */
  predicate Good(inp: Input, n: nat) {
    && n <= |inp.bufs| <= TWO16
    && VIRTIO_NET_HDR_LEN <= inp.offset
    && (forall k :: 0 <= k < |inp.bufs| ==> |inp.bufs[k].data| <= inp.bufs[k].cap <= 0xffff)
    && (forall k :: 0 <= k < n ==> inp.offset < |inp.bufs[k].data|)
  }

  function Pkt(inp: Input, p: nat): seq<byte> {
    if p < |inp.bufs| && inp.offset <= |inp.bufs[p].data| then inp.bufs[p].data[inp.offset..] else []
  }

  /** The item original packet p would be stored as, were it the first of its flow. */
  function Desc(inp: Input, p: nat): Option<Item> {
    Classify(Pkt(inp, p), inp.canUdpGro, p)
  }

  lemma Described(inp: Input, p: nat)
    requires Desc(inp, p).Some?
    ensures p < |inp.bufs|
  {
  }

  /** Original packet p has item's key and header length, and agrees with packet first on the kept bytes. */
  ghost predicate Member(inp: Input, item: Item, first: nat, p: nat) {
    && p < |inp.bufs|
    && Desc(inp, p).Some?
    && var d := Desc(inp, p).value;
       && d.key == item.key
       && d.TcpItem? == item.TcpItem?
       && d.iphLen == item.iphLen
       && d.HdrLen() == item.HdrLen() == |Pkt(inp, p)| - d.gsoSize
       && Shaped(item)
       && HeadersAgree(item.TcpItem?, item.key.isV6, item.HdrLen(), Pkt(inp, p), Pkt(inp, first))
  }

  predicate Shaped(item: Item) {
    && item.TcpItem? == item.key.TcpKey?
    && item.iphLen == (if item.key.isV6 then 40 else 20)
    && (item.TcpItem? ==> 20 <= item.tcphLen <= 60)
    && item.gsoSize >= 1
  }

  ghost predicate Members(inp: Input, item: Item, ps: seq<nat>) {
    ps != [] && forall j :: 0 <= j < |ps| ==> Member(inp, item, ps[0], ps[j])
  }

  function PayloadLen(inp: Input, item: Item, p: nat): int {
    |Pkt(inp, p)| - item.HdrLen()
  }

  /** All payloads have the segment size, but for a last one that may be shorter. */
  ghost predicate Sized(inp: Input, item: Item, ps: seq<nat>)
    requires ps != []
  {
    && (forall j :: 0 <= j < |ps| - 1 ==> PayloadLen(inp, item, ps[j]) == item.gsoSize)
    && 1 <= PayloadLen(inp, item, ps[|ps| - 1]) <= item.gsoSize
  }

  /** The sequence number of segment j of a stream that starts at seq: 32-bit arithmetic. */
  function SeqAt(start: u32, j: nat, gsoSize: nat): u32 {
    U32(start + j * gsoSize)
  }

  /** TCP sequence numbers run contiguously, modulo 2^32, from the item's. */
  ghost predicate Sequenced(inp: Input, item: Item, ps: seq<nat>)
    requires item.TcpItem? && Members(inp, item, ps)
  {
    forall j :: 0 <= j < |ps| ==> Desc(inp, ps[j]).value.sentSeq == SeqAt(item.sentSeq, j, item.gsoSize)
  }

  predicate Psh(item: Item) {
    item.TcpItem? && item.pshSet
  }

  /** PSH is set on the last packet exactly when the item says so, and on no other. */
  ghost predicate PshOnLast(inp: Input, item: Item, ps: seq<nat>)
    requires item.TcpItem? && Members(inp, item, ps)
  {
    && (forall j :: 0 <= j < |ps| - 1 ==> !Desc(inp, ps[j]).value.pshSet)
    && Desc(inp, ps[|ps| - 1]).value.pshSet == item.pshSet
  }

  ghost predicate AllValid(inp: Input, item: Item, ps: seq<nat>)
    requires Members(inp, item, ps)
  {
    forall j :: 0 <= j < |ps| ==> ChecksumValid(Pkt(inp, ps[j]), item.iphLen, item.Proto(), item.key.isV6)
  }

  /** The payloads of ps, in order. */
  function Joined(inp: Input, hdrLen: nat, ps: seq<nat>): seq<byte> {
    if ps == [] then []
    else (if hdrLen <= |Pkt(inp, ps[0])| then Pkt(inp, ps[0])[hdrLen..] else []) + Joined(inp, hdrLen, ps[1..])
  }

  /** The PSH a merged TCP header shows: lost when a packet was prepended to one that has it. */
  predicate PshShown(item: Item, ps: seq<nat>)
    requires ps != [] && item.TcpItem?
  {
    item.pshSet && ps[0] <= ps[|ps| - 1]
  }

  /** The first packet's headers, with the flags of the merged packet. */
  function Head(inp: Input, item: Item, ps: seq<nat>): seq<byte>
    requires ps != [] && Shaped(item) && item.HdrLen() <= |Pkt(inp, ps[0])|
  {
    var h := Pkt(inp, ps[0])[..item.HdrLen()];
    if item.TcpItem? then
      h[item.iphLen + TCP_FLAGS_OFFSET := if PshShown(item, ps) then FLAG_ACK + FLAG_PSH else FLAG_ACK]
    else h
  }

  /** The contents of a merged buffer. */
  function Merged(inp: Input, item: Item, ps: seq<nat>): seq<byte>
    requires ps != [] && Shaped(item) && item.HdrLen() <= |Pkt(inp, ps[0])|
  {
    inp.bufs[ps[0]].data[..inp.offset] + Head(inp, item, ps) + Joined(inp, item.HdrLen(), ps)
  }

  /** The item invariant: item's buffer holds exactly the original packets ps, in stream order. */
  ghost predicate Holds(inp: Input, item: Item, ps: seq<nat>, data: seq<byte>) {
    && Members(inp, item, ps)
    && |ps| == item.numMerged as int + 1
    && Sized(inp, item, ps)
    && (|ps| == 1 ==> PayloadLen(inp, item, ps[0]) == item.gsoSize)
    && (item.TcpItem? ==> Sequenced(inp, item, ps) && PshOnLast(inp, item, ps))
    && (|ps| > 1 ==> AllValid(inp, item, ps))
    && (item.UdpItem? && item.cSumKnownInvalid ==>
          !ChecksumValid(Pkt(inp, ps[0]), item.iphLen, PROTO_UDP, item.key.isV6))
    && data == Merged(inp, item, ps)
  }

  // ---- arithmetic of segment sizes ----------------------------------------------------

  lemma {:induction false} JoinedLength(inp: Input, item: Item, ps: seq<nat>)
    requires ps != [] && Sized(inp, item, ps)
    ensures |Joined(inp, item.HdrLen(), ps)| == (|ps| - 1) * item.gsoSize + PayloadLen(inp, item, ps[|ps| - 1])
  {
    hide Pkt;
    if |ps| == 1 {
      assert Joined(inp, item.HdrLen(), ps[1..]) == [];
    } else {
      JoinedLength(inp, item, ps[1..]);
      Distribute(|ps| - 2, item.gsoSize);
    }
  }

  lemma {:induction false} JoinedAppend(inp: Input, hdrLen: nat, ps: seq<nat>, p: nat)
    requires hdrLen <= |Pkt(inp, p)|
    ensures Joined(inp, hdrLen, ps + [p]) == Joined(inp, hdrLen, ps) + Pkt(inp, p)[hdrLen..]
  {
    hide Pkt;
    if ps == [] {
      assert Joined(inp, hdrLen, [p][1..]) == [];
      assert ps + [p] == [p];
    } else {
      JoinedAppend(inp, hdrLen, ps[1..], p);
      assert (ps + [p])[1..] == ps[1..] + [p];
    }
  }

  /** The 16-bit length used to align an appended packet is the true length, without wrap-around. */
  lemma LhsLenExact(item: Item, total: nat)
    requires total == (item.numMerged + 1) * item.gsoSize && total <= 0xffff
    ensures LhsLen(item) == total
  {
  }

  lemma Wraps(x: int, y: int, q: int)
    requires x == y + q * TWO32
    ensures U32(x) == U32(y)
  {
  }

  /** Prepending one segment shifts every other segment's index by one. */
  lemma SeqShift(start: u32, neu: u32, j: nat, g: nat)
    requires U32(neu + g) == start
    ensures SeqAt(start, j, g) == SeqAt(neu, j + 1, g)
  {
    Distribute(j, g);
    Wraps(neu + (j + 1) * g, start + j * g, (neu + g) / TWO32);
  }

  // ---- what the invariant says of the buffer ------------------------------------------

  /** The merged packet: the first packet's headers, flags aside, then the payloads. */
  lemma MergedPacket(inp: Input, item: Item, ps: seq<nat>, data: seq<byte>)
    requires Holds(inp, item, ps, data) && Good(inp, 0)
    ensures |data| == inp.offset + item.HdrLen() + |Joined(inp, item.HdrLen(), ps)|
    ensures data[inp.offset..] == Head(inp, item, ps) + Joined(inp, item.HdrLen(), ps)
    ensures data[..inp.offset] == inp.bufs[ps[0]].data[..inp.offset]
    ensures forall pos :: 0 <= pos < item.HdrLen() && (item.TcpItem? ==> pos != item.iphLen + TCP_FLAGS_OFFSET) ==>
              data[inp.offset..][pos] == Pkt(inp, ps[0])[pos]
  {
    hide Joined, Classify, HeadersAgree, Sized, Sequenced, PshOnLast, AllValid, ChecksumValid, PshShown;
    assert Member(inp, item, ps[0], ps[0]);
    assert |inp.bufs[ps[0]].data[..inp.offset]| == inp.offset;
  }

  /** The comparison reads only header bytes that merging keeps. */
  lemma SameHeaders(pkt: seq<byte>, a: seq<byte>, b: seq<byte>, iphLen: nat, hl: nat)
    requires 20 <= iphLen && iphLen + 8 <= hl <= |a| && hl <= |b|
    requires forall k :: 0 <= k < hl && k != iphLen + TCP_FLAGS_OFFSET ==> a[k] == b[k]
    ensures IpHeadersCanCoalesce(pkt, a) == IpHeadersCanCoalesce(pkt, b)
    ensures iphLen + 20 <= hl ==> a[iphLen + 20..hl] == b[iphLen + 20..hl]
  {
  }

  lemma WholePacket(inp: Input, p: nat, hl: nat)
    requires p < |inp.bufs| && inp.offset <= |inp.bufs[p].data| && hl <= |Pkt(inp, p)|
    ensures inp.bufs[p].data == inp.bufs[p].data[..inp.offset] + Pkt(inp, p)[..hl] + Joined(inp, hl, [p])
    ensures inp.bufs[p].data[inp.offset..] == Pkt(inp, p)
  {
  }

  /** A buffer that nothing was merged into is the original one. */
  lemma Unmerged(inp: Input, item: Item, p: nat, data: seq<byte>)
    requires Holds(inp, item, [p], data) && Good(inp, 0)
    ensures data == inp.bufs[p].data && data[inp.offset..] == Pkt(inp, p)
  {
    hide Classify, HeadersAgree, Joined, ChecksumValid, LengthMatches;
    assert Member(inp, item, p, p);
    ClassifiedHeaders(Pkt(inp, p), inp.canUdpGro, p);
    WholePacket(inp, p, item.HdrLen());
    assert Head(inp, item, [p]) == Pkt(inp, p)[..item.HdrLen()];
  }

  /** A packet entering the table starts an item that holds it alone. */
  lemma ItemInserted(inp: Input, i: nat)
    requires Good(inp, i + 1) && Desc(inp, i).Some?
    ensures Holds(inp, Desc(inp, i).value, [i], inp.bufs[i].data)
    ensures Desc(inp, i).value.bufsIndex == i && Desc(inp, i).value.numMerged == 0
  {
    hide *;
    var item := Desc(inp, i).value;
    Sooner(inp, i);
    Alone(inp, i);
    InsertedFacts(inp, i);
    WholePacket(inp, i, item.HdrLen());
    HoldsAlone(inp, item, i, inp.bufs[i].data);
  }

  lemma InsertedFacts(inp: Input, i: nat)
    requires Good(inp, i + 1) && Desc(inp, i).Some?
    ensures var item := Desc(inp, i).value;
            && item.bufsIndex == i && item.numMerged == 0 && Shaped(item) && (item.UdpItem? ==> !item.cSumKnownInvalid)
            && i < |inp.bufs| && inp.offset <= |inp.bufs[i].data|
            && item.HdrLen() <= |Pkt(inp, i)| && PayloadLen(inp, item, i) == item.gsoSize >= 1
            && Head(inp, item, [i]) == Pkt(inp, i)[..item.HdrLen()]
  {
    hide Classify, LengthMatches, NewTcpFlowKey, NewUdpFlowKey;
    var item := Desc(inp, i).value;
    Classified(Pkt(inp, i), inp.canUdpGro, i);
    ClassifiedHeaders(Pkt(inp, i), inp.canUdpGro, i);
  }

  lemma Alone(inp: Input, i: nat)
    requires Good(inp, i + 1) && Desc(inp, i).Some?
    ensures Members(inp, Desc(inp, i).value, [i])
  {
    hide Classify, LengthMatches, NewTcpFlowKey, NewUdpFlowKey;
    Classified(Pkt(inp, i), inp.canUdpGro, i);
  }

  lemma HoldsAlone(inp: Input, item: Item, i: nat, data: seq<byte>)
    requires Members(inp, item, [i]) && Desc(inp, i) == Some(item) && item.numMerged == 0
        && (item.UdpItem? ==> !item.cSumKnownInvalid)
    requires i < |inp.bufs| && Shaped(item) && item.HdrLen() <= |Pkt(inp, i)|
        && PayloadLen(inp, item, i) == item.gsoSize >= 1
    requires inp.offset <= |inp.bufs[i].data| && Head(inp, item, [i]) == Pkt(inp, i)[..item.HdrLen()]
    requires data == inp.bufs[i].data[..inp.offset] + Pkt(inp, i)[..item.HdrLen()] + Joined(inp, item.HdrLen(), [i])
    ensures Holds(inp, item, [i], data)
  {
    hide Member, Classify, Head, Joined, ChecksumValid, Desc;
    if item.TcpItem? {
      SeqStart(item.sentSeq, item.gsoSize);
    }
  }

  // ---- appends and prepends -----------------------------------------------------------

  /** A packet that passed the header comparison against an item's buffer is a member of the item. */
  lemma NewMember(inp: Input, item: Item, ps: seq<nat>, data: seq<byte>, i: nat)
    requires Holds(inp, item, ps, data) && Good(inp, i + 1) && Desc(inp, i).Some?
    requires var neu, target, pkt := Desc(inp, i).value, data[inp.offset..], Pkt(inp, i);
             && neu.key == item.key && neu.HdrLen() == item.HdrLen() <= |target|
             && (neu.TcpItem? ==>
                   && neu.iphLen + 20 <= neu.HdrLen() <= |pkt|
                   && pkt[neu.iphLen + 20..neu.HdrLen()] == target[neu.iphLen + 20..neu.HdrLen()])
             && IpHeadersCanCoalesce(pkt, target)
    ensures Member(inp, item, ps[0], i)
  {
    hide Classify, HeadersAgree, Joined, ChecksumValid, Head, Sized, Sequenced, PshOnLast, AllValid;
    var pkt, first, target, neu := Pkt(inp, i), Pkt(inp, ps[0]), data[inp.offset..], Desc(inp, i).value;
    Classified(pkt, inp.canUdpGro, i);
    assert Member(inp, item, ps[0], ps[0]);
    MergedPacket(inp, item, ps, data);
    assert IpHeadersCanCoalesce(pkt, first);
    if neu.TcpItem? {
      assert first[neu.iphLen + 20..neu.HdrLen()] == target[neu.iphLen + 20..neu.HdrLen()];
    }
    SameFlowAgrees(pkt, first, inp.canUdpGro, i, ps[0]);
  }

  /** Two items of one flow whose packets have the same headers. */
  predicate SameKind(item: Item, other: Item) {
    && item.key == other.key && item.TcpItem? == other.TcpItem?
    && item.iphLen == other.iphLen && item.HdrLen() == other.HdrLen()
    && Shaped(item) && Shaped(other)
  }

  lemma MembersExtend(inp: Input, item: Item, grown: Item, ps: seq<nat>, i: nat)
    requires Members(inp, item, ps) && Member(inp, item, ps[0], i) && SameKind(item, grown)
    ensures Members(inp, grown, ps + [i]) && Members(inp, grown, [i] + ps)
  {
    hide Desc, Stable, Shaped;
    var q := ps + [i];
    forall j | 0 <= j < |q|
      ensures Member(inp, grown, q[0], q[j])
    {
      assert Member(inp, item, ps[0], q[j]);
    }
    var r := [i] + ps;
    forall j | 0 <= j < |r|
      ensures Member(inp, grown, i, r[j])
    {
      assert Member(inp, item, ps[0], r[j]);
    }
  }

  lemma HoldsParts(inp: Input, item: Item, ps: seq<nat>, data: seq<byte>)
    requires Holds(inp, item, ps, data)
    ensures ps != [] && Members(inp, item, ps) && |ps| == item.numMerged as int + 1 && Sized(inp, item, ps)
    ensures item.TcpItem? ==> Sequenced(inp, item, ps) && PshOnLast(inp, item, ps)
    ensures item.HdrLen() <= |Pkt(inp, ps[0])| && Shaped(item) && ps[0] < |inp.bufs| && data == Merged(inp, item, ps)
    ensures |ps| > 1 ==> AllValid(inp, item, ps)
    ensures item.UdpItem? && |ps| > 1 ==> !item.cSumKnownInvalid
  {
    hide Classify, HeadersAgree, Sequenced, PshOnLast, Sized, Joined, Head, ChecksumValid;
    assert Member(inp, item, ps[0], ps[0]);
  }

  lemma NotEmpty(inp: Input, item: Item, ps: seq<nat>, data: seq<byte>)
    requires Holds(inp, item, ps, data)
    ensures ps != []
  {
  }

  lemma PayloadsCount(inp: Input, item: Item, ps: seq<nat>, data: seq<byte>)
    requires Holds(inp, item, ps, data) && Good(inp, 0)
    ensures |data| == inp.offset + item.HdrLen() + Times(item.numMerged, item.gsoSize)
        + PayloadLen(inp, item, ps[|ps| - 1])
    ensures item.numMerged < |data|
    ensures 1 <= PayloadLen(inp, item, ps[|ps| - 1]) <= item.gsoSize
  {
    hide Classify, Member, Joined, ChecksumValid, Head, Sequenced, PshOnLast, AllValid;
    JoinedLength(inp, item, ps);
    MergedPacket(inp, item, ps, data);
    Factor(item.numMerged, 0, item.gsoSize);
    AtLeast(item.numMerged, item.gsoSize);
  }

  /** An append is allowed only after a last segment of full size. */
  lemma LastIsFull(inp: Input, item: Item, ps: seq<nat>, data: seq<byte>)
    requires Holds(inp, item, ps, data) && Good(inp, 0)
    requires inp.offset <= |data| && item.HdrLen() <= |data[inp.offset..]|
        && Multiple(|data[inp.offset..]| - item.HdrLen(), item.gsoSize)
    ensures PayloadLen(inp, item, ps[|ps| - 1]) == item.gsoSize
    ensures |data| == inp.offset + item.HdrLen() + Times(item.numMerged as int + 1, item.gsoSize)
  {
    hide *;
    NotEmpty(inp, item, ps, data);
    PayloadsCount(inp, item, ps, data);
    WholeTotal(|data[inp.offset..]| - item.HdrLen(), item.numMerged, item.gsoSize, PayloadLen(inp, item, ps[|ps| - 1]));
  }

  /** Once merged, every packet of an item has had its checksum verified. */
  lemma AllValidExtend(inp: Input, item: Item, grown: Item, ps: seq<nat>, data: seq<byte>, i: nat)
    requires Holds(inp, item, ps, data) && Good(inp, 0) && SameKind(item, grown)
    requires Members(inp, grown, ps + [i]) && Members(inp, grown, [i] + ps)
    requires |data[inp.offset..]| >= item.HdrLen() && item.HdrLen() <= |Pkt(inp, i)|
    requires item.numMerged == 0 ==> ChecksumValid(data[inp.offset..], item.iphLen, item.Proto(), item.key.isV6)
    requires ChecksumValid(Pkt(inp, i), item.iphLen, item.Proto(), item.key.isV6)
    ensures AllValid(inp, grown, ps + [i]) && AllValid(inp, grown, [i] + ps)
  {
    hide Classify, Member, Joined, ChecksumValid, Head, Sequenced, PshOnLast, Merged, Sized;
    if item.numMerged == 0 {
      assert ps == [ps[0]];
      Unmerged(inp, item, ps[0], data);
    }
  }

  /** What an append or prepend leaves to check. */
  lemma HoldsFromParts(inp: Input, grown: Item, ps: seq<nat>, data: seq<byte>)
    requires Members(inp, grown, ps) && |ps| == grown.numMerged as int + 1 && |ps| > 1 && Sized(inp, grown, ps)
    requires grown.TcpItem? ==> Sequenced(inp, grown, ps) && PshOnLast(inp, grown, ps)
    requires AllValid(inp, grown, ps)
    requires data == Merged(inp, grown, ps)
    requires grown.UdpItem? ==> !grown.cSumKnownInvalid
    ensures Holds(inp, grown, ps, data)
  {
  }

  /** The bytes a merged buffer gains at its end. */
  lemma MergedAppend(inp: Input, item: Item, grown: Item, ps: seq<nat>, i: nat)
    requires ps != [] && SameKind(item, grown) && Good(inp, 0)
    requires item.HdrLen() <= |Pkt(inp, ps[0])| && item.HdrLen() <= |Pkt(inp, i)|
    requires Head(inp, grown, ps + [i]) == Head(inp, item, ps)
    ensures Merged(inp, grown, ps + [i]) == Merged(inp, item, ps) + Pkt(inp, i)[item.HdrLen()..]
  {
    hide Head, Pkt;
    JoinedAppend(inp, item.HdrLen(), ps, i);
    assert (ps + [i])[0] == ps[0];
  }

  lemma FlagsOfClassified(inp: Input, i: nat)
    requires Desc(inp, i).Some? && Desc(inp, i).value.TcpItem? && i < TWO16
    ensures var d := Desc(inp, i).value;
            && d.iphLen as nat + TCP_FLAGS_OFFSET < |Pkt(inp, i)|
            && Pkt(inp, i)[d.iphLen + TCP_FLAGS_OFFSET] == if d.pshSet then FLAG_ACK + FLAG_PSH else FLAG_ACK
  {
  }

  /** A successful UDP append keeps the item invariant, with the new packet last. */
  lemma UdpAppended(inp: Input, item: Item, ps: seq<nat>, bufs: seq<Buf>, i: nat)
    requires item.UdpItem? && Fits(item, bufs, inp.offset) && i < |bufs| == |inp.bufs| && bufs[i] == inp.bufs[i]
    requires Holds(inp, item, ps, bufs[item.bufsIndex].data) && Good(inp, i + 1)
        && |bufs[item.bufsIndex].data| <= 0xffff
    requires Desc(inp, i).Some? && Desc(inp, i).value.key == item.key
    requires UdpPacketsCanCoalesce(Pkt(inp, i), Desc(inp, i).value, item, bufs[item.bufsIndex].data[inp.offset..])
        == Append
    requires item.HdrLen() <= |Pkt(inp, i)|
    requires CoalesceUdpPackets(Pkt(inp, i), item, bufs, inp.offset).result.Success?
    ensures var c := CoalesceUdpPackets(Pkt(inp, i), item, bufs, inp.offset);
            && Holds(inp, c.item, ps + [i], c.bufs[item.bufsIndex].data)
            && c.item.key == item.key && c.item.bufsIndex == item.bufsIndex
            && |c.bufs[item.bufsIndex].data| <= c.bufs[item.bufsIndex].cap == bufs[item.bufsIndex].cap
            && c.bufs == bufs[item.bufsIndex := c.bufs[item.bufsIndex]]
  {
    hide *;
    UdpAppendFacts(inp, item, bufs, i);
    var data, neu := bufs[item.bufsIndex].data, Desc(inp, i).value;
    var c := CoalesceUdpPackets(Pkt(inp, i), item, bufs, inp.offset);
    HoldsParts(inp, item, ps, data);
    Sooner(inp, i);
    NewMember(inp, item, ps, data, i);
    LastIsFull(inp, item, ps, data);
    PayloadsCount(inp, item, ps, data);
    Increments(item.numMerged, |data|);
    MembersExtend(inp, item, c.item, ps, i);
    AllValidExtend(inp, item, c.item, ps, data, i);
    AppendSized(inp, item, c.item, ps, i);
    SameHead(inp, item, c.item, ps, i);
    MergedAppend(inp, item, c.item, ps, i);
    HoldsFromParts(inp, c.item, ps + [i], c.bufs[item.bufsIndex].data);
  }

  lemma Sooner(inp: Input, i: nat)
    requires Good(inp, i + 1)
    ensures Good(inp, 0) && i < TWO16
  {
  }

  lemma Increments(n: u16, len: nat)
    requires n < len <= 0xffff
    ensures U16(n + 1) == n + 1
  {
  }

  lemma SameHead(inp: Input, item: Item, grown: Item, ps: seq<nat>, i: nat)
    requires ps != [] && SameKind(item, grown) && item.UdpItem? && item.HdrLen() <= |Pkt(inp, ps[0])|
    ensures Head(inp, grown, ps + [i]) == Head(inp, item, ps)
  {
  }

  /** What a successful UDP append has checked, and what it has done. */
  lemma UdpAppendFacts(inp: Input, item: Item, bufs: seq<Buf>, i: nat)
    requires item.UdpItem? && Fits(item, bufs, inp.offset) && i < |bufs| == |inp.bufs| && Good(inp, i + 1)
    requires Desc(inp, i).Some? && Desc(inp, i).value.key == item.key
    requires item.HdrLen() <= |Pkt(inp, i)|
    requires UdpPacketsCanCoalesce(Pkt(inp, i), Desc(inp, i).value, item, bufs[item.bufsIndex].data[inp.offset..])
        == Append
    requires CoalesceUdpPackets(Pkt(inp, i), item, bufs, inp.offset).result.Success?
    ensures item.bufsIndex < |bufs| && inp.offset <= |bufs[item.bufsIndex].data|
    ensures var c, data, pkt := CoalesceUdpPackets(Pkt(inp, i), item, bufs, inp.offset), bufs[item.bufsIndex].data,
        Pkt(inp, i);
            var neu := Desc(inp, i).value;
            && c.item == UdpItem(item.key, item.bufsIndex, U16(item.numMerged + 1), item.gsoSize, item.iphLen,
                 c.item.cSumKnownInvalid)
            && SameKind(item, c.item) && c.item.HdrLen() == item.HdrLen()
            && !neu.TcpItem? && neu.HdrLen() == item.HdrLen() <= |data[inp.offset..]| == |data| - inp.offset
            && IpHeadersCanCoalesce(pkt, data[inp.offset..])
               && Multiple(|data[inp.offset..]| - item.HdrLen(), item.gsoSize)
            && 1 <= PayloadLen(inp, item, i) <= item.gsoSize
            && (item.numMerged == 0 ==>
                 !c.item.cSumKnownInvalid && ChecksumValid(data[inp.offset..], item.iphLen, item.Proto(),
                item.key.isV6))
            && ChecksumValid(pkt, item.iphLen, item.Proto(), item.key.isV6)
            && c.item.cSumKnownInvalid == item.cSumKnownInvalid
            && |data| + |pkt[item.HdrLen()..]| <= bufs[item.bufsIndex].cap
            && c.bufs == bufs[item.bufsIndex := Buf(data + pkt[item.HdrLen()..], bufs[item.bufsIndex].cap)]
  {
    hide Classify, ChecksumValid, IpHeadersCanCoalesce;
    Classified(Pkt(inp, i), inp.canUdpGro, i);
  }

  /** The sequence number an appended packet must have continues the item's stream. */
  lemma AppendSequenced(inp: Input, item: Item, grown: Item, ps: seq<nat>, i: nat)
    requires item.TcpItem? && grown.TcpItem? && Members(inp, item, ps) && Members(inp, grown, ps + [i])
    requires Sequenced(inp, item, ps) && grown.sentSeq == item.sentSeq && grown.gsoSize == item.gsoSize
    requires |ps| == item.numMerged as int + 1 && Times(item.numMerged as int + 1, item.gsoSize) <= 0xffff
    requires Desc(inp, i).Some? && Desc(inp, i).value.TcpItem?
    requires Desc(inp, i).value.sentSeq == U32(item.sentSeq + LhsLen(item))
    ensures Sequenced(inp, grown, ps + [i])
  {
    hide Desc, Member, SeqAt, LhsLen;
    LhsLenExact(item, (item.numMerged + 1) * item.gsoSize);
    AppendedSeq(item);
    var q := ps + [i];
    forall j | 0 <= j < |q|
      ensures Desc(inp, q[j]).Some? && Desc(inp, q[j]).value.TcpItem?
      ensures Desc(inp, q[j]).value.sentSeq == SeqAt(grown.sentSeq, j, grown.gsoSize)
    {
      assert Member(inp, grown, q[0], q[j]);
      MemberIsTcp(inp, grown, q[0], q[j]);
      if j < |ps| {
        assert q[j] == ps[j];
      }
    }
  }

  lemma AppendedSeq(item: Item)
    requires item.TcpItem? && LhsLen(item) == (item.numMerged + 1) * item.gsoSize
    ensures U32(item.sentSeq + LhsLen(item)) == SeqAt(item.sentSeq, item.numMerged + 1, item.gsoSize)
  {
  }

  lemma MemberIsTcp(inp: Input, item: Item, first: nat, p: nat)
    requires Member(inp, item, first, p) && item.TcpItem?
    ensures Desc(inp, p).Some? && Desc(inp, p).value.TcpItem?
  {
  }

  lemma AppendedFlags(inp: Input, item: Item, grown: Item, ps: seq<nat>, i: nat)
    requires item.TcpItem? && SameKind(item, grown) && ps != [] && ps[0] < i && !item.pshSet
        && item.HdrLen() <= |Pkt(inp, ps[0])|
    ensures var h, at := Head(inp, item, ps), item.iphLen as nat + TCP_FLAGS_OFFSET;
            && at < |h| == item.HdrLen()
            && Head(inp, grown, ps + [i]) == if grown.pshSet then h[at := WithPsh(h[at])] else h
  {
  }

  lemma UpdateMiddle(a: seq<byte>, h: seq<byte>, b: seq<byte>, at: nat, v: byte)
    requires at < |h|
    ensures (a + h + b)[|a| + at] == h[at] && (a + h + b)[|a| + at := v] == a + h[at := v] + b
  {
  }

  lemma AppendedHead(inp: Input, item: Item, grown: Item, ps: seq<nat>, i: nat)
    requires item.TcpItem? && SameKind(item, grown) && Good(inp, 0) && ps != [] && ps[0] < i
    requires !item.pshSet && item.HdrLen() <= |Pkt(inp, ps[0])|
    requires ps[0] < |inp.bufs| && inp.offset <= |inp.bufs[ps[0]].data|
    ensures var at := inp.offset + item.iphLen + TCP_FLAGS_OFFSET;
            var before, after := Merged(inp, item, ps),
                inp.bufs[ps[0]].data[..inp.offset] + Head(inp, grown, ps + [i]) + Joined(inp, item.HdrLen(), ps);
            && at < |before|
            && after == if grown.pshSet then before[at := WithPsh(before[at])] else before
  {
    hide Joined, Head, Pkt, Good, WithPsh;
    AppendedFlags(inp, item, grown, ps, i);
    var h, at := Head(inp, item, ps), item.iphLen as nat + TCP_FLAGS_OFFSET;
    UpdateMiddle(inp.bufs[ps[0]].data[..inp.offset], h, Joined(inp, item.HdrLen(), ps), at, WithPsh(h[at]));
  }

  lemma MergedTcpAppend(inp: Input, item: Item, grown: Item, ps: seq<nat>, i: nat)
    requires item.TcpItem? && SameKind(item, grown) && Good(inp, 0) && ps != [] && ps[0] < i
    requires !item.pshSet && item.HdrLen() <= |Pkt(inp, ps[0])| && item.HdrLen() <= |Pkt(inp, i)|
    requires ps[0] < |inp.bufs| && inp.offset <= |inp.bufs[ps[0]].data|
    ensures var at := inp.offset + item.iphLen + TCP_FLAGS_OFFSET;
            var before := Merged(inp, item, ps);
            && at < |before|
            && Merged(inp, grown, ps + [i])
               == (if grown.pshSet then before[at := WithPsh(before[at])] else before) + Pkt(inp, i)[item.HdrLen()..]
  {
    hide Head, Pkt;
    AppendedHead(inp, item, grown, ps, i);
    JoinedAppend(inp, item.HdrLen(), ps, i);
    assert (ps + [i])[0] == ps[0];
  }

  lemma PshAppended(inp: Input, item: Item, grown: Item, ps: seq<nat>, i: nat)
    requires item.TcpItem? && grown.TcpItem? && Members(inp, item, ps) && Members(inp, grown, ps + [i])
    requires PshOnLast(inp, item, ps) && !item.pshSet
    requires Desc(inp, i).Some? && Desc(inp, i).value.TcpItem? && grown.pshSet == Desc(inp, i).value.pshSet
    ensures PshOnLast(inp, grown, ps + [i])
  {
    hide Desc, Member;
    var q := ps + [i];
    forall j | 0 <= j < |q|
      ensures Desc(inp, q[j]).Some? && Desc(inp, q[j]).value.TcpItem?
      ensures j < |ps| ==> !Desc(inp, q[j]).value.pshSet
    {
      assert Member(inp, grown, q[0], q[j]);
      MemberIsTcp(inp, grown, q[0], q[j]);
      if j < |ps| {
        assert q[j] == ps[j];
      }
    }
  }

  /** What the comparison has established when it answers Append. */
  lemma AppendAllowed(pkt: seq<byte>, neu: Item, item: Item, target: seq<byte>)
    requires neu.TcpItem? && item.TcpItem? && item.gsoSize >= 1 && neu.iphLen == item.iphLen
    requires 20 <= neu.tcphLen && 20 <= item.tcphLen && neu.HdrLen() <= |pkt| && item.HdrLen() <= |target|
    requires TcpPacketsCanCoalesce(pkt, neu, item, target) == Append
    ensures neu.HdrLen() == item.HdrLen() && pkt[neu.iphLen + 20..neu.HdrLen()] == target[neu.iphLen + 20..neu.HdrLen()]
    ensures IpHeadersCanCoalesce(pkt, target)
    ensures neu.sentSeq == U32(item.sentSeq + LhsLen(item)) && !item.pshSet
    ensures Multiple(|target| - item.HdrLen(), item.gsoSize) && neu.gsoSize <= item.gsoSize
  {
    hide IpHeadersCanCoalesce, LhsLen;
  }

  /** A successful TCP append keeps the item invariant, with the new packet last. */
  lemma TcpAppended(inp: Input, item: Item, ps: seq<nat>, bufs: seq<Buf>, i: nat, neu: Item)
    requires item.TcpItem? && Fits(item, bufs, inp.offset) && i < |bufs| == |inp.bufs| && bufs[i] == inp.bufs[i]
    requires Holds(inp, item, ps, bufs[item.bufsIndex].data) && Good(inp, i + 1)
        && |bufs[item.bufsIndex].data| <= 0xffff
    requires ps[0] < i && Desc(inp, i) == Some(neu) && neu.key == item.key && neu.TcpItem?
    requires Describes(neu, Pkt(inp, i)) && item.HdrLen() <= |Pkt(inp, i)|
    requires TcpPacketsCanCoalesce(Pkt(inp, i), neu, item, bufs[item.bufsIndex].data[inp.offset..]) == Append
    requires CoalesceTcpPackets(Append, i, neu, item, bufs, inp.offset).result.Success?
    ensures var c := CoalesceTcpPackets(Append, i, neu, item, bufs, inp.offset);
            && Holds(inp, c.item, ps + [i], c.bufs[item.bufsIndex].data)
            && c.item.key == item.key && c.item.bufsIndex == item.bufsIndex
            && |c.bufs[item.bufsIndex].data| <= c.bufs[item.bufsIndex].cap == bufs[item.bufsIndex].cap
            && c.bufs == bufs[item.bufsIndex := c.bufs[item.bufsIndex]]
  {
    hide *;
    TcpAppendFacts(inp, item, bufs, i, neu);
    var data := bufs[item.bufsIndex].data;
    var c := CoalesceTcpPackets(Append, i, neu, item, bufs, inp.offset);
    HoldsParts(inp, item, ps, data);
    Sooner(inp, i);
    NewMember(inp, item, ps, data, i);
    LastIsFull(inp, item, ps, data);
    PayloadsCount(inp, item, ps, data);
    Increments(item.numMerged, |data|);
    MembersExtend(inp, item, c.item, ps, i);
    AllValidExtend(inp, item, c.item, ps, data, i);
    AppendSequenced(inp, item, c.item, ps, i);
    PshAppended(inp, item, c.item, ps, i);
    AppendSized(inp, item, c.item, ps, i);
    FirstPacket(inp, item, ps);
    MergedTcpAppend(inp, item, c.item, ps, i);
    HoldsFromParts(inp, c.item, ps + [i], c.bufs[item.bufsIndex].data);
  }

  /** What a successful TCP append has checked, and what it has done. */
  lemma TcpAppendFacts(inp: Input, item: Item, bufs: seq<Buf>, i: nat, neu: Item)
    requires item.TcpItem? && Fits(item, bufs, inp.offset) && i < |bufs| == |inp.bufs| && bufs[i] == inp.bufs[i]
        && Good(inp, i + 1)
    requires neu.key == item.key && neu.TcpItem? && Describes(neu, Pkt(inp, i)) && item.HdrLen() <= |Pkt(inp, i)|
    requires TcpPacketsCanCoalesce(Pkt(inp, i), neu, item, bufs[item.bufsIndex].data[inp.offset..]) == Append
    requires CoalesceTcpPackets(Append, i, neu, item, bufs, inp.offset).result.Success?
    ensures item.bufsIndex < |bufs| && inp.offset <= |bufs[item.bufsIndex].data|
        && inp.offset + item.HdrLen() <= |bufs[i].data|
    ensures var c, data, pkt := CoalesceTcpPackets(Append, i, neu, item, bufs, inp.offset), bufs[item.bufsIndex].data,
        Pkt(inp, i);
            var at, psh := inp.offset + item.iphLen + TCP_FLAGS_OFFSET, neu.pshSet;
            && c.item == TcpItem(item.key, item.sentSeq, item.bufsIndex, U16(item.numMerged + 1), item.gsoSize,
                 item.iphLen, item.tcphLen, psh)
            && SameKind(item, c.item) && c.item.HdrLen() == item.HdrLen() && !item.pshSet
            && neu.iphLen + 20 <= neu.HdrLen() == item.HdrLen() <= |data[inp.offset..]| == |data| - inp.offset
            && pkt[neu.iphLen + 20..neu.HdrLen()] == data[inp.offset..][neu.iphLen + 20..neu.HdrLen()]
            && IpHeadersCanCoalesce(pkt, data[inp.offset..])
               && Multiple(|data[inp.offset..]| - item.HdrLen(), item.gsoSize)
            && neu.sentSeq == U32(item.sentSeq + LhsLen(item))
            && 1 <= PayloadLen(inp, item, i) <= item.gsoSize
            && (item.numMerged == 0 ==> ChecksumValid(data[inp.offset..], item.iphLen, item.Proto(), item.key.isV6))
            && ChecksumValid(pkt, item.iphLen, item.Proto(), item.key.isV6)
            && at < |data| && |data| + |pkt[item.HdrLen()..]| <= bufs[item.bufsIndex].cap
            && c.bufs == bufs[item.bufsIndex := Buf((if psh then data[at := WithPsh(data[at])] else data)
                 + pkt[item.HdrLen()..], bufs[item.bufsIndex].cap)]
  {
    hide ChecksumValid, IpHeadersCanCoalesce, LhsLen, TcpPacketsCanCoalesce, Multiple;
    AppendAllowed(Pkt(inp, i), neu, item, bufs[item.bufsIndex].data[inp.offset..]);
  }

  lemma AppendSized(inp: Input, item: Item, grown: Item, ps: seq<nat>, i: nat)
    requires ps != [] && Sized(inp, item, ps) && PayloadLen(inp, item, ps[|ps| - 1]) == item.gsoSize
    requires grown.gsoSize == item.gsoSize && grown.HdrLen() == item.HdrLen()
    requires 1 <= PayloadLen(inp, item, i) <= item.gsoSize
    ensures Sized(inp, grown, ps + [i])
  {
    hide Pkt;
  }

  lemma FirstPacket(inp: Input, item: Item, ps: seq<nat>)
    requires Members(inp, item, ps) && Good(inp, 0)
    ensures ps[0] < |inp.bufs| && inp.offset <= |inp.bufs[ps[0]].data|
    ensures item.HdrLen() <= |Pkt(inp, ps[0])| && Shaped(item)
  {
  }

  /** What the comparison has established when it answers Prepend. */
  lemma PrependAllowed(pkt: seq<byte>, neu: Item, item: Item, target: seq<byte>)
    requires neu.TcpItem? && item.TcpItem? && item.gsoSize >= 1 && neu.iphLen == item.iphLen
    requires 20 <= neu.tcphLen && 20 <= item.tcphLen && neu.HdrLen() <= |pkt| && item.HdrLen() <= |target|
    requires TcpPacketsCanCoalesce(pkt, neu, item, target) == Prepend
    ensures neu.HdrLen() == item.HdrLen() && pkt[neu.iphLen + 20..neu.HdrLen()] == target[neu.iphLen + 20..neu.HdrLen()]
    ensures IpHeadersCanCoalesce(pkt, target)
    ensures U32(neu.sentSeq + neu.gsoSize) == item.sentSeq && !neu.pshSet
    ensures neu.gsoSize >= item.gsoSize && (neu.gsoSize > item.gsoSize ==> item.numMerged == 0)
  {
    hide IpHeadersCanCoalesce, LhsLen;
  }

  lemma PrependSequenced(inp: Input, item: Item, grown: Item, ps: seq<nat>, i: nat)
    requires item.TcpItem? && grown.TcpItem? && Members(inp, item, ps) && Members(inp, grown, [i] + ps)
    requires Sequenced(inp, item, ps) && Desc(inp, i).Some? && Desc(inp, i).value.TcpItem?
    requires grown.sentSeq == Desc(inp, i).value.sentSeq && U32(grown.sentSeq + grown.gsoSize) == item.sentSeq
    requires grown.gsoSize == item.gsoSize || |ps| == 1
    ensures Sequenced(inp, grown, [i] + ps)
  {
    hide Desc, Member, SeqAt;
    var q := [i] + ps;
    SeqStart(grown.sentSeq, grown.gsoSize);
    SeqStart(item.sentSeq, item.gsoSize);
    SeqStart(item.sentSeq, grown.gsoSize);
    forall j | 0 <= j < |q|
      ensures Desc(inp, q[j]).Some? && Desc(inp, q[j]).value.TcpItem?
      ensures Desc(inp, q[j]).value.sentSeq == SeqAt(grown.sentSeq, j, grown.gsoSize)
    {
      assert Member(inp, grown, q[0], q[j]);
      MemberIsTcp(inp, grown, q[0], q[j]);
      if j > 0 {
        assert q[j] == ps[j - 1];
        SeqShift(item.sentSeq, grown.sentSeq, j - 1, grown.gsoSize);
      }
    }
  }

  lemma SeqStart(start: u32, g: nat)
    ensures SeqAt(start, 0, g) == start
  {
  }

  lemma PshPrepended(inp: Input, item: Item, grown: Item, ps: seq<nat>, i: nat)
    requires item.TcpItem? && grown.TcpItem? && Members(inp, item, ps) && Members(inp, grown, [i] + ps)
    requires PshOnLast(inp, item, ps) && grown.pshSet == item.pshSet
    requires Desc(inp, i).Some? && Desc(inp, i).value.TcpItem? && !Desc(inp, i).value.pshSet
    ensures PshOnLast(inp, grown, [i] + ps)
  {
    hide Desc, Member;
    var q := [i] + ps;
    forall j | 0 <= j < |q|
      ensures Desc(inp, q[j]).Some? && Desc(inp, q[j]).value.TcpItem?
      ensures j < |ps| ==> !Desc(inp, q[j]).value.pshSet
    {
      assert Member(inp, grown, q[0], q[j]);
      MemberIsTcp(inp, grown, q[0], q[j]);
      if j > 0 {
        assert q[j] == ps[j - 1];
      }
    }
  }

  lemma PrependSized(inp: Input, item: Item, grown: Item, ps: seq<nat>, i: nat)
    requires ps != [] && Sized(inp, item, ps) && grown.HdrLen() == item.HdrLen()
    requires PayloadLen(inp, item, i) == grown.gsoSize >= 1
    requires grown.gsoSize >= item.gsoSize && (grown.gsoSize == item.gsoSize || |ps| == 1)
    ensures Sized(inp, grown, [i] + ps)
  {
    hide Pkt;
    var q := [i] + ps;
    forall j | 0 <= j < |q| - 1
      ensures PayloadLen(inp, grown, q[j]) == grown.gsoSize
    {
      if j > 0 {
        assert q[j] == ps[j - 1];
      }
    }
    assert q[|q| - 1] == ps[|ps| - 1];
  }

  lemma MergedPrepend(inp: Input, item: Item, grown: Item, ps: seq<nat>, i: nat)
    requires item.TcpItem? && SameKind(item, grown) && Good(inp, i + 1) && ps != [] && ps[|ps| - 1] < i
    requires item.HdrLen() <= |Pkt(inp, i)| && Pkt(inp, i)[item.iphLen + TCP_FLAGS_OFFSET] == FLAG_ACK
    ensures Merged(inp, grown, [i] + ps) == inp.bufs[i].data + Joined(inp, item.HdrLen(), ps)
  {
    hide Joined, Head, Pkt;
    var hl, q := item.HdrLen(), [i] + ps;
    WholePacket(inp, i, hl);
    JoinedPrepend(inp, hl, ps, i);
    PrependedHead(inp, item, grown, ps, i);
    Associate(inp.bufs[i].data[..inp.offset] + Pkt(inp, i)[..hl], Joined(inp, hl, [i]), Joined(inp, hl, ps));
  }

  lemma Associate(a: seq<byte>, b: seq<byte>, c: seq<byte>)
    ensures a + (b + c) == a + b + c
  {
  }

  lemma PrependedHead(inp: Input, item: Item, grown: Item, ps: seq<nat>, i: nat)
    requires item.TcpItem? && SameKind(item, grown) && ps != [] && ps[|ps| - 1] < i
    requires item.HdrLen() <= |Pkt(inp, i)| && Pkt(inp, i)[item.iphLen + TCP_FLAGS_OFFSET] == FLAG_ACK
    ensures Head(inp, grown, [i] + ps) == Pkt(inp, i)[..item.HdrLen()]
  {
  }

  lemma JoinedPrepend(inp: Input, hl: nat, ps: seq<nat>, i: nat)
    requires hl <= |Pkt(inp, i)|
    ensures Joined(inp, hl, [i] + ps) == Joined(inp, hl, [i]) + Joined(inp, hl, ps)
  {
  }

  /** A successful TCP prepend keeps the item invariant, with the new packet first. */
  lemma TcpPrepended(inp: Input, item: Item, ps: seq<nat>, bufs: seq<Buf>, i: nat, neu: Item)
    requires item.TcpItem? && Fits(item, bufs, inp.offset) && i < |bufs| == |inp.bufs| && bufs[i] == inp.bufs[i]
    requires item.bufsIndex != i
    requires Holds(inp, item, ps, bufs[item.bufsIndex].data) && Good(inp, i + 1)
    requires ps[|ps| - 1] < i && Desc(inp, i) == Some(neu) && neu.key == item.key && neu.TcpItem?
    requires Describes(neu, Pkt(inp, i)) && item.HdrLen() <= |Pkt(inp, i)|
    requires TcpPacketsCanCoalesce(Pkt(inp, i), neu, item, bufs[item.bufsIndex].data[inp.offset..]) == Prepend
    requires CoalesceTcpPackets(Prepend, i, neu, item, bufs, inp.offset).result.Success?
    requires |bufs[item.bufsIndex].data| <= 0xffff
    ensures var c := CoalesceTcpPackets(Prepend, i, neu, item, bufs, inp.offset);
            && Holds(inp, c.item, [i] + ps, c.bufs[item.bufsIndex].data)
            && c.item.key == item.key && c.item.bufsIndex == item.bufsIndex
            && |c.bufs[item.bufsIndex].data| <= c.bufs[item.bufsIndex].cap == bufs[i].cap
            && c.bufs == bufs[item.bufsIndex := c.bufs[item.bufsIndex]][i := bufs[item.bufsIndex]]
  {
    hide *;
    TcpPrependFacts(inp, item, bufs, i, neu);
    var data := bufs[item.bufsIndex].data;
    var c := CoalesceTcpPackets(Prepend, i, neu, item, bufs, inp.offset);
    HoldsParts(inp, item, ps, data);
    Sooner(inp, i);
    NewMember(inp, item, ps, data, i);
    PayloadsCount(inp, item, ps, data);
    Increments(item.numMerged, |data|);
    MembersExtend(inp, item, c.item, ps, i);
    AllValidExtend(inp, item, c.item, ps, data, i);
    PrependSequenced(inp, item, c.item, ps, i);
    PshPrepended(inp, item, c.item, ps, i);
    PrependSized(inp, item, c.item, ps, i);
    MergedPrepend(inp, item, c.item, ps, i);
    PayloadsOf(inp, item, ps, data);
    HoldsFromParts(inp, c.item, [i] + ps, c.bufs[item.bufsIndex].data);
  }

  /** What a successful TCP prepend has checked, and what it has done. */
  lemma TcpPrependFacts(inp: Input, item: Item, bufs: seq<Buf>, i: nat, neu: Item)
    requires item.TcpItem? && Fits(item, bufs, inp.offset) && i < |bufs| == |inp.bufs| && bufs[i] == inp.bufs[i]
        && Good(inp, i + 1)
    requires item.bufsIndex != i && Desc(inp, i) == Some(neu)
    requires neu.key == item.key && neu.TcpItem? && Describes(neu, Pkt(inp, i)) && item.HdrLen() <= |Pkt(inp, i)|
    requires TcpPacketsCanCoalesce(Pkt(inp, i), neu, item, bufs[item.bufsIndex].data[inp.offset..]) == Prepend
    requires CoalesceTcpPackets(Prepend, i, neu, item, bufs, inp.offset).result.Success?
    ensures item.bufsIndex < |bufs| && inp.offset <= |bufs[item.bufsIndex].data|
        && inp.offset + item.HdrLen() <= |bufs[i].data|
    ensures var c, data, pkt := CoalesceTcpPackets(Prepend, i, neu, item, bufs, inp.offset), bufs[item.bufsIndex].data,
        Pkt(inp, i);
            && c.item == TcpItem(item.key, neu.sentSeq, item.bufsIndex, U16(item.numMerged + 1), neu.gsoSize,
                 item.iphLen, item.tcphLen, item.pshSet)
            && SameKind(item, c.item) && c.item.HdrLen() == item.HdrLen()
            && neu.iphLen + 20 <= neu.HdrLen() == item.HdrLen() <= |data[inp.offset..]| == |data| - inp.offset
            && pkt[neu.iphLen + 20..neu.HdrLen()] == data[inp.offset..][neu.iphLen + 20..neu.HdrLen()]
            && IpHeadersCanCoalesce(pkt, data[inp.offset..])
            && U32(neu.sentSeq + neu.gsoSize) == item.sentSeq && !neu.pshSet
            && neu.gsoSize >= item.gsoSize && (neu.gsoSize > item.gsoSize ==> item.numMerged == 0)
            && PayloadLen(inp, item, i) == neu.gsoSize >= 1
            && (item.numMerged == 0 ==> ChecksumValid(data[inp.offset..], item.iphLen, item.Proto(), item.key.isV6))
            && ChecksumValid(pkt, item.iphLen, item.Proto(), item.key.isV6)
            && item.iphLen as nat + TCP_FLAGS_OFFSET < |pkt| && pkt[item.iphLen + TCP_FLAGS_OFFSET] == FLAG_ACK
            && |inp.bufs[i].data + data[inp.offset..][item.HdrLen()..]| <= bufs[i].cap
            && c.bufs == bufs[item.bufsIndex := Buf(inp.bufs[i].data + data[inp.offset..][item.HdrLen()..],
                 bufs[i].cap)][i := bufs[item.bufsIndex]]
  {
    hide ChecksumValid, IpHeadersCanCoalesce, LhsLen, TcpPacketsCanCoalesce, Classify;
    PrependAllowed(Pkt(inp, i), neu, item, bufs[item.bufsIndex].data[inp.offset..]);
    FlagsOfClassified(inp, i);
  }

  lemma PayloadsOf(inp: Input, item: Item, ps: seq<nat>, data: seq<byte>)
    requires Holds(inp, item, ps, data) && Good(inp, 0) && item.HdrLen() <= |data[inp.offset..]|
    ensures data[inp.offset..][item.HdrLen()..] == Joined(inp, item.HdrLen(), ps)
  {
    hide Member, ChecksumValid, Sequenced, PshOnLast, AllValid, Merged, Joined, Sized;
    MergedPacket(inp, item, ps, data);
    FirstPacket(inp, item, ps);
    assert |Head(inp, item, ps)| == item.HdrLen();
  }
}
