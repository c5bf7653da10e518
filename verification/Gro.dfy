/**
 Generic receive offload as a function of values: what one packet of a batch does to the
 buffers, to its flow's items and to the list of buffers to write. The methods of Offload
 are proved to compute exactly this; GroInvariant and RoundTrip prove what it promises.
 */
module Gro {
  import opened Bytes
  import opened Options
  import opened Packet

  /** A byte slice: its contents and its capacity. */
  datatype Buf = Buf(data: seq<byte>, cap: nat)

  datatype CanCoalesce = Prepend | Unavailable | Append

  datatype CoalesceResult = InsufficientCap | PshEnding | ItemInvalidCsum | PktInvalidCsum | Success

  /** A GRO result; a coalesced packet names the buffer that took its payload, and at which end. */
  datatype Verdict = Noop | Inserted | Appended(into: nat) | Prepended(into: nat)

  /** The item's buffer exists and holds whole headers; its sizes are as insertion made them. */
  predicate Fits(item: Item, bufs: seq<Buf>, offset: nat) {
    && item.bufsIndex < |bufs|
    && offset + item.HdrLen() <= |bufs[item.bufsIndex].data|
    && item.gsoSize >= 1
    && item.TcpItem? == item.key.TcpKey?
    && item.iphLen == (if item.key.isV6 then 40 else 20)
    && (item.TcpItem? ==> 20 <= item.tcphLen <= 60)
  }

  /** A packet and the item it classifies as. */
  predicate Describes(item: Item, pkt: seq<byte>) {
    && item.TcpItem? == item.key.TcpKey?
    && item.iphLen == (if item.key.isV6 then 40 else 20)
    && (item.TcpItem? ==> 20 <= item.tcphLen <= 60)
    && |pkt| == item.HdrLen() + item.gsoSize
    && item.gsoSize >= 1
  }

  function UdpPacketsCanCoalesce(pkt: seq<byte>, neu: Item, item: Item, target: seq<byte>): CanCoalesce
    requires item.gsoSize >= 1 && neu.iphLen as nat + UDPH_LEN <= |target|
  {
    if !IpHeadersCanCoalesce(pkt, target) then Unavailable
    else if (|target| - neu.iphLen - UDPH_LEN) % item.gsoSize != 0 then Unavailable
    else if neu.gsoSize > item.gsoSize then Unavailable
    else Append
  }

  /** The 16-bit length of what precedes the next expected segment; it can wrap. */
  function LhsLen(item: Item): u16 {
    U16(item.gsoSize + U16(item.numMerged as int * item.gsoSize))
  }

  function TcpPacketsCanCoalesce(pkt: seq<byte>, neu: Item, item: Item, target: seq<byte>): (can: CanCoalesce)
    requires neu.TcpItem? && item.TcpItem? && item.gsoSize >= 1 && neu.iphLen == item.iphLen
    requires 20 <= neu.tcphLen && 20 <= item.tcphLen
    requires neu.HdrLen() <= |pkt| && item.HdrLen() <= |target|
    ensures can != Unavailable ==> neu.HdrLen() == item.HdrLen()
  {
    if neu.tcphLen != item.tcphLen then Unavailable
    else if neu.tcphLen > 20 && pkt[neu.iphLen + 20..neu.HdrLen()] != target[item.iphLen + 20..item.HdrLen()]
        then Unavailable
    else if !IpHeadersCanCoalesce(pkt, target) then Unavailable
    else if neu.sentSeq == U32(item.sentSeq + LhsLen(item)) then
      if item.pshSet then Unavailable
      else if (|target| - item.HdrLen()) % item.gsoSize != 0 then Unavailable
      else if neu.gsoSize > item.gsoSize then Unavailable
      else Append
    else if U32(neu.sentSeq + neu.gsoSize) == item.sentSeq then
      if neu.pshSet then Unavailable
      else if neu.gsoSize < item.gsoSize then Unavailable
      else if neu.gsoSize > item.gsoSize && item.numMerged > 0 then Unavailable
      else Prepend
    else Unavailable
  }

  /** flags |= PSH */
  function WithPsh(flags: byte): byte {
    if flags / 0x08 % 2 == 1 then flags else flags + 0x08
  }

  datatype Coalesced = Coalesced(result: CoalesceResult, item: Item, bufs: seq<Buf>)

  function CoalesceUdpPackets(pkt: seq<byte>, item: Item, bufs: seq<Buf>, offset: nat): Coalesced
    requires item.UdpItem? && Fits(item, bufs, offset) && item.HdrLen() <= |pkt|
  {
    var b := bufs[item.bufsIndex];
    var target := b.data[offset..];
    var isV6 := item.key.isV6;
    var coalescedLen := |target| + |pkt| - item.HdrLen();
    if b.cap - 2 * offset < coalescedLen then Coalesced(InsufficientCap, item, bufs)
    else if item.numMerged == 0 && (item.cSumKnownInvalid || !ChecksumValid(target, item.iphLen, PROTO_UDP, isV6)) then
      Coalesced(ItemInvalidCsum, item, bufs)
    else if !ChecksumValid(pkt, item.iphLen, PROTO_UDP, isV6) then Coalesced(PktInvalidCsum, item, bufs)
    else Coalesced(Success,
                   UdpItem(item.key, item.bufsIndex, U16(item.numMerged + 1), item.gsoSize, item.iphLen,
                       item.cSumKnownInvalid),
                   bufs[item.bufsIndex := Buf(b.data + pkt[item.HdrLen()..], b.cap)])
  }

  /** The merged item's bookkeeping: one more packet, and the larger segment size. */
  function Grown(item: Item, neu: Item, sentSeq: u32, pshSet: bool): Item
    requires item.TcpItem?
  {
    TcpItem(item.key, sentSeq, item.bufsIndex, U16(item.numMerged + 1),
            if neu.gsoSize > item.gsoSize then neu.gsoSize else item.gsoSize, item.iphLen, item.tcphLen, pshSet)
  }

  function CoalesceTcpPackets(mode: CanCoalesce, pktI: nat, neu: Item, item: Item, bufs: seq<Buf>,
          offset: nat): (c: Coalesced)
    requires neu.TcpItem? && item.TcpItem? && Fits(item, bufs, offset)
    requires pktI < |bufs| && offset + item.HdrLen() <= |bufs[pktI].data|
    ensures |c.bufs| == |bufs|
  {
    var b, p := bufs[item.bufsIndex], bufs[pktI];
    var target, pkt := b.data[offset..], p.data[offset..];
    var hl, isV6 := item.HdrLen(), item.key.isV6;
    var coalescedLen := |target| + |pkt| - hl;
    var head := if mode == Prepend then p else b;
    if head.cap - 2 * offset < coalescedLen then Coalesced(InsufficientCap, item, bufs)
    else if mode == Prepend && neu.pshSet then Coalesced(PshEnding, item, bufs)
    else if item.numMerged == 0 && !ChecksumValid(target, item.iphLen, PROTO_TCP, isV6) then
      Coalesced(ItemInvalidCsum, item, bufs)
    else if !ChecksumValid(pkt, item.iphLen, PROTO_TCP, isV6) then Coalesced(PktInvalidCsum, item, bufs)
    else if mode == Prepend then
      Coalesced(Success, Grown(item, neu, neu.sentSeq, item.pshSet),
                bufs[item.bufsIndex := Buf(p.data + target[hl..], p.cap)][pktI := b])
    else
      var at := offset + item.iphLen + TCP_FLAGS_OFFSET;
      var flagged := if neu.pshSet then b.data[at := WithPsh(b.data[at])] else b.data;
      Coalesced(Success, Grown(item, neu, item.sentSeq, item.pshSet || neu.pshSet),
                bufs[item.bufsIndex := Buf(flagged + pkt[hl..], b.cap)])
  }

  function ClearHeader(data: seq<byte>, offset: nat): (r: seq<byte>)
    requires VIRTIO_NET_HDR_LEN <= offset <= |data|
    ensures |r| == |data| && r[offset..] == data[offset..]
  {
    Splice(data, offset - VIRTIO_NET_HDR_LEN, Zeros(VIRTIO_NET_HDR_LEN))
  }

  function ClearAt(bufs: seq<Buf>, k: nat, offset: nat): (r: seq<Buf>)
    requires k < |bufs| && VIRTIO_NET_HDR_LEN <= offset <= |bufs[k].data|
    ensures |r| == |bufs|
  {
    bufs[k := bufs[k].(data := ClearHeader(bufs[k].data, offset))]
  }

  /** The outcome of offering one packet to the items of its flow. */
  datatype Scan = Scan(bufs: seq<Buf>, items: seq<Item>, verdict: Verdict)

  /** The buffers are as many as before, and a packet that is not coalesced lengthens none. */
  ghost predicate SameShape(bufs: seq<Buf>, r: Scan) {
    && |r.bufs| == |bufs|
    && match r.verdict
       case Appended(into) => into < |bufs|
       case Prepended(into) => into < |bufs|
       case _ => forall k :: 0 <= k < |bufs| ==> |r.bufs[k].data| == |bufs[k].data|
  }

  ghost predicate ScanOk(bufs: seq<Buf>, offset: nat, pktI: nat, neu: Item, items: seq<Item>) {
    && VIRTIO_NET_HDR_LEN <= offset
    && pktI < |bufs| && offset <= |bufs[pktI].data| && Describes(neu, bufs[pktI].data[offset..])
    && forall j :: 0 <= j < |items| ==> items[j].key == neu.key && Fits(items[j], bufs, offset)
  }

  /**
   tcpGRO's reverse scan: items n-1 down to 0 have not been examined yet. An unmerged item
   with a bad checksum is dropped from the flow, and its virtio header cleared.
   */
  function TcpScan(bufs: seq<Buf>, offset: nat, pktI: nat, neu: Item, items: seq<Item>, n: nat): (r: Scan)
    requires neu.TcpItem? && n <= |items| && ScanOk(bufs, offset, pktI, neu, items)
    ensures SameShape(bufs, r)
    decreases n
  {
    hide TcpPacketsCanCoalesce, CoalesceTcpPackets, Splice;
    if n == 0 then Scan(bufs, items + [neu], Inserted)
    else
      var item := items[n - 1];
      var pkt, target := bufs[pktI].data[offset..], bufs[item.bufsIndex].data[offset..];
      var can := TcpPacketsCanCoalesce(pkt, neu, item, target);
      if can == Unavailable then TcpScan(bufs, offset, pktI, neu, items, n - 1)
      else
        var c := CoalesceTcpPackets(can, pktI, neu, item, bufs, offset);
        match c.result
        case Success =>
          Scan(c.bufs, items[n - 1 := c.item], if can == Prepend then Prepended(item.bufsIndex)
              else Appended(item.bufsIndex))
        case ItemInvalidCsum =>
          TcpScan(ClearAt(bufs, item.bufsIndex, offset), offset, pktI, neu, items[..n - 1] + items[n..], n - 1)
        case PktInvalidCsum => Scan(bufs, items, Noop)
        case _ => TcpScan(bufs, offset, pktI, neu, items, n - 1)
  }

  /** udpGRO looks at the flow's last item only. */
  function UdpScan(bufs: seq<Buf>, offset: nat, pktI: nat, neu: Item, items: seq<Item>): (r: Scan)
    requires neu.UdpItem? && items != [] && ScanOk(bufs, offset, pktI, neu, items)
    ensures SameShape(bufs, r)
  {
    var item := items[|items| - 1];
    var pkt, target := bufs[pktI].data[offset..], bufs[item.bufsIndex].data[offset..];
    if UdpPacketsCanCoalesce(pkt, neu, item, target) == Append then
      var c := CoalesceUdpPackets(pkt, item, bufs, offset);
      match c.result
      case Success => Scan(c.bufs, items[|items| - 1 := c.item], Appended(item.bufsIndex))
      case PktInvalidCsum => Scan(bufs, items + [neu.(cSumKnownInvalid := true)], Inserted)
      case _ => Scan(bufs, items + [neu], Inserted)
    else Scan(bufs, items + [neu], Inserted)
  }

  /** The items of one flow after its packet pktI, where a flow not in the table has none. */
  function FlowScan(bufs: seq<Buf>, offset: nat, pktI: nat, neu: Item, flows: map<FlowKey, seq<Item>>): (r: Scan)
    requires neu.key in flows ==> ScanOk(bufs, offset, pktI, neu, flows[neu.key])
    requires neu.key in flows && neu.UdpItem? ==> flows[neu.key] != []
    ensures SameShape(bufs, r)
  {
    if neu.key !in flows then Scan(bufs, [neu], Inserted)
    else if neu.TcpItem? then TcpScan(bufs, offset, pktI, neu, flows[neu.key], |flows[neu.key]|)
    else UdpScan(bufs, offset, pktI, neu, flows[neu.key])
  }

  /**
   A batch in progress: the buffers, the items of both tables by flow, the indices to write,
   and, as history, which original packets each buffer now holds, in stream order.
   */
  datatype State = State(bufs: seq<Buf>, flows: map<FlowKey, seq<Item>>, toWrite: seq<nat>, parts: seq<seq<nat>>)

  /** How a verdict on packet i moves original packets between buffers. */
  function MoveParts(parts: seq<seq<nat>>, i: nat, verdict: Verdict): seq<seq<nat>>
    requires i < |parts|
    requires verdict.Appended? || verdict.Prepended? ==> verdict.into < |parts|
  {
    match verdict
    case Appended(k) => parts[k := parts[k] + parts[i]][i := []]
    case Prepended(k) => parts[k := parts[i] + parts[k]][i := []]
    case _ => parts
  }

  /** What a step needs of the items already in the flow of packet i, classified as neu. */
  ghost predicate StepOk(s: State, offset: nat, i: nat, neu: Option<Item>) {
    && i < |s.bufs| == |s.parts| && VIRTIO_NET_HDR_LEN <= offset <= |s.bufs[i].data|
    && (neu.Some? && neu.value.key in s.flows ==>
          && ScanOk(s.bufs, offset, i, neu.value, s.flows[neu.value.key])
          && (neu.value.UdpItem? ==> s.flows[neu.value.key] != []))
  }

  /** The batch after packet i, whose flow was scanned with this outcome. */
  function Settle(s: State, offset: nat, i: nat, key: FlowKey, scan: Scan): State
    requires i < |s.bufs| == |s.parts| && SameShape(s.bufs, scan)
    requires VIRTIO_NET_HDR_LEN <= offset <= |s.bufs[i].data|
  {
    var flows := s.flows[key := scan.items];
    match scan.verdict
    case Noop => State(ClearAt(scan.bufs, i, offset), flows, s.toWrite + [i], s.parts)
    case Inserted => State(scan.bufs, flows, s.toWrite + [i], s.parts)
    case _ => State(scan.bufs, flows, s.toWrite, MoveParts(s.parts, i, scan.verdict))
  }

  /** One iteration of handleGRO, after its offset check, for a packet classified as neu. */
  function GroStep(s: State, offset: nat, i: nat, neu: Option<Item>): State
    requires StepOk(s, offset, i, neu)
  {
    if neu.None? then
      s.(bufs := ClearAt(s.bufs, i, offset), toWrite := s.toWrite + [i])
    else
      Settle(s, offset, i, neu.value.key, FlowScan(s.bufs, offset, i, neu.value, s.flows))
  }
}
