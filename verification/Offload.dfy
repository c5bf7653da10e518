/**
 The offload methods of tun/offload_linux.go over mutable buffers and tables, each proved
 to compute the corresponding function of module Gro or Accounting.
 */
module Offload {
  import opened Bytes
  import opened ChecksumSpec
  import opened FastChecksum
  import opened Packet
  import opened Gro
  import opened GroItem
  import opened GroInvariant
  import opened Accounting
  import opened Delivery
  import opened Buffers
  import opened Tables

  datatype GroResult = ResultNoop | ResultTableInsert | ResultCoalesced

  function ResultOf(v: Verdict): GroResult {
    match v
    case Noop => ResultNoop
    case Inserted => ResultTableInsert
    case _ => ResultCoalesced
  }

  lemma ExtendThenCopy(data: seq<byte>, src: seq<byte>)
    ensures Splice(data + Zeros(|src|), |data|, src) == data + src
  {
  }

  /** Extends bufs[k] by src: append of zeros, then copy over them. */
  method AppendPayload(bufs: Batch, k: nat, src: seq<byte>)
    requires bufs.Valid() && k < |bufs.bufs| && |bufs.View()[k].data| + |src| <= bufs.View()[k].cap
    modifies bufs, bufs.arrays
    ensures bufs.Valid()
    ensures bufs.View() == old(bufs.View())[k := Buf(old(bufs.View())[k].data + src, old(bufs.View())[k].cap)]
  {
    var data := bufs.Read(k);
    bufs.Extend(k, |src|);
    bufs.Copy(k, |data|, src);
    ExtendThenCopy(data, src);
  }

  method CoalesceUdp(bufs: Batch, pkt: seq<byte>, item: Item, offset: nat, le: bool)
    returns (result: CoalesceResult, grown: Item)
    requires bufs.Valid() && item.UdpItem? && Fits(item, bufs.View(), offset) && item.HdrLen() <= |pkt|
    modifies bufs, bufs.arrays
    ensures bufs.Valid()
    ensures Coalesced(result, grown, bufs.View()) == CoalesceUdpPackets(pkt, item, old(bufs.View()), offset)
  {
    hide ChecksumValid;
    var k: nat := item.bufsIndex;
    var data := bufs.Read(k);
    var cap := bufs.Cap(k);
    var pktHead := data[offset..];
    var coalescedLen := |pktHead| + |pkt| - item.HdrLen();
    if cap - 2 * offset < coalescedLen {
      return InsufficientCap, item;
    }
    if item.numMerged == 0 {
      var itemValid := false;
      if !item.cSumKnownInvalid {
        itemValid := CheckChecksum(le, pktHead, item.iphLen, PROTO_UDP, item.key.isV6);
      }
      if !itemValid {
        return ItemInvalidCsum, item;
      }
    }
    var pktValid := CheckChecksum(le, pkt, item.iphLen, PROTO_UDP, item.key.isV6);
    if !pktValid {
      return PktInvalidCsum, item;
    }
    AppendPayload(bufs, k, pkt[item.HdrLen()..]);
    return Success, UdpItem(item.key, item.bufsIndex, U16(item.numMerged + 1), item.gsoSize, item.iphLen,
        item.cSumKnownInvalid);
  }

  /** The checksum tests before a TCP merge: the item's while nothing is merged into it, then the packet's. */
  function Verified(item: Item, target: seq<byte>, pkt: seq<byte>): CoalesceResult
    requires Shaped(item) && item.HdrLen() <= |target| && item.HdrLen() <= |pkt|
  {
    if item.numMerged == 0 && !ChecksumValid(target, item.iphLen, PROTO_TCP, item.key.isV6) then ItemInvalidCsum
    else if !ChecksumValid(pkt, item.iphLen, PROTO_TCP, item.key.isV6) then PktInvalidCsum
    else Success
  }

  method VerifyChecksums(le: bool, item: Item, target: seq<byte>, pkt: seq<byte>) returns (r: CoalesceResult)
    requires item.TcpItem? && Shaped(item) && item.HdrLen() <= |target| && item.HdrLen() <= |pkt|
    ensures r == Verified(item, target, pkt)
  {
    hide ChecksumValid;
    if item.numMerged == 0 {
      var itemValid := CheckChecksum(le, target, item.iphLen, PROTO_TCP, item.key.isV6);
      if !itemValid {
        return ItemInvalidCsum;
      }
    }
    var pktValid := CheckChecksum(le, pkt, item.iphLen, PROTO_TCP, item.key.isV6);
    return if pktValid then Success else PktInvalidCsum;
  }

  /** A TCP merge, case by case. */
  lemma TcpMergeCases(mode: CanCoalesce, v: seq<Buf>, pktI: nat, neu: Item, item: Item, offset: nat)
    requires mode != Unavailable && neu.TcpItem? && item.TcpItem? && Fits(item, v, offset)
        && (mode == Prepend ==> pktI != item.bufsIndex)
    requires pktI < |v| && offset + item.HdrLen() <= |v[pktI].data|
    ensures item.bufsIndex < |v| && Shaped(item) && offset <= |v[item.bufsIndex].data|
    ensures item.HdrLen() <= |v[item.bufsIndex].data[offset..]| && item.HdrLen() <= |v[pktI].data[offset..]|
    ensures offset + item.iphLen as nat + TCP_FLAGS_OFFSET < |v[item.bufsIndex].data|
    ensures var k, b, p := item.bufsIndex, v[item.bufsIndex], v[pktI];
            var target, pkt, at := b.data[offset..], p.data[offset..], offset + item.iphLen + TCP_FLAGS_OFFSET;
            var cap := if mode == Prepend then p.cap else b.cap;
            var grown := |target| + |pkt| - item.HdrLen();
            CoalesceTcpPackets(mode, pktI, neu, item, v, offset)
            == if cap - 2 * offset < grown then Coalesced(InsufficientCap, item, v)
               else if mode == Prepend && neu.pshSet then Coalesced(PshEnding, item, v)
               else if Verified(item, target, pkt) != Success then Coalesced(Verified(item, target, pkt), item, v)
               else if mode == Prepend then
                 Coalesced(Success, Grown(item, neu, neu.sentSeq, item.pshSet),
                     v[k := Buf(p.data + target[item.HdrLen()..], p.cap)][pktI := b])
               else
                 Coalesced(Success, Grown(item, neu, item.sentSeq, item.pshSet || neu.pshSet),
                           v[k := Buf((if neu.pshSet then b.data[at := WithPsh(b.data[at])] else b.data)
                               + pkt[item.HdrLen()..], b.cap)])
  {
    hide ChecksumValid;
  }

  lemma Swapped(v: seq<Buf>, k: nat, l: nat, b: Buf)
    requires k < |v| && l < |v| && k != l
    ensures v[l := b][k := v[l := b][l]][l := v[l := b][k]] == v[k := b][l := v[k]]
  {
  }

  /** Prepend: the new packet's buffer takes the item's payload, and the two buffers change places. */
  method CoalesceTcpPrepend(bufs: Batch, pktI: nat, neu: Item, item: Item, offset: nat, le: bool)
    returns (result: CoalesceResult, grown: Item)
    requires bufs.Valid() && neu.TcpItem? && item.TcpItem? && Fits(item, bufs.View(), offset)
    requires pktI < |bufs.bufs| && pktI != item.bufsIndex && offset + item.HdrLen() <= |bufs.View()[pktI].data|
    modifies bufs, bufs.arrays
    ensures bufs.Valid()
    ensures Coalesced(result, grown, bufs.View())
        == CoalesceTcpPackets(Prepend, pktI, neu, item, old(bufs.View()), offset)
  {
    hide *;
    TcpMergeCases(Prepend, bufs.View(), pktI, neu, item, offset);
    var k: nat := item.bufsIndex;
    var data := bufs.Read(k);
    var pktData := bufs.Read(pktI);
    var cap := bufs.Cap(pktI);
    var target, pkt := data[offset..], pktData[offset..];
    var coalescedLen := |target| + |pkt| - item.HdrLen();
    if cap - 2 * offset < coalescedLen {
      return InsufficientCap, item;
    }
    if neu.pshSet {
      return PshEnding, item;
    }
    var verified := VerifyChecksums(le, item, target, pkt);
    if verified != Success {
      return verified, item;
    }
    Swapped(bufs.View(), k, pktI, Buf(pktData + target[item.HdrLen()..], cap));
    AppendPayload(bufs, pktI, target[item.HdrLen()..]);
    bufs.Swap(k, pktI);
    return Success, Grown(item, neu, neu.sentSeq, item.pshSet);
  }

  /** Append: the item's buffer takes the new packet's payload, and its PSH if it has one. */
  method CoalesceTcpAppend(bufs: Batch, pktI: nat, neu: Item, item: Item, offset: nat, le: bool)
    returns (result: CoalesceResult, grown: Item)
    requires bufs.Valid() && neu.TcpItem? && item.TcpItem? && Fits(item, bufs.View(), offset)
    requires pktI < |bufs.bufs| && offset + item.HdrLen() <= |bufs.View()[pktI].data|
    modifies bufs, bufs.arrays
    ensures bufs.Valid()
    ensures Coalesced(result, grown, bufs.View())
        == CoalesceTcpPackets(Append, pktI, neu, item, old(bufs.View()), offset)
  {
    hide *;
    TcpMergeCases(Append, bufs.View(), pktI, neu, item, offset);
    var k: nat := item.bufsIndex;
    var data := bufs.Read(k);
    var pktData := bufs.Read(pktI);
    var cap := bufs.Cap(k);
    var pktHead, pkt := data[offset..], pktData[offset..];
    var coalescedLen := |pktHead| + |pkt| - item.HdrLen();
    if cap - 2 * offset < coalescedLen {
      return InsufficientCap, item;
    }
    var verified := VerifyChecksums(le, item, pktHead, pkt);
    if verified != Success {
      return verified, item;
    }
    if neu.pshSet {
      var at := offset + item.iphLen + TCP_FLAGS_OFFSET;
      bufs.Set(k, at, WithPsh(data[at]));
    }
    AppendPayload(bufs, k, pkt[item.HdrLen()..]);
    return Success, Grown(item, neu, item.sentSeq, item.pshSet || neu.pshSet);
  }

  method CoalesceTcp(mode: CanCoalesce, bufs: Batch, pktI: nat, neu: Item, item: Item, offset: nat, le: bool)
    returns (result: CoalesceResult, grown: Item)
    requires mode != Unavailable
    requires bufs.Valid() && neu.TcpItem? && item.TcpItem? && Fits(item, bufs.View(), offset)
    requires pktI < |bufs.bufs| && pktI != item.bufsIndex && offset + item.HdrLen() <= |bufs.View()[pktI].data|
    modifies bufs, bufs.arrays
    ensures bufs.Valid()
    ensures Coalesced(result, grown, bufs.View()) == CoalesceTcpPackets(mode, pktI, neu, item, old(bufs.View()), offset)
  {
    if mode == Prepend {
      result, grown := CoalesceTcpPrepend(bufs, pktI, neu, item, offset, le);
    } else {
      result, grown := CoalesceTcpAppend(bufs, pktI, neu, item, offset, le);
    }
  }

  ghost predicate NotAmong(items: seq<Item>, pktI: nat) {
    forall j :: 0 <= j < |items| ==> items[j].bufsIndex != pktI
  }

  /** What evaluating a packet described by neu needs of its flow's items, if it has any yet. */
  ghost predicate FlowReady(bufs: seq<Buf>, offset: nat, pktI: nat, neu: Item, flows: map<FlowKey, seq<Item>>) {
    neu.key in flows ==>
      && ScanOk(bufs, offset, pktI, neu, flows[neu.key])
      && (neu.UdpItem? ==> flows[neu.key] != [])
      && NotAmong(flows[neu.key], pktI)
  }

  /** The table can take one more item, in an existing or a new flow. */
  ghost predicate HasRoom(table: GroTable, key: FlowKey)
    reads table
  {
    if key in table.itemsByFlow then table.itemsByFlow[key].len < table.batchSize else |table.itemsPool| > 0
  }

  lemma FewerItems(bufs: seq<Buf>, offset: nat, pktI: nat, neu: Item, items: seq<Item>, j: nat)
    requires ScanOk(bufs, offset, pktI, neu, items) && j < |items|
    requires NotAmong(items, pktI)
    ensures var fewer, after := items[..j] + items[j + 1..], ClearAt(bufs, items[j].bufsIndex, offset);
            ScanOk(after, offset, pktI, neu, fewer) && NotAmong(fewer, pktI)
  {
  }

  /** Everything the examination of item i of a flow relies on. */
  lemma ScanFacts(bufs: seq<Buf>, offset: nat, pktI: nat, neu: Item, items: seq<Item>, i: nat)
    requires ScanOk(bufs, offset, pktI, neu, items) && NotAmong(items, pktI) && i < |items| && neu.TcpItem?
    ensures var item := items[i];
            && item.TcpItem? && item.key == neu.key && item.iphLen == neu.iphLen && item.gsoSize >= 1
            && 20 <= neu.tcphLen && 20 <= item.tcphLen
            && Fits(item, bufs, offset) && Shaped(item) && item.bufsIndex < |bufs| && item.bufsIndex != pktI < |bufs|
            && VIRTIO_NET_HDR_LEN <= offset <= |bufs[item.bufsIndex].data|
            && offset <= |bufs[pktI].data| && offset + neu.HdrLen() <= |bufs[pktI].data|
            && neu.HdrLen() <= |bufs[pktI].data[offset..]|
            && item.HdrLen() <= |bufs[item.bufsIndex].data[offset..]|
  {
  }

  /** One unfolding of the scan. */
  lemma ScanStep(bufs: seq<Buf>, offset: nat, pktI: nat, neu: Item, items: seq<Item>, i: nat, can: CanCoalesce)
    requires ScanOk(bufs, offset, pktI, neu, items) && NotAmong(items, pktI) && i < |items| && neu.TcpItem?
    requires Fits(items[i], bufs, offset) && items[i].bufsIndex < |bufs| && offset <= |bufs[items[i].bufsIndex].data|
    requires pktI < |bufs| && offset <= |bufs[pktI].data| && items[i].TcpItem? && items[i].gsoSize >= 1
    requires items[i].iphLen == neu.iphLen && 20 <= neu.tcphLen && 20 <= items[i].tcphLen
    requires neu.HdrLen() <= |bufs[pktI].data[offset..]|
        && items[i].HdrLen() <= |bufs[items[i].bufsIndex].data[offset..]|
    requires can == TcpPacketsCanCoalesce(bufs[pktI].data[offset..], neu, items[i],
        bufs[items[i].bufsIndex].data[offset..])
    ensures var scan, rest := TcpScan(bufs, offset, pktI, neu, items, i + 1),
        TcpScan(bufs, offset, pktI, neu, items, i);
            if can == Unavailable then scan == rest
            else
              && offset + items[i].HdrLen() <= |bufs[pktI].data|
              && var c := CoalesceTcpPackets(can, pktI, neu, items[i], bufs, offset);
                 && c.item.key == neu.key
                 && (c.result.Success? ==>
                       scan == Scan(c.bufs, items[i := c.item], if can == Prepend then Prepended(items[i].bufsIndex)
                           else Appended(items[i].bufsIndex)))
                 && (!c.result.Success? ==> c.bufs == bufs)
                 && (c.result.PktInvalidCsum? ==> scan == Scan(bufs, items, Noop))
                 && (c.result.InsufficientCap? || c.result.PshEnding? ==> scan == rest)
                 && (c.result.ItemInvalidCsum? ==>
                       && VIRTIO_NET_HDR_LEN <= offset
                       && ScanOk(ClearAt(bufs, items[i].bufsIndex, offset), offset, pktI, neu,
                            items[..i] + items[i + 1..])
                       && scan == TcpScan(ClearAt(bufs, items[i].bufsIndex, offset), offset, pktI, neu,
                            items[..i] + items[i + 1..], i))
  {
    hide TcpPacketsCanCoalesce, ClearHeader, ChecksumValid, Describes, Splice;
    FewerItems(bufs, offset, pktI, neu, items, i);
  }

  // Buffers and tables share no memory: what one's methods write, the other does not see.

  method UpdateItem(bufs: Batch, table: GroTable, item: Item, i: nat)
    requires bufs.Valid() && table.Valid() && item.key in table.itemsByFlow && i < table.itemsByFlow[item.key].len
    modifies table.arrays
    ensures bufs.Valid() && bufs.View() == old(bufs.View())
    ensures table.Valid() && table.View() == old(table.View())[item.key := old(table.View())[item.key][i := item]]
  {
    hide *;
    table.UpdateAt(item, i);
  }

  method InsertItem(bufs: Batch, table: GroTable, item: Item)
    requires bufs.Valid() && table.Valid() && HasRoom(table, item.key)
    modifies table, table.arrays
    ensures bufs.Valid() && bufs.View() == old(bufs.View())
    ensures table.Valid() && table.View() == Extended(old(table.View()), item)
    ensures |table.itemsByFlow| <= |old(table.itemsByFlow)| + 1
  {
    hide *;
    RoomInSlice(table, item.key);
    table.Insert(item);
  }

  lemma RoomInSlice(table: GroTable, key: FlowKey)
    requires HasRoom(table, key)
    ensures key in table.itemsByFlow ==> table.itemsByFlow[key].len < table.batchSize
    ensures key !in table.itemsByFlow ==> |table.itemsPool| > 0
  {
  }

  method DeleteItem(bufs: Batch, table: GroTable, key: FlowKey, i: nat)
    requires bufs.Valid() && table.Valid() && key in table.itemsByFlow && i < table.itemsByFlow[key].len
    modifies table, table.arrays
    ensures bufs.Valid() && bufs.View() == old(bufs.View()) && table.Valid()
    ensures table.View() == old(table.View())[key := old(table.View())[key][..i] + old(table.View())[key][i + 1..]]
    ensures table.itemsByFlow == old(table.itemsByFlow)[key := ItemSlice(old(table.itemsByFlow)[key].arr,
        old(table.itemsByFlow)[key].len - 1)]
  {
    hide *;
    table.DeleteAt(key, i);
  }

  method ClearBuffer(bufs: Batch, table: GroTable, k: nat, offset: nat)
    requires bufs.Valid() && table.Valid() && k < |bufs.View()| && VIRTIO_NET_HDR_LEN <= offset <= |bufs.View()[k].data|
    modifies bufs.arrays
    ensures bufs.Valid() && bufs.View() == ClearAt(old(bufs.View()), k, offset)
    ensures table.Valid() && table.View() == old(table.View())
  {
    hide *;
    bufs.ClearVirtioHeader(k, offset);
  }

  method CoalesceItem(mode: CanCoalesce, bufs: Batch, table: GroTable, pktI: nat, neu: Item, item: Item, offset: nat,
          le: bool)
    returns (result: CoalesceResult, grown: Item)
    requires mode != Unavailable && table.Valid()
    requires bufs.Valid() && neu.TcpItem? && item.TcpItem? && Fits(item, bufs.View(), offset)
    requires pktI < |bufs.bufs| && pktI != item.bufsIndex && offset + item.HdrLen() <= |bufs.View()[pktI].data|
    modifies bufs, bufs.arrays
    ensures bufs.Valid() && table.Valid() && table.View() == old(table.View())
    ensures Coalesced(result, grown, bufs.View()) == CoalesceTcpPackets(mode, pktI, neu, item, old(bufs.View()), offset)
  {
    hide *;
    result, grown := CoalesceTcp(mode, bufs, pktI, neu, item, offset, le);
  }

  /** In the middle of a reverse scan: what is left to examine yields scan. */
  ghost predicate MidScan(bufs: seq<Buf>, offset: nat, pktI: nat, neu: Item, flow: seq<Item>, i: nat, scan: Scan) {
    && neu.TcpItem? && i <= |flow| && ScanOk(bufs, offset, pktI, neu, flow) && NotAmong(flow, pktI)
    && TcpScan(bufs, offset, pktI, neu, flow, i) == scan
  }

  lemma MidScanIs(bufs: seq<Buf>, offset: nat, pktI: nat, neu: Item, flow: seq<Item>, i: nat)
    requires neu.TcpItem? && i <= |flow| && ScanOk(bufs, offset, pktI, neu, flow) && NotAmong(flow, pktI)
    ensures MidScan(bufs, offset, pktI, neu, flow, i, TcpScan(bufs, offset, pktI, neu, flow, i))
  {
    hide ScanOk, TcpScan;
  }

  lemma InScan(bufs: seq<Buf>, offset: nat, pktI: nat, neu: Item, flow: seq<Item>, i: nat, scan: Scan)
    requires MidScan(bufs, offset, pktI, neu, flow, i, scan)
    ensures i <= |flow| && ScanOk(bufs, offset, pktI, neu, flow) && NotAmong(flow, pktI)
    ensures TcpScan(bufs, offset, pktI, neu, flow, i) == scan
  {
    hide ScanOk, TcpScan;
  }

  /**
   The iteration of the reverse scan that examines item i of the slice taken before the scan.
   The slice may be longer than the table's, but the items not yet examined are the same.
   */
  method ExamineItem(bufs: Batch, offset: nat, pktI: nat, neu: Item, table: GroTable, items: ItemSlice, i: nat,
          le: bool,
          ghost flows: map<FlowKey, seq<Item>>, ghost was: seq<Item>, ghost scan: Scan)
    returns (done: bool, result: GroResult, ghost flow: seq<Item>)
    requires bufs.Valid() && table.Valid() && neu.TcpItem? && table.View() == flows[neu.key := was]
    requires MidScan(bufs.View(), offset, pktI, neu, was, i + 1, scan) && i < items.len <= items.arr.Length
    requires neu.key in table.itemsByFlow && items.arr == table.itemsByFlow[neu.key].arr
    modifies bufs, bufs.arrays, table, table.arrays
    ensures bufs.Valid() && table.Valid()
    ensures table.View() == flows[neu.key := flow] && |flow| <= |was|
    ensures neu.key in table.itemsByFlow && items.arr == table.itemsByFlow[neu.key].arr
    ensures if done then bufs.View() == scan.bufs && flow == scan.items && result == ResultOf(scan.verdict)
            else MidScan(bufs.View(), offset, pktI, neu, flow, i, scan)
  {
    hide *;
    ghost var before := bufs.View();
    InScan(before, offset, pktI, neu, was, i + 1, scan);
    FlowOf(table, flows, neu.key, was);
    var item := items.arr[i];
    assert item == was[i];
    ScanFacts(before, offset, pktI, neu, was, i);
    var pktData := bufs.Read(pktI);
    var data := bufs.Read(item.bufsIndex);
    var can := TcpPacketsCanCoalesce(pktData[offset..], neu, item, data[offset..]);
    ScanStep(before, offset, pktI, neu, was, i, can);
    if can == Unavailable {
      MidScanIs(before, offset, pktI, neu, was, i);
      return false, ResultNoop, was;
    }
    var r;
    r, flow := MergeOrDrop(can, bufs, offset, pktI, neu, table, item, i, le, flows, was);
    done, result := r == Success || r == PktInvalidCsum, if r == Success then ResultCoalesced else ResultNoop;
    Verdicts(if can == Prepend then Prepended(item.bufsIndex) else Appended(item.bufsIndex));
    Verdicts(Noop);
    if r == ItemInvalidCsum {
      FewerItems(before, offset, pktI, neu, was, i);
    }
    if !done {
      MidScanIs(bufs.View(), offset, pktI, neu, flow, i);
    }
  }

  /** A flow's part of the table, as its slice shows it. */
  lemma FlowOf(table: GroTable, flows: map<FlowKey, seq<Item>>, key: FlowKey, was: seq<Item>)
    requires table.Valid() && table.View() == flows[key := was]
    ensures key in table.itemsByFlow && table.itemsByFlow[key].len == |was| <= table.itemsByFlow[key].arr.Length
    ensures table.itemsByFlow[key].arr[..|was|] == was && table.View()[key] == was
  {
  }

  /** Tries to merge into item i of the flow: the table and the buffers after a success, or after dropping the item. */
  method MergeOrDrop(mode: CanCoalesce, bufs: Batch, offset: nat, pktI: nat, neu: Item, table: GroTable, item: Item,
          i: nat, le: bool,
          ghost flows: map<FlowKey, seq<Item>>, ghost was: seq<Item>)
    returns (r: CoalesceResult, ghost flow: seq<Item>)
    requires bufs.Valid() && table.Valid() && neu.TcpItem? && item.TcpItem? && mode != Unavailable
        && table.View() == flows[neu.key := was]
    requires i < |was| && item == was[i] && item.key == neu.key && neu.key in table.itemsByFlow
    requires Fits(item, bufs.View(), offset) && item.bufsIndex < |bufs.View()|
    requires pktI < |bufs.View()| && pktI != item.bufsIndex && offset + item.HdrLen() <= |bufs.View()[pktI].data|
    requires VIRTIO_NET_HDR_LEN <= offset <= |bufs.View()[item.bufsIndex].data|
    requires CoalesceTcpPackets(mode, pktI, neu, item, bufs.View(), offset).item.key == neu.key
    requires var c := CoalesceTcpPackets(mode, pktI, neu, item, bufs.View(), offset); !c.result.Success? ==>
        c.bufs == bufs.View()
    modifies bufs, bufs.arrays, table, table.arrays
    ensures bufs.Valid() && table.Valid()
    ensures table.View() == flows[neu.key := flow] && |flow| <= |was|
    ensures neu.key in table.itemsByFlow && table.itemsByFlow[neu.key].arr == old(table.itemsByFlow[neu.key].arr)
    ensures var c := CoalesceTcpPackets(mode, pktI, neu, item, old(bufs.View()), offset);
            && r == c.result
            && bufs.View() == (if r.ItemInvalidCsum? then ClearAt(old(bufs.View()), item.bufsIndex, offset) else c.bufs)
            && flow == if r.Success? then was[i := c.item] else if r.ItemInvalidCsum? then was[..i] + was[i + 1..]
                 else was
  {
    hide *;
    flow := was;
    FlowOf(table, flows, neu.key, was);
    var grown;
    r, grown := CoalesceItem(mode, bufs, table, pktI, neu, item, offset, le);
    match r {
      case Success =>
        UpdateItem(bufs, table, grown, i);
        flow := was[i := grown];
        Overwritten(flows, neu.key, was, flow);
      case ItemInvalidCsum =>
        DeleteItem(bufs, table, item.key, i);
        ClearBuffer(bufs, table, item.bufsIndex, offset);
        flow := was[..i] + was[i + 1..];
        Overwritten(flows, neu.key, was, flow);
      case _ =>
    }
  }

  lemma SameFlow(flows: map<FlowKey, seq<Item>>, key: FlowKey)
    requires key in flows
    ensures flows[key := flows[key]] == flows
  {
  }

  lemma Verdicts(v: Verdict)
    ensures ResultOf(v) == match v case Noop => ResultNoop case Inserted => ResultTableInsert case _ => ResultCoalesced
  {
  }

  /** The reverse scan over the flow's items. */
  method ScanItems(bufs: Batch, offset: nat, pktI: nat, neu: Item, table: GroTable, items: ItemSlice, le: bool,
          ghost flows: map<FlowKey, seq<Item>>, ghost was: seq<Item>, ghost scan: Scan)
    returns (done: bool, result: GroResult, ghost flow: seq<Item>)
    requires bufs.Valid() && table.Valid() && neu.TcpItem? && table.View() == flows[neu.key := was]
    requires MidScan(bufs.View(), offset, pktI, neu, was, items.len, scan)
    requires neu.key in table.itemsByFlow && items == table.itemsByFlow[neu.key] && items.len <= items.arr.Length
    modifies bufs, bufs.arrays, table, table.arrays
    ensures bufs.Valid() && table.Valid()
    ensures table.View() == flows[neu.key := flow] && |flow| <= |was|
    ensures if done then bufs.View() == scan.bufs && flow == scan.items && result == ResultOf(scan.verdict)
            else MidScan(bufs.View(), offset, pktI, neu, flow, 0, scan)
  {
    hide *;
    flow := was;
    done, result := false, ResultNoop;
    var i := items.len;
    while i > 0
      invariant 0 <= i <= items.len <= items.arr.Length && bufs.Valid() && table.Valid()
      invariant table.View() == flows[neu.key := flow] && |flow| <= |was|
      invariant neu.key in table.itemsByFlow && items.arr == table.itemsByFlow[neu.key].arr
      invariant MidScan(bufs.View(), offset, pktI, neu, flow, i, scan)
    {
      i := i - 1;
      done, result, flow := ExamineItem(bufs, offset, pktI, neu, table, items, i, le, flows, flow, scan);
      if done {
        return;
      }
    }
    done := false;
  }

  /** The reverse scan, and the insertion when nothing took the packet. */
  method TcpScanItems(bufs: Batch, offset: nat, pktI: nat, neu: Item, table: GroTable, items: ItemSlice, le: bool)
    returns (result: GroResult)
    requires bufs.Valid() && table.Valid() && neu.TcpItem? && neu.key in table.View()
    requires ScanOk(bufs.View(), offset, pktI, neu, table.View()[neu.key]) && NotAmong(table.View()[neu.key], pktI)
    requires items == table.itemsByFlow[neu.key] && items.len < table.batchSize
    modifies bufs, bufs.arrays, table, table.arrays
    ensures bufs.Valid() && table.Valid()
    ensures var scan := TcpScan(old(bufs.View()), offset, pktI, neu, old(table.View())[neu.key], items.len);
            && bufs.View() == scan.bufs
            && table.View() == old(table.View())[neu.key := scan.items]
            && result == ResultOf(scan.verdict)
  {
    hide *;
    ghost var flows := table.View();
    ghost var flow := flows[neu.key];
    SameFlow(flows, neu.key);
    FlowOf(table, flows, neu.key, flow);
    ghost var scan := TcpScan(bufs.View(), offset, pktI, neu, flow, items.len);
    MidScanIs(bufs.View(), offset, pktI, neu, flow, items.len);
    var done;
    done, result, flow := ScanItems(bufs, offset, pktI, neu, table, items, le, flows, flow, scan);
    if !done {
      InScan(bufs.View(), offset, pktI, neu, flow, 0, scan);
      NothingTookIt(bufs.View(), offset, pktI, neu, flow);
      RoomLeft(table, neu.key, flow);
      InsertItem(bufs, table, neu);
      ExtendedOnce(flows, neu, flow);
      result := ResultTableInsert;
    }
  }

  lemma NothingTookIt(bufs: seq<Buf>, offset: nat, pktI: nat, neu: Item, flow: seq<Item>)
    requires neu.TcpItem? && ScanOk(bufs, offset, pktI, neu, flow)
    ensures TcpScan(bufs, offset, pktI, neu, flow, 0) == Scan(bufs, flow + [neu], Inserted)
    ensures ResultOf(Inserted) == ResultTableInsert
  {
  }

  lemma RoomLeft(table: GroTable, key: FlowKey, flow: seq<Item>)
    requires table.Valid() && key in table.View() && table.View()[key] == flow && |flow| < table.batchSize
    ensures HasRoom(table, key)
  {
  }

  lemma RoomIs(table: GroTable, key: FlowKey)
    requires table.Valid() && HasRoom(table, key)
    ensures key in table.View() ==> |table.View()[key]| < table.batchSize
  {
  }

  /** tcpGRO, for a packet that classifies as neu. */
  method TcpGroItem(bufs: Batch, offset: nat, pktI: nat, neu: Item, table: GroTable, le: bool)
    returns (result: GroResult)
    requires bufs.Valid() && table.Valid() && neu.TcpItem?
    requires FlowReady(bufs.View(), offset, pktI, neu, table.View()) && HasRoom(table, neu.key)
    modifies bufs, bufs.arrays, table, table.arrays
    ensures bufs.Valid() && table.Valid() && |table.View()| <= old(|table.View()|) + 1
    ensures var scan := FlowScan(old(bufs.View()), offset, pktI, neu, old(table.View()));
            && bufs.View() == scan.bufs
            && table.View() == old(table.View())[neu.key := scan.items]
            && result == ResultOf(scan.verdict)
  {
    hide *;
    FlowScanIs(bufs.View(), offset, pktI, neu, table.View());
    RoomInSlice(table, neu.key);
    KeysGrow(table.View(), neu.key, FlowScan(bufs.View(), offset, pktI, neu, table.View()).items);
    var items, existing := Lookup(bufs, table, neu);
    if !existing {
      return ResultTableInsert;
    }
    result := TcpScanItems(bufs, offset, pktI, neu, table, items, le);
  }

  lemma KeysGrow(flows: map<FlowKey, seq<Item>>, key: FlowKey, items: seq<Item>)
    ensures |flows[key := items]| <= |flows| + 1
  {
  }

  lemma FlowScanIs(bufs: seq<Buf>, offset: nat, pktI: nat, neu: Item, flows: map<FlowKey, seq<Item>>)
    requires FlowReady(bufs, offset, pktI, neu, flows)
    ensures neu.key !in flows ==> FlowScan(bufs, offset, pktI, neu, flows) == Scan(bufs, [neu], Inserted)
    ensures neu.key in flows ==> ScanOk(bufs, offset, pktI, neu, flows[neu.key]) && NotAmong(flows[neu.key], pktI)
    ensures neu.key in flows && neu.UdpItem? ==> flows[neu.key] != []
    ensures neu.key in flows && neu.TcpItem? ==>
              FlowScan(bufs, offset, pktI, neu, flows)
                  == TcpScan(bufs, offset, pktI, neu, flows[neu.key], |flows[neu.key]|)
    ensures neu.key in flows && neu.UdpItem? ==>
              FlowScan(bufs, offset, pktI, neu, flows) == UdpScan(bufs, offset, pktI, neu, flows[neu.key])
    ensures ResultOf(Inserted) == ResultTableInsert
  {
  }

  method Lookup(bufs: Batch, table: GroTable, neu: Item) returns (items: ItemSlice, existing: bool)
    requires bufs.Valid() && table.Valid() && (neu.key !in table.itemsByFlow ==> |table.itemsPool| > 0)
    modifies table, table.arrays
    ensures bufs.Valid() && bufs.View() == old(bufs.View()) && table.Valid()
        && existing == (neu.key in old(table.View()))
    ensures existing ==>
              && table.View() == old(table.View())
              && table.itemsByFlow == old(table.itemsByFlow) && items == table.itemsByFlow[neu.key]
    ensures !existing ==> table.View() == old(table.View())[neu.key := [neu]]
  {
    hide *;
    items, existing := table.LookupOrInsert(neu);
  }

  method CoalesceUdpItem(bufs: Batch, table: GroTable, pkt: seq<byte>, item: Item, offset: nat, le: bool)
    returns (result: CoalesceResult, grown: Item)
    requires bufs.Valid() && table.Valid() && item.UdpItem? && Fits(item, bufs.View(), offset) && item.HdrLen() <= |pkt|
    modifies bufs, bufs.arrays
    ensures bufs.Valid() && table.Valid() && table.View() == old(table.View())
    ensures Coalesced(result, grown, bufs.View()) == CoalesceUdpPackets(pkt, item, old(bufs.View()), offset)
  {
    hide *;
    result, grown := CoalesceUdp(bufs, pkt, item, offset, le);
  }

  /** The scan of a UDP flow, case by case. */
  lemma UdpStep(bufs: seq<Buf>, offset: nat, pktI: nat, neu: Item, items: seq<Item>)
    requires neu.UdpItem? && items != [] && ScanOk(bufs, offset, pktI, neu, items)
    ensures var item := items[|items| - 1];
            && pktI < |bufs| && offset <= |bufs[pktI].data|
            && item.UdpItem? && item.key == neu.key && item.gsoSize >= 1 && Fits(item, bufs, offset)
            && item.bufsIndex < |bufs| && offset <= |bufs[item.bufsIndex].data|
            && neu.iphLen as nat + UDPH_LEN <= |bufs[item.bufsIndex].data[offset..]|
            && item.HdrLen() <= |bufs[pktI].data[offset..]|
            && var scan := UdpScan(bufs, offset, pktI, neu, items);
               var pkt := bufs[pktI].data[offset..];
               var c := CoalesceUdpPackets(pkt, item, bufs, offset);
               var merge := UdpPacketsCanCoalesce(pkt, neu, item, bufs[item.bufsIndex].data[offset..]) == Append;
               && c.item.key == neu.key
               && (!c.result.Success? ==> c.bufs == bufs)
               && scan == if merge && c.result.Success? then
                            Scan(c.bufs, items[|items| - 1 := c.item], Appended(item.bufsIndex))
                          else
                            var invalid := (merge && c.result.PktInvalidCsum?) || neu.cSumKnownInvalid;
                            Scan(bufs, items + [neu.(cSumKnownInvalid := invalid)], Inserted)
  {
    hide UdpPacketsCanCoalesce, ChecksumValid;
  }

  /** udpGRO, for a packet that classifies as neu: only the flow's last item can take it. */
  method UdpGroItem(bufs: Batch, offset: nat, pktI: nat, neu: Item, table: GroTable, le: bool)
    returns (result: GroResult)
    requires bufs.Valid() && table.Valid() && neu.UdpItem?
    requires FlowReady(bufs.View(), offset, pktI, neu, table.View()) && HasRoom(table, neu.key)
    modifies bufs, bufs.arrays, table, table.arrays
    ensures bufs.Valid() && table.Valid()
    ensures var scan := FlowScan(old(bufs.View()), offset, pktI, neu, old(table.View()));
            && bufs.View() == scan.bufs
            && table.View() == old(table.View())[neu.key := scan.items]
            && result == ResultOf(scan.verdict)
  {
    hide *;
    FlowScanIs(bufs.View(), offset, pktI, neu, table.View());
    RoomInSlice(table, neu.key);
    var items, existing := Lookup(bufs, table, neu);
    if !existing {
      return ResultTableInsert;
    }
    ghost var flows := table.View();
    ghost var was := flows[neu.key];
    SameFlow(flows, neu.key);
    RoomIs(table, neu.key);
    result := UdpOfferLast(bufs, offset, pktI, neu, table, items, le, flows, was,
        UdpScan(bufs.View(), offset, pktI, neu, was));
  }

  /** coalesceUDPPackets with the flow's last item, and the update of the table after a success. */
  method UdpMergeLast(bufs: Batch, offset: nat, pkt: seq<byte>, table: GroTable, item: Item, i: nat, le: bool,
          ghost flows: map<FlowKey, seq<Item>>, ghost was: seq<Item>)
    returns (r: CoalesceResult)
    requires bufs.Valid() && table.Valid() && table.View() == flows[item.key := was] && i < |was| && item == was[i]
    requires item.UdpItem? && Fits(item, bufs.View(), offset) && item.HdrLen() <= |pkt|
    requires CoalesceUdpPackets(pkt, item, bufs.View(), offset).item.key == item.key
    modifies bufs, bufs.arrays, table.arrays
    ensures bufs.Valid() && table.Valid()
    ensures var c := CoalesceUdpPackets(pkt, item, old(bufs.View()), offset);
            && r == c.result && bufs.View() == c.bufs
            && table.View() == flows[item.key := if r.Success? then was[i := c.item] else was]
  {
    hide *;
    FlowOf(table, flows, item.key, was);
    var grown;
    r, grown := CoalesceUdpItem(bufs, table, pkt, item, offset, le);
    if r == Success {
      UpdateItem(bufs, table, grown, i);
      Overwritten(flows, item.key, was, was[i := grown]);
    }
  }

  method UdpOfferLast(bufs: Batch, offset: nat, pktI: nat, neu: Item, table: GroTable, items: ItemSlice, le: bool,
          ghost flows: map<FlowKey, seq<Item>>, ghost was: seq<Item>, ghost scan: Scan)
    returns (result: GroResult)
    requires bufs.Valid() && table.Valid() && neu.UdpItem? && table.View() == flows[neu.key := was] && was != []
    requires neu.key in table.itemsByFlow && items == table.itemsByFlow[neu.key] && |was| < table.batchSize
    requires ScanOk(bufs.View(), offset, pktI, neu, was) && scan == UdpScan(bufs.View(), offset, pktI, neu, was)
    modifies bufs, bufs.arrays, table, table.arrays
    ensures bufs.Valid() && table.Valid()
    ensures bufs.View() == scan.bufs && table.View() == flows[neu.key := scan.items] && result == ResultOf(scan.verdict)
  {
    hide *;
    FlowOf(table, flows, neu.key, was);
    UdpStep(bufs.View(), offset, pktI, neu, was);
    var item := items.arr[items.len - 1];
    assert item == was[|was| - 1];
    Verdicts(Appended(item.bufsIndex));
    Verdicts(Inserted);
    var pktData := bufs.Read(pktI);
    var data := bufs.Read(item.bufsIndex);
    var pktCSumKnownInvalid := neu.cSumKnownInvalid;
    if UdpPacketsCanCoalesce(pktData[offset..], neu, item, data[offset..]) == Append {
      var r := UdpMergeLast(bufs, offset, pktData[offset..], table, item, items.len - 1, le, flows, was);
      if r == Success {
        return ResultCoalesced;
      }
      if r == PktInvalidCsum {
        pktCSumKnownInvalid := true;
      }
    }
    InsertLast(bufs, table, neu.(cSumKnownInvalid := pktCSumKnownInvalid), flows, was);
    return ResultTableInsert;
  }

  method InsertLast(bufs: Batch, table: GroTable, item: Item, ghost flows: map<FlowKey, seq<Item>>,
          ghost was: seq<Item>)
    requires bufs.Valid() && table.Valid() && table.View() == flows[item.key := was] && |was| < table.batchSize
    modifies table, table.arrays
    ensures bufs.Valid() && bufs.View() == old(bufs.View())
    ensures table.Valid() && table.View() == flows[item.key := was + [item]]
  {
    hide *;
    FlowOf(table, flows, item.key, was);
    RoomLeft(table, item.key, was);
    ExtendedOnce(flows, item, was);
    InsertItem(bufs, table, item);
  }

  lemma ExtendedOnce(flows: map<FlowKey, seq<Item>>, item: Item, was: seq<Item>)
    ensures Extended(flows[item.key := was], item) == flows[item.key := was + [item]]
  {
  }

  // ---- accounting ---------------------------------------------------------------------

  lemma PutInPacket(data: seq<byte>, offset: nat, at: nat, v: u16)
    requires offset + at + 2 <= |data|
    ensures PutBE16(data, offset + at, v) == data[..offset] + PutBE16(data[offset..], at, v)
    ensures PutBE16(data, offset + at, v)[offset..] == PutBE16(data[offset..], at, v)
    ensures PutBE16(data, offset + at, v)[..offset] == data[..offset]
  {
  }

  /** Buffer k of v, with its packet from offset on replaced by pkt. */
  function WithPacket(v: seq<Buf>, k: nat, offset: nat, pkt: seq<byte>): seq<Buf>
    requires k < |v| && offset <= |v[k].data|
  {
    v[k := v[k].(data := v[k].data[..offset] + pkt)]
  }

  /** binary.BigEndian.PutUint16(pkt[at:], v), where pkt is bufs[k][offset:]. */
  method PutPacketUint16(bufs: Batch, k: nat, offset: nat, at: nat, v: u16)
    requires bufs.Valid() && k < |bufs.View()| && offset + at + 2 <= |bufs.View()[k].data|
    modifies bufs.arrays
    ensures bufs.Valid() && bufs.View()
        == WithPacket(old(bufs.View()), k, offset, PutBE16(old(bufs.View())[k].data[offset..], at, v))
    ensures |bufs.View()[k].data| == |old(bufs.View())[k].data|
    ensures bufs.View()[k].data[offset..] == PutBE16(old(bufs.View())[k].data[offset..], at, v)
  {
    PutInPacket(bufs.View()[k].data, offset, at, v);
    bufs.PutUint16(k, offset + at, v);
  }

  /** pkt is what bufs[k][offset:] holds, in otherwise unchanged buffers. */
  ghost predicate BufferHolds(now: seq<Buf>, v: seq<Buf>, k: nat, offset: nat, pkt: seq<byte>) {
    && k < |v| && offset <= |v[k].data| && now == WithPacket(v, k, offset, pkt)
    && |now| == |v| && offset <= |now[k].data| == offset + |pkt| && now[k].data[offset..] == pkt
  }

  lemma PacketHeld(v: seq<Buf>, k: nat, offset: nat)
    requires k < |v| && offset <= |v[k].data|
    ensures BufferHolds(v, v, k, offset, v[k].data[offset..])
  {
    assert v[k].data == v[k].data[..offset] + v[k].data[offset..];
  }

  lemma PacketReplaced(now: seq<Buf>, v: seq<Buf>, k: nat, offset: nat, was: seq<byte>, pkt: seq<byte>)
    requires BufferHolds(now, v, k, offset, was)
    ensures k < |now| && offset <= |now[k].data| && BufferHolds(WithPacket(now, k, offset, pkt), v, k, offset, pkt)
  {
  }

  /** Writes a field of the packet in buffer k, keeping track of the packet. */
  method PutPacketField(bufs: Batch, k: nat, offset: nat, at: nat, v: u16, pkt: seq<byte>, ghost start: seq<Buf>)
    returns (r: seq<byte>)
    requires bufs.Valid() && BufferHolds(bufs.View(), start, k, offset, pkt) && at + 2 <= |pkt|
    modifies bufs.arrays
    ensures r == PutBE16(pkt, at, v)
    ensures bufs.Valid() && BufferHolds(bufs.View(), start, k, offset, r)
  {
    hide *;
    HeldFacts(bufs.View(), start, k, offset, pkt);
    r := PutBE16(pkt, at, v);
    PacketReplaced(bufs.View(), start, k, offset, pkt, r);
    PutPacketUint16(bufs, k, offset, at, v);
  }

  lemma HeldFacts(now: seq<Buf>, v: seq<Buf>, k: nat, offset: nat, pkt: seq<byte>)
    requires BufferHolds(now, v, k, offset, pkt)
    ensures k < |now| && offset <= |now[k].data| == offset + |pkt| && now[k].data[offset..] == pkt
    ensures k < |v| && offset <= |v[k].data| && now == WithPacket(v, k, offset, pkt)
  {
  }

  /** The IPv4 or IPv6 length, and the IPv4 header checksum, of a merged packet. */
  method AccountIpHeader(bufs: Batch, k: nat, offset: nat, item: Item, pkt: seq<byte>, le: bool, ghost start: seq<Buf>)
    returns (r: seq<byte>)
    requires bufs.Valid() && BufferHolds(bufs.View(), start, k, offset, pkt) && Shaped(item) && item.HdrLen() <= |pkt|
    modifies bufs.arrays
    ensures r == AccountIp(pkt, item)
    ensures bufs.Valid() && BufferHolds(bufs.View(), start, k, offset, r)
  {
    hide *;
    AccountIpIs(pkt, item);
    var iphLen: nat := item.iphLen;
    if item.key.isV6 {
      r := PutPacketField(bufs, k, offset, 4, U16(|pkt| - iphLen), pkt, start);
    } else {
      r := AccountIpv4Header(bufs, k, offset, iphLen, pkt, le, start);
    }
  }

  method AccountIpv4Header(bufs: Batch, k: nat, offset: nat, iphLen: nat, pkt: seq<byte>, le: bool,
          ghost start: seq<Buf>) returns (r: seq<byte>)
    requires bufs.Valid() && BufferHolds(bufs.View(), start, k, offset, pkt) && 20 <= iphLen <= |pkt|
    modifies bufs.arrays
    ensures var sized := PutBE16(PutBE16(pkt, 10, 0), 2, U16(|pkt|));
            r == PutBE16(sized, 10, 0xffff - OnesFold(0 + WordSum(sized[..iphLen])))
    ensures bufs.Valid() && BufferHolds(bufs.View(), start, k, offset, r)
  {
    hide PutBE16, BufferHolds, OnesFold, WordSum, WithPacket, BE16;
    var cleared := PutPacketField(bufs, k, offset, 10, 0, pkt, start);
    var sized := PutPacketField(bufs, k, offset, 2, U16(|pkt|), cleared, start);
    var c := Checksum(le, sized[..iphLen], 0);
    r := PutPacketField(bufs, k, offset, 10, 0xffff - c, sized, start);
  }

  lemma AccountIpIs(pkt: seq<byte>, item: Item)
    requires Shaped(item) && item.HdrLen() <= |pkt|
    ensures 20 <= item.iphLen <= |pkt|
    ensures AccountIp(pkt, item)
         == if item.key.isV6 then PutBE16(pkt, 4, U16(|pkt| - item.iphLen))
            else var sized := PutBE16(PutBE16(pkt, 10, 0), 2, U16(|pkt|));
                 PutBE16(sized, 10, 0xffff - OnesFold(0 + WordSum(sized[..item.iphLen])))
  {
    hide OnesFold, WordSum;
  }

  /** The UDP length, and the pseudo-header checksum at the transport checksum offset. */
  method AccountTransportHeader(bufs: Batch, k: nat, offset: nat, item: Item, pkt: seq<byte>, le: bool,
          ghost start: seq<Buf>) returns (r: seq<byte>)
    requires bufs.Valid() && BufferHolds(bufs.View(), start, k, offset, pkt) && Shaped(item) && item.HdrLen() <= |pkt|
    modifies bufs.arrays
    ensures r == AccountTransport(pkt, item)
    ensures bufs.Valid() && BufferHolds(bufs.View(), start, k, offset, r)
  {
    hide *;
    AccountTransportIs(pkt, item);
    var iphLen: nat := item.iphLen;
    var len := U16(|pkt| - iphLen);
    var c := FoldedPseudoHeader(le, item.Proto(), SrcAddr(pkt, item.key.isV6), DstAddr(pkt, item.key.isV6), len);
    r := pkt;
    if item.UdpItem? {
      r := PutPacketField(bufs, k, offset, iphLen + 4, len, r, start);
    }
    r := PutPacketField(bufs, k, offset, iphLen + item.CsumOffset(), c, r, start);
  }

  /** checksum([]byte{}, pseudoHeaderChecksumNoFold(...)) */
  method FoldedPseudoHeader(le: bool, proto: byte, src: seq<byte>, dst: seq<byte>, len: u16) returns (c: u16)
    ensures c == OnesFold(PseudoSum(proto, src, dst, len))
  {
    hide *;
    var psum := PseudoHeaderChecksumNoFold(le, proto, src, dst, len);
    c := Checksum(le, [], psum);
    FoldedPseudo(psum, PseudoSum(proto, src, dst, len));
  }

  lemma AccountTransportIs(pkt: seq<byte>, item: Item)
    requires Shaped(item) && item.HdrLen() <= |pkt|
    ensures item.iphLen as nat + 8 <= |pkt| && item.iphLen as nat + item.CsumOffset() + 2 <= |pkt|
    ensures |pkt| >= if item.key.isV6 then 40 else 20
    ensures var len := U16(|pkt| - item.iphLen);
            AccountTransport(pkt, item) ==
            PutBE16(if item.UdpItem? then PutBE16(pkt, item.iphLen as nat + 4, len) else pkt,
              item.iphLen as nat + item.CsumOffset(),
              OnesFold(PseudoSum(item.Proto(), SrcAddr(pkt, item.key.isV6), DstAddr(pkt, item.key.isV6), len)))
  {
    hide OnesFold, WordSum, PseudoSum;
  }

  lemma FoldedPseudo(psum: nat, sum: nat)
    requires SameFold(psum, sum)
    ensures OnesFold(psum + WordSum([])) == OnesFold(sum)
  {
  }

  /** The accounting of a merged packet in place: headers of the packet, then the virtio header before it. */
  method AccountMerged(bufs: Batch, offset: nat, item: Item, le: bool)
    requires bufs.Valid() && item.bufsIndex < |bufs.View()| && Shaped(item) && VIRTIO_NET_HDR_LEN <= offset
    requires offset + item.HdrLen() <= |bufs.View()[item.bufsIndex].data|
    modifies bufs.arrays
    ensures bufs.Valid()
    ensures bufs.View() == AccountedView(le, old(bufs.View()), offset, item)
  {
    hide *;
    var k: nat := item.bufsIndex;
    var data := bufs.Read(k);
    ghost var start := bufs.View();
    PacketHeld(start, k, offset);
    var pkt := AccountIpHeader(bufs, k, offset, item, data[offset..], le, start);
    pkt := AccountTransportHeader(bufs, k, offset, item, pkt, le, start);
    HeldFacts(bufs.View(), start, k, offset, pkt);
    HeaderInserted(le, start, k, offset, item);
    bufs.Copy(k, offset - VIRTIO_NET_HDR_LEN, Encode(le, HeaderOf(item)));
  }

  /** The buffers with a merged item's buffer accounted for. */
  function AccountedView(le: bool, v: seq<Buf>, offset: nat, item: Item): seq<Buf>
    requires item.bufsIndex < |v| && Shaped(item) && VIRTIO_NET_HDR_LEN <= offset
    requires offset + item.HdrLen() <= |v[item.bufsIndex].data|
  {
    var data := v[item.bufsIndex].data;
    v[item.bufsIndex := v[item.bufsIndex].(data :=
      data[..offset - VIRTIO_NET_HDR_LEN] + Encode(le, HeaderOf(item)) + AccountPacket(data[offset..], item))]
  }

  lemma HeaderInserted(le: bool, v: seq<Buf>, k: nat, offset: nat, item: Item)
    requires k == item.bufsIndex < |v| && Shaped(item) && VIRTIO_NET_HDR_LEN <= offset
        && offset + item.HdrLen() <= |v[k].data|
    ensures item.HdrLen() <= |v[k].data[offset..]|
    ensures var pkt := AccountTransport(AccountIp(v[k].data[offset..], item), item);
            var w := WithPacket(v, k, offset, pkt);
            && offset <= |w[k].data|
            && AccountedView(le, v, offset, item)
               == w[k := w[k].(data := Splice(w[k].data, offset - VIRTIO_NET_HDR_LEN, Encode(le, HeaderOf(item))))]
  {
    hide AccountIp, AccountTransport, Encode, HeaderOf;
    var data, pkt := v[k].data, AccountTransport(AccountIp(v[k].data[offset..], item), item);
    assert Splice(data[..offset] + pkt, offset - VIRTIO_NET_HDR_LEN, Encode(le, HeaderOf(item)))
        == data[..offset - VIRTIO_NET_HDR_LEN] + Encode(le, HeaderOf(item)) + pkt;
  }

  /** One item's share of apply*CoalesceAccounting. */
  method AccountBuffer(bufs: Batch, offset: nat, item: Item, le: bool)
    requires bufs.Valid() && item.bufsIndex < |bufs.View()| && Shaped(item) && VIRTIO_NET_HDR_LEN <= offset
    requires offset + item.HdrLen() <= |bufs.View()[item.bufsIndex].data|
    modifies bufs.arrays
    ensures bufs.Valid() && |bufs.View()| == old(|bufs.View()|)
    ensures ItemAccounted(le, offset, item, old(bufs.View()), bufs.View())
    ensures forall k :: 0 <= k < |bufs.View()| && k != item.bufsIndex ==> bufs.View()[k] == old(bufs.View())[k]
  {
    hide AccountPacket, Encode, ClearHeader, HeaderOf, Shaped;
    if item.numMerged > 0 {
      AccountMerged(bufs, offset, item, le);
    } else {
      bufs.ClearVirtioHeader(item.bufsIndex, offset);
    }
  }
}
