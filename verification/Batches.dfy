/** Whole batches over mutable buffers and tables: accounting, handleGRO and the Write bracket. */
module Batches {
  import opened Bytes
  import opened Options
  import opened Packet
  import opened Gro
  import opened GroItem
  import opened GroInvariant
  import opened Accounting
  import opened Delivery
  import opened Buffers
  import opened Tables
  import opened Offload

  // ---- accounting for a table ---------------------------------------------------------

  /** Every item's buffer is there, with whole headers. */
  ghost predicate Accountable(offset: nat, flows: map<FlowKey, seq<Item>>, v: seq<Buf>) {
    forall key, j :: key in flows && 0 <= j < |flows[key]| ==>
      var item := flows[key][j];
      item.key == key && item.bufsIndex < |v| && Shaped(item) && offset + item.HdrLen() <= |v[item.bufsIndex].data|
  }

  /** No two items describe the same buffer. */
  ghost predicate OwnBuffers(flows: map<FlowKey, seq<Item>>) {
    forall key, j, key', j' ::
      key in flows && key' in flows && 0 <= j < |flows[key]| && 0 <= j' < |flows[key']|
          && flows[key][j].bufsIndex == flows[key'][j'].bufsIndex
      ==> key == key' && j == j'
  }

  /** done is a part of flows: some of the flows whole, or up to some item. */
  ghost predicate PartOf(done: map<FlowKey, seq<Item>>, flows: map<FlowKey, seq<Item>>) {
    forall key :: key in done ==> key in flows && done[key] <= flows[key]
  }

  /** An item beyond the accounted part has an untouched buffer. */
  lemma NotYetAccounted(done: map<FlowKey, seq<Item>>, flows: map<FlowKey, seq<Item>>, key: FlowKey, j: nat)
    requires PartOf(done, flows) && OwnBuffers(flows) && key in flows && j < |flows[key]|
    requires key in done ==> |done[key]| <= j
    ensures !Tracked(done, flows[key][j].bufsIndex)
  {
  }

  /** Accounting for one more item extends the accounted part. */
  lemma OneMoreAccounted(le: bool, offset: nat, done: map<FlowKey, seq<Item>>, item: Item, before: seq<Buf>,
          now: seq<Buf>, after: seq<Buf>)
    requires AccountedBy(le, offset, done, before, now) && !Tracked(done, item.bufsIndex)
    requires |after| == |now| && ItemAccounted(le, offset, item, now, after)
    requires forall k :: 0 <= k < |now| && k != item.bufsIndex ==> after[k] == now[k]
    ensures AccountedBy(le, offset, Extended(done, item), before, after)
  {
    hide AccountItem;
    var more := Extended(done, item);
    forall key, j | key in more && 0 <= j < |more[key]|
      ensures ItemAccounted(le, offset, more[key][j], before, after)
    {
      if key in done && j < |done[key]| {
        assert more[key][j] == done[key][j];
        assert ItemAccounted(le, offset, done[key][j], before, now);
        assert TrackedIn(done[key], done[key][j].bufsIndex);
      }
    }
    forall k | 0 <= k < |before| && !Tracked(more, k)
      ensures after[k] == before[k]
    {
      if Tracked(done, k) || k == item.bufsIndex {
        TrackedExtended(done, item, k);
      }
    }
  }

  lemma TrackedWithEmpty(done: map<FlowKey, seq<Item>>, key: FlowKey, k: nat)
    requires key !in done && Tracked(done, k)
    ensures Tracked(done[key := []], k)
  {
    var key' :| key' in done && TrackedIn(done[key'], k);
    assert TrackedIn(done[key := []][key'], k);
  }

  /** A flow without items accounts for nothing. */
  lemma EmptyFlowAccounted(le: bool, offset: nat, done: map<FlowKey, seq<Item>>, key: FlowKey, before: seq<Buf>,
          now: seq<Buf>)
    requires AccountedBy(le, offset, done, before, now) && key !in done
    ensures AccountedBy(le, offset, done[key := []], before, now)
  {
    hide AccountItem;
    forall k | 0 <= k < |before| && !Tracked(done[key := []], k)
      ensures now[k] == before[k]
    {
      if Tracked(done, k) {
        TrackedWithEmpty(done, key, k);
      }
    }
  }

  lemma TrackedInEither(tcp: map<FlowKey, seq<Item>>, udp: map<FlowKey, seq<Item>>, k: nat)
    requires tcp.Keys !! udp.Keys && (Tracked(tcp, k) || Tracked(udp, k))
    ensures Tracked(tcp + udp, k)
  {
    if Tracked(tcp, k) {
      var a :| a in tcp && TrackedIn(tcp[a], k);
      assert TrackedIn((tcp + udp)[a], k);
    } else {
      var b :| b in udp && TrackedIn(udp[b], k);
      assert TrackedIn((tcp + udp)[b], k);
    }
  }

  /** A buffer tracked by one table is not tracked by the other. */
  lemma TrackedOnce(tcp: map<FlowKey, seq<Item>>, udp: map<FlowKey, seq<Item>>, a: FlowKey, i: nat, b: FlowKey, j: nat)
    requires tcp.Keys !! udp.Keys && OwnBuffers(tcp + udp)
    requires a in tcp && i < |tcp[a]| && b in udp && j < |udp[b]|
    ensures tcp[a][i].bufsIndex != udp[b][j].bufsIndex
  {
    var both := tcp + udp;
    assert both[a] == tcp[a] && both[b] == udp[b] && a != b;
  }

  /** The two tables of a batch accounted for one after the other. */
  lemma BothAccounted(le: bool, offset: nat, tcp: map<FlowKey, seq<Item>>, udp: map<FlowKey, seq<Item>>,
          before: seq<Buf>, mid: seq<Buf>, after: seq<Buf>)
    requires AccountedBy(le, offset, tcp, before, mid) && AccountedBy(le, offset, udp, mid, after)
    requires OwnBuffers(tcp + udp) && tcp.Keys !! udp.Keys
    ensures AccountedBy(le, offset, tcp + udp, before, after)
  {
    hide AccountItem, OwnBuffers;
    var both := tcp + udp;
    forall a, i, b, j | a in tcp && 0 <= i < |tcp[a]| && b in udp && 0 <= j < |udp[b]|
      ensures tcp[a][i].bufsIndex != udp[b][j].bufsIndex
    {
      TrackedOnce(tcp, udp, a, i, b, j);
    }
    forall key, j | key in both && 0 <= j < |both[key]|
      ensures ItemAccounted(le, offset, both[key][j], before, after)
    {
      if key in udp {
        assert ItemAccounted(le, offset, udp[key][j], mid, after);
        assert !Tracked(tcp, udp[key][j].bufsIndex);
      } else {
        assert ItemAccounted(le, offset, tcp[key][j], before, mid);
        assert !Tracked(udp, tcp[key][j].bufsIndex);
      }
    }
    forall k | 0 <= k < |before| && !Tracked(both, k)
      ensures after[k] == before[k]
    {
      if Tracked(tcp, k) || Tracked(udp, k) {
        TrackedInEither(tcp, udp, k);
      }
    }
  }

  method AccountOne(bufs: Batch, table: GroTable, offset: nat, item: Item, le: bool)
    requires bufs.Valid() && table.Valid() && item.bufsIndex < |bufs.View()| && Shaped(item)
        && VIRTIO_NET_HDR_LEN <= offset
    requires offset + item.HdrLen() <= |bufs.View()[item.bufsIndex].data|
    modifies bufs.arrays
    ensures bufs.Valid() && table.Valid() && table.View() == old(table.View()) && |bufs.View()| == old(|bufs.View()|)
    ensures ItemAccounted(le, offset, item, old(bufs.View()), bufs.View())
    ensures forall k :: 0 <= k < |bufs.View()| && k != item.bufsIndex ==> bufs.View()[k] == old(bufs.View())[k]
  {
    hide *;
    AccountBuffer(bufs, offset, item, le);
  }

  /** Item j's buffer, when only buffers of accounted items have changed. */
  lemma ItemReady(le: bool, offset: nat, done: map<FlowKey, seq<Item>>, flows: map<FlowKey, seq<Item>>,
          before: seq<Buf>, now: seq<Buf>, key: FlowKey, j: nat)
    requires AccountedBy(le, offset, done, before, now) && PartOf(done, flows) && OwnBuffers(flows)
        && Accountable(offset, flows, before)
    requires key in flows && j < |flows[key]| && key in done && |done[key]| == j
    ensures var item := flows[key][j];
            && item.key == key && item.bufsIndex < |now| && Shaped(item)
               && offset + item.HdrLen() <= |now[item.bufsIndex].data|
            && !Tracked(done, item.bufsIndex)
            && Extended(done, item) == done[key := flows[key][..j + 1]] && PartOf(Extended(done, item), flows)
  {
    hide AccountItem, Shaped;
    NotYetAccounted(done, flows, key, j);
    assert done[key] == flows[key][..j];
    assert flows[key][..j] + [flows[key][j]] == flows[key][..j + 1];
  }

  lemma EmptyPart(done: map<FlowKey, seq<Item>>, flows: map<FlowKey, seq<Item>>, key: FlowKey)
    requires PartOf(done, flows) && key in flows
    ensures PartOf(done[key := []], flows)
  {
  }

  /** One more flow of those not in keys. */
  lemma OneMoreFlow(flows: map<FlowKey, seq<Item>>, keys: set<FlowKey>, key: FlowKey)
    requires keys <= flows.Keys && key in keys
    ensures key in flows && key !in flows - keys && (flows - keys)[key := flows[key]] == flows - (keys - {key})
    ensures PartOf(flows - keys, flows)
  {
  }

  lemma NoFlowLeft(flows: map<FlowKey, seq<Item>>)
    ensures flows - {} == flows && flows - flows.Keys == map[]
  {
  }

  /** The items of one flow, in order. */
  method AccountFlow(bufs: Batch, table: GroTable, offset: nat, key: FlowKey, le: bool, ghost before: seq<Buf>,
          ghost done: map<FlowKey, seq<Item>>)
    requires bufs.Valid() && table.Valid() && key in table.View() && VIRTIO_NET_HDR_LEN <= offset
    requires OwnBuffers(table.View()) && Accountable(offset, table.View(), before)
    requires PartOf(done, table.View()) && key !in done && AccountedBy(le, offset, done, before, bufs.View())
    modifies bufs.arrays
    ensures bufs.Valid() && table.Valid() && table.View() == old(table.View())
    ensures PartOf(done[key := table.View()[key]], table.View())
    ensures AccountedBy(le, offset, done[key := table.View()[key]], before, bufs.View())
  {
    hide *;
    ghost var flows := table.View();
    ghost var part := done[key := []];
    EmptyFlowAccounted(le, offset, done, key, before, bufs.View());
    EmptyPart(done, flows, key);
    var items := table.itemsByFlow[key];
    var j := 0;
    while j < items.len
      invariant 0 <= j <= items.len == |flows[key]|
      invariant bufs.Valid() && table.Valid() && table.View() == flows
      invariant part == done[key := flows[key][..j]] && PartOf(part, flows)
      invariant AccountedBy(le, offset, part, before, bufs.View())
    {
      var item := items.arr[j];
      assert item == flows[key][j];
      ItemReady(le, offset, part, flows, before, bufs.View(), key, j);
      ghost var now := bufs.View();
      AccountOne(bufs, table, offset, item, le);
      OneMoreAccounted(le, offset, part, item, before, now, bufs.View());
      part := Extended(part, item);
      j := j + 1;
    }
    assert flows[key][..j] == flows[key];
  }

  lemma NothingAccounted(le: bool, offset: nat, v: seq<Buf>)
    requires VIRTIO_NET_HDR_LEN <= offset
    ensures AccountedBy(le, offset, map[], v, v)
  {
  }

  /** Accounts for one of the flows in keys. */
  method AccountOneOf(bufs: Batch, table: GroTable, offset: nat, keys: set<FlowKey>, key: FlowKey, le: bool,
          ghost before: seq<Buf>, ghost flows: map<FlowKey, seq<Item>>)
    requires bufs.Valid() && table.Valid() && table.View() == flows && VIRTIO_NET_HDR_LEN <= offset
    requires key in keys && keys <= flows.Keys && OwnBuffers(flows) && Accountable(offset, flows, before)
    requires AccountedBy(le, offset, flows - keys, before, bufs.View())
    modifies bufs.arrays
    ensures bufs.Valid() && table.Valid() && table.View() == flows
    ensures AccountedBy(le, offset, flows - (keys - {key}), before, bufs.View())
  {
    hide *;
    OneMoreFlow(flows, keys, key);
    AccountFlow(bufs, table, offset, key, le, before, flows - keys);
  }

  /** applyTCPCoalesceAccounting and applyUDPCoalesceAccounting: the flows in any order. */
  method ApplyCoalesceAccounting(bufs: Batch, offset: nat, table: GroTable, le: bool)
    requires bufs.Valid() && table.Valid() && VIRTIO_NET_HDR_LEN <= offset
    requires OwnBuffers(table.View()) && Accountable(offset, table.View(), bufs.View())
    modifies bufs.arrays
    ensures bufs.Valid() && table.Valid() && table.View() == old(table.View())
    ensures AccountedBy(le, offset, table.View(), old(bufs.View()), bufs.View())
  {
    hide *;
    ghost var flows, before := table.View(), bufs.View();
    NothingAccounted(le, offset, before);
    NoFlowLeft(flows);
    var keys := table.itemsByFlow.Keys;
    while keys != {}
      invariant bufs.Valid() && table.Valid() && table.View() == flows && keys <= flows.Keys
      invariant AccountedBy(le, offset, flows - keys, before, bufs.View())
      decreases |keys|
    {
      var key :| key in keys;
      AccountOneOf(bufs, table, offset, keys, key, le, before, flows);
      keys := keys - {key};
    }
  }

  // ---- handleGRO ----------------------------------------------------------------------

  /** The items of both tables, which hold keys of different kinds. */
  ghost predicate TwoTables(flows: map<FlowKey, seq<Item>>, tcp: map<FlowKey, seq<Item>>,
          udp: map<FlowKey, seq<Item>>) {
    && flows == tcp + udp
    && (forall key :: key in tcp ==> key.TcpKey?)
    && (forall key :: key in udp ==> key.UdpKey?)
  }

  /** A scan reads and writes its own flow, in its own table. */
  lemma ScanInTable(bufs: seq<Buf>, offset: nat, i: nat, neu: Item, flows: map<FlowKey, seq<Item>>,
          tcp: map<FlowKey, seq<Item>>, udp: map<FlowKey, seq<Item>>)
    requires TwoTables(flows, tcp, udp) && FlowReady(bufs, offset, i, neu, flows) && neu.TcpItem? == neu.key.TcpKey?
    ensures var own := if neu.TcpItem? then tcp else udp;
            && FlowReady(bufs, offset, i, neu, own)
            && (neu.key in own <==> neu.key in flows) && (neu.key in own ==> own[neu.key] == flows[neu.key])
            && FlowScan(bufs, offset, i, neu, own) == FlowScan(bufs, offset, i, neu, flows)
            && var items := FlowScan(bufs, offset, i, neu, flows).items;
               if neu.TcpItem? then TwoTables(flows[neu.key := items], tcp[neu.key := items], udp)
               else TwoTables(flows[neu.key := items], tcp, udp[neu.key := items])
  {
    hide ScanOk, TcpScan, UdpScan;
  }

  method TcpGroIn(bufs: Batch, offset: nat, i: nat, neu: Item, tcp: GroTable, udp: GroTable, le: bool)
    returns (result: GroResult)
    requires bufs.Valid() && tcp.Valid() && udp.Valid() && neu.TcpItem? && tcp != udp && tcp.arrays !! udp.arrays
    requires FlowReady(bufs.View(), offset, i, neu, tcp.View()) && HasRoom(tcp, neu.key)
    modifies bufs, bufs.arrays, tcp, tcp.arrays
    ensures bufs.Valid() && tcp.Valid() && udp.Valid() && udp.View() == old(udp.View())
    ensures var scan := FlowScan(old(bufs.View()), offset, i, neu, old(tcp.View()));
            && bufs.View() == scan.bufs
            && tcp.View() == old(tcp.View())[neu.key := scan.items]
            && result == ResultOf(scan.verdict)
  {
    hide *;
    result := TcpGroItem(bufs, offset, i, neu, tcp, le);
  }

  method UdpGroIn(bufs: Batch, offset: nat, i: nat, neu: Item, tcp: GroTable, udp: GroTable, le: bool)
    returns (result: GroResult)
    requires bufs.Valid() && tcp.Valid() && udp.Valid() && neu.UdpItem? && tcp != udp && tcp.arrays !! udp.arrays
    requires FlowReady(bufs.View(), offset, i, neu, udp.View()) && HasRoom(udp, neu.key)
    modifies bufs, bufs.arrays, udp, udp.arrays
    ensures bufs.Valid() && tcp.Valid() && udp.Valid() && tcp.View() == old(tcp.View())
    ensures var scan := FlowScan(old(bufs.View()), offset, i, neu, old(udp.View()));
            && bufs.View() == scan.bufs
            && udp.View() == old(udp.View())[neu.key := scan.items]
            && result == ResultOf(scan.verdict)
  {
    hide *;
    result := UdpGroItem(bufs, offset, i, neu, udp, le);
  }

  lemma RoomByCount(table: GroTable, key: FlowKey, i: nat)
    requires table.Valid() && |table.View()| <= i < table.batchSize
    requires key in table.View() ==> |table.View()[key]| <= i
    ensures HasRoom(table, key)
  {
  }

  lemma {:induction false} IncreasingBound(items: seq<Item>, i: nat)
    requires Increasing(items) && (forall j :: 0 <= j < |items| ==> items[j].bufsIndex < i)
    ensures |items| <= i
  {
    if items != [] {
      IncreasingBound(items[..|items| - 1], items[|items| - 1].bufsIndex);
    }
  }

  /** What the batch invariant gives the methods before packet i. */
  lemma BatchReady(inp: Input, s: State, i: nat, neu: Item)
    requires Inv(inp, s, i) && Good(inp, i + 1) && Desc(inp, i) == Some(neu)
    ensures FlowReady(s.bufs, inp.offset, i, neu, s.flows) && neu.TcpItem? == neu.key.TcpKey?
    ensures neu.key in s.flows ==> |s.flows[neu.key]| <= i
  {
    hide All, Holds, Classify;
    StepReady(inp, s, i);
    if neu.key in s.flows {
      assert FlowHolds(inp, s, i, neu.key);
      forall j | 0 <= j < |s.flows[neu.key]|
        ensures s.flows[neu.key][j].bufsIndex < i
      {
        assert ItemAt(inp, s, i, neu.key, s.flows[neu.key][j]);
      }
      IncreasingBound(s.flows[neu.key], i);
    }
  }

  /** A step, in terms of its scan. */
  lemma StepCases(inp: Input, s: State, i: nat)
    requires Inv(inp, s, i) && Good(inp, i + 1)
    ensures StepOk(s, inp.offset, i, Desc(inp, i)) && i < |s.bufs|
        && VIRTIO_NET_HDR_LEN <= inp.offset <= |s.bufs[i].data|
    ensures s.bufs[i].data[inp.offset..] == Pkt(inp, i)
    ensures var next := GroStep(s, inp.offset, i, Desc(inp, i));
            match Desc(inp, i)
            case None => next.bufs == ClearAt(s.bufs, i, inp.offset) && next.flows == s.flows
                && next.toWrite == s.toWrite + [i]
            case Some(neu) =>
              && FlowReady(s.bufs, inp.offset, i, neu, s.flows)
              && (neu.UdpItem? && neu.key in s.flows ==> s.flows[neu.key] != [])
              && var scan := FlowScan(s.bufs, inp.offset, i, neu, s.flows);
                 && next.flows == s.flows[neu.key := scan.items]
                 && next.toWrite == (if ResultOf(scan.verdict).ResultCoalesced? then s.toWrite else s.toWrite + [i])
                 && i < |scan.bufs| && (ResultOf(scan.verdict).ResultNoop? ==>
                      VIRTIO_NET_HDR_LEN <= inp.offset <= |scan.bufs[i].data|)
                 && next.bufs == if ResultOf(scan.verdict).ResultNoop? then ClearAt(scan.bufs, i, inp.offset)
                      else scan.bufs
  {
    hide Inv, FlowScan, Classify, Good, Desc;
    StepKeeps(inp, s, i);
    StepReady(inp, s, i);
    if Desc(inp, i).Some? {
      BatchReady(inp, s, i, Desc(inp, i).value);
    }
  }

  method ClearIn(bufs: Batch, tcp: GroTable, udp: GroTable, k: nat, offset: nat)
    requires bufs.Valid() && tcp.Valid() && udp.Valid()
    requires k < |bufs.View()| && VIRTIO_NET_HDR_LEN <= offset <= |bufs.View()[k].data|
    modifies bufs.arrays
    ensures bufs.Valid() && bufs.View() == ClearAt(old(bufs.View()), k, offset)
    ensures tcp.Valid() && udp.Valid() && tcp.View() == old(tcp.View()) && udp.View() == old(udp.View())
  {
    hide *;
    bufs.ClearVirtioHeader(k, offset);
  }

  /** Offers packet i, classified as neu, to the table of its protocol. */
  method OfferPacket(bufs: Batch, offset: nat, i: nat, neu: Item, tcp: GroTable, udp: GroTable, le: bool,
          ghost flows: map<FlowKey, seq<Item>>, ghost scan: Scan)
    returns (result: GroResult)
    requires bufs.Valid() && tcp.Valid() && udp.Valid() && tcp != udp && tcp.arrays !! udp.arrays
    requires TwoTables(flows, tcp.View(), udp.View()) && FlowReady(bufs.View(), offset, i, neu, flows)
    requires scan == FlowScan(bufs.View(), offset, i, neu, flows)
    requires neu.TcpItem? == neu.key.TcpKey? && i < tcp.batchSize && i < udp.batchSize
    requires |tcp.View()| <= i && |udp.View()| <= i && (neu.key in flows ==> |flows[neu.key]| <= i)
    modifies bufs, bufs.arrays, tcp, tcp.arrays, udp, udp.arrays
    ensures bufs.Valid() && tcp.Valid() && udp.Valid() && |tcp.View()| <= i + 1 && |udp.View()| <= i + 1
    ensures bufs.View() == scan.bufs && result == ResultOf(scan.verdict)
    ensures TwoTables(flows[neu.key := scan.items], tcp.View(), udp.View())
  {
    hide *;
    FlowScanIs(bufs.View(), offset, i, neu, flows);
    ScanInTable(bufs.View(), offset, i, neu, flows, tcp.View(), udp.View());
    KeysGrow(tcp.View(), neu.key, scan.items);
    KeysGrow(udp.View(), neu.key, scan.items);
    if neu.TcpItem? {
      RoomByCount(tcp, neu.key, i);
      result := TcpGroIn(bufs, offset, i, neu, tcp, udp, le);
    } else {
      RoomByCount(udp, neu.key, i);
      result := UdpGroIn(bufs, offset, i, neu, tcp, udp, le);
    }
  }

  /** Packet i was offered with this result, leaving these items and buffers; its header may still need clearing. */
  ghost predicate Offered(inp: Input, s: State, i: nat, result: GroResult, flows: map<FlowKey, seq<Item>>,
          mid: seq<Buf>) {
    && StepOk(s, inp.offset, i, Desc(inp, i))
    && var next := GroStep(s, inp.offset, i, Desc(inp, i));
       && next.flows == flows
       && next.toWrite == (if result == ResultCoalesced then s.toWrite else s.toWrite + [i])
       && i < |mid| && (result == ResultNoop ==> VIRTIO_NET_HDR_LEN <= inp.offset <= |mid[i].data|)
       && next.bufs == if result == ResultNoop then ClearAt(mid, i, inp.offset) else mid
  }

  lemma NoCandidate(inp: Input, s: State, i: nat)
    requires Inv(inp, s, i) && Good(inp, i + 1) && Desc(inp, i) == None
    ensures Offered(inp, s, i, ResultNoop, s.flows, s.bufs)
  {
    hide GroStep, Inv, Desc, Good, StepOk;
    StepCases(inp, s, i);
  }

  lemma IsCandidate(inp: Input, s: State, i: nat, neu: Item)
    requires Inv(inp, s, i) && Good(inp, i + 1) && Desc(inp, i) == Some(neu)
    ensures FlowReady(s.bufs, inp.offset, i, neu, s.flows) && neu.TcpItem? == neu.key.TcpKey?
    ensures neu.key in s.flows ==> |s.flows[neu.key]| <= i && ScanOk(s.bufs, inp.offset, i, neu, s.flows[neu.key])
    ensures neu.key in s.flows && neu.UdpItem? ==> s.flows[neu.key] != []
    ensures var scan := FlowScan(s.bufs, inp.offset, i, neu, s.flows);
            Offered(inp, s, i, ResultOf(scan.verdict), s.flows[neu.key := scan.items], scan.bufs)
  {
    hide GroStep, Inv, Desc, Good, StepOk, FlowScan;
    StepCases(inp, s, i);
    BatchReady(inp, s, i, neu);
  }

  /** A packet that is a candidate goes to its table. */
  method OfferCandidate(bufs: Batch, offset: nat, i: nat, neu: Item, tcp: GroTable, udp: GroTable, le: bool,
          ghost inp: Input, ghost s: State)
    returns (result: GroResult, ghost flows: map<FlowKey, seq<Item>>)
    requires bufs.Valid() && tcp.Valid() && udp.Valid() && tcp != udp && tcp.arrays !! udp.arrays
    requires inp.offset == offset && Inv(inp, s, i) && Good(inp, i + 1) && Desc(inp, i) == Some(neu)
    requires bufs.View() == s.bufs && TwoTables(s.flows, tcp.View(), udp.View())
    requires i < tcp.batchSize && i < udp.batchSize && |tcp.View()| <= i && |udp.View()| <= i
    modifies bufs, bufs.arrays, tcp, tcp.arrays, udp, udp.arrays
    ensures bufs.Valid() && tcp.Valid() && udp.Valid() && |tcp.View()| <= i + 1 && |udp.View()| <= i + 1
    ensures Offered(inp, s, i, result, flows, bufs.View()) && TwoTables(flows, tcp.View(), udp.View())
  {
    hide *;
    IsCandidate(inp, s, i, neu);
    ghost var scan := FlowScan(s.bufs, offset, i, neu, s.flows);
    flows := s.flows[neu.key := scan.items];
    result := OfferPacket(bufs, offset, i, neu, tcp, udp, le, s.flows, scan);
  }

  /** packetIsGROCandidate, then tcpGRO or udpGRO. */
  method ClassifyAndOffer(bufs: Batch, offset: nat, i: nat, tcp: GroTable, udp: GroTable, canUdpGro: bool, le: bool,
          ghost inp: Input, ghost s: State)
    returns (result: GroResult, ghost flows: map<FlowKey, seq<Item>>)
    requires bufs.Valid() && tcp.Valid() && udp.Valid() && tcp != udp && tcp.arrays !! udp.arrays
    requires inp.offset == offset && inp.canUdpGro == canUdpGro && Inv(inp, s, i) && Good(inp, i + 1)
    requires bufs.View() == s.bufs && TwoTables(s.flows, tcp.View(), udp.View())
    requires i < tcp.batchSize && i < udp.batchSize && |tcp.View()| <= i && |udp.View()| <= i
    modifies bufs, bufs.arrays, tcp, tcp.arrays, udp, udp.arrays
    ensures bufs.Valid() && tcp.Valid() && udp.Valid() && |tcp.View()| <= i + 1 && |udp.View()| <= i + 1
    ensures Offered(inp, s, i, result, flows, bufs.View()) && TwoTables(flows, tcp.View(), udp.View())
  {
    hide *;
    PacketAt(inp, s, i);
    var data := bufs.Read(i);
    var neu := Classify(data[offset..], canUdpGro, i);
    if neu.Some? {
      result, flows := OfferCandidate(bufs, offset, i, neu.value, tcp, udp, le, inp, s);
      return;
    }
    NoCandidate(inp, s, i);
    return ResultNoop, s.flows;
  }

  lemma PacketAt(inp: Input, s: State, i: nat)
    requires Inv(inp, s, i) && Good(inp, i + 1)
    ensures i < |s.bufs| && inp.offset <= |s.bufs[i].data|
    ensures Desc(inp, i) == Classify(s.bufs[i].data[inp.offset..], inp.canUdpGro, i)
  {
  }

  lemma OfferedIs(inp: Input, s: State, i: nat, result: GroResult, flows: map<FlowKey, seq<Item>>, mid: seq<Buf>)
    requires Offered(inp, s, i, result, flows, mid)
    ensures StepOk(s, inp.offset, i, Desc(inp, i)) && i < |mid|
    ensures result == ResultNoop ==> VIRTIO_NET_HDR_LEN <= inp.offset <= |mid[i].data|
    ensures var next := GroStep(s, inp.offset, i, Desc(inp, i));
            && next.flows == flows
            && next.toWrite == (if result == ResultCoalesced then s.toWrite else s.toWrite + [i])
            && next.bufs == if result == ResultNoop then ClearAt(mid, i, inp.offset) else mid
  {
  }

  /** One iteration of handleGRO, for packet i of a batch. */
  method GroPacket(bufs: Batch, offset: nat, i: nat, tcp: GroTable, udp: GroTable, canUdpGro: bool, le: bool,
          toWrite: seq<nat>,
          ghost inp: Input, ghost s: State)
    returns (written: seq<nat>)
    requires bufs.Valid() && tcp.Valid() && udp.Valid() && tcp != udp && tcp.arrays !! udp.arrays
    requires inp.offset == offset && inp.canUdpGro == canUdpGro && Inv(inp, s, i) && Good(inp, i + 1)
    requires bufs.View() == s.bufs && TwoTables(s.flows, tcp.View(), udp.View()) && toWrite == s.toWrite
    requires i < tcp.batchSize && i < udp.batchSize && |tcp.View()| <= i && |udp.View()| <= i
    modifies bufs, bufs.arrays, tcp, tcp.arrays, udp, udp.arrays
    ensures bufs.Valid() && tcp.Valid() && udp.Valid() && |tcp.View()| <= i + 1 && |udp.View()| <= i + 1
    ensures StepOk(s, offset, i, Desc(inp, i))
    ensures var next := GroStep(s, offset, i, Desc(inp, i));
            bufs.View() == next.bufs && TwoTables(next.flows, tcp.View(), udp.View()) && written == next.toWrite
  {
    hide *;
    ghost var flows;
    var result;
    result, flows := ClassifyAndOffer(bufs, offset, i, tcp, udp, canUdpGro, le, inp, s);
    OfferedIs(inp, s, i, result, flows, bufs.View());
    if result == ResultNoop {
      ClearIn(bufs, tcp, udp, i, offset);
    }
    written := if result == ResultCoalesced then toWrite else toWrite + [i];
  }

  // ---- a whole batch ------------------------------------------------------------------

  /** The batch invariant owns up to what accounting needs. */
  lemma InvAccountable(inp: Input, s: State, n: nat)
    requires Inv(inp, s, n)
    ensures OwnBuffers(s.flows) && Accountable(inp.offset, s.flows, s.bufs)
  {
    hide All, Holds, Writing, Untouched, Capacities;
    forall key, j | key in s.flows && 0 <= j < |s.flows[key]|
      ensures s.flows[key][j].key == key && Fits(s.flows[key][j], s.bufs, inp.offset)
    {
      assert FlowHolds(inp, s, n, key) && ItemAt(inp, s, n, key, s.flows[key][j]);
      ItemFits(inp, s, n, key, s.flows[key][j]);
    }
    forall key, j, key', j' |
      && key in s.flows && key' in s.flows && 0 <= j < |s.flows[key]| && 0 <= j' < |s.flows[key']|
      && s.flows[key][j].bufsIndex == s.flows[key'][j'].bufsIndex
      ensures key == key' && j == j'
    {
      assert FlowHolds(inp, s, n, key) && FlowHolds(inp, s, n, key');
      DistinctBuffers(inp, s, n, key, j, key', j');
    }
  }

  lemma TableAccountable(offset: nat, flows: map<FlowKey, seq<Item>>, tcp: map<FlowKey, seq<Item>>,
          udp: map<FlowKey, seq<Item>>, v: seq<Buf>)
    requires TwoTables(flows, tcp, udp) && OwnBuffers(flows) && Accountable(offset, flows, v)
    ensures tcp.Keys !! udp.Keys && OwnBuffers(tcp) && OwnBuffers(udp)
    ensures Accountable(offset, tcp, v) && Accountable(offset, udp, v)
  {
  }

  /** Accounting for the TCP items leaves the buffers of the UDP items alone. */
  lemma StillAccountable(le: bool, offset: nat, tcp: map<FlowKey, seq<Item>>, udp: map<FlowKey, seq<Item>>,
          before: seq<Buf>, mid: seq<Buf>)
    requires AccountedBy(le, offset, tcp, before, mid) && tcp.Keys !! udp.Keys && OwnBuffers(tcp + udp)
    requires Accountable(offset, udp, before)
    ensures Accountable(offset, udp, mid)
  {
  }

  method AccountTable(bufs: Batch, offset: nat, table: GroTable, other: GroTable, le: bool)
    requires bufs.Valid() && table.Valid() && other.Valid() && VIRTIO_NET_HDR_LEN <= offset
    requires OwnBuffers(table.View()) && Accountable(offset, table.View(), bufs.View())
    modifies bufs.arrays
    ensures bufs.Valid() && table.Valid() && other.Valid()
    ensures table.View() == old(table.View()) && other.View() == old(other.View())
    ensures AccountedBy(le, offset, table.View(), old(bufs.View()), bufs.View())
  {
    hide *;
    ApplyCoalesceAccounting(bufs, offset, table, le);
  }

  lemma SumOfTables(flows: map<FlowKey, seq<Item>>, tcp: map<FlowKey, seq<Item>>, udp: map<FlowKey, seq<Item>>)
    requires TwoTables(flows, tcp, udp)
    ensures flows == tcp + udp && tcp.Keys !! udp.Keys
  {
  }

  /** The accounting at the end of a batch. */
  method AccountBatch(bufs: Batch, offset: nat, tcp: GroTable, udp: GroTable, le: bool, ghost inp: Input,
          ghost s: State)
    requires bufs.Valid() && tcp.Valid() && udp.Valid()
    requires inp.offset == offset && Inv(inp, s, |inp.bufs|) && VIRTIO_NET_HDR_LEN <= offset
    requires bufs.View() == s.bufs && TwoTables(s.flows, tcp.View(), udp.View())
    modifies bufs.arrays
    ensures bufs.Valid() && tcp.Valid() && udp.Valid()
    ensures TwoTables(s.flows, tcp.View(), udp.View()) && AccountedBy(le, offset, s.flows, s.bufs, bufs.View())
  {
    hide *;
    InvAccountable(inp, s, |inp.bufs|);
    SumOfTables(s.flows, tcp.View(), udp.View());
    TableAccountable(offset, s.flows, tcp.View(), udp.View(), s.bufs);
    AccountTable(bufs, offset, tcp, udp, le);
    ghost var mid := bufs.View();
    StillAccountable(le, offset, tcp.View(), udp.View(), s.bufs, mid);
    AccountTable(bufs, offset, udp, tcp, le);
    BothAccounted(le, offset, tcp.View(), udp.View(), s.bufs, mid, bufs.View());
  }

  /** Every packet of the batch passes the offset check. */
  predicate OffsetsOk(v: seq<Buf>, offset: int) {
    |v| > 0 ==> VIRTIO_NET_HDR_LEN <= offset && forall k :: 0 <= k < |v| ==> offset < |v[k].data|
  }

  /** What the program guarantees of a batch: distinct tables that start empty, and bounded sizes. */
  ghost predicate BatchOk(bufs: Batch, tcp: GroTable, udp: GroTable)
    reads bufs, bufs.arrays, tcp, tcp.arrays, udp, udp.arrays
  {
    && bufs.Valid() && tcp.Valid() && udp.Valid() && tcp != udp && tcp.arrays !! udp.arrays
    && tcp.View() == map[] && udp.View() == map[]
    && |bufs.View()| <= tcp.batchSize && |bufs.View()| <= udp.batchSize && |bufs.View()| <= TWO16
    && forall k :: 0 <= k < |bufs.View()| ==> bufs.View()[k].cap <= 0xffff
  }

  /** The batch after n packets is described by Run; nothing has happened yet for a bad offset. */
  ghost predicate Reached(inp: Input, n: nat, s: State) {
    if n == 0 && !Good(inp, 0) then s == Start(inp) else Good(inp, n) && s == Run(inp, n)
  }

  lemma ReachedStart(inp: Input)
    ensures Reached(inp, 0, Start(inp))
  {
  }

  /** Packet i is as it came, and with a good offset the batch can go one step further. */
  lemma ReachedNext(inp: Input, i: nat, s: State)
    requires Reached(inp, i, s) && i < |inp.bufs| <= TWO16
    requires forall k :: 0 <= k < |inp.bufs| ==> |inp.bufs[k].data| <= inp.bufs[k].cap <= 0xffff
    ensures |s.bufs| == |inp.bufs| && s.bufs[i] == inp.bufs[i]
    ensures VIRTIO_NET_HDR_LEN <= inp.offset < |inp.bufs[i].data| ==>
              && Inv(inp, s, i) && Good(inp, i + 1) && StepOk(s, inp.offset, i, Desc(inp, i))
              && Reached(inp, i + 1, GroStep(s, inp.offset, i, Desc(inp, i)))
  {
    hide All, FlowHolds, Writing, Capacities, Tracked, Plain, GroStep, Desc;
    if VIRTIO_NET_HDR_LEN <= inp.offset < |inp.bufs[i].data| {
      StepKeeps(inp, s, i);
    }
  }

  lemma ReachedEnd(inp: Input, s: State)
    requires Reached(inp, |inp.bufs|, s) && VIRTIO_NET_HDR_LEN <= inp.offset && |inp.bufs| <= TWO16
    requires forall k :: 0 <= k < |inp.bufs| ==> |inp.bufs[k].data| <= inp.bufs[k].cap <= 0xffff
    ensures Good(inp, |inp.bufs|) && s == Run(inp, |inp.bufs|) && Inv(inp, s, |inp.bufs|)
  {
    hide Inv, Run;
  }

  lemma NoTables()
    ensures TwoTables(map[], map[], map[])
  {
  }

  /** The input a batch presents to GRO. */
  ghost function InputOf(bufs: Batch, offset: int, canUdpGro: bool): (inp: Input)
    requires bufs.Valid()
    reads bufs, bufs.arrays
  {
    Input(bufs.View(), if offset < 0 then 0 else offset, canUdpGro)
  }

  /** The loop of handleGRO before packet i: what is in the buffers, the tables and toWrite. */
  ghost predicate InProgress(inp: Input, offset: int, i: nat, s: State, v: seq<Buf>, tcp: map<FlowKey, seq<Item>>,
          udp: map<FlowKey, seq<Item>>, toWrite: seq<nat>) {
    && i <= |inp.bufs| && |v| == |inp.bufs|
    && Reached(inp, i, s) && v == s.bufs && toWrite == s.toWrite && TwoTables(s.flows, tcp, udp)
    && |tcp| <= i && |udp| <= i && OffsetsOk(inp.bufs[..i], offset)
  }

  lemma Begins(inp: Input, offset: int)
    ensures InProgress(inp, offset, 0, Start(inp), inp.bufs, map[], map[], [])
  {
    ReachedStart(inp);
    NoTables();
  }

  lemma Before(inp: Input, offset: int, i: nat, s: State, v: seq<Buf>, tcp: map<FlowKey, seq<Item>>,
          udp: map<FlowKey, seq<Item>>, toWrite: seq<nat>)
    requires InProgress(inp, offset, i, s, v, tcp, udp, toWrite) && i < |inp.bufs| <= TWO16 && inp.offset == offset
    requires forall k :: 0 <= k < |inp.bufs| ==> |inp.bufs[k].data| <= inp.bufs[k].cap <= 0xffff
    ensures v == s.bufs && toWrite == s.toWrite && TwoTables(s.flows, tcp, udp) && |tcp| <= i && |udp| <= i && i < |v|
    ensures var good := VIRTIO_NET_HDR_LEN <= offset <= |v[i].data| - 1;
            if good then Inv(inp, s, i) && Good(inp, i + 1) else !OffsetsOk(inp.bufs, offset)
  {
    hide Inv, OffsetsOk;
    ReachedNext(inp, i, s);
    NextOffset(inp.bufs, offset, i);
  }

  lemma After(inp: Input, offset: int, i: nat, s: State, toWrite: seq<nat>, next: State, tcp: map<FlowKey, seq<Item>>,
          udp: map<FlowKey, seq<Item>>,
          v: seq<Buf>, tcp': map<FlowKey, seq<Item>>, udp': map<FlowKey, seq<Item>>)
    requires InProgress(inp, offset, i, s, s.bufs, tcp, udp, toWrite) && i < |inp.bufs| <= TWO16 && inp.offset == offset
    requires forall k :: 0 <= k < |inp.bufs| ==> |inp.bufs[k].data| <= inp.bufs[k].cap <= 0xffff
    requires VIRTIO_NET_HDR_LEN <= offset <= |s.bufs[i].data| - 1
    requires StepOk(s, inp.offset, i, Desc(inp, i)) && next == GroStep(s, inp.offset, i, Desc(inp, i))
    requires v == next.bufs && TwoTables(next.flows, tcp', udp') && |tcp'| <= i + 1 && |udp'| <= i + 1
    ensures InProgress(inp, offset, i + 1, next, v, tcp', udp', next.toWrite)
  {
    hide Inv, OffsetsOk, GroStep, Desc, StepOk, Reached;
    ReachedNext(inp, i, s);
    NextOffset(inp.bufs, offset, i);
    SameCount(inp, i + 1, next);
  }

  lemma SameCount(inp: Input, i: nat, s: State)
    requires Reached(inp, i, s)
    ensures |s.bufs| == |inp.bufs|
  {
    hide All, FlowHolds, Writing, Capacities, Tracked, Plain, GroStep, Run;
  }

  /** One iteration of handleGRO's loop: the offset check, then packet i. */
  method GroIteration(bufs: Batch, offset: int, i: nat, tcp: GroTable, udp: GroTable, canUdpGro: bool, le: bool,
          toWrite: seq<nat>,
          ghost inp: Input, ghost s: State)
    returns (ok: bool, written: seq<nat>, ghost next: State)
    requires bufs.Valid() && tcp.Valid() && udp.Valid() && tcp != udp && tcp.arrays !! udp.arrays
    requires i < |inp.bufs| <= TWO16 && |inp.bufs| <= tcp.batchSize && |inp.bufs| <= udp.batchSize
    requires forall k :: 0 <= k < |inp.bufs| ==> |inp.bufs[k].data| <= inp.bufs[k].cap <= 0xffff
    requires inp.canUdpGro == canUdpGro && (offset >= 0 ==> inp.offset == offset)
    requires InProgress(inp, offset, i, s, bufs.View(), tcp.View(), udp.View(), toWrite)
    modifies bufs, bufs.arrays, tcp, tcp.arrays, udp, udp.arrays
    ensures bufs.Valid() && tcp.Valid() && udp.Valid()
    ensures if ok then InProgress(inp, offset, i + 1, next, bufs.View(), tcp.View(), udp.View(), written)
        else !OffsetsOk(inp.bufs, offset)
  {
    hide *;
    if offset < VIRTIO_NET_HDR_LEN {
      TooSmall(inp.bufs, offset, i);
      return false, toWrite, s;
    }
    Before(inp, offset, i, s, bufs.View(), tcp.View(), udp.View(), toWrite);
    var data := bufs.Read(i);
    if offset > |data| - 1 {
      return false, toWrite, s;
    }
    ghost var t, u := tcp.View(), udp.View();
    written := GroPacket(bufs, offset, i, tcp, udp, canUdpGro, le, toWrite, inp, s);
    next := GroStep(s, offset, i, Desc(inp, i));
    After(inp, offset, i, s, toWrite, next, t, u, bufs.View(), tcp.View(), udp.View());
    ok := true;
  }

  lemma TooSmall(v: seq<Buf>, offset: int, i: nat)
    requires i < |v| && offset < VIRTIO_NET_HDR_LEN
    ensures !OffsetsOk(v, offset)
  {
  }

  /** The loop of handleGRO over the packets of a batch. */
  method GroLoop(bufs: Batch, offset: int, tcp: GroTable, udp: GroTable, canUdpGro: bool, le: bool, ghost inp: Input)
    returns (ok: bool, toWrite: seq<nat>, ghost s: State)
    requires bufs.Valid() && tcp.Valid() && udp.Valid() && tcp != udp && tcp.arrays !! udp.arrays
    requires |inp.bufs| <= TWO16 && |inp.bufs| <= tcp.batchSize && |inp.bufs| <= udp.batchSize
    requires forall k :: 0 <= k < |inp.bufs| ==> |inp.bufs[k].data| <= inp.bufs[k].cap <= 0xffff
    requires inp.canUdpGro == canUdpGro && (offset >= 0 ==> inp.offset == offset)
    requires InProgress(inp, offset, 0, Start(inp), bufs.View(), tcp.View(), udp.View(), [])
    modifies bufs, bufs.arrays, tcp, tcp.arrays, udp, udp.arrays
    ensures bufs.Valid() && tcp.Valid() && udp.Valid()
    ensures if ok then InProgress(inp, offset, |inp.bufs|, s, bufs.View(), tcp.View(), udp.View(), toWrite)
        else !OffsetsOk(inp.bufs, offset)
  {
    hide *;
    Lengths(inp, offset, Start(inp), bufs, tcp, udp);
    s := Start(inp);
    ok, toWrite := true, [];
    var n := |bufs.bufs|;
    for i := 0 to n
      invariant bufs.Valid() && tcp.Valid() && udp.Valid()
      invariant InProgress(inp, offset, i, s, bufs.View(), tcp.View(), udp.View(), toWrite)
    {
      ok, toWrite, s := GroIteration(bufs, offset, i, tcp, udp, canUdpGro, le, toWrite, inp, s);
      if !ok {
        return;
      }
    }
    ok := true;
  }

  lemma Lengths(inp: Input, offset: int, s: State, bufs: Batch, tcp: GroTable, udp: GroTable)
    requires bufs.Valid() && tcp.Valid() && udp.Valid()
    requires InProgress(inp, offset, 0, s, bufs.View(), tcp.View(), udp.View(), [])
    ensures |bufs.bufs| == |inp.bufs|
  {
  }

  lemma Ends(inp: Input, offset: int, s: State, v: seq<Buf>, tcp: map<FlowKey, seq<Item>>,
          udp: map<FlowKey, seq<Item>>, toWrite: seq<nat>)
    requires InProgress(inp, offset, |inp.bufs|, s, v, tcp, udp, toWrite)
    ensures OffsetsOk(inp.bufs, offset) && Reached(inp, |inp.bufs|, s)
    ensures v == s.bufs && toWrite == s.toWrite && TwoTables(s.flows, tcp, udp)
  {
    hide Reached;
    assert inp.bufs[..|inp.bufs|] == inp.bufs;
  }

  lemma NextOffset(v: seq<Buf>, offset: int, i: nat)
    requires i < |v| && OffsetsOk(v[..i], offset)
    ensures var good := VIRTIO_NET_HDR_LEN <= offset <= |v[i].data| - 1;
            OffsetsOk(v[..i + 1], offset) == good && (!good ==> !OffsetsOk(v, offset))
  {
  }

  lemma InputIs(bufs: Batch, offset: int, canUdpGro: bool)
    requires bufs.Valid()
    ensures var inp := InputOf(bufs, offset, canUdpGro);
            inp.bufs == bufs.View() && inp.canUdpGro == canUdpGro && (offset >= 0 ==> inp.offset == offset)
  {
  }

  lemma BatchFacts(bufs: Batch, tcp: GroTable, udp: GroTable)
    requires BatchOk(bufs, tcp, udp)
    ensures bufs.Valid() && tcp.Valid() && udp.Valid() && tcp != udp && tcp.arrays !! udp.arrays
    ensures tcp.View() == map[] && udp.View() == map[]
    ensures |bufs.View()| <= tcp.batchSize && |bufs.View()| <= udp.batchSize && |bufs.View()| <= TWO16
    ensures forall k :: 0 <= k < |bufs.View()| ==> |bufs.View()[k].data| <= bufs.View()[k].cap <= 0xffff
  {
  }

  /** What handleGRO leaves of a batch it accepts: the run over all packets, accounted for. */
  ghost predicate Handled(le: bool, inp: Input, after: seq<Buf>, toWrite: seq<nat>) {
    if inp.bufs == [] then after == [] && toWrite == []
    else
      && Good(inp, |inp.bufs|)
      && var s := Run(inp, |inp.bufs|);
         toWrite == s.toWrite && AccountedBy(le, inp.offset, s.flows, s.bufs, after)
  }

  /** After the loop: an empty batch, or one whose run is complete. */
  lemma LoopDone(inp: Input, offset: int, s: State)
    requires Reached(inp, |inp.bufs|, s) && OffsetsOk(inp.bufs, offset) && |inp.bufs| <= TWO16
        && (offset >= 0 ==> inp.offset == offset)
    requires forall k :: 0 <= k < |inp.bufs| ==> |inp.bufs[k].data| <= inp.bufs[k].cap <= 0xffff
    ensures inp.bufs == [] ==> s.toWrite == [] && s.bufs == []
    ensures inp.bufs != [] ==> VIRTIO_NET_HDR_LEN <= offset
    ensures VIRTIO_NET_HDR_LEN <= offset ==>
              && inp.offset == offset && Good(inp, |inp.bufs|) && s == Run(inp, |inp.bufs|) && Inv(inp, s, |inp.bufs|)
  {
    hide All, FlowHolds, Writing, Capacities, Tracked, Plain, GroStep, ItemAccounted, Run;
    if VIRTIO_NET_HDR_LEN <= offset {
      ReachedEnd(inp, s);
    }
    if inp.bufs == [] {
      EmptyRun(inp, s);
    }
  }

  lemma EmptyRun(inp: Input, s: State)
    requires Reached(inp, 0, s) && inp.bufs == []
    ensures s.toWrite == [] && s.bufs == []
  {
    hide All, FlowHolds, Writing, Capacities, Tracked, Plain, GroStep;
  }

  lemma HandledIs(le: bool, inp: Input, offset: nat, s: State, after: seq<Buf>)
    requires VIRTIO_NET_HDR_LEN <= offset == inp.offset && Good(inp, |inp.bufs|) && s == Run(inp, |inp.bufs|)
    requires AccountedBy(le, offset, s.flows, s.bufs, after)
    requires inp.bufs == [] ==> s.toWrite == [] && s.bufs == []
    ensures Handled(le, inp, after, s.toWrite)
  {
    hide ItemAccounted, Run, Good;
  }

  lemma EmptyHandled(le: bool, inp: Input)
    requires inp.bufs == []
    ensures Handled(le, inp, [], [])
  {
  }

  /** handleGRO: an error exactly when a packet fails the offset check. */
  method HandleGro(bufs: Batch, offset: int, tcp: GroTable, udp: GroTable, canUdpGro: bool, le: bool)
    returns (ok: bool, toWrite: seq<nat>)
    requires BatchOk(bufs, tcp, udp)
    modifies bufs, bufs.arrays, tcp, tcp.arrays, udp, udp.arrays
    ensures bufs.Valid() && tcp.Valid() && udp.Valid()
    ensures ok == OffsetsOk(old(bufs.View()), offset)
    ensures ok ==> Handled(le, old(InputOf(bufs, offset, canUdpGro)), bufs.View(), toWrite)
  {
    hide *;
    BatchFacts(bufs, tcp, udp);
    ghost var inp := InputOf(bufs, offset, canUdpGro);
    InputIs(bufs, offset, canUdpGro);
    Begins(inp, offset);
    ghost var s;
    ok, toWrite, s := GroLoop(bufs, offset, tcp, udp, canUdpGro, le, inp);
    if !ok {
      return;
    }
    Ends(inp, offset, s, bufs.View(), tcp.View(), udp.View(), toWrite);
    LoopDone(inp, offset, s);
    // With a smaller offset the batch is empty, and so are both tables.
    if VIRTIO_NET_HDR_LEN <= offset {
      AccountBatch(bufs, offset, tcp, udp, le, inp, s);
      HandledIs(le, inp, offset, s, bufs.View());
    } else {
      EmptyHandled(le, inp);
    }
  }

  // ---- what a batch delivers ----------------------------------------------------------

  ghost predicate Lives(s: State, p: nat) {
    exists k :: LivesIn(s, p, k)
  }

  /** Buffer k is written as the packets it holds, and as the packet itself when it holds one. */
  ghost predicate WritesOut(le: bool, inp: Input, s: State, after: seq<Buf>, k: nat) {
    && k < |after| && k < |s.parts| && VIRTIO_NET_HDR_LEN <= inp.offset <= |after[k].data|
    && ReadsBack(le, inp, s.parts[k], Frame(after[k].data, inp.offset))
    && (|s.parts[k]| == 1 ==> Frame(after[k].data, inp.offset) == Zeros(VIRTIO_NET_HDR_LEN) + Pkt(inp, s.parts[k][0]))
  }

  /**
   The main result on handleGRO: the indices to write increase strictly, every packet of the
   batch lives in exactly one buffer to write, and each such buffer reads back as its packets.
   */
  lemma BatchDelivered(le: bool, inp: Input, after: seq<Buf>, toWrite: seq<nat>)
    requires Handled(le, inp, after, toWrite) && inp.bufs != []
    ensures forall a, b :: 0 <= a < b < |toWrite| ==> toWrite[a] < toWrite[b]
    ensures forall p: nat :: p < |inp.bufs| ==> Lives(Run(inp, |inp.bufs|), p)
    ensures forall k: nat :: k in toWrite ==> WritesOut(le, inp, Run(inp, |inp.bufs|), after, k)
  {
    hide Run, All, FlowHolds, Untouched, Capacities, Tracked, Plain, ItemAccounted, ReadsBack, LivesIn, Frame, Pkt;
    var s := Run(inp, |inp.bufs|);
    forall p: nat | p < |inp.bufs|
      ensures Lives(s, p)
    {
      var k := ExactlyOnce(inp, s, p);
    }
    forall k: nat | k in toWrite
      ensures WritesOut(le, inp, s, after, k)
    {
      Delivered(le, inp, s, after, k);
      WrittenHeader(le, inp, s, after, k);
    }
  }
}
