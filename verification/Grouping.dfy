/**
 Which packets of a batch GRO puts together, flow by flow, as a function of the packets alone;
 and what it comes to for a stream that arrives at either end.
 */
module Grouping {
  import opened Options
  import opened Packet
  import opened Gro
  import opened GroItem
  import opened GroInvariant
  import opened Decisions

  // ---- grouping -----------------------------------------------------------------------

  /**
   TCP packet i is offered to the last n groups of its flow, from the last one on: it joins the
   first one that it follows or precedes and that has room. A single packet with a wrong checksum
   is given up instead; with a wrong checksum of its own the packet joins none.
   */
  ghost function TcpPlaced(inp: Input, groups: seq<seq<nat>>, i: nat, n: nat): seq<seq<nat>>
    requires n <= |groups|
    decreases n
  {
    if n == 0 then groups + [[i]]
    else
      var g := groups[n - 1];
      match TcpFate(inp, g, i)
      case Passed => TcpPlaced(inp, groups, i, n - 1)
      case Deleted => TcpPlaced(inp, groups[..n - 1] + groups[n..], i, n - 1)
      case Ending => groups
      case Taking => groups[n - 1 := if Precedes(inp, g, i) then [i] + g else g + [i]]
  }

  /** UDP packet i joins the last group of its flow, or starts the next one. */
  ghost function UdpPlaced(inp: Input, groups: seq<seq<nat>>, i: nat): seq<seq<nat>> {
    if groups != [] && UdpTaken(inp, groups[|groups| - 1], i)
      then groups[|groups| - 1 := groups[|groups| - 1] + [i]]
    else groups + [[i]]
  }

  /** The groups of a flow after the first n packets. */
  ghost function Groups(inp: Input, key: FlowKey, n: nat): seq<seq<nat>> {
    if n == 0 then []
    else
      var before, d := Groups(inp, key, n - 1), Desc(inp, n - 1);
      if d.None? || d.value.key != key then before
      else if d.value.TcpItem? then TcpPlaced(inp, before, n - 1, |before|)
      else UdpPlaced(inp, before, n - 1)
  }

  // ---- one packet ---------------------------------------------------------------------

  lemma HeldInserted(parts: seq<seq<nat>>, items: seq<Item>, neu: Item, i: nat)
    requires neu.bufsIndex < |parts| && parts[neu.bufsIndex] == [i]
    ensures HeldIn(parts, items + [neu]) == HeldIn(parts, items) + [[i]]
  {
  }

  lemma HeldFewer(parts: seq<seq<nat>>, items: seq<Item>, n: nat)
    requires n < |items|
    ensures HeldIn(parts, items[..n] + items[n + 1..]) == HeldIn(parts, items)[..n] + HeldIn(parts, items)[n + 1..]
  {
  }

  /** Distinct buffers below i. */
  predicate Apart(items: seq<Item>, i: nat) {
    Increasing(items) && forall j :: 0 <= j < |items| ==> items[j].bufsIndex < i
  }

  lemma HeldMoved(parts: seq<seq<nat>>, items: seq<Item>, j: nat, item: Item, i: nat, v: Verdict)
    requires Apart(items, i) && i < |parts| && parts[i] == [i] && j < |items| && item.bufsIndex == items[j].bufsIndex
    requires v == Appended(item.bufsIndex) || v == Prepended(item.bufsIndex)
    ensures var held := HeldIn(parts, items);
            HeldIn(MoveParts(parts, i, v), items[j := item])
            == held[j := if v.Prepended? then [i] + held[j] else held[j] + [i]]
  {
    var held, after := HeldIn(parts, items), HeldIn(MoveParts(parts, i, v), items[j := item]);
    forall a | 0 <= a < |items|
      ensures after[a] == held[j := if v.Prepended? then [i] + held[j] else held[j] + [i]][a]
    {
      assert a < j ==> items[a].bufsIndex < items[j].bufsIndex;
      assert a > j ==> items[j].bufsIndex < items[a].bufsIndex;
    }
  }

  lemma FlowApart(inp: Input, s: State, i: nat, neu: Item)
    requires InFlow(inp, s, i, neu)
    ensures Apart(s.flows[neu.key], i) && i < |s.parts| == |s.bufs| && s.parts[i] == [i] && neu.bufsIndex == i
    ensures neu.UdpItem? ==> s.flows[neu.key] != []
    ensures VIRTIO_NET_HDR_LEN <= inp.offset <= |s.bufs[i].data| && s.bufs[i].data[inp.offset..] == Pkt(inp, i)
    ensures neu.TcpItem? == neu.key.TcpKey?
  {
    hide Desc, Good, ScanOk, Holds, CapsFollow, Capacities, All, Pkt;
    InFlowIs(inp, s, i, neu);
    StepReady(inp, s, i);
    InvSizes(inp, s, i);
    assert FlowHolds(inp, s, i, neu.key);
    forall j | 0 <= j < |s.flows[neu.key]|
      ensures s.flows[neu.key][j].bufsIndex < i
    {
      assert ItemAt(inp, s, i, neu.key, s.flows[neu.key][j]);
    }
  }

  /** The batch once an item of the flow, not merged, is given up. */
  lemma StillInFlow(inp: Input, s: State, i: nat, neu: Item, j: nat)
    requires InFlow(inp, s, i, neu) && neu.TcpItem? && j < |s.flows[neu.key]| && s.flows[neu.key][j].numMerged == 0
    requires Fits(s.flows[neu.key][j], s.bufs, inp.offset) && VIRTIO_NET_HDR_LEN <= inp.offset
    ensures var s', items := Dropped(s, inp.offset, neu.key, j), s.flows[neu.key];
            && InFlow(inp, s', i, neu) && s'.flows[neu.key] == items[..j] + items[j + 1..] && s'.parts == s.parts
            && s'.bufs == ClearAt(s.bufs, items[j].bufsIndex, inp.offset)
  {
    hide Inv, Desc, Good, ScanOk, ClearHeader;
    FlowApart(inp, s, i, neu);
    KeepsDrop(inp, s, i, neu.key, j);
    StepReady(inp, Dropped(s, inp.offset, neu.key, j), i);
  }

  /** The search through the items is the search through the groups. */
  lemma {:induction false} TcpScanPlaces(inp: Input, s: State, i: nat, neu: Item, n: nat)
    requires InFlow(inp, s, i, neu) && neu.TcpItem? && n <= |s.flows[neu.key]|
    ensures i < |s.parts| == |s.bufs|
    ensures var scan := TcpScan(s.bufs, inp.offset, i, neu, s.flows[neu.key], n);
            && HeldIn(MoveParts(s.parts, i, scan.verdict), scan.items)
               == TcpPlaced(inp, HeldIn(s.parts, s.flows[neu.key]), i, n)
    decreases n
  {
    hide InFlow, Desc, TcpPacketsCanCoalesce, CoalesceTcpPackets, ClearHeader, ScanOk, Good, TcpFate, Precedes, HeldIn,
        MoveParts, Dropped;
    FlowApart(inp, s, i, neu);
    InFlowIs(inp, s, i, neu);
    var items := s.flows[neu.key];
    if n == 0 {
      HeldInserted(s.parts, items, neu, i);
      NothingMoves(s.parts, i);
    } else {
      var item := items[n - 1];
      TcpItemFate(inp, s, i, neu, n - 1);
      var pkt, target := s.bufs[i].data[inp.offset..], s.bufs[item.bufsIndex].data[inp.offset..];
      var can := TcpPacketsCanCoalesce(pkt, neu, item, target);
      match TcpFate(inp, HeldIn(s.parts, items)[n - 1], i)
      case Passed =>
        TcpScanPlaces(inp, s, i, neu, n - 1);
      case Deleted =>
        OnlyUnmergedDropped(can, i, neu, item, s.bufs, inp.offset);
        StillInFlow(inp, s, i, neu, n - 1);
        HeldFewer(s.parts, items, n - 1);
        TcpScanPlaces(inp, Dropped(s, inp.offset, neu.key, n - 1), i, neu, n - 1);
      case Ending =>
        NothingMoves(s.parts, i);
      case Taking =>
        MergedIndex(can, i, neu, item, s.bufs, inp.offset);
        var c := CoalesceTcpPackets(can, i, neu, item, s.bufs, inp.offset);
        HeldMoved(s.parts, items, n - 1, c.item, i,
            if can == Prepend then Prepended(item.bufsIndex) else Appended(item.bufsIndex));
    }
  }

  lemma NothingMoves(parts: seq<seq<nat>>, i: nat)
    requires i < |parts|
    ensures MoveParts(parts, i, Noop) == MoveParts(parts, i, Inserted) == parts
  {
  }

  lemma MergedIndex(mode: CanCoalesce, i: nat, neu: Item, item: Item, bufs: seq<Buf>, offset: nat)
    requires neu.TcpItem? && item.TcpItem? && Fits(item, bufs, offset)
    requires i < |bufs| && offset + item.HdrLen() <= |bufs[i].data|
    ensures CoalesceTcpPackets(mode, i, neu, item, bufs, offset).item.bufsIndex == item.bufsIndex
  {
    hide ChecksumValid;
  }

  /** The offer to the last item of a UDP flow is the offer to the last group. */
  lemma UdpScanPlaces(inp: Input, s: State, i: nat, neu: Item)
    requires InFlow(inp, s, i, neu) && neu.UdpItem? && s.flows[neu.key] != []
    ensures i < |s.parts| == |s.bufs|
    ensures var scan := UdpScan(s.bufs, inp.offset, i, neu, s.flows[neu.key]);
            && HeldIn(MoveParts(s.parts, i, scan.verdict), scan.items)
               == UdpPlaced(inp, HeldIn(s.parts, s.flows[neu.key]), i)
  {
    hide Inv, CapsFollow, Desc, UdpPacketsCanCoalesce, CoalesceUdpPackets, ScanOk, Good, UdpTaken, HeldIn,
        MoveParts, UdpScan;
    FlowApart(inp, s, i, neu);
    InFlowIs(inp, s, i, neu);
    UdpItemFate(inp, s, i, neu);
    var items := s.flows[neu.key];
    var scan, last := UdpScan(s.bufs, inp.offset, i, neu, items), |items| - 1;
    if UdpTaken(inp, HeldIn(s.parts, items)[last], i) {
      HeldMoved(s.parts, items, last, scan.items[last], i, scan.verdict);
      assert scan.items == items[last := scan.items[last]];
    } else {
      HeldInserted(s.parts, items, scan.items[|items|], i);
      NothingMoves(s.parts, i);
      assert scan.items == items + [scan.items[|items|]];
    }
  }

  // ---- capacities ---------------------------------------------------------------------

  lemma CapsMoved(inp: Input, s: State, i: nat, scan: Scan, bufs: seq<Buf>)
    requires CapsFollow(inp, s) && CapsKept(s.bufs, i, scan) && s.parts[i] == [i] && s.bufs[i] == inp.bufs[i]
    requires scan.verdict.Appended? || scan.verdict.Prepended? ==>
        scan.verdict.into != i && s.parts[scan.verdict.into] != []
    requires |bufs| == |scan.bufs| && forall k :: 0 <= k < |bufs| ==> bufs[k].cap == scan.bufs[k].cap
    ensures CapsFollow(inp, State(bufs, s.flows, s.toWrite, MoveParts(s.parts, i, scan.verdict)))
  {
  }

  lemma CapsClear(bufs: seq<Buf>, k: nat, offset: nat)
    requires k < |bufs| && VIRTIO_NET_HDR_LEN <= offset <= |bufs[k].data|
    ensures forall j :: 0 <= j < |bufs| ==> ClearAt(bufs, k, offset)[j].cap == bufs[j].cap
  {
    hide ClearHeader;
  }

  /** Packet i merged, stored or written alone: capacities stay with the first packets. */
  lemma CapsStep(inp: Input, s: State, i: nat)
    requires Inv(inp, s, i) && CapsFollow(inp, s) && Good(inp, i + 1) && StepOk(s, inp.offset, i, Desc(inp, i))
    ensures CapsFollow(inp, GroStep(s, inp.offset, i, Desc(inp, i)))
  {
    hide Inv, Desc, Good, FlowScan, ScanOk, ClearAt, CapsKept, CapsFollow, Takes;
    StepReady(inp, s, i);
    InvSizes(inp, s, i);
    if Desc(inp, i).None? {
      CapsClear(s.bufs, i, inp.offset);
      CapsMoved(inp, s, i, Scan(s.bufs, [], Noop), ClearAt(s.bufs, i, inp.offset));
      CapsOnly(inp, State(ClearAt(s.bufs, i, inp.offset), s.flows, s.toWrite, s.parts), s.toWrite + [i], s.flows);
    } else {
      var neu := Desc(inp, i).value;
      var scan := FlowScan(s.bufs, inp.offset, i, neu, s.flows);
      ScanCaps(s, inp.offset, i, neu);
      IntoItem(inp, s, i, neu);
      var s' := GroStep(s, inp.offset, i, Desc(inp, i));
      if scan.verdict.Noop? {
        CapsClear(scan.bufs, i, inp.offset);
      }
      NothingMoves(s.parts, i);
      CapsMoved(inp, s, i, scan, s'.bufs);
      CapsOnly(inp, State(s'.bufs, s.flows, s.toWrite, MoveParts(s.parts, i, scan.verdict)), s'.toWrite, s'.flows);
    }
  }

  lemma CapsOnly(inp: Input, s: State, toWrite: seq<nat>, flows: map<FlowKey, seq<Item>>)
    requires CapsFollow(inp, s)
    ensures CapsFollow(inp, s.(toWrite := toWrite, flows := flows))
  {
  }

  /** A packet is merged into the buffer of an item of its flow. */
  lemma IntoItem(inp: Input, s: State, i: nat, neu: Item)
    requires Inv(inp, s, i) && Good(inp, i + 1) && Desc(inp, i) == Some(neu) && StepOk(s, inp.offset, i, Some(neu))
    ensures var v := FlowScan(s.bufs, inp.offset, i, neu, s.flows).verdict;
            v.Appended? || v.Prepended? ==> v.into < i && v.into < |s.parts| && s.parts[v.into] != []
  {
    hide Inv, Desc, Good, FlowScan, ScanOk, Holds;
    var v := FlowScan(s.bufs, inp.offset, i, neu, s.flows).verdict;
    InvSizes(inp, s, i);
    ScanInto(s, inp.offset, i, neu);
    if v.Appended? || v.Prepended? {
      var j :| 0 <= j < |s.flows[neu.key]| && s.flows[neu.key][j].bufsIndex == v.into;
      FlowItem(inp, s, i, neu.key, j);
    }
  }

  // ---- whose buffer -------------------------------------------------------------------

  /** Merged packets are in the buffer of the one that arrived first. */
  predicate Earliest(parts: seq<seq<nat>>) {
    forall k :: 0 <= k < |parts| && parts[k] != [] ==>
      k in parts[k] && forall j :: 0 <= j < |parts[k]| ==> k <= parts[k][j]
  }

  lemma EarliestMoved(parts: seq<seq<nat>>, i: nat, v: Verdict)
    requires Earliest(parts) && i < |parts| && parts[i] == [i]
    requires v.Appended? || v.Prepended? ==> v.into < i && parts[v.into] != []
    ensures Earliest(MoveParts(parts, i, v))
  {
  }

  lemma EarliestStep(inp: Input, s: State, i: nat)
    requires Inv(inp, s, i) && Earliest(s.parts) && Good(inp, i + 1) && StepOk(s, inp.offset, i, Desc(inp, i))
    ensures Earliest(GroStep(s, inp.offset, i, Desc(inp, i)).parts)
  {
    hide Inv, Desc, Good, FlowScan, ScanOk, ClearAt, Earliest, MoveParts;
    StepReady(inp, s, i);
    InvSizes(inp, s, i);
    NothingMoves(s.parts, i);
    if Desc(inp, i).Some? {
      var neu := Desc(inp, i).value;
      IntoItem(inp, s, i, neu);
      EarliestMoved(s.parts, i, FlowScan(s.bufs, inp.offset, i, neu, s.flows).verdict);
    }
  }

  lemma {:induction false} RunEarliest(inp: Input, n: nat)
    requires Good(inp, n)
    ensures Earliest(Run(inp, n).parts)
  {
    hide Inv, Desc, GroStep, Good;
    GoodSooner(inp, n);
    if n > 0 {
      RunEarliest(inp, n - 1);
      StepKeeps(inp, Run(inp, n - 1), n - 1);
      EarliestStep(inp, Run(inp, n - 1), n - 1);
    }
  }

  // ---- the whole run ------------------------------------------------------------------

  /** What the items of a flow hold, item by item. */
  function GroupsOf(s: State, key: FlowKey): seq<seq<nat>> {
    if key in s.flows then HeldIn(s.parts, s.flows[key]) else []
  }

  /** A step regroups the packet's own flow. */
  lemma OwnStep(inp: Input, s: State, i: nat, neu: Item)
    requires Inv(inp, s, i) && CapsFollow(inp, s) && Good(inp, i + 1) && Desc(inp, i) == Some(neu)
    requires StepOk(s, inp.offset, i, Some(neu))
    ensures var s', before := GroStep(s, inp.offset, i, Some(neu)), GroupsOf(s, neu.key);
            GroupsOf(s', neu.key)
            == if neu.TcpItem? then TcpPlaced(inp, before, i, |before|) else UdpPlaced(inp, before, i)
  {
    hide Inv, Desc, Good, CapsFollow, TcpScan, UdpScan, ScanOk, HeldIn, MoveParts, TcpFate, UdpTaken, TcpPlaced,
        UdpPlaced;
    StepReady(inp, s, i);
    var s' := GroStep(s, inp.offset, i, Some(neu));
    NothingMoves(s.parts, i);
    if neu.key !in s.flows {
      HeldInserted(s.parts, [], neu, i);
      assert [] + [neu] == [neu];
      NoGroups(inp, HeldIn(s.parts, []), i);
    } else {
      InFlowFrom(inp, s, i, neu);
      if neu.TcpItem? {
        TcpScanPlaces(inp, s, i, neu, |s.flows[neu.key]|);
      } else {
        UdpScanPlaces(inp, s, i, neu);
      }
    }
  }

  lemma InFlowFrom(inp: Input, s: State, i: nat, neu: Item)
    requires Inv(inp, s, i) && CapsFollow(inp, s) && Good(inp, i + 1) && Desc(inp, i) == Some(neu)
    requires StepOk(s, inp.offset, i, Some(neu)) && neu.key in s.flows
    ensures InFlow(inp, s, i, neu)
  {
    hide Inv, Desc, Good, CapsFollow, ScanOk;
  }

  lemma NoGroups(inp: Input, groups: seq<seq<nat>>, i: nat)
    requires groups == []
    ensures TcpPlaced(inp, groups, i, 0) == UdpPlaced(inp, groups, i) == [[i]]
  {
  }

  lemma OtherStep(inp: Input, s: State, i: nat, key: FlowKey)
    requires Inv(inp, s, i) && Good(inp, i + 1) && StepOk(s, inp.offset, i, Desc(inp, i))
    requires Desc(inp, i).Some? ==> Desc(inp, i).value.key != key
    ensures GroupsOf(GroStep(s, inp.offset, i, Desc(inp, i)), key) == GroupsOf(s, key)
  {
    hide Inv, Desc, Good, GroStep, StepOk;
    OtherFlow(inp, s, i, key);
    var s' := GroStep(s, inp.offset, i, Desc(inp, i));
    if key in s.flows {
      forall j | 0 <= j < |s.flows[key]|
        ensures HeldIn(s'.parts, s'.flows[key])[j] == HeldIn(s.parts, s.flows[key])[j]
      {
        assert SameBuffer(s, s', s.flows[key][j].bufsIndex);
      }
    }
  }

  lemma {:induction false} RunCaps(inp: Input, n: nat)
    requires Good(inp, n)
    ensures CapsFollow(inp, Run(inp, n))
  {
    hide Inv, Desc, GroStep, Good;
    GoodSooner(inp, n);
    if n > 0 {
      RunCaps(inp, n - 1);
      StepKeeps(inp, Run(inp, n - 1), n - 1);
      CapsStep(inp, Run(inp, n - 1), n - 1);
    }
  }

  /** After any number of packets the items of every flow hold the groups of that flow, in this order. */
  lemma {:induction false} RunGroups(inp: Input, n: nat, key: FlowKey)
    requires Good(inp, n)
    ensures GroupsOf(Run(inp, n), key) == Groups(inp, key, n)
  {
    hide Inv, Desc, GroStep, Good, GroupsOf, TcpPlaced, UdpPlaced, CapsFollow;
    GoodSooner(inp, n);
    if n == 0 {
      NothingGrouped(inp, key);
    } else {
      var s := Run(inp, n - 1);
      RunGroups(inp, n - 1, key);
      RunCaps(inp, n - 1);
      StepKeeps(inp, s, n - 1);
      if Desc(inp, n - 1).Some? && Desc(inp, n - 1).value.key == key {
        OwnStep(inp, s, n - 1, Desc(inp, n - 1).value);
      } else {
        OtherStep(inp, s, n - 1, key);
      }
    }
  }

  lemma NothingGrouped(inp: Input, key: FlowKey)
    ensures GroupsOf(Start(inp), key) == []
  {
  }
}
