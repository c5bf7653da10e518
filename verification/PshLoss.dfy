/**
 When a batch loses a PSH: exactly when one of its packets is prepended to an item that has
 PSH. Otherwise the TCP flags of every packet come back.
 */
module PshLoss {
  import opened Bytes
  import opened Options
  import opened Packet
  import opened Gro
  import opened GroItem
  import opened GroInvariant
  import opened Gso
  import opened Accounting
  import opened RoundTrip
  import opened Delivery
  import opened Batches

  // ---- one step -----------------------------------------------------------------------

  predicate HasPshAt(items: seq<Item>, k: nat) {
    exists j :: 0 <= j < |items| && items[j].bufsIndex == k && Psh(items[j])
  }

  /** Packet i is prepended to an item that has PSH. */
  ghost predicate DropsPsh(s: State, offset: nat, i: nat, neu: Option<Item>)
    requires StepOk(s, offset, i, neu)
  {
    && neu.Some? && neu.value.key in s.flows
    && var v := FlowScan(s.bufs, offset, i, neu.value, s.flows).verdict;
       v.Prepended? && HasPshAt(s.flows[neu.value.key], v.into)
  }

  /** Some buffer's last packet has lost its PSH. */
  predicate SomeLost(inp: Input, parts: seq<seq<nat>>) {
    exists k :: 0 <= k < |parts| && PshLost(inp, parts[k])
  }

  /** What an item says of the packets it holds. */
  lemma ItemLost(inp: Input, item: Item, ps: seq<nat>, data: seq<byte>, i: nat)
    requires Holds(inp, item, ps, data) && forall a :: 0 <= a < |ps| ==> ps[a] < i
    ensures PshLost(inp, ps) <==> Psh(item) && ps[|ps| - 1] < ps[0]
    ensures PshLost(inp, [i] + ps) <==> Psh(item)
    ensures !PshLost(inp, ps + [i])
  {
    hide Desc, Merged, Sized, Sequenced, AllValid, HeadersAgree, ChecksumValid, Pkt;
    assert Member(inp, item, ps[0], ps[|ps| - 1]);
    assert ([i] + ps)[|ps|] == ps[|ps| - 1];
  }

  /** The items of a flow have buffers of their own. */
  lemma OwnPsh(inp: Input, s: State, i: nat, key: FlowKey, j: nat)
    requires Inv(inp, s, i) && key in s.flows && j < |s.flows[key]|
    ensures HasPshAt(s.flows[key], s.flows[key][j].bufsIndex) <==> Psh(s.flows[key][j])
  {
    hide All, Untouched, Capacities, Writing, Tracked, Plain, ItemAt;
    assert FlowHolds(inp, s, i, key);
  }

  /** Moving the packets of buffer i to buffer k loses what buffer k then shows as lost. */
  lemma LostMoves(inp: Input, parts: seq<seq<nat>>, i: nat, k: nat, ps: seq<nat>)
    requires i < |parts| && k < |parts| && i != k && parts[i] == [i]
    requires PshLost(inp, parts[k]) ==> PshLost(inp, ps)
    ensures SomeLost(inp, parts[k := ps][i := []]) <==> SomeLost(inp, parts) || PshLost(inp, ps)
  {
    hide Desc;
    var after := parts[k := ps][i := []];
    forall a | 0 <= a < |parts| && PshLost(inp, parts[a])
      ensures PshLost(inp, after[a])
    {
    }
    forall a | 0 <= a < |parts| && PshLost(inp, after[a])
      ensures PshLost(inp, parts[a]) || PshLost(inp, ps)
    {
    }
    if PshLost(inp, ps) {
      assert PshLost(inp, after[k]);
    }
  }

  lemma MergeLoses(inp: Input, s: State, i: nat, key: FlowKey, v: Verdict)
    requires Inv(inp, s, i) && i < |s.bufs| && key in s.flows && Takes(s.flows[key], v)
    requires s.parts[i] == [i] && (v.Appended? || v.Prepended?)
    ensures v.into < |s.parts|
    ensures SomeLost(inp, MoveParts(s.parts, i, v))
        <==> SomeLost(inp, s.parts) || (v.Prepended? && HasPshAt(s.flows[key], v.into))
  {
    hide Inv, Holds, SomeLost, PshLost, HasPshAt;
    InvSizes(inp, s, i);
    var j :| 0 <= j < |s.flows[key]| && s.flows[key][j].bufsIndex == v.into
        && (v.Appended? ==> !Psh(s.flows[key][j]));
    FlowItem(inp, s, i, key, j);
    OwnPsh(inp, s, i, key, j);
    ItemLost(inp, s.flows[key][j], s.parts[v.into], s.bufs[v.into].data, i);
    LostMoves(inp, s.parts, i, v.into, if v.Prepended? then [i] + s.parts[v.into] else s.parts[v.into] + [i]);
  }

  /** A step loses a PSH exactly when it prepends to an item that has one; nothing brings it back. */
  lemma StepLoses(inp: Input, s: State, i: nat)
    requires Inv(inp, s, i) && Good(inp, i + 1) && StepOk(s, inp.offset, i, Desc(inp, i))
    ensures SomeLost(inp, GroStep(s, inp.offset, i, Desc(inp, i)).parts)
        <==> SomeLost(inp, s.parts) || DropsPsh(s, inp.offset, i, Desc(inp, i))
  {
    hide Inv, Desc, Good, SomeLost, HasPshAt, FlowScan, Takes, ScanOk;
    StepReady(inp, s, i);
    if Desc(inp, i).Some? {
      var neu := Desc(inp, i).value;
      var v := FlowScan(s.bufs, inp.offset, i, neu, s.flows).verdict;
      ScanInto(s, inp.offset, i, neu);
      if v.Appended? || v.Prepended? {
        MergeLoses(inp, s, i, neu.key, v);
      }
    }
  }

  // ---- the whole run ------------------------------------------------------------------

  /** Packet i of the batch is prepended to an item that has PSH. */
  ghost predicate PrependDropsPsh(inp: Input, i: nat) {
    && Good(inp, i) && StepOk(Run(inp, i), inp.offset, i, Desc(inp, i))
    && DropsPsh(Run(inp, i), inp.offset, i, Desc(inp, i))
  }

  /** After n packets a PSH is lost exactly when one of them was prepended to an item that has PSH. */
  lemma {:induction false} RunLoses(inp: Input, n: nat)
    requires Good(inp, n)
    ensures SomeLost(inp, Run(inp, n).parts) <==> exists i :: 0 <= i < n && PrependDropsPsh(inp, i)
  {
    hide Inv, Desc, Good, SomeLost, DropsPsh, GroStep, StepOk;
    GoodSooner(inp, n);
    if n == 0 {
      NoneLost(inp);
    } else {
      RunLoses(inp, n - 1);
      StepKeeps(inp, Run(inp, n - 1), n - 1);
      StepLoses(inp, Run(inp, n - 1), n - 1);
      LastDrops(inp, n);
    }
  }

  lemma LastDrops(inp: Input, n: nat)
    requires n > 0 && Good(inp, n - 1) && StepOk(Run(inp, n - 1), inp.offset, n - 1, Desc(inp, n - 1))
    ensures (exists i :: 0 <= i < n && PrependDropsPsh(inp, i))
        <==> (exists i :: 0 <= i < n - 1 && PrependDropsPsh(inp, i))
             || DropsPsh(Run(inp, n - 1), inp.offset, n - 1, Desc(inp, n - 1))
  {
    hide Inv, Desc, Good, Run, DropsPsh, StepOk;
    var last := DropsPsh(Run(inp, n - 1), inp.offset, n - 1, Desc(inp, n - 1));
    assert PrependDropsPsh(inp, n - 1) == last;
    forall i | 0 <= i < n && PrependDropsPsh(inp, i)
      ensures last || exists k :: 0 <= k < n - 1 && PrependDropsPsh(inp, k)
    {
    }
  }

  lemma NoneLost(inp: Input)
    requires Good(inp, 0)
    ensures !SomeLost(inp, Run(inp, 0).parts)
  {
    hide Desc, Inv;
  }

  // ---- what comes back ----------------------------------------------------------------

  /** The frame gives every TCP packet back with its flags. */
  ghost predicate FlagsBack(le: bool, inp: Input, ps: seq<nat>, frame: seq<byte>) {
    && Readable(le, frame) && |Packets(le, frame)| == |ps|
    && forall j :: 0 <= j < |ps| ==> SameFlags(inp, ps[j], Packets(le, frame)[j])
  }

  lemma FlagsBackMeans(le: bool, inp: Input, ps: seq<nat>, frame: seq<byte>)
    requires ReadsBack(le, inp, ps, frame) && ps != [] && |inp.bufs| <= TWO16
    ensures FlagsBack(le, inp, ps, frame) <==> !PshLost(inp, ps)
  {
    hide PlanRead, Trusted, Packets, PshLost, SameFlags, FlagsFollow, Restores, Pkt;
    if |ps| == 1 {
      AloneFollows(inp, ps, Packets(le, frame)[0]);
    }
    FlagsFollowMeans(inp, ps, Packets(le, frame));
  }

  /** Every frame of the batch gives its TCP packets back with their flags. */
  ghost predicate AllFlagsBack(le: bool, inp: Input, after: seq<Buf>, toWrite: seq<nat>)
    requires Good(inp, |inp.bufs|)
  {
    var parts := Run(inp, |inp.bufs|).parts;
    forall k: nat :: k in toWrite ==>
      && k < |after| && k < |parts| && VIRTIO_NET_HDR_LEN <= inp.offset <= |after[k].data|
      && FlagsBack(le, inp, parts[k], Frame(after[k].data, inp.offset))
  }

  /**
   The TCP flags of all packets of a batch come back from the frames written for it exactly when
   no packet of the batch is prepended to an item that has PSH.
   */
  lemma FlagsDelivered(le: bool, inp: Input, after: seq<Buf>, toWrite: seq<nat>)
    requires Handled(le, inp, after, toWrite) && inp.bufs != []
    ensures Good(inp, |inp.bufs|)
    ensures AllFlagsBack(le, inp, after, toWrite)
        <==> !exists i :: 0 <= i < |inp.bufs| && PrependDropsPsh(inp, i)
  {
    hide Run, Inv, PshLost, ReadsBack, FlagsBack, Frame, PrependDropsPsh, AccountedBy;
    var s := Run(inp, |inp.bufs|);
    RunLoses(inp, |inp.bufs|);
    BatchDelivered(le, inp, after, toWrite);
    forall k: nat | k in toWrite
      ensures WritesOut(le, inp, s, after, k)
      ensures FlagsBack(le, inp, s.parts[k], Frame(after[k].data, inp.offset)) <==> !PshLost(inp, s.parts[k])
    {
      WrittenParts(inp, s, k);
      FlagsBackMeans(le, inp, s.parts[k], Frame(after[k].data, inp.offset));
    }
    forall k: nat | k < |s.parts| && k !in toWrite
      ensures !PshLost(inp, s.parts[k])
    {
      WrittenParts(inp, s, k);
    }
  }

  lemma WrittenParts(inp: Input, s: State, k: nat)
    requires Inv(inp, s, |inp.bufs|) && k < |s.parts|
    ensures k in s.toWrite <==> s.parts[k] != []
    ensures s.parts[k] == [] ==> !PshLost(inp, s.parts[k])
    ensures |inp.bufs| <= TWO16
  {
    hide All, Untouched, Capacities, Tracked, Plain, FlowHolds;
  }
}
