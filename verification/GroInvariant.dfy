/**
 The invariant of a batch under GRO, kept by every packet: all buffers to write hold a
 partition of the original packets, each either untouched or described by one table item.
 */
module GroInvariant {
  import opened Bytes
  import opened Options
  import opened Packet
  import opened Gro
  import opened GroItem

  // ---- conservation -------------------------------------------------------------------

  /** Every original packet held by some buffer, with multiplicity. */
  function All(parts: seq<seq<nat>>): multiset<nat> {
    if parts == [] then multiset{} else multiset(parts[0]) + All(parts[1..])
  }

  function UpTo(n: nat): (ps: seq<nat>)
    ensures |ps| == n && forall k :: 0 <= k < n ==> ps[k] == k
  {
    seq(n, k => k)
  }

  function Singletons(lo: nat, hi: nat): (parts: seq<seq<nat>>)
    requires lo <= hi
    ensures |parts| == hi - lo && forall k :: 0 <= k < hi - lo ==> parts[k] == [lo + k]
    decreases hi - lo
  {
    if lo == hi then [] else [[lo]] + Singletons(lo + 1, hi)
  }

  lemma {:induction false} AllUpdate(parts: seq<seq<nat>>, k: nat, x: seq<nat>)
    requires k < |parts|
    ensures All(parts[k := x]) + multiset(parts[k]) == All(parts) + multiset(x)
  {
    if k > 0 {
      assert parts[k := x][0] == parts[0] && parts[k := x][1..] == parts[1..][k - 1 := x];
      AllUpdate(parts[1..], k - 1, x);
      AddLeft(multiset(parts[0]), All(parts[1..][k - 1 := x]), All(parts[1..]), multiset(parts[k]), multiset(x));
    } else {
      assert parts[k := x][1..] == parts[1..];
    }
  }

  lemma AddLeft(p: multiset<nat>, a: multiset<nat>, b: multiset<nat>, c: multiset<nat>, d: multiset<nat>)
    requires a + c == b + d
    ensures (p + a) + c == (p + b) + d
  {
    assert (p + a) + c == p + (a + c);
    assert (p + b) + d == p + (b + d);
  }

  lemma MovedOnce(parts: seq<seq<nat>>, i: nat, k: nat, joined: seq<nat>)
    requires i < |parts| && k < |parts| && i != k && multiset(joined) == multiset(parts[k]) + multiset(parts[i])
    ensures All(parts[k := joined][i := []]) == All(parts)
  {
    hide *;
    AllUpdate(parts, k, joined);
    AllUpdate(parts[k := joined], i, []);
    Cancel(All(parts[k := joined][i := []]), All(parts[k := joined]), All(parts), multiset(parts[k]),
        multiset(parts[i]));
  }

  lemma JoinCounts(a: seq<nat>, b: seq<nat>)
    ensures multiset(a + b) == multiset(a) + multiset(b) && multiset(b + a) == multiset(a) + multiset(b)
  {
  }

  /** Moving packets between buffers neither loses nor copies any. */
  lemma MoveConserves(parts: seq<seq<nat>>, i: nat, verdict: Verdict)
    requires i < |parts|
    requires verdict.Appended? || verdict.Prepended? ==> verdict.into < |parts| && verdict.into != i
    ensures All(MoveParts(parts, i, verdict)) == All(parts)
  {
    hide All;
    match verdict
    case Appended(k) =>
      JoinCounts(parts[k], parts[i]);
      MovedOnce(parts, i, k, parts[k] + parts[i]);
    case Prepended(k) =>
      JoinCounts(parts[k], parts[i]);
      MovedOnce(parts, i, k, parts[i] + parts[k]);
    case _ =>
  }

  lemma Cancel(after: multiset<nat>, mid: multiset<nat>, before: multiset<nat>, a: multiset<nat>, b: multiset<nat>)
    requires mid + a == before + (a + b) && after + b == mid
    ensures after == before
  {
    forall p: nat
      ensures after[p] == before[p]
    {
      assert (mid + a)[p] == (before + (a + b))[p] && (after + b)[p] == mid[p];
    }
  }

  lemma {:induction false} AllContains(parts: seq<seq<nat>>, k: nat)
    requires k < |parts|
    ensures multiset(parts[k]) <= All(parts)
  {
    if k > 0 {
      AllContains(parts[1..], k - 1);
    }
  }

  lemma {:induction false} AllOfTwo(parts: seq<seq<nat>>, k: nat, l: nat)
    requires k < l < |parts|
    ensures multiset(parts[k]) + multiset(parts[l]) <= All(parts)
  {
    if k > 0 {
      AllOfTwo(parts[1..], k - 1, l - 1);
    } else {
      AllContains(parts[1..], l - 1);
    }
  }

  lemma {:induction false} AllFound(parts: seq<seq<nat>>, p: nat) returns (k: nat)
    requires p in All(parts)
    ensures k < |parts| && p in parts[k]
  {
    if p in parts[0] {
      k := 0;
    } else {
      k := AllFound(parts[1..], p);
      k := k + 1;
    }
  }

  lemma {:induction false} AllSingletons(lo: nat, hi: nat, p: nat)
    requires lo <= hi
    ensures All(Singletons(lo, hi))[p] == if lo <= p < hi then 1 else 0
    decreases hi - lo
  {
    hide All;
    if lo == hi {
      AllOfNone(Singletons(lo, hi));
    } else {
      AllSingletons(lo + 1, hi, p);
      var parts := Singletons(lo, hi);
      assert parts[1..] == Singletons(lo + 1, hi);
      AllOfFirst(parts, lo, p);
    }
  }

  lemma AllOfNone(parts: seq<seq<nat>>)
    requires parts == []
    ensures All(parts) == multiset{}
  {
  }

  lemma AllOfFirst(parts: seq<seq<nat>>, x: nat, p: nat)
    requires parts != [] && parts[0] == [x]
    ensures All(parts)[p] == All(parts[1..])[p] + if p == x then 1 else 0
  {
  }

  lemma NotInBoth(parts: seq<seq<nat>>, k: nat, l: nat, p: nat)
    requires k < |parts| && l < |parts| && k != l && p in parts[k] && All(parts)[p] == 1
    ensures p !in parts[l]
  {
    hide All;
    if k < l { AllOfTwo(parts, k, l); } else { AllOfTwo(parts, l, k); }
    var both := multiset(parts[k]) + multiset(parts[l]);
    assert both[p] <= All(parts)[p];
    assert p in multiset(parts[k]);
  }

  // ---- the invariant ------------------------------------------------------------------

  ghost predicate TrackedIn(items: seq<Item>, k: nat) {
    exists j :: 0 <= j < |items| && items[j].bufsIndex == k
  }

  /** Some item of some flow describes buffer k. */
  ghost predicate Tracked(flows: map<FlowKey, seq<Item>>, k: nat) {
    exists key :: key in flows && TrackedIn(flows[key], k)
  }

  /** Buffer k holds its own original packet, unchanged but for a cleared virtio header. */
  predicate Plain(inp: Input, s: State, k: nat) {
    && k < |inp.bufs| && k < |s.bufs| && k < |s.parts| && VIRTIO_NET_HDR_LEN <= inp.offset <= |inp.bufs[k].data|
    && s.parts[k] == [k]
    && s.bufs[k].data == ClearHeader(inp.bufs[k].data, inp.offset)
  }

  ghost predicate ItemAt(inp: Input, s: State, i: nat, key: FlowKey, item: Item) {
    && item.key == key
    && item.bufsIndex < i <= |s.bufs| == |s.parts|
    && Holds(inp, item, s.parts[item.bufsIndex], s.bufs[item.bufsIndex].data)
    && (item.numMerged == 0 ==> s.parts[item.bufsIndex] == [item.bufsIndex as nat])
  }

  predicate Increasing(items: seq<Item>) {
    forall a, b :: 0 <= a < b < |items| ==> items[a].bufsIndex < items[b].bufsIndex
  }

  ghost predicate FlowHolds(inp: Input, s: State, i: nat, key: FlowKey)
    requires key in s.flows
  {
    && (key.UdpKey? ==> s.flows[key] != [])
    && Increasing(s.flows[key])
    && forall j :: 0 <= j < |s.flows[key]| ==> ItemAt(inp, s, i, key, s.flows[key][j])
  }

  /** Packets from i on have not been looked at. */
  predicate Untouched(inp: Input, s: State, i: nat)
    requires |s.bufs| == |s.parts| == |inp.bufs|
  {
    forall k :: i <= k < |inp.bufs| ==> s.bufs[k] == inp.bufs[k] && s.parts[k] == [k]
  }

  /** Buffers before i hold packets before i; the non-empty ones are written, in increasing order. */
  ghost predicate Writing(s: State, i: nat)
    requires i <= |s.parts|
  {
    && (forall a, b :: 0 <= a < b < |s.toWrite| ==> s.toWrite[a] < s.toWrite[b])
    && (forall k: nat :: k in s.toWrite <==> k < i && s.parts[k] != [])
    && (forall k, j :: 0 <= k < i && 0 <= j < |s.parts[k]| ==> s.parts[k][j] < i)
  }

  predicate Capacities(s: State) {
    forall k :: 0 <= k < |s.bufs| ==> |s.bufs[k].data| <= s.bufs[k].cap <= 0xffff
  }

  /** The batch after its first i packets. */
  ghost predicate Inv(inp: Input, s: State, i: nat) {
    && Good(inp, i)
    && |s.bufs| == |s.parts| == |inp.bufs|
    && Untouched(inp, s, i)
    && Capacities(s)
    && Writing(s, i)
    && All(s.parts) == All(Singletons(0, |inp.bufs|))
    && (forall key :: key in s.flows ==> FlowHolds(inp, s, i, key))
    && (forall k: nat :: k in s.toWrite ==> Tracked(s.flows, k) || Plain(inp, s, k))
  }

  function Start(inp: Input): State {
    State(inp.bufs, map[], [], Singletons(0, |inp.bufs|))
  }

  lemma StartInv(inp: Input)
    requires Good(inp, 0)
    ensures Inv(inp, Start(inp), 0)
  {
    hide All;
  }

  // ---- items own their buffers --------------------------------------------------------

  lemma ItemFits(inp: Input, s: State, i: nat, key: FlowKey, item: Item)
    requires ItemAt(inp, s, i, key, item) && Good(inp, 0)
    ensures Fits(item, s.bufs, inp.offset)
    ensures s.parts[item.bufsIndex] != []
  {
    hide Member, Joined, Head, Sized, Sequenced, PshOnLast, AllValid, ChecksumValid, Merged;
    MergedPacket(inp, item, s.parts[item.bufsIndex], s.bufs[item.bufsIndex].data);
    FirstPacket(inp, item, s.parts[item.bufsIndex]);
  }

  /** No two items of the tables share a buffer. */
  lemma DistinctBuffers(inp: Input, s: State, i: nat, key: FlowKey, j: nat, key': FlowKey, j': nat)
    requires key in s.flows && key' in s.flows && FlowHolds(inp, s, i, key) && FlowHolds(inp, s, i, key')
    requires j < |s.flows[key]| && j' < |s.flows[key']|
    requires s.flows[key][j].bufsIndex == s.flows[key'][j'].bufsIndex
    ensures key == key' && j == j'
  {
    hide Classify, HeadersAgree, Merged, Sized, Sequenced, PshOnLast, AllValid, ChecksumValid;
    var item, item' := s.flows[key][j], s.flows[key'][j'];
    assert ItemAt(inp, s, i, key, item) && ItemAt(inp, s, i, key', item');
    var ps := s.parts[item.bufsIndex];
    assert Member(inp, item, ps[0], ps[0]) && Member(inp, item', ps[0], ps[0]);
  }

  /** A flow whose buffers are unchanged still holds. */
  lemma FlowFrame(inp: Input, s: State, s': State, i: nat, i': nat, key: FlowKey)
    requires key in s.flows && key in s'.flows && s.flows[key] == s'.flows[key]
    requires FlowHolds(inp, s, i, key) && i <= i' <= |s'.bufs| == |s'.parts| == |s.bufs|
    requires forall j :: 0 <= j < |s.flows[key]| ==>
               var k := s.flows[key][j].bufsIndex;
               k < |s.bufs| && s.bufs[k] == s'.bufs[k] && s.parts[k] == s'.parts[k]
    ensures FlowHolds(inp, s', i', key)
  {
    hide Holds;
    forall j | 0 <= j < |s'.flows[key]|
      ensures ItemAt(inp, s', i', key, s'.flows[key][j])
    {
      assert ItemAt(inp, s, i, key, s.flows[key][j]);
    }
  }

  // ---- what can happen to packet i ----------------------------------------------------

  /** An untouched packet is written as it is, with a cleared virtio header. */
  lemma KeepsNoop(inp: Input, s: State, i: nat)
    requires Inv(inp, s, i) && Good(inp, i + 1)
    ensures Inv(inp, s.(bufs := ClearAt(s.bufs, i, inp.offset), toWrite := s.toWrite + [i]), i + 1)
  {
    hide All, Holds, ClearHeader;
    var s' := s.(bufs := ClearAt(s.bufs, i, inp.offset), toWrite := s.toWrite + [i]);
    forall key | key in s'.flows
      ensures FlowHolds(inp, s', i + 1, key)
    {
      assert FlowHolds(inp, s, i, key);
      assert forall j :: 0 <= j < |s.flows[key]| ==> ItemAt(inp, s, i, key, s.flows[key][j]);
      FlowFrame(inp, s, s', i, i + 1, key);
    }
    WritingNext(s, s', i);
    forall k: nat | k in s'.toWrite
      ensures Tracked(s'.flows, k) || Plain(inp, s', k)
    {
      if k < i {
        assert k in s.toWrite;
      }
    }
  }

  lemma WritingNext(s: State, s': State, i: nat)
    requires i < |s.parts| && Writing(s, i) && s'.parts == s.parts && s'.toWrite == s.toWrite + [i] && s.parts[i] == [i]
    ensures Writing(s', i + 1)
    ensures forall k: nat :: k in s'.toWrite && k < i ==> k in s.toWrite
  {
    forall k: nat
      ensures k in s'.toWrite <==> k < i + 1 && s'.parts[k] != []
    {
      if k in s'.toWrite && k != i {
        assert k in s.toWrite;
      }
    }
    forall a, b | 0 <= a < b < |s'.toWrite|
      ensures s'.toWrite[a] < s'.toWrite[b]
    {
      assert s'.toWrite[a] == s.toWrite[a];
      assert s.toWrite[a] in s.toWrite;
    }
  }

  /** The flow with item neu added at its end. */
  function Extended(flows: map<FlowKey, seq<Item>>, neu: Item): map<FlowKey, seq<Item>> {
    flows[neu.key := (if neu.key in flows then flows[neu.key] else []) + [neu]]
  }

  lemma TrackedExtended(flows: map<FlowKey, seq<Item>>, neu: Item, k: nat)
    requires Tracked(flows, k) || k == neu.bufsIndex
    ensures Tracked(Extended(flows, neu), k)
  {
    var after := Extended(flows, neu);
    if k == neu.bufsIndex {
      assert after[neu.key][|after[neu.key]| - 1] == neu;
      assert TrackedIn(after[neu.key], k);
    } else {
      var key :| key in flows && TrackedIn(flows[key], k);
      var j :| 0 <= j < |flows[key]| && flows[key][j].bufsIndex == k;
      assert after[key][j] == flows[key][j];
      assert TrackedIn(after[key], k);
    }
  }

  /** A packet stored as a new item of its flow. */
  lemma KeepsInsert(inp: Input, s: State, i: nat, neu: Item)
    requires Inv(inp, s, i) && Good(inp, i + 1)
    requires Holds(inp, neu, [i], inp.bufs[i].data) && neu.bufsIndex == i && neu.numMerged == 0
    ensures Inv(inp, s.(flows := Extended(s.flows, neu), toWrite := s.toWrite + [i]), i + 1)
  {
    hide All, Holds, ClearHeader;
    var s' := s.(flows := Extended(s.flows, neu), toWrite := s.toWrite + [i]);
    forall key | key in s'.flows
      ensures FlowHolds(inp, s', i + 1, key)
    {
      if key in s.flows {
        assert FlowHolds(inp, s, i, key);
      }
      forall j | 0 <= j < |s'.flows[key]|
        ensures ItemAt(inp, s', i + 1, key, s'.flows[key][j])
      {
        if key in s.flows && j < |s.flows[key]| {
          assert ItemAt(inp, s, i, key, s.flows[key][j]);
        }
      }
      if key in s.flows {
        forall j | 0 <= j < |s.flows[key]|
          ensures s.flows[key][j].bufsIndex < i
        {
          assert ItemAt(inp, s, i, key, s.flows[key][j]);
        }
      }
    }
    WritingNext(s, s', i);
    forall k: nat | k in s'.toWrite
      ensures Tracked(s'.flows, k) || Plain(inp, s', k)
    {
      if k == i || Tracked(s.flows, k) {
        TrackedExtended(s.flows, neu, k);
      }
    }
  }

  /** The batch after item j of flow key, unmerged and with a bad checksum, is given up. */
  function Dropped(s: State, offset: nat, key: FlowKey, j: nat): State
    requires key in s.flows && j < |s.flows[key]|
    requires s.flows[key][j].bufsIndex < |s.bufs|
        && VIRTIO_NET_HDR_LEN <= offset <= |s.bufs[s.flows[key][j].bufsIndex].data|
  {
    s.(bufs := ClearAt(s.bufs, s.flows[key][j].bufsIndex, offset),
       flows := s.flows[key := s.flows[key][..j] + s.flows[key][j + 1..]])
  }

  lemma TrackedDropped(flows: map<FlowKey, seq<Item>>, key: FlowKey, j: nat, k: nat)
    requires key in flows && j < |flows[key]| && Tracked(flows, k) && k != flows[key][j].bufsIndex
    ensures Tracked(flows[key := flows[key][..j] + flows[key][j + 1..]], k)
  {
    var after := flows[key := flows[key][..j] + flows[key][j + 1..]];
    var key' :| key' in flows && TrackedIn(flows[key'], k);
    var j' :| 0 <= j' < |flows[key']| && flows[key'][j'].bufsIndex == k;
    if key' == key {
      var at := if j' < j then j' else j' - 1;
      assert after[key][at] == flows[key][j'];
    }
    assert TrackedIn(after[key'], k);
  }

  lemma DroppedFlow(inp: Input, s: State, i: nat, key: FlowKey, j: nat)
    requires Inv(inp, s, i) && key in s.flows && key.TcpKey? && j < |s.flows[key]|
    requires Fits(s.flows[key][j], s.bufs, inp.offset)
    ensures FlowHolds(inp, Dropped(s, inp.offset, key, j), i, key)
  {
    hide All, Holds, ClearHeader;
    var s' := Dropped(s, inp.offset, key, j);
    var items := s.flows[key];
    assert FlowHolds(inp, s, i, key);
    forall a | 0 <= a < |s'.flows[key]|
      ensures ItemAt(inp, s', i, key, s'.flows[key][a])
    {
      var b := if a < j then a else a + 1;
      assert s'.flows[key][a] == items[b];
      assert ItemAt(inp, s, i, key, items[b]);
      assert items[b].bufsIndex != items[j].bufsIndex;
    }
  }

  lemma KeepsDrop(inp: Input, s: State, i: nat, key: FlowKey, j: nat)
    requires Inv(inp, s, i) && key in s.flows && key.TcpKey? && j < |s.flows[key]|
    requires s.flows[key][j].numMerged == 0 && Fits(s.flows[key][j], s.bufs, inp.offset)
    ensures Inv(inp, Dropped(s, inp.offset, key, j), i)
  {
    hide All, Holds, ClearHeader;
    var s' := Dropped(s, inp.offset, key, j);
    var item := s.flows[key][j];
    assert FlowHolds(inp, s, i, key) && ItemAt(inp, s, i, key, item);
    Unmerged(inp, item, item.bufsIndex, s.bufs[item.bufsIndex].data);
    DroppedFlow(inp, s, i, key, j);
    forall key' | key' in s'.flows && key' != key
      ensures FlowHolds(inp, s', i, key')
    {
      assert FlowHolds(inp, s, i, key');
      forall j' | 0 <= j' < |s.flows[key']|
        ensures s.flows[key'][j'].bufsIndex < i && s.flows[key'][j'].bufsIndex != item.bufsIndex
      {
        assert ItemAt(inp, s, i, key', s.flows[key'][j']);
        if s.flows[key'][j'].bufsIndex == item.bufsIndex {
          DistinctBuffers(inp, s, i, key, j, key', j');
        }
      }
      FlowFrame(inp, s, s', i, i, key');
    }
    forall k: nat | k in s'.toWrite
      ensures Tracked(s'.flows, k) || Plain(inp, s', k)
    {
      if k != item.bufsIndex && Tracked(s.flows, k) {
        TrackedDropped(s.flows, key, j, k);
      }
    }
  }

  lemma TrackedReplaced(flows: map<FlowKey, seq<Item>>, key: FlowKey, j: nat, item: Item, k: nat)
    requires key in flows && j < |flows[key]| && item.bufsIndex == flows[key][j].bufsIndex && Tracked(flows, k)
    ensures Tracked(flows[key := flows[key][j := item]], k)
  {
    var after: map<FlowKey, seq<Item>> := flows[key := flows[key][j := item]];
    var key' :| key' in flows && TrackedIn(flows[key'], k);
    var j' :| 0 <= j' < |flows[key']| && flows[key'][j'].bufsIndex == k;
    var items := after[key'];
    assert items[j'].bufsIndex == k;
    assert TrackedIn(after[key'], k);
  }

  /** The batch after packet i is merged into item j of flow key, which becomes item. */
  function MergedInto(s: State, i: nat, key: FlowKey, j: nat, item: Item, bufs: seq<Buf>, ps: seq<nat>): State
    requires key in s.flows && j < |s.flows[key]| && item.bufsIndex < |s.parts| && i < |s.parts|
  {
    State(bufs, s.flows[key := s.flows[key][j := item]], s.toWrite, s.parts[item.bufsIndex := ps][i := []])
  }

  lemma MergedFlows(inp: Input, s: State, s': State, i: nat, key: FlowKey, j: nat, item: Item, key': FlowKey)
    requires Inv(inp, s, i) && i < |inp.bufs| && key in s.flows && j < |s.flows[key]|
    requires |s'.bufs| == |s.bufs| && |s'.parts| == |s.parts|
    requires forall k :: 0 <= k < i && k != s.flows[key][j].bufsIndex ==>
        s'.bufs[k] == s.bufs[k] && s'.parts[k] == s.parts[k]
    requires s'.flows == s.flows[key := s.flows[key][j := item]] && key' in s'.flows
    requires ItemAt(inp, s', i + 1, key, item) && item.bufsIndex == s.flows[key][j].bufsIndex
    ensures FlowHolds(inp, s', i + 1, key')
  {
    hide All, Holds, Untouched, Capacities, Writing;
    assert FlowHolds(inp, s, i, key) && FlowHolds(inp, s, i, key');
    forall j' | 0 <= j' < |s'.flows[key']|
      ensures ItemAt(inp, s', i + 1, key', s'.flows[key'][j'])
    {
      if key' != key || j' != j {
        assert ItemAt(inp, s, i, key', s.flows[key'][j']);
        if s.flows[key'][j'].bufsIndex == s.flows[key][j].bufsIndex {
          DistinctBuffers(inp, s, i, key, j, key', j');
        }
      }
    }
  }

  lemma MergedWriting(s: State, s': State, i: nat, k: nat, ps: seq<nat>)
    requires k < i < |s.parts| && Writing(s, i) && s.parts[k] != [] && ps != []
    requires s'.parts == s.parts[k := ps][i := []] && s'.toWrite == s.toWrite
    requires forall j :: 0 <= j < |ps| ==> ps[j] <= i
    ensures Writing(s', i + 1)
  {
  }

  /** Packet i merged into an item of its flow. */
  lemma KeepsMerge(inp: Input, s: State, i: nat, key: FlowKey, j: nat, item: Item, bufs: seq<Buf>, ps: seq<nat>)
    requires Inv(inp, s, i) && Good(inp, i + 1) && key in s.flows && j < |s.flows[key]|
    requires item.key == key && item.bufsIndex == s.flows[key][j].bufsIndex < |bufs| == |s.bufs| && item.numMerged > 0
    requires forall k :: 0 <= k < |bufs| && k != item.bufsIndex && k != i ==> bufs[k] == s.bufs[k]
    requires |bufs[i].data| <= bufs[i].cap <= 0xffff
    requires |bufs[item.bufsIndex].data| <= bufs[item.bufsIndex].cap <= 0xffff
    requires Holds(inp, item, ps, bufs[item.bufsIndex].data)
    requires All(s.parts[item.bufsIndex := ps][i := []]) == All(s.parts)
    requires forall a :: 0 <= a < |ps| ==> ps[a] <= i
    requires item.bufsIndex != i
    ensures Inv(inp, MergedInto(s, i, key, j, item, bufs, ps), i + 1)
  {
    hide All, Holds, ClearHeader, Tracked, Plain;
    var s' := MergedInto(s, i, key, j, item, bufs, ps);
    var bi: nat := item.bufsIndex;
    assert FlowHolds(inp, s, i, key) && ItemAt(inp, s, i, key, s.flows[key][j]);
    ItemFits(inp, s, i, key, s.flows[key][j]);
    NotEmpty(inp, item, ps, bufs[bi].data);
    assert ItemAt(inp, s', i + 1, key, item);
    forall key' | key' in s'.flows
      ensures FlowHolds(inp, s', i + 1, key')
    {
      MergedFlows(inp, s, s', i, key, j, item, key');
    }
    MergedWriting(s, s', i, bi, ps);
    forall k: nat | k in s'.toWrite
      ensures Tracked(s'.flows, k) || Plain(inp, s', k)
    {
      assert k < i && (Tracked(s.flows, k) || Plain(inp, s, k));
      MergedWritten(inp, s, s', i, key, j, item, k);
    }
  }

  lemma MergedWritten(inp: Input, s: State, s': State, i: nat, key: FlowKey, j: nat, item: Item, k: nat)
    requires key in s.flows && j < |s.flows[key]| && item.bufsIndex == s.flows[key][j].bufsIndex
    requires s'.flows == s.flows[key := s.flows[key][j := item]] && k < i
    requires |s'.bufs| == |s.bufs| && |s'.parts| == |s.parts| && (Tracked(s.flows, k) || Plain(inp, s, k))
    requires k != item.bufsIndex && k < |s.bufs| && k < |s.parts| ==>
        s'.bufs[k] == s.bufs[k] && s'.parts[k] == s.parts[k]
    ensures Tracked(s'.flows, k) || Plain(inp, s', k)
  {
    if k == item.bufsIndex {
      assert TrackedIn(s.flows[key], k);
    }
    if Tracked(s.flows, k) {
      TrackedReplaced(s.flows, key, j, item, k);
    }
  }

  // ---- where a scan merges a packet ---------------------------------------------------

  /** The buffer a packet is merged into is that of an item of its flow, without PSH if appended to. */
  ghost predicate Takes(items: seq<Item>, v: Verdict) {
    v.Appended? || v.Prepended? ==>
      exists j :: 0 <= j < |items| && items[j].bufsIndex == v.into && (v.Appended? ==> !Psh(items[j]))
  }

  lemma {:induction false} TcpScanInto(bufs: seq<Buf>, offset: nat, i: nat, neu: Item, items: seq<Item>, n: nat)
    requires neu.TcpItem? && n <= |items| && ScanOk(bufs, offset, i, neu, items)
    ensures Takes(items, TcpScan(bufs, offset, i, neu, items, n).verdict)
    decreases n
  {
    hide TcpPacketsCanCoalesce, CoalesceTcpPackets, ClearHeader, Takes;
    if n > 0 {
      var item := items[n - 1];
      var pkt, target := bufs[i].data[offset..], bufs[item.bufsIndex].data[offset..];
      var can := TcpPacketsCanCoalesce(pkt, neu, item, target);
      if can == Unavailable {
        TcpScanInto(bufs, offset, i, neu, items, n - 1);
      } else {
        var c := CoalesceTcpPackets(can, i, neu, item, bufs, offset);
        if c.result == ItemInvalidCsum {
          var fewer := items[..n - 1] + items[n..];
          TcpScanInto(ClearAt(bufs, item.bufsIndex, offset), offset, i, neu, fewer, n - 1);
          TakesAlso(items, n - 1, TcpScan(bufs, offset, i, neu, items, n).verdict);
        } else if c.result == Success {
          AppendsWithoutPsh(pkt, neu, item, target);
          TakesOne(items, n - 1, TcpScan(bufs, offset, i, neu, items, n).verdict);
        } else if c.result == PktInvalidCsum {
          TakesNone(items);
        } else {
          TcpScanInto(bufs, offset, i, neu, items, n - 1);
        }
      }
    } else {
      TakesNone(items);
    }
  }

  lemma AppendsWithoutPsh(pkt: seq<byte>, neu: Item, item: Item, target: seq<byte>)
    requires neu.TcpItem? && item.TcpItem? && item.gsoSize >= 1 && neu.iphLen == item.iphLen
    requires 20 <= neu.tcphLen && 20 <= item.tcphLen && neu.HdrLen() <= |pkt| && item.HdrLen() <= |target|
    ensures TcpPacketsCanCoalesce(pkt, neu, item, target) == Append ==> !Psh(item)
  {
    hide IpHeadersCanCoalesce, LhsLen;
  }

  lemma TakesNone(items: seq<Item>)
    ensures Takes(items, Noop) && Takes(items, Inserted)
  {
  }

  lemma TakesOne(items: seq<Item>, j: nat, v: Verdict)
    requires j < |items|
    requires v == Prepended(items[j].bufsIndex) || (v == Appended(items[j].bufsIndex) && !Psh(items[j]))
    ensures Takes(items, v)
  {
  }

  lemma TakesAlso(items: seq<Item>, n: nat, v: Verdict)
    requires n < |items| && Takes(items[..n] + items[n + 1..], v)
    ensures Takes(items, v)
  {
    var fewer := items[..n] + items[n + 1..];
    if v.Appended? || v.Prepended? {
      var j :| 0 <= j < |fewer| && fewer[j].bufsIndex == v.into && (v.Appended? ==> !Psh(fewer[j]));
      assert fewer[j] == items[if j < n then j else j + 1];
    }
  }

  lemma ScanInto(s: State, offset: nat, i: nat, neu: Item)
    requires StepOk(s, offset, i, Some(neu))
    ensures var v := FlowScan(s.bufs, offset, i, neu, s.flows).verdict;
            && (v.Appended? || v.Prepended? ==> neu.key in s.flows)
            && (neu.key in s.flows ==> Takes(s.flows[neu.key], v))
  {
    hide ClearHeader, CoalesceUdpPackets, UdpPacketsCanCoalesce, TcpScan, Takes;
    if neu.key in s.flows {
      var items := s.flows[neu.key];
      if neu.TcpItem? {
        TcpScanInto(s.bufs, offset, i, neu, items, |items|);
      } else {
        TakesNone(items);
        if UdpScan(s.bufs, offset, i, neu, items).verdict.Appended? {
          TakesOne(items, |items| - 1, Appended(items[|items| - 1].bufsIndex));
        }
      }
    }
  }

  predicate InNone(v: Verdict) {
    v.Noop? || v.Inserted?
  }

  /** A scan leaves the capacities, but for a packet that is prepended: its buffer becomes the item's. */
  ghost predicate CapsKept(bufs: seq<Buf>, i: nat, r: Scan) {
    && i < |bufs| && |r.bufs| == |bufs|
    && (forall k :: 0 <= k < |bufs| && (InNone(r.verdict) || (k != i && k != r.verdict.into)) ==>
          r.bufs[k].cap == bufs[k].cap)
    && match r.verdict
       case Appended(into) => into < |bufs| && (into != i ==> r.bufs[into].cap == bufs[into].cap)
       case Prepended(into) => into < |bufs| && (into != i ==> r.bufs[into].cap == bufs[i].cap)
       case _ => true
  }

  lemma NothingMerged(bufs: seq<Buf>, i: nat, r: Scan)
    requires r.bufs == bufs && i < |bufs| && !r.verdict.Appended? && !r.verdict.Prepended?
    ensures CapsKept(bufs, i, r)
  {
  }

  lemma MergeCaps(mode: CanCoalesce, i: nat, neu: Item, item: Item, bufs: seq<Buf>, offset: nat, r: Scan)
    requires neu.TcpItem? && item.TcpItem? && Fits(item, bufs, offset)
    requires i < |bufs| && offset + item.HdrLen() <= |bufs[i].data|
    requires CoalesceTcpPackets(mode, i, neu, item, bufs, offset).result.Success?
    requires r.bufs == CoalesceTcpPackets(mode, i, neu, item, bufs, offset).bufs
    requires r.verdict == if mode == Prepend then Prepended(item.bufsIndex) else Appended(item.bufsIndex)
    ensures CapsKept(bufs, i, r)
  {
    hide ChecksumValid;
  }

  lemma ClearedCaps(bufs: seq<Buf>, k: nat, offset: nat, i: nat, r: Scan)
    requires k < |bufs| && VIRTIO_NET_HDR_LEN <= offset <= |bufs[k].data| && CapsKept(ClearAt(bufs, k, offset), i, r)
    ensures CapsKept(bufs, i, r)
  {
    hide ClearHeader;
  }

  lemma {:induction false} TcpScanCaps(bufs: seq<Buf>, offset: nat, i: nat, neu: Item, items: seq<Item>, n: nat)
    requires neu.TcpItem? && n <= |items| && ScanOk(bufs, offset, i, neu, items)
    ensures CapsKept(bufs, i, TcpScan(bufs, offset, i, neu, items, n))
    decreases n
  {
    hide TcpPacketsCanCoalesce, CoalesceTcpPackets, ClearHeader, CapsKept, SameShape;
    var r := TcpScan(bufs, offset, i, neu, items, n);
    if n == 0 {
      NothingMerged(bufs, i, r);
    } else {
      var item := items[n - 1];
      var pkt, target := bufs[i].data[offset..], bufs[item.bufsIndex].data[offset..];
      var can := TcpPacketsCanCoalesce(pkt, neu, item, target);
      if can == Unavailable {
        TcpScanCaps(bufs, offset, i, neu, items, n - 1);
      } else {
        var c := CoalesceTcpPackets(can, i, neu, item, bufs, offset);
        match c.result
        case Success =>
          MergeCaps(can, i, neu, item, bufs, offset, r);
        case ItemInvalidCsum =>
          var fewer := items[..n - 1] + items[n..];
          TcpScanCaps(ClearAt(bufs, item.bufsIndex, offset), offset, i, neu, fewer, n - 1);
          ClearedCaps(bufs, item.bufsIndex, offset, i, r);
        case PktInvalidCsum =>
          NothingMerged(bufs, i, r);
        case _ =>
          TcpScanCaps(bufs, offset, i, neu, items, n - 1);
      }
    }
  }

  lemma ScanCaps(s: State, offset: nat, i: nat, neu: Item)
    requires StepOk(s, offset, i, Some(neu))
    ensures CapsKept(s.bufs, i, FlowScan(s.bufs, offset, i, neu, s.flows))
  {
    hide UdpPacketsCanCoalesce, ChecksumValid, TcpScan;
    if neu.key in s.flows && neu.TcpItem? {
      TcpScanCaps(s.bufs, offset, i, neu, s.flows[neu.key], |s.flows[neu.key]|);
    }
  }

  /** Buffer k keeps its packets and its capacity from s to s'. */
  predicate SameBuffer(s: State, s': State, k: nat) {
    && k < |s.bufs| == |s.parts| && k < |s'.bufs| == |s'.parts|
    && s'.parts[k] == s.parts[k] && s'.bufs[k].cap == s.bufs[k].cap
  }

  /** A step on another flow leaves a flow's items alone, and what their buffers hold. */
  lemma OtherFlow(inp: Input, s: State, i: nat, key: FlowKey)
    requires Inv(inp, s, i) && Good(inp, i + 1) && StepOk(s, inp.offset, i, Desc(inp, i))
    requires Desc(inp, i).Some? ==> Desc(inp, i).value.key != key
    ensures var s' := GroStep(s, inp.offset, i, Desc(inp, i));
            && (key in s'.flows <==> key in s.flows)
            && (key in s.flows ==>
                  && s'.flows[key] == s.flows[key]
                  && forall j :: 0 <= j < |s.flows[key]| ==> SameBuffer(s, s', s.flows[key][j].bufsIndex))
  {
    hide Inv, Desc, Good, FlowScan, Takes, ScanOk, ClearHeader, FlowHolds, Holds;
    StepReady(inp, s, i);
    InvSizes(inp, s, i);
    if key in s.flows {
      forall j | 0 <= j < |s.flows[key]|
        ensures SameBuffer(s, GroStep(s, inp.offset, i, Desc(inp, i)), s.flows[key][j].bufsIndex)
      {
        FlowItem(inp, s, i, key, j);
        if Desc(inp, i).Some? {
          ScanCaps(s, inp.offset, i, Desc(inp, i).value);
          NotInto(inp, s, i, Desc(inp, i).value, key, j);
        }
      }
    }
  }

  /** A packet of another flow is not merged into a flow's buffers. */
  lemma NotInto(inp: Input, s: State, i: nat, neu: Item, key: FlowKey, j: nat)
    requires Inv(inp, s, i) && StepOk(s, inp.offset, i, Some(neu)) && neu.key != key
    requires key in s.flows && j < |s.flows[key]|
    ensures var v := FlowScan(s.bufs, inp.offset, i, neu, s.flows).verdict;
            v.Appended? || v.Prepended? ==> v.into != s.flows[key][j].bufsIndex
  {
    hide All, Holds, Untouched, Capacities, Writing, Tracked, Plain, FlowScan, ItemAt, ScanOk;
    var v := FlowScan(s.bufs, inp.offset, i, neu, s.flows).verdict;
    ScanInto(s, inp.offset, i, neu);
    if v.Appended? || v.Prepended? {
      assert Takes(s.flows[neu.key], v);
      var a :| 0 <= a < |s.flows[neu.key]| && s.flows[neu.key][a].bufsIndex == v.into;
      assert FlowHolds(inp, s, i, key) && FlowHolds(inp, s, i, neu.key);
      if v.into == s.flows[key][j].bufsIndex {
        DistinctBuffers(inp, s, i, key, j, neu.key, a);
      }
    }
  }

  lemma InvSizes(inp: Input, s: State, i: nat)
    requires Inv(inp, s, i)
    ensures |s.bufs| == |s.parts| == |inp.bufs|
  {
    hide All, Untouched, Capacities, Writing, Tracked, Plain, FlowHolds;
  }

  // ---- one step -----------------------------------------------------------------------

  /** The invariant gives a step all it needs. */
  lemma StepReady(inp: Input, s: State, i: nat)
    requires Inv(inp, s, i) && Good(inp, i + 1)
    ensures StepOk(s, inp.offset, i, Desc(inp, i))
    ensures Desc(inp, i).Some? ==> Describes(Desc(inp, i).value, Pkt(inp, i)) && Desc(inp, i).value.bufsIndex == i
    ensures s.bufs[i] == inp.bufs[i] && s.parts[i] == [i] && s.bufs[i].data[inp.offset..] == Pkt(inp, i)
  {
    hide All, Holds, Classify;
    if Desc(inp, i).Some? {
      var neu := Desc(inp, i).value;
      Classified(Pkt(inp, i), inp.canUdpGro, i);
      if neu.key in s.flows {
        assert FlowHolds(inp, s, i, neu.key);
        forall j | 0 <= j < |s.flows[neu.key]|
          ensures s.flows[neu.key][j].key == neu.key && Fits(s.flows[neu.key][j], s.bufs, inp.offset)
        {
          assert ItemAt(inp, s, i, neu.key, s.flows[neu.key][j]);
          ItemFits(inp, s, i, neu.key, s.flows[neu.key][j]);
        }
      }
    }
  }

  lemma FlowItem(inp: Input, s: State, i: nat, key: FlowKey, j: nat)
    requires Inv(inp, s, i) && key in s.flows && j < |s.flows[key]| && i < |s.bufs|
    ensures var item := s.flows[key][j];
            && item.key == key && item.bufsIndex < i && Fits(item, s.bufs, inp.offset)
            && Holds(inp, item, s.parts[item.bufsIndex], s.bufs[item.bufsIndex].data)
            && s.parts[item.bufsIndex] != []
            && |s.bufs[item.bufsIndex].data| <= s.bufs[item.bufsIndex].cap <= 0xffff
            && forall a :: 0 <= a < |s.parts[item.bufsIndex]| ==> s.parts[item.bufsIndex][a] < i
  {
    hide All, Holds;
    assert FlowHolds(inp, s, i, key) && ItemAt(inp, s, i, key, s.flows[key][j]);
    ItemFits(inp, s, i, key, s.flows[key][j]);
  }

  /** Packet i appended or prepended to the TCP item under examination. */
  lemma TcpMergeKeeps(inp: Input, s: State, i: nat, neu: Item, j: nat, mode: CanCoalesce)
    requires Inv(inp, s, i) && Good(inp, i + 1) && Desc(inp, i) == Some(neu) && neu.TcpItem?
    requires neu.key in s.flows && j < |s.flows[neu.key]| && mode != Unavailable
    requires ScanOk(s.bufs, inp.offset, i, neu, s.flows[neu.key])
    requires var item := s.flows[neu.key][j];
             TcpPacketsCanCoalesce(Pkt(inp, i), neu, item, s.bufs[item.bufsIndex].data[inp.offset..]) == mode
    requires s.flows[neu.key][j].HdrLen() == neu.HdrLen()
    requires CoalesceTcpPackets(mode, i, neu, s.flows[neu.key][j], s.bufs, inp.offset).result.Success?
    ensures var item := s.flows[neu.key][j];
            var c := CoalesceTcpPackets(mode, i, neu, item, s.bufs, inp.offset);
            var verdict := if mode == Prepend then Prepended(item.bufsIndex) else Appended(item.bufsIndex);
            && |c.bufs| == |s.bufs| && item.bufsIndex < |s.bufs|
            && Inv(inp, State(c.bufs, s.flows[neu.key := s.flows[neu.key][j := c.item]], s.toWrite,
                 MoveParts(s.parts, i, verdict)), i + 1)
  {
    hide All, Holds, Desc, TcpPacketsCanCoalesce, CoalesceTcpPackets, Classify;
    var item := s.flows[neu.key][j];
    var c := CoalesceTcpPackets(mode, i, neu, item, s.bufs, inp.offset);
    var verdict := if mode == Prepend then Prepended(item.bufsIndex) else Appended(item.bufsIndex);
    FlowItem(inp, s, i, neu.key, j);
    var ps := s.parts[item.bufsIndex];
    var ps' := if mode == Prepend then [i] + ps else ps + [i];
    if mode == Prepend {
      TcpPrepended(inp, item, ps, s.bufs, i, neu);
    } else {
      TcpAppended(inp, item, ps, s.bufs, i, neu);
    }
    MergeCounts(inp, c.item, ps', c.bufs[item.bufsIndex].data);
    MoveConserves(s.parts, i, verdict);
    KeepsMerge(inp, s, i, neu.key, j, c.item, c.bufs, ps');
  }

  lemma MergeCounts(inp: Input, item: Item, ps: seq<nat>, data: seq<byte>)
    requires Holds(inp, item, ps, data) && |ps| > 1
    ensures item.numMerged > 0
  {
  }

  /** A scan that ends by inserting, by taking no action or by merging into item j keeps the invariant. */
  lemma InsertSettles(inp: Input, s: State, i: nat, neu: Item)
    requires Inv(inp, s, i) && Good(inp, i + 1) && Desc(inp, i) == Some(neu) && neu.key in s.flows
    ensures i < |s.bufs| == |s.parts| && VIRTIO_NET_HDR_LEN <= inp.offset <= |s.bufs[i].data|
    ensures Inv(inp, Settle(s, inp.offset, i, neu.key, Scan(s.bufs, s.flows[neu.key] + [neu], Inserted)), i + 1)
  {
    hide Inv, Desc, Good;
    StepReady(inp, s, i);
    InvSizes(inp, s, i);
    ItemInserted(inp, i);
    KeepsInsert(inp, s, i, neu);
  }

  lemma NoopSettles(inp: Input, s: State, i: nat, key: FlowKey)
    requires Inv(inp, s, i) && Good(inp, i + 1) && key in s.flows
    ensures i < |s.bufs| == |s.parts| && VIRTIO_NET_HDR_LEN <= inp.offset <= |s.bufs[i].data|
    ensures Inv(inp, Settle(s, inp.offset, i, key, Scan(s.bufs, s.flows[key], Noop)), i + 1)
  {
    hide Inv, Desc, Good;
    StepReady(inp, s, i);
    InvSizes(inp, s, i);
    KeepsNoop(inp, s, i);
    assert s.flows[key := s.flows[key]] == s.flows;
  }

  lemma MergeSettles(inp: Input, s: State, i: nat, neu: Item, j: nat, mode: CanCoalesce)
    requires Inv(inp, s, i) && Good(inp, i + 1) && Desc(inp, i) == Some(neu) && neu.TcpItem?
    requires neu.key in s.flows && j < |s.flows[neu.key]| && mode != Unavailable
    requires ScanOk(s.bufs, inp.offset, i, neu, s.flows[neu.key])
    requires var item := s.flows[neu.key][j];
             TcpPacketsCanCoalesce(Pkt(inp, i), neu, item, s.bufs[item.bufsIndex].data[inp.offset..]) == mode
    requires s.flows[neu.key][j].HdrLen() == neu.HdrLen()
    requires CoalesceTcpPackets(mode, i, neu, s.flows[neu.key][j], s.bufs, inp.offset).result.Success?
    ensures i < |s.bufs| == |s.parts| && VIRTIO_NET_HDR_LEN <= inp.offset <= |s.bufs[i].data|
    ensures var item := s.flows[neu.key][j];
            var c := CoalesceTcpPackets(mode, i, neu, item, s.bufs, inp.offset);
            var verdict := if mode == Prepend then Prepended(item.bufsIndex) else Appended(item.bufsIndex);
            var scan := Scan(c.bufs, s.flows[neu.key][j := c.item], verdict);
            SameShape(s.bufs, scan) && Inv(inp, Settle(s, inp.offset, i, neu.key, scan), i + 1)
  {
    hide Inv, Desc, Good, TcpPacketsCanCoalesce, CoalesceTcpPackets, ScanOk, Pkt;
    StepReady(inp, s, i);
    InvSizes(inp, s, i);
    TcpMergeKeeps(inp, s, i, neu, j, mode);
  }

  /** The TCP reverse scan keeps the invariant, whatever it deletes on the way. */
  lemma {:induction false} TcpScanKeeps(inp: Input, s: State, i: nat, neu: Item, n: nat)
    requires Inv(inp, s, i) && Good(inp, i + 1) && Desc(inp, i) == Some(neu) && neu.TcpItem?
    requires neu.key in s.flows && n <= |s.flows[neu.key]|
    requires ScanOk(s.bufs, inp.offset, i, neu, s.flows[neu.key])
    ensures Inv(inp, Settle(s, inp.offset, i, neu.key, TcpScan(s.bufs, inp.offset, i, neu, s.flows[neu.key], n)), i + 1)
    decreases n
  {
    hide Inv, Desc, TcpPacketsCanCoalesce, CoalesceTcpPackets, Classify, ClearHeader, ScanOk, Describes, Pkt, Good,
        SameShape, Settle;
    var items := s.flows[neu.key];
    StepReady(inp, s, i);
    if n == 0 {
      InsertSettles(inp, s, i, neu);
    } else {
      var item := items[n - 1];
      ScanItem(s.bufs, inp.offset, i, neu, items, n - 1);
      var can := TcpPacketsCanCoalesce(Pkt(inp, i), neu, item, s.bufs[item.bufsIndex].data[inp.offset..]);
      if can == Unavailable {
        TcpScanKeeps(inp, s, i, neu, n - 1);
      } else {
        var c := CoalesceTcpPackets(can, i, neu, item, s.bufs, inp.offset);
        match c.result
        case Success =>
          MergeSettles(inp, s, i, neu, n - 1, can);
        case ItemInvalidCsum =>
          OnlyUnmergedDropped(can, i, neu, item, s.bufs, inp.offset);
          KeepsDrop(inp, s, i, neu.key, n - 1);
          var s' := Dropped(s, inp.offset, neu.key, n - 1);
          StepReady(inp, s', i);
          TcpScanKeeps(inp, s', i, neu, n - 1);
          SettleDropped(s, inp.offset, i, neu.key, n - 1,
              TcpScan(s'.bufs, inp.offset, i, neu, s'.flows[neu.key], n - 1));
        case PktInvalidCsum =>
          NoopSettles(inp, s, i, neu.key);
        case _ =>
          TcpScanKeeps(inp, s, i, neu, n - 1);
      }
    }
  }

  lemma SettleDropped(s: State, offset: nat, i: nat, key: FlowKey, j: nat, scan: Scan)
    requires i < |s.bufs| == |s.parts| && VIRTIO_NET_HDR_LEN <= offset <= |s.bufs[i].data|
    requires key in s.flows && j < |s.flows[key]| && s.flows[key][j].bufsIndex < |s.bufs|
    requires offset <= |s.bufs[s.flows[key][j].bufsIndex].data|
    requires SameShape(Dropped(s, offset, key, j).bufs, scan)
    ensures SameShape(s.bufs, scan)
    ensures Settle(Dropped(s, offset, key, j), offset, i, key, scan) == Settle(s, offset, i, key, scan)
  {
    assert Dropped(s, offset, key, j).flows[key := scan.items] == s.flows[key := scan.items];
  }

  lemma ScanItem(bufs: seq<Buf>, offset: nat, i: nat, neu: Item, items: seq<Item>, j: nat)
    requires ScanOk(bufs, offset, i, neu, items) && j < |items|
    ensures items[j].key == neu.key && Fits(items[j], bufs, offset)
    ensures Describes(neu, bufs[i].data[offset..]) && VIRTIO_NET_HDR_LEN <= offset
  {
  }

  /** A merged item is never deleted from its flow. */
  lemma OnlyUnmergedDropped(mode: CanCoalesce, i: nat, neu: Item, item: Item, bufs: seq<Buf>, offset: nat)
    requires neu.TcpItem? && item.TcpItem? && Fits(item, bufs, offset)
    requires i < |bufs| && offset + item.HdrLen() <= |bufs[i].data|
    requires CoalesceTcpPackets(mode, i, neu, item, bufs, offset).result.ItemInvalidCsum?
    ensures item.numMerged == 0
    ensures !ChecksumValid(bufs[item.bufsIndex].data[offset..], item.iphLen, PROTO_TCP, item.key.isV6)
  {
  }

  lemma KnownInvalidHolds(inp: Input, neu: Item, i: nat, data: seq<byte>)
    requires neu.UdpItem? && Holds(inp, neu, [i], data)
    requires neu.iphLen as nat <= |Pkt(inp, i)| && |Pkt(inp, i)| >= if neu.key.isV6 then 40 else 20
    requires !ChecksumValid(Pkt(inp, i), neu.iphLen, PROTO_UDP, neu.key.isV6)
    ensures Holds(inp, neu.(cSumKnownInvalid := true), [i], data)
  {
    hide Classify, ChecksumValid, HeadersAgree, Joined;
    assert Member(inp, neu, i, i);
  }

  /** Offering a packet to the last item of its UDP flow keeps the invariant. */
  lemma UdpScanKeeps(inp: Input, s: State, i: nat, neu: Item)
    requires Inv(inp, s, i) && Good(inp, i + 1) && Desc(inp, i) == Some(neu) && neu.UdpItem?
    requires neu.key in s.flows && s.flows[neu.key] != []
    requires ScanOk(s.bufs, inp.offset, i, neu, s.flows[neu.key])
    ensures Inv(inp, Settle(s, inp.offset, i, neu.key, UdpScan(s.bufs, inp.offset, i, neu, s.flows[neu.key])), i + 1)
  {
    hide Inv, Desc, UdpPacketsCanCoalesce, Classify, ClearHeader, ChecksumValid, Good, Holds, All;
    var items := s.flows[neu.key];
    var j := |items| - 1;
    var item := items[j];
    StepReady(inp, s, i);
    ItemInserted(inp, i);
    FlowItem(inp, s, i, neu.key, j);
    if UdpPacketsCanCoalesce(Pkt(inp, i), neu, item, s.bufs[item.bufsIndex].data[inp.offset..]) == Append {
      var c := CoalesceUdpPackets(Pkt(inp, i), item, s.bufs, inp.offset);
      match c.result
      case Success =>
        UdpMergeKeeps(inp, s, i, neu, j);
      case PktInvalidCsum =>
        KnownInvalidHolds(inp, neu, i, inp.bufs[i].data);
        KeepsInsert(inp, s, i, neu.(cSumKnownInvalid := true));
      case _ =>
        KeepsInsert(inp, s, i, neu);
    } else {
      KeepsInsert(inp, s, i, neu);
    }
  }

  lemma UdpMergeKeeps(inp: Input, s: State, i: nat, neu: Item, j: nat)
    requires Inv(inp, s, i) && Good(inp, i + 1) && Desc(inp, i) == Some(neu) && neu.UdpItem?
    requires neu.key in s.flows && j < |s.flows[neu.key]| && s.flows[neu.key][j].UdpItem?
    requires Fits(s.flows[neu.key][j], s.bufs, inp.offset) && s.flows[neu.key][j].key == neu.key
    requires s.flows[neu.key][j].HdrLen() <= |Pkt(inp, i)| && neu.iphLen == s.flows[neu.key][j].iphLen
    requires var item := s.flows[neu.key][j];
             && UdpPacketsCanCoalesce(Pkt(inp, i), neu, item, s.bufs[item.bufsIndex].data[inp.offset..]) == Append
             && CoalesceUdpPackets(Pkt(inp, i), item, s.bufs, inp.offset).result.Success?
    ensures var item := s.flows[neu.key][j];
            var c := CoalesceUdpPackets(Pkt(inp, i), item, s.bufs, inp.offset);
            Inv(inp, State(c.bufs, s.flows[neu.key := s.flows[neu.key][j := c.item]], s.toWrite,
                MoveParts(s.parts, i, Appended(item.bufsIndex))), i + 1)
  {
    hide All, Holds, Desc, UdpPacketsCanCoalesce, CoalesceUdpPackets, Classify;
    var item := s.flows[neu.key][j];
    var c := CoalesceUdpPackets(Pkt(inp, i), item, s.bufs, inp.offset);
    FlowItem(inp, s, i, neu.key, j);
    var ps := s.parts[item.bufsIndex];
    UdpAppended(inp, item, ps, s.bufs, i);
    MergeCounts(inp, c.item, ps + [i], c.bufs[item.bufsIndex].data);
    MoveConserves(s.parts, i, Appended(item.bufsIndex));
    KeepsMerge(inp, s, i, neu.key, j, c.item, c.bufs, ps + [i]);
  }

  /** Every packet that passes the offset check keeps the batch invariant. */
  lemma StepKeeps(inp: Input, s: State, i: nat)
    requires Inv(inp, s, i) && Good(inp, i + 1)
    ensures StepOk(s, inp.offset, i, Desc(inp, i))
    ensures Inv(inp, GroStep(s, inp.offset, i, Desc(inp, i)), i + 1)
  {
    hide Inv, Desc, Classify, ClearHeader, Good, Holds, All, TcpScan, UdpScan;
    StepReady(inp, s, i);
    if Desc(inp, i).None? {
      KeepsNoop(inp, s, i);
    } else {
      var neu := Desc(inp, i).value;
      ItemInserted(inp, i);
      if neu.key !in s.flows {
        KeepsInsert(inp, s, i, neu);
        assert [] + [neu] == [neu];
      } else if neu.TcpItem? {
        TcpScanKeeps(inp, s, i, neu, |s.flows[neu.key]|);
      } else {
        UdpScanKeeps(inp, s, i, neu);
      }
    }
  }

  lemma GoodSooner(inp: Input, n: nat)
    requires Good(inp, n)
    ensures n > 0 ==> Good(inp, n - 1)
  {
  }

  /** The batch after the first n packets: GRO from empty tables. */
  ghost function Run(inp: Input, n: nat): (s: State)
    requires Good(inp, n)
    ensures Inv(inp, s, n)
  {
    hide *;
    GoodSooner(inp, n);
    if n == 0 then
      StartInv(inp);
      Start(inp)
    else
      var s := Run(inp, n - 1);
      StepKeeps(inp, s, n - 1);
      GroStep(s, inp.offset, n - 1, Desc(inp, n - 1))
  }
}
