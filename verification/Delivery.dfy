/**
 What a whole batch delivers: after GRO and accounting, the frames to write read back as
 exactly the packets of the batch, each once.
 */
module Delivery {
  import opened Bytes
  import opened ChecksumSpec
  import opened Packet
  import opened Gro
  import opened GroItem
  import opened GroInvariant
  import opened Gso
  import opened Accounting
  import opened RoundTrip

  /** after is before with every item of flows accounted for, and no other buffer touched. */
  ghost predicate AccountedBy(le: bool, offset: nat, flows: map<FlowKey, seq<Item>>, before: seq<Buf>,
          after: seq<Buf>) {
    && |after| == |before| && VIRTIO_NET_HDR_LEN <= offset
    && (forall key, j :: key in flows && 0 <= j < |flows[key]| ==>
         ItemAccounted(le, offset, flows[key][j], before, after))
    && (forall k :: 0 <= k < |before| && !Tracked(flows, k) ==> after[k] == before[k])
  }

  predicate ItemAccounted(le: bool, offset: nat, item: Item, before: seq<Buf>, after: seq<Buf>)
    requires |after| == |before| && VIRTIO_NET_HDR_LEN <= offset
  {
    && item.bufsIndex < |before|
    && Shaped(item)
    && offset + item.HdrLen() <= |before[item.bufsIndex].data|
    && after[item.bufsIndex] == before[item.bufsIndex].(data := AccountItem(le, before[item.bufsIndex].data, offset,
         item))
  }

  /** Accounting has one outcome, in whatever order the maps are walked. */
  lemma AccountingUnique(le: bool, offset: nat, flows: map<FlowKey, seq<Item>>, before: seq<Buf>, a: seq<Buf>,
          b: seq<Buf>)
    requires AccountedBy(le, offset, flows, before, a) && AccountedBy(le, offset, flows, before, b)
    ensures a == b
  {
  }

  // ---- every packet in exactly one written buffer --------------------------------------

  /** Original packet p lives in the k-th buffer, at one place only. */
  ghost predicate LivesIn(s: State, p: nat, k: nat) {
    && k in s.toWrite && k < |s.parts|
    && multiset(s.parts[k])[p] == 1
    && forall k' :: 0 <= k' < |s.parts| && k' != k ==> p !in s.parts[k']
  }

  /** Conservation: every packet of the batch sits in exactly one buffer to write, once. */
  lemma ExactlyOnce(inp: Input, s: State, p: nat) returns (k: nat)
    requires Inv(inp, s, |inp.bufs|) && p < |inp.bufs|
    ensures LivesIn(s, p, k)
  {
    hide All, FlowHolds, Tracked, Plain, Untouched, Capacities;
    AllSingletons(0, |inp.bufs|, p);
    k := AllFound(s.parts, p);
    AllContains(s.parts, k);
    forall k' | 0 <= k' < |s.parts| && k' != k
      ensures p !in s.parts[k']
    {
      NotInBoth(s.parts, k, k', p);
    }
  }

  // ---- every frame reads back ---------------------------------------------------------

  /**
   out is packet j of a buffer that holds ps: the packet itself when it is alone, otherwise all
   that merging keeps of it, its TCP flags with it.
   */
  ghost predicate Faithful(inp: Input, ps: seq<nat>, j: nat, out: seq<byte>)
    requires j < |ps|
  {
    if |ps| == 1 then out == Pkt(inp, ps[0])
    else
      && Desc(inp, ps[j]).Some?
      && Shaped(Desc(inp, ps[j]).value) && Desc(inp, ps[j]).value.HdrLen() <= |Pkt(inp, ps[j])|
      && Restores(inp, Desc(inp, ps[j]).value, ps, out, j)
      && FlagsFollow(inp, ps, j, out)
  }

  /** A frame that reads back as the original packets ps, in order. */
  ghost predicate ReadsBack(le: bool, inp: Input, ps: seq<nat>, frame: seq<byte>) {
    && Readable(le, frame)
    && |Packets(le, frame)| == |ps|
    && forall j :: 0 <= j < |ps| ==> Faithful(inp, ps, j, Packets(le, frame)[j])
  }

  lemma AloneFollows(inp: Input, ps: seq<nat>, out: seq<byte>)
    requires |ps| == 1 && out == Pkt(inp, ps[0])
    ensures FlagsFollow(inp, ps, 0, out)
  {
  }

  lemma RestoresOwn(inp: Input, item: Item, ps: seq<nat>, j: nat, seg: seq<byte>)
    requires Members(inp, item, ps) && j < |ps| && Shaped(item) && item.HdrLen() <= |Pkt(inp, ps[j])| && Good(inp, 0)
    requires Restores(inp, item, ps, seg, j)
    ensures Desc(inp, ps[j]).Some? && Shaped(Desc(inp, ps[j]).value)
    ensures Desc(inp, ps[j]).value.HdrLen() <= |Pkt(inp, ps[j])|
    ensures Restores(inp, Desc(inp, ps[j]).value, ps, seg, j)
  {
    hide Classify, Pkt, HeadersAgree, ChecksumValid, LengthMatches, WordSum, OnesFold, BE16, BE32;
    assert Member(inp, item, ps[0], ps[j]);
    Classified(Pkt(inp, ps[j]), inp.canUdpGro, ps[j]);
  }

  lemma UdpFlags(inp: Input, item: Item, ps: seq<nat>, j: nat, out: seq<byte>)
    requires item.UdpItem? && Members(inp, item, ps) && j < |ps|
    ensures FlagsFollow(inp, ps, j, out)
  {
    hide Desc, Pkt, HeadersAgree;
    assert Member(inp, item, ps[0], ps[j]) && Member(inp, item, ps[0], ps[|ps| - 1]);
  }

  lemma MergedReadsBack(le: bool, inp: Input, item: Item, ps: seq<nat>, data: seq<byte>)
    requires Holds(inp, item, ps, data) && Good(inp, 0) && |data| <= 0xffff && Shaped(item)
    requires inp.offset + item.HdrLen() <= |data| && item.numMerged > 0
    ensures ReadsBack(le, inp, ps, Frame(AccountItem(le, data, inp.offset, item), inp.offset))
  {
    hide Pkt, Member, Restores, Merged, AllValid, Sized, Sequenced, PshOnLast, Packets, PlanRead, Trusted,
        FlagsFollow, FlagsRestored, AccountItem, Frame, Desc;
    MergedRoundTrip(le, inp, item, ps, data);
    var out := Packets(le, Frame(AccountItem(le, data, inp.offset, item), inp.offset));
    forall j | 0 <= j < |ps|
      ensures Faithful(inp, ps, j, out[j])
    {
      RestoresOwn(inp, item, ps, j, out[j]);
      if item.TcpItem? {
        MembersFlags(inp, item, ps, j, out[j]);
      } else {
        UdpFlags(inp, item, ps, j, out[j]);
      }
    }
  }

  lemma UnmergedReadsBack(le: bool, inp: Input, item: Item, p: nat, data: seq<byte>)
    requires Holds(inp, item, [p], data) && Good(inp, 0) && |data| <= 0xffff && Shaped(item)
    requires inp.offset + item.HdrLen() <= |data| && item.numMerged == 0
    ensures Frame(AccountItem(le, data, inp.offset, item), inp.offset) == Zeros(VIRTIO_NET_HDR_LEN) + Pkt(inp, p)
    ensures ReadsBack(le, inp, [p], Frame(AccountItem(le, data, inp.offset, item), inp.offset))
  {
    hide Pkt, Holds, Packets, Readable, Faithful, Frame, ClearHeader, AccountPacket;
    Unmerged(inp, item, p, data);
    ClearedFrame(data, inp.offset);
    PlainRoundTrip(le, data, inp.offset);
    FaithfulSelf(inp, p);
  }

  /** The buffer of an item still in a table reads back as the packets it holds. */
  lemma ItemReadsBack(le: bool, inp: Input, item: Item, ps: seq<nat>, data: seq<byte>)
    requires Holds(inp, item, ps, data) && Good(inp, 0) && |data| <= 0xffff && Shaped(item)
    requires inp.offset + item.HdrLen() <= |data|
    ensures ReadsBack(le, inp, ps, Frame(AccountItem(le, data, inp.offset, item), inp.offset))
  {
    hide Pkt, Member, Merged, AllValid, Sized, Sequenced, PshOnLast, ReadsBack, Frame, AccountItem;
    if item.numMerged > 0 {
      MergedReadsBack(le, inp, item, ps, data);
    } else {
      assert ps == [ps[0]];
      UnmergedReadsBack(le, inp, item, ps[0], data);
    }
  }

  lemma FaithfulSelf(inp: Input, p: nat)
    ensures Faithful(inp, [p], 0, Pkt(inp, p))
  {
  }

  lemma PlainReadsBack(le: bool, inp: Input, s: State, k: nat)
    requires Plain(inp, s, k) && Good(inp, 0)
    ensures inp.offset <= |s.bufs[k].data| && ReadsBack(le, inp, s.parts[k], Frame(s.bufs[k].data, inp.offset))
  {
    hide Packets, Readable, Faithful;
    PlainRoundTrip(le, inp.bufs[k].data, inp.offset);
    FaithfulSelf(inp, k);
  }

  /**
   The main result on a batch: whatever the packets, each buffer to write, once accounted
   for, reads back through handleVirtioRead as exactly the original packets it holds.
   */
  lemma Delivered(le: bool, inp: Input, s: State, after: seq<Buf>, k: nat)
    requires Inv(inp, s, |inp.bufs|) && AccountedBy(le, inp.offset, s.flows, s.bufs, after) && k in s.toWrite
    ensures k < |after| && inp.offset <= |after[k].data|
    ensures ReadsBack(le, inp, s.parts[k], Frame(after[k].data, inp.offset))
  {
    hide All, Holds, AccountItem, ReadsBack, Plain, Frame;
    if Tracked(s.flows, k) {
      var key :| key in s.flows && TrackedIn(s.flows[key], k);
      var j :| 0 <= j < |s.flows[key]| && s.flows[key][j].bufsIndex == k;
      var item := s.flows[key][j];
      assert FlowHolds(inp, s, |inp.bufs|, key) && ItemAt(inp, s, |inp.bufs|, key, item);
      assert ItemAccounted(le, inp.offset, item, s.bufs, after);
      ItemReadsBack(le, inp, item, s.parts[k], s.bufs[k].data);
    } else {
      PlainReadsBack(le, inp, s, k);
    }
  }

  /** The virtio header of an item's own buffer starts the frame. */
  ghost predicate HeaderWritten(le: bool, inp: Input, ps: seq<nat>, data: seq<byte>, frame: seq<byte>, item: Item) {
    Holds(inp, item, ps, data) && item.numMerged > 0 && Shaped(item) && Encode(le, HeaderOf(item)) <= frame
  }

  lemma MergedFrame(le: bool, data: seq<byte>, offset: nat, item: Item)
    requires Shaped(item) && VIRTIO_NET_HDR_LEN <= offset && offset + item.HdrLen() <= |data| && item.numMerged > 0
    ensures Encode(le, HeaderOf(item)) <= Frame(AccountItem(le, data, offset, item), offset)
  {
  }

  /** The virtio header of a written buffer: all zero over an untouched packet, or its own item's. */
  lemma WrittenHeader(le: bool, inp: Input, s: State, after: seq<Buf>, k: nat)
    requires Inv(inp, s, |inp.bufs|) && AccountedBy(le, inp.offset, s.flows, s.bufs, after) && k in s.toWrite
    ensures k < |after| && k < |s.parts| && VIRTIO_NET_HDR_LEN <= inp.offset <= |after[k].data|
    ensures var frame := Frame(after[k].data, inp.offset);
            if |s.parts[k]| == 1 then frame == Zeros(VIRTIO_NET_HDR_LEN) + Pkt(inp, s.parts[k][0])
            else exists item :: HeaderWritten(le, inp, s.parts[k], s.bufs[k].data, frame, item)
  {
    hide All, Pkt, Frame, AccountItem, Holds, ClearHeader, Untouched, Capacities;
    if Tracked(s.flows, k) {
      var key :| key in s.flows && TrackedIn(s.flows[key], k);
      var j :| 0 <= j < |s.flows[key]| && s.flows[key][j].bufsIndex == k;
      var item := s.flows[key][j];
      assert FlowHolds(inp, s, |inp.bufs|, key) && ItemAt(inp, s, |inp.bufs|, key, item);
      assert ItemAccounted(le, inp.offset, item, s.bufs, after);
      PartsCount(inp, item, s.parts[k], s.bufs[k].data);
      if item.numMerged == 0 {
        CapacityAt(inp, s, k);
        UnmergedReadsBack(le, inp, item, k, s.bufs[k].data);
      } else {
        MergedFrame(le, s.bufs[k].data, inp.offset, item);
        assert HeaderWritten(le, inp, s.parts[k], s.bufs[k].data, Frame(after[k].data, inp.offset), item);
      }
    } else {
      ClearedFrame(inp.bufs[k].data, inp.offset);
      WholeFrame(inp, k);
    }
  }

  lemma PartsCount(inp: Input, item: Item, ps: seq<nat>, data: seq<byte>)
    requires Holds(inp, item, ps, data)
    ensures |ps| == item.numMerged as int + 1
  {
  }

  lemma CapacityAt(inp: Input, s: State, k: nat)
    requires Inv(inp, s, |inp.bufs|) && k < |s.bufs|
    ensures |s.bufs[k].data| <= 0xffff
  {
  }

  lemma ClearedFrame(data: seq<byte>, offset: nat)
    requires VIRTIO_NET_HDR_LEN <= offset <= |data|
    ensures Frame(ClearHeader(data, offset), offset) == Zeros(VIRTIO_NET_HDR_LEN) + data[offset..]
  {
  }

  lemma WholeFrame(inp: Input, k: nat)
    requires k < |inp.bufs| && inp.offset <= |inp.bufs[k].data|
    ensures inp.bufs[k].data[inp.offset..] == Pkt(inp, k)
  {
  }
}
