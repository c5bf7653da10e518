/** Splitting undoes coalescing: a merged buffer reads back as the original packets. */
module RoundTrip {
  import opened Arithmetic
  import opened Bytes
  import opened ChecksumSpec
  import opened Packet
  import opened Gro
  import opened GroItem
  import opened Gso
  import opened GsoSegments
  import opened Accounting

  /**
   The fields that segment j has from the first packet merged: the IPv4 ID, counted up, or the
   IPv6 flow label, and in TCP the reserved bits, the window and the urgent pointer.
   */
  predicate Inherits(item: Item, seg: seq<byte>, first: seq<byte>, j: nat)
    requires Shaped(item)
  {
    var h := item.iphLen as nat;
    && item.HdrLen() <= |seg| && item.HdrLen() <= |first|
    && (if item.key.isV6 then seg[1] == first[1] && seg[2] == first[2] && seg[3] == first[3]
        else BE16(seg, 4) == U16(BE16(first, 4) + j))
    && (item.TcpItem? ==>
          && seg[h + 12] == first[h + 12]
          && forall k :: h + 14 <= k < h + 20 && k != h + 16 && k != h + 17 ==> seg[k] == first[k])
  }

  /** Checksums whose zero is stored as 0, as the code does, and not as 0xffff. */
  predicate ZeroAsZero(item: Item, seg: seq<byte>)
    requires Shaped(item) && item.HdrLen() <= |seg|
  {
    && BE16(seg, item.iphLen as nat + item.CsumOffset()) != 0xffff
    && (!item.key.isV6 ==> BE16(seg, 10) != 0xffff)
  }

  /**
   seg, read back as packet j of the merged packets ps, carries what original packet ps[j] did:
   the same length and payload, the same header bytes wherever coalescing keeps them
   (addresses, ports, TTL, acknowledgement, options), the same TCP sequence number, valid
   lengths and checksums, and for the rest what the first packet had.
   */
  ghost predicate Restores(inp: Input, item: Item, ps: seq<nat>, seg: seq<byte>, j: nat)
    requires j < |ps| && Shaped(item) && item.HdrLen() <= |Pkt(inp, ps[j])|
  {
    var orig, h, v6 := Pkt(inp, ps[j]), item.iphLen as nat, item.key.isV6;
    && |seg| == |orig|
    && Inherits(item, seg, Pkt(inp, ps[0]), j)
    && ZeroAsZero(item, seg)
    && seg[item.HdrLen()..] == orig[item.HdrLen()..]
    && HeadersAgree(item.TcpItem?, v6, item.HdrLen(), seg, orig)
    && (if item.TcpItem? then BE32(seg, h + 4) == BE32(orig, h + 4) else BE16(seg, h + 4) == |seg| - h)
    && LengthMatches(seg, v6)
    && (!v6 ==> OnesFold(WordSum(seg[..h])) == 0xffff)
    && ChecksumValid(seg, h, item.Proto(), v6)
  }

  // ---- payload pieces -----------------------------------------------------------------

  predicate HasAt(all: seq<byte>, from: nat, piece: seq<byte>) {
    from + |piece| <= |all| && all[from..from + |piece|] == piece
  }

  function StreamOffset(j: nat, g: nat): nat { j * g }

  function Payload(inp: Input, item: Item, p: nat): seq<byte> {
    if item.HdrLen() <= |Pkt(inp, p)| then Pkt(inp, p)[item.HdrLen()..] else []
  }

  /** Segment j of the joined payloads is the payload of packet j. */
  lemma {:induction false} PieceOf(inp: Input, item: Item, ps: seq<nat>, j: nat)
    requires ps != [] && Sized(inp, item, ps) && j < |ps|
    ensures HasAt(Joined(inp, item.HdrLen(), ps), StreamOffset(j, item.gsoSize), Payload(inp, item, ps[j]))
    ensures j == |ps| - 1 ==>
        StreamOffset(j, item.gsoSize) + |Payload(inp, item, ps[j])| == |Joined(inp, item.HdrLen(), ps)|
  {
    hide Pkt, StreamOffset, HasAt;
    var first, rest := Payload(inp, item, ps[0]), Joined(inp, item.HdrLen(), ps[1..]);
    assert Joined(inp, item.HdrLen(), ps) == first + rest;
    if j > 0 {
      assert |first| == item.gsoSize;
      PieceOf(inp, item, ps[1..], j - 1);
      StreamStep(j, item.gsoSize);
      Later(first, rest, StreamOffset(j - 1, item.gsoSize), Payload(inp, item, ps[j]));
    } else {
      StreamStep(0, item.gsoSize);
      AtStart(first, rest);
      if |ps| == 1 {
        assert rest == [];
      }
    }
  }

  lemma StreamStep(j: nat, g: nat)
    ensures StreamOffset(0, g) == 0
    ensures j > 0 ==> StreamOffset(j, g) == g + StreamOffset(j - 1, g)
  {
  }

  lemma Later(first: seq<byte>, rest: seq<byte>, from: nat, piece: seq<byte>)
    requires HasAt(rest, from, piece)
    ensures HasAt(first + rest, |first| + from, piece)
  {
  }

  lemma AtStart(first: seq<byte>, rest: seq<byte>)
    ensures HasAt(first + rest, 0, first)
  {
  }

  // ---- reading a merged frame ---------------------------------------------------------

  /** The header nibbles that reading relies on survive merging and accounting. */
  lemma MergedShape(inp: Input, item: Item, ps: seq<nat>, data: seq<byte>)
    requires Holds(inp, item, ps, data) && Good(inp, 0) && |data| <= 0xffff
    ensures var pkt := data[inp.offset..];
            && item.HdrLen() < |pkt| == |data| - inp.offset
            && pkt[0] / 0x10 == (if item.key.isV6 then 6 else 4)
            && (item.TcpItem? ==> pkt[item.iphLen + 12] / 0x10 * 4 == item.tcphLen
                                  && pkt[item.iphLen + 13] == if PshShown(item, ps) then FLAG_ACK + FLAG_PSH
                                       else FLAG_ACK)
  {
    hide Desc, Pkt, Good, Holds, Joined, PshShown, HeadersAgree;
    HoldsParts(inp, item, ps, data);
    MergedPacket(inp, item, ps, data);
    JoinedNotEmpty(inp, item, ps);
    FirstShape(inp, item, ps);
  }

  lemma FirstShape(inp: Input, item: Item, ps: seq<nat>)
    requires Members(inp, item, ps) && Good(inp, 0)
    ensures var first := Pkt(inp, ps[0]);
            && Shaped(item) && item.HdrLen() <= |first|
            && first[0] / 0x10 == (if item.key.isV6 then 6 else 4)
            && (item.TcpItem? ==> first[item.iphLen + 12] / 0x10 * 4 == item.tcphLen)
  {
    hide Classify, HeadersAgree, LengthMatches, NewTcpFlowKey, NewUdpFlowKey, Pkt;
    assert Member(inp, item, ps[0], ps[0]);
    Classified(Pkt(inp, ps[0]), inp.canUdpGro, ps[0]);
    ClassifiedHeaders(Pkt(inp, ps[0]), inp.canUdpGro, ps[0]);
  }

  lemma JoinedNotEmpty(inp: Input, item: Item, ps: seq<nat>)
    requires ps != [] && Sized(inp, item, ps)
    ensures |Joined(inp, item.HdrLen(), ps)| >= 1
  {
  }

  /** The virtio header that accounting wrote is the one the read acts on. */
  lemma FramePlan(le: bool, data: seq<byte>, offset: nat, item: Item)
    requires Shaped(item) && VIRTIO_NET_HDR_LEN <= offset && offset + item.HdrLen() < |data| <= 0xffff
        && item.numMerged > 0
    requires data[offset..][0] / 0x10 == if item.key.isV6 then 6 else 4
    requires item.TcpItem? ==> data[offset..][item.iphLen + 12] / 0x10 * 4 == item.tcphLen
    ensures var frame, pkt := Frame(AccountItem(le, data, offset, item), offset), AccountPacket(data[offset..], item);
            && |frame| >= VIRTIO_NET_HDR_LEN && frame[VIRTIO_NET_HDR_LEN..] == pkt
            && Trusted(le, frame)
            && PlanRead(le, frame) == Split(pkt, HeaderOf(item), item.key.isV6)
  {
    hide *;
    FrameOfMerged(le, data, offset, item);
    var pkt, h := AccountPacket(data[offset..], item), HeaderOf(item);
    AccountedHead(data[offset..], item);
    PlanOf(h, pkt, item);
    PlanOfFrame(le, Frame(AccountItem(le, data, offset, item), offset), h, pkt, item);
  }

  lemma FrameOfMerged(le: bool, data: seq<byte>, offset: nat, item: Item)
    requires Shaped(item) && VIRTIO_NET_HDR_LEN <= offset && offset + item.HdrLen() < |data| && item.numMerged > 0
    ensures offset <= |data| && item.HdrLen() < |data[offset..]| == |AccountPacket(data[offset..], item)|
        == |data| - offset
    ensures Frame(AccountItem(le, data, offset, item), offset)
        == Encode(le, HeaderOf(item)) + AccountPacket(data[offset..], item)
  {
    hide AccountPacket, Encode, HeaderOf;
  }

  /** Accounting keeps the version and the TCP header length. */
  lemma AccountedHead(pkt: seq<byte>, item: Item)
    requires Shaped(item) && item.HdrLen() <= |pkt| <= 0xffff
    ensures |pkt| > item.iphLen as nat + 5 && (item.TcpItem? ==> |pkt| > item.iphLen as nat + 12)
    ensures AccountPacket(pkt, item)[0] == pkt[0]
    ensures item.TcpItem? ==> AccountPacket(pkt, item)[item.iphLen + 12] == pkt[item.iphLen + 12]
  {
  }

  lemma PlanOfFrame(le: bool, frame: seq<byte>, h: VirtioNetHdr, pkt: seq<byte>, item: Item)
    requires frame == Encode(le, h) + pkt && Shaped(item) && h == HeaderOf(item) && |pkt| <= 0xffff && |pkt| > 0
    requires pkt[0] / 0x10 == if item.key.isV6 then 6 else 4
    requires PlanSplit(h, pkt) == Split(pkt, h, item.key.isV6) && IsTcp(h) == item.TcpItem?
    ensures |frame| >= VIRTIO_NET_HDR_LEN && frame[VIRTIO_NET_HDR_LEN..] == pkt
    ensures Trusted(le, frame) && PlanRead(le, frame) == Split(pkt, h, item.key.isV6)
  {
    hide Encode, Decode, PlanSplit;
    EncodeDecode(le, h, pkt);
    assert frame[VIRTIO_NET_HDR_LEN..] == pkt;
  }

  lemma PlanOf(h: VirtioNetHdr, pkt: seq<byte>, item: Item)
    requires Shaped(item) && h == HeaderOf(item) && item.HdrLen() < |pkt| <= 0xffff
    requires pkt[0] / 0x10 == if item.key.isV6 then 6 else 4
    requires item.TcpItem? ==> pkt[item.iphLen + 12] / 0x10 * 4 == item.tcphLen
    ensures PlanSplit(h, pkt) == Split(pkt, h, item.key.isV6)
    ensures Splittable(pkt, h, item.key.isV6) && IsTcp(h) == item.TcpItem?
  {
  }

  /** The packet gsoSplit works on when a merged buffer is read back. */
  function ReadBack(data: seq<byte>, offset: nat, item: Item): (r: seq<byte>)
    requires Shaped(item) && offset + item.HdrLen() < |data|
    ensures |r| == |data| - offset
  {
    Cleared(AccountPacket(data[offset..], item), item.iphLen as nat + item.CsumOffset(), item.key.isV6)
  }

  lemma ReadBackHeader(data: seq<byte>, offset: nat, item: Item)
    requires Shaped(item) && offset + item.HdrLen() < |data| <= 0xffff
    ensures var input, pkt, h := ReadBack(data, offset, item), data[offset..], HeaderOf(item);
            && Ready(input, h, item.key.isV6) && IsTcp(h) == item.TcpItem?
            && (forall k :: 0 <= k < |pkt| && !Rewritten(item.TcpItem?, item.key.isV6, item.iphLen, k) ==>
                 input[k] == pkt[k])
            && (item.TcpItem? ==> forall k: nat :: item.iphLen <= k < item.iphLen + 16 ==> input[k] == pkt[k])
            && (!item.key.isV6 ==> input[4] == pkt[4] && input[5] == pkt[5])
            && input[item.HdrLen()..] == pkt[item.HdrLen()..]
  {
    hide AccountPacket, Cleared, BE16, WordSum, OnesFold, U16;
    var pkt := data[offset..];
    AccountedPacket(pkt, item);
    var acc := AccountPacket(pkt, item);
    ClearedReady(acc, HeaderOf(item), item.key.isV6);
    ClearedKeepsStream(acc, item.iphLen as nat + item.CsumOffset(), item.key.isV6, item.iphLen);
    if !item.key.isV6 {
      SameId(acc, pkt);
    }
    KeepsTail(ReadBack(data, offset, item), pkt, item.TcpItem?, item.key.isV6, item.iphLen, item.HdrLen());
  }

  lemma ClearedKeepsStream(acc: seq<byte>, csumAt: nat, isV6: bool, iphLen: nat)
    requires csumAt + 2 <= |acc| && 20 <= iphLen && iphLen + 6 <= csumAt
    ensures var r := Cleared(acc, csumAt, isV6);
            && r[4] == acc[4] && r[5] == acc[5]
            && forall k: nat :: iphLen <= k < csumAt ==> r[k] == acc[k]
  {
  }

  /** What is read back, in terms of the first original packet and the joined payloads. */
  lemma ReadBackIs(inp: Input, item: Item, ps: seq<nat>, data: seq<byte>)
    requires Holds(inp, item, ps, data) && Good(inp, 0) && |data| <= 0xffff
    requires inp.offset + item.HdrLen() < |data| && Shaped(item) && item.HdrLen() <= |Pkt(inp, ps[0])|
    ensures var input, first := ReadBack(data, inp.offset, item), Pkt(inp, ps[0]);
            && Ready(input, HeaderOf(item), item.key.isV6)
            && input[item.HdrLen()..] == Joined(inp, item.HdrLen(), ps)
            && (forall k :: 0 <= k < item.HdrLen() && Stable(item.TcpItem?, item.key.isV6, k) ==> input[k] == first[k])
            && input[0] > 0 && Inherits(item, input, first, 0)
            && (item.TcpItem? ==>
                  && BE32(input, item.iphLen as nat + 4) == item.sentSeq
                  && input[item.iphLen + 13] == if PshShown(item, ps) then FLAG_ACK + FLAG_PSH else FLAG_ACK)
  {
    hide *;
    MergedPacket(inp, item, ps, data);
    MergedShape(inp, item, ps, data);
    PayloadsOf(inp, item, ps, data);
    ReadBackHeader(data, inp.offset, item);
    HoldsParts(inp, item, ps, data);
    HeadersReadBack(ReadBack(data, inp.offset, item), data[inp.offset..], Pkt(inp, ps[0]), item);
    if item.TcpItem? {
      FirstSeq(inp, item, ps);
    }
  }

  /** A header that differs only where it may be rewritten, and in the flags. */
  lemma HeadersReadBack(input: seq<byte>, pkt: seq<byte>, first: seq<byte>, item: Item)
    requires Shaped(item) && item.HdrLen() <= |input| == |pkt| && item.HdrLen() <= |first|
    requires forall k :: 0 <= k < |pkt| && !Rewritten(item.TcpItem?, item.key.isV6, item.iphLen, k) ==>
        input[k] == pkt[k]
    requires item.TcpItem? ==> forall k: nat :: item.iphLen <= k < item.iphLen + 16 ==> input[k] == pkt[k]
    requires !item.key.isV6 ==> input[4] == pkt[4] && input[5] == pkt[5]
    requires forall k :: 0 <= k < item.HdrLen() && (item.TcpItem? ==> k != item.iphLen + TCP_FLAGS_OFFSET) ==>
        pkt[k] == first[k]
    ensures forall k :: 0 <= k < item.HdrLen() && Stable(item.TcpItem?, item.key.isV6, k) ==> input[k] == first[k]
    ensures Inherits(item, input, first, 0) && input[0] == pkt[0]
    ensures item.TcpItem? ==>
              && |input| >= item.iphLen as nat + 20 && |first| >= item.iphLen as nat + 20
              && input[item.iphLen + 13] == pkt[item.iphLen + 13]
              && BE32(input, item.iphLen as nat + 4) == BE32(first, item.iphLen as nat + 4)
  {
  }

  lemma FirstSeq(inp: Input, item: Item, ps: seq<nat>)
    requires item.TcpItem? && Members(inp, item, ps) && Sequenced(inp, item, ps) && Good(inp, 0)
    ensures item.iphLen as nat + 20 <= |Pkt(inp, ps[0])|
        && BE32(Pkt(inp, ps[0]), item.iphLen as nat + 4) == item.sentSeq
  {
    hide Classify, HeadersAgree, BE32, LengthMatches, NewTcpFlowKey, NewUdpFlowKey, SeqAt;
    assert Member(inp, item, ps[0], ps[0]);
    ClassifiedHeaders(Pkt(inp, ps[0]), inp.canUdpGro, ps[0]);
    SeqStart(item.sentSeq, item.gsoSize);
  }

  /** Segment boundaries fall where the original payloads met. */
  lemma Boundaries(inp: Input, item: Item, ps: seq<nat>, input: seq<byte>, j: nat)
    requires ps != [] && Sized(inp, item, ps) && j < |ps| && Shaped(item)
    requires item.HdrLen() <= |input| && input[item.HdrLen()..] == Joined(inp, item.HdrLen(), ps)
    ensures var h := HeaderOf(item);
            && From(h, j) <= |input|
            && To(input, h, j) - From(h, j) == PayloadLen(inp, item, ps[j])
            && (To(input, h, j) == |input| <==> j == |ps| - 1)
            && input[From(h, j)..To(input, h, j)] == Payload(inp, item, ps[j])
  {
    hide Pkt, Joined, HasAt;
    PieceOf(inp, item, ps, j);
    var all, from, piece := Joined(inp, item.HdrLen(), ps), StreamOffset(j, item.gsoSize), Payload(inp, item, ps[j]);
    WholePiece(input, item.HdrLen(), all, from, piece);
    if j < |ps| - 1 {
      PieceOf(inp, item, ps, j + 1);
      StreamStep(j + 1, item.gsoSize);
      WholePiece(input, item.HdrLen(), all, StreamOffset(j + 1, item.gsoSize), Payload(inp, item, ps[j + 1]));
    }
    assert From(HeaderOf(item), j) == item.HdrLen() + from;
  }

  lemma WholePiece(input: seq<byte>, hl: nat, all: seq<byte>, from: nat, piece: seq<byte>)
    requires hl <= |input| && input[hl..] == all && HasAt(all, from, piece)
    ensures hl + from + |piece| <= |input| == hl + |all| && input[hl + from..hl + from + |piece|] == piece
  {
  }

  /** The flags segment j comes out with: PSH only on the last one, and only if the merged header shows it. */
  predicate FlagsRestored(item: Item, ps: seq<nat>, seg: seq<byte>, j: nat)
    requires item.TcpItem? && j < |ps|
  {
    && item.iphLen + 13 < |seg|
    && seg[item.iphLen + 13] == if j == |ps| - 1 && PshShown(item, ps) then FLAG_ACK + FLAG_PSH else FLAG_ACK
  }

  /** Segment j of a merged buffer restores packet j. */
  lemma SegmentRestores(inp: Input, item: Item, ps: seq<nat>, data: seq<byte>, j: nat)
    requires Holds(inp, item, ps, data) && Good(inp, 0) && |data| <= 0xffff && j < |ps|
    ensures inp.offset + item.HdrLen() < |data| && Shaped(item) && item.HdrLen() <= |Pkt(inp, ps[j])|
    ensures var input, h := ReadBack(data, inp.offset, item), HeaderOf(item);
            && Splittable(input, h, item.key.isV6) && From(h, j) <= |input|
            && var seg := Segment(input, h, item.key.isV6, j);
               && Restores(inp, item, ps, seg, j)
               && (item.TcpItem? ==> FlagsRestored(item, ps, seg, j))
  {
    hide Classify, Joined, ChecksumValid, ReadBack, HeadersAgree, AllValid, IpFields, Segment, TransportFields, From,
        To, LengthMatches, Merged, PshShown, Pkt;
    FirstPacket(inp, item, ps);
    MergedShape(inp, item, ps, data);
    ReadBackIs(inp, item, ps, data);
    var input, h := ReadBack(data, inp.offset, item), HeaderOf(item);
    Boundaries(inp, item, ps, input, j);
    SegmentIs(input, h, item.key.isV6, j);
    var seg := Segment(input, h, item.key.isV6, j);
    assert Member(inp, item, ps[0], ps[j]);
    SegmentHeader(inp, item, ps, input, seg, j);
    SegmentStream(inp, item, ps, input, seg, j);
    SegmentLength(seg, input, item, j);
    SegmentInherits(item, seg, input, Pkt(inp, ps[0]), j);
    SegmentComplements(input, h, item.key.isV6, j);
  }

  lemma SegmentInherits(item: Item, seg: seq<byte>, input: seq<byte>, first: seq<byte>, j: nat)
    requires Shaped(item) && item.HdrLen() <= |seg| && Inherits(item, input, first, 0)
    requires IpFields(seg, input, item.iphLen, item.key.isV6, j)
    requires forall k :: 0 <= k < item.HdrLen() && !Rewritten(item.TcpItem?, item.key.isV6, item.iphLen, k) ==>
        seg[k] == input[k]
    ensures Inherits(item, seg, first, j)
  {
    hide WordSum, OnesFold, BE16;
    CountsUp(if item.key.isV6 then 0 else BE16(first, 4), j);
  }

  lemma CountsUp(id: u16, j: nat)
    ensures U16(U16(id + 0) + j) == U16(id + j)
  {
  }

  lemma SegmentLength(seg: seq<byte>, input: seq<byte>, item: Item, j: nat)
    requires Shaped(item) && item.HdrLen() <= |seg| && 20 <= |input|
        && IpFields(seg, input, item.iphLen, item.key.isV6, j)
    ensures LengthMatches(seg, item.key.isV6)
    ensures !item.key.isV6 ==> OnesFold(WordSum(seg[..item.iphLen])) == 0xffff
  {
    hide WordSum, OnesFold;
  }

  lemma SegmentHeader(inp: Input, item: Item, ps: seq<nat>, input: seq<byte>, seg: seq<byte>, j: nat)
    requires Members(inp, item, ps) && j < |ps| && Shaped(item)
    requires item.HdrLen() <= |seg| && item.HdrLen() <= |input| && item.HdrLen() <= |Pkt(inp, ps[0])|
    requires forall k :: 0 <= k < item.HdrLen() && !Rewritten(item.TcpItem?, item.key.isV6, item.iphLen, k) ==>
        seg[k] == input[k]
    requires forall k :: 0 <= k < item.HdrLen() && Stable(item.TcpItem?, item.key.isV6, k) ==>
        input[k] == Pkt(inp, ps[0])[k]
    requires Inherits(item, input, Pkt(inp, ps[0]), 0)
    ensures HeadersAgree(item.TcpItem?, item.key.isV6, item.HdrLen(), seg, Pkt(inp, ps[j]))
  {
    hide Desc, Pkt, BE16;
    assert Member(inp, item, ps[0], ps[j]);
  }

  lemma SegmentStream(inp: Input, item: Item, ps: seq<nat>, input: seq<byte>, seg: seq<byte>, j: nat)
    requires Members(inp, item, ps) && j < |ps| && Shaped(item) && Good(inp, 0)
    requires item.HdrLen() <= |seg| <= |input| && TransportFields(seg, input, HeaderOf(item), j)
    requires To(input, HeaderOf(item), j) == |input| <==> j == |ps| - 1
    requires item.TcpItem? ==>
               && Sequenced(inp, item, ps)
               && BE32(input, item.iphLen as nat + 4) == item.sentSeq
               && input[item.iphLen + 13] == if PshShown(item, ps) then FLAG_ACK + FLAG_PSH else FLAG_ACK
    ensures item.HdrLen() <= |Pkt(inp, ps[j])|
    ensures item.TcpItem? ==> BE32(seg, item.iphLen as nat + 4) == BE32(Pkt(inp, ps[j]), item.iphLen as nat + 4)
    ensures item.TcpItem? ==> FlagsRestored(item, ps, seg, j)
    ensures item.UdpItem? ==> BE16(seg, item.iphLen as nat + 4) == |seg| - item.iphLen
  {
    hide Classify, HeadersAgree, LengthMatches, NewTcpFlowKey, NewUdpFlowKey, To, BE32, WithoutFinPsh, PshShown;
    assert Member(inp, item, ps[0], ps[j]);
    if item.TcpItem? {
      ClassifiedHeaders(Pkt(inp, ps[j]), inp.canUdpGro, ps[j]);
      WithoutFinPshIs(input[item.iphLen + 13]);
    }
  }

  // ---- the round trip -----------------------------------------------------------------

  /** The packets a frame delivers are defined, given output buffers enough. */
  predicate Readable(le: bool, frame: seq<byte>) {
    && Trusted(le, frame)
    && !PlanRead(le, frame).Fail?
    && (PlanRead(le, frame).Split? ==> PlanRead(le, frame).hdr.gsoSize > 0)
  }

  lemma CountIs(inp: Input, item: Item, ps: seq<nat>, input: seq<byte>)
    requires ps != [] && Sized(inp, item, ps) && Shaped(item)
    requires item.HdrLen() <= |input| && input[item.HdrLen()..] == Joined(inp, item.HdrLen(), ps)
    ensures Count(input, HeaderOf(item)) == |ps|
  {
    hide Pkt, Joined;
    JoinedLength(inp, item, ps);
    Ceiling(|ps| - 1, item.gsoSize, PayloadLen(inp, item, ps[|ps| - 1]));
  }

  /**
   GRO then GSO is the identity on content: reading back the accounted buffer of a merged
   item yields exactly its original packets, in stream order, with their boundaries.
   */
  lemma MergedRoundTrip(le: bool, inp: Input, item: Item, ps: seq<nat>, data: seq<byte>)
    requires Holds(inp, item, ps, data) && Good(inp, 0) && |data| <= 0xffff && item.numMerged > 0
    ensures Shaped(item) && inp.offset + item.HdrLen() < |data|
    ensures var frame := Frame(AccountItem(le, data, inp.offset, item), inp.offset);
            && Readable(le, frame)
            && var out := Packets(le, frame);
               && |out| == |ps|
               && forall j :: 0 <= j < |ps| ==>
                    && item.HdrLen() <= |Pkt(inp, ps[j])|
                    && Restores(inp, item, ps, out[j], j)
                    && (item.TcpItem? ==> FlagsRestored(item, ps, out[j], j))
  {
    hide Classify, Joined, ChecksumValid, ReadBack, HeadersAgree, AllValid, Segment, LengthMatches, Merged, PshShown,
        Pkt,
      AccountPacket, Restores, Members, Count, From, PlanRead, AccountItem;
    FirstPacket(inp, item, ps);
    MergedShape(inp, item, ps, data);
    FramePlan(le, data, inp.offset, item);
    ReadBackIs(inp, item, ps, data);
    var input := ReadBack(data, inp.offset, item);
    CountIs(inp, item, ps, input);
    PacketsAre(le, data, inp.offset, item, |ps|);
    forall j | 0 <= j < |ps|
      ensures item.HdrLen() <= |Pkt(inp, ps[j])|
      ensures Splittable(input, HeaderOf(item), item.key.isV6) && From(HeaderOf(item), j) <= |input|
      ensures Restores(inp, item, ps, Segment(input, HeaderOf(item), item.key.isV6, j), j)
      ensures item.TcpItem? ==> FlagsRestored(item, ps, Segment(input, HeaderOf(item), item.key.isV6, j), j)
    {
      SegmentRestores(inp, item, ps, data, j);
    }
  }

  lemma PacketsAre(le: bool, data: seq<byte>, offset: nat, item: Item, n: nat)
    requires Shaped(item) && VIRTIO_NET_HDR_LEN <= offset && offset + item.HdrLen() < |data| <= 0xffff
        && item.numMerged > 0
    requires var frame := Frame(AccountItem(le, data, offset, item), offset);
             Trusted(le, frame) && PlanRead(le, frame)
                 == Split(AccountPacket(data[offset..], item), HeaderOf(item), item.key.isV6)
    requires Count(ReadBack(data, offset, item), HeaderOf(item)) == n
    requires Splittable(ReadBack(data, offset, item), HeaderOf(item), item.key.isV6)
    ensures var out, input := Packets(le, Frame(AccountItem(le, data, offset, item), offset)),
        ReadBack(data, offset, item);
            && |out| == n
            && forall j :: 0 <= j < n ==>
                 From(HeaderOf(item), j) <= |input| && out[j] == Segment(input, HeaderOf(item), item.key.isV6, j)
  {
    hide AccountItem, Trusted, Segment, From, Cleared, AccountPacket, PlanRead;
    var frame := Frame(AccountItem(le, data, offset, item), offset);
    var p := PlanRead(le, frame);
    PlannedSplit(le, frame);
    CountBounds(p.input, p.hdr);
    assert SplitInput(p) == ReadBack(data, offset, item);
  }

  /** The flags of a TCP header: its byte 13. */
  function TcpFlags(pkt: seq<byte>, item: Item): byte {
    if item.iphLen + 13 < |pkt| then pkt[item.iphLen + 13] else 0
  }

  /** PSH was on the last packet of ps, which arrived before the first one: the prepend has dropped it. */
  predicate PshLost(inp: Input, ps: seq<nat>) {
    && ps != [] && ps[|ps| - 1] < ps[0]
    && Desc(inp, ps[|ps| - 1]).Some? && Psh(Desc(inp, ps[|ps| - 1]).value)
  }

  /** out has the TCP flags that original packet p had, if that was a TCP candidate. */
  predicate SameFlags(inp: Input, p: nat, out: seq<byte>) {
    Desc(inp, p).Some? && Desc(inp, p).value.TcpItem? ==>
      TcpFlags(out, Desc(inp, p).value) == TcpFlags(Pkt(inp, p), Desc(inp, p).value)
  }

  /** The flags that packet ps[j] comes back with: its own, but for a PSH that a prepend has dropped. */
  predicate FlagsFollow(inp: Input, ps: seq<nat>, j: nat, out: seq<byte>)
    requires j < |ps|
  {
    if j == |ps| - 1 && PshLost(inp, ps) then TcpFlags(out, Desc(inp, ps[j]).value) == FLAG_ACK
    else SameFlags(inp, ps[j], out)
  }

  /** A classified TCP packet whose flags were ACK and PSH does not have them back as ACK alone. */
  lemma LostFlags(inp: Input, ps: seq<nat>, out: seq<byte>)
    requires PshLost(inp, ps) && ps[|ps| - 1] < TWO16
    requires FlagsFollow(inp, ps, |ps| - 1, out)
    ensures !SameFlags(inp, ps[|ps| - 1], out)
  {
    hide Desc, Pkt;
    FlagsOfClassified(inp, ps[|ps| - 1]);
  }

  /** In terms of the item: its packets' flags follow, and PSH is lost when the item has it and began after its end. */
  lemma MembersFlags(inp: Input, item: Item, ps: seq<nat>, j: nat, out: seq<byte>)
    requires item.TcpItem? && Members(inp, item, ps) && PshOnLast(inp, item, ps) && Good(inp, 0) && j < |ps|
    requires FlagsRestored(item, ps, out, j)
    ensures FlagsFollow(inp, ps, j, out)
    ensures PshLost(inp, ps) <==> item.pshSet && ps[|ps| - 1] < ps[0]
  {
    hide Classify, HeadersAgree, Pkt;
    assert Member(inp, item, ps[0], ps[j]) && Member(inp, item, ps[0], ps[|ps| - 1]);
    FlagsOfClassified(inp, ps[j]);
  }

  /**
   The TCP flags of a merged buffer's packets come back as they were exactly when no packet was
   prepended to one with PSH: otherwise the last segment loses its PSH.
   */
  lemma FlagsRoundTrip(le: bool, inp: Input, item: Item, ps: seq<nat>, data: seq<byte>)
    requires Holds(inp, item, ps, data) && Good(inp, 0) && |data| <= 0xffff && item.numMerged > 0 && item.TcpItem?
    ensures Shaped(item) && inp.offset + item.HdrLen() < |data|
    ensures var frame := Frame(AccountItem(le, data, inp.offset, item), inp.offset);
            && Readable(le, frame)
            && var out := Packets(le, frame);
               && |out| == |ps|
               && ((forall j :: 0 <= j < |ps| ==> SameFlags(inp, ps[j], out[j]))
                   <==> !item.pshSet || ps[0] <= ps[|ps| - 1])
  {
    hide Pkt, Member, Restores, Merged, AllValid, Sized, Sequenced, PshOnLast, Packets, PlanRead, Trusted, SameFlags,
        PshLost, FlagsFollow, FlagsRestored, AccountItem, Frame, Desc;
    MergedRoundTrip(le, inp, item, ps, data);
    var out := Packets(le, Frame(AccountItem(le, data, inp.offset, item), inp.offset));
    forall j | 0 <= j < |ps|
      ensures FlagsFollow(inp, ps, j, out[j])
      ensures PshLost(inp, ps) <==> item.pshSet && ps[|ps| - 1] < ps[0]
    {
      MembersFlags(inp, item, ps, j, out[j]);
    }
    FlagsFollowMeans(inp, ps, out);
  }

  /** Flags that follow are the original ones exactly when no PSH is lost. */
  lemma FlagsFollowMeans(inp: Input, ps: seq<nat>, out: seq<seq<byte>>)
    requires ps != [] && |out| == |ps| && |inp.bufs| <= TWO16
    requires forall j :: 0 <= j < |ps| ==> FlagsFollow(inp, ps, j, out[j])
    ensures (forall j :: 0 <= j < |ps| ==> SameFlags(inp, ps[j], out[j])) <==> !PshLost(inp, ps)
  {
    hide Desc, SameFlags, TcpFlags;
    if PshLost(inp, ps) {
      Described(inp, ps[|ps| - 1]);
      LostFlags(inp, ps, out[|ps| - 1]);
    }
  }

  /** A buffer with a cleared virtio header reads back as its one packet, unchanged. */
  lemma PlainRoundTrip(le: bool, data: seq<byte>, offset: nat)
    requires VIRTIO_NET_HDR_LEN <= offset <= |data| <= 0xffff
    ensures var frame := Frame(ClearHeader(data, offset), offset);
            Readable(le, frame) && Packets(le, frame) == [data[offset..]]
  {
    var frame := Frame(ClearHeader(data, offset), offset);
    assert frame == Zeros(VIRTIO_NET_HDR_LEN) + data[offset..];
    ZerosDecode(le, data[offset..]);
    assert frame[VIRTIO_NET_HDR_LEN..] == data[offset..];
  }
}
