/**
 Coalescing undoes splitting: the segments of one large packet, handed to GRO in order, end up
 in one buffer that holds the large packet again.
 */
module Rejoin {
  import opened Arithmetic
  import opened Bytes
  import opened ChecksumSpec
  import opened FastChecksum
  import opened Options
  import opened Packet
  import opened Gro
  import opened GroItem
  import opened GroInvariant
  import opened UdpOrder
  import opened InOrder
  import opened Gso
  import opened GsoSegments
  import opened Accounting
  import opened RoundTrip
  import opened Delivery
  import opened Batches

  function ProtoOf(hdr: VirtioNetHdr): byte {
    if IsTcp(hdr) then PROTO_TCP else PROTO_UDP
  }

  /** What handleVirtioRead has established of a packet it splits. */
  predicate Sound(input: seq<byte>, hdr: VirtioNetHdr, isV6: bool) {
    && Splittable(input, hdr, isV6) && hdr.gsoSize > 0
    && input[0] / 0x10 == (if isV6 then 6 else 4)
    && (hdr.gsoType == GSO_UDP_L4 || hdr.gsoType == if isV6 then GSO_TCPV6 else GSO_TCPV4)
    && hdr.hdrLen == hdr.csumStart as nat + if IsTcp(hdr) then input[hdr.csumStart + 12] / 0x10 * 4 else UDPH_LEN
  }

  /** What GRO asks of its segments: no IP options or fragments, a payload, and in TCP no flags but ACK and PSH. */
  predicate GroTakes(input: seq<byte>, hdr: VirtioNetHdr, isV6: bool, canUdpGro: bool) {
    var h := if isV6 then 40 else 20;
    && hdr.csumStart == h && h + (if IsTcp(hdr) then 20 else 8) <= hdr.hdrLen < |input|
    && (if isV6 then input[6] == ProtoOf(hdr)
        else input[0] % 0x10 == 5 && input[9] == ProtoOf(hdr) && !Fragmented(input))
    && if IsTcp(hdr) then input[h + 13] == FLAG_ACK || input[h + 13] == FLAG_ACK + FLAG_PSH else canUdpGro
  }

  predicate Rejoinable(input: seq<byte>, hdr: VirtioNetHdr, isV6: bool, canUdpGro: bool) {
    Sound(input, hdr, isV6) && GroTakes(input, hdr, isV6, canUdpGro)
  }

  /** A true IP length and, in IPv4, a valid header checksum. */
  predicate IpValid(pkt: seq<byte>, isV6: bool)
    requires |pkt| >= 20
  {
    LengthMatches(pkt, isV6) && (!isV6 ==> OnesFold(WordSum(pkt[..20])) == 0xffff)
  }

  // ---- what GRO makes of a segment ----------------------------------------------------

  /** The item that segment p, packet at of a batch, is stored as when it is the first of its flow. */
  function SegmentItem(input: seq<byte>, hdr: VirtioNetHdr, isV6: bool, p: nat, at: nat): Item
    requires Splittable(input, hdr, isV6) && From(hdr, p) <= |input|
    requires hdr.hdrLen - hdr.csumStart < 0x100 && hdr.csumStart < 0x100
  {
    var h := hdr.csumStart as nat;
    if IsTcp(hdr) then
      TcpItem(NewTcpFlowKey(input, isV6, h), U32(BE32(input, h + 4) + p * hdr.gsoSize), U16(at), 0,
              To(input, hdr, p) - From(hdr, p), h, hdr.hdrLen - h,
              To(input, hdr, p) == |input| && input[h + 13] == FLAG_ACK + FLAG_PSH)
    else
      UdpItem(NewUdpFlowKey(input, isV6, h), U16(at), 0, To(input, hdr, p) - From(hdr, p), h, false)
  }

  /** Headers that differ only where segments' do have the same flow key. */
  lemma SameKey(seg: seq<byte>, input: seq<byte>, tcp: bool, isV6: bool, h: nat, hl: nat)
    requires h == (if isV6 then 40 else 20) && h + (if tcp then 20 else 8) <= hl <= |seg| && hl <= |input|
    requires forall k :: 0 <= k < hl && !Rewritten(tcp, isV6, h, k) ==> seg[k] == input[k]
    ensures tcp ==> NewTcpFlowKey(seg, isV6, h) == NewTcpFlowKey(input, isV6, h)
    ensures !tcp ==> NewUdpFlowKey(seg, isV6, h) == NewUdpFlowKey(input, isV6, h)
  {
    hide Padded;
    AddressesKept(seg, input, isV6, h, tcp, hl);
  }

  /** The bytes that classification and comparison read. */
  lemma SameBytes(seg: seq<byte>, input: seq<byte>, tcp: bool, isV6: bool, h: nat, hl: nat)
    requires h == (if isV6 then 40 else 20) && h + (if tcp then 20 else 8) <= hl <= |seg| && hl <= |input|
    requires forall k :: 0 <= k < hl && !Rewritten(tcp, isV6, h, k) ==> seg[k] == input[k]
    ensures seg[0] == input[0] && seg[1] == input[1] && seg[6] == input[6] && seg[7] == input[7]
        && seg[8] == input[8] && seg[9] == input[9]
    ensures tcp ==> seg[h + 12] == input[h + 12] && seg[h + 20..hl] == input[h + 20..hl]
  {
  }

  lemma IpFieldsMean(seg: seq<byte>, input: seq<byte>, isV6: bool, i: nat)
    requires (if isV6 then 40 else 20) <= |seg| && 20 <= |input|
    requires IpFields(seg, input, if isV6 then 40 else 20, isV6, i)
    ensures IpValid(seg, isV6)
    ensures !isV6 ==> BE16(seg, 4) == U16(BE16(input, 4) + i)
  {
    hide WordSum, OnesFold, BE16, U16;
  }

  lemma RejoinableSizes(input: seq<byte>, hdr: VirtioNetHdr, isV6: bool, canUdpGro: bool)
    requires Rejoinable(input, hdr, isV6, canUdpGro)
    ensures hdr.csumStart == (if isV6 then 40 else 20) && hdr.hdrLen < |input| && hdr.gsoSize > 0
    ensures hdr.csumStart as nat + (if IsTcp(hdr) then 20 else 8) <= hdr.hdrLen <= hdr.csumStart as nat + 60
    ensures IsTcp(hdr) ==>
              input[hdr.csumStart + 13] == FLAG_ACK || input[hdr.csumStart + 13] == FLAG_ACK + FLAG_PSH
  {
    hide Fragmented;
  }

  lemma SegmentNotEmpty(input: seq<byte>, hdr: VirtioNetHdr, p: nat)
    requires From(hdr, p) < |input| && hdr.gsoSize > 0
    ensures From(hdr, p) < To(input, hdr, p)
  {
    hide From;
  }

  /** The whole of a segment, as far as GRO reads it. */
  lemma SegmentFacts(input: seq<byte>, hdr: VirtioNetHdr, isV6: bool, canUdpGro: bool, p: nat)
    requires Ready(input, hdr, isV6) && Rejoinable(input, hdr, isV6, canUdpGro) && From(hdr, p) < |input|
    ensures var seg, h, hl := Segment(input, hdr, isV6, p), hdr.csumStart as nat, hdr.hdrLen as nat;
            && h == (if isV6 then 40 else 20) && h + (if IsTcp(hdr) then 20 else 8) <= hl <= h + 60
            && hl < |seg| == hl + (To(input, hdr, p) - From(hdr, p)) <= |input| <= 0xffff
            && seg[hl..] == input[From(hdr, p)..To(input, hdr, p)]
            && (forall k :: 0 <= k < hl && !Rewritten(IsTcp(hdr), isV6, h, k) ==> seg[k] == input[k])
            && IpValid(seg, isV6)
            && (!isV6 ==> BE16(seg, 4) == U16(BE16(input, 4) + p))
            && ChecksumValid(seg, h, ProtoOf(hdr), isV6)
            && (!IsTcp(hdr) ==> BE16(seg, h + 4) == |seg| - h)
            && (IsTcp(hdr) ==>
                  && BE32(seg, h + 4) == U32(BE32(input, h + 4) + p * hdr.gsoSize)
                  && seg[h + 13] == if To(input, hdr, p) == |input| then input[h + 13] else FLAG_ACK)
  {
    hide Segment, ChecksumValid, WordSum, OnesFold, WithoutFinPsh, IpFields, IpValid, BE16, BE32, U16, U32, Rejoinable,
        From, To, Rewritten;
    RejoinableSizes(input, hdr, isV6, canUdpGro);
    SegmentIs(input, hdr, isV6, p);
    SegmentNotEmpty(input, hdr, p);
    IpFieldsMean(Segment(input, hdr, isV6, p), input, isV6, p);
    if IsTcp(hdr) {
      WithoutFinPshIs(input[hdr.csumStart + 13]);
    }
  }

  /** A packet with the headers of a TCP segment is classified as TCP. */
  lemma TcpClassified(seg: seq<byte>, isV6: bool, canUdpGro: bool, hl: nat, p: nat)
    requires var h := if isV6 then 40 else 20;
             && h + 20 <= hl <= h + 60 && hl < |seg| <= 0xffff && hl == h + seg[h + 12] / 0x10 * 4
             && seg[0] / 0x10 == (if isV6 then 6 else 4) && LengthMatches(seg, isV6)
             && (if isV6 then seg[6] == PROTO_TCP
                 else seg[0] % 0x10 == 5 && seg[9] == PROTO_TCP && !Fragmented(seg))
             && (seg[h + 13] == FLAG_ACK || seg[h + 13] == FLAG_ACK + FLAG_PSH)
    ensures var h := if isV6 then 40 else 20;
            Classify(seg, canUdpGro, p)
            == Some(TcpItem(NewTcpFlowKey(seg, isV6, h), BE32(seg, h + 4), U16(p), 0, |seg| - hl, h, hl - h,
                            seg[h + 13] == FLAG_ACK + FLAG_PSH))
  {
    hide LengthMatches, Fragmented, NewTcpFlowKey, BE32, U16;
  }

  /** A packet with the headers of a UDP segment is classified as UDP. */
  lemma UdpClassified(seg: seq<byte>, isV6: bool, p: nat)
    requires var h := if isV6 then 40 else 20;
             && h + UDPH_LEN < |seg| <= 0xffff
             && seg[0] / 0x10 == (if isV6 then 6 else 4) && LengthMatches(seg, isV6)
             && (if isV6 then seg[6] == PROTO_UDP
                 else seg[0] % 0x10 == 5 && seg[9] == PROTO_UDP && !Fragmented(seg))
    ensures var h := if isV6 then 40 else 20;
            Classify(seg, true, p)
            == Some(UdpItem(NewUdpFlowKey(seg, isV6, h), U16(p), 0, |seg| - UDPH_LEN - h, h, false))
  {
    hide LengthMatches, Fragmented, NewUdpFlowKey, U16;
  }

  lemma IpValidLength(pkt: seq<byte>, isV6: bool)
    requires |pkt| >= 20 && IpValid(pkt, isV6)
    ensures LengthMatches(pkt, isV6)
  {
  }

  /** GRO classifies every segment as the item expected. */
  lemma SegmentClassified(input: seq<byte>, hdr: VirtioNetHdr, isV6: bool, canUdpGro: bool, p: nat, at: nat)
    requires Ready(input, hdr, isV6) && Rejoinable(input, hdr, isV6, canUdpGro) && From(hdr, p) < |input|
    ensures hdr.hdrLen - hdr.csumStart <= 60 && hdr.csumStart <= 40
    ensures Classify(Segment(input, hdr, isV6, p), canUdpGro, at) == Some(SegmentItem(input, hdr, isV6, p, at))
  {
    hide Segment, ChecksumValid, From, To, NewTcpFlowKey, NewUdpFlowKey, Ready, BE16, BE32, U16, U32, IpValid,
        LengthMatches, Rewritten, Classify;
    SegmentFacts(input, hdr, isV6, canUdpGro, p);
    var seg, h, hl := Segment(input, hdr, isV6, p), hdr.csumStart as nat, hdr.hdrLen as nat;
    IpValidLength(seg, isV6);
    SameKey(seg, input, IsTcp(hdr), isV6, h, hl);
    SameBytes(seg, input, IsTcp(hdr), isV6, h, hl);
    if IsTcp(hdr) {
      TcpClassified(seg, isV6, canUdpGro, hl, at);
    } else {
      UdpClassified(seg, isV6, at);
    }
  }

  // ---- the segments are a stream ------------------------------------------------------

  /** The packets ps of a batch are the segments of input, in order. */
  ghost predicate SegmentsAt(inp: Input, ps: seq<nat>, input: seq<byte>, hdr: VirtioNetHdr, isV6: bool)
    requires Sound(input, hdr, isV6)
  {
    && Good(inp, |inp.bufs|) && |ps| == Count(input, hdr)
    && forall p: nat :: p < |ps| ==>
         From(hdr, p) < |input| && ps[p] < |inp.bufs| && Pkt(inp, ps[p]) == Segment(input, hdr, isV6, p)
  }

  /** The packets ps of a batch are those of one flow. */
  predicate WholeFlow(inp: Input, ps: seq<nat>)
    requires ps != []
  {
    Desc(inp, ps[0]).Some? ==> Arrivals(inp, Desc(inp, ps[0]).value.key, |inp.bufs|) == ps
  }

  /** What is asked of the large packet and of the batch with its segments. */
  ghost predicate Rejoins(inp: Input, ps: seq<nat>, input: seq<byte>, hdr: VirtioNetHdr, isV6: bool) {
    && Ready(input, hdr, isV6) && Rejoinable(input, hdr, isV6, inp.canUdpGro)
    && SegmentsAt(inp, ps, input, hdr, isV6) && ps != [] && WholeFlow(inp, ps)
    && 2 * inp.offset + |input| <= inp.bufs[ps[0]].cap
  }

  /** Segment p of the batch: its item, its bytes and its size. */
  lemma SegmentInBatch(inp: Input, ps: seq<nat>, input: seq<byte>, hdr: VirtioNetHdr, isV6: bool, p: nat)
    requires Rejoins(inp, ps, input, hdr, isV6) && p < |ps|
    ensures hdr.hdrLen - hdr.csumStart <= 60 && hdr.csumStart <= 40 && From(hdr, p) < |input| && ps[p] < |inp.bufs|
    ensures Splittable(input, hdr, isV6) && Desc(inp, ps[p]) == Some(SegmentItem(input, hdr, isV6, p, ps[p]))
    ensures Pkt(inp, ps[p]) == Segment(input, hdr, isV6, p)
    ensures var n := To(input, hdr, p) - From(hdr, p);
            if p < |ps| - 1 then n == hdr.gsoSize && To(input, hdr, p) < |input|
            else 0 < n <= hdr.gsoSize && To(input, hdr, p) == |input|
  {
    hide Segment, From, To, Count, Good, Classify, Rejoinable, SegmentItem, WholeFlow;
    SoundSplits(input, hdr, isV6, inp.canUdpGro);
    SegmentClassified(input, hdr, isV6, inp.canUdpGro, p, ps[p]);
    SegmentSize(input, hdr, p);
  }

  lemma SoundSplits(input: seq<byte>, hdr: VirtioNetHdr, isV6: bool, canUdpGro: bool)
    requires Rejoinable(input, hdr, isV6, canUdpGro)
    ensures Sound(input, hdr, isV6) && Splittable(input, hdr, isV6) && hdr.gsoSize > 0
    ensures hdr.hdrLen < |input| <= 0xffff && hdr.csumStart == if isV6 then 40 else 20
  {
  }

  function KeyOf(input: seq<byte>, hdr: VirtioNetHdr, isV6: bool): FlowKey
    requires Splittable(input, hdr, isV6)
  {
    if IsTcp(hdr) then NewTcpFlowKey(input, isV6, hdr.csumStart) else NewUdpFlowKey(input, isV6, hdr.csumStart)
  }

  /** The item and the packet of segment p, in terms of the large packet. */
  ghost predicate FromInput(d: Item, pkt: seq<byte>, input: seq<byte>, hdr: VirtioNetHdr, isV6: bool, p: nat)
    requires Splittable(input, hdr, isV6)
  {
    var h, hl := hdr.csumStart as nat, hdr.hdrLen as nat;
    && d.TcpItem? == IsTcp(hdr) && d.key == KeyOf(input, hdr, isV6) && d.key.isV6 == isV6
    && Shaped(d) && d.iphLen as nat == h && d.HdrLen() == hl <= |pkt| && 20 <= h
    && d.gsoSize == To(input, hdr, p) - From(hdr, p)
    && ChecksumValid(pkt, h, d.Proto(), isV6)
    && IpHeadersCanCoalesce(pkt, input) && IpHeadersCanCoalesce(input, pkt) && pkt[0] == input[0]
    && (d.TcpItem? ==>
          && pkt[h + 20..hl] == input[h + 20..hl]
          && d.sentSeq == U32(BE32(input, h + 4) + p * hdr.gsoSize)
          && d.pshSet == (To(input, hdr, p) == |input| && input[h + 13] == FLAG_ACK + FLAG_PSH))
  }

  lemma SegmentFromInput(inp: Input, ps: seq<nat>, input: seq<byte>, hdr: VirtioNetHdr, isV6: bool, p: nat)
    requires Rejoins(inp, ps, input, hdr, isV6) && p < |ps|
    ensures Splittable(input, hdr, isV6) && Desc(inp, ps[p]).Some?
    ensures FromInput(Desc(inp, ps[p]).value, Pkt(inp, ps[p]), input, hdr, isV6, p)
  {
    hide *;
    SegmentInBatch(inp, ps, input, hdr, isV6, p);
    RejoinsIs(inp, ps, input, hdr, isV6);
    SegmentFacts(input, hdr, isV6, inp.canUdpGro, p);
    SameBytes(Pkt(inp, ps[p]), input, IsTcp(hdr), isV6, hdr.csumStart, hdr.hdrLen);
    ItemFromInput(Pkt(inp, ps[p]), input, hdr, isV6, p, ps[p]);
  }

  lemma RejoinsIs(inp: Input, ps: seq<nat>, input: seq<byte>, hdr: VirtioNetHdr, isV6: bool)
    requires Rejoins(inp, ps, input, hdr, isV6)
    ensures Ready(input, hdr, isV6) && Rejoinable(input, hdr, isV6, inp.canUdpGro) && Splittable(input, hdr, isV6)
    ensures Good(inp, |inp.bufs|) && |inp.bufs| <= TWO16 && ps != [] && WholeFlow(inp, ps)
    ensures ps[0] < |inp.bufs| && 2 * inp.offset + |input| <= inp.bufs[ps[0]].cap
    ensures |input| <= 0xffff && VIRTIO_NET_HDR_LEN <= inp.offset && hdr.gsoSize > 0 && |ps| == Count(input, hdr)
    ensures !IsTcp(hdr) ==> hdr.hdrLen == hdr.csumStart + UDPH_LEN
  {
    hide From, Segment, WholeFlow, Count;
    SoundSplits(input, hdr, isV6, inp.canUdpGro);
  }

  lemma ItemFromInput(seg: seq<byte>, input: seq<byte>, hdr: VirtioNetHdr, isV6: bool, p: nat, at: nat)
    requires Splittable(input, hdr, isV6) && From(hdr, p) < |input|
    requires var h, hl := hdr.csumStart as nat, hdr.hdrLen as nat;
             && h == (if isV6 then 40 else 20) && h + (if IsTcp(hdr) then 20 else 8) <= hl <= h + 60
             && (!IsTcp(hdr) ==> hl == h + UDPH_LEN)
             && hl <= |seg| && ChecksumValid(seg, h, ProtoOf(hdr), isV6) && To(input, hdr, p) > From(hdr, p)
             && seg[0] == input[0] && seg[1] == input[1] && seg[6] == input[6] && seg[7] == input[7]
             && seg[8] == input[8] && (IsTcp(hdr) ==> seg[h + 20..hl] == input[h + 20..hl])
    ensures FromInput(SegmentItem(input, hdr, isV6, p, at), seg, input, hdr, isV6, p)
  {
    hide ChecksumValid, From, To, BE32, U32, Padded, SrcAddr, DstAddr, BE16;
  }

  lemma SameIpHeaders(a: seq<byte>, b: seq<byte>, c: seq<byte>)
    requires IpHeadersCanCoalesce(a, b) && IpHeadersCanCoalesce(b, c) && |a| > 0 && |b| > 0 && a[0] == b[0]
    ensures IpHeadersCanCoalesce(a, c)
  {
  }

  /** What two segments have in common with the large packet they have with each other. */
  lemma ContinuesFrom(inp: Input, input: seq<byte>, hdr: VirtioNetHdr, isV6: bool, first: Item, d: Item, q: nat, p: nat,
          at: nat)
    requires Desc(inp, q) == Some(first) && Desc(inp, at) == Some(d) && Splittable(input, hdr, isV6)
    requires FromInput(first, Pkt(inp, q), input, hdr, isV6, 0) && FromInput(d, Pkt(inp, at), input, hdr, isV6, p)
    requires IpHeadersCanCoalesce(Pkt(inp, at), Pkt(inp, q)) && d.gsoSize <= first.gsoSize
    requires p > 0 ==> first.gsoSize == hdr.gsoSize
    ensures Continues(inp, first, q, p, at)
  {
    hide IpHeadersCanCoalesce, From, To, Pkt, Desc, KeyOf, ChecksumValid, BE32, U32, SeqAt, Shaped;
    if IsTcp(hdr) {
      SeqFrom(BE32(input, hdr.csumStart as nat + 4), p, hdr.gsoSize, first.gsoSize);
    }
  }

  lemma SegmentContinues(inp: Input, ps: seq<nat>, input: seq<byte>, hdr: VirtioNetHdr, isV6: bool, p: nat)
    requires Rejoins(inp, ps, input, hdr, isV6) && p < |ps| && Desc(inp, ps[0]).Some?
    ensures Continues(inp, Desc(inp, ps[0]).value, ps[0], p, ps[p])
    ensures p < |ps| - 1 ==> Inner(inp, Desc(inp, ps[0]).value, ps[p])
  {
    hide *;
    RejoinsIs(inp, ps, input, hdr, isV6);
    SegmentInBatch(inp, ps, input, hdr, isV6, 0);
    SegmentInBatch(inp, ps, input, hdr, isV6, p);
    SegmentFromInput(inp, ps, input, hdr, isV6, 0);
    SegmentFromInput(inp, ps, input, hdr, isV6, p);
    var first, d := Desc(inp, ps[0]).value, Desc(inp, ps[p]).value;
    FromInputIs(first, Pkt(inp, ps[0]), input, hdr, isV6, 0);
    FromInputIs(d, Pkt(inp, ps[p]), input, hdr, isV6, p);
    SameIpHeaders(Pkt(inp, ps[p]), input, Pkt(inp, ps[0]));
    ContinuesFrom(inp, input, hdr, isV6, first, d, ps[0], p, ps[p]);
    if p < |ps| - 1 {
      InnerFrom(inp, first, d, ps[p]);
    }
  }

  lemma InnerFrom(inp: Input, first: Item, d: Item, at: nat)
    requires Desc(inp, at) == Some(d) && d.gsoSize == first.gsoSize && !Psh(d)
    ensures Inner(inp, first, at)
  {
    hide Desc;
  }

  lemma FromInputIs(d: Item, pkt: seq<byte>, input: seq<byte>, hdr: VirtioNetHdr, isV6: bool, p: nat)
    requires Splittable(input, hdr, isV6) && FromInput(d, pkt, input, hdr, isV6, p)
    ensures IpHeadersCanCoalesce(pkt, input) && IpHeadersCanCoalesce(input, pkt)
    ensures |pkt| > 0 && |input| > 0 && pkt[0] == input[0]
    ensures d.gsoSize == To(input, hdr, p) - From(hdr, p) && (To(input, hdr, p) < |input| ==> !Psh(d))
  {
    hide IpHeadersCanCoalesce, From, To, ChecksumValid, KeyOf, BE32, U32;
  }

  lemma SeqFrom(start: u32, p: nat, g: nat, first: nat)
    requires p > 0 ==> first == g
    ensures SeqAt(U32(start + 0 * g), p, first) == U32(start + p * g)
  {
  }

  /** The segments, in order, are a stream. */
  lemma SegmentsStream(inp: Input, ps: seq<nat>, input: seq<byte>, hdr: VirtioNetHdr, isV6: bool)
    requires Rejoins(inp, ps, input, hdr, isV6)
    ensures ps != [] && Desc(inp, ps[0]).Some? && Stream(inp, ps, Desc(inp, ps[0]).value)
  {
    hide *;
    RejoinsIs(inp, ps, input, hdr, isV6);
    SegmentFromInput(inp, ps, input, hdr, isV6, 0);
    var first := Desc(inp, ps[0]).value;
    forall p: nat | p < |ps|
      ensures Continues(inp, first, ps[0], p, ps[p]) && (p < |ps| - 1 ==> Inner(inp, first, ps[p]))
    {
      SegmentContinues(inp, ps, input, hdr, isV6, p);
    }
    SegmentsRoom(inp, ps, input, hdr, isV6, first);
    StreamOf(inp, ps, first);
  }

  lemma StreamOf(inp: Input, ps: seq<nat>, first: Item)
    requires ps != [] && ps[0] < |inp.bufs| && Desc(inp, ps[0]) == Some(first)
    requires forall p: nat :: p < |ps| ==>
        Continues(inp, first, ps[0], p, ps[p]) && (p < |ps| - 1 ==> Inner(inp, first, ps[p]))
    requires 2 * inp.offset + first.HdrLen() + Times(|ps| - 1, first.gsoSize) + PayloadLen(inp, first, ps[|ps| - 1])
        <= inp.bufs[ps[0]].cap
    ensures Stream(inp, ps, first)
  {
    hide Desc, Continues, Inner, Times;
  }

  /** All segments together are as long as the large packet. */
  lemma SegmentsRoom(inp: Input, ps: seq<nat>, input: seq<byte>, hdr: VirtioNetHdr, isV6: bool, first: Item)
    requires Rejoins(inp, ps, input, hdr, isV6) && ps != [] && Desc(inp, ps[0]) == Some(first)
    ensures first.HdrLen() == hdr.hdrLen && |Pkt(inp, ps[|ps| - 1])| >= first.HdrLen()
    ensures first.HdrLen() + Times(|ps| - 1, first.gsoSize) + PayloadLen(inp, first, ps[|ps| - 1]) == |input|
    ensures |ps| > 1 ==> first.gsoSize == hdr.gsoSize
  {
    hide *;
    RejoinsIs(inp, ps, input, hdr, isV6);
    var last := |ps| - 1;
    SegmentInBatch(inp, ps, input, hdr, isV6, 0);
    SegmentInBatch(inp, ps, input, hdr, isV6, last);
    SegmentFacts(input, hdr, isV6, inp.canUdpGro, last);
    ItemSizes(input, hdr, isV6, ps[0]);
    RoomOf(hdr, last, first.gsoSize);
    PayloadLenIs(inp, first, ps[last]);
  }

  lemma ItemSizes(input: seq<byte>, hdr: VirtioNetHdr, isV6: bool, at: nat)
    requires Splittable(input, hdr, isV6) && From(hdr, 0) <= |input|
    requires hdr.hdrLen - hdr.csumStart <= 60 && hdr.csumStart <= 40
    requires !IsTcp(hdr) ==> hdr.hdrLen == hdr.csumStart + UDPH_LEN
    ensures SegmentItem(input, hdr, isV6, 0, at).gsoSize == To(input, hdr, 0) - From(hdr, 0)
    ensures SegmentItem(input, hdr, isV6, 0, at).HdrLen() == hdr.hdrLen
  {
  }

  lemma RoomOf(hdr: VirtioNetHdr, last: nat, g: nat)
    requires last > 0 ==> g == hdr.gsoSize
    ensures hdr.hdrLen + Times(last, g) == From(hdr, last)
  {
  }

  lemma PayloadLenIs(inp: Input, first: Item, p: nat)
    ensures PayloadLen(inp, first, p) == |Pkt(inp, p)| - first.HdrLen()
  {
  }

  // ---- the large packet again ---------------------------------------------------------

  /** The header fields that accounting computes anew: lengths and checksums. */
  predicate Recomputed(tcp: bool, isV6: bool, h: nat, pos: nat) {
    || (if isV6 then 4 <= pos < 6 else 2 <= pos < 4 || 10 <= pos < 12)
    || (if tcp then h + 16 <= pos < h + 18 else h + 4 <= pos < h + 8)
  }

  /** The header fields that splitting and coalescing leave alone: all but those and the TCP flags. */
  predicate FieldKept(tcp: bool, isV6: bool, h: nat, pos: nat) {
    !Recomputed(tcp, isV6, h, pos) && !(tcp && pos == h + TCP_FLAGS_OFFSET)
  }

  /** merged is the large packet again, but for the fields that accounting computes anew. */
  ghost predicate Rejoined(merged: seq<byte>, input: seq<byte>, hdr: VirtioNetHdr, isV6: bool) {
    && |merged| == |input|
    && forall k :: 0 <= k < |input| && !Recomputed(IsTcp(hdr), isV6, hdr.csumStart, k) ==> merged[k] == input[k]
  }

  /** The payloads of the first m segments, joined, are the payload of the large packet so far. */
  lemma {:induction false} JoinedIs(inp: Input, ps: seq<nat>, input: seq<byte>, hdr: VirtioNetHdr, isV6: bool, m: nat)
    requires Rejoins(inp, ps, input, hdr, isV6) && m <= |ps|
    ensures hdr.hdrLen <= |input| && (m > 0 ==> hdr.hdrLen <= To(input, hdr, m - 1) <= |input|)
    ensures Joined(inp, hdr.hdrLen, ps[..m])
        == input[hdr.hdrLen..if m == 0 then hdr.hdrLen as nat else To(input, hdr, m - 1)]
  {
    hide *;
    RejoinsIs(inp, ps, input, hdr, isV6);
    SoundSplits(input, hdr, isV6, inp.canUdpGro);
    if m > 0 {
      JoinedIs(inp, ps, input, hdr, isV6, m - 1);
      SegmentInBatch(inp, ps, input, hdr, isV6, m - 1);
      SegmentFacts(input, hdr, isV6, inp.canUdpGro, m - 1);
      Meets(input, hdr, m);
      assert ps[..m] == ps[..m - 1] + [ps[m - 1]];
      JoinedAppend(inp, hdr.hdrLen, ps[..m - 1], ps[m - 1]);
      Adjoining(input, hdr.hdrLen, From(hdr, m - 1), To(input, hdr, m - 1));
    } else {
      JoinedNone(inp, hdr.hdrLen, ps[..0]);
    }
  }

  lemma JoinedNone(inp: Input, hl: nat, none: seq<nat>)
    requires none == []
    ensures Joined(inp, hl, none) == []
  {
  }

  /** The first segment's headers are the large packet's, flags aside. */
  lemma FirstHeader(inp: Input, ps: seq<nat>, input: seq<byte>, hdr: VirtioNetHdr, isV6: bool)
    requires Rejoins(inp, ps, input, hdr, isV6)
    ensures ps != [] && hdr.hdrLen <= |Pkt(inp, ps[0])| && hdr.hdrLen <= |input|
    ensures forall k :: 0 <= k < hdr.hdrLen && FieldKept(IsTcp(hdr), isV6, hdr.csumStart, k) ==>
              Pkt(inp, ps[0])[k] == input[k]
  {
    hide *;
    RejoinsIs(inp, ps, input, hdr, isV6);
    SegmentInBatch(inp, ps, input, hdr, isV6, 0);
    SegmentFacts(input, hdr, isV6, inp.canUdpGro, 0);
    FieldsBack(Pkt(inp, ps[0]), input, hdr, isV6);
  }

  lemma FieldsBack(seg: seq<byte>, input: seq<byte>, hdr: VirtioNetHdr, isV6: bool)
    requires var h, hl := hdr.csumStart as nat, hdr.hdrLen as nat;
             && h == (if isV6 then 40 else 20) && h + (if IsTcp(hdr) then 20 else 8) <= hl <= |seg| && hl <= |input|
             && (forall k :: 0 <= k < hl && !Rewritten(IsTcp(hdr), isV6, h, k) ==> seg[k] == input[k])
             && (!isV6 ==> BE16(seg, 4) == U16(BE16(input, 4) + 0))
             && (IsTcp(hdr) ==> BE32(seg, h + 4) == U32(BE32(input, h + 4) + 0 * hdr.gsoSize))
    ensures forall k :: 0 <= k < hdr.hdrLen && FieldKept(IsTcp(hdr), isV6, hdr.csumStart, k) ==> seg[k] == input[k]
  {
    hide BE16, BE32, U16, U32;
    if !isV6 {
      SameId(seg, input);
    }
    if IsTcp(hdr) {
      SameStart(seg, input, hdr.csumStart as nat + 4, hdr.gsoSize);
    }
  }

  lemma SameStart(a: seq<byte>, b: seq<byte>, at: nat, g: nat)
    requires at + 4 <= |a| && at + 4 <= |b| && BE32(a, at) == U32(BE32(b, at) + 0 * g)
    ensures forall k :: at <= k < at + 4 ==> a[k] == b[k]
  {
    BE32Injective(a, at, b, at);
    OptionsAgree(a, b, at, at + 4);
  }

  /** The one item of the stream holds all its packets, and its buffer is written. */
  lemma OneItem(inp: Input, ps: seq<nat>, s: State, first: Item)
    requires Inv(inp, s, |inp.bufs|) && AllMerged(inp, ps, first, s) && first.bufsIndex == ps[0]
    ensures Desc(inp, ps[|ps| - 1]).Some? && ps[0] < |s.bufs| == |s.parts| == |inp.bufs|
    ensures var item := Joint(first, |ps|, Psh(Desc(inp, ps[|ps| - 1]).value));
            && first.key in s.flows && s.flows[first.key] == [item]
            && Holds(inp, item, ps, s.bufs[ps[0]].data) && |s.bufs[ps[0]].data| <= 0xffff
    ensures s.parts[ps[0]] == ps && ps[0] in s.toWrite
  {
    hide All, Holds, Untouched, Tracked, Plain, Joint, Desc;
    assert FlowHolds(inp, s, |inp.bufs|, first.key);
    assert ItemAt(inp, s, |inp.bufs|, first.key, s.flows[first.key][0]);
  }

  /** A buffer that holds all the segments holds the large packet. */
  lemma HeldRejoined(inp: Input, ps: seq<nat>, input: seq<byte>, hdr: VirtioNetHdr, isV6: bool, item: Item,
          data: seq<byte>)
    requires Rejoins(inp, ps, input, hdr, isV6) && Holds(inp, item, ps, data)
    requires item.TcpItem? == IsTcp(hdr) && item.iphLen as nat == hdr.csumStart && item.HdrLen() == hdr.hdrLen
    requires forall j :: 0 < j < |ps| ==> ps[0] < ps[j]
    requires IsTcp(hdr) ==>
               && hdr.csumStart as nat + 13 < |input|
               && input[hdr.csumStart + 13] == if Psh(item) then FLAG_ACK + FLAG_PSH else FLAG_ACK
    ensures inp.offset <= |data| && Rejoined(data[inp.offset..], input, hdr, isV6)
  {
    hide *;
    RejoinsIs(inp, ps, input, hdr, isV6);
    GoodAny(inp, |inp.bufs|);
    HoldsParts(inp, item, ps, data);
    MergedPacket(inp, item, ps, data);
    FirstHeader(inp, ps, input, hdr, isV6);
    JoinedIs(inp, ps, input, hdr, isV6, |ps|);
    assert ps[..|ps|] == ps;
    SegmentInBatch(inp, ps, input, hdr, isV6, |ps| - 1);
    HeadIs(inp, item, ps);
    HeaderAndPayload(data[inp.offset..], Pkt(inp, ps[0]), input, hdr, isV6, Head(inp, item, ps),
        Joined(inp, item.HdrLen(), ps));
  }

  lemma GoodAny(inp: Input, n: nat)
    requires Good(inp, n)
    ensures Good(inp, 0) && VIRTIO_NET_HDR_LEN <= inp.offset
  {
  }

  lemma HeadIs(inp: Input, item: Item, ps: seq<nat>)
    requires ps != [] && Shaped(item) && item.HdrLen() <= |Pkt(inp, ps[0])|
    requires forall j :: 0 < j < |ps| ==> ps[0] < ps[j]
    ensures var head := Head(inp, item, ps);
            && |head| == item.HdrLen()
            && (forall k :: 0 <= k < |head| && !(item.TcpItem? && k == item.iphLen as nat + 13) ==>
                 head[k] == Pkt(inp, ps[0])[k])
            && (item.TcpItem? ==>
                  && |head| > item.iphLen as nat + 13
                  && head[item.iphLen + 13] == if Psh(item) then FLAG_ACK + FLAG_PSH else FLAG_ACK)
  {
    hide Pkt;
  }

  lemma HeaderAndPayload(merged: seq<byte>, seg: seq<byte>, input: seq<byte>, hdr: VirtioNetHdr, isV6: bool,
          head: seq<byte>, payload: seq<byte>)
    requires merged == head + payload && |head| == hdr.hdrLen <= |input| && |seg| >= |head|
    requires payload == input[hdr.hdrLen..]
    requires forall k :: 0 <= k < |head| && !(IsTcp(hdr) && k == hdr.csumStart as nat + 13) ==> head[k] == seg[k]
    requires forall k :: 0 <= k < hdr.hdrLen && FieldKept(IsTcp(hdr), isV6, hdr.csumStart, k) ==> seg[k] == input[k]
    requires IsTcp(hdr) ==>
               hdr.csumStart as nat + 13 < |head| && head[hdr.csumStart + 13] == input[hdr.csumStart + 13]
    ensures Rejoined(merged, input, hdr, isV6)
  {
  }

  /** The item that the stream of segments ends up in. */
  lemma RejoinedItem(inp: Input, ps: seq<nat>, input: seq<byte>, hdr: VirtioNetHdr, isV6: bool) returns (item: Item)
    requires Rejoins(inp, ps, input, hdr, isV6)
    ensures Good(inp, |inp.bufs|) && ps != [] && ps[0] < |inp.bufs|
    ensures ps == UpTo(|inp.bufs|) ==> Run(inp, |inp.bufs|).toWrite == [0]
    ensures var s := Run(inp, |inp.bufs|);
            && ps[0] in s.toWrite && ps[0] < |s.parts| && s.parts[ps[0]] == ps
            && item.key in s.flows && s.flows[item.key] == [item]
            && item.bufsIndex == ps[0] && item.numMerged as int == |ps| - 1
            && ps[0] < |s.bufs| && inp.offset <= |s.bufs[ps[0]].data| <= 0xffff
            && Rejoined(s.bufs[ps[0]].data[inp.offset..], input, hdr, isV6)
            && (|ps| == 1 ==> s.bufs[ps[0]].data[inp.offset..] == Pkt(inp, ps[0]))
    ensures Shaped(item) && item.TcpItem? == IsTcp(hdr) && item.key.isV6 == isV6
        && item.iphLen as nat == hdr.csumStart && item.HdrLen() == hdr.hdrLen
    ensures |ps| > 1 ==> item.gsoSize == hdr.gsoSize
  {
    hide *;
    RejoinsIs(inp, ps, input, hdr, isV6);
    SegmentsStream(inp, ps, input, hdr, isV6);
    var last := ps[|ps| - 1];
    var first := Desc(inp, ps[0]).value;
    FlowArrives(inp, ps, first);
    StreamMerges(inp, |inp.bufs|, first);
    if ps == UpTo(|inp.bufs|) {
      StreamAlone(inp, |inp.bufs|, first);
    }
    var s := Run(inp, |inp.bufs|);
    First(inp, first, ps[0]);
    OneItem(inp, ps, s, first);
    item := Joint(first, |ps|, Psh(Desc(inp, last).value));
    SegmentFromInput(inp, ps, input, hdr, isV6, 0);
    SegmentFromInput(inp, ps, input, hdr, isV6, |ps| - 1);
    SegmentInBatch(inp, ps, input, hdr, isV6, |ps| - 1);
    SegmentsRoom(inp, ps, input, hdr, isV6, first);
    EndFlags(inp, input, hdr, isV6, first, Desc(inp, last).value, Pkt(inp, ps[0]), Pkt(inp, last), |ps| - 1);
    HeldRejoined(inp, ps, input, hdr, isV6, item, s.bufs[ps[0]].data);
    HoldsParts(inp, item, ps, s.bufs[ps[0]].data);
    if |ps| == 1 {
      GoodAny(inp, |inp.bufs|);
      assert ps == [ps[0]];
      Unmerged(inp, item, ps[0], s.bufs[ps[0]].data);
    }
  }

  lemma FlowArrives(inp: Input, ps: seq<nat>, first: Item)
    requires ps != [] && WholeFlow(inp, ps) && Desc(inp, ps[0]) == Some(first)
    ensures Arrivals(inp, first.key, |inp.bufs|) == ps
    ensures forall j :: 0 < j < |ps| ==> ps[0] < ps[j]
  {
    hide Desc;
    ArrivalsIncrease(inp, first.key, |inp.bufs|);
  }

  /** The last segment's item has PSH exactly when the large packet has. */
  lemma EndFlags(inp: Input, input: seq<byte>, hdr: VirtioNetHdr, isV6: bool, first: Item, end: Item,
          firstPkt: seq<byte>, endPkt: seq<byte>, p: nat)
    requires Rejoinable(input, hdr, isV6, inp.canUdpGro) && Splittable(input, hdr, isV6)
    requires FromInput(first, firstPkt, input, hdr, isV6, 0) && FromInput(end, endPkt, input, hdr, isV6, p)
    requires To(input, hdr, p) == |input|
    ensures first.TcpItem? == IsTcp(hdr) && first.key.isV6 == isV6 && first.iphLen as nat == hdr.csumStart
    ensures first.HdrLen() == hdr.hdrLen
    ensures IsTcp(hdr) ==>
              && hdr.csumStart as nat + 13 < |input|
              && input[hdr.csumStart + 13] == if Psh(end) then FLAG_ACK + FLAG_PSH else FLAG_ACK
  {
    hide IpHeadersCanCoalesce, From, To, ChecksumValid, KeyOf, BE32, U32;
  }

  // ---- the frame written --------------------------------------------------------------

  /** A true UDP length, and a transport checksum that is valid, once completed if it is left partial. */
  predicate TransportValid(pkt: seq<byte>, hdr: VirtioNetHdr, isV6: bool, partial: bool)
    requires Splittable(pkt, hdr, isV6)
  {
    && (!IsTcp(hdr) ==> BE16(pkt, hdr.csumStart as nat + 4) == |pkt| - hdr.csumStart)
    && ChecksumValid(if partial then GsoNoneChecksum(pkt, hdr.csumStart, hdr.csumOffset) else pkt,
                     hdr.csumStart, ProtoOf(hdr), isV6)
  }

  /**
   The virtio header and the packet of a large packet that has come back in n segments. As the
   virtio header says, the transport checksum is left partial when there is more than one.
   */
  ghost predicate LargeAgain(le: bool, frame: seq<byte>, n: nat, input: seq<byte>, hdr: VirtioNetHdr, isV6: bool) {
    && 20 <= |input| && |frame| == VIRTIO_NET_HDR_LEN + |input|
    && frame[..VIRTIO_NET_HDR_LEN]
       == (if n > 1 then Encode(le, hdr.(flags := NEEDS_CSUM)) else Zeros(VIRTIO_NET_HDR_LEN))
    && Rejoined(frame[VIRTIO_NET_HDR_LEN..], input, hdr, isV6)
    && IpValid(frame[VIRTIO_NET_HDR_LEN..], isV6)
    && Splittable(frame[VIRTIO_NET_HDR_LEN..], hdr, isV6)
    && TransportValid(frame[VIRTIO_NET_HDR_LEN..], hdr, isV6, n > 1)
  }

  /** The virtio header that accounting writes is the one the large packet came with. */
  lemma HeaderAgain(item: Item, input: seq<byte>, hdr: VirtioNetHdr, isV6: bool)
    requires Sound(input, hdr, isV6) && Shaped(item) && item.TcpItem? == IsTcp(hdr) && item.key.isV6 == isV6
    requires item.iphLen as nat == hdr.csumStart && item.HdrLen() == hdr.hdrLen && item.gsoSize == hdr.gsoSize
    ensures HeaderOf(item) == hdr.(flags := NEEDS_CSUM)
  {
  }

  /** Accounting changes only the fields it computes anew. */
  lemma AccountRejoined(pkt: seq<byte>, input: seq<byte>, hdr: VirtioNetHdr, isV6: bool, item: Item)
    requires Shaped(item) && item.TcpItem? == IsTcp(hdr) && item.key.isV6 == isV6
    requires item.iphLen as nat == hdr.csumStart && item.HdrLen() <= |pkt| <= 0xffff
    requires Rejoined(pkt, input, hdr, isV6)
    ensures |pkt| >= 20 && Rejoined(AccountPacket(pkt, item), input, hdr, isV6)
    ensures IpValid(AccountPacket(pkt, item), isV6)
  {
    hide AccountPacket, WordSum, OnesFold, SrcAddr, DstAddr, Rejoined, IpFields, IpValid, BE16, U16;
    AccountedPacket(pkt, item);
    IpFieldsMean(AccountPacket(pkt, item), pkt, isV6, 0);
    if !isV6 {
      SameId(AccountPacket(pkt, item), pkt);
    }
    FieldsRejoined(AccountPacket(pkt, item), pkt, input, hdr, isV6);
  }

  /** Accounting leaves a partial checksum that completes to a valid one, and a true UDP length. */
  lemma AccountTransportValid(pkt: seq<byte>, hdr: VirtioNetHdr, isV6: bool, item: Item)
    requires Shaped(item) && item.TcpItem? == IsTcp(hdr) && item.key.isV6 == isV6
    requires item.iphLen as nat == hdr.csumStart && item.HdrLen() == hdr.hdrLen <= |pkt| <= 0xffff
    requires hdr.csumOffset == if IsTcp(hdr) then 16 else 6
    ensures Splittable(AccountPacket(pkt, item), hdr, isV6)
    ensures TransportValid(AccountPacket(pkt, item), hdr, isV6, true)
  {
    hide AccountPacket, GsoNoneChecksum, ChecksumValid, BE16, Keeps, IpFields, PseudoSum, SrcAddr, DstAddr;
    PartialChecksum(pkt, item);
    AccountedPacket(pkt, item);
  }

  lemma SegmentTransportValid(seg: seq<byte>, input: seq<byte>, hdr: VirtioNetHdr, isV6: bool)
    requires Splittable(input, hdr, isV6) && hdr.hdrLen <= |seg| <= |input|
    requires ChecksumValid(seg, hdr.csumStart, ProtoOf(hdr), isV6)
    requires !IsTcp(hdr) ==> BE16(seg, hdr.csumStart as nat + 4) == |seg| - hdr.csumStart
    ensures Splittable(seg, hdr, isV6) && TransportValid(seg, hdr, isV6, false)
  {
    hide ChecksumValid, GsoNoneChecksum, BE16;
  }

  lemma SplittableIs(input: seq<byte>, hdr: VirtioNetHdr, isV6: bool)
    requires Splittable(input, hdr, isV6)
    ensures hdr.csumOffset == if IsTcp(hdr) then 16 else 6
  {
  }

  lemma FieldsRejoined(r: seq<byte>, pkt: seq<byte>, input: seq<byte>, hdr: VirtioNetHdr, isV6: bool)
    requires hdr.csumStart == (if isV6 then 40 else 20) && hdr.csumStart + (if IsTcp(hdr) then 20 else 8) <= |pkt|
    requires Keeps(r, pkt, IsTcp(hdr), isV6, hdr.csumStart) && Rejoined(pkt, input, hdr, isV6)
    requires IsTcp(hdr) ==> forall k: nat :: hdr.csumStart <= k < hdr.csumStart + 16 ==> r[k] == pkt[k]
    requires !isV6 ==> r[4] == pkt[4] && r[5] == pkt[5]
    ensures Rejoined(r, input, hdr, isV6)
  {
  }

  lemma FrameOfOne(le: bool, inp: Input, after: seq<Buf>, toWrite: seq<nat>, item: Item)
    requires Handled(le, inp, after, toWrite) && inp.bufs != [] && Good(inp, |inp.bufs|)
    requires item.key in Run(inp, |inp.bufs|).flows && Run(inp, |inp.bufs|).flows[item.key] == [item]
    ensures var s, k := Run(inp, |inp.bufs|), item.bufsIndex;
            && toWrite == s.toWrite && k < |after| && k < |s.bufs|
            && Shaped(item) && VIRTIO_NET_HDR_LEN <= inp.offset && inp.offset + item.HdrLen() <= |s.bufs[k].data|
            && after[k].data == AccountItem(le, s.bufs[k].data, inp.offset, item)
  {
    hide Run, AccountItem, Shaped, Good, Tracked;
    var s := Run(inp, |inp.bufs|);
    assert ItemAccounted(le, inp.offset, s.flows[item.key][0], s.bufs, after);
  }

  /**
   Coalescing undoes splitting: when handleGRO gets the segments of a large packet in order,
   whatever packets of other flows lie between them, the first one's buffer is written as the
   large packet again: its virtio header, and every byte but the lengths and checksums, which
   accounting computes anew. A single segment goes out as it is.
   */
  lemma FrameRejoins(le: bool, inp: Input, ps: seq<nat>, input: seq<byte>, hdr: VirtioNetHdr, isV6: bool,
          after: seq<Buf>, toWrite: seq<nat>)
    requires Rejoins(inp, ps, input, hdr, isV6) && Handled(le, inp, after, toWrite)
    ensures ps != [] && ps[0] in toWrite && ps[0] < |after| && (ps == UpTo(|inp.bufs|) ==> toWrite == [0])
    ensures Good(inp, |inp.bufs|) && ps[0] < |inp.bufs| && Run(inp, |inp.bufs|).parts[ps[0]] == ps
    ensures VIRTIO_NET_HDR_LEN <= inp.offset <= |after[ps[0]].data|
    ensures LargeAgain(le, Frame(after[ps[0]].data, inp.offset), |ps|, input, hdr, isV6)
    ensures |ps| == 1 ==> Frame(after[ps[0]].data, inp.offset) == Zeros(VIRTIO_NET_HDR_LEN) + Pkt(inp, ps[0])
  {
    hide *;
    RejoinsIs(inp, ps, input, hdr, isV6);
    SoundSplits(input, hdr, isV6, inp.canUdpGro);
    var item := RejoinedItem(inp, ps, input, hdr, isV6);
    FrameOfOne(le, inp, after, toWrite, item);
    var data := Run(inp, |inp.bufs|).bufs[ps[0]].data;
    RejoinedSize(data[inp.offset..], input, hdr, isV6);
    if |ps| > 1 {
      FrameOfMerged(le, data, inp.offset, item);
      HeaderAgain(item, input, hdr, isV6);
      AccountRejoined(data[inp.offset..], input, hdr, isV6, item);
      SplittableIs(input, hdr, isV6);
      AccountTransportValid(data[inp.offset..], hdr, isV6, item);
      LargeFrom(le, Encode(le, HeaderOf(item)), AccountPacket(data[inp.offset..], item), |ps|, input, hdr, isV6);
    } else {
      ClearedItem(le, data, inp.offset, item);
      SegmentInBatch(inp, ps, input, hdr, isV6, 0);
      SegmentFacts(input, hdr, isV6, inp.canUdpGro, 0);
      SegmentTransportValid(Pkt(inp, ps[0]), input, hdr, isV6);
      LargeFrom(le, Zeros(VIRTIO_NET_HDR_LEN), data[inp.offset..], |ps|, input, hdr, isV6);
    }
  }

  lemma RejoinedSize(merged: seq<byte>, input: seq<byte>, hdr: VirtioNetHdr, isV6: bool)
    requires Rejoined(merged, input, hdr, isV6)
    ensures |merged| == |input|
  {
  }

  lemma ClearedItem(le: bool, data: seq<byte>, offset: nat, item: Item)
    requires Shaped(item) && VIRTIO_NET_HDR_LEN <= offset && offset + item.HdrLen() <= |data| && item.numMerged == 0
    ensures Frame(AccountItem(le, data, offset, item), offset) == Zeros(VIRTIO_NET_HDR_LEN) + data[offset..]
  {
    hide Shaped, ClearHeader, Frame;
    ClearedFrame(data, offset);
  }

  lemma LargeFrom(le: bool, head: seq<byte>, pkt: seq<byte>, n: nat, input: seq<byte>, hdr: VirtioNetHdr, isV6: bool)
    requires head == (if n > 1 then Encode(le, hdr.(flags := NEEDS_CSUM)) else Zeros(VIRTIO_NET_HDR_LEN))
    requires Rejoined(pkt, input, hdr, isV6) && |pkt| >= 20 && IpValid(pkt, isV6)
    requires Splittable(pkt, hdr, isV6) && TransportValid(pkt, hdr, isV6, n > 1)
    ensures LargeAgain(le, head + pkt, n, input, hdr, isV6)
  {
    hide Encode, Rejoined, IpValid, Splittable, TransportValid;
    RejoinedSize(pkt, input, hdr, isV6);
    assert |head| == VIRTIO_NET_HDR_LEN;
    assert (head + pkt)[VIRTIO_NET_HDR_LEN..] == pkt;
  }

  // ---- from read to write -------------------------------------------------------------

  /** Clearing touches only the checksums. */
  lemma ClearedBytes(input: seq<byte>, hdr: VirtioNetHdr, isV6: bool)
    requires Splittable(input, hdr, isV6)
    ensures var r := Cleared(input, hdr.csumStart as nat + hdr.csumOffset, isV6);
            && |r| == |input|
            && forall k: nat :: k < |input| && !Recomputed(IsTcp(hdr), isV6, hdr.csumStart, k) ==> r[k] == input[k]
  {
  }

  lemma SameRejoinable(input: seq<byte>, cleared: seq<byte>, hdr: VirtioNetHdr, isV6: bool, canUdpGro: bool)
    requires Rejoinable(input, hdr, isV6, canUdpGro) && |cleared| == |input|
    requires forall k: nat :: k < |input| && !Recomputed(IsTcp(hdr), isV6, hdr.csumStart, k) ==> cleared[k] == input[k]
    ensures Rejoinable(cleared, hdr, isV6, canUdpGro)
  {
  }

  lemma PassedSound(hdr: VirtioNetHdr, input: seq<byte>, plan: Plan)
    requires |input| > 0 && Passed(hdr, input, plan) && WholeHeaders(hdr, input) && plan.hdr.gsoSize > 0
    ensures plan.Split? && Sound(plan.input, plan.hdr, plan.isV6)
  {
  }

  lemma LargeUncleared(le: bool, frame: seq<byte>, n: nat, input: seq<byte>, cleared: seq<byte>, hdr: VirtioNetHdr,
          isV6: bool)
    requires LargeAgain(le, frame, n, cleared, hdr, isV6) && |cleared| == |input|
    requires forall k: nat :: k < |input| && !Recomputed(IsTcp(hdr), isV6, hdr.csumStart, k) ==> cleared[k] == input[k]
    ensures LargeAgain(le, frame, n, input, hdr, isV6)
  {
    hide IpValid, TransportValid, Splittable, Encode;
  }

  /** A batch whose packets ps, one flow, are those of a read in order, the first in a buffer with room for all. */
  ghost predicate HandsBack(le: bool, read: seq<byte>, inp: Input, ps: seq<nat>)
    requires Readable(le, read) && PlanRead(le, read).Split?
  {
    && Good(inp, |inp.bufs|) && |ps| == |Packets(le, read)|
    && (forall j :: 0 <= j < |ps| ==> ps[j] < |inp.bufs| && Pkt(inp, ps[j]) == Packets(le, read)[j])
    && (ps != [] ==> WholeFlow(inp, ps) && 2 * inp.offset + |PlanRead(le, read).input| <= inp.bufs[ps[0]].cap)
  }

  lemma HandedSegments(le: bool, read: seq<byte>, inp: Input, ps: seq<nat>)
    requires Readable(le, read) && PlanRead(le, read).Split? && HandsBack(le, read, inp, ps)
    requires var p := PlanRead(le, read); Sound(p.input, p.hdr, p.isV6) && p.hdr.hdrLen < |p.input|
    ensures var p := PlanRead(le, read);
            Sound(SplitInput(p), p.hdr, p.isV6) ==> SegmentsAt(inp, ps, SplitInput(p), p.hdr, p.isV6)
    ensures ps != []
  {
    hide Trusted, PlanRead, Segment, Cleared, Sound, Good, Pkt, WholeFlow;
    var p := PlanRead(le, read);
    CountBounds(p.input, p.hdr);
  }

  /** The plan of a read that is split, and the packet that gsoSplit works on. */
  lemma ReadSound(le: bool, read: seq<byte>) returns (p: Plan, cleared: seq<byte>)
    requires Readable(le, read) && PlanRead(le, read).Split?
    ensures Trusted(le, read) && p == PlanRead(le, read) && p.Split?
    ensures Sound(p.input, p.hdr, p.isV6) && Splittable(p.input, p.hdr, p.isV6) && cleared == SplitInput(p)
    ensures Ready(cleared, p.hdr, p.isV6) && |cleared| == |p.input|
    ensures forall k: nat :: k < |p.input| && !Recomputed(IsTcp(p.hdr), p.isV6, p.hdr.csumStart, k) ==>
        cleared[k] == p.input[k]
  {
    hide Cleared, PlanSplit, Passed, WholeHeaders, Decode, Sound, Ready, Recomputed;
    PlannedSplit(le, read);
    var hdr, input := Decode(le, read), read[VIRTIO_NET_HDR_LEN..];
    ChecksExact(hdr, input);
    PassedSound(hdr, input, PlanRead(le, read));
    p := PlanRead(le, read);
    cleared := SplitInput(p);
    ClearedBytes(p.input, p.hdr, p.isV6);
    ClearedReady(p.input, p.hdr, p.isV6);
  }

  lemma TakesPayload(input: seq<byte>, hdr: VirtioNetHdr, isV6: bool, canUdpGro: bool)
    requires Sound(input, hdr, isV6) && GroTakes(input, hdr, isV6, canUdpGro)
    ensures Rejoinable(input, hdr, isV6, canUdpGro) && hdr.hdrLen < |input|
  {
    hide Sound;
  }

  lemma RejoinsFrom(le: bool, read: seq<byte>, inp: Input, ps: seq<nat>, cleared: seq<byte>)
    requires Readable(le, read) && PlanRead(le, read).Split? && HandsBack(le, read, inp, ps) && ps != []
    requires var p := PlanRead(le, read);
             && Ready(cleared, p.hdr, p.isV6) && Rejoinable(cleared, p.hdr, p.isV6, inp.canUdpGro)
             && Sound(cleared, p.hdr, p.isV6) && SegmentsAt(inp, ps, cleared, p.hdr, p.isV6)
             && |cleared| == |p.input|
    ensures var p := PlanRead(le, read); Rejoins(inp, ps, cleared, p.hdr, p.isV6)
  {
    hide Readable, PlanRead, Packets, Ready, Rejoinable, Sound, SegmentsAt, Good, Pkt, WholeFlow;
  }

  /**
   From device to device: what handleVirtioRead makes of a large packet, handed to handleGRO in
   order among other traffic, is written as the large packet again.
   */
  lemma ReadRejoins(le: bool, read: seq<byte>, inp: Input, ps: seq<nat>, after: seq<Buf>, toWrite: seq<nat>)
    requires Readable(le, read) && PlanRead(le, read).Split? && HandsBack(le, read, inp, ps)
    requires var p := PlanRead(le, read); GroTakes(p.input, p.hdr, p.isV6, inp.canUdpGro)
    requires Handled(le, inp, after, toWrite)
    ensures ps != [] && ps[0] in toWrite && ps[0] < |after| && (ps == UpTo(|inp.bufs|) ==> toWrite == [0])
    ensures VIRTIO_NET_HDR_LEN <= inp.offset <= |after[ps[0]].data|
    ensures var p := PlanRead(le, read);
            LargeAgain(le, Frame(after[ps[0]].data, inp.offset), |ps|, p.input, p.hdr, p.isV6)
  {
    hide *;
    var p, cleared := ReadSound(le, read);
    TakesPayload(p.input, p.hdr, p.isV6, inp.canUdpGro);
    SameRejoinable(p.input, cleared, p.hdr, p.isV6, inp.canUdpGro);
    SoundSplits(cleared, p.hdr, p.isV6, inp.canUdpGro);
    HandedSegments(le, read, inp, ps);
    RejoinsFrom(le, read, inp, ps, cleared);
    FrameRejoins(le, inp, ps, cleared, p.hdr, p.isV6, after, toWrite);
    LargeUncleared(le, Frame(after[ps[0]].data, inp.offset), |ps|, p.input, cleared, p.hdr, p.isV6);
  }
}
