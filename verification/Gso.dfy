/**
 Generic segmentation offload as a function of values: the packets that handleVirtioRead
 makes of one read from the device, and what every one of them is.
 */
module Gso {
  import opened Bytes
  import opened ChecksumSpec
  import opened FastChecksum
  import opened Packet

  datatype ReadError =
    | ShortBuffer | UnsupportedGsoType | VersionMismatch | InvalidVersion | PacketTooShort | InvalidTcpHeaderLen
    | ShorterThanHeaders | HdrLenBelowCsumStart | CsumBeyondPacket | BufferOverflow | TooManySegments

  // ---- one segment --------------------------------------------------------------------

  /** flags &^ (FIN | PSH) */
  function WithoutFinPsh(flags: byte): byte {
    flags - flags % 2 - flags / 0x08 % 2 * 0x08
  }

  /** The packet with its IPv4 and transport checksums cleared. */
  function Cleared(input: seq<byte>, csumAt: nat, isV6: bool): (r: seq<byte>)
    requires csumAt + 2 <= |input| && 12 <= |input|
    ensures |r| == |input|
  {
    PutBE16(if isV6 then input else PutBE16(input, 10, 0), csumAt, 0)
  }

  /** Segment i's IP header: its ID, length and header checksum. */
  function PatchIp(seg: seq<byte>, isV6: bool, iphLen: nat, i: nat): (r: seq<byte>)
    requires iphLen <= |seg| && iphLen >= if isV6 then 40 else 20
    ensures |r| == |seg|
  {
    if isV6 then PutBE16(seg, 4, U16(|seg| - iphLen))
    else
      var id := if i > 0 then PutBE16(seg, 4, U16(BE16(seg, 4) + U16(i))) else seg;
      var len := PutBE16(id, 2, U16(|seg|));
      PutBE16(len, 10, 0xffff - OnesFold(WordSum(len[..iphLen])))
  }

  /** Segment i's TCP sequence number, and its flags unless it is the last one. */
  function PatchTcp(seg: seq<byte>, start: nat, first: u32, gsoSize: u16, i: nat, last: bool): (r: seq<byte>)
    requires start + 20 <= |seg|
    ensures |r| == |seg|
  {
    var s := PutBE32(seg, start + 4, U32(first + U16(gsoSize as int * U16(i))));
    if last then s else s[start + TCP_FLAGS_OFFSET := WithoutFinPsh(s[start + TCP_FLAGS_OFFSET])]
  }

  /** A segment's UDP length. */
  function PatchUdp(seg: seq<byte>, start: nat, hdrLen: nat): (r: seq<byte>)
    requires start + 8 <= hdrLen <= |seg|
    ensures |r| == |seg|
  {
    PutBE16(seg, start + 4, U16(U16(|seg| - hdrLen) + U16(hdrLen - start)))
  }

  /** A segment's transport checksum, from the addresses src and dst. */
  function PatchCsum(seg: seq<byte>, start: nat, csumAt: nat, proto: byte, src: seq<byte>,
          dst: seq<byte>): (r: seq<byte>)
    requires start <= csumAt && csumAt + 2 <= |seg|
    ensures |r| == |seg|
  {
    PutBE16(seg, csumAt, 0xffff - OnesFold(PseudoSum(proto, src, dst, U16(|seg| - start)) + WordSum(seg[start..])))
  }

  predicate IsTcp(hdr: VirtioNetHdr) {
    hdr.gsoType == GSO_TCPV4 || hdr.gsoType == GSO_TCPV6
  }

  /**
   What gsoSplit needs: whole headers within the packet, a transport header right after an
   IP header of its version's size or more, and the checksum where the protocol has it.
   */
  predicate Splittable(input: seq<byte>, hdr: VirtioNetHdr, isV6: bool) {
    && hdr.csumStart >= (if isV6 then 40 else 20)
    && hdr.csumOffset == (if IsTcp(hdr) then 16 else 6)
    && hdr.csumStart as nat + (if IsTcp(hdr) then 20 else 8) <= hdr.hdrLen <= |input| <= 0xffff
  }

  /** Where segment i's payload begins and ends in the packet. */
  function From(hdr: VirtioNetHdr, i: nat): nat {
    hdr.hdrLen + i * hdr.gsoSize
  }

  function To(input: seq<byte>, hdr: VirtioNetHdr, i: nat): nat {
    if From(hdr, i) + hdr.gsoSize > |input| then |input| else From(hdr, i) + hdr.gsoSize
  }

  /** Segment i of the cleared packet input. */
  function Segment(input: seq<byte>, hdr: VirtioNetHdr, isV6: bool, i: nat): seq<byte>
    requires Splittable(input, hdr, isV6) && From(hdr, i) <= |input|
  {
    var start := hdr.csumStart as nat;
    var raw := input[..hdr.hdrLen] + input[From(hdr, i)..To(input, hdr, i)];
    var ip := PatchIp(raw, isV6, start, i);
    var transport :=
      if IsTcp(hdr) then PatchTcp(ip, start, BE32(input, start + 4), hdr.gsoSize, i, To(input, hdr, i) == |input|)
      else PatchUdp(ip, start, hdr.hdrLen);
    PatchCsum(transport, start, start + hdr.csumOffset, if IsTcp(hdr) then PROTO_TCP else PROTO_UDP,
              SrcAddr(input, isV6), DstAddr(input, isV6))
  }

  /** How many segments a packet makes: ceil(payload / gsoSize). */
  function Count(input: seq<byte>, hdr: VirtioNetHdr): nat
    requires hdr.hdrLen <= |input| && hdr.gsoSize > 0
  {
    (|input| - hdr.hdrLen + hdr.gsoSize - 1) / hdr.gsoSize
  }

  function Segments(input: seq<byte>, hdr: VirtioNetHdr, isV6: bool, n: nat): (r: seq<seq<byte>>)
    requires Splittable(input, hdr, isV6)
    requires forall i :: 0 <= i < n ==> From(hdr, i) <= |input|
  {
    seq(n, i requires 0 <= i < n => Segment(input, hdr, isV6, i))
  }

  // ---- the whole read -----------------------------------------------------------------

  /** gsoNoneChecksum: completes a partial checksum left at csumStart + csumOffset. */
  function GsoNoneChecksum(input: seq<byte>, csumStart: u16, csumOffset: u16): (r: seq<byte>)
    requires U16(csumStart + csumOffset) as nat + 2 <= |input| && csumStart <= |input|
    ensures |r| == |input|
  {
    var at := U16(csumStart + csumOffset);
    var initial := BE16(input, at);
    var zeroed := PutBE16(input, at, 0);
    PutBE16(zeroed, at, 0xffff - OnesFold(initial + WordSum(zeroed[csumStart..])))
  }

  /** What handleVirtioRead decides to do with a read. */
  datatype Plan =
    | Fail(error: ReadError)
    | Deliver(packet: seq<byte>)
    | Split(input: seq<byte>, hdr: VirtioNetHdr, isV6: bool)

  /** The header length that handleVirtioRead trusts: parsed from the packet, in 16 bits. */
  function HdrLenOf(hdr: VirtioNetHdr, input: seq<byte>): u16
    requires IsTcp(hdr) ==> U16(hdr.csumStart + 12) < |input|
  {
    if IsTcp(hdr) then U16(hdr.csumStart + input[U16(hdr.csumStart + 12)] / 0x10 * 4) else U16(hdr.csumStart + 8)
  }

  /** The validation of a segmented packet, after its virtio header. */
  function PlanSplit(hdr: VirtioNetHdr, input: seq<byte>): Plan
    requires |input| > 0
  {
    var version := input[0] / 0x10;
    if version != 4 && version != 6 then Fail(InvalidVersion)
    else if hdr.gsoType != GSO_UDP_L4
        && hdr.gsoType != (if version == 4 then GSO_TCPV4 else GSO_TCPV6) then Fail(VersionMismatch)
    else if IsTcp(hdr) && |input| <= U16(hdr.csumStart + 12) then Fail(PacketTooShort)
    else if IsTcp(hdr) && input[U16(hdr.csumStart + 12)] / 0x10 * 4 < 20 then Fail(InvalidTcpHeaderLen)
    else
      var h := hdr.(hdrLen := HdrLenOf(hdr, input));
      if |input| < h.hdrLen then Fail(ShorterThanHeaders)
      else if h.hdrLen < h.csumStart then Fail(HdrLenBelowCsumStart)
      else if U16(h.csumStart + h.csumOffset) + 1 >= |input| then Fail(CsumBeyondPacket)
      else Split(input, h, version == 6)
  }

  /** A segmented packet of at most 65535 bytes, its checksum offsets where its protocol has them. */
  predicate Placed(hdr: VirtioNetHdr, input: seq<byte>) {
    && 0 < |input| <= 0xffff
    && hdr.csumStart >= (if input[0] / 0x10 == 6 then 40 else 20)
    && hdr.csumOffset == (if IsTcp(hdr) then 16 else 6)
  }

  /** A known version, a segment type that goes with it, and whole headers, in exact arithmetic. */
  predicate WholeHeaders(hdr: VirtioNetHdr, input: seq<byte>)
    requires |input| > 0
  {
    var version, start := input[0] / 0x10, hdr.csumStart as nat;
    && (version == 4 || version == 6)
    && (hdr.gsoType == GSO_UDP_L4 || hdr.gsoType == if version == 4 then GSO_TCPV4 else GSO_TCPV6)
    && if IsTcp(hdr) then start + 12 < |input| && 20 <= input[start + 12] / 0x10 * 4 <= |input| - start
       else start + 8 <= |input|
  }

  /** The checksum field lies within the packet, as far as 16-bit arithmetic can tell. */
  predicate CsumWithin(hdr: VirtioNetHdr, input: seq<byte>) {
    U16(hdr.csumStart + hdr.csumOffset) + 1 < |input|
  }

  /**
   The checks, done in 16 bits, pass exactly the packets that have whole headers and a checksum
   field within: no wrap-around lets a shorter one through. The header length is then exact. With
   its offsets where the protocol has them, a packet that has passed meets all gsoSplit relies on.
   */
  lemma ChecksExact(hdr: VirtioNetHdr, input: seq<byte>)
    requires 0 < |input| <= 0xffff
    ensures PlanSplit(hdr, input).Split? <==> WholeHeaders(hdr, input) && CsumWithin(hdr, input)
    ensures PlanSplit(hdr, input).Split? ==> Measured(hdr, input, PlanSplit(hdr, input))
    ensures Placed(hdr, input) && WholeHeaders(hdr, input) ==>
        CsumWithin(hdr, input) && Passed(hdr, input, PlanSplit(hdr, input))
  {
    if IsTcp(hdr) {
      TcpChecks(hdr, input);
    } else {
      UdpChecks(hdr, input);
    }
    hide PlanSplit, WholeHeaders, CsumWithin, U16;
  }

  lemma TcpChecks(hdr: VirtioNetHdr, input: seq<byte>)
    requires 0 < |input| <= 0xffff && IsTcp(hdr)
    ensures PlanSplit(hdr, input).Split? <==> WholeHeaders(hdr, input) && CsumWithin(hdr, input)
    ensures PlanSplit(hdr, input).Split? ==> Measured(hdr, input, PlanSplit(hdr, input))
    ensures Placed(hdr, input) && WholeHeaders(hdr, input) ==> CsumWithin(hdr, input)
  {
    hide U16;
    var start := hdr.csumStart;
    NoWrap(start, 12);
    var at := U16(start as int + 12);
    if at < |input| {
      NoWrap(start, input[at] as int / 0x10 * 4);
    }
    NoWrap(start, hdr.csumOffset);
  }

  /** Sixteen bits are enough for an offset that does not come out below where it started. */
  lemma NoWrap(start: u16, n: u16)
    ensures U16(start as int + n) >= start <==> start as int + n < TWO16
    ensures U16(start as int + n) == start as int + n - if start as int + n < TWO16 then 0 else TWO16
  {
  }

  lemma UdpChecks(hdr: VirtioNetHdr, input: seq<byte>)
    requires 0 < |input| <= 0xffff && !IsTcp(hdr)
    ensures PlanSplit(hdr, input).Split? <==> WholeHeaders(hdr, input) && CsumWithin(hdr, input)
    ensures PlanSplit(hdr, input).Split? ==> Measured(hdr, input, PlanSplit(hdr, input))
    ensures Placed(hdr, input) && WholeHeaders(hdr, input) ==> CsumWithin(hdr, input)
  {
  }

  /** A packet that has passed the checks, with the header length that it really has. */
  predicate Measured(hdr: VirtioNetHdr, input: seq<byte>, plan: Plan) {
    && plan.Split? && plan.input == input && |input| > 0
    && plan.isV6 == (input[0] / 0x10 == 6)
    && plan.hdr == hdr.(hdrLen := plan.hdr.hdrLen) && plan.hdr.hdrLen <= |input|
    && (IsTcp(hdr) ==> hdr.csumStart as nat + 12 < |input|)
    && plan.hdr.hdrLen == hdr.csumStart as nat + if IsTcp(hdr) then input[hdr.csumStart + 12] / 0x10 * 4 else 8
  }

  /** A packet that has passed the checks with its offsets in place. */
  predicate Passed(hdr: VirtioNetHdr, input: seq<byte>, plan: Plan) {
    && Measured(hdr, input, plan)
    && Splittable(input, plan.hdr, plan.isV6)
    && hdr.csumStart as nat + hdr.csumOffset + 2 <= plan.hdr.hdrLen
  }

  /** What the code takes on trust from the kernel. */
  predicate Trusted(le: bool, read: seq<byte>) {
    |read| >= VIRTIO_NET_HDR_LEN ==>
      var hdr, input := Decode(le, read), read[VIRTIO_NET_HDR_LEN..];
      && |input| <= 0xffff
      && (hdr.gsoType == GSO_NONE && hdr.flags % 2 == NEEDS_CSUM ==>
            U16(hdr.csumStart + hdr.csumOffset) as nat + 2 <= |input| && hdr.csumStart <= |input|)
      && (hdr.gsoType in {GSO_TCPV4, GSO_TCPV6, GSO_UDP_L4} ==> Placed(hdr, input))
  }

  function PlanRead(le: bool, read: seq<byte>): Plan
    requires Trusted(le, read)
  {
    if |read| < VIRTIO_NET_HDR_LEN then Fail(ShortBuffer)
    else
      var hdr, input := Decode(le, read), read[VIRTIO_NET_HDR_LEN..];
      if hdr.gsoType == GSO_NONE then
        Deliver(if hdr.flags % 2 == NEEDS_CSUM then GsoNoneChecksum(input, hdr.csumStart, hdr.csumOffset) else input)
      else if hdr.gsoType !in {GSO_TCPV4, GSO_TCPV6, GSO_UDP_L4} then Fail(UnsupportedGsoType)
      else PlanSplit(hdr, input)
  }

  /** A planned split has passed all the checks gsoSplit relies on. */
  lemma PlannedSplit(le: bool, read: seq<byte>)
    requires Trusted(le, read) && PlanRead(le, read).Split?
    ensures |read| > VIRTIO_NET_HDR_LEN
    ensures Passed(Decode(le, read), read[VIRTIO_NET_HDR_LEN..], PlanRead(le, read))
  {
    hide PlanSplit, Passed, WholeHeaders, Decode;
    ChecksExact(Decode(le, read), read[VIRTIO_NET_HDR_LEN..]);
  }

  /** The packet that gsoSplit works on: the planned input with its checksums cleared. */
  function SplitInput(p: Plan): (r: seq<byte>)
    requires p.Split? && Splittable(p.input, p.hdr, p.isV6)
    ensures |r| == |p.input| && Splittable(r, p.hdr, p.isV6)
  {
    Cleared(p.input, p.hdr.csumStart as nat + p.hdr.csumOffset, p.isV6)
  }

  /** The packets a read delivers, given buffers enough. */
  function Packets(le: bool, read: seq<byte>): (r: seq<seq<byte>>)
    requires Trusted(le, read) && !PlanRead(le, read).Fail?
    requires PlanRead(le, read).Split? ==> PlanRead(le, read).hdr.gsoSize > 0
  {
    match PlanRead(le, read)
    case Deliver(packet) => [packet]
    case Split(input, hdr, isV6) =>
      PlannedSplit(le, read);
      CountBounds(input, hdr);
      Segments(SplitInput(PlanRead(le, read)), hdr, isV6, Count(input, hdr))
  }

  /** The last segment begins within the packet and ends at its end. */
  lemma CountBounds(input: seq<byte>, hdr: VirtioNetHdr)
    requires hdr.hdrLen <= |input| && hdr.gsoSize > 0
    ensures var n := Count(input, hdr);
            && From(hdr, n) >= |input|
            && (n > 0 ==> From(hdr, n - 1) < |input| && To(input, hdr, n - 1) == |input|)
            && (n == 0 <==> |input| == hdr.hdrLen)
            && forall i :: 0 <= i < n ==> From(hdr, i) < |input|
  {
  }
}
