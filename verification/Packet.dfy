/**
 What the offload code reads in a packet: the virtio network header, the classification of
 GRO candidates, flow keys, and the comparison of headers.
 */
module Packet {
  import opened Bytes
  import opened ChecksumSpec
  import opened FastChecksum
  import opened Options

  const PROTO_TCP: byte := 6
  const PROTO_UDP: byte := 17

  const TCP_FLAGS_OFFSET: nat := 13
  const FLAG_PSH: byte := 0x08
  const FLAG_ACK: byte := 0x10

  const UDPH_LEN: nat := 8

  // ---- the virtio network header ------------------------------------------------------

  const VIRTIO_NET_HDR_LEN: nat := 10
  const NEEDS_CSUM: byte := 1
  const GSO_NONE: byte := 0
  const GSO_TCPV4: byte := 1
  const GSO_TCPV6: byte := 4
  const GSO_UDP_L4: byte := 5

  datatype VirtioNetHdr = VirtioNetHdr(
    flags: byte, gsoType: byte, hdrLen: u16, gsoSize: u16, csumStart: u16, csumOffset: u16)

  function NativeBytes16(le: bool, v: u16): (b: seq<byte>)
    ensures |b| == 2
  {
    if le then [v % 0x100, v / 0x100] else [v / 0x100, v % 0x100]
  }

  /** The ten bytes of the header as the host lays them out. */
  function Encode(le: bool, h: VirtioNetHdr): (b: seq<byte>)
    ensures |b| == VIRTIO_NET_HDR_LEN
  {
    [h.flags, h.gsoType] + NativeBytes16(le, h.hdrLen) + NativeBytes16(le, h.gsoSize)
    + NativeBytes16(le, h.csumStart) + NativeBytes16(le, h.csumOffset)
  }

  function Decode(le: bool, b: seq<byte>): VirtioNetHdr
    requires |b| >= VIRTIO_NET_HDR_LEN
  {
    VirtioNetHdr(b[0], b[1], Native16(le, b, 2), Native16(le, b, 4), Native16(le, b, 6), Native16(le, b, 8))
  }

  /** Decoding gives back what was encoded, on either kind of host, whatever follows it. */
  lemma EncodeDecode(le: bool, h: VirtioNetHdr, rest: seq<byte>)
    ensures Decode(le, Encode(le, h) + rest) == h
  {
  }

  /** Ten zero bytes are the zero header. */
  lemma ZerosDecode(le: bool, rest: seq<byte>)
    ensures Decode(le, Zeros(VIRTIO_NET_HDR_LEN) + rest) == VirtioNetHdr(0, GSO_NONE, 0, 0, 0, 0)
  {
  }

  // ---- packets ------------------------------------------------------------------------

  datatype Candidate = NotCandidate | Tcp4 | Tcp6 | Udp4 | Udp6

  function PacketIsGroCandidate(b: seq<byte>, canUdpGro: bool): Candidate {
    if |b| < 28 then NotCandidate
    else if b[0] / 0x10 == 4 then
      if b[0] % 0x10 != 5 then NotCandidate
      else if b[9] == PROTO_TCP && |b| >= 40 then Tcp4
      else if b[9] == PROTO_UDP && canUdpGro then Udp4
      else NotCandidate
    else if b[0] / 0x10 == 6 then
      if b[6] == PROTO_TCP && |b| >= 60 then Tcp6
      else if b[6] == PROTO_UDP && |b| >= 48 && canUdpGro then Udp6
      else NotCandidate
    else NotCandidate
  }

  function SrcAddrOffset(isV6: bool): nat { if isV6 then 8 else 12 }

  function AddrLen(isV6: bool): nat { if isV6 then 16 else 4 }

  function SrcAddr(pkt: seq<byte>, isV6: bool): (a: seq<byte>)
    requires |pkt| >= if isV6 then 40 else 20
    ensures |a| == AddrLen(isV6)
  {
    pkt[SrcAddrOffset(isV6)..SrcAddrOffset(isV6) + AddrLen(isV6)]
  }

  function DstAddr(pkt: seq<byte>, isV6: bool): (a: seq<byte>)
    requires |pkt| >= if isV6 then 40 else 20
    ensures |a| == AddrLen(isV6)
  {
    pkt[SrcAddrOffset(isV6) + AddrLen(isV6)..SrcAddrOffset(isV6) + 2 * AddrLen(isV6)]
  }

  datatype FlowKey =
    | TcpKey(srcAddr: seq<byte>, dstAddr: seq<byte>, srcPort: u16, dstPort: u16, rxAck: u32, isV6: bool)
    | UdpKey(srcAddr: seq<byte>, dstAddr: seq<byte>, srcPort: u16, dstPort: u16, isV6: bool)

  /** A key's sixteen address bytes: the address, then zeros. */
  function Padded(addr: seq<byte>): seq<byte> {
    addr + Zeros(if |addr| <= 16 then 16 - |addr| else 0)
  }

  function NewTcpFlowKey(pkt: seq<byte>, isV6: bool, tcphOffset: nat): FlowKey
    requires |pkt| >= tcphOffset + 12 && |pkt| >= if isV6 then 40 else 20
  {
    TcpKey(Padded(SrcAddr(pkt, isV6)), Padded(DstAddr(pkt, isV6)),
           BE16(pkt, tcphOffset), BE16(pkt, tcphOffset + 2), BE32(pkt, tcphOffset + 8), isV6)
  }

  function NewUdpFlowKey(pkt: seq<byte>, isV6: bool, udphOffset: nat): FlowKey
    requires |pkt| >= udphOffset + 4 && |pkt| >= if isV6 then 40 else 20
  {
    UdpKey(Padded(SrcAddr(pkt, isV6)), Padded(DstAddr(pkt, isV6)),
           BE16(pkt, udphOffset), BE16(pkt, udphOffset + 2), isV6)
  }

  /** tcpGROItem and udpGROItem. */
  datatype Item =
    | TcpItem(key: FlowKey, sentSeq: u32, bufsIndex: u16, numMerged: u16, gsoSize: u16,
              iphLen: byte, tcphLen: byte, pshSet: bool)
    | UdpItem(key: FlowKey, bufsIndex: u16, numMerged: u16, gsoSize: u16, iphLen: byte, cSumKnownInvalid: bool)
  {
    function HdrLen(): nat {
      iphLen + if TcpItem? then tcphLen else UDPH_LEN
    }

    function Proto(): byte {
      if TcpItem? then PROTO_TCP else PROTO_UDP
    }

    function CsumOffset(): u16 {
      if TcpItem? then 16 else 6
    }
  }

  function IphLen(pkt: seq<byte>, isV6: bool): nat
    requires |pkt| > 0
  {
    if isV6 then 40 else pkt[0] % 0x10 * 4
  }

  /** The IP length field names the packet's real length. */
  predicate LengthMatches(pkt: seq<byte>, isV6: bool)
    requires |pkt| >= 20
  {
    if isV6 then BE16(pkt, 4) == |pkt| - 40 else BE16(pkt, 2) == |pkt|
  }

  /** The more-fragments flag or a fragment offset is set. */
  predicate Fragmented(pkt: seq<byte>)
    requires |pkt| >= 8
  {
    pkt[6] / 0x20 % 2 != 0 || pkt[6] as int * 8 % 0x100 != 0 || pkt[7] != 0
  }

  /** The item tcpGRO would store for pkt, or None where it takes no action. */
  function TcpCandidateItem(pkt: seq<byte>, isV6: bool, pktI: nat): Option<Item>
    requires |pkt| >= (if isV6 then 60 else 40) && (!isV6 ==> pkt[0] % 0x10 == 5)
  {
    var iphLen := IphLen(pkt, isV6);
    if |pkt| > 0xffff || !LengthMatches(pkt, isV6) || |pkt| < iphLen then None
    else
      var tcphLen := pkt[iphLen + 12] / 0x10 * 4;
      var flags := pkt[iphLen + TCP_FLAGS_OFFSET];
      if tcphLen < 20 || tcphLen > 60 || |pkt| < iphLen + tcphLen then None
      else if !isV6 && Fragmented(pkt) then None
      else if flags != FLAG_ACK && flags != FLAG_ACK + FLAG_PSH then None
      else if |pkt| - tcphLen - iphLen < 1 then None
      else Some(TcpItem(NewTcpFlowKey(pkt, isV6, iphLen), BE32(pkt, iphLen + 4), U16(pktI), 0,
                        |pkt| - tcphLen - iphLen, iphLen, tcphLen, flags == FLAG_ACK + FLAG_PSH))
  }

  /** The item udpGRO would store for pkt, or None where it takes no action. */
  function UdpCandidateItem(pkt: seq<byte>, isV6: bool, pktI: nat): Option<Item>
    requires |pkt| >= if isV6 then 48 else 28
  {
    var iphLen := IphLen(pkt, isV6);
    if |pkt| > 0xffff || !LengthMatches(pkt, isV6) || |pkt| < iphLen + UDPH_LEN then None
    else if !isV6 && Fragmented(pkt) then None
    else if |pkt| - UDPH_LEN - iphLen < 1 then None
    else Some(UdpItem(NewUdpFlowKey(pkt, isV6, iphLen), U16(pktI), 0, |pkt| - UDPH_LEN - iphLen, iphLen, false))
  }

  /** The item packet pktI of a batch would be stored as, when it is a GRO candidate at all. */
  function Classify(pkt: seq<byte>, canUdpGro: bool, pktI: nat): Option<Item> {
    match PacketIsGroCandidate(pkt, canUdpGro)
    case NotCandidate => None
    case Tcp4 => TcpCandidateItem(pkt, false, pktI)
    case Tcp6 => TcpCandidateItem(pkt, true, pktI)
    case Udp4 => UdpCandidateItem(pkt, false, pktI)
    case Udp6 => UdpCandidateItem(pkt, true, pktI)
  }

  /** What a classified packet looks like: fixed IP header, whole headers, a payload of gsoSize bytes. */
  lemma {:induction false} Classified(pkt: seq<byte>, canUdpGro: bool, pktI: nat)
    requires Classify(pkt, canUdpGro, pktI).Some? && pktI < TWO16
    ensures var item := Classify(pkt, canUdpGro, pktI).value;
            && item.bufsIndex == pktI && item.numMerged == 0
            && item.iphLen == (if item.key.isV6 then 40 else 20)
            && item.TcpItem? == item.key.TcpKey?
            && (if item.TcpItem? then 20 <= item.tcphLen <= 60 else !item.cSumKnownInvalid)
            && |pkt| == item.HdrLen() + item.gsoSize && item.gsoSize >= 1 && |pkt| <= 0xffff
            && pkt[0] / 0x10 == if item.key.isV6 then 6 else 4
  {
  }

  // ---- comparing headers --------------------------------------------------------------

  predicate IpHeadersCanCoalesce(pktA: seq<byte>, pktB: seq<byte>) {
    if |pktA| < 9 || |pktB| < 9 then false
    else if pktA[0] / 0x10 == 6 then
      pktA[0] == pktB[0] && pktA[1] / 0x10 == pktB[1] / 0x10 && pktA[7] == pktB[7]
    else
      pktA[1] == pktB[1] && pktA[6] / 0x20 == pktB[6] / 0x20 && pktA[8] == pktB[8]
  }

  /**
   The header bytes that coalescing keeps for every packet it merges: all of the headers but
   the lengths, the IPv4 ID, the IPv6 flow label and the checksums, and in TCP the sequence
   number, the reserved bits beside the data offset, the flags (byte 13), the window and the
   urgent pointer. The traffic class and the data offset are kept too, as half bytes.
   */
  predicate Stable(tcp: bool, isV6: bool, pos: nat) {
    var iphLen := if isV6 then 40 else 20;
    if pos < iphLen then
      if isV6 then pos == 0 || 6 <= pos
      else pos <= 1 || 6 <= pos <= 9 || 12 <= pos
    else
      var t := pos - iphLen;
      t < 4 || (tcp && (8 <= t < 12 || 20 <= t))
  }

  /** Two packets of a flow whose first hdrLen bytes agree wherever coalescing keeps them. */
  ghost predicate HeadersAgree(tcp: bool, isV6: bool, hdrLen: nat, a: seq<byte>, b: seq<byte>)
    requires hdrLen >= (if isV6 then 40 else 20) + (if tcp then 20 else 8)
  {
    && hdrLen <= |a| && hdrLen <= |b|
    && (forall pos :: 0 <= pos < hdrLen && Stable(tcp, isV6, pos) ==> a[pos] == b[pos])
    && (isV6 ==> a[1] / 0x10 == b[1] / 0x10)
    && (tcp ==> var at := if isV6 then 52 else 32; a[at] / 0x10 == b[at] / 0x10)
  }

  /** Equal keys mean equal addresses, ports and, for TCP, acknowledgements. */
  lemma PaddedInjective(a: seq<byte>, b: seq<byte>)
    requires |a| == |b| <= 16 && Padded(a) == Padded(b)
    ensures a == b
  {
    assert a == Padded(a)[..|a|];
    assert b == Padded(b)[..|b|];
  }

  /** What classification has read of a packet's headers. */
  lemma ClassifiedHeaders(pkt: seq<byte>, canUdpGro: bool, pktI: nat)
    requires Classify(pkt, canUdpGro, pktI).Some? && pktI < TWO16
    ensures var item := Classify(pkt, canUdpGro, pktI).value;
            && (if item.key.isV6 then |pkt| >= 48 && pkt[6] == item.Proto()
                else |pkt| >= 28 && pkt[0] == 0x45 && pkt[9] == item.Proto() && pkt[6] % 0x20 == 0 && pkt[7] == 0)
            && LengthMatches(pkt, item.key.isV6)
            && var h := if item.key.isV6 then 40 else 20;
               if item.TcpItem? then
                 && |pkt| >= h + 20
                 && item.key == NewTcpFlowKey(pkt, item.key.isV6, h)
                 && item.sentSeq == BE32(pkt, h + 4)
                 && item.tcphLen == pkt[h + 12] / 0x10 * 4
                 && pkt[h + 13] == if item.pshSet then FLAG_ACK + FLAG_PSH else FLAG_ACK
               else
                 |pkt| >= h + 8 && item.key == NewUdpFlowKey(pkt, item.key.isV6, h)
  {
    hide Padded, BE32;
  }

  /**
   Packets that classify under one key, with equal TCP header lengths and options and
   coalescible IP headers, agree on every byte that coalescing keeps.
   */
  lemma SameFlowAgrees(a: seq<byte>, b: seq<byte>, canUdpGro: bool, i: nat, j: nat)
    requires i < TWO16 && j < TWO16
    requires Classify(a, canUdpGro, i).Some? && Classify(b, canUdpGro, j).Some?
    requires var x, y := Classify(a, canUdpGro, i).value, Classify(b, canUdpGro, j).value;
             && x.key == y.key
             && x.HdrLen() == y.HdrLen() <= |a| && x.HdrLen() <= |b|
             && (x.TcpItem? ==>
                   && x.iphLen + 20 <= x.HdrLen()
                   && a[x.iphLen + 20..x.HdrLen()] == b[x.iphLen + 20..x.HdrLen()])
    requires IpHeadersCanCoalesce(a, b)
    ensures var x := Classify(a, canUdpGro, i).value;
            && x.HdrLen() >= (if x.key.isV6 then 40 else 20) + (if x.TcpItem? then 20 else 8)
            && HeadersAgree(x.TcpItem?, x.key.isV6, x.HdrLen(), a, b)
  {
    hide Classify, HeadersAgree, LengthMatches, NewTcpFlowKey, NewUdpFlowKey, IpHeadersCanCoalesce;
    Classified(a, canUdpGro, i);
    Classified(b, canUdpGro, j);
    ClassifiedHeaders(a, canUdpGro, i);
    ClassifiedHeaders(b, canUdpGro, j);
    var x := Classify(a, canUdpGro, i).value;
    KeysAgree(a, b, x.key.isV6, x.iphLen, x.TcpItem?);
    HeadersFromParts(a, b, x.TcpItem?, x.key.isV6, x.HdrLen());
  }

  /** Equal keys come from equal addresses, ports and acknowledgements. */
  lemma KeysAgree(a: seq<byte>, b: seq<byte>, isV6: bool, h: nat, tcp: bool)
    requires h == (if isV6 then 40 else 20) && h + (if tcp then 20 else 8) <= |a| && h + (if tcp then 20 else 8) <= |b|
    requires if tcp then NewTcpFlowKey(a, isV6, h) == NewTcpFlowKey(b, isV6, h)
        else NewUdpFlowKey(a, isV6, h) == NewUdpFlowKey(b, isV6, h)
    ensures forall pos :: SrcAddrOffset(isV6) <= pos < h + 4 ==> a[pos] == b[pos]
    ensures tcp ==> a[h + 8..h + 12] == b[h + 8..h + 12]
  {
    hide BE16, BE32, Padded, SrcAddr, DstAddr;
    AddressesAgree(a, b, isV6);
    BE16Injective(a, h, b, h);
    BE16Injective(a, h + 2, b, h + 2);
    if tcp {
      BE32Injective(a, h + 8, b, h + 8);
    }
  }

  lemma HeadersFromParts(a: seq<byte>, b: seq<byte>, tcp: bool, isV6: bool, hl: nat)
    requires var h := if isV6 then 40 else 20;
             && h + (if tcp then 20 else 8) <= hl <= |a| && hl <= |b| && (!tcp ==> hl == h + 8)
             && a[0] / 0x10 == b[0] / 0x10 == (if isV6 then 6 else 4)
             && (if isV6 then a[6] == b[6]
                 else a[0] == b[0] && a[9] == b[9] && a[6] % 0x20 == 0 && b[6] % 0x20 == 0 && a[7] == b[7])
             && (forall pos :: SrcAddrOffset(isV6) <= pos < h + 4 ==> a[pos] == b[pos])
             && (tcp ==>
                   && a[h + 8..h + 12] == b[h + 8..h + 12] && a[h + 20..hl] == b[h + 20..hl]
                   && a[h + 12] / 0x10 == b[h + 12] / 0x10)
    requires IpHeadersCanCoalesce(a, b)
    ensures HeadersAgree(tcp, isV6, hl, a, b)
  {
    var h := if isV6 then 40 else 20;
    if tcp {
      OptionsAgree(a, b, h + 8, h + 12);
      OptionsAgree(a, b, h + 20, hl);
    }
  }

  lemma AddressesAgree(a: seq<byte>, b: seq<byte>, isV6: bool)
    requires |a| >= (if isV6 then 40 else 20) && |b| >= (if isV6 then 40 else 20)
    requires Padded(SrcAddr(a, isV6)) == Padded(SrcAddr(b, isV6))
        && Padded(DstAddr(a, isV6)) == Padded(DstAddr(b, isV6))
    ensures forall pos :: SrcAddrOffset(isV6) <= pos < SrcAddrOffset(isV6) + 2 * AddrLen(isV6) ==> a[pos] == b[pos]
  {
    PaddedInjective(SrcAddr(a, isV6), SrcAddr(b, isV6));
    PaddedInjective(DstAddr(a, isV6), DstAddr(b, isV6));
    var o, n := SrcAddrOffset(isV6), AddrLen(isV6);
    forall pos | o <= pos < o + 2 * n
      ensures a[pos] == b[pos]
    {
      if pos < o + n {
        assert a[pos] == SrcAddr(a, isV6)[pos - o] && b[pos] == SrcAddr(b, isV6)[pos - o];
      } else {
        assert a[pos] == DstAddr(a, isV6)[pos - o - n] && b[pos] == DstAddr(b, isV6)[pos - o - n];
      }
    }
  }

  lemma OptionsAgree(a: seq<byte>, b: seq<byte>, lo: nat, hi: nat)
    requires lo <= hi <= |a| && hi <= |b| && a[lo..hi] == b[lo..hi]
    ensures forall pos :: lo <= pos < hi ==> a[pos] == b[pos]
  {
  }

  // ---- checksums of packets -----------------------------------------------------------

  /** The sum checksumValid folds: the pseudo-header, the transport header and the payload. */
  function TransportSum(pkt: seq<byte>, iphLen: nat, proto: byte, isV6: bool): nat
    requires iphLen <= |pkt| && |pkt| >= if isV6 then 40 else 20
  {
    PseudoSum(proto, SrcAddr(pkt, isV6), DstAddr(pkt, isV6), U16(|pkt| - iphLen)) + WordSum(pkt[iphLen..])
  }

  /** The transport checksum of pkt is right. */
  predicate ChecksumValid(pkt: seq<byte>, iphLen: nat, proto: byte, isV6: bool)
    requires iphLen <= |pkt| && |pkt| >= if isV6 then 40 else 20
  {
    OnesFold(TransportSum(pkt, iphLen, proto, isV6)) == 0xffff
  }

  method CheckChecksum(le: bool, pkt: seq<byte>, iphLen: nat, proto: byte, isV6: bool) returns (valid: bool)
    requires iphLen <= |pkt| && |pkt| >= if isV6 then 40 else 20
    ensures valid == ChecksumValid(pkt, iphLen, proto, isV6)
  {
    var lenForPseudo := U16(|pkt| - iphLen);
    var cSum := PseudoHeaderChecksumNoFold(le, proto, SrcAddr(pkt, isV6), DstAddr(pkt, isV6), lenForPseudo);
    var c := Checksum(le, pkt[iphLen..], cSum);
    valid := 0xffff - c == 0;
    var sum := PseudoSum(proto, SrcAddr(pkt, isV6), DstAddr(pkt, isV6), lenForPseudo);
    SameFoldAdd(cSum, sum, WordSum(pkt[iphLen..]));
    SameFoldMeaning(cSum + WordSum(pkt[iphLen..]), TransportSum(pkt, iphLen, proto, isV6));
  }
}
