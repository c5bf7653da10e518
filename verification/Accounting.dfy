/**
 Coalescing accounting: the lengths, checksums and virtio header that
 applyTCPCoalesceAccounting and applyUDPCoalesceAccounting write for one item.
 */
module Accounting {
  import opened Bytes
  import opened ChecksumSpec
  import opened FastChecksum
  import opened Packet
  import opened Gro
  import opened GroItem
  import opened Gso
  import opened GsoSegments

  /** The virtio header of a merged item. */
  function HeaderOf(item: Item): VirtioNetHdr
    requires Shaped(item)
  {
    VirtioNetHdr(NEEDS_CSUM,
                 if item.UdpItem? then GSO_UDP_L4 else if item.key.isV6 then GSO_TCPV6 else GSO_TCPV4,
                 item.HdrLen(), item.gsoSize, item.iphLen, item.CsumOffset())
  }

  /** The merged packet with its IP length and IPv4 header checksum recomputed. */
  function AccountIp(pkt: seq<byte>, item: Item): (r: seq<byte>)
    requires Shaped(item) && item.HdrLen() <= |pkt|
    ensures |r| == |pkt|
  {
    PatchIp(if item.key.isV6 then pkt else PutBE16(pkt, 10, 0), item.key.isV6, item.iphLen, 0)
  }

  /** The packet's UDP length, and the folded pseudo-header sum at its checksum offset. */
  function AccountTransport(pkt: seq<byte>, item: Item): (r: seq<byte>)
    requires Shaped(item) && item.HdrLen() <= |pkt|
    ensures |r| == |pkt|
  {
    var len := U16(|pkt| - item.iphLen);
    var sized := if item.UdpItem? then PutBE16(pkt, item.iphLen as nat + 4, len) else pkt;
    PutBE16(sized, item.iphLen as nat + item.CsumOffset(),
            OnesFold(PseudoSum(item.Proto(), SrcAddr(pkt, item.key.isV6), DstAddr(pkt, item.key.isV6), len)))
  }

  function AccountPacket(pkt: seq<byte>, item: Item): (r: seq<byte>)
    requires Shaped(item) && item.HdrLen() <= |pkt|
    ensures |r| == |pkt|
  {
    AccountTransport(AccountIp(pkt, item), item)
  }

  /** What accounting makes of the buffer of an item. */
  function AccountItem(le: bool, data: seq<byte>, offset: nat, item: Item): (r: seq<byte>)
    requires Shaped(item) && VIRTIO_NET_HDR_LEN <= offset && offset + item.HdrLen() <= |data|
    ensures |r| == |data|
  {
    if item.numMerged > 0 then
      data[..offset - VIRTIO_NET_HDR_LEN] + Encode(le, HeaderOf(item)) + AccountPacket(data[offset..], item)
    else ClearHeader(data, offset)
  }

  /** The bytes handed to the device for a buffer: its virtio header and its packet. */
  function Frame(data: seq<byte>, offset: nat): seq<byte>
    requires VIRTIO_NET_HDR_LEN <= offset <= |data|
  {
    data[offset - VIRTIO_NET_HDR_LEN..]
  }

  lemma AccountedIp(pkt: seq<byte>, item: Item)
    requires Shaped(item) && item.HdrLen() <= |pkt| <= 0xffff
    ensures var r := AccountIp(pkt, item);
            && Keeps(r, pkt, item.TcpItem?, item.key.isV6, item.iphLen)
            && IpFields(r, pkt, item.iphLen, item.key.isV6, 0)
            && forall k: nat :: item.iphLen <= k < |pkt| ==> r[k] == pkt[k]
  {
    hide WordSum, OnesFold, PatchIp;
    var start := if item.key.isV6 then pkt else PutBE16(pkt, 10, 0);
    PatchedIp(start, item.key.isV6, item.iphLen, 0);
  }

  lemma AccountedTransport(ip: seq<byte>, item: Item)
    requires Shaped(item) && item.HdrLen() <= |ip| <= 0xffff
    ensures var r, csumAt := AccountTransport(ip, item), item.iphLen as nat + item.CsumOffset();
            && Keeps(r, ip, item.TcpItem?, item.key.isV6, item.iphLen)
            && (forall k: nat :: k < item.iphLen ==> r[k] == ip[k])
            && (item.TcpItem? ==> forall k: nat :: k < item.iphLen + 16 ==> r[k] == ip[k])
            && (item.UdpItem? ==> BE16(r, item.iphLen as nat + 4) == |ip| - item.iphLen)
            && BE16(r, csumAt)
               == OnesFold(PseudoSum(item.Proto(), SrcAddr(ip, item.key.isV6), DstAddr(ip, item.key.isV6),
                   U16(|ip| - item.iphLen)))
  {
    hide WordSum, OnesFold, PseudoSum, SrcAddr, DstAddr;
  }

  /** The header bytes accounting can change: exactly those gsoSplit rewrites, but for the TCP stream fields. */
  lemma AccountedPacket(pkt: seq<byte>, item: Item)
    requires Shaped(item) && item.HdrLen() <= |pkt| <= 0xffff
    ensures var r := AccountPacket(pkt, item);
            && Keeps(r, pkt, item.TcpItem?, item.key.isV6, item.iphLen)
            && (item.TcpItem? ==> forall k: nat :: item.iphLen <= k < item.iphLen + 16 ==> r[k] == pkt[k])
            && IpFields(r, pkt, item.iphLen, item.key.isV6, 0)
            && (item.UdpItem? ==> BE16(r, item.iphLen as nat + 4) == |pkt| - item.iphLen)
            && BE16(r, item.iphLen as nat + item.CsumOffset())
               == OnesFold(PseudoSum(item.Proto(), SrcAddr(r, item.key.isV6), DstAddr(r, item.key.isV6),
                   U16(|pkt| - item.iphLen)))
  {
    hide WordSum, OnesFold, PseudoSum, AccountIp, AccountTransport, IpFields, SrcAddr, DstAddr;
    AccountedIp(pkt, item);
    var ip := AccountIp(pkt, item);
    AccountedTransport(ip, item);
    var r := AccountPacket(pkt, item);
    IpFieldsKept(r, ip, pkt, item.iphLen, item.key.isV6, 0);
    KeepsTail(r, ip, item.TcpItem?, item.key.isV6, item.iphLen, item.HdrLen());
    KeepsTail(ip, pkt, item.TcpItem?, item.key.isV6, item.iphLen, item.HdrLen());
  }

  /** A checksum field holding a folded sum is completed by adding in that sum's own words. */
  lemma NoneChecksumCompletes(acc: seq<byte>, csumStart: u16, csumOffset: u16, pseudo: nat)
    requires csumStart as nat + csumOffset + 2 <= |acc| <= 0xffff && csumOffset % 2 == 0
    requires BE16(acc, csumStart as nat + csumOffset) == OnesFold(pseudo)
    ensures OnesFold(pseudo + WordSum(GsoNoneChecksum(acc, csumStart, csumOffset)[csumStart..])) == 0xffff
  {
    hide WordSum, OnesFold;
    var h, at := csumStart as nat, csumStart as nat + csumOffset;
    var zeroed, done := PutBE16(acc, at, 0), GsoNoneChecksum(acc, csumStart, csumOffset);
    assert zeroed[h..] == zeroed[h..|zeroed|] && done[h..] == done[h..|done|];
    StoredComplement(zeroed, h, |zeroed|, at, OnesFold(pseudo));
    FoldsToItself(pseudo);
    SameFoldAdd(pseudo, OnesFold(pseudo), WordSum(done[h..]));
    SameFoldMeaning(pseudo + WordSum(done[h..]), OnesFold(pseudo) + WordSum(done[h..]));
  }

  /**
   The partial-checksum contract: completing the checksum that accounting leaves, as
   gsoNoneChecksum does, makes the merged packet's transport checksum valid.
   */
  lemma PartialChecksum(pkt: seq<byte>, item: Item)
    requires Shaped(item) && item.HdrLen() <= |pkt| <= 0xffff
    ensures ChecksumValid(GsoNoneChecksum(AccountPacket(pkt, item), item.iphLen, item.CsumOffset()),
                          item.iphLen, item.Proto(), item.key.isV6)
  {
    hide WordSum, OnesFold, PseudoSum, AccountPacket, SrcAddr, DstAddr, IpFields;
    AccountedPacket(pkt, item);
    var v6, h := item.key.isV6, item.iphLen as nat;
    var acc := AccountPacket(pkt, item);
    var pseudo := PseudoSum(item.Proto(), SrcAddr(acc, v6), DstAddr(acc, v6), U16(|acc| - h));
    var done := GsoNoneChecksum(acc, item.iphLen, item.CsumOffset());
    NoneChecksumCompletes(acc, item.iphLen, item.CsumOffset(), pseudo);
    KeepsTail(done, acc, item.TcpItem?, v6, h, item.HdrLen());
  }
}
