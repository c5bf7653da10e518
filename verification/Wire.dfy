/** What the offload code reads and writes, byte by byte and in figures. */
module Wire {
  import opened Bytes
  import opened ChecksumSpec
  import opened FastChecksum
  import opened Packet

  /** Two bytes, the first one weighing more. */
  function Big(b: seq<byte>, at: nat): nat
    requires at + 2 <= |b|
  {
    b[at] as nat * 256 + b[at + 1]
  }

  /** Two bytes in the order of the host. */
  function Host(le: bool, b: seq<byte>, at: nat): nat
    requires at + 2 <= |b|
  {
    if le then b[at] + b[at + 1] as nat * 256 else b[at] as nat * 256 + b[at + 1]
  }

  // ---- the virtio network header ------------------------------------------------------

  /** b lays out the fields of h: two single bytes, then four pairs in the order of the host. */
  predicate LaysOut(le: bool, b: seq<byte>, h: VirtioNetHdr) {
    && |b| >= 10
    && b[0] == h.flags && b[1] == h.gsoType
    && Host(le, b, 2) == h.hdrLen && Host(le, b, 4) == h.gsoSize
    && Host(le, b, 6) == h.csumStart && Host(le, b, 8) == h.csumOffset
  }

  /** The layout of an encoded header, and of any bytes that are decoded. */
  lemma VirtioLayout(le: bool, h: VirtioNetHdr, b: seq<byte>)
    ensures |Encode(le, h)| == 10 && LaysOut(le, Encode(le, h), h)
    ensures |b| >= 10 ==> LaysOut(le, b, Decode(le, b))
  {
  }

  // ---- which packets GRO takes up -----------------------------------------------------

  /** An IPv4 packet without options that is whole, and not a fragment. */
  predicate PlainIpv4(b: seq<byte>) {
    |b| >= 28 && b[0] == 0x45 && Big(b, 2) == |b| && b[6] % 0x40 == 0 && b[7] == 0
  }

  /** An IPv6 packet that is whole. */
  predicate PlainIpv6(b: seq<byte>) {
    |b| >= 48 && b[0] / 16 == 6 && Big(b, 4) == |b| - 40
  }

  /** From h on, a whole TCP header with ACK, or ACK and PSH, and a payload. */
  predicate TcpAt(b: seq<byte>, h: nat) {
    && h + 20 <= |b|
    && 20 <= b[h + 12] / 16 * 4 < |b| - h
    && (b[h + 13] == 0x10 || b[h + 13] == 0x18)
  }

  /** TCP is taken up always, UDP when the device has UDP GSO. */
  predicate TakenUp(b: seq<byte>, canUdpGro: bool) {
    && |b| <= 0xffff
    && (|| (PlainIpv4(b) && ((b[9] == 6 && TcpAt(b, 20)) || (b[9] == 17 && canUdpGro && |b| > 28)))
        || (PlainIpv6(b) && ((b[6] == 6 && TcpAt(b, 40)) || (b[6] == 17 && canUdpGro && |b| > 48))))
  }

  /** A packet enters a table exactly when its bytes are those of such a packet. */
  lemma TakenUpExactly(b: seq<byte>, canUdpGro: bool, i: nat)
    ensures Classify(b, canUdpGro, i).Some? <==> TakenUp(b, canUdpGro)
  {
    hide Classify, TakenUp;
    if |b| >= 28 && b[0] / 16 == 6 {
      TakenUpV6(b, canUdpGro, i);
    } else {
      TakenUpV4(b, canUdpGro, i);
    }
  }

  lemma TakenUpV6(b: seq<byte>, canUdpGro: bool, i: nat)
    requires |b| >= 28 && b[0] / 16 == 6
    ensures Classify(b, canUdpGro, i).Some? <==> TakenUp(b, canUdpGro)
  {
    hide NewTcpFlowKey, NewUdpFlowKey, BE32;
  }

  lemma TakenUpV4(b: seq<byte>, canUdpGro: bool, i: nat)
    requires |b| < 28 || b[0] / 16 != 6
    ensures Classify(b, canUdpGro, i).Some? <==> TakenUp(b, canUdpGro)
  {
    hide NewTcpFlowKey, NewUdpFlowKey, BE32;
  }

  function HeaderLen(b: seq<byte>): nat
    requires |b| > 0
  {
    if b[0] / 16 == 6 then 40 else 20
  }

  /** The item's fields are the packet's. */
  predicate ItemShows(item: Item, b: seq<byte>, i: nat) {
    && |b| >= 28
    && var h := HeaderLen(b);
       && h + 8 <= |b|
       && item.iphLen as nat == h && item.key.isV6 == (h == 40) && item.bufsIndex as nat == i && item.numMerged == 0
       && if b[if h == 40 then 6 else 9] == 6 then
            && item.TcpItem? && h + 20 <= |b|
            && item.sentSeq as nat == 0x1_0000 * Big(b, h + 4) + Big(b, h + 6)
            && item.tcphLen == b[h + 12] / 16 * 4
            && item.gsoSize as int == |b| - h - item.tcphLen
            && item.pshSet == (b[h + 13] == 0x18)
          else
            item.UdpItem? && item.gsoSize as int == |b| - h - 8 && !item.cSumKnownInvalid
  }

  lemma ItemFields(b: seq<byte>, canUdpGro: bool, i: nat)
    requires Classify(b, canUdpGro, i).Some? && i < TWO16
    ensures ItemShows(Classify(b, canUdpGro, i).value, b, i)
  {
    hide Classify, NewTcpFlowKey, NewUdpFlowKey, LengthMatches;
    Classified(b, canUdpGro, i);
    ClassifiedHeaders(b, canUdpGro, i);
  }

  // ---- flows --------------------------------------------------------------------------

  /** The same version and protocol, addresses, ports, and in TCP acknowledgement number. */
  predicate SameFlow(a: seq<byte>, b: seq<byte>) {
    && |a| >= 28 && |b| >= 28 && HeaderLen(a) == HeaderLen(b)
    && var h := HeaderLen(a);
       && h + 8 <= |a| && h + 8 <= |b|
       && var proto := if h == 40 then 6 else 9;
          && a[proto] == b[proto]
          && (if h == 40 then a[8..40] == b[8..40] else a[12..20] == b[12..20])
          && a[h..h + 4] == b[h..h + 4]
          && (a[proto] == 6 ==> h + 20 <= |a| && h + 20 <= |b| && a[h + 8..h + 12] == b[h + 8..h + 12])
  }

  /** What the bytes of a classified packet are, for its key. */
  predicate KeyedBy(item: Item, b: seq<byte>) {
    && |b| >= 28 && HeaderLen(b) == (if item.key.isV6 then 40 else 20) && item.iphLen as nat == HeaderLen(b)
    && var h := HeaderLen(b);
       && h + 8 <= |b| && b[if h == 40 then 6 else 9] == (if item.TcpItem? then 6 else 17)
       && (item.TcpItem? ==> h + 20 <= |b|)
       && item.key == if item.TcpItem? then NewTcpFlowKey(b, item.key.isV6, h) else NewUdpFlowKey(b, item.key.isV6, h)
  }

  lemma ClassifiedKey(b: seq<byte>, canUdpGro: bool, i: nat)
    requires i < TWO16 && Classify(b, canUdpGro, i).Some?
    ensures KeyedBy(Classify(b, canUdpGro, i).value, b)
  {
    hide Classify, NewTcpFlowKey, NewUdpFlowKey, LengthMatches;
    Classified(b, canUdpGro, i);
    ClassifiedHeaders(b, canUdpGro, i);
  }

  lemma FlowFromBytes(a: seq<byte>, b: seq<byte>, x: Item, y: Item)
    requires KeyedBy(x, a) && KeyedBy(y, b) && x.key == y.key
    ensures SameFlow(a, b)
  {
    hide NewTcpFlowKey, NewUdpFlowKey;
    KeyKinds(x, a);
    KeyKinds(y, b);
    KeysAgree(a, b, x.key.isV6, HeaderLen(a), x.TcpItem?);
  }

  lemma KeyKinds(item: Item, b: seq<byte>)
    requires KeyedBy(item, b)
    ensures item.TcpItem? == item.key.TcpKey?
  {
  }

  lemma KeysFromBytes(a: seq<byte>, b: seq<byte>, x: Item, y: Item)
    requires KeyedBy(x, a) && KeyedBy(y, b) && SameFlow(a, b)
    ensures x.key == y.key
  {
    hide Padded, BE16, BE32;
    var h, v6 := HeaderLen(a), HeaderLen(a) == 40;
    var from, to := if v6 then 8 else 12, if v6 then 40 else 20;
    OptionsAgree(a, b, from, to);
    OptionsAgree(a, b, h, h + 4);
    SamePair(a, b, h);
    SamePair(a, b, h + 2);
    if x.TcpItem? {
      OptionsAgree(a, b, h + 8, h + 12);
      SameFour(a, b, h + 8);
    }
    assert SrcAddr(a, v6) == SrcAddr(b, v6) && DstAddr(a, v6) == DstAddr(b, v6);
  }

  lemma SamePair(a: seq<byte>, b: seq<byte>, at: nat)
    requires at + 2 <= |a| && at + 2 <= |b| && a[at] == b[at] && a[at + 1] == b[at + 1]
    ensures BE16(a, at) == BE16(b, at)
  {
  }

  lemma SameFour(a: seq<byte>, b: seq<byte>, at: nat)
    requires at + 4 <= |a| && at + 4 <= |b| && forall k :: at <= k < at + 4 ==> a[k] == b[k]
    ensures BE32(a, at) == BE32(b, at)
  {
  }

  /** Two packets have one key exactly when they are of one flow. */
  lemma KeysExactly(a: seq<byte>, b: seq<byte>, canUdpGro: bool, i: nat, j: nat)
    requires i < TWO16 && j < TWO16 && Classify(a, canUdpGro, i).Some? && Classify(b, canUdpGro, j).Some?
    ensures Classify(a, canUdpGro, i).value.key == Classify(b, canUdpGro, j).value.key <==> SameFlow(a, b)
  {
    hide Classify, SameFlow, KeyedBy;
    ClassifiedKey(a, canUdpGro, i);
    ClassifiedKey(b, canUdpGro, j);
    var x, y := Classify(a, canUdpGro, i).value, Classify(b, canUdpGro, j).value;
    if x.key == y.key {
      FlowFromBytes(a, b, x, y);
    }
    if SameFlow(a, b) {
      KeysFromBytes(a, b, x, y);
    }
  }

  // ---- checksums ----------------------------------------------------------------------

  /** The pseudo-header of RFC 9293 section 3.1 for IPv4, and of RFC 8200 section 8.1 for IPv6. */
  function PseudoHeader(isV6: bool, src: seq<byte>, dst: seq<byte>, proto: byte, len: u16): seq<byte> {
    src + dst + if isV6 then [0, 0, len / 256, len % 256, 0, 0, 0, proto] else [0, proto, len / 256, len % 256]
  }

  /** The pseudo-header sum is that of the pseudo-header's words. */
  lemma PseudoHeaderSum(isV6: bool, src: seq<byte>, dst: seq<byte>, proto: byte, len: u16)
    requires |src| % 2 == 0 && |dst| % 2 == 0
    ensures PseudoSum(proto, src, dst, len) == WordSum(PseudoHeader(isV6, src, dst, proto, len))
  {
    var tail := if isV6 then [0, 0, len / 256, len % 256, 0, 0, 0, proto] else [0, proto, len / 256, len % 256];
    WordSumConcat(src + dst, tail);
    WordSumConcat(src, dst);
    TailSum(len, proto);
  }

  lemma TailSum(len: u16, proto: byte)
    ensures WordSum([0, proto, len / 256, len % 256]) == proto + len as int
    ensures WordSum([0, 0, len / 256, len % 256, 0, 0, 0, proto]) == proto + len as int
  {
    WordSumPair([len / 256, len % 256]);
    WordSumConcat([0, proto], [len / 256, len % 256]);
    WordSumPair([0, proto]);
    assert [0, proto] + [len / 256, len % 256] == [0, proto, len / 256, len % 256];
    var four: seq<byte> := [0, 0, 0, proto];
    assert four == [0, 0] + [0, proto];
    WordSumConcat([0, 0], [0, proto]);
    WordSumPair([0, 0]);
    WordSumConcat([0, 0], [len / 256, len % 256]);
    assert [0, 0] + [len / 256, len % 256] == [0, 0, len / 256, len % 256];
    WordSumConcat([0, 0, len / 256, len % 256], four);
    assert [0, 0, len / 256, len % 256] + four == [0, 0, len / 256, len % 256, 0, 0, 0, proto];
  }

  /** An odd last byte counts as if a zero byte followed it. */
  lemma {:induction false} PaddedSum(b: seq<byte>)
    requires |b| % 2 == 1
    ensures WordSum(b) == WordSum(b + [0])
  {
    if |b| > 1 {
      PaddedSum(b[2..]);
      assert (b + [0])[2..] == b[2..] + [0];
    } else {
      WordSumPair(b + [0]);
    }
  }

  /** A checksum is valid when the words of pseudo-header and segment add up to all ones. */
  lemma ValidExactly(pkt: seq<byte>, h: nat, proto: byte, isV6: bool)
    requires h <= |pkt| <= 0xffff && |pkt| >= if isV6 then 40 else 20
    ensures var src, dst := if isV6 then pkt[8..24] else pkt[12..16], if isV6 then pkt[24..40] else pkt[16..20];
            ChecksumValid(pkt, h, proto, isV6)
            <==> OnesFold(WordSum(PseudoHeader(isV6, src, dst, proto, |pkt| - h) + pkt[h..])) == 0xffff
  {
    hide WordSum, OnesFold, PseudoSum, PseudoHeader;
    var src, dst := SrcAddr(pkt, isV6), DstAddr(pkt, isV6);
    PseudoHeaderSum(isV6, src, dst, proto, |pkt| - h);
    PseudoHeaderEven(isV6, src, dst, proto, |pkt| - h);
    WordSumConcat(PseudoHeader(isV6, src, dst, proto, |pkt| - h), pkt[h..]);
  }

  lemma PseudoHeaderEven(isV6: bool, src: seq<byte>, dst: seq<byte>, proto: byte, len: u16)
    requires |src| % 2 == 0 && |dst| % 2 == 0
    ensures |PseudoHeader(isV6, src, dst, proto, len)| % 2 == 0
  {
  }

  /** The example of section 3 of RFC 1071. */
  lemma Rfc1071Example()
    ensures OnesFold(WordSum([0x00, 0x01, 0xf2, 0x03, 0xf4, 0xf5, 0xf6, 0xf7])) == 0xddf2
  {
    var b: seq<byte> := [0x00, 0x01, 0xf2, 0x03, 0xf4, 0xf5, 0xf6, 0xf7];
    assert b[2..] == [0xf2, 0x03, 0xf4, 0xf5, 0xf6, 0xf7];
    assert b[2..][2..] == [0xf4, 0xf5, 0xf6, 0xf7];
    assert b[2..][2..][2..] == [0xf6, 0xf7];
    WordSumPair([0xf6, 0xf7]);
    assert WordSum([0xf4, 0xf5, 0xf6, 0xf7]) == 0xf4f5 + WordSum([0xf6, 0xf7]);
    assert WordSum([0xf2, 0x03, 0xf4, 0xf5, 0xf6, 0xf7]) == 0xf203 + WordSum([0xf4, 0xf5, 0xf6, 0xf7]);
  }
}
