/** Every segment that gsoSplit makes is a valid packet, and together they are the input. */
module GsoSegments {
  import opened Arithmetic
  import opened Bytes
  import opened ChecksumSpec
  import opened FastChecksum
  import opened Packet
  import opened Gso

  // ---- the patches one at a time ------------------------------------------------------

  /** A slice of a packet with one of the slice's fields rewritten. */
  lemma PutInSlice(s: seq<byte>, lo: nat, hi: nat, at: nat, v: u16)
    requires lo <= at && at + 2 <= hi <= |s|
    ensures PutBE16(s, at, v)[lo..hi] == PutBE16(s[lo..hi], at - lo, v)
  {
  }

  /** Storing the complement of a sum in its cleared field completes the sum to all ones. */
  lemma StoredComplement(s: seq<byte>, lo: nat, hi: nat, at: nat, extra: nat)
    requires lo <= at && at + 2 <= hi <= |s| && (at - lo) % 2 == 0 && BE16(s, at) == 0
    ensures OnesFold(extra + WordSum(PutBE16(s, at, 0xffff - OnesFold(extra + WordSum(s[lo..hi])))[lo..hi])) == 0xffff
  {
    var c := 0xffff - OnesFold(extra + WordSum(s[lo..hi]));
    hide WordSum, OnesFold, PutBE16, BE16;
    PutInSlice(s, lo, hi, at, c);
    SliceField(s, lo, hi, at);
    WordSumPut(s[lo..hi], at - lo, c);
    ComplementCompletes(extra + WordSum(s[lo..hi]));
  }

  lemma SliceField(s: seq<byte>, lo: nat, hi: nat, at: nat)
    requires lo <= at && at + 2 <= hi <= |s|
    ensures BE16(s[lo..hi], at - lo) == BE16(s, at)
  {
  }

  /** The IP fields of segment i, and a header checksum that verifies. */
  lemma PatchedIp(seg: seq<byte>, isV6: bool, iphLen: nat, i: nat)
    requires iphLen <= |seg| <= 0xffff && iphLen >= if isV6 then 40 else 20
    requires !isV6 ==> BE16(seg, 10) == 0
    ensures var r := PatchIp(seg, isV6, iphLen, i);
            && (forall k :: 0 <= k < |seg| && !(if isV6 then 4 <= k < 6 else 2 <= k < 6 || 10 <= k < 12) ==>
                 r[k] == seg[k])
            && (if isV6 then BE16(r, 4) == |seg| - iphLen
                else && BE16(r, 2) == |seg| && BE16(r, 4) == U16(BE16(seg, 4) + i)
                     && OnesFold(WordSum(r[..iphLen])) == 0xffff)
  {
    hide WordSum, OnesFold, PutBE16, BE16, U16;
    FitsU16(|seg|);
    FitsU16(|seg| - iphLen);
    if !isV6 {
      var id := if i > 0 then PutBE16(seg, 4, U16(BE16(seg, 4) + U16(i))) else seg;
      IdWraps(BE16(seg, 4), i);
      var len := PutBE16(id, 2, U16(|seg|));
      SameU16(seg, id, 10);
      SameU16(id, len, 10);
      StoredComplement(len, 0, iphLen, 10, 0);
      assert len[0..iphLen] == len[..iphLen];
      var r := PatchIp(seg, isV6, iphLen, i);
      SameU16(len, r, 2);
      SameU16(id, len, 4);
      SameU16(len, r, 4);
      assert r[0..iphLen] == r[..iphLen];
    }
  }

  lemma SameU16(a: seq<byte>, b: seq<byte>, at: nat)
    requires at + 2 <= |a| && at + 2 <= |b| && a[at] == b[at] && a[at + 1] == b[at + 1]
    ensures BE16(a, at) == BE16(b, at)
  {
  }

  lemma SameId(r: seq<byte>, pkt: seq<byte>)
    requires 6 <= |r| && 6 <= |pkt| && BE16(r, 4) == U16(BE16(pkt, 4) + 0)
    ensures r[4] == pkt[4] && r[5] == pkt[5]
  {
    BE16Injective(r, 4, pkt, 4);
  }

  lemma FitsU16(n: nat)
    requires n <= 0xffff
    ensures U16(n) == n
  {
  }

  lemma IdWraps(id: u16, i: nat)
    ensures U16(id + U16(i)) == U16(id + i) && U16(id + 0) == id
  {
  }

  /** A patched transport checksum verifies over the addresses it was made from. */
  lemma PatchedCsum(seg: seq<byte>, start: nat, csumAt: nat, proto: byte, src: seq<byte>, dst: seq<byte>)
    requires start <= csumAt && csumAt + 2 <= |seg| && (csumAt - start) % 2 == 0 && BE16(seg, csumAt) == 0
    ensures var r := PatchCsum(seg, start, csumAt, proto, src, dst);
            && OnesFold(PseudoSum(proto, src, dst, U16(|seg| - start)) + WordSum(r[start..])) == 0xffff
            && forall k :: 0 <= k < |seg| && k != csumAt && k != csumAt + 1 ==> r[k] == seg[k]
  {
    hide WordSum, OnesFold, PseudoSum;
    StoredComplement(seg, start, |seg|, csumAt, PseudoSum(proto, src, dst, U16(|seg| - start)));
    assert seg[start..] == seg[start..|seg|];
    var r := PatchCsum(seg, start, csumAt, proto, src, dst);
    assert r[start..] == r[start..|seg|];
  }

  /** The 16-bit product of segment size and index is the true stream offset. */
  lemma OffsetExact(input: seq<byte>, hdr: VirtioNetHdr, i: nat)
    requires From(hdr, i) <= |input| <= 0xffff
    ensures U16(hdr.gsoSize as int * U16(i)) == i * hdr.gsoSize
  {
    if hdr.gsoSize > 0 {
      AtLeast(i, hdr.gsoSize);
      assert U16(i) == i;
      assert hdr.gsoSize as int * i == i * hdr.gsoSize;
    } else {
      assert i * 0 == 0;
    }
  }

  lemma PatchedTcp(seg: seq<byte>, start: nat, first: u32, gsoSize: u16, i: nat, last: bool, offset: nat)
    requires start + 20 <= |seg| && U16(gsoSize as int * U16(i)) == offset
    ensures var r := PatchTcp(seg, start, first, gsoSize, i, last);
            && BE32(r, start + 4) == U32(first + offset)
            && r[start + 13] == (if last then seg[start + 13] else WithoutFinPsh(seg[start + 13]))
            && forall k :: 0 <= k < |seg| && !(start + 4 <= k < start + 8) && k != start + 13 ==> r[k] == seg[k]
  {
  }

  /** The header bytes of a segment that can differ from the input's. */
  predicate Rewritten(tcp: bool, isV6: bool, start: nat, pos: nat) {
    || (if isV6 then 4 <= pos < 6 else 2 <= pos < 6 || 10 <= pos < 12)
    || (if tcp then start + 4 <= pos < start + 8 || pos == start + 13 || start + 16 <= pos < start + 18
        else start + 4 <= pos < start + 8)
  }

  /** A cleared, splittable packet. */
  predicate Ready(input: seq<byte>, hdr: VirtioNetHdr, isV6: bool) {
    && Splittable(input, hdr, isV6)
    && BE16(input, hdr.csumStart as nat + hdr.csumOffset) == 0
    && (!isV6 ==> BE16(input, 10) == 0)
  }

  lemma ClearedReady(input: seq<byte>, hdr: VirtioNetHdr, isV6: bool)
    requires Splittable(input, hdr, isV6)
    ensures var r := Cleared(input, hdr.csumStart as nat + hdr.csumOffset, isV6);
            && Ready(r, hdr, isV6)
            && forall k :: 0 <= k < |input| && !Rewritten(IsTcp(hdr), isV6, hdr.csumStart, k) ==> r[k] == input[k]
  {
  }

  function Raw(input: seq<byte>, hdr: VirtioNetHdr, i: nat): seq<byte>
    requires hdr.hdrLen <= |input| && From(hdr, i) <= |input|
  {
    input[..hdr.hdrLen] + input[From(hdr, i)..To(input, hdr, i)]
  }

  lemma RawIs(input: seq<byte>, hdr: VirtioNetHdr, isV6: bool, i: nat)
    requires Ready(input, hdr, isV6) && From(hdr, i) <= |input|
    ensures var raw := Raw(input, hdr, i);
            && hdr.hdrLen <= |raw| == hdr.hdrLen + (To(input, hdr, i) - From(hdr, i)) <= |input|
            && (forall k :: 0 <= k < hdr.hdrLen ==> raw[k] == input[k])
            && raw[hdr.hdrLen..] == input[From(hdr, i)..To(input, hdr, i)]
            && BE16(raw, hdr.csumStart as nat + hdr.csumOffset) == 0
            && (!isV6 ==> BE16(raw, 10) == 0 && BE16(raw, 4) == BE16(input, 4))
  {
    hide *;
    RawBounds(input, hdr, isV6, i);
    RawFields(input, hdr.hdrLen, From(hdr, i), To(input, hdr, i), hdr.csumStart as nat + hdr.csumOffset);
    RawParts(input, hdr, i);
  }

  lemma RawParts(input: seq<byte>, hdr: VirtioNetHdr, i: nat)
    requires hdr.hdrLen <= From(hdr, i) <= To(input, hdr, i) <= |input|
    ensures Raw(input, hdr, i) == input[..hdr.hdrLen] + input[From(hdr, i)..To(input, hdr, i)]
  {
  }

  lemma RawBounds(input: seq<byte>, hdr: VirtioNetHdr, isV6: bool, i: nat)
    requires Ready(input, hdr, isV6) && From(hdr, i) <= |input|
    ensures hdr.hdrLen <= From(hdr, i) <= To(input, hdr, i) <= |input|
    ensures 20 <= hdr.hdrLen && hdr.csumStart as nat + hdr.csumOffset + 2 <= hdr.hdrLen
    ensures BE16(input, hdr.csumStart as nat + hdr.csumOffset) == 0 && (!isV6 ==> BE16(input, 10) == 0)
  {
  }

  lemma RawFields(input: seq<byte>, hl: nat, from: nat, to: nat, at: nat)
    requires 20 <= hl <= from <= to <= |input| && at + 2 <= hl
    ensures var raw := input[..hl] + input[from..to];
            && |raw| == hl + (to - from) <= |input|
            && (forall k :: 0 <= k < hl ==> raw[k] == input[k])
            && raw[hl..] == input[from..to]
            && BE16(raw, at) == BE16(input, at) && BE16(raw, 10) == BE16(input, 10) && BE16(raw, 4) == BE16(input, 4)
  {
  }

  /** The part of a segment that only headers' patches touch. */
  predicate Keeps(r: seq<byte>, s: seq<byte>, tcp: bool, isV6: bool, start: nat) {
    && |r| == |s|
    && forall k :: 0 <= k < |s| && !Rewritten(tcp, isV6, start, k) ==> r[k] == s[k]
  }

  lemma KeepsTail(r: seq<byte>, s: seq<byte>, tcp: bool, isV6: bool, start: nat, hdrLen: nat)
    requires Keeps(r, s, tcp, isV6, start) && start + (if tcp then 20 else 8) <= hdrLen <= |s|
        && start >= if isV6 then 40 else 20
    ensures r[hdrLen..] == s[hdrLen..]
    ensures SrcAddr(r, isV6) == SrcAddr(s, isV6) && DstAddr(r, isV6) == DstAddr(s, isV6)
  {
  }

  /** What segment i's TCP or UDP header says of it. */
  predicate TransportFields(seg: seq<byte>, input: seq<byte>, hdr: VirtioNetHdr, i: nat)
    requires hdr.csumStart as nat + (if IsTcp(hdr) then 20 else 8) <= |seg| && |input| >= |seg|
  {
    var start := hdr.csumStart as nat;
    if IsTcp(hdr) then
      && BE32(seg, start + 4) == U32(BE32(input, start + 4) + i * hdr.gsoSize)
      && seg[start + 13] == (if To(input, hdr, i) == |input| then input[start + 13]
           else WithoutFinPsh(input[start + 13]))
    else BE16(seg, start + 4) == |seg| - start
  }

  /** What segment i's IP header says of it; iphLen is csumStart. */
  predicate IpFields(seg: seq<byte>, input: seq<byte>, iphLen: nat, isV6: bool, i: nat)
    requires 20 <= iphLen <= |seg| && 20 <= |input|
  {
    if isV6 then BE16(seg, 4) == |seg| - iphLen
    else
      && BE16(seg, 2) == |seg|
      && BE16(seg, 4) == U16(BE16(input, 4) + i)
      && OnesFold(WordSum(seg[..iphLen])) == 0xffff
  }

  function TransportPatch(ip: seq<byte>, input: seq<byte>, hdr: VirtioNetHdr, i: nat): (r: seq<byte>)
    requires hdr.csumStart as nat + (if IsTcp(hdr) then 20 else 8) <= hdr.hdrLen <= |ip| && hdr.hdrLen <= |input|
    ensures |r| == |ip|
  {
    var start := hdr.csumStart as nat;
    if IsTcp(hdr) then PatchTcp(ip, start, BE32(input, start + 4), hdr.gsoSize, i, To(input, hdr, i) == |input|)
    else PatchUdp(ip, start, hdr.hdrLen)
  }

  lemma IpStage(input: seq<byte>, hdr: VirtioNetHdr, isV6: bool, i: nat)
    requires Ready(input, hdr, isV6) && From(hdr, i) <= |input|
    ensures var raw := Raw(input, hdr, i);
            && hdr.csumStart <= hdr.hdrLen <= |raw| <= 0xffff
            && var ip := PatchIp(raw, isV6, hdr.csumStart, i);
               && Keeps(ip, raw, IsTcp(hdr), isV6, hdr.csumStart)
               && IpFields(ip, input, hdr.csumStart, isV6, i)
               && BE16(ip, hdr.csumStart as nat + hdr.csumOffset) == 0
               && (forall k: nat :: hdr.csumStart <= k < hdr.hdrLen ==> ip[k] == input[k])
  {
    hide WordSum, OnesFold, PatchIp, Raw, To, From;
    RawIs(input, hdr, isV6, i);
    PatchedIp(Raw(input, hdr, i), isV6, hdr.csumStart, i);
  }

  lemma TcpStage(ip: seq<byte>, input: seq<byte>, hdr: VirtioNetHdr, i: nat)
    requires IsTcp(hdr) && hdr.csumOffset == 16 && From(hdr, i) <= |input| <= 0xffff
    requires hdr.csumStart as nat + 20 <= hdr.hdrLen <= |ip| <= |input|
    requires forall k: nat :: hdr.csumStart <= k < hdr.hdrLen ==> ip[k] == input[k]
    ensures var t, start := TransportPatch(ip, input, hdr, i), hdr.csumStart as nat;
            && TransportFields(t, input, hdr, i)
            && forall k: nat :: k < |ip| && !(start + 4 <= k < start + 8) && k != start + 13 ==> t[k] == ip[k]
  {
    hide WithoutFinPsh, To, From, PatchTcp, BE32;
    OffsetExact(input, hdr, i);
    PatchedTcp(ip, hdr.csumStart, BE32(input, hdr.csumStart as nat + 4), hdr.gsoSize, i, To(input, hdr, i) == |input|,
        i * hdr.gsoSize);
  }

  lemma UdpStage(ip: seq<byte>, input: seq<byte>, hdr: VirtioNetHdr, i: nat)
    requires !IsTcp(hdr) && hdr.csumStart as nat + 8 <= hdr.hdrLen <= |ip| <= |input| <= 0xffff
    ensures var t, start := TransportPatch(ip, input, hdr, i), hdr.csumStart as nat;
            && TransportFields(t, input, hdr, i)
            && forall k: nat :: k < |ip| && !(start + 4 <= k < start + 6) ==> t[k] == ip[k]
  {
    hide To, From, PutBE16;
  }

  lemma TransportStage(ip: seq<byte>, input: seq<byte>, hdr: VirtioNetHdr, isV6: bool, i: nat)
    requires Ready(input, hdr, isV6) && From(hdr, i) <= |input| && hdr.hdrLen <= |ip| <= |input|
    requires BE16(ip, hdr.csumStart as nat + hdr.csumOffset) == 0
    requires forall k: nat :: hdr.csumStart <= k < hdr.hdrLen ==> ip[k] == input[k]
    ensures var t := TransportPatch(ip, input, hdr, i);
            && Keeps(t, ip, IsTcp(hdr), isV6, hdr.csumStart)
            && TransportFields(t, input, hdr, i)
            && BE16(t, hdr.csumStart as nat + hdr.csumOffset) == 0
            && (forall k: nat :: k < hdr.csumStart ==> t[k] == ip[k])
  {
    hide To, From, WordSum, TransportPatch, TransportFields, BE16;
    var t := TransportPatch(ip, input, hdr, i);
    if IsTcp(hdr) {
      TcpStage(ip, input, hdr, i);
    } else {
      UdpStage(ip, input, hdr, i);
    }
    SameU16(t, ip, hdr.csumStart as nat + hdr.csumOffset);
  }

  lemma IpFieldsKept(seg: seq<byte>, ip: seq<byte>, input: seq<byte>, iphLen: nat, isV6: bool, i: nat)
    requires |seg| == |ip| && 20 <= iphLen <= |ip| && 20 <= |input| && IpFields(ip, input, iphLen, isV6, i)
    requires forall k: nat :: k < iphLen ==> seg[k] == ip[k]
    ensures IpFields(seg, input, iphLen, isV6, i)
  {
    hide WordSum, OnesFold;
    assert seg[..iphLen] == ip[..iphLen];
  }

  /** A segment stage by stage. */
  lemma SegmentStages(input: seq<byte>, hdr: VirtioNetHdr, isV6: bool, i: nat)
    requires Ready(input, hdr, isV6) && From(hdr, i) <= |input|
    ensures var seg, raw := Segment(input, hdr, isV6, i), Raw(input, hdr, i);
            && Keeps(seg, raw, IsTcp(hdr), isV6, hdr.csumStart)
            && hdr.hdrLen <= |seg| <= |input|
            && IpFields(seg, input, hdr.csumStart, isV6, i)
            && TransportFields(seg, input, hdr, i)
            && OnesFold(PseudoSum(if IsTcp(hdr) then PROTO_TCP else PROTO_UDP,
                                  SrcAddr(input, isV6), DstAddr(input, isV6),
                                  U16(|seg| - hdr.csumStart)) + WordSum(seg[hdr.csumStart..])) == 0xffff
  {
    hide WordSum, OnesFold, PatchIp, To, From, PatchCsum, TransportPatch, PseudoSum, IpFields, Segment, Raw,
        TransportFields, SrcAddr, DstAddr;
    var start, csumAt := hdr.csumStart as nat, hdr.csumStart as nat + hdr.csumOffset;
    var proto := if IsTcp(hdr) then PROTO_TCP else PROTO_UDP;
    var raw := Raw(input, hdr, i);
    RawIs(input, hdr, isV6, i);
    IpStage(input, hdr, isV6, i);
    var ip := PatchIp(raw, isV6, start, i);
    TransportStage(ip, input, hdr, isV6, i);
    var t := TransportPatch(ip, input, hdr, i);
    PatchedCsum(t, start, csumAt, proto, SrcAddr(input, isV6), DstAddr(input, isV6));
    var seg := PatchCsum(t, start, csumAt, proto, SrcAddr(input, isV6), DstAddr(input, isV6));
    SegmentByStages(input, hdr, isV6, i);
    KeepsAll(seg, t, ip, raw, IsTcp(hdr), isV6, start);
    IpFieldsKept(seg, ip, input, start, isV6, i);
    TransportKept(seg, t, input, hdr, i);
  }

  /**
   Segment i of a packet: a whole packet of its own, with valid IPv4 header and transport
   checksums and true lengths, that differs from the input's headers only where it must, and
   whose payload is the input's from From to To.
   */
  lemma SegmentIs(input: seq<byte>, hdr: VirtioNetHdr, isV6: bool, i: nat)
    requires Ready(input, hdr, isV6) && From(hdr, i) <= |input|
    ensures var seg := Segment(input, hdr, isV6, i);
            && |seg| == hdr.hdrLen + (To(input, hdr, i) - From(hdr, i)) <= |input|
            && seg[hdr.hdrLen..] == input[From(hdr, i)..To(input, hdr, i)]
            && (forall k :: 0 <= k < hdr.hdrLen && !Rewritten(IsTcp(hdr), isV6, hdr.csumStart, k) ==>
                 seg[k] == input[k])
            && IpFields(seg, input, hdr.csumStart, isV6, i)
            && TransportFields(seg, input, hdr, i)
            && ChecksumValid(seg, hdr.csumStart, if IsTcp(hdr) then PROTO_TCP else PROTO_UDP, isV6)
  {
    hide WordSum, OnesFold, To, From, PseudoSum, IpFields, Segment, Raw, TransportFields, SrcAddr, DstAddr;
    var seg, raw := Segment(input, hdr, isV6, i), Raw(input, hdr, i);
    RawIs(input, hdr, isV6, i);
    SegmentStages(input, hdr, isV6, i);
    KeepsTail(seg, raw, IsTcp(hdr), isV6, hdr.csumStart, hdr.hdrLen);
    AddressesKept(seg, input, isV6, hdr.csumStart, IsTcp(hdr), hdr.hdrLen);
  }

  lemma SegmentByStages(input: seq<byte>, hdr: VirtioNetHdr, isV6: bool, i: nat)
    requires Splittable(input, hdr, isV6) && From(hdr, i) <= |input|
    ensures Segment(input, hdr, isV6, i)
         == PatchCsum(TransportPatch(PatchIp(Raw(input, hdr, i), isV6, hdr.csumStart, i), input, hdr, i),
                      hdr.csumStart, hdr.csumStart as nat + hdr.csumOffset, if IsTcp(hdr) then PROTO_TCP else PROTO_UDP,
                      SrcAddr(input, isV6), DstAddr(input, isV6))
  {
    hide PatchIp, PatchTcp, PatchUdp, PatchCsum, SrcAddr, DstAddr;
  }

  lemma KeepsAll(seg: seq<byte>, t: seq<byte>, ip: seq<byte>, raw: seq<byte>, tcp: bool, isV6: bool, start: nat)
    requires Keeps(ip, raw, tcp, isV6, start) && Keeps(t, ip, tcp, isV6, start) && Keeps(seg, t, tcp, isV6, start)
    ensures Keeps(seg, raw, tcp, isV6, start)
  {
  }

  lemma TransportKept(seg: seq<byte>, t: seq<byte>, input: seq<byte>, hdr: VirtioNetHdr, i: nat)
    requires hdr.csumStart as nat + (if IsTcp(hdr) then 20 else 8) <= |t| == |seg| && |input| >= |seg|
    requires TransportFields(t, input, hdr, i)
    requires forall k ::
               0 <= k < |t| && k != hdr.csumStart + hdr.csumOffset && k != hdr.csumStart + hdr.csumOffset + 1 ==>
                 seg[k] == t[k]
    requires hdr.csumOffset == (if IsTcp(hdr) then 16 else 6)
    ensures TransportFields(seg, input, hdr, i)
  {
  }

  lemma AddressesKept(seg: seq<byte>, input: seq<byte>, isV6: bool, start: nat, tcp: bool, hdrLen: nat)
    requires start >= (if isV6 then 40 else 20) && start + (if tcp then 20 else 8) <= hdrLen <= |seg|
        && hdrLen <= |input|
    requires forall k :: 0 <= k < hdrLen && !Rewritten(tcp, isV6, start, k) ==> seg[k] == input[k]
    ensures SrcAddr(seg, isV6) == SrcAddr(input, isV6) && DstAddr(seg, isV6) == DstAddr(input, isV6)
  {
  }

  /** A recomputed checksum is stored as zero rather than as all ones. */
  lemma SegmentComplements(input: seq<byte>, hdr: VirtioNetHdr, isV6: bool, i: nat)
    requires Ready(input, hdr, isV6) && From(hdr, i) <= |input| && input[0] > 0
    ensures var seg, csumAt := Segment(input, hdr, isV6, i), hdr.csumStart as nat + hdr.csumOffset;
            && csumAt + 2 <= |seg| && 12 <= |seg|
            && BE16(seg, csumAt) != 0xffff && (!isV6 ==> BE16(seg, 10) != 0xffff)
  {
    hide WordSum, OnesFold, PatchIp, To, From, PatchCsum, TransportPatch, PseudoSum, IpFields, Segment, Raw,
        TransportFields, SrcAddr, DstAddr, BE16;
    var start, csumAt := hdr.csumStart as nat, hdr.csumStart as nat + hdr.csumOffset;
    var proto := if IsTcp(hdr) then PROTO_TCP else PROTO_UDP;
    var raw := Raw(input, hdr, i);
    RawIs(input, hdr, isV6, i);
    IpStage(input, hdr, isV6, i);
    var ip := PatchIp(raw, isV6, start, i);
    TransportStage(ip, input, hdr, isV6, i);
    var t := TransportPatch(ip, input, hdr, i);
    SegmentByStages(input, hdr, isV6, i);
    CsumComplement(t, start, csumAt, proto, SrcAddr(input, isV6), DstAddr(input, isV6));
    if !isV6 {
      IpComplement(raw, start, i);
      SameU16(t, ip, 10);
      SameU16(PatchCsum(t, start, csumAt, proto, SrcAddr(input, isV6), DstAddr(input, isV6)), t, 10);
    }
  }

  lemma CsumComplement(seg: seq<byte>, start: nat, csumAt: nat, proto: byte, src: seq<byte>, dst: seq<byte>)
    requires start <= csumAt && csumAt + 2 <= |seg| && proto > 0
    ensures var r := PatchCsum(seg, start, csumAt, proto, src, dst);
            && BE16(r, csumAt) != 0xffff
            && forall k :: 0 <= k < |seg| && k != csumAt && k != csumAt + 1 ==> r[k] == seg[k]
  {
    hide WordSum, PutBE16, BE16;
  }

  lemma IpComplement(seg: seq<byte>, iphLen: nat, i: nat)
    requires 20 <= iphLen <= |seg| && seg[0] > 0
    ensures BE16(PatchIp(seg, false, iphLen, i), 10) != 0xffff
  {
    hide WordSum, PutBE16, BE16;
    var id := if i > 0 then PutBE16(seg, 4, U16(BE16(seg, 4) + U16(i))) else seg;
    var len := PutBE16(id, 2, U16(|seg|));
    assert len[..iphLen][0] == seg[0];
    PositiveSum(len[..iphLen], 0);
  }

  // ---- all segments together ----------------------------------------------------------

  /** The payloads of packets with headers of hdrLen bytes, in order. */
  function Payloads(segs: seq<seq<byte>>, hdrLen: nat): seq<byte> {
    if segs == [] then []
    else
      var last := segs[|segs| - 1];
      Payloads(segs[..|segs| - 1], hdrLen) + (if hdrLen <= |last| then last[hdrLen..] else [])
  }

  /** FIN and PSH are off. */
  predicate NoFinPsh(flags: byte) {
    flags % 2 == 0 && flags / 0x08 % 2 == 0
  }

  lemma WithoutFinPshIs(flags: byte)
    ensures NoFinPsh(WithoutFinPsh(flags))
    ensures flags == FLAG_ACK || flags == FLAG_ACK + FLAG_PSH ==> WithoutFinPsh(flags) == FLAG_ACK
  {
    var high, psh, low := flags / 16, flags / 8 % 2, flags % 8;
    assert flags == 16 * high + 8 * psh + low;
    assert flags % 2 == low % 2;
    assert WithoutFinPsh(flags) == 16 * high + (low - low % 2);
  }

  lemma {:induction false} FirstSegments(input: seq<byte>, hdr: VirtioNetHdr, isV6: bool, n: nat)
    requires Ready(input, hdr, isV6) && hdr.gsoSize > 0 && n <= Count(input, hdr)
    requires forall i :: 0 <= i < n ==> From(hdr, i) <= |input|
    ensures Payloads(Segments(input, hdr, isV6, n), hdr.hdrLen)
         == input[hdr.hdrLen..if n == 0 then hdr.hdrLen as nat else To(input, hdr, n - 1)]
  {
    hide *;
    FirstBounds(input, hdr, isV6, n);
    if n > 0 {
      FirstSegments(input, hdr, isV6, n - 1);
      SegmentIs(input, hdr, isV6, n - 1);
      var segs := Segments(input, hdr, isV6, n);
      Meets(input, hdr, n);
      LastSegment(input, hdr, isV6, n);
      Adjoining(input, hdr.hdrLen, From(hdr, n - 1), To(input, hdr, n - 1));
    } else {
      NoSegments(input, hdr, isV6);
    }
  }

  lemma FirstBounds(input: seq<byte>, hdr: VirtioNetHdr, isV6: bool, n: nat)
    requires Ready(input, hdr, isV6) && hdr.gsoSize > 0 && n <= Count(input, hdr)
    ensures Splittable(input, hdr, isV6) && hdr.hdrLen <= |input| && 0 < hdr.hdrLen
    ensures n > 0 ==> n - 1 <= Count(input, hdr)
  {
    hide Count;
  }

  lemma NoSegments(input: seq<byte>, hdr: VirtioNetHdr, isV6: bool)
    requires Splittable(input, hdr, isV6)
    ensures Payloads(Segments(input, hdr, isV6, 0), hdr.hdrLen) == []
  {
  }

  /** The payloads of n segments, in terms of the last one. */
  lemma LastSegment(input: seq<byte>, hdr: VirtioNetHdr, isV6: bool, n: nat)
    requires Splittable(input, hdr, isV6) && n > 0 && forall i :: 0 <= i < n ==> From(hdr, i) <= |input|
    requires hdr.hdrLen <= |Segment(input, hdr, isV6, n - 1)|
    ensures Payloads(Segments(input, hdr, isV6, n), hdr.hdrLen)
         == Payloads(Segments(input, hdr, isV6, n - 1), hdr.hdrLen) + Segment(input, hdr, isV6, n - 1)[hdr.hdrLen..]
  {
    hide Segment, From;
    var segs := Segments(input, hdr, isV6, n);
    assert segs[..n - 1] == Segments(input, hdr, isV6, n - 1);
  }

  /** Segment n - 1 begins where segment n - 2 ends. */
  lemma Meets(input: seq<byte>, hdr: VirtioNetHdr, n: nat)
    requires hdr.hdrLen <= |input| && hdr.gsoSize > 0 && 0 < n <= Count(input, hdr)
    ensures hdr.hdrLen <= From(hdr, n - 1) < To(input, hdr, n - 1) <= |input|
    ensures From(hdr, n - 1) == if n == 1 then hdr.hdrLen as nat else To(input, hdr, n - 2)
  {
    CountBounds(input, hdr);
    assert n >= 2 ==> (n - 1) * hdr.gsoSize == (n - 2) * hdr.gsoSize + hdr.gsoSize;
  }

  /**
   The segments partition the payload: in order, none lost or repeated. Only the last one
   may show FIN or PSH, and IPv4 IDs count up from the input's.
   */
  lemma SegmentsPartition(input: seq<byte>, hdr: VirtioNetHdr, isV6: bool)
    requires Ready(input, hdr, isV6) && hdr.gsoSize > 0
    requires forall i :: 0 <= i < Count(input, hdr) ==> From(hdr, i) <= |input|
    ensures var segs := Segments(input, hdr, isV6, Count(input, hdr));
            && Payloads(segs, hdr.hdrLen) == input[hdr.hdrLen..]
            && forall i :: 0 <= i < |segs| ==>
                 && hdr.hdrLen < |segs[i]|
                 && (if i < |segs| - 1 then |segs[i]| == hdr.hdrLen + hdr.gsoSize
                      else |segs[i]| <= hdr.hdrLen + hdr.gsoSize)
                 && (!isV6 ==> BE16(segs[i], 4) == U16(BE16(input, 4) + i))
                 && (IsTcp(hdr) && i < |segs| - 1 ==> NoFinPsh(segs[i][hdr.csumStart + 13]))
  {
    hide Segment, Count, To, ChecksumValid, WithoutFinPsh, WordSum, OnesFold;
    var n := Count(input, hdr);
    CountBounds(input, hdr);
    FirstSegments(input, hdr, isV6, n);
    forall i | 0 <= i < n
      ensures var seg := Segment(input, hdr, isV6, i);
              && hdr.hdrLen < |seg|
              && (if i < n - 1 then |seg| == hdr.hdrLen + hdr.gsoSize else |seg| <= hdr.hdrLen + hdr.gsoSize)
              && (!isV6 ==> BE16(seg, 4) == U16(BE16(input, 4) + i))
              && (IsTcp(hdr) && i < n - 1 ==> NoFinPsh(seg[hdr.csumStart + 13]))
    {
      SegmentIs(input, hdr, isV6, i);
      SegmentSize(input, hdr, i);
      if IsTcp(hdr) {
        WithoutFinPshIs(input[hdr.csumStart + 13]);
      }
    }
  }

  lemma SegmentSize(input: seq<byte>, hdr: VirtioNetHdr, i: nat)
    requires hdr.hdrLen <= |input| && hdr.gsoSize > 0 && i < Count(input, hdr)
    ensures var n := To(input, hdr, i) - From(hdr, i);
            && From(hdr, i) < |input|
            && (if i < Count(input, hdr) - 1 then n == hdr.gsoSize && To(input, hdr, i) < |input|
                else 0 < n <= hdr.gsoSize && To(input, hdr, i) == |input|)
  {
    CountBounds(input, hdr);
    assert (i + 1) * hdr.gsoSize == i * hdr.gsoSize + hdr.gsoSize;
  }

  /**
   The IPv6 payload length is right exactly when no extension header stands between the IPv6
   header and the transport header: the code subtracts csumStart, not 40.
   */
  lemma Ipv6LengthRight(input: seq<byte>, hdr: VirtioNetHdr, isV6: bool, i: nat)
    requires Ready(input, hdr, isV6) && From(hdr, i) <= |input|
    ensures LengthMatches(Segment(input, hdr, isV6, i), isV6) <==> !isV6 || hdr.csumStart == 40
  {
    hide Segment, To, TransportFields, ChecksumValid, WordSum, OnesFold;
    SegmentIs(input, hdr, isV6, i);
  }
}
