/** What a read from the device delivers, in terms of the bytes that were read. */
module Reads {
  import opened Bytes
  import opened ChecksumSpec
  import opened FastChecksum
  import opened Options
  import opened Packet
  import opened Wire
  import opened Gro
  import opened Gso
  import opened GsoSegments
  import opened Accounting
  import opened RoundTrip
  import opened VirtioRead

  // ---- reads that are not split -------------------------------------------------------

  /** The sum of the pseudo-header of a packet whose transport header begins at start. */
  function PseudoOf(pkt: seq<byte>, start: nat, proto: byte, isV6: bool): nat
    requires start <= |pkt| <= 0xffff && |pkt| >= if isV6 then 40 else 20
  {
    PseudoSum(proto, SrcAddr(pkt, isV6), DstAddr(pkt, isV6), |pkt| - start)
  }

  /**
   out is the packet input that was read with its checksum completed: what stood at start + offset
   and the words of out from start on add up to all ones. If that was the folded sum of the
   pseudo-header, the transport checksum of out is valid. No other byte has changed.
   */
  ghost predicate Completed(input: seq<byte>, out: seq<byte>, start: nat, offset: nat) {
    && start + offset + 2 <= |input| == |out|
    && (forall k :: 0 <= k < |input| && k != start + offset && k != start + offset + 1 ==> out[k] == input[k])
    && OnesFold(Big(input, start + offset) + WordSum(out[start..])) == 0xffff
    && forall isV6: bool, proto: byte ::
         (if isV6 then 40 else 20) <= |input| <= 0xffff && start >= (if isV6 then 40 else 20)
         && Big(input, start + offset) == OnesFold(PseudoOf(input, start, proto, isV6))
         ==> ChecksumValid(out, start, proto, isV6)
  }

  /** What is delivered of a read that is not to be split: all of it, with a partial checksum completed. */
  ghost predicate WholePacket(le: bool, read: seq<byte>, out: seq<byte>) {
    && |read| >= 10
    && if read[0] % 2 == 0 then out == read[10..]
       else
         && |out| == |read| - 10
         && (Host(le, read, 8) % 2 == 0 && Host(le, read, 6) + Host(le, read, 8) + 2 <= |out| ==>
               Completed(read[10..], out, Host(le, read, 6), Host(le, read, 8)))
  }

  lemma CompletedBy(input: seq<byte>, csumStart: u16, csumOffset: u16)
    requires csumStart as nat + csumOffset + 2 <= |input| <= 0xffff && csumOffset % 2 == 0
    ensures Completed(input, GsoNoneChecksum(input, csumStart, csumOffset), csumStart, csumOffset)
  {
    hide GsoNoneChecksum, OnesFold, WordSum, PseudoSum, ChecksumValid, SrcAddr, DstAddr, BE16;
    var out, at := GsoNoneChecksum(input, csumStart, csumOffset), csumStart as nat + csumOffset;
    CompletedBytes(input, csumStart, csumOffset);
    FieldCompletes(input, csumStart, csumOffset);
    forall isV6: bool, proto: byte |
      |input| >= (if isV6 then 40 else 20) && csumStart >= (if isV6 then 40 else 20)
      && Big(input, at) == OnesFold(PseudoOf(input, csumStart, proto, isV6))
      ensures ChecksumValid(out, csumStart, proto, isV6)
    {
      ValidFromPseudo(input, out, csumStart, csumOffset, proto, isV6);
    }
  }

  lemma CompletedBytes(input: seq<byte>, csumStart: u16, csumOffset: u16)
    requires csumStart as nat + csumOffset + 2 <= |input| <= 0xffff
    ensures var at := csumStart as nat + csumOffset;
            && Big(input, at) == BE16(input, at)
            && forall k :: 0 <= k < |input| && k != at && k != at + 1 ==>
                 GsoNoneChecksum(input, csumStart, csumOffset)[k] == input[k]
  {
    hide OnesFold, WordSum;
  }

  lemma FieldCompletes(input: seq<byte>, csumStart: u16, csumOffset: u16)
    requires csumStart as nat + csumOffset + 2 <= |input| <= 0xffff && csumOffset % 2 == 0
    ensures var at := csumStart as nat + csumOffset;
            OnesFold(BE16(input, at) + WordSum(GsoNoneChecksum(input, csumStart, csumOffset)[csumStart..])) == 0xffff
  {
    hide *;
    var field := BE16(input, csumStart as nat + csumOffset);
    FoldOfField(field);
    NoneChecksumCompletes(input, csumStart, csumOffset, field);
  }

  lemma FoldOfField(v: u16)
    ensures OnesFold(v) == v
  {
  }

  lemma ValidFromPseudo(input: seq<byte>, out: seq<byte>, csumStart: u16, csumOffset: u16, proto: byte, isV6: bool)
    requires csumStart as nat + csumOffset + 2 <= |input| <= 0xffff && csumOffset % 2 == 0
    requires out == GsoNoneChecksum(input, csumStart, csumOffset)
    requires |input| >= (if isV6 then 40 else 20) && csumStart >= (if isV6 then 40 else 20)
    requires BE16(input, csumStart as nat + csumOffset) == OnesFold(PseudoOf(input, csumStart, proto, isV6))
    ensures ChecksumValid(out, csumStart, proto, isV6)
  {
    hide GsoNoneChecksum, OnesFold, WordSum, PseudoSum, BE16;
    NoneChecksumCompletes(input, csumStart, csumOffset, PseudoOf(input, csumStart, proto, isV6));
    CompletedBytes(input, csumStart, csumOffset);
    assert SrcAddr(out, isV6) == SrcAddr(input, isV6) && DstAddr(out, isV6) == DstAddr(input, isV6);
  }

  /**
   A read whose segment type is 0 is delivered whole: as it is when bit 0 of its flags is clear,
   otherwise with its checksum completed. When it does not fit the first buffer, nothing is written.
   */
  lemma UnsplitRead(le: bool, read: seq<byte>, n: int, error: Option<ReadError>, v: seq<Buf>, before: seq<Buf>,
          sizes: seq<int>, sizesBefore: seq<int>, offset: nat)
    requires Trusted(le, read) && |read| >= 10 && read[1] == 0 && before != []
    requires Carried(PlanRead(le, read), n, error, v, before, sizes, sizesBefore, offset)
    ensures if offset + |read| - 10 > |before[0].data| then
              error == Some(BufferOverflow) && n == 0 && v == before && sizes == sizesBefore
            else
              && error == None && n == 1 && |v| == |before| && sizes != [] && sizes[0] == |read| - 10
              && |v[0].data| == |before[0].data| && WholePacket(le, read, v[0].data[offset..offset + sizes[0]])
              && v[0].data[..offset] == before[0].data[..offset]
              && v[0].data[offset + sizes[0]..] == before[0].data[offset + sizes[0]..]
              && forall k :: 0 < k < |v| ==> v[k] == before[k]
  {
    hide Encode, GsoNoneChecksum, Completed, PlanSplit, OnesFold, WordSum, Splice;
    VirtioLayout(le, Decode(le, read), read);
    var hdr, input := Decode(le, read), read[10..];
    if read[0] % 2 == 1 && hdr.csumOffset % 2 == 0 && hdr.csumStart as nat + hdr.csumOffset + 2 <= |input| {
      CompletedBy(input, hdr.csumStart, hdr.csumOffset);
    }
    if offset + |input| <= |before[0].data| {
      var packet := PlanRead(le, read).packet;
      PacketSeen(v[0], before[0], offset, packet);
      PacketAround(v[0], before[0], offset, packet);
    }
  }

  lemma PacketAround(now: Buf, before: Buf, o: nat, packet: seq<byte>)
    requires HoldsPacket(now, before, o, packet)
    ensures now.data[..o] == before.data[..o] && now.data[o + |packet|..] == before.data[o + |packet|..]
  {
  }

  // ---- reads that are split -----------------------------------------------------------

  /** Where the payload of a read begins, by its transport header. */
  function PayloadAt(le: bool, read: seq<byte>): nat
    requires |read| >= 10
  {
    var h := Host(le, read, 6);
    if read[1] == 5 then h + 8 else h + if h + 22 < |read| then read[h + 22] / 16 * 4 else 0
  }

  /** packets cut the payload of a read into pieces of the size that its header names. */
  ghost predicate CutsUp(le: bool, read: seq<byte>, packets: seq<seq<byte>>) {
    && |read| >= 10
    && var hl, size := PayloadAt(le, read), Host(le, read, 4);
       && 10 + hl <= |read| && size > 0
       && Payloads(packets, hl) == read[10 + hl..]
       && forall j :: 0 <= j < |packets| ==>
            && hl < |packets[j]| <= hl + size
            && (j < |packets| - 1 ==> |packets[j]| == hl + size)
  }

  /** The plan of a read that is split, in figures. */
  lemma SplitPlan(le: bool, read: seq<byte>) returns (p: Plan)
    requires Readable(le, read) && |read| >= 10 && read[1] != 0
    ensures Trusted(le, read) && p == PlanRead(le, read) && p.Split? && Splittable(p.input, p.hdr, p.isV6)
    ensures p.input == read[10..] && p.hdr.gsoSize as nat == Host(le, read, 4) > 0
    ensures p.hdr.hdrLen as nat == PayloadAt(le, read) <= |p.input|
    ensures p.hdr.csumStart as nat == Host(le, read, 6) && IsTcp(p.hdr) == (read[1] != 5)
    ensures |read| > 10 && p.isV6 == (read[10] / 16 == 6)
  {
    hide Encode, PlanSplit, WholeHeaders, Splittable;
    VirtioLayout(le, Decode(le, read), read);
    FailsOrSplits(Decode(le, read), read[10..]);
    p := PlanRead(le, read);
    PlannedSplit(le, read);
    SplittableSizes(p.input, p.hdr, p.isV6);
  }

  lemma SplittableSizes(input: seq<byte>, hdr: VirtioNetHdr, isV6: bool)
    requires Splittable(input, hdr, isV6)
    ensures hdr.hdrLen <= |input|
  {
  }

  lemma SplitPackets(le: bool, read: seq<byte>, p: Plan)
    requires Readable(le, read) && p == PlanRead(le, read) && p.Split? && Splittable(p.input, p.hdr, p.isV6)
    ensures p.hdr.hdrLen <= |p.input| && p.hdr.gsoSize > 0 && |SplitInput(p)| == |p.input|
    ensures forall i :: 0 <= i < Count(SplitInput(p), p.hdr) ==> From(p.hdr, i) <= |p.input|
    ensures Packets(le, read) == Segments(SplitInput(p), p.hdr, p.isV6, Count(SplitInput(p), p.hdr))
    ensures Ready(SplitInput(p), p.hdr, p.isV6) && SplitInput(p)[p.hdr.hdrLen..] == p.input[p.hdr.hdrLen..]
  {
    hide Trusted, PlanRead, Segment, Cleared, Ready;
    CountBounds(p.input, p.hdr);
    ClearedReady(p.input, p.hdr, p.isV6);
    ClearedPayload(p.input, p.hdr, p.isV6);
  }

  /** Payload sizes and headers of a read that is split, by the bytes of its virtio header. */
  lemma SplitRead(le: bool, read: seq<byte>)
    requires Readable(le, read) && |read| >= 10 && read[1] != 0
    ensures CutsUp(le, read, Packets(le, read))
  {
    hide *;
    var p := SplitPlan(le, read);
    SplitPackets(le, read, p);
    SegmentsPartition(SplitInput(p), p.hdr, p.isV6);
    CutsUpFrom(le, read, Packets(le, read), p.hdr);
  }

  /** FIN and PSH taken away, and no other flag. */
  predicate TakenAway(now: byte, flags: byte) {
    && now % 2 == 0 && now / 8 % 2 == 0
    && now / 2 % 2 == flags / 2 % 2 && now / 4 % 2 == flags / 4 % 2 && now / 16 == flags / 16
  }

  lemma FlagsTakenAway(flags: byte)
    ensures TakenAway(WithoutFinPsh(flags), flags)
  {
    var halves := flags / 2;
    var fourths := halves / 2;
    var eighths := fourths / 2;
    var high, psh, rst, syn, fin := eighths / 2, eighths % 2, fourths % 2, halves % 2, flags % 2;
    Digits(high, psh, rst, syn, fin);
    Digits(high, 0, rst, syn, 0);
    TakenDigits(flags, high, psh, rst, syn, fin);
  }

  lemma TakenDigits(flags: byte, high: nat, psh: nat, rst: nat, syn: nat, fin: nat)
    requires flags == 16 * high + 8 * psh + 4 * rst + 2 * syn + fin && flags % 2 == fin && flags / 8 % 2 == psh
    ensures WithoutFinPsh(flags) as int == 16 * high + 4 * rst + 2 * syn
  {
  }

  lemma Digits(high: nat, d: nat, c: nat, b: nat, a: nat)
    requires a < 2 && b < 2 && c < 2 && d < 2
    ensures var x := 16 * high + 8 * d + 4 * c + 2 * b + a;
            x % 2 == a && x / 2 % 2 == b && x / 4 % 2 == c && x / 8 % 2 == d && x / 16 == high
  {
    var x := 16 * high + 8 * d + 4 * c + 2 * b + a;
    Half(x, 8 * high + 4 * d + 2 * c + b, a);
    Half(x / 2, 4 * high + 2 * d + c, b);
    Half(x / 4, 2 * high + d, c);
    Half(x / 8, high, d);
  }

  lemma Half(x: nat, q: nat, r: nat)
    requires x == 2 * q + r && r < 2
    ensures x / 2 == q && x % 2 == r
    ensures x / 4 == q / 2 && x / 8 == q / 4 && x / 16 == q / 8
  {
  }

  /** A segment's IP header: true lengths, a valid IPv4 header checksum, and IPv4 IDs that count up. */
  predicate IpFigures(input: seq<byte>, pkt: seq<byte>, isV6: bool, h: nat, i: nat)
    requires 20 <= h <= |pkt| && h <= |input|
  {
    if isV6 then Big(pkt, 4) == |pkt| - h
    else
      && Big(pkt, 2) == |pkt| && OnesFold(WordSum(pkt[..h])) == 0xffff
      && Big(pkt, 4) == (Big(input, 4) + i) % 0x1_0000
  }

  /** The TCP sequence number with the position added to it, in 32 bits. */
  predicate SequenceFigures(input: seq<byte>, pkt: seq<byte>, h: nat, from: nat)
    requires h + 8 <= |pkt| && h + 8 <= |input|
  {
    0x1_0000 * Big(pkt, h + 4) + Big(pkt, h + 6)
    == (0x1_0000 * Big(input, h + 4) + Big(input, h + 6) + from) % 0x1_0000_0000
  }

  /** A segment's TCP or UDP header. */
  predicate TransportFigures(input: seq<byte>, pkt: seq<byte>, tcp: bool, h: nat, from: nat, last: bool)
    requires h + (if tcp then 20 else 8) <= |pkt| && h + (if tcp then 20 else 8) <= |input|
  {
    if tcp then
      && SequenceFigures(input, pkt, h, from)
      && if last then pkt[h + 13] == input[h + 13] else TakenAway(pkt[h + 13], input[h + 13])
    else Big(pkt, h + 4) == |pkt| - h
  }

  /**
   The headers of packet i of n that the packet input is split into, with h bytes before the
   transport header and hl in all: the input's, but for lengths and checksums, which are right,
   the IPv4 ID, which counts up, the sequence number, and FIN and PSH, which only the last one shows.
   */
  ghost predicate SegmentFigures(input: seq<byte>, pkt: seq<byte>, tcp: bool, isV6: bool, h: nat, hl: nat, size: nat,
          i: nat, n: nat) {
    && (if isV6 then 40 else 20) <= h && h + (if tcp then 20 else 8) <= hl <= |pkt| <= 0xffff && hl <= |input|
    && (forall k :: 0 <= k < hl ==> pkt[k] == input[k] || Rewritten(tcp, isV6, h, k))
    && IpFigures(input, pkt, isV6, h, i)
    && TransportFigures(input, pkt, tcp, h, i * size, i == n - 1)
    && ChecksumValid(pkt, h, if tcp then 6 else 17, isV6)
  }

  lemma IpShows(input: seq<byte>, cleared: seq<byte>, pkt: seq<byte>, isV6: bool, h: nat, i: nat)
    requires 20 <= h <= |pkt| && h <= |input| && h <= |cleared| && IpFields(pkt, cleared, h, isV6, i)
    requires cleared[4] == input[4] && cleared[5] == input[5]
    ensures IpFigures(input, pkt, isV6, h, i)
  {
    hide WordSum, OnesFold;
  }

  lemma SequenceShows(input: seq<byte>, cleared: seq<byte>, pkt: seq<byte>, h: nat, from: nat)
    requires h + 8 <= |pkt| && h + 8 <= |input| && h + 8 <= |cleared| && BE32(cleared, h + 4) == BE32(input, h + 4)
    requires BE32(pkt, h + 4) == U32(BE32(cleared, h + 4) + from)
    ensures SequenceFigures(input, pkt, h, from)
  {
  }

  lemma SegmentShows(input: seq<byte>, cleared: seq<byte>, hdr: VirtioNetHdr, isV6: bool, i: nat)
    requires Splittable(input, hdr, isV6) && cleared == Cleared(input, hdr.csumStart as nat + hdr.csumOffset, isV6)
    requires hdr.gsoSize > 0 && i < Count(cleared, hdr) && From(hdr, i) <= |cleared| && Splittable(cleared, hdr, isV6)
    ensures SegmentFigures(input, Segment(cleared, hdr, isV6, i), IsTcp(hdr), isV6, hdr.csumStart, hdr.hdrLen,
                hdr.gsoSize, i, Count(cleared, hdr))
  {
    hide *;
    Sizes(cleared, hdr, isV6);
    var pkt, h, last := Segment(cleared, hdr, isV6, i), hdr.csumStart as nat, i == Count(cleared, hdr) - 1;
    ClearedReady(input, hdr, isV6);
    ClearedStream(input, hdr, isV6);
    SegmentIs(cleared, hdr, isV6, i);
    SegmentSize(cleared, hdr, i);
    IpShows(input, cleared, pkt, isV6, h, i);
    TransportParts(pkt, cleared, hdr, i, i * hdr.gsoSize);
    TransportShows(input, cleared, pkt, IsTcp(hdr), h, i * hdr.gsoSize, last);
    KeptShows(input, cleared, pkt, IsTcp(hdr), isV6, h, hdr.hdrLen);
    FiguresFrom(input, pkt, IsTcp(hdr), isV6, h, hdr.hdrLen, hdr.gsoSize, i, last, Count(cleared, hdr));
  }

  lemma Sizes(input: seq<byte>, hdr: VirtioNetHdr, isV6: bool)
    requires Splittable(input, hdr, isV6)
    ensures hdr.csumStart >= (if isV6 then 40 else 20)
    ensures hdr.csumStart as nat + (if IsTcp(hdr) then 20 else 8) <= hdr.hdrLen <= |input| <= 0xffff
  {
  }

  lemma KeptShows(input: seq<byte>, cleared: seq<byte>, pkt: seq<byte>, tcp: bool, isV6: bool, h: nat, hl: nat)
    requires hl <= |pkt| && hl <= |input| == |cleared|
    requires forall k :: 0 <= k < |input| && !Rewritten(tcp, isV6, h, k) ==> cleared[k] == input[k]
    requires forall k :: 0 <= k < hl && !Rewritten(tcp, isV6, h, k) ==> pkt[k] == cleared[k]
    ensures forall k :: 0 <= k < hl ==> pkt[k] == input[k] || Rewritten(tcp, isV6, h, k)
  {
    hide Rewritten;
  }

  /** What TransportFields says, field by field. */
  lemma TransportParts(seg: seq<byte>, cleared: seq<byte>, hdr: VirtioNetHdr, i: nat, from: nat)
    requires hdr.csumStart as nat + (if IsTcp(hdr) then 20 else 8) <= |seg| <= |cleared| && from == i * hdr.gsoSize
    requires TransportFields(seg, cleared, hdr, i)
    ensures var h, flags := hdr.csumStart as nat, cleared[hdr.csumStart + if IsTcp(hdr) then 13 else 0];
            if IsTcp(hdr) then
              && BE32(seg, h + 4) == U32(BE32(cleared, h + 4) + from)
              && seg[h + 13] == (if To(cleared, hdr, i) == |cleared| then flags else WithoutFinPsh(flags))
            else BE16(seg, h + 4) == |seg| - h
  {
    hide BE32, To, WithoutFinPsh, BE16;
  }

  lemma TransportShows(input: seq<byte>, cleared: seq<byte>, pkt: seq<byte>, tcp: bool, h: nat, from: nat, last: bool)
    requires h + (if tcp then 20 else 8) <= |pkt| && h + (if tcp then 20 else 8) <= |input| == |cleared|
    requires tcp ==>
               && BE32(pkt, h + 4) == U32(BE32(cleared, h + 4) + from)
               && pkt[h + 13] == (if last then cleared[h + 13] else WithoutFinPsh(cleared[h + 13]))
               && cleared[h + 13] == input[h + 13] && BE32(cleared, h + 4) == BE32(input, h + 4)
    requires !tcp ==> BE16(pkt, h + 4) == |pkt| - h
    ensures TransportFigures(input, pkt, tcp, h, from, last)
  {
    hide WithoutFinPsh, TakenAway, SequenceFigures, BE32;
    if tcp {
      SequenceShows(input, cleared, pkt, h, from);
      FlagsTakenAway(input[h + 13]);
    }
  }

  lemma FiguresFrom(input: seq<byte>, pkt: seq<byte>, tcp: bool, isV6: bool, h: nat, hl: nat, size: nat, i: nat,
          last: bool, n: nat)
    requires (if isV6 then 40 else 20) <= h && h + (if tcp then 20 else 8) <= hl <= |pkt| <= 0xffff && hl <= |input|
    requires forall k :: 0 <= k < hl ==> pkt[k] == input[k] || Rewritten(tcp, isV6, h, k)
    requires IpFigures(input, pkt, isV6, h, i) && TransportFigures(input, pkt, tcp, h, i * size, last)
    requires ChecksumValid(pkt, h, if tcp then PROTO_TCP else PROTO_UDP, isV6) && (last <==> i == n - 1)
    ensures SegmentFigures(input, pkt, tcp, isV6, h, hl, size, i, n)
  {
    hide Rewritten, IpFigures, TransportFigures, ChecksumValid;
  }

  /** Clearing the checksums leaves the ID, the sequence number and the flags. */
  lemma ClearedStream(input: seq<byte>, hdr: VirtioNetHdr, isV6: bool)
    requires Splittable(input, hdr, isV6)
    ensures var r, h := Cleared(input, hdr.csumStart as nat + hdr.csumOffset, isV6), hdr.csumStart as nat;
            && r[4] == input[4] && r[5] == input[5]
            && (IsTcp(hdr) ==> r[h + 13] == input[h + 13] && BE32(r, h + 4) == BE32(input, h + 4))
  {
  }

  /** The headers of every packet that a read is split into, by the bytes of the read. */
  lemma SplitHeaders(le: bool, read: seq<byte>, i: nat)
    requires Readable(le, read) && |read| > 10 && read[1] != 0 && i < |Packets(le, read)|
    ensures SegmentFigures(read[10..], Packets(le, read)[i], read[1] != 5, read[10] / 16 == 6, Host(le, read, 6),
                PayloadAt(le, read), Host(le, read, 4), i, |Packets(le, read)|)
  {
    hide Trusted, PlanRead, Segment, Cleared, Splittable, Host, PayloadAt, SegmentFigures, Count, From, IsTcp;
    var p := SplitPlan(le, read);
    SplitPackets(le, read, p);
    SegmentShows(p.input, SplitInput(p), p.hdr, p.isV6, i);
  }

  lemma CutsUpFrom(le: bool, read: seq<byte>, packets: seq<seq<byte>>, hdr: VirtioNetHdr)
    requires |read| >= 10 && hdr.gsoSize as nat == Host(le, read, 4) > 0
    requires hdr.hdrLen as nat == PayloadAt(le, read) <= |read[10..]|
    requires Payloads(packets, hdr.hdrLen) == read[10..][hdr.hdrLen..]
    requires forall i :: 0 <= i < |packets| ==>
               && hdr.hdrLen < |packets[i]|
               && (if i < |packets| - 1 then |packets[i]| == hdr.hdrLen + hdr.gsoSize
                   else |packets[i]| <= hdr.hdrLen + hdr.gsoSize)
    ensures CutsUp(le, read, packets)
  {
    hide PayloadAt, Host;
    assert read[10..][hdr.hdrLen..] == read[10 + hdr.hdrLen..];
  }

  lemma ClearedPayload(input: seq<byte>, hdr: VirtioNetHdr, isV6: bool)
    requires Splittable(input, hdr, isV6)
    ensures Cleared(input, hdr.csumStart as nat + hdr.csumOffset, isV6)[hdr.hdrLen..] == input[hdr.hdrLen..]
  {
  }

  // ---- reads that are refused ---------------------------------------------------------

  /** What is wrong with a read, error by error; arithmetic on offsets is in 16 bits. */
  predicate Deserves(le: bool, read: seq<byte>, e: ReadError) {
    if |read| < 10 then e == ShortBuffer
    else if read[1] !in {0, 1, 4, 5} then e == UnsupportedGsoType
    else
      && read[1] != 0 && |read| > 10
      && var input, start := read[10..], Host(le, read, 6);
         var version, lenAt := input[0] / 16, (start + 12) % 0x1_0000;
         var len := if read[1] == 5 then 8 else if lenAt < |input| then input[lenAt] / 16 * 4 else 0;
         var hl := (start + len) % 0x1_0000;
         match e
         case InvalidVersion => version != 4 && version != 6
         case VersionMismatch => (version == 4 && read[1] == 4) || (version == 6 && read[1] == 1)
         case PacketTooShort => read[1] != 5 && |input| <= lenAt
         case InvalidTcpHeaderLen => read[1] != 5 && lenAt < |input| && len < 20
         case ShorterThanHeaders => |input| < hl
         case HdrLenBelowCsumStart => hl < start
         case CsumBeyondPacket => |input| < (start + Host(le, read, 8)) % 0x1_0000 + 2
         case _ => false
  }

  /** The order in which the errors are looked for. */
  function Rank(e: ReadError): nat {
    match e
    case ShortBuffer => 0
    case UnsupportedGsoType => 1
    case InvalidVersion => 2
    case VersionMismatch => 3
    case PacketTooShort => 4
    case InvalidTcpHeaderLen => 5
    case ShorterThanHeaders => 6
    case HdrLenBelowCsumStart => 7
    case CsumBeyondPacket => 8
    case BufferOverflow => 9
    case TooManySegments => 9
  }

  /** e is the first error to be found. */
  ghost predicate FirstFault(le: bool, read: seq<byte>, e: ReadError) {
    Deserves(le, read, e) && forall other :: Rank(other) < Rank(e) ==> !Deserves(le, read, other)
  }

  lemma RefusedSplit(le: bool, hdr: VirtioNetHdr, read: seq<byte>)
    requires |read| > 10 && read[1] in {1, 4, 5} && LaysOut(le, read, hdr)
    ensures PlanSplit(hdr, read[10..]).Fail? ==> FirstFault(le, read, PlanSplit(hdr, read[10..]).error)
    ensures (exists e :: Deserves(le, read, e)) ==> PlanSplit(hdr, read[10..]).Fail?
  {
    hide Deserves, PlanSplit;
    var plan := PlanSplit(hdr, read[10..]);
    forall e: ReadError
      ensures plan == Fail(e) ==> Deserves(le, read, e)
      ensures Deserves(le, read, e) ==> plan.Fail? && Rank(plan.error) <= Rank(e)
    {
      Refusal(le, hdr, read, e);
    }
  }

  /** One error at a time. */
  lemma Refusal(le: bool, hdr: VirtioNetHdr, read: seq<byte>, e: ReadError)
    requires |read| > 10 && read[1] in {1, 4, 5} && LaysOut(le, read, hdr)
    ensures var plan := PlanSplit(hdr, read[10..]);
            && (plan == Fail(e) ==> Deserves(le, read, e))
            && (Deserves(le, read, e) ==> plan.Fail? && Rank(plan.error) <= Rank(e))
  {
    hide *;
    if read[1] == 5 {
      UdpRefusal(le, hdr, read, e);
    } else {
      TcpRefusal(le, hdr, read, e);
    }
  }

  lemma UdpRefusal(le: bool, hdr: VirtioNetHdr, read: seq<byte>, e: ReadError)
    requires |read| > 10 && read[1] == 5 && LaysOut(le, read, hdr)
    ensures var plan := PlanSplit(hdr, read[10..]);
            && (plan == Fail(e) ==> Deserves(le, read, e))
            && (Deserves(le, read, e) ==> plan.Fail? && Rank(plan.error) <= Rank(e))
  {
    hide Host;
  }

  lemma TcpRefusal(le: bool, hdr: VirtioNetHdr, read: seq<byte>, e: ReadError)
    requires |read| > 10 && (read[1] == 1 || read[1] == 4) && LaysOut(le, read, hdr)
    ensures var plan := PlanSplit(hdr, read[10..]);
            && (plan == Fail(e) ==> Deserves(le, read, e))
            && (Deserves(le, read, e) ==> plan.Fail? && Rank(plan.error) <= Rank(e))
  {
    hide Host;
  }

  /** A read is refused exactly when something is wrong with it, with the first error to be found. */
  lemma RefusedRead(le: bool, read: seq<byte>)
    requires Trusted(le, read)
    ensures PlanRead(le, read).Fail? ==> FirstFault(le, read, PlanRead(le, read).error)
    ensures (exists e :: Deserves(le, read, e)) ==> PlanRead(le, read).Fail?
  {
    hide Encode, GsoNoneChecksum, PlanSplit;
    if |read| >= 10 {
      VirtioLayout(le, Decode(le, read), read);
      if |read| > 10 && read[1] in {1, 4, 5} {
        RefusedSplit(le, Decode(le, read), read);
      }
    }
  }
}
