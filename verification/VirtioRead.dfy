/**
 handleVirtioRead, gsoSplit and gsoNoneChecksum over mutable buffers, proved to deliver
 exactly the packets of module Gso.
 */
module VirtioRead {
  import opened Arithmetic
  import opened Bytes
  import opened ChecksumSpec
  import opened FastChecksum
  import opened Options
  import opened Packet
  import opened Gro
  import opened Gso
  import opened GsoSegments
  import opened RoundTrip
  import opened Buffers

  // ---- a packet growing in an output buffer -------------------------------------------

  /** Output buffer k holds p from offset o on; nothing else has changed since start. */
  ghost predicate Holding(now: seq<Buf>, start: seq<Buf>, k: nat, o: nat, p: seq<byte>) {
    && k < |start| && o + |p| <= |start[k].data|
    && now == start[k := start[k].(data := Splice(start[k].data, o, p))]
  }

  lemma HoldingNothing(start: seq<Buf>, k: nat, o: nat)
    requires k < |start| && o <= |start[k].data|
    ensures Holding(start, start, k, o, [])
  {
    assert Splice(start[k].data, o, []) == start[k].data;
  }

  lemma HoldingMore(now: seq<Buf>, start: seq<Buf>, k: nat, o: nat, p: seq<byte>, src: seq<byte>)
    requires Holding(now, start, k, o, p) && o + |p| + |src| <= |start[k].data|
    ensures k < |now| && o + |p| + |src| <= |now[k].data|
    ensures Holding(now[k := now[k].(data := Splice(now[k].data, o + |p|, src))], start, k, o, p + src)
  {
    assert Splice(Splice(start[k].data, o, p), o + |p|, src) == Splice(start[k].data, o, p + src);
  }

  /** copy(out[len(p):], src) */
  method CopyOut(out: Batch, k: nat, o: nat, p: seq<byte>, src: seq<byte>, ghost start: seq<Buf>) returns (r: seq<byte>)
    requires out.Valid() && Holding(out.View(), start, k, o, p) && o + |p| + |src| <= |start[k].data|
    modifies out.arrays
    ensures r == p + src && out.Valid() && Holding(out.View(), start, k, o, r)
  {
    hide *;
    HoldingMore(out.View(), start, k, o, p, src);
    out.Copy(k, o + |p|, src);
    r := p + src;
  }

  lemma HoldingPut(now: seq<Buf>, start: seq<Buf>, k: nat, o: nat, p: seq<byte>, at: nat, v: u16)
    requires Holding(now, start, k, o, p) && at + 2 <= |p|
    ensures k < |now| && o + at + 2 <= |now[k].data|
    ensures Holding(now[k := now[k].(data := PutBE16(now[k].data, o + at, v))], start, k, o, PutBE16(p, at, v))
  {
    assert PutBE16(Splice(start[k].data, o, p), o + at, v) == Splice(start[k].data, o, PutBE16(p, at, v));
  }

  lemma HoldingSet(now: seq<Buf>, start: seq<Buf>, k: nat, o: nat, p: seq<byte>, at: nat, b: byte)
    requires Holding(now, start, k, o, p) && at < |p|
    ensures k < |now| && o + at < |now[k].data|
    ensures Holding(now[k := now[k].(data := now[k].data[o + at := b])], start, k, o, p[at := b])
  {
    assert Splice(start[k].data, o, p)[o + at := b] == Splice(start[k].data, o, p[at := b]);
  }

  /** binary.BigEndian.PutUint16(out[at:], v) */
  method PutOut16(out: Batch, k: nat, o: nat, p: seq<byte>, at: nat, v: u16, ghost start: seq<Buf>)
    returns (r: seq<byte>)
    requires out.Valid() && Holding(out.View(), start, k, o, p) && at + 2 <= |p|
    modifies out.arrays
    ensures r == PutBE16(p, at, v) && out.Valid() && Holding(out.View(), start, k, o, r)
  {
    hide *;
    HoldingPut(out.View(), start, k, o, p, at, v);
    out.PutUint16(k, o + at, v);
    r := PutBE16(p, at, v);
  }

  /** binary.BigEndian.PutUint32(out[at:], v) */
  method PutOut32(out: Batch, k: nat, o: nat, p: seq<byte>, at: nat, v: u32, ghost start: seq<Buf>)
    returns (r: seq<byte>)
    requires out.Valid() && Holding(out.View(), start, k, o, p) && at + 4 <= |p|
    modifies out.arrays
    ensures r == PutBE32(p, at, v) && out.Valid() && Holding(out.View(), start, k, o, r)
  {
    hide *;
    Halves(p, at, v);
    r := PutOut16(out, k, o, p, at, v / TWO16, start);
    r := PutOut16(out, k, o, r, at + 2, v % TWO16, start);
  }

  lemma Halves(p: seq<byte>, at: nat, v: u32)
    requires at + 4 <= |p|
    ensures 0 <= v / TWO16 < TWO16 && 0 <= v % TWO16 < TWO16
    ensures PutBE32(p, at, v) == PutBE16(PutBE16(p, at, v / TWO16), at + 2, v % TWO16)
  {
  }

  /** out[at] = b */
  method SetOut(out: Batch, k: nat, o: nat, p: seq<byte>, at: nat, b: byte, ghost start: seq<Buf>)
    returns (r: seq<byte>)
    requires out.Valid() && Holding(out.View(), start, k, o, p) && at < |p|
    modifies out.arrays
    ensures r == p[at := b] && out.Valid() && Holding(out.View(), start, k, o, r)
  {
    hide *;
    HoldingSet(out.View(), start, k, o, p, at, b);
    out.Set(k, o + at, b);
    r := p[at := b];
  }

  // ---- one segment --------------------------------------------------------------------

  /** Segment i's IP header, of a packet of total bytes. */
  function IpHeader(h: seq<byte>, isV6: bool, total: nat, i: nat): (r: seq<byte>)
    requires |h| >= if isV6 then 40 else 20
    ensures |r| == |h|
  {
    if isV6 then PutBE16(h, 4, U16(total - |h|))
    else
      var id := if i > 0 then PutBE16(h, 4, U16(BE16(h, 4) + U16(i))) else h;
      var len := PutBE16(id, 2, U16(total));
      PutBE16(len, 10, 0xffff - OnesFold(0 + WordSum(len)))
  }

  /** The IP header alone decides what PatchIp writes. */
  lemma IpHeaderOf(seg: seq<byte>, isV6: bool, iphLen: nat, i: nat)
    requires iphLen <= |seg| && iphLen >= if isV6 then 40 else 20
    ensures PatchIp(seg, isV6, iphLen, i) == IpHeader(seg[..iphLen], isV6, |seg|, i) + seg[iphLen..]
  {
    hide WordSum, OnesFold;
    if !isV6 {
      var h := seg[..iphLen];
      var id := if i > 0 then PutBE16(seg, 4, U16(BE16(seg, 4) + U16(i))) else seg;
      var hid := if i > 0 then PutBE16(h, 4, U16(BE16(h, 4) + U16(i))) else h;
      assert id[..iphLen] == hid;
      assert PutBE16(id, 2, U16(|seg|))[..iphLen] == PutBE16(hid, 2, U16(|seg|));
    }
  }

  method IpHeaderOut(out: Batch, k: nat, o: nat, h: seq<byte>, isV6: bool, total: nat, i: nat, le: bool,
          ghost start: seq<Buf>) returns (r: seq<byte>)
    requires out.Valid() && Holding(out.View(), start, k, o, h) && |h| >= if isV6 then 40 else 20
    modifies out.arrays
    ensures r == IpHeader(h, isV6, total, i) && out.Valid() && Holding(out.View(), start, k, o, r)
  {
    hide PutBE16, BE16, Holding, WordSum, OnesFold, U16, Splice;
    r := h;
    if !isV6 {
      if i > 0 {
        var id := U16(BE16(r, 4) + U16(i));
        r := PutOut16(out, k, o, r, 4, id, start);
      }
      r := PutOut16(out, k, o, r, 2, U16(total), start);
      var c := Checksum(le, r, 0);
      r := PutOut16(out, k, o, r, 10, 0xffff - c, start);
    } else {
      r := PutOut16(out, k, o, r, 4, U16(total - |h|), start);
    }
  }

  /** The transport header of segment i, which carries dataLen bytes of payload. */
  function TransportHeader(h: seq<byte>, input: seq<byte>, hdr: VirtioNetHdr, i: nat, last: bool,
          dataLen: nat): (r: seq<byte>)
    requires hdr.csumStart as nat + (if IsTcp(hdr) then 20 else 8) <= hdr.hdrLen == |h| <= |input|
    ensures |r| == |h|
  {
    var start := hdr.csumStart as nat;
    if IsTcp(hdr) then PatchTcp(h, start, BE32(input, start + 4), hdr.gsoSize, i, last)
    else PutBE16(h, start + 4, U16(U16(dataLen) + U16(hdr.hdrLen - hdr.csumStart)))
  }

  lemma PatchTcpHead(seg: seq<byte>, n: nat, start: nat, first: u32, gsoSize: u16, i: nat, last: bool)
    requires start + 20 <= n <= |seg|
    ensures PatchTcp(seg, start, first, gsoSize, i, last)
        == PatchTcp(seg[..n], start, first, gsoSize, i, last) + seg[n..]
  {
  }

  lemma PutInHead(seg: seq<byte>, n: nat, at: nat, v: u16)
    requires at + 2 <= n <= |seg|
    ensures PutBE16(seg, at, v) == PutBE16(seg[..n], at, v) + seg[n..]
    ensures PutBE16(seg, at, v)[..n] == PutBE16(seg[..n], at, v) && PutBE16(seg, at, v)[n..] == seg[n..]
  {
  }

  /** The headers alone decide what the transport patch writes. */
  lemma TransportHeaderOf(seg: seq<byte>, input: seq<byte>, hdr: VirtioNetHdr, i: nat)
    requires hdr.csumStart as nat + (if IsTcp(hdr) then 20 else 8) <= hdr.hdrLen <= |seg| && hdr.hdrLen <= |input|
    ensures TransportPatch(seg, input, hdr, i)
         == TransportHeader(seg[..hdr.hdrLen], input, hdr, i, To(input, hdr, i) == |input|, |seg| - hdr.hdrLen)
             + seg[hdr.hdrLen..]
  {
    hide To, PatchTcp, BE32;
    if IsTcp(hdr) {
      PatchTcpHead(seg, hdr.hdrLen, hdr.csumStart, BE32(input, hdr.csumStart as nat + 4), hdr.gsoSize, i,
          To(input, hdr, i) == |input|);
    } else {
      PutInHead(seg, hdr.hdrLen, hdr.csumStart as nat + 4,
          U16(U16(|seg| - hdr.hdrLen) + U16(hdr.hdrLen - hdr.csumStart)));
    }
  }

  method TransportHeaderOut(out: Batch, k: nat, o: nat, h: seq<byte>, input: seq<byte>, hdr: VirtioNetHdr, i: nat,
          last: bool, dataLen: nat, ghost start: seq<Buf>)
    returns (r: seq<byte>)
    requires out.Valid() && Holding(out.View(), start, k, o, h)
    requires hdr.csumStart as nat + (if IsTcp(hdr) then 20 else 8) <= hdr.hdrLen == |h| <= |input|
    modifies out.arrays
    ensures r == TransportHeader(h, input, hdr, i, last, dataLen) && out.Valid() && Holding(out.View(), start, k, o, r)
  {
    hide PutBE16, PutBE32, BE16, BE32, Holding, U16, U32, Splice, WithoutFinPsh;
    var at := hdr.csumStart as nat;
    if IsTcp(hdr) {
      var tcpSeq := U32(BE32(input, at + 4) + U16(hdr.gsoSize as int * U16(i)));
      r := PutOut32(out, k, o, h, at + 4, tcpSeq, start);
      if !last {
        r := SetOut(out, k, o, r, at + TCP_FLAGS_OFFSET, WithoutFinPsh(r[at + TCP_FLAGS_OFFSET]), start);
      }
    } else {
      r := PutOut16(out, k, o, h, at + 4, U16(U16(dataLen) + U16(hdr.hdrLen - hdr.csumStart)), start);
    }
  }

  /** A segment put together from its parts. */
  lemma Assembled(input: seq<byte>, hdr: VirtioNetHdr, isV6: bool, i: nat)
    requires Splittable(input, hdr, isV6) && From(hdr, i) <= |input|
    ensures hdr.csumStart <= hdr.hdrLen <= From(hdr, i) <= To(input, hdr, i) <= |input|
    ensures var start, from, to := hdr.csumStart as nat, From(hdr, i), To(input, hdr, i);
            var total := hdr.hdrLen as nat + (to - from);
            var ip := IpHeader(input[..start], isV6, total, i);
            var headers := TransportHeader(ip + input[start..hdr.hdrLen], input, hdr, i, to == |input|, to - from);
            Segment(input, hdr, isV6, i)
            == PatchCsum(headers + input[from..to], start, start + hdr.csumOffset,
                         if IsTcp(hdr) then PROTO_TCP else PROTO_UDP,
                         SrcAddr(input, isV6), DstAddr(input, isV6))
  {
    hide IpHeader, TransportHeader, TransportPatch, PatchIp, PatchCsum, Segment, SrcAddr, DstAddr, To;
    var raw := Raw(input, hdr, i);
    Bounds(input, hdr, i);
    SegmentByStages(input, hdr, isV6, i);
    IpHeaderOf(raw, isV6, hdr.csumStart, i);
    var ip := PatchIp(raw, isV6, hdr.csumStart, i);
    TransportHeaderOf(ip, input, hdr, i);
    assert raw[..hdr.csumStart] == input[..hdr.csumStart];
    assert ip[..hdr.hdrLen] == IpHeader(input[..hdr.csumStart], isV6, |raw|, i) + input[hdr.csumStart..hdr.hdrLen];
    assert ip[hdr.hdrLen..] == input[From(hdr, i)..To(input, hdr, i)];
  }

  lemma Bounds(input: seq<byte>, hdr: VirtioNetHdr, i: nat)
    requires hdr.hdrLen <= |input| && From(hdr, i) <= |input|
    ensures hdr.hdrLen <= From(hdr, i) <= To(input, hdr, i) <= |input|
    ensures hdr.hdrLen as nat + (To(input, hdr, i) - From(hdr, i)) <= To(input, hdr, 0)
  {
    hide From;
    FromPast(hdr, i);
    NextFrom(hdr, 0);
  }

  lemma FromPast(hdr: VirtioNetHdr, i: nat)
    ensures From(hdr, i) >= hdr.hdrLen as nat
  {
    Product(i, hdr.gsoSize);
  }

  /** The transport checksum of a segment, over what is in the buffer. */
  method CsumOut(out: Batch, k: nat, o: nat, seg: seq<byte>, at: nat, csumAt: nat, proto: byte, src: seq<byte>,
          dst: seq<byte>, le: bool, ghost start: seq<Buf>)
    returns (r: seq<byte>)
    requires out.Valid() && Holding(out.View(), start, k, o, seg) && at <= csumAt && csumAt + 2 <= |seg|
    modifies out.arrays
    ensures r == PatchCsum(seg, at, csumAt, proto, src, dst) && out.Valid() && Holding(out.View(), start, k, o, r)
  {
    hide PutBE16, Holding, U16, WordSum, OnesFold, PseudoSum;
    var len := U16(|seg| - at);
    var noFold := PseudoHeaderChecksumNoFold(le, proto, src, dst, len);
    var c := Checksum(le, seg[at..], noFold);
    Chained(noFold, PseudoSum(proto, src, dst, len), WordSum(seg[at..]));
    r := PutOut16(out, k, o, seg, csumAt, 0xffff - c, start);
  }

  /** A partial sum can stand in for what it was made from. */
  lemma Chained(partial: nat, sum: nat, more: nat)
    requires SameFold(partial, sum)
    ensures OnesFold(partial + more) == OnesFold(sum + more)
  {
  }

  /** The body of gsoSplit's loop: segment i, of the packet input, into output buffer i. */
  method SegmentOut(out: Batch, o: nat, input: seq<byte>, hdr: VirtioNetHdr, isV6: bool, i: nat, from: nat, to: nat,
          le: bool) returns (total: nat)
    requires out.Valid() && Splittable(input, hdr, isV6) && i < |out.View()|
    requires from == From(hdr, i) <= |input| && to == To(input, hdr, i) && o + To(input, hdr, 0) <= |out.View()[i].data|
    modifies out.arrays
    ensures out.Valid() && total == |Segment(input, hdr, isV6, i)|
    ensures Holding(out.View(), old(out.View()), i, o, Segment(input, hdr, isV6, i))
  {
    hide From, To, Segment, Holding, IpHeader, TransportHeader, PatchCsum, SrcAddr, DstAddr, Splice;
    ghost var start := out.View();
    Bounds(input, hdr, i);
    Assembled(input, hdr, isV6, i);
    var iphLen, dataLen := hdr.csumStart as nat, to - from;
    total := hdr.hdrLen + dataLen;
    HoldingNothing(start, i, o);
    var p := CopyOut(out, i, o, [], input[..iphLen], start);
    assert p == input[..iphLen];
    p := IpHeaderOut(out, i, o, p, isV6, total, i, le, start);
    p := CopyOut(out, i, o, p, input[iphLen..hdr.hdrLen], start);
    p := TransportHeaderOut(out, i, o, p, input, hdr, i, to == |input|, dataLen, start);
    p := CopyOut(out, i, o, p, input[from..to], start);
    p := CsumOut(out, i, o, p, iphLen, iphLen + hdr.csumOffset, if IsTcp(hdr) then PROTO_TCP else PROTO_UDP,
                 SrcAddr(input, isV6), DstAddr(input, isV6), le, start);
  }

  // ---- gsoSplit -----------------------------------------------------------------------

  /** The first buffers of v hold packets, their sizes in sizes; nothing else has changed since before. */
  ghost predicate Filled(v: seq<Buf>, before: seq<Buf>, sizes: seq<int>, sizesBefore: seq<int>, o: nat,
          packets: seq<seq<byte>>) {
    && |packets| <= |before| == |v| && |before| <= |sizes| == |sizesBefore|
    && (forall j :: 0 <= j < |packets| ==> HoldsPacket(v[j], before[j], o, packets[j]) && sizes[j] == |packets[j]|)
    && (forall j :: |packets| <= j < |v| ==> v[j] == before[j])
    && (forall j :: |packets| <= j < |sizes| ==> sizes[j] == sizesBefore[j])
  }

  ghost predicate HoldsPacket(now: Buf, before: Buf, o: nat, packet: seq<byte>) {
    o + |packet| <= |before.data| && now == before.(data := Splice(before.data, o, packet))
  }

  /** A filled buffer shows its packet. */
  lemma PacketSeen(now: Buf, before: Buf, o: nat, packet: seq<byte>)
    requires HoldsPacket(now, before, o, packet)
    ensures |now.data| == |before.data| && now.data[o..o + |packet|] == packet
    ensures now.data[..o] == before.data[..o]
  {
  }

  lemma NothingFilled(v: seq<Buf>, sizes: seq<int>, o: nat)
    requires |v| <= |sizes|
    ensures Filled(v, v, sizes, sizes, o, [])
  {
  }

  lemma OneMoreFilled(v: seq<Buf>, now: seq<Buf>, before: seq<Buf>, sizes: seq<int>, sizesBefore: seq<int>, o: nat,
          packets: seq<seq<byte>>, packet: seq<byte>)
    requires Filled(v, before, sizes, sizesBefore, o, packets) && |packets| < |before|
        && Holding(now, v, |packets|, o, packet)
    ensures Filled(now, before, sizes[|packets| := |packet|], sizesBefore, o, packets + [packet])
  {
    hide Splice;
  }

  /** Each output buffer has room for the longest segment after o. */
  ghost predicate Roomy(v: seq<Buf>, o: nat, input: seq<byte>, hdr: VirtioNetHdr)
    requires hdr.hdrLen <= |input|
  {
    forall k :: 0 <= k < |v| ==> o + To(input, hdr, 0) <= |v[k].data|
  }

  lemma StillRoomy(v: seq<Buf>, before: seq<Buf>, sizes: seq<int>, sizesBefore: seq<int>, o: nat,
          packets: seq<seq<byte>>, k: nat, room: nat)
    requires Filled(v, before, sizes, sizesBefore, o, packets) && k < |v| && o + room <= |before[k].data|
    ensures o + room <= |v[k].data|
  {
  }

  /** Segment n is the first that would begin at or after the end of the packet, or beyond m. */
  ghost predicate Reaches(input: seq<byte>, hdr: VirtioNetHdr, n: nat, m: nat) {
    && n <= m
    && (forall i :: 0 <= i < n ==> From(hdr, i) < |input|)
    && (n < m ==> From(hdr, n) >= |input|)
  }

  lemma NextFrom(hdr: VirtioNetHdr, i: nat)
    ensures From(hdr, i + 1) == From(hdr, i) + hdr.gsoSize && From(hdr, 0) == hdr.hdrLen
  {
  }

  lemma SegmentsNext(input: seq<byte>, hdr: VirtioNetHdr, isV6: bool, i: nat)
    requires Splittable(input, hdr, isV6) && forall j :: 0 <= j <= i ==> From(hdr, j) <= |input|
    ensures Segments(input, hdr, isV6, i + 1) == Segments(input, hdr, isV6, i) + [Segment(input, hdr, isV6, i)]
  {
    hide Segment;
  }

  /** in[at], in[at+1] = 0, 0, where in is read from base on. */
  method ClearField(read: array<byte>, base: nat, at: nat)
    requires base + at + 2 <= read.Length
    modifies read
    ensures read[..base] == old(read[..base]) && read[base..] == PutBE16(old(read[base..]), at, 0)
  {
    read[base + at], read[base + at + 1] := 0, 0;
  }

  /** Clears the checksum fields that every segment recomputes. */
  method ClearChecksums(read: array<byte>, base: nat, csumAt: nat, isV6: bool)
    requires base + csumAt + 2 <= read.Length && base + 12 <= read.Length
    modifies read
    ensures read[base..] == Cleared(old(read[base..]), csumAt, isV6)
  {
    hide PutBE16;
    if !isV6 {
      ClearField(read, base, 10);
    }
    ClearField(read, base, csumAt);
  }

  /** One iteration of gsoSplit's loop. */
  method EmitSegment(out: Batch, sizes: array<int>, o: nat, input: seq<byte>, hdr: VirtioNetHdr, isV6: bool, i: nat,
          from: nat, to: nat, le: bool,
          ghost before: seq<Buf>, ghost sizesBefore: seq<int>)
    requires out.Valid() && Splittable(input, hdr, isV6) && i < |out.View()|
        && (forall j :: 0 <= j <= i ==> From(hdr, j) <= |input|)
    requires from == From(hdr, i) && to == To(input, hdr, i) && |before| == |out.View()|
        && o + To(input, hdr, 0) <= |before[i].data|
    requires Filled(out.View(), before, sizes[..], sizesBefore, o, Segments(input, hdr, isV6, i))
    modifies out.arrays, sizes
    ensures out.Valid()
    ensures Filled(out.View(), before, sizes[..], sizesBefore, o, Segments(input, hdr, isV6, i + 1))
  {
    hide *;
    FilledFacts(out.View(), before, sizes[..], sizesBefore, o, Segments(input, hdr, isV6, i));
    ghost var packets, v, s := Segments(input, hdr, isV6, i), out.View(), sizes[..];
    StillRoomy(v, before, s, sizesBefore, o, packets, i, To(input, hdr, 0));
    var total := SegmentOut(out, o, input, hdr, isV6, i, from, to, le);
    assert sizes[..] == s;
    sizes[i] := total;
    assert sizes[..] == s[i := total];
    CountOfSegments(input, hdr, isV6, i);
    OneMoreFilled(v, out.View(), before, s, sizesBefore, o, packets, Segment(input, hdr, isV6, i));
    SegmentsNext(input, hdr, isV6, i);
  }

  lemma CountOfSegments(input: seq<byte>, hdr: VirtioNetHdr, isV6: bool, n: nat)
    requires Splittable(input, hdr, isV6) && forall i :: 0 <= i < n ==> From(hdr, i) <= |input|
    ensures |Segments(input, hdr, isV6, n)| == n
  {
  }

  lemma FilledFacts(v: seq<Buf>, before: seq<Buf>, sizes: seq<int>, sizesBefore: seq<int>, o: nat,
          packets: seq<seq<byte>>)
    requires Filled(v, before, sizes, sizesBefore, o, packets)
    ensures |before| == |v| <= |sizes|
  {
  }

  /**
   gsoSplit: one segment after another until the packet or the buffers run out. Out of
   buffers, it reports one packet fewer than the buffers it has filled.
   */
  method GsoSplit(read: array<byte>, base: nat, hdr: VirtioNetHdr, out: Batch, sizes: array<int>, o: nat, isV6: bool,
          le: bool)
    returns (n: int, tooMany: bool)
    requires base <= read.Length && Splittable(read[base..], hdr, isV6) && out.Valid() && read !in out.arrays
    requires |out.View()| <= sizes.Length && Roomy(out.View(), o, read[base..], hdr)
    modifies read, out.arrays, sizes
    ensures out.Valid()
    ensures read[base..] == Cleared(old(read[base..]), hdr.csumStart as nat + hdr.csumOffset, isV6)
    ensures 0 <= if tooMany then n + 1 else n
    ensures var input := Cleared(old(read[base..]), hdr.csumStart as nat + hdr.csumOffset, isV6);
            var filled := if tooMany then n + 1 else n;
            && Reaches(input, hdr, filled, |old(out.View())|)
            && tooMany == (From(hdr, filled) < |input|)
            && Filled(out.View(), old(out.View()), sizes[..], old(sizes[..]), o, Segments(input, hdr, isV6, filled))
  {
    hide From, To, Segment, Segments, Filled, Cleared;
    ghost var before, sizesBefore := out.View(), sizes[..];
    ClearChecksums(read, base, hdr.csumStart as nat + hdr.csumOffset, isV6);
    var input := read[base..];
    ToFirst(old(read[base..]), input, hdr);
    NextFrom(hdr, 0);
    NothingFilled(before, sizesBefore, o);
    var next: nat := hdr.hdrLen;
    var i, m := 0, |out.bufs|;
    CountOfSegments(input, hdr, isV6, 0);
    assert Segments(input, hdr, isV6, 0) == [];
    while next < |input|
      invariant i <= m == |before| == |out.bufs| && next == From(hdr, i) && out.Valid() && read[base..] == input
      invariant forall j :: 0 <= j < i ==> From(hdr, j) < |input|
      invariant Filled(out.View(), before, sizes[..], sizesBefore, o, Segments(input, hdr, isV6, i))
      decreases m - i
    {
      if i == m {
        return i - 1, true;
      }
      var nextEnd := next + hdr.gsoSize;
      if nextEnd > |input| {
        nextEnd := |input|;
      }
      NextFrom(hdr, i);
      EndOf(input, hdr, i);
      EmitSegment(out, sizes, o, input, hdr, isV6, i, next, nextEnd, le, before, sizesBefore);
      next := next + hdr.gsoSize;
      i := i + 1;
    }
    return i, false;
  }

  lemma EndOf(input: seq<byte>, hdr: VirtioNetHdr, i: nat)
    ensures To(input, hdr, i) == if From(hdr, i) + hdr.gsoSize > |input| then |input| else From(hdr, i) + hdr.gsoSize
  {
  }

  lemma ToFirst(a: seq<byte>, b: seq<byte>, hdr: VirtioNetHdr)
    requires |a| == |b|
    ensures To(a, hdr, 0) == To(b, hdr, 0)
  {
  }

  /**
   How gsoSplit ends: it fails exactly when the packet makes more segments than there are
   buffers, for a zero segment size whenever there is any payload. Before failing it has
   filled every buffer.
   */
  lemma SplitOutcome(input: seq<byte>, hdr: VirtioNetHdr, filled: nat, m: nat, tooMany: bool)
    requires hdr.hdrLen <= |input| && Reaches(input, hdr, filled, m) && tooMany == (From(hdr, filled) < |input|)
    ensures hdr.gsoSize > 0 ==> tooMany == (Count(input, hdr) > m) && filled == if tooMany then m else Count(input, hdr)
    ensures hdr.gsoSize == 0 ==> tooMany == (|input| > hdr.hdrLen) && filled == if tooMany then m else 0
  {
    if hdr.gsoSize > 0 {
      CountBounds(input, hdr);
      NotBeyond(input, hdr, filled, Count(input, hdr));
    } else {
      NoStep(hdr, filled);
      if filled > 0 {
        NoStep(hdr, 0);
        assert From(hdr, 0) < |input|;
      }
    }
  }

  lemma NotBeyond(input: seq<byte>, hdr: VirtioNetHdr, n: nat, c: nat)
    requires From(hdr, c) >= |input| && forall i :: 0 <= i < n ==> From(hdr, i) < |input|
    ensures n <= c
  {
  }

  lemma NoStep(hdr: VirtioNetHdr, i: nat)
    requires hdr.gsoSize == 0
    ensures From(hdr, i) == hdr.hdrLen
  {
  }

  // ---- gsoNoneChecksum ----------------------------------------------------------------

  /** Writes a 16-bit field of the packet that starts at base. */
  method PutField(read: array<byte>, base: nat, at: nat, v: u16)
    requires base + at + 2 <= read.Length
    modifies read
    ensures read[base..] == PutBE16(old(read[base..]), at, v)
  {
    read[base + at], read[base + at + 1] := v / 0x100, v % 0x100;
  }

  method GsoNoneChecksumAt(read: array<byte>, base: nat, csumStart: u16, csumOffset: u16, le: bool)
    requires base <= read.Length && U16(csumStart + csumOffset) as nat + 2 <= |read[base..]|
        && csumStart <= |read[base..]|
    modifies read
    ensures read[base..] == GsoNoneChecksum(old(read[base..]), csumStart, csumOffset)
  {
    hide PutBE16, BE16, OnesFold, WordSum;
    var at: nat := U16(csumStart + csumOffset);
    var initial := BE16(read[base..], at);
    PutField(read, base, at, 0);
    var c := Checksum(le, read[base..][csumStart..], initial);
    PutField(read, base, at, 0xffff - c);
  }

  // ---- handleVirtioRead ---------------------------------------------------------------

  /** Output buffers large enough for what a read may deliver. */
  ghost predicate RoomFor(plan: Plan, v: seq<Buf>, offset: nat) {
    match plan
    case Fail(_) => true
    case Deliver(_) => |v| > 0 && offset <= |v[0].data|
    case Split(input, hdr, isV6) => hdr.hdrLen <= |input| && Roomy(v, offset, input, hdr)
  }

  /** What handleVirtioRead promises of a read whose plan this is. */
  ghost predicate Carried(plan: Plan, n: int, error: Option<ReadError>, v: seq<Buf>, before: seq<Buf>, sizes: seq<int>,
          sizesBefore: seq<int>, offset: nat) {
    match plan
    case Fail(e) => n == 0 && error == Some(e) && v == before && sizes == sizesBefore
    case Deliver(packet) =>
      if |before| == 0 || offset + |packet| > |before[0].data| then n == 0 && error == Some(BufferOverflow)
          && v == before && sizes == sizesBefore
      else n == 1 && error == None && Filled(v, before, sizes, sizesBefore, offset, [packet])
    case Split(input, hdr, isV6) =>
      && Splittable(input, hdr, isV6)
      && var filled := if error == None then n else n + 1;
         && 0 <= filled
         && Reaches(SplitInput(plan), hdr, filled, |before|)
         && error == (if From(hdr, filled) < |input| then Some(TooManySegments) else None)
         && Filled(v, before, sizes, sizesBefore, offset, Segments(SplitInput(plan), hdr, isV6, filled))
  }

  /** The checks between the virtio header and gsoSplit, and the header length recomputed from the packet. */
  method Validate(hdr: VirtioNetHdr, input: seq<byte>) returns (plan: Plan)
    requires |input| > 0
    ensures plan == PlanSplit(hdr, input)
    ensures |input| <= 0xffff ==>
              && plan.Split? == (WholeHeaders(hdr, input) && CsumWithin(hdr, input))
              && (plan.Split? ==> Measured(hdr, input, plan))
    ensures Placed(hdr, input) && plan.Split? ==> Passed(hdr, input, plan)
  {
    if |input| <= 0xffff {
      ChecksExact(hdr, input);
    }
    hide Placed, WholeHeaders, Measured, Passed, CsumWithin;
    var ipVersion := input[0] / 0x10;
    if ipVersion == 4 {
      if hdr.gsoType != GSO_TCPV4 && hdr.gsoType != GSO_UDP_L4 {
        return Fail(VersionMismatch);
      }
    } else if ipVersion == 6 {
      if hdr.gsoType != GSO_TCPV6 && hdr.gsoType != GSO_UDP_L4 {
        return Fail(VersionMismatch);
      }
    } else {
      return Fail(InvalidVersion);
    }
    var hdrLen: u16;
    if hdr.gsoType == GSO_UDP_L4 {
      hdrLen := U16(hdr.csumStart + 8);
    } else {
      var at := U16(hdr.csumStart + 12);
      if |input| <= at {
        return Fail(PacketTooShort);
      }
      var tcpHLen := input[at] / 0x10 * 4;
      if tcpHLen < 20 || tcpHLen > 60 {
        return Fail(InvalidTcpHeaderLen);
      }
      hdrLen := U16(hdr.csumStart + tcpHLen);
    }
    if |input| < hdrLen {
      return Fail(ShorterThanHeaders);
    }
    if hdrLen < hdr.csumStart {
      return Fail(HdrLenBelowCsumStart);
    }
    if U16(hdr.csumStart + hdr.csumOffset) + 1 >= |input| {
      return Fail(CsumBeyondPacket);
    }
    return Split(input, hdr.(hdrLen := hdrLen), ipVersion == 6);
  }

  /** Delivers one packet that needs no splitting. */
  method DeliverWhole(packet: seq<byte>, bufs: Batch, sizes: array<int>, offset: nat)
    returns (n: int, error: Option<ReadError>)
    requires bufs.Valid() && 0 < |bufs.View()| <= sizes.Length && offset <= |bufs.View()[0].data|
    modifies bufs.arrays, sizes
    ensures bufs.Valid()
    ensures Carried(Deliver(packet), n, error, bufs.View(), old(bufs.View()), sizes[..], old(sizes[..]), offset)
  {
    ghost var before, sizesBefore := bufs.View(), sizes[..];
    var data := bufs.Read(0);
    if |packet| > |data| - offset {
      return 0, Some(BufferOverflow);
    }
    bufs.Copy(0, offset, packet);
    ghost var v := bufs.View();
    sizes[0] := |packet|;
    NothingFilled(before, sizesBefore, offset);
    assert Holding(v, before, 0, offset, packet);
    OneMoreFilled(before, v, before, sizesBefore, sizesBefore, offset, [], packet);
    assert [] + [packet] == [packet];
    return 1, None;
  }

  /** handleVirtioRead: one read from the device into packets. */
  method HandleVirtioRead(le: bool, read: array<byte>, bufs: Batch, sizes: array<int>, offset: nat)
    returns (n: int, error: Option<ReadError>)
    requires bufs.Valid() && read !in bufs.arrays && 0 < |bufs.View()| <= sizes.Length
    requires Trusted(le, read[..]) && RoomFor(PlanRead(le, read[..]), bufs.View(), offset)
    modifies read, bufs.arrays, sizes
    ensures bufs.Valid()
    ensures Carried(PlanRead(le, old(read[..])), n, error, bufs.View(), old(bufs.View()), sizes[..], old(sizes[..]),
        offset)
  {
    hide Roomy, Filled, Segments, PlanSplit, GsoNoneChecksum, WholeHeaders, Reaches, Cleared, Decode, Zeros;
    if read.Length < VIRTIO_NET_HDR_LEN {
      return 0, Some(ShortBuffer);
    }
    var hdr := Decode(le, read[..]);
    assert read[..][VIRTIO_NET_HDR_LEN..] == read[VIRTIO_NET_HDR_LEN..];
    if hdr.gsoType == GSO_NONE {
      if hdr.flags % 2 == NEEDS_CSUM {
        GsoNoneChecksumAt(read, VIRTIO_NET_HDR_LEN, hdr.csumStart, hdr.csumOffset, le);
      }
      n, error := DeliverWhole(read[VIRTIO_NET_HDR_LEN..], bufs, sizes, offset);
      return;
    }
    if hdr.gsoType != GSO_TCPV4 && hdr.gsoType != GSO_TCPV6 && hdr.gsoType != GSO_UDP_L4 {
      return 0, Some(UnsupportedGsoType);
    }
    var plan := Validate(hdr, read[VIRTIO_NET_HDR_LEN..]);
    FailsOrSplits(hdr, read[VIRTIO_NET_HDR_LEN..]);
    if plan.Fail? {
      return 0, Some(plan.error);
    }
    PlannedSplit(le, read[..]);
    var tooMany;
    n, tooMany := GsoSplit(read, VIRTIO_NET_HDR_LEN, plan.hdr, bufs, sizes, offset, plan.isV6, le);
    error := if tooMany then Some(TooManySegments) else None;
  }

  lemma FailsOrSplits(hdr: VirtioNetHdr, input: seq<byte>)
    requires |input| > 0
    ensures var plan := PlanSplit(hdr, input); plan.Fail? || (plan.Split? && plan.input == input)
  {
  }

  /** A packet that is not split fits the first buffer. */
  predicate FirstFits(plan: Plan, before: seq<Buf>, offset: nat) {
    plan.Deliver? && before != [] ==> offset + |plan.packet| <= |before[0].data|
  }

  /**
   With buffers enough, the method delivers all packets of the read, in order. Otherwise it says
   so: of a packet that is not split it has written nothing, of one that is split it has filled
   every buffer, and counts one buffer fewer.
   */
  lemma ReadDelivers(le: bool, read: seq<byte>, n: int, error: Option<ReadError>, v: seq<Buf>, before: seq<Buf>,
          sizes: seq<int>, sizesBefore: seq<int>, offset: nat)
    requires Readable(le, read) && Carried(PlanRead(le, read), n, error, v, before, sizes, sizesBefore, offset)
    ensures error == None <==> |Packets(le, read)| <= |before| && FirstFits(PlanRead(le, read), before, offset)
    ensures error == None ==>
        n == |Packets(le, read)| && Filled(v, before, sizes, sizesBefore, offset, Packets(le, read))
    ensures PlanRead(le, read).Deliver? && error != None ==>
        error == Some(BufferOverflow) && n == 0 && v == before && sizes == sizesBefore
    ensures PlanRead(le, read).Split? && error != None && |before| > 0 ==>
              && error == Some(TooManySegments) && n == |before| - 1
              && Filled(v, before, sizes, sizesBefore, offset, Packets(le, read)[..|before|])
  {
    hide PlanRead, Filled, Segment, Cleared, Reaches;
    var plan := PlanRead(le, read);
    if plan.Split? {
      var filled := if error == None then n else n + 1;
      SplitOutcome(SplitInput(plan), plan.hdr, filled, |before|, From(plan.hdr, filled) < |plan.input|);
      PlannedSplit(le, read);
      CountBounds(plan.input, plan.hdr);
      if error != None {
        assert Packets(le, read)[..|before|] == Segments(SplitInput(plan), plan.hdr, plan.isV6, |before|);
      }
    }
  }
}
