/** When a packet comes back from a merged buffer byte for byte. */
module Intact {
  import opened Bytes
  import opened ChecksumSpec
  import opened FastChecksum
  import opened Packet
  import opened Gro
  import opened GroItem
  import opened GroInvariant
  import opened Gso
  import opened GsoSegments
  import opened Accounting
  import opened RoundTrip
  import opened Delivery
  import opened Batches

  /** The lengths and checksums of a packet are those that reading it back computes anew. */
  predicate Canonical(item: Item, pkt: seq<byte>)
    requires Shaped(item) && item.HdrLen() <= |pkt|
  {
    var h, v6 := item.iphLen as nat, item.key.isV6;
    && ChecksumValid(pkt, h, item.Proto(), v6)
    && (!v6 ==> OnesFold(WordSum(pkt[..h])) == 0xffff)
    && (item.UdpItem? ==> BE16(pkt, h + 4) == |pkt| - h)
    && ZeroAsZero(item, pkt)
  }

  /**
   Packet ps[j] of the packets ps of a buffer is what reading back makes of it: it is alone, or
   its fields agree with the first packet's where they are taken from there, its lengths and
   checksums are canonical, and its PSH is not dropped.
   */
  ghost predicate Unaltered(inp: Input, ps: seq<nat>, j: nat)
    requires j < |ps|
  {
    || |ps| == 1
    || (&& Desc(inp, ps[j]).Some?
        && var item, pkt := Desc(inp, ps[j]).value, Pkt(inp, ps[j]);
           && Shaped(item) && Inherits(item, pkt, Pkt(inp, ps[0]), j) && Canonical(item, pkt)
           && !(j == |ps| - 1 && PshLost(inp, ps)))
  }

  /** The positions of the checksums. */
  predicate CsumAt(item: Item, k: nat) {
    || k == item.iphLen + item.CsumOffset() || k == item.iphLen + item.CsumOffset() + 1
    || (!item.key.isV6 && (k == 10 || k == 11))
  }

  /** Two packets that agree on every field agree on every header byte but those of the checksums. */
  lemma FieldsAgree(item: Item, out: seq<byte>, orig: seq<byte>, first: seq<byte>, j: nat)
    requires Shaped(item) && item.HdrLen() <= |out| == |orig|
    requires Inherits(item, out, first, j) && Inherits(item, orig, first, j)
    requires HeadersAgree(item.TcpItem?, item.key.isV6, item.HdrLen(), out, orig)
    requires LengthMatches(out, item.key.isV6) && LengthMatches(orig, item.key.isV6)
    requires var h := item.iphLen as nat;
             if item.TcpItem? then BE32(out, h + 4) == BE32(orig, h + 4) && out[h + 13] == orig[h + 13]
             else BE16(out, h + 4) == BE16(orig, h + 4)
    ensures forall k: nat :: k < item.HdrLen() && !CsumAt(item, k) ==> out[k] == orig[k]
  {
    hide BE16, BE32;
    var h := item.iphLen as nat;
    SameField(out, orig, if item.key.isV6 then 4 else 2);
    if !item.key.isV6 {
      SameField(out, orig, 4);
    }
    if item.TcpItem? {
      SameSeq(out, orig, h + 4);
    } else {
      SameField(out, orig, h + 4);
    }
  }

  lemma SameField(a: seq<byte>, b: seq<byte>, at: nat)
    requires at + 2 <= |a| == |b|
    ensures BE16(a, at) == BE16(b, at) ==> a[at] == b[at] && a[at + 1] == b[at + 1]
  {
  }

  lemma SameSeq(a: seq<byte>, b: seq<byte>, at: nat)
    requires at + 4 <= |a| == |b| && BE32(a, at) == BE32(b, at)
    ensures forall k :: at <= k < at + 4 ==> a[k] == b[k]
  {
    BE32Injective(a, at, b, at);
    OptionsAgree(a, b, at, at + 4);
  }

  lemma PayloadsAgree(a: seq<byte>, b: seq<byte>, n: nat)
    requires n <= |a| == |b| && a[n..] == b[n..]
    ensures forall k :: n <= k < |a| ==> a[k] == b[k]
  {
    assert forall k :: n <= k < |a| ==> a[k] == a[n..][k - n] && b[k] == b[n..][k - n];
  }

  lemma HeadsAgree(a: seq<byte>, b: seq<byte>, n: nat)
    requires n <= |a| == |b| && forall k :: 0 <= k < n ==> a[k] == b[k]
    ensures a[..n] == b[..n]
  {
  }

  /** Packets that agree on all but the checksums, with canonical checksums, are the same. */
  lemma ChecksumsAgree(item: Item, out: seq<byte>, orig: seq<byte>)
    requires Shaped(item) && item.HdrLen() <= |out| == |orig|
    requires forall k: nat :: k < item.HdrLen() && !CsumAt(item, k) ==> out[k] == orig[k]
    requires out[item.HdrLen()..] == orig[item.HdrLen()..]
    requires Canonical(item, out) && Canonical(item, orig)
    ensures out == orig
  {
    hide WordSum, OnesFold, PseudoSum, BE16;
    var h, v6, hl := item.iphLen as nat, item.key.isV6, item.HdrLen();
    PayloadsAgree(out, orig, hl);
    if !v6 {
      SliceField(out, 0, h, 10);
      SliceField(orig, 0, h, 10);
      assert out[0..h] == out[..h] && orig[0..h] == orig[..h];
      FieldUnique(out[..h], orig[..h], 10, 0);
    }
    HeadsAgree(out, orig, h);
    assert SrcAddr(out, v6) == SrcAddr(orig, v6) && DstAddr(out, v6) == DstAddr(orig, v6);
    SliceField(out, h, |out|, h + item.CsumOffset());
    SliceField(orig, h, |orig|, h + item.CsumOffset());
    assert out[h..|out|] == out[h..] && orig[h..|orig|] == orig[h..];
    FieldUnique(out[h..], orig[h..], item.CsumOffset() as nat,
        PseudoSum(item.Proto(), SrcAddr(out, v6), DstAddr(out, v6), U16(|out| - h)));
    assert out == out[..h] + out[h..] && orig == orig[..h] + orig[h..];
  }

  /** Every packet of a frame is the original one exactly when it is unaltered. */
  ghost predicate ExactlyUnaltered(le: bool, inp: Input, ps: seq<nat>, frame: seq<byte>) {
    && Readable(le, frame) && |Packets(le, frame)| == |ps|
    && forall j :: 0 <= j < |ps| ==> (Packets(le, frame)[j] == Pkt(inp, ps[j]) <==> Unaltered(inp, ps, j))
  }

  lemma MergedUnaltered(inp: Input, ps: seq<nat>, j: nat, out: seq<byte>)
    requires j < |ps| && |ps| > 1 && Good(inp, 0) && Faithful(inp, ps, j, out)
    ensures out == Pkt(inp, ps[j]) <==> Unaltered(inp, ps, j)
  {
    hide Desc, Pkt, ChecksumValid, WordSum, OnesFold, BE16, BE32, LengthMatches, ZeroAsZero, HeadersAgree, PshLost,
        SameFlags, TcpFlags;
    var item, orig := Desc(inp, ps[j]).value, Pkt(inp, ps[j]);
    Described(inp, ps[j]);
    DescribedLength(inp, ps[j]);
    OwnFlags(inp, ps[j]);
    if j == |ps| - 1 && PshLost(inp, ps) {
      LostFlags(inp, ps, out);
    } else if Unaltered(inp, ps, j) {
      if item.TcpItem? {
        FlagsAt(inp, ps[j], out);
      }
      FieldsAgree(item, out, orig, Pkt(inp, ps[0]), j);
      ChecksumsAgree(item, out, orig);
    }
  }

  lemma DescribedLength(inp: Input, p: nat)
    requires Desc(inp, p).Some? && p < TWO16
    ensures |Pkt(inp, p)| >= 20 && LengthMatches(Pkt(inp, p), Desc(inp, p).value.key.isV6)
  {
    hide Classify, LengthMatches;
    ClassifiedHeaders(Pkt(inp, p), inp.canUdpGro, p);
  }

  lemma OwnFlags(inp: Input, p: nat)
    ensures SameFlags(inp, p, Pkt(inp, p))
  {
  }

  lemma FlagsAt(inp: Input, p: nat, out: seq<byte>)
    requires Desc(inp, p).Some? && Desc(inp, p).value.TcpItem? && SameFlags(inp, p, out) && Shaped(Desc(inp, p).value)
    requires Desc(inp, p).value.HdrLen() <= |out| == |Pkt(inp, p)|
    ensures var h := Desc(inp, p).value.iphLen as nat;
            h + 13 < |out| && out[h + 13] == Pkt(inp, p)[h + 13]
  {
    hide Desc, Pkt;
  }

  /**
   Read back from a frame, a packet is the original one byte for byte exactly when it is
   unaltered: alone in its buffer, or canonical and in agreement with the first packet.
   */
  lemma ByteForByte(le: bool, inp: Input, ps: seq<nat>, frame: seq<byte>)
    requires ReadsBack(le, inp, ps, frame) && Good(inp, 0)
    ensures ExactlyUnaltered(le, inp, ps, frame)
  {
    hide PlanRead, Trusted, Packets, Restores, FlagsFollow, Inherits, Canonical, Pkt, Desc, Shaped;
    forall j | 0 <= j < |ps|
      ensures Packets(le, frame)[j] == Pkt(inp, ps[j]) <==> Unaltered(inp, ps, j)
    {
      if |ps| > 1 {
        MergedUnaltered(inp, ps, j, Packets(le, frame)[j]);
      }
    }
  }

  /** Buffer k is written as a frame whose packets are the original ones exactly where they are unaltered. */
  ghost predicate WritesExactly(le: bool, inp: Input, s: State, after: seq<Buf>, k: nat) {
    && k < |after| && k < |s.parts| && VIRTIO_NET_HDR_LEN <= inp.offset <= |after[k].data|
    && ExactlyUnaltered(le, inp, s.parts[k], Frame(after[k].data, inp.offset))
  }

  /** The frames of a batch give back byte for byte exactly the packets that are unaltered. */
  lemma BatchByteForByte(le: bool, inp: Input, after: seq<Buf>, toWrite: seq<nat>)
    requires Handled(le, inp, after, toWrite) && inp.bufs != []
    ensures forall k: nat :: k in toWrite ==> WritesExactly(le, inp, Run(inp, |inp.bufs|), after, k)
  {
    hide Run, Inv, ReadsBack, ExactlyUnaltered, Frame, AccountedBy;
    BatchDelivered(le, inp, after, toWrite);
    forall k: nat | k in toWrite
      ensures WritesExactly(le, inp, Run(inp, |inp.bufs|), after, k)
    {
      assert WritesOut(le, inp, Run(inp, |inp.bufs|), after, k);
      ByteForByte(le, inp, Run(inp, |inp.bufs|).parts[k], Frame(after[k].data, inp.offset));
    }
  }
}
