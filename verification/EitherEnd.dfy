/**
 A TCP stream whose packets arrive in any order in which each comes right before or right after
 those that are there, forwards, backwards or both in turn, is merged into one group.
 */
module EitherEnd {
  import opened Arithmetic
  import opened Bytes
  import opened Packet
  import opened Gro
  import opened GroItem
  import opened GroInvariant
  import opened UdpOrder
  import opened Decisions
  import opened Grouping
  import opened Accounting
  import opened Delivery
  import opened Batches
  import opened Frames

  /** The packets ps of a flow are one stream: alike, valid, in sequence, whole and without PSH before the last. */
  ghost predicate OneStream(inp: Input, key: FlowKey, ps: seq<nat>) {
    && Candidates(inp, ps) && key.TcpKey?
    && (forall j :: 0 <= j < |ps| ==> ItemOf(inp, ps[j]).key == key && RightSum(inp, ps[j]))
    && (forall j, k :: 0 <= j < |ps| && 0 <= k < |ps| ==> Alike(inp, ps[j], ps[k]))
    && (forall j :: 0 <= j < |ps| - 1 ==> Size(inp, ps[j]) == Size(inp, ps[0]) && !Psh(ItemOf(inp, ps[j])))
    && Size(inp, ps[|ps| - 1]) <= Size(inp, ps[0])
    && (forall j :: 0 <= j < |ps| ==>
          ItemOf(inp, ps[j]).TcpItem? && ItemOf(inp, ps[0]).TcpItem?
          && ItemOf(inp, ps[j]).sentSeq == SeqAt(ItemOf(inp, ps[0]).sentSeq, j, Size(inp, ps[0])))
  }

  /** Each of their buffers has room for the whole stream. */
  predicate RoomForAll(inp: Input, ps: seq<nat>) {
    |ps| > 1 ==>
      forall j :: 0 <= j < |ps| ==>
        && ps[j] < |inp.bufs| && Desc(inp, ps[j]).Some?
        && 2 * inp.offset + ItemOf(inp, ps[j]).HdrLen() + |Joined(inp, ItemOf(inp, ps[j]).HdrLen(), ps)|
           <= inp.bufs[ps[j]].cap
  }

  /** The packets arrive as given, each at the front or the end of those before it, and are ps in the end. */
  predicate FromEnds(arrivals: seq<nat>, ps: seq<nat>) {
    && |arrivals| == |ps|
    && (|ps| <= 1 ==> arrivals == ps)
    && (|ps| > 1 ==>
          var last, rest := arrivals[|arrivals| - 1], arrivals[..|arrivals| - 1];
          || (ps[0] == last && FromEnds(rest, ps[1..]))
          || (ps[|ps| - 1] == last && FromEnds(rest, ps[..|ps| - 1])))
  }

  /** A packet's size is what follows its headers, and alike packets of a flow have headers of one length. */
  lemma AlikeHeaders(inp: Input, p: nat, q: nat)
    requires Desc(inp, p).Some? && Desc(inp, q).Some? && ItemOf(inp, p).key == ItemOf(inp, q).key && Good(inp, 0)
    requires ItemOf(inp, p).key.TcpKey? && Alike(inp, p, q)
    ensures ItemOf(inp, p).TcpItem? && ItemOf(inp, q).TcpItem?
    ensures ItemOf(inp, p).HdrLen() == ItemOf(inp, q).HdrLen()
    ensures |Pkt(inp, p)| == ItemOf(inp, p).HdrLen() + Size(inp, p)
    ensures Size(inp, p) >= 1
  {
    hide Classify, Good, SameService, Pkt;
    Described(inp, p);
    Described(inp, q);
    Small(inp);
    Classified(Pkt(inp, p), inp.canUdpGro, p);
    Classified(Pkt(inp, q), inp.canUdpGro, q);
    CandidateFields(inp, p);
    CandidateFields(inp, q);
  }

  lemma Small(inp: Input)
    requires Good(inp, 0)
    ensures |inp.bufs| <= TWO16
  {
  }

  // ---- a stream without its first or last packet --------------------------------------

  lemma WithoutLast(inp: Input, key: FlowKey, ps: seq<nat>)
    requires OneStream(inp, key, ps) && |ps| > 1
    ensures OneStream(inp, key, ps[..|ps| - 1])
  {
    hide Desc, Alike, SeqAt, RightSum;
  }

  lemma WithoutFirst(inp: Input, key: FlowKey, ps: seq<nat>)
    requires OneStream(inp, key, ps) && |ps| > 1
    ensures OneStream(inp, key, ps[1..])
  {
    hide Desc, Alike, SeqAt, RightSum;
    var rest, start, g := ps[1..], ItemOf(inp, ps[0]).sentSeq, Size(inp, ps[0]);
    NextSeq(start, g);
    forall j | 0 <= j < |rest|
      ensures ItemOf(inp, rest[j]).sentSeq == SeqAt(ItemOf(inp, rest[0]).sentSeq, j, Size(inp, rest[0]))
    {
      if |rest| == 1 {
        SeqStart(ItemOf(inp, rest[0]).sentSeq, Size(inp, rest[0]));
      } else {
        SeqShift(ItemOf(inp, ps[1]).sentSeq, start, j, g);
      }
    }
  }

  lemma NextSeq(start: u32, g: nat)
    ensures SeqAt(start, 1, g) == U32(start + g)
  {
  }

  lemma Headers(inp: Input, key: FlowKey, ps: seq<nat>, j: nat)
    requires OneStream(inp, key, ps) && j < |ps| && Good(inp, 0)
    ensures ItemOf(inp, ps[j]).HdrLen() == ItemOf(inp, ps[0]).HdrLen() && Size(inp, ps[j]) >= 1
    ensures |Pkt(inp, ps[j])| == ItemOf(inp, ps[0]).HdrLen() + Size(inp, ps[j])
  {
    hide Desc, Alike, SeqAt, RightSum, Pkt;
    AlikeHeaders(inp, ps[j], ps[0]);
  }

  /** What either end adds to the payload. */
  lemma EndPayloads(inp: Input, key: FlowKey, ps: seq<nat>)
    requires OneStream(inp, key, ps) && |ps| > 1 && Good(inp, 0)
    ensures var hl, n := ItemOf(inp, ps[0]).HdrLen(), |ps|;
            && |Joined(inp, hl, ps)| == |Joined(inp, hl, ps[1..])| + Size(inp, ps[0])
            && |Joined(inp, hl, ps)| == |Joined(inp, hl, ps[..n - 1])| + Size(inp, ps[n - 1])
  {
    hide Desc, Alike, SeqAt, RightSum, Pkt;
    var last := |ps| - 1;
    Headers(inp, key, ps, 0);
    Headers(inp, key, ps, last);
    JoinedAppend(inp, ItemOf(inp, ps[0]).HdrLen(), ps[..last], ps[last]);
    assert ps[..last] + [ps[last]] == ps;
  }

  /** The whole payload: full segments and a last one. */
  lemma {:induction false} Total(inp: Input, key: FlowKey, ps: seq<nat>)
    requires OneStream(inp, key, ps) && Good(inp, 0)
    ensures |Joined(inp, ItemOf(inp, ps[0]).HdrLen(), ps)|
         == Times(|ps| - 1, Size(inp, ps[0])) + Size(inp, ps[|ps| - 1])
  {
    hide Desc, Alike, SeqAt, RightSum, Pkt, Times;
    Headers(inp, key, ps, 0);
    TimesNext(|ps| - 1, Size(inp, ps[0]));
    if |ps| == 1 {
      assert Joined(inp, ItemOf(inp, ps[0]).HdrLen(), ps[1..]) == [];
    } else {
      WithoutLast(inp, key, ps);
      Total(inp, key, ps[..|ps| - 1]);
      EndPayloads(inp, key, ps);
      TimesNext(|ps| - 2, Size(inp, ps[0]));
    }
  }

  lemma LessRoom(inp: Input, key: FlowKey, ps: seq<nat>)
    requires OneStream(inp, key, ps) && RoomForAll(inp, ps) && |ps| > 1 && Good(inp, 0)
    ensures RoomForAll(inp, ps[1..]) && RoomForAll(inp, ps[..|ps| - 1])
    ensures var hl, n := ItemOf(inp, ps[0]).HdrLen(), |ps|;
            && ps[0] < |inp.bufs|
            && 2 * inp.offset + hl + |Joined(inp, hl, ps)| <= inp.bufs[ps[0]].cap
    ensures |Joined(inp, ItemOf(inp, ps[0]).HdrLen(), ps)| <= 0xffff
  {
    hide Desc, Alike, SeqAt, RightSum, Pkt, Joined;
    EndPayloads(inp, key, ps);
    forall j | 0 <= j < |ps|
      ensures ItemOf(inp, ps[j]).HdrLen() == ItemOf(inp, ps[0]).HdrLen()
    {
      Headers(inp, key, ps, j);
    }
  }

  // ---- the packet at the front, and the packet at the end -----------------------------

  lemma FrontTaken(inp: Input, key: FlowKey, ps: seq<nat>)
    requires OneStream(inp, key, ps) && RoomForAll(inp, ps) && |ps| > 1 && Good(inp, 0)
    ensures Precedes(inp, ps[1..], ps[0]) && TcpFate(inp, ps[1..], ps[0]) == Taking
  {
    hide Desc, Alike, RightSum, Pkt, Joined, RoomForAll, Good, SeqAt, Precedes, Follows;
    FrontPrecedes(inp, key, ps);
    EndPayloads(inp, key, ps);
    LessRoom(inp, key, ps);
    Headers(inp, key, ps, 1);
    assert ps[1..][0] == ps[1];
  }

  lemma FrontPrecedes(inp: Input, key: FlowKey, ps: seq<nat>)
    requires OneStream(inp, key, ps) && |ps| > 1
    ensures Precedes(inp, ps[1..], ps[0])
  {
    hide Desc, Alike, RightSum, SeqAt;
    NextSeq(ItemOf(inp, ps[0]).sentSeq, Size(inp, ps[0]));
    assert ps[1..][0] == ps[1];
  }

  lemma BackTaken(inp: Input, key: FlowKey, ps: seq<nat>)
    requires OneStream(inp, key, ps) && RoomForAll(inp, ps) && |ps| > 1 && Good(inp, 0)
    ensures var rest, last := ps[..|ps| - 1], ps[|ps| - 1];
            !Precedes(inp, rest, last) && TcpFate(inp, rest, last) == Taking
  {
    hide Desc, Alike, RightSum, Pkt, Joined, RoomForAll, Good, Times;
    WithoutLast(inp, key, ps);
    EndPayloads(inp, key, ps);
    LessRoom(inp, key, ps);
    Total(inp, key, ps);
    Headers(inp, key, ps, 0);
    var n, g, size := |ps| - 1, Size(inp, ps[0]), Size(inp, ps[|ps| - 1]);
    Headers(inp, key, ps, n);
    NoWrap(ItemOf(inp, ps[0]).sentSeq, n, g, size);
    assert ps[..n][0] == ps[0] && ps[..n][n - 1] == ps[n - 1];
  }

  lemma NoWrap(start: u32, n: nat, g: nat, size: nat)
    requires 1 <= size && Times(n, g) + size <= 0xffff
    ensures SeqAt(start, n, g) == (start as int + n * g) % 0x1_0000_0000
    ensures (SeqAt(start, n, g) as int + size) % 0x1_0000_0000 != start as int
  {
    var t := n * g;
    Product(n, g);
    assert SeqAt(start, n, g) == U32(start + t);
  }

  // ---- the whole stream ---------------------------------------------------------------

  /**
   When the packets of a flow are one stream, with room for all of it in every buffer, and
   arrive at its ends, the flow is one group that holds them in stream order.
   */
  lemma {:induction false} EndsMerge(inp: Input, key: FlowKey, n: nat, ps: seq<nat>)
    requires Good(inp, n) && OneStream(inp, key, ps) && RoomForAll(inp, ps) && FromEnds(Arrivals(inp, key, n), ps)
    ensures Groups(inp, key, n) == [ps]
  {
    hide *;
    NotNone(inp, key, ps);
    GoodSooner(inp, n);
    GoodNone(inp, n);
    Starts(inp, key, n);
    Ends(Arrivals(inp, key, n), ps);
    var arrivals, before := Arrivals(inp, key, n), Arrivals(inp, key, n - 1);
    if arrivals == before {
      EndsMerge(inp, key, n - 1, ps);
    } else if |ps| == 1 {
      NoneYet(inp, key, n - 1);
    } else {
      assert arrivals[|arrivals| - 1] == n - 1 && arrivals[..|arrivals| - 1] == before;
      LessRoom(inp, key, ps);
      if ps[0] == n - 1 && FromEnds(before, ps[1..]) {
        WithoutFirst(inp, key, ps);
        EndsMerge(inp, key, n - 1, ps[1..]);
        FrontTaken(inp, key, ps);
        Taken(inp, key, n, ps[1..]);
        assert [ps[0]] + ps[1..] == ps;
      } else {
        WithoutLast(inp, key, ps);
        EndsMerge(inp, key, n - 1, ps[..|ps| - 1]);
        BackTaken(inp, key, ps);
        Taken(inp, key, n, ps[..|ps| - 1]);
        assert ps[..|ps| - 1] + [ps[|ps| - 1]] == ps;
      }
    }
  }

  lemma Ends(arrivals: seq<nat>, ps: seq<nat>)
    requires FromEnds(arrivals, ps)
    ensures |arrivals| == |ps| && (|ps| == 1 ==> arrivals == ps)
    ensures |ps| > 1 ==>
              var last, rest := arrivals[|arrivals| - 1], arrivals[..|arrivals| - 1];
              || (ps[0] == last && FromEnds(rest, ps[1..]))
              || (ps[|ps| - 1] == last && FromEnds(rest, ps[..|ps| - 1]))
  {
  }

  /** A packet of another flow changes nothing, and the first of a flow is a group. */
  lemma Starts(inp: Input, key: FlowKey, n: nat)
    requires n > 0 ==> Good(inp, 0)
    ensures n == 0 ==> Arrivals(inp, key, n) == []
    ensures n > 0 && Arrivals(inp, key, n) == Arrivals(inp, key, n - 1) ==>
              Groups(inp, key, n) == Groups(inp, key, n - 1)
    ensures n > 0 && Arrivals(inp, key, n) != Arrivals(inp, key, n - 1) ==>
              && Arrivals(inp, key, n) == Arrivals(inp, key, n - 1) + [n - 1]
              && (Groups(inp, key, n - 1) == [] ==> Groups(inp, key, n) == [[n - 1]])
  {
    hide Desc, TcpFate, UdpTaken, Precedes, Good;
  }

  /** The only group of the flow takes packet n - 1. */
  lemma Taken(inp: Input, key: FlowKey, n: nat, g: seq<nat>)
    requires n > 0 && key.TcpKey? && Good(inp, 0) && Arrivals(inp, key, n) == Arrivals(inp, key, n - 1) + [n - 1]
    requires Groups(inp, key, n - 1) == [g] && TcpFate(inp, g, n - 1) == Taking
    ensures Groups(inp, key, n) == [if Precedes(inp, g, n - 1) then [n - 1] + g else g + [n - 1]]
  {
    hide Desc, TcpFate, UdpTaken, Precedes, Good;
    OwnKind(inp, key, n - 1);
  }

  lemma NotNone(inp: Input, key: FlowKey, ps: seq<nat>)
    requires OneStream(inp, key, ps)
    ensures ps != [] && key.TcpKey?
  {
    hide Desc, Alike, RightSum;
  }

  lemma GoodNone(inp: Input, n: nat)
    requires Good(inp, n)
    ensures Good(inp, 0)
  {
  }

  lemma OwnKind(inp: Input, key: FlowKey, i: nat)
    requires Desc(inp, i).Some? && Desc(inp, i).value.key == key && key.TcpKey? && Good(inp, 0)
    ensures Desc(inp, i).value.TcpItem?
  {
    hide Classify, Good;
    Described(inp, i);
    Small(inp);
    Classified(Pkt(inp, i), inp.canUdpGro, i);
  }

  lemma {:induction false} NoneYet(inp: Input, key: FlowKey, n: nat)
    requires Arrivals(inp, key, n) == []
    ensures Groups(inp, key, n) == []
  {
    hide Desc;
    if n > 0 {
      NoneYet(inp, key, n - 1);
    }
  }

  // ---- forwards and backwards ---------------------------------------------------------

  lemma {:induction false} Forwards(ps: seq<nat>)
    ensures FromEnds(ps, ps)
  {
    if |ps| > 1 {
      Forwards(ps[..|ps| - 1]);
    }
  }

  function Reversed(ps: seq<nat>): (r: seq<nat>)
    ensures |r| == |ps| && forall k :: 0 <= k < |ps| ==> r[k] == ps[|ps| - 1 - k]
  {
    seq(|ps|, k requires 0 <= k < |ps| => ps[|ps| - 1 - k])
  }

  lemma {:induction false} Backwards(ps: seq<nat>)
    ensures FromEnds(ps, Reversed(ps))
  {
    if |ps| > 1 {
      Backwards(ps[..|ps| - 1]);
      assert Reversed(ps)[1..] == Reversed(ps[..|ps| - 1]);
    } else {
      assert Reversed(ps) == ps;
    }
  }

  // ---- what is written ----------------------------------------------------------------

  /** Buffer k is written with the packets ps, as one frame that reads back as them. */
  ghost predicate WrittenAs(le: bool, inp: Input, ps: seq<nat>, after: seq<Buf>, toWrite: seq<nat>, k: nat) {
    && k in toWrite && k < |after| && VIRTIO_NET_HDR_LEN <= inp.offset <= |after[k].data|
    && (|ps| > 1 ==> FrameShows(le, inp, ps, Frame(after[k].data, inp.offset)))
    && ReadsBack(le, inp, ps, Frame(after[k].data, inp.offset))
  }

  /** handleGRO writes such a stream as one frame, which reads back as its packets in stream order. */
  lemma EndsWritten(le: bool, inp: Input, key: FlowKey, ps: seq<nat>, after: seq<Buf>, toWrite: seq<nat>)
    returns (k: nat)
    requires Handled(le, inp, after, toWrite)
    requires OneStream(inp, key, ps) && RoomForAll(inp, ps) && FromEnds(Arrivals(inp, key, |inp.bufs|), ps)
    ensures WrittenAs(le, inp, ps, after, toWrite, k)
  {
    hide Desc, OneStream, RoomForAll, Run, Groups, FrameShows, ReadsBack, Frame, Inv, AccountedBy, Good, FromEnds;
    InBatch(inp, key, ps);
    EndsMerge(inp, key, |inp.bufs|, ps);
    k := FrameOf(inp, ps[0]);
    assert ps in Groups(inp, key, |inp.bufs|) && ps[0] in ps;
    WrittenShows(le, inp, after, toWrite, k);
    Delivered(le, inp, Run(inp, |inp.bufs|), after, k);
  }

  lemma InBatch(inp: Input, key: FlowKey, ps: seq<nat>)
    requires OneStream(inp, key, ps)
    ensures ps != [] && ps[0] < |inp.bufs|
  {
    hide Desc, Alike, RightSum, SeqAt;
    Described(inp, ps[0]);
  }
}
