/** NativeTun.Write: one batch through GRO, the frames for the device, and the tables emptied again. */
module Tun {
  import opened Bytes
  import opened Options
  import opened Packet
  import opened Gro
  import opened GroItem
  import opened GroInvariant
  import opened Delivery
  import opened Buffers
  import opened Tables
  import opened Batches
  import opened Gso
  import opened VirtioRead

  /** Every buffer has bytes after the offset. */
  predicate AllBeyond(v: seq<Buf>, offset: int) {
    forall k :: 0 <= k < |v| ==> offset < |v[k].data|
  }

  lemma OffsetsAre(v: seq<Buf>, offset: int)
    ensures OffsetsOk(v, offset) <==> v == [] || (10 <= offset && AllBeyond(v, offset))
  {
  }

  /** Every buffer to write can be sliced from offset on. */
  predicate CanWrite(v: seq<Buf>, toWrite: seq<nat>, offset: int) {
    forall j :: 0 <= j < |toWrite| ==> toWrite[j] < |v| && 0 <= offset <= |v[toWrite[j]].data|
  }

  /** What the loop over toWrite hands to the file: each buffer from offset on. */
  function FramesOf(v: seq<Buf>, toWrite: seq<nat>, offset: int): seq<seq<byte>>
    requires CanWrite(v, toWrite, offset)
  {
    seq(|toWrite|, j requires 0 <= j < |toWrite| => v[toWrite[j]].data[offset..])
  }

  /** frames are what the loop over toWrite hands to the file. */
  predicate Wrote(v: seq<Buf>, toWrite: seq<nat>, offset: int, frames: seq<seq<byte>>) {
    CanWrite(v, toWrite, offset) && frames == FramesOf(v, toWrite, offset)
  }

  /** Every index of a handled batch names a buffer that holds a whole frame. */
  lemma FramesReady(le: bool, inp: Input, offset: int, after: seq<Buf>, toWrite: seq<nat>)
    requires Handled(le, inp, after, toWrite) && (offset >= 0 ==> inp.offset == offset) && OffsetsOk(inp.bufs, offset)
    ensures CanWrite(after, toWrite, offset - VIRTIO_NET_HDR_LEN)
  {
    hide Good, AccountedBy, ReadsBack, Run;
    if inp.bufs != [] {
      BatchDelivered(le, inp, after, toWrite);
      forall j | 0 <= j < |toWrite|
        ensures WritesOut(le, inp, Run(inp, |inp.bufs|), after, toWrite[j])
      {
        assert toWrite[j] in toWrite;
      }
    }
  }

  /** Frame f, read back, is the packets ps of the batch. */
  ghost predicate Carries(le: bool, inp: Input, parts: seq<seq<nat>>, k: nat, frame: seq<byte>) {
    k < |parts| && ReadsBack(le, inp, parts[k], frame)
  }

  /** From batch to device and back: the frames written read back as the packets of the batch. */
  lemma FramesCarryBatch(le: bool, inp: Input, after: seq<Buf>, toWrite: seq<nat>, frames: seq<seq<byte>>)
    requires Handled(le, inp, after, toWrite) && inp.bufs != []
        && Wrote(after, toWrite, inp.offset - VIRTIO_NET_HDR_LEN, frames)
    ensures |frames| == |toWrite|
    ensures forall j :: 0 <= j < |frames| ==> Carries(le, inp, Run(inp, |inp.bufs|).parts, toWrite[j], frames[j])
    ensures forall p: nat :: p < |inp.bufs| ==> Lives(Run(inp, |inp.bufs|), p)
  {
    hide Run, ReadsBack, Lives, AccountedBy;
    BatchDelivered(le, inp, after, toWrite);
    forall j | 0 <= j < |frames|
      ensures Carries(le, inp, Run(inp, |inp.bufs|).parts, toWrite[j], frames[j])
    {
      assert toWrite[j] in toWrite;
      assert WritesOut(le, inp, Run(inp, |inp.bufs|), after, toWrite[j]);
    }
  }

  /** Output buffer b shows what packet j of a buffer holding ps carried. */
  ghost predicate Shows(inp: Input, b: Buf, offset: nat, size: int, ps: seq<nat>, j: nat)
    requires j < |ps|
  {
    0 <= size && offset + size <= |b.data| && Faithful(inp, ps, j, b.data[offset..offset + size])
  }

  /** A frame that reads back, read by handleVirtioRead into buffers enough, shows its original packets in order. */
  lemma FrameComesBack(le: bool, inp: Input, ps: seq<nat>, frame: seq<byte>, n: int, error: Option<ReadError>,
          v: seq<Buf>, before: seq<Buf>, sizes: seq<int>, sizesBefore: seq<int>, offset: nat)
    requires ReadsBack(le, inp, ps, frame) && ps != [] && |ps| <= |before|
    requires PlanRead(le, frame).Deliver? ==> offset + |PlanRead(le, frame).packet| <= |before[0].data|
    requires Carried(PlanRead(le, frame), n, error, v, before, sizes, sizesBefore, offset)
    ensures error == None && n == |ps| <= |v| && |ps| <= |sizes|
    ensures forall j :: 0 <= j < |ps| ==> Shows(inp, v[j], offset, sizes[j], ps, j)
  {
    hide PlanRead, Packets, Faithful, Carried;
    ReadDelivers(le, frame, n, error, v, before, sizes, sizesBefore, offset);
    forall j | 0 <= j < |ps|
      ensures Shows(inp, v[j], offset, sizes[j], ps, j)
    {
      PacketSeen(v[j], before[j], offset, Packets(le, frame)[j]);
    }
  }

  class NativeTun {
    const tcpGroTable: GroTable
    const udpGroTable: GroTable
    const vnetHdr: bool
    const udpGso: bool
    const batchSize: nat
    var toWrite: seq<nat>

    /** Between two batches both tables are empty, with every slice back in its pool. */
    ghost predicate Valid()
      reads tcpGroTable, tcpGroTable.arrays, udpGroTable, udpGroTable.arrays
    {
      && tcpGroTable != udpGroTable && tcpGroTable.arrays !! udpGroTable.arrays
      && Empty(tcpGroTable, batchSize) && Empty(udpGroTable, batchSize)
    }

    static ghost predicate Empty(table: GroTable, batchSize: nat)
      reads table, table.arrays
    {
      table.Valid() && table.batchSize == batchSize && table.View() == map[] && |table.itemsPool| == batchSize
    }

    constructor (vnetHdr: bool, udpGso: bool, batchSize: nat)
      ensures Valid() && this.vnetHdr == vnetHdr && this.udpGso == udpGso && this.batchSize == batchSize
    {
      this.vnetHdr, this.udpGso, this.batchSize := vnetHdr, udpGso, batchSize;
      tcpGroTable := new GroTable(batchSize);
      udpGroTable := new GroTable(batchSize);
      toWrite := [];
    }

    /** A batch the program can pass: no more packets than the tables have slices, in 16-bit capacities. */
    ghost predicate Batch16(bufs: Batch)
      reads bufs, bufs.arrays
    {
      && bufs.Valid() && |bufs.View()| <= batchSize && |bufs.View()| <= TWO16
      && forall k :: 0 <= k < |bufs.View()| ==> bufs.View()[k].cap <= 0xffff
    }

    lemma BracketOpen(bufs: Batch)
      requires Valid() && Batch16(bufs)
      ensures BatchOk(bufs, tcpGroTable, udpGroTable)
      ensures tcpGroTable.Valid() && udpGroTable.Valid() && bufs.Valid()
    {
    }

    lemma Tables()
      requires Valid()
      ensures tcpGroTable.Valid() && udpGroTable.Valid() && tcpGroTable != udpGroTable
          && tcpGroTable.arrays !! udpGroTable.arrays
      ensures tcpGroTable.batchSize == batchSize == udpGroTable.batchSize
    {
    }

    /** The deferred reset of both tables. */
    method ResetTables(bufs: Batch)
      requires tcpGroTable.Valid() && udpGroTable.Valid() && tcpGroTable != udpGroTable
          && tcpGroTable.arrays !! udpGroTable.arrays
      requires tcpGroTable.batchSize == batchSize == udpGroTable.batchSize && bufs.Valid()
      modifies tcpGroTable, udpGroTable
      ensures Valid() && bufs.Valid() && bufs.View() == old(bufs.View())
    {
      hide GroTable.SlicesOk, GroTable.View, Distinct, Contents;
      tcpGroTable.Reset();
      udpGroTable.Reset();
    }

    /** handleGRO on the tables of this device. */
    method Coalesce(bufs: Batch, offset: int, le: bool) returns (ok: bool, written: seq<nat>)
      requires Valid() && Batch16(bufs)
      modifies bufs, bufs.arrays, tcpGroTable, tcpGroTable.arrays, udpGroTable, udpGroTable.arrays
      ensures bufs.Valid() && tcpGroTable.Valid() && udpGroTable.Valid()
      ensures ok == OffsetsOk(old(bufs.View()), offset)
      ensures ok ==> Handled(le, old(InputOf(bufs, offset, udpGso)), bufs.View(), written)
      ensures ok ==> CanWrite(bufs.View(), written, offset - VIRTIO_NET_HDR_LEN)
    {
      hide *;
      BracketOpen(bufs);
      ghost var inp := InputOf(bufs, offset, udpGso);
      InputIs(bufs, offset, udpGso);
      ok, written := HandleGro(bufs, offset, tcpGroTable, udpGroTable, udpGso, le);
      if ok {
        FramesReady(le, inp, offset, bufs.View(), written);
      }
    }

    /** The loop over toWrite: the slices handed to the file. */
    method WriteFrames(bufs: Batch, offset: int) returns (frames: seq<seq<byte>>)
      requires bufs.Valid() && CanWrite(bufs.View(), toWrite, offset)
      ensures Wrote(bufs.View(), toWrite, offset, frames)
    {
      frames := [];
      for i := 0 to |toWrite|
        invariant |frames| == i
        invariant forall j :: 0 <= j < i ==> frames[j] == FramesOf(bufs.View(), toWrite, offset)[j]
      {
        assert toWrite[i] in toWrite;
        var data := bufs.Read(toWrite[i]);
        frames := frames + [data[offset..]];
      }
    }

    /** Write with virtio headers, before the tables are reset. */
    method WriteCoalesced(bufs: Batch, offset: int, le: bool) returns (ok: bool, frames: seq<seq<byte>>)
      requires Valid() && Batch16(bufs)
      modifies this`toWrite, bufs, bufs.arrays, tcpGroTable, tcpGroTable.arrays, udpGroTable, udpGroTable.arrays
      ensures bufs.Valid() && tcpGroTable.Valid() && udpGroTable.Valid()
      ensures ok == OffsetsOk(old(bufs.View()), offset)
      ensures if ok then Handled(le, old(InputOf(bufs, offset, udpGso)), bufs.View(), toWrite)
          && Wrote(bufs.View(), toWrite, offset - VIRTIO_NET_HDR_LEN, frames)
              else frames == []
    {
      hide *;
      ok, toWrite := Coalesce(bufs, offset, le);
      frames := [];
      if ok {
        frames := WriteFrames(bufs, offset - VIRTIO_NET_HDR_LEN);
      }
    }

    /** Write without virtio headers: every packet as it is. */
    method WritePlain(bufs: Batch, offset: int) returns (frames: seq<seq<byte>>)
      requires bufs.Valid() && tcpGroTable.Valid() && udpGroTable.Valid()
          && CanWrite(bufs.View(), UpTo(|bufs.View()|), offset)
      modifies this`toWrite
      ensures tcpGroTable.Valid() && udpGroTable.Valid()
      ensures bufs.Valid() && bufs.View() == old(bufs.View()) && toWrite == UpTo(|bufs.View()|)
      ensures Wrote(bufs.View(), UpTo(|bufs.View()|), offset, frames)
    {
      hide *;
      toWrite := [];
      for i := 0 to |bufs.bufs|
        invariant toWrite == UpTo(i)
      {
        toWrite := toWrite + [i];
      }
      frames := WriteFrames(bufs, offset);
    }

    /**
     Writes a batch: without virtio headers every packet as it is, otherwise what GRO makes of
     it. Whatever the outcome, the tables are empty and their pools full again.
     */
    method Write(bufs: Batch, offset: int, le: bool) returns (ok: bool, frames: seq<seq<byte>>)
      requires Valid() && Batch16(bufs)
      requires !vnetHdr ==> CanWrite(bufs.View(), UpTo(|bufs.View()|), offset)
      modifies this`toWrite, bufs, bufs.arrays, tcpGroTable, tcpGroTable.arrays, udpGroTable, udpGroTable.arrays
      ensures Valid() && bufs.Valid()
      ensures ok <==> !vnetHdr || old(bufs.View()) == [] || (10 <= offset && AllBeyond(old(bufs.View()), offset))
      ensures !ok ==> frames == []
      ensures !vnetHdr ==> bufs.View() == old(bufs.View()) && Wrote(bufs.View(), UpTo(|bufs.View()|), offset, frames)
      ensures ok && vnetHdr ==>
                && Handled(le, old(InputOf(bufs, offset, udpGso)), bufs.View(), toWrite)
                && Wrote(bufs.View(), toWrite, offset - VIRTIO_NET_HDR_LEN, frames)
    {
      hide *;
      Tables();
      BracketOpen(bufs);
      OffsetsAre(bufs.View(), offset);
      if vnetHdr {
        ok, frames := WriteCoalesced(bufs, offset, le);
        ResetTables(bufs);
      } else {
        ok := true;
        frames := WritePlain(bufs, offset);
        ResetTables(bufs);
      }
    }
  }
}
