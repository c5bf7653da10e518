/** The batch of packet buffers: Go byte slices over distinct backing arrays. */
module Buffers {
  import opened Bytes
  import opened Packet
  import opened Gro

  /** A byte slice from the start of its backing array: its capacity is the array's length. */
  datatype Slice = Slice(arr: array<byte>, len: nat)

  /** bufs [][]byte: the slice headers can be extended and swapped; the arrays stay the same. */
  class Batch {
    ghost const arrays: set<array<byte>>
    var bufs: seq<Slice>

    ghost predicate Valid()
      reads this
    {
      && (forall k :: 0 <= k < |bufs| ==> bufs[k].arr in arrays && bufs[k].len <= bufs[k].arr.Length)
      && (forall k, l :: 0 <= k < l < |bufs| ==> bufs[k].arr != bufs[l].arr)
    }

    ghost function BufAt(k: nat): Buf
      requires Valid() && k < |bufs|
      reads this, arrays
    {
      Buf(bufs[k].arr[..bufs[k].len], bufs[k].arr.Length)
    }

    /** The contents and capacities of all buffers. */
    ghost function View(): (v: seq<Buf>)
      requires Valid()
      reads this, arrays
      ensures |v| == |bufs|
      ensures forall k :: 0 <= k < |bufs| ==> v[k] == BufAt(k)
    {
      seq(|bufs|, k requires Valid() && 0 <= k < |bufs| reads this, arrays => BufAt(k))
    }

    constructor (slices: seq<Slice>)
      requires forall k :: 0 <= k < |slices| ==> slices[k].len <= slices[k].arr.Length
      requires forall k, l :: 0 <= k < l < |slices| ==> slices[k].arr != slices[l].arr
      ensures Valid() && bufs == slices && arrays == set k | 0 <= k < |slices| :: slices[k].arr
    {
      bufs := slices;
      arrays := set k | 0 <= k < |slices| :: slices[k].arr;
    }

    /** bufs[k] as a value. */
    method Read(k: nat) returns (data: seq<byte>)
      requires Valid() && k < |bufs|
      ensures data == View()[k].data
    {
      data := bufs[k].arr[..bufs[k].len];
    }

    method Cap(k: nat) returns (cap: nat)
      requires Valid() && k < |bufs|
      ensures cap == View()[k].cap
    {
      cap := bufs[k].arr.Length;
    }

    /** bufs[k] = append(bufs[k], make([]byte, n)...), within capacity. */
    method Extend(k: nat, n: nat)
      requires Valid() && k < |bufs| && |View()[k].data| + n <= View()[k].cap
      modifies this, arrays
      ensures Valid()
      ensures View() == old(View())[k := Buf(old(View())[k].data + Zeros(n), old(View())[k].cap)]
    {
      var arr, len := bufs[k].arr, bufs[k].len;
      forall i | 0 <= i < n {
        arr[len + i] := 0;
      }
      bufs := bufs[k := Slice(arr, len + n)];
      assert BufAt(k).data == old(BufAt(k).data) + Zeros(n);
      OthersKept(k);
    }

    /** Buffers other than k are as they were. */
    twostate lemma OthersKept(k: nat)
      requires old(Valid()) && Valid() && k < |bufs| == old(|bufs|)
      requires forall l :: 0 <= l < |bufs| && l != k ==> bufs[l] == old(bufs[l])
      requires bufs[k].arr == old(bufs[k].arr)
      requires forall a :: a in arrays && a != bufs[k].arr ==> a[..] == old(a[..])
      ensures View() == old(View())[k := BufAt(k)]
    {
      forall l | 0 <= l < |bufs| && l != k
        ensures BufAt(l) == old(BufAt(l))
      {
        var a := bufs[l].arr;
        assert a[..] == old(a[..]);
        assert a[..bufs[l].len] == a[..][..bufs[l].len];
        assert old(a[..bufs[l].len]) == old(a[..])[..bufs[l].len];
      }
    }

    /** copy(bufs[k][at:], src), where src fits. */
    method Copy(k: nat, at: nat, src: seq<byte>)
      requires Valid() && k < |bufs| && at + |src| <= |View()[k].data|
      modifies arrays
      ensures Valid()
      ensures View() == old(View())[k := old(View())[k].(data := Splice(old(View())[k].data, at, src))]
    {
      var arr := bufs[k].arr;
      forall i | 0 <= i < |src| {
        arr[at + i] := src[i];
      }
      assert BufAt(k).data == Splice(old(BufAt(k).data), at, src);
      OthersKept(k);
    }

    /** binary.BigEndian.PutUint16(bufs[k][at:], v) */
    method PutUint16(k: nat, at: nat, v: u16)
      requires Valid() && k < |bufs| && at + 2 <= |View()[k].data|
      modifies arrays
      ensures Valid()
      ensures View() == old(View())[k := old(View())[k].(data := PutBE16(old(View())[k].data, at, v))]
    {
      Copy(k, at, [v / 0x100, v % 0x100]);
      assert View()[k].data == PutBE16(old(View())[k].data, at, v);
    }

    /** bufs[k][at] = b */
    method Set(k: nat, at: nat, b: byte)
      requires Valid() && k < |bufs| && at < |View()[k].data|
      modifies arrays
      ensures Valid()
      ensures View() == old(View())[k := old(View())[k].(data := old(View())[k].data[at := b])]
    {
      Copy(k, at, [b]);
      assert View()[k].data == old(View())[k].data[at := b];
    }

    /** clear(bufs[k][offset-virtioNetHdrLen : offset]) */
    method ClearVirtioHeader(k: nat, offset: nat)
      requires Valid() && k < |bufs| && VIRTIO_NET_HDR_LEN <= offset <= |View()[k].data|
      modifies arrays
      ensures Valid()
      ensures View() == ClearAt(old(View()), k, offset)
    {
      Copy(k, offset - VIRTIO_NET_HDR_LEN, Zeros(VIRTIO_NET_HDR_LEN));
    }

    /** bufs[k], bufs[l] = bufs[l], bufs[k] */
    method Swap(k: nat, l: nat)
      requires Valid() && k < |bufs| && l < |bufs|
      modifies this
      ensures Valid()
      ensures View() == old(View())[k := old(View())[l]][l := old(View())[k]]
    {
      bufs := bufs[k := bufs[l]][l := bufs[k]];
    }
  }
}
