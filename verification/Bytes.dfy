/** Bytes, fixed-width integers and the big-endian accessors of Go's encoding/binary. */
module Bytes {

  const TWO16: int := 0x1_0000
  const TWO32: int := 0x1_0000_0000
  const TWO64: int := 0x1_0000_0000_0000_0000

  type byte = b: int | 0 <= b < 0x100
  type u16 = v: int | 0 <= v < TWO16
  type u32 = v: int | 0 <= v < TWO32
  type u64 = v: int | 0 <= v < TWO64

  function U16(v: int): u16 { v % TWO16 }

  function U32(v: int): u32 { v % TWO32 }

  function Zeros(n: nat): (z: seq<byte>)
    ensures |z| == n && forall k :: 0 <= k < n ==> z[k] == 0
  {
    seq(n, _ => 0)
  }

  function BE16(s: seq<byte>, at: nat): u16
    requires at + 2 <= |s|
  {
    s[at] as int * 0x100 + s[at + 1]
  }

  function BE32(s: seq<byte>, at: nat): u32
    requires at + 4 <= |s|
  {
    BE16(s, at) as int * TWO16 + BE16(s, at + 2)
  }

  /** Writing a 16-bit field: it reads back, and no other byte changes. */
  function PutBE16(s: seq<byte>, at: nat, v: u16): (r: seq<byte>)
    requires at + 2 <= |s|
    ensures |r| == |s| && BE16(r, at) == v
    ensures forall k :: 0 <= k < |s| && k != at && k != at + 1 ==> r[k] == s[k]
  {
    s[at := v / 0x100][at + 1 := v % 0x100]
  }

  /** Writing a 32-bit field: it reads back, and no other byte changes. */
  function PutBE32(s: seq<byte>, at: nat, v: u32): (r: seq<byte>)
    requires at + 4 <= |s|
    ensures |r| == |s| && BE32(r, at) == v
    ensures forall k :: 0 <= k < |s| && !(at <= k < at + 4) ==> r[k] == s[k]
  {
    PutBE16(PutBE16(s, at, v / TWO16), at + 2, v % TWO16)
  }

  /** The bytes of src laid over s from position at: Go's copy(s[at:], src) when src fits. */
  function Splice(s: seq<byte>, at: nat, src: seq<byte>): (r: seq<byte>)
    requires at + |src| <= |s|
    ensures |r| == |s|
    ensures forall k :: 0 <= k < |s| ==> r[k] == if at <= k < at + |src| then src[k - at] else s[k]
  {
    s[..at] + src + s[at + |src|..]
  }

  lemma Adjoining(s: seq<byte>, a: nat, b: nat, c: nat)
    requires a <= b <= c <= |s|
    ensures s[a..b] + s[b..c] == s[a..c]
  {
  }

  /** Two 16-bit fields that read alike hold the same two bytes. */
  lemma BE16Injective(a: seq<byte>, i: nat, b: seq<byte>, j: nat)
    requires i + 2 <= |a| && j + 2 <= |b| && BE16(a, i) == BE16(b, j)
    ensures a[i] == b[j] && a[i + 1] == b[j + 1]
  {
  }

  lemma BE32Injective(a: seq<byte>, i: nat, b: seq<byte>, j: nat)
    requires i + 4 <= |a| && j + 4 <= |b| && BE32(a, i) == BE32(b, j)
    ensures a[i..i + 4] == b[j..j + 4]
  {
    BE16Injective(a, i, b, j);
    BE16Injective(a, i + 2, b, j + 2);
  }
}
