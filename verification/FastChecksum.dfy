/**
 The fast checksum of tun/checksum.go: 64-bit words added in native byte order with an
 explicit carry, and the simple 16-bit loop of tun/tuntest/tuntest.go it must agree with.
 The host's byte order is the parameter le (true for little-endian).
 */
module FastChecksum {
  import opened Bytes
  import opened ChecksumSpec

  // ---- native-order words -------------------------------------------------------------

  function Native16(le: bool, b: seq<byte>, at: nat): u16
    requires at + 2 <= |b|
  {
    if le then b[at + 1] as int * 0x100 + b[at] else BE16(b, at)
  }

  function Native32(le: bool, b: seq<byte>, at: nat): u32
    requires at + 4 <= |b|
  {
    if le then Native16(le, b, at + 2) as int * TWO16 + Native16(le, b, at)
    else Native16(le, b, at) as int * TWO16 + Native16(le, b, at + 2)
  }

  function Native64(le: bool, b: seq<byte>, at: nat): u64
    requires at + 8 <= |b|
  {
    if le then Native32(le, b, at + 4) as int * TWO32 + Native32(le, b, at)
    else Native32(le, b, at) as int * TWO32 + Native32(le, b, at + 4)
  }

  /** The eight bytes of x, most significant first: binary.BigEndian.PutUint64. */
  function BigEndianBytes(x: u64): (b: seq<byte>)
    ensures |b| == 8
  {
    PutBE32(PutBE32(Zeros(8), 0, x / TWO32), 4, x % TWO32)
  }

  function BigEndian64(b: seq<byte>): u64
    requires |b| == 8
  {
    BE32(b, 0) as int * TWO32 + BE32(b, 4)
  }

  function NativeBytes(le: bool, x: u64): (b: seq<byte>)
    ensures |b| == 8
  {
    var be := BigEndianBytes(x);
    if le then [be[7], be[6], be[5], be[4], be[3], be[2], be[1], be[0]] else be
  }

  /** Stored in native order and read back big-endian: a byte swap on little-endian hosts. */
  function SwapToBigEndian(le: bool, x: u64): u64 {
    BigEndian64(NativeBytes(le, x))
  }

  /** What a big-endian value x becomes in native words, modulo 65535: a byte swap multiplies by 256. */
  function Scaled(le: bool, x: nat): nat { if le then 0x100 * x else x }

  lemma Native16Weight(le: bool, b: seq<byte>, at: nat)
    requires at + 2 <= |b|
    ensures SameFold(Native16(le, b, at), Scaled(le, BE16(b, at)))
  {
    Congruent(Scaled(le, BE16(b, at)), Native16(le, b, at), if le then b[at] else 0);
  }

  lemma FoldHalves(hi: nat, lo: nat, step: nat, q: nat)
    requires step == 0xffff * q + 1
    ensures SameFold(hi * step + lo, hi + lo)
  {
    assert hi * step == hi * (0xffff * q) + hi;
    assert hi * (0xffff * q) == 0xffff * (hi * q);
    Congruent(hi * step + lo, hi + lo, hi * q);
  }

  lemma Native32Weight(le: bool, b: seq<byte>, at: nat)
    requires at + 4 <= |b|
    ensures SameFold(Native32(le, b, at), Scaled(le, BE16(b, at) + BE16(b, at + 2)))
  {
    var x, y := Native16(le, b, at), Native16(le, b, at + 2);
    Native16Weight(le, b, at);
    Native16Weight(le, b, at + 2);
    if le { FoldHalves(y, x, TWO16, 1); } else { FoldHalves(x, y, TWO16, 1); }
    SameFoldSum(x, Scaled(le, BE16(b, at)), y, Scaled(le, BE16(b, at + 2)));
    SameFoldTransitive(Native32(le, b, at), x as int + y, Scaled(le, BE16(b, at) + BE16(b, at + 2)));
  }

  lemma Native64Weight(le: bool, b: seq<byte>, at: nat)
    requires at + 8 <= |b|
    ensures SameFold(Native64(le, b, at), Scaled(le, WordSum(b[at..at + 8])))
  {
    hide WordSum, SameFold, Native32;
    var x, y := Native32(le, b, at), Native32(le, b, at + 4);
    Native32Weight(le, b, at);
    Native32Weight(le, b, at + 4);
    if le { FoldHalves(y, x, TWO32, 0x1_0001); } else { FoldHalves(x, y, TWO32, 0x1_0001); }
    var x', y' := BE16(b, at) + BE16(b, at + 2), BE16(b, at + 4) + BE16(b, at + 6);
    SameFoldSum(x, Scaled(le, x'), y, Scaled(le, y'));
    WordSum4(b[at..at + 8]);
    SameFoldTransitive(Native64(le, b, at), x as int + y, Scaled(le, x' + y'));
  }

  lemma WordSum4(w: seq<byte>)
    requires |w| == 8
    ensures WordSum(w) == FourWords(w)
  {
    WordSumSplit(w, 4);
    WordSumSplit(w[..4], 2);
    WordSumSplit(w[4..], 2);
    WordSumPair(w[..4][..2]);
    WordSumPair(w[..4][2..]);
    WordSumPair(w[4..][..2]);
    WordSumPair(w[4..][2..]);
  }

  lemma BigEndianRoundTrip(x: u64)
    ensures BigEndian64(BigEndianBytes(x)) == x
  {
  }

  function FourWords(b: seq<byte>): nat
    requires |b| == 8
  {
    BE16(b, 0) as int + BE16(b, 2) + BE16(b, 4) + BE16(b, 6)
  }

  lemma BigEndianWords(b: seq<byte>)
    requires |b| == 8
    ensures SameFold(BigEndian64(b), FourWords(b)) && SameFold(FourWords(b), BigEndian64(b))
  {
    var w0, w1, w2, w3 := BE16(b, 0), BE16(b, 2), BE16(b, 4), BE16(b, 6);
    Congruent(BigEndian64(b), FourWords(b), w0 as int * 0x1_0001_0001 + w1 as int * 0x1_0001 + w2);
  }

  lemma ReversedWords(a: seq<byte>, n: seq<byte>)
    requires |a| == 8 && n == [a[7], a[6], a[5], a[4], a[3], a[2], a[1], a[0]]
    ensures SameFold(FourWords(n), 0x100 * FourWords(a))
  {
    Congruent(0x100 * FourWords(a), FourWords(n), a[0] as int + a[2] + a[4] + a[6]);
  }

  lemma ScaledFold(le: bool, x: nat, y: nat)
    requires SameFold(x, y)
    ensures SameFold(Scaled(le, x), Scaled(le, y))
  {
    var q :| ApartBy(x, y, q);
    assert ApartBy(Scaled(le, x), Scaled(le, y), if le then 0x100 * q else q);
  }

  /** Swapping the accumulator multiplies it by 256 modulo 65535, and keeps zero zero. */
  lemma SwapWeight(le: bool, x: u64)
    ensures SameFold(SwapToBigEndian(le, x), Scaled(le, x))
  {
    BigEndianRoundTrip(x);
    if le {
      var a, n := BigEndianBytes(x), NativeBytes(le, x);
      BigEndianWords(a);
      BigEndianWords(n);
      ReversedWords(a, n);
      ScaledFold(le, FourWords(a), x);
      SameFoldTransitive(SwapToBigEndian(le, x), FourWords(n), Scaled(le, FourWords(a)));
      SameFoldTransitive(SwapToBigEndian(le, x), Scaled(le, FourWords(a)), Scaled(le, x));
    } else {
      Congruent(x, x, 0);
    }
  }

  // ---- the carry chain ----------------------------------------------------------------

  /** bits.Add64: the sum with carry-in, and the carry out. */
  function Add64(x: u64, y: u64, carry: u64): (u64, u64)
    requires carry <= 1
  {
    ((x + y + carry) % TWO64, (x + y + carry) / TWO64)
  }

  /** One addition stands for its exact sum, and an end-around carry always has room. */
  lemma Add64Folds(x: u64, y: u64, carry: u64)
    requires carry <= 1 && (carry == 1 ==> x < TWO64 - 1)
    ensures var (sum, out) := Add64(x, y, carry);
            && out <= 1
            && (out == 1 ==> sum < TWO64 - 1)
            && SameFold(sum + out, x + y + carry)
  {
    var (sum, out) := Add64(x, y, carry);
    Congruent(x + y + carry, sum + out, out * 0x1_0001_0001_0001);
  }

  /**
   The state of a chain of additions after k words of b, started from base: the accumulator
   and its pending carry stand for the sum so far, and a pending carry leaves room for itself.
   */
  ghost predicate Chain(le: bool, b: seq<byte>, k: nat, base: nat, ac: nat, carry: nat)
    requires 8 * k <= |b|
  {
    && carry <= 1
    && (carry == 1 ==> ac < TWO64 - 1)
    && SameFold(ac + carry, base + Scaled(le, WordSum(b[..8 * k])))
  }

  lemma ChainStart(le: bool, b: seq<byte>, base: u64)
    ensures Chain(le, b, 0, base, base, 0)
  {
    Congruent(base, base, 0);
  }

  lemma AddFolds(ac: u64, carry: u64, sofar: nat, w: u64, word: nat)
    requires carry <= 1 && (carry == 1 ==> ac < TWO64 - 1)
    requires SameFold(ac + carry, sofar) && SameFold(w, word)
    ensures var (sum, out) := Add64(ac, w, carry);
            && out <= 1
            && (out == 1 ==> sum < TWO64 - 1)
            && SameFold(sum + out, sofar + word)
  {
    var (sum, out) := Add64(ac, w, carry);
    Add64Folds(ac, w, carry);
    SameFoldSum(ac + carry, sofar, w, word);
    SameFoldTransitive(sum + out, ac + w + carry, sofar + word);
  }

  lemma NextNativeWord(le: bool, b: seq<byte>, k: nat)
    requires 8 * k + 8 <= |b|
    ensures Scaled(le, WordSum(b[..8 * (k + 1)]))
        == Scaled(le, WordSum(b[..8 * k])) + Scaled(le, WordSum(b[8 * k..8 * k + 8]))
  {
    assert b[..8 * (k + 1)] == b[..8 * k] + b[8 * k..8 * k + 8];
    WordSumConcat(b[..8 * k], b[8 * k..8 * k + 8]);
    ScaledSum(le, WordSum(b[..8 * k]), WordSum(b[8 * k..8 * k + 8]));
  }

  /** No carry is ever lost: adding a word with carry keeps the chain faithful. */
  lemma ChainStep(le: bool, b: seq<byte>, k: nat, base: nat, ac: u64, carry: u64)
    requires 8 * k + 8 <= |b| && Chain(le, b, k, base, ac, carry)
    ensures var (sum, out) := Add64(ac, Native64(le, b, 8 * k), carry);
            Chain(le, b, k + 1, base, sum, out)
  {
    hide WordSum, Native64, Scaled, SameFold;
    Native64Weight(le, b, 8 * k);
    AddFolds(ac, carry, base + Scaled(le, WordSum(b[..8 * k])),
             Native64(le, b, 8 * k), Scaled(le, WordSum(b[8 * k..8 * k + 8])));
    NextNativeWord(le, b, k);
  }

  /** One line of the unrolled loop: add word k of b and the pending carry. */
  method AddWord(le: bool, b: seq<byte>, k: nat, ghost base: nat, ac: u64, carry: u64) returns (sum: u64, out: u64)
    requires 8 * k + 8 <= |b| && Chain(le, b, k, base, ac, carry)
    ensures Chain(le, b, k + 1, base, sum, out)
  {
    var r := Add64(ac, Native64(le, b, 8 * k), carry);
    sum, out := r.0, r.1;
    ChainStep(le, b, k, base, ac, carry);
  }

  /** The closing ac += carry, which cannot wrap. */
  method ChainEnd(le: bool, b: seq<byte>, k: nat, ghost base: nat, ac: u64, carry: u64) returns (r: u64)
    requires 8 * k <= |b| && Chain(le, b, k, base, ac, carry)
    ensures r == ac + carry
    ensures SameFold(r, base + Scaled(le, WordSum(b[..8 * k])))
  {
    r := (ac + carry) % TWO64;
  }

  lemma Consume(le: bool, b: seq<byte>, n: nat, before: nat, after: nat, total: nat)
    requires n <= |b| && n % 2 == 0
    requires SameFold(after, before + Scaled(le, WordSum(b[..n])))
    requires SameFold(before + Scaled(le, WordSum(b)), total)
    ensures SameFold(after + Scaled(le, WordSum(b[n..])), total)
  {
    hide WordSum, SameFold, BE16;
    WordSumSplit(b, n);
    var rest := Scaled(le, WordSum(b[n..]));
    SameFoldAdd(after, before + Scaled(le, WordSum(b[..n])), rest);
    SameFoldTransitive(after + rest, before + Scaled(le, WordSum(b)), total);
  }

  lemma ScaledSum(le: bool, x: nat, y: nat)
    ensures Scaled(le, x + y) == Scaled(le, x) + Scaled(le, y)
  {
  }

  lemma NothingLeft(le: bool, b: seq<byte>)
    requires |b| == 0
    ensures WordSum(b) == 0 && Scaled(le, WordSum(b)) == 0
  {
  }

  /** Adding one value into the accumulator with an end-around carry. */
  method AddTail(ac: u64, v: u64, ghost value: nat) returns (r: u64)
    requires SameFold(v, value)
    ensures SameFold(r, ac + value)
  {
    var s := Add64(ac, v, 0);
    Add64Folds(ac, v, 0);
    r := (s.0 + s.1) % TWO64;
    SameFoldAdd(v, value, ac);
    SameFoldTransitive(r, ac + v, ac + value);
  }

  // The unrolled blocks: the words of 128, 64, 32, 16 and 8 bytes, closed by the last carry.

  method Block128(le: bool, b: seq<byte>, base: u64) returns (ac: u64)
    requires 128 <= |b|
    ensures SameFold(ac, base + Scaled(le, WordSum(b[..128])))
  {
    hide *;
    var carry: u64 := 0;
    ac := base;
    ChainStart(le, b, base);
    ac, carry := AddWord(le, b, 0, base, ac, 0);
    ac, carry := AddWord(le, b, 1, base, ac, carry);
    ac, carry := AddWord(le, b, 2, base, ac, carry);
    ac, carry := AddWord(le, b, 3, base, ac, carry);
    ac, carry := AddWord(le, b, 4, base, ac, carry);
    ac, carry := AddWord(le, b, 5, base, ac, carry);
    ac, carry := AddWord(le, b, 6, base, ac, carry);
    ac, carry := AddWord(le, b, 7, base, ac, carry);
    ac, carry := AddWord(le, b, 8, base, ac, carry);
    ac, carry := AddWord(le, b, 9, base, ac, carry);
    ac, carry := AddWord(le, b, 10, base, ac, carry);
    ac, carry := AddWord(le, b, 11, base, ac, carry);
    ac, carry := AddWord(le, b, 12, base, ac, carry);
    ac, carry := AddWord(le, b, 13, base, ac, carry);
    ac, carry := AddWord(le, b, 14, base, ac, carry);
    ac, carry := AddWord(le, b, 15, base, ac, carry);
    ac := ChainEnd(le, b, 16, base, ac, carry);
  }

  method Block64(le: bool, b: seq<byte>, base: u64) returns (ac: u64)
    requires 64 <= |b|
    ensures SameFold(ac, base + Scaled(le, WordSum(b[..64])))
  {
    hide *;
    var carry: u64 := 0;
    ac := base;
    ChainStart(le, b, base);
    ac, carry := AddWord(le, b, 0, base, ac, 0);
    ac, carry := AddWord(le, b, 1, base, ac, carry);
    ac, carry := AddWord(le, b, 2, base, ac, carry);
    ac, carry := AddWord(le, b, 3, base, ac, carry);
    ac, carry := AddWord(le, b, 4, base, ac, carry);
    ac, carry := AddWord(le, b, 5, base, ac, carry);
    ac, carry := AddWord(le, b, 6, base, ac, carry);
    ac, carry := AddWord(le, b, 7, base, ac, carry);
    ac := ChainEnd(le, b, 8, base, ac, carry);
  }

  method Block32(le: bool, b: seq<byte>, base: u64) returns (ac: u64)
    requires 32 <= |b|
    ensures SameFold(ac, base + Scaled(le, WordSum(b[..32])))
  {
    hide *;
    var carry: u64 := 0;
    ac := base;
    ChainStart(le, b, base);
    ac, carry := AddWord(le, b, 0, base, ac, 0);
    ac, carry := AddWord(le, b, 1, base, ac, carry);
    ac, carry := AddWord(le, b, 2, base, ac, carry);
    ac, carry := AddWord(le, b, 3, base, ac, carry);
    ac := ChainEnd(le, b, 4, base, ac, carry);
  }

  method Block16(le: bool, b: seq<byte>, base: u64) returns (ac: u64)
    requires 16 <= |b|
    ensures SameFold(ac, base + Scaled(le, WordSum(b[..16])))
  {
    hide *;
    var carry: u64 := 0;
    ac := base;
    ChainStart(le, b, base);
    ac, carry := AddWord(le, b, 0, base, ac, 0);
    ac, carry := AddWord(le, b, 1, base, ac, carry);
    ac := ChainEnd(le, b, 2, base, ac, carry);
  }

  method Block8(le: bool, b: seq<byte>, base: u64) returns (ac: u64)
    requires 8 <= |b|
    ensures SameFold(ac, base + Scaled(le, WordSum(b[..8])))
  {
    hide *;
    var carry: u64 := 0;
    ac := base;
    ChainStart(le, b, base);
    ac, carry := AddWord(le, b, 0, base, ac, 0);
    ac := ChainEnd(le, b, 1, base, ac, carry);
  }

  method Block4(le: bool, b: seq<byte>, base: u64) returns (ac: u64)
    requires 4 <= |b|
    ensures SameFold(ac, base + Scaled(le, WordSum(b[..4])))
  {
    Native32Weight(le, b, 0);
    WordSumSplit(b[..4], 2);
    WordSumPair(b[..4][..2]);
    WordSumPair(b[..4][2..]);
    ac := AddTail(base, Native32(le, b, 0), Scaled(le, WordSum(b[..4])));
  }

  method Block2(le: bool, b: seq<byte>, base: u64) returns (ac: u64)
    requires 2 <= |b|
    ensures SameFold(ac, base + Scaled(le, WordSum(b[..2])))
  {
    Native16Weight(le, b, 0);
    WordSumPair(b[..2]);
    ac := AddTail(base, Native16(le, b, 0), Scaled(le, WordSum(b[..2])));
  }

  /** The odd last byte is the high half of a word. */
  method Block1(le: bool, b: seq<byte>, base: u64) returns (ac: u64)
    requires |b| == 1
    ensures SameFold(ac, base + Scaled(le, WordSum(b)))
  {
    var tmp := Native16(le, [b[0], 0], 0);
    Native16Weight(le, [b[0], 0], 0);
    ac := AddTail(base, tmp, Scaled(le, WordSum(b)));
  }

  /** The last 15 bytes or fewer. */
  method ShortTail(le: bool, bytes: seq<byte>, base: u64) returns (ac: u64)
    requires |bytes| < 16
    ensures SameFold(ac, base + Scaled(le, WordSum(bytes)))
  {
    hide *;
    var b := bytes;
    ghost var total := base + Scaled(le, WordSum(bytes));
    ac := base;
    Congruent(total, total, 0);
    if 8 <= |b| {
      var next := Block8(le, b, ac);
      Consume(le, b, 8, ac, next, total);
      ac, b := next, b[8..];
    }
    if 4 <= |b| {
      var next := Block4(le, b, ac);
      Consume(le, b, 4, ac, next, total);
      ac, b := next, b[4..];
    }
    if 2 <= |b| {
      var next := Block2(le, b, ac);
      Consume(le, b, 2, ac, next, total);
      ac, b := next, b[2..];
    }
    if |b| == 1 {
      var next := Block1(le, b, ac);
      SameFoldTransitive(next, ac + Scaled(le, WordSum(b)), total);
      ac := next;
    } else {
      NothingLeft(le, b);
    }
  }

  /** The last 127 bytes or fewer. */
  method Tail(le: bool, bytes: seq<byte>, base: u64) returns (ac: u64)
    requires |bytes| < 128
    ensures SameFold(ac, base + Scaled(le, WordSum(bytes)))
  {
    hide *;
    var b := bytes;
    ghost var total := base + Scaled(le, WordSum(bytes));
    ac := base;
    Congruent(total, total, 0);
    if 64 <= |b| {
      var next := Block64(le, b, ac);
      Consume(le, b, 64, ac, next, total);
      ac, b := next, b[64..];
    }
    if 32 <= |b| {
      var next := Block32(le, b, ac);
      Consume(le, b, 32, ac, next, total);
      ac, b := next, b[32..];
    }
    if 16 <= |b| {
      var next := Block16(le, b, ac);
      Consume(le, b, 16, ac, next, total);
      ac, b := next, b[16..];
    }
    var last := ShortTail(le, b, ac);
    SameFoldTransitive(last, ac + Scaled(le, WordSum(b)), total);
    ac := last;
  }

  /**
   The unfolded fast sum. Whatever the host's byte order and the length of b, it stands for
   the mathematical sum of the initial value and the 16-bit words of b.
   */
  method ChecksumNoFold(le: bool, bytes: seq<byte>, initial: u64) returns (r: u64)
    ensures SameFold(r, initial + WordSum(bytes))
  {
    hide *;
    var ac: u64 := SwapToBigEndian(le, initial);
    var b := bytes;
    ghost var total := Scaled(le, initial + WordSum(bytes));
    SwapWeight(le, initial);
    ScaledSum(le, initial, WordSum(b));
    SameFoldAdd(ac, Scaled(le, initial), Scaled(le, WordSum(b)));
    while 128 <= |b|
      invariant SameFold(ac + Scaled(le, WordSum(b)), total)
    {
      var next := Block128(le, b, ac);
      Consume(le, b, 128, ac, next, total);
      ac, b := next, b[128..];
    }
    var last := Tail(le, b, ac);
    SameFoldTransitive(last, ac + Scaled(le, WordSum(b)), total);
    r := SwapToBigEndian(le, last);
    SwappedBack(le, last, r, initial + WordSum(bytes));
  }

  /** Swapping in and out multiplies by 65536, which is 1 modulo 65535. */
  lemma SwappedBack(le: bool, ac: u64, r: u64, sum: nat)
    requires SameFold(ac, Scaled(le, sum)) && r == SwapToBigEndian(le, ac)
    ensures SameFold(r, sum)
  {
    hide SwapToBigEndian, SameFold;
    SwapWeight(le, ac);
    ScaledFold(le, ac, Scaled(le, sum));
    SameFoldTransitive(r, Scaled(le, ac), Scaled(le, Scaled(le, sum)));
    Congruent(Scaled(le, Scaled(le, sum)), sum, if le then sum else 0);
    SameFoldTransitive(r, Scaled(le, Scaled(le, sum)), sum);
  }

  // ---- folding ------------------------------------------------------------------------

  function FoldOnce(ac: nat): nat {
    ac / TWO16 + ac % TWO16
  }

  lemma FoldOnceKeeps(ac: nat)
    ensures SameFold(ac, FoldOnce(ac))
  {
    Congruent(ac, FoldOnce(ac), ac / TWO16);
  }

  lemma FoldOnceBound(ac: nat, hi: nat)
    requires ac < (hi + 1) * TWO16
    ensures ac < hi * TWO16 ==> FoldOnce(ac) < hi + 0xffff
    ensures FoldOnce(ac) <= hi + 0xffff && (FoldOnce(ac) == hi + 0xffff ==> ac == (hi + 1) * TWO16 - 1)
  {
  }

  /** Four folds bring any 64-bit accumulator down to 16 bits, and keep its folded value. */
  lemma FourFolds(ac: u64)
    ensures FoldOnce(FoldOnce(FoldOnce(FoldOnce(ac)))) == OnesFold(ac)
  {
    var f1 := FoldOnce(ac);
    var f2 := FoldOnce(f1);
    var f3 := FoldOnce(f2);
    var f4 := FoldOnce(f3);
    FoldOnceBound(ac, 0xffff_ffff_ffff);
    FoldOnceBound(f1, 0x1_0000_0000);
    FoldOnceBound(f2, 0x1_0000);
    FoldOnceBound(f3, 1);
    assert f4 <= 0xffff;
    FoldOnceKeeps(ac);
    FoldOnceKeeps(f1);
    FoldOnceKeeps(f2);
    FoldOnceKeeps(f3);
    SameFoldTransitive(ac, f1, f2);
    SameFoldTransitive(ac, f2, f3);
    SameFoldTransitive(ac, f3, f4);
    FoldIsUnique(ac, f4);
  }

  /** The fourth fold is needed: after three, this accumulator still has 17 bits. */
  lemma ThreeFoldsFallShort()
    ensures FoldOnce(FoldOnce(FoldOnce(0x1_0000_0000_ffff))) == 0x1_0000
  {
  }

  /** The fast checksum is the one's complement fold of the mathematical sum. */
  method Checksum(le: bool, b: seq<byte>, initial: u64) returns (c: u16)
    ensures c == OnesFold(initial + WordSum(b))
  {
    var ac: nat := ChecksumNoFold(le, b, initial);
    FourFolds(ac);
    SameFoldMeaning(ac, initial + WordSum(b));
    ac := FoldOnce(ac);
    ac := FoldOnce(ac);
    ac := FoldOnce(ac);
    ac := FoldOnce(ac);
    c := U16(ac);
  }

  /** An even-length prefix can be summed first and its fold handed on as the initial value. */
  lemma ChainedPrefix(a: seq<byte>, b: seq<byte>, initial: nat, partial: nat)
    requires |a| % 2 == 0 && SameFold(partial, initial + WordSum(a))
    ensures OnesFold(partial + WordSum(b)) == OnesFold(initial + WordSum(a + b))
  {
    WordSumConcat(a, b);
    SameFoldAdd(partial, initial + WordSum(a), WordSum(b));
    SameFoldMeaning(partial + WordSum(b), initial + WordSum(a + b));
  }

  /** The pseudo-header sum of section 3.1 of RFC 9293, RFC 768 and section 8.1 of RFC 8200. */
  function PseudoSum(protocol: byte, src: seq<byte>, dst: seq<byte>, totalLen: u16): nat {
    WordSum(src) + WordSum(dst) + protocol + totalLen
  }

  method PseudoHeaderChecksumNoFold(le: bool, protocol: byte, src: seq<byte>, dst: seq<byte>, totalLen: u16)
    returns (sum: u64)
    ensures SameFold(sum, PseudoSum(protocol, src, dst, totalLen))
  {
    hide SameFold;
    sum := ChecksumNoFold(le, src, 0);
    var s0 := sum;
    sum := ChecksumNoFold(le, dst, sum);
    SameFoldAdd(s0, WordSum(src), WordSum(dst));
    SameFoldTransitive(sum, s0 + WordSum(dst), WordSum(src) + WordSum(dst));
    var s1 := sum;
    sum := ChecksumNoFold(le, [0, protocol], sum);
    WordSumPair([0, protocol]);
    SameFoldAdd(s1, WordSum(src) + WordSum(dst), protocol);
    SameFoldTransitive(sum, s1 + protocol, WordSum(src) + WordSum(dst) + protocol);
    var s2 := sum;
    var tmp := PutBE16(Zeros(2), 0, totalLen);
    sum := ChecksumNoFold(le, tmp, sum);
    WordSumPair(tmp);
    SameFoldAdd(s2, WordSum(src) + WordSum(dst) + protocol, totalLen);
    SameFoldTransitive(sum, s2 + totalLen, PseudoSum(protocol, src, dst, totalLen));
  }

  // ---- the simple loop ----------------------------------------------------------------

  /** What the simple loop's 32-bit accumulator and repeated folding leave of a sum. */
  function SimpleFold(sum: nat): u16 {
    OnesFold(sum % TWO32)
  }

  lemma SimpleFoldIs(sum: nat)
    ensures SimpleFold(sum) == OnesFold(sum % TWO32)
  {
  }

  /** tuntest.checksum: a 32-bit accumulator, which may wrap, folded until it fits in 16 bits. */
  method SimpleChecksum(buf: seq<byte>, initial: u16) returns (c: u16)
    ensures c == 0xffff - SimpleFold(initial + WordSum(buf))
  {
    hide WordSum, BE16, OnesFold, SimpleFold;
    var v: nat := initial;
    var i := 0;
    NothingLeft(false, buf[..0]);
    while i < |buf| - 1
      invariant 0 <= i <= |buf| && i % 2 == 0
      invariant v == (initial + WordSum(buf[..i])) % TWO32
    {
      NextWord(buf, i);
      WrappedSum(initial + WordSum(buf[..i]), BE16(buf, i));
      v := (v + BE16(buf, i)) % TWO32;
      i := i + 2;
    }
    if |buf| % 2 == 1 {
      LastByte(buf);
      WrappedSum(initial + WordSum(buf[..i]), buf[|buf| - 1] as int * 0x100);
      v := (v + buf[|buf| - 1] as int * 0x100) % TWO32;
    } else {
      assert buf[..i] == buf;
    }
    c := FoldLoop(v);
    SimpleFoldIs(initial + WordSum(buf));
  }

  lemma WrappedSum(x: nat, y: nat)
    ensures (x % TWO32 + y) % TWO32 == (x + y) % TWO32
  {
  }

  lemma NextWord(buf: seq<byte>, i: nat)
    requires i + 2 <= |buf| && i % 2 == 0
    ensures WordSum(buf[..i + 2]) == WordSum(buf[..i]) + BE16(buf, i)
  {
    WordSumPair(buf[i..i + 2]);
    assert buf[..i + 2] == buf[..i] + buf[i..i + 2];
    WordSumConcat(buf[..i], buf[i..i + 2]);
  }

  lemma LastByte(buf: seq<byte>)
    requires |buf| % 2 == 1
    ensures WordSum(buf) == WordSum(buf[..|buf| - 1]) + buf[|buf| - 1] as int * 0x100
  {
    WordSumSplit(buf, |buf| - 1);
  }

  method FoldLoop(sum: u32) returns (c: u16)
    ensures c == 0xffff - OnesFold(sum)
  {
    var v: nat := sum;
    Congruent(v, v, 0);
    while v > 0xffff
      invariant SameFold(sum, v)
    {
      FoldOnceKeeps(v);
      SameFoldTransitive(sum, v, FoldOnce(v));
      v := v / TWO16 + v % TWO16;
    }
    FoldIsUnique(sum, v);
    c := 0xffff - v;
  }

  lemma MultipleOf(x: int, q: int)
    requires x == 0xffff * q
    ensures x % 0xffff == 0
  {
  }

  /**
   The two checksums are complements exactly when the carries lost by the 32-bit accumulator
   cancel out: always when the sum fits, which 131072 bytes guarantee.
   */
  lemma SimpleAgrees(buf: seq<byte>, initial: u16)
    ensures var sum := initial + WordSum(buf);
            OnesFold(sum) == SimpleFold(sum)
            <==> sum < TWO32 || (sum / TWO32 % 0xffff == 0 && sum % TWO32 != 0)
    ensures |buf| <= 0x2_0000 ==> initial + WordSum(buf) < TWO32
  {
    WordSumBound(buf);
    var sum := initial + WordSum(buf);
    var lost, kept := sum / TWO32, sum % TWO32;
    if lost != 0 {
      SameFoldMeaning(sum, kept);
      if lost % 0xffff == 0 && kept != 0 {
        Congruent(sum, kept, lost * 0x1_0001 + lost / 0xffff);
      } else if SameFold(sum, kept) {
        var q :| ApartBy(sum, kept, q);
        if kept != 0 {
          MultipleOf(lost, q - lost * 0x1_0001);
        }
      }
    }
  }
}
