/**
 The Internet checksum of RFC 1071 as mathematics: the sum of the big-endian 16-bit words
 of a byte string, and its end-around-carry fold.
 */
module ChecksumSpec {
  import opened Bytes

  /** The sum of the 16-bit words of b; an odd last byte is padded with a zero on its right. */
  function WordSum(b: seq<byte>): nat {
    if |b| == 0 then 0
    else if |b| == 1 then b[0] * 0x100
    else BE16(b, 0) + WordSum(b[2..])
  }

  /** The 16-bit one's complement value of a sum: 0 only for 0, else the residue in 1..65535. */
  function OnesFold(x: nat): u16 {
    if x == 0 then 0 else (x - 1) % 0xffff + 1
  }

  predicate ApartBy(x: int, y: int, q: int) {
    x == y + 0xffff * q
  }

  /** Two sums that agree modulo 65535, and on being zero. */
  ghost predicate SameFold(x: nat, y: nat) {
    && (x == 0 <==> y == 0)
    && exists q :: ApartBy(x, y, q)
  }

  /** SameFold is exactly equality after folding. */
  lemma SameFoldMeaning(x: nat, y: nat)
    ensures SameFold(x, y) <==> OnesFold(x) == OnesFold(y)
  {
    FoldQuotient(x);
    FoldQuotient(y);
    var p, q := (x - OnesFold(x)) / 0xffff, (y - OnesFold(y)) / 0xffff;
    if OnesFold(x) == OnesFold(y) {
      assert ApartBy(x, y, p - q);
    }
    if SameFold(x, y) && x != 0 {
      var d :| ApartBy(x, y, d);
      assert OnesFold(x) as int - OnesFold(y) == 0xffff * (d - p + q);
    }
  }

  lemma FoldQuotient(x: nat)
    ensures x == OnesFold(x) + 0xffff * ((x - OnesFold(x)) / 0xffff)
    ensures OnesFold(x) <= x && (OnesFold(x) == 0 <==> x == 0)
  {
  }

  lemma FoldsToItself(x: nat)
    ensures SameFold(x, OnesFold(x))
  {
    FoldQuotient(x);
    assert ApartBy(x, OnesFold(x), (x - OnesFold(x)) / 0xffff);
  }

  lemma FoldIsUnique(x: nat, y: u16)
    requires SameFold(x, y)
    ensures OnesFold(x) == y
  {
  }

  lemma Congruent(x: nat, y: nat, q: int)
    requires x == y + 0xffff * q && (x == 0 <==> y == 0)
    ensures SameFold(x, y) && SameFold(y, x)
  {
    assert ApartBy(x, y, q) && ApartBy(y, x, -q);
  }

  lemma SameFoldTransitive(x: nat, y: nat, z: nat)
    requires SameFold(x, y) && SameFold(y, z)
    ensures SameFold(x, z)
  {
    var p, q :| ApartBy(x, y, p) && ApartBy(y, z, q);
    assert ApartBy(x, z, p + q);
  }

  lemma SameFoldSum(x: nat, x': nat, y: nat, y': nat)
    requires SameFold(x, x') && SameFold(y, y')
    ensures SameFold(x + y, x' + y')
  {
    var p, q :| ApartBy(x, x', p) && ApartBy(y, y', q);
    assert ApartBy(x + y, x' + y', p + q);
  }

  lemma SameFoldAdd(x: nat, y: nat, z: nat)
    requires SameFold(x, y)
    ensures SameFold(x + z, y + z)
  {
    var q :| ApartBy(x, y, q);
    assert ApartBy(x + z, y + z, q);
  }

  /** The words of a concatenation, when the cut falls between words. */
  lemma {:induction false} WordSumConcat(a: seq<byte>, b: seq<byte>)
    requires |a| % 2 == 0
    ensures WordSum(a + b) == WordSum(a) + WordSum(b)
  {
    if |a| == 0 {
      assert a + b == b;
    } else {
      assert (a + b)[2..] == a[2..] + b;
      WordSumConcat(a[2..], b);
    }
  }

  lemma WordSumSplit(s: seq<byte>, n: nat)
    requires n <= |s| && n % 2 == 0
    ensures WordSum(s) == WordSum(s[..n]) + WordSum(s[n..])
  {
    assert s == s[..n] + s[n..];
    WordSumConcat(s[..n], s[n..]);
  }

  /** Rewriting an aligned 16-bit field changes the sum by the change of that field. */
  lemma {:induction false} WordSumPut(s: seq<byte>, at: nat, v: u16)
    requires at + 2 <= |s| && at % 2 == 0
    ensures WordSum(PutBE16(s, at, v)) + BE16(s, at) == WordSum(s) + v
  {
    var t := PutBE16(s, at, v);
    if at == 0 {
      assert t[2..] == s[2..];
    } else {
      assert t[2..] == PutBE16(s[2..], at - 2, v);
      WordSumPut(s[2..], at - 2, v);
    }
  }

  lemma WordSumPair(b: seq<byte>)
    requires |b| == 2
    ensures WordSum(b) == BE16(b, 0)
  {
  }

  /** Bounded by 0xffff a word, an odd last byte counting as one. */
  lemma {:induction false} WordSumBound(b: seq<byte>)
    ensures WordSum(b) <= 0xffff * ((|b| + 1) / 2)
  {
    if |b| >= 2 {
      WordSumBound(b[2..]);
    }
  }

  lemma {:induction false} PositiveSum(b: seq<byte>, k: nat)
    requires k < |b| && b[k] > 0
    ensures WordSum(b) > 0
  {
    if k >= 2 {
      PositiveSum(b[2..], k - 2);
    }
  }

  /** A sum that folds to all ones determines an aligned field, up to the two forms of zero. */
  lemma FieldUnique(a: seq<byte>, b: seq<byte>, at: nat, extra: nat)
    requires |a| == |b| && at + 2 <= |a| && at % 2 == 0
    requires forall k :: 0 <= k < |a| && k != at && k != at + 1 ==> a[k] == b[k]
    requires OnesFold(extra + WordSum(a)) == 0xffff && OnesFold(extra + WordSum(b)) == 0xffff
    requires BE16(a, at) != 0xffff && BE16(b, at) != 0xffff
    ensures a == b
  {
    hide *;
    var v := BE16(b, at);
    var p := PutBE16(a, at, v);
    WordSumPut(a, at, v);
    SameFields(p, b, at);
    assert p == b;
    FoldsToOnes(extra + WordSum(a));
    FoldsToOnes(extra + WordSum(b));
    ResiduesAgree(extra + WordSum(a), extra + WordSum(b), BE16(a, at), v);
    SameFields(a, b, at);
  }

  lemma ResiduesAgree(x: nat, y: nat, u: u16, v: u16)
    requires x % 0xffff == 0 && y % 0xffff == 0 && y + u == x + v && u != 0xffff && v != 0xffff
    ensures u == v
  {
    var p, q := x / 0xffff, y / 0xffff;
    assert x == 0xffff * p && y == 0xffff * q;
  }

  lemma SameFields(a: seq<byte>, b: seq<byte>, at: nat)
    requires |a| == |b| && at + 2 <= |a|
    ensures BE16(a, at) == BE16(b, at) ==> a[at] == b[at] && a[at + 1] == b[at + 1]
  {
  }

  lemma FoldsToOnes(x: nat)
    requires OnesFold(x) == 0xffff
    ensures x % 0xffff == 0
  {
  }

  /** The complement stored in a zeroed field makes the whole sum fold to all ones. */
  lemma ComplementCompletes(sum: nat)
    ensures OnesFold(sum + (0xffff - OnesFold(sum))) == 0xffff
  {
  }
}
