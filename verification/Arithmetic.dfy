/** Products of segment sizes and counts, kept apart from everything else. */
module Arithmetic {

  function Times(n: nat, g: nat): int {
    n * g
  }

  predicate Multiple(n: int, g: nat) {
    g > 0 && n % g == 0
  }

  lemma Distribute(n: int, g: int)
    ensures (n + 1) * g == n * g + g
  {
  }

  lemma Factor(a: int, b: int, g: int)
    ensures a * g - b * g == (a - b) * g
  {
  }

  lemma StrictlyBetween(k: int, g: nat)
    requires 0 < k * g < 2 * g
    ensures k == 1
  {
  }

  lemma MulNonPositive(k: int, g: nat)
    requires k <= 0
    ensures k * g <= 0
  {
  }

  lemma AtLeast(n: nat, g: nat)
    requires g >= 1
    ensures n * g >= n
  {
  }

  lemma Product(a: nat, b: nat)
    ensures a * b >= 0
  {
  }

  /** A payload that is a multiple of the segment size has no short last segment. */
  lemma WholeSegments(n: nat, g: nat, last: nat)
    requires 1 <= last <= g && (n * g + last) % g == 0
    ensures last == g
  {
    var q := (n * g + last) / g;
    assert n * g + last == q * g;
    Factor(q, n, g);
    if last < g {
      StrictlyBetween(q - n, g);
    }
  }

  lemma Ceiling(n: nat, g: nat, last: nat)
    requires 1 <= last <= g
    ensures (n * g + last + g - 1) / g == n + 1
  {
    var q := (n * g + last + g - 1) / g;
    var r := (n * g + last + g - 1) % g;
    assert n * g + last + g - 1 == q * g + r;
    Distribute(n, g);
    Factor(q, n, g);
    if q < n + 1 {
      MulNonPositive(q - n, g);
    } else if q > n + 1 {
      MulNonPositive(n + 2 - q, g);
      Factor(n + 2, q, g);
      Distribute(n + 1, g);
    }
  }

  lemma WholeTotal(total: int, n: nat, g: nat, last: int)
    requires 1 <= last <= g && total == Times(n, g) + last && Multiple(total, g)
    ensures last == g && total == Times(n + 1, g)
  {
    WholeSegments(n, g, last);
    Distribute(n, g);
  }

  lemma TimesNext(n: nat, g: nat)
    ensures Times(n + 1, g) == Times(n, g) + g && Times(0, g) == 0
    ensures g > 0 ==> Multiple(Times(n, g), g)
  {
    Distribute(n, g);
    if g > 0 {
      assert n * g % g == 0;
    }
  }

  lemma TimesIs(n: nat, g: nat)
    ensures Times(n, g) == n * g
  {
  }

  lemma MultipleIs(n: int, g: nat)
    requires Multiple(n, g)
    ensures n % g == 0
  {
  }
}
