/** Facts about truncating division of naturals, shared by the queue sizing and the numeral formatting. */
module Arith {

  lemma MulMonotone(a: nat, b: nat, d: nat)
    requires a <= b
    ensures a * d <= b * d && d * a <= d * b
  {
    assert b * d == a * d + (b - a) * d;
  }

  lemma DivModSplit(x: nat, d: nat)
    requires 0 < d
    ensures x == (x / d) * d + x % d && x % d < d
  {
  }

  /** If q * d <= x then q <= x / d. */
  lemma DivAtLeast(x: nat, d: nat, q: nat)
    requires 0 < d && q * d <= x
    ensures q <= x / d
  {
    var m := x / d;
    DivModSplit(x, d);
    if q > m {
      MulMonotone(m + 1, q, d);
      assert false;
    }
  }

  /** If x < q * d then x / d < q. */
  lemma DivBelow(x: nat, d: nat, q: nat)
    requires 0 < d && x < q * d
    ensures x / d < q
  {
    var m := x / d;
    DivModSplit(x, d);
    if m >= q {
      MulMonotone(q, m, d);
      assert false;
    }
  }

  /** A divisor larger than x leaves nothing. */
  lemma DivOfSmaller(x: nat, d: nat)
    requires x < d
    ensures x / d == 0
  {
    DivBelow(x, d, 1);
  }

  lemma DivNoLarger(x: nat, d: nat)
    requires 0 < d
    ensures x / d <= x
  {
    DivModSplit(x, d);
    MulMonotone(1, d, x / d);
  }

  /** Dividing by a larger divisor never gives more. */
  lemma DivAntitone(x: nat, a: nat, b: nat)
    requires 0 < a <= b
    ensures x / b <= x / a
  {
    var qb := x / b;
    DivModSplit(x, b);
    MulMonotone(a, b, qb);
    DivAtLeast(x, a, qb);
  }

  /** Quotient and remainder are unique: x == q * d + r with r < d fixes both. */
  lemma DivModUnique(x: nat, d: nat, q: nat, r: nat)
    requires 0 < d && r < d && x == q * d + r
    ensures x / d == q && x % d == r
  {
    DivAtLeast(x, d, q);
    MulMonotone(q + 1, q + 1, d);
    assert x < (q + 1) * d;
    DivBelow(x, d, q + 1);
    DivModSplit(x, d);
  }

  /** x >= d >= 2 gives a positive quotient smaller than x. */
  lemma QuotientPositive(x: nat, d: nat)
    requires 2 <= d <= x
    ensures 0 < x / d < x
  {
    var q := x / d;
    DivModSplit(x, d);
    DivAtLeast(x, d, 1);
    MulMonotone(2, d, q);
    assert q * 2 <= q * d <= x;
  }

  /** Cutting x into x / s pieces gives pieces of at least s. */
  lemma QuotientOfQuotientAtLeast(x: nat, s: nat)
    requires 0 < s <= x
    ensures x / s > 0 && x / (x / s) >= s
  {
    var q := x / s;
    DivAtLeast(x, s, 1);
    DivModSplit(x, s);
    assert s * q <= x;
    DivAtLeast(x, q, s);
  }

  /** When x >= s * s, cutting x into x / s pieces gives pieces of at most s. */
  lemma QuotientOfQuotientAtMost(x: nat, s: nat)
    requires 0 < s && s * s <= x
    ensures x / s > 0 && x / (x / s) <= s
  {
    var q := x / s;
    var r := x % s;
    DivModSplit(x, s);
    DivAtLeast(x, s, s);
    assert s <= q && r < s;
    assert q * (s + 1) == q * s + q;
    DivBelow(x, q, s + 1);
  }
}
