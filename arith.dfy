/** Facts about Euclidean division used by the layout and ordering lemmas. */
module Arith {

  /** Writing `k` as `q * d + m` with `0 <= m < d` determines `k / d` and `k % d`. */
  lemma {:induction false} DivModOf(q: nat, m: nat, d: nat)
    requires m < d
    ensures (q * d + m) / d == q
    ensures (q * d + m) % d == m
  {
    var k := q * d + m;
    var q', m' := k / d, k % d;
    assert k == q' * d + m';
    assert (q - q') * d == m' - m;
    if q' < q {
      MulAtLeast(q - q', d);
    } else if q < q' {
      MulAtLeast(q' - q, d);
    }
  }

  /** An offset below `n * d` lies in one of the first `n` blocks of width `d`. */
  lemma {:induction false} QuotientBound(k: nat, n: nat, d: nat)
    requires k < n * d
    ensures d > 0 && k / d < n && k == (k / d) * d + k % d && k % d < d
  {
    if k / d >= n {
      MulMonotone(n, k / d, d);
    }
  }

  /** An offset below `n * d` is `i * d + m` for a block `i < n` and a place `m < d` in it. */
  lemma {:induction false} Decompose(k: nat, n: nat, d: nat) returns (i: nat, m: nat)
    requires k < n * d
    ensures i < n && m < d && k == i * d + m && k % d == m
  {
    QuotientBound(k, n, d);
    i, m := k / d, k % d;
  }

  lemma {:induction false} MulMonotone(a: nat, b: nat, d: nat)
    requires a <= b
    ensures a * d <= b * d
  {
    if a < b {
      MulAtLeast(b - a, d);
      assert b * d == (b - a) * d + a * d;
    }
  }

  lemma {:induction false} MulAtLeast(a: int, d: nat)
    requires a >= 1
    ensures a * d >= d
  {
    assert a * d == (a - 1) * d + d;
  }
}
