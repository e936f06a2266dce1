/** Facts of integer arithmetic that the solver does not find on its own. */
module Arith {
  /** Euclidean division is unique: a quotient and remainder that recompose `x` are `x / m`
      and `x % m`. */
  lemma ModUnique(x: int, m: int, q: int, r: int)
    requires m > 0 && 0 <= r < m && x == m * q + r
    ensures x / m == q && x % m == r
  {
    var q', r' := x / m, x % m;
    var k := q' - q;
    MulDistrib(m, q', q);
    assert m * k == r - r';
    MulAway(m, k);
  }

  lemma MulDistrib(m: int, a: int, b: int)
    ensures m * a - m * b == m * (a - b)
  {
  }

  /** The only multiple of `m` strictly between `-m` and `m` is 0. */
  lemma MulAway(m: int, k: int)
    requires m > 0 && -m < m * k < m
    ensures k == 0
  {
  }

  /** A multiple of `m` leaves no remainder. */
  lemma MultipleMod(q: int, m: int)
    requires m > 0
    ensures (q * m) % m == 0 && (q * m) / m == q
  {
    ModUnique(q * m, m, q, 0);
  }

  /** Multiplying by a positive factor does not shrink a natural number. */
  lemma MulAtLeast(a: nat, b: nat)
    requires b >= 1
    ensures a * b >= a
  {
    assert a * b == a + a * (b - 1);
  }

  /** A nonnegative `q` with `q * rep <= rep * (p - 1)` is below `p`. */
  lemma QuotientBound(q: int, rep: int, p: int)
    requires rep >= 1 && q >= 0 && q * rep <= rep * (p - 1)
    ensures q < p
  {
  }

  /** A multiple of `rep` no larger than `rep * (p - 1)` is `rep` times a quotient below `p`. */
  lemma MultipleQuotientBound(v: int, rep: int, p: int)
    requires rep >= 1 && 0 <= v <= rep * (p - 1) && v % rep == 0
    ensures 0 <= v / rep < p && v == v / rep * rep
  {
    var q := v / rep;
    assert v == rep * q;
    QuotientBound(q, rep, p);
  }

  /** A divisor of `n` that goes into it at least twice is at most half of it. */
  lemma SegmentBound(n: nat, seg: nat)
    requires 0 < seg && n % seg == 0 && n / seg >= 2
    ensures 2 * seg <= n && n == seg * (n / seg)
  {
    var k := n / seg;
    assert n == seg * k;
    assert seg * k >= seg * 2;
  }

  /** The remainder of a successor: one more, wrapping to 0 after `m - 1`. */
  lemma ModSuccessor(y: int, m: int)
    requires m > 0
    ensures (y + 1) % m == if y % m == m - 1 then 0 else y % m + 1
  {
    var q, r := y / m, y % m;
    assert y == m * q + r;
    if r == m - 1 {
      ModUnique(y + 1, m, q + 1, 0);
    } else {
      ModUnique(y + 1, m, q, r + 1);
    }
  }
}
