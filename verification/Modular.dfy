/** Facts about remainders by a positive modulus that the index arithmetic needs. */
module Modular {

  /** Indices and counters of the source are size_t, 64 bits wide. */
  const SIZE_MODULUS: nat := 0x1_0000_0000_0000_0000

  lemma MultipleIsFar(d: int, n: int)
    requires n > 0
    ensures d >= 1 ==> d * n >= n
    ensures d <= -1 ==> d * n <= -n
  {
  }

  lemma FewerTimes(k: int, m: int)
    ensures (k - 1) * m == k * m - m
  {
  }

  lemma {:induction false} TimesGap(a: int, b: int, m: int)
    requires m >= 0
    ensures a < b ==> a * m + m <= b * m
    decreases b - a
  {
    FewerTimes(b, m);
    if a + 1 < b {
      TimesGap(a, b - 1, m);
    }
  }

  /** Quotient and remainder are determined by the division equation. */
  lemma Unique(a: int, n: int, q: int, r: int)
    requires n > 0 && 0 <= r < n && a == q * n + r
    ensures a % n == r && a / n == q
  {
    var d := a / n - q;
    assert d * n == r - a % n;
    MultipleIsFar(d, n);
  }

  lemma NextRemainder(p: int, n: int)
    requires n > 0
    ensures (p + 1) % n == if p % n + 1 == n then 0 else p % n + 1
  {
    var q, r := p / n, p % n;
    if r + 1 < n {
      Unique(p + 1, n, q, r + 1);
    } else {
      Unique(p + 1, n, q + 1, 0);
    }
  }

  /** Stepping an index round a ring of n slots is stepping the count it is the remainder of. */
  lemma Succ(p: int, n: int)
    requires n > 0
    ensures (p % n + 1) % n == (p + 1) % n
    ensures (p + 1) % n == if p % n + 1 == n then 0 else p % n + 1
  {
    NextRemainder(p, n);
    NextRemainder(p % n, n);
    Unique(p % n, n, 0, p % n);
  }

  /** Two counts share a slot exactly when their distance is a multiple of n. */
  lemma SameSlot(a: int, b: int, n: int)
    requires n > 0
    ensures a % n == b % n <==> (a - b) % n == 0
  {
    var qa, qb := a / n, b / n;
    if a % n == b % n {
      assert a - b == (qa - qb) * n;
      Unique(a - b, n, qa - qb, 0);
    }
    if (a - b) % n == 0 {
      var d := (a - b) / n;
      assert a == (d + qb) * n + b % n;
      Unique(a, n, d + qb, b % n);
    }
  }

  /** The distance between two slots, round the ring, is that between their counts. */
  lemma SlotDistance(a: int, b: int, n: int)
    requires n > 0
    ensures (a % n - b % n) % n == (a - b) % n
  {
    var d := a % n - b % n;
    Unique(a - b, n, a / n - b / n + d / n, d % n);
  }

  /** Distinct counts less than n apart use distinct slots. */
  lemma Apart(a: int, b: int, n: int)
    requires 0 < a - b < n
    ensures a % n != b % n
  {
    SameSlot(a, b, n);
    Unique(a - b, n, 0, a - b);
  }
}
