/** Division and remainder from what they multiply back to. */
module Integers {
  function Min(a: int, b: int): int { if a <= b then a else b }
  function Max(a: int, b: int): int { if a >= b then a else b }

  lemma Distribute(p: int, q: int, n: nat)
    ensures (p - q) * n == p * n - q * n
  {
  }

  lemma Negated(q: int, n: nat)
    ensures (-q) * n == -(q * n) && (-q - 1) * n == -(q * n) - n
  {
    Distribute(0, q, n);
    Distribute(-q, 1, n);
  }

  lemma AtLeastOnce(k: int, n: nat)
    ensures k >= 1 ==> k * n >= n
    ensures k == 0 ==> k * n == 0
  {
    if k >= 1 { Distribute(k, k - 1, n); }
  }

  /** A multiple of `n` closer to 0 than `n` is 0. */
  lemma SmallMultiple(k: int, n: nat, d: int)
    requires k * n == d && d < n && d + n > 0
    ensures d == 0 && k == 0
  {
    AtLeastOnce(k, n);
    AtLeastOnce(-k, n);
    Negated(k, n);
  }

  lemma SameQuotient(p: int, s: int, q: int, r: int, n: nat)
    requires p * n + s == q * n + r && 0 <= r < n && 0 <= s < n
    ensures p == q && s == r
  {
    Distribute(p, q, n);
    SmallMultiple(p - q, n, r - s);
  }

  lemma Divides(i: int, q: int, r: int, n: nat)
    requires n > 0 && i == q * n + r && 0 <= r < n
    ensures i / n == q && i % n == r
  {
    SameQuotient(i / n, i % n, q, r, n);
  }

  lemma OneLess(i: nat, n: nat)
    requires 0 < n <= i
    ensures i / n == (i - n) / n + 1 && i % n == (i - n) % n
  {
    var q, r := (i - n) / n, (i - n) % n;
    Distribute(q, -1, n);
    Divides(i, q + 1, r, n);
  }
}
