/**
 * Arithmetic over the reals with named products and quotients: proofs that only need a law or two then stay linear.
 */
module Reals {
  function Min(a: real, b: real): real { if a <= b then a else b }
  function Max(a: real, b: real): real { if a >= b then a else b }
  function Abs(a: real): real { if a < 0.0 then -a else a }

  function Times(a: real, b: real): real { a * b }
  function Square(a: real): real { Times(a, a) }

  function Rate(k: real, n: real): real
    requires n > 0.0
  {
    k / n
  }

  lemma TimesSign(a: real, b: real)
    requires a >= 0.0 && b >= 0.0
    ensures Times(a, b) >= 0.0
  {
  }

  lemma TimesPositive(a: real, b: real)
    requires a > 0.0 && b > 0.0
    ensures Times(a, b) > 0.0
  {
    Root(a, b, Times(a, b));
  }

  lemma Root(a: real, b: real, q: real)
    requires a > 0.0 && b > 0.0 && q == a * b
    ensures q > 0.0
  {
    assert q / a == b;
  }

  lemma TimesComm(a: real, b: real)
    ensures Times(a, b) == Times(b, a)
  {
  }

  lemma TimesAssoc(a: real, b: real, c: real)
    ensures Times(Times(a, b), c) == Times(a, Times(b, c))
  {
  }

  lemma TimesAdds(a: real, b: real, c: real)
    ensures Times(a + b, c) == Times(a, c) + Times(b, c) && Times(c, a + b) == Times(c, a) + Times(c, b)
  {
  }

  lemma TimesGrows(a: real, b: real, c: real)
    requires a <= b && c >= 0.0
    ensures Times(a, c) <= Times(b, c) && Times(c, a) <= Times(c, b)
  {
    TimesSign(b - a, c);
    TimesAdds(b - a, a, c);
    TimesComm(a, c);
    TimesComm(b, c);
  }

  lemma RateTimes(k: real, n: real)
    requires n > 0.0
    ensures Times(Rate(k, n), n) == k
  {
  }

  /** A quotient is fixed by what it gives times its divisor. */
  lemma RateUnique(q: real, k: real, n: real)
    requires n > 0.0 && Times(q, n) == k
    ensures q == Rate(k, n)
  {
    assert q == k / n;
  }

  lemma Expand(a: real, b: real, c: real, d: real)
    ensures Times(a + b, c + d) == Times(a, c) + Times(a, d) + Times(b, c) + Times(b, d)
  {
  }

  lemma SquareOfDifference(a: real, b: real)
    ensures Square(a - b) == Square(a + b) - 4.0 * Times(a, b)
  {
  }

  lemma Exchange(a: real, b: real, c: real, d: real)
    ensures Times(Times(a, b), Times(c, d)) == Times(Times(a, c), Times(b, d))
  {
    TimesAssoc(a, b, Times(c, d));
    TimesAssoc(b, c, d);
    TimesComm(b, c);
    TimesAssoc(c, b, d);
    TimesAssoc(a, c, Times(b, d));
  }

  lemma Unit(n: real)
    ensures Times(1.0, n) == n
  {
  }

  lemma SignOfFactor(a: real, m: real)
    requires m > 0.0
    ensures (a > 0.0) <==> Times(a, m) > 0.0
  {
    if a > 0.0 {
      TimesPositive(a, m);
    } else {
      TimesGrows(a, 0.0, m);
      Zero(m);
    }
  }

  lemma Zero(m: real)
    ensures Times(0.0, m) == 0.0
  {
  }

  lemma ProductPositive(a: real, b: real)
    requires a >= 0.0 && b >= 0.0
    ensures (Times(a, b) > 0.0) <==> (a > 0.0 && b > 0.0)
  {
    if a == 0.0 {
      Zero(b);
    } else if b == 0.0 {
      TimesComm(a, b);
      Zero(a);
    } else {
      TimesPositive(a, b);
    }
  }

  lemma SquareSign(a: real)
    ensures Square(a) >= 0.0 && ((Square(a) == 0.0) <==> a == 0.0)
  {
    if a > 0.0 {
      TimesPositive(a, a);
    } else if a < 0.0 {
      TimesPositive(-a, -a);
      Negated(a);
    } else {
      Zero(a);
    }
  }

  lemma Negated(a: real)
    ensures Square(-a) == Square(a)
  {
  }

  lemma RateOfPart(k: real, n: real)
    requires 0.0 <= k <= n && n > 0.0
    ensures 0.0 <= Rate(k, n) <= 1.0 && (k == n ==> Rate(k, n) == 1.0) && ((Rate(k, n) == 0.0) <==> k == 0.0)
  {
    var r := Rate(k, n);
    RateTimes(k, n);
    Unit(n);
    Zero(n);
    if r < 0.0 {
      SignOfFactor(-r, n);
      TimesAdds(-r, r, n);
    } else if r > 1.0 {
      SignOfFactor(r - 1.0, n);
      TimesAdds(r - 1.0, 1.0, n);
    }
    if k == n { RateUnique(1.0, k, n); }
    if k == 0.0 { RateUnique(0.0, k, n); }
  }

  lemma RateGrows(a: real, b: real, n: real)
    requires a <= b && n > 0.0
    ensures Rate(a, n) <= Rate(b, n)
  {
    var d := Rate(a, n) - Rate(b, n);
    RateTimes(a, n);
    RateTimes(b, n);
    TimesAdds(d, Rate(b, n), n);
    SignOfFactor(d, n);
  }
}
