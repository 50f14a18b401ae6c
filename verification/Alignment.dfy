/** The least-squares similarity between two lists of points, and the inverse map of the warp, over the reals. */
module Alignment {
  import opened Reals

  datatype Point = Point(x: real, y: real)

  /** x' = a x - b y + tx, y' = b x + a y + ty. */
  datatype Similarity = Similarity(a: real, b: real, tx: real, ty: real)
  {
    function Apply(p: Point): Point {
      Point(a * p.x - b * p.y + tx, b * p.x + a * p.y + ty)
    }
  }

  /* ---------------------------------------------------------------- sums */

  function SumX(s: seq<Point>): real { if s == [] then 0.0 else s[0].x + SumX(s[1..]) }
  function SumY(s: seq<Point>): real { if s == [] then 0.0 else s[0].y + SumY(s[1..]) }

  function Mean(s: seq<Point>): Point
    requires s != []
  {
    Point(SumX(s) / |s| as real, SumY(s) / |s| as real)
  }

  function Minus(s: seq<Point>, m: Point): (r: seq<Point>)
    ensures |r| == |s|
  {
    if s == [] then [] else [Point(s[0].x - m.x, s[0].y - m.y)] + Minus(s[1..], m)
  }

  function PairDot(p: Point, q: Point): real { p.x * q.x + p.y * q.y }
  function PairCross(p: Point, q: Point): real { p.x * q.y - p.y * q.x }

  /** Sum of the products of matching coordinates. */
  function Dot(p: seq<Point>, q: seq<Point>): real
    requires |p| == |q|
  {
    if p == [] then 0.0 else PairDot(p[0], q[0]) + Dot(p[1..], q[1..])
  }

  function Cross(p: seq<Point>, q: seq<Point>): real
    requires |p| == |q|
  {
    if p == [] then 0.0 else PairCross(p[0], q[0]) + Cross(p[1..], q[1..])
  }

  function Distance2(p: Point, q: Point): real {
    Square(p.x - q.x) + Square(p.y - q.y)
  }

  /** The sum of squared errors of a similarity. */
  function Cost(src: seq<Point>, dst: seq<Point>, f: Similarity): real
    requires |src| == |dst|
  {
    if src == [] then 0.0 else Distance2(f.Apply(src[0]), dst[0]) + Cost(src[1..], dst[1..], f)
  }

  const TINY := 0.000000000001

  datatype Estimate = Fitted(f: Similarity) | Degenerate

  function EstimateSimilarity(src: seq<Point>, dst: seq<Point>): Estimate
    requires |src| == |dst| && src != []
  {
    var ms, md := Mean(src), Mean(dst);
    var p, q := Minus(src, ms), Minus(dst, md);
    var norm := Dot(p, p);
    if norm < TINY then Degenerate else Fitted(Fit(Dot(p, q) / norm, Cross(p, q) / norm, ms, md))
  }

  function Fit(a: real, b: real, ms: Point, md: Point): Similarity {
    Similarity(a, b, md.x - (a * ms.x - b * ms.y), md.y - (b * ms.x + a * ms.y))
  }

  /* ---------------------------------------------------------------- centring */

  lemma {:induction false} SumsOfMinus(s: seq<Point>, m: Point)
    ensures SumX(Minus(s, m)) == SumX(s) - |s| as real * m.x && SumY(Minus(s, m)) == SumY(s) - |s| as real * m.y
  {
    if s != [] { SumsOfMinus(s[1..], m); }
  }

  lemma CentredSums(s: seq<Point>)
    requires s != []
    ensures SumX(Minus(s, Mean(s))) == 0.0 && SumY(Minus(s, Mean(s))) == 0.0
  {
    SumsOfMinus(s, Mean(s));
  }

  /** The squared error of one pair of centred points, with an offset (e, f). */
  function Error(a: real, b: real, e: real, f: real, p: Point, q: Point): real {
    Square(a * p.x - b * p.y - q.x + e) + Square(b * p.x + a * p.y - q.y + f)
  }

  /** The cost of centred points with an offset. */
  function Offset(p: seq<Point>, q: seq<Point>, a: real, b: real, e: real, f: real): real
    requires |p| == |q|
  {
    if p == [] then 0.0 else Error(a, b, e, f, p[0], q[0]) + Offset(p[1..], q[1..], a, b, e, f)
  }

  /** The part of the cost without the offset, from the three centred sums. */
  function Core(a: real, b: real, m: real, c: real, d: real): real {
    (a * a + b * b) * m - 2.0 * a * c - 2.0 * b * d
  }

  /** What the offset adds, from the number of points and their sums. */
  function Shift(a: real, b: real, e: real, f: real, n: real, x: real, y: real, u: real, v: real): real {
    n * (e * e + f * f) + 2.0 * e * (a * x - b * y - u) + 2.0 * f * (b * x + a * y - v)
  }

  lemma CoreAdds(a: real, b: real, m: real, c: real, d: real, m1: real, c1: real, d1: real, m2: real, c2: real,
    d2: real)
    requires m2 == m + m1 && c2 == c + c1 && d2 == d + d1
    ensures Core(a, b, m2, c2, d2) == Core(a, b, m, c, d) + Core(a, b, m1, c1, d1)
  {
  }

  lemma ShiftAdds(a: real, b: real, e: real, f: real, n: real, x: real, y: real, u: real, v: real,
                  x1: real, y1: real, u1: real, v1: real, n2: real, x2: real, y2: real, u2: real, v2: real)
    requires n2 == n + 1.0 && x2 == x + x1 && y2 == y + y1 && u2 == u + u1 && v2 == v + v1
    ensures Shift(a, b, e, f, n2, x2, y2, u2, v2)
      == Shift(a, b, e, f, n, x, y, u, v) + Shift(a, b, e, f, 1.0, x1, y1, u1, v1)
  {
  }

  /** Twice a product. */
  function Twice(r: real, s: real): real {
    2.0 * r * s
  }

  lemma SquareOfSum(r: real, s: real)
    ensures Square(r + s) == Square(r) + Twice(s, r) + Square(s)
  {
  }

  /** The error of a pair in each direction, without the offset. */
  function ErrorX(a: real, b: real, p: Point, q: Point): real { a * p.x - b * p.y - q.x }
  function ErrorY(a: real, b: real, p: Point, q: Point): real { b * p.x + a * p.y - q.y }

  lemma Rotated(a: real, b: real, p: Point, q: Point)
    ensures Square(ErrorX(a, b, p, q)) + Square(ErrorY(a, b, p, q))
      == Core(a, b, PairDot(p, p), PairDot(p, q), PairCross(p, q)) + PairDot(q, q)
  {
  }

  lemma ErrorOf(a: real, b: real, e: real, f: real, p: Point, q: Point)
    ensures Error(a, b, e, f, p, q) == Square(ErrorX(a, b, p, q) + e) + Square(ErrorY(a, b, p, q) + f)
  {
  }

  lemma ShiftOfOne(a: real, b: real, e: real, f: real, p: Point, q: Point)
    ensures Shift(a, b, e, f, 1.0, p.x, p.y, q.x, q.y)
      == Square(e) + Square(f) + Twice(e, ErrorX(a, b, p, q)) + Twice(f, ErrorY(a, b, p, q))
  {
  }

  lemma OneError(a: real, b: real, e: real, f: real, p: Point, q: Point)
    ensures Error(a, b, e, f, p, q)
      == Core(a, b, PairDot(p, p), PairDot(p, q), PairCross(p, q)) + PairDot(q, q)
         + Shift(a, b, e, f, 1.0, p.x, p.y, q.x, q.y)
  {
    ErrorOf(a, b, e, f, p, q);
    SquareOfSum(ErrorX(a, b, p, q), e);
    SquareOfSum(ErrorY(a, b, p, q), f);
    Rotated(a, b, p, q);
    ShiftOfOne(a, b, e, f, p, q);
  }

  lemma OneMore(p: seq<Point>, q: seq<Point>, a: real, b: real, e: real, f: real)
    requires |p| == |q| && p != []
    ensures var p0, q0 := p[0], q[0];
      Error(a, b, e, f, p0, q0)
        + Core(a, b, Dot(p[1..], p[1..]), Dot(p[1..], q[1..]), Cross(p[1..], q[1..])) + Dot(q[1..], q[1..])
        + Shift(a, b, e, f, (|p| - 1) as real, SumX(p[1..]), SumY(p[1..]), SumX(q[1..]), SumY(q[1..]))
      == Core(a, b, Dot(p, p), Dot(p, q), Cross(p, q)) + Dot(q, q)
         + Shift(a, b, e, f, |p| as real, SumX(p), SumY(p), SumX(q), SumY(q))
  {
    var p0, q0, ps, qs := p[0], q[0], p[1..], q[1..];
    OneError(a, b, e, f, p0, q0);
    CoreAdds(a, b, Dot(ps, ps), Dot(ps, qs), Cross(ps, qs),
             PairDot(p0, p0), PairDot(p0, q0), PairCross(p0, q0), Dot(p, p), Dot(p, q), Cross(p, q));
    ShiftAdds(a, b, e, f, (|p| - 1) as real, SumX(ps), SumY(ps), SumX(qs), SumY(qs), p0.x, p0.y, q0.x, q0.y,
              |p| as real, SumX(p), SumY(p), SumX(q), SumY(q));
  }

  lemma {:induction false} OffsetExpands(p: seq<Point>, q: seq<Point>, a: real, b: real, e: real, f: real)
    requires |p| == |q|
    ensures Offset(p, q, a, b, e, f)
      == Core(a, b, Dot(p, p), Dot(p, q), Cross(p, q)) + Dot(q, q)
         + Shift(a, b, e, f, |p| as real, SumX(p), SumY(p), SumX(q), SumY(q))
  {
    if p != [] {
      OffsetExpands(p[1..], q[1..], a, b, e, f);
      OneMore(p, q, a, b, e, f);
    }
  }

  /** The offset that a similarity leaves between the mapped mean and the mean of the targets. */
  function Gap(f: Similarity, ms: Point, md: Point): Point {
    Point(f.tx + f.a * ms.x - f.b * ms.y - md.x, f.ty + f.b * ms.x + f.a * ms.y - md.y)
  }

  lemma {:induction false} CostIsOffset(src: seq<Point>, dst: seq<Point>, f: Similarity, ms: Point, md: Point)
    requires |src| == |dst|
    ensures Cost(src, dst, f) == Offset(Minus(src, ms), Minus(dst, md), f.a, f.b, Gap(f, ms, md).x, Gap(f, ms, md).y)
  {
    if src != [] {
      var g := Gap(f, ms, md);
      CostIsOffset(src[1..], dst[1..], f, ms, md);
      var p, q := Minus(src, ms), Minus(dst, md);
      assert p[1..] == Minus(src[1..], ms) && q[1..] == Minus(dst[1..], md);
      SameError(f, src[0], dst[0], ms, md);
      assert Offset(p, q, f.a, f.b, g.x, g.y)
        == Error(f.a, f.b, g.x, g.y, p[0], q[0]) + Offset(p[1..], q[1..], f.a, f.b, g.x, g.y);
    }
  }

  lemma Turned(a: real, x: real, m: real)
    ensures a * (x - m) == a * x - a * m
  {
  }

  lemma SameError(f: Similarity, s: Point, d: Point, ms: Point, md: Point)
    ensures Distance2(f.Apply(s), d)
      == Error(f.a, f.b, Gap(f, ms, md).x, Gap(f, ms, md).y, Point(s.x - ms.x, s.y - ms.y),
        Point(d.x - md.x, d.y - md.y))
  {
    Turned(f.a, s.x, ms.x);
    Turned(f.b, s.y, ms.y);
    Turned(f.b, s.x, ms.x);
    Turned(f.a, s.y, ms.y);
  }

  /* ---------------------------------------------------------------- the minimum */

  /** A weighted sum of two squares. */
  function Weighed(n: real, e: real, f: real): real {
    Times(n, Square(e) + Square(f))
  }

  lemma OffsetOfSums(p: seq<Point>, q: seq<Point>, a: real, b: real, e: real, f: real, x: real)
    requires |p| == |q| && SumX(p) == x && SumY(p) == x && SumX(q) == x && SumY(q) == x
    ensures Offset(p, q, a, b, e, f)
      == Core(a, b, Dot(p, p), Dot(p, q), Cross(p, q)) + Dot(q, q) + Shift(a, b, e, f, |p| as real, x, x, x, x)
  {
    OffsetExpands(p, q, a, b, e, f);
  }

  lemma NoShift(a: real, b: real, e: real, f: real, n: real)
    ensures Shift(a, b, e, f, n, 0.0, 0.0, 0.0, 0.0) == Weighed(n, e, f)
  {
  }

  lemma CentredOffset(p: seq<Point>, q: seq<Point>, a: real, b: real, e: real, f: real)
    requires |p| == |q| && SumX(p) == SumY(p) == SumX(q) == SumY(q) == 0.0
    ensures Offset(p, q, a, b, e, f)
      == Core(a, b, Dot(p, p), Dot(p, q), Cross(p, q)) + Dot(q, q) + Weighed(|p| as real, e, f)
  {
    OffsetOfSums(p, q, a, b, e, f, 0.0);
    NoShift(a, b, e, f, |p| as real);
  }

  lemma CostExpands(src: seq<Point>, dst: seq<Point>, f: Similarity, ms: Point, md: Point, p: seq<Point>, q: seq<Point>)
    requires |src| == |dst| && src != [] && ms == Mean(src) && md == Mean(dst) && p == Minus(src, ms)
      && q == Minus(dst, md)
    ensures Cost(src, dst, f)
      == Core(f.a, f.b, Dot(p, p), Dot(p, q), Cross(p, q)) + Dot(q, q)
         + Weighed(|p| as real, Gap(f, ms, md).x, Gap(f, ms, md).y)
  {
    CostIsOffset(src, dst, f, ms, md);
    CentredSums(src);
    CentredSums(dst);
    CentredOffset(p, q, f.a, f.b, Gap(f, ms, md).x, Gap(f, ms, md).y);
  }

  /** Completing the square. */
  lemma Complete(a: real, b: real, a0: real, b0: real, m: real, c: real, d: real)
    requires a0 * m == c && b0 * m == d
    ensures Core(a, b, m, c, d) == Core(a0, b0, m, c, d) + Weighed(m, a - a0, b - b0)
  {
    assert 2.0 * a * c == 2.0 * m * (a * a0);
    assert 2.0 * b * d == 2.0 * m * (b * b0);
    assert 2.0 * a0 * c == 2.0 * m * (a0 * a0);
    assert 2.0 * b0 * d == 2.0 * m * (b0 * b0);
  }

  lemma CompleteAtQuotient(a: real, b: real, m: real, c: real, d: real)
    requires m > 0.0
    ensures Core(a, b, m, c, d) == Core(c / m, d / m, m, c, d) + Weighed(m, a - c / m, b - d / m)
  {
    Quotient(c, m);
    Quotient(d, m);
    Complete(a, b, c / m, d / m, m, c, d);
  }

  lemma Quotient(c: real, m: real)
    requires m > 0.0
    ensures c / m * m == c
  {
  }

  lemma NoGap(a: real, b: real, ms: Point, md: Point)
    ensures Gap(Fit(a, b, ms, md), ms, md) == Point(0.0, 0.0)
  {
  }

  lemma FitHasNoGap(f: Similarity, a: real, b: real, ms: Point, md: Point)
    requires f == Fit(a, b, ms, md)
    ensures Gap(f, ms, md).x == 0.0 && Gap(f, ms, md).y == 0.0 && f.a == a && f.b == b
  {
    NoGap(a, b, ms, md);
  }

  lemma NothingWeighed(n: real, e: real, f: real)
    requires e == 0.0 && f == 0.0
    ensures Weighed(n, e, f) == 0.0
  {
  }

  /**
   * What a similarity costs more than the estimate: its distance in rotation and scale, and in the image of the mean.
   */
  function Excess(src: seq<Point>, dst: seq<Point>, f: Similarity, g: Similarity): real
    requires |src| == |dst| && src != []
  {
    var p := Minus(src, Mean(src));
    var gap := Gap(g, Mean(src), Mean(dst));
    Weighed(Dot(p, p), g.a - f.a, g.b - f.b) + Weighed(|p| as real, gap.x, gap.y)
  }

  /** What any other similarity costs more is an explicit sum of squares. */
  lemma ExcessCost(src: seq<Point>, dst: seq<Point>, f: Similarity, g: Similarity)
    requires |src| == |dst| && src != [] && EstimateSimilarity(src, dst) == Fitted(f)
    ensures Cost(src, dst, g) == Cost(src, dst, f) + Excess(src, dst, f, g)
  {
    var ms, md := Mean(src), Mean(dst);
    var p, q := Minus(src, ms), Minus(dst, md);
    FitHasNoGap(f, Dot(p, q) / Dot(p, p), Cross(p, q) / Dot(p, p), ms, md);
    CostExpands(src, dst, f, ms, md, p, q);
    CostExpands(src, dst, g, ms, md, p, q);
    NothingWeighed(|p| as real, Gap(f, ms, md).x, Gap(f, ms, md).y);
    CompleteAtQuotient(g.a, g.b, Dot(p, p), Dot(p, q), Cross(p, q));
  }

  lemma WeighedSign(m: real, r: real, s: real)
    requires m > 0.0
    ensures Weighed(m, r, s) >= 0.0 && ((Weighed(m, r, s) == 0.0) <==> (r == 0.0 && s == 0.0))
  {
    SquareSign(r);
    SquareSign(s);
    if r == 0.0 && s == 0.0 {
      NothingWeighed(m, r, s);
    } else {
      TimesPositive(m, Square(r) + Square(s));
    }
  }

  /** So nothing fits better, and nothing else fits as well. */
  lemma EstimateIsTheMinimum(src: seq<Point>, dst: seq<Point>, f: Similarity, g: Similarity)
    requires |src| == |dst| && src != [] && EstimateSimilarity(src, dst) == Fitted(f)
    ensures Cost(src, dst, f) <= Cost(src, dst, g) && ((Cost(src, dst, f) == Cost(src, dst, g)) <==> f == g)
  {
    var ms, md := Mean(src), Mean(dst);
    var p, q := Minus(src, ms), Minus(dst, md);
    ExcessCost(src, dst, f, g);
    WeighedSign(Dot(p, p), g.a - f.a, g.b - f.b);
    WeighedSign(|p| as real, Gap(g, ms, md).x, Gap(g, ms, md).y);
    if Cost(src, dst, f) == Cost(src, dst, g) {
      FitHasNoGap(f, Dot(p, q) / Dot(p, p), Cross(p, q) / Dot(p, p), ms, md);
      SameGap(f, g, ms, md);
    }
  }

  lemma SameGap(f: Similarity, g: Similarity, ms: Point, md: Point)
    requires f.a == g.a && f.b == g.b && Gap(f, ms, md) == Gap(g, ms, md)
    ensures f == g
  {
  }

  /* ---------------------------------------------------------------- when there is no estimate */

  /** The sum of the squared distances to `q`. */
  function Spread(s: seq<Point>, q: Point): real {
    if s == [] then 0.0 else Distance2(s[0], q) + Spread(s[1..], q)
  }

  lemma {:induction false} SpreadIsCost(s: seq<Point>, q: Point)
    ensures Spread(s, q) == Cost(s, s, Similarity(0.0, 0.0, q.x, q.y))
  {
    if s != [] {
      SpreadIsCost(s[1..], q);
      Negated(s[0].x - q.x);
      Negated(s[0].y - q.y);
    }
  }

  lemma SpreadAboutMean(s: seq<Point>, q: Point)
    requires s != []
    ensures var p := Minus(s, Mean(s));
      Spread(s, q) == Dot(p, p) + Weighed(|s| as real, q.x - Mean(s).x, q.y - Mean(s).y)
  {
    var m, f := Mean(s), Similarity(0.0, 0.0, q.x, q.y);
    var p := Minus(s, m);
    SpreadIsCost(s, q);
    CostExpands(s, s, f, m, m, p, p);
  }

  /** There is no estimate exactly if the source points lie closely around some point. */
  lemma DegenerateIffTight(src: seq<Point>, dst: seq<Point>)
    requires |src| == |dst| && src != []
    ensures EstimateSimilarity(src, dst).Degenerate? <==> exists q :: Spread(src, q) < 0.000000000001
  {
    var m := Mean(src);
    SpreadAboutMean(src, m);
    NothingWeighed(|src| as real, m.x - m.x, m.y - m.y);
    forall q ensures Spread(src, q) >= Spread(src, m) {
      SpreadAboutMean(src, q);
      SquareSign(q.x - m.x);
      SquareSign(q.y - m.y);
      TimesSign(|src| as real, Square(q.x - m.x) + Square(q.y - m.y));
    }
  }

  /* ---------------------------------------------------------------- the inverse map */

  /** The warp divides by this. */
  function Size(f: Similarity): (r: real)
    ensures (r > 0.0) <==> (f.a != 0.0 || f.b != 0.0)
  {
    SquareSign(f.a);
    SquareSign(f.b);
    Square(f.a) + Square(f.b)
  }

  function Inverse(f: Similarity): Similarity
    requires f.a != 0.0 || f.b != 0.0
  {
    var d := Size(f);
    var ia, ib := f.a / d, (-f.b) / d;
    Similarity(ia, ib, -(ia * f.tx - ib * f.ty), -(ib * f.tx + ia * f.ty))
  }

  lemma Regroup(r: real, s: real, t: real)
    ensures (r * s) * t == (r * t) * s
  {
  }

  lemma Cancel(t: real, u: real, d: real)
    requires d > 0.0 && t * d == u * d
    ensures t == u
  {
  }

  lemma Reciprocal(a: real, b: real, d: real, ia: real, ib: real)
    requires d > 0.0 && d == Square(a) + Square(b) && ia * d == a && ib * d == -b
    ensures ia * a - ib * b == 1.0 && ib * a + ia * b == 0.0
  {
    Regroup(ia, a, d);
    Regroup(ib, b, d);
    Regroup(ib, a, d);
    Regroup(ia, b, d);
    Turned(d, ia * a, ib * b);
    assert (ia * a - ib * b) * d == a * a + b * b == 1.0 * d;
    Cancel(ia * a - ib * b, 1.0, d);
    assert (ib * a + ia * b) * d == 0.0 * d;
    Cancel(ib * a + ia * b, 0.0, d);
  }

  lemma Undone(f: Similarity, g: Similarity, p: Point)
    requires g.a * f.a - g.b * f.b == 1.0 && g.b * f.a + g.a * f.b == 0.0
    requires g.tx == -(g.a * f.tx - g.b * f.ty) && g.ty == -(g.b * f.tx + g.a * f.ty)
    ensures g.Apply(f.Apply(p)) == p
  {
  }

  lemma Redone(f: Similarity, g: Similarity, p: Point)
    requires g.a * f.a - g.b * f.b == 1.0 && g.b * f.a + g.a * f.b == 0.0
    requires g.tx == -(g.a * f.tx - g.b * f.ty) && g.ty == -(g.b * f.tx + g.a * f.ty)
    ensures f.Apply(g.Apply(p)) == p
  {
  }

  /** The warp's map takes every point back where it came from, and the other way round. */
  lemma InverseUndoes(f: Similarity, p: Point)
    requires f.a != 0.0 || f.b != 0.0
    ensures Inverse(f).Apply(f.Apply(p)) == p && f.Apply(Inverse(f).Apply(p)) == p
  {
    var g := Inverse(f);
    Quotient(f.a, Size(f));
    Quotient(-f.b, Size(f));
    Reciprocal(f.a, f.b, Size(f), g.a, g.b);
    Undone(f, g, p);
    Redone(f, g, p);
  }
}
