/** Face detections: overlap of boxes, ranking by score, and greedy non-maximum suppression. */
module Suppression {
  import opened Reals

  /** Left, top, width, height. */
  datatype Box = Box(x: real, y: real, w: real, h: real)

  datatype Detection = Detection(box: Box, score: real, id: nat)

  const MOST_CANDIDATES := 2000

  /** What two stretches of a line share. */
  function Shared(a: real, m: real, b: real, n: real): real {
    Max(0.0, Min(a + m, b + n) - Max(a, b))
  }

  function Area(b: Box): real {
    Times(b.w, b.h)
  }

  function Inter(a: Box, b: Box): real {
    Times(Shared(a.x, a.w, b.x, b.w), Shared(a.y, a.h, b.y, b.h))
  }

  function Union(a: Box, b: Box): real {
    Area(a) + Area(b) - Inter(a, b)
  }

  function Iou(a: Box, b: Box): real {
    if Union(a, b) > 0.0 then Rate(Inter(a, b), Union(a, b)) else 0.0
  }

  /** Widths and heights come out of an exponential. */
  predicate Positive(b: Box) {
    b.w > 0.0 && b.h > 0.0
  }

  lemma SharedIsSymmetric(a: real, m: real, b: real, n: real)
    ensures Shared(a, m, b, n) == Shared(b, n, a, m)
  {
  }

  lemma IouIsSymmetric(a: Box, b: Box)
    ensures Iou(a, b) == Iou(b, a)
  {
    SharedIsSymmetric(a.x, a.w, b.x, b.w);
    SharedIsSymmetric(a.y, a.h, b.y, b.h);
  }

  lemma InterIsWithin(a: Box, b: Box)
    requires Positive(a) && Positive(b)
    ensures 0.0 <= Inter(a, b) <= Area(a) && Inter(a, b) <= Area(b)
  {
    Within(Shared(a.x, a.w, b.x, b.w), Shared(a.y, a.h, b.y, b.h), a.w, a.h);
    Within(Shared(a.x, a.w, b.x, b.w), Shared(a.y, a.h, b.y, b.h), b.w, b.h);
  }

  lemma Within(a: real, b: real, c: real, d: real)
    requires 0.0 <= a <= c && 0.0 <= b <= d
    ensures 0.0 <= Times(a, b) <= Times(c, d)
  {
    TimesSign(a, b);
    TimesGrows(a, c, b);
    TimesGrows(b, d, c);
  }

  /** The overlap of two boxes is a share, and nothing just when they share no area. */
  lemma IouIsAShare(a: Box, b: Box)
    requires Positive(a) && Positive(b)
    ensures 0.0 <= Iou(a, b) <= 1.0 && ((Iou(a, b) == 0.0) <==> Inter(a, b) == 0.0)
  {
    InterIsWithin(a, b);
    TimesPositive(a.w, a.h);
    TimesPositive(b.w, b.h);
    RateOfPart(Inter(a, b), Union(a, b));
  }

  lemma IouOfSelf(a: Box)
    requires Positive(a)
    ensures Iou(a, a) == 1.0
  {
    assert Shared(a.x, a.w, a.x, a.w) == a.w && Shared(a.y, a.h, a.y, a.h) == a.h;
    TimesPositive(a.w, a.h);
    RateOfPart(Area(a), Area(a));
  }

  /* ---------------------------------------------------------------- what the overlap means */

  predicate Between(low: real, p: real, high: real) {
    low < p < high
  }

  predicate Inside(b: Box, x: real, y: real) {
    Between(b.x, x, b.x + b.w) && Between(b.y, y, b.y + b.h)
  }

  /** `c` holds the points that lie inside both boxes, and no others. */
  ghost predicate Common(a: Box, b: Box, c: Box) {
    Positive(c) && forall x, y :: Inside(c, x, y) <==> Inside(a, x, y) && Inside(b, x, y)
  }

  ghost predicate Disjoint(a: Box, b: Box) {
    forall x, y :: !(Inside(a, x, y) && Inside(b, x, y))
  }

  /** Two boxes share either no point or the points of a box. */
  lemma CommonOrDisjoint(a: Box, b: Box) returns (c: Box)
    ensures Disjoint(a, b) || Common(a, b, c)
  {
    var x, y := Max(a.x, b.x), Max(a.y, b.y);
    c := Box(x, y, Min(a.x + a.w, b.x + b.w) - x, Min(a.y + a.h, b.y + b.h) - y);
  }

  /** The overlap times the area that either box covers is the area that both cover. */
  lemma OverlapIsTheShare(a: Box, b: Box, c: Box)
    requires Positive(a) && Positive(b) && Common(a, b, c)
    ensures var both := Times(c.w, c.h);
      var alone, other := Times(a.w, a.h) - both, Times(b.w, b.h) - both;
      alone >= 0.0 && other >= 0.0 && Times(Iou(a, b), alone + other + both) == both
  {
    CommonHasEdges(a, b, c);
    InterIsWithin(a, b);
    TimesPositive(a.w, a.h);
    TimesPositive(b.w, b.h);
    RateTimes(Inter(a, b), Union(a, b));
  }

  lemma NoOverlapIfDisjoint(a: Box, b: Box)
    requires Positive(a) && Positive(b) && Disjoint(a, b)
    ensures Iou(a, b) == 0.0
  {
    InterIsWithin(a, b);
    IouIsAShare(a, b);
    if Inter(a, b) > 0.0 {
      var s, t := Shared(a.x, a.w, b.x, b.w), Shared(a.y, a.h, b.y, b.h);
      ProductPositive(s, t);
      assert Inside(a, Max(a.x, b.x) + s / 2.0, Max(a.y, b.y) + t / 2.0);
      assert Inside(b, Max(a.x, b.x) + s / 2.0, Max(a.y, b.y) + t / 2.0);
    }
  }

  lemma CommonHasEdges(a: Box, b: Box, c: Box)
    requires Common(a, b, c)
    ensures c.w == Shared(a.x, a.w, b.x, b.w) && c.h == Shared(a.y, a.h, b.y, b.h)
  {
    var mx, my := c.x + c.w / 2.0, c.y + c.h / 2.0;
    var left, right := Max(a.x, b.x), Min(a.x + a.w, b.x + b.w);
    var top, bottom := Max(a.y, b.y), Min(a.y + a.h, b.y + b.h);
    assert Inside(c, mx, my);
    forall p ensures Between(c.x, p, c.x + c.w) <==> Between(left, p, right) {
      assert Inside(c, p, my) <==> Inside(a, p, my) && Inside(b, p, my);
    }
    forall p ensures Between(c.y, p, c.y + c.h) <==> Between(top, p, bottom) {
      assert Inside(c, mx, p) <==> Inside(a, mx, p) && Inside(b, mx, p);
    }
    SameStretch(c.x, c.x + c.w, left, right);
    SameStretch(c.y, c.y + c.h, top, bottom);
  }

  lemma SameStretch(a: real, b: real, c: real, d: real)
    requires a < b && forall p :: Between(a, p, b) <==> Between(c, p, d)
    ensures a == c && b == d
  {
    assert Between(a, (a + b) / 2.0, b);
    assert Between(c, (a + b) / 2.0, d);
    if a < c { assert Between(a, (a + Min(b, c)) / 2.0, b); }
    if c < a { assert Between(c, (c + Min(a, d)) / 2.0, d); }
    if b < d { assert Between(c, (Max(b, c) + d) / 2.0, d); }
    if d < b { assert Between(a, (Max(a, d) + b) / 2.0, b); }
  }

  /* ---------------------------------------------------------------- ranking */

  /** Into a list from high to low score, behind its equals. */
  function Insert(d: Detection, s: seq<Detection>): seq<Detection> {
    if s == [] || s[0].score < d.score then [d] + s else [s[0]] + Insert(d, s[1..])
  }

  /** `sort(key=-score)`: stable. */
  function Ranked(s: seq<Detection>): seq<Detection>
    decreases |s|
  {
    if s == [] then [] else Insert(s[|s| - 1], Ranked(s[..|s| - 1]))
  }

  lemma {:induction false} InsertAdds(d: Detection, s: seq<Detection>)
    ensures multiset(Insert(d, s)) == multiset(s) + multiset{d}
  {
    if s != [] && s[0].score >= d.score {
      InsertAdds(d, s[1..]);
      assert s == [s[0]] + s[1..];
    }
  }

  lemma {:induction false} RankedIsPermutation(s: seq<Detection>)
    ensures multiset(Ranked(s)) == multiset(s)
    decreases |s|
  {
    if s != [] {
      RankedIsPermutation(s[..|s| - 1]);
      InsertAdds(s[|s| - 1], Ranked(s[..|s| - 1]));
      assert s == s[..|s| - 1] + [s[|s| - 1]];
    }
  }

  predicate Descending(s: seq<Detection>) {
    forall i, j :: 0 <= i < j < |s| ==> s[i].score >= s[j].score
  }

  function OfScore(s: seq<Detection>, score: real): seq<Detection> {
    if s == [] then [] else (if s[0].score == score then [s[0]] else []) + OfScore(s[1..], score)
  }

  lemma {:induction false} InsertDescends(d: Detection, s: seq<Detection>)
    requires Descending(s)
    ensures Descending(Insert(d, s))
  {
    if s != [] && s[0].score >= d.score {
      InsertDescends(d, s[1..]);
      InsertAdds(d, s[1..]);
      var r := Insert(d, s[1..]);
      forall k | 0 <= k < |r| ensures s[0].score >= r[k].score {
        assert r[k] in multiset(r);
        assert r[k] == d || r[k] in multiset(s[1..]);
      }
    }
  }

  lemma {:induction false} InsertKeepsOrder(d: Detection, s: seq<Detection>, score: real)
    requires Descending(s)
    ensures Descending(Insert(d, s))
    ensures OfScore(Insert(d, s), score) == OfScore(s + [d], score)
  {
    InsertDescends(d, s);
    if s == [] {
    } else if s[0].score < d.score {
      NoneOfScore(s, d.score);
      OfScoreConcat(s, [d], score);
      assert ([d] + s)[1..] == s;
    } else {
      InsertKeepsOrder(d, s[1..], score);
      assert (s + [d])[1..] == s[1..] + [d];
      assert ([s[0]] + Insert(d, s[1..]))[1..] == Insert(d, s[1..]);
    }
  }

  lemma {:induction false} NoneOfScore(s: seq<Detection>, score: real)
    requires forall i :: 0 <= i < |s| ==> s[i].score < score
    ensures OfScore(s, score) == []
  {
    if s != [] { NoneOfScore(s[1..], score); }
  }

  lemma {:induction false} OfScoreConcat(a: seq<Detection>, b: seq<Detection>, score: real)
    ensures OfScore(a + b, score) == OfScore(a, score) + OfScore(b, score)
  {
    if a == [] {
      assert a + b == b;
    } else {
      OfScoreConcat(a[1..], b, score);
      assert (a + b)[1..] == a[1..] + b;
      var first: seq<Detection> := if a[0].score == score then [a[0]] else [];
      assert OfScore(a + b, score) == first + OfScore(a[1..] + b, score);
      Associate(first, OfScore(a[1..], score), OfScore(b, score));
    }
  }

  lemma Associate(a: seq<Detection>, b: seq<Detection>, c: seq<Detection>)
    ensures a + (b + c) == (a + b) + c
  {
  }

  /** Ranking puts high scores first and leaves equal scores in the order in which they came. */
  lemma {:induction false} RankedIsStable(s: seq<Detection>, score: real)
    ensures Descending(Ranked(s)) && OfScore(Ranked(s), score) == OfScore(s, score)
    decreases |s|
  {
    if s != [] {
      var init, last := s[..|s| - 1], s[|s| - 1];
      RankedIsStable(init, score);
      InsertKeepsOrder(last, Ranked(init), score);
      OfScoreConcat(Ranked(init), [last], score);
      OfScoreConcat(init, [last], score);
      assert s == init + [last];
    }
  }

  /* ---------------------------------------------------------------- suppression */

  predicate Clear(kept: seq<Detection>, d: Detection, fits: (Box, Box) -> bool) {
    forall k :: 0 <= k < |kept| ==> fits(kept[k].box, d.box)
  }

  /** Each candidate in turn stays unless it overlaps one that stayed before. */
  function Kept(s: seq<Detection>, fits: (Box, Box) -> bool): (r: seq<Detection>)
    ensures |r| <= |s|
    decreases |s|
  {
    if s == [] then []
    else
      var before := Kept(s[..|s| - 1], fits);
      if Clear(before, s[|s| - 1], fits) then before + [s[|s| - 1]] else before
  }

  function Candidates(dets: seq<Detection>): seq<Detection> {
    var ranked := Ranked(dets);
    if |ranked| > MOST_CANDIDATES then ranked[..MOST_CANDIDATES] else ranked
  }

  /** Boxes that may stay side by side. */
  function AtMost(threshold: real): (Box, Box) -> bool {
    (a, b) => Iou(a, b) <= threshold
  }

  /** The candidates are the 2000 detections of the highest scores, or all if there are fewer. */
  lemma CandidatesAreTheBest(dets: seq<Detection>) returns (rest: seq<Detection>)
    ensures multiset(dets) == multiset(Candidates(dets)) + multiset(rest)
    ensures |Candidates(dets)| <= 2000 && (rest != [] ==> |Candidates(dets)| == 2000)
    ensures forall i, j :: 0 <= i < |Candidates(dets)| && 0 <= j < |rest| ==>
      Candidates(dets)[i].score >= rest[j].score
  {
    var ranked := Ranked(dets);
    RankedIsPermutation(dets);
    RankedIsStable(dets, 0.0);
    rest := ranked[|Candidates(dets)|..];
    assert ranked == Candidates(dets) + rest;
  }

  method Suppress(dets: seq<Detection>, threshold: real) returns (keep: seq<Detection>)
    ensures keep == Kept(Candidates(dets), AtMost(threshold))
  {
    var fits := AtMost(threshold);
    var s := Candidates(dets);
    keep := [];
    var i := 0;
    while i < |s|
      invariant 0 <= i <= |s|
      invariant keep == Kept(s[..i], fits)
    {
      assert s[..i + 1][..i] == s[..i];
      if Clear(keep, s[i], fits) { keep := keep + [s[i]]; }
      i := i + 1;
    }
    assert s[..i] == s;
  }

  /* ---------------------------------------------------------------- which candidates stay */

  /** The candidates that `mask` marks. */
  function Chosen(s: seq<Detection>, mask: seq<bool>): seq<Detection>
    requires |mask| == |s|
    decreases |s|
  {
    if s == [] then []
    else
      var init := Chosen(s[..|s| - 1], mask[..|s| - 1]);
      if mask[|s| - 1] then init + [s[|s| - 1]] else init
  }

  /** No marked candidate before `i` overlaps it too much. */
  predicate Free(s: seq<Detection>, mask: seq<bool>, i: nat, fits: (Box, Box) -> bool)
    requires |mask| == |s| && i < |s|
  {
    forall j :: 0 <= j < i && mask[j] ==> fits(s[j].box, s[i].box)
  }

  /** Each candidate is marked exactly if no marked candidate before it overlaps it too much. */
  predicate Balanced(s: seq<Detection>, mask: seq<bool>, fits: (Box, Box) -> bool) {
    |mask| == |s| && forall i :: 0 <= i < |s| ==> (mask[i] <==> Free(s, mask, i, fits))
  }

  function Mask(s: seq<Detection>, fits: (Box, Box) -> bool): (r: seq<bool>)
    ensures |r| == |s|
    decreases |s|
  {
    if s == [] then []
    else
      Mask(s[..|s| - 1], fits) + [Clear(Kept(s[..|s| - 1], fits), s[|s| - 1], fits)]
  }

  lemma {:induction false} ChosenAreMarked(s: seq<Detection>, mask: seq<bool>, d: Detection, fits: (Box, Box) -> bool)
    requires |mask| == |s|
    ensures Clear(Chosen(s, mask), d, fits)
      <==> forall j :: 0 <= j < |s| && mask[j] ==> fits(s[j].box, d.box)
    decreases |s|
  {
    if s != [] {
      var n := |s| - 1;
      ChosenAreMarked(s[..n], mask[..n], d, fits);
      var init := Chosen(s[..n], mask[..n]);
      assert forall j :: 0 <= j < n ==> s[..n][j] == s[j] && mask[..n][j] == mask[j];
      if mask[n] {
        assert Chosen(s, mask)[|init|] == s[n];
        assert forall k :: 0 <= k < |init| ==> Chosen(s, mask)[k] == init[k];
      }
    }
  }

  lemma {:induction false} MaskMarksKept(s: seq<Detection>, fits: (Box, Box) -> bool)
    ensures Chosen(s, Mask(s, fits)) == Kept(s, fits)
    decreases |s|
  {
    if s != [] {
      MaskMarksKept(s[..|s| - 1], fits);
      assert Mask(s, fits)[..|s| - 1] == Mask(s[..|s| - 1], fits);
    }
  }

  lemma LastMark(s: seq<Detection>, fits: (Box, Box) -> bool)
    requires s != []
    ensures Mask(s, fits)[..|s| - 1] == Mask(s[..|s| - 1], fits)
    ensures Mask(s, fits)[|s| - 1] <==> Free(s, Mask(s, fits), |s| - 1, fits)
  {
    var n, mask := |s| - 1, Mask(s, fits);
    assert mask[..n] == Mask(s[..n], fits);
    MaskMarksKept(s[..n], fits);
    FreeOfLast(s, mask, n, fits);
  }

  lemma {:induction false} MaskIsBalanced(s: seq<Detection>, fits: (Box, Box) -> bool)
    ensures Balanced(s, Mask(s, fits), fits)
    decreases |s|
  {
    if s != [] {
      var n, mask := |s| - 1, Mask(s, fits);
      MaskIsBalanced(s[..n], fits);
      LastMark(s, fits);
      BalancedPrefix(s, mask, n, fits);
    }
  }

  lemma BalancedPrefix(s: seq<Detection>, mask: seq<bool>, n: nat, fits: (Box, Box) -> bool)
    requires |mask| == |s| == n + 1 && Balanced(s[..n], mask[..n], fits) && (mask[n] <==> Free(s, mask, n, fits))
    ensures Balanced(s, mask, fits)
  {
    forall i | 0 <= i < n ensures mask[i] <==> Free(s, mask, i, fits) {
      FreeInPrefix(s, mask, n, i, fits);
    }
  }

  /** The greedy marks are balanced, and they mark what is kept. */
  lemma GreedyIsBalanced(s: seq<Detection>, fits: (Box, Box) -> bool)
    ensures Balanced(s, Mask(s, fits), fits) && Chosen(s, Mask(s, fits)) == Kept(s, fits)
  {
    MaskIsBalanced(s, fits);
    MaskMarksKept(s, fits);
  }

  lemma FreeOfLast(s: seq<Detection>, mask: seq<bool>, n: nat, fits: (Box, Box) -> bool)
    requires |mask| == |s| == n + 1
    ensures Free(s, mask, n, fits) <==> Clear(Chosen(s[..n], mask[..n]), s[n], fits)
  {
    ChosenAreMarked(s[..n], mask[..n], s[n], fits);
    assert forall j :: 0 <= j < n ==> s[..n][j] == s[j] && mask[..n][j] == mask[j];
  }

  lemma FreeInPrefix(s: seq<Detection>, mask: seq<bool>, n: nat, i: nat, fits: (Box, Box) -> bool)
    requires |mask| == |s| && i < n <= |s|
    ensures mask[..n][i] == mask[i] && (Free(s[..n], mask[..n], i, fits) <==> Free(s, mask, i, fits))
  {
    assert forall j :: 0 <= j < n ==> s[..n][j] == s[j] && mask[..n][j] == mask[j];
  }

  /** There is no other way to mark the candidates. */
  lemma {:induction false} BalancedIsGreedy(s: seq<Detection>, mask: seq<bool>, fits: (Box, Box) -> bool)
    requires Balanced(s, mask, fits)
    ensures mask == Mask(s, fits)
  {
    GreedyIsBalanced(s, fits);
    forall i | 0 <= i < |s| ensures mask[i] == Mask(s, fits)[i] {
      SameMark(s, mask, Mask(s, fits), fits, i);
    }
  }

  lemma {:induction false} SameMark(s: seq<Detection>, a: seq<bool>, b: seq<bool>, fits: (Box, Box) -> bool, i: nat)
    requires Balanced(s, a, fits) && Balanced(s, b, fits) && i < |s|
    ensures a[i] == b[i]
    decreases i
  {
    forall j | 0 <= j < i ensures a[j] == b[j] {
      SameMark(s, a, b, fits, j);
    }
    assert Free(s, a, i, fits) <==> Free(s, b, i, fits);
  }

  predicate Apart(s: seq<Detection>, fits: (Box, Box) -> bool) {
    forall i, j :: 0 <= i < j < |s| ==> fits(s[i].box, s[j].box)
  }

  lemma {:induction false} KeptAreApart(s: seq<Detection>, fits: (Box, Box) -> bool)
    ensures Apart(Kept(s, fits), fits)
    decreases |s|
  {
    if s != [] {
      KeptAreApart(s[..|s| - 1], fits);
      var before, last := Kept(s[..|s| - 1], fits), s[|s| - 1];
      if Clear(before, last, fits) { ApartWithOneMore(before, last, fits); }
    }
  }

  lemma ApartWithOneMore(s: seq<Detection>, d: Detection, fits: (Box, Box) -> bool)
    requires Apart(s, fits) && Clear(s, d, fits)
    ensures Apart(s + [d], fits)
  {
    var more := s + [d];
    forall i, j | 0 <= i < j < |more| ensures fits(more[i].box, more[j].box) {
      assert more[i] == s[i];
      if j < |s| { assert more[j] == s[j]; } else { assert more[j] == d; }
    }
  }

  lemma {:induction false} ApartIsKept(s: seq<Detection>, fits: (Box, Box) -> bool)
    requires Apart(s, fits)
    ensures Kept(s, fits) == s
    decreases |s|
  {
    if s != [] {
      var init, last := s[..|s| - 1], s[|s| - 1];
      ApartIsKept(init, fits);
      forall k | 0 <= k < |init| ensures fits(init[k].box, last.box) {
        assert init[k] == s[k];
      }
      assert Clear(init, last, fits);
      assert s == init + [last];
    }
  }

  /** A second run changes nothing. */
  lemma SuppressionIsIdempotent(s: seq<Detection>, fits: (Box, Box) -> bool)
    ensures Kept(Kept(s, fits), fits) == Kept(s, fits)
  {
    KeptAreApart(s, fits);
    ApartIsKept(Kept(s, fits), fits);
  }

  /** Over whole detections too: what is kept is already ranked, so detecting again among it keeps all of it. */
  lemma DetectionIsIdempotent(dets: seq<Detection>, fits: (Box, Box) -> bool)
    ensures var keep := Kept(Candidates(dets), fits); Kept(Candidates(keep), fits) == keep
  {
    CandidatesDescend(dets);
    KeptDescends(Candidates(dets), fits);
    DescendingIsRanked(Kept(Candidates(dets), fits));
    SuppressionIsIdempotent(Candidates(dets), fits);
  }

  lemma CandidatesDescend(dets: seq<Detection>)
    ensures Descending(Candidates(dets)) && |Candidates(dets)| <= MOST_CANDIDATES
  {
    RankedIsStable(dets, 0.0);
  }

  lemma {:induction false} KeptDescends(s: seq<Detection>, fits: (Box, Box) -> bool)
    requires Descending(s)
    ensures Descending(Kept(s, fits))
    ensures forall k :: 0 <= k < |Kept(s, fits)| ==> Kept(s, fits)[k] in s
    decreases |s|
  {
    if s != [] { KeptDescends(s[..|s| - 1], fits); }
  }

  lemma {:induction false} DescendingIsRanked(s: seq<Detection>)
    requires Descending(s)
    ensures Ranked(s) == s
    decreases |s|
  {
    if s != [] {
      DescendingIsRanked(s[..|s| - 1]);
      InsertLowest(s[|s| - 1], s[..|s| - 1]);
      assert s == s[..|s| - 1] + [s[|s| - 1]];
    }
  }

  lemma {:induction false} InsertLowest(d: Detection, s: seq<Detection>)
    requires forall i :: 0 <= i < |s| ==> s[i].score >= d.score
    ensures Insert(d, s) == s + [d]
  {
    if s != [] {
      InsertLowest(d, s[1..]);
      assert [s[0]] + (s[1..] + [d]) == s + [d];
    }
  }

  /**
   * What the detector promises: kept boxes overlap pairwise by no more than the threshold, and a candidate that is not
   * kept overlaps more than that with a kept one of at least its score.
   */
  lemma DroppedForABetter(dets: seq<Detection>, threshold: real, i: nat)
    requires var s := Candidates(dets); i < |s| && !Mask(s, AtMost(threshold))[i]
    ensures Beaten(Candidates(dets), Mask(Candidates(dets), AtMost(threshold)), i, threshold)
  {
    var s := Candidates(dets);
    var mask := Mask(s, AtMost(threshold));
    GreedyIsBalanced(s, AtMost(threshold));
    CandidatesDescend(dets);
    assert !Free(s, mask, i, AtMost(threshold));
  }

  predicate Beaten(s: seq<Detection>, mask: seq<bool>, i: nat, threshold: real)
    requires |mask| == |s| && i < |s|
  {
    exists j :: 0 <= j < i && mask[j] && Iou(s[j].box, s[i].box) > threshold && s[j].score >= s[i].score
  }

  lemma KeptOverlapLittle(dets: seq<Detection>, threshold: real, i: nat, j: nat)
    requires i < j < |Kept(Candidates(dets), AtMost(threshold))|
    ensures var keep := Kept(Candidates(dets), AtMost(threshold));
      Iou(keep[i].box, keep[j].box) <= threshold && Iou(keep[j].box, keep[i].box) <= threshold
  {
    var keep := Kept(Candidates(dets), AtMost(threshold));
    KeptAreApart(Candidates(dets), AtMost(threshold));
    assert AtMost(threshold)(keep[i].box, keep[j].box);
    IouIsSymmetric(keep[i].box, keep[j].box);
  }
}
