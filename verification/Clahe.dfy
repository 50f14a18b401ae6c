/** Contrast-limited histogram equalisation over a grid of tiles, over the reals. */
module Clahe {
  import opened Reals

  const BINS := 64

  type Image = seq<seq<real>>

  predicate Rectangular(lum: Image, size: nat) {
    |lum| == size && forall y :: 0 <= y < size ==> |lum[y]| == size
  }

  /** Brightness from black to white. */
  predicate Bright(s: seq<real>) {
    forall i :: 0 <= i < |s| ==> 0.0 <= s[i] <= 255.0
  }

  function Sum(s: seq<real>): real {
    if s == [] then 0.0 else s[0] + Sum(s[1..])
  }

  /* ---------------------------------------------------------------- histograms */

  function Bin(l: real): (r: nat)
    requires 0.0 <= l
    ensures r < BINS
  {
    var b := (l / 256.0 * 64.0).Floor;
    if b > BINS - 1 then BINS - 1 else b
  }

  /** How many pixels fall into bin `b`. */
  function Count(pixels: seq<real>, b: nat): nat
    requires Bright(pixels)
  {
    if pixels == [] then 0 else (if Bin(pixels[0]) == b then 1 else 0) + Count(pixels[1..], b)
  }

  /** The counts of the bins below `k`. */
  function Histogram(pixels: seq<real>, k: nat): (r: seq<real>)
    requires Bright(pixels)
    ensures |r| == k
  {
    if k == 0 then [] else Histogram(pixels, k - 1) + [Count(pixels, k - 1) as real]
  }

  lemma {:induction false} SumConcat(a: seq<real>, b: seq<real>)
    ensures Sum(a + b) == Sum(a) + Sum(b)
  {
    if a == [] {
      assert a + b == b;
    } else {
      assert (a + b)[1..] == a[1..] + b;
      SumConcat(a[1..], b);
    }
  }

  lemma SumOne(r: real)
    ensures Sum([r]) == r
  {
    assert [r][1..] == [];
  }

  /** One more pixel raises one count. */
  lemma {:induction false} OnePixel(pixels: seq<real>, k: nat)
    requires Bright(pixels) && pixels != []
    ensures Sum(Histogram(pixels, k)) == Sum(Histogram(pixels[1..], k)) + if Bin(pixels[0]) < k then 1.0 else 0.0
  {
    if k > 0 {
      OnePixel(pixels, k - 1);
      SumConcat(Histogram(pixels, k - 1), [Count(pixels, k - 1) as real]);
      SumConcat(Histogram(pixels[1..], k - 1), [Count(pixels[1..], k - 1) as real]);
      SumOne(Count(pixels, k - 1) as real);
      SumOne(Count(pixels[1..], k - 1) as real);
    }
  }

  lemma {:induction false} EmptyHistogram(k: nat)
    ensures Sum(Histogram([], k)) == 0.0
  {
    if k > 0 {
      EmptyHistogram(k - 1);
      SumConcat(Histogram([], k - 1), [0.0]);
      SumOne(0.0);
    }
  }

  /** Every pixel is in one bin. */
  lemma {:induction false} HistogramCountsAll(pixels: seq<real>)
    requires Bright(pixels)
    ensures Sum(Histogram(pixels, BINS)) == |pixels| as real
  {
    if pixels == [] {
      EmptyHistogram(BINS);
    } else {
      HistogramCountsAll(pixels[1..]);
      OnePixel(pixels, BINS);
    }
  }

  /** Bin `b` takes the brightness from 4 `b` up to 4 `b` + 4. */
  predicate Falls(l: real, b: nat) {
    (4 * b) as real <= l < (4 * b + 4) as real
  }

  lemma BinIsWhereItFalls(l: real, b: nat)
    requires 0.0 <= l <= 255.0
    ensures Bin(l) == b <==> Falls(l, b)
  {
  }

  /** The places of the pixels that fall into bin `b`. */
  function Places(pixels: seq<real>, b: nat): set<nat> {
    set i: nat | i < |pixels| && Falls(pixels[i], b)
  }

  lemma {:induction false} CountIsOfPlaces(pixels: seq<real>, b: nat)
    requires Bright(pixels)
    ensures Count(pixels, b) == |Places(pixels, b)|
    decreases |pixels|
  {
    if pixels == [] {
      assert Places(pixels, b) == {};
    } else {
      CountIsOfPlaces(pixels[1..], b);
      BinIsWhereItFalls(pixels[0], b);
      OneMorePlace(pixels, b);
    }
  }

  lemma OneMorePlace(pixels: seq<real>, b: nat)
    requires pixels != []
    ensures |Places(pixels, b)| == |Places(pixels[1..], b)| + if Falls(pixels[0], b) then 1 else 0
  {
    var later := Places(pixels[1..], b);
    var moved := set i | i in later :: i + 1;
    forall i: nat ensures i in moved <==> i > 0 && i - 1 in later {
      if i > 0 && i - 1 in later { assert (i - 1) + 1 == i; }
    }
    Moved(later, moved);
    forall i: nat ensures i in Places(pixels, b) <==> i in moved || (i == 0 && Falls(pixels[0], b)) {
      if i > 0 { assert i in moved <==> i - 1 in later; }
    }
    assert 0 !in moved;
    assert Places(pixels, b) == moved + if Falls(pixels[0], b) then {0} else {};
  }

  lemma {:induction false} Moved(s: set<nat>, t: set<nat>)
    requires forall i: nat :: i in t <==> i > 0 && i - 1 in s
    ensures |t| == |s|
    decreases s
  {
    if s == {} {
      assert t == {};
    } else {
      var i :| i in s;
      assert i + 1 in t;
      Moved(s - {i}, t - {i + 1});
    }
  }

  lemma {:induction false} HistogramAt(pixels: seq<real>, k: nat, b: nat)
    requires Bright(pixels) && b < k
    ensures Histogram(pixels, k)[b] == |Places(pixels, b)| as real
  {
    if b == k - 1 {
      CountIsOfPlaces(pixels, b);
    } else {
      HistogramAt(pixels, k - 1, b);
    }
  }

  /* ---------------------------------------------------------------- clipping */

  function Excess(hist: seq<real>, limit: real): real {
    if hist == [] then 0.0 else Max(0.0, hist[0] - limit) + Excess(hist[1..], limit)
  }

  /** Every count cut at `limit`, with `share` added. */
  function Levelled(hist: seq<real>, limit: real, share: real): (r: seq<real>)
    ensures |r| == |hist|
  {
    if hist == [] then [] else [Min(hist[0], limit) + share] + Levelled(hist[1..], limit, share)
  }

  /** What is cut off is spread evenly. */
  function Clipped(hist: seq<real>, limit: real): (r: seq<real>)
    ensures |r| == |hist|
  {
    if hist == [] then [] else Levelled(hist, limit, Rate(Excess(hist, limit), |hist| as real))
  }

  lemma {:induction false} LevelledSum(hist: seq<real>, limit: real, share: real)
    ensures Sum(Levelled(hist, limit, share)) == Sum(hist) - Excess(hist, limit) + Times(share, |hist| as real)
  {
    if hist == [] {
      TimesComm(share, 0.0);
      Zero(share);
    } else {
      LevelledSum(hist[1..], limit, share);
      TimesAdds(|hist[1..]| as real, 1.0, share);
      TimesComm(share, 1.0);
      Unit(share);
      assert |hist| as real == |hist[1..]| as real + 1.0;
    }
  }

  /** Clipping moves counts around and loses none. */
  lemma ClippingConserves(hist: seq<real>, limit: real)
    ensures Sum(Clipped(hist, limit)) == Sum(hist)
  {
    if hist != [] {
      LevelledSum(hist, limit, Rate(Excess(hist, limit), |hist| as real));
      RateTimes(Excess(hist, limit), |hist| as real);
    }
  }

  lemma {:induction false} LevelledAt(hist: seq<real>, limit: real, share: real, b: nat)
    requires b < |hist|
    ensures Levelled(hist, limit, share)[b] == (if hist[b] < limit then hist[b] else limit) + share
  {
    if b > 0 { LevelledAt(hist[1..], limit, share, b - 1); }
  }

  /** Each bin keeps its count or the limit, whichever is less, and all get the same share; nothing is lost. */
  lemma ClippedMeaning(hist: seq<real>, limit: real) returns (share: real)
    ensures share >= 0.0 && Sum(Clipped(hist, limit)) == Sum(hist)
    ensures forall b :: 0 <= b < |hist| ==>
      Clipped(hist, limit)[b] == (if hist[b] < limit then hist[b] else limit) + share
  {
    share := if hist == [] then 0.0 else Rate(Excess(hist, limit), |hist| as real);
    ClippingConserves(hist, limit);
    if hist != [] {
      ExcessSign(hist, limit);
      RateOfNothing(|hist| as real);
      RateGrows(0.0, Excess(hist, limit), |hist| as real);
      forall b | 0 <= b < |hist|
        ensures Clipped(hist, limit)[b] == (if hist[b] < limit then hist[b] else limit) + share
      {
        LevelledAt(hist, limit, share, b);
      }
    }
  }

  predicate Nonnegative(s: seq<real>) {
    forall i :: 0 <= i < |s| ==> s[i] >= 0.0
  }

  lemma {:induction false} ExcessSign(hist: seq<real>, limit: real)
    ensures Excess(hist, limit) >= 0.0
  {
    if hist != [] { ExcessSign(hist[1..], limit); }
  }

  lemma {:induction false} LevelledSign(hist: seq<real>, limit: real, share: real)
    requires Nonnegative(hist) && limit >= 0.0 && share >= 0.0
    ensures Nonnegative(Levelled(hist, limit, share))
    ensures forall i :: 0 <= i < |hist| ==> share <= Levelled(hist, limit, share)[i] <= limit + share
  {
    if hist != [] { LevelledSign(hist[1..], limit, share); }
  }

  lemma {:induction false} HistogramSign(pixels: seq<real>, k: nat)
    requires Bright(pixels)
    ensures Nonnegative(Histogram(pixels, k))
  {
    if k > 0 { HistogramSign(pixels, k - 1); }
  }

  /* ---------------------------------------------------------------- the map of a tile */

  function Limit(clip: real, n: nat): (r: real)
    ensures r >= 1.0
  {
    Max(1.0, Rate(Times(clip, n as real), BINS as real))
  }

  function TileHistogram(pixels: seq<real>, clip: real): (r: seq<real>)
    requires Bright(pixels)
    ensures |r| == BINS
  {
    Clipped(Histogram(pixels, BINS), Limit(clip, |pixels|))
  }

  function Scaled(sum: real, n: nat): real {
    Times(Rate(sum, (if n > 1 then n else 1) as real), 255.0)
  }

  /** The scaled running sums of the clipped histogram, up to bin `k`. */
  function Running(hist: seq<real>, n: nat, k: nat): (r: seq<real>)
    requires k <= |hist|
    ensures |r| == k && forall i :: 0 <= i < k ==> r[i] == Scaled(Sum(hist[..i + 1]), n)
  {
    if k == 0 then [] else Running(hist, n, k - 1) + [Scaled(Sum(hist[..k]), n)]
  }

  function TileMap(pixels: seq<real>, clip: real): (r: seq<real>)
    requires Bright(pixels)
    ensures |r| == BINS
  {
    Running(TileHistogram(pixels, clip), |pixels|, BINS)
  }

  lemma SumGrows(hist: seq<real>, i: nat, j: nat)
    requires Nonnegative(hist) && i <= j <= |hist|
    ensures 0.0 <= Sum(hist[..i]) <= Sum(hist[..j])
  {
    assert hist[..j] == hist[..i] + hist[i..j];
    SumConcat(hist[..i], hist[i..j]);
    SumSign(hist[i..j]);
    SumSign(hist[..i]);
  }

  lemma {:induction false} SumSign(s: seq<real>)
    requires Nonnegative(s)
    ensures Sum(s) >= 0.0
  {
    if s != [] { SumSign(s[1..]); }
  }

  lemma ScaledGrows(a: real, b: real, n: nat)
    requires 0.0 <= a <= b
    ensures 0.0 <= Scaled(a, n) <= Scaled(b, n)
  {
    var d := (if n > 1 then n else 1) as real;
    RateOfNothing(d);
    RateGrows(0.0, a, d);
    RateGrows(a, b, d);
    TimesSign(Rate(a, d), 255.0);
    TimesGrows(Rate(a, d), Rate(b, d), 255.0);
  }

  lemma RateOfNothing(d: real)
    requires d > 0.0
    ensures Rate(0.0, d) == 0.0
  {
    Zero(d);
    RateUnique(0.0, 0.0, d);
  }

  lemma TileHistogramSign(pixels: seq<real>, clip: real)
    requires Bright(pixels)
    ensures Nonnegative(TileHistogram(pixels, clip))
  {
    var hist, limit := Histogram(pixels, BINS), Limit(clip, |pixels|);
    HistogramSign(pixels, BINS);
    ExcessSign(hist, limit);
    RateOfNothing(|hist| as real);
    RateGrows(0.0, Excess(hist, limit), |hist| as real);
    LevelledSign(hist, limit, Rate(Excess(hist, limit), |hist| as real));
  }

  /** The clipped histogram of a tile still counts every pixel once. */
  lemma TileKeepsItsPixels(pixels: seq<real>, clip: real)
    requires Bright(pixels)
    ensures Sum(TileHistogram(pixels, clip)) == |pixels| as real
  {
    HistogramCountsAll(pixels);
    ClippingConserves(Histogram(pixels, BINS), Limit(clip, |pixels|));
  }

  /** A tile's map never falls, stays within 0 and 255, and ends at 255 unless the tile is empty. */
  lemma TileMapRises(pixels: seq<real>, clip: real, i: nat, j: nat)
    requires Bright(pixels) && i <= j < BINS
    ensures var m := TileMap(pixels, clip);
      0.0 <= m[i] <= m[j] <= 255.0 && m[BINS - 1] == if pixels == [] then 0.0 else 255.0
  {
    var hist := TileHistogram(pixels, clip);
    TileHistogramSign(pixels, clip);
    TileKeepsItsPixels(pixels, clip);
    SumGrows(hist, i + 1, j + 1);
    SumGrows(hist, j + 1, BINS);
    assert hist[..BINS] == hist;
    ScaledGrows(Sum(hist[..i + 1]), Sum(hist[..j + 1]), |pixels|);
    ScaledGrows(Sum(hist[..j + 1]), Sum(hist), |pixels|);
    FullScale(|pixels|);
  }

  lemma FullScale(n: nat)
    ensures Scaled(n as real, n) == if n == 0 then 0.0 else 255.0
  {
    if n == 0 {
      RateOfNothing(1.0);
      Zero(255.0);
    } else {
      RateOfPart(n as real, n as real);
      Unit(255.0);
    }
  }

  /** What the map of a tile adds at bin `b`. */
  function Step(m: seq<real>, b: nat): real
    requires b < |m|
  {
    m[b] - if b == 0 then 0.0 else m[b - 1]
  }

  /** The count that a bin may keep: `clip` times an even share of the pixels, and at least 1. */
  predicate IsLimit(limit: real, clip: real, n: nat) {
    && limit >= 1.0 && 64.0 * limit >= Times(clip, n as real)
    && (limit == 1.0 || 64.0 * limit == Times(clip, n as real))
  }

  lemma LimitMeaning(clip: real, n: nat)
    ensures IsLimit(Limit(clip, n), clip, n)
  {
    var all := Times(clip, n as real);
    RateTimes(all, 64.0);
    if Limit(clip, n) == 1.0 && all > 64.0 {
      Unit(64.0);
      RateGrows(64.0, all, 64.0);
      RateUnique(1.0, 64.0, 64.0);
    }
  }

  function AtLeastOne(n: nat): real {
    (if n == 0 then 1 else n) as real
  }

  /** `m` climbs at bin `b` by its clipped count and a share, on a scale on which all pixels are 255. */
  predicate Climbs(pixels: seq<real>, m: seq<real>, limit: real, share: real, b: nat)
    requires b < |m|
  {
    var count := |Places(pixels, b)| as real;
    Times(Step(m, b), AtLeastOne(|pixels|))
      == 255.0 * ((if count < limit then count else limit) + share)
  }

  /** The map of a tile in terms of how many of its pixels fall into each bin. */
  lemma TileMapMeaning(pixels: seq<real>, clip: real) returns (limit: real, share: real)
    requires Bright(pixels)
    ensures IsLimit(limit, clip, |pixels|) && share >= 0.0
    ensures forall b: nat :: b < 64 ==> Climbs(pixels, TileMap(pixels, clip), limit, share, b)
  {
    limit := Limit(clip, |pixels|);
    LimitMeaning(clip, |pixels|);
    share := ClippedMeaning(Histogram(pixels, BINS), limit);
    var hist := Histogram(pixels, BINS);
    forall b: nat | b < 64 ensures Climbs(pixels, TileMap(pixels, clip), limit, share, b) {
      assert Clipped(hist, limit)[b] == (if hist[b] < limit then hist[b] else limit) + share;
      ClimbsAt(pixels, clip, limit, share, b);
    }
  }

  lemma ClimbsAt(pixels: seq<real>, clip: real, limit: real, share: real, b: nat)
    requires Bright(pixels) && b < BINS && limit == Limit(clip, |pixels|)
    requires var count := Histogram(pixels, BINS)[b];
      Clipped(Histogram(pixels, BINS), limit)[b] == (if count < limit then count else limit) + share
    ensures Climbs(pixels, TileMap(pixels, clip), limit, share, b)
  {
    HistogramAt(pixels, BINS, b);
    var hist := TileHistogram(pixels, clip);
    RunningSteps(hist, |pixels|, b);
    ClimbsBy(pixels, Running(hist, |pixels|, BINS), limit, share, b, hist[b]);
  }

  lemma ClimbsBy(pixels: seq<real>, m: seq<real>, limit: real, share: real, b: nat, level: real)
    requires b < |m| && Times(Step(m, b), AtLeastOne(|pixels|)) == 255.0 * level
    requires var count := |Places(pixels, b)| as real; level == (if count < limit then count else limit) + share
    ensures Climbs(pixels, m, limit, share, b)
  {
  }

  lemma RunningSteps(hist: seq<real>, n: nat, b: nat)
    requires b < |hist|
    ensures Times(Step(Running(hist, n, |hist|), b), AtLeastOne(n)) == 255.0 * hist[b]
  {
    SumTo(hist, b);
    ScaledTimes(Sum(hist[..b + 1]), n);
    ScaledTimes(Sum(hist[..b]), n);
    StepOfRunning(hist, n, b);
    TimesLess(Scaled(Sum(hist[..b + 1]), n), Scaled(Sum(hist[..b]), n), AtLeastOne(n),
              255.0 * Sum(hist[..b + 1]), 255.0 * Sum(hist[..b]));
  }

  lemma SumTo(hist: seq<real>, b: nat)
    requires b < |hist|
    ensures Sum(hist[..b + 1]) == Sum(hist[..b]) + hist[b]
  {
    SumOne(hist[b]);
    SumConcat(hist[..b], [hist[b]]);
    assert hist[..b + 1] == hist[..b] + [hist[b]];
  }

  lemma StepOfRunning(hist: seq<real>, n: nat, b: nat)
    requires b < |hist|
    ensures Step(Running(hist, n, |hist|), b) == Scaled(Sum(hist[..b + 1]), n) - Scaled(Sum(hist[..b]), n)
  {
    if b == 0 {
      NothingScaled(n);
      assert Sum(hist[..b]) == 0.0;
    } else {
      assert b - 1 + 1 == b;
    }
  }

  lemma NothingScaled(n: nat)
    ensures Scaled(0.0, n) == 0.0
  {
    RateOfNothing(AtLeastOne(n));
    Zero(255.0);
  }

  lemma TimesLess(a: real, b: real, d: real, p: real, q: real)
    requires Times(a, d) == p && Times(b, d) == q
    ensures Times(a - b, d) == p - q
  {
    TimesAdds(a - b, b, d);
  }

  lemma ScaledTimes(sum: real, n: nat)
    ensures Times(Scaled(sum, n), AtLeastOne(n)) == 255.0 * sum
  {
    var d := AtLeastOne(n);
    RateTimes(sum, d);
    TimesComm(Rate(sum, d), 255.0);
    TimesAssoc(255.0, Rate(sum, d), d);
  }

  /* ---------------------------------------------------------------- the grid of tiles */

  /** The first row (or column) of tile `t`. */
  function Edge(size: nat, tiles: nat, t: nat): (r: nat)
    requires tiles > 0
    ensures t == 0 ==> r == 0
    ensures t == tiles ==> r == size
  {
    EdgeEnds(size, tiles, t);
    Times(t as real, Rate(size as real, tiles as real)).Floor
  }

  lemma EdgeEnds(size: nat, tiles: nat, t: nat)
    requires tiles > 0
    ensures var e := Times(t as real, Rate(size as real, tiles as real)).Floor;
      e >= 0 && (t == 0 ==> e == 0) && (t == tiles ==> e == size)
  {
    var ts := Rate(size as real, tiles as real);
    TileSize(size, tiles);
    TimesSign(t as real, ts);
    Zero(ts);
  }

  lemma TileSize(size: nat, tiles: nat)
    requires tiles > 0
    ensures var ts := Rate(size as real, tiles as real); ts >= 0.0 && Times(tiles as real, ts) == size as real
  {
    RateOfNothing(tiles as real);
    RateGrows(0.0, size as real, tiles as real);
    RateTimes(size as real, tiles as real);
    TimesComm(tiles as real, Rate(size as real, tiles as real));
  }

  lemma EdgesRise(size: nat, tiles: nat, s: nat, t: nat)
    requires tiles > 0 && s <= t <= tiles
    ensures Edge(size, tiles, s) <= Edge(size, tiles, t) <= size
  {
    var ts := Rate(size as real, tiles as real);
    TileSize(size, tiles);
    TimesGrows(s as real, t as real, ts);
    TimesGrows(t as real, tiles as real, ts);
  }

  /** Tile `t` of `tiles` starts at that share of the size, rounded down. */
  lemma EdgeIsAShare(size: nat, tiles: nat, t: nat)
    requires tiles > 0
    ensures Edge(size, tiles, t) == t * size / tiles
  {
    var ts, e := Rate(size as real, tiles as real), Edge(size, tiles, t);
    var x := Times(t as real, ts);
    RateTimes(size as real, tiles as real);
    TimesAssoc(t as real, ts, tiles as real);
    InWholes(t, size);
    InWholes(e, tiles);
    InWholes(e + 1, tiles);
    TimesGrows(e as real, x, tiles as real);
    SignOfFactor((e + 1) as real - x, tiles as real);
    TimesAdds((e + 1) as real - x, x, tiles as real);
    Quotient(t * size, tiles, e);
  }

  lemma InWholes(a: nat, b: nat)
    ensures Times(a as real, b as real) == (a * b) as real
  {
  }

  lemma Quotient(a: nat, b: nat, q: nat)
    requires b > 0 && q * b <= a < (q + 1) * b
    ensures q == a / b
  {
    Ordered(a / b, q, b);
    Ordered(q, a / b, b);
  }

  lemma Ordered(m: nat, n: nat, b: nat)
    ensures m < n ==> (m + 1) * b <= n * b
  {
    if m < n { assert n * b == (m + 1) * b + (n - m - 1) * b; }
  }

  predicate InTile(size: nat, tiles: nat, t: nat, i: nat)
    requires tiles > 0
  {
    t < tiles && Edge(size, tiles, t) <= i < Edge(size, tiles, t + 1)
  }

  /** The last tile that starts at or before `i`, among the first `t + 1`. */
  function TileOf(size: nat, tiles: nat, i: nat, t: nat): (r: nat)
    requires tiles > 0
    ensures r <= t && Edge(size, tiles, r) <= i && (r < t ==> i < Edge(size, tiles, r + 1))
  {
    if Edge(size, tiles, t) <= i || t == 0 then t else TileOf(size, tiles, i, t - 1)
  }

  /** Each row and each column lies in exactly one tile, however the size divides. */
  lemma TilesPartition(size: nat, tiles: nat, i: nat) returns (t: nat)
    requires tiles > 0 && i < size
    ensures InTile(size, tiles, t, i) && forall other: nat :: InTile(size, tiles, other, i) ==> other == t
  {
    t := TileOf(size, tiles, i, tiles);
    forall other: nat | InTile(size, tiles, other, i) ensures other == t {
      if other < t {
        EdgesRise(size, tiles, other + 1, t);
      } else if t < other {
        EdgesRise(size, tiles, t + 1, other);
      }
    }
  }

  /** The pixels of a range of columns in the rows from `top` on, row after row. */
  function Pixels(lum: Image, top: nat, bottom: nat, left: nat, right: nat): seq<real>
    requires top <= bottom <= |lum| && left <= right
    requires forall y :: top <= y < bottom ==> right <= |lum[y]|
    decreases bottom - top
  {
    if top == bottom then [] else lum[top][left..right] + Pixels(lum, top + 1, bottom, left, right)
  }

  lemma {:induction false} PixelsAreBright(lum: Image, top: nat, bottom: nat, left: nat, right: nat)
    requires top <= bottom <= |lum| && left <= right
    requires forall y :: top <= y < bottom ==> right <= |lum[y]|
    requires forall y :: 0 <= y < |lum| ==> Bright(lum[y])
    ensures Bright(Pixels(lum, top, bottom, left, right))
    ensures |Pixels(lum, top, bottom, left, right)| == (bottom - top) * (right - left)
    decreases bottom - top
  {
    if top < bottom {
      PixelsAreBright(lum, top + 1, bottom, left, right);
      assert Bright(lum[top]);
    }
  }

  ghost predicate BrightImage(lum: Image, size: nat) {
    Rectangular(lum, size) && forall y :: 0 <= y < |lum| ==> Bright(lum[y])
  }

  function Tile(lum: Image, size: nat, tiles: nat, ty: nat, tx: nat): (r: seq<real>)
    requires BrightImage(lum, size) && tiles > 0 && ty < tiles && tx < tiles
    ensures Bright(r)
  {
    EdgesRise(size, tiles, ty, ty + 1);
    EdgesRise(size, tiles, tx, tx + 1);
    var top, bottom := Edge(size, tiles, ty), Edge(size, tiles, ty + 1);
    var left, right := Edge(size, tiles, tx), Edge(size, tiles, tx + 1);
    PixelsAreBright(lum, top, bottom, left, right);
    Pixels(lum, top, bottom, left, right)
  }

  /** Where a pixel comes if rows of `width` pixels are put one after another. */
  function Offset(row: nat, column: nat, width: nat): nat {
    row * width + column
  }

  lemma RowDown(row: nat, column: nat, width: nat)
    ensures Offset(row + 1, column, width) == width + Offset(row, column, width)
  {
  }

  /** A list of the rows from `top` on, each from column `left` up to `right`, has pixel (`x`, `y`) where it belongs. */
  predicate HasPixel(pixels: seq<real>, lum: Image, top: nat, left: nat, right: nat, y: nat, x: nat) {
    && top <= y < |lum| && left <= x < right && x < |lum[y]|
    && Offset(y - top, x - left, right - left) < |pixels|
    && pixels[Offset(y - top, x - left, right - left)] == lum[y][x]
  }

  lemma {:induction false} PixelAt(lum: Image, top: nat, bottom: nat, left: nat, right: nat, y: nat, x: nat)
    requires top <= y < bottom <= |lum| && left <= x < right
    requires forall y :: top <= y < bottom ==> right <= |lum[y]|
    ensures HasPixel(Pixels(lum, top, bottom, left, right), lum, top, left, right, y, x)
    decreases bottom - top
  {
    var first := lum[top][left..right];
    var rest := Pixels(lum, top + 1, bottom, left, right);
    if y == top {
      assert Offset(0, x - left, right - left) == x - left;
    } else {
      PixelAt(lum, top + 1, bottom, left, right, y, x);
      OneRowDown(first, rest, lum, top, left, right, y, x);
    }
  }

  lemma OneRowDown(first: seq<real>, rest: seq<real>, lum: Image, top: nat, left: nat, right: nat, y: nat, x: nat)
    requires left <= right && |first| == right - left && HasPixel(rest, lum, top + 1, left, right, y, x)
    ensures HasPixel(first + rest, lum, top, left, right, y, x)
  {
    RowDown(y - (top + 1), x - left, right - left);
  }

  /** The rows of a tile one after another, each from the tile's first column on. */
  lemma TileHolds(lum: Image, size: nat, tiles: nat, ty: nat, tx: nat, y: nat, x: nat)
    requires BrightImage(lum, size) && tiles > 0 && InTile(size, tiles, ty, y) && InTile(size, tiles, tx, x)
    ensures HasPixel(Tile(lum, size, tiles, ty, tx), lum, Edge(size, tiles, ty),
                     Edge(size, tiles, tx), Edge(size, tiles, tx + 1), y, x)
  {
    EdgesRise(size, tiles, ty, ty + 1);
    EdgesRise(size, tiles, tx, tx + 1);
    EdgesRise(size, tiles, ty + 1, tiles);
    EdgesRise(size, tiles, tx + 1, tiles);
    var top, bottom := Edge(size, tiles, ty), Edge(size, tiles, ty + 1);
    var left, right := Edge(size, tiles, tx), Edge(size, tiles, tx + 1);
    PixelAt(lum, top, bottom, left, right, y, x);
  }

  /** A tile holds no more than its pixels. */
  lemma TileHasSize(lum: Image, size: nat, tiles: nat, ty: nat, tx: nat)
    requires BrightImage(lum, size) && ty < tiles && tx < tiles
    ensures |Tile(lum, size, tiles, ty, tx)|
      == (Edge(size, tiles, ty + 1) - Edge(size, tiles, ty)) * (Edge(size, tiles, tx + 1) - Edge(size, tiles, tx))
  {
    EdgesRise(size, tiles, ty, ty + 1);
    EdgesRise(size, tiles, tx, tx + 1);
    EdgesRise(size, tiles, ty + 1, tiles);
    EdgesRise(size, tiles, tx + 1, tiles);
    PixelsAreBright(lum, Edge(size, tiles, ty), Edge(size, tiles, ty + 1),
                    Edge(size, tiles, tx), Edge(size, tiles, tx + 1));
  }

  /** The map of each tile, row after row. */
  method TileMaps(lum: Image, size: nat, tiles: nat, clip: real) returns (maps: seq<seq<real>>)
    requires BrightImage(lum, size) && tiles > 0
    ensures |maps| == tiles * tiles
    ensures forall ty: nat, tx: nat :: ty < tiles && tx < tiles ==> MapAt(lum, size, tiles, clip, maps, ty, tx)
  {
    maps := [];
    var ty := 0;
    while ty < tiles
      invariant 0 <= ty <= tiles && MapsUpTo(lum, size, tiles, clip, maps, ty, 0)
    {
      var tx := 0;
      while tx < tiles
        invariant 0 <= tx <= tiles && MapsUpTo(lum, size, tiles, clip, maps, ty, tx)
      {
        OneMoreMap(lum, size, tiles, clip, maps, ty, tx);
        maps := maps + [TileMap(Tile(lum, size, tiles, ty, tx), clip)];
        tx := tx + 1;
      }
      NextRow(lum, size, tiles, clip, maps, ty);
      ty := ty + 1;
    }
    AllMaps(lum, size, tiles, clip, maps);
  }

  predicate Before(tiles: nat, a: nat, b: nat, ty: nat, tx: nat) {
    b < tiles && (a < ty || (a == ty && b < tx))
  }

  /** The maps of the rows before `ty` and of the tiles before `tx` in row `ty`. */
  ghost predicate MapsUpTo(lum: Image, size: nat, tiles: nat, clip: real, maps: seq<seq<real>>, ty: nat, tx: nat)
    requires BrightImage(lum, size) && tiles > 0
  {
    && |maps| == ty * tiles + tx
    && forall a: nat, b: nat :: a < tiles && Before(tiles, a, b, ty, tx) ==>
         MapAt(lum, size, tiles, clip, maps, a, b)
  }

  ghost predicate MapAt(lum: Image, size: nat, tiles: nat, clip: real, maps: seq<seq<real>>, a: nat, b: nat)
    requires BrightImage(lum, size) && tiles > 0 && a < tiles && b < tiles
  {
    0 <= a * tiles + b < |maps| && maps[a * tiles + b] == TileMap(Tile(lum, size, tiles, a, b), clip)
  }

  lemma OneMoreMap(lum: Image, size: nat, tiles: nat, clip: real, maps: seq<seq<real>>, ty: nat, tx: nat)
    requires BrightImage(lum, size) && ty < tiles && tx < tiles && MapsUpTo(lum, size, tiles, clip, maps, ty, tx)
    ensures MapsUpTo(lum, size, tiles, clip, maps + [TileMap(Tile(lum, size, tiles, ty, tx), clip)], ty, tx + 1)
  {
    var more := maps + [TileMap(Tile(lum, size, tiles, ty, tx), clip)];
    forall a: nat, b: nat | a < tiles && Before(tiles, a, b, ty, tx + 1)
      ensures MapAt(lum, size, tiles, clip, more, a, b)
    {
      if Before(tiles, a, b, ty, tx) { assert MapAt(lum, size, tiles, clip, maps, a, b); }
    }
  }

  lemma NextRow(lum: Image, size: nat, tiles: nat, clip: real, maps: seq<seq<real>>, ty: nat)
    requires BrightImage(lum, size) && ty < tiles && MapsUpTo(lum, size, tiles, clip, maps, ty, tiles)
    ensures MapsUpTo(lum, size, tiles, clip, maps, ty + 1, 0)
  {
    assert ty * tiles + tiles == (ty + 1) * tiles;
    forall a: nat, b: nat | a < tiles && Before(tiles, a, b, ty + 1, 0)
      ensures MapAt(lum, size, tiles, clip, maps, a, b)
    {
      assert Before(tiles, a, b, ty, tiles);
    }
  }

  lemma AllMaps(lum: Image, size: nat, tiles: nat, clip: real, maps: seq<seq<real>>)
    requires BrightImage(lum, size) && tiles > 0 && MapsUpTo(lum, size, tiles, clip, maps, tiles, 0)
    ensures forall ty: nat, tx: nat :: ty < tiles && tx < tiles ==> MapAt(lum, size, tiles, clip, maps, ty, tx)
  {
    forall ty: nat, tx: nat | ty < tiles && tx < tiles ensures MapAt(lum, size, tiles, clip, maps, ty, tx) {
      assert Before(tiles, ty, tx, tiles, 0);
    }
  }

  /* ---------------------------------------------------------------- interpolation */

  function Clamp(r: real, low: real, high: real): real {
    Min(high, Max(low, r))
  }

  lemma TilePositive(size: nat, tiles: nat)
    requires tiles > 0 && size > 0
    ensures Rate(size as real, tiles as real) > 0.0
  {
    TileSize(size, tiles);
    SignOfFactor(Rate(size as real, tiles as real), tiles as real);
    RateTimes(size as real, tiles as real);
  }

  /** Where pixel `i` is among the tile centres. */
  function GridPlace(size: nat, tiles: nat, i: nat): real
    requires tiles > 0 && size > 0
  {
    TilePositive(size, tiles);
    Clamp(Rate(i as real + 0.5, Rate(size as real, tiles as real)) - 0.5, 0.0, (tiles - 1) as real)
  }

  /** Counted in tiles from the centre of the first one, and within the centres of the first and the last. */
  predicate IsPlace(size: nat, tiles: nat, i: nat, g: real) {
    var at := Times(i as real + 0.5, tiles as real);
    if 2.0 * at <= size as real then g == 0.0
    else if 2.0 * at >= ((2 * tiles - 1) * size) as real then g == (tiles - 1) as real
    else Times(g + 0.5, size as real) == at
  }

  lemma PlaceMeaning(size: nat, tiles: nat, i: nat)
    requires tiles > 0 && size > 0
    ensures IsPlace(size, tiles, i, GridPlace(size, tiles, i))
  {
    var s, n, h := size as real, tiles as real, i as real + 0.5;
    var ts := Rate(s, n);
    TilePositive(size, tiles);
    var q := Rate(h, ts);
    RateTimes(s, n);
    RateTimes(h, ts);
    TimesAssoc(q, ts, n);
    assert Times(q, s) == Times(h, n);
    var last := (tiles - 1) as real;
    TimesAdds(q - 0.5, 0.5, s);
    SignOfFactor(q - 0.5, s);
    SignOfFactor(q - 0.5 - last, s);
    TimesAdds(q - 0.5 - last, last + 0.5, s);
    InWholes(2 * tiles - 1, size);
    TimesAdds(last + 0.5, last + 0.5, s);
  }

  datatype Weight = Weight(low: int, high: int, part: real)

  /** The tiles on both sides of a place and the share of the higher one. */
  function WeightAt(tiles: nat, g: real): Weight {
    var low := g.Floor;
    Weight(low, if low + 1 < tiles - 1 then low + 1 else tiles - 1, g - low as real)
  }

  lemma WeightsAreWithin(tiles: nat, g: real)
    requires tiles > 0 && 0.0 <= g <= (tiles - 1) as real
    ensures var w := WeightAt(tiles, g);
      && 0 <= w.low <= w.high < tiles && w.high <= w.low + 1 && 0.0 <= w.part < 1.0
      && w.low as real + w.part == g && (w.low == w.high ==> w.part == 0.0)
  {
  }

  function Mix(a: real, b: real, part: real): real {
    Times(1.0 - part, a) + Times(part, b)
  }

  lemma MixGrows(a: real, b: real, c: real, d: real, part: real)
    requires 0.0 <= part <= 1.0 && a <= c && b <= d
    ensures Mix(a, b, part) <= Mix(c, d, part)
  {
    TimesGrows(a, c, 1.0 - part);
    TimesGrows(b, d, part);
  }

  lemma MixOfEquals(a: real, part: real)
    ensures Mix(a, a, part) == a
  {
    TimesAdds(1.0 - part, part, a);
    Unit(a);
  }

  lemma MixIsBetween(a: real, b: real, part: real, low: real, high: real)
    requires 0.0 <= part <= 1.0 && low <= a <= high && low <= b <= high
    ensures low <= Mix(a, b, part) <= high
  {
    MixGrows(low, low, a, b, part);
    MixGrows(a, b, high, high, part);
    MixOfEquals(low, part);
    MixOfEquals(high, part);
  }

  /** Bilinear interpolation between four values. */
  function Blend(fy: real, fx: real, v00: real, v01: real, v10: real, v11: real): real {
    Mix(Mix(v00, v01, fx), Mix(v10, v11, fx), fy)
  }

  lemma BlendIsBetween(fy: real, fx: real, v00: real, v01: real, v10: real, v11: real, low: real, high: real)
    requires 0.0 <= fy <= 1.0 && 0.0 <= fx <= 1.0
    requires low <= v00 <= high && low <= v01 <= high && low <= v10 <= high && low <= v11 <= high
    ensures low <= Blend(fy, fx, v00, v01, v10, v11) <= high
  {
    MixIsBetween(v00, v01, fx, low, high);
    MixIsBetween(v10, v11, fx, low, high);
    MixIsBetween(Mix(v00, v01, fx), Mix(v10, v11, fx), fy, low, high);
  }

  /** The equalised brightness of a pixel: its bin in the maps of the four nearest tiles, mixed. */
  function Equalised(lum: Image, size: nat, tiles: nat, clip: real, y: nat, x: nat): (r: real)
    requires BrightImage(lum, size) && tiles > 0 && y < size && x < size
    ensures 0.0 <= r <= 255.0
  {
    assert Bright(lum[y]);
    var wy, wx := WeightAt(tiles, GridPlace(size, tiles, y)), WeightAt(tiles, GridPlace(size, tiles, x));
    WeightsAreWithin(tiles, GridPlace(size, tiles, y));
    WeightsAreWithin(tiles, GridPlace(size, tiles, x));
    var b := Bin(lum[y][x]);
    var v00 := Level(lum, size, tiles, clip, wy.low, wx.low, b);
    var v01 := Level(lum, size, tiles, clip, wy.low, wx.high, b);
    var v10 := Level(lum, size, tiles, clip, wy.high, wx.low, b);
    var v11 := Level(lum, size, tiles, clip, wy.high, wx.high, b);
    BlendIsBetween(wy.part, wx.part, v00, v01, v10, v11, 0.0, 255.0);
    Blend(wy.part, wx.part, v00, v01, v10, v11)
  }

  function Level(lum: Image, size: nat, tiles: nat, clip: real, ty: nat, tx: nat, b: nat): (r: real)
    requires BrightImage(lum, size) && tiles > 0 && ty < tiles && tx < tiles && b < BINS
    ensures 0.0 <= r <= 255.0
  {
    TileMapRises(Tile(lum, size, tiles, ty, tx), clip, b, b);
    TileMap(Tile(lum, size, tiles, ty, tx), clip)[b]
  }

  /* ---------------------------------------------------------------- interpolation as a sum over all tiles */

  /** How much a tile counts whose centre is `d` tiles away. */
  function Tent(d: real): real {
    Max(0.0, 1.0 - Abs(d))
  }

  /** The tiles of a row (or column) at a place: each value times how much its tile counts there. */
  function TentSum(values: seq<real>, g: real): real {
    if values == [] then 0.0
    else TentSum(values[..|values| - 1], g) + Times(Tent(g - (|values| - 1) as real), values[|values| - 1])
  }

  lemma {:induction false} TentSumIsAMix(values: seq<real>, g: real, n: nat)
    requires n <= |values| && |values| > 0 && 0.0 <= g <= (|values| - 1) as real
    ensures var w := WeightAt(|values|, g);
      && 0 <= w.low <= w.high < |values|
      && TentSum(values[..n], g) ==
           if n <= w.low then 0.0
           else if n == w.low + 1 then Times(1.0 - w.part, values[w.low])
           else Mix(values[w.low], values[w.high], w.part)
    decreases n
  {
    var w := WeightAt(|values|, g);
    WeightsAreWithin(|values|, g);
    if n > 0 {
      TentSumIsAMix(values, g, n - 1);
      assert values[..n][..n - 1] == values[..n - 1];
      Zero(values[n - 1]);
      TentAt(g, w, n - 1);
    }
  }

  lemma TentAt(g: real, w: Weight, t: nat)
    requires w.low as real + w.part == g && 0.0 <= w.part < 1.0 && w.low >= 0
    ensures Tent(g - t as real) == if t == w.low then 1.0 - w.part else if t == w.low + 1 then w.part else 0.0
  {
  }

  /** What the maps of the tiles in a row give for bin `b`. */
  function Row(lum: Image, size: nat, tiles: nat, clip: real, ty: nat, b: nat, k: nat): (r: seq<real>)
    requires BrightImage(lum, size) && ty < tiles && b < BINS && k <= tiles
    ensures |r| == k && forall tx :: 0 <= tx < k ==> r[tx] == TileMap(Tile(lum, size, tiles, ty, tx), clip)[b]
  {
    if k == 0 then []
    else Row(lum, size, tiles, clip, ty, b, k - 1) + [TileMap(Tile(lum, size, tiles, ty, k - 1), clip)[b]]
  }

  /** `grid` holds what the map of each tile gives for bin `b`. */
  ghost predicate IsGrid(lum: Image, size: nat, tiles: nat, clip: real, b: nat, grid: seq<seq<real>>)
    requires BrightImage(lum, size) && b < BINS
  {
    |grid| == tiles && forall ty: nat :: ty < tiles ==> grid[ty] == Row(lum, size, tiles, clip, ty, b, tiles)
  }

  /** The rows of a grid, each summed over its tiles. */
  function RowSums(grid: seq<seq<real>>, g: real): (r: seq<real>)
    ensures |r| == |grid| && forall i :: 0 <= i < |grid| ==> r[i] == TentSum(grid[i], g)
  {
    if grid == [] then [] else RowSums(grid[..|grid| - 1], g) + [TentSum(grid[|grid| - 1], g)]
  }

  /** Looking up the four nearest tiles is as good as counting every tile by how near its centre is. */
  lemma EqualisedIsATentSum(lum: Image, size: nat, tiles: nat, clip: real, y: nat, x: nat, grid: seq<seq<real>>)
    requires BrightImage(lum, size) && tiles > 0 && y < size && x < size && Bright(lum[y])
    requires IsGrid(lum, size, tiles, clip, Bin(lum[y][x]), grid)
    ensures Equalised(lum, size, tiles, clip, y, x)
      == TentSum(RowSums(grid, GridPlace(size, tiles, x)), GridPlace(size, tiles, y))
  {
    var gy, gx, b := GridPlace(size, tiles, y), GridPlace(size, tiles, x), Bin(lum[y][x]);
    WeightsAreWithin(tiles, gy);
    var wy := WeightAt(tiles, gy);
    RowIsAMix(lum, size, tiles, clip, gx, b, wy.low);
    RowIsAMix(lum, size, tiles, clip, gx, b, wy.high);
    WholeTentSum(RowSums(grid, gx), gy);
  }

  lemma WholeTentSum(values: seq<real>, g: real)
    requires |values| > 0 && 0.0 <= g <= (|values| - 1) as real
    ensures var w := WeightAt(|values|, g);
      && 0 <= w.low <= w.high < |values|
      && TentSum(values, g) == Mix(values[w.low], values[w.high], w.part)
  {
    var w := WeightAt(|values|, g);
    WeightsAreWithin(|values|, g);
    TentSumIsAMix(values, g, |values|);
    assert values[..|values|] == values;
    if |values| == w.low + 1 {
      MixOfEquals(values[w.low], w.part);
      Zero(values[w.low]);
    }
  }

  lemma RowIsAMix(lum: Image, size: nat, tiles: nat, clip: real, gx: real, b: nat, ty: nat)
    requires BrightImage(lum, size) && ty < tiles && b < BINS && 0.0 <= gx <= (tiles - 1) as real
    ensures var w := WeightAt(tiles, gx);
      && 0 <= w.low <= w.high < tiles
      && TentSum(Row(lum, size, tiles, clip, ty, b, tiles), gx)
         == Mix(Level(lum, size, tiles, clip, ty, w.low, b), Level(lum, size, tiles, clip, ty, w.high, b), w.part)
  {
    WholeTentSum(Row(lum, size, tiles, clip, ty, b, tiles), gx);
  }
}
