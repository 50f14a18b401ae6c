/** The camera shim's scheduler: a frame clock, chunks of frames in flight, and a canvas that shows one frame. */
module CameraShim {
  import opened Integers

  /** `chunk` frames are fetched at a time; the next `prefetch` frames are kept loaded. */
  datatype Settings = Settings(frames: nat, chunk: nat, prefetch: nat)

  type Config = c: Settings | c.frames > 0 && c.chunk > 0 witness Settings(1, 1, 0)

  /** A `show(n)` that waits for its frame: the request that will bring it, and the opening that wanted it. */
  datatype Showing = Showing(n: nat, request: nat, opening: nat)

  /**
   * `images` holds, for each frame, the request whose promise it is. `clock` is the last frame number the clock gave.
   * `next`, `outstanding`, `showing` and `opening` stand for what the event loop knows: requests made, requests not yet
   * answered, suspended calls of `show`, and how often the camera was started.
   */
  datatype State = State(
    running: bool, starting: bool, awaited: set<nat>, images: map<nat, nat>, inflight: int,
    due: int, shownN: int, shownIdx: int, clock: nat, tracks: set<nat>,
    next: nat, outstanding: set<nat>, showing: seq<Showing>, opening: nat)

  const START := State(false, false, {}, map[], 0, -1, -1, -1, 0, {}, 0, {}, [], 0)

  /* ---------------------------------------------------------------- chunks */

  /** The quotient of `i` by the size of a chunk, counted up. */
  function ChunkOf(cfg: Config, i: nat): nat {
    if i < cfg.chunk then 0 else 1 + ChunkOf(cfg, i - cfg.chunk)
  }

  function FirstOf(cfg: Config, c: nat): nat {
    if c == 0 then 0 else FirstOf(cfg, c - 1) + cfg.chunk
  }

  /** `n` modulo the number of frames. */
  function Wrap(cfg: Config, n: nat): (r: nat)
    ensures r < cfg.frames
  {
    if n < cfg.frames then n else Wrap(cfg, n - cfg.frames)
  }

  lemma {:induction false} ChunkOfIsQuotient(cfg: Config, i: nat)
    ensures ChunkOf(cfg, i) == i / cfg.chunk
  {
    if i >= cfg.chunk {
      ChunkOfIsQuotient(cfg, i - cfg.chunk);
      OneLess(i, cfg.chunk);
    }
  }

  lemma {:induction false} FirstOfIsProduct(cfg: Config, c: nat)
    ensures FirstOf(cfg, c) == c * cfg.chunk
  {
    if c > 0 {
      FirstOfIsProduct(cfg, c - 1);
      assert c * cfg.chunk == (c - 1) * cfg.chunk + cfg.chunk;
    }
  }

  lemma {:induction false} WrapIsModulo(cfg: Config, n: nat)
    ensures Wrap(cfg, n) == n % cfg.frames
  {
    if n >= cfg.frames {
      WrapIsModulo(cfg, n - cfg.frames);
      OneLess(n, cfg.frames);
    }
  }

  lemma {:induction false} ChunkRange(cfg: Config, i: nat, c: nat)
    ensures (ChunkOf(cfg, i) == c) <==> FirstOf(cfg, c) <= i < FirstOf(cfg, c) + cfg.chunk
    decreases i
  {
    if i >= cfg.chunk && c > 0 { ChunkRange(cfg, i - cfg.chunk, c - 1); }
  }

  /** Every chunk is loaded as a whole, by one request, or not at all. */
  ghost predicate Whole(cfg: Config, images: map<nat, nat>) {
    && (forall i :: i in images ==> i < cfg.frames)
    && forall i: nat, j: nat {:trigger SameChunk(cfg, i, j)} :: SameChunk(cfg, i, j) && i in images && j < cfg.frames
         ==> j in images && images[j] == images[i]
  }

  predicate SameChunk(cfg: Config, i: nat, j: nat) {
    ChunkOf(cfg, i) == ChunkOf(cfg, j)
  }

  /* ---------------------------------------------------------------- loading and dropping frames */

  function Span(first: nat, count: nat): (r: set<nat>)
    ensures forall i: nat :: i in r <==> first <= i < first + count
  {
    if count == 0 then {} else Span(first, count - 1) + {first + count - 1}
  }

  /** `v` for `count` frames from `first` on. */
  function Given(first: nat, count: nat, v: nat): map<nat, nat> {
    map i | i in Span(first, count) :: v
  }

  function Fetch(cfg: Config, st: State, c: nat): State
    requires FirstOf(cfg, c) < cfg.frames
  {
    var first := FirstOf(cfg, c);
    var count := Min(cfg.chunk, cfg.frames - first);
    st.(images := st.images + Given(first, count, st.next),
        inflight := st.inflight + 1, outstanding := st.outstanding + {st.next}, next := st.next + 1)
  }

  /** `frame(i)`: after it, the promise of frame `i` is in the table. */
  function Frame(cfg: Config, st: State, i: nat): (r: State)
    requires i < cfg.frames
    ensures i in r.images
  {
    if i in st.images then st
    else
      ChunkRange(cfg, i, ChunkOf(cfg, i));
      Fetch(cfg, st, ChunkOf(cfg, i))
  }

  function WindowChunk(cfg: Config, n: nat, k: nat): (c: nat)
    ensures FirstOf(cfg, c) < cfg.frames
  {
    ChunkRange(cfg, Wrap(cfg, n + k), ChunkOf(cfg, Wrap(cfg, n + k)));
    ChunkOf(cfg, Wrap(cfg, n + k))
  }

  /** The chunks that prefetching looks at, one for each of the next frames (and the current one). */
  function Window(cfg: Config, n: nat): (r: seq<nat>)
    ensures |r| == cfg.prefetch + 1 && forall k :: 0 <= k < |r| ==> r[k] == WindowChunk(cfg, n, k)
    ensures Within(cfg, r)
  {
    seq(cfg.prefetch + 1, k requires k >= 0 => WindowChunk(cfg, n, k))
  }

  predicate Within(cfg: Config, chunks: seq<nat>) {
    forall k :: 0 <= k < |chunks| ==> FirstOf(cfg, chunks[k]) < cfg.frames
  }

  /** The rest of the prefetch loop from step `k` on. */
  function PrefetchFrom(cfg: Config, st: State, window: seq<nat>, k: nat): State
    requires Within(cfg, window)
    decreases |window| - k
  {
    if k >= |window| || st.inflight >= 2 then st
    else PrefetchFrom(cfg, PrefetchOne(cfg, st, window[k]), window, k + 1)
  }

  function PrefetchOne(cfg: Config, st: State, c: nat): State
    requires FirstOf(cfg, c) < cfg.frames
  {
    if FirstOf(cfg, c) in st.images then st else Fetch(cfg, st, c)
  }

  function Prefetch(cfg: Config, st: State, n: nat): State {
    if st.running then PrefetchFrom(cfg, st, Window(cfg, n), 1) else st
  }

  function Keep(cfg: Config, st: State, cur: nat): set<nat> {
    {ChunkOf(cfg, Max(0, st.shownIdx))} + set k: nat | k <= cfg.prefetch :: WindowChunk(cfg, cur, k)
  }

  function Evict(cfg: Config, st: State, cur: nat): State {
    st.(images := map i | i in st.images && ChunkOf(cfg, i) in Keep(cfg, st, cur) :: st.images[i])
  }

  /* ---------------------------------------------------------------- the events */

  /** `show(n)` up to its wait. */
  function Show(cfg: Config, st: State, n: nat): State {
    var at := Frame(cfg, st, Wrap(cfg, n));
    at.(showing := at.showing + [Showing(n, at.images[Wrap(cfg, n)], at.opening)])
  }

  /** The rest of `show`, once its frame came (`loaded`) or did not. */
  function Resume(cfg: Config, st: State, k: nat, loaded: bool): State
    requires k < |st.showing|
  {
    var n := st.showing[k].n;
    var rest := st.(showing := st.showing[..k] + st.showing[k + 1..]);
    if !loaded || !st.running || n <= st.shownN then rest
    else rest.(shownN := n, shownIdx := Wrap(cfg, n))
  }

  /** `tick`: the clock reads `now` at first and `later` when it prefetches. */
  function Tick(cfg: Config, st: State, now: nat, later: nat): State {
    if !st.running then st
    else
      var due := if now != st.due then Show(cfg, st.(due := now), now) else st;
      Prefetch(cfg, Evict(cfg, due, Wrap(cfg, now)), later).(clock := later)
  }

  /** One frame of the warm-up is asked for. */
  function WarmOne(cfg: Config, st: State, i: nat): State
    requires i < cfg.frames
  {
    var at := Frame(cfg, st, i);
    at.(awaited := at.awaited + {at.images[i]})
  }

  /** The warm-up: the first two chunks, or all frames if there are fewer, are asked for one by one. */
  function WarmFrom(cfg: Config, st: State, i: nat): State
    requires i <= Min(cfg.frames, 2 * cfg.chunk)
    decreases 2 * cfg.chunk - i
  {
    if i == Min(cfg.frames, 2 * cfg.chunk) then st
    else WarmFrom(cfg, WarmOne(cfg, st, i), i + 1)
  }

  function Begin(cfg: Config, st: State): State {
    WarmFrom(cfg, st.(starting := true, awaited := {}), 0)
  }

  function Started(cfg: Config, st: State, loaded: bool, now: nat, later: nat): State {
    if !loaded then st.(starting := false)
    else Tick(cfg, Restarted(st), now, later)
  }

  function Restarted(st: State): State {
    st.(starting := false, running := true, opening := st.opening + 1, clock := 0, due := 0, shownN := 0, shownIdx := 0)
  }

  function StopCamera(st: State): State {
    st.(running := false, images := map[], due := -1, shownN := -1, shownIdx := -1)
  }

  function StopTrack(st: State, t: nat): State {
    var left := st.(tracks := st.tracks - {t});
    if t in st.tracks && left.tracks == {} then StopCamera(left) else left
  }

  function Arrive(cfg: Config, st: State, r: nat, now: nat): State {
    var less := st.(outstanding := st.outstanding - {r}, inflight := st.inflight - 1);
    Prefetch(cfg, less, now).(clock := if st.running then now else st.clock)
  }

  /**
   * What can happen next, in any order: a page asks for the camera, the warm-up ends, a track is handed out (by an
   * opening or a clone) or stopped, the timer fires, a chunk arrives, a waiting `show` goes on.
   */
  datatype Event =
    | Opens
    | WarmedUp(loaded: bool, now: nat, later: nat)
    | TrackOpens(t: nat)
    | TrackStops(t: nat)
    | Ticks(now: nat, later: nat)
    | Arrives(r: nat, now: nat)
    | Resumes(k: nat, loaded: bool)

  predicate Enabled(st: State, e: Event) {
    match e
    case Opens => true
    case WarmedUp(_, now, later) => st.starting && st.awaited !! st.outstanding && now <= later
    case TrackOpens(_) => true
    case TrackStops(_) => true
    case Ticks(now, later) => st.clock <= now <= later
    case Arrives(r, now) => r in st.outstanding && st.clock <= now
    case Resumes(k, loaded) => k < |st.showing| && (loaded ==> st.showing[k].request !in st.outstanding)
  }

  function Step(cfg: Config, st: State, e: Event): State
    requires Enabled(st, e)
  {
    match e
    case Opens => if st.running || st.starting then st else Begin(cfg, st)
    case WarmedUp(loaded, now, later) => Started(cfg, st, loaded, now, later)
    case TrackOpens(t) => st.(tracks := st.tracks + {t})
    case TrackStops(t) => StopTrack(st, t)
    case Ticks(now, later) => Tick(cfg, st, now, later)
    case Arrives(r, now) => Arrive(cfg, st, r, now)
    case Resumes(k, loaded) => Resume(cfg, st, k, loaded)
  }

  /** An event that cannot happen is skipped, so that every list of events is a run. */
  function Run(cfg: Config, st: State, events: seq<Event>): State
    decreases |events|
  {
    if events == [] then st
    else Run(cfg, if Enabled(st, events[0]) then Step(cfg, st, events[0]) else st, events[1..])
  }

  lemma NoneGiven(images: map<nat, nat>, first: nat, v: nat)
    ensures images + Given(first, 0, v) == images
  {
  }

  lemma SpanGrows(images: map<nat, nat>, first: nat, k: nat, v: nat)
    ensures (images + Given(first, k, v))[first + k := v] == images + Given(first, k + 1, v)
  {
  }

  /* ---------------------------------------------------------------- the device */

  /** The shim's device record, changed in place by every callback. */
  class Device {
    const cfg: Config
    var running: bool
    var starting: bool
    var awaited: set<nat>
    var images: map<nat, nat>
    var inflight: int
    var due: int
    var shownN: int
    var shownIdx: int
    var clock: nat
    var tracks: set<nat>
    var next: nat
    var outstanding: set<nat>
    var showing: seq<Showing>
    var opening: nat

    function Value(): State
      reads this
    {
      State(running, starting, awaited, images, inflight, due, shownN, shownIdx, clock, tracks, next, outstanding,
            showing, opening)
    }

    constructor (cfg: Config)
      ensures Value() == START && this.cfg == cfg
    {
      this.cfg := cfg;
      running, starting, awaited, images, inflight := false, false, {}, map[], 0;
      due, shownN, shownIdx, clock, tracks := -1, -1, -1, 0, {};
      next, outstanding, showing, opening := 0, {}, [], 0;
    }

    method FetchChunk(c: nat)
      requires FirstOf(cfg, c) < cfg.frames
      modifies this
      ensures Value() == Fetch(cfg, old(Value()), c)
    {
      var first := FirstOf(cfg, c);
      var count := Min(cfg.chunk, cfg.frames - first);
      PutPromises(first, count);
      inflight := inflight + 1;
      outstanding := outstanding + {next};
      next := next + 1;
    }

    method PutPromises(first: nat, count: nat)
      modifies this`images
      ensures images == old(images) + Given(first, count, next)
    {
      NoneGiven(images, first, next);
      var k := 0;
      while k < count
        invariant 0 <= k <= count
        invariant images == old(images) + Given(first, k, next)
      {
        SpanGrows(old(images), first, k, next);
        images := images[first + k := next];
        k := k + 1;
      }
    }

    /** The promise of frame `i`. */
    method FrameOf(i: nat) returns (request: nat)
      requires i < cfg.frames
      modifies this
      ensures Value() == Frame(cfg, old(Value()), i) && i in images && request == images[i]
    {
      if i !in images {
        ChunkRange(cfg, i, ChunkOf(cfg, i));
        FetchChunk(ChunkOf(cfg, i));
      }
      request := images[i];
    }

    method PrefetchNext(n: nat)
      modifies this
      ensures Value() == Prefetch(cfg, old(Value()), n)
    {
      if !running { return; }
      ghost var window := Window(cfg, n);
      var k := 1;
      while k <= cfg.prefetch && inflight < 2
        invariant 1 <= k <= cfg.prefetch + 1
        invariant PrefetchFrom(cfg, Value(), window, k) == PrefetchFrom(cfg, old(Value()), window, 1)
      {
        var c := WindowChunk(cfg, n, k);
        if FirstOf(cfg, c) !in images { FetchChunk(c); }
        k := k + 1;
      }
    }

    method EvictOutside(cur: nat)
      modifies this`images
      ensures Value() == Evict(cfg, old(Value()), cur)
    {
      var keep := Keep(cfg, Value(), cur);
      ghost var before := images;
      var todo := images.Keys;
      while todo != {}
        invariant todo <= before.Keys
        invariant images == map i | i in before && (i in todo || ChunkOf(cfg, i) in keep) :: before[i]
        decreases todo
      {
        var i :| i in todo;
        todo := todo - {i};
        if ChunkOf(cfg, i) !in keep { images := images - {i}; }
      }
    }

    /** The synchronous part of `show`: it ends waiting for the frame. */
    method BeginShow(n: nat)
      modifies this
      ensures Value() == Show(cfg, old(Value()), n)
    {
      var request := FrameOf(Wrap(cfg, n));
      showing := showing + [Showing(n, request, opening)];
    }

    /** The rest of `show`, when the frame came or failed. */
    method EndShow(k: nat, loaded: bool)
      requires k < |showing|
      modifies this
      ensures Value() == Resume(cfg, old(Value()), k, loaded)
    {
      var n := showing[k].n;
      showing := showing[..k] + showing[k + 1..];
      if !loaded || !running || n <= shownN { return; }
      shownN := n;
      shownIdx := Wrap(cfg, n);
    }

    method OnTick(now: nat, later: nat)
      modifies this
      ensures Value() == Tick(cfg, old(Value()), now, later)
    {
      if !running { return; }
      if now != due {
        due := now;
        BeginShow(now);
      }
      EvictOutside(Wrap(cfg, now));
      PrefetchNext(later);
      clock := later;
    }

    /** `start` up to its wait for the warm-up frames. */
    method BeginStart()
      modifies this
      ensures Value() == Begin(cfg, old(Value()))
    {
      starting, awaited := true, {};
      var warm := Min(cfg.frames, 2 * cfg.chunk);
      var i := 0;
      while i < warm
        invariant 0 <= i <= warm
        invariant WarmFrom(cfg, Value(), i) == Begin(cfg, old(Value()))
      {
        var request := FrameOf(i);
        awaited := awaited + {request};
        i := i + 1;
      }
    }

    method EndStart(loaded: bool, now: nat, later: nat)
      modifies this
      ensures Value() == Started(cfg, old(Value()), loaded, now, later)
    {
      starting := false;
      if !loaded { return; }
      opening := opening + 1;
      clock := 0;
      running := true;
      due, shownN, shownIdx := 0, 0, 0;
      assert Value() == Restarted(old(Value()));
      OnTick(now, later);
    }

    method Stop(t: nat)
      modifies this
      ensures Value() == StopTrack(old(Value()), t)
    {
      var mine := t in tracks;
      tracks := tracks - {t};
      if mine && tracks == {} {
        running := false;
        images := map[];
        due, shownN, shownIdx := -1, -1, -1;
      }
    }

    method ChunkArrives(r: nat, now: nat)
      modifies this
      ensures Value() == Arrive(cfg, old(Value()), r, now)
    {
      outstanding := outstanding - {r};
      inflight := inflight - 1;
      var ticking := running;
      PrefetchNext(now);
      if ticking { clock := now; }
    }
  }

  /* ---------------------------------------------------------------- the invariant */

  ghost predicate Tables(cfg: Config, st: State) {
    && Whole(cfg, st.images)
    && st.inflight == |st.outstanding|
    && (forall r :: r in st.outstanding ==> r < st.next)
    && (forall i :: i in st.images ==> st.images[i] < st.next)
  }

  predicate Canvas(cfg: Config, st: State) {
    && (st.starting ==> !st.running)
    && if st.running then st.shownN >= 0 && st.shownIdx == Wrap(cfg, st.shownN) && 0 <= st.due <= st.clock
       else st.shownN == st.shownIdx == st.due == -1
  }

  /** A `show` of the current opening is for a frame that was due. */
  predicate Shows(st: State) {
    forall k :: 0 <= k < |st.showing| ==>
      && st.showing[k].opening <= st.opening
      && (st.running && st.showing[k].opening == st.opening ==> st.showing[k].n <= st.due)
  }

  ghost predicate Inv(cfg: Config, st: State) {
    Tables(cfg, st) && Canvas(cfg, st) && Shows(st)
  }

  /** All of `a` but the tables of images and requests. */
  predicate SameBut(a: State, b: State) {
    b == a.(images := b.images, inflight := b.inflight, next := b.next, outstanding := b.outstanding)
  }

  /** Nothing loaded is replaced. */
  predicate Grows(a: State, b: State) {
    forall i :: i in a.images ==> i in b.images && b.images[i] == a.images[i]
  }

  lemma FetchKeeps(cfg: Config, st: State, c: nat)
    requires FirstOf(cfg, c) < cfg.frames && Tables(cfg, st) && FirstOf(cfg, c) !in st.images
    ensures Tables(cfg, Fetch(cfg, st, c)) && SameBut(st, Fetch(cfg, st, c)) && Grows(st, Fetch(cfg, st, c))
    ensures Fetch(cfg, st, c).inflight == st.inflight + 1
  {
    var r := Fetch(cfg, st, c);
    FetchMeans(cfg, st, c);
    forall i: nat, j: nat | SameChunk(cfg, i, j) && i in r.images && j < cfg.frames
      ensures j in r.images && r.images[j] == r.images[i]
    {
      if ChunkOf(cfg, j) != c { assert i in st.images && j in st.images; }
    }
  }

  /** A chunk whose first frame is missing is missing as a whole, and all its frames come from the new request. */
  lemma FetchMeans(cfg: Config, st: State, c: nat)
    requires FirstOf(cfg, c) < cfg.frames && Tables(cfg, st) && FirstOf(cfg, c) !in st.images
    ensures var r := Fetch(cfg, st, c); forall i: nat ::
      && (i in r.images <==> i in st.images || (i < cfg.frames && ChunkOf(cfg, i) == c))
      && (i < cfg.frames && ChunkOf(cfg, i) == c ==> i !in st.images && r.images[i] == st.next)
      && (i in st.images ==> r.images[i] == st.images[i])
  {
    var r := Fetch(cfg, st, c);
    var first := FirstOf(cfg, c);
    ChunkRange(cfg, first, c);
    forall i: nat ensures
      && (i in r.images <==> i in st.images || (i < cfg.frames && ChunkOf(cfg, i) == c))
      && (i < cfg.frames && ChunkOf(cfg, i) == c ==> i !in st.images && r.images[i] == st.next)
      && (i in st.images ==> r.images[i] == st.images[i])
    {
      ChunkRange(cfg, i, c);
      assert SameChunk(cfg, i, first) == (ChunkOf(cfg, i) == c);
    }
  }

  /** Testing a chunk's first frame tells about all its frames. */
  lemma FirstIndexIsEnough(cfg: Config, st: State, i: nat)
    requires Tables(cfg, st) && i < cfg.frames
    ensures (i in st.images) <==> FirstOf(cfg, ChunkOf(cfg, i)) in st.images
  {
    var first := FirstOf(cfg, ChunkOf(cfg, i));
    ChunkRange(cfg, i, ChunkOf(cfg, i));
    ChunkRange(cfg, first, ChunkOf(cfg, i));
    assert SameChunk(cfg, i, first) && SameChunk(cfg, first, i);
  }

  lemma FrameKeeps(cfg: Config, st: State, i: nat)
    requires i < cfg.frames && Tables(cfg, st)
    ensures Tables(cfg, Frame(cfg, st, i)) && SameBut(st, Frame(cfg, st, i)) && Grows(st, Frame(cfg, st, i))
  {
    if i !in st.images {
      ChunkRange(cfg, i, ChunkOf(cfg, i));
      FirstIndexIsEnough(cfg, st, i);
      FetchKeeps(cfg, st, ChunkOf(cfg, i));
    }
  }

  lemma PrefetchOneKeeps(cfg: Config, st: State, c: nat)
    requires Tables(cfg, st) && FirstOf(cfg, c) < cfg.frames
    ensures var r := PrefetchOne(cfg, st, c);
      && Tables(cfg, r) && SameBut(st, r) && Grows(st, r)
      && st.inflight <= r.inflight <= st.inflight + 1 && FirstOf(cfg, c) in r.images
  {
    if FirstOf(cfg, c) !in st.images { FetchKeeps(cfg, st, c); }
  }

  /** The tables stay sound, nothing loaded is replaced and nothing else changes. */
  ghost predicate Extends(cfg: Config, a: State, b: State) {
    Tables(cfg, b) && SameBut(a, b) && Grows(a, b)
  }

  lemma ExtendsOn(cfg: Config, a: State, b: State, c: State)
    requires Extends(cfg, a, b) && Extends(cfg, b, c)
    ensures Extends(cfg, a, c)
  {
  }

  lemma OneExtends(cfg: Config, st: State, c: nat)
    requires Tables(cfg, st) && FirstOf(cfg, c) < cfg.frames
    ensures Tables(cfg, PrefetchOne(cfg, st, c)) && Extends(cfg, st, PrefetchOne(cfg, st, c))
  {
    PrefetchOneKeeps(cfg, st, c);
  }

  lemma ExtendsSelf(cfg: Config, st: State)
    requires Tables(cfg, st)
    ensures Extends(cfg, st, st)
  {
  }

  lemma {:induction false} PrefetchExtends(cfg: Config, st: State, window: seq<nat>, k: nat)
    requires Tables(cfg, st) && Within(cfg, window)
    ensures Extends(cfg, st, PrefetchFrom(cfg, st, window, k))
    decreases |window| - k
  {
    if k < |window| && st.inflight < 2 {
      var mid := PrefetchOne(cfg, st, window[k]);
      OneExtends(cfg, st, window[k]);
      PrefetchExtends(cfg, mid, window, k + 1);
      ExtendsOn(cfg, st, mid, PrefetchFrom(cfg, mid, window, k + 1));
    } else {
      ExtendsSelf(cfg, st);
    }
  }

  /** Prefetching never has more than two requests in flight on its own account. */
  lemma {:induction false} PrefetchBounded(cfg: Config, st: State, window: seq<nat>, k: nat)
    requires Within(cfg, window)
    ensures st.inflight <= PrefetchFrom(cfg, st, window, k).inflight <= Max(2, st.inflight)
    decreases |window| - k
  {
    if k < |window| && st.inflight < 2 {
      PrefetchBounded(cfg, PrefetchOne(cfg, st, window[k]), window, k + 1);
    }
  }

  predicate Loaded(cfg: Config, st: State, c: nat) {
    FirstOf(cfg, c) in st.images
  }

  /** It stops short of the next chunks only when two requests are in flight. */
  lemma {:induction false} PrefetchFills(cfg: Config, st: State, window: seq<nat>, k: nat, j: nat)
    requires Tables(cfg, st) && Within(cfg, window) && PrefetchFrom(cfg, st, window, k).inflight < 2
      && k <= j < |window|
    ensures Loaded(cfg, PrefetchFrom(cfg, st, window, k), window[j])
    decreases |window| - k
  {
    var mid := PrefetchOne(cfg, st, window[k]);
    PrefetchBounded(cfg, st, window, k);
    OneExtends(cfg, st, window[k]);
    if j == k {
      PrefetchExtends(cfg, mid, window, k + 1);
    } else {
      PrefetchFills(cfg, mid, window, k + 1, j);
    }
  }

  /** After prefetching at frame `n` each of the next frames is loaded, or two requests are in flight. */
  lemma NextFramesAreLoaded(cfg: Config, st: State, n: nat, k: nat)
    requires Tables(cfg, st) && st.running && 1 <= k <= cfg.prefetch
    ensures var r := Prefetch(cfg, st, n); r.inflight >= 2 || Wrap(cfg, n + k) in r.images
  {
    var r := Prefetch(cfg, st, n);
    if r.inflight < 2 {
      PrefetchExtends(cfg, st, Window(cfg, n), 1);
      PrefetchFills(cfg, st, Window(cfg, n), 1, k);
      FirstIndexIsEnough(cfg, r, Wrap(cfg, n + k));
    }
  }

  /** Eviction drops exactly the chunks outside the window; the frame on the canvas stays. */
  lemma EvictKeeps(cfg: Config, st: State, cur: nat)
    requires Tables(cfg, st) && st.shownIdx < cfg.frames
    ensures var r := Evict(cfg, st, cur);
      && Tables(cfg, r) && SameBut(st, r)
      && (forall i :: i in r.images <==> i in st.images && ChunkOf(cfg, i) in Keep(cfg, st, cur))
      && (st.shownIdx >= 0 && st.shownIdx in st.images ==> st.shownIdx in r.images)
  {
    var r := Evict(cfg, st, cur);
    forall i: nat, j: nat | SameChunk(cfg, i, j) && i in r.images && j < cfg.frames
      ensures j in r.images && r.images[j] == r.images[i]
    {
    }
  }

  /** The frame due now and the next ones survive eviction if they were loaded. */
  lemma WindowStays(cfg: Config, st: State, cur: nat, k: nat)
    requires Tables(cfg, st) && k <= cfg.prefetch && Wrap(cfg, cur + k) in st.images
    ensures Wrap(cfg, cur + k) in Evict(cfg, st, cur).images
  {
    assert WindowChunk(cfg, cur, k) in Keep(cfg, st, cur);
  }

  lemma PrefetchingKeeps(cfg: Config, st: State, n: nat)
    requires Tables(cfg, st)
    ensures Extends(cfg, st, Prefetch(cfg, st, n))
  {
    if st.running { PrefetchExtends(cfg, st, Window(cfg, n), 1); }
  }

  lemma ShowKeeps(cfg: Config, st: State, n: nat)
    requires Tables(cfg, st)
    ensures var r := Show(cfg, st, n);
      && Tables(cfg, r) && Grows(st, r)
      && SameBut(st.(showing := r.showing), r)
      && (exists request :: r.showing == st.showing + [Showing(n, request, st.opening)])
  {
    FrameKeeps(cfg, st, Wrap(cfg, n));
    var at := Frame(cfg, st, Wrap(cfg, n));
    assert Show(cfg, st, n).showing == st.showing + [Showing(n, at.images[Wrap(cfg, n)], st.opening)];
  }

  ghost predicate Warms(cfg: Config, a: State, b: State) {
    Tables(cfg, b) && Grows(a, b) && SameBut(a.(awaited := b.awaited), b)
  }

  lemma WarmFrameKeeps(cfg: Config, st: State, i: nat)
    requires i < cfg.frames && Tables(cfg, st)
    ensures Warms(cfg, st, WarmOne(cfg, st, i))
  {
    FrameKeeps(cfg, st, i);
  }

  lemma WarmsSelf(cfg: Config, st: State)
    requires Tables(cfg, st)
    ensures Warms(cfg, st, st)
  {
  }

  lemma WarmsOn(cfg: Config, a: State, b: State, c: State)
    requires Warms(cfg, a, b) && Warms(cfg, b, c)
    ensures Warms(cfg, a, c)
  {
  }

  lemma {:induction false} WarmUpKeeps(cfg: Config, st: State, i: nat)
    requires Tables(cfg, st) && i <= Min(cfg.frames, 2 * cfg.chunk)
    ensures Warms(cfg, st, WarmFrom(cfg, st, i))
    decreases 2 * cfg.chunk - i
  {
    if i < Min(cfg.frames, 2 * cfg.chunk) {
      var next := WarmOne(cfg, st, i);
      WarmFrameKeeps(cfg, st, i);
      WarmUpKeeps(cfg, next, i + 1);
      WarmsOn(cfg, st, next, WarmFrom(cfg, next, i + 1));
    } else {
      WarmsSelf(cfg, st);
    }
  }

  /** What a tick leaves besides the tables. */
  lemma TickMeans(cfg: Config, st: State, now: nat, later: nat)
    requires Inv(cfg, st) && st.running && st.clock <= now <= later
    ensures var r := Tick(cfg, st, now, later);
      && Tables(cfg, r) && r.running && !r.starting && r.due == now && r.clock == later
      && r.shownN == st.shownN && r.shownIdx == st.shownIdx && r.opening == st.opening && r.tracks == st.tracks
      && (r.showing == st.showing
          || exists request :: r.showing == st.showing + [Showing(now, request, st.opening)])
  {
    var due := if now != st.due then Show(cfg, st.(due := now), now) else st;
    if now != st.due { ShowKeeps(cfg, st.(due := now), now); }
    var less := Evict(cfg, due, Wrap(cfg, now));
    EvictKeeps(cfg, due, Wrap(cfg, now));
    PrefetchingKeeps(cfg, less, later);
  }

  lemma TickKeeps(cfg: Config, st: State, now: nat, later: nat)
    requires Inv(cfg, st) && (st.running ==> st.clock <= now <= later)
    ensures Inv(cfg, Tick(cfg, st, now, later))
  {
    if st.running {
      TickMeans(cfg, st, now, later);
      ShowsAfter(st, Tick(cfg, st, now, later), now);
    }
  }

  lemma ShowsAfter(st: State, r: State, now: nat)
    requires Shows(st) && r.opening == st.opening && st.running && r.running && st.due <= now == r.due
    requires r.showing == st.showing || exists request :: r.showing == st.showing + [Showing(now, request, st.opening)]
    ensures Shows(r)
  {
  }

  lemma ArriveKeeps(cfg: Config, st: State, r: nat, now: nat)
    requires Inv(cfg, st) && r in st.outstanding && st.clock <= now
    ensures Inv(cfg, Arrive(cfg, st, r, now))
  {
    var less := st.(outstanding := st.outstanding - {r}, inflight := st.inflight - 1);
    PrefetchingKeeps(cfg, less, now);
  }

  lemma OpenKeeps(cfg: Config, st: State)
    requires Inv(cfg, st) && !st.running
    ensures Inv(cfg, Begin(cfg, st))
  {
    WarmUpKeeps(cfg, st.(starting := true, awaited := {}), 0);
  }

  lemma StartedKeeps(cfg: Config, st: State, loaded: bool, now: nat, later: nat)
    requires Inv(cfg, st) && st.starting && now <= later
    ensures Inv(cfg, Started(cfg, st, loaded, now, later))
  {
    if loaded {
      assert Shows(Restarted(st));
      TickKeeps(cfg, Restarted(st), now, later);
    }
  }

  lemma ResumeKeeps(cfg: Config, st: State, k: nat, loaded: bool)
    requires Inv(cfg, st) && k < |st.showing|
    ensures Inv(cfg, Resume(cfg, st, k, loaded))
  {
    var r := Resume(cfg, st, k, loaded);
    assert forall j :: 0 <= j < |r.showing| ==> r.showing[j] == st.showing[if j < k then j else j + 1];
  }

  lemma StepKeeps(cfg: Config, st: State, e: Event)
    requires Inv(cfg, st) && Enabled(st, e)
    ensures Inv(cfg, Step(cfg, st, e))
  {
    match e
    case Opens => if !st.running { OpenKeeps(cfg, st); }
    case WarmedUp(loaded, now, later) => StartedKeeps(cfg, st, loaded, now, later);
    case TrackOpens(t) =>
    case TrackStops(t) =>
    case Ticks(now, later) => TickKeeps(cfg, st, now, later);
    case Arrives(r, now) => ArriveKeeps(cfg, st, r, now);
    case Resumes(k, loaded) => ResumeKeeps(cfg, st, k, loaded);
  }

  /**
   * Whatever happens in whatever order, whole chunks are loaded, `inflight` counts the requests and the canvas agrees.
   */
  lemma {:induction false} EveryRunKeeps(cfg: Config, st: State, events: seq<Event>)
    requires Inv(cfg, st)
    ensures Inv(cfg, Run(cfg, st, events))
    decreases |events|
  {
    if events != [] {
      if Enabled(st, events[0]) { StepKeeps(cfg, st, events[0]); }
      EveryRunKeeps(cfg, if Enabled(st, events[0]) then Step(cfg, st, events[0]) else st, events[1..]);
    }
  }

  lemma ReachableIsSound(cfg: Config, events: seq<Event>)
    ensures Inv(cfg, Run(cfg, START, events))
  {
    EveryRunKeeps(cfg, START, events);
  }

  /* ---------------------------------------------------------------- the canvas */

  /** While the camera runs only a resumed `show` of a later frame changes the canvas, and only forwards. */
  lemma CanvasOnlyAdvances(cfg: Config, st: State, e: Event)
    requires Inv(cfg, st) && Enabled(st, e) && st.running && Step(cfg, st, e).running
    ensures var r := Step(cfg, st, e);
      && r.opening == st.opening
      && (r.shownN == st.shownN
          || (e.Resumes? && e.loaded && r.shownN == st.showing[e.k].n > st.shownN))
      && r.shownIdx == Wrap(cfg, r.shownN)
  {
    StepKeeps(cfg, st, e);
    match e
    case Ticks(now, later) => TickMeans(cfg, st, now, later);
    case Arrives(r, now) => PrefetchingKeeps(cfg,
      st.(outstanding := st.outstanding - {r}, inflight := st.inflight - 1), now);
    case Resumes(k, loaded) =>
    case _ =>
  }

  /** A `show` whose frame came puts it on the canvas unless a later one is there; a failed one does nothing. */
  lemma ResumeShows(cfg: Config, st: State, k: nat, loaded: bool)
    requires Inv(cfg, st) && st.running && k < |st.showing|
    ensures var r := Resume(cfg, st, k, loaded);
      && r.shownN == (if loaded then Max(st.shownN, st.showing[k].n) else st.shownN)
      && r.shownIdx == Wrap(cfg, r.shownN)
      && r == st.(showing := st.showing[..k] + st.showing[k + 1..], shownN := r.shownN, shownIdx := r.shownIdx)
  {
  }

  /** A tick for a new frame waits for it: its promise is in the table, and a `show` for it is under way. */
  lemma TickShowsDueFrame(cfg: Config, st: State, now: nat, later: nat)
    requires Inv(cfg, st) && st.running && st.clock <= now <= later
    ensures var r := Tick(cfg, st, now, later);
      if now == st.due then r.showing == st.showing
      else Wrap(cfg, now) in r.images
           && r.showing == st.showing + [Showing(now, r.images[Wrap(cfg, now)], st.opening)]
  {
    if now != st.due {
      var shown := Show(cfg, st.(due := now), now);
      ShowKeeps(cfg, st.(due := now), now);
      var less := Evict(cfg, shown, Wrap(cfg, now));
      EvictKeeps(cfg, shown, Wrap(cfg, now));
      WrapTwice(cfg, now);
      WindowStays(cfg, shown, Wrap(cfg, now), 0);
      PrefetchingKeeps(cfg, less, later);
    } else {
      var less := Evict(cfg, st, Wrap(cfg, now));
      EvictKeeps(cfg, st, Wrap(cfg, now));
      PrefetchingKeeps(cfg, less, later);
    }
  }

  lemma WrapTwice(cfg: Config, n: nat)
    ensures Wrap(cfg, Wrap(cfg, n) + 0) == Wrap(cfg, n)
  {
  }

  /** After a tick, as after an answer, each of the next frames is loaded or two requests are in flight. */
  lemma TickLoadsAhead(cfg: Config, st: State, now: nat, later: nat, k: nat)
    requires Inv(cfg, st) && st.running && st.clock <= now <= later && 1 <= k <= cfg.prefetch
    ensures var r := Tick(cfg, st, now, later); r.inflight >= 2 || Wrap(cfg, later + k) in r.images
  {
    var due := if now != st.due then Show(cfg, st.(due := now), now) else st;
    if now != st.due { ShowKeeps(cfg, st.(due := now), now); }
    EvictKeeps(cfg, due, Wrap(cfg, now));
    NextFramesAreLoaded(cfg, Evict(cfg, due, Wrap(cfg, now)), later, k);
  }

  lemma AnswerLoadsAhead(cfg: Config, st: State, r: nat, now: nat, k: nat)
    requires Inv(cfg, st) && st.running && r in st.outstanding && st.clock <= now && 1 <= k <= cfg.prefetch
    ensures var next := Arrive(cfg, st, r, now); next.inflight >= 2 || Wrap(cfg, now + k) in next.images
  {
    NextFramesAreLoaded(cfg, st.(outstanding := st.outstanding - {r}, inflight := st.inflight - 1), now, k);
  }

  /** The warm-up waits for the first two chunks, or for all frames if there are fewer. */
  lemma WarmUpWaits(cfg: Config, st: State, i: nat)
    requires Tables(cfg, st) && i < Min(cfg.frames, 2 * cfg.chunk)
    ensures var r := Begin(cfg, st); r.starting && i in r.images && r.images[i] in r.awaited
  {
    WarmUpKeeps(cfg, st.(starting := true, awaited := {}), 0);
    WarmFrameWaits(cfg, st.(starting := true, awaited := {}), 0, i);
  }

  lemma {:induction false} NothingAsked(cfg: Config, st: State, i: nat)
    requires i <= Min(cfg.frames, 2 * cfg.chunk)
    requires forall k: nat :: k < Min(cfg.frames, 2 * cfg.chunk) ==> k in st.images
    ensures WarmFrom(cfg, st, i) == st.(awaited := WarmFrom(cfg, st, i).awaited)
    ensures forall r :: r in WarmFrom(cfg, st, i).awaited ==> r in st.awaited || r in st.images.Values
    decreases 2 * cfg.chunk - i
  {
    if i < Min(cfg.frames, 2 * cfg.chunk) { NothingAsked(cfg, WarmOne(cfg, st, i), i + 1); }
  }

  /**
   * A warm-up that failed is not repaired: the frames it asked for stay in the table, so the next opening asks for
   * nothing and waits for the same answers.
   */
  lemma FailedWarmUpIsNotRetried(cfg: Config, st: State, now: nat, later: nat)
    requires Enabled(st, WarmedUp(false, now, later)) && !st.running
    requires forall k: nat :: k < Min(cfg.frames, 2 * cfg.chunk) ==> k in st.images
    ensures var r := Step(cfg, Step(cfg, st, WarmedUp(false, now, later)), Opens);
      && r == st.(awaited := r.awaited) && forall a :: a in r.awaited ==> a in st.images.Values
  {
    NothingAsked(cfg, st.(starting := true, awaited := {}), 0);
  }

  lemma {:induction false} AwaitedGrows(cfg: Config, st: State, i: nat)
    requires i <= Min(cfg.frames, 2 * cfg.chunk)
    ensures st.awaited <= WarmFrom(cfg, st, i).awaited
    decreases 2 * cfg.chunk - i
  {
    if i < Min(cfg.frames, 2 * cfg.chunk) { AwaitedGrows(cfg, WarmOne(cfg, st, i), i + 1); }
  }

  lemma {:induction false} WarmFrameWaits(cfg: Config, st: State, from: nat, i: nat)
    requires Tables(cfg, st) && from <= i < Min(cfg.frames, 2 * cfg.chunk)
    ensures var r := WarmFrom(cfg, st, from); i in r.images && r.images[i] in r.awaited
    decreases i - from
  {
    var next := WarmOne(cfg, st, from);
    WarmFrameKeeps(cfg, st, from);
    if from < i {
      WarmFrameWaits(cfg, next, from + 1, i);
    } else {
      WarmUpKeeps(cfg, next, from + 1);
      AwaitedGrows(cfg, next, from + 1);
    }
  }

  predicate OnTime(st: State) {
    st.shownN <= st.due
  }

  lemma StartedMeans(cfg: Config, st: State, now: nat, later: nat)
    requires Inv(cfg, st) && st.starting && now <= later
    ensures var r := Started(cfg, st, true, now, later); r.running && r.shownN == 0 && r.due == now && r.clock == later
  {
    assert Shows(Restarted(st));
    TickMeans(cfg, Restarted(st), now, later);
  }

  lemma OpenMeans(cfg: Config, st: State)
    requires Inv(cfg, st)
    ensures Begin(cfg, st).due == st.due && Begin(cfg, st).shownN == st.shownN
  {
    WarmUpKeeps(cfg, st.(starting := true, awaited := {}), 0);
  }

  /**
   * The canvas gets ahead of the clock exactly when a `show` left over from an earlier opening, for a frame not yet due
   * in this one, gets its image: nothing tells it that the camera was stopped in between.
   */
  lemma AheadIffLeftOver(cfg: Config, st: State, e: Event)
    requires Inv(cfg, st) && Enabled(st, e) && OnTime(st)
    ensures !OnTime(Step(cfg, st, e))
      <==> (st.running && e.Resumes? && e.loaded && st.showing[e.k].n > st.due)
    ensures !OnTime(Step(cfg, st, e)) ==> st.showing[e.k].opening < st.opening
  {
    StepKeeps(cfg, st, e);
    match e
    case WarmedUp(loaded, now, later) => if loaded { StartedMeans(cfg, st, now, later); }
    case Ticks(now, later) => if st.running { TickMeans(cfg, st, now, later); }
    case Arrives(r, now) => PrefetchingKeeps(cfg,
      st.(outstanding := st.outstanding - {r}, inflight := st.inflight - 1), now);
    case Opens => if !st.running && !st.starting { OpenMeans(cfg, st); }
    case _ =>
  }

  function Next(cfg: Config, st: State, e: Event): State {
    if Enabled(st, e) then Step(cfg, st, e) else st
  }

  /** No event of the run turns the camera off: a track may stop as long as another one is left. */
  predicate StaysOn(cfg: Config, st: State, events: seq<Event>)
    decreases |events|
  {
    st.running && (events == [] || StaysOn(cfg, Next(cfg, st, events[0]), events[1..]))
  }

  /** The shows that go on in a run belong to its opening. */
  predicate Undisturbed(cfg: Config, st: State, events: seq<Event>)
    decreases |events|
  {
    events == [] ||
      var e := events[0];
      && (Enabled(st, e) && e.Resumes? ==> st.showing[e.k].opening == st.opening)
      && Undisturbed(cfg, Next(cfg, st, e), events[1..])
  }

  lemma ClockGoes(cfg: Config, st: State, e: Event)
    requires Inv(cfg, st) && st.running && Enabled(st, e)
    ensures Step(cfg, st, e).clock >= st.clock
  {
    match e
    case Ticks(now, later) => TickMeans(cfg, st, now, later);
    case Arrives(r, now) => PrefetchingKeeps(cfg,
      st.(outstanding := st.outstanding - {r}, inflight := st.inflight - 1), now);
    case _ =>
  }

  lemma {:induction false} ClockGoesOn(cfg: Config, st: State, events: seq<Event>)
    requires Inv(cfg, st) && StaysOn(cfg, st, events)
    ensures Run(cfg, st, events).clock >= st.clock
    decreases |events|
  {
    if events != [] {
      var e := events[0];
      if Enabled(st, e) { StepKeeps(cfg, st, e); ClockGoes(cfg, st, e); }
      ClockGoesOn(cfg, Next(cfg, st, e), events[1..]);
    }
  }

  /** Once ahead, the canvas stands still until the clock has caught up with it. */
  lemma {:induction false} FrozenWhileAhead(cfg: Config, st: State, events: seq<Event>)
    requires Inv(cfg, st) && StaysOn(cfg, st, events) && Undisturbed(cfg, st, events)
    requires Run(cfg, st, events).clock <= st.shownN
    ensures Run(cfg, st, events).shownN == st.shownN && Run(cfg, st, events).shownIdx == st.shownIdx
    decreases |events|
  {
    if events != [] {
      var e := events[0];
      if Enabled(st, e) {
        StepKeeps(cfg, st, e);
        ClockGoes(cfg, st, e);
        CanvasOnlyAdvances(cfg, st, e);
        ClockGoesOn(cfg, Step(cfg, st, e), events[1..]);
      }
      FrozenWhileAhead(cfg, Next(cfg, st, e), events[1..]);
    }
  }

  /** Within one opening the canvas never goes back, and without a left-over show it is never early. */
  lemma {:induction false} OpeningAdvances(cfg: Config, st: State, events: seq<Event>)
    requires Inv(cfg, st) && StaysOn(cfg, st, events)
    ensures var r := Run(cfg, st, events);
      && r.running && r.opening == st.opening && st.shownN <= r.shownN
      && (OnTime(st) && Undisturbed(cfg, st, events) ==> OnTime(r))
    decreases |events|
  {
    if events != [] {
      var e := events[0];
      if Enabled(st, e) {
        StepKeeps(cfg, st, e);
        CanvasOnlyAdvances(cfg, st, e);
        if OnTime(st) { AheadIffLeftOver(cfg, st, e); }
      }
      OpeningAdvances(cfg, Next(cfg, st, e), events[1..]);
    }
  }

  /** What keeps an opening on: any event but the stop of the last track. */
  lemma StaysOnIff(cfg: Config, st: State, e: Event)
    requires Inv(cfg, st) && st.running && Enabled(st, e)
    ensures !Step(cfg, st, e).running <==> e.TrackStops? && st.tracks == {e.t}
  {
    match e
    case Ticks(now, later) => TickMeans(cfg, st, now, later);
    case Arrives(r, now) => PrefetchingKeeps(cfg,
      st.(outstanding := st.outstanding - {r}, inflight := st.inflight - 1), now);
    case TrackStops(t) =>
      if t in st.tracks && st.tracks - {t} == {} { assert st.tracks == {t}; }
      assert {t} - {t} == {};
    case _ =>
  }

  /** The frame numbers of the shows whose frames come along a run. */
  function Shown(cfg: Config, st: State, events: seq<Event>): set<int>
    decreases |events|
  {
    if events == [] then {}
    else
      var e := events[0];
      (if Enabled(st, e) && e.Resumes? && e.loaded then {st.showing[e.k].n} else {})
      + Shown(cfg, Next(cfg, st, e), events[1..])
  }

  predicate IsLargest(n: int, ns: set<int>) {
    n in ns && forall m :: m in ns ==> m <= n
  }

  /** While the camera stays on, the canvas shows the latest of the frame it had and those that came. */
  lemma {:induction false} CanvasShowsLatest(cfg: Config, st: State, events: seq<Event>)
    requires Inv(cfg, st) && StaysOn(cfg, st, events)
    ensures IsLargest(Run(cfg, st, events).shownN, {st.shownN} + Shown(cfg, st, events))
    decreases |events|
  {
    if events != [] {
      var e := events[0];
      var next := Next(cfg, st, e);
      if Enabled(st, e) { StepKeeps(cfg, st, e); }
      CanvasShowsLatest(cfg, next, events[1..]);
      if Enabled(st, e) {
        CanvasOnlyAdvances(cfg, st, e);
        if e.Resumes? { ResumeShows(cfg, st, e.k, e.loaded); }
        if e.Resumes? && e.loaded {
          LargestOfBoth(Run(cfg, st, events).shownN, st.shownN, st.showing[e.k].n, Shown(cfg, next, events[1..]));
        }
      }
    }
  }

  lemma LargestOfBoth(n: int, a: int, b: int, rest: set<int>)
    requires IsLargest(n, {Max(a, b)} + rest)
    ensures IsLargest(n, {a} + ({b} + rest))
  {
  }

  /** An opening begins with frame 0, so after it the canvas shows frame 0 or the latest that came. */
  lemma OpeningShowsLatest(cfg: Config, st: State, now: nat, later: nat, events: seq<Event>)
    requires Inv(cfg, st) && Enabled(st, WarmedUp(true, now, later))
    requires StaysOn(cfg, Step(cfg, st, WarmedUp(true, now, later)), events)
    ensures var open := Step(cfg, st, WarmedUp(true, now, later));
      IsLargest(Run(cfg, open, events).shownN, {0} + Shown(cfg, open, events))
  {
    StepKeeps(cfg, st, WarmedUp(true, now, later));
    StartedMeans(cfg, st, now, later);
    CanvasShowsLatest(cfg, Step(cfg, st, WarmedUp(true, now, later)), events);
  }

  /* ---------------------------------------------------------------- a run that does get ahead */

  /** New requests come on top of those that are out. */
  predicate Asks(a: State, b: State) {
    && a.next <= b.next && a.outstanding <= b.outstanding
    && forall r :: r in b.outstanding ==> r in a.outstanding || a.next <= r < b.next
  }

  lemma {:induction false} PrefetchAsks(cfg: Config, st: State, window: seq<nat>, k: nat)
    requires Within(cfg, window)
    ensures Asks(st, PrefetchFrom(cfg, st, window, k))
    decreases |window| - k
  {
    if k < |window| && st.inflight < 2 { PrefetchAsks(cfg, PrefetchOne(cfg, st, window[k]), window, k + 1); }
  }

  /** The frames of the warm-up come from requests since `from`. */
  predicate Since(st: State, from: nat) {
    && from <= st.next
    && (forall i :: i in st.images ==> from <= st.images[i] < st.next)
    && forall r :: r in st.awaited ==> from <= r < st.next
  }

  lemma {:induction false} WarmAsks(cfg: Config, st: State, i: nat, from: nat)
    requires i <= Min(cfg.frames, 2 * cfg.chunk) && Since(st, from)
    ensures Asks(st, WarmFrom(cfg, st, i)) && Since(WarmFrom(cfg, st, i), from)
    decreases 2 * cfg.chunk - i
  {
    if i < Min(cfg.frames, 2 * cfg.chunk) {
      FrameAsks(cfg, st, i, from);
      WarmAsks(cfg, WarmOne(cfg, st, i), i + 1, from);
    }
  }

  lemma FrameAsks(cfg: Config, st: State, i: nat, from: nat)
    requires i < cfg.frames && Since(st, from)
    ensures Asks(st, WarmOne(cfg, st, i)) && Since(WarmOne(cfg, st, i), from)
  {
  }

  /** The requests from `a` to `b` are answered. */
  function Answers(a: nat, b: nat, now: nat): seq<Event>
    decreases b - a
  {
    if a >= b then [] else [Arrives(a, now)] + Answers(a + 1, b, now)
  }

  /** While the camera is off an answer only ends its request. */
  lemma {:induction false} Answered(cfg: Config, st: State, a: nat, b: nat, now: nat)
    requires !st.running && st.clock <= now
    ensures var r := Run(cfg, st, Answers(a, b, now));
      && r == st.(outstanding := r.outstanding, inflight := r.inflight)
      && forall q :: q in r.outstanding <==> q in st.outstanding && !(a <= q < b)
    decreases b - a
  {
    if a < b {
      var e := Arrives(a, now);
      var next := if Enabled(st, e) then Step(cfg, st, e) else st;
      assert ([e] + Answers(a + 1, b, now))[1..] == Answers(a + 1, b, now);
      Answered(cfg, next, a + 1, b, now);
    }
  }

  lemma OneStep(cfg: Config, st: State, e: Event, rest: seq<Event>)
    requires Enabled(st, e)
    ensures Run(cfg, st, [e] + rest) == Run(cfg, Step(cfg, st, e), rest)
  {
    assert ([e] + rest)[1..] == rest;
  }

  lemma LastStep(cfg: Config, st: State, e: Event)
    requires Enabled(st, e)
    ensures Run(cfg, st, [e]) == Step(cfg, st, e)
  {
    OneStep(cfg, st, e, []);
    assert [e] + [] == [e];
  }

  lemma {:induction false} RunConcat(cfg: Config, st: State, a: seq<Event>, b: seq<Event>)
    ensures Run(cfg, st, a + b) == Run(cfg, Run(cfg, st, a), b)
    decreases |a|
  {
    if a == [] {
      assert a + b == b;
    } else {
      assert (a + b)[1..] == a[1..] + b;
      RunConcat(cfg, if Enabled(st, a[0]) then Step(cfg, st, a[0]) else st, a[1..], b);
    }
  }

  /** The chunks of frame `n` and of the next ones that prefetching looks at. */
  function Ahead(cfg: Config, n: nat): set<nat> {
    set k: nat | k <= cfg.prefetch :: WindowChunk(cfg, n, k)
  }

  predicate Only(cfg: Config, images: map<nat, nat>, chunks: set<nat>) {
    forall i :: i in images ==> ChunkOf(cfg, i) in chunks
  }

  lemma {:induction false} PrefetchStaysAhead(cfg: Config, st: State, n: nat, k: nat)
    requires Tables(cfg, st) && Only(cfg, st.images, Ahead(cfg, n))
    ensures Only(cfg, PrefetchFrom(cfg, st, Window(cfg, n), k).images, Ahead(cfg, n))
    decreases cfg.prefetch + 1 - k
  {
    var window := Window(cfg, n);
    if k < |window| && st.inflight < 2 {
      assert window[k] == WindowChunk(cfg, n, k) && window[k] in Ahead(cfg, n);
      OneExtends(cfg, st, window[k]);
      if FirstOf(cfg, window[k]) !in st.images { FetchMeans(cfg, st, window[k]); }
      PrefetchStaysAhead(cfg, PrefetchOne(cfg, st, window[k]), n, k + 1);
    }
  }

  /** The first tick of an opening shows nothing new and keeps only what is ahead of frame 0. */
  lemma FirstTick(cfg: Config, st: State)
    requires Inv(cfg, st) && st.running && st.clock == st.due == st.shownN == 0
    ensures var r := Tick(cfg, st, 0, 0);
      && SameBut(st, r) && Asks(st, r) && Only(cfg, r.images, Ahead(cfg, 0))
  {
    var less := Evict(cfg, st, 0);
    EvictKeeps(cfg, st, 0);
    assert WindowChunk(cfg, 0, 0) in Ahead(cfg, 0);
    PrefetchingKeeps(cfg, less, 0);
    PrefetchAsks(cfg, less, Window(cfg, 0), 1);
    PrefetchStaysAhead(cfg, less, 0, 1);
  }

  ghost predicate Off(cfg: Config, st: State) {
    Inv(cfg, st) && !st.running && !st.starting && st.images == map[]
  }

  /** The page asks for the camera, the requests of the warm-up are answered, and the clock starts. */
  function OpeningFrom(cfg: Config, st: State, now: nat): seq<Event> {
    [Opens] + Answers(st.next, Begin(cfg, st).next, now) + [WarmedUp(true, 0, 0)]
  }

  /** Just opened after `st`: frame 0 is on the canvas; the shows and requests of before are still there. */
  ghost predicate OpenedAfter(cfg: Config, st: State, r: State) {
    && Inv(cfg, r) && r.running && r.clock == r.due == r.shownN == 0 && r.opening == st.opening + 1
    && r.showing == st.showing && r.tracks == st.tracks && Asks(st, r) && Only(cfg, r.images, Ahead(cfg, 0))
  }

  lemma Warmed(cfg: Config, st: State, now: nat)
    requires Off(cfg, st) && st.clock <= now
    ensures var r := Run(cfg, st, [Opens] + Answers(st.next, Begin(cfg, st).next, now));
      && Inv(cfg, r) && r.starting && r.awaited !! r.outstanding && Asks(st, r)
      && r.opening == st.opening && r.showing == st.showing && r.tracks == st.tracks
  {
    var begun := Begin(cfg, st);
    OpenKeeps(cfg, st);
    WarmUpKeeps(cfg, st.(starting := true, awaited := {}), 0);
    WarmAsks(cfg, st.(starting := true, awaited := {}), 0, st.next);
    Answered(cfg, begun, st.next, begun.next, now);
    EveryRunKeeps(cfg, begun, Answers(st.next, begun.next, now));
    OneStep(cfg, st, Opens, Answers(st.next, begun.next, now));
  }

  lemma Opened(cfg: Config, st: State, now: nat)
    requires Off(cfg, st) && st.clock <= now
    ensures OpenedAfter(cfg, st, Run(cfg, st, OpeningFrom(cfg, st, now)))
  {
    var asked := [Opens] + Answers(st.next, Begin(cfg, st).next, now);
    var warm := Run(cfg, st, asked);
    Warmed(cfg, st, now);
    RunConcat(cfg, st, asked, [WarmedUp(true, 0, 0)]);
    LastStep(cfg, warm, WarmedUp(true, 0, 0));
    assert Inv(cfg, Restarted(warm));
    FirstTick(cfg, Restarted(warm));
    StartedKeeps(cfg, warm, true, 0, 0);
  }

  lemma {:induction false} ChunksRise(cfg: Config, i: nat, j: nat)
    requires i <= j
    ensures ChunkOf(cfg, i) <= ChunkOf(cfg, j)
    decreases i
  {
    if i >= cfg.chunk { ChunksRise(cfg, i - cfg.chunk, j - cfg.chunk); }
  }

  /** The first frame behind the chunks that an opening asks for. */
  function Beyond(cfg: Config): (n: nat)
    ensures ChunkOf(cfg, n) == ChunkOf(cfg, cfg.prefetch) + 1 && cfg.prefetch < n <= cfg.prefetch + cfg.chunk
  {
    var c := ChunkOf(cfg, cfg.prefetch);
    ChunkRange(cfg, cfg.prefetch, c);
    ChunkRange(cfg, FirstOf(cfg, c + 1), c + 1);
    FirstOf(cfg, c + 1)
  }

  lemma BeyondIsMissing(cfg: Config, st: State)
    requires Beyond(cfg) < cfg.frames && Only(cfg, st.images, Ahead(cfg, 0))
    ensures Beyond(cfg) !in st.images
  {
    forall k: nat | k <= cfg.prefetch ensures WindowChunk(cfg, 0, k) != ChunkOf(cfg, Beyond(cfg)) {
      ChunksRise(cfg, k, cfg.prefetch);
    }
  }

  /** The clock, after a delay, asks for a frame that is not loaded: its `show` waits for a new request. */
  lemma LateTick(cfg: Config, st: State, n: nat)
    requires Inv(cfg, st) && st.running && st.due == 0 < n < cfg.frames && st.clock <= n && n !in st.images
    ensures var r := Tick(cfg, st, n, n);
      && Inv(cfg, r) && r.running && r.clock == n && r.tracks == st.tracks && r.opening == st.opening
      && r.showing == st.showing + [Showing(n, st.next, st.opening)] && st.next in r.outstanding
  {
    TickKeeps(cfg, st, n, n);
    TickMeans(cfg, st, n, n);
    var shown := Show(cfg, st.(due := n), n);
    ChunkRange(cfg, n, ChunkOf(cfg, n));
    FirstIndexIsEnough(cfg, st, n);
    FetchMeans(cfg, st.(due := n), ChunkOf(cfg, n));
    ShowKeeps(cfg, st.(due := n), n);
    var less := Evict(cfg, shown, n);
    EvictKeeps(cfg, shown, n);
    PrefetchingKeeps(cfg, less, n);
    PrefetchAsks(cfg, less, Window(cfg, n), 1);
  }

  /** The page gets a track, the clock ticks late, and the last track stops. */
  function Leaving(t: nat, n: nat): seq<Event> {
    [TrackOpens(t), Ticks(n, n), TrackStops(t)]
  }

  lemma Left(cfg: Config, st: State, t: nat, n: nat)
    requires Inv(cfg, st) && st.running && st.due == st.clock == 0 < n < cfg.frames && n !in st.images
      && st.tracks == {}
    ensures var r := Run(cfg, st, Leaving(t, n));
      && Off(cfg, r) && r.clock == n && r.opening == st.opening
      && r.showing == st.showing + [Showing(n, st.next, st.opening)] && st.next in r.outstanding
  {
    var s1 := st.(tracks := st.tracks + {t});
    var s2 := Tick(cfg, s1, n, n);
    LateTick(cfg, s1, n);
    OneStep(cfg, st, TrackOpens(t), [Ticks(n, n), TrackStops(t)]);
    OneStep(cfg, s1, Ticks(n, n), [TrackStops(t)]);
    LastStep(cfg, s2, TrackStops(t));
    assert {t} - {t} == {};
    StepKeeps(cfg, s2, TrackStops(t));
  }

  /** After a new opening the late answer comes, and its `show` goes on. */
  function Late(request: nat): seq<Event> {
    [Arrives(request, 0), Resumes(0, true)]
  }

  lemma Overtaken(cfg: Config, st: State, n: nat, request: nat, former: nat)
    requires Inv(cfg, st) && st.running && st.clock == st.due == st.shownN == 0 < n
    requires st.showing == [Showing(n, request, former)] && request in st.outstanding
    ensures var r := Run(cfg, st, Late(request)); r.running && r.clock == r.due == 0 && r.shownN == n
  {
    var less := st.(outstanding := st.outstanding - {request}, inflight := st.inflight - 1);
    PrefetchingKeeps(cfg, less, 0);
    PrefetchAsks(cfg, less, Window(cfg, 0), 1);
    OneStep(cfg, st, Arrives(request, 0), [Resumes(0, true)]);
    LastStep(cfg, Arrive(cfg, st, request, 0), Resumes(0, true));
  }

  /**
   * So it does happen, with every chunk size and every number of frames to prefetch, once the video is longer than both
   * together: a run from the start ends with frame `Beyond` on the canvas while the clock has just begun at 0.
   */
  lemma LeftOverShowOvertakes(cfg: Config, t: nat) returns (events: seq<Event>)
    requires cfg.frames > cfg.prefetch + cfg.chunk
    ensures var r := Run(cfg, START, events);
      r.running && r.clock == r.due == 0 && r.shownN == Beyond(cfg) > cfg.prefetch
  {
    var n := Beyond(cfg);
    var first := OpeningFrom(cfg, START, 0);
    Opened(cfg, START, 0);
    var s1 := Run(cfg, START, first);
    BeyondIsMissing(cfg, s1);
    Left(cfg, s1, t, n);
    var s2 := Run(cfg, s1, Leaving(t, n));
    RunConcat(cfg, START, first, Leaving(t, n));
    var again := OpeningFrom(cfg, s2, n);
    Opened(cfg, s2, n);
    var s3 := Run(cfg, s2, again);
    RunConcat(cfg, START, first + Leaving(t, n), again);
    Overtaken(cfg, s3, n, s1.next, s1.opening);
    events := first + Leaving(t, n) + again + Late(s1.next);
    RunConcat(cfg, START, first + Leaving(t, n) + again, Late(s1.next));
  }

  /** In video mode the shim prefetches 15 frames. */
  const PREFETCH := 15

  lemma VideoIsOvertaken(cfg: Config) returns (events: seq<Event>)
    requires cfg.prefetch == PREFETCH && cfg.frames > PREFETCH + cfg.chunk
    ensures var r := Run(cfg, START, events); r.running && r.clock == r.due == 0 && r.shownN > PREFETCH
  {
    events := LeftOverShowOvertakes(cfg, 0);
  }
}
