/** The frame cache: a byte-bounded, least-recently-used map of JPEGs, with one encode at a time for each frame. */
module JpegCache {
  import Integers

  type Jpeg = seq<nat>

  datatype Key = Key(path: string, frame: nat)

  /** An encode that was begun for frame `i` of a video with `frames` frames. */
  datatype Job = Job(key: Key, i: int, frames: nat)

  datatype Entry = Entry(key: Key, jpeg: Jpeg)

  const MAX_BYTES := 96 * 1024 * 1024

  /**
   * `cache` is in insertion order, oldest first. `pending` maps a frame to the job whose promise its callers share.
   * `jobs`, `encoding` (not yet encoded), `unsettled` (encoded or failed, `finally` still to run) and `uses` (every
   * insertion and every hit so far) record what happened.
   */
  datatype State = State(cache: seq<Entry>, pending: map<Key, nat>, bytes: int,
                         jobs: seq<Job>, encoding: set<nat>, unsettled: set<nat>, uses: seq<Key>)

  const START := State([], map[], 0, [], {}, {}, [])

  /** What a caller gets: the bytes, or the promise of a job. */
  datatype Answer = Ready(jpeg: Jpeg) | Later(job: nat)

  /* ---------------------------------------------------------------- frame numbers */

  /** The remainder of JavaScript, which has the sign of the dividend. */
  function Remainder(a: int, n: nat): int
    requires n > 0
  {
    if a >= 0 then a % n else -((-a) % n)
  }

  function Wrap(i: int, frames: nat): (r: nat)
    requires frames > 0
    ensures r < frames && r == i % frames
  {
    var r := Remainder(Remainder(i, frames) + frames, frames);
    WrapIsModulo(i, frames);
    r
  }

  lemma WrapIsModulo(i: int, frames: nat)
    requires frames > 0
    ensures Remainder(Remainder(i, frames) + frames, frames) == i % frames
  {
    if i >= 0 {
      var r := i % frames;
      Integers.Divides(r + frames, 1, r, frames);
    } else {
      var q, r := (-i) / frames, (-i) % frames;
      Integers.Negated(q, frames);
      if r == 0 {
        Integers.Divides(i, -q, 0, frames);
        Integers.Divides(frames, 1, 0, frames);
      } else {
        Integers.Divides(i, -q - 1, frames - r, frames);
        Integers.Divides(frames - r, 0, frames - r, frames);
      }
    }
  }

  /* ---------------------------------------------------------------- the cache */

  function Total(cache: seq<Entry>): nat {
    if cache == [] then 0 else |cache[0].jpeg| + Total(cache[1..])
  }

  /** Where a key is in the cache; the length if nowhere. */
  function Place(cache: seq<Entry>, key: Key): (r: nat)
    ensures r <= |cache|
    ensures forall i :: 0 <= i < r ==> cache[i].key != key
    ensures r < |cache| ==> cache[r].key == key
  {
    if cache == [] || cache[0].key == key then 0 else 1 + Place(cache[1..], key)
  }

  /** `delete` then `set`: the entry becomes the newest. */
  function Renewed(cache: seq<Entry>, at: nat): seq<Entry>
    requires at < |cache|
  {
    cache[..at] + cache[at + 1..] + [cache[at]]
  }

  /** Entries go from the front while there are too many bytes. */
  function Trimmed(cache: seq<Entry>, bytes: int, limit: nat): seq<Entry> {
    if cache == [] || bytes <= limit then cache else Trimmed(cache[1..], bytes - |cache[0].jpeg|, limit)
  }

  /* ---------------------------------------------------------------- the events */

  /** `jpeg(i)` of a video. */
  function Request(st: State, path: string, frames: nat, i: int): (State, Answer)
    requires frames > 0
  {
    var key := Key(path, Wrap(i, frames));
    var at := Place(st.cache, key);
    if at < |st.cache| then
      (st.(cache := Renewed(st.cache, at), uses := st.uses + [key]), Ready(st.cache[at].jpeg))
    else if key in st.pending then (st, Later(st.pending[key]))
    else
      var id := |st.jobs|;
      (st.(pending := st.pending[key := id], jobs := st.jobs + [Job(key, i, frames)], encoding := st.encoding + {id}),
       Later(id))
  }

  /** The encoder, with the frame number it was called with; `raw` gives the JPEG of a frame of a file. */
  function Encoding(raw: Key -> Jpeg, job: Job): Jpeg
    requires job.frames > 0
  {
    raw(Key(job.key.path, Wrap(job.i, job.frames)))
  }

  function Encoded(st: State, id: nat, jpeg: Jpeg, limit: nat): State
    requires id < |st.jobs|
  {
    var key := st.jobs[id].key;
    var bytes := st.bytes + |jpeg|;
    var at := Place(st.cache, key);
    var filled := if at < |st.cache| then st.cache[at := Entry(key, jpeg)] else st.cache + [Entry(key, jpeg)];
    var left := Trimmed(filled, bytes, limit);
    st.(cache := left, bytes := bytes - (Total(filled) - Total(left)), encoding := st.encoding - {id},
        unsettled := st.unsettled + {id}, uses := st.uses + [key])
  }

  function Failed(st: State, id: nat): State {
    st.(encoding := st.encoding - {id}, unsettled := st.unsettled + {id})
  }

  function Settled(st: State, id: nat): State
    requires id < |st.jobs|
  {
    st.(pending := st.pending - {st.jobs[id].key}, unsettled := st.unsettled - {id})
  }

  datatype Event = Asks(path: string, frames: nat, i: int) | Encodes(id: nat) | Fails(id: nat) | Settles(id: nat)

  predicate Enabled(st: State, e: Event) {
    match e
    case Asks(_, frames, _) => frames > 0
    case Encodes(id) => id in st.encoding && id < |st.jobs| && st.jobs[id].frames > 0
    case Fails(id) => id in st.encoding
    case Settles(id) => id in st.unsettled && id < |st.jobs|
  }

  function Step(raw: Key -> Jpeg, st: State, e: Event, limit: nat): State
    requires Enabled(st, e)
  {
    match e
    case Asks(path, frames, i) => Request(st, path, frames, i).0
    case Encodes(id) => Encoded(st, id, Encoding(raw, st.jobs[id]), limit)
    case Fails(id) => Failed(st, id)
    case Settles(id) => Settled(st, id)
  }

  /** An event that cannot happen is skipped. */
  function Run(raw: Key -> Jpeg, st: State, events: seq<Event>, limit: nat): State
    decreases |events|
  {
    if events == [] then st
    else Run(raw, if Enabled(st, events[0]) then Step(raw, st, events[0], limit) else st, events[1..], limit)
  }

  /* ---------------------------------------------------------------- the invariant */

  /** The last use of a key; -1 if it was never used. */
  function LastUse(uses: seq<Key>, key: Key): (r: int)
    ensures -1 <= r < |uses|
  {
    if uses == [] then -1
    else if uses[|uses| - 1] == key then |uses| - 1
    else LastUse(uses[..|uses| - 1], key)
  }

  /** The cache is ordered by last use, which also makes its keys distinct. */
  predicate ByUse(cache: seq<Entry>, uses: seq<Key>) {
    forall i, j :: 0 <= i < j < |cache| ==> LastUse(uses, cache[i].key) < LastUse(uses, cache[j].key)
  }

  predicate Right(raw: Key -> Jpeg, cache: seq<Entry>) {
    forall i :: 0 <= i < |cache| ==> cache[i].jpeg == raw(cache[i].key)
  }

  predicate Jobs(st: State) {
    && (forall id :: id in st.encoding ==> id < |st.jobs| && id !in st.unsettled)
    && (forall id :: id in st.unsettled ==> id < |st.jobs|)
    && (forall id :: 0 <= id < |st.jobs| ==> JobOk(st.jobs[id]))
  }

  predicate JobOk(job: Job) {
    job.frames > 0 && job.key.frame == Wrap(job.i, job.frames)
  }

  /** The jobs not settled are exactly those that `pending` holds, each under its own key. */
  ghost predicate Shared(st: State) {
    PendingIsOpen(st) && OpenIsPending(st) && EncodingIsAbsent(st)
  }

  predicate Open(st: State, id: nat) {
    id in st.encoding || id in st.unsettled
  }

  ghost predicate PendingIsOpen(st: State) {
    forall key :: key in st.pending ==>
      Open(st, st.pending[key]) && st.pending[key] < |st.jobs| && st.jobs[st.pending[key]].key == key
  }

  predicate OpenIsPending(st: State) {
    forall id :: 0 <= id < |st.jobs| && Open(st, id) ==>
      st.jobs[id].key in st.pending && st.pending[st.jobs[id].key] == id
  }

  predicate EncodingIsAbsent(st: State) {
    forall id :: id in st.encoding && id < |st.jobs| ==> Absent(st.cache, st.jobs[id].key)
  }

  predicate Absent(cache: seq<Entry>, key: Key) {
    forall i :: 0 <= i < |cache| ==> cache[i].key != key
  }

  ghost predicate Inv(raw: Key -> Jpeg, st: State, limit: nat) {
    && st.bytes == Total(st.cache) <= limit
    && ByUse(st.cache, st.uses) && Right(raw, st.cache)
    && Jobs(st) && Shared(st)
  }

  /* ---------------------------------------------------------------- trimming */

  lemma {:induction false} TotalConcat(a: seq<Entry>, b: seq<Entry>)
    ensures Total(a + b) == Total(a) + Total(b)
  {
    if a == [] {
      assert a + b == b;
    } else {
      assert (a + b)[1..] == a[1..] + b;
      TotalConcat(a[1..], b);
    }
  }

  /** What is left is the shortest cut that fits: the oldest `n` entries go, and with one fewer it would not fit. */
  lemma {:induction false} TrimmedMeaning(cache: seq<Entry>, limit: nat) returns (n: nat)
    ensures n <= |cache| && Trimmed(cache, Total(cache), limit) == cache[n..]
    ensures Total(cache[n..]) <= limit && (n > 0 ==> Total(cache[n - 1..]) > limit)
  {
    if cache == [] || Total(cache) <= limit {
      n := 0;
    } else {
      var m := TrimmedMeaning(cache[1..], limit);
      n := m + 1;
      assert cache[1..][m..] == cache[n..];
      if m == 0 { assert cache[0..] == cache; } else { assert cache[1..][m - 1..] == cache[m..]; }
    }
  }

  /* ---------------------------------------------------------------- the order of use */

  lemma UsedNow(uses: seq<Key>, key: Key, other: Key)
    ensures LastUse(uses + [key], key) == |uses|
    ensures other != key ==> LastUse(uses + [key], other) == LastUse(uses, other)
  {
    assert (uses + [key])[..|uses|] == uses;
  }

  /** Using the entry at `at` makes it the newest, whether it was there (a hit) or is new. */
  lemma NewestLast(cache: seq<Entry>, uses: seq<Key>, entry: Entry)
    requires ByUse(cache, uses) && Absent(cache, entry.key)
    ensures ByUse(cache + [entry], uses + [entry.key])
  {
    forall i | 0 <= i < |cache| ensures LastUse(uses + [entry.key], cache[i].key) == LastUse(uses, cache[i].key) {
      UsedNow(uses, entry.key, cache[i].key);
    }
    UsedNow(uses, entry.key, entry.key);
  }

  /** The cache without the entry at `at`. */
  function Removed(cache: seq<Entry>, at: nat): (r: seq<Entry>)
    requires at < |cache|
    ensures |r| == |cache| - 1 && forall i :: 0 <= i < |r| ==> r[i] == cache[if i < at then i else i + 1]
  {
    cache[..at] + cache[at + 1..]
  }

  lemma Without(cache: seq<Entry>, uses: seq<Key>, at: nat)
    requires ByUse(cache, uses) && at < |cache|
    ensures ByUse(Removed(cache, at), uses) && Absent(Removed(cache, at), cache[at].key)
  {
    var rest := Removed(cache, at);
    forall i, j | 0 <= i < j < |rest| ensures LastUse(uses, rest[i].key) < LastUse(uses, rest[j].key) {
      var a, b := if i < at then i else i + 1, if j < at then j else j + 1;
      assert rest[i] == cache[a] && rest[j] == cache[b] && a < b;
    }
    forall i | 0 <= i < |rest| ensures rest[i].key != cache[at].key {
      var a := if i < at then i else i + 1;
      assert rest[i] == cache[a] && (a < at || at < a);
    }
  }

  lemma RemovedTotal(cache: seq<Entry>, at: nat)
    requires at < |cache|
    ensures Total(cache) == Total(Removed(cache, at)) + |cache[at].jpeg|
  {
    var low, high, entry := cache[..at], cache[at + 1..], cache[at];
    assert cache == low + ([entry] + high);
    assert ([entry] + high)[1..] == high;
    TotalConcat(low, [entry] + high);
    TotalConcat(low, high);
  }

  lemma AddedTotal(cache: seq<Entry>, entry: Entry)
    ensures Total(cache + [entry]) == Total(cache) + |entry.jpeg|
  {
    TotalConcat(cache, [entry]);
    assert [entry][1..] == [];
  }

  lemma RenewedIs(cache: seq<Entry>, at: nat)
    requires at < |cache|
    ensures Renewed(cache, at) == Removed(cache, at) + [cache[at]]
  {
  }

  lemma HitOrder(cache: seq<Entry>, uses: seq<Key>, at: nat)
    requires ByUse(cache, uses) && at < |cache|
    ensures ByUse(Renewed(cache, at), uses + [cache[at].key])
  {
    RenewedIs(cache, at);
    Without(cache, uses, at);
    NewestLast(Removed(cache, at), uses, cache[at]);
  }

  lemma HitKeeps(raw: Key -> Jpeg, cache: seq<Entry>, uses: seq<Key>, at: nat)
    requires ByUse(cache, uses) && Right(raw, cache) && at < |cache|
    ensures ByUse(Renewed(cache, at), uses + [cache[at].key])
    ensures Right(raw, Renewed(cache, at)) && Total(Renewed(cache, at)) == Total(cache)
  {
    HitOrder(cache, uses, at);
    HitRight(raw, cache, at);
    RenewedIs(cache, at);
    RemovedTotal(cache, at);
    AddedTotal(Removed(cache, at), cache[at]);
  }

  lemma HitRight(raw: Key -> Jpeg, cache: seq<Entry>, at: nat)
    requires Right(raw, cache) && at < |cache|
    ensures Right(raw, Renewed(cache, at))
  {
    RenewedIs(cache, at);
    var r := Renewed(cache, at);
    forall i | 0 <= i < |r| ensures r[i].jpeg == raw(r[i].key) {
      if i < |cache| - 1 { assert r[i] == cache[if i < at then i else i + 1]; } else { assert r[i] == cache[at]; }
    }
  }

  /* ---------------------------------------------------------------- every event keeps the invariant */

  lemma RequestKeeps(raw: Key -> Jpeg, st: State, path: string, frames: nat, i: int, limit: nat)
    requires Inv(raw, st, limit) && frames > 0
    ensures Inv(raw, Request(st, path, frames, i).0, limit)
  {
    var key := Key(path, Wrap(i, frames));
    var at := Place(st.cache, key);
    if at < |st.cache| {
      HitKeeps(raw, st.cache, st.uses, at);
      HitSharing(st, at, key);
    } else if key !in st.pending {
      BeginSharing(st, Job(key, i, frames));
    }
  }

  lemma HitSharing(st: State, at: nat, key: Key)
    requires Shared(st) && at < |st.cache|
    ensures Shared(st.(cache := Renewed(st.cache, at), uses := st.uses + [key]))
  {
    var r := Renewed(st.cache, at);
    assert forall j :: 0 <= j < |r| ==>
      r[j] == st.cache[if j < at then j else if j < |st.cache| - 1 then j + 1 else at];
  }

  function Begun(st: State, job: Job): State {
    var id := |st.jobs|;
    st.(pending := st.pending[job.key := id], jobs := st.jobs + [job], encoding := st.encoding + {id})
  }

  lemma BeginSharing(st: State, job: Job)
    requires Jobs(st) && Shared(st) && JobOk(job) && job.key !in st.pending && Absent(st.cache, job.key)
    ensures Jobs(Begun(st, job)) && Shared(Begun(st, job))
  {
    var r := Begun(st, job);
    forall id | 0 <= id < |r.jobs| ensures JobOk(r.jobs[id]) {
      if id < |st.jobs| { assert r.jobs[id] == st.jobs[id]; }
    }
    forall id | 0 <= id < |r.jobs| && Open(r, id)
      ensures r.jobs[id].key in r.pending && r.pending[r.jobs[id].key] == id
    {
      if id < |st.jobs| { assert r.jobs[id] == st.jobs[id] && Open(st, id); }
    }
    forall id | id in r.encoding && id < |r.jobs| ensures Absent(r.cache, r.jobs[id].key) {
      if id < |st.jobs| { assert r.jobs[id] == st.jobs[id] && id in st.encoding; }
    }
  }

  lemma SuffixKeeps(raw: Key -> Jpeg, cache: seq<Entry>, uses: seq<Key>, n: nat)
    requires ByUse(cache, uses) && Right(raw, cache) && n <= |cache|
    ensures ByUse(cache[n..], uses) && Right(raw, cache[n..])
  {
    var left := cache[n..];
    forall i, j | 0 <= i < j < |left| ensures LastUse(uses, left[i].key) < LastUse(uses, left[j].key) {
      assert left[i] == cache[i + n] && left[j] == cache[j + n];
    }
    forall i | 0 <= i < |left| ensures left[i].jpeg == raw(left[i].key) {
      assert left[i] == cache[i + n];
    }
  }

  lemma EncodedKeeps(raw: Key -> Jpeg, st: State, id: nat, limit: nat)
    requires Inv(raw, st, limit) && id in st.encoding && id < |st.jobs|
    ensures Inv(raw, Encoded(st, id, Encoding(raw, st.jobs[id]), limit), limit)
  {
    var entry := Entry(st.jobs[id].key, Encoding(raw, st.jobs[id]));
    var n := EncodedCache(raw, st, id, limit);
    OthersAbsent(st, id, entry, n);
    ClosingSharing(st, id);
    StillShared(st, Encoded(st, id, entry.jpeg, limit), id);
  }

  lemma StillShared(st: State, r: State, id: nat)
    requires var closed := st.(encoding := st.encoding - {id}, unsettled := st.unsettled + {id});
      Jobs(closed) && Shared(closed) && r == closed.(cache := r.cache, bytes := r.bytes, uses := r.uses)
    requires forall other :: other in st.encoding && other < |st.jobs| && other != id ==>
      Absent(r.cache, st.jobs[other].key)
    ensures Jobs(r) && Shared(r)
  {
    var closed := st.(encoding := st.encoding - {id}, unsettled := st.unsettled + {id});
    assert forall other :: Open(r, other) == Open(closed, other);
  }

  lemma EncodedCache(raw: Key -> Jpeg, st: State, id: nat, limit: nat) returns (n: nat)
    requires Inv(raw, st, limit) && id in st.encoding && id < |st.jobs|
    ensures var job := st.jobs[id]; var jpeg := Encoding(raw, job);
      var filled := st.cache + [Entry(job.key, jpeg)]; var r := Encoded(st, id, jpeg, limit);
      && n <= |filled| && r.cache == filled[n..] && r.bytes == Total(r.cache) <= limit
      && (n > 0 ==> Total(filled[n - 1..]) > limit)
      && ByUse(filled, r.uses) && ByUse(r.cache, r.uses) && Right(raw, r.cache)
  {
    var job := st.jobs[id];
    assert JobOk(job) && Absent(st.cache, job.key);
    var entry := Entry(job.key, Encoding(raw, job));
    FilledKeeps(raw, st.cache, st.uses, entry);
    EncodedMeans(st, id, entry.jpeg, limit);
    n := TrimmedMeaning(st.cache + [entry], limit);
    SuffixKeeps(raw, st.cache + [entry], st.uses + [job.key], n);
  }

  lemma EncodedMeans(st: State, id: nat, jpeg: Jpeg, limit: nat)
    requires id < |st.jobs| && Absent(st.cache, st.jobs[id].key) && st.bytes == Total(st.cache)
    ensures var key := st.jobs[id].key;
      var filled := st.cache + [Entry(key, jpeg)]; var r := Encoded(st, id, jpeg, limit);
      && r.cache == Trimmed(filled, Total(filled), limit) && r.bytes == Total(r.cache) && r.uses == st.uses + [key]
  {
    AddedTotal(st.cache, Entry(st.jobs[id].key, jpeg));
  }

  lemma FilledKeeps(raw: Key -> Jpeg, cache: seq<Entry>, uses: seq<Key>, entry: Entry)
    requires ByUse(cache, uses) && Right(raw, cache) && Absent(cache, entry.key) && entry.jpeg == raw(entry.key)
    ensures var filled := cache + [entry];
      ByUse(filled, uses + [entry.key]) && Right(raw, filled) && Total(filled) == Total(cache) + |entry.jpeg|
  {
    NewestLast(cache, uses, entry);
    AddedTotal(cache, entry);
  }

  /** No other encode is under way for the same frame, so the frames still being encoded stay absent. */
  lemma OthersAbsent(st: State, id: nat, entry: Entry, n: nat)
    requires Jobs(st) && Shared(st) && id in st.encoding && id < |st.jobs| && entry.key == st.jobs[id].key
    requires n <= |st.cache| + 1
    ensures var left := (st.cache + [entry])[n..];
      forall other :: other in st.encoding && other < |st.jobs| && other != id ==> Absent(left, st.jobs[other].key)
  {
    var filled := st.cache + [entry];
    forall other | other in st.encoding && other < |st.jobs| && other != id
      ensures Absent(filled[n..], st.jobs[other].key)
    {
      assert st.pending[st.jobs[other].key] == other && st.pending[st.jobs[id].key] == id;
      assert Absent(st.cache, st.jobs[other].key);
      forall i | 0 <= i < |filled| - n ensures filled[n..][i].key != st.jobs[other].key {
        assert filled[n..][i] == filled[i + n];
      }
    }
  }

  /** A job that is no longer being encoded is open all the same until it is settled. */
  lemma ClosingSharing(st: State, id: nat)
    requires Jobs(st) && Shared(st) && id in st.encoding
    ensures var r := st.(encoding := st.encoding - {id}, unsettled := st.unsettled + {id}); Jobs(r) && Shared(r)
  {
    var r := st.(encoding := st.encoding - {id}, unsettled := st.unsettled + {id});
    assert forall other :: Open(r, other) == Open(st, other);
  }

  lemma SettledSharing(st: State, id: nat)
    requires Jobs(st) && Shared(st) && id in st.unsettled && id < |st.jobs|
    ensures Jobs(Settled(st, id)) && Shared(Settled(st, id))
  {
    var r := Settled(st, id);
    assert forall other :: Open(r, other) <==> Open(st, other) && other != id;
    assert Open(st, id);
    forall other | 0 <= other < |r.jobs| && Open(r, other)
      ensures r.jobs[other].key in r.pending && r.pending[r.jobs[other].key] == other
    {
      assert st.pending[st.jobs[other].key] == other && st.pending[st.jobs[id].key] == id;
    }
  }

  lemma StepKeeps(raw: Key -> Jpeg, st: State, e: Event, limit: nat)
    requires Inv(raw, st, limit) && Enabled(st, e)
    ensures Inv(raw, Step(raw, st, e, limit), limit)
  {
    match e
    case Asks(path, frames, i) => RequestKeeps(raw, st, path, frames, i, limit);
    case Encodes(id) => EncodedKeeps(raw, st, id, limit);
    case Fails(id) => ClosingSharing(st, id);
    case Settles(id) => SettledSharing(st, id);
  }

  /**
   * In every reachable state the counter is the sum of the cached lengths and within the limit, the cache is in the
   * order of last use, and the frames being encoded are shared.
   */
  lemma {:induction false} EveryRunKeeps(raw: Key -> Jpeg, st: State, events: seq<Event>, limit: nat)
    requires Inv(raw, st, limit)
    ensures Inv(raw, Run(raw, st, events, limit), limit)
    decreases |events|
  {
    if events != [] {
      if Enabled(st, events[0]) { StepKeeps(raw, st, events[0], limit); }
      EveryRunKeeps(raw, if Enabled(st, events[0]) then Step(raw, st, events[0], limit) else st, events[1..], limit);
    }
  }

  lemma ReachableIsBounded(raw: Key -> Jpeg, events: seq<Event>)
    ensures var st := Run(raw, START, events, MAX_BYTES);
      && st.bytes == Total(st.cache) <= 96 * 1024 * 1024
      && (forall i, j :: 0 <= i < j < |st.cache| ==> st.cache[i].key != st.cache[j].key)
  {
    EveryRunKeeps(raw, START, events, MAX_BYTES);
    var st := Run(raw, START, events, MAX_BYTES);
    assert ByUse(st.cache, st.uses);
  }

  /** As long as all of it fits into 96 MiB nothing goes: every other frame stays, and the new one comes behind them. */
  lemma NothingGoesWhileItFits(raw: Key -> Jpeg, events: seq<Event>, id: nat, jpeg: Jpeg, key: Key)
    requires var st := Run(raw, START, events, MAX_BYTES);
      id in st.encoding && id < |st.jobs| && st.bytes + |jpeg| <= 96 * 1024 * 1024
    ensures var st := Run(raw, START, events, MAX_BYTES);
      Encoded(st, id, jpeg, MAX_BYTES).cache == st.cache + [Entry(st.jobs[id].key, jpeg)]
  {
    EveryRunKeeps(raw, START, events, MAX_BYTES);
    var st := Run(raw, START, events, MAX_BYTES);
    assert Absent(st.cache, st.jobs[id].key);
  }

  /** A failed encode leaves the cache alone; once its promise has settled, the frame is encoded anew when asked for. */
  lemma FailureIsRetried(raw: Key -> Jpeg, st: State, id: nat, limit: nat)
    requires Inv(raw, st, limit) && id in st.encoding && id < |st.jobs|
    ensures var job, failed := st.jobs[id], Step(raw, st, Fails(id), limit);
      && job.frames > 0 && Enabled(failed, Settles(id))
      && var after := Step(raw, failed, Settles(id), limit);
         && after.cache == st.cache && after.bytes == st.bytes && after.uses == st.uses && after.jobs == st.jobs
         && Request(after, job.key.path, job.frames, job.i).1 == Later(|st.jobs|)
  {
    assert JobOk(st.jobs[id]);
    assert Absent(st.cache, st.jobs[id].key);
  }

  lemma OneEncodeForEachFrame(raw: Key -> Jpeg, events: seq<Event>, limit: nat, a: nat, b: nat)
    requires var st := Run(raw, START, events, limit);
      a in st.encoding && b in st.encoding && a < |st.jobs| && b < |st.jobs| && st.jobs[a].key == st.jobs[b].key
    ensures a == b
  {
    EveryRunKeeps(raw, START, events, limit);
    var st := Run(raw, START, events, limit);
    assert Shared(st);
  }

  /** What an answer comes to: the bytes at hand, or what its job encodes. */
  function Yields(raw: Key -> Jpeg, st: State, a: Answer): Jpeg
    requires a.Later? ==> a.job < |st.jobs| && st.jobs[a.job].frames > 0
  {
    match a
    case Ready(jpeg) => jpeg
    case Later(job) => Encoding(raw, st.jobs[job])
  }

  /**
   * After any run `jpeg(i)` gives the JPEG of frame `i` modulo the length, negative `i` included, as without a cache.
   */
  lemma CacheIsTransparent(raw: Key -> Jpeg, events: seq<Event>, limit: nat, path: string, frames: nat, i: int)
    requires frames > 0
    ensures var (st, answer) := Request(Run(raw, START, events, limit), path, frames, i);
      && (answer.Later? ==> answer.job < |st.jobs| && st.jobs[answer.job].frames > 0)
      && Yields(raw, st, answer) == raw(Key(path, i % frames))
  {
    EveryRunKeeps(raw, START, events, limit);
    var st := Run(raw, START, events, limit);
    RequestKeeps(raw, st, path, frames, i, limit);
    var (next, answer) := Request(st, path, frames, i);
    if answer.Later? { assert JobOk(next.jobs[answer.job]); }
  }

  /** A job never changes, so a promise keeps its meaning in every later run. */
  lemma {:induction false} JobsStay(raw: Key -> Jpeg, st: State, events: seq<Event>, limit: nat, id: nat)
    requires id < |st.jobs|
    ensures var r := Run(raw, st, events, limit); id < |r.jobs| && r.jobs[id] == st.jobs[id]
    decreases |events|
  {
    if events != [] {
      JobsStay(raw, if Enabled(st, events[0]) then Step(raw, st, events[0], limit) else st, events[1..], limit, id);
    }
  }

  /**
   * When an encode completes, what goes is the least recently used: each dropped frame was last used before each kept
   * one, and only as many go as must.
   */
  lemma EvictsLeastRecent(raw: Key -> Jpeg, st: State, id: nat, limit: nat) returns (n: nat)
    requires Inv(raw, st, limit) && id in st.encoding && id < |st.jobs|
    ensures var job := st.jobs[id]; var jpeg := Encoding(raw, job);
      var filled := st.cache + [Entry(job.key, jpeg)]; var r := Encoded(st, id, jpeg, limit);
      && n <= |filled| && r.cache == filled[n..] && r.bytes <= limit
      && (n > 0 ==> Total(filled[n - 1..]) > limit)
      && (forall i, j :: 0 <= i < n <= j < |filled| ==>
            LastUse(r.uses, filled[i].key) < LastUse(r.uses, filled[j].key))
  {
    n := EncodedCache(raw, st, id, limit);
  }

  /* ---------------------------------------------------------------- the module's maps, changed in place */

  class Cache {
    const limit: nat
    var cache: seq<Entry>
    var pending: map<Key, nat>
    var bytes: int
    var jobs: seq<Job>
    var encoding: set<nat>
    var unsettled: set<nat>
    var uses: seq<Key>

    function Value(): State
      reads this
    {
      State(cache, pending, bytes, jobs, encoding, unsettled, uses)
    }

    constructor (limit: nat)
      ensures Value() == START && this.limit == limit
    {
      this.limit := limit;
      cache, pending, bytes, jobs, encoding, unsettled, uses := [], map[], 0, [], {}, {}, [];
    }

    method Jpeg(path: string, frames: nat, i: int) returns (answer: Answer)
      requires frames > 0
      modifies this
      ensures (Value(), answer) == Request(old(Value()), path, frames, i)
    {
      var key := Key(path, Wrap(i, frames));
      var at := Place(cache, key);
      if at < |cache| {
        var hit := cache[at];
        cache := cache[..at] + cache[at + 1..];
        cache := cache + [hit];
        uses := uses + [key];
        return Ready(hit.jpeg);
      }
      if key !in pending {
        encoding := encoding + {|jobs|};
        pending := pending[key := |jobs|];
        jobs := jobs + [Job(key, i, frames)];
      }
      answer := Later(pending[key]);
    }

    /** The `then` of an encode: the new entry goes in and the oldest go out. */
    method OnEncoded(id: nat, jpeg: Jpeg)
      requires id < |jobs|
      modifies this
      ensures Value() == Encoded(old(Value()), id, jpeg, limit)
    {
      var key := jobs[id].key;
      var at := Place(cache, key);
      cache := if at < |cache| then cache[at := Entry(key, jpeg)] else cache + [Entry(key, jpeg)];
      bytes := bytes + |jpeg|;
      ghost var filled, full := cache, bytes;
      while cache != [] && bytes > limit
        invariant Trimmed(cache, bytes, limit) == Trimmed(filled, full, limit)
        invariant full - bytes == Total(filled) - Total(cache)
        invariant Value() == old(Value()).(cache := cache, bytes := bytes)
        decreases |cache|
      {
        bytes := bytes - |cache[0].jpeg|;
        cache := cache[1..];
      }
      encoding, unsettled, uses := encoding - {id}, unsettled + {id}, uses + [key];
    }

    method OnSettled(id: nat)
      requires id < |jobs|
      modifies this
      ensures Value() == Settled(old(Value()), id)
    {
      pending := pending - {jobs[id].key};
      unsettled := unsettled - {id};
    }
  }
}
