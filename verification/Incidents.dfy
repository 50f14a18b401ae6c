/** Grouping a session's flags into incidents: a sort, then one sweep with a clipped running end. */
module Incidents {
  import opened Integers
  import opened JsonValues

  datatype Category = Integrity | Uncertain | Technical | Neutral(name: string)

  datatype Severity = Info | Low | Medium | High

  datatype Event = Event(id: string, type_: string, category: Category, severity: Severity,
                         startedAt: int, endedAt: Option<int>, reviewed: bool)

  datatype Options = Options(now: int, gap: int, chain: int)

  /** Where a flag ends; one still open ends now, but never before it starts. */
  function EndOf(o: Options, e: Event): int {
    Max(e.startedAt, if e.endedAt.Some? then e.endedAt.value else o.now)
  }

  /** How far a flag can extend its incident. */
  function ClippedEnd(o: Options, e: Event): int {
    Min(EndOf(o, e), e.startedAt + o.chain)
  }

  predicate IsFlag(e: Event) {
    e.category in {Integrity, Uncertain, Technical}
  }

  function Flags(events: seq<Event>): (r: seq<Event>)
    ensures forall e :: e in r <==> e in events && IsFlag(e)
  {
    if events == [] then [] else (if IsFlag(events[0]) then [events[0]] else []) + Flags(events[1..])
  }

  /* ---------------------------------------------------------------- sorting */

  /** The comparison of ids is a parameter: the sort only needs it to be a total order. */
  ghost predicate TotalOrder(le: (string, string) -> bool) {
    && (forall a, b :: le(a, b) || le(b, a))
    && (forall a, b :: le(a, b) && le(b, a) ==> a == b)
    && (forall a, b, c :: le(a, b) && le(b, c) ==> le(a, c))
  }

  predicate Before(le: (string, string) -> bool, a: Event, b: Event) {
    a.startedAt < b.startedAt || (a.startedAt == b.startedAt && le(a.id, b.id))
  }

  predicate Ordered(le: (string, string) -> bool, fs: seq<Event>) {
    forall i, j :: 0 <= i < j < |fs| ==> Before(le, fs[i], fs[j])
  }

  predicate DistinctIds(events: seq<Event>) {
    forall i, j :: 0 <= i < j < |events| ==> events[i].id != events[j].id
  }

  function Insert(le: (string, string) -> bool, fs: seq<Event>, e: Event): seq<Event> {
    if fs != [] && !Before(le, fs[|fs| - 1], e) then Insert(le, fs[..|fs| - 1], e) + [fs[|fs| - 1]]
    else fs + [e]
  }

  /** By start, then id; equal elements keep their order. */
  function Sort(le: (string, string) -> bool, events: seq<Event>): seq<Event> {
    if events == [] then [] else Insert(le, Sort(le, events[..|events| - 1]), events[|events| - 1])
  }

  lemma {:induction false} InsertAdds(le: (string, string) -> bool, fs: seq<Event>, e: Event)
    ensures multiset(Insert(le, fs, e)) == multiset(fs) + multiset{e}
    decreases |fs|
  {
    if fs != [] && !Before(le, fs[|fs| - 1], e) {
      assert fs == fs[..|fs| - 1] + [fs[|fs| - 1]];
      InsertAdds(le, fs[..|fs| - 1], e);
    }
  }

  lemma {:induction false} InsertSorts(le: (string, string) -> bool, fs: seq<Event>, e: Event)
    requires TotalOrder(le) && Ordered(le, fs)
    ensures Ordered(le, Insert(le, fs, e))
    decreases |fs|
  {
    if fs != [] && !Before(le, fs[|fs| - 1], e) {
      var init, last := fs[..|fs| - 1], fs[|fs| - 1];
      InsertSorts(le, init, e);
      InsertAdds(le, init, e);
      var r := Insert(le, init, e);
      forall i | 0 <= i < |r| ensures Before(le, r[i], last) {
        assert r[i] in multiset(r);
        if r[i] in init {
          var k :| 0 <= k < |init| && init[k] == r[i];
          assert Before(le, fs[k], fs[|fs| - 1]);
        }
      }
    } else if fs != [] {
      var last := fs[|fs| - 1];
      forall i | 0 <= i < |fs| ensures Before(le, fs[i], e) {
        assert i == |fs| - 1 || Before(le, fs[i], last);
      }
    }
  }

  lemma {:induction false} SortSorts(le: (string, string) -> bool, events: seq<Event>)
    requires TotalOrder(le)
    ensures Ordered(le, Sort(le, events)) && multiset(Sort(le, events)) == multiset(events)
    decreases |events|
  {
    if events != [] {
      var init, last := events[..|events| - 1], events[|events| - 1];
      assert events == init + [last];
      SortSorts(le, init);
      InsertSorts(le, Sort(le, init), last);
      InsertAdds(le, Sort(le, init), last);
    }
  }

  lemma DistinctCounts(events: seq<Event>, e: Event)
    requires DistinctIds(events) && e in events
    ensures multiset(events)[e] == 1
  {
    var i :| 0 <= i < |events| && events[i] == e;
    assert events == events[..i] + [e] + events[i + 1..];
    assert e !in events[..i] && e !in events[i + 1..];
  }

  lemma FirstComesFirst(le: (string, string) -> bool, fs: seq<Event>, i: nat)
    requires Ordered(le, fs) && i < |fs|
    ensures fs[0] == fs[i] || Before(le, fs[0], fs[i])
  {
  }

  lemma BothWays(le: (string, string) -> bool, x: Event, y: Event)
    requires TotalOrder(le) && (x == y || Before(le, x, y)) && (x == y || Before(le, y, x))
    ensures x.id == y.id
  {
  }

  lemma SameById(events: seq<Event>, x: Event, y: Event)
    requires DistinctIds(events) && x in events && y in events && x.id == y.id
    ensures x == y
  {
  }

  lemma SameHead(le: (string, string) -> bool, a: seq<Event>, b: seq<Event>)
    requires TotalOrder(le) && Ordered(le, a) && Ordered(le, b) && DistinctIds(a)
    requires a != [] && b != [] && a[0] in b && b[0] in a
    ensures a[0] == b[0]
  {
    var i :| 0 <= i < |a| && a[i] == b[0];
    var j :| 0 <= j < |b| && b[j] == a[0];
    FirstComesFirst(le, a, i);
    FirstComesFirst(le, b, j);
    BothWays(le, a[0], b[0]);
    SameById(a, a[0], b[0]);
  }

  /** With distinct ids there is one sorted arrangement. */
  lemma {:induction false} SortedUnique(le: (string, string) -> bool, a: seq<Event>, b: seq<Event>)
    requires TotalOrder(le) && Ordered(le, a) && Ordered(le, b)
    requires multiset(a) == multiset(b) && DistinctIds(a)
    ensures a == b
    decreases |a|
  {
    SameElements(a, b);
    if a != [] {
      SameHead(le, a, b);
      TailIsSorted(le, a);
      TailIsSorted(le, b);
      TailIsDistinct(a);
      SameTails(a, b);
      SortedUnique(le, a[1..], b[1..]);
      assert a == [a[0]] + a[1..] && b == [b[0]] + b[1..];
    }
  }

  lemma SameElements(a: seq<Event>, b: seq<Event>)
    requires multiset(a) == multiset(b)
    ensures |a| == |b| && (a != [] ==> a[0] in b && b[0] in a)
  {
    assert |a| == |multiset(a)| == |multiset(b)| == |b|;
    if a != [] { assert a[0] in multiset(a) && b[0] in multiset(b); }
  }

  lemma SameTails(a: seq<Event>, b: seq<Event>)
    requires multiset(a) == multiset(b) && a != [] && b != [] && a[0] == b[0]
    ensures multiset(a[1..]) == multiset(b[1..])
  {
    TailCounts(a);
    TailCounts(b);
  }

  lemma TailIsSorted(le: (string, string) -> bool, a: seq<Event>)
    requires Ordered(le, a) && a != []
    ensures Ordered(le, a[1..])
  {
  }

  lemma TailIsDistinct(a: seq<Event>)
    requires DistinctIds(a) && a != []
    ensures DistinctIds(a[1..])
  {
  }

  lemma TailCounts(a: seq<Event>)
    requires a != []
    ensures multiset(a[1..]) == multiset(a) - multiset{a[0]}
  {
    assert a == [a[0]] + a[1..];
  }

  lemma {:induction false} FlagsOfPermutation(a: seq<Event>, b: seq<Event>)
    requires multiset(a) == multiset(b)
    ensures multiset(Flags(a)) == multiset(Flags(b))
    decreases |a|
  {
    forall e ensures multiset(Flags(a))[e] == multiset(Flags(b))[e] {
      FlagCount(a, e);
      FlagCount(b, e);
    }
  }

  lemma {:induction false} FlagCount(events: seq<Event>, e: Event)
    ensures multiset(Flags(events))[e] == if IsFlag(e) then multiset(events)[e] else 0
    decreases |events|
  {
    if events != [] {
      FlagCount(events[1..], e);
      assert events == [events[0]] + events[1..];
    }
  }

  lemma {:induction false} FlagsKeepDistinct(events: seq<Event>)
    requires DistinctIds(events)
    ensures DistinctIds(Flags(events))
    decreases |events|
  {
    if events != [] {
      FlagsKeepDistinct(events[1..]);
      forall e | e in Flags(events[1..]) ensures e.id != events[0].id {
        var i :| 0 <= i < |events[1..]| && events[1..][i] == e;
        assert events[i + 1] == e;
      }
    }
  }

  lemma DistinctPermutation(a: seq<Event>, b: seq<Event>)
    requires multiset(a) == multiset(b) && DistinctIds(a)
    ensures DistinctIds(b)
  {
    forall i, j | 0 <= i < j < |b| ensures b[i].id != b[j].id {
      if b[i].id == b[j].id {
        assert b[i] in multiset(a) && b[j] in multiset(a);
        SameById(a, b[i], b[j]);
        TwiceCounts(b, i, j);
        DistinctCounts(a, b[i]);
      }
    }
  }

  lemma TwiceCounts(b: seq<Event>, i: nat, j: nat)
    requires i < j < |b| && b[i] == b[j]
    ensures multiset(b)[b[i]] >= 2
  {
    assert b == b[..j] + b[j..];
    assert b[..j][i] == b[i] && b[j..][0] == b[j];
    assert b[i] in b[..j] && b[i] in b[j..];
  }

  lemma LastIsNew(fs: seq<Event>)
    requires DistinctIds(fs) && fs != []
    ensures fs[|fs| - 1] !in fs[..|fs| - 1]
  {
    var init := fs[..|fs| - 1];
    forall i | 0 <= i < |init| ensures init[i] != fs[|fs| - 1] {
      assert init[i] == fs[i];
    }
  }

  /* ---------------------------------------------------------------- the sweep */

  /** The clipped end of the last group after sweeping `fs`. */
  function SweepEnd(o: Options, fs: seq<Event>): int
    decreases |fs|, 0
  {
    if fs == [] then 0
    else
      var init, e := fs[..|fs| - 1], fs[|fs| - 1];
      if Joins(o, init, e) then Max(SweepEnd(o, init), ClippedEnd(o, e)) else ClippedEnd(o, e)
  }

  predicate Joins(o: Options, fs: seq<Event>, e: Event)
    decreases |fs|, 1
  {
    fs != [] && e.startedAt <= SweepEnd(o, fs) + o.gap
  }

  function Sweep(o: Options, fs: seq<Event>): (groups: seq<seq<Event>>)
    ensures groups == [] <==> fs == []
  {
    if fs == [] then []
    else
      var init, e := fs[..|fs| - 1], fs[|fs| - 1];
      var groups := Sweep(o, init);
      if Joins(o, init, e) then groups[|groups| - 1 := groups[|groups| - 1] + [e]] else groups + [[e]]
  }

  method SweepFlags(o: Options, flags: seq<Event>) returns (groups: seq<seq<Event>>)
    ensures groups == Sweep(o, flags)
  {
    groups := [];
    var end := 0;  // read only once there is a group
    for i := 0 to |flags|
      invariant groups == Sweep(o, flags[..i]) && end == SweepEnd(o, flags[..i])
    {
      var e := flags[i];
      assert flags[..i + 1][..i] == flags[..i] && flags[..i + 1][i] == e;
      var eEnd := Min(Max(e.startedAt, if e.endedAt.Some? then e.endedAt.value else o.now), e.startedAt + o.chain);
      if groups != [] && e.startedAt <= end + o.gap {
        groups := groups[|groups| - 1 := groups[|groups| - 1] + [e]];
        end := Max(end, eEnd);
      } else {
        groups := groups + [[e]];
        end := eEnd;
      }
    }
    assert flags[..|flags|] == flags;
  }

  function Flatten(groups: seq<seq<Event>>): seq<Event> {
    if groups == [] then [] else Flatten(groups[..|groups| - 1]) + groups[|groups| - 1]
  }

  lemma FlattenJoined(groups: seq<seq<Event>>, e: Event)
    requires groups != []
    ensures Flatten(groups[|groups| - 1 := groups[|groups| - 1] + [e]]) == Flatten(groups) + [e]
  {
    var n := |groups| - 1;
    var after := groups[n := groups[n] + [e]];
    assert after[..n] == groups[..n];
    assert Flatten(groups[..n]) + (groups[n] + [e]) == Flatten(groups[..n]) + groups[n] + [e];
  }

  lemma FlattenAdded(groups: seq<seq<Event>>, e: Event)
    ensures Flatten(groups + [[e]]) == Flatten(groups) + [e]
  {
    assert (groups + [[e]])[..|groups|] == groups;
  }

  lemma {:induction false} SweepFlattens(o: Options, fs: seq<Event>)
    ensures Flatten(Sweep(o, fs)) == fs
    decreases |fs|
  {
    if fs != [] {
      var init, e := fs[..|fs| - 1], fs[|fs| - 1];
      SweepFlattens(o, init);
      assert fs == init + [e];
      if Joins(o, init, e) { FlattenJoined(Sweep(o, init), e); } else { FlattenAdded(Sweep(o, init), e); }
    }
  }

  lemma {:induction false} SweepHasNoEmpty(o: Options, fs: seq<Event>)
    ensures forall k :: 0 <= k < |Sweep(o, fs)| ==> Sweep(o, fs)[k] != []
    decreases |fs|
  {
    if fs != [] { SweepHasNoEmpty(o, fs[..|fs| - 1]); }
  }

  /** The groups, one after the other, are the flags: each flag is in exactly one place of one group. */
  lemma SweepPartitions(o: Options, fs: seq<Event>)
    ensures Flatten(Sweep(o, fs)) == fs
    ensures forall k :: 0 <= k < |Sweep(o, fs)| ==> Sweep(o, fs)[k] != []
  {
    SweepFlattens(o, fs);
    SweepHasNoEmpty(o, fs);
  }

  predicate InGroup(groups: seq<seq<Event>>, k: int, e: Event) {
    0 <= k < |groups| && e in groups[k]
  }

  ghost predicate Together(groups: seq<seq<Event>>, a: Event, b: Event) {
    exists k :: InGroup(groups, k, a) && InGroup(groups, k, b)
  }

  ghost predicate Placed(groups: seq<seq<Event>>, e: Event) {
    exists k :: InGroup(groups, k, e)
  }

  lemma {:induction false} Covered(o: Options, fs: seq<Event>, e: Event)
    ensures e in fs <==> Placed(Sweep(o, fs), e)
    decreases |fs|
  {
    if fs != [] {
      var init, last := fs[..|fs| - 1], fs[|fs| - 1];
      assert fs == init + [last];
      var groups, before := Sweep(o, fs), Sweep(o, init);
      Covered(o, init, e);
      if e == last {
        assert InGroup(groups, |groups| - 1, e);
        assert Placed(groups, e) && e in fs;
      } else {
        assert e in fs <==> e in init;
        if e in init {
          var k :| InGroup(before, k, e);
          assert InGroup(groups, k, e);
        }
        forall k | InGroup(groups, k, e) ensures e in init { assert InGroup(before, k, e); }
      }
    }
  }

  /* ---------------------------------------------------------------- the declarative meaning */

  /**
   * The time is no later than the gap after the flag: after its start, or its end, or now if it is still open; and
   * never later than the gap and the chain after its start.
   */
  predicate Reaches(o: Options, a: Event, time: int) {
    && time <= a.startedAt + o.chain + o.gap
    && (|| time <= a.startedAt + o.gap
        || (a.endedAt.Some? && time <= a.endedAt.value + o.gap)
        || (a.endedAt.None? && time <= o.now + o.gap))
  }

  /** The earlier of two flags reaches the start of the later one. */
  predicate Near(o: Options, le: (string, string) -> bool, a: Event, b: Event) {
    if Before(le, a, b) then Reaches(o, a, b.startedAt) else Reaches(o, b, a.startedAt)
  }

  lemma ReachesIffClipped(o: Options, a: Event, time: int)
    ensures Reaches(o, a, time) <==> time <= ClippedEnd(o, a) + o.gap
  {
  }

  /** With non-negative settings: each of the two reaches the start of the other. */
  lemma NearMeansWithinGap(o: Options, le: (string, string) -> bool, a: Event, b: Event)
    requires TotalOrder(le) && o.gap >= 0 && o.chain >= 0
    ensures Near(o, le, a, b) <==> Reaches(o, a, b.startedAt) && Reaches(o, b, a.startedAt)
  {
  }

  predicate IsChain(o: Options, le: (string, string) -> bool, fs: seq<Event>, p: seq<Event>) {
    && p != []
    && (forall i :: 0 <= i < |p| ==> p[i] in fs)
    && (forall i :: 0 <= i < |p| - 1 ==> Near(o, le, p[i], p[i + 1]))
  }

  /** A chain of flags, each near the next, leads from `a` to `b`. */
  ghost predicate Connected(o: Options, le: (string, string) -> bool, fs: seq<Event>, a: Event, b: Event) {
    exists p :: IsChain(o, le, fs, p) && p[0] == a && p[|p| - 1] == b
  }

  lemma NearSymmetric(o: Options, le: (string, string) -> bool, a: Event, b: Event)
    requires TotalOrder(le) && (a == b || a.id != b.id)
    ensures Near(o, le, a, b) <==> Near(o, le, b, a)
  {
  }

  lemma ConnectedSelf(o: Options, le: (string, string) -> bool, fs: seq<Event>, a: Event)
    requires a in fs
    ensures Connected(o, le, fs, a, a)
  {
    assert IsChain(o, le, fs, [a]) && [a][0] == a;
  }

  lemma ConnectedStep(o: Options, le: (string, string) -> bool, fs: seq<Event>, a: Event, b: Event, c: Event)
    requires Connected(o, le, fs, a, b) && c in fs && Near(o, le, b, c)
    ensures Connected(o, le, fs, a, c)
  {
    var p :| IsChain(o, le, fs, p) && p[0] == a && p[|p| - 1] == b;
    assert IsChain(o, le, fs, p + [c]) && (p + [c])[0] == a && (p + [c])[|p|] == c;
  }

  lemma {:induction false} ConnectedAppend(o: Options, le: (string, string) -> bool, fs: seq<Event>, a: Event,
    p: seq<Event>)
    requires IsChain(o, le, fs, p) && Connected(o, le, fs, a, p[0])
    ensures Connected(o, le, fs, a, p[|p| - 1])
    decreases |p|
  {
    if |p| > 1 {
      ConnectedStep(o, le, fs, a, p[0], p[1]);
      assert IsChain(o, le, fs, p[1..]);
      ConnectedAppend(o, le, fs, a, p[1..]);
    }
  }

  lemma ConnectedTransitive(o: Options, le: (string, string) -> bool, fs: seq<Event>, a: Event, b: Event, c: Event)
    requires Connected(o, le, fs, a, b) && Connected(o, le, fs, b, c)
    ensures Connected(o, le, fs, a, c)
  {
    var p :| IsChain(o, le, fs, p) && p[0] == b && p[|p| - 1] == c;
    ConnectedAppend(o, le, fs, a, p);
  }

  lemma ConnectedGrows(o: Options, le: (string, string) -> bool, fs: seq<Event>, more: seq<Event>, a: Event, b: Event)
    requires Connected(o, le, fs, a, b) && forall e :: e in fs ==> e in more
    ensures Connected(o, le, more, a, b)
  {
    var p :| IsChain(o, le, fs, p) && p[0] == a && p[|p| - 1] == b;
    assert IsChain(o, le, more, p);
  }

  /** The running end is the furthest clipped end in the last group, and earlier groups ended out of its reach. */
  lemma {:induction false} SweepInvariant(o: Options, le: (string, string) -> bool, fs: seq<Event>)
    requires Ordered(le, fs) && fs != []
    ensures var groups := Sweep(o, fs);
      && (forall e :: e in groups[|groups| - 1] ==> ClippedEnd(o, e) <= SweepEnd(o, fs))
      && (exists e :: e in groups[|groups| - 1] && ClippedEnd(o, e) == SweepEnd(o, fs))
      && groups[|groups| - 1] != []
      && (forall k, e :: InGroup(groups, k, e) && k < |groups| - 1 ==>
           ClippedEnd(o, e) + o.gap < groups[|groups| - 1][0].startedAt)
    decreases |fs|
  {
    var init, e := fs[..|fs| - 1], fs[|fs| - 1];
    var groups, before := Sweep(o, fs), Sweep(o, init);
    if init != [] {
      SweepInvariant(o, le, init);
      var n := |before| - 1;
      if Joins(o, init, e) {
        assert groups[n] == before[n] + [e] && groups[n][0] == before[n][0];
        var x :| x in before[n] && ClippedEnd(o, x) == SweepEnd(o, init);
        assert x in groups[n] && e in groups[n];
        forall k, y | InGroup(groups, k, y) && k < n ensures ClippedEnd(o, y) + o.gap < groups[n][0].startedAt {
          assert InGroup(before, k, y);
        }
      } else {
        assert groups[n + 1] == [e] && SweepEnd(o, fs) == ClippedEnd(o, e);
        assert e in groups[n + 1];
        forall k, y | InGroup(groups, k, y) && k < n + 1 ensures ClippedEnd(o, y) + o.gap < e.startedAt {
          assert InGroup(before, k, y);
          if k < n {
            assert before[n][0] in before[n];
            Covered(o, init, before[n][0]);
            assert InGroup(before, n, before[n][0]);
            var i :| 0 <= i < |init| && init[i] == before[n][0];
            assert Before(le, fs[i], fs[|fs| - 1]);
          }
        }
      }
    } else {
      assert !Joins(o, init, e) && SweepEnd(o, fs) == ClippedEnd(o, e);
      assert before == [] && groups == [[e]];
      assert e in groups[|groups| - 1];
    }
  }

  lemma OrderedPrefix(le: (string, string) -> bool, fs: seq<Event>)
    requires fs != [] && Ordered(le, fs) && DistinctIds(fs)
    ensures Ordered(le, fs[..|fs| - 1]) && DistinctIds(fs[..|fs| - 1])
  {
  }

  lemma TogetherGrows(o: Options, fs: seq<Event>, a: Event, b: Event)
    requires fs != [] && Together(Sweep(o, fs[..|fs| - 1]), a, b)
    ensures Together(Sweep(o, fs), a, b)
  {
    var before, groups := Sweep(o, fs[..|fs| - 1]), Sweep(o, fs);
    var k :| InGroup(before, k, a) && InGroup(before, k, b);
    assert InGroup(groups, k, a) && InGroup(groups, k, b);
  }

  /** Two flags near each other fall into one group. */
  lemma {:induction false} NearTogether(o: Options, le: (string, string) -> bool, fs: seq<Event>, a: Event, b: Event)
    requires TotalOrder(le) && Ordered(le, fs) && DistinctIds(fs)
    requires a in fs && b in fs && Near(o, le, a, b)
    ensures Together(Sweep(o, fs), a, b)
    decreases |fs|
  {
    var init, e := fs[..|fs| - 1], fs[|fs| - 1];
    assert fs == init + [e];
    OrderedPrefix(le, fs);
    if a in init && b in init {
      NearTogether(o, le, init, a, b);
      TogetherGrows(o, fs, a, b);
    } else if a == b {
      Covered(o, fs, a);
      var k :| InGroup(Sweep(o, fs), k, a);
      assert InGroup(Sweep(o, fs), k, b);
    } else {
      var x := if a == e then b else a;
      var i :| 0 <= i < |init| && init[i] == x;
      assert Before(le, fs[i], fs[|fs| - 1]) && fs[i].id != fs[|fs| - 1].id;
      NearSymmetric(o, le, a, b);
      LastNear(o, le, fs, x);
    }
  }

  /** An earlier flag from the front of the list that reaches the last one is in the last group already. */
  lemma ReachingIsLast(o: Options, le: (string, string) -> bool, init: seq<Event>, e: Event, x: Event) returns (k: int)
    requires init != [] && Ordered(le, init + [e]) && x in init && e.startedAt <= ClippedEnd(o, x) + o.gap
    ensures k == |Sweep(o, init)| - 1 && InGroup(Sweep(o, init), k, x) && Joins(o, init, e)
  {
    var before := Sweep(o, init);
    assert Ordered(le, init) by {
      forall i, j | 0 <= i < j < |init| ensures Before(le, init[i], init[j]) {
        assert Before(le, (init + [e])[i], (init + [e])[j]);
      }
    }
    SweepInvariant(o, le, init);
    Covered(o, init, x);
    k :| InGroup(before, k, x);
    var first := before[|before| - 1][0];
    assert InGroup(before, |before| - 1, first);
    Covered(o, init, first);
    var i :| 0 <= i < |init| && init[i] == first;
    assert Before(le, (init + [e])[i], (init + [e])[|init|]);
  }

  lemma LastNear(o: Options, le: (string, string) -> bool, fs: seq<Event>, x: Event)
    requires TotalOrder(le) && fs != [] && Ordered(le, fs) && DistinctIds(fs)
    requires x in fs[..|fs| - 1] && x.id != fs[|fs| - 1].id
    requires Near(o, le, x, fs[|fs| - 1]) && Before(le, x, fs[|fs| - 1])
    ensures InGroup(Sweep(o, fs), |Sweep(o, fs)| - 1, x) && InGroup(Sweep(o, fs), |Sweep(o, fs)| - 1, fs[|fs| - 1])
  {
    var init, e := fs[..|fs| - 1], fs[|fs| - 1];
    assert fs == init + [e];
    ReachesIffClipped(o, x, e.startedAt);
    var k := ReachingIsLast(o, le, init, e, x);
  }

  /** A flag that joins the last group is near one of its members. */
  lemma JoinedTo(o: Options, le: (string, string) -> bool, fs: seq<Event>) returns (x: Event)
    requires TotalOrder(le) && fs != [] && Ordered(le, fs) && DistinctIds(fs)
    requires Joins(o, fs[..|fs| - 1], fs[|fs| - 1])
    ensures var before := Sweep(o, fs[..|fs| - 1]); InGroup(before, |before| - 1, x)
    ensures x in fs && Near(o, le, x, fs[|fs| - 1]) && Near(o, le, fs[|fs| - 1], x)
  {
    var init, e := fs[..|fs| - 1], fs[|fs| - 1];
    var before := Sweep(o, init);
    SweepInvariant(o, le, init);
    x :| x in before[|before| - 1] && ClippedEnd(o, x) == SweepEnd(o, init);
    assert InGroup(before, |before| - 1, x);
    Covered(o, init, x);
    var i :| 0 <= i < |init| && init[i] == x;
    assert fs[i] == x && Before(le, fs[i], fs[|fs| - 1]) && fs[i].id != fs[|fs| - 1].id;
    ReachesIffClipped(o, x, e.startedAt);
    NearSymmetric(o, le, x, e);
  }

  lemma OneMoreOrdered(le: (string, string) -> bool, fs: seq<Event>, e: Event)
    requires Ordered(le, fs) && forall i :: 0 <= i < |fs| ==> Before(le, fs[i], e)
    ensures Ordered(le, fs + [e])
  {
  }

  lemma PrefixOrdered(le: (string, string) -> bool, fs: seq<Event>)
    requires Ordered(le, fs) && fs != []
    ensures Ordered(le, fs[..|fs| - 1])
  {
  }

  /** Groups of sorted flags are sorted. */
  lemma {:induction false} GroupIsOrdered(o: Options, le: (string, string) -> bool, fs: seq<Event>, k: int)
    requires Ordered(le, fs) && 0 <= k < |Sweep(o, fs)|
    ensures Ordered(le, Sweep(o, fs)[k])
    decreases |fs|
  {
    var init, e := fs[..|fs| - 1], fs[|fs| - 1];
    var groups, before := Sweep(o, fs), Sweep(o, init);
    PrefixOrdered(le, fs);
    if k < |before| {
      GroupIsOrdered(o, le, init, k);
      if groups[k] != before[k] {
        forall i | 0 <= i < |before[k]| ensures Before(le, before[k][i], e) {
          assert InGroup(before, k, before[k][i]);
          Covered(o, init, before[k][i]);
          var n :| 0 <= n < |init| && init[n] == before[k][i];
          assert Before(le, fs[n], fs[|fs| - 1]);
        }
        OneMoreOrdered(le, before[k], e);
        assert groups[k] == before[k] + [e];
      } else {
        assert Ordered(le, groups[k]);
      }
    } else {
      assert groups[k] == [e];
    }
  }

  /** Every member of a group is connected to every other. */
  lemma {:induction false} TogetherConnected(o: Options, le: (string, string) -> bool, fs: seq<Event>, k: int,
    a: Event, b: Event)
    requires TotalOrder(le) && Ordered(le, fs) && DistinctIds(fs)
    requires InGroup(Sweep(o, fs), k, a) && InGroup(Sweep(o, fs), k, b)
    ensures Connected(o, le, fs, a, b)
    decreases |fs|
  {
    var init, e := fs[..|fs| - 1], fs[|fs| - 1];
    assert fs == init + [e];
    var groups, before := Sweep(o, fs), Sweep(o, init);
    OrderedPrefix(le, fs);
    assert e in fs;
    if InGroup(before, k, a) && InGroup(before, k, b) {
      TogetherConnected(o, le, init, k, a, b);
      ConnectedGrows(o, le, init, fs, a, b);
    } else if a == b {
      ConnectedSelf(o, le, fs, a);
    } else {
      assert Joins(o, init, e) && k == |before| - 1;
      var x := JoinedTo(o, le, fs);
      if b == e {
        TogetherConnected(o, le, init, k, a, x);
        ConnectedGrows(o, le, init, fs, a, x);
        ConnectedStep(o, le, fs, a, x, e);
      } else {
        TogetherConnected(o, le, init, k, x, b);
        ConnectedGrows(o, le, init, fs, x, b);
        ConnectedSelf(o, le, fs, e);
        ConnectedStep(o, le, fs, e, e, x);
        ConnectedTransitive(o, le, fs, e, x, b);
      }
    }
  }

  ghost predicate SoleGroup(groups: seq<seq<Event>>, e: Event) {
    forall k, l :: InGroup(groups, k, e) && InGroup(groups, l, e) ==> k == l
  }

  lemma InNoGroup(o: Options, fs: seq<Event>, e: Event, k: int)
    requires e !in fs
    ensures !InGroup(Sweep(o, fs), k, e)
  {
    Covered(o, fs, e);
  }

  lemma {:induction false} EachInOneGroup(o: Options, fs: seq<Event>, e: Event)
    requires DistinctIds(fs)
    ensures SoleGroup(Sweep(o, fs), e)
    decreases |fs|
  {
    if fs != [] {
      var init, last := fs[..|fs| - 1], fs[|fs| - 1];
      var groups, before := Sweep(o, fs), Sweep(o, init);
      EachInOneGroup(o, init, e);
      forall k, l | InGroup(groups, k, e) && InGroup(groups, l, e) ensures k == l {
        if e == last {
          LastIsNew(fs);
          InNoGroup(o, init, e, k);
          InNoGroup(o, init, e, l);
        } else {
          assert InGroup(before, k, e) && InGroup(before, l, e);
        }
      }
    }
  }

  lemma {:induction false} ChainTogether(o: Options, le: (string, string) -> bool, fs: seq<Event>, p: seq<Event>)
    requires TotalOrder(le) && Ordered(le, fs) && DistinctIds(fs) && IsChain(o, le, fs, p)
    ensures Together(Sweep(o, fs), p[0], p[|p| - 1])
    decreases |p|
  {
    var groups := Sweep(o, fs);
    if |p| == 1 {
      Covered(o, fs, p[0]);
      var k :| InGroup(groups, k, p[0]);
      assert InGroup(groups, k, p[|p| - 1]);
    } else {
      NearTogether(o, le, fs, p[0], p[1]);
      assert IsChain(o, le, fs, p[1..]);
      ChainTogether(o, le, fs, p[1..]);
      var k :| InGroup(groups, k, p[0]) && InGroup(groups, k, p[1]);
      var l :| InGroup(groups, l, p[1]) && InGroup(groups, l, p[|p| - 1]);
      EachInOneGroup(o, fs, p[1]);
      assert InGroup(groups, k, p[0]) && InGroup(groups, k, p[|p| - 1]);
    }
  }

  /** The sweep computes the connected components: two flags share an incident iff a chain of near flags links them. */
  lemma SweepIsComponents(o: Options, le: (string, string) -> bool, fs: seq<Event>, a: Event, b: Event)
    requires TotalOrder(le) && Ordered(le, fs) && DistinctIds(fs)
    ensures Together(Sweep(o, fs), a, b) <==> Connected(o, le, fs, a, b)
  {
    if Together(Sweep(o, fs), a, b) {
      var k :| InGroup(Sweep(o, fs), k, a) && InGroup(Sweep(o, fs), k, b);
      TogetherConnected(o, le, fs, k, a, b);
    }
    if Connected(o, le, fs, a, b) {
      var p :| IsChain(o, le, fs, p) && p[0] == a && p[|p| - 1] == b;
      ChainTogether(o, le, fs, p);
    }
  }

  /* ---------------------------------------------------------------- monotonicity and growth */

  predicate AtLeast(larger: Options, o: Options) {
    larger.now >= o.now && larger.gap >= o.gap && larger.chain >= o.chain
  }

  /** Raising the time, the gap or the chain only merges incidents: flags once together stay together. */
  lemma RaisingOnlyMerges(o: Options, larger: Options, le: (string, string) -> bool, fs: seq<Event>, a: Event, b: Event)
    requires TotalOrder(le) && Ordered(le, fs) && DistinctIds(fs) && AtLeast(larger, o)
    requires Together(Sweep(o, fs), a, b)
    ensures Together(Sweep(larger, fs), a, b)
  {
    SweepIsComponents(o, le, fs, a, b);
    var p :| IsChain(o, le, fs, p) && p[0] == a && p[|p| - 1] == b;
    assert IsChain(larger, le, fs, p) by {
      forall i | 0 <= i < |p| - 1 ensures Near(larger, le, p[i], p[i + 1]) { assert Near(o, le, p[i], p[i + 1]); }
    }
    assert Connected(larger, le, fs, a, b);
    SweepIsComponents(larger, le, fs, a, b);
  }

  /** Later flags leave every group but the last as it is; the last keeps its flags, in front. */
  lemma {:induction false} AppendingExtendsLast(o: Options, fs: seq<Event>, more: seq<Event>)
    requires fs != []
    ensures var before, after := Sweep(o, fs), Sweep(o, fs + more);
      && |after| >= |before|
      && (forall k :: 0 <= k < |before| - 1 ==> after[k] == before[k])
      && before[|before| - 1] <= after[|before| - 1]
    decreases |more|
  {
    if more == [] {
      assert fs + more == fs;
    } else {
      var init, e := more[..|more| - 1], more[|more| - 1];
      AppendingExtendsLast(o, fs, init);
      assert (fs + more)[..|fs + more| - 1] == fs + init && (fs + more)[|fs + more| - 1] == e;
    }
  }

  /** Within a group each flag starts at most gap + chain after the one before it. */
  lemma {:induction false} StepSpread(o: Options, le: (string, string) -> bool, fs: seq<Event>, k: int, i: int)
    requires Ordered(le, fs)
    requires 0 <= k < |Sweep(o, fs)| && 0 < i < |Sweep(o, fs)[k]|
    ensures Sweep(o, fs)[k][i].startedAt - Sweep(o, fs)[k][i - 1].startedAt <= o.gap + o.chain
    decreases |fs|
  {
    var init, e := fs[..|fs| - 1], fs[|fs| - 1];
    var groups, before := Sweep(o, fs), Sweep(o, init);
    if k < |before| && i < |before[k]| {
      StepSpread(o, le, init, k, i);
    } else {
      assert Joins(o, init, e) && k == |before| - 1 && i == |before[k]|;
      LastOfLastGroup(o, init);
      SweepInvariant(o, le, init);
      var x :| x in before[k] && ClippedEnd(o, x) == SweepEnd(o, init);
      assert InGroup(before, k, x);
      Covered(o, init, x);
      var n :| 0 <= n < |init| && init[n] == x;
      assert n == |init| - 1 || Before(le, fs[n], fs[|init| - 1]);
    }
  }

  /** So the last of k flags starts at most (k - 1) · (gap + chain) after the first. */
  lemma {:induction false} GroupSpread(o: Options, le: (string, string) -> bool, fs: seq<Event>, k: int, i: int)
    requires Ordered(le, fs)
    requires 0 <= k < |Sweep(o, fs)| && 0 <= i < |Sweep(o, fs)[k]|
    ensures Sweep(o, fs)[k][i].startedAt - Sweep(o, fs)[k][0].startedAt <= i * (o.gap + o.chain)
    decreases i
  {
    if i > 0 {
      GroupSpread(o, le, fs, k, i - 1);
      StepSpread(o, le, fs, k, i);
      assert i * (o.gap + o.chain) == (i - 1) * (o.gap + o.chain) + (o.gap + o.chain);
    }
  }

  lemma LastOfLastGroup(o: Options, fs: seq<Event>)
    requires fs != []
    ensures var groups := Sweep(o, fs);
      groups[|groups| - 1] != [] && groups[|groups| - 1][|groups[|groups| - 1]| - 1] == fs[|fs| - 1]
  {
  }
}
