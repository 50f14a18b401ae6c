/** The incidents a reviewer sees: one summary per group of the sweep. */
module IncidentReport {
  import opened Integers
  import opened JsonValues
  import opened Incidents

  datatype TypeCount = TypeCount(type_: string, count: nat)

  datatype Incident = Incident(
    id: string, startedAt: int, endedAt: int, open: bool, category: Category, severity: Severity,
    eventIds: seq<string>, types: seq<TypeCount>, undecided: nat)

  function CategoryRank(e: Event): nat {
    match e.category
    case Integrity => 3
    case Uncertain => 2
    case Technical => 1
    case Neutral(_) => 0
  }

  function SeverityRank(e: Event): nat {
    match e.severity
    case Info => 0
    case Low => 1
    case Medium => 2
    case High => 3
  }

  /** The first event of the highest rank. */
  function Top(g: seq<Event>, rank: Event -> nat): Event
    requires g != []
    decreases |g|
  {
    if |g| == 1 then g[0]
    else
      var a, b := Top(g[..|g| - 1], rank), g[|g| - 1];
      if rank(b) > rank(a) then b else a
  }

  function LastEnd(o: Options, g: seq<Event>): int
    requires g != []
    decreases |g|
  {
    if |g| == 1 then EndOf(o, g[0]) else Max(LastEnd(o, g[..|g| - 1]), EndOf(o, g[|g| - 1]))
  }

  /* ---------------------------------------------------------------- counting types */

  function IndexOf(types: seq<TypeCount>, t: string): (r: Option<nat>)
    ensures r.Some? ==> r.value < |types| && types[r.value].type_ == t
    ensures r.None? ==> forall i :: 0 <= i < |types| ==> types[i].type_ != t
  {
    if types == [] then None
    else if types[0].type_ == t then Some(0)
    else
      match IndexOf(types[1..], t)
      case Some(i) => Some(i + 1)
      case None =>
        assert forall i :: 1 <= i < |types| ==> types[i] == types[1..][i - 1];
        None
  }

  function Bump(types: seq<TypeCount>, t: string): seq<TypeCount> {
    match IndexOf(types, t)
    case Some(i) => types[i := TypeCount(t, types[i].count + 1)]
    case None => types + [TypeCount(t, 1)]
  }

  function Tally(g: seq<Event>): seq<TypeCount>
    decreases |g|
  {
    if g == [] then [] else Bump(Tally(g[..|g| - 1]), g[|g| - 1].type_)
  }

  method CountTypes(g: seq<Event>) returns (types: seq<TypeCount>)
    ensures types == Tally(g)
  {
    types := [];
    for i := 0 to |g|
      invariant types == Tally(g[..i])
    {
      assert g[..i + 1][..i] == g[..i] && g[..i + 1][i] == g[i];
      var found := IndexOf(types, g[i].type_);
      if found.Some? {
        types := types[found.value := TypeCount(g[i].type_, types[found.value].count + 1)];
      } else {
        types := types + [TypeCount(g[i].type_, 1)];
      }
    }
    assert g[..|g|] == g;
  }

  function Occurrences(g: seq<Event>, t: string): nat
    decreases |g|
  {
    if g == [] then 0 else Occurrences(g[..|g| - 1], t) + if g[|g| - 1].type_ == t then 1 else 0
  }

  /** Where a type first appears (|g| when it does not). */
  function FirstIndex(g: seq<Event>, t: string): nat
    decreases |g|
  {
    if g == [] then 0
    else if Occurrences(g[..|g| - 1], t) > 0 then FirstIndex(g[..|g| - 1], t)
    else if g[|g| - 1].type_ == t then |g| - 1
    else |g|
  }

  lemma {:induction false} FirstIndexBound(g: seq<Event>, t: string)
    ensures FirstIndex(g, t) <= |g|
    ensures Occurrences(g, t) > 0 ==> FirstIndex(g, t) < |g| && g[FirstIndex(g, t)].type_ == t
    decreases |g|
  {
    if g != [] { FirstIndexBound(g[..|g| - 1], t); }
  }

  /** Each type of the group once, with its number of events, in order of first appearance. */
  lemma TallyCounts(g: seq<Event>)
    ensures forall i :: 0 <= i < |Tally(g)| ==>
      Tally(g)[i].count == Occurrences(g, Tally(g)[i].type_) && Tally(g)[i].count > 0
    ensures forall i, j :: 0 <= i < j < |Tally(g)| ==>
      FirstIndex(g, Tally(g)[i].type_) < FirstIndex(g, Tally(g)[j].type_)
    ensures forall i, j :: 0 <= i < j < |Tally(g)| ==> Tally(g)[i].type_ != Tally(g)[j].type_
    ensures forall t :: Occurrences(g, t) > 0 ==> IndexOf(Tally(g), t).Some?
  {
    TallyIsRight(g);
    TallyIsComplete(g);
    TallyIsOrdered(g);
    TallyIsDistinct(g);
  }

  lemma {:induction false} TallyIsDistinct(g: seq<Event>)
    ensures forall i, j :: 0 <= i < j < |Tally(g)| ==> Tally(g)[i].type_ != Tally(g)[j].type_
    decreases |g|
  {
    if g != [] { TallyIsDistinct(g[..|g| - 1]); }
  }

  lemma {:induction false} TallyIsRight(g: seq<Event>)
    ensures forall i :: 0 <= i < |Tally(g)| ==>
      Tally(g)[i].count == Occurrences(g, Tally(g)[i].type_) && Tally(g)[i].count > 0
    decreases |g|
  {
    if g != [] {
      var init := g[..|g| - 1];
      TallyIsRight(init);
      TallyIsComplete(init);
      TallyIsDistinct(init);
    }
  }

  lemma {:induction false} TallyIsComplete(g: seq<Event>)
    ensures forall t :: Occurrences(g, t) > 0 ==> IndexOf(Tally(g), t).Some?
    decreases |g|
  {
    if g != [] {
      var init, last := g[..|g| - 1], g[|g| - 1].type_;
      TallyIsComplete(init);
      var before, after := Tally(init), Tally(g);
      forall t | Occurrences(g, t) > 0 ensures IndexOf(after, t).Some? {
        if IndexOf(before, t).Some? {
          assert after[IndexOf(before, t).value].type_ == t;
        } else {
          assert t == last && after[|before|].type_ == t;
        }
      }
    }
  }

  lemma {:induction false} TallyIsOrdered(g: seq<Event>)
    ensures forall i, j :: 0 <= i < j < |Tally(g)| ==>
      FirstIndex(g, Tally(g)[i].type_) < FirstIndex(g, Tally(g)[j].type_)
    decreases |g|
  {
    if g != [] {
      var init := g[..|g| - 1];
      TallyIsOrdered(init);
      TallyIsRight(init);
      TallyIsComplete(init);
      var before, after := Tally(init), Tally(g);
      forall i | 0 <= i < |before| ensures FirstIndex(g, before[i].type_)
        == FirstIndex(init, before[i].type_) < |init| {
        FirstIndexBound(init, before[i].type_);
      }
      forall i, j | 0 <= i < j < |after| ensures FirstIndex(g, after[i].type_) < FirstIndex(g, after[j].type_) {
        if j < |before| { assert FirstIndex(init, before[i].type_) < FirstIndex(init, before[j].type_); }
      }
    }
  }

  /* ---------------------------------------------------------------- summaries */

  function Undecided(g: seq<Event>): nat
    decreases |g|
  {
    if g == [] then 0 else Undecided(g[..|g| - 1]) + if g[|g| - 1].reviewed then 0 else 1
  }

  function Ids(g: seq<Event>): seq<string> {
    seq(|g|, i requires 0 <= i < |g| => g[i].id)
  }

  function Summary(o: Options, g: seq<Event>): Incident
    requires g != []
  {
    Incident(g[0].id, g[0].startedAt, LastEnd(o, g), exists i :: 0 <= i < |g| && g[i].endedAt.None?,
             Top(g, CategoryRank).category, Top(g, SeverityRank).severity, Ids(g), Tally(g), Undecided(g))
  }

  lemma {:induction false} TopIsHighest(g: seq<Event>, rank: Event -> nat)
    requires g != []
    ensures Top(g, rank) in g && forall i :: 0 <= i < |g| ==> rank(g[i]) <= rank(Top(g, rank))
    decreases |g|
  {
    if |g| > 1 {
      TopIsHighest(g[..|g| - 1], rank);
      assert forall i :: 0 <= i < |g| - 1 ==> g[i] == g[..|g| - 1][i];
    }
  }

  lemma {:induction false} LastEndIsLatest(o: Options, g: seq<Event>)
    requires g != []
    ensures forall i :: 0 <= i < |g| ==> EndOf(o, g[i]) <= LastEnd(o, g)
    ensures exists i :: 0 <= i < |g| && EndOf(o, g[i]) == LastEnd(o, g)
    decreases |g|
  {
    if |g| > 1 {
      var init := g[..|g| - 1];
      LastEndIsLatest(o, init);
      var k :| 0 <= k < |init| && EndOf(o, init[k]) == LastEnd(o, init);
      assert g[k] == init[k];
      assert forall i :: 0 <= i < |g| - 1 ==> g[i] == init[i];
      assert EndOf(o, g[k]) == LastEnd(o, g) || EndOf(o, g[|g| - 1]) == LastEnd(o, g);
    } else {
      assert EndOf(o, g[0]) == LastEnd(o, g);
    }
  }

  /** The most serious category among the events: integrity, then uncertain, then technical. */
  predicate MostSerious(g: seq<Event>, category: Category) {
    if exists i :: 0 <= i < |g| && g[i].category == Integrity then category == Integrity
    else if exists i :: 0 <= i < |g| && g[i].category == Uncertain then category == Uncertain
    else if exists i :: 0 <= i < |g| && g[i].category == Technical then category == Technical
    else category.Neutral?
  }

  predicate MostSevere(g: seq<Event>, severity: Severity) {
    if exists i :: 0 <= i < |g| && g[i].severity == High then severity == High
    else if exists i :: 0 <= i < |g| && g[i].severity == Medium then severity == Medium
    else if exists i :: 0 <= i < |g| && g[i].severity == Low then severity == Low
    else severity == Info
  }

  /** Nothing of the event lies after `end`: not its start, nor its end, nor now if it is still open. */
  predicate EndsBy(o: Options, e: Event, end: int) {
    e.startedAt <= end && (e.endedAt.Some? ==> e.endedAt.value <= end) && (e.endedAt.None? ==> o.now <= end)
  }

  /** `end` is where something of the event lies. */
  predicate EndsAt(o: Options, e: Event, end: int) {
    e.startedAt == end || e.endedAt == Some(end) || (e.endedAt.None? && o.now == end)
  }

  lemma TopCategory(g: seq<Event>)
    requires g != []
    ensures MostSerious(g, Top(g, CategoryRank).category)
  {
    TopIsHighest(g, CategoryRank);
    var i :| 0 <= i < |g| && g[i] == Top(g, CategoryRank);
  }

  lemma TopSeverity(g: seq<Event>)
    requires g != []
    ensures MostSevere(g, Top(g, SeverityRank).severity)
  {
    TopIsHighest(g, SeverityRank);
    var i :| 0 <= i < |g| && g[i] == Top(g, SeverityRank);
  }

  lemma EndMeans(o: Options, g: seq<Event>)
    requires g != []
    ensures forall i :: 0 <= i < |g| ==> EndsBy(o, g[i], LastEnd(o, g))
    ensures exists i :: 0 <= i < |g| && EndsAt(o, g[i], LastEnd(o, g))
  {
    LastEndIsLatest(o, g);
    var k :| 0 <= k < |g| && EndOf(o, g[k]) == LastEnd(o, g);
    assert EndsAt(o, g[k], LastEnd(o, g));
    forall i | 0 <= i < |g| ensures EndsBy(o, g[i], LastEnd(o, g)) { assert EndOf(o, g[i]) <= LastEnd(o, g); }
  }

  function Unreviewed(g: seq<Event>): set<int> {
    set i | 0 <= i < |g| && !g[i].reviewed
  }

  lemma {:induction false} UndecidedCounts(g: seq<Event>)
    ensures Undecided(g) == |Unreviewed(g)|
    decreases |g|
  {
    if g == [] {
      assert Unreviewed(g) == {};
    } else {
      var n := |g| - 1;
      UndecidedCounts(g[..n]);
      assert Unreviewed(g) == Unreviewed(g[..n]) + if g[n].reviewed then {} else {n};
    }
  }

  /**
   * What a summary says about its events: it is open if one of them is, it has the most serious category, the highest
   * severity and the latest end among them, and counts those nobody has reviewed.
   */
  lemma SummaryMeaning(o: Options, g: seq<Event>)
    requires g != []
    ensures var s := Summary(o, g);
      && MostSerious(g, s.category) && MostSevere(g, s.severity)
      && (forall i :: 0 <= i < |g| ==> EndsBy(o, g[i], s.endedAt))
      && (exists i :: 0 <= i < |g| && EndsAt(o, g[i], s.endedAt))
      && (s.open <==> exists i :: 0 <= i < |g| && g[i].endedAt.None?)
      && (s.open ==> s.endedAt >= o.now)
      && s.undecided == |Unreviewed(g)|
      && |s.eventIds| == |g| && (forall i :: 0 <= i < |g| ==> s.eventIds[i] == g[i].id)
  {
    TopCategory(g);
    TopSeverity(g);
    EndMeans(o, g);
    UndecidedCounts(g);
  }

  /** No flag starts before `time`, and none of a smaller id at it. */
  predicate StartFrom(le: (string, string) -> bool, g: seq<Event>, time: int, id: string) {
    forall e :: e in g ==> time < e.startedAt || (time == e.startedAt && le(id, e.id))
  }

  /** By start, and by id where two start together. */
  predicate InOrderOfStart(le: (string, string) -> bool, g: seq<Event>) {
    forall i, j :: 0 <= i < j < |g| ==>
      g[i].startedAt < g[j].startedAt || (g[i].startedAt == g[j].startedAt && le(g[i].id, g[j].id))
  }

  /** In a group of sorted flags the summary has the id and the start of the earliest one, and the flags in order. */
  lemma SummaryStartsFirst(le: (string, string) -> bool, o: Options, g: seq<Event>)
    requires g != [] && Ordered(le, g) && TotalOrder(le)
    ensures var s := Summary(o, g);
      && (exists e :: e in g && e.id == s.id && e.startedAt == s.startedAt)
      && StartFrom(le, g, s.startedAt, s.id) && InOrderOfStart(le, g)
  {
    assert g[0] in g;
    forall i, j | 0 <= i < j < |g|
      ensures g[i].startedAt < g[j].startedAt || (g[i].startedAt == g[j].startedAt && le(g[i].id, g[j].id))
    {
      assert Before(le, g[i], g[j]);
    }
  }

  function Summaries(o: Options, groups: seq<seq<Event>>): seq<Incident>
    requires forall k :: 0 <= k < |groups| ==> groups[k] != []
  {
    seq(|groups|, k requires 0 <= k < |groups| => Summary(o, groups[k]))
  }

  function Grouped(le: (string, string) -> bool, events: seq<Event>, o: Options): (groups: seq<seq<Event>>)
    ensures forall k :: 0 <= k < |groups| ==> groups[k] != []
  {
    SweepPartitions(o, Sort(le, Flags(events)));
    Sweep(o, Sort(le, Flags(events)))
  }

  method Summarise(o: Options, g: seq<Event>) returns (incident: Incident)
    requires g != []
    ensures incident == Summary(o, g)
  {
    var types := CountTypes(g);
    incident := Incident(g[0].id, g[0].startedAt, LastEnd(o, g), exists i :: 0 <= i < |g| && g[i].endedAt.None?,
      Top(g, CategoryRank).category, Top(g, SeverityRank).severity, Ids(g), types, Undecided(g));
  }

  method GroupIncidents(le: (string, string) -> bool, events: seq<Event>, o: Options) returns (incidents: seq<Incident>)
    ensures incidents == Summaries(o, Grouped(le, events, o))
  {
    var groups := SweepFlags(o, Sort(le, Flags(events)));
    SweepPartitions(o, Sort(le, Flags(events)));
    incidents := [];
    for k := 0 to |groups|
      invariant incidents == Summaries(o, groups)[..k]
    {
      var incident := Summarise(o, groups[k]);
      incidents := incidents + [incident];
    }
  }

  function IncidentOf(incidents: seq<Incident>, eventId: string): (r: Option<nat>)
    ensures r.Some? ==> r.value < |incidents| && eventId in incidents[r.value].eventIds
    ensures r.None? ==> forall k :: 0 <= k < |incidents| ==> eventId !in incidents[k].eventIds
  {
    if incidents == [] then None
    else if eventId in incidents[0].eventIds then Some(0)
    else
      match IncidentOf(incidents[1..], eventId)
      case Some(k) => Some(k + 1)
      case None =>
        assert forall k :: 1 <= k < |incidents| ==> incidents[k] == incidents[1..][k - 1];
        None
  }

  /* ---------------------------------------------------------------- the whole function */

  /** The sorted flags of distinct events are distinct and ordered. */
  lemma SortedFlags(le: (string, string) -> bool, events: seq<Event>)
    requires TotalOrder(le) && DistinctIds(events)
    ensures var fs := Sort(le, Flags(events));
      Ordered(le, fs) && DistinctIds(fs) && forall e :: e in fs <==> e in events && IsFlag(e)
  {
    var fs := Sort(le, Flags(events));
    SortSorts(le, Flags(events));
    FlagsKeepDistinct(events);
    DistinctPermutation(Flags(events), fs);
    forall e ensures e in fs <==> e in events && IsFlag(e) {
      assert e in fs <==> e in multiset(fs);
      assert e in Flags(events) <==> e in multiset(Flags(events));
    }
  }

  /** The incidents do not depend on the order the events come in. */
  lemma InputOrderIsIrrelevant(le: (string, string) -> bool, events: seq<Event>, shuffled: seq<Event>, o: Options)
    requires TotalOrder(le) && DistinctIds(events) && multiset(events) == multiset(shuffled)
    ensures Grouped(le, events, o) == Grouped(le, shuffled, o)
  {
    FlagsOfPermutation(events, shuffled);
    SortSorts(le, Flags(events));
    SortSorts(le, Flags(shuffled));
    SortedFlags(le, events);
    SortedUnique(le, Sort(le, Flags(events)), Sort(le, Flags(shuffled)));
  }

  lemma IdInGroup(o: Options, groups: seq<seq<Event>>, k: nat, id: string)
    requires forall i :: 0 <= i < |groups| ==> groups[i] != []
    requires k < |groups|
    ensures id in Summaries(o, groups)[k].eventIds <==> exists e :: e in groups[k] && e.id == id
  {
    var g := groups[k];
    if e :| e in g && e.id == id {
      var i :| 0 <= i < |g| && g[i] == e;
      assert Ids(g)[i] == id;
    }
  }

  /** An event has an incident exactly when it is a flag, and it is the incident its group became. */
  lemma IncidentOfFlag(le: (string, string) -> bool, events: seq<Event>, o: Options, e: Event)
    requires TotalOrder(le) && DistinctIds(events) && e in events
    ensures var groups := Grouped(le, events, o);
      var found := IncidentOf(Summaries(o, groups), e.id);
      && (found.Some? <==> e.category == Integrity || e.category == Uncertain || e.category == Technical)
      && (found.Some? ==> InGroup(groups, found.value, e))
  {
    var fs, groups := Sort(le, Flags(events)), Grouped(le, events, o);
    var incidents := Summaries(o, groups);
    var found := IncidentOf(incidents, e.id);
    SortedFlags(le, events);
    Covered(o, fs, e);
    if IsFlag(e) {
      var k :| InGroup(groups, k, e);
      IdInGroup(o, groups, k, e.id);
    }
    if found.Some? {
      IdInGroup(o, groups, found.value, e.id);
      var x: Event :| x in groups[found.value] && x.id == e.id;
      assert InGroup(groups, found.value, x);
      Covered(o, fs, x);
      assert x == e;
    }
  }

  /**
   * Two flags are shown in the same incident if and only if a chain of flags links them, of each two neighbours the
   * earlier reaching the start of the later: by its end, or now if it is open, and the chain and the gap.
   */
  lemma SameIncidentIffConnected(le: (string, string) -> bool, events: seq<Event>, o: Options, a: Event, b: Event)
    requires TotalOrder(le) && DistinctIds(events)
    requires a in events && b in events && IsFlag(a) && IsFlag(b)
    ensures var incidents := Summaries(o, Grouped(le, events, o));
      (IncidentOf(incidents, a.id) == IncidentOf(incidents, b.id)) <==> Connected(o, le, Sort(le, Flags(events)), a, b)
  {
    var fs, groups := Sort(le, Flags(events)), Grouped(le, events, o);
    SortedFlags(le, events);
    IncidentOfFlag(le, events, o, a);
    IncidentOfFlag(le, events, o, b);
    SweepIsComponents(o, le, fs, a, b);
    var i, j := IncidentOf(Summaries(o, groups), a.id).value, IncidentOf(Summaries(o, groups), b.id).value;
    if i == j { assert InGroup(groups, i, a) && InGroup(groups, i, b); }
    if k :| InGroup(groups, k, a) && InGroup(groups, k, b) {
      EachInOneGroup(o, fs, a);
      EachInOneGroup(o, fs, b);
    }
  }

  /** Each incident has the id and the start of the earliest of its flags, and its flags by start and then by id. */
  lemma IncidentStartsFirst(le: (string, string) -> bool, events: seq<Event>, o: Options, k: nat)
    requires TotalOrder(le) && k < |Grouped(le, events, o)|
    ensures var g, s := Grouped(le, events, o)[k], Summaries(o, Grouped(le, events, o))[k];
      && (exists e :: e in g && e.id == s.id && e.startedAt == s.startedAt)
      && StartFrom(le, g, s.startedAt, s.id) && InOrderOfStart(le, g)
  {
    var fs := Sort(le, Flags(events));
    SortSorts(le, Flags(events));
    GroupIsOrdered(o, le, fs, k);
    SummaryStartsFirst(le, o, Sweep(o, fs)[k]);
  }

  /** A flag that starts while an open flag reaches it is in the open flag's incident. */
  lemma OpenFlagCollects(le: (string, string) -> bool, events: seq<Event>, o: Options, a: Event, b: Event)
    requires TotalOrder(le) && DistinctIds(events) && o.gap >= 0
    requires a in events && b in events && IsFlag(a) && IsFlag(b) && a.endedAt.None?
    requires a.startedAt <= b.startedAt <= Max(a.startedAt, o.now) + o.gap
    requires b.startedAt <= a.startedAt + o.chain + o.gap
    ensures var incidents := Summaries(o, Grouped(le, events, o));
      IncidentOf(incidents, a.id) == IncidentOf(incidents, b.id)
  {
    NeighboursShare(le, events, o, a, b);
  }

  /** A closed flag collects what starts up to its end, but no later than the chain after its start, and the gap. */
  lemma ClosedFlagCollects(le: (string, string) -> bool, events: seq<Event>, o: Options, a: Event, b: Event)
    requires TotalOrder(le) && DistinctIds(events) && o.gap >= 0
    requires a in events && b in events && IsFlag(a) && IsFlag(b) && a.endedAt.Some? && a.startedAt <= a.endedAt.value
    requires a.startedAt <= b.startedAt <= Min(a.endedAt.value, a.startedAt + o.chain) + o.gap
    ensures var incidents := Summaries(o, Grouped(le, events, o));
      IncidentOf(incidents, a.id) == IncidentOf(incidents, b.id)
  {
    NeighboursShare(le, events, o, a, b);
  }

  lemma NeighboursShare(le: (string, string) -> bool, events: seq<Event>, o: Options, a: Event, b: Event)
    requires TotalOrder(le) && DistinctIds(events) && o.gap >= 0
    requires a in events && b in events && IsFlag(a) && IsFlag(b)
    requires a.startedAt <= b.startedAt && Reaches(o, a, b.startedAt)
    ensures var incidents := Summaries(o, Grouped(le, events, o));
      IncidentOf(incidents, a.id) == IncidentOf(incidents, b.id)
  {
    var fs := Sort(le, Flags(events));
    SortedFlags(le, events);
    assert Near(o, le, a, b);
    ConnectedSelf(o, le, fs, a);
    ConnectedStep(o, le, fs, a, a, b);
    SameIncidentIffConnected(le, events, o, a, b);
  }

  predicate AllBefore(le: (string, string) -> bool, fs: seq<Event>, e: Event) {
    forall x :: x in fs ==> Before(le, x, e)
  }

  lemma SortMembers(le: (string, string) -> bool, a: seq<Event>, x: Event)
    requires TotalOrder(le)
    ensures x in Sort(le, a) <==> x in a
  {
    SortSorts(le, a);
    assert x in multiset(Sort(le, a)) <==> x in multiset(a);
  }

  lemma {:induction false} FlagsAppend(a: seq<Event>, b: seq<Event>)
    ensures Flags(a + b) == Flags(a) + Flags(b)
    decreases |a|
  {
    if a == [] {
      assert a + b == b;
    } else {
      assert (a + b)[1..] == a[1..] + b && (a + b)[0] == a[0];
      FlagsAppend(a[1..], b);
    }
  }

  /** An element after all of `a` is inserted behind them. */
  lemma {:induction false} InsertBehind(le: (string, string) -> bool, a: seq<Event>, b: seq<Event>, e: Event)
    requires a != [] ==> Before(le, a[|a| - 1], e)
    ensures Insert(le, a + b, e) == a + Insert(le, b, e)
    decreases |b|
  {
    if b == [] {
      assert a + b == a;
    } else {
      var last := b[|b| - 1];
      assert (a + b)[..|a + b| - 1] == a + b[..|b| - 1] && (a + b)[|a + b| - 1] == last;
      InsertBehind(le, a, b[..|b| - 1], e);
      assert Before(le, last, e) ==> a + b + [e] == a + (b + [e]);
    }
  }

  lemma {:induction false} SortAppend(le: (string, string) -> bool, a: seq<Event>, b: seq<Event>)
    requires TotalOrder(le)
    requires forall i :: 0 <= i < |b| ==> AllBefore(le, a, b[i])
    ensures Sort(le, a + b) == Sort(le, a) + Sort(le, b)
    decreases |b|
  {
    if b == [] {
      assert a + b == a;
    } else {
      var init, e := b[..|b| - 1], b[|b| - 1];
      assert (a + b)[..|a + b| - 1] == a + init;
      SortAppend(le, a, init);
      var sorted := Sort(le, a);
      if sorted != [] { SortMembers(le, a, sorted[|sorted| - 1]); }
      InsertBehind(le, sorted, Sort(le, init), e);
    }
  }

  /** Every incident but the last is the same, and the last keeps its id and its events. */
  predicate Extends(before: seq<Incident>, after: seq<Incident>) {
    && 0 < |before| <= |after|
    && (forall k :: 0 <= k < |before| - 1 ==> after[k] == before[k])
    && after[|before| - 1].id == before[|before| - 1].id
    && before[|before| - 1].eventIds <= after[|before| - 1].eventIds
  }

  predicate NoneEmpty(groups: seq<seq<Event>>) {
    forall k :: 0 <= k < |groups| ==> groups[k] != []
  }

  lemma SummariesExtend(o: Options, before: seq<seq<Event>>, after: seq<seq<Event>>)
    requires NoneEmpty(before) && NoneEmpty(after)
    requires 0 < |before| <= |after| && forall k :: 0 <= k < |before| - 1 ==> after[k] == before[k]
    requires before[|before| - 1] <= after[|before| - 1]
    ensures Extends(Summaries(o, before), Summaries(o, after))
  {
    var n := |before| - 1;
    assert Ids(before[n]) <= Ids(after[n]);
  }

  lemma SweepExtends(o: Options, fs: seq<Event>, more: seq<Event>)
    requires fs != [] && NoneEmpty(Sweep(o, fs)) && NoneEmpty(Sweep(o, fs + more))
    ensures Extends(Summaries(o, Sweep(o, fs)), Summaries(o, Sweep(o, fs + more)))
  {
    SweepPartitions(o, fs);
    AppendingExtendsLast(o, fs, more);
    SummariesExtend(o, Sweep(o, fs), Sweep(o, fs + more));
  }

  /** Events that sort after all there were leave every incident but the last unchanged, and extend that one at most. */
  lemma LaterEventsKeepIncidents(le: (string, string) -> bool, events: seq<Event>, more: seq<Event>, o: Options)
    requires TotalOrder(le) && Flags(events) != []
    requires forall x, y :: x in events && y in more ==> Before(le, x, y)
    ensures Extends(Summaries(o, Grouped(le, events, o)), Summaries(o, Grouped(le, events + more, o)))
  {
    LaterSorted(le, events, more);
    var fs, later := Sort(le, Flags(events)), Sort(le, Flags(more));
    SortMembers(le, Flags(events), Flags(events)[0]);
    SweptNonempty(o, fs);
    SweptNonempty(o, fs + later);
    SweepExtends(o, fs, later);
  }

  lemma SweptNonempty(o: Options, fs: seq<Event>)
    ensures NoneEmpty(Sweep(o, fs))
  {
    SweepPartitions(o, fs);
  }

  lemma LaterSorted(le: (string, string) -> bool, events: seq<Event>, more: seq<Event>)
    requires TotalOrder(le)
    requires forall x, y :: x in events && y in more ==> Before(le, x, y)
    ensures Sort(le, Flags(events + more)) == Sort(le, Flags(events)) + Sort(le, Flags(more))
  {
    FlagsAppend(events, more);
    forall i | 0 <= i < |Flags(more)| ensures AllBefore(le, Flags(events), Flags(more)[i]) {
      assert Flags(more)[i] in Flags(more);
    }
    SortAppend(le, Flags(events), Flags(more));
  }
}
