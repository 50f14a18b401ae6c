/**
 * A policy as the nested object it is stored as: its settings by dotted path, the differences of two, and undoing them.
 */
module PolicyTree {
  import opened JsonValues
  import Strings

  /** Anything but a plain object is a leaf; `None` is a member set to undefined. */
  datatype Tree = Leaf(value: Val) | Branch(entries: seq<Entry>)

  datatype Entry = Entry(key: string, tree: Tree)

  datatype Setting = Setting(path: string, value: Val)

  /** A setting that differs: where, what the exam says and what applies. */
  datatype Exception = Exception(path: string, from: Val, to: Val)

  /* ---------------------------------------------------------------- paths */

  function Dotted(prefix: string, key: string): string {
    if prefix == "" then key else prefix + "." + key
  }

  /** `leaves`: the settings in order, each under its dotted path. */
  function Leaves(t: Tree, prefix: string): seq<Setting>
    decreases t
  {
    match t
    case Leaf(v) => [Setting(prefix, v)]
    case Branch(entries) => EntryLeaves(entries, prefix)
  }

  function EntryLeaves(entries: seq<Entry>, prefix: string): seq<Setting>
    decreases entries
  {
    if entries == [] then []
    else Leaves(entries[0].tree, Dotted(prefix, entries[0].key)) + EntryLeaves(entries[1..], prefix)
  }

  /** `split('.')`. */
  function Split(path: string): (keys: seq<string>)
    ensures keys != []
  {
    Strings.SplitAt(path, '.')
  }

  function Join(keys: seq<string>): string
    requires keys != []
  {
    if |keys| == 1 then keys[0] else keys[0] + "." + Join(keys[1..])
  }

  predicate PlainKey(key: string) {
    key != "" && '.' !in key
  }

  lemma {:induction false} SplitPlain(key: string)
    requires '.' !in key
    ensures Split(key) == [key]
    decreases |key|
  {
    if key != "" {
      assert key == [key[0]] + key[1..];
      SplitPlain(key[1..]);
    }
  }

  lemma {:induction false} SplitDotted(key: string, rest: string)
    requires '.' !in key
    ensures Split(key + "." + rest) == [key] + Split(rest)
    decreases |key|
  {
    var path := key + "." + rest;
    if key == "" {
      assert path[1..] == rest && path[0] == '.';
    } else {
      assert path[0] == key[0] && path[1..] == key[1..] + "." + rest;
      assert key == [key[0]] + key[1..];
      SplitDotted(key[1..], rest);
    }
  }

  /** Splitting a dotted path gives back its keys, so a path names one setting. */
  lemma {:induction false} SplitJoin(keys: seq<string>)
    requires keys != [] && forall k :: k in keys ==> PlainKey(k)
    ensures Split(Join(keys)) == keys
    decreases |keys|
  {
    assert PlainKey(keys[0]);
    if |keys| == 1 {
      SplitPlain(keys[0]);
    } else {
      SplitDotted(keys[0], Join(keys[1..]));
      SplitJoin(keys[1..]);
    }
  }

  /* ---------------------------------------------------------------- differences */

  /** `new Map(...).get(path)`: of several settings with one path the last. */
  function Lookup(settings: seq<Setting>, path: string): Val
    decreases |settings|
  {
    if settings == [] then None
    else if settings[|settings| - 1].path == path then settings[|settings| - 1].value
    else Lookup(settings[..|settings| - 1], path)
  }

  function Differences(before: seq<Setting>, applied: seq<Setting>): seq<Exception>
    decreases |applied|
  {
    if applied == [] then []
    else
      var s := applied[0];
      var from := Lookup(before, s.path);
      (if from == s.value then [] else [Exception(s.path, from, s.value)]) + Differences(before, applied[1..])
  }

  /** `policyExceptions` without attribution; `extraMs` is None or the extra time of the session. */
  function Exceptions(exam: Tree, applied: Tree, baseMs: int, extraMs: Option<int>): seq<Exception> {
    (if extraMs.Some? && extraMs.value > 0
     then [Exception("durationMs", Some(Num(baseMs as real)), Some(Num((baseMs + extraMs.value) as real)))] else [])
    + Differences(Leaves(exam, ""), Leaves(applied, ""))
  }

  lemma {:induction false} DifferencePaths(before: seq<Setting>, applied: seq<Setting>, path: string)
    requires forall i :: 0 <= i < |applied| ==> applied[i].path != path
    ensures forall e :: e in Differences(before, applied) ==> e.path != path
    decreases |applied|
  {
    if applied != [] { DifferencePaths(before, applied[1..], path); }
  }

  /** A longer duration is listed, and first, exactly if there is extra time: from the exam's to that much more. */
  lemma DurationIsListedIff(exam: Tree, applied: Tree, baseMs: int, extraMs: Option<int>)
    requires forall i :: 0 <= i < |Leaves(applied, "")| ==> Leaves(applied, "")[i].path != "durationMs"
    ensures var out := Exceptions(exam, applied, baseMs, extraMs);
      && ((exists e :: e in out && e.path == "durationMs") <==> extraMs.Some? && extraMs.value > 0)
      && (extraMs.Some? && extraMs.value > 0 ==>
            var e := out[0];
            && e.path == "durationMs" && e.from == Some(Num(baseMs as real)) && e.to.Some? && e.to.value.Num?
            && e.to.value.x - e.from.value.x == extraMs.value as real)
  {
    var out := Exceptions(exam, applied, baseMs, extraMs);
    DifferencePaths(Leaves(exam, ""), Leaves(applied, ""), "durationMs");
    if extraMs.Some? && extraMs.value > 0 { assert out[0] in out; }
  }

  lemma OneDifference(before: seq<Setting>, applied: seq<Setting>, out: seq<Exception>)
    requires applied != []
    ensures var s := applied[0];
      var from := Lookup(before, s.path);
      out + Differences(before, applied) ==
        (if from == s.value then out else out + [Exception(s.path, from, s.value)]) + Differences(before, applied[1..])
  {
  }

  method PolicyExceptions(exam: Tree, applied: Tree, baseMs: int, extraMs: Option<int>) returns (out: seq<Exception>)
    ensures out == Exceptions(exam, applied, baseMs, extraMs)
  {
    var before := Leaves(exam, "");
    out := [];
    if extraMs.Some? && extraMs.value > 0 {
      out := out + [Exception("durationMs", Some(Num(baseMs as real)), Some(Num((baseMs + extraMs.value) as real)))];
    }
    ghost var duration := out;
    var settings := Leaves(applied, "");
    assert settings[0..] == settings;
    for i := 0 to |settings|
      invariant duration + Differences(before, settings) == out + Differences(before, settings[i..])
    {
      assert settings[i..][0] == settings[i] && settings[i..][1..] == settings[i + 1..];
      OneDifference(before, settings[i..], out);
      var from := Lookup(before, settings[i].path);
      if from != settings[i].value {
        out := out + [Exception(settings[i].path, from, settings[i].value)];
      }
    }
    assert settings[|settings|..] == [] && out + [] == out;
  }

  /* ---------------------------------------------------------------- setting back */

  function Position(entries: seq<Entry>, key: string): (r: nat)
    ensures r <= |entries|
    ensures r < |entries| ==> entries[r].key == key
    ensures forall i :: 0 <= i < r ==> entries[i].key != key
  {
    if entries == [] || entries[0].key == key then 0 else 1 + Position(entries[1..], key)
  }

  /** Assigns at a path, creating objects on the way; a leaf on the way (null apart) cannot hold members. */
  function Assign(t: Tree, keys: seq<string>, v: Val): Tree
    requires keys != []
    decreases |keys|
  {
    match t
    case Leaf(_) => t
    case Branch(entries) =>
      var i := Position(entries, keys[0]);
      if |keys| == 1 then
        if i < |entries| then Branch(entries[i := Entry(keys[0], Leaf(v))])
          else Branch(entries + [Entry(keys[0], Leaf(v))])
      else if i < |entries| && entries[i].tree != Leaf(None) && entries[i].tree != Leaf(Some(Null)) then
        Branch(entries[i := Entry(keys[0], Assign(entries[i].tree, keys[1..], v))])
      else if i < |entries| then
        Branch(entries[i := Entry(keys[0], Assign(Branch([]), keys[1..], v))])
      else Branch(entries + [Entry(keys[0], Assign(Branch([]), keys[1..], v))])
  }

  function Reverted(t: Tree, exceptions: seq<Exception>): Tree
    decreases |exceptions|
  {
    if exceptions == [] then t
    else
      var e := exceptions[0];
      Reverted(if e.path == "durationMs" then t else Assign(t, Split(e.path), e.from), exceptions[1..])
  }

  method RevertExceptions(applied: Tree, exceptions: seq<Exception>) returns (t: Tree)
    ensures t == Reverted(applied, exceptions)
  {
    t := applied;
    for i := 0 to |exceptions|
      invariant Reverted(t, exceptions[i..]) == Reverted(applied, exceptions)
    {
      assert exceptions[i..][0] == exceptions[i] && exceptions[i..][1..] == exceptions[i + 1..];
      if exceptions[i].path != "durationMs" {
        t := Assign(t, Split(exceptions[i].path), exceptions[i].from);
      }
    }
  }

  /* ---------------------------------------------------------------- shape */

  predicate DistinctKeys(entries: seq<Entry>) {
    forall i, j :: 0 <= i < j < |entries| ==> entries[i].key != entries[j].key
  }

  /** Keys are distinct and contain no dot: what a stored policy looks like. */
  predicate WellKeyed(t: Tree)
    decreases t
  {
    t.Branch? ==>
      && DistinctKeys(t.entries)
      && forall i :: 0 <= i < |t.entries| ==> PlainKey(t.entries[i].key) && WellKeyed(t.entries[i].tree)
  }

  /** The same settings, in the same order, whatever their values. */
  predicate SameShape(a: Tree, b: Tree)
    decreases a
  {
    match a
    case Leaf(_) => b.Leaf?
    case Branch(entries) =>
      && b.Branch? && |entries| == |b.entries|
      && forall i :: 0 <= i < |entries| ==>
        entries[i].key == b.entries[i].key && SameShape(entries[i].tree, b.entries[i].tree)
  }

  /** No setting at the top is called like the entry for extra time. */
  predicate NoDuration(t: Tree) {
    t.Branch? && forall i :: 0 <= i < |t.entries| ==> t.entries[i].key != "durationMs" || t.entries[i].tree.Branch?
  }

  /* ---------------------------------------------------------------- a tree as shape, key lists and values */

  function Under(key: string, lists: seq<seq<string>>): seq<seq<string>> {
    seq(|lists|, i requires 0 <= i < |lists| => [key] + lists[i])
  }

  /** The key lists of the settings, in the order of `Leaves`. */
  function KeyLists(t: Tree): seq<seq<string>>
    decreases t
  {
    match t
    case Leaf(_) => [[]]
    case Branch(entries) => EntryKeyLists(entries)
  }

  function EntryKeyLists(entries: seq<Entry>): seq<seq<string>>
    decreases entries
  {
    if entries == [] then []
    else Under(entries[0].key, KeyLists(entries[0].tree)) + EntryKeyLists(entries[1..])
  }

  function Values(t: Tree): (r: seq<Val>)
    ensures |r| == |KeyLists(t)|
    decreases t
  {
    match t
    case Leaf(v) => [v]
    case Branch(entries) => EntryValues(entries)
  }

  function EntryValues(entries: seq<Entry>): (r: seq<Val>)
    ensures |r| == |EntryKeyLists(entries)|
    decreases entries
  {
    if entries == [] then [] else Values(entries[0].tree) + EntryValues(entries[1..])
  }

  function PathOf(prefix: string, keys: seq<string>): string
    decreases |keys|
  {
    if keys == [] then prefix else PathOf(Dotted(prefix, keys[0]), keys[1..])
  }

  lemma {:induction false} LeafAt(t: Tree, prefix: string, i: nat)
    ensures |Leaves(t, prefix)| == |KeyLists(t)|
    ensures i < |KeyLists(t)| ==> Leaves(t, prefix)[i] == Setting(PathOf(prefix, KeyLists(t)[i]), Values(t)[i])
    decreases t
  {
    if t.Branch? { EntryLeafAt(t.entries, prefix, i); }
  }

  lemma {:induction false} EntryLeafAt(entries: seq<Entry>, prefix: string, i: nat)
    ensures |EntryLeaves(entries, prefix)| == |EntryKeyLists(entries)|
    ensures i < |EntryKeyLists(entries)| ==>
      EntryLeaves(entries, prefix)[i] == Setting(PathOf(prefix, EntryKeyLists(entries)[i]), EntryValues(entries)[i])
    decreases entries
  {
    if entries != [] {
      var n := |KeyLists(entries[0].tree)|;
      LeafAt(entries[0].tree, Dotted(prefix, entries[0].key), i);
      EntryLeafAt(entries[1..], prefix, if i < n then 0 else i - n);
      if i < n { assert EntryKeyLists(entries)[i] == [entries[0].key] + KeyLists(entries[0].tree)[i]; }
    }
  }

  predicate PlainKeys(keys: seq<string>) {
    forall i :: 0 <= i < |keys| ==> PlainKey(keys[i])
  }

  lemma {:induction false} PathAfter(prefix: string, keys: seq<string>)
    requires prefix != "" && PlainKeys(keys) && keys != []
    ensures PathOf(prefix, keys) == prefix + "." + Join(keys)
    decreases |keys|
  {
    if |keys| > 1 {
      PathAfter(prefix + "." + keys[0], keys[1..]);
      assert PathOf(prefix, keys) == prefix + "." + keys[0] + "." + Join(keys[1..]);
    } else {
      assert keys[1..] == [];
    }
  }

  /** The path of a setting splits into the setting's keys. */
  lemma PathSplits(keys: seq<string>)
    requires PlainKeys(keys) && keys != []
    ensures Split(PathOf("", keys)) == keys
  {
    if |keys| == 1 {
      assert keys[1..] == [];
    } else {
      assert forall i :: 0 <= i < |keys[1..]| ==> keys[1..][i] == keys[i + 1];
      PathAfter(keys[0], keys[1..]);
    }
    assert PathOf("", keys) == Join(keys);
    forall k | k in keys ensures PlainKey(k) { }
    SplitJoin(keys);
  }

  lemma {:induction false} EntryKeysPlain(entries: seq<Entry>, i: nat)
    requires WellKeyed(Branch(entries)) && i < |EntryKeyLists(entries)|
    ensures EntryKeyLists(entries)[i] != [] && PlainKeys(EntryKeyLists(entries)[i])
    ensures exists n :: 0 <= n < |entries| && entries[n].key == EntryKeyLists(entries)[i][0]
    decreases entries
  {
    var n := |KeyLists(entries[0].tree)|;
    if i < n {
      assert EntryKeyLists(entries)[i] == [entries[0].key] + KeyLists(entries[0].tree)[i];
      assert WellKeyed(entries[0].tree);
      if entries[0].tree.Branch? { EntryKeysPlain(entries[0].tree.entries, i); }
    } else {
      TailWellKeyed(entries);
      EntryKeysPlain(entries[1..], i - n);
      var m :| 0 <= m < |entries[1..]| && entries[1..][m].key == EntryKeyLists(entries)[i][0];
      assert entries[m + 1].key == EntryKeyLists(entries)[i][0];
    }
  }

  lemma TailWellKeyed(entries: seq<Entry>)
    requires entries != [] && WellKeyed(Branch(entries))
    ensures WellKeyed(Branch(entries[1..])) && WellKeyed(entries[0].tree) && PlainKey(entries[0].key)
    ensures forall i :: 0 <= i < |entries[1..]| ==> entries[1..][i].key != entries[0].key
  {
    forall i | 0 <= i < |entries[1..]|
      ensures PlainKey(entries[1..][i].key) && WellKeyed(entries[1..][i].tree) && entries[1..][i].key != entries[0].key
    {
      assert entries[1..][i] == entries[i + 1];
    }
  }

  lemma {:induction false} KeyListsDistinct(t: Tree, i: nat, j: nat)
    requires WellKeyed(t) && i < j < |KeyLists(t)|
    ensures KeyLists(t)[i] != KeyLists(t)[j]
    decreases t
  {
    if t.Branch? { EntryKeyListsDistinct(t.entries, i, j); }
  }

  lemma {:induction false} EntryKeyListsDistinct(entries: seq<Entry>, i: nat, j: nat)
    requires WellKeyed(Branch(entries)) && i < j < |EntryKeyLists(entries)|
    ensures EntryKeyLists(entries)[i] != EntryKeyLists(entries)[j]
    decreases entries
  {
    var first := KeyLists(entries[0].tree);
    TailWellKeyed(entries);
    if j < |first| {
      KeyListsDistinct(entries[0].tree, i, j);
      assert EntryKeyLists(entries)[i][1..] == first[i] && EntryKeyLists(entries)[j][1..] == first[j];
    } else if i >= |first| {
      EntryKeyListsDistinct(entries[1..], i - |first|, j - |first|);
    } else {
      assert EntryKeyLists(entries)[i][0] == entries[0].key;
      EntryKeysPlain(entries[1..], j - |first|);
      assert EntryKeyLists(entries)[j] == EntryKeyLists(entries[1..])[j - |first|];
    }
  }

  /* ---------------------------------------------------------------- what an assignment changes */

  /** Assignment where an empty key list replaces the whole tree. */
  function AssignAt(t: Tree, keys: seq<string>, v: Val): Tree {
    if keys == [] then Leaf(v) else Assign(t, keys, v)
  }

  lemma {:induction false} SameShapeRefl(t: Tree)
    ensures SameShape(t, t)
    decreases t
  {
    if t.Branch? {
      forall i | 0 <= i < |t.entries| { SameShapeRefl(t.entries[i].tree); }
    }
  }

  /** The number of settings before the p-th entry. */
  function Offset(entries: seq<Entry>, p: nat): nat
    requires p <= |entries|
  {
    if p == 0 then 0 else |KeyLists(entries[0].tree)| + Offset(entries[1..], p - 1)
  }

  /** The entry the i-th setting is in, and its place there. */
  lemma {:induction false} Locate(entries: seq<Entry>, i: nat) returns (p: nat, m: nat)
    requires WellKeyed(Branch(entries)) && i < |EntryKeyLists(entries)|
    ensures p < |entries| && m < |KeyLists(entries[p].tree)| && i == Offset(entries, p) + m
    ensures EntryKeyLists(entries)[i] == [entries[p].key] + KeyLists(entries[p].tree)[m]
    ensures Position(entries, entries[p].key) == p
    decreases entries
  {
    var n := |KeyLists(entries[0].tree)|;
    if i < n {
      p, m := 0, i;
    } else {
      TailWellKeyed(entries);
      p, m := Locate(entries[1..], i - n);
      assert entries[1..][p] == entries[p + 1];
      p := p + 1;
    }
  }

  lemma {:induction false} ReplaceEntry(entries: seq<Entry>, p: nat, m: nat, t: Tree, v: Val)
    requires p < |entries| && m < |KeyLists(entries[p].tree)|
    requires KeyLists(t) == KeyLists(entries[p].tree) && Values(t) == Values(entries[p].tree)[m := v]
    ensures Offset(entries, p) + m < |EntryKeyLists(entries)|
    ensures var r := entries[p := Entry(entries[p].key, t)];
      EntryKeyLists(r) == EntryKeyLists(entries) && EntryValues(r) == EntryValues(entries)[Offset(entries, p) + m := v]
    decreases entries
  {
    var r := entries[p := Entry(entries[p].key, t)];
    if p == 0 {
      assert r[1..] == entries[1..];
    } else {
      ReplaceEntry(entries[1..], p - 1, m, t, v);
      assert r[1..] == entries[1..][p - 1 := Entry(entries[p].key, t)] && r[0] == entries[0];
    }
  }

  /** Assigning at the i-th setting changes its value and nothing else. */
  lemma {:induction false} AssignChangesOne(t: Tree, i: nat, v: Val)
    requires WellKeyed(t) && i < |KeyLists(t)|
    ensures var r := AssignAt(t, KeyLists(t)[i], v);
      && KeyLists(r) == KeyLists(t) && Values(r) == Values(t)[i := v] && SameShape(r, t) && WellKeyed(r)
    decreases t
  {
    if t.Branch? {
      var entries := t.entries;
      var p, m := Locate(entries, i);
      var inner := entries[p].tree;
      AssignChangesOne(inner, m, v);
      var changed := AssignAt(inner, KeyLists(inner)[m], v);
      ReplaceEntry(entries, p, m, changed, v);
      var keys := KeyLists(t)[i];
      assert keys[1..] == KeyLists(inner)[m];
      var r := AssignAt(t, keys, v);
      assert r == Branch(entries[p := Entry(entries[p].key, changed)]);
      ReplacedShape(entries, p, changed);
    }
  }

  lemma ReplacedShape(entries: seq<Entry>, p: nat, changed: Tree)
    requires p < |entries| && WellKeyed(Branch(entries))
    requires SameShape(changed, entries[p].tree) && WellKeyed(changed)
    ensures var r := Branch(entries[p := Entry(entries[p].key, changed)]); SameShape(r, Branch(entries)) && WellKeyed(r)
  {
    var all := entries[p := Entry(entries[p].key, changed)];
    forall n | 0 <= n < |entries| ensures SameShape(all[n].tree, entries[n].tree) && WellKeyed(all[n].tree) {
      SameShapeRefl(entries[n].tree);
    }
  }

  /* ---------------------------------------------------------------- the round trip */

  lemma {:induction false} SameShapeKeys(a: Tree, b: Tree)
    requires SameShape(a, b)
    ensures KeyLists(a) == KeyLists(b)
    decreases a
  {
    if a.Branch? {
      forall i | 0 <= i < |a.entries| { SameShapeKeys(a.entries[i].tree, b.entries[i].tree); }
      EntriesSameKeys(a.entries, b.entries);
    }
  }

  lemma {:induction false} EntriesSameKeys(a: seq<Entry>, b: seq<Entry>)
    requires |a| == |b|
    requires forall i :: 0 <= i < |a| ==> a[i].key == b[i].key && KeyLists(a[i].tree) == KeyLists(b[i].tree)
    ensures EntryKeyLists(a) == EntryKeyLists(b)
    decreases a
  {
    if a != [] { EntriesSameKeys(a[1..], b[1..]); }
  }

  /** Shape and values determine the tree. */
  lemma {:induction false} ShapeAndValues(a: Tree, b: Tree)
    requires SameShape(a, b) && Values(a) == Values(b)
    ensures a == b
    decreases a
  {
    if a.Branch? {
      EntriesShapeAndValues(a, b, a.entries, b.entries);
    } else {
      assert Values(a)[0] == Values(b)[0];
    }
  }

  lemma {:induction false} EntriesShapeAndValues(a: Tree, b: Tree, xs: seq<Entry>, ys: seq<Entry>)
    requires |xs| == |ys| && a.Branch?
    requires forall i :: 0 <= i < |xs| ==>
      xs[i] in a.entries && xs[i].key == ys[i].key && SameShape(xs[i].tree, ys[i].tree)
    requires EntryValues(xs) == EntryValues(ys)
    ensures xs == ys
    decreases a, |xs|
  {
    if xs != [] {
      var u, w := xs[0].tree, ys[0].tree;
      SameShapeKeys(u, w);
      var n := |KeyLists(u)|;
      assert Values(u) == EntryValues(xs)[..n] && Values(w) == EntryValues(ys)[..n];
      assert EntryValues(xs[1..]) == EntryValues(xs)[n..] && EntryValues(ys[1..]) == EntryValues(ys)[n..];
      ShapeAndValues(u, w);
      assert forall i :: 0 <= i < |xs[1..]| ==> xs[1..][i] == xs[i + 1] && ys[1..][i] == ys[i + 1];
      EntriesShapeAndValues(a, b, xs[1..], ys[1..]);
      assert xs == [xs[0]] + xs[1..] && ys == [ys[0]] + ys[1..];
    }
  }

  /** What is left of the values of `t` once the settings from the i-th on are set to what `before` says. */
  ghost predicate SetTo(t: Tree, r: Tree, before: seq<Setting>, i: nat) {
    && KeyLists(r) == KeyLists(t) && WellKeyed(r) && SameShape(r, t)
    && (forall n :: 0 <= n < |KeyLists(t)| && n < i ==> Values(r)[n] == Values(t)[n])
    && (forall n :: 0 <= n < |KeyLists(t)| && n >= i ==> Values(r)[n] == Lookup(before, PathOf("", KeyLists(t)[n])))
  }

  predicate RootSettingsNamed(t: Tree) {
    forall n :: 0 <= n < |KeyLists(t)| ==>
      KeyLists(t)[n] != [] && PlainKeys(KeyLists(t)[n]) && KeyLists(t)[n] != ["durationMs"]
  }

  /** One step of reverting sets the i-th setting, whether or not it was listed. */
  lemma RevertStep(applied: Tree, t: Tree, before: seq<Setting>, i: nat)
    requires WellKeyed(t) && KeyLists(t) == KeyLists(applied) && RootSettingsNamed(applied)
    requires i < |KeyLists(applied)| == |Leaves(applied, "")| && Values(t)[i] == Values(applied)[i]
    ensures var settings := Leaves(applied, "");
      var next := AssignAt(t, KeyLists(t)[i], Lookup(before, PathOf("", KeyLists(t)[i])));
      Reverted(t, Differences(before, settings[i..])) == Reverted(next, Differences(before, settings[i + 1..]))
  {
    var settings := Leaves(applied, "");
    LeafAt(applied, "", i);
    assert settings[i..][0] == settings[i] && settings[i..][1..] == settings[i + 1..];
    var keys := KeyLists(t)[i];
    var from := Lookup(before, settings[i].path);
    var rest := Differences(before, settings[i + 1..]);
    if from == settings[i].value {
      AssignChangesOne(t, i, from);
      assert Values(AssignAt(t, keys, from)) == Values(t);
      ShapeAndValues(AssignAt(t, keys, from), t);
      assert Differences(before, settings[i..]) == [] + rest == rest;
    } else {
      PathSplits(keys);
      PathNotDuration(keys);
      var e := Exception(settings[i].path, from, settings[i].value);
      assert Differences(before, settings[i..]) == [e] + rest && ([e] + rest)[1..] == rest;
    }
  }

  lemma {:induction false} RevertSets(applied: Tree, t: Tree, before: seq<Setting>, i: nat)
    requires WellKeyed(t) && KeyLists(t) == KeyLists(applied) && RootSettingsNamed(applied)
    requires i <= |KeyLists(applied)| == |Leaves(applied, "")|
    requires forall n :: i <= n < |KeyLists(applied)| ==> Values(t)[n] == Values(applied)[n]
    ensures SetTo(t, Reverted(t, Differences(before, Leaves(applied, "")[i..])), before, i)
    decreases |KeyLists(applied)| - i
  {
    var settings := Leaves(applied, "");
    if i == |settings| {
      SameShapeRefl(t);
    } else {
      var from := Lookup(before, PathOf("", KeyLists(t)[i]));
      var next := AssignAt(t, KeyLists(t)[i], from);
      AssignChangesOne(t, i, from);
      RevertStep(applied, t, before, i);
      RevertSets(applied, next, before, i + 1);
      SameShapeTransitive(Reverted(next, Differences(before, settings[i + 1..])), next, t);
    }
  }

  lemma PathNotDuration(keys: seq<string>)
    requires PlainKeys(keys) && keys != [] && keys != ["durationMs"]
    ensures PathOf("", keys) != "durationMs"
  {
    PathSplits(keys);
    SplitPlain("durationMs");
  }

  lemma {:induction false} SameShapeTransitive(a: Tree, b: Tree, c: Tree)
    requires SameShape(a, b) && SameShape(b, c)
    ensures SameShape(a, c)
    decreases a
  {
    if a.Branch? {
      forall i | 0 <= i < |a.entries| { SameShapeTransitive(a.entries[i].tree, b.entries[i].tree, c.entries[i].tree); }
    }
  }

  lemma SettingsNamed(t: Tree)
    requires WellKeyed(t) && NoDuration(t)
    ensures RootSettingsNamed(t)
  {
    forall n | 0 <= n < |KeyLists(t)|
      ensures KeyLists(t)[n] != [] && PlainKeys(KeyLists(t)[n]) && KeyLists(t)[n] != ["durationMs"]
    {
      EntryKeysPlain(t.entries, n);
      var p, m := Locate(t.entries, n);
      if KeyLists(t)[n] == ["durationMs"] {
        var inner := t.entries[p].tree;
        assert KeyLists(t)[n][1..] == KeyLists(inner)[m] == [];
        if inner.Branch? { EntryKeysPlain(inner.entries, m); }
      }
    }
  }

  lemma {:induction false} LookupAt(settings: seq<Setting>, i: nat)
    requires i < |settings|
    requires forall j :: 0 <= j < |settings| && j != i ==> settings[j].path != settings[i].path
    ensures Lookup(settings, settings[i].path) == settings[i].value
    decreases |settings|
  {
    if i < |settings| - 1 {
      assert settings[|settings| - 1].path != settings[i].path;
      LookupAt(settings[..|settings| - 1], i);
    }
  }

  lemma PathsDistinct(t: Tree, i: nat, j: nat)
    requires WellKeyed(t) && RootSettingsNamed(t) && i < |KeyLists(t)| && j < |KeyLists(t)| && i != j
    ensures PathOf("", KeyLists(t)[i]) != PathOf("", KeyLists(t)[j])
  {
    PathSplits(KeyLists(t)[i]);
    PathSplits(KeyLists(t)[j]);
    if i < j { KeyListsDistinct(t, i, j); } else { KeyListsDistinct(t, j, i); }
  }

  lemma LookupFinds(t: Tree, i: nat)
    requires WellKeyed(t) && RootSettingsNamed(t) && i < |KeyLists(t)|
    ensures Lookup(Leaves(t, ""), PathOf("", KeyLists(t)[i])) == Values(t)[i]
  {
    var settings := Leaves(t, "");
    LeafAt(t, "", i);
    forall j | 0 <= j < |settings| && j != i ensures settings[j].path != settings[i].path {
      LeafAt(t, "", j);
      PathsDistinct(t, i, j);
    }
    LookupAt(settings, i);
  }

  /**
   * Reverting the listed exceptions of an applied policy yields the exam's policy if and only if the two have the same
   * settings, with or without an entry for extra time.
   */
  lemma RoundTripIffSameShape(exam: Tree, applied: Tree, baseMs: int, extraMs: Option<int>)
    requires WellKeyed(exam) && WellKeyed(applied) && NoDuration(applied)
    ensures (Reverted(applied, Exceptions(exam, applied, baseMs, extraMs)) == exam) <==> SameShape(exam, applied)
  {
    var before, differences := Leaves(exam, ""), Differences(Leaves(exam, ""), Leaves(applied, ""));
    var exceptions := Exceptions(exam, applied, baseMs, extraMs);
    SettingsNamed(applied);
    LeafAt(applied, "", 0);
    SameShapeRefl(applied);
    RevertSets(applied, applied, before, 0);
    assert Leaves(applied, "")[0..] == Leaves(applied, "");
    var r := Reverted(applied, differences);
    assert Reverted(applied, exceptions) == r by {
      if extraMs.Some? && extraMs.value > 0 {
        assert exceptions[1..] == differences;
      } else {
        assert exceptions == differences;
      }
    }
    if SameShape(exam, applied) {
      SameShapeKeys(exam, applied);
      assert RootSettingsNamed(exam);
      forall n | 0 <= n < |KeyLists(exam)| ensures Values(r)[n] == Values(exam)[n] { LookupFinds(exam, n); }
      assert Values(r) == Values(exam);
      SameShapeSymmetric(exam, applied);
      SameShapeTransitive(r, applied, exam);
      ShapeAndValues(r, exam);
    }
  }

  lemma {:induction false} SameShapeSymmetric(a: Tree, b: Tree)
    requires SameShape(a, b)
    ensures SameShape(b, a)
    decreases a
  {
    if a.Branch? {
      forall i | 0 <= i < |a.entries| { SameShapeSymmetric(a.entries[i].tree, b.entries[i].tree); }
    }
  }
}
