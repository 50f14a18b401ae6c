/** How far the output of a parse can differ from its input, which decides when an intersection can merge its sides. */
module ZodOutputs {
  import opened JsonValues
  import opened ZodSchema

  /** `o` is `j` with some object members left out, at any depth. */
  predicate Stripped(o: Json, j: Json)
    decreases j
  {
    || o == j
    || (&& o.Arr? && j.Arr? && |o.items| == |j.items|
        && forall i :: 0 <= i < |j.items| ==> Stripped(o.items[i], j.items[i]))
    || (&& o.Obj? && j.Obj? && o.members.Keys <= j.members.Keys
        && forall k :: k in o.members ==> Stripped(o.members[k], j.members[k]))
  }

  /** Two strippings of one value always merge, into a stripping of it. */
  lemma {:induction false} MergeStripped(a: Json, b: Json, j: Json)
    requires Stripped(a, j) && Stripped(b, j)
    ensures Merge(a, b).Some? && Stripped(Merge(a, b).value, j)
    decreases j
  {
    if a != b {
      if j.Obj? {
        forall k | k in a.members && k in b.members
          ensures Merge(a.members[k], b.members[k]).Some?
          ensures Stripped(Merge(a.members[k], b.members[k]).value, j.members[k])
        {
          StrippedMember(a, j, k);
          StrippedMember(b, j, k);
          MergeStripped(a.members[k], b.members[k], j.members[k]);
        }
        var m := Merge(a, b).value;
        forall k | k in m.members ensures k in j.members && Stripped(m.members[k], j.members[k]) {
          if k in a.members { StrippedMember(a, j, k); }
          if k in b.members { StrippedMember(b, j, k); }
        }
      } else {
        forall i | 0 <= i < |j.items|
          ensures Merge(a.items[i], b.items[i]).Some?
          ensures Stripped(Merge(a.items[i], b.items[i]).value, j.items[i])
        {
          MergeStripped(a.items[i], b.items[i], j.items[i]);
        }
      }
    }
  }

  lemma StrippedMember(o: Json, j: Json, k: string)
    requires j.Obj? && Stripped(o, j) && k in o.members
    ensures k in j.members && Stripped(o.members[k], j.members[k])
  {
  }

  predicate StrippedVal(out: Val, v: Val) {
    match v
    case None => out.None?
    case Some(j) => out.Some? && Stripped(out.value, j)
  }

  lemma {:induction false} UnchangedString(o: Oracle, checks: seq<StringCheck>, s: string)
    requires forall i :: 0 <= i < |checks| ==> !Mutates(checks[i])
    requires ParseString(o, checks, s).Some?
    ensures ParseString(o, checks, s) == Some(s)
    decreases checks
  {
    if checks != [] {
      assert Mutate(o, checks[0], s) == s;
      UnchangedString(o, checks[1..], s);
    }
  }

  predicate Combines(def: Def) {
    def.ZUnion? || def.ZDiscriminatedUnion? || def.ZIntersection?
  }

  /** What plain schemas return is a stripping of what they were given. */
  lemma {:induction false} PlainOutput(c: Context, s: Zod, v: Val)
    requires Plain(c, s) && Parse(c, s, v).Some?
    ensures StrippedVal(Parse(c, s, v).value, v)
    decreases Reparses(c, s), ValHeight(v), Unfolds(c, s), s, 3
  {
    if s.Named? {
      PlainOutput(c, c.definitions[s.name], v);
    } else if Combines(s.def) {
      PlainCombination(c, s, v);
    } else {
      PlainRest(c, s, v);
    }
  }

  lemma {:induction false} PlainRest(c: Context, s: Zod, v: Val)
    requires s.Node? && !Combines(s.def) && Plain(c, s) && Parse(c, s, v).Some?
    ensures StrippedVal(Parse(c, s, v).value, v)
    decreases Reparses(c, s), ValHeight(v), Unfolds(c, s), s, 2
  {
    var def := s.def;
    if def.ZOptional? {
      if v.Some? { PlainOutput(c, def.inner, v); }
    } else if def.ZNullable? {
      if v != Some(Null) { PlainOutput(c, def.inner, v); }
    } else if def.ZEffects? {
      assert Parse(c, s, v) == ParseEffects(c, s, v);
      PlainOutput(c, def.inner, v);
    } else if def.ZPass? {
      PlainOutput(c, def.inner, v);
    } else if !def.ZUnknown? {
      PlainPresent(c, s, v.value);
    }
  }

  lemma {:induction false} PlainCombination(c: Context, s: Zod, v: Val)
    requires s.Node? && Combines(s.def) && Plain(c, s) && Parse(c, s, v).Some?
    ensures StrippedVal(Parse(c, s, v).value, v)
    decreases Reparses(c, s), ValHeight(v), Unfolds(c, s), s, 2
  {
    assert Parse(c, s, v) == ParseCombination(c, s, v);
    match s.def {
      case ZUnion(options) =>
        var i :| 0 <= i < |options| && Parse(c, options[i], v) == Parse(c, s, v);
        PlainOutput(c, options[i], v);
      case ZDiscriminatedUnion(d, options) =>
        PlainOutput(c, options[OptionFor(c, d, options, Get(v.value.members, d)).value], v);
      case ZIntersection(l, r) =>
        PlainOutput(c, l, v);
        PlainOutput(c, r, v);
        if v.Some? { MergeStripped(Parse(c, l, v).value.value, Parse(c, r, v).value.value, v.value); }
    }
  }

  lemma {:induction false} PlainPresent(c: Context, s: Zod, j: Json)
    requires s.Node? && Plain(c, s) && ParsePresent(c, s, j).Some?
    ensures Stripped(ParsePresent(c, s, j).value, j)
    decreases Reparses(c, s), ValHeight(Some(j)), Unfolds(c, s), s, 1
  {
    match s.def {
      case ZString(checks) => UnchangedString(c.oracle, checks, j.s);
      case ZArray(element, _, _, _) =>
        forall i | 0 <= i < |j.items| { PlainOutput(c, element, Some(j.items[i])); }
      case ZObject(shape, _, catchall) => PlainObject(c, s, j);
      case ZRecord(_, value) =>
        forall k | k in j.members { PlainOutput(c, value, Some(j.members[k])); }
      case _ =>
    }
  }

  lemma {:induction false} PlainObject(c: Context, s: Zod, j: Json)
    requires s.Node? && s.def.ZObject? && Plain(c, s) && ParsePresent(c, s, j).Some?
    ensures Stripped(ParsePresent(c, s, j).value, j)
    decreases Reparses(c, s), ValHeight(Some(j)), Unfolds(c, s), s, 0
  {
    var shape, catchall := s.def.shape, s.def.catchall;
    var out := ParsePresent(c, s, j).value;
    forall k | k in out.members ensures k in j.members && Stripped(out.members[k], j.members[k]) {
      if k in Keys(shape) {
        var field := FieldOf(shape, k).value;
        PlainOutput(c, field, Get(j.members, k));
      } else if catchall.Catchall? {
        PlainOutput(c, catchall.schema, Some(j.members[k]));
      }
    }
  }

  /* ---------------------------------------------------------------- which members of an object can change */

  function Union(a: Option<set<string>>, b: Option<set<string>>): Option<set<string>> {
    if a.Some? && b.Some? then Some(a.value + b.value) else None
  }

  /** The members an output can have when the input is an object (None: any). */
  function Emits(c: Context, s: Zod): Option<set<string>>
    decreases Unfolds(c, s), s
  {
    match s
    case Named(n) => if n in c.definitions then Emits(c, c.definitions[n]) else Some({})
    case Node(_, def) =>
      match def
      case ZObject(shape, unknownKeys, catchall) =>
        if catchall.NoCatchall? && unknownKeys != Passthrough then Some(Keys(shape)) else None
      case ZOptional(inner) => Emits(c, inner)
      case ZNullable(inner) => Emits(c, inner)
      case ZDefault(inner, _) => Emits(c, inner)
      case ZEffects(Refinement, _, inner) => Emits(c, inner)
      case ZPass(_, inner) => Emits(c, inner)
      case ZIntersection(l, r) => Union(Emits(c, l), Emits(c, r))
      case ZUnion(options) => EmitsAny(c, s, options)
      case ZDiscriminatedUnion(_, options) => EmitsAny(c, s, options)
      case ZRecord(_, _) => None
      case ZEffects(_, _, _) => None
      case ZCatch(_, _) => None
      case ZUnknown => None
      case _ => Some({})
  }

  function EmitsAny(c: Context, s: Zod, options: seq<Zod>): (r: Option<set<string>>)
    requires forall i :: 0 <= i < |options| ==> options[i] < s && Unfolds(c, options[i]) <= Unfolds(c, s)
    ensures r.Some? ==> forall i :: 0 <= i < |options| ==>
      Emits(c, options[i]).Some? && Emits(c, options[i]).value <= r.value
    decreases Unfolds(c, s), s, |options|
  {
    if options == [] then Some({})
    else
      assert forall i :: 1 <= i < |options| ==> options[i] == options[1..][i - 1];
      Union(Emits(c, options[0]), EmitsAny(c, s, options[1..]))
  }

  /** The members of an object input that can come out other than stripped (None: anything can). */
  function Touches(c: Context, s: Zod): Option<set<string>>
    decreases Unfolds(c, s), s
  {
    if Plain(c, s) then Some({})
    else
      match s
      case Named(n) => if n in c.definitions then Touches(c, c.definitions[n]) else Some({})
      case Node(_, def) =>
        match def
        case ZObject(shape, _, catchall) =>
          if catchall.NoCatchall? || Plain(c, catchall.schema)
          then Some(set i | 0 <= i < |shape| && !Plain(c, shape[i].schema) :: shape[i].key)
          else None
        case ZOptional(inner) => Touches(c, inner)
        case ZNullable(inner) => Touches(c, inner)
        case ZDefault(inner, _) => Touches(c, inner)
        case ZEffects(Refinement, _, inner) => Touches(c, inner)
        case ZPass(_, inner) => Touches(c, inner)
        case ZIntersection(l, r) => Union(Touches(c, l), Touches(c, r))
        case ZUnion(options) => TouchesAny(c, s, options)
        case ZDiscriminatedUnion(_, options) => TouchesAny(c, s, options)
        case _ => None
  }

  function TouchesAny(c: Context, s: Zod, options: seq<Zod>): (r: Option<set<string>>)
    requires forall i :: 0 <= i < |options| ==> options[i] < s && Unfolds(c, options[i]) <= Unfolds(c, s)
    ensures r.Some? ==> forall i :: 0 <= i < |options| ==>
      Touches(c, options[i]).Some? && Touches(c, options[i]).value <= r.value
    decreases Unfolds(c, s), s, |options|
  {
    if options == [] then Some({})
    else
      assert forall i :: 1 <= i < |options| ==> options[i] == options[1..][i - 1];
      Union(Touches(c, options[0]), TouchesAny(c, s, options[1..]))
  }

  /** `o` is `j` stripped, except for members in `touched`. */
  predicate StrippedBut(o: Json, j: Json, touched: set<string>) {
    if j.Obj? then
      o.Obj? && forall k :: k in o.members && k !in touched ==> k in j.members && Stripped(o.members[k], j.members[k])
    else Stripped(o, j)
  }

  /** `Touches` bounds what a parse does to a JSON value. */
  lemma {:induction false} OutputShape(c: Context, s: Zod, j: Json)
    requires Touches(c, s).Some? && Parse(c, s, Some(j)).Some?
    ensures Item(Parse(c, s, Some(j)))
    ensures StrippedBut(Parse(c, s, Some(j)).value.value, j, Touches(c, s).value)
    decreases Unfolds(c, s), s, 1
  {
    if Plain(c, s) {
      PlainOutput(c, s, Some(j));
    } else if s.Named? {
      OutputShape(c, c.definitions[s.name], j);
    } else if Combines(s.def) {
      CombinationShape(c, s, j);
    } else {
      match s.def {
        case ZObject(shape, _, catchall) => ObjectShape(c, s, j);
        case ZOptional(inner) => OutputShape(c, inner, j);
        case ZNullable(inner) => if !j.Null? { OutputShape(c, inner, j); }
        case ZDefault(inner, _) => OutputShape(c, inner, j);
        case ZEffects(Refinement, _, inner) => OutputShape(c, inner, j);
        case ZPass(_, inner) => OutputShape(c, inner, j);
        case _ =>
      }
    }
  }

  lemma {:induction false} CombinationShape(c: Context, s: Zod, j: Json)
    requires s.Node? && Combines(s.def) && !Plain(c, s) && Touches(c, s).Some? && Parse(c, s, Some(j)).Some?
    ensures Item(Parse(c, s, Some(j)))
    ensures StrippedBut(Parse(c, s, Some(j)).value.value, j, Touches(c, s).value)
    decreases Unfolds(c, s), s, 0
  {
    var v := Some(j);
    assert Parse(c, s, v) == ParseCombination(c, s, v);
    match s.def {
      case ZIntersection(l, r) =>
        OutputShape(c, l, j);
        OutputShape(c, r, j);
        MergedShape(Parse(c, l, v).value.value, Parse(c, r, v).value.value, j,
                    Touches(c, l).value, Touches(c, r).value);
      case ZUnion(options) =>
        var i :| 0 <= i < |options| && Parse(c, options[i], v) == Parse(c, s, v);
        OutputShape(c, options[i], j);
      case ZDiscriminatedUnion(d, options) =>
        OutputShape(c, options[OptionFor(c, d, options, Get(j.members, d)).value], j);
    }
  }

  lemma MergedShape(a: Json, b: Json, j: Json, ta: set<string>, tb: set<string>)
    requires StrippedBut(a, j, ta) && StrippedBut(b, j, tb) && Merge(a, b).Some?
    ensures StrippedBut(Merge(a, b).value, j, ta + tb)
  {
    var m := Merge(a, b).value;
    if !j.Obj? {
      MergeStripped(a, b, j);
    } else if a != b {
      forall k | k in m.members && k !in ta + tb ensures k in j.members && Stripped(m.members[k], j.members[k]) {
        if k in a.members && k in b.members { MergeStripped(a.members[k], b.members[k], j.members[k]); }
      }
    }
  }

  lemma ObjectShape(c: Context, s: Zod, j: Json)
    requires s.Node? && s.def.ZObject? && !Plain(c, s) && Touches(c, s).Some? && Parse(c, s, Some(j)).Some?
    ensures Item(Parse(c, s, Some(j)))
    ensures StrippedBut(Parse(c, s, Some(j)).value.value, j, Touches(c, s).value)
  {
    var shape, catchall := s.def.shape, s.def.catchall;
    var out := ParsePresent(c, s, j).value;
    forall k | k in out.members && k !in Touches(c, s).value
      ensures k in j.members && Stripped(out.members[k], j.members[k])
    {
      if k in Keys(shape) {
        var field := FieldOf(shape, k).value;
        PlainOutput(c, field, Get(j.members, k));
      } else if catchall.Catchall? {
        PlainOutput(c, catchall.schema, Some(j.members[k]));
      }
    }
  }

  ghost predicate EmitsObject(c: Context, s: Zod, j: Json) {
    j.Obj? && Emits(c, s).Some? && Item(Parse(c, s, Some(j))) && Parse(c, s, Some(j)).value.value.Obj?
  }

  /** `Emits` bounds the members of an output. */
  lemma {:induction false} EmitsBounds(c: Context, s: Zod, j: Json)
    requires EmitsObject(c, s, j)
    ensures Parse(c, s, Some(j)).value.value.members.Keys <= Emits(c, s).value
    decreases Unfolds(c, s), s, 1
  {
    if s.Named? {
      EmitsBounds(c, c.definitions[s.name], j);
    } else if Combines(s.def) {
      CombinationEmits(c, s, j);
    } else if s.def.ZEffects? {
      assert Parse(c, s, Some(j)) == ParseEffects(c, s, Some(j));
      EmitsBounds(c, s.def.inner, j);
    } else if s.def.ZOptional? || s.def.ZNullable? || s.def.ZDefault? || s.def.ZPass? {
      EmitsBounds(c, s.def.inner, j);
    }
  }

  lemma {:induction false} CombinationEmits(c: Context, s: Zod, j: Json)
    requires s.Node? && Combines(s.def)
    requires EmitsObject(c, s, j)
    ensures Parse(c, s, Some(j)).value.value.members.Keys <= Emits(c, s).value
    decreases Unfolds(c, s), s, 0
  {
    var v := Some(j);
    assert Parse(c, s, v) == ParseCombination(c, s, v);
    match s.def {
      case ZIntersection(l, r) =>
        EmitsBounds(c, l, j);
        EmitsBounds(c, r, j);
      case ZUnion(options) =>
        var i :| 0 <= i < |options| && Parse(c, options[i], v) == Parse(c, s, v);
        EmitsBounds(c, options[i], j);
      case ZDiscriminatedUnion(d, options) =>
        EmitsBounds(c, options[OptionFor(c, d, options, Get(j.members, d)).value], j);
    }
  }

  /* ---------------------------------------------------------------- when an intersection merges */

  predicate Apart(touched: set<string>, emitted: Option<set<string>>) {
    touched == {} || (emitted.Some? && touched !! emitted.value)
  }

  /** Neither side changes a member the other side returns. */
  predicate Mergeable(c: Context, l: Zod, r: Zod) {
    && Touches(c, l).Some? && Touches(c, r).Some?
    && Apart(Touches(c, l).value, Emits(c, r)) && Apart(Touches(c, r).value, Emits(c, l))
  }

  /** Then the intersection accepts what both sides accept. */
  lemma MergeableMerges(c: Context, l: Zod, r: Zod, j: Json)
    requires Mergeable(c, l, r)
    requires Parse(c, l, Some(j)).Some? && Parse(c, r, Some(j)).Some?
    ensures MergeVal(Parse(c, l, Some(j)).value, Parse(c, r, Some(j)).value).Some?
  {
    OutputShape(c, l, j);
    OutputShape(c, r, j);
    var a, b := Parse(c, l, Some(j)).value.value, Parse(c, r, Some(j)).value.value;
    if !j.Obj? {
      MergeStripped(a, b, j);
    } else if a != b {
      if Emits(c, l).Some? { EmitsBounds(c, l, j); }
      if Emits(c, r).Some? { EmitsBounds(c, r, j); }
      forall k | k in a.members && k in b.members ensures Merge(a.members[k], b.members[k]).Some? {
        MergeStripped(a.members[k], b.members[k], j.members[k]);
      }
    }
  }
}
