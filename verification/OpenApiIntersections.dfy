/** `allOf` asks that both sides accept; zod also has to merge what they return. When the two part. */
module OpenApiIntersections {
  import opened JsonValues
  import opened ZodSchema
  import opened ZodOutputs
  import opened OpenApi
  import opened OpenApiKeywords
  import opened OpenApiMeaning
  import opened OpenApiEquivalence
  import opened OpenApiLimits
  import S = JsonSchema

  /* ---------------------------------------------------------------- any two sides */

  /** Both sides accept the value, and zod cannot merge what they return. */
  predicate Unmergeable(c: Context, l: Zod, r: Zod, j: Json) {
    && Accepts(c, l, Some(j)) && Accepts(c, r, Some(j))
    && MergeVal(Parse(c, l, Some(j)).value, Parse(c, r, Some(j)).value).None?
  }

  lemma IntersectionMeaning(c: Context, s: Zod, j: Json)
    requires Compiles(c) && s.Node? && s.def.ZIntersection? && Convert(c, s).Ok?
    ensures Convert(c, s.def.left).Ok? && Convert(c, s.def.right).Ok?
    ensures S.Valid(DocumentOf(c), Convert(c, s).value, j) <==>
      && S.Valid(DocumentOf(c), Convert(c, s.def.left).value, j)
      && S.Valid(DocumentOf(c), Convert(c, s.def.right).value, j)
  {
    NodeMeaning(c, s, j);
    assert ConvertType(c, s) == ConvertCombination(c, s);
    BagOfBoth(DocumentOf(c), Convert(c, s.def.left).value, Convert(c, s.def.right).value, j);
  }

  lemma IntersectionAccepts(c: Context, s: Zod, j: Json)
    requires s.Node? && s.def.ZIntersection?
    ensures Accepts(c, s, Some(j)) <==>
      Accepts(c, s.def.left, Some(j)) && Accepts(c, s.def.right, Some(j)) && !Unmergeable(c, s.def.left, s.def.right, j)
  {
    assert Parse(c, s, Some(j)) == ParseCombination(c, s, Some(j));
  }

  /** An intersection whose sides convert exactly. */
  ghost predicate ExactSides(c: Context, s: Zod, names: set<string>) {
    && Compiles(c) && NamesCarry(c, names, true) && Convert(c, s).Ok?
    && s.Node? && s.def.ZIntersection?
    && Carries(c, s.def.left, names, true) && Carries(c, s.def.right, names, true)
  }

  /** The schema means that both sides accept. */
  lemma AllOfMeansBoth(c: Context, s: Zod, names: set<string>, j: Json)
    requires ExactSides(c, s, names)
    ensures S.Valid(DocumentOf(c), Convert(c, s).value, j)
      <==> Accepts(c, s.def.left, Some(j)) && Accepts(c, s.def.right, Some(j))
  {
    IntersectionMeaning(c, s, j);
    ConversionPreservesMeaning(c, s.def.left, names, j);
    ConversionPreservesMeaning(c, s.def.right, names, j);
  }

  /** zod and `allOf` differ on a value exactly if both sides accept it and their outputs do not merge. */
  lemma IntersectionDiffersIff(c: Context, s: Zod, names: set<string>, j: Json)
    requires ExactSides(c, s, names)
    ensures (Accepts(c, s, Some(j)) <==> S.Valid(DocumentOf(c), Convert(c, s).value, j))
      <==> !Unmergeable(c, s.def.left, s.def.right, j)
  {
    AllOfMeansBoth(c, s, names, j);
    IntersectionAccepts(c, s, j);
  }

  /* ---------------------------------------------------------------- what an object schema returns */

  predicate IsObject(c: Context, s: Zod) {
    Definition(c, s).Some? && Definition(c, s).value.ZObject?
  }

  function Output(r: Option<Val>): Val {
    if Item(r) then r.value else None
  }

  /** The member `k` of what an object schema returns for the members `m`. */
  function Returned(c: Context, def: Def, m: map<string, Json>, k: string): Val
    requires def.ZObject?
  {
    if k in Keys(def.shape) then Output(Parse(c, FieldOf(def.shape, k).value, Get(m, k)))
    else if k !in m then None
    else if def.catchall.Catchall? then Output(Parse(c, def.catchall.schema, Some(m[k])))
    else if def.unknownKeys == Strip then None
    else Some(m[k])
  }

  ghost predicate Returns(c: Context, def: Def, m: map<string, Json>, out: map<string, Json>)
    requires def.ZObject?
  {
    forall k :: Get(out, k) == Returned(c, def, m, k)
  }

  lemma ParsesAsDefined(c: Context, s: Zod, v: Val)
    requires s.Named? && s.name in c.definitions
    ensures Parse(c, s, v) == Parse(c, c.definitions[s.name], v)
    ensures Definition(c, c.definitions[s.name]) == Definition(c, s)
  {
  }

  lemma PresentReturnsAt(c: Context, s: Zod, m: map<string, Json>, k: string)
    requires s.Node? && s.def.ZObject? && ParsePresent(c, s, Obj(m)).Some?
    ensures var r := ParsePresent(c, s, Obj(m)).value; r.Obj? && Get(r.members, k) == Returned(c, s.def, m, k)
  {
  }

  lemma NodeReturns(c: Context, s: Zod, m: map<string, Json>)
    requires s.Node? && s.def.ZObject? && Accepts(c, s, Some(Obj(m)))
    ensures var r := Parse(c, s, Some(Obj(m)));
      Item(r) && r.value.value.Obj? && Returns(c, s.def, m, r.value.value.members)
  {
    PresentAccepts(c, s, Obj(m));
    var out := ParsePresent(c, s, Obj(m)).value;
    assert Parse(c, s, Some(Obj(m))) == Some(Some(out));
    forall k ensures out.Obj? && Get(out.members, k) == Returned(c, s.def, m, k) { PresentReturnsAt(c, s, m, k); }
  }

  lemma ObjectReturns(c: Context, s: Zod, m: map<string, Json>)
    requires IsObject(c, s) && Accepts(c, s, Some(Obj(m)))
    ensures var r := Parse(c, s, Some(Obj(m)));
      Item(r) && r.value.value.Obj? && Returns(c, Definition(c, s).value, m, r.value.value.members)
  {
    if s.Named? {
      ParsesAsDefined(c, s, Some(Obj(m)));
      NodeReturns(c, c.definitions[s.name], m);
    } else {
      NodeReturns(c, s, m);
    }
  }

  /** Objects merge exactly if each member they share does. */
  lemma ObjectsMergeIff(a: map<string, Json>, b: map<string, Json>)
    ensures Merge(Obj(a), Obj(b)).Some? <==> forall k :: k in a && k in b ==> Merge(a[k], b[k]).Some?
  {
  }

  /** Both sides return the member, and what they return does not merge. */
  predicate Clash(c: Context, left: Def, right: Def, m: map<string, Json>, k: string)
    requires left.ZObject? && right.ZObject?
  {
    var a, b := Returned(c, left, m, k), Returned(c, right, m, k);
    a.Some? && b.Some? && Merge(a.value, b.value).None?
  }

  lemma ClashIffUnmerged(c: Context, left: Def, right: Def, m: map<string, Json>, a: map<string, Json>,
                         b: map<string, Json>)
    requires left.ZObject? && right.ZObject? && Returns(c, left, m, a) && Returns(c, right, m, b)
    ensures Merge(Obj(a), Obj(b)).None? <==> exists k :: Clash(c, left, right, m, k)
  {
    ObjectsMergeIff(a, b);
    forall k ensures Clash(c, left, right, m, k) <==> k in a && k in b && Merge(a[k], b[k]).None? {
      assert Get(a, k) == Returned(c, left, m, k) && Get(b, k) == Returned(c, right, m, k);
    }
  }

  lemma UnmergeableIffClash(c: Context, l: Zod, r: Zod, m: map<string, Json>)
    requires IsObject(c, l) && IsObject(c, r) && Accepts(c, l, Some(Obj(m))) && Accepts(c, r, Some(Obj(m)))
    ensures Unmergeable(c, l, r, Obj(m))
      <==> exists k :: Clash(c, Definition(c, l).value, Definition(c, r).value, m, k)
  {
    ObjectReturns(c, l, m);
    ObjectReturns(c, r, m);
    var a, b := Parse(c, l, Some(Obj(m))).value.value, Parse(c, r, Some(Obj(m))).value.value;
    MergeOfPresent(a, b);
    ClashIffUnmerged(c, Definition(c, l).value, Definition(c, r).value, m, a.members, b.members);
  }

  lemma MergeOfPresent(a: Json, b: Json)
    ensures MergeVal(Some(a), Some(b)).None? <==> Merge(a, b).None?
  {
  }

  lemma ObjectsAcceptObjects(c: Context, s: Zod, j: Json)
    requires IsObject(c, s) && Accepts(c, s, Some(j))
    ensures j.Obj?
  {
    var node := s;
    if s.Named? {
      ParsesAsDefined(c, s, Some(j));
      node := c.definitions[s.name];
    }
    if !j.Obj? { AcceptsObjectOnly(c, node, j); }
  }

  /** Some member that both sides return has two outputs that do not merge. */
  ghost predicate MembersClash(c: Context, s: Zod, m: map<string, Json>)
    requires s.Node? && s.def.ZIntersection? && IsObject(c, s.def.left) && IsObject(c, s.def.right)
  {
    exists k :: Clash(c, Definition(c, s.def.left).value, Definition(c, s.def.right).value, m, k)
  }

  /**
   * For two object schemas that convert exactly, zod and `allOf` differ on a value exactly if it is an object that both
   * sides accept and for which some member both return has two outputs that do not merge.
   */
  lemma ObjectIntersectionDiffersIff(c: Context, s: Zod, names: set<string>, j: Json)
    requires ExactSides(c, s, names) && IsObject(c, s.def.left) && IsObject(c, s.def.right)
    ensures (Accepts(c, s, Some(j)) <==> S.Valid(DocumentOf(c), Convert(c, s).value, j)) <==>
      !(j.Obj? && Accepts(c, s.def.left, Some(j)) && Accepts(c, s.def.right, Some(j)) && MembersClash(c, s, j.members))
  {
    IntersectionDiffersIff(c, s, names, j);
    if Accepts(c, s.def.left, Some(j)) && Accepts(c, s.def.right, Some(j)) {
      ObjectsAcceptObjects(c, s.def.left, j);
      UnmergeableIffClash(c, s.def.left, s.def.right, j.members);
    }
  }

  /* ---------------------------------------------------------------- plain members and defaults */

  predicate Defaulted(c: Context, s: Zod) {
    Definition(c, s).Some? && Definition(c, s).value.ZDefault?
  }

  /** A member that is plain, or plain with a default. */
  predicate Ordinary(c: Context, s: Zod) {
    Plain(c, s) || (Defaulted(c, s) && Plain(c, Definition(c, s).value.inner))
  }

  predicate CanReturn(def: Def, k: string)
    requires def.ZObject?
  {
    k in Keys(def.shape) || def.catchall.Catchall? || def.unknownKeys != Strip
  }

  predicate OrdinaryAt(c: Context, def: Def, k: string)
    requires def.ZObject?
  {
    if k in Keys(def.shape) then Ordinary(c, FieldOf(def.shape, k).value)
    else def.catchall.Catchall? ==> Plain(c, def.catchall.schema)
  }

  /** The members both sides can return are ordinary on both. */
  ghost predicate OrdinaryShared(c: Context, left: Def, right: Def)
    requires left.ZObject? && right.ZObject?
  {
    forall k :: CanReturn(left, k) && CanReturn(right, k) ==> OrdinaryAt(c, left, k) && OrdinaryAt(c, right, k)
  }

  /** What a missing member is filled in with: its default as the inner schema returns it. */
  function FilledIn(c: Context, def: Def, k: string): Val
    requires def.ZObject?
  {
    if k in Keys(def.shape) && Defaulted(c, FieldOf(def.shape, k).value) then
      var d := Definition(c, FieldOf(def.shape, k).value).value;
      Output(Parse(c, d.inner, Some(d.default)))
    else None
  }

  /** Both sides fill the missing member in, with values that do not merge. */
  predicate DefaultsClash(c: Context, left: Def, right: Def, k: string)
    requires left.ZObject? && right.ZObject?
  {
    var a, b := FilledIn(c, left, k), FilledIn(c, right, k);
    a.Some? && b.Some? && Merge(a.value, b.value).None?
  }

  lemma DefaultedParses(c: Context, s: Zod, v: Val)
    requires Defaulted(c, s)
    ensures var d := Definition(c, s).value;
      Parse(c, s, v) == Parse(c, d.inner, if v.None? then Some(d.default) else v)
  {
    if s.Named? { ParsesAsDefined(c, s, v); }
  }

  /** A present member comes out stripped. */
  lemma OrdinaryOutput(c: Context, s: Zod, x: Json)
    requires Ordinary(c, s) && Output(Parse(c, s, Some(x))).Some?
    ensures Stripped(Output(Parse(c, s, Some(x))).value, x)
  {
    if Plain(c, s) {
      PlainOutput(c, s, Some(x));
    } else {
      DefaultedParses(c, s, Some(x));
      PlainOutput(c, Definition(c, s).value.inner, Some(x));
    }
  }

  lemma PlainIsNotDefaulted(c: Context, s: Zod)
    requires Plain(c, s)
    ensures !Defaulted(c, s)
  {
  }

  /** A missing member comes out as what it is filled in with. */
  lemma MissingReturns(c: Context, def: Def, m: map<string, Json>, k: string)
    requires def.ZObject? && OrdinaryAt(c, def, k) && k !in m
    ensures Returned(c, def, m, k) == FilledIn(c, def, k)
  {
    if k in Keys(def.shape) {
      var s := FieldOf(def.shape, k).value;
      if Defaulted(c, s) {
        DefaultedParses(c, s, None);
      } else if Accepts(c, s, None) {
        PlainOutput(c, s, None);
      }
    }
  }

  lemma PresentReturns(c: Context, def: Def, m: map<string, Json>, k: string)
    requires def.ZObject? && OrdinaryAt(c, def, k) && k in m && Returned(c, def, m, k).Some?
    ensures Stripped(Returned(c, def, m, k).value, m[k])
  {
    if k in Keys(def.shape) {
      OrdinaryOutput(c, FieldOf(def.shape, k).value, m[k]);
    } else if def.catchall.Catchall? {
      PlainOutput(c, def.catchall.schema, Some(m[k]));
    }
  }

  lemma ReturnedIsPossible(c: Context, def: Def, m: map<string, Json>, k: string)
    requires def.ZObject? && (Returned(c, def, m, k).Some? || FilledIn(c, def, k).Some?)
    ensures CanReturn(def, k)
  {
  }

  /** Ordinary members clash exactly if they are missing and their two defaults do. */
  lemma ClashIffDefaultsClash(c: Context, left: Def, right: Def, m: map<string, Json>, k: string)
    requires left.ZObject? && right.ZObject? && OrdinaryShared(c, left, right)
    ensures Clash(c, left, right, m, k) <==> k !in m && DefaultsClash(c, left, right, k)
  {
    if Clash(c, left, right, m, k) || DefaultsClash(c, left, right, k) {
      ReturnedIsPossible(c, left, m, k);
      ReturnedIsPossible(c, right, m, k);
      assert OrdinaryAt(c, left, k) && OrdinaryAt(c, right, k);
      if k !in m {
        MissingReturns(c, left, m, k);
        MissingReturns(c, right, m, k);
      } else if Clash(c, left, right, m, k) {
        PresentReturns(c, left, m, k);
        PresentReturns(c, right, m, k);
        MergeStripped(Returned(c, left, m, k).value, Returned(c, right, m, k).value, m[k]);
      }
    }
  }

  /** Some missing member has two defaults that do not merge. */
  ghost predicate MissingDefaultsClash(c: Context, s: Zod, m: map<string, Json>)
    requires s.Node? && s.def.ZIntersection? && IsObject(c, s.def.left) && IsObject(c, s.def.right)
  {
    exists k :: k !in m && DefaultsClash(c, Definition(c, s.def.left).value, Definition(c, s.def.right).value, k)
  }

  /**
   * If the members both sides can return are plain, or plain with a default, zod and `allOf` differ exactly on the
   * objects that both sides accept and that lack a member with two defaults that do not merge.
   */
  lemma OrdinaryIntersectionDiffersIff(c: Context, s: Zod, names: set<string>, j: Json)
    requires ExactSides(c, s, names) && IsObject(c, s.def.left) && IsObject(c, s.def.right)
    requires OrdinaryShared(c, Definition(c, s.def.left).value, Definition(c, s.def.right).value)
    ensures (Accepts(c, s, Some(j)) <==> S.Valid(DocumentOf(c), Convert(c, s).value, j)) <==>
      !(&& j.Obj? && Accepts(c, s.def.left, Some(j)) && Accepts(c, s.def.right, Some(j))
        && MissingDefaultsClash(c, s, j.members))
  {
    ObjectIntersectionDiffersIff(c, s, names, j);
    if j.Obj? {
      var left, right := Definition(c, s.def.left).value, Definition(c, s.def.right).value;
      forall k ensures Clash(c, left, right, j.members, k) <==> k !in j.members && DefaultsClash(c, left, right, k) {
        ClashIffDefaultsClash(c, left, right, j.members, k);
      }
    }
  }

  /* ---------------------------------------------------------------- two instances */

  lemma OneFieldCarries(c: Context, key: string, field: Zod, names: set<string>)
    requires Carries(c, field, names, true) && Supported(field)
    ensures Carries(c, OneField(key, field), names, true) && Supported(OneField(key, field))
    ensures IsObject(c, OneField(key, field))
  {
  }

  lemma OneFieldAccepts(c: Context, key: string, field: Zod, j: Json)
    ensures Accepts(c, OneField(key, field), Some(j)) <==> j.Obj? && Accepts(c, field, Get(j.members, key))
  {
    var s := OneField(key, field);
    if j.Obj? {
      AcceptsObject(c, s, j.members);
      assert s.def.shape[0].schema == field;
    } else {
      AcceptsObjectOnly(c, s, j);
    }
  }

  function BothFields(key: string, left: Zod, right: Zod): Zod {
    Node("", ZIntersection(OneField(key, left), OneField(key, right)))
  }

  lemma BothFieldsExact(c: Context, key: string, left: Zod, right: Zod)
    requires Compiles(c) && Carries(c, left, {}, true) && Carries(c, right, {}, true)
    requires Supported(left) && Supported(right)
    ensures ExactSides(c, BothFields(key, left, right), {})
  {
    OneFieldCarries(c, key, left, {});
    OneFieldCarries(c, key, right, {});
    ConvertsIffSupported(c, BothFields(key, left, right));
  }

  /** The only member both sides return is the field. */
  lemma BothFieldsClashIff(c: Context, key: string, left: Zod, right: Zod, m: map<string, Json>)
    ensures MembersClash(c, BothFields(key, left, right), m) <==>
      var a, b := Output(Parse(c, left, Get(m, key))), Output(Parse(c, right, Get(m, key)));
      a.Some? && b.Some? && Merge(a.value, b.value).None?
  {
    var s := BothFields(key, left, right);
    SoleKey(s.def.left.def.shape);
    SoleKey(s.def.right.def.shape);
    var dl, dr := Definition(c, s.def.left).value, Definition(c, s.def.right).value;
    assert Returned(c, dl, m, key) == Output(Parse(c, left, Get(m, key)));
    assert Returned(c, dr, m, key) == Output(Parse(c, right, Get(m, key)));
    assert forall k :: k != key ==> Returned(c, dl, m, k) == None;
    assert Clash(c, dl, dr, m, key) ==> MembersClash(c, s, m);
  }

  /** For one field on both sides: `allOf` asks that both accept it, zod that the two outputs merge as well. */
  lemma BothFieldsMean(c: Context, key: string, left: Zod, right: Zod, m: map<string, Json>)
    requires Compiles(c) && Carries(c, left, {}, true) && Carries(c, right, {}, true)
    requires Supported(left) && Supported(right)
    ensures var s, v := BothFields(key, left, right), Get(m, key);
      var both := Accepts(c, left, v) && Accepts(c, right, v);
      var a, b := Output(Parse(c, left, v)), Output(Parse(c, right, v));
      && Convert(c, s).Ok?
      && (S.Valid(DocumentOf(c), Convert(c, s).value, Obj(m)) <==> both)
      && (Accepts(c, s, Some(Obj(m))) <==> both && !(a.Some? && b.Some? && Merge(a.value, b.value).None?))
  {
    var s := BothFields(key, left, right);
    BothFieldsExact(c, key, left, right);
    OneFieldAccepts(c, key, left, Obj(m));
    OneFieldAccepts(c, key, right, Obj(m));
    AllOfMeansBoth(c, s, {}, Obj(m));
    BothFieldsClashIff(c, key, left, right, m);
    ObjectIntersectionDiffersIff(c, s, {}, Obj(m));
    IntersectionAccepts(c, s, Obj(m));
  }

  function WithDefault(d: Json): Zod {
    Node("", ZDefault(Node("", ZUnknown), d))
  }

  lemma WithDefaultParses(c: Context, d: Json, v: Val)
    ensures Parse(c, WithDefault(d), v) == Some(if v.None? then Some(d) else v)
    ensures Carries(c, WithDefault(d), {}, true) && Supported(WithDefault(d))
  {
    DefaultedParses(c, WithDefault(d), v);
  }

  /**
   * Two defaults for one member of any value: the emitted `allOf` accepts every object, zod those that have the member,
   * and the others only if the defaults merge.
   */
  lemma ConflictingDefaultsDiffer(c: Context, key: string, d1: Json, d2: Json, m: map<string, Json>)
    requires Compiles(c)
    ensures var s := BothFields(key, WithDefault(d1), WithDefault(d2));
      && Convert(c, s).Ok? && S.Valid(DocumentOf(c), Convert(c, s).value, Obj(m))
      && (Accepts(c, s, Some(Obj(m))) <==> key in m || Merge(d1, d2).Some?)
  {
    WithDefaultParses(c, d1, Get(m, key));
    WithDefaultParses(c, d2, Get(m, key));
    BothFieldsMean(c, key, WithDefault(d1), WithDefault(d2), m);
  }

  lemma TextParses(c: Context, checks: seq<StringCheck>, v: Val)
    requires checks == [] || checks == [Trim]
    ensures var s := Node("", ZString(checks));
      && Carries(c, s, {}, true) && Supported(s)
      && Parse(c, s, v) == if v.Some? && v.value.Str?
                           then Some(Some(Str(if checks == [] then v.value.s else TrimText(v.value.s)))) else None
  {
    if checks == [Trim] { assert checks[1..] == []; }
    if v.Some? && v.value.Str? && checks == [Trim] {
      assert ParseString(c.oracle, checks, v.value.s) == ParseString(c.oracle, checks[1..], TrimText(v.value.s));
    }
  }

  /** One side trims: `allOf` accepts every text, zod only texts that are trimmed already. No default is involved. */
  lemma OneSideTrims(c: Context, key: string, m: map<string, Json>)
    requires Compiles(c)
    ensures var s := BothFields(key, Node("", ZString([Trim])), Node("", ZString([])));
      && Convert(c, s).Ok?
      && (S.Valid(DocumentOf(c), Convert(c, s).value, Obj(m)) <==> key in m && m[key].Str?)
      && (Accepts(c, s, Some(Obj(m))) <==> key in m && m[key].Str? && TrimText(m[key].s) == m[key].s)
  {
    TextParses(c, [Trim], Get(m, key));
    TextParses(c, [], Get(m, key));
    BothFieldsMean(c, key, Node("", ZString([Trim])), Node("", ZString([])), m);
  }
}
