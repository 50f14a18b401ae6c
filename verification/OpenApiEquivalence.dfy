/** The emitted schemas accept the values the zod schemas accept. */
module OpenApiEquivalence {
  import opened JsonValues
  import opened ZodSchema
  import opened ZodOutputs
  import opened OpenApi
  import opened OpenApiKeywords
  import opened OpenApiMeaning
  import S = JsonSchema

  /* ---------------------------------------------------------------- which schemas carry over */

  /** The emitted bounds on an array's length say what the three zod bounds say. */
  predicate ExactLengths(d: Def)
    requires d.ZArray?
  {
    d.exactLength.None? ||
    var n, low, high := d.exactLength.value, Or(d.minLength, d.exactLength).value, Or(d.maxLength, d.exactLength).value;
    (low == n && high == n) || low > high
  }

  predicate AcceptsEveryString(s: Zod) {
    s.Node? && (s.def == ZString([]) || s.def == ZUnknown)
  }

  /**
   * Schemas whose conversion is sound (every accepted value is valid) and, when `exact`, also complete. The conversion
   * drops refinements, preprocessing, fallbacks, overwritten checks, string changes and regex flags; a discriminator
   * must be a required or optional literal, and an exact intersection must be mergeable. The schema refers to `names`
   * only.
   */
  predicate Carries(c: Context, s: Zod, names: set<string>, exact: bool)
    decreases s
  {
    match s
    case Named(n) => n in names
    case Node(_, def) =>
      match def
      case ZString(checks) => if exact then ExactChecks(checks) else SoundChecks(checks)
      case ZNumber(checks) => exact ==> ExactNumberChecks(checks)
      case ZArray(element, _, _, _) => Carries(c, element, names, exact) && (exact ==> ExactLengths(def))
      case ZObject(shape, _, catchall) =>
        && (forall i :: 0 <= i < |shape| ==> Carries(c, shape[i].schema, names, exact))
        && (catchall.Catchall? ==> Carries(c, catchall.schema, names, exact))
      case ZRecord(key, value) =>
        && Carries(c, value, names, exact)
        && (if IsEnum(c, key) then Carries(c, key, names, exact) else exact ==> AcceptsEveryString(key))
      case ZOptional(inner) => Carries(c, inner, names, exact)
      case ZNullable(inner) => Carries(c, inner, names, exact)
      case ZDefault(inner, _) => Carries(c, inner, names, exact)
      case ZEffects(Refinement, _, inner) => !exact && Carries(c, inner, names, exact)
      case ZEffects(Transform, _, inner) => Carries(c, inner, names, exact)
      case ZEffects(Preprocess, _, _) => false
      case ZUnion(options) => forall i :: 0 <= i < |options| ==> Carries(c, options[i], names, exact)
      case ZDiscriminatedUnion(discriminator, options) =>
        && Discriminates(c, discriminator, options, false)
        && forall i :: 0 <= i < |options| ==> Carries(c, options[i], names, exact)
      case ZIntersection(l, r) =>
        Carries(c, l, names, exact) && Carries(c, r, names, exact) && (exact ==> Mergeable(c, l, r))
      case ZPass(_, inner) => Carries(c, inner, names, exact)
      case ZCatch(_, _) => false
      case _ => true
  }

  /** `names` are registered, carry, and refer to one another only: every name reachable from them is one of them. */
  predicate NamesCarry(c: Context, names: set<string>, exact: bool) {
    forall n :: n in names ==> n in c.definitions && Carries(c, c.definitions[n], names, exact)
  }

  /** zod and the emitted schema judge a value alike: accepted implies valid and, when `exact`, the converse. */
  predicate Agree(c: Context, s: Zod, j: Json, exact: bool)
    requires Compiles(c) && Convert(c, s).Ok?
  {
    var valid := S.Valid(DocumentOf(c), Convert(c, s).value, j);
    && (Accepts(c, s, Some(j)) ==> valid)
    && (exact && valid ==> Accepts(c, s, Some(j)))
  }

  predicate AgreeType(c: Context, s: Zod, j: Json, exact: bool)
    requires Compiles(c) && s.Node? && ConvertType(c, s).Ok?
  {
    var valid := S.Valid(DocumentOf(c), ConvertType(c, s).value, j);
    && (Accepts(c, s, Some(j)) ==> valid)
    && (exact && valid ==> Accepts(c, s, Some(j)))
  }

  /* ---------------------------------------------------------------- kind by kind */

  predicate Present(def: Def) {
    def.ZArray? || def.ZObject? || def.ZRecord?
  }

  lemma PresentAccepts(c: Context, s: Zod, j: Json)
    requires s.Node? && Present(s.def)
    ensures Accepts(c, s, Some(j)) <==> ParsePresent(c, s, j).Some?
  {
  }

  /** What zod checks of an object's members. */
  lemma AcceptsObject(c: Context, s: Zod, m: map<string, Json>)
    requires s.Node? && s.def.ZObject?
    ensures Accepts(c, s, Some(Obj(m))) <==>
      && (forall i :: 0 <= i < |s.def.shape| ==> Accepts(c, s.def.shape[i].schema, Get(m, s.def.shape[i].key)))
      && (s.def.catchall.Catchall? ==>
           forall k :: k in m && k !in Keys(s.def.shape) ==> Accepts(c, s.def.catchall.schema, Some(m[k])))
      && (s.def.catchall.NoCatchall? && s.def.unknownKeys == Strict ==> m.Keys <= Keys(s.def.shape))
  {
    PresentAccepts(c, s, Obj(m));
  }

  lemma AcceptsArray(c: Context, s: Zod, j: Json)
    requires s.Node? && s.def.ZArray?
    ensures Accepts(c, s, Some(j)) <==>
      j.Arr? && LengthAllowed(s.def, |j.items|) &&
      forall i :: 0 <= i < |j.items| ==> Accepts(c, s.def.element, Some(j.items[i]))
  {
    PresentAccepts(c, s, j);
  }

  lemma AcceptsRecord(c: Context, s: Zod, j: Json)
    requires s.Node? && s.def.ZRecord?
    ensures Accepts(c, s, Some(j)) <==>
      j.Obj? && forall k :: k in j.members ==>
        Accepts(c, s.def.keyType, Some(Str(k))) && Accepts(c, s.def.valueType, Some(j.members[k]))
  {
    PresentAccepts(c, s, j);
  }

  lemma AcceptsObjectOnly(c: Context, s: Zod, j: Json)
    requires s.Node? && s.def.ZObject? && !j.Obj?
    ensures !Accepts(c, s, Some(j))
  {
    PresentAccepts(c, s, j);
  }

  lemma AcceptsLeaf(c: Context, s: Zod, j: Json)
    requires s.Node? && Leaf(s.def) && s.def != ZUnknown
    ensures Accepts(c, s, Some(j)) <==> ParsePresent(c, s, j).Some?
  {
  }

  lemma AcceptsUnion(c: Context, s: Zod, j: Json)
    requires s.Node? && s.def.ZUnion?
    ensures Accepts(c, s, Some(j)) <==>
      exists i :: 0 <= i < |s.def.options| && Accepts(c, s.def.options[i], Some(j))
  {
    var r := ParseCombination(c, s, Some(j));
    assert Parse(c, s, Some(j)) == r;
    assert r == ParseUnion(c, s, s.def.options, Some(j));
  }

  lemma StringAgrees(c: Context, checks: seq<StringCheck>, d: S.Document, j: Json, exact: bool)
    requires Compiles(c) && d == DocumentOf(c)
    requires if exact then ExactChecks(checks) else SoundChecks(checks)
    requires TextKeywords(checks, S.NO_TEXT).Ok?
    ensures j.Str? && ParseString(c.oracle, checks, j.s).Some?
      ==> S.Valid(d, S.EMPTY.(type_ := S.One(S.TString), text := TextKeywords(checks, S.NO_TEXT).value), j)
    ensures exact && S.Valid(d, S.EMPTY.(type_ := S.One(S.TString), text := TextKeywords(checks, S.NO_TEXT).value), j)
      ==> j.Str? && ParseString(c.oracle, checks, j.s).Some?
  {
    if exact { ExactChecksAreSound(checks); }
    var k := TextKeywords(checks, S.NO_TEXT).value;
    if j.Str? {
      if ParseString(c.oracle, checks, j.s).Some? { TextSound(c.oracle, d, checks, S.NO_TEXT, j.s); }
      if exact && S.TextValid(d, k, j.s) { TextComplete(c.oracle, d, checks, S.NO_TEXT, j.s); }
    }
  }

  lemma NumberAgrees(checks: seq<NumberCheck>, d: S.Document, j: Json, exact: bool)
    requires exact ==> ExactNumberChecks(checks)
    requires NumericKeywords(checks, S.NO_NUMBER).Ok?
    ensures j.Num? && PassesNumberChecks(checks, j.x)
      ==> S.Valid(d, LeafSchema(ZNumber(checks)).value, j)
    ensures exact && S.Valid(d, LeafSchema(ZNumber(checks)).value, j)
      ==> j.Num? && PassesNumberChecks(checks, j.x)
  {
    var k := NumericKeywords(checks, S.NO_NUMBER).value;
    if j.Num? {
      if PassesNumberChecks(checks, j.x) { NumberSound(checks, S.NO_NUMBER, j.x); }
      if exact && S.NumberValid(k, j.x) { NumberComplete(checks, S.NO_NUMBER, j.x); }
    }
  }

  lemma LeafAgrees(c: Context, s: Zod, j: Json, names: set<string>, exact: bool)
    requires Compiles(c) && s.Node? && Leaf(s.def) && Carries(c, s, names, exact) && LeafSchema(s.def).Ok?
    ensures ConvertType(c, s) == LeafSchema(s.def)
    ensures AgreeType(c, s, j, exact)
  {
    LeafConverted(c, s);
    if s.def.ZString? {
      AcceptsLeaf(c, s, j);
      StringAgrees(c, s.def.checks, DocumentOf(c), j, exact);
    } else if s.def.ZNumber? {
      AcceptsLeaf(c, s, j);
      NumberAgrees(s.def.numberChecks, DocumentOf(c), j, exact);
    } else {
      FixedLeafAgrees(c, s, j);
    }
  }

  /** Leaves without checks: the conversion accepts the same values. */
  lemma FixedLeafAgrees(c: Context, s: Zod, j: Json)
    requires Compiles(c) && s.Node? && Leaf(s.def) && LeafSchema(s.def).Ok? && !s.def.ZString? && !s.def.ZNumber?
    ensures Accepts(c, s, Some(j)) <==> S.Valid(DocumentOf(c), LeafSchema(s.def).value, j)
  {
    if s.def.ZEnum? {
      AcceptsLeaf(c, s, j);
      EnumAgrees(s.def.values, DocumentOf(c), j);
    } else if s.def != ZUnknown {
      AcceptsLeaf(c, s, j);
      ConstantAgrees(c, s, j);
    }
  }

  lemma ConstantAgrees(c: Context, s: Zod, j: Json)
    requires Compiles(c) && s.Node? && (s.def.ZBoolean? || s.def.ZNull? || s.def.ZLiteral?) && LeafSchema(s.def).Ok?
    ensures ParsePresent(c, s, j).Some? <==> S.Valid(DocumentOf(c), LeafSchema(s.def).value, j)
  {
  }

  lemma EnumAgrees(values: seq<string>, d: S.Document, j: Json)
    requires LeafSchema(ZEnum(values)).Ok?
    ensures S.Valid(d, LeafSchema(ZEnum(values)).value, j) <==> j.Str? && j.s in values
  {
    var list := LeafSchema(ZEnum(values)).value.enumeration.value;
    if j.Str? && j.s in values {
      var i :| 0 <= i < |values| && values[i] == j.s;
      assert list[i] == j;
    }
  }

  lemma ArrayAgrees(c: Context, s: Zod, j: Json, names: set<string>, exact: bool)
    requires Compiles(c) && s.Node? && s.def.ZArray? && Carries(c, s, names, exact) && ConvertArray(c, s).Ok?
    requires j.Arr? ==> forall i :: 0 <= i < |j.items| ==> Agree(c, s.def.element, j.items[i], exact)
    ensures AgreeType(c, s, j, exact)
  {
    assert ConvertType(c, s) == ConvertArray(c, s);
    AcceptsArray(c, s, j);
    BagOfItems(DocumentOf(c), Convert(c, s.def.element).value,
               Or(s.def.minLength, s.def.exactLength), Or(s.def.maxLength, s.def.exactLength), j);
  }

  lemma BagOfItems(d: S.Document, items: S.Schema, low: Option<int>, high: Option<int>, j: Json)
    ensures S.Valid(d, S.EMPTY.(type_ := S.One(S.TArray), items := S.Given(items), minItems := low, maxItems := high),
      j)
      <==>
        && j.Arr?
        && (forall i :: 0 <= i < |j.items| ==> S.Valid(d, items, j.items[i]))
        && (low.Some? ==> |j.items| >= low.value)
        && (high.Some? ==> |j.items| <= high.value)
  {
  }

  ghost predicate FieldsAgree(c: Context, shape: seq<Field>, m: map<string, Json>, exact: bool)
    requires Compiles(c) && ConvertFields(c, shape).Ok?
  {
    forall i :: 0 <= i < |shape| && shape[i].key in m ==> Agree(c, shape[i].schema, m[shape[i].key], exact)
  }

  lemma KnownMembersAgree(c: Context, shape: seq<Field>, m: map<string, Json>, exact: bool)
    requires Compiles(c) && ConvertFields(c, shape).Ok? && FieldsAgree(c, shape, m, exact)
    ensures (forall i :: 0 <= i < |shape| ==> Accepts(c, shape[i].schema, Get(m, shape[i].key)))
      ==> FieldsValid(DocumentOf(c), c, shape, m) && FieldsPresent(c, shape, m)
    ensures exact && FieldsValid(DocumentOf(c), c, shape, m) && FieldsPresent(c, shape, m)
      ==> forall i :: 0 <= i < |shape| ==> Accepts(c, shape[i].schema, Get(m, shape[i].key))
  {
  }

  lemma ObjectAgrees(c: Context, s: Zod, j: Json, exact: bool)
    requires Compiles(c) && s.Node? && s.def.ZObject? && ConvertObject(c, s).Ok?
    requires j.Obj? ==> FieldsAgree(c, s.def.shape, j.members, exact)
    requires j.Obj? && s.def.catchall.Catchall? ==>
      forall k :: k in j.members ==> Agree(c, s.def.catchall.schema, j.members[k], exact)
    ensures AgreeType(c, s, j, exact)
  {
    var d := DocumentOf(c);
    assert ConvertType(c, s) == ConvertObject(c, s);
    if j.Obj? {
      ObjectMeaning(d, c, s, j.members);
      KnownMembersAgree(c, s.def.shape, j.members, exact);
      AcceptsObject(c, s, j.members);
    } else {
      AcceptsObjectOnly(c, s, j);
      assert ConvertObject(c, s).value.type_ == S.One(S.TObject);
    }
  }

  lemma RecordAgrees(c: Context, s: Zod, j: Json, names: set<string>, exact: bool)
    requires Compiles(c) && s.Node? && s.def.ZRecord? && Carries(c, s, names, exact) && ConvertRecord(c, s).Ok?
    requires j.Obj? ==> forall k :: k in j.members ==> Agree(c, s.def.valueType, j.members[k], exact)
    requires j.Obj? && IsEnum(c, s.def.keyType) ==> forall k :: k in j.members ==>
      Agree(c, s.def.keyType, Str(k), exact)
    ensures AgreeType(c, s, j, exact)
  {
    var d, key, value := DocumentOf(c), s.def.keyType, s.def.valueType;
    assert ConvertType(c, s) == ConvertRecord(c, s);
    AcceptsRecord(c, s, j);
    BagOfEntries(d, Convert(c, value).value, ConvertRecord(c, s).value.propertyNames, j);
    if AcceptsEveryString(key) { KeyAccepted(c, key); }
  }

  lemma KeyAccepted(c: Context, key: Zod)
    requires AcceptsEveryString(key)
    ensures forall k :: Accepts(c, key, Some(Str(k)))
  {
    forall k ensures Accepts(c, key, Some(Str(k))) {
      if key.def != ZUnknown {
        AcceptsLeaf(c, key, Str(k));
        assert ParseString(c.oracle, [], k) == Some(k);
      }
    }
  }

  lemma BagOfEntries(d: S.Document, values: S.Schema, names: S.Maybe, j: Json)
    ensures S.Valid(d, S.EMPTY.(type_ := S.One(S.TObject), additional := S.Matching(values), propertyNames := names), j)
      <==>
        && j.Obj?
        && (forall k :: k in j.members ==> S.Valid(d, values, j.members[k]))
        && (names.Given? ==> forall k :: k in j.members ==> S.Valid(d, names.schema, Str(k)))
  {
  }

  lemma UnionAgrees(c: Context, s: Zod, j: Json, exact: bool)
    requires Compiles(c) && s.Node? && s.def.ZUnion? && ConvertCombination(c, s).Ok?
    requires forall i :: 0 <= i < |s.def.options| ==>
      Convert(c, s.def.options[i]).Ok? && Agree(c, s.def.options[i], j, exact)
    ensures AgreeType(c, s, j, exact)
  {
    var list := ConvertAll(c, s.def.options).value;
    assert ConvertType(c, s) == ConvertCombination(c, s);
    AcceptsUnion(c, s, j);
    BagOfAny(DocumentOf(c), list, j);
  }

  lemma BagOfAny(d: S.Document, list: seq<S.Schema>, j: Json)
    ensures S.Valid(d, S.EMPTY.(anyOf := S.Present(list)), j) <==> exists i :: 0 <= i < |list| && S.Valid(d, list[i], j)
  {
  }

  /**
   * No object with the discriminator matches two converted options, so `oneOf` asks for what dispatching picks. Without
   * defaults the discriminator may also be missing.
   */
  lemma OneOfMeansDispatch(c: Context, discriminator: string, options: seq<Zod>, defaults: bool, m: map<string, Json>,
                           i: nat, k: nat)
    requires Compiles(c) && ConvertAll(c, options).Ok? && Discriminates(c, discriminator, options, defaults)
    requires i < |options| && k < |options| && (defaults ==> discriminator in m)
    requires S.Valid(DocumentOf(c), Convert(c, options[i]).value, Obj(m))
    requires || S.Valid(DocumentOf(c), Convert(c, options[k]).value, Obj(m))
             || Takes(c, discriminator, options[k], Get(m, discriminator))
    ensures i == k
  {
    OptionMeaning(c, discriminator, options[i], defaults, m);
    if S.Valid(DocumentOf(c), Convert(c, options[k]).value, Obj(m)) {
      OptionMeaning(c, discriminator, options[k], defaults, m);
    }
  }

  lemma AcceptsDiscriminated(c: Context, s: Zod, j: Json)
    requires s.Node? && s.def.ZDiscriminatedUnion?
    ensures Accepts(c, s, Some(j)) <==>
      && j.Obj?
      && var taken := OptionFor(c, s.def.discriminator, s.def.options, Get(j.members, s.def.discriminator));
      taken.Some? && Accepts(c, s.def.options[taken.value], Some(j))
  {
    assert Parse(c, s, Some(j)) == ParseCombination(c, s, Some(j));
  }

  predicate ExactlyOne(d: S.Document, list: seq<S.Schema>, j: Json) {
    && (exists i :: 0 <= i < |list| && S.Valid(d, list[i], j))
    && (forall i, k :: 0 <= i < k < |list| && S.Valid(d, list[i], j) ==> !S.Valid(d, list[k], j))
  }

  lemma BagOfOne(d: S.Document, list: seq<S.Schema>, j: Json)
    ensures S.Valid(d, S.EMPTY.(oneOf := S.Present(list)), j)
      <==> ExactlyOne(d, list, j)
  {
  }

  lemma DiscriminatedUnionAgrees(c: Context, s: Zod, j: Json, names: set<string>, exact: bool)
    requires Compiles(c) && s.Node? && s.def.ZDiscriminatedUnion? && Carries(c, s, names, exact)
      && ConvertCombination(c, s).Ok?
    requires forall i :: 0 <= i < |s.def.options| ==>
      Convert(c, s.def.options[i]).Ok? && Agree(c, s.def.options[i], j, exact)
    ensures AgreeType(c, s, j, exact)
  {
    var d, discriminator, options := DocumentOf(c), s.def.discriminator, s.def.options;
    var list := ConvertAll(c, options).value;
    assert ConvertType(c, s) == ConvertCombination(c, s);
    AcceptsDiscriminated(c, s, j);
    BagOfOne(d, list, j);
    if j.Obj? {
      DispatchAgrees(c, discriminator, options, false, j.members, exact);
    } else {
      forall i | 0 <= i < |options| ensures !S.Valid(d, list[i], j) {
        OptionNeedsObject(c, discriminator, options[i], false, j);
      }
    }
  }

  lemma OptionNeedsObject(c: Context, discriminator: string, option: Zod, defaults: bool, j: Json)
    requires Compiles(c) && Convert(c, option).Ok? && Decided(c, discriminator, option, defaults) && !j.Obj?
    ensures !S.Valid(DocumentOf(c), Convert(c, option).value, j)
  {
    var node := option;
    if option.Named? {
      ReferenceMeaning(c, option.name, j);
      node := c.definitions[option.name];
    }
    NodeMeaning(c, node, j);
    ObjectNeedsObject(DocumentOf(c), c, node, j);
  }

  lemma ObjectNeedsObject(d: S.Document, c: Context, s: Zod, j: Json)
    requires s.Node? && s.def.ZObject? && ConvertType(c, s).Ok? && !j.Obj?
    ensures !S.Valid(d, ConvertType(c, s).value, j)
  {
    assert ConvertType(c, s) == ConvertObject(c, s);
    assert ConvertObject(c, s).value.type_ == S.One(S.TObject);
  }

  lemma DispatchAgrees(c: Context, discriminator: string, options: seq<Zod>, defaults: bool, m: map<string, Json>,
                       exact: bool)
    requires Compiles(c) && ConvertAll(c, options).Ok? && Discriminates(c, discriminator, options, defaults)
    requires defaults ==> discriminator in m
    requires forall i :: 0 <= i < |options| ==> Convert(c, options[i]).Ok? && Agree(c, options[i], Obj(m), exact)
    ensures
      var d, list := DocumentOf(c), ConvertAll(c, options).value;
      var taken := OptionFor(c, discriminator, options, Get(m, discriminator));
      var dispatched := taken.Some? && Accepts(c, options[taken.value], Some(Obj(m)));
      && (dispatched ==> ExactlyOne(d, list, Obj(m)))
      && (exact && ExactlyOne(d, list, Obj(m)) ==> dispatched)
  {
    var d, list := DocumentOf(c), ConvertAll(c, options).value;
    var taken := OptionFor(c, discriminator, options, Get(m, discriminator));
    if taken.Some? && Accepts(c, options[taken.value], Some(Obj(m))) {
      assert Agree(c, options[taken.value], Obj(m), exact);
      OnlyOption(c, discriminator, options, defaults, m, taken.value);
    }
    if i :| exact && 0 <= i < |list| && S.Valid(d, list[i], Obj(m)) {
      assert Agree(c, options[i], Obj(m), exact);
      ValidIsTaken(c, discriminator, options, defaults, m, i);
    }
  }

  lemma OnlyOption(c: Context, discriminator: string, options: seq<Zod>, defaults: bool, m: map<string, Json>, i: nat)
    requires Compiles(c) && ConvertAll(c, options).Ok? && Discriminates(c, discriminator, options, defaults)
    requires defaults ==> discriminator in m
    requires i < |options| && S.Valid(DocumentOf(c), ConvertAll(c, options).value[i], Obj(m))
    ensures ExactlyOne(DocumentOf(c), ConvertAll(c, options).value, Obj(m))
  {
    var d, list := DocumentOf(c), ConvertAll(c, options).value;
    forall k | 0 <= k < |list| && S.Valid(d, list[k], Obj(m)) ensures k == i {
      OneOfMeansDispatch(c, discriminator, options, defaults, m, i, k);
    }
  }

  lemma ValidIsTaken(c: Context, discriminator: string, options: seq<Zod>, defaults: bool, m: map<string, Json>, i: nat)
    requires Compiles(c) && ConvertAll(c, options).Ok? && Discriminates(c, discriminator, options, defaults)
    requires defaults ==> discriminator in m
    requires i < |options| && S.Valid(DocumentOf(c), ConvertAll(c, options).value[i], Obj(m))
    ensures OptionFor(c, discriminator, options, Get(m, discriminator)) == Some(i)
  {
    var taken := OptionFor(c, discriminator, options, Get(m, discriminator));
    OptionMeaning(c, discriminator, options[i], defaults, m);
    assert Takes(c, discriminator, options[i], Get(m, discriminator));
    OneOfMeansDispatch(c, discriminator, options, defaults, m, i, taken.value);
  }

  lemma IntersectionAgrees(c: Context, s: Zod, j: Json, names: set<string>, exact: bool)
    requires Compiles(c) && s.Node? && s.def.ZIntersection? && Carries(c, s, names, exact)
      && ConvertCombination(c, s).Ok?
    requires Agree(c, s.def.left, j, exact) && Agree(c, s.def.right, j, exact)
    ensures AgreeType(c, s, j, exact)
  {
    var l, r := s.def.left, s.def.right;
    var a, b := Convert(c, l).value, Convert(c, r).value;
    assert ConvertType(c, s) == ConvertCombination(c, s);
    assert Parse(c, s, Some(j)) == ParseCombination(c, s, Some(j));
    BagOfBoth(DocumentOf(c), a, b, j);
    if exact && Accepts(c, l, Some(j)) && Accepts(c, r, Some(j)) { MergeableMerges(c, l, r, j); }
  }

  lemma BagOfBoth(d: S.Document, a: S.Schema, b: S.Schema, j: Json)
    ensures S.Valid(d, S.EMPTY.(allOf := S.Present([a, b])), j) <==> S.Valid(d, a, j) && S.Valid(d, b, j)
  {
    assert [a, b][0] == a && [a, b][1] == b;
  }

  /* ---------------------------------------------------------------- the compiler theorem */

  lemma {:induction false} ConversionAgrees(c: Context, s: Zod, j: Json, names: set<string>, exact: bool)
    requires Compiles(c) && NamesCarry(c, names, exact) && Carries(c, s, names, exact) && Convert(c, s).Ok?
    ensures Agree(c, s, j, exact)
    decreases Reparses(c, s), ValHeight(Some(j)), Unfolds(c, s), s, 2
  {
    match s {
      case Named(n) =>
        ConversionAgrees(c, c.definitions[n], j, names, exact);
        ReferenceMeaning(c, n, j);
      case Node(_, _) =>
        NodeMeaning(c, s, j);
        TypeAgrees(c, s, j, names, exact);
    }
  }

  lemma {:induction false} TypeAgrees(c: Context, s: Zod, j: Json, names: set<string>, exact: bool)
    requires Compiles(c) && NamesCarry(c, names, exact) && Carries(c, s, names, exact)
    requires s.Node? && ConvertType(c, s).Ok?
    ensures AgreeType(c, s, j, exact)
    decreases Reparses(c, s), ValHeight(Some(j)), Unfolds(c, s), s, 1
  {
    var def := s.def;
    if def.ZUnion? || def.ZDiscriminatedUnion? || def.ZIntersection? {
      CombinationAgrees(c, s, j, names, exact);
    } else if Present(def) {
      ContainerAgrees(c, s, j, names, exact);
    } else if Leaf(def) {
      LeafAgrees(c, s, j, names, exact);
    } else if !def.ZCatch? {
      ConversionAgrees(c, def.inner, j, names, exact);
      WrapperAgrees(c, s, j, names, exact);
    }
  }

  lemma WrapperAgrees(c: Context, s: Zod, j: Json, names: set<string>, exact: bool)
    requires Compiles(c) && s.Node? && Carries(c, s, names, exact) && ConvertType(c, s).Ok?
    requires s.def.ZOptional? || s.def.ZNullable? || s.def.ZDefault? || s.def.ZEffects? || s.def.ZPass?
    requires Agree(c, s.def.inner, j, exact)
    ensures AgreeType(c, s, j, exact)
  {
    if s.def.ZNullable? {
      NullableAgrees(c, s, j, exact);
    } else if s.def.ZDefault? {
      DefaultMeansNothing(DocumentOf(c), Convert(c, s.def.inner).value, Some(s.def.default), j);
    } else if s.def.ZEffects? {
      assert Parse(c, s, Some(j)) == ParseEffects(c, s, Some(j));
    }
  }

  lemma NullableAgrees(c: Context, s: Zod, j: Json, exact: bool)
    requires Compiles(c) && s.Node? && s.def.ZNullable? && ConvertType(c, s).Ok?
    requires Agree(c, s.def.inner, j, exact)
    ensures AgreeType(c, s, j, exact)
  {
    EmittedTyped(c, s.def.inner);
    NullableMeaning(DocumentOf(c), Convert(c, s.def.inner).value, j);
  }

  lemma {:induction false} CombinationAgrees(c: Context, s: Zod, j: Json, names: set<string>, exact: bool)
    requires Compiles(c) && NamesCarry(c, names, exact) && Carries(c, s, names, exact)
    requires s.Node? && (s.def.ZUnion? || s.def.ZDiscriminatedUnion? || s.def.ZIntersection?)
      && ConvertCombination(c, s).Ok?
    ensures ConvertType(c, s) == ConvertCombination(c, s) && AgreeType(c, s, j, exact)
    decreases Reparses(c, s), ValHeight(Some(j)), Unfolds(c, s), s, 0
  {
    match s.def {
      case ZIntersection(l, r) =>
        ConversionAgrees(c, l, j, names, exact);
        ConversionAgrees(c, r, j, names, exact);
        IntersectionAgrees(c, s, j, names, exact);
      case ZUnion(options) =>
        forall i | 0 <= i < |options| ensures Convert(c, options[i]).Ok? && Agree(c, options[i], j, exact) {
          assert Convert(c, options[i]) == Ok(ConvertAll(c, options).value[i]);
          ConversionAgrees(c, options[i], j, names, exact);
        }
        UnionAgrees(c, s, j, exact);
      case ZDiscriminatedUnion(_, options) =>
        forall i | 0 <= i < |options| ensures Convert(c, options[i]).Ok? && Agree(c, options[i], j, exact) {
          assert Convert(c, options[i]) == Ok(ConvertAll(c, options).value[i]);
          ConversionAgrees(c, options[i], j, names, exact);
        }
        DiscriminatedUnionAgrees(c, s, j, names, exact);
    }
  }

  lemma {:induction false} ContainerAgrees(c: Context, s: Zod, j: Json, names: set<string>, exact: bool)
    requires Compiles(c) && NamesCarry(c, names, exact) && Carries(c, s, names, exact)
    requires s.Node? && Present(s.def) && ConvertType(c, s).Ok?
    ensures AgreeType(c, s, j, exact)
    decreases Reparses(c, s), ValHeight(Some(j)), Unfolds(c, s), s, 0
  {
    match s.def {
      case ZArray(element, _, _, _) =>
        assert ConvertType(c, s) == ConvertArray(c, s);
        if j.Arr? {
          forall i | 0 <= i < |j.items| ensures Agree(c, element, j.items[i], exact) {
            ConversionAgrees(c, element, j.items[i], names, exact);
          }
        }
        ArrayAgrees(c, s, j, names, exact);
      case ZObject(shape, _, catchall) =>
        assert ConvertType(c, s) == ConvertObject(c, s);
        if j.Obj? {
          forall i | 0 <= i < |shape| && shape[i].key in j.members
            ensures Agree(c, shape[i].schema, j.members[shape[i].key], exact)
          {
            assert Convert(c, shape[i].schema).Ok?;
            ConversionAgrees(c, shape[i].schema, j.members[shape[i].key], names, exact);
          }
          if catchall.Catchall? {
            forall k | k in j.members ensures Agree(c, catchall.schema, j.members[k], exact) {
              ConversionAgrees(c, catchall.schema, j.members[k], names, exact);
            }
          }
        }
        ObjectAgrees(c, s, j, exact);
      case ZRecord(key, value) =>
        assert ConvertType(c, s) == ConvertRecord(c, s);
        if j.Obj? {
          forall k | k in j.members ensures Agree(c, value, j.members[k], exact) {
            ConversionAgrees(c, value, j.members[k], names, exact);
          }
          if IsEnum(c, key) {
            forall k | k in j.members ensures Agree(c, key, Str(k), exact) {
              ConversionAgrees(c, key, Str(k), names, exact);
            }
          }
        }
        RecordAgrees(c, s, j, names, exact);
    }
  }

  /**
   * The emitted schema accepts exactly the JSON values the zod schema accepts, for every schema of the exact class,
   * with its references resolved in the emitted component table, recursive definitions included. Only the registered
   * schemas that can be reached need to be of the class: `names` holds what `s` and its members refer to.
   */
  lemma ConversionPreservesMeaning(c: Context, s: Zod, names: set<string>, j: Json)
    requires Compiles(c) && NamesCarry(c, names, true) && Carries(c, s, names, true) && Convert(c, s).Ok?
    ensures Accepts(c, s, Some(j)) <==> S.Valid(DocumentOf(c), Convert(c, s).value, j)
  {
    ConversionAgrees(c, s, j, names, true);
  }

  /** With refinements, repeated checks or open record keys, every accepted value is still valid. */
  lemma ConversionIsSound(c: Context, s: Zod, names: set<string>, j: Json)
    requires Compiles(c) && NamesCarry(c, names, false) && Carries(c, s, names, false) && Convert(c, s).Ok?
    requires Accepts(c, s, Some(j))
    ensures S.Valid(DocumentOf(c), Convert(c, s).value, j)
  {
    ConversionAgrees(c, s, j, names, false);
  }
}
