/** Where the conversion fails, and where its result says something else than the zod schema. */
module OpenApiLimits {
  import opened JsonValues
  import opened ZodSchema
  import opened OpenApi
  import opened OpenApiKeywords
  import opened OpenApiMeaning
  import opened OpenApiEquivalence
  import S = JsonSchema

  /* ---------------------------------------------------------------- refusal */

  /** Every kind, check and literal in the schema is one the converter knows. */
  predicate Supported(s: Zod)
    decreases s
  {
    s.Named? ||
    match s.def
    case ZString(checks) => forall i :: 0 <= i < |checks| ==> !checks[i].OtherStringCheck?
    case ZNumber(checks) => forall i :: 0 <= i < |checks| ==> !checks[i].OtherNumberCheck?
    case ZLiteral(l) => l != LOther
    case ZArray(element, _, _, _) => Supported(element)
    case ZObject(shape, _, catchall) =>
      && (forall i :: 0 <= i < |shape| ==> Supported(shape[i].schema))
      && (catchall.Catchall? ==> Supported(catchall.schema))
    case ZRecord(_, value) => Supported(value)
    case ZOptional(inner) => Supported(inner)
    case ZNullable(inner) => Supported(inner)
    case ZDefault(inner, _) => Supported(inner)
    case ZEffects(_, _, inner) => Supported(inner)
    case ZUnion(options) => forall i :: 0 <= i < |options| ==> Supported(options[i])
    case ZDiscriminatedUnion(_, options) => forall i :: 0 <= i < |options| ==> Supported(options[i])
    case ZIntersection(l, r) => Supported(l) && Supported(r)
    case ZPass(_, inner) => Supported(inner)
    case ZCatch(inner, _) => Supported(inner)
    case ZUnsupported(_) => false
    case _ => true
  }

  lemma {:induction false} TextConverts(checks: seq<StringCheck>, k: S.StringKeywords)
    ensures TextKeywords(checks, k).Ok? <==> forall i :: 0 <= i < |checks| ==> !checks[i].OtherStringCheck?
    decreases checks
  {
    if checks != [] {
      TextConverts(checks[1..], AssignText(k, checks[0]));
      assert forall i :: 1 <= i < |checks| ==> checks[i] == checks[1..][i - 1];
      assert forall i :: 0 <= i < |checks[1..]| ==> checks[1..][i] == checks[i + 1];
    }
  }

  lemma {:induction false} NumberConverts(checks: seq<NumberCheck>, k: S.NumberKeywords)
    ensures NumericKeywords(checks, k).Ok? <==> forall i :: 0 <= i < |checks| ==> !checks[i].OtherNumberCheck?
    decreases checks
  {
    if checks != [] {
      NumberConverts(checks[1..], AssignNumber(k, checks[0]));
      assert forall i :: 1 <= i < |checks| ==> checks[i] == checks[1..][i - 1];
      assert forall i :: 0 <= i < |checks[1..]| ==> checks[1..][i] == checks[i + 1];
    }
  }

  lemma {:induction false} AllConvert(c: Context, options: seq<Zod>)
    requires forall i :: 0 <= i < |options| ==> (Convert(c, options[i]).Ok? <==> Supported(options[i]))
    ensures ConvertAll(c, options).Ok? <==> forall i :: 0 <= i < |options| ==> Supported(options[i])
    decreases options
  {
    if options != [] {
      assert forall i :: 1 <= i < |options| ==> options[i] == options[1..][i - 1];
      assert forall i :: 0 <= i < |options[1..]| ==> options[1..][i] == options[i + 1];
      AllConvert(c, options[1..]);
    }
  }

  lemma {:induction false} FieldsConvert(c: Context, shape: seq<Field>)
    requires forall i :: 0 <= i < |shape| ==> (Convert(c, shape[i].schema).Ok? <==> Supported(shape[i].schema))
    ensures ConvertFields(c, shape).Ok? <==> forall i :: 0 <= i < |shape| ==> Supported(shape[i].schema)
    decreases shape
  {
    if shape != [] {
      assert forall i :: 1 <= i < |shape| ==> shape[i] == shape[1..][i - 1];
      assert forall i :: 0 <= i < |shape[1..]| ==> shape[1..][i] == shape[i + 1];
      FieldsConvert(c, shape[1..]);
    }
  }

  /** A schema converts if and only if everything in it is supported: nothing unknown is passed over. */
  lemma {:induction false} ConvertsIffSupported(c: Context, s: Zod)
    ensures Convert(c, s).Ok? <==> Supported(s)
    decreases s, 1
  {
    if s.Node? {
      var def := s.def;
      if def.ZOptional? || def.ZNullable? || def.ZDefault? || def.ZEffects? || def.ZPass? || def.ZCatch? {
        ConvertsIffSupported(c, def.inner);
      } else if Leaf(def) {
        LeafConverts(def);
      } else {
        CompoundConverts(c, s);
      }
    }
  }

  lemma LeafConverts(def: Def)
    requires Leaf(def)
    ensures LeafSchema(def).Ok? <==> Supported(Node("", def))
  {
    match def {
      case ZString(checks) => TextConverts(checks, S.NO_TEXT);
      case ZNumber(checks) => NumberConverts(checks, S.NO_NUMBER);
      case _ =>
    }
  }

  lemma {:induction false} CompoundConverts(c: Context, s: Zod)
    requires s.Node? && (Present(s.def) || s.def.ZUnion? || s.def.ZDiscriminatedUnion? || s.def.ZIntersection?)
    ensures ConvertType(c, s).Ok? <==> Supported(s)
    decreases s, 0, 1
  {
    if Present(s.def) {
      EntriesConvert(c, s);
    } else {
      assert ConvertType(c, s) == ConvertCombination(c, s);
      match s.def {
        case ZUnion(options) =>
          forall i | 0 <= i < |options| { ConvertsIffSupported(c, options[i]); }
          AllConvert(c, options);
        case ZDiscriminatedUnion(_, options) =>
          forall i | 0 <= i < |options| { ConvertsIffSupported(c, options[i]); }
          AllConvert(c, options);
        case ZIntersection(l, r) =>
          ConvertsIffSupported(c, l);
          ConvertsIffSupported(c, r);
      }
    }
  }

  lemma {:induction false} EntriesConvert(c: Context, s: Zod)
    requires s.Node? && Present(s.def)
    ensures ConvertType(c, s).Ok? <==> Supported(s)
    decreases s, 0, 0
  {
    match s.def {
      case ZArray(element, _, _, _) =>
        assert ConvertType(c, s) == ConvertArray(c, s);
        ConvertsIffSupported(c, element);
      case ZObject(shape, _, catchall) =>
        assert ConvertType(c, s) == ConvertObject(c, s);
        forall i | 0 <= i < |shape| ensures Convert(c, shape[i].schema).Ok? <==> Supported(shape[i].schema) {
          ConvertsIffSupported(c, shape[i].schema);
        }
        FieldsConvert(c, shape);
        if catchall.Catchall? { ConvertsIffSupported(c, catchall.schema); }
      case ZRecord(key, value) =>
        assert ConvertType(c, s) == ConvertRecord(c, s);
        ConvertsIffSupported(c, value);
        if IsEnum(c, key) { ConvertsIffSupported(c, key); }
    }
  }

  /* ---------------------------------------------------------------- references */

  /** Every reference in an emitted schema, at any depth, is to one of `names`. */
  predicate Refers(s: S.Schema, names: set<string>)
    decreases s
  {
    && (s.ref.Some? ==> s.ref.value in names)
    && (s.items.Given? ==> Refers(s.items.schema, names))
    && (s.properties.Properties? ==>
         forall i :: 0 <= i < |s.properties.entries| ==> Refers(s.properties.entries[i].schema, names))
    && (s.additional.Matching? ==> Refers(s.additional.schema, names))
    && (s.propertyNames.Given? ==> Refers(s.propertyNames.schema, names))
    && (s.anyOf.Present? ==> forall i :: 0 <= i < |s.anyOf.list| ==> Refers(s.anyOf.list[i], names))
    && (s.oneOf.Present? ==> forall i :: 0 <= i < |s.oneOf.list| ==> Refers(s.oneOf.list[i], names))
    && (s.allOf.Present? ==> forall i :: 0 <= i < |s.allOf.list| ==> Refers(s.allOf.list[i], names))
  }

  /** The registered names that a schema uses, outside of what conversion leaves out, are among `names`. */
  predicate UsesOnly(c: Context, s: Zod, names: set<string>)
    decreases s
  {
    match s
    case Named(n) => n in names
    case Node(_, def) =>
      match def
      case ZArray(element, _, _, _) => UsesOnly(c, element, names)
      case ZObject(shape, _, catchall) =>
        && (forall i :: 0 <= i < |shape| ==> UsesOnly(c, shape[i].schema, names))
        && (catchall.Catchall? ==> UsesOnly(c, catchall.schema, names))
      case ZRecord(key, value) => UsesOnly(c, value, names) && (IsEnum(c, key) ==> UsesOnly(c, key, names))
      case ZOptional(inner) => UsesOnly(c, inner, names)
      case ZNullable(inner) => UsesOnly(c, inner, names)
      case ZDefault(inner, _) => UsesOnly(c, inner, names)
      case ZEffects(_, _, inner) => UsesOnly(c, inner, names)
      case ZUnion(options) => forall i :: 0 <= i < |options| ==> UsesOnly(c, options[i], names)
      case ZDiscriminatedUnion(_, options) => forall i :: 0 <= i < |options| ==> UsesOnly(c, options[i], names)
      case ZIntersection(l, r) => UsesOnly(c, l, names) && UsesOnly(c, r, names)
      case ZPass(_, inner) => UsesOnly(c, inner, names)
      case ZCatch(inner, _) => UsesOnly(c, inner, names)
      case _ => true
  }

  /** Keywords without schemas in them do not matter. */
  lemma AnnotatedRefers(s: S.Schema, t: S.Type, e: Option<seq<Json>>, text: Option<string>, names: set<string>)
    ensures Refers(s.(type_ := t, enumeration := e, description := text), names) <==> Refers(s, names)
  {
  }

  lemma DefaultRefers(s: S.Schema, d: Option<Json>, names: set<string>)
    ensures Refers(s.(default := d), names) <==> Refers(s, names)
  {
  }

  lemma AnyOfRefers(list: seq<S.Schema>, text: Option<string>, names: set<string>)
    ensures Refers(S.EMPTY.(description := text, anyOf := S.Present(list)), names)
      <==> forall i :: 0 <= i < |list| ==> Refers(list[i], names)
  {
  }

  lemma NullAddedRefers(list: seq<S.Schema>, text: Option<string>, names: set<string>)
    ensures Refers(S.EMPTY.(description := text, anyOf := S.Present(list + [S.EMPTY.(type_ := S.One(S.TNull))])), names)
      <==> forall i :: 0 <= i < |list| ==> Refers(list[i], names)
  {
    var all := list + [S.EMPTY.(type_ := S.One(S.TNull))];
    AnyOfRefers(all, text, names);
    assert forall i :: 0 <= i < |list| ==> all[i] == list[i];
  }

  lemma NullableRefers(s: S.Schema, names: set<string>)
    ensures Refers(Nullable(s), names) <==> Refers(s, names)
  {
    var rest := s.(description := None);
    AnnotatedRefers(s, s.type_, s.enumeration, None, names);
    if rest != S.EMPTY {
      if s.type_.One? && s.ref.None? && s.constant.None? {
        AnnotatedRefers(s, Nullable(s).type_, Nullable(s).enumeration, s.description, names);
      } else if rest.anyOf.Present? && rest == S.EMPTY.(anyOf := rest.anyOf) {
        AnyOfRefers(rest.anyOf.list, None, names);
        NullAddedRefers(rest.anyOf.list, s.description, names);
      } else {
        NullAddedRefers([rest], s.description, names);
        assert [rest][0] == rest;
      }
    }
  }

  /**
   * The references in an emitted schema are the registered names the zod schema uses, so each has an entry in the
   * component table if and only if each of these names is registered.
   */
  lemma ReferencesResolve(c: Context, s: Zod)
    requires Compiles(c) && Convert(c, s).Ok?
    ensures Refers(Convert(c, s).value, ComponentTable(c).Keys) <==> UsesOnly(c, s, c.definitions.Keys)
  {
    ReferencesAreUses(c, s, c.definitions.Keys);
    assert ComponentTable(c).Keys == c.definitions.Keys;
  }

  lemma {:induction false} ReferencesAreUses(c: Context, s: Zod, names: set<string>)
    requires Convert(c, s).Ok?
    ensures Refers(Convert(c, s).value, names) <==> UsesOnly(c, s, names)
    decreases s, 1
  {
    if s.Node? {
      TypeReferencesAreUses(c, s, names);
      var out := ConvertType(c, s).value;
      AnnotatedRefers(out, out.type_, out.enumeration, Convert(c, s).value.description, names);
    }
  }

  lemma {:induction false} TypeReferencesAreUses(c: Context, s: Zod, names: set<string>)
    requires s.Node? && ConvertType(c, s).Ok?
    ensures Refers(ConvertType(c, s).value, names) <==> UsesOnly(c, s, names)
    decreases s, 0, 1
  {
    var def := s.def;
    if Leaf(def) {
      LeafRefers(def, names);
    } else if Present(def) {
      EntriesAreUses(c, s, names);
    } else if def.ZUnion? || def.ZDiscriminatedUnion? || def.ZIntersection? {
      OptionsAreUses(c, s, names);
    } else {
      ReferencesAreUses(c, def.inner, names);
      WrapperRefers(c, s, names);
    }
  }

  lemma WrapperRefers(c: Context, s: Zod, names: set<string>)
    requires s.Node? && ConvertType(c, s).Ok?
    requires !Leaf(s.def) && !Present(s.def) && !s.def.ZUnion? && !s.def.ZDiscriminatedUnion? && !s.def.ZIntersection?
    ensures Convert(c, s.def.inner).Ok?
    ensures Refers(ConvertType(c, s).value, names) <==> Refers(Convert(c, s.def.inner).value, names)
  {
    if s.def.ZNullable? {
      NullableRefers(Convert(c, s.def.inner).value, names);
    } else if s.def.ZDefault? {
      DefaultRefers(Convert(c, s.def.inner).value, Some(s.def.default), names);
    }
  }

  lemma LeafRefers(def: Def, names: set<string>)
    requires Leaf(def) && LeafSchema(def).Ok?
    ensures Refers(LeafSchema(def).value, names)
  {
  }

  lemma {:induction false} OptionsAreUses(c: Context, s: Zod, names: set<string>)
    requires s.Node? && (s.def.ZUnion? || s.def.ZDiscriminatedUnion? || s.def.ZIntersection?) && ConvertType(c, s).Ok?
    ensures Refers(ConvertType(c, s).value, names) <==> UsesOnly(c, s, names)
    decreases s, 0, 0
  {
    assert ConvertType(c, s) == ConvertCombination(c, s);
    match s.def {
      case ZIntersection(l, r) =>
        ReferencesAreUses(c, l, names);
        ReferencesAreUses(c, r, names);
        BothRefer(Convert(c, l).value, Convert(c, r).value, names);
      case ZUnion(options) =>
        forall i | 0 <= i < |options| ensures Convert(c, options[i]) == Ok(ConvertAll(c, options).value[i]) {}
        forall i | 0 <= i < |options| { ReferencesAreUses(c, options[i], names); }
        AnyOfRefers(ConvertAll(c, options).value, None, names);
      case ZDiscriminatedUnion(_, options) =>
        forall i | 0 <= i < |options| ensures Convert(c, options[i]) == Ok(ConvertAll(c, options).value[i]) {}
        forall i | 0 <= i < |options| { ReferencesAreUses(c, options[i], names); }
        OneOfRefers(ConvertAll(c, options).value, names);
    }
  }

  lemma BothRefer(a: S.Schema, b: S.Schema, names: set<string>)
    ensures Refers(S.EMPTY.(allOf := S.Present([a, b])), names) <==> Refers(a, names) && Refers(b, names)
  {
    assert [a, b][0] == a && [a, b][1] == b;
  }

  lemma OneOfRefers(list: seq<S.Schema>, names: set<string>)
    ensures Refers(S.EMPTY.(oneOf := S.Present(list)), names)
      <==> forall i :: 0 <= i < |list| ==> Refers(list[i], names)
  {
  }

  lemma {:induction false} EntriesAreUses(c: Context, s: Zod, names: set<string>)
    requires s.Node? && Present(s.def) && ConvertType(c, s).Ok?
    ensures Refers(ConvertType(c, s).value, names) <==> UsesOnly(c, s, names)
    decreases s, 0, 0, 1
  {
    match s.def {
      case ZArray(element, _, _, _) =>
        assert ConvertType(c, s) == ConvertArray(c, s);
        ReferencesAreUses(c, element, names);
      case ZRecord(key, value) =>
        assert ConvertType(c, s) == ConvertRecord(c, s);
        ReferencesAreUses(c, value, names);
        if IsEnum(c, key) { ReferencesAreUses(c, key, names); }
      case ZObject(_, _, _) => MembersAreUses(c, s, names);
    }
  }

  lemma {:induction false} MembersAreUses(c: Context, s: Zod, names: set<string>)
    requires s.Node? && s.def.ZObject? && ConvertType(c, s).Ok?
    ensures Refers(ConvertType(c, s).value, names) <==> UsesOnly(c, s, names)
    decreases s, 0, 0, 0
  {
    var shape, catchall := s.def.shape, s.def.catchall;
    assert ConvertType(c, s) == ConvertObject(c, s);
    var fields := ConvertFields(c, shape).value;
    forall i | 0 <= i < |shape| ensures Refers(fields.0[i].schema, names) <==> UsesOnly(c, shape[i].schema, names) {
      ReferencesAreUses(c, shape[i].schema, names);
    }
    if catchall.Catchall? { ReferencesAreUses(c, catchall.schema, names); }
    MembersRefer(fields.0, fields.1, ConvertObject(c, s).value.additional, names);
  }

  lemma MembersRefer(entries: seq<S.Property>, required: seq<string>, extra: S.Additional, names: set<string>)
    ensures Refers(S.EMPTY.(type_ := S.One(S.TObject), properties := S.Properties(entries), required := required,
                            additional := extra), names)
      <==> && (forall i :: 0 <= i < |entries| ==> Refers(entries[i].schema, names))
           && (extra.Matching? ==> Refers(extra.schema, names))
  {
  }

  /* ---------------------------------------------------------------- where the meanings part */

  /** The bounds emitted for an array agree with zod on every length exactly when `ExactLengths` says so. */
  lemma ArrayBoundsAgreeIffExact(d: Def)
    requires d.ZArray?
    ensures (forall n: nat :: LengthAllowed(d, n) <==>
              && (Or(d.minLength, d.exactLength).Some? ==> n >= Or(d.minLength, d.exactLength).value)
              && (Or(d.maxLength, d.exactLength).Some? ==> n <= Or(d.maxLength, d.exactLength).value))
      <==> ExactLengths(d)
  {
    if d.exactLength.Some? {
      var low, high := Or(d.minLength, d.exactLength).value, Or(d.maxLength, d.exactLength).value;
      if low <= high {
        assert LengthAllowed(d, low) <==> low == d.exactLength.value && low <= high;
        assert LengthAllowed(d, high) <==> high == d.exactLength.value && low <= high;
      }
    }
  }

  /** An option that accepts an object without its discriminator although zod never dispatches such an object to it. */
  predicate Stray(c: Context, discriminator: string, option: Zod, m: map<string, Json>)
    requires Compiles(c) && Convert(c, option).Ok?
  {
    && discriminator !in m
    && !Takes(c, discriminator, option, None)
    && S.Valid(DocumentOf(c), Convert(c, option).value, Obj(m))
  }

  predicate Dispatched(c: Context, discriminator: string, options: seq<Zod>, m: map<string, Json>) {
    var taken := OptionFor(c, discriminator, options, Get(m, discriminator));
    taken.Some? && Accepts(c, options[taken.value], Some(Obj(m)))
  }

  lemma TakenIsUnique(c: Context, discriminator: string, options: seq<Zod>, v: Val, i: nat)
    requires Discriminates(c, discriminator, options, true) && i < |options| && Takes(c, discriminator, options[i], v)
    ensures OptionFor(c, discriminator, options, v) == Some(i)
  {
    var k := OptionFor(c, discriminator, options, v).value;
    assert v in OptionValues(c, discriminator, options[i]).value
      && v in OptionValues(c, discriminator, options[k]).value;
  }

  /** Without the discriminator, the valid options are the one dispatched to and the strays. */
  lemma ValidWithoutDiscriminator(c: Context, discriminator: string, options: seq<Zod>, m: map<string, Json>, i: nat)
    requires Compiles(c) && ConvertAll(c, options).Ok? && Discriminates(c, discriminator, options, true)
    requires forall k :: 0 <= k < |options| ==> Convert(c, options[k]).Ok? && Agree(c, options[k], Obj(m), true)
    requires discriminator !in m && i < |options|
    ensures S.Valid(DocumentOf(c), ConvertAll(c, options).value[i], Obj(m)) <==>
      || Stray(c, discriminator, options[i], m)
      || (Dispatched(c, discriminator, options, m) && OptionFor(c, discriminator, options, None) == Some(i))
    ensures OptionFor(c, discriminator, options, None) == Some(i) ==> !Stray(c, discriminator, options[i], m)
  {
    assert Convert(c, options[i]) == Ok(ConvertAll(c, options).value[i]);
    assert Agree(c, options[i], Obj(m), true);
    if Takes(c, discriminator, options[i], None) { TakenIsUnique(c, discriminator, options, None, i); }
  }

  /** A stray that `oneOf` counts: the only one, or one beside the option dispatched to. */
  predicate StrayDecides(c: Context, discriminator: string, options: seq<Zod>, m: map<string, Json>)
    requires Compiles(c) && forall i :: 0 <= i < |options| ==> Convert(c, options[i]).Ok?
  {
    && (exists i :: 0 <= i < |options| && Stray(c, discriminator, options[i], m))
    && (Dispatched(c, discriminator, options, m) ||
        forall i, k :: 0 <= i < k < |options| && Stray(c, discriminator, options[i], m) ==>
          !Stray(c, discriminator, options[k], m))
  }

  predicate OneHolds(bits: seq<bool>) {
    (exists i :: 0 <= i < |bits| && bits[i]) && forall i, k :: 0 <= i < k < |bits| && bits[i] ==> !bits[k]
  }

  /** Of the valid options all but the taken one are strays: one is valid exactly if taken, unless a stray decides. */
  lemma CountStrays(valid: seq<bool>, stray: seq<bool>, taken: Option<nat>, dispatched: bool)
    requires |valid| == |stray| && (dispatched ==> taken.Some? && taken.value < |valid|)
    requires forall i :: 0 <= i < |valid| ==>
      (valid[i] <==> stray[i] || (dispatched && taken == Some(i))) && (taken == Some(i) ==> !stray[i])
    ensures (dispatched <==> OneHolds(valid)) <==>
      !((exists i :: 0 <= i < |stray| && stray[i]) &&
        (dispatched || forall i, k :: 0 <= i < k < |stray| && stray[i] ==> !stray[k]))
  {
    if dispatched {
      assert valid[taken.value];
    }
  }

  function ValidBits(c: Context, options: seq<Zod>, m: map<string, Json>): (bits: seq<bool>)
    requires Compiles(c) && ConvertAll(c, options).Ok?
    ensures |bits| == |options|
    ensures forall i :: 0 <= i < |bits| ==>
      (bits[i] <==> S.Valid(DocumentOf(c), ConvertAll(c, options).value[i], Obj(m)))
  {
    seq(|options|, i requires 0 <= i < |options| => S.Valid(DocumentOf(c), ConvertAll(c, options).value[i], Obj(m)))
  }

  function StrayBits(c: Context, discriminator: string, options: seq<Zod>, m: map<string, Json>): (bits: seq<bool>)
    requires Compiles(c) && forall i :: 0 <= i < |options| ==> Convert(c, options[i]).Ok?
    ensures |bits| == |options|
    ensures forall i :: 0 <= i < |bits| ==> (bits[i] <==> Stray(c, discriminator, options[i], m))
  {
    seq(|options|, i requires 0 <= i < |options| => Stray(c, discriminator, options[i], m))
  }

  lemma MissingDiffersIffStray(c: Context, discriminator: string, options: seq<Zod>, m: map<string, Json>)
    requires Compiles(c) && ConvertAll(c, options).Ok? && Discriminates(c, discriminator, options, true)
    requires forall i :: 0 <= i < |options| ==> Convert(c, options[i]).Ok? && Agree(c, options[i], Obj(m), true)
    requires discriminator !in m
    ensures (Dispatched(c, discriminator, options, m) <==> OneHolds(ValidBits(c, options, m)))
      <==> !StrayDecides(c, discriminator, options, m)
  {
    var valid, stray := ValidBits(c, options, m), StrayBits(c, discriminator, options, m);
    var taken, dispatched := OptionFor(c, discriminator, options, None), Dispatched(c, discriminator, options, m);
    forall i | 0 <= i < |valid|
      ensures (valid[i] <==> stray[i] || (dispatched && taken == Some(i))) && (taken == Some(i) ==> !stray[i])
    {
      ValidWithoutDiscriminator(c, discriminator, options, m, i);
    }
    CountStrays(valid, stray, taken, dispatched);
    StrayDecidesOf(c, discriminator, options, m, stray);
  }

  /** `oneOf` and dispatching differ on an object exactly if a stray decides. */
  lemma OneOfDiffersIffStray(c: Context, discriminator: string, options: seq<Zod>, m: map<string, Json>)
    requires Compiles(c) && ConvertAll(c, options).Ok? && Discriminates(c, discriminator, options, true)
    requires forall i :: 0 <= i < |options| ==> Convert(c, options[i]).Ok? && Agree(c, options[i], Obj(m), true)
    ensures (Dispatched(c, discriminator, options, m)
      <==> ExactlyOne(DocumentOf(c), ConvertAll(c, options).value, Obj(m)))
      <==> !StrayDecides(c, discriminator, options, m)
  {
    if discriminator in m {
      DispatchAgrees(c, discriminator, options, true, m, true);
    } else {
      MissingDiffersIffStray(c, discriminator, options, m);
      OneHoldsOf(DocumentOf(c), ConvertAll(c, options).value, Obj(m), ValidBits(c, options, m));
    }
  }

  lemma OneHoldsOf(d: S.Document, list: seq<S.Schema>, j: Json, valid: seq<bool>)
    requires |valid| == |list| && forall i :: 0 <= i < |list| ==> valid[i] == S.Valid(d, list[i], j)
    ensures OneHolds(valid) <==> ExactlyOne(d, list, j)
  {
  }

  lemma StrayDecidesOf(c: Context, discriminator: string, options: seq<Zod>, m: map<string, Json>, stray: seq<bool>)
    requires Compiles(c) && forall i :: 0 <= i < |options| ==> Convert(c, options[i]).Ok?
    requires |stray| == |options|
    requires forall i :: 0 <= i < |options| ==> stray[i] == Stray(c, discriminator, options[i], m)
    ensures StrayDecides(c, discriminator, options, m) <==>
      && (exists i :: 0 <= i < |stray| && stray[i])
      && (Dispatched(c, discriminator, options, m) || forall i, k :: 0 <= i < k < |stray| && stray[i] ==> !stray[k])
  {
  }

  lemma OptionsAgree(c: Context, options: seq<Zod>, names: set<string>, j: Json)
    requires Compiles(c) && NamesCarry(c, names, true) && ConvertAll(c, options).Ok?
    requires forall i :: 0 <= i < |options| ==> Carries(c, options[i], names, true)
    ensures forall i :: 0 <= i < |options| ==> Convert(c, options[i]).Ok? && Agree(c, options[i], j, true)
  {
    forall i | 0 <= i < |options| ensures Convert(c, options[i]).Ok? && Agree(c, options[i], j, true) {
      assert Convert(c, options[i]) == Ok(ConvertAll(c, options).value[i]);
      ConversionAgrees(c, options[i], j, names, true);
    }
  }

  lemma NoOptionWithoutObject(c: Context, discriminator: string, options: seq<Zod>, j: Json)
    requires Compiles(c) && ConvertAll(c, options).Ok? && Discriminates(c, discriminator, options, true) && !j.Obj?
    ensures !ExactlyOne(DocumentOf(c), ConvertAll(c, options).value, j)
  {
    var list := ConvertAll(c, options).value;
    forall i | 0 <= i < |list| ensures !S.Valid(DocumentOf(c), list[i], j) {
      assert Convert(c, options[i]) == Ok(list[i]);
      OptionNeedsObject(c, discriminator, options[i], true, j);
    }
  }

  lemma UnionMeaning(c: Context, s: Zod, j: Json)
    requires Compiles(c) && s.Node? && s.def.ZDiscriminatedUnion? && Convert(c, s).Ok?
    ensures Accepts(c, s, Some(j)) <==> j.Obj? && Dispatched(c, s.def.discriminator, s.def.options, j.members)
    ensures ConvertAll(c, s.def.options).Ok?
    ensures S.Valid(DocumentOf(c), Convert(c, s).value, j)
      <==> ExactlyOne(DocumentOf(c), ConvertAll(c, s.def.options).value, j)
  {
    NodeMeaning(c, s, j);
    assert ConvertType(c, s) == ConvertCombination(c, s);
    AcceptsDiscriminated(c, s, j);
    BagOfOne(DocumentOf(c), ConvertAll(c, s.def.options).value, j);
  }

  /**
   * A discriminated union with defaulted discriminators whose options convert faithfully: zod and the emitted schema
   * differ on a value exactly if it is an object without the discriminator for which a stray decides.
   */
  lemma DefaultedUnionDiffersIff(c: Context, s: Zod, names: set<string>, j: Json)
    requires Compiles(c) && NamesCarry(c, names, true) && Convert(c, s).Ok?
    requires s.Node? && s.def.ZDiscriminatedUnion? && Discriminates(c, s.def.discriminator, s.def.options, true)
    requires forall i :: 0 <= i < |s.def.options| ==> Carries(c, s.def.options[i], names, true)
    ensures forall i :: 0 <= i < |s.def.options| ==> Convert(c, s.def.options[i]).Ok?
    ensures (Accepts(c, s, Some(j)) <==> S.Valid(DocumentOf(c), Convert(c, s).value, j))
      <==> !(j.Obj? && StrayDecides(c, s.def.discriminator, s.def.options, j.members))
  {
    UnionMeaning(c, s, j);
    OptionsAgree(c, s.def.options, names, j);
    if j.Obj? {
      OneOfDiffersIffStray(c, s.def.discriminator, s.def.options, j.members);
    } else {
      NoOptionWithoutObject(c, s.def.discriminator, s.def.options, j);
    }
  }

  /** If no option is taken for undefined, a stray decides exactly if one option and no other accepts without it. */
  lemma OnlyStrays(c: Context, discriminator: string, options: seq<Zod>, m: map<string, Json>)
    requires Compiles(c) && ConvertAll(c, options).Ok?
    requires forall i :: 0 <= i < |options| ==> Convert(c, options[i]).Ok? && !Takes(c, discriminator, options[i], None)
    ensures StrayDecides(c, discriminator, options, m)
      <==> discriminator !in m && ExactlyOne(DocumentOf(c), ConvertAll(c, options).value, Obj(m))
  {
    if discriminator !in m {
      var valid, stray := ValidBits(c, options, m), StrayBits(c, discriminator, options, m);
      forall i | 0 <= i < |options| ensures valid[i] == stray[i] {
        assert Convert(c, options[i]) == Ok(ConvertAll(c, options).value[i]);
      }
      assert valid == stray;
      OneHoldsOf(DocumentOf(c), ConvertAll(c, options).value, Obj(m), valid);
      StrayDecidesOf(c, discriminator, options, m, stray);
    }
  }

  /** An object schema with one field; other members are left out. */
  function OneField(key: string, field: Zod): Zod {
    Node("", ZObject([Field(key, field)], Strip, NoCatchall))
  }

  /** An object whose only member has a default. */
  function DefaultOnly(key: string, inner: Zod, d: Json): Zod {
    OneField(key, Node("", ZDefault(inner, d)))
  }

  lemma DefaultParses(c: Context, inner: Zod, d: Json)
    ensures Parse(c, Node("", ZDefault(inner, d)), None) == Parse(c, inner, Some(d))
  {
  }

  /** The conversion of such an object accepts the empty object. */
  lemma DefaultIsOptional(c: Context, key: string, inner: Zod, d: Json)
    requires Compiles(c) && Supported(inner) && Accepts(c, inner, Some(d))
    ensures var s := DefaultOnly(key, inner, d);
      Convert(c, s).Ok? && S.Valid(DocumentOf(c), Convert(c, s).value, Obj(map[]))
  {
    var s := DefaultOnly(key, inner, d);
    DefaultParses(c, inner, d);
    ConvertsIffSupported(c, s.def.shape[0].schema);
    FieldsConvert(c, s.def.shape);
    assert FieldsPresent(c, s.def.shape, map[]);
    assert ConvertType(c, s) == ConvertObject(c, s);
    ObjectMeaning(DocumentOf(c), c, s, map[]);
  }

  lemma SoleKey(shape: seq<Field>)
    requires |shape| == 1
    ensures FieldOf(shape, shape[0].key) == Some(shape[0].schema) && Keys(shape) == {shape[0].key}
  {
  }

  /** A discriminator with a default: an object without it is refused by zod and valid for the emitted `oneOf`. */
  lemma DefaultedDiscriminatorDiffers(c: Context, key: string, value: string)
    requires Compiles(c)
    ensures
      var option := DefaultOnly(key, Node("", ZLiteral(LStr(value))), Str(value));
      var s := Node("", ZDiscriminatedUnion(key, [option]));
      && !Accepts(c, s, Some(Obj(map[])))
      && Convert(c, s).Ok? && S.Valid(DocumentOf(c), Convert(c, s).value, Obj(map[]))
  {
    var literal := Node("", ZLiteral(LStr(value)));
    var option := DefaultOnly(key, literal, Str(value));
    var s := Node("", ZDiscriminatedUnion(key, [option]));
    NeverTaken(c, key, value);
    AcceptsDiscriminated(c, s, Obj(map[]));
    AcceptsLeaf(c, literal, Str(value));
    DefaultIsOptional(c, key, literal, Str(value));
    SoleOptionValid(c, key, option, Obj(map[]));
  }

  lemma SoleOptionValid(c: Context, key: string, option: Zod, j: Json)
    requires Compiles(c) && Convert(c, option).Ok? && S.Valid(DocumentOf(c), Convert(c, option).value, j)
    ensures var s := Node("", ZDiscriminatedUnion(key, [option]));
      Convert(c, s).Ok? && S.Valid(DocumentOf(c), Convert(c, s).value, j)
  {
    CombinationConverted(c, ZDiscriminatedUnion(key, [option]));
    ConvertSole(c, option);
    var list := [Convert(c, option).value];
    BagOfOne(DocumentOf(c), list, j);
    assert list[0] == Convert(c, option).value;
  }

  lemma CombinationConverted(c: Context, def: Def)
    requires def.ZUnion? || def.ZDiscriminatedUnion? || def.ZIntersection?
    ensures Convert(c, Node("", def)) == ConvertCombination(c, Node("", def))
  {
  }

  lemma ConvertSole(c: Context, option: Zod)
    requires Convert(c, option).Ok?
    ensures ConvertAll(c, [option]) == Ok([Convert(c, option).value])
  {
    var options: seq<Zod> := [option];
    assert options[0] == option && options[1..] == [];
    assert ConvertAll(c, options[1..]) == Ok([]);
    assert [Convert(c, option).value] + [] == [Convert(c, option).value];
  }

  lemma NeverTaken(c: Context, key: string, value: string)
    ensures !Takes(c, key, DefaultOnly(key, Node("", ZLiteral(LStr(value))), Str(value)), None)
  {
    var literal := Node("", ZLiteral(LStr(value)));
    var option := DefaultOnly(key, literal, Str(value));
    assert DiscriminatorValues(c, option.def.shape[0].schema) == DiscriminatorValues(c, literal)
      == Some({Some(Str(value))});
    SoleKey(option.def.shape);
  }

  /** A nullable null lists `null` twice, which section 6.1.1 of JSON Schema Validation forbids; nothing else does. */
  lemma TypeNamesRepeatIffNull(s: S.Schema)
    requires s.type_.One? && s.ref.None? && s.constant.None?
    ensures Nullable(s).type_.Many?
    ensures (exists i, k ::
      0 <= i < k < |Nullable(s).type_.names| && Nullable(s).type_.names[i] == Nullable(s).type_.names[k])
      <==> s.type_.name == S.TNull
  {
    assert Nullable(s).type_.names[0] == s.type_.name && Nullable(s).type_.names[1] == S.TNull;
  }
}
