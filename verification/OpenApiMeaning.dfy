/** What the keywords the converter emits mean: null added, references, objects, discriminators. */
module OpenApiMeaning {
  import opened JsonValues
  import opened ZodSchema
  import opened ZodOutputs
  import opened OpenApi
  import opened OpenApiKeywords
  import S = JsonSchema

  /* ---------------------------------------------------------------- annotations and null */

  lemma DescriptionMeansNothing(d: S.Document, s: S.Schema, t: Option<string>, j: Json)
    ensures S.Valid(d, s.(description := t), j) <==> S.Valid(d, s, j)
  {
  }

  lemma DefaultMeansNothing(d: S.Document, s: S.Schema, t: Option<Json>, j: Json)
    ensures S.Valid(d, s.(default := t), j) <==> S.Valid(d, s, j)
  {
  }

  /** With a single type name there is no reference and no combination, so the type decides about `null`. */
  predicate Typed(s: S.Schema) {
    s.type_.One? ==> s.ref.None? && s.anyOf.Absent? && s.oneOf.Absent? && s.allOf.Absent?
  }

  lemma {:induction false} EmittedTyped(c: Context, s: Zod)
    requires Convert(c, s).Ok?
    ensures Typed(Convert(c, s).value)
    decreases s, 1
  {
    if s.Node? { EmittedTypeTyped(c, s); }
  }

  lemma {:induction false} EmittedTypeTyped(c: Context, s: Zod)
    requires s.Node? && ConvertType(c, s).Ok?
    ensures Typed(ConvertType(c, s).value)
    decreases s, 0
  {
    match s.def {
      case ZOptional(inner) => EmittedTyped(c, inner);
      case ZNullable(inner) => EmittedTyped(c, inner);
      case ZDefault(inner, _) => EmittedTyped(c, inner);
      case ZEffects(_, _, inner) => EmittedTyped(c, inner);
      case ZPass(_, inner) => EmittedTyped(c, inner);
      case ZCatch(inner, _) => EmittedTyped(c, inner);
      case _ =>
    }
  }

  lemma ListedType(d: S.Document, s: S.Schema, j: Json)
    requires Typed(s) && s.type_.One? && s.constant.None?
    ensures S.Valid(d, Nullable(s), j) <==> j.Null? || S.Valid(d, s, j)
  {
    var n := Nullable(s);
    assert n.type_ == S.Many([s.type_.name, S.TNull]);
    var names := n.type_.names;
    assert S.TypeAllows(n.type_, j) <==> S.HasType(s.type_.name, j) || j.Null? by {
      assert names[0] == s.type_.name && names[1] == S.TNull;
    }
    if s.enumeration.Some? {
      assert j in n.enumeration.value <==> j in s.enumeration.value || j.Null?;
    }
  }

  lemma AnyOfNull(d: S.Document, options: seq<S.Schema>, text: Option<string>, j: Json)
    ensures S.Valid(d, S.EMPTY.(description := text,
      anyOf := S.Present(options + [S.EMPTY.(type_ := S.One(S.TNull))])), j)
      <==> j.Null? || exists i :: 0 <= i < |options| && S.Valid(d, options[i], j)
  {
    var null_ := S.EMPTY.(type_ := S.One(S.TNull));
    var all := options + [null_];
    assert S.Valid(d, null_, j) <==> j.Null?;
    assert all[|options|] == null_;
    assert forall i :: 0 <= i < |options| ==> all[i] == options[i];
  }

  lemma WrappedInAnyOf(d: S.Document, s: S.Schema, j: Json)
    requires s.(description := None) != S.EMPTY && !(s.type_.One? && s.ref.None? && s.constant.None?)
    ensures S.Valid(d, Nullable(s), j) <==> j.Null? || S.Valid(d, s, j)
  {
    var rest := s.(description := None);
    DescriptionMeansNothing(d, s, None, j);
    if rest.anyOf.Present? && rest == S.EMPTY.(anyOf := rest.anyOf) {
      AnyOfNull(d, rest.anyOf.list, s.description, j);
    } else {
      AnyOfNull(d, [rest], s.description, j);
      assert [rest][0] == rest;
    }
  }

  /** `nullable` accepts the old values and null, and nothing else. */
  lemma NullableMeaning(d: S.Document, s: S.Schema, j: Json)
    requires Typed(s)
    ensures S.Valid(d, Nullable(s), j) <==> j.Null? || S.Valid(d, s, j)
  {
    if s.(description := None) == S.EMPTY {
      DescriptionMeansNothing(d, s, None, j);
      assert S.Valid(d, S.EMPTY, j);
    } else if s.type_.One? && s.ref.None? && s.constant.None? {
      ListedType(d, s, j);
    } else {
      WrappedInAnyOf(d, s, j);
    }
  }

  /* ---------------------------------------------------------------- objects */

  predicate FieldsValid(d: S.Document, c: Context, shape: seq<Field>, m: map<string, Json>)
    requires ConvertFields(c, shape).Ok?
  {
    forall i :: 0 <= i < |shape| && shape[i].key in m ==> S.Valid(d, Convert(c, shape[i].schema).value, m[shape[i].key])
  }

  predicate FieldsPresent(c: Context, shape: seq<Field>, m: map<string, Json>) {
    forall i :: 0 <= i < |shape| && !IsOptional(c, shape[i].schema) ==> shape[i].key in m
  }

  predicate PropertiesValid(d: S.Document, entries: seq<S.Property>, m: map<string, Json>) {
    forall i :: 0 <= i < |entries| && entries[i].name in m ==> S.Valid(d, entries[i].schema, m[entries[i].name])
  }

  predicate RequiredPresent(required: seq<string>, m: map<string, Json>) {
    forall i :: 0 <= i < |required| ==> required[i] in m
  }

  predicate OthersValid(d: S.Document, known: set<string>, extra: S.Additional, m: map<string, Json>) {
    match extra
    case Unrestricted => true
    case Forbidden => m.Keys <= known
    case Matching(schema) => forall k :: k in m && k !in known ==> S.Valid(d, schema, m[k])
  }

  lemma DeclaredKeys(shape: seq<Field>, entries: seq<S.Property>, k: string)
    requires |entries| == |shape| && forall i :: 0 <= i < |shape| ==> entries[i].name == shape[i].key
    ensures S.Declares(S.Properties(entries), k) <==> k in Keys(shape)
  {
    if k in Keys(shape) {
      var i :| 0 <= i < |shape| && shape[i].key == k;
      assert entries[i].name == k;
    }
  }

  /** An object schema without the other keywords. */
  lemma BagOfMembers(d: S.Document, entries: seq<S.Property>, required: seq<string>, extra: S.Additional,
                     shape: seq<Field>, m: map<string, Json>)
    requires |entries| == |shape| && forall i :: 0 <= i < |shape| ==> entries[i].name == shape[i].key
    ensures S.Valid(d, S.EMPTY.(type_ := S.One(S.TObject), properties := S.Properties(entries), required := required,
                                additional := extra), Obj(m))
      <==> PropertiesValid(d, entries, m) && RequiredPresent(required, m) && OthersValid(d, Keys(shape), extra, m)
  {
    forall k { DeclaredKeys(shape, entries, k); }
  }

  lemma PropertiesMeaning(d: S.Document, c: Context, shape: seq<Field>, m: map<string, Json>)
    requires ConvertFields(c, shape).Ok?
    ensures FieldsValid(d, c, shape, m) <==> PropertiesValid(d, ConvertFields(c, shape).value.0, m)
  {
    var entries := ConvertFields(c, shape).value.0;
    assert forall i :: 0 <= i < |shape| ==>
      entries[i].name == shape[i].key && entries[i].schema == Convert(c, shape[i].schema).value;
  }

  lemma FieldsSplit(c: Context, shape: seq<Field>, m: map<string, Json>)
    requires shape != []
    ensures FieldsPresent(c, shape, m)
      <==> (IsOptional(c, shape[0].schema) || shape[0].key in m) && FieldsPresent(c, shape[1..], m)
  {
    assert forall i :: 1 <= i < |shape| ==> shape[i] == shape[1..][i - 1];
    assert forall i :: 0 <= i < |shape[1..]| ==> shape[1..][i] == shape[i + 1];
  }

  lemma RequiredSplit(key: string, required: seq<string>, m: map<string, Json>)
    ensures RequiredPresent([key] + required, m) <==> key in m && RequiredPresent(required, m)
  {
    var all := [key] + required;
    assert all[0] == key && forall i :: 0 <= i < |required| ==> required[i] == all[i + 1];
  }

  /** `required` names exactly the fields that may not be undefined. */
  lemma {:induction false} RequiredMeaning(c: Context, shape: seq<Field>, m: map<string, Json>)
    requires ConvertFields(c, shape).Ok?
    ensures FieldsPresent(c, shape, m) <==> RequiredPresent(ConvertFields(c, shape).value.1, m)
    decreases |shape|
  {
    if shape != [] {
      RequiredMeaning(c, shape[1..], m);
      FieldsSplit(c, shape, m);
      RequiredSplit(shape[0].key, ConvertFields(c, shape[1..]).value.1, m);
    }
  }

  function ExtraOf(c: Context, s: Zod): S.Additional
    requires s.Node? && s.def.ZObject? && ConvertObject(c, s).Ok?
  {
    if s.def.catchall.Catchall? then S.Matching(Convert(c, s.def.catchall.schema).value)
    else if s.def.unknownKeys == Strict then S.Forbidden else S.Unrestricted
  }

  lemma ObjectMeaning(d: S.Document, c: Context, s: Zod, m: map<string, Json>)
    requires s.Node? && s.def.ZObject? && ConvertObject(c, s).Ok?
    ensures ConvertFields(c, s.def.shape).Ok?
    ensures S.Valid(d, ConvertObject(c, s).value, Obj(m))
      <==> && FieldsValid(d, c, s.def.shape, m)
           && FieldsPresent(c, s.def.shape, m)
           && OthersValid(d, Keys(s.def.shape), ExtraOf(c, s), m)
  {
    var fields := ConvertFields(c, s.def.shape).value;
    PropertiesMeaning(d, c, s.def.shape, m);
    RequiredMeaning(c, s.def.shape, m);
    BagOfMembers(d, fields.0, fields.1, ExtraOf(c, s), s.def.shape, m);
  }

  /* ---------------------------------------------------------------- references and discriminators */

  lemma ReferenceMeaning(c: Context, n: string, j: Json)
    requires Compiles(c) && n in c.definitions
    ensures S.Valid(DocumentOf(c), Convert(c, Named(n)).value, j)
      <==> S.Valid(DocumentOf(c), Convert(c, c.definitions[n]).value, j)
  {
  }

  /**
   * Discriminators read off a literal, an enum or null, possibly optional or nullable; with a default if `defaults`.
   */
  predicate PlainDiscriminator(c: Context, s: Zod, defaults: bool)
    decreases Unfolds(c, s), s
  {
    match s
    case Named(n) => n in c.definitions && PlainDiscriminator(c, c.definitions[n], defaults)
    case Node(_, def) =>
      match def
      case ZLiteral(_) => true
      case ZNull => true
      case ZEnum(_) => true
      case ZOptional(inner) => PlainDiscriminator(c, inner, defaults)
      case ZNullable(inner) => PlainDiscriminator(c, inner, defaults)
      case ZDefault(inner, _) => defaults && PlainDiscriminator(c, inner, defaults)
      case ZPass(_, inner) => PlainDiscriminator(c, inner, defaults)
      case _ => false
  }

  lemma NodeMeaning(c: Context, s: Zod, j: Json)
    requires Compiles(c) && s.Node? && Convert(c, s).Ok?
    ensures ConvertType(c, s).Ok?
    ensures S.Valid(DocumentOf(c), Convert(c, s).value, j) <==> S.Valid(DocumentOf(c), ConvertType(c, s).value, j)
  {
    DescriptionMeansNothing(DocumentOf(c), ConvertType(c, s).value, Some(s.description), j);
  }

  lemma LeafConverted(c: Context, s: Zod)
    requires s.Node? && Leaf(s.def)
    ensures ConvertType(c, s) == LeafSchema(s.def)
  {
  }

  lemma EnumDiscriminator(d: S.Document, values: seq<string>, j: Json)
    requires S.Valid(d, LeafSchema(ZEnum(values)).value, j)
    ensures exists i :: 0 <= i < |values| && Str(values[i]) == j
  {
    var list := LeafSchema(ZEnum(values)).value.enumeration.value;
    var i :| 0 <= i < |list| && list[i] == j;
    assert Str(values[i]) == j;
  }

  lemma ConstantDiscriminator(d: S.Document, def: Def, j: Json)
    requires (def.ZLiteral? || def.ZNull?) && LeafSchema(def).Ok? && S.Valid(d, LeafSchema(def).value, j)
    ensures def.ZLiteral? ==> LiteralJson(def.literal) == Some(j)
    ensures def.ZNull? ==> j.Null?
  {
  }

  lemma LeafDiscriminator(c: Context, s: Zod, j: Json)
    requires Compiles(c) && s.Node? && (s.def.ZLiteral? || s.def.ZNull? || s.def.ZEnum?)
    requires ConvertType(c, s).Ok? && DiscriminatorValues(c, s).Some?
    requires S.Valid(DocumentOf(c), ConvertType(c, s).value, j)
    ensures Some(j) in DiscriminatorValues(c, s).value
  {
    LeafConverted(c, s);
    if s.def.ZEnum? {
      EnumDiscriminator(DocumentOf(c), s.def.values, j);
    } else {
      ConstantDiscriminator(DocumentOf(c), s.def, j);
    }
  }

  predicate WrapsDiscriminator(s: Zod) {
    s.Node? && (s.def.ZOptional? || s.def.ZNullable? || s.def.ZDefault? || s.def.ZPass?)
  }

  /** A wrapper around a discriminator accepts what is inside, or null if it adds null. */
  lemma WrappedDiscriminator(c: Context, s: Zod, j: Json)
    requires Compiles(c) && WrapsDiscriminator(s) && ConvertType(c, s).Ok?
    requires S.Valid(DocumentOf(c), ConvertType(c, s).value, j)
    ensures Convert(c, s.def.inner).Ok?
    ensures S.Valid(DocumentOf(c), Convert(c, s.def.inner).value, j) || (s.def.ZNullable? && j.Null?)
  {
    if s.def.ZNullable? {
      EmittedTyped(c, s.def.inner);
      NullableMeaning(DocumentOf(c), Convert(c, s.def.inner).value, j);
    } else if s.def.ZDefault? {
      DefaultMeansNothing(DocumentOf(c), Convert(c, s.def.inner).value, Some(s.def.default), j);
    }
  }

  /** Which discriminator values a wrapper adds. */
  lemma WrappedValues(c: Context, s: Zod, defaults: bool)
    requires WrapsDiscriminator(s) && PlainDiscriminator(c, s, defaults) && DiscriminatorValues(c, s).Some?
    ensures Unfolds(c, s.def.inner) <= Unfolds(c, s) && PlainDiscriminator(c, s.def.inner, defaults)
    ensures DiscriminatorValues(c, s.def.inner).Some?
    ensures DiscriminatorValues(c, s.def.inner).value <= DiscriminatorValues(c, s).value
    ensures s.def.ZNullable? ==> Some(Null) in DiscriminatorValues(c, s).value
    ensures s.def.ZOptional? ==> None in DiscriminatorValues(c, s).value
  {
  }

  /** What a converted discriminator field accepts is one of its discriminator values. */
  lemma {:induction false} DiscriminatorMeaning(c: Context, s: Zod, defaults: bool, j: Json)
    requires Compiles(c) && Convert(c, s).Ok?
    requires PlainDiscriminator(c, s, defaults) && DiscriminatorValues(c, s).Some?
    requires S.Valid(DocumentOf(c), Convert(c, s).value, j)
    ensures Some(j) in DiscriminatorValues(c, s).value
    decreases Unfolds(c, s), s
  {
    if s.Named? {
      ReferenceMeaning(c, s.name, j);
      DiscriminatorMeaning(c, c.definitions[s.name], defaults, j);
    } else {
      NodeMeaning(c, s, j);
      if WrapsDiscriminator(s) {
        WrappedDiscriminator(c, s, j);
        WrappedValues(c, s, defaults);
        if S.Valid(DocumentOf(c), Convert(c, s.def.inner).value, j) {
          DiscriminatorMeaning(c, s.def.inner, defaults, j);
        }
      } else {
        LeafDiscriminator(c, s, j);
      }
    }
  }

  /** Without a default, a discriminator may be left out only if `undefined` is one of its values. */
  lemma {:induction false} OptionalDiscriminator(c: Context, s: Zod)
    requires PlainDiscriminator(c, s, false) && DiscriminatorValues(c, s).Some? && IsOptional(c, s)
    ensures None in DiscriminatorValues(c, s).value
    decreases Unfolds(c, s), s
  {
    if s.Named? {
      OptionalDiscriminator(c, c.definitions[s.name]);
    } else if WrapsDiscriminator(s) {
      WrappedValues(c, s, false);
      if !s.def.ZOptional? { OptionalDiscriminator(c, s.def.inner); }
    }
  }

  /** An option of a discriminated union whose discriminator decides, before and after conversion. */
  predicate Decided(c: Context, discriminator: string, option: Zod, defaults: bool) {
    var def := Definition(c, option);
    && def.Some? && def.value.ZObject?
    && var field := FieldOf(def.value.shape, discriminator);
    field.Some? && PlainDiscriminator(c, field.value, defaults) && DiscriminatorValues(c, field.value).Some?
  }

  /** zod refuses to build a discriminated union with an undecided or ambiguous option. */
  predicate Discriminates(c: Context, discriminator: string, options: seq<Zod>, defaults: bool) {
    && (forall i :: 0 <= i < |options| ==> Decided(c, discriminator, options[i], defaults))
    && (forall i, k :: 0 <= i < k < |options| ==>
         OptionValues(c, discriminator, options[i]).value !! OptionValues(c, discriminator, options[k]).value)
  }

  /**
   * An object that a converted option accepts carries one of the option's discriminator values; with defaults, if it
   * carries the discriminator at all.
   */
  lemma OptionMeaning(c: Context, discriminator: string, option: Zod, defaults: bool, m: map<string, Json>)
    requires Compiles(c) && Convert(c, option).Ok? && Decided(c, discriminator, option, defaults)
    requires S.Valid(DocumentOf(c), Convert(c, option).value, Obj(m))
    requires defaults ==> discriminator in m
    ensures Get(m, discriminator) in OptionValues(c, discriminator, option).value
  {
    if option.Named? {
      ReferenceMeaning(c, option.name, Obj(m));
      ObjectOptionMeaning(c, discriminator, c.definitions[option.name], defaults, m);
    } else {
      ObjectOptionMeaning(c, discriminator, option, defaults, m);
    }
  }

  lemma ObjectOptionMeaning(c: Context, discriminator: string, s: Zod, defaults: bool, m: map<string, Json>)
    requires Compiles(c) && s.Node? && s.def.ZObject? && Convert(c, s).Ok? && Decided(c, discriminator, s, defaults)
    requires S.Valid(DocumentOf(c), Convert(c, s).value, Obj(m))
    requires defaults ==> discriminator in m
    ensures Get(m, discriminator) in OptionValues(c, discriminator, s).value
  {
    NodeMeaning(c, s, Obj(m));
    assert ConvertType(c, s) == ConvertObject(c, s);
    ObjectMeaning(DocumentOf(c), c, s, m);
    FieldMeaning(c, discriminator, s.def.shape, defaults, m);
  }

  lemma FieldMeaning(c: Context, key: string, shape: seq<Field>, defaults: bool, m: map<string, Json>)
    requires Compiles(c) && ConvertFields(c, shape).Ok?
    requires FieldsValid(DocumentOf(c), c, shape, m) && FieldsPresent(c, shape, m)
    requires FieldOf(shape, key).Some? && PlainDiscriminator(c, FieldOf(shape, key).value, defaults)
    requires DiscriminatorValues(c, FieldOf(shape, key).value).Some?
    requires defaults ==> key in m
    ensures Get(m, key) in DiscriminatorValues(c, FieldOf(shape, key).value).value
  {
    var field := FieldOf(shape, key).value;
    var i :| 0 <= i < |shape| && shape[i].key == key && shape[i].schema == field;
    if key in m {
      DiscriminatorMeaning(c, field, defaults, m[key]);
    } else {
      OptionalDiscriminator(c, field);
    }
  }
}
