/** The two keywords that say nothing about validity: `default` and `description`. */
module OpenApiAnnotations {
  import opened JsonValues
  import opened ZodSchema
  import opened OpenApi
  import opened OpenApiKeywords
  import S = JsonSchema

  /* ---------------------------------------------------------------- descriptions */

  /** The outermost description that is not empty, as far as wrappers around a schema go. */
  function Outermost(s: Zod): Option<string>
    decreases s
  {
    match s
    case Named(_) => None
    case Node(description, def) =>
      if description != "" then Some(description) else if Wraps(def) then Outermost(def.inner) else None
  }

  lemma NullableKeepsDescription(t: S.Schema)
    ensures Nullable(t).description == t.description
  {
  }

  lemma {:induction false} DescriptionIsOutermost(c: Context, s: Zod)
    requires Convert(c, s).Ok?
    ensures Convert(c, s).value.description == Outermost(s)
    decreases s
  {
    if s.Node? {
      if Wraps(s.def) {
        DescriptionIsOutermost(c, s.def.inner);
        NullableKeepsDescription(Convert(c, s.def.inner).value);
      } else {
        OwnDescription(c, s);
      }
    }
  }

  lemma OwnDescription(c: Context, s: Zod)
    requires s.Node? && !Wraps(s.def) && ConvertType(c, s).Ok?
    ensures ConvertType(c, s).value.description == None && ConvertType(c, s).value.default == None
  {
  }

  /* ---------------------------------------------------------------- defaults */

  /** A default somewhere in the chain of wrappers. */
  predicate HasDefault(s: Zod)
    decreases s
  {
    s.Node? && Wraps(s.def) && (s.def.ZDefault? || HasDefault(s.def.inner))
  }

  /** A default that nothing around it but checks, transforms, fallbacks and brands stands before. */
  predicate FillsIn(s: Zod)
    decreases s
  {
    s.Node? &&
    match s.def
    case ZDefault(_, _) => true
    case ZEffects(effect, _, inner) => effect != Preprocess && FillsIn(inner)
    case ZPass(_, inner) => FillsIn(inner)
    case ZCatch(inner, _) => FillsIn(inner)
    case _ => false
  }

  /** The type of the schema is widened in place to take null. */
  predicate Widens(t: S.Schema) {
    t.type_.One? && t.ref.None? && t.constant.None?
  }

  lemma NullableDefault(t: S.Schema)
    ensures t.(description := None) == S.EMPTY || Widens(t) ==> Nullable(t).default == t.default
    ensures t.(description := None) != S.EMPTY && !Widens(t) ==> Nullable(t).default == None
  {
  }

  /** Wrappers pass on the default of what they wrap; only a null that is added as an alternative hides it. */
  lemma WrapperDefault(c: Context, s: Zod)
    requires Convert(c, s).Ok? && s.Node? && Wraps(s.def) && !s.def.ZDefault?
    ensures Convert(c, s.def.inner).Ok?
    ensures var t, inner := Convert(c, s).value, Convert(c, s.def.inner).value;
      t.default ==
        if s.def.ZNullable? && inner.(description := None) != S.EMPTY && !Widens(inner) then None else inner.default
  {
    NullableDefault(Convert(c, s.def.inner).value);
  }

  /** A default is emitted with its value. */
  lemma DefaultIsEmitted(c: Context, s: Zod)
    requires Convert(c, s).Ok? && s.Node? && s.def.ZDefault?
    ensures Convert(c, s).value.default == Some(s.def.default)
  {
  }

  /** Without a default in the chain of wrappers none is emitted. */
  lemma {:induction false} NoDefaultIsInvented(c: Context, s: Zod)
    requires Convert(c, s).Ok? && !HasDefault(s)
    ensures Convert(c, s).value.default == None
    decreases s
  {
    if s.Node? {
      if Wraps(s.def) {
        WrapperDefault(c, s);
        NoDefaultIsInvented(c, s.def.inner);
      } else {
        OwnDescription(c, s);
      }
    }
  }

  /** The emitted default is what zod fills in: leaving the value out parses as giving the default does. */
  lemma {:induction false} DefaultIsFilledIn(c: Context, s: Zod)
    requires Convert(c, s).Ok? && FillsIn(s)
    ensures Convert(c, s).value.default.Some?
    ensures Parse(c, s, None) == Parse(c, s, Convert(c, s).value.default)
    decreases s
  {
    if s.def.ZDefault? {
      DefaultIsEmitted(c, s);
    } else {
      WrapperDefault(c, s);
      DefaultIsFilledIn(c, s.def.inner);
      if s.def.ZEffects? {
        var v := Convert(c, s).value.default;
        assert Parse(c, s, None) == ParseEffects(c, s, None) && Parse(c, s, v) == ParseEffects(c, s, v);
      }
    }
  }

  /** Around a default, `optional` still emits it, but zod fills nothing in: undefined stays undefined. */
  lemma OptionalHidesDefault(c: Context, s: Zod)
    requires Convert(c, s).Ok? && s.Node? && s.def.ZOptional? && FillsIn(s.def.inner)
    ensures Convert(c, s).value.default.Some?
    ensures (Parse(c, s, None) == Parse(c, s, Convert(c, s).value.default))
      <==> Parse(c, s.def.inner, None) == Some(None)
  {
    WrapperDefault(c, s);
    DefaultIsFilledIn(c, s.def.inner);
  }
}
