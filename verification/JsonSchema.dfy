/** JSON Schema 2020-12, as far as the converter emits it: schemas are bags of keywords. */
module JsonSchema {
  import opened JsonValues

  datatype TypeName = TString | TNumber | TInteger | TBoolean | TNull | TArray | TObject

  /** The `type` keyword: absent, one name, or a list of names. */
  datatype Type = AnyType | One(name: TypeName) | Many(names: seq<TypeName>)

  datatype StringKeywords = StringKeywords(
    minLength: Option<int>, maxLength: Option<int>, format: Option<string>, pattern: Option<string>)

  datatype NumberKeywords = NumberKeywords(
    minimum: Option<real>, exclusiveMinimum: Option<real>,
    maximum: Option<real>, exclusiveMaximum: Option<real>, multipleOf: Option<real>)

  datatype Property = Property(name: string, schema: Schema)

  datatype Properties = NoProperties | Properties(entries: seq<Property>)

  datatype Additional = Unrestricted | Forbidden | Matching(schema: Schema)

  datatype Schemas = Absent | Present(list: seq<Schema>)

  datatype Maybe = Missing | Given(schema: Schema)

  datatype Schema = Schema(
    description: Option<string>,
    ref: Option<string>,
    type_: Type,
    enumeration: Option<seq<Json>>,
    constant: Option<Json>,
    text: StringKeywords,
    number: NumberKeywords,
    items: Maybe, minItems: Option<int>, maxItems: Option<int>,
    properties: Properties, required: seq<string>, additional: Additional, propertyNames: Maybe,
    anyOf: Schemas, oneOf: Schemas, allOf: Schemas,
    default: Option<Json>)

  const NO_TEXT := StringKeywords(None, None, None, None)
  const NO_NUMBER := NumberKeywords(None, None, None, None, None)

  /** `{}`. */
  const EMPTY := Schema(None, None, AnyType, None, None, NO_TEXT, NO_NUMBER, Missing, None, None,
                        NoProperties, [], Unrestricted, Missing, Absent, Absent, Absent, None)

  /** Named schemas with a rank that decreases along references not separated by an item or member. */
  datatype Components = Components(
    schemas: map<string, Schema>,
    rank: string -> nat,
    format: (string, string) -> bool,
    matches: (string, string) -> bool)
  {
    ghost predicate Guarded() {
      forall n :: n in schemas ==> Unfolds(this, schemas[n]) <= rank(n)
    }
  }

  const NOTHING := Components(map[], n => 0, (f, s) => false, (p, s) => false)

  type Document = d: Components | d.Guarded() witness NOTHING

  /** References followed before validation goes into an item or member. */
  ghost function Unfolds(d: Components, s: Schema): (r: nat)
    ensures s.ref.Some? ==> d.rank(s.ref.value) < r
    ensures s.anyOf.Present? ==> forall i :: 0 <= i < |s.anyOf.list| ==> Unfolds(d, s.anyOf.list[i]) <= r
    ensures s.oneOf.Present? ==> forall i :: 0 <= i < |s.oneOf.list| ==> Unfolds(d, s.oneOf.list[i]) <= r
    ensures s.allOf.Present? ==> forall i :: 0 <= i < |s.allOf.list| ==> Unfolds(d, s.allOf.list[i]) <= r
    decreases s, 1
  {
    (if s.ref.Some? then d.rank(s.ref.value) + 1 else 0)
    + ListUnfolds(d, s, s.anyOf) + ListUnfolds(d, s, s.oneOf) + ListUnfolds(d, s, s.allOf)
  }

  ghost function ListUnfolds(d: Components, s: Schema, l: Schemas): (r: nat)
    requires l == s.anyOf || l == s.oneOf || l == s.allOf
    ensures l.Present? ==> forall i :: 0 <= i < |l.list| ==> Unfolds(d, l.list[i]) <= r
    decreases s, 0
  {
    if l.Absent? then 0
    else
      var us := set i | 0 <= i < |l.list| :: Unfolds(d, l.list[i]);
      assert forall i :: 0 <= i < |l.list| ==> Unfolds(d, l.list[i]) in us;
      MaxOf(us)
  }

  /* ---------------------------------------------------------------- validation */

  predicate HasType(t: TypeName, j: Json) {
    match t
    case TString => j.Str?
    case TNumber => j.Num?
    case TInteger => j.Num? && IsInteger(j.x)
    case TBoolean => j.Bool?
    case TNull => j.Null?
    case TArray => j.Arr?
    case TObject => j.Obj?
  }

  /** Section 6.1.1 of JSON Schema Validation. */
  predicate TypeAllows(t: Type, j: Json) {
    match t
    case AnyType => true
    case One(name) => HasType(name, j)
    case Many(names) => exists i :: 0 <= i < |names| && HasType(names[i], j)
  }

  /** Sections 6.3 and 7; `format` asserts, as a validator may be told to. */
  predicate TextValid(d: Components, k: StringKeywords, s: string) {
    && (k.minLength.Some? ==> |s| >= k.minLength.value)
    && (k.maxLength.Some? ==> |s| <= k.maxLength.value)
    && (k.format.Some? ==> d.format(k.format.value, s))
    && (k.pattern.Some? ==> d.matches(k.pattern.value, s))
  }

  /** Section 6.2. */
  predicate NumberValid(k: NumberKeywords, x: real) {
    && (k.minimum.Some? ==> x >= k.minimum.value)
    && (k.exclusiveMinimum.Some? ==> x > k.exclusiveMinimum.value)
    && (k.maximum.Some? ==> x <= k.maximum.value)
    && (k.exclusiveMaximum.Some? ==> x < k.exclusiveMaximum.value)
    && (k.multipleOf.Some? ==> IsMultiple(x, k.multipleOf.value))
  }

  predicate Declares(p: Properties, key: string) {
    p.Properties? && exists i :: 0 <= i < |p.entries| && p.entries[i].name == key
  }

  /**
   * Whether a value satisfies every keyword of a schema: `$ref` by section 8.2.3.1 of JSON Schema Core, `allOf`,
   * `anyOf` and `oneOf` by section 10.2.1, `properties`, `additionalProperties` and `propertyNames` by section 10.3.2.
   */
  predicate Valid(d: Document, s: Schema, j: Json)
    decreases Height(j), Unfolds(d, s), s
  {
    && (s.ref.Some? ==> s.ref.value in d.schemas && Valid(d, d.schemas[s.ref.value], j))
    && TypeAllows(s.type_, j)
    && (s.enumeration.Some? ==> j in s.enumeration.value)
    && (s.constant.Some? ==> j == s.constant.value)
    && (j.Str? ==> TextValid(d, s.text, j.s))
    && (j.Num? ==> NumberValid(s.number, j.x))
    && (j.Arr? ==>
         && (s.items.Given? ==> forall i :: 0 <= i < |j.items| ==> Valid(d, s.items.schema, j.items[i]))
         && (s.minItems.Some? ==> |j.items| >= s.minItems.value)
         && (s.maxItems.Some? ==> |j.items| <= s.maxItems.value))
    && (j.Obj? ==>
         && (s.properties.Properties? ==>
              forall i :: 0 <= i < |s.properties.entries| && s.properties.entries[i].name in j.members ==>
                Valid(d, s.properties.entries[i].schema, j.members[s.properties.entries[i].name]))
         && (forall i :: 0 <= i < |s.required| ==> s.required[i] in j.members)
         && (s.additional.Forbidden? ==> forall k :: k in j.members ==> Declares(s.properties, k))
         && (s.additional.Matching? ==>
              forall k :: k in j.members && !Declares(s.properties, k) ==> Valid(d, s.additional.schema, j.members[k]))
         && (s.propertyNames.Given? ==> forall k :: k in j.members ==> Valid(d, s.propertyNames.schema, Str(k))))
    && (s.anyOf.Present? ==> exists i :: 0 <= i < |s.anyOf.list| && Valid(d, s.anyOf.list[i], j))
    && (s.oneOf.Present? ==>
         && (exists i :: 0 <= i < |s.oneOf.list| && Valid(d, s.oneOf.list[i], j))
         && (forall i, k :: 0 <= i < k < |s.oneOf.list| && Valid(d, s.oneOf.list[i], j) ==>
           !Valid(d, s.oneOf.list[k], j)))
    && (s.allOf.Present? ==> forall i :: 0 <= i < |s.allOf.list| ==> Valid(d, s.allOf.list[i], j))
  }
}
