/** The converter from zod schemas to JSON Schema 2020-12 and the component table of the OpenAPI document. */
module OpenApi {
  import opened JsonValues
  import opened ZodSchema
  import opened S = JsonSchema

  datatype ConvertError =
    | UnsupportedStringCheck(kind: string)
    | UnsupportedNumberCheck(kind: string)
    | UnsupportedLiteral
    | UnsupportedType(typeName: string)

  datatype Result<+T> = Ok(value: T) | Err(error: ConvertError) {
    predicate IsFailure() { Err? }
    function PropagateFailure<U>(): Result<U> requires Err? { Err(error) }
    function Extract(): T requires Ok? { value }
  }

  /* ---------------------------------------------------------------- what conversion yields */

  /** The keyword a check assigns. */
  function AssignText(k: StringKeywords, check: StringCheck): StringKeywords {
    match check
    case Min(n) => k.(minLength := Some(n))
    case Max(n) => k.(maxLength := Some(n))
    case Length(n) => k.(minLength := Some(n), maxLength := Some(n))
    case Email => k.(format := Some("email"))
    case Url => k.(format := Some("uri"))
    case Uuid => k.(format := Some("uuid"))
    case Datetime => k.(format := Some("date-time"))
    case Regex(source, _) => k.(pattern := Some(source))
    case _ => k
  }

  /** The keywords after the checks, in order: a later check of a keyword overwrites an earlier one. */
  function TextKeywords(checks: seq<StringCheck>, k: StringKeywords): Result<StringKeywords> {
    if checks == [] then Ok(k)
    else if checks[0].OtherStringCheck? then Err(UnsupportedStringCheck(checks[0].kind))
    else TextKeywords(checks[1..], AssignText(k, checks[0]))
  }

  function AssignNumber(k: NumberKeywords, check: NumberCheck): NumberKeywords {
    match check
    case AtLeast(b, inclusive) => if inclusive then k.(minimum := Some(b)) else k.(exclusiveMinimum := Some(b))
    case AtMost(b, inclusive) => if inclusive then k.(maximum := Some(b)) else k.(exclusiveMaximum := Some(b))
    case MultipleOf(step) => k.(multipleOf := Some(step))
    case _ => k
  }

  function NumericKeywords(checks: seq<NumberCheck>, k: NumberKeywords): Result<NumberKeywords> {
    if checks == [] then Ok(k)
    else if checks[0].OtherNumberCheck? then Err(UnsupportedNumberCheck(checks[0].kind))
    else NumericKeywords(checks[1..], AssignNumber(k, checks[0]))
  }

  predicate HasIntCheck(checks: seq<NumberCheck>) {
    exists i :: 0 <= i < |checks| && checks[i].Int?
  }

  function LiteralSchema(l: Literal): Result<Schema> {
    match l
    case LNull => Ok(EMPTY.(type_ := One(TNull)))
    case LBool(b) => Ok(EMPTY.(type_ := One(TBoolean), constant := Some(Bool(b))))
    case LNum(x) => Ok(EMPTY.(type_ := One(if IsInteger(x) then TInteger else TNumber), constant := Some(Num(x))))
    case LStr(s) => Ok(EMPTY.(type_ := One(TString), constant := Some(Str(s))))
    case LOther => Err(UnsupportedLiteral)
  }

  /** `null` added to a schema. */
  function Nullable(s: Schema): Schema {
    var rest := s.(description := None);
    if rest == EMPTY then s
    else if s.type_.One? && s.ref.None? && s.constant.None? then
      s.(type_ := Many([s.type_.name, TNull]),
         enumeration := if s.enumeration.Some? then Some(s.enumeration.value + [Null]) else None)
    else
      var options := if rest.anyOf.Present? && rest == EMPTY.(anyOf := rest.anyOf) then rest.anyOf.list else [rest];
      EMPTY.(description := s.description, anyOf := Present(options + [EMPTY.(type_ := One(TNull))]))
  }

  function Or<T>(first: Option<T>, second: Option<T>): Option<T> {
    if first.Some? then first else second
  }

  predicate IsEnum(c: Context, s: Zod) {
    var d := Definition(c, s);
    d.Some? && d.value.ZEnum?
  }

  /** A use of a schema: a reference when it is registered, else its conversion. */
  function Convert(c: Context, s: Zod): Result<Schema>
    decreases s, 2
  {
    match s
    case Named(n) => Ok(EMPTY.(ref := Some(n)))
    case Node(description, _) =>
      var out :- ConvertType(c, s);
      Ok(if description == "" then out else out.(description := Some(description)))
  }

  function ConvertType(c: Context, s: Zod): Result<Schema>
    requires s.Node?
    decreases s, 1
  {
    match s.def
    case ZOptional(inner) => Convert(c, inner)
    case ZNullable(inner) =>
      var t :- Convert(c, inner);
      Ok(Nullable(t))
    case ZDefault(inner, d) =>
      var t :- Convert(c, inner);
      Ok(t.(default := Some(d)))
    case ZEffects(_, _, inner) => Convert(c, inner)
    case ZPass(_, inner) => Convert(c, inner)
    case ZCatch(inner, _) => Convert(c, inner)
    case ZArray(_, _, _, _) => ConvertArray(c, s)
    case ZObject(_, _, _) => ConvertObject(c, s)
    case ZRecord(_, _) => ConvertRecord(c, s)
    case ZUnion(_) => ConvertCombination(c, s)
    case ZDiscriminatedUnion(_, _) => ConvertCombination(c, s)
    case ZIntersection(_, _) => ConvertCombination(c, s)
    case _ => LeafSchema(s.def)
  }

  /** The kinds without schemas inside. */
  predicate Leaf(def: Def) {
    def.ZString? || def.ZNumber? || def.ZBoolean? || def.ZNull? || def.ZEnum? || def.ZLiteral? || def.ZUnknown? ||
    def.ZUnsupported?
  }

  function LeafSchema(def: Def): Result<Schema>
    requires Leaf(def)
  {
    match def
    case ZString(checks) =>
      var k :- TextKeywords(checks, NO_TEXT);
      Ok(EMPTY.(type_ := One(TString), text := k))
    case ZNumber(checks) =>
      var k :- NumericKeywords(checks, NO_NUMBER);
      Ok(EMPTY.(type_ := One(if HasIntCheck(checks) then TInteger else TNumber), number := k))
    case ZBoolean => Ok(EMPTY.(type_ := One(TBoolean)))
    case ZNull => Ok(EMPTY.(type_ := One(TNull)))
    case ZEnum(values) =>
      Ok(EMPTY.(type_ := One(TString),
                enumeration := Some(seq(|values|, i requires 0 <= i < |values| => Str(values[i])))))
    case ZLiteral(l) => LiteralSchema(l)
    case ZUnknown => Ok(EMPTY)
    case ZUnsupported(name) => Err(UnsupportedType(name))
  }

  function ConvertArray(c: Context, s: Zod): Result<Schema>
    requires s.Node? && s.def.ZArray?
    decreases s, 0
  {
    var items :- Convert(c, s.def.element);
    Ok(EMPTY.(type_ := One(TArray), items := Given(items),
              minItems := Or(s.def.minLength, s.def.exactLength), maxItems := Or(s.def.maxLength, s.def.exactLength)))
  }

  function ConvertObject(c: Context, s: Zod): Result<Schema>
    requires s.Node? && s.def.ZObject?
    decreases s, 0
  {
    var fields :- ConvertFields(c, s.def.shape);
    var out := EMPTY.(type_ := One(TObject), properties := Properties(fields.0), required := fields.1);
    if s.def.catchall.Catchall? then
      var extra :- Convert(c, s.def.catchall.schema);
      Ok(out.(additional := Matching(extra)))
    else Ok(if s.def.unknownKeys == Strict then out.(additional := Forbidden) else out)
  }

  function ConvertRecord(c: Context, s: Zod): Result<Schema>
    requires s.Node? && s.def.ZRecord?
    decreases s, 0
  {
    var values :- Convert(c, s.def.valueType);
    var out := EMPTY.(type_ := One(TObject), additional := Matching(values));
    if IsEnum(c, s.def.keyType) then
      var names :- Convert(c, s.def.keyType);
      Ok(out.(propertyNames := Given(names)))
    else Ok(out)
  }

  function ConvertCombination(c: Context, s: Zod): Result<Schema>
    requires s.Node? && (s.def.ZUnion? || s.def.ZDiscriminatedUnion? || s.def.ZIntersection?)
    decreases s, 0
  {
    match s.def
    case ZUnion(options) =>
      var list :- ConvertAll(c, options);
      Ok(EMPTY.(anyOf := Present(list)))
    case ZDiscriminatedUnion(_, options) =>
      var list :- ConvertAll(c, options);
      Ok(EMPTY.(oneOf := Present(list)))
    case ZIntersection(l, r) =>
      var a :- Convert(c, l);
      var b :- Convert(c, r);
      Ok(EMPTY.(allOf := Present([a, b])))
  }

  function ConvertAll(c: Context, options: seq<Zod>): (r: Result<seq<Schema>>)
    ensures r.Ok? ==> |r.value| == |options|
    ensures r.Ok? ==> forall i :: 0 <= i < |options| ==> Convert(c, options[i]) == Ok(r.value[i])
    decreases options
  {
    if options == [] then Ok([])
    else
      var first :- Convert(c, options[0]);
      var others :- ConvertAll(c, options[1..]);
      Ok([first] + others)
  }

  /** The `properties` and `required` of an object: a field is required unless `undefined` parses. */
  function ConvertFields(c: Context, shape: seq<Field>): (r: Result<(seq<Property>, seq<string>)>)
    ensures r.Ok? ==> |r.value.0| == |shape|
    ensures r.Ok? ==> forall i :: 0 <= i < |shape| ==>
      r.value.0[i].name == shape[i].key && Convert(c, shape[i].schema) == Ok(r.value.0[i].schema)
    decreases shape
  {
    if shape == [] then Ok(([], []))
    else
      var first :- Convert(c, shape[0].schema);
      var others :- ConvertFields(c, shape[1..]);
      assert forall i :: 1 <= i < |shape| ==> shape[i] == shape[1..][i - 1];
      Ok(([Property(shape[0].key, first)] + others.0,
          if IsOptional(c, shape[0].schema) then others.1 else [shape[0].key] + others.1))
  }

  /* ---------------------------------------------------------------- the converter itself */

  method StringSchema(checks: seq<StringCheck>) returns (r: Result<Schema>)
    ensures r == var k :- TextKeywords(checks, NO_TEXT); Ok(EMPTY.(type_ := One(TString), text := k))
  {
    var k := NO_TEXT;
    for i := 0 to |checks|
      invariant TextKeywords(checks[i..], k) == TextKeywords(checks, NO_TEXT)
    {
      assert checks[i..][0] == checks[i] && checks[i..][1..] == checks[i + 1..];
      match checks[i] {
        case Min(n) => k := k.(minLength := Some(n));
        case Max(n) => k := k.(maxLength := Some(n));
        case Length(n) => k := k.(minLength := Some(n), maxLength := Some(n));
        case Email => k := k.(format := Some("email"));
        case Url => k := k.(format := Some("uri"));
        case Uuid => k := k.(format := Some("uuid"));
        case Datetime => k := k.(format := Some("date-time"));
        case Regex(source, _) => k := k.(pattern := Some(source));
        case OtherStringCheck(kind) => return Err(UnsupportedStringCheck(kind));
        case _ =>
      }
    }
    return Ok(EMPTY.(type_ := One(TString), text := k));
  }

  method NumberSchema(checks: seq<NumberCheck>) returns (r: Result<Schema>)
    ensures r == var k :- NumericKeywords(checks, NO_NUMBER);
                 Ok(EMPTY.(type_ := One(if HasIntCheck(checks) then TInteger else TNumber), number := k))
  {
    var k := NO_NUMBER;
    for i := 0 to |checks|
      invariant NumericKeywords(checks[i..], k) == NumericKeywords(checks, NO_NUMBER)
    {
      assert checks[i..][0] == checks[i] && checks[i..][1..] == checks[i + 1..];
      match checks[i] {
        case AtLeast(b, inclusive) =>
          if inclusive { k := k.(minimum := Some(b)); } else { k := k.(exclusiveMinimum := Some(b)); }
        case AtMost(b, inclusive) =>
          if inclusive { k := k.(maximum := Some(b)); } else { k := k.(exclusiveMaximum := Some(b)); }
        case MultipleOf(step) => k := k.(multipleOf := Some(step));
        case OtherNumberCheck(kind) => return Err(UnsupportedNumberCheck(kind));
        case _ =>
      }
    }
    return Ok(EMPTY.(type_ := One(if HasIntCheck(checks) then TInteger else TNumber), number := k));
  }

  method ConvertUse(c: Context, s: Zod) returns (r: Result<Schema>)
    ensures r == Convert(c, s)
    decreases s, 2
  {
    match s {
      case Named(n) => return Ok(EMPTY.(ref := Some(n)));
      case Node(description, _) =>
        var out :- ConvertNode(c, s);
        return Ok(if description == "" then out else out.(description := Some(description)));
    }
  }

  method ConvertNode(c: Context, s: Zod) returns (r: Result<Schema>)
    requires s.Node?
    ensures r == ConvertType(c, s)
    decreases s, 1
  {
    match s.def {
      case ZString(checks) => r := StringSchema(checks);
      case ZNumber(checks) => r := NumberSchema(checks);
      case ZArray(_, _, _, _) => r := ArraySchema(c, s);
      case ZObject(shape, unknownKeys, catchall) => r := ObjectSchema(c, s, shape, unknownKeys, catchall);
      case ZRecord(_, _) => r := RecordSchema(c, s);
      case ZOptional(inner) => r := ConvertUse(c, inner);
      case ZNullable(inner) =>
        var t :- ConvertUse(c, inner);
        r := Ok(Nullable(t));
      case ZDefault(inner, d) =>
        var t :- ConvertUse(c, inner);
        r := Ok(t.(default := Some(d)));
      case ZEffects(_, _, inner) => r := ConvertUse(c, inner);
      case ZUnion(_) => r := CombinationSchema(c, s);
      case ZDiscriminatedUnion(_, _) => r := CombinationSchema(c, s);
      case ZIntersection(_, _) => r := CombinationSchema(c, s);
      case ZPass(_, inner) => r := ConvertUse(c, inner);
      case ZCatch(inner, _) => r := ConvertUse(c, inner);
      case _ => r := LeafSchema(s.def);
    }
  }

  method ArraySchema(c: Context, s: Zod) returns (r: Result<Schema>)
    requires s.Node? && s.def.ZArray?
    ensures r == ConvertArray(c, s)
    decreases s, 0
  {
    var items :- ConvertUse(c, s.def.element);
    var out := EMPTY.(type_ := One(TArray), items := Given(items));
    if s.def.exactLength.Some? { out := out.(minItems := s.def.exactLength, maxItems := s.def.exactLength); }
    if s.def.minLength.Some? { out := out.(minItems := s.def.minLength); }
    if s.def.maxLength.Some? { out := out.(maxItems := s.def.maxLength); }
    return Ok(out);
  }

  method RecordSchema(c: Context, s: Zod) returns (r: Result<Schema>)
    requires s.Node? && s.def.ZRecord?
    ensures r == ConvertRecord(c, s)
    decreases s, 0
  {
    var values :- ConvertUse(c, s.def.valueType);
    var out := EMPTY.(type_ := One(TObject), additional := Matching(values));
    if IsEnum(c, s.def.keyType) {
      var names :- ConvertUse(c, s.def.keyType);
      out := out.(propertyNames := Given(names));
    }
    return Ok(out);
  }

  method CombinationSchema(c: Context, s: Zod) returns (r: Result<Schema>)
    requires s.Node? && (s.def.ZUnion? || s.def.ZDiscriminatedUnion? || s.def.ZIntersection?)
    ensures r == ConvertCombination(c, s)
    decreases s, 0, 1
  {
    match s.def {
      case ZUnion(options) =>
        var list :- ConvertOptions(c, s, options);
        return Ok(EMPTY.(anyOf := Present(list)));
      case ZDiscriminatedUnion(_, options) =>
        var list :- ConvertOptions(c, s, options);
        return Ok(EMPTY.(oneOf := Present(list)));
      case ZIntersection(left, right) =>
        var a :- ConvertUse(c, left);
        var b :- ConvertUse(c, right);
        return Ok(EMPTY.(allOf := Present([a, b])));
    }
  }

  /** What converting the rest adds to the schemas so far. */
  function Behind(list: seq<Schema>, rest: Result<seq<Schema>>): Result<seq<Schema>> {
    var others :- rest;
    Ok(list + others)
  }

  lemma BehindNothing(rest: Result<seq<Schema>>)
    ensures Behind([], rest) == rest
  {
    if rest.Ok? { assert [] + rest.value == rest.value; }
  }

  lemma BehindOne(list: seq<Schema>, t: Schema, rest: Result<seq<Schema>>)
    ensures Behind(list, Behind([t], rest)) == Behind(list + [t], rest)
  {
    if rest.Ok? { assert list + ([t] + rest.value) == list + [t] + rest.value; }
  }

  method ConvertOptions(c: Context, s: Zod, options: seq<Zod>) returns (r: Result<seq<Schema>>)
    requires forall i :: 0 <= i < |options| ==> options[i] < s
    ensures r == ConvertAll(c, options)
    decreases s, 0, 0
  {
    var list: seq<Schema> := [];
    BehindNothing(ConvertAll(c, options));
    assert options[0..] == options;
    for i := 0 to |options|
      invariant ConvertAll(c, options) == Behind(list, ConvertAll(c, options[i..]))
    {
      assert options[i..][0] == options[i] && options[i..][1..] == options[i + 1..];
      var t :- ConvertUse(c, options[i]);
      BehindOne(list, t, ConvertAll(c, options[i + 1..]));
      list := list + [t];
    }
    assert list + [] == list;
    return Ok(list);
  }

  method ObjectSchema(c: Context, s: Zod, shape: seq<Field>, unknownKeys: UnknownKeys, catchall: Catchall)
    returns (r: Result<Schema>)
    requires s.Node? && s.def == ZObject(shape, unknownKeys, catchall)
    ensures r == ConvertObject(c, s)
    decreases s, 0
  {
    var properties: seq<Property> := [];
    var required: seq<string> := [];
    assert forall others: seq<Property> :: properties + others == others;
    assert forall others: seq<string> :: required + others == others;
    assert shape[0..] == shape;
    for i := 0 to |shape|
      invariant ConvertFields(c, shape) ==
                var others :- ConvertFields(c, shape[i..]); Ok((properties + others.0, required + others.1))
    {
      assert shape[i..][0] == shape[i] && shape[i..][1..] == shape[i + 1..];
      var t :- ConvertUse(c, shape[i].schema);
      var p := Property(shape[i].key, t);
      assert forall others: seq<Property> :: properties + ([p] + others) == properties + [p] + others;
      assert forall others: seq<string> :: required + ([p.name] + others) == required + [p.name] + others;
      properties := properties + [p];
      if !IsOptional(c, shape[i].schema) {
        required := required + [p.name];
      }
    }
    assert properties + [] == properties && required + [] == required;
    var out := EMPTY.(type_ := One(TObject), properties := Properties(properties), required := required);
    if catchall.Catchall? {
      var extra :- ConvertUse(c, catchall.schema);
      out := out.(additional := Matching(extra));
    } else if unknownKeys == Strict {
      out := out.(additional := Forbidden);
    }
    return Ok(out);
  }
}
