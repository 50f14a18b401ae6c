/** What a refused schema is told, and what type a constant gets. */
module OpenApiRefusals {
  import opened JsonValues
  import opened ZodSchema
  import opened OpenApi
  import opened OpenApiKeywords
  import opened OpenApiEquivalence
  import S = JsonSchema

  /** The error names something that is in the schema: an unknown check, an unknown literal or an unknown kind. */
  predicate Holds(s: Zod, e: ConvertError)
    decreases s
  {
    s.Node? &&
    match s.def
    case ZString(checks) => e.UnsupportedStringCheck? && OtherStringCheck(e.kind) in checks
    case ZNumber(checks) => e.UnsupportedNumberCheck? && OtherNumberCheck(e.kind) in checks
    case ZLiteral(l) => l == LOther && e == UnsupportedLiteral
    case ZUnsupported(name) => e == UnsupportedType(name)
    case ZArray(element, _, _, _) => Holds(element, e)
    case ZObject(shape, _, catchall) =>
      || (exists i :: 0 <= i < |shape| && Holds(shape[i].schema, e))
      || (catchall.Catchall? && Holds(catchall.schema, e))
    case ZRecord(_, value) => Holds(value, e)
    case ZOptional(inner) => Holds(inner, e)
    case ZNullable(inner) => Holds(inner, e)
    case ZDefault(inner, _) => Holds(inner, e)
    case ZEffects(_, _, inner) => Holds(inner, e)
    case ZUnion(options) => exists i :: 0 <= i < |options| && Holds(options[i], e)
    case ZDiscriminatedUnion(_, options) => exists i :: 0 <= i < |options| && Holds(options[i], e)
    case ZIntersection(l, r) => Holds(l, e) || Holds(r, e)
    case ZPass(_, inner) => Holds(inner, e)
    case ZCatch(inner, _) => Holds(inner, e)
    case _ => false
  }

  lemma {:induction false} TextRefuses(checks: seq<StringCheck>, k: S.StringKeywords)
    requires TextKeywords(checks, k).Err?
    ensures var e := TextKeywords(checks, k).error; e.UnsupportedStringCheck? && OtherStringCheck(e.kind) in checks
    decreases checks
  {
    if !checks[0].OtherStringCheck? { TextRefuses(checks[1..], AssignText(k, checks[0])); }
  }

  lemma {:induction false} NumberRefuses(checks: seq<NumberCheck>, k: S.NumberKeywords)
    requires NumericKeywords(checks, k).Err?
    ensures var e := NumericKeywords(checks, k).error; e.UnsupportedNumberCheck? && OtherNumberCheck(e.kind) in checks
    decreases checks
  {
    if !checks[0].OtherNumberCheck? { NumberRefuses(checks[1..], AssignNumber(k, checks[0])); }
  }

  lemma {:induction false} OptionRefuses(c: Context, options: seq<Zod>) returns (i: nat)
    requires ConvertAll(c, options).Err?
    ensures i < |options| && Convert(c, options[i]) == Err(ConvertAll(c, options).error)
    decreases options
  {
    if Convert(c, options[0]).Err? {
      i := 0;
    } else {
      i := OptionRefuses(c, options[1..]);
      i := i + 1;
    }
  }

  lemma {:induction false} FieldRefuses(c: Context, shape: seq<Field>) returns (i: nat)
    requires ConvertFields(c, shape).Err?
    ensures i < |shape| && Convert(c, shape[i].schema) == Err(ConvertFields(c, shape).error)
    decreases shape
  {
    if Convert(c, shape[0].schema).Err? {
      i := 0;
    } else {
      i := FieldRefuses(c, shape[1..]);
      i := i + 1;
    }
  }

  /** A refusal names a feature that the schema holds, at whatever depth. */
  lemma {:induction false} RefusalNamesAFeature(c: Context, s: Zod)
    requires Convert(c, s).Err?
    ensures Holds(s, Convert(c, s).error)
    decreases s, 1
  {
    assert Convert(c, s) == ConvertType(c, s);
    if Wraps(s.def) {
      RefusalNamesAFeature(c, s.def.inner);
    } else if Leaf(s.def) {
      LeafRefuses(s.def);
    } else if Present(s.def) {
      EntryRefuses(c, s);
    } else {
      CombinationRefuses(c, s);
    }
  }

  lemma LeafRefuses(def: Def)
    requires Leaf(def) && LeafSchema(def).Err?
    ensures Holds(Node("", def), LeafSchema(def).error)
  {
    match def {
      case ZString(checks) => TextRefuses(checks, S.NO_TEXT);
      case ZNumber(checks) => NumberRefuses(checks, S.NO_NUMBER);
      case _ =>
    }
  }

  lemma {:induction false} EntryRefuses(c: Context, s: Zod)
    requires s.Node? && Present(s.def) && ConvertType(c, s).Err?
    ensures Holds(s, ConvertType(c, s).error)
    decreases s, 0
  {
    match s.def {
      case ZArray(element, _, _, _) =>
        assert ConvertType(c, s) == ConvertArray(c, s);
        RefusalNamesAFeature(c, element);
      case ZObject(shape, _, catchall) =>
        assert ConvertType(c, s) == ConvertObject(c, s);
        if ConvertFields(c, shape).Err? {
          var i := FieldRefuses(c, shape);
          RefusalNamesAFeature(c, shape[i].schema);
        } else {
          RefusalNamesAFeature(c, catchall.schema);
        }
      case ZRecord(key, value) =>
        assert ConvertType(c, s) == ConvertRecord(c, s);
        if IsEnum(c, key) { EnumConverts(c, key); }
        RefusalNamesAFeature(c, value);
    }
  }

  lemma EnumConverts(c: Context, s: Zod)
    requires IsEnum(c, s)
    ensures Convert(c, s).Ok?
  {
  }

  lemma {:induction false} CombinationRefuses(c: Context, s: Zod)
    requires s.Node? && (s.def.ZUnion? || s.def.ZDiscriminatedUnion? || s.def.ZIntersection?)
    requires ConvertCombination(c, s).Err?
    ensures Holds(s, ConvertCombination(c, s).error)
    decreases s, 0
  {
    if s.def.ZIntersection? {
      if Convert(c, s.def.left).Err? {
        RefusalNamesAFeature(c, s.def.left);
      } else {
        RefusalNamesAFeature(c, s.def.right);
      }
    } else {
      var i := OptionRefuses(c, s.def.options);
      RefusalNamesAFeature(c, s.def.options[i]);
    }
  }

  /** A literal becomes a constant of the one type that says most about it: `number` only for a fraction. */
  lemma LiteralIsTyped(l: Literal)
    requires LiteralSchema(l).Ok?
    ensures var t := LiteralSchema(l).value;
      && LiteralJson(l).Some? && t.type_.One? && S.HasType(t.type_.name, LiteralJson(l).value)
      && (t.type_.name == S.TNumber ==> !IsInteger(LiteralJson(l).value.x))
      && t.constant == if l == LNull then None else LiteralJson(l)
  {
  }
}
