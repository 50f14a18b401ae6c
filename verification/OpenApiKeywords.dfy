/** The component table, and what string and number checks become. */
module OpenApiKeywords {
  import opened JsonValues
  import opened ZodSchema
  import opened OpenApi
  import S = JsonSchema

  /* ---------------------------------------------------------------- the emitted document */

  /** Every registered schema converts, so the component table can be built. */
  predicate Compiles(c: Context) {
    forall n :: n in c.definitions ==> Convert(c, c.definitions[n]).Ok?
  }

  function ComponentTable(c: Context): map<string, S.Schema>
    requires Compiles(c)
  {
    map n | n in c.definitions :: Convert(c, c.definitions[n]).value
  }

  /** Fills the component table, one registered schema after the other. */
  method BuildComponents(c: Context, names: seq<string>) returns (r: Result<map<string, S.Schema>>)
    requires forall n :: n in names <==> n in c.definitions
    ensures r.Ok? <==> Compiles(c)
    ensures r.Ok? ==> r.value == ComponentTable(c)
  {
    var schemas: map<string, S.Schema> := map[];
    for i := 0 to |names|
      invariant schemas.Keys == set k | 0 <= k < i :: names[k]
      invariant forall n :: n in schemas ==> n in c.definitions && Convert(c, c.definitions[n]) == Ok(schemas[n])
    {
      var name := names[i];
      assert name in names;
      var schema :- ConvertUse(c, c.definitions[name]);
      schemas := schemas[name := schema];
    }
    assert forall n :: n in names ==> n in schemas;
    return Ok(schemas);
  }

  function ComponentsOf(c: Context): S.Components
    requires Compiles(c)
  {
    S.Components(ComponentTable(c), c.unfolds, c.oracle.format, (p, s) => c.oracle.matches(p, "", s))
  }

  lemma RankOfPlainBag(d: S.Components, s: S.Schema)
    requires s.ref.None? && s.anyOf.Absent? && s.oneOf.Absent? && s.allOf.Absent?
    ensures S.Unfolds(d, s) == 0
  {
  }

  /** The rank depends on the reference and the three lists only. */
  lemma RankDependsOn(d: S.Components, s: S.Schema, t: S.Schema)
    requires s.ref == t.ref && s.anyOf == t.anyOf && s.oneOf == t.oneOf && s.allOf == t.allOf
    ensures S.Unfolds(d, s) == S.Unfolds(d, t)
  {
    assert S.ListUnfolds(d, s, s.anyOf) == S.ListUnfolds(d, t, t.anyOf);
    assert S.ListUnfolds(d, s, s.oneOf) == S.ListUnfolds(d, t, t.oneOf);
    assert S.ListUnfolds(d, s, s.allOf) == S.ListUnfolds(d, t, t.allOf);
  }

  ghost predicate ListWithin(d: S.Components, l: S.Schemas, bound: nat) {
    l.Present? ==> forall i :: 0 <= i < |l.list| ==> S.Unfolds(d, l.list[i]) <= bound
  }

  lemma RankOfLists(d: S.Components, s: S.Schema, bound: nat)
    requires s.ref.None?
    requires ListWithin(d, s.anyOf, bound) && ListWithin(d, s.oneOf, bound) && ListWithin(d, s.allOf, bound)
    requires (s.anyOf.Absent? && s.oneOf.Absent?) || (s.anyOf.Absent? && s.allOf.Absent?)
      || (s.oneOf.Absent? && s.allOf.Absent?)
    ensures S.Unfolds(d, s) <= bound
  {
    assert S.ListUnfolds(d, s, s.anyOf) <= bound && S.ListUnfolds(d, s, s.oneOf) <= bound
      && S.ListUnfolds(d, s, s.allOf) <= bound;
  }

  lemma ListKeepsRank(c: Context, d: S.Components, options: seq<Zod>, bound: nat)
    requires ConvertAll(c, options).Ok?
    requires forall i :: 0 <= i < |options| && Convert(c, options[i]).Ok? ==>
      S.Unfolds(d, Convert(c, options[i]).value) <= Unfolds(c, options[i])
    requires forall i :: 0 <= i < |options| ==> Unfolds(c, options[i]) <= bound
    ensures ListWithin(d, S.Present(ConvertAll(c, options).value), bound)
  {
    var list := ConvertAll(c, options).value;
    forall i | 0 <= i < |list| ensures S.Unfolds(d, list[i]) <= bound {
      assert Convert(c, options[i]) == Ok(list[i]);
    }
  }

  lemma NullableKeepsRank(d: S.Components, s: S.Schema)
    ensures S.Unfolds(d, Nullable(s)) <= S.Unfolds(d, s)
  {
    var rest := s.(description := None);
    RankDependsOn(d, rest, s);
    var n := Nullable(s);
    if rest != S.EMPTY {
      if s.type_.One? && s.ref.None? && s.constant.None? {
        RankDependsOn(d, n, s);
      } else {
        RankOfPlainBag(d, S.EMPTY.(type_ := S.One(S.TNull)));
        RankOfLists(d, n, S.Unfolds(d, s));
      }
    }
  }

  /** Following references in an emitted schema goes no deeper than looking up names in the zod schema. */
  lemma {:induction false} ConversionKeepsRank(c: Context, d: S.Components, s: Zod)
    requires d.rank == c.unfolds
    requires Convert(c, s).Ok?
    ensures S.Unfolds(d, Convert(c, s).value) <= Unfolds(c, s)
    decreases s, 1
  {
    if s.Node? {
      TypeKeepsRank(c, d, s);
      RankDependsOn(d, Convert(c, s).value, ConvertType(c, s).value);
    } else {
      var out := Convert(c, s).value;
      assert S.ListUnfolds(d, out, S.Absent) == 0;
    }
  }

  lemma {:induction false} TypeKeepsRank(c: Context, d: S.Components, s: Zod)
    requires d.rank == c.unfolds
    requires s.Node? && ConvertType(c, s).Ok?
    ensures S.Unfolds(d, ConvertType(c, s).value) <= Unfolds(c, s)
    decreases s, 0, 1
  {
    if Wraps(s.def) {
      ConversionKeepsRank(c, d, s.def.inner);
      WrapperKeepsRank(c, d, s);
    } else if s.def.ZUnion? || s.def.ZDiscriminatedUnion? || s.def.ZIntersection? {
      CombinationKeepsRank(c, d, s);
    } else {
      LeafKeepsRank(c, d, s);
    }
  }

  predicate Wraps(def: Def) {
    def.ZOptional? || def.ZNullable? || def.ZDefault? || def.ZEffects? || def.ZPass? || def.ZCatch?
  }

  lemma WrapperKeepsRank(c: Context, d: S.Components, s: Zod)
    requires s.Node? && Wraps(s.def) && ConvertType(c, s).Ok?
    requires Convert(c, s.def.inner).Ok? ==> S.Unfolds(d, Convert(c, s.def.inner).value) <= Unfolds(c, s.def.inner)
    ensures S.Unfolds(d, ConvertType(c, s).value) <= Unfolds(c, s)
  {
    if s.def.ZNullable? {
      NullableKeepsRank(d, Convert(c, s.def.inner).value);
    } else if s.def.ZDefault? {
      RankDependsOn(d, ConvertType(c, s).value, Convert(c, s.def.inner).value);
    }
  }

  lemma {:induction false} CombinationKeepsRank(c: Context, d: S.Components, s: Zod)
    requires d.rank == c.unfolds
    requires s.Node? && (s.def.ZUnion? || s.def.ZDiscriminatedUnion? || s.def.ZIntersection?) && ConvertType(c, s).Ok?
    ensures S.Unfolds(d, ConvertType(c, s).value) <= Unfolds(c, s)
    decreases s, 0, 0
  {
    assert ConvertType(c, s) == ConvertCombination(c, s);
    match s.def {
      case ZIntersection(l, r) =>
        ConversionKeepsRank(c, d, l);
        ConversionKeepsRank(c, d, r);
        RankOfBoth(d, Convert(c, l).value, Convert(c, r).value, Unfolds(c, s));
      case ZUnion(options) =>
        forall i | 0 <= i < |options| { ConversionKeepsRank(c, d, options[i]); }
        ListKeepsRank(c, d, options, OptionUnfolds(c, options));
        RankOfAny(d, ConvertAll(c, options).value, OptionUnfolds(c, options));
      case ZDiscriminatedUnion(_, options) =>
        forall i | 0 <= i < |options| { ConversionKeepsRank(c, d, options[i]); }
        ListKeepsRank(c, d, options, OptionUnfolds(c, options));
        RankOfOne(d, ConvertAll(c, options).value, OptionUnfolds(c, options));
    }
  }

  lemma RankOfAny(d: S.Components, list: seq<S.Schema>, bound: nat)
    requires ListWithin(d, S.Present(list), bound)
    ensures S.Unfolds(d, S.EMPTY.(anyOf := S.Present(list))) <= bound
  {
    RankOfLists(d, S.EMPTY.(anyOf := S.Present(list)), bound);
  }

  lemma RankOfOne(d: S.Components, list: seq<S.Schema>, bound: nat)
    requires ListWithin(d, S.Present(list), bound)
    ensures S.Unfolds(d, S.EMPTY.(oneOf := S.Present(list))) <= bound
  {
    RankOfLists(d, S.EMPTY.(oneOf := S.Present(list)), bound);
  }

  lemma RankOfBoth(d: S.Components, a: S.Schema, b: S.Schema, bound: nat)
    requires S.Unfolds(d, a) <= bound && S.Unfolds(d, b) <= bound
    ensures S.Unfolds(d, S.EMPTY.(allOf := S.Present([a, b]))) <= bound
  {
    RankOfLists(d, S.EMPTY.(allOf := S.Present([a, b])), bound);
  }

  lemma LeafKeepsRank(c: Context, d: S.Components, s: Zod)
    requires s.Node? && ConvertType(c, s).Ok?
    requires !Wraps(s.def) && !(s.def.ZUnion? || s.def.ZDiscriminatedUnion? || s.def.ZIntersection?)
    ensures S.Unfolds(d, ConvertType(c, s).value) == 0
  {
    RankOfPlainBag(d, ConvertType(c, s).value);
  }

  function DocumentOf(c: Context): (d: S.Document)
    requires Compiles(c)
    ensures d == ComponentsOf(c)
  {
    assert ComponentsOf(c).Guarded() by {
      forall n | n in c.definitions { ConversionKeepsRank(c, ComponentsOf(c), c.definitions[n]); }
    }
    ComponentsOf(c)
  }

  /* ---------------------------------------------------------------- strings */

  predicate Harmless(checks: seq<StringCheck>) {
    forall i :: 0 <= i < |checks| ==> Mutates(checks[i])
  }

  /** After `trim`, a minimum length still bounds the untrimmed string from below; nothing else carries over. */
  predicate SoundAfterTrim(checks: seq<StringCheck>) {
    checks == [] ||
    if checks[0].Trim? || checks[0].Min? then SoundAfterTrim(checks[1..])
    else Mutates(checks[0]) && Harmless(checks[1..])
  }

  /** Checks whose keywords hold of the input whenever the checks pass. */
  predicate SoundChecks(checks: seq<StringCheck>) {
    checks == [] ||
    if checks[0].Trim? then SoundAfterTrim(checks[1..])
    else if Mutates(checks[0]) then Harmless(checks[1..])
    else (checks[0].Regex? ==> checks[0].flags == "") && SoundChecks(checks[1..])
  }

  /** The check assigns a keyword that is already there. */
  predicate Overwrites(check: StringCheck, k: S.StringKeywords) {
    match check
    case Min(_) => k.minLength.Some?
    case Max(_) => k.maxLength.Some?
    case Length(_) => k.minLength.Some? || k.maxLength.Some?
    case Regex(_, _) => k.pattern.Some?
    case Email => k.format.Some?
    case Url => k.format.Some?
    case Uuid => k.format.Some?
    case Datetime => k.format.Some?
    case _ => false
  }

  predicate Fresh(k: S.StringKeywords, checks: seq<StringCheck>) {
    forall i :: 0 <= i < |checks| ==> !Overwrites(checks[i], k)
  }

  /** Checks whose keywords say exactly what they say: no keyword assigned twice, nothing checked after a change. */
  predicate ExactChecks(checks: seq<StringCheck>) {
    checks == [] ||
    if Mutates(checks[0]) then Harmless(checks[1..])
    else
      && (checks[0].Regex? ==> checks[0].flags == "")
      && Fresh(AssignText(S.NO_TEXT, checks[0]), checks[1..])
      && ExactChecks(checks[1..])
  }

  lemma HarmlessKeepsKeywords(checks: seq<StringCheck>, k: S.StringKeywords)
    requires Harmless(checks)
    ensures TextKeywords(checks, k) == Ok(k)
  {
  }

  lemma {:induction false} HarmlessPasses(o: Oracle, checks: seq<StringCheck>, s: string)
    requires Harmless(checks)
    ensures ParseString(o, checks, s).Some?
    decreases checks
  {
    if checks != [] { HarmlessPasses(o, checks[1..], Mutate(o, checks[0], s)); }
  }

  ghost predicate SameOracle(o: Oracle, d: S.Components) {
    && (forall f, s :: d.format(f, s) == o.format(f, s))
    && (forall p, s :: d.matches(p, s) == o.matches(p, "", s))
  }

  lemma {:induction false} TextSoundAfterTrim(
    o: Oracle, d: S.Components, checks: seq<StringCheck>, k: S.StringKeywords, s: string, t: string)
    requires SoundAfterTrim(checks) && |t| <= |s|
    requires S.TextValid(d, k, s) && ParseString(o, checks, t).Some?
    requires TextKeywords(checks, k).Ok?
    ensures S.TextValid(d, TextKeywords(checks, k).value, s)
    decreases checks
  {
    if checks != [] {
      if checks[0].Trim? {
        TextSoundAfterTrim(o, d, checks[1..], k, s, TrimText(t));
      } else if checks[0].Min? {
        TextSoundAfterTrim(o, d, checks[1..], k.(minLength := Some(checks[0].n)), s, t);
      } else {
        HarmlessKeepsKeywords(checks[1..], k);
      }
    }
  }

  /** Passing the checks satisfies every keyword they leave behind. */
  lemma {:induction false} TextSound(
    o: Oracle, d: S.Components, checks: seq<StringCheck>, k: S.StringKeywords, s: string)
    requires SameOracle(o, d) && SoundChecks(checks)
    requires S.TextValid(d, k, s) && ParseString(o, checks, s).Some?
    requires TextKeywords(checks, k).Ok?
    ensures S.TextValid(d, TextKeywords(checks, k).value, s)
    decreases checks
  {
    if checks != [] {
      if checks[0].Trim? {
        TextSoundAfterTrim(o, d, checks[1..], k, s, TrimText(s));
      } else if Mutates(checks[0]) {
        HarmlessKeepsKeywords(checks[1..], k);
      } else {
        TextSound(o, d, checks[1..], AssignText(k, checks[0]), s);
      }
    }
  }

  /** Satisfying the keywords of exact checks passes the checks. */
  lemma {:induction false} TextComplete(
    o: Oracle, d: S.Components, checks: seq<StringCheck>, k: S.StringKeywords, s: string)
    requires SameOracle(o, d) && ExactChecks(checks) && Fresh(k, checks)
    requires TextKeywords(checks, k).Ok? && S.TextValid(d, TextKeywords(checks, k).value, s)
    ensures S.TextValid(d, k, s) && ParseString(o, checks, s).Some?
    decreases checks
  {
    if checks != [] {
      var check, rest := checks[0], checks[1..];
      if Mutates(check) {
        HarmlessKeepsKeywords(rest, k);
        HarmlessPasses(o, rest, Mutate(o, check, s));
      } else {
        AssignedStaysFresh(check, k, checks);
        TextComplete(o, d, rest, AssignText(k, check), s);
        AssignedMeansChecked(o, d, check, k, s);
      }
    }
  }

  /** A keyword assigned where none was says what the check says. */
  lemma AssignedMeansChecked(o: Oracle, d: S.Components, check: StringCheck, k: S.StringKeywords, s: string)
    requires SameOracle(o, d) && !Mutates(check) && !Overwrites(check, k) && (check.Regex? ==> check.flags == "")
    requires S.TextValid(d, AssignText(k, check), s)
    ensures S.TextValid(d, k, s) && PassesStringCheck(o, check, s) && Mutate(o, check, s) == s
  {
  }

  lemma AssignedStaysFresh(check: StringCheck, k: S.StringKeywords, checks: seq<StringCheck>)
    requires checks != [] && checks[0] == check
    requires Fresh(k, checks) && Fresh(AssignText(S.NO_TEXT, check), checks[1..])
    ensures Fresh(AssignText(k, check), checks[1..])
  {
    forall i | 0 <= i < |checks[1..]| ensures !Overwrites(checks[1..][i], AssignText(k, check)) {
      assert !Overwrites(checks[i + 1], k);
    }
  }

  lemma {:induction false} ExactChecksAreSound(checks: seq<StringCheck>)
    requires ExactChecks(checks)
    ensures SoundChecks(checks)
    decreases checks
  {
    if checks != [] {
      if checks[0].Trim? { HarmlessAfterTrim(checks[1..]); }
      else if !Mutates(checks[0]) { ExactChecksAreSound(checks[1..]); }
    }
  }

  lemma HarmlessAfterTrim(checks: seq<StringCheck>)
    requires Harmless(checks)
    ensures SoundAfterTrim(checks)
  {
  }

  /* ---------------------------------------------------------------- numbers */

  predicate OverwritesNumber(check: NumberCheck, k: S.NumberKeywords) {
    match check
    case AtLeast(_, inclusive) => if inclusive then k.minimum.Some? else k.exclusiveMinimum.Some?
    case AtMost(_, inclusive) => if inclusive then k.maximum.Some? else k.exclusiveMaximum.Some?
    case MultipleOf(_) => k.multipleOf.Some?
    case _ => false
  }

  predicate FreshNumber(k: S.NumberKeywords, checks: seq<NumberCheck>) {
    forall i :: 0 <= i < |checks| ==> !OverwritesNumber(checks[i], k)
  }

  /** No keyword assigned twice. */
  predicate ExactNumberChecks(checks: seq<NumberCheck>) {
    checks == [] || (FreshNumber(AssignNumber(S.NO_NUMBER, checks[0]), checks[1..]) && ExactNumberChecks(checks[1..]))
  }

  lemma {:induction false} NumberSound(checks: seq<NumberCheck>, k: S.NumberKeywords, x: real)
    requires S.NumberValid(k, x) && PassesNumberChecks(checks, x)
    requires NumericKeywords(checks, k).Ok?
    ensures S.NumberValid(NumericKeywords(checks, k).value, x)
    decreases checks
  {
    if checks != [] { NumberSound(checks[1..], AssignNumber(k, checks[0]), x); }
  }

  lemma AssignedMeansBounded(check: NumberCheck, k: S.NumberKeywords, x: real)
    requires !OverwritesNumber(check, k)
    requires S.NumberValid(AssignNumber(k, check), x)
    ensures S.NumberValid(k, x) && (check.Int? || PassesNumberCheck(check, x))
  {
  }

  lemma {:induction false} NumberComplete(checks: seq<NumberCheck>, k: S.NumberKeywords, x: real)
    requires ExactNumberChecks(checks) && FreshNumber(k, checks)
    requires NumericKeywords(checks, k).Ok? && S.NumberValid(NumericKeywords(checks, k).value, x)
    ensures S.NumberValid(k, x)
    ensures forall i :: 0 <= i < |checks| && !checks[i].Int? ==> PassesNumberCheck(checks[i], x)
    decreases checks
  {
    if checks != [] {
      var check, rest := checks[0], checks[1..];
      forall i | 0 <= i < |rest| ensures !OverwritesNumber(rest[i], AssignNumber(k, check)) {
        assert !OverwritesNumber(checks[i + 1], k);
      }
      NumberComplete(rest, AssignNumber(k, check), x);
      AssignedMeansBounded(check, k, x);
      assert forall i :: 1 <= i < |checks| ==> checks[i] == rest[i - 1];
    }
  }
}
