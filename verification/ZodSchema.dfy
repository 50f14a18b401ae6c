/** The zod schemas the converter handles, and what parsing with them accepts and returns. */
module ZodSchema {
  import opened JsonValues

  datatype StringCheck =
    | Min(n: int)
    | Max(n: int)
    | Length(n: int)
    | Email
    | Url
    | Uuid
    | Datetime
    | Regex(source: string, flags: string)
    | Trim
    | ToLowerCase
    | ToUpperCase
    | OtherStringCheck(kind: string)

  datatype NumberCheck =
    | Int
    | AtLeast(bound: real, inclusive: bool)
    | AtMost(bound: real, inclusive: bool)
    | MultipleOf(step: real)
    | Finite
    | OtherNumberCheck(kind: string)

  datatype Literal = LNull | LBool(b: bool) | LNum(x: real) | LStr(s: string) | LOther

  datatype UnknownKeys = Strip | Strict | Passthrough

  datatype EffectKind = Refinement | Transform | Preprocess

  datatype PassKind = Lazy | Readonly | Branded

  /**
   * A use of a schema. `Named` is a use of a schema object registered in the reference table, so a cycle through
   * `z.lazy` is a `Named` occurrence inside its own definition.
   */
  datatype Zod = Named(name: string) | Node(description: string, def: Def)

  datatype Field = Field(key: string, schema: Zod)

  datatype Catchall = NoCatchall | Catchall(schema: Zod)

  datatype Def =
    | ZString(checks: seq<StringCheck>)
    | ZNumber(numberChecks: seq<NumberCheck>)
    | ZBoolean
    | ZNull
    | ZEnum(values: seq<string>)
    | ZLiteral(literal: Literal)
    | ZArray(element: Zod, exactLength: Option<nat>, minLength: Option<nat>, maxLength: Option<nat>)
    | ZObject(shape: seq<Field>, unknownKeys: UnknownKeys, catchall: Catchall)
    | ZRecord(keyType: Zod, valueType: Zod)
    | ZOptional(inner: Zod)
    | ZNullable(inner: Zod)
    | ZDefault(inner: Zod, default: Json)
    | ZEffects(effect: EffectKind, id: string, inner: Zod)
    | ZUnion(options: seq<Zod>)
    | ZDiscriminatedUnion(discriminator: string, options: seq<Zod>)
    | ZIntersection(left: Zod, right: Zod)
    | ZPass(pass: PassKind, inner: Zod)
    | ZCatch(inner: Zod, fallback: Json)
    | ZUnknown
    | ZUnsupported(typeName: string)

  /** The code a schema calls but the converter cannot look into. */
  datatype Oracle = Oracle(
    format: (string, string) -> bool,
    matches: (string, string, string) -> bool,
    changeCase: (bool, string) -> string,
    refine: (string, Val) -> bool,
    transform: (string, Val) -> Json,
    preprocess: (string, Val) -> Val)

  /**
   * The registered schemas by name. `reparses` and `unfolds` witness that parsing ends: a definition hands a value to a
   * name only after going into a member or item of it, or to a name of smaller rank (`Guarded`). `plain` lists
   * definitions whose output only leaves members out.
   */
  datatype Registry = Registry(
    definitions: map<string, Zod>,
    reparses: string -> nat,
    unfolds: string -> nat,
    plain: set<string>,
    oracle: Oracle)
  {
    ghost predicate Guarded() {
      forall n :: n in definitions ==>
        && definitions[n].Node?
        && Reparses(this, definitions[n]) <= reparses(n)
        && Unfolds(this, definitions[n]) <= unfolds(n)
        && (n in plain ==> Plain(this, definitions[n]))
    }
  }

  const NOTHING := Registry(map[], n => 0, n => 0, {},
                            Oracle((f, s) => false, (p, g, s) => false, (u, s) => s,
                                   (i, v) => true, (i, v) => Null, (i, v) => v))

  type Context = c: Registry | c.Guarded() witness NOTHING

  /* ---------------------------------------------------------------- termination ranks */

  function Larger(a: nat, b: nat): (r: nat)
    ensures a <= r && b <= r
  {
    if a < b then b else a
  }

  /** How often parsing may go on with a value that is not part of its input (a default, a preprocessed value). */
  function Reparses(c: Registry, s: Zod): nat
    decreases s
  {
    match s
    case Named(n) => c.reparses(n)
    case Node(_, def) =>
      match def
      case ZArray(element, _, _, _) => Reparses(c, element)
      case ZObject(shape, _, catchall) =>
        Larger(FieldReparses(c, shape), if catchall.Catchall? then Reparses(c, catchall.schema) else 0)
      case ZRecord(k, v) => Larger(Reparses(c, k), Reparses(c, v))
      case ZOptional(inner) => Reparses(c, inner)
      case ZNullable(inner) => Reparses(c, inner)
      case ZDefault(inner, _) => 1 + Reparses(c, inner)
      case ZEffects(Preprocess, _, inner) => 1 + Reparses(c, inner)
      case ZEffects(_, _, inner) => Reparses(c, inner)
      case ZUnion(options) => OptionReparses(c, options)
      case ZDiscriminatedUnion(_, options) => OptionReparses(c, options)
      case ZIntersection(l, r) => Larger(Reparses(c, l), Reparses(c, r))
      case ZPass(_, inner) => Reparses(c, inner)
      case ZCatch(inner, _) => Reparses(c, inner)
      case _ => 0
  }

  function FieldReparses(c: Registry, shape: seq<Field>): (r: nat)
    ensures forall i :: 0 <= i < |shape| ==> Reparses(c, shape[i].schema) <= r
    decreases shape
  {
    if shape == [] then 0 else Larger(Reparses(c, shape[0].schema), FieldReparses(c, shape[1..]))
  }

  function OptionReparses(c: Registry, options: seq<Zod>): (r: nat)
    ensures forall i :: 0 <= i < |options| ==> Reparses(c, options[i]) <= r
    decreases options
  {
    if options == [] then 0 else Larger(Reparses(c, options[0]), OptionReparses(c, options[1..]))
  }

  /** How many names are looked up before parsing goes into a member or item of the value. */
  function Unfolds(c: Registry, s: Zod): nat
    decreases s
  {
    match s
    case Named(n) => c.unfolds(n) + 1
    case Node(_, def) =>
      match def
      case ZOptional(inner) => Unfolds(c, inner)
      case ZNullable(inner) => Unfolds(c, inner)
      case ZDefault(inner, _) => Unfolds(c, inner)
      case ZEffects(_, _, inner) => Unfolds(c, inner)
      case ZUnion(options) => OptionUnfolds(c, options)
      case ZDiscriminatedUnion(_, options) => OptionUnfolds(c, options)
      case ZIntersection(l, r) => Larger(Unfolds(c, l), Unfolds(c, r))
      case ZPass(_, inner) => Unfolds(c, inner)
      case ZCatch(inner, _) => Unfolds(c, inner)
      case _ => 0
  }

  function OptionUnfolds(c: Registry, options: seq<Zod>): (r: nat)
    ensures forall i :: 0 <= i < |options| ==> Unfolds(c, options[i]) <= r
    decreases options
  {
    if options == [] then 0 else Larger(Unfolds(c, options[0]), OptionUnfolds(c, options[1..]))
  }

  /* ---------------------------------------------------------------- strings and numbers */

  predicate IsSpace(ch: char) {
    ch in {' ', '\t', '\n', '\r', '\U{000B}', '\U{000C}', '\U{00A0}', '\U{2028}', '\U{2029}', '\U{FEFF}'}
  }

  function TrimText(s: string): (t: string)
    ensures |t| <= |s|
    decreases |s|
  {
    if s == "" then s
    else if IsSpace(s[0]) then TrimText(s[1..])
    else if IsSpace(s[|s| - 1]) then TrimText(s[..|s| - 1])
    else s
  }

  predicate Mutates(check: StringCheck) {
    check.Trim? || check.ToLowerCase? || check.ToUpperCase?
  }

  function Mutate(o: Oracle, check: StringCheck, s: string): string {
    match check
    case Trim => TrimText(s)
    case ToLowerCase => o.changeCase(false, s)
    case ToUpperCase => o.changeCase(true, s)
    case _ => s
  }

  predicate PassesStringCheck(o: Oracle, check: StringCheck, s: string) {
    match check
    case Min(n) => |s| >= n
    case Max(n) => |s| <= n
    case Length(n) => |s| == n
    case Email => o.format("email", s)
    case Url => o.format("uri", s)
    case Uuid => o.format("uuid", s)
    case Datetime => o.format("date-time", s)
    case Regex(source, flags) => o.matches(source, flags, s)
    case _ => true
  }

  /** The checks run in order; trimming and case changes replace the string the later ones see. */
  function ParseString(o: Oracle, checks: seq<StringCheck>, s: string): Option<string> {
    if checks == [] then Some(s)
    else if PassesStringCheck(o, checks[0], s) then ParseString(o, checks[1..], Mutate(o, checks[0], s))
    else None
  }

  predicate PassesNumberCheck(check: NumberCheck, x: real) {
    match check
    case Int => IsInteger(x)
    case AtLeast(bound, inclusive) => if inclusive then x >= bound else x > bound
    case AtMost(bound, inclusive) => if inclusive then x <= bound else x < bound
    case MultipleOf(step) => IsMultiple(x, step)
    case _ => true
  }

  predicate PassesNumberChecks(checks: seq<NumberCheck>, x: real) {
    forall i :: 0 <= i < |checks| ==> PassesNumberCheck(checks[i], x)
  }

  function LiteralJson(l: Literal): Option<Json> {
    match l
    case LNull => Some(Null)
    case LBool(b) => Some(Bool(b))
    case LNum(x) => Some(Num(x))
    case LStr(s) => Some(Str(s))
    case LOther => None
  }

  predicate LengthAllowed(d: Def, n: nat)
    requires d.ZArray?
  {
    && (d.exactLength.Some? ==> n == d.exactLength.value)
    && (d.minLength.Some? ==> n >= d.minLength.value)
    && (d.maxLength.Some? ==> n <= d.maxLength.value)
  }

  /* ---------------------------------------------------------------- parsing */

  function Keys(shape: seq<Field>): set<string> {
    set i | 0 <= i < |shape| :: shape[i].key
  }

  function FieldOf(shape: seq<Field>, key: string): (r: Option<Zod>)
    ensures r.Some? <==> key in Keys(shape)
    ensures r.Some? ==> exists i :: 0 <= i < |shape| && shape[i].key == key && shape[i].schema == r.value
  {
    if shape == [] then None
    else if shape[0].key == key then Some(shape[0].schema)
    else
      var r := FieldOf(shape[1..], key);
      assert shape == [shape[0]] + shape[1..];
      assert key in Keys(shape) <==> key in Keys(shape[1..]) by {
        if i :| 0 <= i < |shape| && shape[i].key == key { assert shape[1..][i - 1].key == key; }
        if i :| 0 <= i < |shape[1..]| && shape[1..][i].key == key { assert shape[i + 1].key == key; }
      }
      if r.Some? then
        var i :| 0 <= i < |shape[1..]| && shape[1..][i].key == key && shape[1..][i].schema == r.value;
        assert shape[i + 1].key == key && shape[i + 1].schema == r.value;
        r
      else r
  }

  /** zod merges the two outputs of an intersection; values that differ cannot be merged. */
  function Merge(a: Json, b: Json): Option<Json>
    decreases a
  {
    if a == b then Some(a)
    else if a.Obj? && b.Obj? then
      if forall k :: k in a.members && k in b.members ==> Merge(a.members[k], b.members[k]).Some? then
        Some(Obj(a.members + b.members +
                 map k | k in a.members && k in b.members :: Merge(a.members[k], b.members[k]).value))
      else None
    else if a.Arr? && b.Arr? && |a.items| == |b.items| then
      if forall i :: 0 <= i < |a.items| ==> Merge(a.items[i], b.items[i]).Some? then
        Some(Arr(seq(|a.items|, i requires 0 <= i < |a.items| => Merge(a.items[i], b.items[i]).value)))
      else None
    else None
  }

  function MergeVal(a: Val, b: Val): Option<Val> {
    if a == b then Some(a)
    else if a.Some? && b.Some? then
      match Merge(a.value, b.value)
      case Some(m) => Some(Some(m))
      case None => None
    else None
  }

  /** The discriminator values zod reads off a field (`None`, undefined, for an optional one). */
  function DiscriminatorValues(c: Context, s: Zod): Option<set<Val>>
    decreases Unfolds(c, s), s
  {
    match s
    case Named(n) => if n in c.definitions then DiscriminatorValues(c, c.definitions[n]) else None
    case Node(_, def) =>
      match def
      case ZLiteral(l) => if LiteralJson(l).Some? then Some({LiteralJson(l)}) else None
      case ZNull => Some({Some(Null)})
      case ZEnum(values) => Some(set i | 0 <= i < |values| :: Some(Str(values[i])))
      case ZOptional(inner) => Adding(None, DiscriminatorValues(c, inner))
      case ZNullable(inner) => Adding(Some(Null), DiscriminatorValues(c, inner))
      case ZDefault(inner, _) => DiscriminatorValues(c, inner)
      case ZEffects(_, _, inner) => DiscriminatorValues(c, inner)
      case ZPass(_, inner) => DiscriminatorValues(c, inner)
      case ZCatch(inner, _) => DiscriminatorValues(c, inner)
      case _ => None
  }

  function Adding(v: Val, values: Option<set<Val>>): Option<set<Val>> {
    match values
    case None => None
    case Some(s) => Some(s + {v})
  }

  function Definition(c: Context, s: Zod): Option<Def> {
    match s
    case Named(n) => if n in c.definitions then Some(c.definitions[n].def) else None
    case Node(_, def) => Some(def)
  }

  /** The values of `discriminator` for which an option of a discriminated union is taken. */
  function OptionValues(c: Context, discriminator: string, option: Zod): Option<set<Val>> {
    match Definition(c, option)
    case Some(ZObject(shape, _, _)) =>
      (match FieldOf(shape, discriminator)
       case Some(field) => DiscriminatorValues(c, field)
       case None => None)
    case _ => None
  }

  function OptionFor(c: Context, discriminator: string, options: seq<Zod>, v: Val): (r: Option<nat>)
    ensures r.Some? ==> r.value < |options| && Takes(c, discriminator, options[r.value], v)
    ensures r.None? ==> forall i :: 0 <= i < |options| ==> !Takes(c, discriminator, options[i], v)
  {
    if options == [] then None
    else if Takes(c, discriminator, options[0], v) then Some(0)
    else
      match OptionFor(c, discriminator, options[1..], v)
      case None =>
        assert forall i :: 1 <= i < |options| ==> options[i] == options[1..][i - 1];
        None
      case Some(i) => Some(i + 1)
  }

  predicate Takes(c: Context, discriminator: string, option: Zod, v: Val) {
    var values := OptionValues(c, discriminator, option);
    values.Some? && v in values.value
  }

  /** `safeParse`: None when the value is refused, else the output. */
  function Parse(c: Context, s: Zod, v: Val): Option<Val>
    decreases Reparses(c, s), ValHeight(v), Unfolds(c, s), s, 1
  {
    match s
    case Named(n) => if n in c.definitions then Parse(c, c.definitions[n], v) else None
    case Node(_, def) =>
      match def
      case ZOptional(inner) => if v.None? then Some(None) else Parse(c, inner, v)
      case ZNullable(inner) => if v == Some(Null) then Some(v) else Parse(c, inner, v)
      case ZDefault(inner, d) => Parse(c, inner, if v.None? then Some(d) else v)
      case ZEffects(_, _, _) => ParseEffects(c, s, v)
      case ZUnion(_) => ParseCombination(c, s, v)
      case ZDiscriminatedUnion(_, _) => ParseCombination(c, s, v)
      case ZIntersection(_, _) => ParseCombination(c, s, v)
      case ZPass(_, inner) => Parse(c, inner, v)
      case ZCatch(inner, fallback) =>
        var r := Parse(c, inner, v);
        if r.Some? then r else Some(Some(fallback))
      case ZUnknown => Some(v)
      case _ =>
        if v.None? then None
        else
          match ParsePresent(c, s, v.value)
          case Some(j) => Some(Some(j))
          case None => None
  }

  function ParseEffects(c: Context, s: Zod, v: Val): Option<Val>
    requires s.Node? && s.def.ZEffects?
    decreases Reparses(c, s), ValHeight(v), Unfolds(c, s), s, 0
  {
    match s.def
    case ZEffects(Preprocess, id, inner) => Parse(c, inner, c.oracle.preprocess(id, v))
    case ZEffects(Refinement, id, inner) =>
      var r := Parse(c, inner, v);
      if r.Some? && c.oracle.refine(id, r.value) then r else None
    case ZEffects(Transform, id, inner) =>
      var r := Parse(c, inner, v);
      if r.Some? then Some(Some(c.oracle.transform(id, r.value))) else None
  }

  function ParseCombination(c: Context, s: Zod, v: Val): Option<Val>
    requires s.Node? && (s.def.ZUnion? || s.def.ZDiscriminatedUnion? || s.def.ZIntersection?)
    decreases Reparses(c, s), ValHeight(v), Unfolds(c, s), s, 0, 1
  {
    match s.def
    case ZUnion(options) => ParseUnion(c, s, options, v)
    case ZDiscriminatedUnion(discriminator, options) =>
      if v.Some? && v.value.Obj? then
        match OptionFor(c, discriminator, options, Get(v.value.members, discriminator))
        case Some(i) => Parse(c, options[i], v)
        case None => None
      else None
    case ZIntersection(l, r) =>
      var a, b := Parse(c, l, v), Parse(c, r, v);
      if a.Some? && b.Some? then MergeVal(a.value, b.value) else None
  }

  /** The kinds that refuse `undefined`. */
  function ParsePresent(c: Context, s: Zod, j: Json): Option<Json>
    requires s.Node?
    decreases Reparses(c, s), ValHeight(Some(j)), Unfolds(c, s), s, 0
  {
    match s.def
    case ZString(checks) =>
      if !j.Str? then None
      else (match ParseString(c.oracle, checks, j.s)
            case Some(t) => Some(Str(t))
            case None => None)
    case ZNumber(checks) => if j.Num? && PassesNumberChecks(checks, j.x) then Some(j) else None
    case ZBoolean => if j.Bool? then Some(j) else None
    case ZNull => if j.Null? then Some(j) else None
    case ZEnum(values) => if j.Str? && j.s in values then Some(j) else None
    case ZLiteral(l) => if LiteralJson(l) == Some(j) then Some(j) else None
    case ZArray(element, _, _, _) =>
      if && j.Arr? && LengthAllowed(s.def, |j.items|)
         && forall i :: 0 <= i < |j.items| ==> Parse(c, element, Some(j.items[i])).Some?
      then Some(Arr(seq(|j.items|, i requires 0 <= i < |j.items| =>
        var r := Parse(c, element, Some(j.items[i])); if Item(r) then r.value.value else Null)))
      else None
    case ZObject(shape, unknownKeys, catchall) =>
      if && j.Obj?
         && (forall i :: 0 <= i < |shape| ==> Parse(c, shape[i].schema, Get(j.members, shape[i].key)).Some?)
         && (forall k :: k in j.members && k !in Keys(shape) && catchall.Catchall? ==>
              Parse(c, catchall.schema, Some(j.members[k])).Some?)
         && (catchall.NoCatchall? && unknownKeys == Strict ==> j.members.Keys <= Keys(shape))
      then
        var known := map k | k in Keys(shape) && Item(Parse(c, FieldOf(shape, k).value, Get(j.members, k)))
          :: Parse(c, FieldOf(shape, k).value, Get(j.members, k)).value.value;
        var others :=
          if catchall.Catchall? then
            map k | k in j.members && k !in Keys(shape) && Item(Parse(c, catchall.schema, Some(j.members[k])))
              :: Parse(c, catchall.schema, Some(j.members[k])).value.value
          else if unknownKeys == Strip then map[]
          else map k | k in j.members && k !in Keys(shape) :: j.members[k];
        Some(Obj(known + others))
      else None
    case ZRecord(key, value) =>
      if && j.Obj?
         && forall k :: k in j.members ==>
              Parse(c, key, Some(Str(k))).Some? && Parse(c, value, Some(j.members[k])).Some?
      then Some(Obj(map k | k in j.members && Item(Parse(c, value, Some(j.members[k])))
        :: Parse(c, value, Some(j.members[k])).value.value))
      else None
    case _ => None
  }

  /** A successful parse whose output is not `undefined`. */
  predicate Item(r: Option<Val>) {
    r.Some? && r.value.Some?
  }

  /** The first option that accepts the value. */
  function ParseUnion(c: Context, s: Zod, options: seq<Zod>, v: Val): (r: Option<Val>)
    requires s.Node? && s.def.ZUnion?
    requires forall i :: 0 <= i < |options| ==> options[i] in s.def.options
    ensures r.Some? <==> exists i :: 0 <= i < |options| && Parse(c, options[i], v).Some?
    ensures r.Some? ==> exists i :: 0 <= i < |options| && Parse(c, options[i], v) == r
    decreases Reparses(c, s), ValHeight(v), Unfolds(c, s), s, 0, 0, |options|
  {
    if options == [] then None
    else
      var first := Parse(c, options[0], v);
      if first.Some? then first
      else
        var r := ParseUnion(c, s, options[1..], v);
        assert forall i :: 1 <= i < |options| ==> options[i] == options[1..][i - 1];
        assert forall i :: 0 <= i < |options[1..]| ==> options[1..][i] == options[i + 1];
        r
  }

  predicate Accepts(c: Context, s: Zod, v: Val) {
    Parse(c, s, v).Some?
  }

  /** `isOptional()`: whether `undefined` parses. */
  predicate IsOptional(c: Context, s: Zod) {
    Accepts(c, s, None)
  }

  /* ---------------------------------------------------------------- what an output can differ in */

  /** Schemas whose output is the input with object members left out, and nothing else changed. */
  predicate Plain(c: Registry, s: Zod)
    decreases s
  {
    match s
    case Named(n) => n in c.plain
    case Node(_, def) =>
      match def
      case ZString(checks) => forall i :: 0 <= i < |checks| ==> !Mutates(checks[i])
      case ZArray(element, _, _, _) => Plain(c, element)
      case ZObject(shape, _, catchall) =>
        && (forall i :: 0 <= i < |shape| ==> Plain(c, shape[i].schema))
        && (catchall.Catchall? ==> Plain(c, catchall.schema))
      case ZRecord(k, v) => Plain(c, v)
      case ZOptional(inner) => Plain(c, inner)
      case ZNullable(inner) => Plain(c, inner)
      case ZDefault(inner, _) => false
      case ZEffects(effect, _, inner) => effect == Refinement && Plain(c, inner)
      case ZUnion(options) => forall i :: 0 <= i < |options| ==> Plain(c, options[i])
      case ZDiscriminatedUnion(_, options) => forall i :: 0 <= i < |options| ==> Plain(c, options[i])
      case ZIntersection(l, r) => Plain(c, l) && Plain(c, r)
      case ZPass(_, inner) => Plain(c, inner)
      case ZCatch(inner, _) => false
      case _ => true
  }
}
