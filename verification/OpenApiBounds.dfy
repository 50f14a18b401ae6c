/**
 * Repeated bounds and bounds after `trim`: the converter keeps the last bound of a kind and drops the trimming, and
 * this is exactly when the keywords still say what zod checks.
 */
module OpenApiBounds {
  import opened JsonValues
  import opened ZodSchema
  import opened OpenApi
  import opened OpenApiKeywords
  import opened Reals
  import S = JsonSchema

  /* ---------------------------------------------------------------- ranges of integers */

  predicate Within(low: Option<int>, high: Option<int>, n: int) {
    (low.Some? ==> n >= low.value) && (high.Some? ==> n <= high.value)
  }

  predicate EmptyRange(low: Option<int>, high: Option<int>) {
    low.Some? && high.Some? && low.value > high.value
  }

  lemma RangeMember(low: Option<int>, high: Option<int>) returns (n: int)
    requires !EmptyRange(low, high)
    ensures Within(low, high, n)
    ensures low.Some? ==> n == low.value
  {
    n := if low.Some? then low.value else if high.Some? then high.value else 0;
  }

  lemma BelowBound(low: Option<int>, high: Option<int>, bound: int) returns (n: int)
    requires !EmptyRange(low, high) && (low.Some? ==> low.value < bound)
    ensures Within(low, high, n) && n < bound
  {
    n := if low.Some? then low.value else if high.Some? && high.value < bound then high.value else bound - 1;
  }

  lemma AboveBound(low: Option<int>, high: Option<int>, bound: int) returns (n: int)
    requires !EmptyRange(low, high) && (high.Some? ==> high.value > bound)
    ensures Within(low, high, n) && n > bound
  {
    n := if high.Some? then high.value else if low.Some? && low.value > bound then low.value else bound + 1;
  }

  /** A range that is not within another one has a number that shows it. */
  lemma OutsideRange(a: Option<int>, b: Option<int>, low: Option<int>, high: Option<int>) returns (n: int)
    requires !EmptyRange(a, b)
    requires (low.Some? && (a.None? || a.value < low.value)) || (high.Some? && (b.None? || b.value > high.value))
    ensures Within(a, b, n) && !Within(low, high, n)
  {
    if low.Some? && (a.None? || a.value < low.value) {
      n := BelowBound(a, b, low.value);
    } else {
      n := AboveBound(a, b, high.value);
    }
  }

  /** Two ranges hold the same integers exactly if their bounds are the same or both are empty. */
  lemma SameRangeIff(a: Option<int>, b: Option<int>, low: Option<int>, high: Option<int>)
    ensures (forall n :: Within(a, b, n) <==> Within(low, high, n))
      <==> (a == low && b == high) || (EmptyRange(a, b) && EmptyRange(low, high))
  {
    if EmptyRange(a, b) && !EmptyRange(low, high) {
      var n := RangeMember(low, high);
    } else if !EmptyRange(a, b) && EmptyRange(low, high) {
      var n := RangeMember(a, b);
    } else if !EmptyRange(a, b) && !(a == low && b == high) {
      if (low.Some? && (a.None? || a.value < low.value)) || (high.Some? && (b.None? || b.value > high.value)) {
        var n := OutsideRange(a, b, low, high);
      } else {
        var n := OutsideRange(low, high, a, b);
      }
    }
  }

  /* ---------------------------------------------------------------- lengths of strings */

  predicate LengthChecks(checks: seq<StringCheck>) {
    forall i :: 0 <= i < |checks| ==> checks[i].Min? || checks[i].Max? || checks[i].Length?
  }

  function TighterMin(a: Option<int>, b: Option<int>): Option<int> {
    if a.Some? && (b.None? || a.value >= b.value) then a else b
  }

  function TighterMax(a: Option<int>, b: Option<int>): Option<int> {
    if a.Some? && (b.None? || a.value <= b.value) then a else b
  }

  /** The greatest minimum among the checks. */
  function LeastLength(checks: seq<StringCheck>): Option<int> {
    if checks == [] then None
    else
      TighterMin(if checks[0].Min? || checks[0].Length? then Some(checks[0].n) else None, LeastLength(checks[1..]))
  }

  /** The smallest maximum among the checks. */
  function GreatestLength(checks: seq<StringCheck>): Option<int> {
    if checks == [] then None
    else
      TighterMax(if checks[0].Max? || checks[0].Length? then Some(checks[0].n) else None, GreatestLength(checks[1..]))
  }

  lemma {:induction false} LengthsChecked(o: Oracle, checks: seq<StringCheck>, s: string)
    requires LengthChecks(checks)
    ensures ParseString(o, checks, s).Some? <==> Within(LeastLength(checks), GreatestLength(checks), |s|)
    decreases checks
  {
    if checks != [] {
      LengthsChecked(o, checks[1..], s);
      assert Mutate(o, checks[0], s) == s;
    }
  }

  /** The keywords after length checks: the last bound of each kind, no tighter than the tightest. */
  lemma {:induction false} LengthsEmitted(checks: seq<StringCheck>, k: S.StringKeywords)
    requires LengthChecks(checks)
    ensures TextKeywords(checks, k).Ok?
    ensures var r := TextKeywords(checks, k).value;
      && r == k.(minLength := r.minLength, maxLength := r.maxLength)
      && (r.maxLength.None? <==> k.maxLength.None? && GreatestLength(checks).None?)
      && forall n :: Within(k.minLength, k.maxLength, n) && Within(LeastLength(checks), GreatestLength(checks), n)
           ==> Within(r.minLength, r.maxLength, n)
    decreases checks
  {
    if checks != [] { LengthsEmitted(checks[1..], AssignText(k, checks[0])); }
  }

  /** The length keywords of the checks. */
  function Emitted(checks: seq<StringCheck>): (k: S.StringKeywords)
    requires LengthChecks(checks)
    ensures TextKeywords(checks, S.NO_TEXT) == Ok(k)
  {
    LengthsEmitted(checks, S.NO_TEXT);
    TextKeywords(checks, S.NO_TEXT).value
  }

  lemma EmittedMeaning(d: S.Components, checks: seq<StringCheck>, s: string)
    requires LengthChecks(checks)
    ensures S.TextValid(d, Emitted(checks), s) <==> Within(Emitted(checks).minLength, Emitted(checks).maxLength, |s|)
    ensures Within(LeastLength(checks), GreatestLength(checks), |s|) ==> S.TextValid(d, Emitted(checks), s)
    ensures Emitted(checks).maxLength.None? <==> GreatestLength(checks).None?
  {
    LengthsEmitted(checks, S.NO_TEXT);
  }

  /** A minimum length as it bounds lengths, which are never negative. */
  function Clip(low: Option<int>): Option<int> {
    Some(if low.Some? && low.value > 0 then low.value else 0)
  }

  /** The last bounds are the tightest, or admit no length at all. */
  predicate LastLengthsDecide(checks: seq<StringCheck>)
    requires LengthChecks(checks)
  {
    var k := Emitted(checks);
    || EmptyRange(Clip(k.minLength), k.maxLength)
    || (Clip(k.minLength) == Clip(LeastLength(checks)) && k.maxLength == GreatestLength(checks))
  }

  function Blanks(n: nat): string {
    seq(n, i => ' ')
  }

  /** For any list of length checks: the keywords and zod agree on every text exactly if the last bounds decide. */
  lemma RepeatedLengthsAgreeIff(o: Oracle, d: S.Components, checks: seq<StringCheck>)
    requires LengthChecks(checks)
    ensures (forall s :: ParseString(o, checks, s).Some? <==> S.TextValid(d, Emitted(checks), s))
      <==> LastLengthsDecide(checks)
  {
    var k, low, high := Emitted(checks), LeastLength(checks), GreatestLength(checks);
    forall s: string ensures ParseString(o, checks, s).Some? <==> Within(Clip(low), high, |s|)
      ensures S.TextValid(d, k, s) <==> Within(Clip(k.minLength), k.maxLength, |s|)
    {
      LengthsChecked(o, checks, s);
      EmittedMeaning(d, checks, s);
    }
    SameRangeIff(Clip(k.minLength), k.maxLength, Clip(low), high);
    if !EmptyRange(Clip(low), high) {
      var n := RangeMember(Clip(low), high);
      EmittedMeaning(d, checks, Blanks(n));
    }
    if forall s :: ParseString(o, checks, s).Some? <==> S.TextValid(d, k, s) {
      forall n ensures Within(Clip(k.minLength), k.maxLength, n) <==> Within(Clip(low), high, n) {
        if n >= 0 { assert |Blanks(n)| == n; }
      }
    }
  }

  /* ---------------------------------------------------------------- lengths after trim */

  lemma {:induction false} BlanksTrim(n: nat)
    ensures TrimText(Blanks(n)) == ""
    decreases n
  {
    if n > 0 {
      assert Blanks(n)[1..] == Blanks(n - 1);
      BlanksTrim(n - 1);
    }
  }

  /** `letters` characters and then `blanks` spaces. */
  function Padded(letters: nat, blanks: nat): string {
    seq(letters, i => 'x') + Blanks(blanks)
  }

  lemma {:induction false} PaddedTrims(letters: nat, blanks: nat)
    ensures |TrimText(Padded(letters, blanks))| == letters
    decreases blanks
  {
    var s := Padded(letters, blanks);
    if letters == 0 {
      assert s == Blanks(blanks);
      BlanksTrim(blanks);
    } else if blanks > 0 {
      assert s[..|s| - 1] == Padded(letters, blanks - 1);
      PaddedTrims(letters, blanks - 1);
    }
  }

  lemma TrimmedMeaning(o: Oracle, d: S.Components, bounds: seq<StringCheck>, s: string)
    requires LengthChecks(bounds)
    ensures TextKeywords([Trim] + bounds, S.NO_TEXT) == Ok(Emitted(bounds))
    ensures ParseString(o, [Trim] + bounds, s).Some?
      <==> Within(LeastLength(bounds), GreatestLength(bounds), |TrimText(s)|)
  {
    assert ([Trim] + bounds)[1..] == bounds;
    LengthsChecked(o, bounds, TrimText(s));
  }

  /** A trimmed text that passes is, as it is written, at least as long as the emitted minimum. */
  lemma TrimmedIsLongEnough(bounds: seq<StringCheck>, s: string)
    requires LengthChecks(bounds) && Within(LeastLength(bounds), GreatestLength(bounds), |TrimText(s)|)
    ensures !EmptyRange(Clip(Emitted(bounds).minLength), Emitted(bounds).maxLength)
    ensures Within(Emitted(bounds).minLength, None, |s|)
  {
    LengthsEmitted(bounds, S.NO_TEXT);
    assert Within(Emitted(bounds).minLength, Emitted(bounds).maxLength, |TrimText(s)|);
  }

  /**
   * `trim` and then any list of length checks: the keywords, which are about the untrimmed text, agree with zod on
   * every text exactly if the emitted bounds admit nothing, or no bound excludes a text.
   */
  lemma TrimmedLengthsAgreeIff(o: Oracle, d: S.Components, bounds: seq<StringCheck>)
    requires LengthChecks(bounds)
    ensures (forall s :: ParseString(o, [Trim] + bounds, s).Some? <==> S.TextValid(d, Emitted(bounds), s))
      <==> || EmptyRange(Clip(Emitted(bounds).minLength), Emitted(bounds).maxLength)
           || (Clip(LeastLength(bounds)) == Some(0) && GreatestLength(bounds).None?)
  {
    var k, low, high := Emitted(bounds), LeastLength(bounds), GreatestLength(bounds);
    EmittedMeaning(d, bounds, "");
    forall s ensures ParseString(o, [Trim] + bounds, s).Some? <==> Within(low, high, |TrimText(s)|)
      ensures S.TextValid(d, k, s) <==> Within(k.minLength, k.maxLength, |s|)
    {
      TrimmedMeaning(o, d, bounds, s);
      EmittedMeaning(d, bounds, s);
    }
    if EmptyRange(Clip(k.minLength), k.maxLength) || (Clip(low) == Some(0) && high.None?) {
      forall s ensures Within(low, high, |TrimText(s)|) <==> Within(k.minLength, k.maxLength, |s|) {
        if Within(low, high, |TrimText(s)|) { TrimmedIsLongEnough(bounds, s); }
      }
    } else {
      var n := RangeMember(Clip(k.minLength), k.maxLength);
      var s := Blanks(if Within(low, high, 0) then k.maxLength.value + 1 else n);
      BlanksTrim(|s|);
      assert !(ParseString(o, [Trim] + bounds, s).Some? <==> S.TextValid(d, k, s));
    }
  }

  /**
   * What zod accepts after `trim` is valid for the keywords exactly if nothing is accepted or no check is a maximum.
   */
  lemma TrimmedLengthsSoundIff(o: Oracle, d: S.Components, bounds: seq<StringCheck>)
    requires LengthChecks(bounds)
    ensures (forall s :: ParseString(o, [Trim] + bounds, s).Some? ==> S.TextValid(d, Emitted(bounds), s))
      <==> EmptyRange(Clip(LeastLength(bounds)), GreatestLength(bounds)) || GreatestLength(bounds).None?
  {
    var k, low, high := Emitted(bounds), LeastLength(bounds), GreatestLength(bounds);
    EmittedMeaning(d, bounds, "");
    forall s ensures ParseString(o, [Trim] + bounds, s).Some? <==> Within(low, high, |TrimText(s)|)
      ensures S.TextValid(d, k, s) <==> Within(k.minLength, k.maxLength, |s|)
    {
      TrimmedMeaning(o, d, bounds, s);
      EmittedMeaning(d, bounds, s);
    }
    if EmptyRange(Clip(low), high) || high.None? {
      forall s | Within(low, high, |TrimText(s)|) ensures Within(k.minLength, k.maxLength, |s|) {
        TrimmedIsLongEnough(bounds, s);
      }
    } else {
      var n := RangeMember(Clip(low), high);
      var s := Padded(n, if k.maxLength.value >= 0 then k.maxLength.value + 1 else 1);
      PaddedTrims(n, |s| - n);
      assert ParseString(o, [Trim] + bounds, s).Some? && !S.TextValid(d, k, s);
    }
  }

  /** An optional minimum and an optional maximum. */
  function Bounds(low: Option<nat>, high: Option<nat>): (checks: seq<StringCheck>)
    ensures LengthChecks(checks)
  {
    (if low.Some? then [Min(low.value)] else []) + (if high.Some? then [Max(high.value)] else [])
  }

  /** One check more in front. */
  lemma InFront(check: StringCheck, rest: seq<StringCheck>)
    ensures ([check] + rest)[0] == check && ([check] + rest)[1..] == rest
  {
  }

  lemma OptionalMax(high: Option<nat>, k: S.StringKeywords)
    ensures var checks: seq<StringCheck> := if high.Some? then [Max(high.value)] else [];
      && LeastLength(checks) == None && GreatestLength(checks) == high
      && TextKeywords(checks, k) == Ok(if high.Some? then k.(maxLength := high) else k)
  {
    if high.Some? {
      assert [Max(high.value)][1..] == [];
      assert TextKeywords([Max(high.value)], k) == TextKeywords([], k.(maxLength := high));
    }
  }

  lemma BoundsMeaning(low: Option<nat>, high: Option<nat>)
    ensures LeastLength(Bounds(low, high)) == low && GreatestLength(Bounds(low, high)) == high
    ensures Emitted(Bounds(low, high)) == S.NO_TEXT.(minLength := low, maxLength := high)
  {
    var rest: seq<StringCheck> := if high.Some? then [Max(high.value)] else [];
    if low.Some? {
      InFront(Min(low.value), rest);
      assert Bounds(low, high) == [Min(low.value)] + rest;
      OptionalMax(high, S.NO_TEXT.(minLength := low));
    } else {
      assert Bounds(low, high) == rest;
      OptionalMax(high, S.NO_TEXT);
    }
  }

  /**
   * `trim` with an optional minimum and an optional maximum: the same meaning exactly without a bound above 0 or with
   * bounds that cross; sound exactly without a maximum or with bounds that cross.
   */
  lemma TrimCarriesBoundsIff(o: Oracle, d: S.Components, low: Option<nat>, high: Option<nat>)
    ensures var k := S.NO_TEXT.(minLength := low, maxLength := high);
      && TextKeywords([Trim] + Bounds(low, high), S.NO_TEXT) == Ok(k)
      && ((forall s :: ParseString(o, [Trim] + Bounds(low, high), s).Some? <==> S.TextValid(d, k, s))
          <==> ((low.None? || low.value == 0) && high.None?) || EmptyRange(low, high))
      && ((forall s :: ParseString(o, [Trim] + Bounds(low, high), s).Some? ==> S.TextValid(d, k, s))
          <==> high.None? || EmptyRange(low, high))
  {
    BoundsMeaning(low, high);
    TrimmedMeaning(o, d, Bounds(low, high), "");
    TrimmedLengthsAgreeIff(o, d, Bounds(low, high));
    TrimmedLengthsSoundIff(o, d, Bounds(low, high));
  }

  /* ---------------------------------------------------------------- bounds of numbers */

  predicate BoundChecks(checks: seq<NumberCheck>) {
    forall i :: 0 <= i < |checks| ==> checks[i].AtLeast? || checks[i].AtMost? || checks[i].Int? || checks[i].Finite?
  }

  /** A bound from below; one from above is a bound from below of the negated number. */
  datatype Bound = Unbounded | Bound(at: real, strict: bool)

  predicate Above(b: Bound, x: real) {
    b.Unbounded? || x > b.at || (x == b.at && !b.strict)
  }

  predicate Between(low: Bound, high: Bound, x: real) {
    Above(low, x) && Above(high, -x)
  }

  predicate EmptyInterval(low: Bound, high: Bound) {
    low.Bound? && high.Bound? && (low.at > -high.at || (low.at == -high.at && (low.strict || high.strict)))
  }

  /** Some number is above `a` and not above `b`. */
  predicate Looser(a: Bound, b: Bound) {
    b.Bound? && (a.Unbounded? || a.at < b.at || (a.at == b.at && b.strict && !a.strict))
  }

  function Tighter(a: Bound, b: Bound): (r: Bound)
    ensures forall x :: Above(r, x) <==> Above(a, x) && Above(b, x)
  {
    if Looser(a, b) then b else a
  }

  lemma NotAbove(a: Bound, high: Bound, b: Bound) returns (x: real)
    requires !EmptyInterval(a, high) && Looser(a, b)
    ensures Between(a, high, x) && !Above(b, x)
  {
    if a.Unbounded? {
      x := if high.Bound? && -high.at < b.at then -high.at - 1.0 else b.at - 1.0;
    } else if a.at == b.at || (high.Bound? && a.at == -high.at) {
      x := a.at;
    } else {
      var top := if high.Bound? && -high.at < b.at then -high.at else b.at;
      x := (a.at + top) / 2.0;
    }
  }

  lemma IntervalMember(low: Bound, high: Bound) returns (x: real)
    requires !EmptyInterval(low, high)
    ensures Between(low, high, x)
  {
    if low.Unbounded? {
      x := if high.Bound? then -high.at - 1.0 else 0.0;
    } else {
      x := NotAbove(low, high, Bound(low.at + 1.0, true));
    }
  }

  lemma OutsideInterval(a: Bound, b: Bound, low: Bound, high: Bound) returns (x: real)
    requires !EmptyInterval(a, b) && (Looser(a, low) || Looser(b, high))
    ensures Between(a, b, x) && !Between(low, high, x)
  {
    if Looser(a, low) {
      x := NotAbove(a, b, low);
    } else {
      var y := NotAbove(b, a, high);
      x := -y;
    }
  }

  /** Two intervals hold the same numbers exactly if their bounds are the same or both are empty. */
  lemma SameIntervalIff(a: Bound, b: Bound, low: Bound, high: Bound)
    ensures (forall x :: Between(a, b, x) <==> Between(low, high, x))
      <==> (a == low && b == high) || (EmptyInterval(a, b) && EmptyInterval(low, high))
  {
    if EmptyInterval(a, b) && !EmptyInterval(low, high) {
      var x := IntervalMember(low, high);
    } else if !EmptyInterval(a, b) && EmptyInterval(low, high) {
      var x := IntervalMember(a, b);
    } else if !EmptyInterval(a, b) && !(a == low && b == high) {
      if Looser(a, low) || Looser(b, high) {
        var x := OutsideInterval(a, b, low, high);
      } else {
        var x := OutsideInterval(low, high, a, b);
      }
    }
  }

  /** The integer bound that means the same for integers. */
  function Up(b: Bound): Option<int> {
    match b
    case Unbounded => None
    case Bound(at, strict) => Some(if strict then at.Floor + 1 else -(-at).Floor)
  }

  function Down(b: Bound): Option<int> {
    match Up(b)
    case None => None
    case Some(n) => Some(-n)
  }

  lemma IntegerAbove(b: Bound, n: int)
    ensures Above(b, n as real) <==> (Up(b).Some? ==> n >= Up(b).value)
  {
  }

  function LowerOf(check: NumberCheck): Bound {
    if check.AtLeast? then Bound(check.bound, !check.inclusive) else Unbounded
  }

  function UpperOf(check: NumberCheck): Bound {
    if check.AtMost? then Bound(-check.bound, !check.inclusive) else Unbounded
  }

  /** The tightest lower bound among the checks. */
  function Least(checks: seq<NumberCheck>): Bound {
    if checks == [] then Unbounded else Tighter(LowerOf(checks[0]), Least(checks[1..]))
  }

  /** The tightest upper bound. */
  function Greatest(checks: seq<NumberCheck>): Bound {
    if checks == [] then Unbounded else Tighter(UpperOf(checks[0]), Greatest(checks[1..]))
  }

  lemma {:induction false} BoundsChecked(checks: seq<NumberCheck>, x: real)
    requires BoundChecks(checks)
    ensures PassesNumberChecks(checks, x)
      <==> Between(Least(checks), Greatest(checks), x) && (HasIntCheck(checks) ==> IsInteger(x))
    decreases checks
  {
    if checks != [] {
      var rest := checks[1..];
      BoundsChecked(rest, x);
      assert forall i :: 0 <= i < |rest| ==> rest[i] == checks[i + 1];
      assert forall i :: 1 <= i < |checks| ==> checks[i] == rest[i - 1];
      FirstBound(checks[0], x);
      assert HasIntCheck(checks) <==> checks[0].Int? || HasIntCheck(rest);
      assert PassesNumberChecks(checks, x) <==> PassesNumberCheck(checks[0], x) && PassesNumberChecks(rest, x);
    }
  }

  lemma FirstBound(check: NumberCheck, x: real)
    requires check.AtLeast? || check.AtMost? || check.Int? || check.Finite?
    ensures PassesNumberCheck(check, x) <==> Between(LowerOf(check), UpperOf(check), x) && (check.Int? ==> IsInteger(x))
  {
  }

  function Keyword(value: Option<real>, strict: bool): Bound {
    if value.Some? then Bound(value.value, strict) else Unbounded
  }

  function Negated(value: Option<real>): Option<real> {
    if value.Some? then Some(-value.value) else None
  }

  /** What `minimum` and `exclusiveMinimum` say together. */
  function EmittedLow(k: S.NumberKeywords): Bound {
    Tighter(Keyword(k.minimum, false), Keyword(k.exclusiveMinimum, true))
  }

  /** What `maximum` and `exclusiveMaximum` say together. */
  function EmittedHigh(k: S.NumberKeywords): Bound {
    Tighter(Keyword(Negated(k.maximum), false), Keyword(Negated(k.exclusiveMaximum), true))
  }

  lemma KeywordsMean(k: S.NumberKeywords, x: real)
    requires k.multipleOf.None?
    ensures S.NumberValid(k, x) <==> Between(EmittedLow(k), EmittedHigh(k), x)
  {
  }

  lemma {:induction false} BoundsEmitted(checks: seq<NumberCheck>, k: S.NumberKeywords)
    requires BoundChecks(checks)
    ensures NumericKeywords(checks, k).Ok?
    ensures NumericKeywords(checks, k).value.multipleOf == k.multipleOf
    decreases checks
  {
    if checks != [] { BoundsEmitted(checks[1..], AssignNumber(k, checks[0])); }
  }

  function EmittedNumber(checks: seq<NumberCheck>): (k: S.NumberKeywords)
    requires BoundChecks(checks)
    ensures NumericKeywords(checks, S.NO_NUMBER) == Ok(k) && k.multipleOf.None?
  {
    BoundsEmitted(checks, S.NO_NUMBER);
    NumericKeywords(checks, S.NO_NUMBER).value
  }

  /** The last bounds of each keyword are together the tightest, or admit nothing; for integers, once rounded. */
  predicate LastBoundsDecide(checks: seq<NumberCheck>)
    requires BoundChecks(checks)
  {
    var low, high := EmittedLow(EmittedNumber(checks)), EmittedHigh(EmittedNumber(checks));
    if HasIntCheck(checks) then
      || EmptyRange(Up(low), Down(high))
      || (Up(low) == Up(Least(checks)) && Down(high) == Down(Greatest(checks)))
    else EmptyInterval(low, high) || (low == Least(checks) && high == Greatest(checks))
  }

  /** The emitted bounds, apart from the integer type, are no tighter than the checks. */
  lemma EmittedIsLooser(checks: seq<NumberCheck>, x: real)
    requires BoundChecks(checks) && Between(Least(checks), Greatest(checks), x)
      && (HasIntCheck(checks) ==> IsInteger(x))
    ensures Between(EmittedLow(EmittedNumber(checks)), EmittedHigh(EmittedNumber(checks)), x)
  {
    BoundsChecked(checks, x);
    BoundsEmitted(checks, S.NO_NUMBER);
    NumberSound(checks, S.NO_NUMBER, x);
    KeywordsMean(EmittedNumber(checks), x);
  }

  lemma NumberMeans(d: S.Document, checks: seq<NumberCheck>, x: real)
    requires BoundChecks(checks)
    ensures LeafSchema(ZNumber(checks)).Ok?
    ensures S.Valid(d, LeafSchema(ZNumber(checks)).value, Num(x))
      <==> && Between(EmittedLow(EmittedNumber(checks)), EmittedHigh(EmittedNumber(checks)), x)
           && (HasIntCheck(checks) ==> IsInteger(x))
  {
    KeywordsMean(EmittedNumber(checks), x);
  }

  lemma RealBoundsAgreeIff(checks: seq<NumberCheck>)
    requires BoundChecks(checks) && !HasIntCheck(checks)
    ensures (forall x :: Between(Least(checks), Greatest(checks), x)
              <==> Between(EmittedLow(EmittedNumber(checks)), EmittedHigh(EmittedNumber(checks)), x))
      <==> LastBoundsDecide(checks)
  {
    var low, high := EmittedLow(EmittedNumber(checks)), EmittedHigh(EmittedNumber(checks));
    SameIntervalIff(Least(checks), Greatest(checks), low, high);
    if !EmptyInterval(Least(checks), Greatest(checks)) {
      var x := IntervalMember(Least(checks), Greatest(checks));
      EmittedIsLooser(checks, x);
    }
  }

  lemma IntegersWithin(low: Bound, high: Bound, n: int)
    ensures Between(low, high, n as real) <==> Within(Up(low), Down(high), n)
  {
    IntegerAbove(low, n);
    IntegerAbove(high, -n);
    assert (-n) as real == -(n as real);
  }

  ghost predicate SameIntegers(a: Bound, b: Bound, low: Bound, high: Bound) {
    forall x :: IsInteger(x) ==> (Between(a, b, x) <==> Between(low, high, x))
  }

  lemma SameIntegersIff(a: Bound, b: Bound, low: Bound, high: Bound)
    ensures SameIntegers(a, b, low, high) <==>
      || (Up(a) == Up(low) && Down(b) == Down(high))
      || (EmptyRange(Up(a), Down(b)) && EmptyRange(Up(low), Down(high)))
  {
    SameRangeIff(Up(a), Down(b), Up(low), Down(high));
    if SameIntegers(a, b, low, high) {
      forall n: int ensures Within(Up(a), Down(b), n) <==> Within(Up(low), Down(high), n) {
        assert IsInteger(n as real);
        IntegersWithin(a, b, n);
        IntegersWithin(low, high, n);
      }
    } else {
      var x :| IsInteger(x) && !(Between(a, b, x) <==> Between(low, high, x));
      IntegersWithin(a, b, x.Floor);
      IntegersWithin(low, high, x.Floor);
    }
  }

  lemma IntegerBoundsAgreeIff(checks: seq<NumberCheck>)
    requires BoundChecks(checks) && HasIntCheck(checks)
    ensures SameIntegers(Least(checks), Greatest(checks), EmittedLow(EmittedNumber(checks)),
      EmittedHigh(EmittedNumber(checks)))
      <==> LastBoundsDecide(checks)
  {
    var low, high := EmittedLow(EmittedNumber(checks)), EmittedHigh(EmittedNumber(checks));
    SameIntegersIff(Least(checks), Greatest(checks), low, high);
    if !EmptyRange(Up(Least(checks)), Down(Greatest(checks))) {
      var n := RangeMember(Up(Least(checks)), Down(Greatest(checks)));
      IntegersWithin(Least(checks), Greatest(checks), n);
      EmittedIsLooser(checks, n as real);
      IntegersWithin(low, high, n);
    }
  }

  /**
   * For any list of inclusive and exclusive bounds, with or without `int`: the emitted schema and zod agree on every
   * number exactly if the last bounds decide.
   */
  lemma RepeatedBoundsAgreeIff(d: S.Document, checks: seq<NumberCheck>)
    requires BoundChecks(checks)
    ensures LeafSchema(ZNumber(checks)).Ok?
    ensures (forall x :: PassesNumberChecks(checks, x) <==> S.Valid(d, LeafSchema(ZNumber(checks)).value, Num(x)))
      <==> LastBoundsDecide(checks)
  {
    var low, high := EmittedLow(EmittedNumber(checks)), EmittedHigh(EmittedNumber(checks));
    var schema := LeafSchema(ZNumber(checks)).value;
    if HasIntCheck(checks) {
      IntegerBoundsAgreeIff(checks);
      forall x ensures PassesNumberChecks(checks, x) <==> IsInteger(x) && Between(Least(checks), Greatest(checks), x)
        ensures S.Valid(d, schema, Num(x)) <==> IsInteger(x) && Between(low, high, x)
      {
        BoundsChecked(checks, x);
        NumberMeans(d, checks, x);
      }
    } else {
      RealBoundsAgreeIff(checks);
      forall x ensures PassesNumberChecks(checks, x) <==> Between(Least(checks), Greatest(checks), x)
        ensures S.Valid(d, schema, Num(x)) <==> Between(low, high, x)
      {
        BoundsChecked(checks, x);
        NumberMeans(d, checks, x);
      }
    }
  }

  /* ---------------------------------------------------------------- repeated steps */

  function Steps(steps: seq<real>): seq<NumberCheck> {
    seq(|steps|, i requires 0 <= i < |steps| => MultipleOf(steps[i]))
  }

  lemma {:induction false} LastStepEmitted(steps: seq<real>, k: S.NumberKeywords)
    requires steps != []
    ensures NumericKeywords(Steps(steps), k) == Ok(k.(multipleOf := Some(steps[|steps| - 1])))
    decreases |steps|
  {
    var k1 := k.(multipleOf := Some(steps[0]));
    assert Steps(steps)[1..] == Steps(steps[1..]);
    assert NumericKeywords(Steps(steps), k) == NumericKeywords(Steps(steps[1..]), k1);
    if |steps| > 1 { LastStepEmitted(steps[1..], k1); }
  }

  lemma IntegerTimes(a: real, b: real)
    requires IsInteger(a) && IsInteger(b)
    ensures IsInteger(Times(a, b))
  {
    assert Times(a, b) == (a.Floor * b.Floor) as real;
  }

  lemma QuotientTimes(x: real, y: real)
    requires y != 0.0
    ensures Times(x / y, y) == x
  {
  }

  lemma QuotientOf(q: real, x: real, y: real)
    requires y != 0.0 && Times(q, y) == x
    ensures x / y == q
  {
    assert q == x / y;
  }

  lemma MultipleOfItself(x: real)
    requires x != 0.0
    ensures IsMultiple(x, x)
  {
    Unit(x);
    QuotientOf(1.0, x, x);
  }

  lemma MultipleOfMultiple(x: real, y: real, z: real)
    requires IsMultiple(x, y) && IsMultiple(y, z)
    ensures IsMultiple(x, z)
  {
    QuotientTimes(x, y);
    QuotientTimes(y, z);
    TimesAssoc(x / y, y / z, z);
    IntegerTimes(x / y, y / z);
    QuotientOf(Times(x / y, y / z), x, z);
  }

  /**
   * Of several steps the last is emitted: right exactly if it is a multiple of each of them (or 0, which admits
   * nothing).
   */
  lemma RepeatedStepsAgreeIff(steps: seq<real>)
    requires steps != []
    ensures NumericKeywords(Steps(steps), S.NO_NUMBER).Ok?
    ensures (forall x :: PassesNumberChecks(Steps(steps), x) <==>
                         S.NumberValid(NumericKeywords(Steps(steps), S.NO_NUMBER).value, x))
      <==> steps[|steps| - 1] == 0.0 || forall i :: 0 <= i < |steps| ==> IsMultiple(steps[|steps| - 1], steps[i])
  {
    var last := steps[|steps| - 1];
    LastStepEmitted(steps, S.NO_NUMBER);
    forall x ensures PassesNumberChecks(Steps(steps), x) <==> forall i :: 0 <= i < |steps| ==> IsMultiple(x, steps[i]) {
      assert forall i :: 0 <= i < |steps| ==> Steps(steps)[i] == MultipleOf(steps[i]);
    }
    if forall i :: 0 <= i < |steps| ==> IsMultiple(last, steps[i]) {
      forall x, i | IsMultiple(x, last) && 0 <= i < |steps| ensures IsMultiple(x, steps[i]) {
        MultipleOfMultiple(x, last, steps[i]);
      }
    } else if last != 0.0 {
      MultipleOfItself(last);
      assert S.NumberValid(S.NO_NUMBER.(multipleOf := Some(last)), last);
      assert !PassesNumberChecks(Steps(steps), last);
    }
  }
}
