/** JSON values, and the `undefined` that reading a missing member yields. */
module JsonValues {

  datatype Option<+T> = None | Some(value: T)

  /** A JSON number is an exact rational here: rounding plays no part in schema validation. */
  datatype Json =
    | Null
    | Bool(b: bool)
    | Num(x: real)
    | Str(s: string)
    | Arr(items: seq<Json>)
    | Obj(members: map<string, Json>)

  /** What a schema is asked to parse: `None` is JavaScript's `undefined`. */
  type Val = Option<Json>

  function Get(members: map<string, Json>, key: string): Val {
    if key in members then Some(members[key]) else None
  }

  predicate IsInteger(x: real) {
    x.Floor as real == x
  }

  predicate IsMultiple(x: real, step: real) {
    step != 0.0 && IsInteger(x / step)
  }

  /** An upper bound of a finite set of numbers, which is one of them or 0. */
  ghost function MaxOf(s: set<nat>): (r: nat)
    ensures forall x :: x in s ==> x <= r
    ensures r == 0 || r in s
  {
    if s == {} then 0
    else
      var x :| x in s;
      var rest := MaxOf(s - {x});
      assert forall y :: y in s ==> y == x || y in s - {x};
      if x > rest then x else rest
  }

  /** Nesting depth: every item and member is strictly shallower than the value that holds it. */
  ghost function Height(j: Json): (r: nat)
    ensures j.Arr? ==> forall i :: 0 <= i < |j.items| ==> Height(j.items[i]) < r
    ensures j.Obj? ==> r > 0 && forall k :: k in j.members ==> Height(j.members[k]) < r
    ensures j.Str? ==> r == 0
  {
    match j
    case Arr(items) =>
      var hs := set i | 0 <= i < |items| :: Height(items[i]);
      assert forall i :: 0 <= i < |items| ==> Height(items[i]) in hs;
      1 + MaxOf(hs)
    case Obj(members) =>
      var hs := set k | k in members :: Height(members[k]);
      assert forall k :: k in members ==> Height(members[k]) in hs;
      1 + MaxOf(hs)
    case _ => 0
  }

  /** As `Height`, below every value for `undefined`. */
  ghost function ValHeight(v: Val): nat {
    match v
    case None => 0
    case Some(j) => 1 + Height(j)
  }
}
