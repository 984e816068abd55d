/**
 * The handful of JavaScript runtime notions the scaffold's logic depends on:
 * opaque runtime values with their truthiness, parsed JSON documents, and
 * `process.env` as a string-to-string map.
 */
module Js {
  import opened Wrappers

  /**
   * A runtime value as the bridge and the renderer see it. Functions are
   * identified by their declared name and other objects by an opaque id;
   * nothing here inspects them beyond defined-ness and truthiness.
   */
  datatype Value =
    | Undefined
    | Null
    | Bool(b: bool)
    | Str(s: string)
    | Obj(id: nat)
    | Fn(name: string)

  /** JavaScript's ToBoolean on a value. */
  predicate Truthy(v: Value) {
    match v
    case Undefined => false
    case Null => false
    case Bool(b) => b
    case Str(s) => s != ""
    case Obj(_) => true
    case Fn(_) => true
  }

  /** A parsed JSON document; numbers are modelled as integers. */
  datatype Json =
    | JNull
    | JBool(b: bool)
    | JNum(n: int)
    | JStr(s: string)
    | JArr(items: seq<Json>)
    | JObj(fields: map<string, Json>)

  /** JavaScript's ToBoolean on a parsed JSON value (what `filter(Boolean)` keeps). */
  predicate JsonTruthy(j: Json) {
    match j
    case JNull => false
    case JBool(b) => b
    case JNum(n) => n != 0
    case JStr(s) => s != ""
    case JArr(_) => true
    case JObj(_) => true
  }

  /** `process.env`: every present variable holds a string. */
  type Env = map<string, string>

  function EnvGet(env: Env, name: string): Option<string> {
    if name in env then Some(env[name]) else None
  }

  /** `!!process.env[name]`: the variable is present and non-empty. */
  predicate EnvSet(env: Env, name: string) {
    name in env && env[name] != ""
  }

  /** `process.env[name] === value`. */
  predicate EnvIs(env: Env, name: string, value: string) {
    name in env && env[name] == value
  }

  /** `names[i]` is the first of `names` that is set in `env`. */
  predicate FirstSet(env: Env, names: seq<string>, i: int) {
    && 0 <= i < |names|
    && EnvSet(env, names[i])
    && forall j :: 0 <= j < i ==> !EnvSet(env, names[j])
  }

  /** `process.env[a] || process.env[b] || ... || fallback`. */
  function EnvOr(env: Env, names: seq<string>, fallback: string): (r: string)
    ensures forall i :: FirstSet(env, names, i) ==> r == env[names[i]]
    ensures (forall i :: 0 <= i < |names| ==> !EnvSet(env, names[i])) ==> r == fallback
  {
    if |names| == 0 then fallback
    else if EnvSet(env, names[0]) then env[names[0]]
    else
      var r := EnvOr(env, names[1..], fallback);
      assert forall i :: FirstSet(env, names, i) ==> FirstSet(env, names[1..], i - 1);
      r
  }

  /**
   * A JavaScript `number` passed as an argument: a finite value, or NaN.
   * The infinities are not represented.
   */
  datatype Number = Finite(x: real) | NaN

  /** Unary minus on a number: NaN stays NaN. */
  function Negate(n: Number): Number {
    match n
    case Finite(x) => Finite(-x)
    case NaN => NaN
  }

  /** Truncation toward zero. */
  function Trunc(x: real): int {
    if x >= 0.0 then x.Floor else -((-x).Floor)
  }

  /** `Trunc(x)` is the integer next to `x` on the side of zero, less than one away. */
  lemma TruncBounds(x: real)
    ensures x >= 0.0 ==> Trunc(x) as real <= x < Trunc(x) as real + 1.0
    ensures x < 0.0 ==> Trunc(x) as real - 1.0 < x <= Trunc(x) as real
  {
  }

  /** ToIntegerOrInfinity on a finite number or NaN: truncation toward zero, with NaN read as 0. */
  function ToInteger(n: Number): int {
    match n
    case Finite(x) => Trunc(x)
    case NaN => 0
  }

  /** Negating before the conversion is negating after it: truncation is symmetric about zero. */
  lemma ToIntegerNegate(n: Number)
    ensures ToInteger(Negate(n)) == -ToInteger(n)
  {
    if n.Finite? {
      var x := n.x;
      if x > 0.0 {
        TruncNegate(x);
      } else if x < 0.0 {
        TruncNegate(-x);
        assert -(-x) == x;
      }
    }
  }

  lemma TruncNegate(x: real)
    requires x > 0.0
    ensures Trunc(-x) == -Trunc(x)
  {
    var y := -x;
    assert Trunc(y) == -((-y).Floor);
    assert -y == x;
  }

  /** An integral number converts to itself. */
  lemma ToIntegerOfInt(k: int)
    ensures ToInteger(Finite(k as real)) == k
  {
    TruncBounds(k as real);
  }
}
