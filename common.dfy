/** Shared value types: optional values, results of code that may throw, and the
    JavaScript values that reach the modelled code from the UI and from storage. */
module Common {

  /** `null` / `undefined` versus a present value. */
  datatype Option<+T> = None | Some(value: T) {
    /** `x ?? default` */
    function GetOr(default: T): T {
      match this
      case Some(v) => v
      case None => default
    }
  }

  /** The outcome of code that either returns a value or throws an `Error`
      carrying `message`. */
  datatype Result<+T> = Ok(value: T) | Err(message: string)

  /** A JavaScript number. Weights, reps and timestamps are numbers; the only
      distinctions the modelled code draws are finite versus NaN versus an
      infinity (negative zero is not distinguished from zero). */
  datatype Num = Finite(value: real) | NaN | Infinity(negative: bool)

  /** `Number.isFinite` on a number. */
  predicate IsFinite(n: Num) {
    n.Finite?
  }

  /** `Number(x) || 0` on a number: NaN and zero become zero, everything else
      is kept. */
  function NumberOrZero(n: Num): (r: Num)
    ensures r.NaN? == false
    ensures n.Finite? ==> r == n
    ensures (n.Infinity?) ==> r == n
  {
    if n.NaN? || n == Finite(0.0) then Finite(0.0) else n
  }

  /** The JavaScript values that cross the storage boundary as `unknown`. */
  datatype JsValue =
    | JsUndefined
    | JsNull
    | JsBool(b: bool)
    | JsNumber(n: Num)
    | JsString(s: string)
    | JsArray(items: seq<JsValue>)
    | JsObject(props: map<string, JsValue>)

  /** JavaScript truthiness. */
  predicate IsTruthy(v: JsValue) {
    match v
    case JsUndefined => false
    case JsNull => false
    case JsBool(b) => b
    case JsNumber(n) => !(n.NaN? || n == Finite(0.0))
    case JsString(s) => s != ""
    case JsArray(_) => true
    case JsObject(_) => true
  }

  /** Reading a property; a missing property reads as `undefined`. */
  function Prop(props: map<string, JsValue>, key: string): (v: JsValue)
    ensures key !in props ==> v == JsUndefined
    ensures key in props ==> v == props[key]
  {
    if key in props then props[key] else JsUndefined
  }

  /** A `string | null` that JavaScript tests for truthiness: present and not "". */
  predicate IsNonEmpty(s: Option<string>) {
    s.Some? && s.value != ""
  }

  /** Regrouping a concatenation, stated once so that proofs can ask for it
      instead of rediscovering it element by element. */
  lemma AppendAssoc<T>(a: seq<T>, b: seq<T>, c: seq<T>)
    ensures (a + b) + c == a + (b + c)
  {
  }

  /** `t` is `s` with some elements deleted, the rest kept in order. */
  predicate IsSubsequence<T(==)>(t: seq<T>, s: seq<T>)
    decreases |s|
  {
    if t == [] then true
    else if s == [] then false
    else if t[0] == s[0] then IsSubsequence(t[1..], s[1..])
    else IsSubsequence(t, s[1..])
  }
}

/** The constants of the application (src/app/lib/constants.ts). */
module Constants {
  const TOAST_DURATION_MS: int := 3500
  const MAX_EXERCISES: int := 100
  const MAX_SETS_PER_EXERCISE: int := 50
  const MAX_REPS: int := 1000
  const MAX_WEIGHT_KG: int := 10000
  const EXERCISE_NAME_MAX_LENGTH: int := 100
  const SAVE_COOLDOWN_MS: int := 2000
  /** `Number.MAX_SAFE_INTEGER` */
  const MAX_SAFE_INTEGER: int := 9007199254740991
}

/** Toast messages as the hooks hand them to `showToast`. */
module Toasts {
  datatype ToastVariant = Success | Error
  datatype Toast = Toast(message: string, variant: ToastVariant)
}
