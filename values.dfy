/**
 * The Python values the extractors and the predictor receive in their
 * dictionaries, with `dict.get`, truthiness and `int()` on them.
 */
module PyValues {
  import opened Base
  import opened Text

  /**
   * A Python value as `json.loads` produces it (`NaN` and `Infinity` decode
   * to non-finite floats); dictionaries handed to the predictor hold the same
   * kinds of value.
   */
  datatype Json =
    | JNull
    | JBool(b: bool)
    | JInt(i: int)
    | JFloat(f: real)
    | JNonFinite
    | JStr(s: string)
    | JArray(items: seq<Json>)
    | JObject(fields: map<string, Json>)

  /** `data.get(key)`. */
  function Get(data: map<string, Json>, key: string): Option<Json>
  {
    if key in data then Some(data[key]) else None
  }

  /** Python truthiness. */
  predicate Truthy(v: Json)
  {
    match v
    case JNull => false
    case JBool(b) => b
    case JInt(n) => n != 0
    case JFloat(f) => f != 0.0
    case JNonFinite => true
    case JStr(s) => s != []
    case JArray(items) => items != []
    case JObject(fields) => fields != map[]
  }

  /** `int(v)`: `None` where Python raises (`None`, lists, objects, non-numeric text, NaN, infinities). */
  function PyIntOf(v: Option<Json>): Option<int>
  {
    match v
    case Some(JBool(b)) => Some(if b then 1 else 0)
    case Some(JInt(n)) => Some(n)
    case Some(JFloat(f)) => Some(Truncate(f))
    case Some(JStr(x)) => PyInt(x)
    case _ => None
  }

  /** `int()` of a digit string is its value. */
  lemma PyIntOfDigits(d: string)
    requires d != [] && AllDigits(d)
    ensures PyIntOf(Some(JStr(d))) == Some(Value(d))
  {
    PyIntDigits(d);
  }

  /** `int()` of text without a digit fails. */
  lemma PyIntOfNoDigits(x: string)
    requires NoDigits(x)
    ensures PyIntOf(Some(JStr(x))).None?
  {
    PyIntNeedsDigit(x);
  }

  /**
   * `int()` on the other scalars: a boolean gives 0 or 1, a float is cut
   * toward zero, and `None` and the non-finite floats fail.
   */
  lemma PyIntOfScalars(f: real)
    ensures PyIntOf(Some(JBool(true))) == Some(1) && PyIntOf(Some(JBool(false))) == Some(0)
    ensures PyIntOf(Some(JFloat(f))).Some?
    ensures var n := PyIntOf(Some(JFloat(f))).value; (if f < 0.0 then -f else f) - 1.0 < (if n < 0 then -n else n) as real <= (if f < 0.0 then -f else f)
    ensures PyIntOf(Some(JNull)).None? && PyIntOf(Some(JNonFinite)).None? && PyIntOf(None).None?
  {
  }
}
