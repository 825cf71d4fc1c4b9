/** Values shared by the extractors, the coordinator and the predictor. */
module Base {

  /** An absent-or-present value (Python's `None` or a value). */
  datatype Option<+T> = None | Some(value: T)

  /** The two genders every component normalises to ("male" / "female"). */
  datatype Gender = Male | Female

  /** The text the source stores for a gender. */
  function GenderName(g: Gender): string
  {
    match g
    case Male => "male"
    case Female => "female"
  }

  /**
   * The extraction record `{"gender", "age", "time_5km_seconds"}` that the
   * quick pass, the language-model pass and their merge all return.
   */
  datatype Extraction = Extraction(gender: Option<Gender>, age: Option<int>, time5k: Option<int>)

  /** The record every extractor starts from: all three fields `None`. */
  const NoFields: Extraction := Extraction(None, None, None)

  /** Accepted ages, 15 to 90 years. */
  predicate AgeInRange(a: int) { 15 <= a <= 90 }

  /** Accepted 5 km times, 9 to 60 minutes, in seconds. */
  predicate TimeInRange(t: int) { 9 * 60 <= t <= 60 * 60 }

  /** Every present field lies in its accepted range. */
  predicate InRange(e: Extraction)
  {
    && (e.age.Some? ==> AgeInRange(e.age.value))
    && (e.time5k.Some? ==> TimeInRange(e.time5k.value))
  }

  /** All three fields are present (Python's `all(quick.values())`). */
  predicate Complete(e: Extraction)
  {
    e.gender.Some? && e.age.Some? && e.time5k.Some?
  }

  /**
   * Python's `round` on an exact value: the nearest integer, ties to the even
   * neighbour.
   */
  function Round(x: real): (r: int)
    ensures x - 0.5 <= r as real <= x + 0.5
    ensures r as real - x == 0.5 || x - r as real == 0.5 ==> r % 2 == 0
  {
    var f := x.Floor;
    var d := x - f as real;
    if d < 0.5 then f
    else if d > 0.5 then f + 1
    else if f % 2 == 0 then f
    else f + 1
  }

  /** Python's `int` on a finite float: the integer part, rounded toward zero. */
  function Truncate(x: real): (r: int)
    ensures x >= 0.0 ==> 0 <= r && r as real <= x < r as real + 1.0
    ensures x < 0.0 ==> r <= 0 && r as real - 1.0 < x <= r as real
  {
    if x >= 0.0 then x.Floor else -((-x).Floor)
  }

  /** Rounding never reverses the order of two values. */
  lemma RoundMonotone(x: real, y: real)
    requires x <= y
    ensures Round(x) <= Round(y)
  {
    if x.Floor < y.Floor {
      assert x.Floor + 1 <= y.Floor;
    }
  }
}
