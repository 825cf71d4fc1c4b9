/**
 * `HalfMarathonPredictor`: one validation gate, then a loaded model as a
 * best-effort step, and the closed-form heuristic whenever the model is
 * missing or its answer is unusable.
 *
 * Loading the model (local file, S3 download) is not modelled: a predictor
 * carries an optional model, which is a function from the feature rows to
 * what `float(model.predict(X)[0])` gives, and the metadata the constructor
 * stored.
 */
module Prediction {
  import opened Base
  import opened Text
  import opened PyValues
  import TimeParsing

  /** What `_predict_with_loaded_model` followed by `float(...)` yields. */
  datatype ModelOutcome = Raises | NonFinite | Finite(y: real)

  /** The loaded model, applied to `[[time_5km_seconds, age, gender_male]]`. */
  type Model = seq<seq<int>> -> ModelOutcome

  /** The fields a predictor reads: its model and its metadata's version and source. */
  datatype Predictor = Predictor(model: Option<Model>, version: string, source: string)

  /** The predictor the constructor leaves behind when no model could be loaded. */
  const HeuristicOnly: Predictor := Predictor(None, "fallback-1.0", "heuristic")

  datatype Mode = Joblib | Fallback

  /** `details`: the mode, the model source (joblib only) and the metadata version. */
  datatype Details = Details(mode: Mode, modelSource: Option<string>, version: string)

  /**
   * The dictionary `predict` returns (`success` false with an `error`, or
   * true with the seconds, their formatting and the details), or the
   * exception it lets escape.
   */
  datatype Prediction =
    | Raised
    | Failure(error: string)
    | Success(seconds: int, formatted: string, details: Details)

  const GenderError: string := "Brak lub niepoprawna płeć (male/female)."
  const AgeTypeError: string := "Brak lub niepoprawny wiek (liczba całkowita)."
  const TimeTypeError: string := "Brak lub niepoprawny czas 5km w sekundach (int)."
  const AgeRangeError: string := "Wiek poza zakresem (15–90)."
  const TimeRangeError: string := "Czas 5km poza sensownym zakresem (9–60 min)."

  // ---------------------------------------------------------------------
  // _format_time
  // ---------------------------------------------------------------------

  /** `f"{n:02d}"` for `0 <= n < 100`. */
  function TwoDigits(n: int): (r: string)
    requires 0 <= n < 100
    ensures |r| == 2 && AllDigits(r) && Value(r) == n
  {
    var r := [DigitChar(n / 10), DigitChar(n % 10)];
    assert r[..1] == [DigitChar(n / 10)];
    assert r[..1][..0] == [];
    assert Value(r[..1]) == n / 10;
    r
  }

  /** `H:MM:SS`, with floor division and modulo as Python computes them. */
  function FormatTime(total: int): string
  {
    var h := total / 3600;
    var m := (total % 3600) / 60;
    var s := total % 60;
    IntToString(h) + ":" + TwoDigits(m) + ":" + TwoDigits(s)
  }

  /** Hours, minutes and seconds as `_format_time` computes them add up to the total. */
  lemma ClockArithmetic(total: int)
    ensures 0 <= (total % 3600) / 60 < 60 && 0 <= total % 60 < 60
    ensures (total / 3600) * 3600 + ((total % 3600) / 60) * 60 + total % 60 == total
  {
    var r := total % 3600;
    assert total == (total / 3600) * 3600 + r;
    assert r == (r / 60) * 60 + r % 60;
    assert r % 60 == total % 60;
  }

  /**
   * The text is hours, two-digit minutes and two-digit seconds, and they add
   * up to the input.
   */
  lemma FormatTimeFields(total: int)
    ensures exists h: int, mm: string, ss: string ::
      && FormatTime(total) == IntToString(h) + ":" + mm + ":" + ss
      && |mm| == 2 && AllDigits(mm) && Value(mm) < 60
      && |ss| == 2 && AllDigits(ss) && Value(ss) < 60
      && h * 3600 + Value(mm) * 60 + Value(ss) == total
  {
    ClockArithmetic(total);
    var h := total / 3600;
    var mm := TwoDigits((total % 3600) / 60);
    var ss := TwoDigits(total % 60);
    assert FormatTime(total) == IntToString(h) + ":" + mm + ":" + ss;
    assert h * 3600 + Value(mm) * 60 + Value(ss) == total;
  }

  /** Reading the formatted time back gives the same number of seconds. */
  lemma FormatTimeRoundTrip(total: int)
    requires total >= 0
    ensures TimeParsing.ParseTimeToSeconds(FormatTime(total)) == Some(total)
  {
    ClockArithmetic(total);
    var h := total / 3600;
    var hh := IntToString(h);
    var mm := TwoDigits((total % 3600) / 60);
    var ss := TwoDigits(total % 60);
    assert Value(hh) == h;
    ClockReadsBack(hh, mm, ss, total);
    assert FormatTime(total) == hh + ":" + mm + ":" + ss;
  }

  lemma ClockReadsBack(hh: string, mm: string, ss: string, total: int)
    requires hh != [] && AllDigits(hh) && |mm| == 2 && AllDigits(mm) && |ss| == 2 && AllDigits(ss)
    requires total == Value(hh) * 3600 + Value(mm) * 60 + Value(ss)
    ensures TimeParsing.ParseTimeToSeconds(hh + ":" + mm + ":" + ss) == Some(total)
  {
    var read := TimeParsing.ParseTimeToSeconds(hh + ":" + mm + ":" + ss);
    TimeParsing.ThreePartToken(hh, mm, ss);
    assert read.Some? && read.value == total;
  }

  /** 5400 s is "1:30:00". */
  lemma FormatTimeNinetyMinutes()
    ensures FormatTime(5400) == "1:30:00"
  {
    assert IntToString(1) == "1";
    assert TwoDigits(30) == "30";
    assert TwoDigits(0) == "00";
  }

  /** 8130 s is "2:15:30". */
  lemma FormatTimeTwoHoursFifteen()
    ensures FormatTime(8130) == "2:15:30"
  {
    assert IntToString(2) == "2";
    assert TwoDigits(15) == "15";
    assert TwoDigits(30) == "30";
  }

  // ---------------------------------------------------------------------
  // _predict_fallback_seconds
  // ---------------------------------------------------------------------

  /** The gender correction: 3% slower for women. */
  function GenderFactor(g: Gender): real
  {
    if g == Female then 1.03 else 1.0
  }

  /**
   * The age correction by band: under 20 the code multiplies by
   * `1.005 * (20 - age)`; 20 to 35 is the peak band; then +0.3% a year
   * above 35, +0.5% a year above 50 and +1% a year above 65, each band
   * continuing from the previous one's end.
   */
  function AgeFactor(age: int): real
  {
    if age < 20 then 1.005 * (20 - age) as real
    else if 36 <= age <= 50 then 1.0 + 0.003 * (age - 35) as real
    else if 51 <= age <= 65 then 1.0 + 0.003 * (50 - 35) as real + 0.005 * (age - 50) as real
    else if age > 65 then 1.0 + 0.003 * (50 - 35) as real + 0.005 * (65 - 50) as real + 0.01 * (age - 65) as real
    else 1.0
  }

  /** `min(max(x, 1 h), 4 h)`. */
  function Clamp(x: real): real
  {
    var lower := if x < 3600.0 then 3600.0 else x;
    if lower > 14400.0 then 14400.0 else lower
  }

  /** The heuristic estimate before clamping: 4.46 times the 5 km time, then the two corrections. */
  function RawEstimate(t5: int, age: int, g: Gender): real
  {
    4.46 * t5 as real * GenderFactor(g) * AgeFactor(age)
  }

  /** The heuristic prediction in whole seconds. */
  function FallbackSeconds(t5: int, age: int, g: Gender): int
  {
    Round(Clamp(RawEstimate(t5, age, g)))
  }

  /** `_predict_fallback_seconds`: the estimate built up in `base`, one correction at a time. */
  method PredictFallbackSeconds(t5: int, age: int, gender: Gender) returns (secs: int)
    ensures secs == FallbackSeconds(t5, age, gender)
    ensures 3600 <= secs <= 14400
  {
    var base: real := 4.46 * t5 as real;
    if gender == Female {
      base := base * 1.03;
    }
    if age < 20 {
      base := base * (1.005 * (20 - age) as real);
    } else if 36 <= age <= 50 {
      base := base * (1.0 + 0.003 * (age - 35) as real);
    } else if 51 <= age <= 65 {
      base := base * (1.0 + 0.003 * (50 - 35) as real + 0.005 * (age - 50) as real);
    } else if age > 65 {
      base := base * (1.0 + 0.003 * (50 - 35) as real + 0.005 * (65 - 50) as real + 0.01 * (age - 65) as real);
    }
    assert base == RawEstimate(t5, age, gender);
    base := if base < 3600.0 then 3600.0 else base;
    base := if base > 14400.0 then 14400.0 else base;
    secs := Round(base);
    FallbackInRange(t5, age, gender);
  }

  /** The heuristic always answers between one and four hours. */
  lemma FallbackInRange(t5: int, age: int, g: Gender)
    ensures 3600 <= FallbackSeconds(t5, age, g) <= 14400
  {
    var c := Clamp(RawEstimate(t5, age, g));
    assert 3600.0 <= c <= 14400.0;
  }

  /** Every age correction is at least 1, and it is exactly 1 in the peak band 20..35. */
  lemma AgeFactorAtLeastOne(age: int)
    ensures AgeFactor(age) >= 1.0
    ensures 20 <= age <= 35 <==> AgeFactor(age) == 1.0
  {
  }

  /** Above the peak band the correction grows with age. */
  lemma AgeFactorGrows(a: int, b: int)
    requires 20 <= a <= b
    ensures AgeFactor(a) <= AgeFactor(b)
  {
  }

  /** Under 20 the correction is 1.005 per missing year, so a 15-year-old's estimate is multiplied by 5.025. */
  lemma YoungAgeFactor(age: int)
    requires age < 20
    ensures AgeFactor(age) == 1.005 * (20 - age) as real
    ensures age <= 18 ==> AgeFactor(age) >= 2.01
  {
  }

  /** Clamping keeps the order of two estimates. */
  lemma ClampMonotone(x: real, y: real)
    requires x <= y
    ensures Clamp(x) <= Clamp(y)
  {
  }

  lemma RawIsScaled(t5: int, age: int, g: Gender)
    ensures RawEstimate(t5, age, g) == (4.46 * GenderFactor(g) * AgeFactor(age)) * t5 as real
  {
  }

  lemma ScaleMonotone(c: real, x: real, y: real)
    requires c >= 0.0 && x <= y
    ensures c * x <= c * y
  {
    assert c * y - c * x == c * (y - x);
  }

  /** For a fixed gender and age, a slower 5 km time never predicts a faster half marathon. */
  lemma FallbackMonotone(t5: int, t5': int, age: int, g: Gender)
    requires t5 <= t5'
    ensures FallbackSeconds(t5, age, g) <= FallbackSeconds(t5', age, g)
  {
    var c := 4.46 * GenderFactor(g) * AgeFactor(age);
    AgeFactorAtLeastOne(age);
    assert c > 0.0;
    RawIsScaled(t5, age, g);
    RawIsScaled(t5', age, g);
    ScaleMonotone(c, t5 as real, t5' as real);
    ClampMonotone(RawEstimate(t5, age, g), RawEstimate(t5', age, g));
    RoundMonotone(Clamp(RawEstimate(t5, age, g)), Clamp(RawEstimate(t5', age, g)));
  }

  /** A woman's estimate is never below a man's with the same time and age. */
  lemma FallbackFemaleNotFaster(t5: int, age: int)
    requires t5 >= 0
    ensures FallbackSeconds(t5, age, Male) <= FallbackSeconds(t5, age, Female)
  {
    var m := RawEstimate(t5, age, Male);
    AgeFactorAtLeastOne(age);
    assert m >= 0.0;
    assert RawEstimate(t5, age, Female) == m * 1.03;
    ClampMonotone(m, m * 1.03);
    RoundMonotone(Clamp(m), Clamp(m * 1.03));
  }

  /** A 30-year-old man with a 24:30 5 km: 4.46 * 1470 = 6556.2, so 6556 s. */
  lemma FallbackExample()
    ensures FallbackSeconds(1470, 30, Male) == 6556
  {
    assert RawEstimate(1470, 30, Male) == 6556.2;
  }

  // ---------------------------------------------------------------------
  // predict
  // ---------------------------------------------------------------------

  /**
   * `(extracted.get("gender") or "").strip().lower()`; `None` when the value
   * is truthy but not a string, where `.strip` raises `AttributeError`.
   */
  function GenderText(v: Option<Json>): Option<string>
  {
    match v
    case None => Some("")
    case Some(JStr(x)) => Some(Lower(Strip(x)))
    case Some(other) => if Truthy(other) then None else Some("")
  }

  /** The model's answer in seconds, when there is a model and its output is finite and positive. */
  function ModelSeconds(model: Option<Model>, t5: int, age: int, g: Gender): Option<int>
  {
    match model
    case None => None
    case Some(f) =>
      match f([[t5, age, if g == Male then 1 else 0]])
      case Finite(y) => if y > 0.0 then Some(Round(y)) else None
      case _ => None
  }

  /** `predict(extracted)`. */
  function Predict(p: Predictor, extracted: map<string, Json>): Prediction
  {
    match GenderText(Get(extracted, "gender"))
    case None => Raised
    case Some(gender) =>
      PredictChecked(p, gender, PyIntOf(Get(extracted, "age")), PyIntOf(Get(extracted, "time_5km_seconds")))
  }

  /** `predict` once the gender text and the two `int()` results are known. */
  function PredictChecked(p: Predictor, gender: string, age: Option<int>, t5: Option<int>): Prediction
  {
    if gender != "male" && gender != "female" then Failure(GenderError)
    else if age.None? then Failure(AgeTypeError)
    else if t5.None? then Failure(TimeTypeError)
    else if !AgeInRange(age.value) then Failure(AgeRangeError)
    else if !TimeInRange(t5.value) then Failure(TimeRangeError)
    else
      var g := if gender == "male" then Male else Female;
      match ModelSeconds(p.model, t5.value, age.value, g)
      case Some(secs) => Success(secs, FormatTime(secs), Details(Joblib, Some(p.source), p.version))
      case None =>
        var secs := FallbackSeconds(t5.value, age.value, g);
        Success(secs, FormatTime(secs), Details(Fallback, None, p.version))
  }

  /** The gender text and `int()` results the validation gate lets through. */
  predicate ValidFields(gender: string, age: Option<int>, t5: Option<int>)
  {
    && (gender == "male" || gender == "female")
    && age.Some? && AgeInRange(age.value)
    && t5.Some? && TimeInRange(t5.value)
  }

  /** The inputs the validation gate lets through. */
  predicate ValidInput(extracted: map<string, Json>)
  {
    && GenderText(Get(extracted, "gender")).Some?
    && ValidFields(GenderText(Get(extracted, "gender")).value,
                   PyIntOf(Get(extracted, "age")), PyIntOf(Get(extracted, "time_5km_seconds")))
  }

  /**
   * The validation gate: valid input always succeeds, whatever the model
   * does; anything else is a failure with an error (or, for a truthy
   * non-string gender, the exception).
   */
  lemma PredictGate(p: Predictor, extracted: map<string, Json>)
    ensures Predict(p, extracted).Success? <==> ValidInput(extracted)
    ensures Predict(p, extracted).Raised? <==> GenderText(Get(extracted, "gender")).None?
  {
    var gender := GenderText(Get(extracted, "gender"));
    if gender.Some? {
      CheckedGate(p, gender.value, PyIntOf(Get(extracted, "age")), PyIntOf(Get(extracted, "time_5km_seconds")));
    }
  }

  lemma CheckedGate(p: Predictor, gender: string, age: Option<int>, t5: Option<int>)
    ensures PredictChecked(p, gender, age, t5).Success? <==> ValidFields(gender, age, t5)
    ensures !PredictChecked(p, gender, age, t5).Raised?
  {
  }

  /** The error names the first check that failed, in the order gender, int(age), int(time), age range, time range. */
  lemma PredictErrors(p: Predictor, gender: string, age: Option<int>, t5: Option<int>)
    ensures
      var genderOk := gender == "male" || gender == "female";
      var r := PredictChecked(p, gender, age, t5);
      && (r == Failure(GenderError) <==> !genderOk)
      && (r == Failure(AgeTypeError) <==> genderOk && age.None?)
      && (r == Failure(TimeTypeError) <==> genderOk && age.Some? && t5.None?)
      && (r == Failure(AgeRangeError) <==> genderOk && age.Some? && t5.Some? && !AgeInRange(age.value))
      && (r == Failure(TimeRangeError) <==> genderOk && age.Some? && t5.Some? && AgeInRange(age.value) && !TimeInRange(t5.value))
  {
    assert GenderError != AgeTypeError && GenderError != TimeTypeError && GenderError != AgeRangeError && GenderError != TimeRangeError;
    assert AgeTypeError != TimeTypeError && AgeTypeError != AgeRangeError && AgeTypeError != TimeRangeError;
    assert TimeTypeError != AgeRangeError && TimeTypeError != TimeRangeError;
    assert AgeRangeError != TimeRangeError;
  }

  /** A successful prediction passed the gate, and its text reads back as its seconds. */
  lemma PredictSuccess(p: Predictor, gender: string, age: Option<int>, t5: Option<int>)
    requires PredictChecked(p, gender, age, t5).Success?
    ensures ValidFields(gender, age, t5)
    ensures
      var r := PredictChecked(p, gender, age, t5);
      && r.seconds >= 0
      && r.formatted == FormatTime(r.seconds)
      && TimeParsing.ParseTimeToSeconds(r.formatted) == Some(r.seconds)
      && r.details.version == p.version
  {
    var r := PredictChecked(p, gender, age, t5);
    PredictModes(p, gender, age, t5);
    FormatTimeRoundTrip(r.seconds);
  }

  /**
   * From the model: its positive finite output rounded, with no clamping;
   * from the heuristic: the fallback estimate, between one and four hours.
   */
  lemma PredictModes(p: Predictor, gender: string, age: Option<int>, t5: Option<int>)
    requires PredictChecked(p, gender, age, t5).Success?
    ensures ValidFields(gender, age, t5)
    ensures
      var r := PredictChecked(p, gender, age, t5);
      var g := if gender == "male" then Male else Female;
      var features := [[t5.value, age.value, if g == Male then 1 else 0]];
      && (r.details.mode == Joblib <==> ModelSeconds(p.model, t5.value, age.value, g).Some?)
      && (r.details.mode == Joblib ==>
            && p.model.Some? && p.model.value(features).Finite?
            && var y := p.model.value(features).y;
            && y > 0.0 && r.seconds as real - 0.5 <= y <= r.seconds as real + 0.5
            && r.seconds >= 0
            && r.details.modelSource == Some(p.source))
      && (r.details.mode == Fallback ==>
            && r.seconds == FallbackSeconds(t5.value, age.value, g)
            && 3600 <= r.seconds <= 14400
            && r.details.modelSource.None?)
  {
    var r := PredictChecked(p, gender, age, t5);
    var g := if gender == "male" then Male else Female;
    if r.details.mode == Fallback {
      FallbackInRange(t5.value, age.value, g);
    }
  }

  /** Without a model, or when the model raises or answers with a non-finite or non-positive number, the heuristic answers. */
  lemma ModelFailureFallsBack(p: Predictor, gender: string, age: Option<int>, t5: Option<int>)
    requires ValidFields(gender, age, t5)
    requires
      var features := [[t5.value, age.value, if gender == "male" then 1 else 0]];
      || p.model.None?
      || p.model.value(features) in {Raises, NonFinite}
      || (p.model.value(features).Finite? && p.model.value(features).y <= 0.0)
    ensures PredictChecked(p, gender, age, t5).Success?
    ensures PredictChecked(p, gender, age, t5).details.mode == Fallback
  {
  }

  /** The heuristic-only predictor always answers in fallback mode with version "fallback-1.0". */
  lemma HeuristicOnlyPredicts(gender: string, age: Option<int>, t5: Option<int>)
    requires ValidFields(gender, age, t5)
    ensures PredictChecked(HeuristicOnly, gender, age, t5).Success?
    ensures PredictChecked(HeuristicOnly, gender, age, t5).details == Details(Fallback, None, "fallback-1.0")
  {
  }

  /** The gender text is the trimmed, lower-cased string; a missing or falsy value gives the empty text. */
  lemma GenderTextCases(x: string, v: Json)
    ensures GenderText(Some(JStr(x))) == Some(Lower(Strip(x)))
    ensures !Truthy(v) ==> GenderText(Some(v)) == Some("")
    ensures Truthy(v) && !v.JStr? ==> GenderText(Some(v)).None?
    ensures GenderText(None) == Some("")
  {
  }
}
