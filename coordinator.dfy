/**
 * `extract_user_data_auto`: the quick pass first; the language-model pass
 * only when the quick pass left a field empty, and then each field is taken
 * from the quick pass when it is truthy and from the language model
 * otherwise.
 */
module Coordinator {
  import opened Base
  import QuickPass
  import ReplyNormalization

  /** Python truthiness of a stored number: present and non-zero. */
  predicate TruthyNumber(v: Option<int>) { v.Some? && v.value != 0 }

  /** `all(quick.values())`: a gender (a non-empty name) and two non-zero numbers. */
  predicate AllTruthy(e: Extraction)
  {
    e.gender.Some? && TruthyNumber(e.age) && TruthyNumber(e.time5k)
  }

  /** `a or b` on stored numbers. */
  function OrNumber(a: Option<int>, b: Option<int>): Option<int>
  {
    if TruthyNumber(a) then a else b
  }

  /** `a or b` on genders (a gender name is never empty). */
  function OrGender(a: Option<Gender>, b: Option<Gender>): Option<Gender>
  {
    if a.Some? then a else b
  }

  /**
   * The automatic extractor. `reply` and `loads` stand for the chat call and
   * the JSON decoder that the language-model pass would use; they are only
   * consulted when the quick pass is incomplete.
   */
  function ExtractAuto(text: string, reply: Option<string>, loads: string -> ReplyNormalization.Decoded): Extraction
  {
    var quick := QuickPass.Quick(text);
    if AllTruthy(quick) then quick
    else
      var llm := ReplyNormalization.ExtractUserData(reply, loads);
      Extraction(
        OrGender(quick.gender, llm.gender),
        OrNumber(quick.age, llm.age),
        OrNumber(quick.time5k, llm.time5k))
  }

  /** On range-checked records, truthiness is presence: a checked age or time is never 0. */
  lemma TruthyIsPresent(e: Extraction)
    requires InRange(e)
    ensures AllTruthy(e) <==> Complete(e)
    ensures TruthyNumber(e.age) <==> e.age.Some?
    ensures TruthyNumber(e.time5k) <==> e.time5k.Some?
  {
  }

  /** A complete quick pass is the answer, whatever the language model would have said. */
  lemma QuickCompleteSkipsModel(text: string, reply: Option<string>, loads: string -> ReplyNormalization.Decoded)
    requires Complete(QuickPass.Quick(text))
    ensures ExtractAuto(text, reply, loads) == QuickPass.Quick(text)
  {
    QuickPass.QuickInRange(text);
    TruthyIsPresent(QuickPass.Quick(text));
  }

  /**
   * Otherwise every field is the quick pass's value when it found one and
   * the language model's value when it did not.
   */
  lemma MergePriority(text: string, reply: Option<string>, loads: string -> ReplyNormalization.Decoded)
    requires !Complete(QuickPass.Quick(text))
    ensures
      var quick := QuickPass.Quick(text);
      var llm := ReplyNormalization.ExtractUserData(reply, loads);
      var r := ExtractAuto(text, reply, loads);
      && r.gender == (if quick.gender.Some? then quick.gender else llm.gender)
      && r.age == (if quick.age.Some? then quick.age else llm.age)
      && r.time5k == (if quick.time5k.Some? then quick.time5k else llm.time5k)
  {
    QuickPass.QuickInRange(text);
    TruthyIsPresent(QuickPass.Quick(text));
  }

  /** The merged record keeps every field in range, and a field found by either pass is present. */
  lemma AutoInRange(text: string, reply: Option<string>, loads: string -> ReplyNormalization.Decoded)
    ensures InRange(ExtractAuto(text, reply, loads))
    ensures
      var quick := QuickPass.Quick(text);
      var llm := ReplyNormalization.ExtractUserData(reply, loads);
      var r := ExtractAuto(text, reply, loads);
      && (r.gender.Some? <==> quick.gender.Some? || (!Complete(quick) && llm.gender.Some?))
      && (r.age.Some? <==> quick.age.Some? || (!Complete(quick) && llm.age.Some?))
      && (r.time5k.Some? <==> quick.time5k.Some? || (!Complete(quick) && llm.time5k.Some?))
  {
    QuickPass.QuickInRange(text);
    TruthyIsPresent(QuickPass.Quick(text));
    ReplyNormalization.ReplyInRange(reply, loads);
  }

  /** "M 30 lat, 5km 24:30" is settled by the quick pass, whatever the language model replies. */
  lemma AutoExample(text: string, reply: Option<string>, loads: string -> ReplyNormalization.Decoded)
    requires text == "M 30 lat, 5km 24:30"
    ensures ExtractAuto(text, reply, loads) == Extraction(Some(Male), Some(30), Some(1470))
  {
    QuickPass.QuickExample(text);
    QuickCompleteSkipsModel(text, reply, loads);
  }
}
