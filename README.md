# Half-marathon predictor: extraction, prediction and free-text parsing in Dafny

This project models the core of a small application. A runner describes themselves in free Polish or
English text, for example "M 30 lat, 5km 24:30". The application pulls out three fields: gender, age
and 5 km time in seconds. It then predicts a half-marathon finishing time. The model covers three
parts of the program.

* **Extraction** (`utils/llm_extractor.py`):
  * the time-token reader `parse_time_to_seconds`;
  * the regular-expression quick pass `_preparse_quick`;
  * the normalisation of a language-model reply inside `extract_user_data`;
  * the two-tier coordinator `extract_user_data_auto`.
* **Prediction** (`utils/model_predictor.py`):
  * `HalfMarathonPredictor.predict`, with its validation gate, the best-effort trained model and the
    heuristic fallback `_predict_fallback_seconds`;
  * the `H:MM:SS` formatter `_format_time`.
* **Rule-based parser** (`utils/input_parser.py`): `_norm`, `_parse_gender`, `_parse_age`,
  `_time_str_to_seconds`, `_parse_time_5k` and `parse_free_text`.

Modules, one per file:

| file | module | contents |
|---|---|---|
| `base.dfy` | `Base` | `Option`, `Gender`, the extraction record, the acceptance ranges (age 15–90, 5 km time 540–3600 s), round-half-even and truncation |
| `text.dfy` | `Text` | Python string semantics: character classes, `lower`, `strip`, `replace`, `split`, `int(str)` and word boundaries; a generic "first position where a rule matches", which stands for `re.search` |
| `values.dfy` | `PyValues` | JSON values as `json.loads` returns them, `dict.get`, truthiness, `int(value)` |
| `timeparsing.dfy` | `TimeParsing` | `parse_time_to_seconds` |
| `quickpass.dfy` | `QuickPass` | `_preparse_quick`, as a function together with a method that loops over the age rules |
| `replynormalization.dfy` | `ReplyNormalization` | the JSON span of a reply, and the normalisation of the decoded object as a function and a method |
| `coordinator.dfy` | `Coordinator` | `extract_user_data_auto` |
| `prediction.dfy` | `Prediction` | `_format_time`, the fallback heuristic as a function and a method, and `predict` |
| `freetextparser.dfy` | `FreeTextParser` | `utils/input_parser.py` |

How the source constructs are represented:

* Each regular expression is a function `XAt(t, i)`. It says whether the pattern matches at position
  `i` and what it captures. `Search(t, XAt)` is the first match, as `re.search` reports it.
  `Text.SearchFindsFirst`, `Text.SearchFindsNothing` and `Text.SearchFromSound` state that it is the
  leftmost match.
* The language-model call is an input. `reply: Option<string>` is the stripped reply text, or `None`
  when the call raises.
* `json.loads` is a parameter `loads: string -> Decoded`.
* The trained model is an optional function from the feature rows `[[t5, age, gender_male]]` to
  `Raises`, `NonFinite` or `Finite(y)`.
* Floating-point numbers are exact reals. `round` is round-half-even, and `int(x)` truncates toward
  zero.

## Model

| member | source | states |
|---|---|---|
| `Text.SearchFindsFirst` | utils/llm_extractor.py:111 | a search returns the match at the first position where the pattern matches |
| `Text.SearchFindsNothing` | utils/llm_extractor.py:111 | a search finds nothing when the pattern matches at no position |
| `Text.SearchFromSound` | utils/llm_extractor.py:111 | every search result is a match at some position, and no earlier position matches |
| `Text.FirstAgeInRangeSpec` | utils/llm_extractor.py:110-119 | the age loop returns a value only if it is in 15–90 and it is the first match of rule k, while the first match of every earlier rule is missing or out of range; it returns nothing exactly when every rule's first match is missing or out of range |
| `Text.PyIntDigits` | utils/llm_extractor.py:53 | `int()` of a plain digit string is its decimal value |
| `Text.PyIntGrouped` | utils/llm_extractor.py:53 | `int()` accepts underscore-grouped digits and reads them as if the underscores were removed |
| `Text.PyIntNeedsDigit` | utils/llm_extractor.py:58 | `int()` of a string without a digit fails |
| `PyValues.PyIntOfDigits` | utils/llm_extractor.py:185-191 | `int(a)` of a JSON string of digits is the number it spells |
| `PyValues.PyIntOfNoDigits` | utils/llm_extractor.py:185-191 | `int(a)` of a JSON string without a digit fails |
| `PyValues.PyIntOfScalars` | utils/llm_extractor.py:185-191 | `int(a)` maps booleans to 1/0 and truncates a finite float toward zero; it fails on null, on a non-finite float and on a missing key |
| `Base.RoundMonotone` | utils/model_predictor.py:221 | `round` never reverses the order of its arguments |
| `TimeParsing.NoDigitNoTime` | utils/llm_extractor.py:37-83 | a token without a digit, such as "invalid" or the empty string, reads as no time |
| `TimeParsing.ReadNeedsDigit` | utils/llm_extractor.py:49-83 | none of the three readings (clock, unit words, bare number) succeeds on digit-free text |
| `TimeParsing.ClockNeedsDigit` | utils/llm_extractor.py:49-59 | the colon reading fails on digit-free text |
| `TimeParsing.BareNumberNeedsDigit` | utils/llm_extractor.py:79-83 | the bare-number reading fails on digit-free text |
| `TimeParsing.TwoPartToken` | utils/llm_extractor.py:49-54 | "mm:ss" reads as mm·60 + ss |
| `TimeParsing.ThreePartToken` | utils/llm_extractor.py:55-57 | "hh:mm:ss" reads as hh·3600 + mm·60 + ss |
| `TimeParsing.ManyParts` | utils/llm_extractor.py:50-59 | more than three non-empty colon parts give no clock reading |
| `TimeParsing.CanonicalMinutes` | utils/llm_extractor.py:40-47 | "d minutes", "d minute", "d minuty", "d minut" and "d min" all become "d min" before matching |
| `TimeParsing.MinuteWordsRewrite` | utils/llm_extractor.py:42-43 | every Polish or English minute word is rewritten to "min" |
| `TimeParsing.MinutesToken` | utils/llm_extractor.py:61-72 | a whole token made of a digit string, one space and a minute word reads as that many minutes |
| `TimeParsing.MinSecToken` | utils/llm_extractor.py:61-65 | "m min s s" reads as m·60 + s |
| `TimeParsing.BareNumberToken` | utils/llm_extractor.py:79-81 | a bare number below 100 is minutes, and one of 100 or more is seconds |
| `TimeParsing.ClockExampleShort` | utils/llm_extractor.py:49-54 | "24:30" reads as 1470 |
| `TimeParsing.ClockExampleLong` | utils/llm_extractor.py:55-57 | "0:24:30" reads as 1470 |
| `TimeParsing.UnitExamples` | utils/llm_extractor.py:40-72 | "24 minutes" is 1440, "25 min" is 1500 and "23 min 45 s" is 1425 |
| `TimeParsing.NumberExamples` | utils/llm_extractor.py:37-83 | "24" is 1440 and "30" is 1800; "invalid" and "" read as no time |
| `QuickPass.PreparseQuick` | utils/llm_extractor.py:86-151 | the method, which loops over the age patterns with an early exit, computes exactly the quick-pass record that the lemmas below describe |
| `QuickPass.QuickInRange` | utils/llm_extractor.py:105-149 | a returned age is in 15–90 and a returned 5 km time is in 540–3600 |
| `QuickPass.QuickAgeOrder` | utils/llm_extractor.py:104-119 | age comes from the "-letni" rule, then "N lat", then "lat N"; an out-of-range first match moves on to the next rule |
| `QuickPass.QuickGenderOrder` | utils/llm_extractor.py:92-102 | a male word rule beats everything; a female word rule decides otherwise; the standalone letters apply only when no word rule matched, and M beats K |
| `QuickPass.LetterNeedsBoundary` | utils/llm_extractor.py:99-102 | an M or K followed by a word character is not a standalone letter |
| `QuickPass.QuickTimeOrder` | utils/llm_extractor.py:121-149 | a colon time beats the word form, which beats the seconds form; the chosen value is then range-checked |
| `QuickPass.QuickExample` | utils/llm_extractor.py:86-151 | "M 30 lat, 5km 24:30" gives male, 30 and 1470 s: the standalone M decides the gender, "30 lat" the age, and the two-group colon token "24:30" is read as minutes and seconds |
| `QuickPass.DecimalHasWordMatch` | utils/llm_extractor.py:130-144 | every match of the decimal-minutes pattern implies a match of the word-form pattern |
| `QuickPass.DecimalRuleUnreachable` | utils/llm_extractor.py:140-144 | the decimal-minutes branch is never taken |
| `ReplyNormalization.JsonSpanFirstToLast` | utils/llm_extractor.py:175-176 | the decoded text runs from the first '{' to the last '}' when such a pair exists, and is the whole reply otherwise |
| `ReplyNormalization.NormalizeReply` | utils/llm_extractor.py:178-199 | the method, which fills the output field by field, computes the normalised record, and every field it fills is in range |
| `ReplyNormalization.ReplyInRange` | utils/llm_extractor.py:155-208 | the extractor's age is always in 15–90 and its time in 540–3600 |
| `ReplyNormalization.ReplyFailure` | utils/llm_extractor.py:161-208 | a failed call, a reply that does not decode, or a decoded non-object leaves all three fields empty, and so does an empty object |
| `ReplyNormalization.GenderWords` | utils/llm_extractor.py:179-183 | a string gender maps to male exactly when its lower-case form is a male synonym, to female exactly when it is a female synonym, and to nothing otherwise |
| `ReplyNormalization.GenderNeedsString` | utils/llm_extractor.py:179-183 | a missing or non-string gender value maps to no gender |
| `ReplyNormalization.NormalizedFields` | utils/llm_extractor.py:185-199 | age is kept exactly when `int(age)` succeeds and lies in 15–90; time is kept exactly when `int(time)` succeeds and lies in 540–3600 |
| `ReplyNormalization.FieldsIndependent` | utils/llm_extractor.py:178-199 | each output field depends only on its own key of the decoded object |
| `Coordinator.TruthyIsPresent` | utils/llm_extractor.py:217-219 | on an in-range record, "all values truthy" coincides with "all three fields present" |
| `Coordinator.QuickCompleteSkipsModel` | utils/llm_extractor.py:217-219 | a complete quick pass is returned unchanged, whatever the model replies |
| `Coordinator.MergePriority` | utils/llm_extractor.py:221-227 | otherwise each field is the quick value when present, and the model's value when not |
| `Coordinator.AutoInRange` | utils/llm_extractor.py:211-227 | the merged record is in range, and each field is present exactly when the quick pass has it or the model supplies it after an incomplete quick pass |
| `Coordinator.AutoExample` | utils/llm_extractor.py:217-219 | for "M 30 lat, 5km 24:30" the two-tier extractor returns male, 30 and 1470 s whatever the language model replies |
| `Prediction.ClockArithmetic` | utils/model_predictor.py:224-228 | the hour, minute and second fields recombine to the input, with minutes and seconds in 0–59 |
| `Prediction.FormatTimeFields` | utils/model_predictor.py:224-228 | the formatted string is hours, a colon, two zero-padded minute digits, a colon and two zero-padded second digits; these recombine to the input |
| `Prediction.FormatTimeRoundTrip` | utils/model_predictor.py:224-228 | reading a formatted time back with `parse_time_to_seconds` gives the original seconds |
| `Prediction.ClockReadsBack` | utils/llm_extractor.py:55-57 | an "h:mm:ss" string reads back as its total of seconds |
| `Prediction.FormatTimeNinetyMinutes` | utils/model_predictor.py:224-228 | 5400 formats as "1:30:00" |
| `Prediction.FormatTimeTwoHoursFifteen` | utils/model_predictor.py:224-228 | 8130 formats as "2:15:30" |
| `Prediction.PredictFallbackSeconds` | utils/model_predictor.py:193-221 | the method, which rescales `base` step by step, returns the heuristic estimate, and that estimate is within 3600–14400 |
| `Prediction.FallbackInRange` | utils/model_predictor.py:218-221 | the heuristic always lies within 1–4 hours |
| `Prediction.AgeFactorAtLeastOne` | utils/model_predictor.py:206-215 | the age multiplier is never below 1, and it is exactly 1 on ages 20–35 |
| `Prediction.AgeFactorGrows` | utils/model_predictor.py:210-215 | from age 20 upward the age multiplier never decreases |
| `Prediction.YoungAgeFactor` | utils/model_predictor.py:208-209 | below 20 the multiplier is 1.005·(20−age), so at 18 or younger it at least doubles the estimate |
| `Prediction.ClampMonotone` | utils/model_predictor.py:218-219 | clamping to 1–4 hours preserves order |
| `Prediction.RawIsScaled` | utils/model_predictor.py:200-215 | the unclamped estimate is the 5 km time times one positive factor built from gender and age |
| `Prediction.FallbackMonotone` | utils/model_predictor.py:200-221 | for fixed gender and age, a slower 5 km time never gives a faster prediction |
| `Prediction.FallbackFemaleNotFaster` | utils/model_predictor.py:203-204 | the female estimate is never below the male one for the same age and time |
| `Prediction.FallbackExample` | utils/model_predictor.py:193-221 | a 30-year-old man with a 24:30 5 km gets 6556 s |
| `Prediction.PredictGate` | utils/model_predictor.py:121-140 | `predict` succeeds exactly when gender, age and time pass validation; it raises exactly when the gender value is truthy but not a string |
| `Prediction.CheckedGate` | utils/model_predictor.py:126-177 | once the fields are read, success coincides with passing validation, and nothing raises |
| `Prediction.PredictErrors` | utils/model_predictor.py:126-140 | the checks run in the order gender, age type, time type, age range, time range; each failure returns exactly its own error message |
| `Prediction.PredictSuccess` | utils/model_predictor.py:142-177 | a successful prediction has valid inputs, non-negative seconds, and a formatted string that reads back to those seconds; it carries the predictor's version |
| `Prediction.PredictModes` | utils/model_predictor.py:142-177 | the mode is "joblib" exactly when the model yields a finite positive value; that value is then rounded to the nearest second, without clamping, and the model source is reported; otherwise the mode is "fallback" with the heuristic's 1–4 h value |
| `Prediction.ModelFailureFallsBack` | utils/model_predictor.py:143-177 | a missing model, or one that raises or returns a non-finite or non-positive value, still succeeds in fallback mode |
| `Prediction.HeuristicOnlyPredicts` | utils/model_predictor.py:167-177 | without a model, every valid input succeeds in fallback mode |
| `Prediction.GenderTextCases` | utils/model_predictor.py:122 | a string gender is stripped and lower-cased; a falsy or missing value becomes ""; a truthy non-string value raises |
| `FreeTextParser.NormChars` | utils/input_parser.py:15-22 | normalising keeps the length and lower-cases each character, then replaces each Polish letter by its plain one |
| `FreeTextParser.NormPlain` | utils/input_parser.py:18-21 | no normalised text contains any of the nine Polish letters |
| `FreeTextParser.NormPlainText` | utils/input_parser.py:15-22 | text that is already lower-case ASCII is unchanged |
| `FreeTextParser.GenderTokensDecide` | utils/input_parser.py:24-35 | gender is male when a male token occurs as a whole word, otherwise female when a female token does, otherwise nothing |
| `FreeTextParser.HeadIsToken` | utils/input_parser.py:31-35 | a head (the text before the first comma) found in the synonym table always contains a token that one of the earlier searches would have found |
| `FreeTextParser.ParseAge` | utils/input_parser.py:37-53 | the method, which loops over the patterns with an early return, computes the parser's age |
| `FreeTextParser.AgeInBounds` | utils/input_parser.py:49-52 | a returned age is in 15–90 |
| `FreeTextParser.AgeOrder` | utils/input_parser.py:40-53 | age comes from "N lat", then "wiek/age/mam N", then any one- or two-digit number; only the first match of each pattern is considered, and an out-of-range value moves on to the next pattern |
| `FreeTextParser.AgeWrittenInText` | utils/input_parser.py:37-53 | a returned age is written in the original text as a one- or two-digit number |
| `FreeTextParser.TimeStrTwo` | utils/input_parser.py:82-84 | "mm:ss" gives mm·60 + ss, in agreement with `parse_time_to_seconds` |
| `FreeTextParser.TimeStrThree` | utils/input_parser.py:85-87 | "hh:mm:ss" gives hh·3600 + mm·60 + ss, in agreement with `parse_time_to_seconds` |
| `FreeTextParser.TimeStrNeedsColon` | utils/input_parser.py:79-90 | a string without a colon gives nothing |
| `FreeTextParser.TimeStrNonNumeric` | utils/input_parser.py:82-89 | two parts of which one holds no digit make `int()` fail, and the result is nothing |
| `FreeTextParser.TimeStrNonNumericThree` | utils/input_parser.py:85-89 | three parts of which one holds no digit make `int()` fail, and the result is nothing |
| `FreeTextParser.TimeStrTooManyParts` | utils/input_parser.py:80-90 | four or more colon parts give nothing |
| `FreeTextParser.SpanReads` | utils/input_parser.py:73 | every time span the patterns capture has the clock shape "d:dd" or "d:dd:dd" |
| `FreeTextParser.Time5kChoice` | utils/input_parser.py:58-77 | a time near "5k"/"5 km" wins over the first clock time anywhere; the result is present exactly when one of them is found; it is read as `parse_time_to_seconds` reads it and is at most 99:99:99 |
| `FreeTextParser.Time5kNotRangeChecked` | utils/input_parser.py:66-70 | "5km 5:00" gives 300 s, which is outside the 540–3600 range the other extractors enforce |
| `FreeTextParser.ParseFreeText` | utils/input_parser.py:92-116 | each of the three keys is in exactly one of the found and missing maps; a found key holds the parsed value; a missing key holds its fixed hint |
| `FreeTextParser.Collect` | utils/input_parser.py:98-114 | filling the two maps from the three parsed values puts each key in exactly one map, holding either the value or the fixed hint |

## Left out

- The language-model call (`_get_openai_client`, the chat completion, the environment variables) is replaced by its reply, an input. A raised exception becomes `None`.
- `json.loads` is the parameter `loads`. Its grammar is not modelled.
- The model loading in `HalfMarathonPredictor.__init__`, `_try_load_joblib` and `_download_from_spaces` (file system, S3 and joblib) is left out. A predictor is a record holding the loaded model or nothing, a version and a source.
- `_predict_with_loaded_model` is the abstract model function. Its own `predict` lookup, the `y[0]` indexing and `float(y)` are part of that abstraction.
- Langfuse observation calls, the `print` in the extractor's error handler, the Streamlit UI in `app.py`, `utils/data_loader.py` and `utils/langfuse_shim.py` have no behaviour that bears on the results. They are not part of this model.
- The code has no reply cache, hint field or pace value, though its tests expect them (test_integration.py:142-162, test_integration.py:182, test_app.py:196). The model has none of them either.
- Python's Unicode tables are narrowed to the characters that matter here:
  - `\w` covers the alphanumeric characters of ASCII, Latin-1 and Latin Extended-A, which include every Polish letter, the superscript digits and the vulgar fractions; `lower()` covers the same three blocks;
  - `\d` covers ASCII digits, while `\s` and `strip()` cover Python's full whitespace set;
  - characters whose lower-case form changes length (such as U+0130) are out of scope.
- Floating point: every float is an exact real.
  - In the bare-number reading of `parse_time_to_seconds`, `int(val * 60)` is taken on the exact decimal value. An IEEE product that falls just below a whole number can truncate one second lower than the model does.
  - The fallback heuristic's products are exact. `Base.Round` rounds half to even, like Python's `round`.
- `Prediction.PredictModes`: the model path is stated for the feature row `[[t5, age, gender_male]]`. Any feature layout a real model might expect is outside the code and outside the model.

Behaviour of the code worth knowing:

- Below age 20 the heuristic multiplies by 1.005·(20−age), so at 18 or younger it at least doubles the estimate (`Prediction.YoungAgeFactor`).
- The rule-based parser looks for a time within 15 non-digit characters after "5k"/"5 km". It applies no range check to the 5 km time (`FreeTextParser.Time5kNotRangeChecked`).
- The mode names are "joblib" and "fallback". Failures carry an error message but no hint.
- The model's features are `[t5, age, gender_male]`, with no pace column.
- `predict` raises, instead of returning an error, when the gender value is truthy but not a string (`Prediction.PredictGate`).
- The quick pass's decimal-minutes rule can never fire: the word-form rule before it matches wherever it would (`QuickPass.DecimalRuleUnreachable`).
- The parser's head-of-text synonym lookup can never succeed once both token searches have failed (`FreeTextParser.HeadIsToken`).
- The user interface calls the model-only `extract_user_data`, not the two-tier `extract_user_data_auto`. Both are modelled.
