/**
 * The language-model pass (`extract_user_data`): the reply text is cut down
 * to its JSON object, decoded, and each of the three fields is normalised
 * and range-checked on its own.
 *
 * The chat-completion call and `json.loads` are not modelled: the reply
 * arrives as a parameter (`None` when the call raised, for instance for a
 * missing API key) and the decoder is a function parameter.
 */
module ReplyNormalization {
  import opened Base
  import opened Text
  import opened PyValues

  /** The outcome of `json.loads`: a value, or the `JSONDecodeError` it raises. */
  datatype Decoded = Malformed | Parsed(value: Json)

  // ---------------------------------------------------------------------
  // Locating the JSON object in the reply
  // ---------------------------------------------------------------------

  /**
   * Regex `\{.*\}` (with `re.DOTALL`) at position `i`: a `{` and, since `.*`
   * is greedy and matches every character, everything up to the last `}`
   * after it.
   */
  function BracesAt(t: string, i: nat): Option<string>
  {
    if i < |t| && t[i] == '{' then
      match LastIndexOf(t[i + 1..], '}')
      case Some(j) => Some(t[i..i + j + 2])
      case None => None
    else None
  }

  /** The text handed to `json.loads`: the first `\{.*\}` match, or the whole reply. */
  function JsonSpan(text: string): string
  {
    match Search(text, BracesAt)
    case Some(m) => m
    case None => text
  }

  /** The last `c` of a suffix is the last `c` of the whole string, when it lies in the suffix. */
  lemma LastInSuffix(s: string, c: char, i: nat)
    requires i <= |s|
    ensures
      var whole := LastIndexOf(s, c);
      var part := LastIndexOf(s[i..], c);
      if whole.Some? && whole.value >= i then part.Some? && part.value + i == whole.value
      else part.None?
  {
    var part := LastIndexOf(s[i..], c);
    if part.Some? {
      assert s[i + part.value] in s;
    }
  }

  /**
   * The span runs from the first `{` to the last `}` of the reply when a `}`
   * follows the first `{`; otherwise the reply is decoded as it stands.
   */
  lemma JsonSpanFirstToLast(text: string)
    ensures
      var first := IndexOf(text, '{');
      var last := LastIndexOf(text, '}');
      if first < |text| && last.Some? && first < last.value then
        JsonSpan(text) == text[first..last.value + 1]
      else
        JsonSpan(text) == text
  {
    var first := IndexOf(text, '{');
    var last := LastIndexOf(text, '}');
    if first < |text| && last.Some? && first < last.value {
      SpanFound(text, first, last.value);
    } else {
      SpanAbsent(text);
    }
  }

  lemma SpanFound(text: string, first: nat, last: nat)
    requires first == IndexOf(text, '{') && LastIndexOf(text, '}') == Some(last) && first < last
    ensures JsonSpan(text) == text[first..last + 1]
  {
    NoBraceBefore(text, first);
    BracesAtFirst(text, first, last);
    SearchFindsFirst(text, BracesAt, first);
  }

  lemma NoBraceBefore(text: string, first: nat)
    requires first == IndexOf(text, '{')
    ensures forall q :: 0 <= q < first ==> BracesAt(text, q).None?
  {
    forall q | 0 <= q < first
      ensures BracesAt(text, q).None?
    {
      assert text[q] in text[..first];
    }
  }

  lemma BracesAtFirst(text: string, first: nat, last: nat)
    requires first < last && LastIndexOf(text, '}') == Some(last)
    requires text[first] == '{'
    ensures BracesAt(text, first) == Some(text[first..last + 1])
  {
    LastAfter(text, first + 1, last);
    BracesAtLast(text, first, last);
  }

  lemma BracesAtLast(t: string, i: nat, last: nat)
    requires i < last < |t| && t[i] == '{' && LastIndexOf(t[i + 1..], '}') == Some(last - (i + 1))
    ensures BracesAt(t, i) == Some(t[i..last + 1])
  {
    BracesAtSome(t, i, last - (i + 1));
    SameSlice(t, i, i + (last - (i + 1)) + 2, last + 1);
  }

  lemma LastAfter(s: string, i: nat, last: nat)
    requires i <= last && LastIndexOf(s, '}') == Some(last)
    ensures LastIndexOf(s[i..], '}') == Some(last - i)
  {
    LastInSuffix(s, '}', i);
  }

  lemma BracesAtSome(t: string, i: nat, j: nat)
    requires i < |t| && t[i] == '{' && LastIndexOf(t[i + 1..], '}') == Some(j)
    ensures i + j + 2 <= |t| && BracesAt(t, i) == Some(t[i..i + j + 2])
  {
  }

  lemma SameSlice(t: string, a: nat, b: nat, c: nat)
    requires a <= b <= |t| && b == c
    ensures t[a..b] == t[a..c]
  {
  }

  lemma SpanAbsent(text: string)
    requires
      var first := IndexOf(text, '{');
      var last := LastIndexOf(text, '}');
      !(first < |text| && last.Some? && first < last.value)
    ensures JsonSpan(text) == text
  {
    var first := IndexOf(text, '{');
    forall q | 0 <= q < |text|
      ensures BracesAt(text, q).None?
    {
      if text[q] == '{' {
        assert q >= first;
        LastInSuffix(text, '}', q + 1);
      }
    }
    SearchFindsNothing(text, BracesAt);
  }

  // ---------------------------------------------------------------------
  // Normalising the three fields
  // ---------------------------------------------------------------------

  /** The lower-cased words accepted for each gender. */
  const MaleWords: set<string> := {"male", "m", "man", "mężczyzna", "męski"}
  const FemaleWords: set<string> := {"female", "f", "woman", "kobieta", "żeński"}

  /** `str(v or "").lower()` matched against the two word sets. */
  function ReplyGender(v: Option<Json>): Option<Gender>
  {
    match v
    case Some(JStr(x)) =>
      var g := Lower(x);
      if g in MaleWords then Some(Male)
      else if g in FemaleWords then Some(Female)
      else None
    case _ => None
  }

  /** `int(v)` kept only when it lies in the accepted age range. */
  function ReplyAge(v: Option<Json>): Option<int>
  {
    match PyIntOf(v)
    case Some(a) => if AgeInRange(a) then Some(a) else None
    case None => None
  }

  /** `int(v)` kept only when it lies in the accepted 5 km time range. */
  function ReplyTime(v: Option<Json>): Option<int>
  {
    match PyIntOf(v)
    case Some(t) => if TimeInRange(t) then Some(t) else None
    case None => None
  }

  /** The record built from a decoded JSON object. */
  function Normalized(data: map<string, Json>): Extraction
  {
    Extraction(
      ReplyGender(Get(data, "gender")),
      ReplyAge(Get(data, "age")),
      ReplyTime(Get(data, "time_5km_seconds")))
  }

  /**
   * The normalisation block, field after field, on the decoded object
   * `data`, filling the record that starts with every field `None`.
   */
  method NormalizeReply(data: map<string, Json>) returns (out: Extraction)
    ensures out == Normalized(data)
    ensures InRange(out)
  {
    out := NoFields;

    var g := Get(data, "gender");
    if g.Some? && g.value.JStr? {
      var word := Lower(g.value.s);
      if word in MaleWords {
        out := out.(gender := Some(Male));
      } else if word in FemaleWords {
        out := out.(gender := Some(Female));
      }
    }

    var a := PyIntOf(Get(data, "age"));
    if a.Some? && 15 <= a.value <= 90 {
      out := out.(age := Some(a.value));
    }

    var t5 := PyIntOf(Get(data, "time_5km_seconds"));
    if t5.Some? && 9 * 60 <= t5.value <= 60 * 60 {
      out := out.(time5k := Some(t5.value));
    }
  }

  /**
   * The whole pass: `reply` is the message content (`None` when the call
   * raised; an empty content is `Some("")`) and `loads` decodes JSON. Any
   * failure before normalisation (the call, the decoder, a decoded value
   * that is not an object and so has no `.get`) leaves every field `None`.
   */
  function ExtractUserData(reply: Option<string>, loads: string -> Decoded): Extraction
  {
    match reply
    case None => NoFields
    case Some(content) =>
      match loads(JsonSpan(Strip(content)))
      case Parsed(JObject(data)) => Normalized(data)
      case _ => NoFields
  }

  // ---------------------------------------------------------------------
  // Properties
  // ---------------------------------------------------------------------

  /** Every field the pass returns lies in its accepted range. */
  lemma ReplyInRange(reply: Option<string>, loads: string -> Decoded)
    ensures InRange(ExtractUserData(reply, loads))
  {
  }

  /** A failed call, a decoding error or a non-object value gives the empty record, and so does an empty object. */
  lemma ReplyFailure(reply: Option<string>, loads: string -> Decoded)
    ensures
      (reply.None? || !(loads(JsonSpan(Strip(reply.value))).Parsed? && loads(JsonSpan(Strip(reply.value))).value.JObject?))
      ==> ExtractUserData(reply, loads) == NoFields
    ensures
      reply.Some? && loads(JsonSpan(Strip(reply.value))) == Parsed(JObject(map[]))
      ==> ExtractUserData(reply, loads) == NoFields
  {
    if reply.Some? {
      var span := JsonSpan(Strip(reply.value));
      if loads(span) == Parsed(JObject(map[])) {
        EmptyObjectNormalized();
      }
    }
  }

  /** An empty object has none of the three keys, so nothing is kept. */
  lemma EmptyObjectNormalized()
    ensures Normalized(map[]) == NoFields
  {
    var empty: map<string, Json> := map[];
    assert Get(empty, "gender") == None && Get(empty, "age") == None && Get(empty, "time_5km_seconds") == None;
  }

  /** The gender words: each set is recognised, case-insensitively, and no word is in both. */
  lemma GenderWords(x: string)
    ensures ReplyGender(Some(JStr(x))) == Some(Male) <==> Lower(x) in MaleWords
    ensures ReplyGender(Some(JStr(x))) == Some(Female) <==> Lower(x) in FemaleWords
    ensures ReplyGender(Some(JStr(x))).None? <==> Lower(x) !in MaleWords + FemaleWords
  {
    assert MaleWords !! FemaleWords;
  }

  /** Values that are not strings never name a gender. */
  lemma GenderNeedsString(v: Option<Json>)
    requires v.None? || !v.value.JStr?
    ensures ReplyGender(v).None?
  {
  }

  /**
   * The age is kept exactly when `int()` of the value succeeds and lies in
   * 15..90; the time exactly when it succeeds and lies in 540..3600.
   */
  lemma NormalizedFields(data: map<string, Json>, n: int)
    ensures Normalized(data).age == Some(n) <==> PyIntOf(Get(data, "age")) == Some(n) && AgeInRange(n)
    ensures Normalized(data).time5k == Some(n) <==> PyIntOf(Get(data, "time_5km_seconds")) == Some(n) && TimeInRange(n)
  {
  }

  /** Each field depends on its own key only. */
  lemma FieldsIndependent(d1: map<string, Json>, d2: map<string, Json>)
    ensures Get(d1, "gender") == Get(d2, "gender") ==> Normalized(d1).gender == Normalized(d2).gender
    ensures Get(d1, "age") == Get(d2, "age") ==> Normalized(d1).age == Normalized(d2).age
    ensures Get(d1, "time_5km_seconds") == Get(d2, "time_5km_seconds") ==> Normalized(d1).time5k == Normalized(d2).time5k
  {
  }
}
