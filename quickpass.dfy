/**
 * `_preparse_quick` of utils/llm_extractor.py: the local, rule-based first
 * pass that reads gender, age and 5 km time out of Polish or English text.
 * The text is lower-cased and padded with one space on each side; the
 * standalone-letter gender rule alone looks at the original text.
 */
module QuickPass {
  import opened Base
  import opened Text
  import TimeParsing

  /** `" " + text.lower() + " "`. */
  function Padded(text: string): string
  {
    " " + Lower(text) + " "
  }

  // ---------------------------------------------------------------------
  // Gender rules
  // ---------------------------------------------------------------------

  /** Regex `\bpłe[ćc]\s*[:=]?\s*<letter>\b` at `i`. */
  predicate PlecAt(t: string, i: nat, letter: char)
  {
    && Boundary(t, i) && At(t, i, "płe") && i + 3 < |t| && (t[i + 3] == 'ć' || t[i + 3] == 'c')
    && var j := SpaceRunEnd(t, i + 4);
       var j' := if j < |t| && (t[j] == ':' || t[j] == '=') then j + 1 else j;
       var k := SpaceRunEnd(t, j');
       k < |t| && t[k] == letter && Boundary(t, k + 1)
  }

  predicate MalePlecAt(t: string, i: nat) { PlecAt(t, i, 'm') }

  predicate FemalePlecAt(t: string, i: nat) { PlecAt(t, i, 'k') }

  /** Regex `\bmężczyzn\w+|\bmęsk\w+|\bfacet\b|\bchłopak\b|\bpan\b|\bmale\b` at `i`. */
  predicate MaleWordAt(t: string, i: nat)
  {
    || StemAt(t, i, "mężczyzn") || StemAt(t, i, "męsk")
    || WholeWordAt(t, i, "facet") || WholeWordAt(t, i, "chłopak")
    || WholeWordAt(t, i, "pan") || WholeWordAt(t, i, "male")
  }

  /** Regex `\bkobiet\w+|\bżeńsk\w+|\bdziewczyn\w+|\bpani\b|\bfemale\b` at `i`. */
  predicate FemaleWordAt(t: string, i: nat)
  {
    || StemAt(t, i, "kobiet") || StemAt(t, i, "żeńsk") || StemAt(t, i, "dziewczyn")
    || WholeWordAt(t, i, "pani") || WholeWordAt(t, i, "female")
  }

  /** Regex `\b[<upper><lower>]\b` at `i`: a one-letter word. */
  predicate LetterAt(s: string, i: nat, upper: char, lower: char)
  {
    Boundary(s, i) && i < |s| && (s[i] == upper || s[i] == lower) && Boundary(s, i + 1)
  }

  predicate MLetterAt(s: string, i: nat) { LetterAt(s, i, 'M', 'm') }

  predicate KLetterAt(s: string, i: nat) { LetterAt(s, i, 'K', 'k') }

  /** Some male rule (the "płeć: m" form or a male word) matches the padded text. */
  predicate MaleRule(t: string)
  {
    Occurs(t, MalePlecAt) || Occurs(t, MaleWordAt)
  }

  predicate FemaleRule(t: string)
  {
    Occurs(t, FemalePlecAt) || Occurs(t, FemaleWordAt)
  }

  /** The gender the quick pass settles on. */
  function QuickGender(text: string): Option<Gender>
  {
    var t := Padded(text);
    if MaleRule(t) then Some(Male)
    else if FemaleRule(t) then Some(Female)
    else if Occurs(text, MLetterAt) then Some(Male)
    else if Occurs(text, KLetterAt) then Some(Female)
    else None
  }

  // ---------------------------------------------------------------------
  // Age rules
  // ---------------------------------------------------------------------

  /** Regex `(\d{1,2})\s*-\s*letni[aeym]?` at `i`: the captured number. */
  function LetniAt(t: string, i: nat): Option<nat>
  {
    if i < |t| && IsDigit(t[i]) then
      var e := ShortRunEnd(t, i);
      var j := SpaceRunEnd(t, e);
      if j < |t| && t[j] == '-' && At(t, SpaceRunEnd(t, j + 1), "letni")
      then Some(ValueAt(t, i, e)) else None
    else None
  }

  /** Regex `(\d{1,2})\s*(?:lat|lata|roku|r\.|yo|y/o)\b` at `i`. */
  function LatAfterAt(t: string, i: nat): Option<nat>
  {
    if i < |t| && IsDigit(t[i]) then
      var e := ShortRunEnd(t, i);
      var j := SpaceRunEnd(t, e);
      if || (At(t, j, "lat") && Boundary(t, j + 3))
         || (At(t, j, "lata") && Boundary(t, j + 4))
         || (At(t, j, "roku") && Boundary(t, j + 4))
         || (At(t, j, "r.") && Boundary(t, j + 2))
         || (At(t, j, "yo") && Boundary(t, j + 2))
         || (At(t, j, "y/o") && Boundary(t, j + 3))
      then Some(ValueAt(t, i, e)) else None
    else None
  }

  /** Regex `\blat\s*(\d{1,2})\b` at `i`. */
  function LatBeforeAt(t: string, i: nat): Option<nat>
  {
    if Boundary(t, i) && At(t, i, "lat") then
      var j := SpaceRunEnd(t, i + 3);
      if j < |t| && IsDigit(t[j]) then
        var e := ShortRunEnd(t, j);
        if Boundary(t, e) then Some(ValueAt(t, j, e)) else None
      else None
    else None
  }

  /** `age_patterns`, in the order they are tried. */
  const AgeRules: seq<(string, nat) -> Option<nat>> := [LetniAt, LatAfterAt, LatBeforeAt]

  // ---------------------------------------------------------------------
  // 5 km time rules
  // ---------------------------------------------------------------------

  /** Regex `(?<!\d)(\d{1,2}):([0-5]\d)(?::([0-5]\d))?` at `i`, read as `h*60+m` or `h*3600+m*60+s`. */
  function ColonAt(t: string, i: nat): Option<int>
  {
    if i < |t| && IsDigit(t[i]) && (i == 0 || !IsDigit(t[i - 1])) then
      var e := ShortRunEnd(t, i);
      if e + 2 < |t| && t[e] == ':' && '0' <= t[e + 1] <= '5' && IsDigit(t[e + 2]) then
        var h := ValueAt(t, i, e);
        var m := ValueAt(t, e + 1, e + 3);
        if e + 5 < |t| && t[e + 3] == ':' && '0' <= t[e + 4] <= '5' && IsDigit(t[e + 5])
        then Some(h * 3600 + m * 60 + ValueAt(t, e + 4, e + 6))
        else Some(h * 60 + m)
      else None
    else None
  }

  /** End of the optional `(?:ut[ay]?)?` after "min" at `j`. */
  function MinuteSuffixEnd(t: string, j: nat): nat
  {
    if At(t, j, "ut") then
      if j + 2 < |t| && (t[j + 2] == 'a' || t[j + 2] == 'y') then j + 3 else j + 2
    else j
  }

  /** Regex `(\d{1,2})\s*min(?:ut[ay]?)?\s*(\d{1,2})?\s*s?` at `i`, read as `mm*60 + ss`. */
  function WordTimeAt(t: string, i: nat): Option<int>
  {
    if i < |t| && IsDigit(t[i]) then
      var e := ShortRunEnd(t, i);
      var j := SpaceRunEnd(t, e);
      if At(t, j, "min") then
        var k := SpaceRunEnd(t, MinuteSuffixEnd(t, j + 3));
        var ss := if k < |t| && IsDigit(t[k]) then ValueAt(t, k, ShortRunEnd(t, k)) else 0;
        Some(ValueAt(t, i, e) * 60 + ss)
      else None
    else None
  }

  /** The optional `[.,]\d+` at `e`, with "min" after the fraction digits and spaces. */
  predicate DecimalFollows(t: string, e: nat)
    requires e <= |t|
  {
    e + 1 < |t| && (t[e] == '.' || t[e] == ',') && IsDigit(t[e + 1])
    && At(t, SpaceRunEnd(t, DigitRunEnd(t, e + 1)), "min")
  }

  /** Regex `(\d{1,2}(?:[.,]\d+)?)\s*min` at `i`: the captured number as an exact value. */
  function DecimalMinutesAt(t: string, i: nat): Option<real>
  {
    if i < |t| && IsDigit(t[i]) then
      var e := ShortRunEnd(t, i);
      if DecimalFollows(t, e) then
        var f := DigitRunEnd(t, e + 1);
        Some(ValueAt(t, i, e) as real + ValueAt(t, e + 1, f) as real / Pow10(f - e - 1) as real)
      else if At(t, SpaceRunEnd(t, e), "min") then Some(ValueAt(t, i, e) as real)
      else None
    else None
  }

  /** The time before the range check: colon form, then word form, then seconds, then decimal minutes. */
  function RawTime(t: string): Option<int>
  {
    var colon := Search(t, ColonAt);
    if colon.Some? then colon
    else
      var words := Search(t, WordTimeAt);
      if words.Some? then words
      else
        var secs := Search(t, TimeParsing.SecondsAt);
        if secs.Some? then Some(secs.value)
        else
          var dec := Search(t, DecimalMinutesAt);
          if dec.Some? then Some(Round(dec.value * 60.0)) else None
  }

  /** The sanity check: a time outside 9..60 minutes is dropped. */
  function CheckTime(raw: Option<int>): Option<int>
  {
    if raw.Some? && !TimeInRange(raw.value) then None else raw
  }

  // ---------------------------------------------------------------------
  // The pass
  // ---------------------------------------------------------------------

  /** What `_preparse_quick(text)` returns. */
  function Quick(text: string): Extraction
  {
    var t := Padded(text);
    var age := FirstAgeInRange(t, AgeRules);
    Extraction(QuickGender(text), if age.Some? then Some(age.value) else None, CheckTime(RawTime(t)))
  }

  /**
   * `_preparse_quick`, filling the record field by field as the source does:
   * the gender chain, the loop over the age rules that stops at the first
   * accepted age, the time chain and finally the sanity check on the time.
   */
  method PreparseQuick(text: string) returns (out: Extraction)
    ensures out == Quick(text)
  {
    var t := Padded(text);
    out := NoFields;
    out := out.(gender := QuickGender(text));

    var k := 0;
    while k < |AgeRules|
      invariant 0 <= k <= |AgeRules|
      invariant out == Extraction(QuickGender(text), None, None)
      invariant FirstAgeInRange(t, AgeRules) == FirstAgeInRange(t, AgeRules[k..])
    {
      var m := Search(t, AgeRules[k]);
      if m.Some? {
        var age := m.value;
        if 15 <= age <= 90 {
          out := out.(age := Some(age));
          break;
        }
      }
      k := k + 1;
    }

    out := out.(time5k := RawTime(t));
    if out.time5k.Some? {
      if !(9 * 60 <= out.time5k.value <= 60 * 60) {
        out := out.(time5k := None);
      }
    }
  }

  // ---------------------------------------------------------------------
  // Properties
  // ---------------------------------------------------------------------

  /** Every field the quick pass fills lies in its accepted range. */
  lemma QuickInRange(text: string)
    ensures InRange(Quick(text))
  {
    FirstAgeInRangeSpec(Padded(text), AgeRules);
  }

  /**
   * The age rules are tried in order: the first rule whose first match is an
   * accepted age decides, an out-of-range first match moves on to the next
   * rule, and no accepted first match leaves the age empty.
   */
  lemma QuickAgeOrder(text: string)
    ensures var t := Padded(text);
      var letni, after, before := Search(t, LetniAt), Search(t, LatAfterAt), Search(t, LatBeforeAt);
      Quick(text).age == (
        if Accepted(letni) then Some(letni.value)
        else if Accepted(after) then Some(after.value)
        else if Accepted(before) then Some(before.value)
        else None)
  {
    var t := Padded(text);
    var r1, r2 := AgeRules[1..], AgeRules[2..];
    assert r1 == [LatAfterAt, LatBeforeAt] && r1[1..] == r2;
    assert r2 == [LatBeforeAt] && r2[1..] == [];
    assert FirstAgeInRange(t, r2) == if Accepted(Search(t, LatBeforeAt)) then Search(t, LatBeforeAt) else None;
    assert FirstAgeInRange(t, r1) ==
      if Accepted(Search(t, LatAfterAt)) then Search(t, LatAfterAt) else FirstAgeInRange(t, r2);
  }

  /**
   * Gender: a male rule wins over a female one, and the one-letter rule
   * applies only when no word rule matched, with M before K.  Female is
   * chosen exactly when no male rule applies and a female one does.
   */
  lemma QuickGenderOrder(text: string)
    ensures var t := Padded(text);
      && (MaleRule(t) ==> QuickGender(text) == Some(Male))
      && (QuickGender(text) == Some(Female) <==>
            !MaleRule(t) && (FemaleRule(t) || (!Occurs(text, MLetterAt) && Occurs(text, KLetterAt))))
      && (QuickGender(text).None? <==>
            !MaleRule(t) && !FemaleRule(t) && !Occurs(text, MLetterAt) && !Occurs(text, KLetterAt))
  {
  }

  /** The one-letter rule needs a word boundary after the letter, so "mam" is not an M. */
  lemma LetterNeedsBoundary(s: string, i: nat)
    requires i + 1 < |s| && IsWordChar(s[i + 1])
    ensures !MLetterAt(s, i) && !KLetterAt(s, i)
  {
  }

  /** Inside a run of digits, every start position reaches the same end. */
  lemma DigitRunFrom(t: string, i: nat, q: nat)
    requires i <= |t| && i <= q <= DigitRunEnd(t, i)
    ensures DigitRunEnd(t, q) == DigitRunEnd(t, i)
  {
  }

  /** Every decimal-minutes match has a word-form match somewhere in the text. */
  lemma DecimalHasWordMatch(t: string, i: nat) returns (q: nat)
    requires DecimalMinutesAt(t, i).Some?
    ensures q < |t| && WordTimeAt(t, q).Some?
  {
    DecimalShape(t, i);
    var e := ShortRunEnd(t, i);
    if DecimalFollows(t, e) {
      q := LastDigitsStart(t, e + 1);
      WordMatchAt(t, q);
    } else {
      q := i;
      WordMatchAt(t, i);
    }
  }

  /** A decimal-minutes match starts with digits and has "min" after the fraction or after the digits. */
  lemma DecimalShape(t: string, i: nat)
    requires DecimalMinutesAt(t, i).Some?
    ensures i < |t| && IsDigit(t[i])
    ensures DecimalFollows(t, ShortRunEnd(t, i)) || At(t, SpaceRunEnd(t, ShortRunEnd(t, i)), "min")
  {
  }

  /** A one- or two-digit run followed by "min" is a word-form match. */
  lemma WordMatchAt(t: string, i: nat)
    requires i < |t| && IsDigit(t[i]) && At(t, SpaceRunEnd(t, ShortRunEnd(t, i)), "min")
    ensures WordTimeAt(t, i).Some?
  {
  }

  /** The last one or two digits of the run at `d`, which `\d{1,2}` reads to the run's end. */
  lemma LastDigitsStart(t: string, d: nat) returns (q: nat)
    requires d < |t| && IsDigit(t[d])
    ensures d <= q < |t| && IsDigit(t[q]) && ShortRunEnd(t, q) == DigitRunEnd(t, d)
  {
    var f := DigitRunEnd(t, d);
    q := if f - d >= 2 then f - 2 else f - 1;
    DigitRunFrom(t, d, q);
  }

  /**
   * The decimal-minutes rule never decides: whenever it is reached (no word-form
   * match), it finds nothing either, so "24.5 min" is read by the word-form rule
   * as 5 minutes and then dropped by the sanity check.
   */
  lemma DecimalRuleUnreachable(t: string)
    requires Search(t, WordTimeAt).None?
    ensures Search(t, DecimalMinutesAt).None?
  {
    SearchFromSound(t, 0, DecimalMinutesAt);
    SearchFromSound(t, 0, WordTimeAt);
    if Search(t, DecimalMinutesAt).Some? {
      var p :| 0 <= p < |t| && DecimalMinutesAt(t, p) == Search(t, DecimalMinutesAt);
      var q := DecimalHasWordMatch(t, p);
    }
  }

  /**
   * The time comes from the first of the colon, word-form and seconds rules that
   * matches, checked against 9..60 minutes; nothing else can supply it.
   */
  lemma QuickTimeOrder(text: string)
    ensures var t := Padded(text);
      var colon, words, secs := Search(t, ColonAt), Search(t, WordTimeAt), Search(t, TimeParsing.SecondsAt);
      Quick(text).time5k == CheckTime(
        if colon.Some? then colon
        else if words.Some? then words
        else if secs.Some? then Some(secs.value)
        else None)
  {
    var t := Padded(text);
    if Search(t, ColonAt).None? && Search(t, WordTimeAt).None? {
      DecimalRuleUnreachable(t);
    }
  }

  // ---------------------------------------------------------------------
  // A worked example: "M 30 lat, 5km 24:30"
  // ---------------------------------------------------------------------

  /** A literal found at `i` puts each of its characters in the text. */
  lemma AtHas(s: string, i: nat, lit: string, k: nat)
    requires At(s, i, lit) && k < |lit|
    ensures lit[k] in s
  {
    assert s[i + k] == s[i..i + |lit|][k];
  }

  /** The example after padding and lower-casing, " m 30 lat, 5km 24:30 ", character by character. */
  predicate ExampleText(t: string)
  {
    && |t| == 21
    && t[0] == ' ' && t[1] == 'm' && t[2] == ' ' && t[3] == '3' && t[4] == '0' && t[5] == ' '
    && t[6] == 'l' && t[7] == 'a' && t[8] == 't' && t[9] == ',' && t[10] == ' '
    && t[11] == '5' && t[12] == 'k' && t[13] == 'm' && t[14] == ' '
    && t[15] == '2' && t[16] == '4' && t[17] == ':' && t[18] == '3' && t[19] == '0' && t[20] == ' '
  }

  /** The example as typed, "M 30 lat, 5km 24:30", character by character. */
  predicate ExampleInput(text: string)
  {
    && |text| == 19
    && text[0] == 'M' && text[1] == ' ' && text[2] == '3' && text[3] == '0' && text[4] == ' '
    && text[5] == 'l' && text[6] == 'a' && text[7] == 't' && text[8] == ',' && text[9] == ' '
    && text[10] == '5' && text[11] == 'k' && text[12] == 'm' && text[13] == ' '
    && text[14] == '2' && text[15] == '4' && text[16] == ':' && text[17] == '3' && text[18] == '0'
  }

  lemma ExampleInputChars(text: string)
    requires text == "M 30 lat, 5km 24:30"
    ensures ExampleInput(text)
  {
  }

  /** Padding and lower-casing the example gives the text the rules scan. */
  lemma ExamplePadded(text: string)
    requires ExampleInput(text)
    ensures ExampleText(Padded(text))
  {
    var l := Lower(text);
    assert l[0] == 'm' by { assert LowerChar(text[0]) == LowerChar('M') == 'm'; }
    forall k | 1 <= k < 19
      ensures l[k] == text[k]
    {
      assert !('A' <= text[k] <= 'Z') && text[k] < '\U{C0}' by {
        assert k in {1, 2, 3, 4, 5, 6, 7, 8, 9, 10, 11, 12, 13, 14, 15, 16, 17, 18};
      }
    }
    var t := Padded(text);
    assert forall k :: 1 <= k < 20 ==> t[k] == l[k - 1];
  }

  /** Without the letters 'p', 'ę', 'f', 'c' and 'e' no male rule can match. */
  lemma NoMaleRule(t: string)
    requires 'p' !in t && 'ę' !in t && 'f' !in t && 'c' !in t && 'e' !in t
    ensures !MaleRule(t)
  {
    forall i: nat | i < |t|
      ensures !MalePlecAt(t, i) && !MaleWordAt(t, i)
    {
      if At(t, i, "płe") { AtHas(t, i, "płe", 0); }
      if At(t, i, "mężczyzn") { AtHas(t, i, "mężczyzn", 1); }
      if At(t, i, "męsk") { AtHas(t, i, "męsk", 1); }
      if At(t, i, "facet") { AtHas(t, i, "facet", 0); }
      if At(t, i, "chłopak") { AtHas(t, i, "chłopak", 0); }
      if At(t, i, "pan") { AtHas(t, i, "pan", 0); }
      if At(t, i, "male") { AtHas(t, i, "male", 3); }
    }
  }

  /** Without the letters 'p', 'o', 'ż', 'd' and 'f' no female rule can match. */
  lemma NoFemaleRule(t: string)
    requires 'p' !in t && 'o' !in t && 'ż' !in t && 'd' !in t && 'f' !in t
    ensures !FemaleRule(t)
  {
    forall i: nat | i < |t|
      ensures !FemalePlecAt(t, i) && !FemaleWordAt(t, i)
    {
      if At(t, i, "płe") { AtHas(t, i, "płe", 0); }
      if At(t, i, "kobiet") { AtHas(t, i, "kobiet", 1); }
      if At(t, i, "żeńsk") { AtHas(t, i, "żeńsk", 0); }
      if At(t, i, "dziewczyn") { AtHas(t, i, "dziewczyn", 0); }
      if At(t, i, "pani") { AtHas(t, i, "pani", 0); }
      if At(t, i, "female") { AtHas(t, i, "female", 0); }
    }
  }

  /** Without a '-' the "-letni" rule never matches. */
  lemma NoLetni(t: string)
    requires '-' !in t
    ensures Search(t, LetniAt).None?
  {
    forall q | 0 <= q < |t|
      ensures LetniAt(t, q).None?
    {
    }
    SearchFindsNothing(t, LetniAt);
  }

  /** Letters the example text does not contain. */
  lemma ExampleLacks(t: string)
    requires ExampleText(t)
    ensures 'p' !in t && 'ę' !in t && 'f' !in t && 'c' !in t && 'e' !in t
    ensures 'o' !in t && 'ż' !in t && 'd' !in t && '-' !in t
  {
    forall k | 0 <= k < |t|
      ensures t[k] !in "pęfceożd-"
    {
      assert k in {0, 1, 2, 3, 4, 5, 6, 7, 8, 9, 10, 11, 12, 13, 14, 15, 16, 17, 18, 19, 20};
    }
  }

  /** The example's gender: no word rule, then the standalone capital M. */
  lemma ExampleGender(text: string)
    requires text == "M 30 lat, 5km 24:30"
    ensures QuickGender(text) == Some(Male)
  {
    ExampleInputChars(text);
    ExamplePadded(text);
    var t := Padded(text);
    ExampleLacks(t);
    NoMaleRule(t);
    NoFemaleRule(t);
    assert MLetterAt(text, 0);
  }

  /** "30 lat" matches the second age rule at position 3. */
  lemma ExampleAgeMatch(t: string)
    requires ExampleText(t)
    ensures LatAfterAt(t, 3) == Some(30)
  {
    assert ShortRunEnd(t, 3) == 5 by { assert IsDigit(t[3]) && IsDigit(t[4]); }
    assert SpaceRunEnd(t, 5) == 6 by { assert IsSpace(t[5]) && !IsSpace(t[6]); }
    assert t[3..5] == "30" && t[6..9] == "lat";
    TimeParsing.ExampleDigits();
    assert At(t, 6, "lat") && Boundary(t, 9);
  }

  /** The example's age: no "-letni", and "30 lat" is the first match of the second rule. */
  lemma ExampleAge(t: string)
    requires ExampleText(t)
    ensures FirstAgeInRange(t, AgeRules) == Some(30)
  {
    ExampleLacks(t);
    NoLetni(t);
    ExampleAgeMatch(t);
    forall q | 0 <= q < 3
      ensures LatAfterAt(t, q).None?
    {
      assert !IsDigit(t[q]) by { assert q in {0, 1, 2}; }
    }
    SearchFindsFirst(t, LatAfterAt, 3);
    assert AgeRules[0] == LetniAt && AgeRules[1] == LatAfterAt;
  }

  /** "24:30" matches the colon rule at position 15 and reads as 24 minutes 30 seconds. */
  lemma ExampleColonMatch(t: string)
    requires ExampleText(t)
    ensures ColonAt(t, 15) == Some(1470)
  {
    assert ShortRunEnd(t, 15) == 17 by { assert IsDigit(t[15]) && IsDigit(t[16]); }
    assert t[15..17] == "24" && t[18..20] == "30";
    TimeParsing.ExampleDigits();
    assert ValueAt(t, 15, 17) == 24 && ValueAt(t, 18, 20) == 30;
  }

  /** No colon time starts before position 15. */
  lemma ExampleNoEarlyColon(t: string)
    requires ExampleText(t)
    ensures forall q :: 0 <= q < 15 ==> ColonAt(t, q).None?
  {
    assert ShortRunEnd(t, 3) == 5 by { assert IsDigit(t[3]) && IsDigit(t[4]); }
    assert ShortRunEnd(t, 11) == 12 by { assert IsDigit(t[11]) && !IsDigit(t[12]); }
    forall q | 0 <= q < 15
      ensures ColonAt(t, q).None?
    {
      assert q in {0, 1, 2, 3, 4, 5, 6, 7, 8, 9, 10, 11, 12, 13, 14};
    }
  }

  /** The example's time: "24:30" is the first colon match. */
  lemma ExampleTime(t: string)
    requires ExampleText(t)
    ensures Search(t, ColonAt) == Some(1470)
  {
    ExampleColonMatch(t);
    ExampleNoEarlyColon(t);
    SearchFindsFirst(t, ColonAt, 15);
  }

  /** "M 30 lat, 5km 24:30" gives a man of 30 with a 24:30 5 km. */
  lemma QuickExample(text: string)
    requires text == "M 30 lat, 5km 24:30"
    ensures Quick(text) == Extraction(Some(Male), Some(30), Some(1470))
  {
    ExampleInputChars(text);
    ExamplePadded(text);
    ExampleGender(text);
    ExampleAge(Padded(text));
    ExampleTime(Padded(text));
  }
}
