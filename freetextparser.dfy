/**
 * The alternate rule-based parser (`utils/input_parser.py`): the text is
 * lower-cased and stripped of Polish diacritics, then gender, age and the
 * 5 km time are looked for separately, and `parse_free_text` sorts the
 * three fields into found values and hints for the missing ones.
 */
module FreeTextParser {
  import opened Base
  import opened Text
  import opened PyValues
  import TimeParsing

  // ---------------------------------------------------------------------
  // _norm
  // ---------------------------------------------------------------------

  /** `_norm`: `lower()`, then the nine one-letter replacements in the source's order. */
  function Norm(s: string): string
  {
    var t := Lower(s);
    var t := ReplaceAll(ReplaceAll(ReplaceAll(t, "ą", "a"), "ć", "c"), "ę", "e");
    var t := ReplaceAll(ReplaceAll(ReplaceAll(t, "ł", "l"), "ń", "n"), "ó", "o");
    ReplaceAll(ReplaceAll(ReplaceAll(t, "ś", "s"), "ż", "z"), "ź", "z")
  }

  /** The plain letter a lower-case Polish letter becomes. */
  function PlainChar(c: char): char
  {
    match c
    case 'ą' => 'a'
    case 'ć' => 'c'
    case 'ę' => 'e'
    case 'ł' => 'l'
    case 'ń' => 'n'
    case 'ó' => 'o'
    case 'ś' => 's'
    case 'ż' => 'z'
    case 'ź' => 'z'
    case _ => c
  }

  /** The text after three successive one-letter replacements, character by character. */
  lemma {:induction false} ThreeReplacements(s: string, a1: char, b1: char, a2: char, b2: char, a3: char, b3: char)
    ensures var r := ReplaceAll(ReplaceAll(ReplaceAll(s, [a1], [b1]), [a2], [b2]), [a3], [b3]);
      && |r| == |s|
      && forall k :: 0 <= k < |s| ==>
           var c1 := if s[k] == a1 then b1 else s[k];
           var c2 := if c1 == a2 then b2 else c1;
           r[k] == if c2 == a3 then b3 else c2
  {
    var r1 := ReplaceAll(s, [a1], [b1]);
    ReplaceOneChar(s, a1, b1);
    var r2 := ReplaceAll(r1, [a2], [b2]);
    ReplaceOneChar(r1, a2, b2);
    ReplaceOneChar(r2, a3, b3);
  }

  /**
   * `_norm` works letter by letter: each character is lower-cased and a
   * Polish letter replaced by its plain one, so the length is kept.
   */
  lemma NormChars(s: string)
    ensures |Norm(s)| == |s|
    ensures forall k :: 0 <= k < |s| ==> Norm(s)[k] == PlainChar(LowerChar(s[k]))
  {
    var t0 := Lower(s);
    ThreeReplacements(t0, 'ą', 'a', 'ć', 'c', 'ę', 'e');
    var t1 := ReplaceAll(ReplaceAll(ReplaceAll(t0, "ą", "a"), "ć", "c"), "ę", "e");
    ThreeReplacements(t1, 'ł', 'l', 'ń', 'n', 'ó', 'o');
    var t2 := ReplaceAll(ReplaceAll(ReplaceAll(t1, "ł", "l"), "ń", "n"), "ó", "o");
    ThreeReplacements(t2, 'ś', 's', 'ż', 'z', 'ź', 'z');
  }

  /** One character of `_norm`'s result. */
  lemma NormCharAt(s: string, k: nat)
    requires k < |s|
    ensures |Norm(s)| == |s| && Norm(s)[k] == PlainChar(LowerChar(s[k]))
  {
    NormChars(s);
  }

  /** No Polish diacritic letter is left after `_norm`. */
  lemma NormPlain(s: string)
    ensures forall k :: 0 <= k < |Norm(s)| ==> Norm(s)[k] !in "ąćęłńóśżź"
  {
    NormChars(s);
  }

  /** `_norm` of a prefix is the prefix of `_norm`. */
  lemma NormPrefix(s: string, j: nat)
    requires j <= |s|
    ensures |Norm(s)| == |s|
    ensures Norm(s[..j]) == Norm(s)[..j]
  {
    NormChars(s);
    NormChars(s[..j]);
  }

  // ---------------------------------------------------------------------
  // _parse_gender
  // ---------------------------------------------------------------------

  /** `_GENDER_SYNONYMS`. */
  const GenderSynonyms: map<string, Gender> := map[
    "m" := Male, "m." := Male, "mezczyzna" := Male, "mężczyzna" := Male,
    "facet" := Male, "chłopak" := Male, "chlopak" := Male,
    "male" := Male, "man" := Male,
    "k" := Female, "k." := Female, "kobieta" := Female,
    "female" := Female, "woman" := Female]

  /** Regex `\b(m|m\.|mezczyzna|chlopak|facet|male|man)\b` at `i`. */
  predicate MaleTokenAt(t: string, i: nat)
  {
    || WholeWordAt(t, i, "m") || WholeWordAt(t, i, "m.") || WholeWordAt(t, i, "mezczyzna")
    || WholeWordAt(t, i, "chlopak") || WholeWordAt(t, i, "facet") || WholeWordAt(t, i, "male")
    || WholeWordAt(t, i, "man")
  }

  /** Regex `\b(k|k\.|kobieta|female|woman)\b` at `i`. */
  predicate FemaleTokenAt(t: string, i: nat)
  {
    || WholeWordAt(t, i, "k") || WholeWordAt(t, i, "k.") || WholeWordAt(t, i, "kobieta")
    || WholeWordAt(t, i, "female") || WholeWordAt(t, i, "woman")
  }

  /** `_norm(text.split(",", 1)[0]).strip()`: the normalised text before the first comma. */
  function Head(text: string): string
  {
    Strip(Norm(text[..IndexOf(text, ',')]))
  }

  /** `_parse_gender`: the male tokens, then the female ones, then the head of the text in the synonym table. */
  function ParseGender(text: string): Option<Gender>
  {
    var t := Norm(text);
    if Occurs(t, MaleTokenAt) then Some(Male)
    else if Occurs(t, FemaleTokenAt) then Some(Female)
    else
      var head := Head(text);
      if head in GenderSynonyms then Some(GenderSynonyms[head]) else None
  }

  /** Whitespace is never part of a word. */
  lemma SpaceNotWord(c: char)
    requires IsSpace(c)
    ensures !IsWordChar(c)
  {
  }

  /** A word with non-word characters (or the ends of the text) on both sides stands alone. */
  lemma WordAlone(t: string, a: nat, w: string)
    requires At(t, a, w) && w != [] && IsWordChar(w[0]) && IsWordChar(w[|w| - 1])
    requires a > 0 ==> !IsWordChar(t[a - 1])
    requires a + |w| < |t| ==> !IsWordChar(t[a + |w|])
    ensures WholeWordAt(t, a, w)
  {
    assert t[a] == w[0];
    assert t[a + |w| - 1] == w[|w| - 1];
  }

  /**
   * `strip` of a prefix ending before a non-word character leaves a part of
   * the text with non-word characters (or the ends of the text) around it.
   */
  lemma StrippedPrefix(t: string, j: nat) returns (a: nat, b: nat)
    requires j <= |t|
    requires j < |t| ==> !IsWordChar(t[j])
    ensures a <= b <= j && Strip(t[..j]) == t[a..b]
    ensures a > 0 ==> !IsWordChar(t[a - 1])
    ensures b < |t| ==> !IsWordChar(t[b])
  {
    var n := t[..j];
    a, b := StripBounds(n);
    assert n[a..b] == t[a..b];
    if a > 0 {
      assert IsSpace(n[a - 1]);
      SpaceNotWord(t[a - 1]);
    }
    if b < j {
      assert IsSpace(n[b]);
      SpaceNotWord(t[b]);
    }
  }

  /** The head is the stripped prefix of the normalised text before its first comma. */
  lemma HeadOfNorm(text: string) returns (j: nat)
    ensures j <= |Norm(text)| && Head(text) == Strip(Norm(text)[..j])
    ensures j < |Norm(text)| ==> Norm(text)[j] == ','
  {
    j := IndexOf(text, ',');
    NormPrefix(text, j);
    if j < |text| {
      NormKeepsComma(text, j);
    }
  }

  /** `_norm` leaves a comma where it was. */
  lemma NormKeepsComma(text: string, j: nat)
    requires j < |text| && text[j] == ','
    ensures |Norm(text)| == |text| && Norm(text)[j] == ','
  {
    NormCharAt(text, j);
    assert LowerChar(',') == ',';
  }

  /**
   * The head sits in the normalised text between non-word characters:
   * whitespace removed by `strip`, the comma, or the ends of the text.
   */
  lemma HeadPlace(text: string) returns (a: nat, b: nat)
    ensures var t := Norm(text);
      && a <= b <= |t| && Head(text) == t[a..b]
      && (a > 0 ==> !IsWordChar(t[a - 1]))
      && (b < |t| ==> !IsWordChar(t[b]))
  {
    var j := HeadOfNorm(text);
    a, b := StrippedPrefix(Norm(text), j);
  }

  /**
   * A table word standing between non-word characters in a text without
   * Polish letters is a male or a female token there.
   */
  lemma TableWordIsToken(t: string, a: nat, b: nat)
    requires a <= b <= |t| && t[a..b] in GenderSynonyms
    requires a > 0 ==> !IsWordChar(t[a - 1])
    requires b < |t| ==> !IsWordChar(t[b])
    requires forall k :: 0 <= k < |t| ==> t[k] !in "ąćęłńóśżź"
    ensures Occurs(t, MaleTokenAt) || Occurs(t, FemaleTokenAt)
  {
    var w := t[a..b];
    forall i | 0 <= i < |w|
      ensures w[i] !in "ąćęłńóśżź"
    {
      assert w[i] == t[a + i];
    }
    PlainSynonym(w);
    assert At(t, a, w);
    if w == "m." || w == "k." {
      DottedToken(t, a, w);
    } else if w in {"m", "mezczyzna", "chlopak", "facet", "male", "man"} {
      MaleWordToken(t, a, w);
    } else {
      FemaleWordToken(t, a, w);
    }
  }

  /** Without Polish letters a table word is one of the plain spellings. */
  lemma PlainSynonym(w: string)
    requires w in GenderSynonyms && forall i :: 0 <= i < |w| ==> w[i] !in "ąćęłńóśżź"
    ensures w in {"m", "m.", "mezczyzna", "chlopak", "facet", "male", "man", "k", "k.", "kobieta", "female", "woman"}
  {
    assert "mężczyzna"[1] in "ąćęłńóśżź" && "chłopak"[2] in "ąćęłńóśżź";
  }

  /** "m." and "k." hold the one-letter tokens followed by a non-word dot. */
  lemma DottedToken(t: string, a: nat, w: string)
    requires (w == "m." || w == "k.") && At(t, a, w)
    requires a > 0 ==> !IsWordChar(t[a - 1])
    ensures w == "m." ==> MaleTokenAt(t, a)
    ensures w == "k." ==> FemaleTokenAt(t, a)
  {
    var letter := w[..1];
    assert t[a..a + 1] == letter && t[a + 1] == '.';
    WordAlone(t, a, letter);
  }

  lemma MaleWordToken(t: string, a: nat, w: string)
    requires w in {"m", "mezczyzna", "chlopak", "facet", "male", "man"} && At(t, a, w)
    requires a > 0 ==> !IsWordChar(t[a - 1])
    requires a + |w| < |t| ==> !IsWordChar(t[a + |w|])
    ensures MaleTokenAt(t, a)
  {
    assert IsWordChar(w[0]) && IsWordChar(w[|w| - 1]);
    WordAlone(t, a, w);
  }

  lemma FemaleWordToken(t: string, a: nat, w: string)
    requires w in {"k", "kobieta", "female", "woman"} && At(t, a, w)
    requires a > 0 ==> !IsWordChar(t[a - 1])
    requires a + |w| < |t| ==> !IsWordChar(t[a + |w|])
    ensures FemaleTokenAt(t, a)
  {
    assert IsWordChar(w[0]) && IsWordChar(w[|w| - 1]);
    WordAlone(t, a, w);
  }

  /** A head found in the table is itself a male or a female token of the text. */
  lemma HeadIsToken(text: string)
    requires Head(text) in GenderSynonyms
    ensures Occurs(Norm(text), MaleTokenAt) || Occurs(Norm(text), FemaleTokenAt)
  {
    var a, b := HeadPlace(text);
    NormPlain(text);
    TableWordIsToken(Norm(text), a, b);
  }

  /**
   * The table lookup never decides: whenever both token searches fail, the
   * head is not in the table, so the gender is the male tokens first, then
   * the female ones, and otherwise none.
   */
  lemma GenderTokensDecide(text: string)
    ensures var t := Norm(text);
      ParseGender(text) ==
        if Occurs(t, MaleTokenAt) then Some(Male)
        else if Occurs(t, FemaleTokenAt) then Some(Female)
        else None
  {
    if Head(text) in GenderSynonyms {
      HeadIsToken(text);
    }
  }

  // ---------------------------------------------------------------------
  // _parse_age
  // ---------------------------------------------------------------------

  /** Regex `\b(\d{1,2})\s*(lat|l)\b` at `i`: the captured number. */
  function LatAt(t: string, i: nat): Option<nat>
  {
    if i < |t| && IsDigit(t[i]) && Boundary(t, i) then
      var e := ShortRunEnd(t, i);
      var j := SpaceRunEnd(t, e);
      if (At(t, j, "lat") && Boundary(t, j + 3)) || (At(t, j, "l") && Boundary(t, j + 1))
      then Some(ValueAt(t, i, e)) else None
    else None
  }

  /** Length of the keyword of `(wiek|age|mam)` at `i`, or 0 when none starts there. */
  function KeywordLength(t: string, i: nat): (n: nat)
    ensures n == 0 || i + n <= |t|
  {
    if At(t, i, "wiek") then 4
    else if At(t, i, "age") || At(t, i, "mam") then 3
    else 0
  }

  /** Where the number starts after a keyword ending at `j`: past `\s*[:=]?\s*`. */
  function AfterSeparator(t: string, j: nat): (k: nat)
    requires j <= |t|
    ensures j <= k <= |t|
  {
    var j1 := SpaceRunEnd(t, j);
    var j2 := if j1 < |t| && (t[j1] == ':' || t[j1] == '=') then j1 + 1 else j1;
    SpaceRunEnd(t, j2)
  }

  /** Regex `\b(wiek|age|mam)\s*[:=]?\s*(\d{1,2})\b` at `i`: the captured number. */
  function WiekAt(t: string, i: nat): Option<nat>
  {
    var n := KeywordLength(t, i);
    if n > 0 && Boundary(t, i) then
      var k := AfterSeparator(t, i + n);
      if k < |t| && IsDigit(t[k]) then
        var e := ShortRunEnd(t, k);
        if Boundary(t, e) then Some(ValueAt(t, k, e)) else None
      else None
    else None
  }

  /** Regex `\b(\d{1,2})\b` at `i`: a number of one or two digits standing alone. */
  function NumberAt(t: string, i: nat): Option<nat>
  {
    if i < |t| && IsDigit(t[i]) && Boundary(t, i) then
      var e := ShortRunEnd(t, i);
      if Boundary(t, e) then Some(ValueAt(t, i, e)) else None
    else None
  }

  /** The three age patterns, in the order they are tried. */
  const ParserAgeRules: seq<(string, nat) -> Option<nat>> := [LatAt, WiekAt, NumberAt]

  /** What `_parse_age(text)` returns. */
  function AgeOf(text: string): Option<int>
  {
    var age := FirstAgeInRange(Norm(text), ParserAgeRules);
    if age.Some? then Some(age.value) else None
  }

  /**
   * `_parse_age`: the loop over the patterns, looking at the first match of
   * each and returning it as soon as it is an age in 15..90. The captured
   * group is always made of digits, so the list of digit groups is never
   * empty.
   */
  method ParseAge(text: string) returns (age: Option<int>)
    ensures age == AgeOf(text)
  {
    var t := Norm(text);
    var rules := ParserAgeRules;
    for k := 0 to |rules|
      invariant FirstAgeInRange(t, rules) == FirstAgeInRange(t, rules[k..])
    {
      assert rules[k..][0] == rules[k] && rules[k..][1..] == rules[k + 1..];
      var m := Search(t, rules[k]);
      if m.Some? {
        var a := m.value;
        if 15 <= a <= 90 {
          return Some(a);
        }
      }
    }
    assert rules[|rules|..] == [];
    return None;
  }

  /** Every age the parser returns lies in 15..90. */
  lemma AgeInBounds(text: string)
    ensures AgeOf(text).Some? ==> AgeInRange(AgeOf(text).value)
  {
    FirstAgeInRangeSpec(Norm(text), ParserAgeRules);
  }

  /**
   * The patterns are tried in order: the first whose first match is an age in
   * 15..90 decides, an out-of-range first match moves on to the next pattern,
   * and no accepted first match gives no age.
   */
  lemma AgeOrder(text: string)
    ensures var t := Norm(text);
      var lat, wiek, number := Search(t, LatAt), Search(t, WiekAt), Search(t, NumberAt);
      AgeOf(text) == (
        if Accepted(lat) then Some(lat.value)
        else if Accepted(wiek) then Some(wiek.value)
        else if Accepted(number) then Some(number.value)
        else None)
  {
    var t := Norm(text);
    var r1, r2 := ParserAgeRules[1..], ParserAgeRules[2..];
    assert r1 == [WiekAt, NumberAt] && r1[1..] == r2;
    assert r2 == [NumberAt] && r2[1..] == [];
    assert FirstAgeInRange(t, r2) == if Accepted(Search(t, NumberAt)) then Search(t, NumberAt) else None;
    assert FirstAgeInRange(t, r1) ==
      if Accepted(Search(t, WiekAt)) then Search(t, WiekAt) else FirstAgeInRange(t, r2);
  }

  /** `s` holds the one- or two-digit number `v` somewhere. */
  predicate ShortNumberIn(s: string, v: nat)
  {
    exists k: nat, e: nat :: k < e <= |s| && e <= k + 2 && AllDigits(s[k..e]) && Value(s[k..e]) == v
  }

  /** A run of one or two digits is a number held by the text. */
  lemma RunIsNumber(t: string, k: nat, e: nat)
    requires k < e <= |t| && e <= k + 2
    requires forall q :: k <= q < e ==> IsDigit(t[q])
    ensures ShortNumberIn(t, ValueAt(t, k, e))
  {
    assert AllDigits(t[k..e]) && Value(t[k..e]) == ValueAt(t, k, e);
  }

  /** Every pattern captures a one- or two-digit run of the text. */
  lemma RuleReadsDigits(t: string, i: nat, v: nat)
    requires LatAt(t, i) == Some(v) || WiekAt(t, i) == Some(v) || NumberAt(t, i) == Some(v)
    ensures ShortNumberIn(t, v)
  {
    if LatAt(t, i) == Some(v) || NumberAt(t, i) == Some(v) {
      RunIsNumber(t, i, ShortRunEnd(t, i));
    } else {
      WiekReadsDigits(t, i, v);
    }
  }

  lemma WiekReadsDigits(t: string, i: nat, v: nat)
    requires WiekAt(t, i) == Some(v)
    ensures ShortNumberIn(t, v)
  {
    var k := AfterSeparator(t, i + KeywordLength(t, i));
    RunIsNumber(t, k, ShortRunEnd(t, k));
  }

  /** `_norm` leaves digits where they are. */
  lemma NormKeepsDigits(s: string, k: nat, e: nat)
    requires k <= e <= |Norm(s)|
    requires AllDigits(Norm(s)[k..e])
    ensures |Norm(s)| == |s| && Norm(s)[k..e] == s[k..e]
  {
    NormChars(s);
    forall q | k <= q < e
      ensures Norm(s)[q] == s[q]
    {
      assert IsDigit(Norm(s)[k..e][q - k]);
    }
  }

  /** A number the normalised text holds is held by the text itself. */
  lemma NormNumber(text: string, v: nat)
    requires ShortNumberIn(Norm(text), v)
    ensures ShortNumberIn(text, v)
  {
    var t := Norm(text);
    var k: nat, e: nat :| k < e <= |t| && e <= k + 2 && AllDigits(t[k..e]) && Value(t[k..e]) == v;
    NormKeepsDigits(text, k, e);
  }

  /** The age the patterns settle on is a one- or two-digit number of the text they search. */
  lemma FoundAgeWritten(t: string)
    ensures var r := FirstAgeInRange(t, ParserAgeRules);
      r.Some? ==> ShortNumberIn(t, r.value)
  {
    FirstAgeInRangeSpec(t, ParserAgeRules);
    var r := FirstAgeInRange(t, ParserAgeRules);
    if r.Some? {
      var q :| 0 <= q < |ParserAgeRules| && Search(t, ParserAgeRules[q]) == r;
      var rule := ParserAgeRules[q];
      SearchFromSound(t, 0, rule);
      var i :| 0 <= i < |t| && rule(t, i) == r;
      RuleReadsDigits(t, i, r.value);
    }
  }

  /** The age is a one- or two-digit number written in the message itself. */
  lemma AgeWrittenInText(text: string)
    ensures AgeOf(text).Some? ==> AgeOf(text).value >= 0 && ShortNumberIn(text, AgeOf(text).value)
  {
    FoundAgeWritten(Norm(text));
    var r := FirstAgeInRange(Norm(text), ParserAgeRules);
    if r.Some? {
      NormNumber(text, r.value);
    }
  }

  // ---------------------------------------------------------------------
  // _time_str_to_seconds and _parse_time_5k
  // ---------------------------------------------------------------------

  /**
   * `_time_str_to_seconds`: split on every `:`; two parts read as minutes and
   * seconds, three as hours, minutes and seconds (`_hms_to_seconds`); a failed
   * `int()` or any other number of parts gives `None`.
   */
  function TimeStrToSeconds(ts: string): Option<int>
  {
    TimeParsing.PartsValue(Split(ts, ':'))
  }

  /** `mm:ss` reads as `mm*60 + ss`, as the extractor's token parser reads it too. */
  lemma TimeStrTwo(mm: string, ss: string)
    requires mm != [] && AllDigits(mm) && ss != [] && AllDigits(ss)
    ensures TimeStrToSeconds(mm + ":" + ss) == Some(TimeParsing.MinSecToSeconds(Value(mm), Value(ss)))
    ensures TimeParsing.ParseTimeToSeconds(mm + ":" + ss) == TimeStrToSeconds(mm + ":" + ss)
  {
    TimeParsing.SplitTwo(mm, ss);
    TimeParsing.PartsTwo(mm, ss);
    TimeParsing.TwoPartToken(mm, ss);
  }

  /** `hh:mm:ss` reads as `hh*3600 + mm*60 + ss`, as the extractor's token parser reads it too. */
  lemma TimeStrThree(hh: string, mm: string, ss: string)
    requires hh != [] && AllDigits(hh) && mm != [] && AllDigits(mm) && ss != [] && AllDigits(ss)
    ensures TimeStrToSeconds(hh + ":" + mm + ":" + ss) == Some(TimeParsing.HmsToSeconds(Value(hh), Value(mm), Value(ss)))
    ensures TimeParsing.ParseTimeToSeconds(hh + ":" + mm + ":" + ss) == TimeStrToSeconds(hh + ":" + mm + ":" + ss)
  {
    TimeParsing.SplitThree(hh, mm, ss);
    TimeParsing.PartsThree(hh, mm, ss);
    TimeParsing.ThreePartToken(hh, mm, ss);
  }

  /** A string without a colon is one part and never a time. */
  lemma TimeStrNeedsColon(ts: string)
    requires ':' !in ts
    ensures TimeStrToSeconds(ts).None?
  {
    TimeParsing.SplitNone(ts, ':');
  }

  /** Two parts of which one holds no digit fail `int()`, so they are never a time. */
  lemma TimeStrNonNumeric(a: string, b: string)
    requires ':' !in a && ':' !in b && (NoDigits(a) || NoDigits(b))
    ensures TimeStrToSeconds(a + ":" + b).None?
  {
    SplitPair(a, b);
    if NoDigits(a) { PyIntNeedsDigit(a); } else { PyIntNeedsDigit(b); }
    TwoPartsFail(a, b);
  }

  /** Three parts of which one holds no digit fail `int()`, so they are never a time. */
  lemma TimeStrNonNumericThree(a: string, b: string, c: string)
    requires ':' !in a && ':' !in b && ':' !in c && (NoDigits(a) || NoDigits(b) || NoDigits(c))
    ensures TimeStrToSeconds(a + ":" + b + ":" + c).None?
  {
    SplitTriple(a, b, c);
    if NoDigits(a) { PyIntNeedsDigit(a); }
    else if NoDigits(b) { PyIntNeedsDigit(b); }
    else { PyIntNeedsDigit(c); }
    ThreePartsFail(a, b, c);
  }

  lemma SplitPair(a: string, b: string)
    requires ':' !in a && ':' !in b
    ensures Split(a + ":" + b, ':') == [a, b]
  {
    assert a + ":" + b == a + [':'] + b;
    TimeParsing.SplitAtFirst(a, b, ':');
    TimeParsing.SplitNone(b, ':');
  }

  lemma SplitTriple(a: string, b: string, c: string)
    requires ':' !in a && ':' !in b && ':' !in c
    ensures Split(a + ":" + b + ":" + c, ':') == [a, b, c]
  {
    var tail := b + [':'] + c;
    assert a + ":" + b + ":" + c == a + [':'] + tail;
    TimeParsing.SplitAtFirst(a, tail, ':');
    SplitPair(b, c);
    assert tail == b + ":" + c;
  }

  lemma TwoPartsFail(a: string, b: string)
    requires PyInt(a).None? || PyInt(b).None?
    ensures TimeParsing.PartsValue([a, b]).None?
  {
  }

  lemma ThreePartsFail(a: string, b: string, c: string)
    requires PyInt(a).None? || PyInt(b).None? || PyInt(c).None?
    ensures TimeParsing.PartsValue([a, b, c]).None?
  {
  }

  /** Four or more colon-separated parts are never a time, whatever the parts hold. */
  lemma TimeStrTooManyParts(a: string, b: string, c: string, rest: string)
    requires ':' !in a && ':' !in b && ':' !in c
    ensures TimeStrToSeconds(a + ":" + b + ":" + c + ":" + rest).None?
  {
    var s := a + ":" + b + ":" + c + ":" + rest;
    var tail := c + [':'] + rest;
    var mid := b + [':'] + tail;
    assert s == a + [':'] + mid;
    TimeParsing.SplitAtFirst(a, mid, ':');
    TimeParsing.SplitAtFirst(b, tail, ':');
    TimeParsing.SplitAtFirst(c, rest, ':');
    assert |Split(s, ':')| >= 4;
    TimeParsing.ManyParts(Split(s, ':'));
  }

  /** Regex `\d{1,2}:\d{2}` at `k`. */
  predicate ClockAt(t: string, k: nat)
  {
    k < |t| && IsDigit(t[k]) &&
    var e := ShortRunEnd(t, k);
    e + 2 < |t| && t[e] == ':' && IsDigit(t[e + 1]) && IsDigit(t[e + 2])
  }

  /** The optional `(?::\d{2})` after the minutes that end at `e + 3`. */
  predicate SecondsFollow(t: string, e: nat)
  {
    e + 5 < |t| && t[e + 3] == ':' && IsDigit(t[e + 4]) && IsDigit(t[e + 5])
  }

  /** Regex `\d{1,2}:\d{2}(?::\d{2})?` at `k`, with the greedy optional part. */
  function ClockSpan(t: string, k: nat): string
    requires ClockAt(t, k)
  {
    var e := ShortRunEnd(t, k);
    if SecondsFollow(t, e) then t[k..e + 6] else t[k..e + 3]
  }

  /** `\D{0,15}` then the clock, from `a`: at most 15 non-digits may come first. */
  function ClockAfter(t: string, a: nat): Option<string>
    requires a <= |t|
  {
    var k := NonDigitRunEnd(t, a);
    if k - a <= 15 && ClockAt(t, k) then Some(ClockSpan(t, k)) else None
  }

  /** The first alternative, `5\s*km`, at `i`, followed by `\D{0,15}` and the clock. */
  function KmAt(t: string, i: nat): Option<string>
  {
    if i < |t| && t[i] == '5' then
      var j := SpaceRunEnd(t, i + 1);
      if At(t, j, "km") then ClockAfter(t, j + 2) else None
    else None
  }

  /** The second alternative, `5k`, at `i`, followed by `\D{0,15}` and the clock. */
  function FiveKAt(t: string, i: nat): Option<string>
  {
    if At(t, i, "5k") then ClockAfter(t, i + 2) else None
  }

  /**
   * Regex `(5\s*km|5k)\D{0,15}(\d{1,2}:\d{2}(?::\d{2})?)` at `i`: the second
   * group, from the first alternative when the rest matches after it, and
   * from the second otherwise.
   */
  function NearFiveKAt(t: string, i: nat): Option<string>
  {
    var km := KmAt(t, i);
    if km.Some? then km else FiveKAt(t, i)
  }

  /**
   * Regex `\b(\d{1,2}:\d{2}(?::\d{2})?)\b` at `k`: the long form when a word
   * boundary follows it, otherwise the short form when one follows that.
   */
  function ClockWordAt(t: string, k: nat): Option<string>
  {
    if ClockAt(t, k) && Boundary(t, k) then
      var e := ShortRunEnd(t, k);
      if SecondsFollow(t, e) && Boundary(t, e + 6) then Some(t[k..e + 6])
      else if Boundary(t, e + 3) then Some(t[k..e + 3])
      else None
    else None
  }

  /** `_parse_time_5k`: a time near "5k"/"5 km" first, then the first standalone time. */
  function ParseTime5k(text: string): Option<int>
  {
    var t := Norm(text);
    var near := Search(t, NearFiveKAt);
    if near.Some? then TimeStrToSeconds(near.value)
    else
      var general := Search(t, ClockWordAt);
      if general.Some? then TimeStrToSeconds(general.value) else None
  }

  /** The largest value a matched time can have: `99:99:99`. */
  const MaxClockSeconds := 99 * 3600 + 99 * 60 + 99

  /** A matched time: its value, read the same by the extractor's token parser. */
  predicate ReadsAsClock(s: string)
  {
    var v := TimeStrToSeconds(s);
    && v.Some? && 0 <= v.value <= MaxClockSeconds
    && TimeParsing.ParseTimeToSeconds(s) == v
  }

  /** Digits of a run read at most 99. */
  lemma ShortValue(d: string)
    requires |d| <= 2 && AllDigits(d)
    ensures Value(d) <= 99
  {
    if |d| == 2 {
      assert d[..1][..0] == [];
    } else if |d| == 1 {
      assert d[..0] == [];
    }
  }

  /** The short clock `t[k..e+3]` reads as a time. */
  lemma ShortSpanReads(t: string, k: nat, e: nat)
    requires ClockAt(t, k) && e == ShortRunEnd(t, k)
    ensures ReadsAsClock(t[k..e + 3])
  {
    var mm, ss := t[k..e], t[e + 1..e + 3];
    ColonJoin(t, k, e, e + 3);
    TwoDigitsAt(t, e + 1);
    assert mm != [] && AllDigits(mm);
    TwoReads(mm, ss);
  }

  /** A slice with a colon at `m` is the part before it, the colon and the part after it. */
  lemma ColonJoin(t: string, k: nat, m: nat, e: nat)
    requires k <= m < e <= |t| && t[m] == ':'
    ensures t[k..e] == t[k..m] + ":" + t[m + 1..e]
  {
  }

  lemma TwoDigitsAt(t: string, i: nat)
    requires i + 2 <= |t| && IsDigit(t[i]) && IsDigit(t[i + 1])
    ensures AllDigits(t[i..i + 2])
  {
  }

  /** The long clock `t[k..e+6]` reads as a time. */
  lemma LongSpanReads(t: string, k: nat, e: nat)
    requires ClockAt(t, k) && e == ShortRunEnd(t, k) && SecondsFollow(t, e)
    ensures ReadsAsClock(t[k..e + 6])
  {
    var hh, mm, ss := t[k..e], t[e + 1..e + 3], t[e + 4..e + 6];
    ColonJoin(t, k, e, e + 3);
    ColonJoin(t, k, e + 3, e + 6);
    TwoDigitsAt(t, e + 1);
    TwoDigitsAt(t, e + 4);
    assert hh != [] && AllDigits(hh);
    ThreeReads(hh, mm, ss);
  }

  lemma ThreeReads(hh: string, mm: string, ss: string)
    requires 0 < |hh| <= 2 && AllDigits(hh) && |mm| == 2 && AllDigits(mm) && |ss| == 2 && AllDigits(ss)
    ensures ReadsAsClock(hh + ":" + mm + ":" + ss)
  {
    ShortValue(hh);
    ShortValue(mm);
    ShortValue(ss);
    TimeStrThree(hh, mm, ss);
  }

  lemma TwoReads(mm: string, ss: string)
    requires 0 < |mm| <= 2 && AllDigits(mm) && |ss| == 2 && AllDigits(ss)
    ensures ReadsAsClock(mm + ":" + ss)
  {
    ShortValue(mm);
    ShortValue(ss);
    TimeStrTwo(mm, ss);
  }

  /** The clock span at `k` reads as a time. */
  lemma SpanReads(t: string, k: nat)
    requires ClockAt(t, k)
    ensures ReadsAsClock(ClockSpan(t, k))
  {
    var e := ShortRunEnd(t, k);
    var span := ClockSpan(t, k);
    if SecondsFollow(t, e) {
      assert span == t[k..e + 6];
      LongSpanReads(t, k, e);
    } else {
      assert span == t[k..e + 3];
      ShortSpanReads(t, k, e);
    }
  }

  /** Whatever `\D{0,15}` and the clock capture from `a` reads as a time. */
  lemma AfterReads(t: string, a: nat)
    requires a <= |t| && ClockAfter(t, a).Some?
    ensures ReadsAsClock(ClockAfter(t, a).value)
  {
    SpanReads(t, NonDigitRunEnd(t, a));
  }

  /** Whatever the near-"5k" pattern captures reads as a time. */
  lemma NearReads(t: string, i: nat)
    requires NearFiveKAt(t, i).Some?
    ensures ReadsAsClock(NearFiveKAt(t, i).value)
  {
    if KmAt(t, i).Some? {
      AfterReads(t, SpaceRunEnd(t, i + 1) + 2);
    } else {
      AfterReads(t, i + 2);
    }
  }

  /** Whatever the standalone-time pattern captures reads as a time. */
  lemma WordReads(t: string, k: nat)
    requires ClockWordAt(t, k).Some?
    ensures ReadsAsClock(ClockWordAt(t, k).value)
  {
    var e := ShortRunEnd(t, k);
    var span := ClockWordAt(t, k).value;
    if SecondsFollow(t, e) && Boundary(t, e + 6) {
      assert span == t[k..e + 6];
      LongSpanReads(t, k, e);
    } else {
      assert span == t[k..e + 3];
      ShortSpanReads(t, k, e);
    }
  }

  /** The first match of a pattern whose every match reads as a time reads as a time. */
  lemma SearchReads(t: string, at: (string, nat) -> Option<string>)
    requires forall i :: 0 <= i < |t| && at(t, i).Some? ==> ReadsAsClock(at(t, i).value)
    ensures Search(t, at).Some? ==> ReadsAsClock(Search(t, at).value)
  {
    SearchFromSound(t, 0, at);
  }

  /**
   * The time near "5k"/"5 km" is preferred, the first standalone time is used
   * otherwise, and a time is found exactly when one of the two patterns
   * matches. The result is read as the extractor's token parser reads the
   * same text, and it is not range-checked: any value up to `99:99:99` passes.
   */
  lemma Time5kChoice(text: string)
    ensures var t := Norm(text);
      var near, general := Search(t, NearFiveKAt), Search(t, ClockWordAt);
      && (ParseTime5k(text).Some? <==> near.Some? || general.Some?)
      && (near.Some? ==> ParseTime5k(text) == TimeParsing.ParseTimeToSeconds(near.value))
      && (near.None? && general.Some? ==> ParseTime5k(text) == TimeParsing.ParseTimeToSeconds(general.value))
      && (ParseTime5k(text).Some? ==> 0 <= ParseTime5k(text).value <= MaxClockSeconds)
  {
    var t := Norm(text);
    forall i | 0 <= i < |t| && NearFiveKAt(t, i).Some?
      ensures ReadsAsClock(NearFiveKAt(t, i).value)
    {
      NearReads(t, i);
    }
    forall k | 0 <= k < |t| && ClockWordAt(t, k).Some?
      ensures ReadsAsClock(ClockWordAt(t, k).value)
    {
      WordReads(t, k);
    }
    SearchReads(t, NearFiveKAt);
    SearchReads(t, ClockWordAt);
  }

  /** `_norm` leaves text without capitals, accents or Polish letters as it is. */
  lemma NormPlainText(s: string)
    requires forall k :: 0 <= k < |s| ==> !('A' <= s[k] <= 'Z') && s[k] < '\U{C0}'
    ensures Norm(s) == s
  {
    NormChars(s);
  }

  /**
   * Unlike the extractor, this parser does not range-check the time: a
   * 5-minute 5 km, below the 9-minute floor, is returned as it stands.
   */
  lemma Time5kNotRangeChecked(t: string)
    requires t == "5km 5:00"
    ensures ParseTime5k(t) == Some(300) && !TimeInRange(300)
  {
    NormPlainText(t);
    ExampleNearMatch(t);
    NearDecides(t, t[4..8]);
    ExampleClockValue(t[4..8]);
  }

  lemma ExampleNearMatch(t: string)
    requires t == "5km 5:00"
    ensures Search(t, NearFiveKAt) == Some(t[4..8]) && t[4..8] == "5:00"
  {
    assert SpaceRunEnd(t, 1) == 1 && At(t, 1, "km");
    assert NonDigitRunEnd(t, 3) == 4;
    assert DigitRunEnd(t, 5) == 5 && DigitRunEnd(t, 4) == 5;
    assert ClockAt(t, 4) && !SecondsFollow(t, 5);
    assert KmAt(t, 0) == Some(t[4..8]);
    SearchFindsFirst(t, NearFiveKAt, 0);
  }

  lemma ExampleClockValue(m: string)
    requires m == "5:00"
    ensures TimeStrToSeconds(m) == Some(300)
  {
    var mm, ss := m[..1], m[2..];
    assert m == mm + ":" + ss;
    assert AllDigits(mm) && AllDigits(ss);
    assert Value(mm) == 5 by { assert mm == "5"; }
    assert Value(ss) == 0 by { assert ss == "00"; }
    var read := TimeStrToSeconds(mm + ":" + ss);
    TimeStrTwo(mm, ss);
    assert read.Some? && read.value == 300;
  }

  /** A near-"5k" match decides the time. */
  lemma NearDecides(text: string, m: string)
    requires Search(Norm(text), NearFiveKAt) == Some(m)
    ensures ParseTime5k(text) == TimeStrToSeconds(m)
  {
  }

  // ---------------------------------------------------------------------
  // parse_free_text
  // ---------------------------------------------------------------------

  /** The three keys of the result. */
  const FieldKeys: set<string> := {"gender", "age", "time_5km_seconds"}

  /** The hint stored for each missing field. */
  const Hints: map<string, string> := map[
    "gender" := "Podaj M/K, mężczyzna/kobieta, male/female",
    "age" := "Podaj wiek (15–90 lat), np. '30 lat'",
    "time_5km_seconds" := "Podaj czas 5 km, np. '5 km 24:30'"]

  /**
   * `parse_free_text`: every field lands in exactly one of the two
   * dictionaries, the found ones with their parsed value (the gender as its
   * name, the numbers as integers) and the missing ones with their hint.
   */
  method ParseFreeText(s: string) returns (result: map<string, Json>, missing: map<string, string>)
    ensures result.Keys !! missing.Keys && result.Keys + missing.Keys == FieldKeys
    ensures forall k :: k in missing ==> k in Hints && missing[k] == Hints[k]
    ensures "gender" in result <==> ParseGender(s).Some?
    ensures "gender" in result ==> result["gender"] == JStr(GenderName(ParseGender(s).value))
    ensures "age" in result <==> AgeOf(s).Some?
    ensures "age" in result ==> result["age"] == JInt(AgeOf(s).value) && AgeInRange(AgeOf(s).value)
    ensures "time_5km_seconds" in result <==> ParseTime5k(s).Some?
    ensures "time_5km_seconds" in result ==> result["time_5km_seconds"] == JInt(ParseTime5k(s).value)
  {
    var a := ParseAge(s);
    AgeInBounds(s);
    result, missing := Collect(ParseGender(s), a, ParseTime5k(s));
  }

  /** The two dictionaries `parse_free_text` builds from the three parsers' answers. */
  method Collect(g: Option<Gender>, a: Option<int>, t5: Option<int>)
    returns (result: map<string, Json>, missing: map<string, string>)
    ensures result.Keys !! missing.Keys && result.Keys + missing.Keys == FieldKeys
    ensures forall k :: k in missing ==> k in Hints && missing[k] == Hints[k]
    ensures "gender" in result <==> g.Some?
    ensures "gender" in result ==> result["gender"] == JStr(GenderName(g.value))
    ensures "age" in result <==> a.Some?
    ensures "age" in result ==> result["age"] == JInt(a.value)
    ensures "time_5km_seconds" in result <==> t5.Some?
    ensures "time_5km_seconds" in result ==> result["time_5km_seconds"] == JInt(t5.value)
  {
    result := map[];
    missing := map[];

    if g.Some? {
      result := result["gender" := JStr(GenderName(g.value))];
    } else {
      missing := missing["gender" := Hints["gender"]];
    }

    if a.Some? {
      result := result["age" := JInt(a.value)];
    } else {
      missing := missing["age" := Hints["age"]];
    }

    if t5.Some? {
      result := result["time_5km_seconds" := JInt(t5.value)];
    } else {
      missing := missing["time_5km_seconds" := Hints["time_5km_seconds"]];
    }
  }
}
