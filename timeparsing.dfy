/**
 * `parse_time_to_seconds` of utils/llm_extractor.py: a free-standing time
 * token ("24:30", "0:24:30", "25 min", "23 min 45 s", "24") to a count of
 * seconds, or `None` when the token cannot be read.
 */
module TimeParsing {
  import opened Base
  import opened Text

  /** The unit-word rewrites, applied in this order: minute words to "min", second words to "s". */
  function UnitWords(s: string): string
  {
    var s1 := ReplaceAll(s, "minutes", "min");
    var s2 := ReplaceAll(s1, "minute", "min");
    var s3 := ReplaceAll(s2, "minuty", "min");
    var s4 := ReplaceAll(s3, "minut", "min");
    var s5 := ReplaceAll(s4, "min.", "min");
    var s6 := ReplaceAll(s5, "sekundy", "s");
    var s7 := ReplaceAll(s6, "sekund", "s");
    var s8 := ReplaceAll(s7, "seconds", "s");
    ReplaceAll(s8, "second", "s")
  }

  /** The token after lower-casing, unit rewriting and stripping. */
  function Canonical(token: string): string
  {
    Strip(UnitWords(Lower(token)))
  }

  /** `[p for p in parts if p != ""]`. */
  function NonEmptyParts(parts: seq<string>): (r: seq<string>)
    ensures forall p :: p in r ==> p != [] && p in parts
  {
    if parts == [] then []
    else (if parts[0] == [] then [] else [parts[0]]) + NonEmptyParts(parts[1..])
  }

  /** The `HH:MM:SS` / `MM:SS` branch: `None` when it does not apply or an `int()` fails. */
  function ClockValue(s: string): Option<int>
  {
    if ':' !in s then None else PartsValue(NonEmptyParts(Split(s, ':')))
  }

  /** Minutes and seconds as a number of seconds. */
  function MinSecToSeconds(m: int, s: int): int
  {
    m * 60 + s
  }

  /** Hours, minutes and seconds as a number of seconds. */
  function HmsToSeconds(h: int, m: int, s: int): int
  {
    h * 3600 + m * 60 + s
  }

  /** `mm*60 + ss` for two parts, `hh*3600 + mm*60 + ss` for three, when every `int()` succeeds. */
  function PartsValue(parts: seq<string>): Option<int>
  {
      if |parts| == 2 then
        match (PyInt(parts[0]), PyInt(parts[1]))
        case (Some(mm), Some(ss)) => Some(MinSecToSeconds(mm, ss))
        case _ => None
      else if |parts| == 3 then
        match (PyInt(parts[0]), PyInt(parts[1]), PyInt(parts[2]))
        case (Some(hh), Some(mm), Some(ss)) => Some(HmsToSeconds(hh, mm, ss))
        case _ => None
      else None
  }

  /** Regex `(\d+)\s*<unit>(<tail>)?\b` at `i`: the value of the digits. */
  function UnitAt(s: string, i: nat, unit: char, tail: string): Option<nat>
  {
    if i < |s| && IsDigit(s[i]) then
      var j := DigitRunEnd(s, i);
      var k := SpaceRunEnd(s, j);
      if k < |s| && s[k] == unit && ((At(s, k + 1, tail) && Boundary(s, k + 1 + |tail|)) || Boundary(s, k + 1))
      then Some(ValueAt(s, i, j))
      else None
    else None
  }

  /** Regex `(?P<m>\d+)\s*m(in)?\b`. */
  function MinutesAt(s: string, i: nat): Option<nat> { UnitAt(s, i, 'm', "in") }

  /** Regex `(?P<s>\d+)\s*s(ec)?\b` (also the quick pass's `(\d+)\s*s(ec)?\b`). */
  function SecondsAt(s: string, i: nat): Option<nat> { UnitAt(s, i, 's', "ec") }

  /** `re.sub(r"[^\d.]", "", s)`. */
  function NumberChars(s: string): (r: string)
    ensures forall k :: 0 <= k < |r| ==> IsDigit(r[k]) || r[k] == '.'
    ensures forall c :: c in r ==> c in s
  {
    if s == [] then []
    else (if IsDigit(s[0]) || s[0] == '.' then [s[0]] else []) + NumberChars(s[1..])
  }

  /** `float(t)` for a string of digits and dots: at most one dot and at least one digit. */
  function FloatOf(t: string): Option<real>
    requires forall k :: 0 <= k < |t| ==> IsDigit(t[k]) || t[k] == '.'
  {
    if '.' !in t then
      if t == [] then None else Some(Value(t) as real)
    else
      var d := IndexOf(t, '.');
      var whole, frac := t[..d], t[d + 1..];
      if '.' in frac || (whole == [] && frac == []) then None
      else
        assert AllDigits(whole) by {
          forall k | 0 <= k < |whole| ensures IsDigit(whole[k]) { assert whole[k] in t[..d]; }
        }
        Some(Value(whole) as real + Value(frac) as real / Pow10(|frac|) as real)
  }

  /** The last resort: a bare number below 100 is minutes, otherwise seconds (`int` truncates). */
  function BareNumber(s: string): Option<int>
  {
    match FloatOf(NumberChars(s))
    case None => None
    case Some(v) => Some(if v < 100.0 then (v * 60.0).Floor else v.Floor)
  }

  /** `parse_time_to_seconds(time_str)`. */
  function ParseTimeToSeconds(token: string): Option<int>
  {
    if token == [] then None else ReadTime(Canonical(token))
  }

  /** The branches tried on the canonical text: clock, unit words, bare number. */
  function ReadTime(s: string): Option<int>
  {
    var clock := ClockValue(s);
    if clock.Some? then clock
    else
      var m := Search(s, MinutesAt);
      var sec := Search(s, SecondsAt);
      if m.Some? && sec.Some? then Some(m.value * 60 + sec.value)
      else if m.Some? then Some(m.value * 60)
      else if sec.Some? then Some(sec.value)
      else BareNumber(s)
  }

  // ---------------------------------------------------------------------
  // Properties
  // ---------------------------------------------------------------------

  /** Lower-casing and the unit rewrites never introduce a digit. */
  lemma CanonicalNoDigits(token: string)
    requires NoDigits(token)
    ensures NoDigits(Canonical(token))
  {
    var l := Lower(token);
    var s1 := ReplaceAll(l, "minutes", "min");
    ReplaceNoDigits(l, "minutes", "min");
    var s2 := ReplaceAll(s1, "minute", "min");
    ReplaceNoDigits(s1, "minute", "min");
    var s3 := ReplaceAll(s2, "minuty", "min");
    ReplaceNoDigits(s2, "minuty", "min");
    var s4 := ReplaceAll(s3, "minut", "min");
    ReplaceNoDigits(s3, "minut", "min");
    var s5 := ReplaceAll(s4, "min.", "min");
    ReplaceNoDigits(s4, "min.", "min");
    var s6 := ReplaceAll(s5, "sekundy", "s");
    ReplaceNoDigits(s5, "sekundy", "s");
    var s7 := ReplaceAll(s6, "sekund", "s");
    ReplaceNoDigits(s6, "sekund", "s");
    var s8 := ReplaceAll(s7, "seconds", "s");
    ReplaceNoDigits(s7, "seconds", "s");
    ReplaceNoDigits(s8, "second", "s");
    var u := UnitWords(l);
    var s := Strip(u);
    forall k | 0 <= k < |s| ensures !IsDigit(s[k]) {
      assert s[k] in u;
    }
  }

  lemma ClockNeedsDigit(s: string)
    requires NoDigits(s)
    ensures ClockValue(s).None?
  {
    if ':' in s {
      var parts := NonEmptyParts(Split(s, ':'));
      forall p | p in parts ensures PyInt(p).None? {
        forall k | 0 <= k < |p| ensures !IsDigit(p[k]) {
          assert p[k] in p;
        }
        PyIntNeedsDigit(p);
      }
      if |parts| == 2 || |parts| == 3 {
        assert parts[0] in parts;
      }
    }
  }

  lemma BareNumberNeedsDigit(s: string)
    requires NoDigits(s)
    ensures BareNumber(s).None?
  {
    var t := NumberChars(s);
    assert forall k :: 0 <= k < |t| ==> t[k] == '.' by {
      forall k | 0 <= k < |t| ensures t[k] == '.' {
        assert t[k] in s;
      }
    }
    if '.' in t {
      var d := IndexOf(t, '.');
      if d < |t| - 1 {
        assert t[d + 1..][0] == '.';
      }
    }
  }

  /** The empty token and every token without a digit ("invalid") give `None`. */
  lemma {:induction false} NoDigitNoTime(token: string)
    requires NoDigits(token)
    ensures ParseTimeToSeconds(token).None?
  {
    if token != [] {
      CanonicalNoDigits(token);
      ReadNeedsDigit(Canonical(token));
    }
  }

  lemma ReadNeedsDigit(s: string)
    requires NoDigits(s)
    ensures ReadTime(s).None?
  {
    ClockNeedsDigit(s);
    SearchFindsNothing(s, MinutesAt);
    SearchFindsNothing(s, SecondsAt);
    BareNumberNeedsDigit(s);
  }

  /** Text made of digits and colons is already canonical. */
  lemma CanonicalClock(s: string)
    requires s != [] && IsDigit(s[0]) && IsDigit(s[|s| - 1])
    requires forall k :: 0 <= k < |s| ==> IsDigit(s[k]) || s[k] == ':'
    ensures Canonical(s) == s
  {
    assert Lower(s) == s;
    assert 'm' !in s && 's' !in s;
    ReplaceAbsent(s, "minutes", "min");
    ReplaceAbsent(s, "minute", "min");
    ReplaceAbsent(s, "minuty", "min");
    ReplaceAbsent(s, "minut", "min");
    ReplaceAbsent(s, "min.", "min");
    ReplaceAbsent(s, "sekundy", "s");
    ReplaceAbsent(s, "sekund", "s");
    ReplaceAbsent(s, "seconds", "s");
    ReplaceAbsent(s, "second", "s");
    StripKeeps(s);
  }

  lemma SplitAtFirst(a: string, b: string, c: char)
    requires c !in a
    ensures Split(a + [c] + b, c) == [a] + Split(b, c)
  {
    var s := a + [c] + b;
    assert s[..|a|] == a && s[|a|] == c;
    var i := IndexOf(s, c);
    assert i == |a|;
    assert s[..i] == a;
    assert s[i + 1..] == b;
  }

  lemma NotIn(d: string, c: char)
    requires AllDigits(d) && !IsDigit(c)
    ensures c !in d
  {
    assert forall k :: 0 <= k < |d| ==> d[k] != c;
  }

  lemma NonEmptyKeeps(parts: seq<string>)
    requires forall k :: 0 <= k < |parts| ==> parts[k] != []
    ensures NonEmptyParts(parts) == parts
  {
    if parts != [] {
      NonEmptyKeeps(parts[1..]);
      assert [parts[0]] + parts[1..] == parts;
    }
  }

  /** A token that the clock branch reads is decided by that branch. */
  lemma ClockDecides(token: string)
    requires token != [] && ClockValue(Canonical(token)).Some?
    ensures ParseTimeToSeconds(token) == ClockValue(Canonical(token))
  {
  }

  lemma SplitNone(a: string, c: char)
    requires c !in a
    ensures Split(a, c) == [a]
  {
  }

  lemma SplitTwo(mm: string, ss: string)
    requires AllDigits(mm) && AllDigits(ss)
    ensures Split(mm + ":" + ss, ':') == [mm, ss]
  {
    NotIn(mm, ':');
    NotIn(ss, ':');
    assert mm + ":" + ss == mm + [':'] + ss;
    SplitAtFirst(mm, ss, ':');
    SplitNone(ss, ':');
  }

  lemma PartsTwo(mm: string, ss: string)
    requires mm != [] && AllDigits(mm) && ss != [] && AllDigits(ss)
    ensures PartsValue([mm, ss]) == Some(MinSecToSeconds(Value(mm), Value(ss)))
  {
    PyIntDigits(mm);
    PyIntDigits(ss);
    PartsOfTwoInts(mm, ss, Value(mm), Value(ss));
  }

  /** Four or more parts are never read. */
  lemma ManyParts(parts: seq<string>)
    requires |parts| > 3
    ensures PartsValue(parts).None?
  {
  }

  lemma PartsOfTwoInts(a: string, b: string, x: int, y: int)
    requires PyInt(a) == Some(x) && PyInt(b) == Some(y)
    ensures PartsValue([a, b]) == Some(MinSecToSeconds(x, y))
  {
    var parts := [a, b];
    assert |parts| == 2 && parts[0] == a && parts[1] == b;
  }

  lemma PartsThree(hh: string, mm: string, ss: string)
    requires hh != [] && AllDigits(hh) && mm != [] && AllDigits(mm) && ss != [] && AllDigits(ss)
    ensures PartsValue([hh, mm, ss]) == Some(HmsToSeconds(Value(hh), Value(mm), Value(ss)))
  {
    var x, y, z := Value(hh), Value(mm), Value(ss);
    PyIntDigits(hh);
    PyIntDigits(mm);
    PyIntDigits(ss);
    PartsOfInts(hh, mm, ss, x, y, z);
  }

  lemma PartsOfInts(a: string, b: string, c: string, x: int, y: int, z: int)
    requires PyInt(a) == Some(x) && PyInt(b) == Some(y) && PyInt(c) == Some(z)
    ensures PartsValue([a, b, c]) == Some(HmsToSeconds(x, y, z))
  {
    var parts := [a, b, c];
    assert |parts| == 3 && parts[0] == a && parts[1] == b && parts[2] == c;
  }

  /** Once the colon parts are known, the clock branch reads exactly them. */
  lemma ClockOf(s: string, parts: seq<string>)
    requires ':' in s && NonEmptyParts(Split(s, ':')) == parts
    ensures ClockValue(s) == PartsValue(parts)
  {
  }

  lemma ClockOfTwo(mm: string, ss: string)
    requires mm != [] && AllDigits(mm) && ss != [] && AllDigits(ss)
    ensures ClockValue(mm + ":" + ss) == PartsValue([mm, ss])
  {
    var s := mm + ":" + ss;
    assert s[|mm|] == ':';
    SplitTwo(mm, ss);
    NonEmptyKeeps([mm, ss]);
    ClockOf(s, [mm, ss]);
  }

  lemma SplitThree(hh: string, mm: string, ss: string)
    requires AllDigits(hh) && AllDigits(mm) && AllDigits(ss)
    ensures Split(hh + ":" + mm + ":" + ss, ':') == [hh, mm, ss]
  {
    NotIn(hh, ':');
    assert hh + ":" + mm + ":" + ss == hh + [':'] + (mm + ":" + ss);
    SplitAtFirst(hh, mm + ":" + ss, ':');
    SplitTwo(mm, ss);
  }

  lemma ClockOfThree(hh: string, mm: string, ss: string)
    requires hh != [] && AllDigits(hh) && mm != [] && AllDigits(mm) && ss != [] && AllDigits(ss)
    ensures ClockValue(hh + ":" + mm + ":" + ss) == PartsValue([hh, mm, ss])
  {
    var s := hh + ":" + mm + ":" + ss;
    assert s[|hh|] == ':';
    SplitThree(hh, mm, ss);
    NonEmptyKeeps([hh, mm, ss]);
    ClockOf(s, [hh, mm, ss]);
  }

  lemma ClockTwo(mm: string, ss: string)
    requires mm != [] && AllDigits(mm) && ss != [] && AllDigits(ss)
    ensures ClockValue(mm + ":" + ss) == Some(MinSecToSeconds(Value(mm), Value(ss)))
  {
    ClockOfTwo(mm, ss);
    PartsTwo(mm, ss);
  }

  lemma ClockThree(hh: string, mm: string, ss: string)
    requires hh != [] && AllDigits(hh) && mm != [] && AllDigits(mm) && ss != [] && AllDigits(ss)
    ensures ClockValue(hh + ":" + mm + ":" + ss) == Some(HmsToSeconds(Value(hh), Value(mm), Value(ss)))
  {
    ClockOfThree(hh, mm, ss);
    PartsThree(hh, mm, ss);
  }

  /** `"MM:SS"` gives `mm*60 + ss` ("24:30" is 1470 seconds). */
  lemma TwoPartToken(mm: string, ss: string)
    requires mm != [] && AllDigits(mm) && ss != [] && AllDigits(ss)
    ensures ParseTimeToSeconds(mm + ":" + ss) == Some(MinSecToSeconds(Value(mm), Value(ss)))
  {
    var s := mm + ":" + ss;
    CanonicalClock(s);
    ClockTwo(mm, ss);
    ClockDecides(s);
  }

  /** `"HH:MM:SS"` gives `hh*3600 + mm*60 + ss` ("0:24:30" is 1470, "1:00:00" is 3600). */
  lemma ThreePartToken(hh: string, mm: string, ss: string)
    requires hh != [] && AllDigits(hh) && mm != [] && AllDigits(mm) && ss != [] && AllDigits(ss)
    ensures ParseTimeToSeconds(hh + ":" + mm + ":" + ss) == Some(HmsToSeconds(Value(hh), Value(mm), Value(ss)))
  {
    var s := hh + ":" + mm + ":" + ss;
    CanonicalClock(s);
    ClockThree(hh, mm, ss);
    ClockDecides(s);
  }

  /** Lower-case ASCII text below U+00C0 is its own lower-case form. */
  lemma LowerKeeps(s: string)
    requires forall k :: 0 <= k < |s| ==> !('A' <= s[k] <= 'Z') && s[k] < '\U{C0}'
    ensures Lower(s) == s
  {
  }

  /** A prefix with no 'm' and no 's' is untouched by the unit rewrites. */
  lemma UnitWordsPrefix(a: string, w: string)
    requires 'm' !in a && 's' !in a
    ensures UnitWords(a + w) == a + UnitWords(w)
  {
    ReplacePrefix(a, w, "minutes", "min");
    var w1 := ReplaceAll(w, "minutes", "min");
    ReplacePrefix(a, w1, "minute", "min");
    var w2 := ReplaceAll(w1, "minute", "min");
    ReplacePrefix(a, w2, "minuty", "min");
    var w3 := ReplaceAll(w2, "minuty", "min");
    ReplacePrefix(a, w3, "minut", "min");
    var w4 := ReplaceAll(w3, "minut", "min");
    ReplacePrefix(a, w4, "min.", "min");
    var w5 := ReplaceAll(w4, "min.", "min");
    ReplacePrefix(a, w5, "sekundy", "s");
    var w6 := ReplaceAll(w5, "sekundy", "s");
    ReplacePrefix(a, w6, "sekund", "s");
    var w7 := ReplaceAll(w6, "sekund", "s");
    ReplacePrefix(a, w7, "seconds", "s");
    var w8 := ReplaceAll(w7, "seconds", "s");
    ReplacePrefix(a, w8, "second", "s");
  }

  /** The minute words the rewrites turn into "min". */
  predicate MinuteWord(w: string)
  {
    w in {"min", "minute", "minutes", "minut", "minuty"}
  }

  lemma MinuteWordsRewrite(w: string)
    requires MinuteWord(w)
    ensures UnitWords(w) == "min"
  {
    if w == "min" {
      RewriteMin(w);
    } else if w == "minute" {
      RewriteMinute(w);
    } else if w == "minutes" {
      RewriteMinutes(w);
    } else if w == "minut" {
      RewriteMinut(w);
    } else {
      RewriteMinuty(w);
    }
  }

  lemma RewriteMin(w: string)
    requires w == "min"
    ensures UnitWords(w) == "min"
  {
  }

  lemma RewriteMinute(w: string)
    requires w == "minute"
    ensures UnitWords(w) == "min"
  {
    assert ReplaceAll(w, "minutes", "min") == w;
    assert ReplaceAll(w, "minute", "min") == "min";
  }

  lemma RewriteMinutes(w: string)
    requires w == "minutes"
    ensures UnitWords(w) == "min"
  {
    assert ReplaceAll(w, "minutes", "min") == "min";
  }

  lemma RewriteMinut(w: string)
    requires w == "minut"
    ensures UnitWords(w) == "min"
  {
    assert ReplaceAll(w, "minutes", "min") == w;
    assert ReplaceAll(w, "minute", "min") == w;
    assert ReplaceAll(w, "minuty", "min") == w;
    assert ReplaceAll(w, "minut", "min") == "min";
  }

  lemma RewriteMinuty(w: string)
    requires w == "minuty"
    ensures UnitWords(w) == "min"
  {
    assert ReplaceAll(w, "minutes", "min") == w;
    assert w[..6][5] != "minute"[5];
    assert |w[1..]| < |"minute"|;
    assert [w[0]] + w[1..] == w;
    assert ReplaceAll(w, "minute", "min") == w;
    assert ReplaceAll(w, "minuty", "min") == "min";
  }

  /** Lower-case ASCII letters only. */
  predicate PlainWord(w: string)
  {
    forall k :: 0 <= k < |w| ==> 'a' <= w[k] <= 'z'
  }

  lemma MinuteWordPlain(w: string)
    requires MinuteWord(w)
    ensures PlainWord(w)
  {
    if w == "min" {
    } else if w == "minute" {
    } else if w == "minutes" {
    } else if w == "minut" {
    } else {
      assert w == "minuty";
    }
  }

  /** The digits `d` at the front of `s`, followed by a non-digit, are one `\d+` run. */
  lemma LeadingDigits(s: string, d: string)
    requires d != [] && AllDigits(d) && |d| < |s| && s[..|d|] == d && !IsDigit(s[|d|])
    ensures DigitRunEnd(s, 0) == |d| && ValueAt(s, 0, |d|) == Value(d)
  {
    assert forall k :: 0 <= k < |d| ==> s[k] == d[k];
    assert s[0..|d|] == d;
  }

  /** Without the unit letter nothing matches the unit pattern. */
  lemma UnitAbsent(s: string, unit: char, tail: string)
    requires unit !in s
    ensures forall p :: UnitAt(s, p, unit, tail).None?
  {
  }

  lemma LowerMinutes(d: string, w: string)
    requires d != [] && AllDigits(d) && MinuteWord(w)
    ensures Lower(d + " " + w) == d + " " + w
  {
    var t := d + " " + w;
    MinuteWordPlain(w);
    forall k | 0 <= k < |t| ensures !('A' <= t[k] <= 'Z') && t[k] < '\U{C0}' {
      if k < |d| {
        assert t[k] == d[k];
      } else if k > |d| {
        assert t[k] == w[k - |d| - 1];
      }
    }
    LowerKeeps(t);
  }

  /** A minute-word token is rewritten to `"<d> min"`. */
  lemma CanonicalMinutes(d: string, w: string)
    requires d != [] && AllDigits(d) && MinuteWord(w)
    ensures Canonical(d + " " + w) == d + " min"
  {
    LowerMinutes(d, w);
    UnitWordsMinutes(d, w);
    assert (d + " min")[0] == d[0];
    StripKeeps(d + " min");
  }

  lemma UnitWordsMinutes(d: string, w: string)
    requires AllDigits(d) && MinuteWord(w)
    ensures UnitWords(d + " " + w) == d + " min"
  {
    var p := d + " ";
    assert d + " " + w == p + w;
    NotIn(d, 'm');
    NotIn(d, 's');
    UnitWordsPrefix(p, w);
    MinuteWordsRewrite(w);
    assert p + "min" == d + " min";
  }

  lemma MinutesAtFront(d: string)
    requires d != [] && AllDigits(d)
    ensures MinutesAt(d + " min", 0) == Some(Value(d))
  {
    var s := d + " min";
    assert s[..|d|] == d && s[|d|] == ' ' && s[|d| + 1] == 'm';
    LeadingDigits(s, d);
    assert SpaceRunEnd(s, |d|) == |d| + 1;
    assert s[|d| + 2..|d| + 4] == "in";
  }

  /** In `"<d> min"` the minutes pattern matches at the front and the seconds pattern nowhere. */
  lemma MinutesMatch(d: string)
    requires d != [] && AllDigits(d)
    ensures ClockValue(d + " min").None?
    ensures Search(d + " min", MinutesAt) == Some(Value(d))
    ensures Search(d + " min", SecondsAt).None?
  {
    var s := d + " min";
    NotIn(d, ':');
    NotIn(d, 's');
    assert ':' !in s && 's' !in s;
    MinutesAtFront(d);
    SearchFindsFirst(s, MinutesAt, 0);
    UnitAbsent(s, 's', "ec");
    SearchFindsNothing(s, SecondsAt);
  }

  /** `"<d> <minute word>"` gives `d*60` ("24 minutes" is 1440, "25 min" is 1500). */
  lemma MinutesToken(d: string, w: string)
    requires d != [] && AllDigits(d) && MinuteWord(w)
    ensures ParseTimeToSeconds(d + " " + w) == Some(Value(d) * 60)
  {
    CanonicalMinutes(d, w);
    MinutesMatch(d);
  }

  /** Text in which the pattern never occurs is left alone by the rewrite. */
  lemma {:induction false} ReplaceNowhere(s: string, pat: string, rep: string)
    requires pat != [] && forall i: nat :: !At(s, i, pat)
    ensures ReplaceAll(s, pat, rep) == s
    decreases |s|
  {
    if |s| >= |pat| {
      assert !At(s, 0, pat);
      forall i: nat ensures !At(s[1..], i, pat) {
        assert !At(s, i + 1, pat);
        if i + |pat| <= |s[1..]| {
          assert s[1..][i..i + |pat|] == s[i + 1..i + 1 + |pat|];
        }
      }
      ReplaceNowhere(s[1..], pat, rep);
    }
  }

  /** The characters of `"<d> min <e> s"`. */
  predicate MinSecShape(t: string, d: string, e: string)
  {
    && d != [] && AllDigits(d) && e != [] && AllDigits(e)
    && t == d + " min " + e + " s"
  }

  lemma MinSecChars(t: string, d: string, e: string, k: nat)
    requires MinSecShape(t, d, e) && k < |t|
    ensures t[k] == 'm' <==> k == |d| + 1
    ensures t[k] == 's' <==> k == |t| - 1
    ensures k == |d| + 4 ==> t[k] == ' '
    ensures !('A' <= t[k] <= 'Z') && t[k] < '\U{C0}'
  {
    var m := |d| + 5;
    if k < |d| {
      assert t[k] == d[k];
    } else if m <= k < m + |e| {
      assert t[k] == e[k - m];
    }
  }

  /** A minute word whose fourth letter is not a space occurs nowhere in the token. */
  lemma MinSecNoMinuteWord(t: string, d: string, e: string, pat: string)
    requires MinSecShape(t, d, e) && |pat| >= 4 && pat[0] == 'm' && pat[3] != ' '
    ensures forall i: nat :: !At(t, i, pat)
  {
    forall i: nat | At(t, i, pat) ensures false {
      assert t[i] == pat[0] && t[i + 3] == pat[3];
      MinSecChars(t, d, e, i);
      MinSecChars(t, d, e, i + 3);
    }
  }

  /** A second word of two or more letters occurs nowhere in the token. */
  lemma MinSecNoSecondWord(t: string, d: string, e: string, pat: string)
    requires MinSecShape(t, d, e) && |pat| >= 2 && pat[0] == 's'
    ensures forall i: nat :: !At(t, i, pat)
  {
    forall i: nat | At(t, i, pat) ensures false {
      assert t[i] == pat[0];
      MinSecChars(t, d, e, i);
    }
  }

  /** The minutes-and-seconds token is already in canonical form. */
  lemma CanonicalMinSec(t: string, d: string, e: string)
    requires MinSecShape(t, d, e)
    ensures Canonical(t) == t
  {
    forall k | 0 <= k < |t| ensures !('A' <= t[k] <= 'Z') && t[k] < '\U{C0}' {
      MinSecChars(t, d, e, k);
    }
    LowerKeeps(t);
    MinSecNoMinuteWord(t, d, e, "minutes");
    ReplaceNowhere(t, "minutes", "min");
    MinSecNoMinuteWord(t, d, e, "minute");
    ReplaceNowhere(t, "minute", "min");
    MinSecNoMinuteWord(t, d, e, "minuty");
    ReplaceNowhere(t, "minuty", "min");
    MinSecNoMinuteWord(t, d, e, "minut");
    ReplaceNowhere(t, "minut", "min");
    MinSecNoMinuteWord(t, d, e, "min.");
    ReplaceNowhere(t, "min.", "min");
    MinSecNoSecondWord(t, d, e, "sekundy");
    ReplaceNowhere(t, "sekundy", "s");
    MinSecNoSecondWord(t, d, e, "sekund");
    ReplaceNowhere(t, "sekund", "s");
    MinSecNoSecondWord(t, d, e, "seconds");
    ReplaceNowhere(t, "seconds", "s");
    MinSecNoSecondWord(t, d, e, "second");
    ReplaceNowhere(t, "second", "s");
    StripKeeps(t);
  }

  lemma MinSecMinutes(t: string, d: string, e: string)
    requires MinSecShape(t, d, e)
    ensures Search(t, MinutesAt) == Some(Value(d))
  {
    assert t[..|d|] == d && t[|d|] == ' ' && t[|d| + 1] == 'm' && t[|d| + 4] == ' ';
    LeadingDigits(t, d);
    assert SpaceRunEnd(t, |d|) == |d| + 1;
    assert t[|d| + 2..|d| + 4] == "in";
    assert MinutesAt(t, 0) == Some(Value(d));
    SearchFindsFirst(t, MinutesAt, 0);
  }

  /** Before the seconds figure every start position fails: the run after the minutes figure meets 'm'. */
  lemma MinSecNoEarlySeconds(t: string, d: string, e: string, q: nat)
    requires MinSecShape(t, d, e) && q < |d| + 5
    ensures SecondsAt(t, q).None?
  {
    if q < |d| {
      assert t[q] == d[q] && t[|d|] == ' ' && t[|d| + 1] == 'm';
      assert DigitRunEnd(t, q) == |d|;
      assert SpaceRunEnd(t, |d|) == |d| + 1;
    } else {
      MinSecChars(t, d, e, q);
      assert t[|d|..|d| + 5] == " min ";
      assert t[q] == " min "[q - |d|];
    }
  }

  lemma MinSecSecondsAt(t: string, d: string, e: string)
    requires MinSecShape(t, d, e)
    ensures SecondsAt(t, |d| + 5) == Some(Value(e))
  {
    var p := |d| + 5;
    var k := p + |e|;
    assert t[p..k] == e && t[k] == ' ' && t[k + 1] == 's' && |t| == k + 2;
    forall j | p <= j < k ensures IsDigit(t[j]) {
      assert t[j] == e[j - p];
    }
    assert DigitRunEnd(t, p) == k;
    assert SpaceRunEnd(t, k) == k + 1;
    assert Boundary(t, k + 2);
  }

  lemma MinSecSeconds(t: string, d: string, e: string)
    requires MinSecShape(t, d, e)
    ensures Search(t, SecondsAt) == Some(Value(e))
  {
    forall q | 0 <= q < |d| + 5 ensures SecondsAt(t, q).None? {
      MinSecNoEarlySeconds(t, d, e, q);
    }
    MinSecSecondsAt(t, d, e);
    SearchFindsFirst(t, SecondsAt, |d| + 5);
  }

  lemma MinSecNoColon(t: string, d: string, e: string)
    requires MinSecShape(t, d, e)
    ensures ClockValue(t).None?
  {
    NotIn(d, ':');
    NotIn(e, ':');
    assert ':' !in " min " && ':' !in " s";
    assert ':' !in t;
  }

  lemma MinSecRead(t: string, d: string, e: string)
    requires MinSecShape(t, d, e)
    ensures ReadTime(t) == Some(Value(d) * 60 + Value(e))
  {
    MinSecNoColon(t, d, e);
    MinSecMinutes(t, d, e);
    MinSecSeconds(t, d, e);
  }

  /** `"<d> min <e> s"` gives `d*60 + e` ("23 min 45 s" is 1425). */
  lemma MinSecToken(t: string, d: string, e: string)
    requires MinSecShape(t, d, e)
    ensures ParseTimeToSeconds(t) == Some(Value(d) * 60 + Value(e))
  {
    CanonicalMinSec(t, d, e);
    MinSecRead(t, d, e);
  }

  lemma {:induction false} NumberCharsKeeps(d: string)
    requires AllDigits(d)
    ensures NumberChars(d) == d
  {
    if d != [] {
      NumberCharsKeeps(d[1..]);
      assert [d[0]] + d[1..] == d;
    }
  }

  lemma BareDigits(d: string)
    requires d != [] && AllDigits(d)
    ensures ReadTime(d) == Some(if Value(d) < 100 then Value(d) * 60 else Value(d))
  {
    NotIn(d, ':');
    NotIn(d, 'm');
    NotIn(d, 's');
    UnitAbsent(d, 'm', "in");
    SearchFindsNothing(d, MinutesAt);
    UnitAbsent(d, 's', "ec");
    SearchFindsNothing(d, SecondsAt);
    NumberCharsKeeps(d);
    NotIn(d, '.');
    var v := Value(d) as real;
    assert FloatOf(d) == Some(v);
    assert (v * 60.0).Floor == Value(d) * 60;
  }

  /** A bare number below 100 is minutes, from 100 on seconds ("24" is 1440, "30" is 1800). */
  lemma BareNumberToken(d: string)
    requires d != [] && AllDigits(d)
    ensures ParseTimeToSeconds(d) == Some(if Value(d) < 100 then Value(d) * 60 else Value(d))
  {
    CanonicalClock(d);
    BareDigits(d);
  }

  lemma ExampleDigits()
    ensures AllDigits("24") && Value("24") == 24 && AllDigits("30") && Value("30") == 30
    ensures AllDigits("0") && Value("0") == 0 && AllDigits("25") && Value("25") == 25
    ensures AllDigits("23") && Value("23") == 23 && AllDigits("45") && Value("45") == 45
  {
  }

  lemma ExampleNoDigits()
    ensures NoDigits("invalid")
  {
  }

  lemma ExampleTokens()
    ensures "24" + ":" + "30" == "24:30"
    ensures "0" + ":" + "24" + ":" + "30" == "0:24:30"
    ensures "24" + " " + "minutes" == "24 minutes"
    ensures "25" + " " + "min" == "25 min"
    ensures MinSecShape("23 min 45 s", "23", "45")
  {
  }

  /** Worked examples of the clock branch: "24:30" is 1470 seconds. */
  lemma ClockExampleShort()
    ensures ParseTimeToSeconds("24:30") == Some(1470)
  {
    ExampleDigits();
    ExampleTokens();
    TwoPartToken("24", "30");
  }

  /** "0:24:30" is 1470 seconds. */
  lemma ClockExampleLong()
    ensures ParseTimeToSeconds("0:24:30") == Some(1470)
  {
    ExampleDigits();
    ExampleTokens();
    ThreePartToken("0", "24", "30");
  }

  /** Worked examples of the unit-word branch. */
  lemma UnitExamples()
    ensures ParseTimeToSeconds("24 minutes") == Some(1440)
    ensures ParseTimeToSeconds("25 min") == Some(1500)
    ensures ParseTimeToSeconds("23 min 45 s") == Some(1425)
  {
    ExampleDigits();
    ExampleTokens();
    MinutesToken("24", "minutes");
    MinutesToken("25", "min");
    MinSecToken("23 min 45 s", "23", "45");
  }

  /** Worked examples of the bare-number branch and of unreadable tokens. */
  lemma NumberExamples()
    ensures ParseTimeToSeconds("24") == Some(1440)
    ensures ParseTimeToSeconds("30") == Some(1800)
    ensures ParseTimeToSeconds("invalid") == None
    ensures ParseTimeToSeconds("") == None
  {
    ExampleDigits();
    ExampleNoDigits();
    BareNumberToken("24");
    BareNumberToken("30");
    NoDigitNoTime("invalid");
  }
}
