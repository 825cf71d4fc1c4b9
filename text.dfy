/**
 * Character classes, string operations and a first-match scanner with the
 * meaning Python's `str` methods and `re` module give them.  Every regular
 * expression of the extractors is modelled as a "match at position i"
 * function; `Search` returns the match at the leftmost position, as
 * `re.search` does.
 */
module Text {
  import opened Base

  // ---------------------------------------------------------------------
  // Character classes
  // ---------------------------------------------------------------------

  /** Regex `\d` and `str.isdigit` (ASCII digits). */
  predicate IsDigit(c: char) { '0' <= c <= '9' }

  /** Regex `\s` and the characters `str.strip()` removes. */
  predicate IsSpace(c: char)
  {
    || c == ' ' || '\t' <= c <= '\r' || '\U{1C}' <= c <= '\U{1F}'
    || c == '\U{85}' || c == '\U{A0}' || c == '\U{1680}'
    || '\U{2000}' <= c <= '\U{200A}' || c == '\U{2028}' || c == '\U{2029}'
    || c == '\U{202F}' || c == '\U{205F}' || c == '\U{3000}'
  }

  /**
   * Regex `\w`: the alphanumeric characters of Latin-1 and Latin Extended-A
   * (which hold the Polish letters, the superscript digits and the vulgar
   * fractions) and `_`.
   */
  predicate IsWordChar(c: char)
  {
    || 'a' <= c <= 'z' || 'A' <= c <= 'Z' || IsDigit(c) || c == '_'
    || c == '\U{AA}' || c == '\U{B2}' || c == '\U{B3}' || c == '\U{B5}'
    || c == '\U{B9}' || c == '\U{BA}' || '\U{BC}' <= c <= '\U{BE}'
    || '\U{C0}' <= c <= '\U{D6}' || '\U{D8}' <= c <= '\U{F6}' || '\U{F8}' <= c <= '\U{17F}'
  }

  /** `str.lower` on one character. */
  function LowerChar(c: char): (r: char)
    ensures IsDigit(r) <==> IsDigit(c)
    ensures IsSpace(r) <==> IsSpace(c)
    ensures !('A' <= c <= 'Z') && c < '\U{C0}' ==> r == c
  {
    if 'A' <= c <= 'Z' then (c as int + 32) as char
    else if '\U{C0}' <= c <= '\U{DE}' && c != '\U{D7}' then (c as int + 32) as char
    else if '\U{100}' <= c <= '\U{137}' && c as int % 2 == 0 && c != '\U{130}' then (c as int + 1) as char
    else if '\U{139}' <= c <= '\U{148}' && c as int % 2 == 1 then (c as int + 1) as char
    else if '\U{14A}' <= c <= '\U{177}' && c as int % 2 == 0 then (c as int + 1) as char
    else if c == '\U{178}' then '\U{FF}'
    else if '\U{179}' <= c <= '\U{17E}' && c as int % 2 == 1 then (c as int + 1) as char
    else c
  }

  /** `str.lower`. */
  function Lower(s: string): (r: string)
    ensures |r| == |s|
    ensures forall k :: 0 <= k < |s| ==> r[k] == LowerChar(s[k])
  {
    if s == [] then [] else [LowerChar(s[0])] + Lower(s[1..])
  }

  predicate AllDigits(s: string) { forall k :: 0 <= k < |s| ==> IsDigit(s[k]) }

  predicate NoDigits(s: string) { forall k :: 0 <= k < |s| ==> !IsDigit(s[k]) }

  predicate NoSpaces(s: string) { forall k :: 0 <= k < |s| ==> !IsSpace(s[k]) }

  // ---------------------------------------------------------------------
  // Numbers written in decimal
  // ---------------------------------------------------------------------

  function DigitValue(c: char): nat
    requires IsDigit(c)
  {
    c as int - '0' as int
  }

  /** The number a string of decimal digits denotes (0 for the empty string). */
  function Value(d: string): nat
    requires AllDigits(d)
  {
    if d == [] then 0 else Value(d[..|d| - 1]) * 10 + DigitValue(d[|d| - 1])
  }

  function DigitChar(n: nat): (c: char)
    requires n < 10
    ensures IsDigit(c) && DigitValue(c) == n
  {
    ('0' as int + n) as char
  }

  /** `str(n)`: decimal digits without leading zeros, and a `-` for a negative number. */
  function IntToString(n: int): (s: string)
    ensures n >= 0 ==> |s| > 0 && AllDigits(s) && Value(s) == n
    ensures n < 0 ==> |s| > 1 && s[0] == '-' && AllDigits(s[1..]) && Value(s[1..]) == -n
    decreases if n < 0 then 1 - n else n
  {
    if n < 0 then "-" + IntToString(-n)
    else if n < 10 then [DigitChar(n)]
    else
      var prefix := IntToString(n / 10);
      var s := prefix + [DigitChar(n % 10)];
      assert s[..|s| - 1] == prefix;
      s
  }

  function Pow10(n: nat): (r: nat)
    ensures r > 0
  {
    if n == 0 then 1 else 10 * Pow10(n - 1)
  }

  // ---------------------------------------------------------------------
  // str.strip, str.replace, str.split, int(str)
  // ---------------------------------------------------------------------

  function StripLeft(s: string): (r: string)
    ensures |r| <= |s| && r == s[|s| - |r|..]
    ensures r != [] ==> !IsSpace(r[0])
  {
    if s != [] && IsSpace(s[0]) then StripLeft(s[1..]) else s
  }

  function StripRight(s: string): (r: string)
    ensures |r| <= |s| && r == s[..|r|]
    ensures r != [] ==> !IsSpace(r[|r| - 1])
  {
    if s != [] && IsSpace(s[|s| - 1]) then StripRight(s[..|s| - 1]) else s
  }

  /** `str.strip()`: the text without leading and trailing whitespace. */
  function Strip(s: string): (r: string)
    ensures r != [] ==> !IsSpace(r[0]) && !IsSpace(r[|r| - 1])
    ensures forall c :: c in r ==> c in s
  {
    var l := StripLeft(s);
    var r := StripRight(l);
    assert forall c :: c in r ==> c in l;
    assert forall c :: c in l ==> c in s;
    r
  }

  lemma {:induction false} StripLeftSpaces(s: string)
    ensures forall k :: 0 <= k < |s| - |StripLeft(s)| ==> IsSpace(s[k])
    decreases |s|
  {
    if s != [] && IsSpace(s[0]) {
      StripLeftSpaces(s[1..]);
      assert forall k :: 1 <= k < |s| - |StripLeft(s)| ==> s[k] == s[1..][k - 1];
    }
  }

  lemma {:induction false} StripRightSpaces(s: string)
    ensures forall k :: |StripRight(s)| <= k < |s| ==> IsSpace(s[k])
    decreases |s|
  {
    if s != [] && IsSpace(s[|s| - 1]) {
      StripRightSpaces(s[..|s| - 1]);
    }
  }

  /** `strip()` cuts a slice out of the text, with only whitespace on either side. */
  lemma StripBounds(s: string) returns (a: nat, b: nat)
    ensures a <= b <= |s| && Strip(s) == s[a..b]
    ensures forall k :: 0 <= k < a ==> IsSpace(s[k])
    ensures forall k :: b <= k < |s| ==> IsSpace(s[k])
  {
    var l := StripLeft(s);
    StripLeftSpaces(s);
    StripRightSpaces(l);
    a := |s| - |l|;
    b := a + |StripRight(l)|;
    assert forall k :: b <= k < |s| ==> s[k] == l[k - a];
  }

  lemma StripKeeps(s: string)
    requires s == [] || (!IsSpace(s[0]) && !IsSpace(s[|s| - 1]))
    ensures Strip(s) == s
  {
  }

  /** `s.replace(pat, rep)`: every non-overlapping occurrence, scanned left to right. */
  function ReplaceAll(s: string, pat: string, rep: string): string
    requires pat != []
    decreases |s|
  {
    if |s| < |pat| then s
    else if s[..|pat|] == pat then rep + ReplaceAll(s[|pat|..], pat, rep)
    else [s[0]] + ReplaceAll(s[1..], pat, rep)
  }

  /** Text in which the pattern's first character never occurs is left alone. */
  lemma {:induction false} ReplaceAbsent(s: string, pat: string, rep: string)
    requires pat != [] && pat[0] !in s
    ensures ReplaceAll(s, pat, rep) == s
    decreases |s|
  {
    if |s| >= |pat| {
      assert s[0] != pat[0];
      assert s[..|pat|] != pat;
      ReplaceAbsent(s[1..], pat, rep);
    }
  }

  /** A prefix free of the pattern's first character passes through unchanged. */
  lemma {:induction false} ReplacePrefix(a: string, b: string, pat: string, rep: string)
    requires pat != [] && pat[0] !in a
    ensures ReplaceAll(a + b, pat, rep) == a + ReplaceAll(b, pat, rep)
    decreases |a|
  {
    if a != [] && |a + b| >= |pat| {
      assert (a + b)[..|pat|] != pat by { assert (a + b)[0] == a[0]; }
      assert (a + b)[1..] == a[1..] + b;
      calc {
        ReplaceAll(a + b, pat, rep);
        [a[0]] + ReplaceAll(a[1..] + b, pat, rep);
        { ReplacePrefix(a[1..], b, pat, rep); }
        [a[0]] + (a[1..] + ReplaceAll(b, pat, rep));
        { assert [a[0]] + a[1..] == a; }
        a + ReplaceAll(b, pat, rep);
      }
    } else if a == [] {
      assert a + b == b;
    }
  }

  /** Replacing with digit-free text in a digit-free string leaves it digit-free. */
  lemma {:induction false} ReplaceNoDigits(s: string, pat: string, rep: string)
    requires pat != [] && NoDigits(s) && NoDigits(rep)
    ensures NoDigits(ReplaceAll(s, pat, rep))
    decreases |s|
  {
    if |s| < |pat| {
    } else if s[..|pat|] == pat {
      ReplaceNoDigits(s[|pat|..], pat, rep);
    } else {
      ReplaceNoDigits(s[1..], pat, rep);
    }
  }

  /** Replacing one character by another is a character-by-character map. */
  lemma {:induction false} ReplaceOneChar(s: string, a: char, b: char)
    ensures |ReplaceAll(s, [a], [b])| == |s|
    ensures forall k :: 0 <= k < |s| ==> ReplaceAll(s, [a], [b])[k] == if s[k] == a then b else s[k]
    decreases |s|
  {
    if s != [] {
      ReplaceOneChar(s[1..], a, b);
      assert s[..1] == [a] <==> s[0] == a;
    }
  }

  /** The index of the first `c` in `s`, or `|s|` when there is none. */
  function IndexOf(s: string, c: char): (i: nat)
    ensures i <= |s| && c !in s[..i]
    ensures i < |s| ==> s[i] == c
    ensures i == |s| <==> c !in s
  {
    if s == [] then 0 else if s[0] == c then 0 else 1 + IndexOf(s[1..], c)
  }

  /** The position of the last `c` in `s`, if any (`s.rfind(c)`). */
  function LastIndexOf(s: string, c: char): (r: Option<nat>)
    ensures r.Some? ==> r.value < |s| && s[r.value] == c && c !in s[r.value + 1..]
    ensures r.None? <==> c !in s
  {
    if s == [] then None
    else if s[|s| - 1] == c then Some(|s| - 1)
    else
      var r := LastIndexOf(s[..|s| - 1], c);
      assert s == s[..|s| - 1] + [s[|s| - 1]];
      if r.Some? then
        assert s[r.value + 1..] == s[..|s| - 1][r.value + 1..] + [s[|s| - 1]];
        r
      else None
  }

  /** `s.split(sep)`: the pieces between occurrences of `sep`, empty ones included. */
  function Split(s: string, sep: char): (parts: seq<string>)
    ensures |parts| >= 1
    ensures forall p :: p in parts ==> sep !in p
    ensures forall p, c :: p in parts && c in p ==> c in s
    decreases |s|
  {
    var i := IndexOf(s, sep);
    if i == |s| then [s]
    else
      var rest := Split(s[i + 1..], sep);
      assert forall p, c :: p in rest && c in p ==> c in s by {
        forall p, c | p in rest && c in p ensures c in s {
          assert c in s[i + 1..];
        }
      }
      [s[..i]] + rest
  }

  /**
   * The digits of an integer literal as `int(str)` accepts them: ASCII
   * digits, where a single `_` may separate two digits.
   */
  predicate DigitGroups(b: string)
    decreases |b|
  {
    && |b| > 0
    && IsDigit(b[0])
    && (|b| == 1 || if b[1] == '_' then DigitGroups(b[2..]) else DigitGroups(b[1..]))
  }

  /** The digits of `b` with its `_` separators removed. */
  function Ungrouped(b: string): (r: string)
    requires DigitGroups(b)
    ensures r != [] && AllDigits(r) && |r| <= |b|
    decreases |b|
  {
    if |b| == 1 then [b[0]]
    else if b[1] == '_' then [b[0]] + Ungrouped(b[2..])
    else [b[0]] + Ungrouped(b[1..])
  }

  /** A plain digit string is a single group and loses nothing. */
  lemma {:induction false} PlainGroups(d: string)
    requires d != [] && AllDigits(d)
    ensures DigitGroups(d) && Ungrouped(d) == d
    decreases |d|
  {
    if |d| > 1 {
      assert d[1] != '_' by { assert IsDigit(d[1]); }
      PlainGroups(d[1..]);
      assert d == [d[0]] + d[1..];
    }
  }

  /** `int(s)` on a string: optional surrounding whitespace, then a signed integer literal. */
  function PyInt(s: string): Option<int>
  {
    SignedLiteral(Strip(s))
  }

  /** An optional sign followed by digit groups, as `int` reads it once the whitespace is gone. */
  function SignedLiteral(t: string): Option<int>
  {
    var signed := |t| > 0 && (t[0] == '+' || t[0] == '-');
    var body := if signed then t[1..] else t;
    if DigitGroups(body) then
      var magnitude: int := Value(Ungrouped(body));
      Some(if signed && t[0] == '-' then -magnitude else magnitude)
    else None
  }

  /** `int` accepts a plain digit string and gives its value. */
  lemma PyIntDigits(d: string)
    requires d != [] && AllDigits(d)
    ensures PyInt(d) == Some(Value(d))
  {
    StripKeeps(d);
    SignedPlain(d);
  }

  lemma SignedPlain(d: string)
    requires d != [] && AllDigits(d)
    ensures SignedLiteral(d) == Some(Value(d))
  {
    assert !(d[0] == '+' || d[0] == '-') by { assert IsDigit(d[0]); }
    PlainGroups(d);
  }

  /** `int` fails on text without a digit. */
  lemma PyIntNeedsDigit(s: string)
    requires NoDigits(s)
    ensures PyInt(s).None?
  {
    var t := Strip(s);
    if |t| > 1 {
      assert t[1] in s;
    }
    if |t| > 0 {
      assert t[0] in s;
    }
  }

  lemma {:induction false} GroupsEndInDigit(b: string)
    requires DigitGroups(b)
    ensures IsDigit(b[|b| - 1])
    decreases |b|
  {
    if |b| > 1 {
      if b[1] == '_' {
        GroupsEndInDigit(b[2..]);
      } else {
        GroupsEndInDigit(b[1..]);
      }
    }
  }

  /** `int` on digit groups ignores the separators: `int("1_500") == 1500`. */
  lemma PyIntGrouped(b: string)
    requires DigitGroups(b)
    ensures PyInt(b) == Some(Value(Ungrouped(b)))
  {
    GroupsEndInDigit(b);
    StripKeeps(b);
    SignedGrouped(b);
  }

  lemma SignedGrouped(b: string)
    requires DigitGroups(b)
    ensures SignedLiteral(b) == Some(Value(Ungrouped(b)))
  {
    assert !(b[0] == '+' || b[0] == '-') by { assert IsDigit(b[0]); }
  }

  // ---------------------------------------------------------------------
  // Regular-expression building blocks
  // ---------------------------------------------------------------------

  predicate WordAt(s: string, p: int) { 0 <= p < |s| && IsWordChar(s[p]) }

  /** Regex `\b` at position `p` (between `s[p-1]` and `s[p]`). */
  predicate Boundary(s: string, p: int) { WordAt(s, p - 1) != WordAt(s, p) }

  /** The literal `lit` occurs in `s` starting at `i`. */
  predicate At(s: string, i: nat, lit: string)
  {
    i + |lit| <= |s| && s[i..i + |lit|] == lit
  }

  /** Regex `\b<w>\b`: the word `w` standing alone at `i`. */
  predicate WholeWordAt(s: string, i: nat, w: string)
  {
    Boundary(s, i) && At(s, i, w) && Boundary(s, i + |w|)
  }

  /** Regex `\b<stem>\w+`: a word that begins with `stem` and continues. */
  predicate StemAt(s: string, i: nat, stem: string)
  {
    Boundary(s, i) && At(s, i, stem) && WordAt(s, i + |stem|)
  }

  /** End of the greedy `\d*` run that starts at `i`. */
  function DigitRunEnd(s: string, i: nat): (j: nat)
    requires i <= |s|
    ensures i <= j <= |s|
    ensures forall k :: i <= k < j ==> IsDigit(s[k])
    ensures j < |s| ==> !IsDigit(s[j])
    decreases |s| - i
  {
    if i < |s| && IsDigit(s[i]) then DigitRunEnd(s, i + 1) else i
  }

  /** End of the greedy `\d{1,2}` (or shorter, when fewer digits follow) that starts at `i`. */
  function ShortRunEnd(s: string, i: nat): (j: nat)
    requires i <= |s|
    ensures i <= j <= i + 2 && j <= |s|
    ensures forall k :: i <= k < j ==> IsDigit(s[k])
    ensures j < i + 2 && j < |s| ==> !IsDigit(s[j])
  {
    var e := DigitRunEnd(s, i);
    if e - i >= 2 then i + 2 else e
  }

  /** End of the greedy `\s*` run that starts at `i`. */
  function SpaceRunEnd(s: string, i: nat): (j: nat)
    requires i <= |s|
    ensures i <= j <= |s|
    ensures forall k :: i <= k < j ==> IsSpace(s[k])
    ensures j < |s| ==> !IsSpace(s[j])
    decreases |s| - i
  {
    if i < |s| && IsSpace(s[i]) then SpaceRunEnd(s, i + 1) else i
  }

  /** End of the greedy `\D*` run that starts at `i`. */
  function NonDigitRunEnd(s: string, i: nat): (j: nat)
    requires i <= |s|
    ensures i <= j <= |s|
    ensures forall k :: i <= k < j ==> !IsDigit(s[k])
    ensures j < |s| ==> IsDigit(s[j])
    decreases |s| - i
  {
    if i < |s| && !IsDigit(s[i]) then NonDigitRunEnd(s, i + 1) else i
  }

  /** The decimal value of the digits `s[i..j]`. */
  function ValueAt(s: string, i: nat, j: nat): nat
    requires i <= j <= |s|
    requires forall k :: i <= k < j ==> IsDigit(s[k])
  {
    assert AllDigits(s[i..j]);
    Value(s[i..j])
  }

  // ---------------------------------------------------------------------
  // re.search
  // ---------------------------------------------------------------------

  /** The match of `at` at the leftmost position `>= i` where it matches (re.search from `i`). */
  function SearchFrom<T>(s: string, i: nat, at: (string, nat) -> Option<T>): Option<T>
    decreases |s| - i
  {
    if i >= |s| then None
    else if at(s, i).Some? then at(s, i)
    else SearchFrom(s, i + 1, at)
  }

  /** `re.search`: the match at the leftmost position where `at` matches. */
  function Search<T>(s: string, at: (string, nat) -> Option<T>): Option<T>
  {
    SearchFrom(s, 0, at)
  }

  /** A match at `p` with none between `i` and `p` is the one `SearchFrom` returns. */
  lemma {:induction false} SearchFromFirst<T>(s: string, i: nat, at: (string, nat) -> Option<T>, p: nat)
    requires i <= p < |s| && at(s, p).Some?
    requires forall q :: i <= q < p ==> at(s, q).None?
    ensures SearchFrom(s, i, at) == at(s, p)
    decreases p - i
  {
    if i < p {
      SearchFromFirst(s, i + 1, at, p);
    }
  }

  /** With no match from `i` on, `SearchFrom` finds nothing. */
  lemma {:induction false} SearchFromNothing<T>(s: string, i: nat, at: (string, nat) -> Option<T>)
    requires forall q :: i <= q < |s| ==> at(s, q).None?
    ensures SearchFrom(s, i, at).None?
    decreases |s| - i
  {
    if i < |s| {
      SearchFromNothing(s, i + 1, at);
    }
  }

  /** What `SearchFrom` returns is a match, and no position before it matches. */
  lemma {:induction false} SearchFromSound<T>(s: string, i: nat, at: (string, nat) -> Option<T>)
    ensures SearchFrom(s, i, at).Some? ==>
      exists p :: i <= p < |s| && at(s, p) == SearchFrom(s, i, at) && forall q :: i <= q < p ==> at(s, q).None?
    ensures SearchFrom(s, i, at).None? ==> forall q :: i <= q < |s| ==> at(s, q).None?
    decreases |s| - i
  {
    if i < |s| && at(s, i).None? {
      SearchFromSound(s, i + 1, at);
    }
  }

  /** A match at `p` with none before it is the one `Search` returns. */
  lemma SearchFindsFirst<T>(s: string, at: (string, nat) -> Option<T>, p: nat)
    requires p < |s| && at(s, p).Some?
    requires forall q :: 0 <= q < p ==> at(s, q).None?
    ensures Search(s, at) == at(s, p)
  {
    SearchFromFirst(s, 0, at, p);
  }

  /** With no match anywhere, `Search` finds nothing. */
  lemma SearchFindsNothing<T>(s: string, at: (string, nat) -> Option<T>)
    requires forall q :: 0 <= q < |s| ==> at(s, q).None?
    ensures Search(s, at).None?
  {
    SearchFromNothing(s, 0, at);
  }

  /** `re.search(...)` is truthy: the pattern `at` matches at some position. */
  predicate Occurs(s: string, at: (string, nat) -> bool)
  {
    exists i: nat :: i < |s| && at(s, i)
  }

  // ---------------------------------------------------------------------
  // Ordered age rules
  // ---------------------------------------------------------------------

  /** A rule's first match exists and is an accepted age. */
  predicate Accepted(m: Option<nat>)
  {
    m.Some? && AgeInRange(m.value)
  }

  /**
   * The age loops: try each rule in order, look only at its first match,
   * and stop at the first rule whose match is an accepted age.
   */
  function FirstAgeInRange(s: string, rules: seq<(string, nat) -> Option<nat>>): Option<nat>
  {
    if rules == [] then None
    else if Accepted(Search(s, rules[0])) then Search(s, rules[0])
    else FirstAgeInRange(s, rules[1..])
  }

  /**
   * The result is the first match of the earliest rule whose first match is an
   * accepted age, and `None` exactly when no rule's first match is accepted.
   */
  lemma {:induction false} FirstAgeInRangeSpec(s: string, rules: seq<(string, nat) -> Option<nat>>)
    ensures var r := FirstAgeInRange(s, rules);
      r.Some? ==> (
        && AgeInRange(r.value)
        && exists k :: 0 <= k < |rules| && Search(s, rules[k]) == r &&
             forall j :: 0 <= j < k ==> !Accepted(Search(s, rules[j])))
    ensures FirstAgeInRange(s, rules).None? <==> forall k :: 0 <= k < |rules| ==> !Accepted(Search(s, rules[k]))
  {
    if rules != [] && !Accepted(Search(s, rules[0])) {
      FirstAgeInRangeSpec(s, rules[1..]);
      var r := FirstAgeInRange(s, rules);
      if r.Some? {
        var k :| 0 <= k < |rules[1..]| && Search(s, rules[1..][k]) == r &&
          forall j :: 0 <= j < k ==> !Accepted(Search(s, rules[1..][j]));
        assert Search(s, rules[k + 1]) == r;
        forall j | 0 <= j < k + 1 ensures !Accepted(Search(s, rules[j])) {
          if j > 0 {
            assert rules[j] == rules[1..][j - 1];
          }
        }
      } else {
        forall k | 0 <= k < |rules| ensures !Accepted(Search(s, rules[k])) {
          if k > 0 {
            assert rules[k] == rules[1..][k - 1];
          }
        }
      }
    }
  }
}
