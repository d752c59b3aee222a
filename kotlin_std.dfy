/**
 * The behaviour of the few Kotlin standard-library calls the modelled code
 * relies on (find, filter, count, joinToString, trim, isBlank, split,
 * substringAfter, removePrefix, toInt), stated once and used by every other
 * module, together with the exceptions the code throws, modelled as values.
 */
module KotlinStd {

  datatype Option<+T> = None | Some(value: T)

  /** The exceptions thrown by the modelled code. */
  datatype Error =
    | ContractException(message: string)
    | NoMatchingScenario(message: string)
    | NumberFormatException(input: string)
    | NoSuchElementException

  /** A call either returns a value or throws. */
  datatype Outcome<+T> = Ok(value: T) | Thrown(error: Error)

  // ---------------------------------------------------------------------
  // Collections

  /** Position of the first element satisfying p, or |s| when there is none. */
  function IndexWhere<T>(s: seq<T>, p: T -> bool): (k: nat)
    ensures k <= |s|
    ensures k < |s| ==> p(s[k])
    ensures forall j :: 0 <= j < k ==> !p(s[j])
  {
    if s == [] then 0 else if p(s[0]) then 0 else 1 + IndexWhere(s[1..], p)
  }

  /** Kotlin's `find` / `firstOrNull { p }`. */
  function Find<T>(s: seq<T>, p: T -> bool): (r: Option<T>)
    ensures r.None? <==> forall i :: 0 <= i < |s| ==> !p(s[i])
    ensures r.Some? ==> exists i :: 0 <= i < |s| && s[i] == r.value && p(s[i]) && forall j :: 0 <= j < i ==> !p(s[j])
  {
    var k := IndexWhere(s, p);
    if k < |s| then Some(s[k]) else None
  }

  /** Kotlin's `filter { p }`: the elements satisfying p, in their order. */
  function Filter<T>(s: seq<T>, p: T -> bool): (r: seq<T>)
    ensures |r| <= |s|
    ensures forall i :: 0 <= i < |r| ==> r[i] in s && p(r[i])
    ensures forall i :: 0 <= i < |s| && p(s[i]) ==> s[i] in r
  {
    if s == [] then [] else (if p(s[0]) then [s[0]] else []) + Filter(s[1..], p)
  }

  /** Filtering distributes over concatenation, so it keeps the original order. */
  lemma {:induction false} FilterConcat<T>(a: seq<T>, b: seq<T>, p: T -> bool)
    ensures Filter(a + b, p) == Filter(a, p) + Filter(b, p)
  {
    if a == [] {
      assert a + b == b;
    } else {
      assert (a + b)[0] == a[0];
      assert (a + b)[1..] == a[1..] + b;
      FilterConcat(a[1..], b, p);
    }
  }

  /** Filtering a sequence whose elements all pass leaves it unchanged. */
  lemma {:induction false} FilterAllPass<T>(s: seq<T>, p: T -> bool)
    requires forall i :: 0 <= i < |s| ==> p(s[i])
    ensures Filter(s, p) == s
  {
    if s != [] {
      FilterAllPass(s[1..], p);
    }
  }

  /** Nothing passes, so nothing is kept. */
  lemma {:induction false} FilterNonePass<T>(s: seq<T>, p: T -> bool)
    requires forall i :: 0 <= i < |s| ==> !p(s[i])
    ensures Filter(s, p) == []
  {
    if s != [] {
      FilterNonePass(s[1..], p);
    }
  }

  /** Filtering twice with the same predicate is filtering once. */
  lemma FilterIdempotent<T>(s: seq<T>, p: T -> bool)
    ensures Filter(Filter(s, p), p) == Filter(s, p)
  {
    FilterAllPass(Filter(s, p), p);
  }

  /** Kotlin's `count { p }`. */
  function Count<T>(s: seq<T>, p: T -> bool): (n: nat)
    ensures n == |Filter(s, p)|
    ensures n <= |s|
  {
    if s == [] then 0 else (if p(s[0]) then 1 else 0) + Count(s[1..], p)
  }

  /** Kotlin's `joinToString(sep)`. */
  function Join(parts: seq<string>, sep: string): string
  {
    if |parts| == 0 then "" else if |parts| == 1 then parts[0] else parts[0] + sep + Join(parts[1..], sep)
  }

  /** A character in neither the parts nor the separator is not in the joined string. */
  lemma {:induction false} JoinExcludes(parts: seq<string>, sep: string, c: char)
    requires c !in sep
    requires forall i :: 0 <= i < |parts| ==> c !in parts[i]
    ensures c !in Join(parts, sep)
  {
    if |parts| > 1 {
      JoinExcludes(parts[1..], sep, c);
      assert parts[0] + sep + Join(parts[1..], sep) == Join(parts, sep);
    }
  }

  /** x occurs in s starting at position i. */
  predicate OccursAt(x: string, s: string, i: int)
  {
    0 <= i && i + |x| <= |s| && s[i..i + |x|] == x
  }

  ghost predicate IsSubstring(x: string, s: string)
  {
    exists i :: OccursAt(x, s, i)
  }

  lemma SubstringOfConcat(x: string, a: string, b: string, c: string)
    requires IsSubstring(x, b)
    ensures IsSubstring(x, a + b + c)
  {
    var i :| OccursAt(x, b, i);
    var s := a + b + c;
    assert s[|a| + i..|a| + i + |x|] == b[i..i + |x|];
    assert OccursAt(x, s, |a| + i);
  }

  lemma SubstringOfSelf(x: string)
    ensures IsSubstring(x, x)
  {
    assert OccursAt(x, x, 0);
  }

  /** Every joined part occurs in the joined string. */
  lemma {:induction false} JoinContainsPart(parts: seq<string>, sep: string, i: nat)
    requires i < |parts|
    ensures IsSubstring(parts[i], Join(parts, sep))
  {
    if |parts| == 1 {
      SubstringOfSelf(parts[0]);
      assert parts[0] + "" + "" == parts[0];
      SubstringOfConcat(parts[i], "", parts[0], "");
    } else if i == 0 {
      SubstringOfSelf(parts[0]);
      SubstringOfConcat(parts[0], "", parts[0], sep + Join(parts[1..], sep));
      assert "" + parts[0] + (sep + Join(parts[1..], sep)) == Join(parts, sep);
    } else {
      JoinContainsPart(parts[1..], sep, i - 1);
      SubstringOfConcat(parts[i], parts[0] + sep, Join(parts[1..], sep), "");
      assert parts[0] + sep + Join(parts[1..], sep) + "" == Join(parts, sep);
    }
  }

  // ---------------------------------------------------------------------
  // Characters and strings

  /** Kotlin's `Char.isWhitespace()`: Java whitespace or a Unicode space, line or paragraph separator. */
  predicate IsWhitespace(c: char)
  {
    || c == ' ' || c == '\t' || c == '\n' || c == '\U{B}' || c == '\U{C}' || c == '\r'
    || ('\U{1C}' <= c <= '\U{1F}')
    || c == '\U{A0}' || c == '\U{1680}' || ('\U{2000}' <= c <= '\U{200A}')
    || c == '\U{2028}' || c == '\U{2029}' || c == '\U{202F}' || c == '\U{205F}' || c == '\U{3000}'
  }

  /** The class `\s` of a Java regular expression. */
  predicate IsRegexSpace(c: char)
  {
    c == ' ' || c == '\t' || c == '\n' || c == '\U{B}' || c == '\U{C}' || c == '\r'
  }

  predicate IsNotRegexSpace(c: char)
  {
    !IsRegexSpace(c)
  }

  predicate NoRegexSpace(s: string)
  {
    forall i :: 0 <= i < |s| ==> !IsRegexSpace(s[i])
  }

  /** Kotlin's `isBlank()`: empty or whitespace only. */
  predicate IsBlank(s: string)
  {
    forall i :: 0 <= i < |s| ==> IsWhitespace(s[i])
  }

  lemma BlankConcat(a: string, b: string)
    ensures IsBlank(a + b) <==> IsBlank(a) && IsBlank(b)
  {
    if IsBlank(a) && IsBlank(b) {
      forall i | 0 <= i < |a + b| ensures IsWhitespace((a + b)[i]) {
        if i < |a| { assert (a + b)[i] == a[i]; } else { assert (a + b)[i] == b[i - |a|]; }
      }
    }
    if IsBlank(a + b) {
      forall i | 0 <= i < |a| ensures IsWhitespace(a[i]) { assert (a + b)[i] == a[i]; }
      forall i | 0 <= i < |b| ensures IsWhitespace(b[i]) { assert (a + b)[|a| + i] == b[i]; }
    }
  }

  /** A joined string is blank exactly when every part is, and so is the separator wherever it is used. */
  lemma {:induction false} JoinBlank(parts: seq<string>, sep: string)
    ensures IsBlank(Join(parts, sep)) <==>
      (|parts| <= 1 || IsBlank(sep)) && forall i :: 0 <= i < |parts| ==> IsBlank(parts[i])
  {
    if |parts| > 1 {
      JoinBlank(parts[1..], sep);
      BlankConcat(parts[0], sep);
      BlankConcat(parts[0] + sep, Join(parts[1..], sep));
      if forall i :: 1 <= i < |parts| ==> IsBlank(parts[i]) {
        assert forall i :: 0 <= i < |parts[1..]| ==> IsBlank(parts[1..][i]) by {
          forall i | 0 <= i < |parts[1..]| ensures IsBlank(parts[1..][i]) { assert parts[1..][i] == parts[i + 1]; }
        }
      }
      if forall i :: 0 <= i < |parts[1..]| ==> IsBlank(parts[1..][i]) {
        forall i | 1 <= i < |parts| ensures IsBlank(parts[i]) { assert parts[i] == parts[1..][i - 1]; }
      }
    }
  }

  function TrimStart(s: string): (r: string)
    ensures |r| <= |s| && r == s[|s| - |r|..]
    ensures IsBlank(s[..|s| - |r|])
    ensures r == [] || !IsWhitespace(r[0])
  {
    if s != [] && IsWhitespace(s[0]) then TrimStart(s[1..]) else s
  }

  function TrimEnd(s: string): (r: string)
    ensures |r| <= |s| && r == s[..|r|]
    ensures IsBlank(s[|r|..])
    ensures r == [] || !IsWhitespace(r[|r| - 1])
  {
    if s != [] && IsWhitespace(s[|s| - 1]) then TrimEnd(s[..|s| - 1]) else s
  }

  /** Kotlin's `trim()`: the string without leading and trailing whitespace. */
  function Trim(s: string): (r: string)
    ensures r == [] || (!IsWhitespace(r[0]) && !IsWhitespace(r[|r| - 1]))
  {
    TrimEnd(TrimStart(s))
  }

  /** Every piece of a blank string is blank. */
  lemma BlankSubstring(x: string, s: string)
    requires IsSubstring(x, s) && IsBlank(s)
    ensures IsBlank(x)
  {
    var i :| OccursAt(x, s, i);
    forall k | 0 <= k < |x| ensures IsWhitespace(x[k]) {
      assert x[k] == s[i + k];
    }
  }

  /** Trimming leaves nothing exactly when the string is blank. */
  lemma TrimEmpty(s: string)
    ensures Trim(s) == [] <==> IsBlank(s)
  {
    if IsBlank(s) {
      TrimStartOfBlank(s);
    } else {
      TrimOfNonBlank(s);
    }
  }

  lemma {:induction false} TrimStartOfBlank(s: string)
    requires IsBlank(s)
    ensures TrimStart(s) == []
  {
    if s != [] {
      assert IsWhitespace(s[0]);
      assert IsBlank(s[1..]) by {
        forall i | 0 <= i < |s[1..]| ensures IsWhitespace(s[1..][i]) { assert s[1..][i] == s[i + 1]; }
      }
      TrimStartOfBlank(s[1..]);
    }
  }

  lemma TrimOfNonBlank(s: string)
    requires !IsBlank(s)
    ensures Trim(s) != []
  {
    var t := TrimStart(s);
    var prefix := s[..|s| - |t|];
    assert s == prefix + t;
    BlankConcat(prefix, t);
    assert t != [] && !IsWhitespace(t[0]);
  }

  function StartsWith(s: string, prefix: string): bool
  {
    |prefix| <= |s| && s[..|prefix|] == prefix
  }

  function EndsWith(s: string, suffix: string): bool
  {
    |suffix| <= |s| && s[|s| - |suffix|..] == suffix
  }

  /** Kotlin's `removePrefix`. */
  function RemovePrefix(s: string, prefix: string): (r: string)
    ensures StartsWith(s, prefix) ==> prefix + r == s
    ensures !StartsWith(s, prefix) ==> r == s
  {
    if StartsWith(s, prefix) then s[|prefix|..] else s
  }

  predicate IsChar(d: char, c: char)
  {
    c == d
  }

  /** Position of the first `d` in s, or |s|. */
  function IndexOf(s: string, d: char): (k: nat)
    ensures k <= |s|
    ensures k < |s| ==> s[k] == d
    ensures d !in s[..k]
    ensures k == |s| <==> d !in s
  {
    var k := IndexWhere(s, c => IsChar(d, c));
    assert forall j :: 0 <= j < k ==> s[..k][j] == s[j];
    k
  }

  /** Kotlin's `substringAfter(d)`: the text after the first `d`, or the whole string. */
  function SubstringAfter(s: string, d: char): (r: string)
    ensures d !in s ==> r == s
    ensures d in s ==> s == s[..IndexOf(s, d)] + [d] + r
  {
    var k := IndexOf(s, d);
    if k == |s| then s else s[k + 1..]
  }

  /** Kotlin's `split(d)` on a one-character delimiter: every occurrence splits. */
  function SplitOn(s: string, d: char): (parts: seq<string>)
    ensures |parts| >= 1
    ensures forall i :: 0 <= i < |parts| ==> d !in parts[i]
    ensures Join(parts, [d]) == s
    ensures |parts| == 1 <==> d !in s
    decreases |s|
  {
    var k := IndexOf(s, d);
    if k == |s| then [s]
    else
      var rest := SplitOn(s[k + 1..], d);
      var parts := [s[..k]] + rest;
      assert parts[1..] == rest;
      assert s == s[..k] + [d] + s[k + 1..];
      parts
  }

  lemma IndexOfAfter(a: string, d: char, b: string)
    requires d !in a
    ensures IndexOf(a + [d] + b, d) == |a|
  {
    var s := a + [d] + b;
    assert s[|a|] == d;
    assert s[..|a|] == a;
  }

  lemma SplitOnStep(a: string, d: char, b: string)
    requires d !in a
    ensures SplitOn(a + [d] + b, d) == [a] + SplitOn(b, d)
  {
    var s := a + [d] + b;
    IndexOfAfter(a, d, b);
    assert s[..|a|] == a;
    assert s[|a| + 1..] == b;
  }

  /** Splitting what was joined on d gives back the parts, when no part holds d. */
  lemma {:induction false} SplitOnJoin(parts: seq<string>, d: char)
    requires |parts| >= 1
    requires forall i :: 0 <= i < |parts| ==> d !in parts[i]
    ensures SplitOn(Join(parts, [d]), d) == parts
  {
    if |parts| > 1 {
      SplitOnStep(parts[0], d, Join(parts[1..], [d]));
      SplitOnJoin(parts[1..], d);
      assert parts == [parts[0]] + parts[1..];
    }
  }

  lemma SplitOnFirst(s: string, d: char)
    requires d in s
    ensures SplitOn(s, d)[0] == s[..IndexOf(s, d)]
  {
  }

  /**
   * Kotlin's `split(Regex("\\s+"), limit)`: at most limit - 1 maximal runs of
   * regex whitespace split the string, the rest stays in the last part; a limit
   * of 0 means no limit. Empty leading and trailing parts are kept.
   */
  function SplitSpaces(s: string, limit: nat): (parts: seq<string>)
    ensures |parts| >= 1
    ensures limit > 0 ==> |parts| <= limit
    ensures forall i :: 0 <= i < |parts| - 1 ==> NoRegexSpace(parts[i])
    ensures limit == 0 || |parts| < limit ==> NoRegexSpace(parts[|parts| - 1])
    decreases |s|
  {
    var k := IndexWhere(s, IsRegexSpace);
    if limit == 1 || k == |s| then [s]
    else
      var e := k + 1 + IndexWhere(s[k + 1..], IsNotRegexSpace);
      var rest := SplitSpaces(s[e..], if limit == 0 then 0 else limit - 1);
      [s[..k]] + rest
  }

  /** The parts rejoin to the input, one maximal run of whitespace between neighbours. */
  lemma {:induction false} SplitSpacesRejoins(s: string, limit: nat)
    ensures JoinedBySpaceRuns(SplitSpaces(s, limit), s)
    decreases |s|
  {
    var k := IndexWhere(s, IsRegexSpace);
    if limit == 1 || k == |s| {
      assert SplitSpaces(s, limit) == [s];
    } else {
      var e := k + 1 + IndexWhere(s[k + 1..], IsNotRegexSpace);
      var rest := SplitSpaces(s[e..], if limit == 0 then 0 else limit - 1);
      assert SplitSpaces(s, limit) == [s[..k]] + rest;
      SplitSpacesRejoins(s[e..], if limit == 0 then 0 else limit - 1);
      JoinedBySpaceRunsStep(s, k, e, rest);
    }
  }

  lemma JoinedBySpaceRunsStep(s: string, k: nat, e: nat, rest: seq<string>)
    requires k < |s| && IsRegexSpace(s[k])
    requires e == k + 1 + IndexWhere(s[k + 1..], IsNotRegexSpace)
    requires JoinedBySpaceRuns(rest, s[e..])
    ensures JoinedBySpaceRuns([s[..k]] + rest, s)
  {
    assert AllRegexSpace(s[k..e]) by {
      assert forall j :: k < j < e ==> s[j] == s[k + 1..][j - k - 1];
    }
    assert e == |s| || !IsRegexSpace(s[e]) by {
      if e < |s| { assert s[e] == s[k + 1..][e - k - 1]; }
    }
    assert ([s[..k]] + rest)[1..] == rest;
  }

  /**
   * s is parts[0], a maximal non-empty run of whitespace, parts[1], another
   * such run, ... and finally the last part.
   */
  predicate JoinedBySpaceRuns(parts: seq<string>, s: string)
    decreases |parts|
  {
    |parts| >= 1 &&
    if |parts| == 1 then s == parts[0]
    else
      var n := |parts[0]|;
      n < |s| && s[..n] == parts[0] &&
      exists e :: n < e <= |s| && AllRegexSpace(s[n..e]) && (e == |s| || !IsRegexSpace(s[e])) &&
        JoinedBySpaceRuns(parts[1..], s[e..])
  }

  predicate AllRegexSpace(s: string)
  {
    forall i :: 0 <= i < |s| ==> IsRegexSpace(s[i])
  }

  /** A leading word followed by a run of whitespace is the first part; the rest is split again. */
  lemma SplitSpacesStep(a: string, w: string, b: string, limit: nat)
    requires NoRegexSpace(a) && |w| > 0 && AllRegexSpace(w)
    requires b == [] || !IsRegexSpace(b[0])
    requires limit != 1
    ensures SplitSpaces(a + w + b, limit) == [a] + SplitSpaces(b, if limit == 0 then 0 else limit - 1)
  {
    var s := a + w + b;
    var k := IndexWhere(s, IsRegexSpace);
    assert s[|a|] == w[0];
    assert forall j :: 0 <= j < |a| ==> s[j] == a[j];
    assert k == |a|;
    var t := s[k + 1..];
    var m := IndexWhere(t, IsNotRegexSpace);
    assert forall j :: 0 <= j < |w| - 1 ==> t[j] == w[j + 1];
    if b != [] {
      assert t[|w| - 1] == b[0];
    }
    assert m == |w| - 1;
    assert s[..k] == a;
    assert s[k + 1 + m..] == b;
  }

  lemma SplitSpacesNoSpace(s: string, limit: nat)
    requires NoRegexSpace(s)
    ensures SplitSpaces(s, limit) == [s]
  {
  }

  // ---------------------------------------------------------------------
  // Numbers

  const MinInt: int := -0x8000_0000
  const MaxInt: int := 0x7FFF_FFFF

  predicate IsDigit(c: char)
  {
    '0' <= c <= '9'
  }

  predicate AllDigits(s: string)
  {
    forall i :: 0 <= i < |s| ==> IsDigit(s[i])
  }

  function DigitsValue(s: string): nat
    requires AllDigits(s)
  {
    if s == [] then 0 else 10 * DigitsValue(s[..|s| - 1]) + (s[|s| - 1] as int - '0' as int)
  }

  /** Kotlin's `String.toInt()` on decimal digits: an optional sign, at least one digit, a 32-bit range. */
  function ToInt(s: string): (r: Outcome<int>)
    ensures r.Ok? ==> MinInt <= r.value <= MaxInt
    ensures r.Thrown? ==> r.error == NumberFormatException(s)
    ensures r.Ok? ==> |s| > 0
  {
    var signed := |s| > 0 && (s[0] == '-' || s[0] == '+');
    var digits := if signed then s[1..] else s;
    if |digits| == 0 || !AllDigits(digits) then Thrown(NumberFormatException(s))
    else
      var v: int := if signed && s[0] == '-' then -(DigitsValue(digits) as int) else DigitsValue(digits) as int;
      if MinInt <= v <= MaxInt then Ok(v) else Thrown(NumberFormatException(s))
  }

  function DigitChar(d: nat): char
    requires d < 10
  {
    ('0' as int + d) as char
  }

  /** Decimal rendering of a natural number, as Kotlin's string templates print it. */
  function NatToString(n: nat): (s: string)
    ensures |s| > 0 && AllDigits(s)
  {
    if n < 10 then [DigitChar(n)] else NatToString(n / 10) + [DigitChar(n % 10)]
  }

  lemma {:induction false} DigitsValueOfNatToString(n: nat)
    ensures DigitsValue(NatToString(n)) == n
  {
    if n >= 10 {
      DigitsValueOfNatToString(n / 10);
      var s := NatToString(n);
      assert s[..|s| - 1] == NatToString(n / 10);
    }
  }

  /** Reading back a rendered number in the 32-bit range gives the number. */
  lemma ToIntOfNatToString(n: nat)
    requires n <= MaxInt
    ensures ToInt(NatToString(n)) == Ok(n)
  {
    DigitsValueOfNatToString(n);
  }
}
