/**
 * The parts of java.lang.String, java.lang.Integer and java.util.regex that the
 * command parser and the storage codec rely on, stated over `seq<char>`.
 */
module JavaStrings {
  import opened Wrappers

  const INT_MIN: int := -0x8000_0000
  const INT_MAX: int := 0x7FFF_FFFF

  /** Java `int` arithmetic: the two's-complement wrap-around of `x`. */
  function WrapInt(x: int): (r: int)
    ensures INT_MIN <= r <= INT_MAX
    ensures INT_MIN <= x <= INT_MAX ==> r == x
    ensures x == INT_MIN - 1 ==> r == INT_MAX
  {
    (x - INT_MIN) % 0x1_0000_0000 + INT_MIN
  }

  // ---------------------------------------------------------------- trim

  /** The code points `String.trim` strips: everything up to U+0020. */
  predicate IsTrimmable(c: char) {
    c <= ' '
  }

  function TrimStart(s: string): (r: string)
    ensures |r| <= |s|
  {
    if s != [] && IsTrimmable(s[0]) then TrimStart(s[1..]) else s
  }

  /** `TrimStart` drops the longest prefix of trimmable code points. */
  lemma {:induction false} TrimStartMeaning(s: string)
    ensures TrimStart(s) == s[|s| - |TrimStart(s)|..]
    ensures TrimStart(s) == [] || !IsTrimmable(TrimStart(s)[0])
    ensures forall k :: 0 <= k < |s| - |TrimStart(s)| ==> IsTrimmable(s[k])
  {
    if s != [] && IsTrimmable(s[0]) {
      TrimStartMeaning(s[1..]);
    }
  }

  function TrimEnd(s: string): (r: string)
    ensures |r| <= |s|
  {
    if s != [] && IsTrimmable(s[|s| - 1]) then TrimEnd(s[..|s| - 1]) else s
  }

  /** `TrimEnd` drops the longest suffix of trimmable code points. */
  lemma {:induction false} TrimEndMeaning(s: string)
    ensures TrimEnd(s) == s[..|TrimEnd(s)|]
    ensures TrimEnd(s) == [] || !IsTrimmable(TrimEnd(s)[|TrimEnd(s)| - 1])
    ensures forall k :: |TrimEnd(s)| <= k < |s| ==> IsTrimmable(s[k])
  {
    if s != [] && IsTrimmable(s[|s| - 1]) {
      TrimEndMeaning(s[..|s| - 1]);
    }
  }

  /** `String.trim`: drops the trimmable code points at both ends. */
  function Trim(s: string): (r: string)
    ensures |r| <= |s|
  {
    TrimEnd(TrimStart(s))
  }

  /** The trim has no trimmable code point at either end. */
  lemma TrimEnds(s: string)
    ensures IsTrimmed(Trim(s))
  {
    TrimStartMeaning(s);
    TrimEndMeaning(TrimStart(s));
  }

  /** The trim is empty exactly when every code point is trimmable. */
  lemma TrimEmpty(s: string)
    ensures Trim(s) == [] <==> forall k :: 0 <= k < |s| ==> IsTrimmable(s[k])
  {
    TrimStartMeaning(s);
    TrimEndMeaning(TrimStart(s));
  }

  /** A string is its own trim exactly when neither end is trimmable. */
  predicate IsTrimmed(s: string) {
    s == [] || (!IsTrimmable(s[0]) && !IsTrimmable(s[|s| - 1]))
  }

  lemma TrimOfTrimmed(s: string)
    requires IsTrimmed(s)
    ensures Trim(s) == s
  {
  }

  /** Trimming strips any padding in front of a trimmed text. */
  lemma {:induction false} TrimPadded(pad: string, s: string)
    requires forall k :: 0 <= k < |pad| ==> IsTrimmable(pad[k])
    requires s != [] && IsTrimmed(s)
    ensures Trim(pad + s) == s
  {
    if pad != [] {
      assert (pad + s)[1..] == pad[1..] + s;
      TrimPadded(pad[1..], s);
    }
  }

  /** Trimming a string that starts with a kept character only cuts into its tail. */
  lemma {:induction false} TrimEndAppend(a: string, b: string)
    requires a != [] && !IsTrimmable(a[|a| - 1])
    ensures TrimEnd(a + b) == a + TrimEnd(b)
  {
    if b != [] && IsTrimmable(b[|b| - 1]) {
      assert (a + b)[..|a + b| - 1] == a + b[..|b| - 1];
      TrimEndAppend(a, b[..|b| - 1]);
    } else {
      assert b != [] ==> (a + b)[|a + b| - 1] == b[|b| - 1];
    }
  }

  // ---------------------------------------------------------------- whitespace

  /**
   * `Character.isWhitespace`: the space separators other than the no-break
   * ones, the line and paragraph separators, and the controls U+0009-U+000D
   * and U+001C-U+001F.
   */
  predicate IsWhitespace(c: char) {
    || c == ' '
    || ('\t' <= c <= '\r')
    || ('\U{1C}' <= c <= '\U{1F}')
    || c == '\U{1680}'
    || ('\U{2000}' <= c <= '\U{2006}')
    || ('\U{2008}' <= c <= '\U{200A}')
    || c == '\U{2028}' || c == '\U{2029}' || c == '\U{205F}' || c == '\U{3000}'
  }

  /** `String.isBlank`: empty, or white space only. */
  predicate IsBlank(s: string) {
    forall k :: 0 <= k < |s| ==> IsWhitespace(s[k])
  }

  /** The regex class `\s`: space, tab, line feed, vertical tab, form feed, carriage return. */
  predicate IsRegexSpace(c: char) {
    c == ' ' || ('\t' <= c <= '\r')
  }

  // ---------------------------------------------------------------- literal search and split

  predicate OccursAt(s: string, sep: string, k: int) {
    0 <= k && k + |sep| <= |s| && s[k..k + |sep|] == sep
  }

  /** `s.indexOf(sep, from)`. */
  function IndexOf(s: string, sep: string, from: nat): (r: Option<nat>)
    requires from <= |s|
    ensures r.Some? ==> from <= r.value <= |s| - |sep|
    decreases |s| - from
  {
    if from + |sep| > |s| then None
    else if s[from..from + |sep|] == sep then Some(from)
    else if from == |s| then None
    else IndexOf(s, sep, from + 1)
  }

  /** `indexOf` finds the first occurrence at or after `from`, and None means there is none. */
  lemma {:induction false} IndexOfMeaning(s: string, sep: string, from: nat)
    requires from <= |s|
    ensures IndexOf(s, sep, from).Some? ==> OccursAt(s, sep, IndexOf(s, sep, from).value)
    ensures IndexOf(s, sep, from).Some? ==> forall k :: from <= k < IndexOf(s, sep, from).value ==> !OccursAt(s, sep, k)
    ensures IndexOf(s, sep, from).None? ==> forall k :: from <= k ==> !OccursAt(s, sep, k)
    decreases |s| - from
  {
    if from + |sep| <= |s| && s[from..from + |sep|] != sep && from < |s| {
      IndexOfMeaning(s, sep, from + 1);
    }
  }

  /**
   * `s.split(sep, 2)` for a separator without regular-expression
   * metacharacters: None when the split gives one part, otherwise the text
   * before and after the first occurrence of `sep`.
   */
  function SplitOnce(s: string, sep: string): (r: Option<(string, string)>)
    requires sep != []
  {
    match IndexOf(s, sep, 0)
    case None => None
    case Some(i) => Some((s[..i], s[i + |sep|..]))
  }

  /** The split is at the first occurrence of `sep`, and there is none exactly when the split gives one part. */
  lemma SplitOnceMeaning(s: string, sep: string)
    requires sep != []
    ensures SplitOnce(s, sep).None? <==> forall k :: 0 <= k ==> !OccursAt(s, sep, k)
    ensures SplitOnce(s, sep).Some? ==>
      var (a, b) := SplitOnce(s, sep).value;
      && s == a + sep + b && OccursAt(s, sep, |a|)
      && forall k :: 0 <= k < |a| ==> !OccursAt(s, sep, k)
  {
    IndexOfMeaning(s, sep, 0);
    match IndexOf(s, sep, 0)
    case None =>
    case Some(i) =>
      assert s == s[..i] + s[i..i + |sep|] + s[i + |sep|..];
  }

  /** Index of the first `\s` character at or after `from`, or |s| when there is none. */
  function SpaceIndex(s: string, from: nat): (r: nat)
    requires from <= |s|
    ensures from <= r <= |s|
    ensures forall k :: from <= k < r ==> !IsRegexSpace(s[k])
    ensures r < |s| ==> IsRegexSpace(s[r])
    decreases |s| - from
  {
    if from == |s| || IsRegexSpace(s[from]) then from else SpaceIndex(s, from + 1)
  }

  /** End of the run of `\s` characters that starts at `from`. */
  function SpaceRunEnd(s: string, from: nat): (r: nat)
    requires from <= |s|
    ensures from <= r <= |s|
    ensures forall k :: from <= k < r ==> IsRegexSpace(s[k])
    ensures r < |s| ==> !IsRegexSpace(s[r])
    decreases |s| - from
  {
    if from == |s| || !IsRegexSpace(s[from]) then from else SpaceRunEnd(s, from + 1)
  }

  /**
   * `s.split("\\s+", 2)`: None when there is no whitespace (one part),
   * otherwise the text before the first whitespace run and everything after it.
   */
  function SplitAtSpaceRun(s: string): (r: Option<(string, string)>)
    ensures r.None? ==> forall k :: 0 <= k < |s| ==> !IsRegexSpace(s[k])
    ensures r.Some? ==> |r.value.0| < |s| && IsRegexSpace(s[|r.value.0|])
    ensures r.Some? ==> forall k :: 0 <= k < |r.value.0| ==> !IsRegexSpace(s[k])
    ensures r.Some? ==> r.value.1 == [] || !IsRegexSpace(r.value.1[0])
  {
    var i := SpaceIndex(s, 0);
    if i == |s| then None else Some((s[..i], s[SpaceRunEnd(s, i)..]))
  }

  /** Element 0 of `s.split("\\s+")` (and of `s.split("\\s+", 2)`) for a string that does not start with whitespace. */
  function FirstWord(s: string): (r: string)
    ensures |r| <= |s| && r == s[..|r|]
    ensures forall k :: 0 <= k < |r| ==> !IsRegexSpace(r[k])
    ensures |r| < |s| ==> IsRegexSpace(s[|r|])
  {
    s[..SpaceIndex(s, 0)]
  }

  /**
   * Element 1 of `s.split("\\s+")`, or None when that array has fewer than
   * two elements (trailing empty strings are dropped by `split`).
   */
  function SecondWord(s: string): (r: Option<string>)
    ensures r.Some? ==> r.value != [] && forall k :: 0 <= k < |r.value| ==> !IsRegexSpace(r.value[k])
  {
    var i := SpaceIndex(s, 0);
    if i == |s| then None
    else
      var j := SpaceRunEnd(s, i);
      if j == |s| then None else Some(s[j..SpaceIndex(s, j)])
  }

  /** The word after the first space of `w + " " + t + tail` is `t` when `tail` is empty or starts with whitespace. */
  lemma SecondWordOf(w: string, t: string, tail: string)
    requires forall k :: 0 <= k < |w| ==> !IsRegexSpace(w[k])
    requires t != [] && forall k :: 0 <= k < |t| ==> !IsRegexSpace(t[k])
    requires tail == [] || IsRegexSpace(tail[0])
    ensures SecondWord(w + " " + t + tail) == Some(t)
  {
    var s := w + " " + t + tail;
    assert forall k :: 0 <= k < |w| ==> s[k] == w[k];
    assert s[|w|] == ' ';
    SpaceIndexAt(s, 0, |w|);
    assert SpaceRunEnd(s, |w| + 1) == |w| + 1 by {
      assert s[|w| + 1] == t[0];
    }
    assert SpaceRunEnd(s, |w|) == |w| + 1;
    assert forall k :: |w| + 1 <= k < |w| + 1 + |t| ==> s[k] == t[k - |w| - 1];
    SpaceIndexAt(s, |w| + 1, |w| + 1 + |t|);
    assert s[|w| + 1..|w| + 1 + |t|] == t;
  }

  /** The first word of a word followed by nothing or by a `\s` character is that word. */
  lemma {:induction false} FirstWordOf(w: string, tail: string)
    requires forall k :: 0 <= k < |w| ==> !IsRegexSpace(w[k])
    requires tail == [] || IsRegexSpace(tail[0])
    ensures FirstWord(w + tail) == w
  {
    var s := w + tail;
    assert forall k :: 0 <= k < |w| ==> s[k] == w[k];
    SpaceIndexAt(s, 0, |w|);
    assert s[..|w|] == w;
  }

  /** SpaceIndex stops at the first whitespace character. */
  lemma SpaceIndexAt(s: string, from: nat, i: nat)
    requires from <= i <= |s|
    requires forall k :: from <= k < i ==> !IsRegexSpace(s[k])
    requires i == |s| || IsRegexSpace(s[i])
    ensures SpaceIndex(s, from) == i
  {
  }

  // ---------------------------------------------------------------- decimal numbers

  predicate IsDigit(c: char) {
    '0' <= c <= '9'
  }

  predicate AllDigits(s: string) {
    forall k :: 0 <= k < |s| ==> IsDigit(s[k])
  }

  function DigitValue(c: char): nat
    requires IsDigit(c)
  {
    c as int - '0' as int
  }

  function DigitChar(d: nat): (c: char)
    requires d < 10
    ensures IsDigit(c) && DigitValue(c) == d
  {
    ('0' as int + d) as char
  }

  /** The value of a string of decimal digits. */
  function DigitsValue(s: string): nat
    requires AllDigits(s)
  {
    if s == [] then 0 else DigitsValue(s[..|s| - 1]) * 10 + DigitValue(s[|s| - 1])
  }

  function Pow10(n: nat): (r: nat)
    ensures r >= 1
  {
    if n == 0 then 1 else 10 * Pow10(n - 1)
  }

  /** `Integer.toString(n)` for n >= 0: shortest decimal digits. */
  function NatToString(n: nat): (r: string)
    ensures r != [] && AllDigits(r)
    ensures n >= 10 ==> |r| >= 2
    ensures n >= 100 ==> |r| >= 3
    ensures n >= 1000 ==> |r| >= 4
  {
    if n < 10 then [DigitChar(n)] else NatToString(n / 10) + [DigitChar(n % 10)]
  }

  /** `Integer.toString(n)`, also used by `StringBuilder.append(int)` and string concatenation. */
  function IntToString(n: int): (r: string)
    ensures r != []
  {
    if n < 0 then "-" + NatToString(-n) else NatToString(n)
  }

  /** The last `width` decimal digits of `n`, zero-padded (the printing of a fixed-width field such as `MM`). */
  function FixedDigits(n: nat, width: nat): (r: string)
    ensures |r| == width && AllDigits(r)
  {
    if width == 0 then [] else FixedDigits(n / 10, width - 1) + [DigitChar(n % 10)]
  }

  lemma {:induction false} NatToStringValue(n: nat)
    ensures DigitsValue(NatToString(n)) == n
  {
    if n >= 10 {
      var s := NatToString(n / 10) + [DigitChar(n % 10)];
      assert s[..|s| - 1] == NatToString(n / 10);
      NatToStringValue(n / 10);
    }
  }

  lemma {:induction false} FixedDigitsValue(n: nat, width: nat)
    requires n < Pow10(width)
    ensures DigitsValue(FixedDigits(n, width)) == n
  {
    if width > 0 {
      var s := FixedDigits(n / 10, width - 1) + [DigitChar(n % 10)];
      assert s[..|s| - 1] == FixedDigits(n / 10, width - 1);
      assert n / 10 < Pow10(width - 1);
      FixedDigitsValue(n / 10, width - 1);
    }
  }

  /**
   * `Integer.parseInt(s)` in radix 10: an optional sign, at least one digit,
   * and a value that fits in an `int`; None where Java throws
   * NumberFormatException.
   */
  function ParseInt(s: string): (r: Option<int>)
    ensures r.Some? ==> INT_MIN <= r.value <= INT_MAX
    ensures r.Some? ==> s != [] && (IsDigit(s[0]) || s[0] == '+' || s[0] == '-')
  {
    if s == [] then None
    else
      var signed := s[0] == '-' || s[0] == '+';
      var digits := if signed then s[1..] else s;
      if digits == [] || !AllDigits(digits) then None
      else
        var v: int := if s[0] == '-' then -(DigitsValue(digits) as int) else DigitsValue(digits);
        if INT_MIN <= v <= INT_MAX then Some(v) else None
  }

  /** Every `int` survives a print and re-parse. */
  lemma ParseIntOfIntToString(n: int)
    requires INT_MIN <= n <= INT_MAX
    ensures ParseInt(IntToString(n)) == Some(n)
  {
    if n < 0 {
      var s := "-" + NatToString(-n);
      assert s[1..] == NatToString(-n);
      NatToStringValue(-n);
    } else {
      NatToStringValue(n);
    }
  }

  // ---------------------------------------------------------------- case

  /** `Character.toLowerCase` restricted to ASCII letters. */
  function LowerChar(c: char): char {
    if 'A' <= c <= 'Z' then (c as int - 'A' as int + 'a' as int) as char else c
  }

  /** `String.toLowerCase`, ASCII letters only. */
  function ToLower(s: string): (r: string)
    ensures |r| == |s|
    ensures forall k :: 0 <= k < |s| ==> r[k] == LowerChar(s[k])
  {
    seq(|s|, k requires 0 <= k < |s| => LowerChar(s[k]))
  }

  lemma ToLowerIdempotent(s: string)
    ensures ToLower(ToLower(s)) == ToLower(s)
  {
  }
}
