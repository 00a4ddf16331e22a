/** The string operations of the .NET and Java base libraries that the
    system relies on: prefix and suffix tests, Java's `String.trim`, ASCII
    case folding for `OrdinalIgnoreCase`, `Path.GetFileName` /
    `Path.GetDirectoryName`, and decimal formatting of integers. */
module Strings {
  import opened Wrappers

  predicate StartsWith(s: string, prefix: string) {
    |prefix| <= |s| && s[..|prefix|] == prefix
  }

  predicate EndsWith(s: string, suffix: string) {
    |suffix| <= |s| && s[|s| - |suffix|..] == suffix
  }

  /** `s.Contains(sub)` / `s.contains(sub)`. */
  predicate Contains(s: string, sub: string)
    decreases |s|
  {
    StartsWith(s, sub) || (|s| > 0 && Contains(s[1..], sub))
  }

  lemma {:induction false} ContainsSlice(s: string, sub: string, k: nat)
    requires k + |sub| <= |s| && s[k..k + |sub|] == sub
    ensures Contains(s, sub)
  {
    if k > 0 {
      assert s[1..][k - 1..k - 1 + |sub|] == s[k..k + |sub|];
      ContainsSlice(s[1..], sub, k - 1);
    }
  }

  lemma EndsWithAppend(a: string, b: string)
    ensures EndsWith(a + b, b)
  {
    assert (a + b)[|a + b| - |b|..] == b;
  }

  // Java String.trim

  /** Java's `trim` treats every character up to U+0020 as blank. */
  predicate IsBlank(c: char) {
    c <= ' '
  }

  /** Number of leading blanks. */
  function LeadingBlanks(s: string): (n: nat)
    ensures n <= |s|
    ensures forall i :: 0 <= i < n ==> IsBlank(s[i])
    ensures n < |s| ==> !IsBlank(s[n])
  {
    if |s| > 0 && IsBlank(s[0]) then 1 + LeadingBlanks(s[1..]) else 0
  }

  /** Number of trailing blanks. */
  function TrailingBlanks(s: string): (n: nat)
    ensures n <= |s|
    ensures forall i :: |s| - n <= i < |s| ==> IsBlank(s[i])
    ensures n < |s| ==> !IsBlank(s[|s| - n - 1])
  {
    if |s| > 0 && IsBlank(s[|s| - 1]) then 1 + TrailingBlanks(s[..|s| - 1]) else 0
  }

  /** `String.trim()`: the longest slice of `s` that neither starts nor ends
      with a blank, obtained by removing only blanks. */
  function Trim(s: string): (r: string)
    ensures |r| > 0 ==> !IsBlank(r[0]) && !IsBlank(r[|r| - 1])
    ensures var a := LeadingBlanks(s);
      && a + |r| <= |s|
      && r == s[a..a + |r|]
      && (forall i :: a + |r| <= i < |s| ==> IsBlank(s[i]))
  {
    var a := LeadingBlanks(s);
    var rest := s[a..];
    rest[..|rest| - TrailingBlanks(rest)]
  }

  /** A string that neither starts nor ends with a blank is its own trim;
      in particular `Trim` is idempotent. */
  lemma TrimNoBlankEnds(s: string)
    requires |s| > 0 ==> !IsBlank(s[0]) && !IsBlank(s[|s| - 1])
    ensures Trim(s) == s
  {
  }

  lemma TrimIdempotent(s: string)
    ensures Trim(Trim(s)) == Trim(s)
  {
    TrimNoBlankEnds(Trim(s));
  }

  lemma {:induction false} LeadingBlanksAfterBlanks(a: string, s: string)
    requires forall i :: 0 <= i < |a| ==> IsBlank(a[i])
    ensures LeadingBlanks(a + s) == |a| + LeadingBlanks(s)
  {
    if |a| > 0 {
      assert (a + s)[1..] == a[1..] + s;
      LeadingBlanksAfterBlanks(a[1..], s);
    } else {
      assert a + s == s;
    }
  }

  lemma {:induction false} TrailingBlanksBeforeBlanks(s: string, b: string)
    requires forall i :: 0 <= i < |b| ==> IsBlank(b[i])
    ensures TrailingBlanks(s + b) == TrailingBlanks(s) + |b|
  {
    if |b| > 0 {
      assert (s + b)[..|s + b| - 1] == s + b[..|b| - 1];
      TrailingBlanksBeforeBlanks(s, b[..|b| - 1]);
    } else {
      assert s + b == s;
    }
  }

  /** Trimming removes exactly the blank padding around a text that neither
      starts nor ends with a blank. */
  lemma TrimPadded(a: string, s: string, b: string)
    requires forall i :: 0 <= i < |a| ==> IsBlank(a[i])
    requires forall i :: 0 <= i < |b| ==> IsBlank(b[i])
    requires |s| > 0 && !IsBlank(s[0]) && !IsBlank(s[|s| - 1])
    ensures Trim(a + s + b) == s
  {
    var x := a + s + b;
    assert x == a + (s + b);
    LeadingBlanksAfterBlanks(a, s + b);
    assert (s + b)[0] == s[0];
    assert LeadingBlanks(x) == |a|;
    assert x[|a|..] == s + b;
    TrailingBlanksBeforeBlanks(s, b);
    assert TrailingBlanks(s) == 0;
    assert (s + b)[..|s|] == s;
  }

  // Ordinal case-insensitive comparison

  /** ASCII upper-case letters folded to lower case; every other
      character is kept. */
  function FoldChar(c: char): (d: char)
    ensures 'A' <= c <= 'Z' ==> 'a' <= d <= 'z' && d as int == c as int + 32
    ensures !('A' <= c <= 'Z') ==> d == c
  {
    if 'A' <= c <= 'Z' then (c as int + 32) as char else c
  }

  function FoldCase(s: string): (r: string)
    ensures |r| == |s|
    ensures forall i :: 0 <= i < |s| ==> r[i] == FoldChar(s[i])
  {
    seq(|s|, i requires 0 <= i < |s| => FoldChar(s[i]))
  }

  /** `string.Equals(a, b, StringComparison.OrdinalIgnoreCase)`. */
  predicate EqualsIgnoreCase(a: string, b: string) {
    |a| == |b| && forall i :: 0 <= i < |a| ==> FoldChar(a[i]) == FoldChar(b[i])
  }

  /** Case-insensitive equality is equality of the folded strings, hence an
      equivalence relation. */
  lemma EqualsIgnoreCaseIsFoldedEquality(a: string, b: string)
    ensures EqualsIgnoreCase(a, b) <==> FoldCase(a) == FoldCase(b)
  {
    if FoldCase(a) == FoldCase(b) {
      forall i | 0 <= i < |a|
        ensures FoldChar(a[i]) == FoldChar(b[i])
      {
        assert FoldCase(a)[i] == FoldCase(b)[i];
      }
    }
  }

  lemma EqualsIgnoreCaseEquivalence(a: string, b: string, c: string)
    ensures EqualsIgnoreCase(a, a)
    ensures EqualsIgnoreCase(a, b) ==> EqualsIgnoreCase(b, a)
    ensures EqualsIgnoreCase(a, b) && EqualsIgnoreCase(b, c) ==> EqualsIgnoreCase(a, c)
  {
  }

  // Path.GetFileName / Path.GetDirectoryName

  predicate IsSeparator(c: char) {
    c == '/' || c == '\\'
  }

  predicate HasNoSeparator(s: string) {
    forall i :: 0 <= i < |s| ==> !IsSeparator(s[i])
  }

  /** Position of the last directory separator, if any. */
  function LastSeparator(p: string): (k: Option<nat>)
    ensures k.Some? ==> k.value < |p| && IsSeparator(p[k.value]) && HasNoSeparator(p[k.value + 1..])
    ensures k.None? ==> HasNoSeparator(p)
  {
    if |p| == 0 then None
    else if IsSeparator(p[|p| - 1]) then Some(|p| - 1)
    else
      var k := LastSeparator(p[..|p| - 1]);
      assert k.Some? ==> p[k.value + 1..] == p[..|p| - 1][k.value + 1..] + [p[|p| - 1]];
      k
  }

  /** `Path.GetFileName`: the text after the last separator. */
  function FileName(p: string): (r: string)
    ensures HasNoSeparator(r)
    ensures EndsWith(p, r)
    ensures |r| < |p| ==> IsSeparator(p[|p| - |r| - 1])
  {
    match LastSeparator(p)
    case None => p
    case Some(k) => p[k + 1..]
  }

  /** `Path.GetDirectoryName`: the text before the last separator, empty for
      a bare file name. */
  function DirectoryName(p: string): (r: string)
    ensures StartsWith(p, r)
    ensures |r| < |p|  || p == []
  {
    match LastSeparator(p)
    case None => []
    case Some(k) => p[..k]
  }

  /** A path is its directory, one separator and its file name; a path
      without separator is a bare file name. */
  lemma PathSplit(p: string)
    ensures LastSeparator(p).None? ==> DirectoryName(p) == [] && FileName(p) == p
    ensures LastSeparator(p).Some? ==>
      var d := DirectoryName(p);
      |d| < |p| && IsSeparator(p[|d|]) && d + [p[|d|]] + FileName(p) == p
  {
  }

  /** Appending a separator and a segment to any directory yields a path
      whose file name is that segment. */
  lemma FileNameOfJoin(dir: string, sep: char, name: string)
    requires IsSeparator(sep) && HasNoSeparator(name)
    ensures FileName(dir + [sep] + name) == name
    ensures DirectoryName(dir + [sep] + name) == dir
  {
    var p := dir + [sep] + name;
    assert p[|dir|] == sep && p[|dir| + 1..] == name;
  }

  // Decimal formatting

  function DigitChar(d: nat): (c: char)
    requires d < 10
    ensures '0' <= c <= '9' && c as int - '0' as int == d
  {
    ('0' as int + d) as char
  }

  predicate IsDigits(s: string) {
    forall i :: 0 <= i < |s| ==> '0' <= s[i] <= '9'
  }

  /** Value of a string of decimal digits. */
  function DigitsValue(s: string): nat
    requires IsDigits(s)
  {
    if |s| == 0 then 0
    else DigitsValue(s[..|s| - 1]) * 10 + (s[|s| - 1] as int - '0' as int)
  }

  /** `n.ToString()` / `Long.toString(n)` for a non-negative value: at least
      one digit and no leading zero. */
  function NatToString(n: nat): (s: string)
    ensures |s| > 0 && IsDigits(s)
    ensures |s| > 1 ==> s[0] != '0'
    ensures n < 10 <==> |s| == 1
  {
    if n < 10 then [DigitChar(n)]
    else NatToString(n / 10) + [DigitChar(n % 10)]
  }

  /** Reading back a formatted number gives the number. */
  lemma {:induction false} NatToStringRoundTrip(n: nat)
    ensures DigitsValue(NatToString(n)) == n
  {
    var s := NatToString(n);
    if n >= 10 {
      NatToStringRoundTrip(n / 10);
      assert s[..|s| - 1] == NatToString(n / 10);
    } else {
      assert s[..|s| - 1] == [];
    }
  }

  lemma NatToStringInjective(a: nat, b: nat)
    ensures NatToString(a) == NatToString(b) ==> a == b
  {
    NatToStringRoundTrip(a);
    NatToStringRoundTrip(b);
  }

  /** `Long.toString(n)`: a minus sign before the digits of a negative
      value. */
  function IntToString(n: int): (s: string)
    ensures |s| > 0
    ensures n < 0 <==> s[0] == '-'
    ensures n >= 0 ==> s == NatToString(n)
    ensures n < 0 ==> s[1..] == NatToString(-n)
  {
    if n < 0 then "-" + NatToString(-n) else NatToString(n)
  }

  lemma IntToStringInjective(a: int, b: int)
    ensures IntToString(a) == IntToString(b) ==> a == b
  {
    if IntToString(a) == IntToString(b) {
      if a < 0 {
        NatToStringInjective(-a, -b);
      } else {
        NatToStringInjective(a, b);
      }
    }
  }
}
