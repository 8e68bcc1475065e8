/**
 * Character classes, case mapping, trimming and decimal digits, as the
 * regular expressions and string methods of flight_app.py use them.
 */
module Text {

  /** Whitespace as Python's str.isspace() and the `\s` class of a str pattern see it. */
  predicate IsSpace(c: char) {
    ('\t' <= c <= '\r') || ('\U{1C}' <= c <= '\U{1F}') || c == ' ' || c == '\U{85}' || c == '\U{A0}'
    || c == '\U{1680}' || ('\U{2000}' <= c <= '\U{200A}') || c == '\U{2028}' || c == '\U{2029}'
    || c == '\U{202F}' || c == '\U{205F}' || c == '\U{3000}'
  }

  predicate IsDigit(c: char) { '0' <= c <= '9' }
  predicate IsUpper(c: char) { 'A' <= c <= 'Z' }
  predicate IsLower(c: char) { 'a' <= c <= 'z' }
  predicate IsLetter(c: char) { IsUpper(c) || IsLower(c) }

  /** The `\w` class. */
  predicate IsWordChar(c: char) { IsLetter(c) || IsDigit(c) || c == '_' }

  predicate AllDigits(s: string) { forall k :: 0 <= k < |s| ==> IsDigit(s[k]) }
  predicate AllSpaces(s: string) { forall k :: 0 <= k < |s| ==> IsSpace(s[k]) }

  function LowerChar(c: char): char {
    if IsUpper(c) then (c as int + 32) as char else c
  }

  function UpperChar(c: char): char {
    if IsLower(c) then (c as int - 32) as char else c
  }

  /** str.lower() */
  function Lower(s: string): string {
    seq(|s|, i requires 0 <= i < |s| => LowerChar(s[i]))
  }

  /** str.upper() */
  function Upper(s: string): string {
    seq(|s|, i requires 0 <= i < |s| => UpperChar(s[i]))
  }

  lemma UpperOfLower(a: string, b: string)
    requires Lower(a) == Lower(b)
    ensures Upper(a) == Upper(b)
  {
    assert |a| == |Lower(a)| == |Lower(b)| == |b|;
    forall k | 0 <= k < |a| ensures Upper(a)[k] == Upper(b)[k] {
      assert Lower(a)[k] == Lower(b)[k];
    }
  }

  /** Lower-casing an upper-cased text gives the lower-cased text; upper-casing twice changes nothing. */
  lemma CaseRoundTrips(s: string)
    ensures Lower(Upper(s)) == Lower(s) && Upper(Upper(s)) == Upper(s)
  {
  }

  /** A text without upper-case letters is its own lower-case form. */
  lemma LowerIdentity(s: string)
    requires forall k :: 0 <= k < |s| ==> !IsUpper(s[k])
    ensures Lower(s) == s
  {
  }

  /** A text without lower-case letters is its own upper-case form. */
  lemma UpperIdentity(s: string)
    requires forall k :: 0 <= k < |s| ==> !IsLower(s[k])
    ensures Upper(s) == s
  {
  }

  /** The end of the longest run of characters satisfying p that starts at i. */
  function Span(s: string, i: nat, p: char -> bool): (j: nat)
    requires i <= |s|
    ensures i <= j <= |s|
    ensures forall k :: i <= k < j ==> p(s[k])
    ensures j == |s| || !p(s[j])
    decreases |s| - i
  {
    if i < |s| && p(s[i]) then Span(s, i + 1, p) else i
  }

  /** A run that stops at j is the run Span finds. */
  lemma {:induction false} SpanStopsAt(s: string, i: nat, j: nat, p: char -> bool)
    requires i <= j <= |s|
    requires forall k :: i <= k < j ==> p(s[k])
    requires j == |s| || !p(s[j])
    ensures Span(s, i, p) == j
    decreases j - i
  {
    if i < j {
      SpanStopsAt(s, i + 1, j, p);
    }
  }

  function DigitValue(c: char): nat
    requires IsDigit(c)
  {
    c as int - '0' as int
  }

  /** int() of a string of decimal digits. */
  function DigitsValue(s: string): (n: nat)
    requires AllDigits(s)
    ensures |s| == 1 ==> n == DigitValue(s[0])
    ensures |s| == 2 ==> n == 10 * DigitValue(s[0]) + DigitValue(s[1])
  {
    if s == [] then 0 else 10 * DigitsValue(s[..|s| - 1]) + DigitValue(s[|s| - 1])
  }

  function DigitChar(n: nat): (c: char)
    requires n < 10
    ensures IsDigit(c) && DigitValue(c) == n
  {
    ('0' as int + n) as char
  }

  /** A number below 100 written with two digits, zero-padded. */
  function TwoDigits(n: nat): (s: string)
    requires n < 100
    ensures |s| == 2 && AllDigits(s) && DigitsValue(s) == n
  {
    [DigitChar(n / 10), DigitChar(n % 10)]
  }

  /** str.lstrip() */
  function TrimStart(s: string): (r: string)
    ensures |r| <= |s| && r == s[|s| - |r|..]
    ensures r == [] || !IsSpace(r[0])
    ensures AllSpaces(s[..|s| - |r|])
  {
    if s != [] && IsSpace(s[0]) then
      var r := TrimStart(s[1..]);
      assert s[1..][..|s| - 1 - |r|] == s[1..|s| - |r|];
      r
    else s
  }

  /** str.rstrip() */
  function TrimEnd(s: string): (r: string)
    ensures |r| <= |s| && r == s[..|r|]
    ensures r == [] || !IsSpace(r[|r| - 1])
    ensures AllSpaces(s[|r|..])
  {
    if s != [] && IsSpace(s[|s| - 1]) then
      var r := TrimEnd(s[..|s| - 1]);
      assert forall k :: |r| <= k < |s| - 1 ==> s[k] == s[..|s| - 1][|r|..][k - |r|];
      r
    else s
  }

  /** str.strip(): leading and trailing whitespace removed. */
  function Strip(s: string): (r: string)
    ensures exists a, b :: 0 <= a <= b <= |s| && r == s[a..b] && AllSpaces(s[..a]) && AllSpaces(s[b..])
    ensures r == [] || (!IsSpace(r[0]) && !IsSpace(r[|r| - 1]))
  {
    var t := TrimStart(s);
    var r := TrimEnd(t);
    var a := |s| - |t|;
    assert r == [] || !IsSpace(r[0]) by {
      if r != [] { assert r[0] == t[0]; }
    }
    SliceBetweenSpaces(s, t, r);
    assert 0 <= a <= a + |r| <= |s| && r == s[a..a + |r|] && AllSpaces(s[..a]) && AllSpaces(s[a + |r|..]);
    r
  }

  /** A prefix r of a suffix t of s, with only whitespace cut off, is a slice of s between whitespace. */
  lemma SliceBetweenSpaces(s: string, t: string, r: string)
    requires |t| <= |s| && t == s[|s| - |t|..] && AllSpaces(s[..|s| - |t|])
    requires |r| <= |t| && r == t[..|r|] && AllSpaces(t[|r|..])
    ensures var a := |s| - |t|;
      r == s[a..a + |r|] && AllSpaces(s[..a]) && AllSpaces(s[a + |r|..])
  {
    var a := |s| - |t|;
    assert s[a + |r|..] == t[|r|..];
  }

  lemma {:induction false} TrimStartKeeps(s: string, c: char)
    requires c in s && !IsSpace(c)
    ensures c in TrimStart(s)
  {
    if IsSpace(s[0]) {
      assert c in s[1..] by { var k :| 0 <= k < |s| && s[k] == c; assert k > 0 && s[1..][k - 1] == c; }
      TrimStartKeeps(s[1..], c);
    }
  }

  lemma {:induction false} TrimEndKeeps(s: string, c: char)
    requires c in s && !IsSpace(c)
    ensures c in TrimEnd(s)
  {
    if IsSpace(s[|s| - 1]) {
      assert c in s[..|s| - 1] by {
        var k :| 0 <= k < |s| && s[k] == c;
        assert k < |s| - 1 && s[..|s| - 1][k] == c;
      }
      TrimEndKeeps(s[..|s| - 1], c);
    }
  }

  /** Stripping never removes a character that is not whitespace. */
  lemma StripKeeps(s: string, c: char)
    requires c in s && !IsSpace(c)
    ensures c in Strip(s)
  {
    TrimStartKeeps(s, c);
    TrimEndKeeps(TrimStart(s), c);
  }
}
