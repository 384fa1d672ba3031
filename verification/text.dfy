/** ASCII character classes and the Python string operations the pipeline relies
    on: lower(), strip(), replace(pat, ""), split(sep), isdigit() and int(). */
module Text {

  predicate IsLower(c: char) { 'a' <= c <= 'z' }

  predicate IsUpper(c: char) { 'A' <= c <= 'Z' }

  /** The character class [A-Za-z]. */
  predicate IsLetter(c: char) { IsLower(c) || IsUpper(c) }

  /** The character class \d, over ASCII. */
  predicate IsDigit(c: char) { '0' <= c <= '9' }

  /** Python's whitespace (str.isspace, str.strip and \s) over ASCII: the space,
      \t \n \v \f \r, and the four information separators 0x1C-0x1F. */
  predicate IsSpace(c: char) { c == ' ' || 9 <= c as int <= 13 || 28 <= c as int <= 31 }

  predicate AllSpaces(s: string) { forall i :: 0 <= i < |s| ==> IsSpace(s[i]) }

  /** str.isdigit(): non-empty and made of digits only. */
  predicate IsDigits(s: string) { |s| > 0 && forall i :: 0 <= i < |s| ==> IsDigit(s[i]) }

  function LowerChar(c: char): char {
    if IsUpper(c) then (c as int + 32) as char else c
  }

  /** str.lower() over ASCII. */
  function Lower(s: string): string {
    seq(|s|, i requires 0 <= i < |s| => LowerChar(s[i]))
  }

  /** The number of whitespace characters at the start of `s`. */
  function LeadingSpaces(s: string): (n: nat)
    ensures n <= |s|
    ensures forall i :: 0 <= i < n ==> IsSpace(s[i])
    ensures n < |s| ==> !IsSpace(s[n])
    decreases |s|
  {
    if |s| > 0 && IsSpace(s[0]) then 1 + LeadingSpaces(s[1..]) else 0
  }

  /** The number of whitespace characters at the end of `s`. */
  function TrailingSpaces(s: string): (n: nat)
    ensures n <= |s|
    ensures forall i :: |s| - n <= i < |s| ==> IsSpace(s[i])
    ensures n < |s| ==> !IsSpace(s[|s| - 1 - n])
    decreases |s|
  {
    if |s| > 0 && IsSpace(s[|s| - 1]) then 1 + TrailingSpaces(s[..|s| - 1]) else 0
  }

  /** Where strip() starts: after the leading whitespace. */
  function StripFrom(s: string): nat {
    LeadingSpaces(s)
  }

  /** Where strip() ends: before the trailing whitespace. */
  function StripTo(s: string): (j: nat)
    ensures StripFrom(s) <= j <= |s|
  {
    |s| - TrailingSpaces(s[StripFrom(s)..])
  }

  /** str.strip(): `s` without the whitespace at both ends (see StripSlice). */
  function Strip(s: string): (r: string)
    ensures |r| <= |s|
    ensures r == [] || (!IsSpace(r[0]) && !IsSpace(r[|r| - 1]))
  {
    var a, j := StripFrom(s), StripTo(s);
    assert j > a ==> s[j - 1] == s[a..][j - 1 - a];
    s[a..j]
  }

  /** What strip() removes is whitespace only, at the two ends. */
  lemma StripSlice(s: string)
    ensures Strip(s) == s[StripFrom(s)..StripTo(s)]
    ensures AllSpaces(s[..StripFrom(s)]) && AllSpaces(s[StripTo(s)..])
  {
    var i, j := StripFrom(s), StripTo(s);
    var tail := s[j..];
    assert AllSpaces(tail) by {
      forall k | 0 <= k < |tail| ensures IsSpace(tail[k]) {
        assert tail[k] == s[i..][j - i + k];
      }
    }
  }

  /** Stripping a string that does not start or end with whitespace changes nothing. */
  lemma StripUnpadded(s: string)
    requires s == [] || (!IsSpace(s[0]) && !IsSpace(s[|s| - 1]))
    ensures Strip(s) == s
  {
    assert LeadingSpaces(s) == 0;
    assert s[0..] == s;
    assert TrailingSpaces(s) == 0;
  }

  /** str.replace(pat, ""): every non-overlapping occurrence of `pat`, scanned left
      to right, is deleted. */
  function RemoveAll(s: string, pat: string): (r: string)
    requires |pat| > 0
    ensures |r| <= |s|
    ensures forall i :: 0 <= i < |r| ==> r[i] in s
    decreases |s|
  {
    if |s| < |pat| then s
    else if s[..|pat|] == pat then RemoveAll(s[|pat|..], pat)
    else [s[0]] + RemoveAll(s[1..], pat)
  }

  /** Text that cannot start an occurrence of `pat` passes through unchanged. */
  lemma {:induction false} RemoveAllPrefix(s: string, t: string, pat: string)
    requires |pat| > 0
    requires forall i :: 0 <= i < |s| ==> s[i] != pat[0]
    ensures RemoveAll(s + t, pat) == s + RemoveAll(t, pat)
    decreases |s|
  {
    if |s| > 0 {
      assert (s + t)[0] == s[0] != pat[0];
      assert (s + t)[1..] == s[1..] + t;
      RemoveAllPrefix(s[1..], t, pat);
      if |s + t| >= |pat| {
        assert (s + t)[..|pat|][0] != pat[0];
      }
    } else {
      assert s + t == t;
    }
  }

  /** The value of one decimal digit. */
  function DigitValue(c: char): nat
    requires IsDigit(c)
  {
    c as int - '0' as int
  }

  /** The decimal digit of a value below ten. */
  function DigitChar(d: nat): (c: char)
    requires d < 10
    ensures IsDigit(c) && DigitValue(c) == d
  {
    ('0' as int + d) as char
  }

  /** int(s) for a string of decimal digits (0 for the empty string). */
  function DigitsValue(s: string): nat
    requires forall i :: 0 <= i < |s| ==> IsDigit(s[i])
    decreases |s|
  {
    if |s| == 0 then 0 else 10 * DigitsValue(s[..|s| - 1]) + DigitValue(s[|s| - 1])
  }

  /** str(n): the decimal rendering of a natural number, without leading zeros. */
  function Render(n: nat): (r: string)
    ensures IsDigits(r)
    ensures DigitsValue(r) == n
    ensures r[0] == '0' ==> n == 0
    decreases n
  {
    if n < 10 then [DigitChar(n)]
    else
      var r := Render(n / 10) + [DigitChar(n % 10)];
      assert r[..|r| - 1] == Render(n / 10);
      r
  }

  /** The number of occurrences of `c` in `s`. */
  function Occurrences(s: string, c: char): nat
    decreases |s|
  {
    if |s| == 0 then 0 else (if s[0] == c then 1 else 0) + Occurrences(s[1..], c)
  }

  /** Python's sep.join(parts) for a one-character separator. */
  function Join(parts: seq<string>, sep: char): string
    requires |parts| > 0
    decreases |parts|
  {
    if |parts| == 1 then parts[0] else parts[0] + [sep] + Join(parts[1..], sep)
  }

  /** str.split(sep) for a one-character separator: the pieces between the
      separators, which joined back give the input. */
  function Split(s: string, sep: char): (parts: seq<string>)
    ensures |parts| == Occurrences(s, sep) + 1
    ensures forall i :: 0 <= i < |parts| ==> sep !in parts[i]
    ensures Join(parts, sep) == s
    decreases |s|
  {
    if |s| == 0 then [""]
    else
      var rest := Split(s[1..], sep);
      if s[0] == sep then
        var parts := [""] + rest;
        assert parts[1..] == rest;
        parts
      else
        var parts := [[s[0]] + rest[0]] + rest[1..];
        assert |parts| > 1 ==> parts[1..] == rest[1..];
        assert |rest| > 1 ==> Join(rest, sep) == rest[0] + [sep] + Join(rest[1..], sep);
        assert forall i :: 0 < i < |parts| ==> parts[i] == rest[i];
        parts
  }

  /** Splitting text without the separator gives the text itself. */
  lemma {:induction false} SplitNoSeparator(s: string, sep: char)
    requires sep !in s
    ensures Split(s, sep) == [s]
    decreases |s|
  {
    if |s| > 0 {
      SplitNoSeparator(s[1..], sep);
    }
  }

  /** A separator-free prefix joins the first piece. */
  lemma {:induction false} SplitPrefix(x: string, y: string, sep: char)
    requires sep !in x
    ensures Split(x + y, sep) == [x + Split(y, sep)[0]] + Split(y, sep)[1..]
    decreases |x|
  {
    if |x| > 0 {
      assert (x + y)[0] == x[0];
      assert (x + y)[1..] == x[1..] + y;
      SplitPrefix(x[1..], y, sep);
      assert [x[0]] + (x[1..] + Split(y, sep)[0]) == x + Split(y, sep)[0];
    } else {
      assert x + y == y;
      var parts := Split(y, sep);
      assert x + parts[0] == parts[0];
      assert [parts[0]] + parts[1..] == parts;
    }
  }

  /** Text with exactly one separator splits into the two sides. */
  lemma SplitOnce(a: string, b: string, sep: char)
    requires sep !in a && sep !in b
    ensures Split(a + [sep] + b, sep) == [a, b]
  {
    assert a + [sep] + b == a + ([sep] + b);
    SplitPrefix(a, [sep] + b, sep);
    assert ([sep] + b)[1..] == b;
    SplitNoSeparator(b, sep);
    assert a + "" == a;
  }

  /** A split into two pieces puts exactly one separator between them. */
  lemma SplitTwo(s: string, sep: char)
    requires |Split(s, sep)| == 2
    ensures s == Split(s, sep)[0] + [sep] + Split(s, sep)[1]
  {
    var parts := Split(s, sep);
    assert parts[1..] == [parts[1]];
    assert Join(parts[1..], sep) == parts[1];
  }

  /** Stripping a string of digits with whitespace in front leaves the digits. */
  lemma StripLeadingSpace(d: string)
    requires IsDigits(d)
    ensures Strip(" " + d) == d
  {
    var s := " " + d;
    assert s[1..] == d;
    assert LeadingSpaces(d) == 0;
    assert LeadingSpaces(s) == 1;
    assert TrailingSpaces(d) == 0;
  }
}
