/** The Python string built-ins the collector relies on, restricted to ASCII
    where Python's definition reaches further into Unicode: `str.strip()`,
    `str.lower()`, `int(str)`, `str(int)`, `s.split(sep)[0]`, `str.endswith`,
    the substring test `in`, and `str.splitlines()`. */
module PyText {
  import opened Common

  // ---------------------------------------------------------------- whitespace

  /** ASCII characters for which `str.isspace()` holds: \t \n \v \f \r, the
      four separator controls 0x1C..0x1F, and the space. */
  predicate IsSpace(c: char)
  {
    var n := c as int;
    n == 32 || 9 <= n <= 13 || 28 <= n <= 31
  }

  function TrimStart(s: string): (r: string)
    ensures |r| <= |s| && r == s[|s| - |r|..]
    ensures r == [] || !IsSpace(r[0])
  {
    if s != [] && IsSpace(s[0]) then TrimStart(s[1..]) else s
  }

  function TrimEnd(s: string): (r: string)
    ensures |r| <= |s| && r == s[..|r|]
    ensures r == [] || !IsSpace(r[|r| - 1])
  {
    if s != [] && IsSpace(s[|s| - 1]) then TrimEnd(s[..|s| - 1]) else s
  }

  /** `s.strip()`. */
  function Strip(s: string): string
  {
    TrimEnd(TrimStart(s))
  }

  // ---------------------------------------------------------------- case

  function LowerChar(c: char): char
  {
    if 'A' <= c <= 'Z' then (c as int + 32) as char else c
  }

  /** `s.lower()`. */
  function Lower(s: string): (r: string)
    ensures |r| == |s|
  {
    seq(|s|, i requires 0 <= i < |s| => LowerChar(s[i]))
  }

  // ---------------------------------------------------------------- int(str) and str(int)

  predicate IsDigit(c: char)
  {
    '0' <= c <= '9'
  }

  function DigitValue(c: char): nat
    requires IsDigit(c)
  {
    c as int - '0' as int
  }

  function DigitChar(d: nat): (c: char)
    requires d < 10
    ensures IsDigit(c) && DigitValue(c) == d
  {
    (d + '0' as int) as char
  }

  /** The digit part `int()` accepts: at least one digit, starting and ending
      with a digit, and every `_` immediately followed by a digit. */
  predicate IsDigitRun(s: string)
  {
    && s != []
    && IsDigit(s[0])
    && IsDigit(s[|s| - 1])
    && (forall i :: 0 <= i < |s| ==> IsDigit(s[i]) || s[i] == '_')
    && (forall i, j :: 0 <= i < |s| && 0 <= j < |s| && j == i + 1 && s[i] == '_' ==> IsDigit(s[j]))
  }

  /** The value of a run of digits, underscores ignored. */
  function DigitRunValue(s: string): nat
  {
    if s == [] then 0
    else if IsDigit(s[|s| - 1]) then 10 * DigitRunValue(s[..|s| - 1]) + DigitValue(s[|s| - 1])
    else DigitRunValue(s[..|s| - 1])
  }

  /** `int(s)` for a string and base 10: `None` where Python raises
      `ValueError`. Surrounding whitespace and one leading sign are accepted. */
  function ParseInt(s: string): Option<int>
  {
    var t := Strip(s);
    if t != [] && (t[0] == '+' || t[0] == '-') then
      if IsDigitRun(t[1..]) then
        var v: int := DigitRunValue(t[1..]);
        Some(if t[0] == '-' then -v else v)
      else None
    else if IsDigitRun(t) then Some(DigitRunValue(t))
    else None
  }

  /** The decimal digits of a natural number, without leading zeros. */
  function Decimal(n: nat): string
    decreases n
  {
    if n < 10 then [DigitChar(n)] else Decimal(n / 10) + [DigitChar(n % 10)]
  }

  /** `str(i)`. */
  function IntToString(i: int): string
  {
    if i < 0 then "-" + Decimal(-i) else Decimal(i)
  }

  lemma {:induction false} DecimalIsDigitRun(n: nat)
    ensures IsDigitRun(Decimal(n))
    ensures forall i :: 0 <= i < |Decimal(n)| ==> IsDigit(Decimal(n)[i])
    ensures DigitRunValue(Decimal(n)) == n
    decreases n
  {
    if n >= 10 {
      DecimalIsDigitRun(n / 10);
      var s := Decimal(n);
      assert s[..|s| - 1] == Decimal(n / 10);
    }
  }

  /** `int(str(i)) == i`. */
  lemma ParseIntRoundTrip(i: int)
    ensures ParseInt(IntToString(i)) == Some(i)
  {
    if i < 0 {
      ParseNegative(i);
    } else {
      ParseNatural(i);
    }
  }

  /** A text that starts and ends with a non-space is its own `strip()`. */
  lemma StripTrimmed(s: string)
    requires s != [] && !IsSpace(s[0]) && !IsSpace(s[|s| - 1])
    ensures Strip(s) == s
  {
    assert TrimStart(s) == s;
  }

  lemma ParseNatural(i: int)
    requires i >= 0
    ensures ParseInt(IntToString(i)) == Some(i)
  {
    var s := IntToString(i);
    assert s == Decimal(i);
    DecimalIsDigitRun(i);
    StripTrimmed(s);
    ParseUnsigned(s);
  }

  lemma ParseNegative(i: int)
    requires i < 0
    ensures ParseInt(IntToString(i)) == Some(i)
  {
    var d := Decimal(-i);
    DecimalIsDigitRun(-i);
    ParseMinus(d);
    assert IntToString(i) == ['-'] + d;
  }

  /** A stripped run of digits is read as its value. */
  lemma ParseUnsigned(t: string)
    requires Strip(t) == t && IsDigitRun(t)
    ensures ParseInt(t) == Some(DigitRunValue(t))
  {
    assert t[0] != '+' && t[0] != '-';
  }

  /** A minus sign followed by a run of digits is read as the negated value. */
  lemma ParseMinus(d: string)
    requires IsDigitRun(d)
    ensures ParseInt(['-'] + d) == Some(-(DigitRunValue(d) as int))
  {
    var t := ['-'] + d;
    assert t[1..] == d;
    assert t[|t| - 1] == d[|d| - 1];
    StripTrimmed(t);
  }

  /** No text without a digit is a number. */
  lemma ParseIntNeedsDigit(s: string)
    requires forall i :: 0 <= i < |s| ==> !IsDigit(s[i])
    ensures ParseInt(s) == None
  {
    var t := Strip(s);
    assert forall i :: 0 <= i < |t| ==> !IsDigit(t[i]) by {
      var u := TrimStart(s);
      assert forall i :: 0 <= i < |u| ==> u[i] == s[|s| - |u| + i];
      assert forall i :: 0 <= i < |t| ==> t[i] == u[i];
    }
    if t != [] && (t[0] == '+' || t[0] == '-') {
      assert |t[1..]| > 0 ==> !IsDigit(t[1..][0]);
    }
  }

  // ---------------------------------------------------------------- split, endswith, in

  /** `s.split(sep)[0]` for a one-character separator: everything before the
      first `sep`, or all of `s` when there is none. */
  function BeforeFirst(s: string, sep: char): (r: string)
    ensures |r| <= |s| && r == s[..|r|] && sep !in r
    ensures |r| < |s| ==> s[|r|] == sep
  {
    if s == [] || s[0] == sep then [] else [s[0]] + BeforeFirst(s[1..], sep)
  }

  /** The text before the first separator is whatever precedes it. */
  lemma {:induction false} BeforeFirstOf(a: string, sep: char, b: string)
    requires sep !in a
    ensures BeforeFirst(a + [sep] + b, sep) == a
  {
    if a != [] {
      assert (a + [sep] + b)[1..] == a[1..] + [sep] + b;
      BeforeFirstOf(a[1..], sep, b);
    }
  }

  /** `s.startswith(prefix)`. */
  predicate StartsWith(s: string, prefix: string)
  {
    |prefix| <= |s| && s[..|prefix|] == prefix
  }

  /** `s.endswith(suffix)`. */
  predicate EndsWith(s: string, suffix: string)
  {
    |suffix| <= |s| && s[|s| - |suffix|..] == suffix
  }

  /** `pattern in text`. */
  predicate Contains(text: string, pattern: string)
    decreases |text|
  {
    StartsWith(text, pattern) || (text != [] && Contains(text[1..], pattern))
  }

  // ---------------------------------------------------------------- splitlines

  /** The line boundaries of `str.splitlines()`: \n \v \f \r, 0x1C..0x1E,
      0x85 and U+2028, U+2029 (and \r\n as one boundary). */
  predicate IsLineBreak(c: char)
  {
    var n := c as int;
    10 <= n <= 13 || 28 <= n <= 30 || n == 0x85 || n == 0x2028 || n == 0x2029
  }

  predicate NoLineBreak(s: string)
  {
    forall i :: 0 <= i < |s| ==> !IsLineBreak(s[i])
  }

  /** The length of the first line: the index of the first boundary, or `|s|`. */
  function LineLength(s: string): (k: nat)
    ensures k <= |s| && NoLineBreak(s[..k])
    ensures k < |s| ==> IsLineBreak(s[k])
  {
    if s == [] || IsLineBreak(s[0]) then 0
    else
      var k := 1 + LineLength(s[1..]);
      assert forall i :: 1 <= i < k ==> s[..k][i] == s[1..][..k - 1][i - 1];
      k
  }

  /** `s.splitlines()`: the lines of `s` without their terminators; a final
      line without a terminator counts, an empty string has no lines. */
  function SplitLines(s: string): seq<string>
    decreases |s|
  {
    if s == [] then []
    else
      var k := LineLength(s);
      if k == |s| then [s]
      else
        var next := if s[k] == '\r' && k + 1 < |s| && s[k + 1] == '\n' then k + 2 else k + 1;
        [s[..k]] + SplitLines(s[next..])
  }

  /** The lines of `lines`, each followed by "\n". */
  function JoinLines(lines: seq<string>): string
  {
    if lines == [] then [] else lines[0] + "\n" + JoinLines(lines[1..])
  }

  /** No line `splitlines` returns holds a boundary character. */
  lemma {:induction false} SplitLinesHaveNoBreaks(s: string)
    ensures forall j :: 0 <= j < |SplitLines(s)| ==> NoLineBreak(SplitLines(s)[j])
    decreases |s|
  {
    if s != [] {
      var k := LineLength(s);
      if k < |s| {
        var next := if s[k] == '\r' && k + 1 < |s| && s[k + 1] == '\n' then k + 2 else k + 1;
        SplitLinesHaveNoBreaks(s[next..]);
      }
    }
  }

  /** Splitting newline-terminated lines gives the lines back. */
  lemma {:induction false} SplitJoin(lines: seq<string>)
    requires forall j :: 0 <= j < |lines| ==> NoLineBreak(lines[j])
    ensures SplitLines(JoinLines(lines)) == lines
  {
    if lines != [] {
      SplitLinesFirst(lines[0], JoinLines(lines[1..]));
      SplitJoin(lines[1..]);
    }
  }

  /** A last line without terminator is still one line. */
  lemma {:induction false} SplitJoinUnterminated(lines: seq<string>, last: string)
    requires forall j :: 0 <= j < |lines| ==> NoLineBreak(lines[j])
    requires last != [] && NoLineBreak(last)
    ensures SplitLines(JoinLines(lines) + last) == lines + [last]
    decreases |lines|, 1
  {
    if lines == [] {
      assert JoinLines(lines) + last == last;
      SplitLinesOne(last);
      assert lines + [last] == [last];
    } else {
      SplitJoinUnterminatedNext(lines, last);
    }
  }

  lemma {:induction false} SplitJoinUnterminatedNext(lines: seq<string>, last: string)
    requires lines != [] && forall j :: 0 <= j < |lines| ==> NoLineBreak(lines[j])
    requires last != [] && NoLineBreak(last)
    ensures SplitLines(JoinLines(lines) + last) == lines + [last]
    decreases |lines|, 0
  {
    assert JoinLines(lines) + last == lines[0] + "\n" + (JoinLines(lines[1..]) + last);
    SplitLinesFirst(lines[0], JoinLines(lines[1..]) + last);
    SplitJoinUnterminated(lines[1..], last);
    assert [lines[0]] + (lines[1..] + [last]) == lines + [last];
  }

  /** A non-empty text without a boundary is one line. */
  lemma SplitLinesOne(last: string)
    requires last != [] && NoLineBreak(last)
    ensures SplitLines(last) == [last]
  {
    LineLengthOfLine(last, "");
    assert last + "" == last;
  }

  /** The first line of `l + "\n" + rest` is `l`. */
  lemma SplitLinesFirst(l: string, rest: string)
    requires NoLineBreak(l)
    ensures SplitLines(l + "\n" + rest) == [l] + SplitLines(rest)
  {
    var s := l + "\n" + rest;
    assert s == l + ("\n" + rest);
    LineLengthOfLine(l, "\n" + rest);
    assert s[..|l|] == l;
    assert s[|l|] == '\n';
    assert s[|l| + 1..] == rest;
  }

  lemma {:induction false} LineLengthOfLine(l: string, tail: string)
    requires NoLineBreak(l)
    requires tail == [] || IsLineBreak(tail[0])
    ensures LineLength(l + tail) == |l|
    decreases |l|
  {
    if l != [] {
      assert (l + tail)[1..] == l[1..] + tail;
      LineLengthOfLine(l[1..], tail);
    } else {
      assert l + tail == tail;
    }
  }
}
