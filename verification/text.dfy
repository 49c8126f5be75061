/**
  String and byte helpers with Python's semantics: `str.splitlines`, `str.strip`,
  the `in` substring test, `str(int)` and `"\n".join(...)`.
  Strings are sequences of Unicode scalar values; bytes are integers in [0, 256).
 */
module Text {

  /** An 8-bit byte, as in Python's `bytes`. */
  type byte = x: int | 0 <= x < 256

  // ---------------------------------------------------------------------------
  // Line splitting: Python's `str.splitlines()` (without `keepends`)
  // ---------------------------------------------------------------------------

  /** The characters `str.splitlines` treats as line boundaries ("\r\n" counts once). */
  predicate IsLineBreak(c: char)
  {
    || c == '\n' || c == '\r' || c == '\U{000B}' || c == '\U{000C}'
    || c == '\U{001C}' || c == '\U{001D}' || c == '\U{001E}' || c == '\U{0085}'
    || c == '\U{2028}' || c == '\U{2029}'
  }

  predicate NoLineBreak(s: string)
  {
    forall c :: c in s ==> !IsLineBreak(c)
  }

  /** A slice of a boundary-free text is boundary-free. */
  lemma NoLineBreakSlice(s: string, i: int, j: int)
    requires NoLineBreak(s) && 0 <= i <= j <= |s|
    ensures NoLineBreak(s[i..j])
  {
    forall c | c in s[i..j]
      ensures !IsLineBreak(c)
    {
      var k :| 0 <= k < j - i && s[i..j][k] == c;
      assert s[i + k] == c;
    }
  }

  /** Position of the first line boundary in `s`, or `|s|` when there is none. */
  function BreakIndex(s: string): (i: nat)
    ensures i <= |s|
    ensures forall j :: 0 <= j < i ==> !IsLineBreak(s[j])
    ensures i < |s| ==> IsLineBreak(s[i])
  {
    if s == [] then 0
    else if IsLineBreak(s[0]) then 0
    else 1 + BreakIndex(s[1..])
  }

  /** Python's `s.splitlines()`: no line contains a boundary, and a final boundary
      does not produce a trailing empty line. */
  function SplitLines(s: string): (lines: seq<string>)
    ensures forall k :: 0 <= k < |lines| ==> NoLineBreak(lines[k])
    decreases |s|
  {
    if s == [] then []
    else
      var i := BreakIndex(s);
      if i == |s| then [s]
      else
        var next := if s[i] == '\r' && i + 1 < |s| && s[i + 1] == '\n' then i + 2 else i + 1;
        [s[..i]] + SplitLines(s[next..])
  }

  lemma BreakIndexOfLine(a: string, b: string)
    requires NoLineBreak(a)
    requires b != [] && IsLineBreak(b[0])
    ensures BreakIndex(a + b) == |a|
    decreases |a|
  {
    if a != [] {
      assert (a + b)[1..] == a[1..] + b;
      BreakIndexOfLine(a[1..], b);
    }
  }

  lemma BreakIndexNone(a: string)
    requires NoLineBreak(a)
    ensures BreakIndex(a) == |a|
    decreases |a|
  {
    if a != [] {
      BreakIndexNone(a[1..]);
    }
  }

  /** A non-empty text without boundaries is one line. */
  lemma {:induction false} SplitLinesSingle(a: string)
    requires a != [] && NoLineBreak(a)
    ensures SplitLines(a) == [a]
  {
    BreakIndexNone(a);
  }

  /** A line ended by a single boundary character is split off in front. */
  lemma {:induction false} SplitLinesAfterBreak(a: string, c: char, b: string)
    requires NoLineBreak(a) && IsLineBreak(c)
    requires !(c == '\r' && b != [] && b[0] == '\n')
    ensures SplitLines(a + [c] + b) == [a] + SplitLines(b)
  {
    var s := a + [c] + b;
    assert s == a + ([c] + b);
    BreakIndexOfLine(a, [c] + b);
    assert s[..|a|] == a;
    assert s[|a| + 1..] == b;
  }

  /** A line ended by "\r\n" is split off in front, the pair counting as one boundary. */
  lemma {:induction false} SplitLinesAfterCrLf(a: string, b: string)
    requires NoLineBreak(a)
    ensures SplitLines(a + "\r\n" + b) == [a] + SplitLines(b)
  {
    var s := a + "\r\n" + b;
    assert s == a + ("\r\n" + b);
    BreakIndexOfLine(a, "\r\n" + b);
    assert s[..|a|] == a;
    assert s[|a| + 2..] == b;
  }

  /** Python's `"\n".join(xs)`. */
  function JoinLines(xs: seq<string>): string
  {
    if xs == [] then ""
    else if |xs| == 1 then xs[0]
    else xs[0] + "\n" + JoinLines(xs[1..])
  }

  /** Joining non-empty boundary-free lines with "\n" and splitting again gives the lines back. */
  lemma {:induction false} SplitLinesJoinLines(xs: seq<string>)
    requires forall k :: 0 <= k < |xs| ==> xs[k] != [] && NoLineBreak(xs[k])
    ensures SplitLines(JoinLines(xs)) == xs
  {
    if |xs| == 1 {
      SplitLinesSingle(xs[0]);
    } else if |xs| > 1 {
      var rest := JoinLines(xs[1..]);
      SplitLinesJoinLines(xs[1..]);
      assert xs[0] + "\n" + rest == xs[0] + ['\n'] + rest;
      SplitLinesAfterBreak(xs[0], '\n', rest);
    }
  }

  // ---------------------------------------------------------------------------
  // Stripping: Python's `str.strip()` (no argument)
  // ---------------------------------------------------------------------------

  /** The characters for which Python's `str.isspace()` holds. */
  predicate IsSpace(c: char)
  {
    || c == ' ' || c == '\t' || c == '\n' || c == '\U{000B}' || c == '\U{000C}' || c == '\r'
    || c == '\U{001C}' || c == '\U{001D}' || c == '\U{001E}' || c == '\U{001F}'
    || c == '\U{0085}' || c == '\U{00A0}' || c == '\U{1680}'
    || ('\U{2000}' <= c <= '\U{200A}')
    || c == '\U{2028}' || c == '\U{2029}' || c == '\U{202F}' || c == '\U{205F}' || c == '\U{3000}'
  }

  /** Drops leading whitespace. */
  function TrimStart(s: string): string
  {
    if s != [] && IsSpace(s[0]) then TrimStart(s[1..]) else s
  }

  /** Drops trailing whitespace. */
  function TrimEnd(s: string): string
  {
    if s != [] && IsSpace(s[|s| - 1]) then TrimEnd(s[..|s| - 1]) else s
  }

  /** Python's `s.strip()`. */
  function Strip(s: string): string
  {
    TrimEnd(TrimStart(s))
  }

  /** `TrimStart` keeps the suffix that begins at the first non-space. */
  lemma {:induction false} TrimStartSpec(s: string)
    ensures var r := TrimStart(s);
            && |r| <= |s| && r == s[|s| - |r|..]
            && (forall i :: 0 <= i < |s| - |r| ==> IsSpace(s[i]))
            && (r == [] || !IsSpace(r[0]))
  {
    if s != [] && IsSpace(s[0]) {
      var tail := s[1..];
      TrimStartSpec(tail);
      var r := TrimStart(tail);
      assert TrimStart(s) == r;
      assert r == s[|s| - |r|..] by {
        assert tail[|tail| - |r|..] == s[|s| - |r|..];
      }
      forall i | 0 <= i < |s| - |r|
        ensures IsSpace(s[i])
      {
        if i > 0 {
          assert s[i] == tail[i - 1];
        }
      }
    }
  }

  /** `TrimEnd` keeps the prefix that ends at the last non-space. */
  lemma {:induction false} TrimEndSpec(s: string)
    ensures var r := TrimEnd(s);
            && |r| <= |s| && r == s[..|r|]
            && (forall i :: |r| <= i < |s| ==> IsSpace(s[i]))
            && (r == [] || !IsSpace(r[|r| - 1]))
  {
    if s != [] && IsSpace(s[|s| - 1]) {
      var init := s[..|s| - 1];
      TrimEndSpec(init);
      var r := TrimEnd(init);
      assert TrimEnd(s) == r;
      assert r == s[..|r|] by {
        assert init[..|r|] == s[..|r|];
      }
      forall i | |r| <= i < |s|
        ensures IsSpace(s[i])
      {
        if i < |s| - 1 {
          assert s[i] == init[i];
        }
      }
    }
  }

  /** `r` is the slice of `s` starting at `a`, and everything around it is whitespace. */
  ghost predicate FramedBySpace(s: string, a: int, r: string)
  {
    && 0 <= a && a + |r| <= |s| && r == s[a..a + |r|]
    && (forall i :: 0 <= i < a ==> IsSpace(s[i]))
    && (forall i :: a + |r| <= i < |s| ==> IsSpace(s[i]))
  }

  /** `strip` returns a contiguous slice framed by whitespace only, which neither
      starts nor ends with whitespace. */
  lemma StripSpec(s: string)
    ensures exists a :: FramedBySpace(s, a, Strip(s))
    ensures var r := Strip(s); r == [] || (!IsSpace(r[0]) && !IsSpace(r[|r| - 1]))
  {
    var t := TrimStart(s);
    var r := TrimEnd(t);
    TrimStartSpec(s);
    TrimEndSpec(t);
    assert FramedBySpace(s, |s| - |t|, r);
    if r != [] {
      assert r[0] == t[0];
      assert !IsSpace(r[0]);
      assert !IsSpace(r[|r| - 1]);
    }
    assert exists a :: FramedBySpace(s, a, Strip(s));
  }

  /** Stripping a line leaves it free of line boundaries. */
  lemma StripNoLineBreak(s: string)
    requires NoLineBreak(s)
    ensures NoLineBreak(Strip(s))
  {
    StripSpec(s);
    var a :| FramedBySpace(s, a, Strip(s));
  }

  // ---------------------------------------------------------------------------
  // Prefixes, suffixes and substrings
  // ---------------------------------------------------------------------------

  predicate EndsWith<T(==)>(s: seq<T>, suffix: seq<T>)
  {
    |suffix| <= |s| && s[|s| - |suffix|..] == suffix
  }

  /** Python's `t in s` for strings and bytes: `t` occurs as a contiguous block of `s`. */
  ghost predicate Occurs<T>(t: seq<T>, s: seq<T>)
  {
    exists i :: OccursAt(t, s, i)
  }

  /** `t` occurs in `s` starting at position `i`. */
  ghost predicate OccursAt<T>(t: seq<T>, s: seq<T>, i: int)
  {
    0 <= i <= |s| - |t| && s[i..i + |t|] == t
  }

  /** A left-to-right scan deciding whether `t` occurs in `s`. */
  function Contains<T(==)>(s: seq<T>, t: seq<T>): bool
    decreases |s|
  {
    if t <= s then true
    else if |s| <= |t| then false
    else Contains(s[1..], t)
  }

  /** The scan decides exactly the substring relation. */
  lemma {:induction false} ContainsIff<T>(s: seq<T>, t: seq<T>)
    ensures Contains(s, t) <==> Occurs(t, s)
    decreases |s|
  {
    if t <= s {
      assert OccursAt(t, s, 0);
    } else if |s| <= |t| {
    } else {
      ContainsIff(s[1..], t);
      if Occurs(t, s[1..]) {
        var i :| OccursAt(t, s[1..], i);
        assert s[i + 1..i + 1 + |t|] == t;
        assert OccursAt(t, s, i + 1);
      }
      if Occurs(t, s) {
        var i :| OccursAt(t, s, i);
        if i > 0 {
          assert s[1..][i - 1..i - 1 + |t|] == t;
          assert OccursAt(t, s[1..], i - 1);
        }
      }
    }
  }

  /** The elements of `s` that satisfy `keep`, in order, duplicates kept
      (a Python list comprehension with an `if`). */
  function Filter<T(!new)>(s: seq<T>, keep: T -> bool): (r: seq<T>)
    ensures |r| <= |s|
    ensures forall x :: x in r <==> x in s && keep(x)
  {
    if s == [] then []
    else (if keep(s[0]) then [s[0]] else []) + Filter(s[1..], keep)
  }

  /** Filtering keeps every occurrence of a kept element, duplicates included, and no
      occurrence of a dropped one. */
  lemma {:induction false} FilterCounts<T(!new)>(s: seq<T>, keep: T -> bool, x: T)
    ensures multiset(Filter(s, keep))[x] == if keep(x) then multiset(s)[x] else 0
  {
    if s != [] {
      assert s == [s[0]] + s[1..];
      FilterCounts(s[1..], keep, x);
    }
  }

  /** Filtering keeps the input order: it distributes over concatenation, so the result
      is the kept elements of the front followed by the kept elements of the back. */
  lemma {:induction false} FilterAppend<T(!new)>(a: seq<T>, b: seq<T>, keep: T -> bool)
    ensures Filter(a + b, keep) == Filter(a, keep) + Filter(b, keep)
  {
    if a == [] {
      assert a + b == b;
    } else {
      var head := if keep(a[0]) then [a[0]] else [];
      assert (a + b)[0] == a[0] && (a + b)[1..] == a[1..] + b;
      assert Filter(a + b, keep) == head + Filter(a[1..] + b, keep);
      FilterAppend(a[1..], b, keep);
      assert Filter(a, keep) == head + Filter(a[1..], keep);
    }
  }

  // ---------------------------------------------------------------------------
  // Decimal rendering: Python's `str(n)` / f-string of an int
  // ---------------------------------------------------------------------------

  predicate IsDigit(c: char)
  {
    '0' <= c <= '9'
  }

  predicate AllDigits(s: string)
  {
    forall i :: 0 <= i < |s| ==> IsDigit(s[i])
  }

  function DigitChar(d: nat): (c: char)
    requires d < 10
    ensures IsDigit(c)
  {
    ('0' as int + d) as char
  }

  function DigitValue(c: char): nat
    requires IsDigit(c)
  {
    c as int - '0' as int
  }

  /** The decimal digits of `n`, most significant first, without leading zeros. */
  function NatToDecimal(n: nat): (s: string)
    ensures |s| >= 1 && AllDigits(s)
    ensures |s| > 1 ==> s[0] != '0'
    decreases n
  {
    if n < 10 then [DigitChar(n)] else NatToDecimal(n / 10) + [DigitChar(n % 10)]
  }

  /** The number a string of decimal digits denotes. */
  function DecimalValue(s: string): nat
    requires AllDigits(s)
    decreases |s|
  {
    if s == [] then 0 else 10 * DecimalValue(s[..|s| - 1]) + DigitValue(s[|s| - 1])
  }

  /** Reading back the rendered digits gives the number. */
  lemma {:induction false} DecimalRoundTrip(n: nat)
    ensures DecimalValue(NatToDecimal(n)) == n
    decreases n
  {
    var s := NatToDecimal(n);
    if n >= 10 {
      DecimalRoundTrip(n / 10);
      assert s[..|s| - 1] == NatToDecimal(n / 10);
    }
  }

  /** Python's `str(x)` for an int: a '-' sign for negatives, then the digits. */
  function IntToDecimal(x: int): (s: string)
  {
    if x < 0 then "-" + NatToDecimal(-x) else NatToDecimal(x)
  }

  /** Different numbers render differently. */
  lemma IntToDecimalInjective(x: int, y: int)
    requires IntToDecimal(x) == IntToDecimal(y)
    ensures x == y
  {
    if x < 0 && y < 0 {
      assert IntToDecimal(x)[1..] == NatToDecimal(-x);
      assert IntToDecimal(y)[1..] == NatToDecimal(-y);
      DecimalRoundTrip(-x);
      DecimalRoundTrip(-y);
    } else if x < 0 || y < 0 {
      assert false;
    } else {
      DecimalRoundTrip(x);
      DecimalRoundTrip(y);
    }
  }

  /** Rendered numbers contain no space character. */
  lemma IntToDecimalNoSpace(x: int)
    ensures ' ' !in IntToDecimal(x)
  {
    var d := NatToDecimal(if x < 0 then -x else x);
    assert AllDigits(d);
  }
}
