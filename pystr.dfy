/**
 * The parts of Python's `str` and `int` semantics that the utilities rely on:
 * `t in s`, `s.count(t)`, `s.split(c)`, `s.splitlines()`, `s.strip()`,
 * `int(s)` on a base-10 literal and `str(i)`.  Strings are sequences of
 * Unicode scalar values, as Python 3 strings are.
 */
module PyStr {
  import opened Wrappers

  // ---------------------------------------------------------------------
  // Substrings: `t in s` and `s.count(t)`
  // ---------------------------------------------------------------------

  /** `t in s`: t occurs in s as a contiguous substring (the empty string occurs everywhere). */
  predicate Contains(s: string, t: string)
    decreases |s|
  {
    t <= s || (|s| > 0 && Contains(s[1..], t))
  }

  /** An occurrence of t at position k makes `t in s` true. */
  lemma {:induction false} ContainsAt(s: string, t: string, k: nat)
    requires k + |t| <= |s| && s[k..k + |t|] == t
    ensures Contains(s, t)
    decreases k
  {
    if k == 0 {
      assert t <= s;
    } else {
      assert s[1..][k - 1..k - 1 + |t|] == s[k..k + |t|];
      ContainsAt(s[1..], t, k - 1);
    }
  }

  /** Conversely, `t in s` yields a position where t occurs. */
  lemma {:induction false} ContainsHasPosition(s: string, t: string) returns (k: nat)
    requires Contains(s, t)
    ensures k + |t| <= |s| && s[k..k + |t|] == t
    decreases |s|
  {
    if t <= s {
      k := 0;
    } else {
      var j := ContainsHasPosition(s[1..], t);
      assert s[1..][j..j + |t|] == s[j + 1..j + 1 + |t|];
      k := j + 1;
    }
  }

  /** Text appended after an occurrence does not remove it. */
  lemma ContainsAppend(s: string, u: string, t: string)
    requires Contains(s, t)
    ensures Contains(s + u, t)
  {
    var k := ContainsHasPosition(s, t);
    assert (s + u)[k..k + |t|] == s[k..k + |t|];
    ContainsAt(s + u, t, k);
  }

  /** Text prepended before an occurrence does not remove it. */
  lemma ContainsPrepend(p: string, s: string, t: string)
    requires Contains(s, t)
    ensures Contains(p + s, t)
  {
    var k := ContainsHasPosition(s, t);
    assert (p + s)[|p| + k..|p| + k + |t|] == s[k..k + |t|];
    ContainsAt(p + s, t, |p| + k);
  }

  /** t occurs in any text that holds it between two other pieces. */
  lemma ContainsMiddle(p: string, t: string, u: string)
    ensures Contains(p + t + u, t)
  {
    assert t <= t + u;
    ContainsPrepend(p, t + u, t);
    assert p + t + u == p + (t + u);
  }

  /** Every character of a contained text occurs in the containing text. */
  lemma ContainedCharsOccur(s: string, t: string)
    ensures Contains(s, t) ==> forall x :: x in t ==> x in s
  {
    if Contains(s, t) {
      var k := ContainsHasPosition(s, t);
      forall x | x in t
        ensures x in s
      {
        var j :| 0 <= j < |t| && t[j] == x;
        assert s[k + j] == s[k..k + |t|][j];
      }
    }
  }

  /** A text lacking one of t's characters does not contain t. */
  lemma MissingCharNotContained(s: string, t: string, ch: char)
    requires ch in t && ch !in s
    ensures !Contains(s, t)
  {
    ContainedCharsOccur(s, t);
  }

  /**
   * `s.count(t)`: the number of non-overlapping occurrences of t in s,
   * scanning from the left; for an empty t Python answers `len(s) + 1`.
   */
  function Count(s: string, t: string): nat
    decreases |s|
  {
    if |t| == 0 then |s| + 1
    else if t <= s then 1 + Count(s[|t|..], t)
    else if |s| == 0 then 0
    else Count(s[1..], t)
  }

  /** `s.count(t) > 0` tests exactly what `t in s` tests. */
  lemma {:induction false} CountPositiveIffContains(s: string, t: string)
    ensures Count(s, t) > 0 <==> Contains(s, t)
    decreases |s|
  {
    if |t| == 0 {
      assert t <= s;
    } else if t <= s {
    } else if |s| == 0 {
    } else {
      CountPositiveIffContains(s[1..], t);
    }
  }

  // ---------------------------------------------------------------------
  // Fields: `s.split(c)` and `s.split(c)[-1]`
  // ---------------------------------------------------------------------

  /** `s.split(c)` for a one-character separator: never an empty list. */
  function Split(s: string, c: char): (fields: seq<string>)
    ensures |fields| >= 1
    decreases |s|
  {
    if |s| == 0 then [""]
    else if s[0] == c then [""] + Split(s[1..], c)
    else
      var rest := Split(s[1..], c);
      [[s[0]] + rest[0]] + rest[1..]
  }

  /** `c.join(fields)`. */
  function Join(fields: seq<string>, c: char): string
    decreases |fields|
  {
    if |fields| == 0 then ""
    else if |fields| == 1 then fields[0]
    else fields[0] + [c] + Join(fields[1..], c)
  }

  /** Joining the fields with the separator gives back the original string, and no field holds the separator. */
  lemma JoinSplit(s: string, c: char)
    ensures Join(Split(s, c), c) == s
    ensures forall i :: 0 <= i < |Split(s, c)| ==> c !in Split(s, c)[i]
  {
    JoinSplitRoundTrip(s, c);
    SplitFieldsFree(s, c);
  }

  lemma {:induction false} JoinSplitRoundTrip(s: string, c: char)
    ensures Join(Split(s, c), c) == s
    decreases |s|
  {
    if |s| == 0 {
    } else if s[0] == c {
      JoinSplitRoundTrip(s[1..], c);
      assert s == [c] + s[1..];
    } else {
      JoinSplitRoundTrip(s[1..], c);
      var rest := Split(s[1..], c);
      assert Split(s, c) == [[s[0]] + rest[0]] + rest[1..];
      if |rest| == 1 {
        assert s == [s[0]] + rest[0];
      } else {
        assert Join(rest, c) == rest[0] + [c] + Join(rest[1..], c);
        assert ([[s[0]] + rest[0]] + rest[1..])[1..] == rest[1..];
        assert s == [s[0]] + s[1..];
      }
    }
  }

  lemma {:induction false} SplitFieldsFree(s: string, c: char)
    ensures forall i :: 0 <= i < |Split(s, c)| ==> c !in Split(s, c)[i]
    decreases |s|
  {
    if |s| > 0 {
      SplitFieldsFree(s[1..], c);
      var rest := Split(s[1..], c);
      var fields := Split(s, c);
      forall i | 0 <= i < |fields|
        ensures c !in fields[i]
      {
        if s[0] == c {
          if i > 0 {
            assert fields[i] == rest[i - 1];
          }
        } else if i > 0 {
          assert fields[i] == rest[i];
        }
      }
    }
  }

  /** A string without the separator is one field. */
  lemma {:induction false} SplitField(a: string, c: char)
    requires c !in a
    ensures Split(a, c) == [a]
    decreases |a|
  {
    if |a| > 0 {
      SplitField(a[1..], c);
      assert a == [a[0]] + a[1..];
    }
  }

  /** A leading separator-free field followed by the separator splits off as the first field. */
  lemma {:induction false} SplitCons(a: string, c: char, t: string)
    requires c !in a
    ensures Split(a + [c] + t, c) == [a] + Split(t, c)
    decreases |a|
  {
    if |a| > 0 {
      SplitCons(a[1..], c, t);
      var s := a + [c] + t;
      assert s[0] == a[0] && s[1..] == a[1..] + [c] + t;
      assert [a[0]] + a[1..] == a;
    } else {
      assert a + [c] + t == [c] + t;
    }
  }

  /** Splitting a join of separator-free fields gives back the fields. */
  lemma {:induction false} SplitJoin(fields: seq<string>, c: char)
    requires |fields| >= 1
    requires forall i :: 0 <= i < |fields| ==> c !in fields[i]
    ensures Split(Join(fields, c), c) == fields
    decreases |fields|
  {
    if |fields| == 1 {
      SplitField(fields[0], c);
    } else {
      SplitJoin(fields[1..], c);
      SplitCons(fields[0], c, Join(fields[1..], c));
      assert fields == [fields[0]] + fields[1..];
    }
  }

  /** `s.split(c)[-1]`. */
  function LastField(s: string, c: char): string
  {
    var fields := Split(s, c);
    fields[|fields| - 1]
  }

  /** A join ends with its last field, preceded by the separator when there are several. */
  lemma {:induction false} JoinEndsWithLast(fields: seq<string>, c: char)
    requires |fields| >= 1
    ensures var j, l := Join(fields, c), fields[|fields| - 1];
      |l| <= |j| && j[|j| - |l|..] == l && (|fields| > 1 ==> |l| < |j| && j[|j| - |l| - 1] == c)
    decreases |fields|
  {
    if |fields| > 1 {
      JoinEndsWithLast(fields[1..], c);
      var j, l := Join(fields, c), fields[|fields| - 1];
      var tail := Join(fields[1..], c);
      assert j == (fields[0] + [c]) + tail;
      assert fields[1..][|fields[1..]| - 1] == l;
      if |fields| == 2 {
        assert tail == l;
        assert j[|j| - |l| - 1] == c;
      }
    }
  }

  /** `s.split(c)[-1]` is the longest separator-free suffix of s: what follows the last c. */
  lemma LastFieldIsTail(s: string, c: char)
    ensures var l := LastField(s, c);
      c !in l && |l| <= |s| && s[|s| - |l|..] == l &&
      (|l| < |s| ==> s[|s| - |l| - 1] == c) &&
      (|l| == |s| ==> c !in s)
  {
    JoinSplit(s, c);
    JoinEndsWithLast(Split(s, c), c);
    var fields := Split(s, c);
    if |fields| == 1 {
      assert s == fields[0];
    }
  }

  /** Whatever precedes it, the text after the last separator is the last field. */
  lemma LastFieldAfter(a: string, c: char, t: string)
    requires c !in t
    ensures LastField(a + [c] + t, c) == t
  {
    var s := a + [c] + t;
    LastFieldIsTail(s, c);
    var l := LastField(s, c);
    assert s[|s| - |t| - 1] == c;
    assert s[|s| - |t|..] == t;
  }

  // ---------------------------------------------------------------------
  // Lines: `s.splitlines()`
  // ---------------------------------------------------------------------

  /** The line boundaries of `str.splitlines` (`\r\n` counts as one boundary). */
  predicate IsLineBreak(ch: char)
  {
    ch == '\n' || ch == '\r' || ch == '\U{0B}' || ch == '\U{0C}' ||
    ch == '\U{1C}' || ch == '\U{1D}' || ch == '\U{1E}' || ch == '\U{85}' ||
    ch == '\U{2028}' || ch == '\U{2029}'
  }

  predicate NoLineBreak(s: string)
  {
    forall i :: 0 <= i < |s| ==> !IsLineBreak(s[i])
  }

  /** The index of the first line boundary at or after i, or |s| if there is none. */
  function LineEnd(s: string, i: nat): (j: nat)
    requires i <= |s|
    ensures i <= j <= |s|
    ensures NoLineBreak(s[i..j])
    ensures j < |s| ==> IsLineBreak(s[j])
    decreases |s| - i
  {
    if i == |s| then i
    else if IsLineBreak(s[i]) then i
    else
      var j := LineEnd(s, i + 1);
      assert s[i..j] == [s[i]] + s[i + 1..j];
      j
  }

  /** `s.splitlines()`: the lines of s without their boundaries; no trailing empty line. */
  function SplitLines(s: string): seq<string>
    decreases |s|
  {
    if |s| == 0 then []
    else
      var k := LineEnd(s, 0);
      if k == |s| then [s]
      else
        var next := if s[k] == '\r' && k + 1 < |s| && s[k + 1] == '\n' then k + 2 else k + 1;
        [s[..k]] + SplitLines(s[next..])
  }

  /** No line that `splitlines` yields contains a boundary. */
  lemma {:induction false} SplitLinesHaveNoBreaks(s: string)
    ensures forall i :: 0 <= i < |SplitLines(s)| ==> NoLineBreak(SplitLines(s)[i])
    decreases |s|
  {
    if |s| > 0 {
      var k := LineEnd(s, 0);
      if k < |s| {
        var next := if s[k] == '\r' && k + 1 < |s| && s[k + 1] == '\n' then k + 2 else k + 1;
        SplitLinesHaveNoBreaks(s[next..]);
        assert s[..k] == s[0..k];
      }
    }
  }

  /** The text of the lines, each followed by `\n`, as a command's output is printed. */
  function Terminated(lines: seq<string>): string
    decreases |lines|
  {
    if |lines| == 0 then "" else lines[0] + "\n" + Terminated(lines[1..])
  }

  /** `splitlines` recovers newline-terminated lines that contain no boundary of their own. */
  lemma {:induction false} SplitLinesTerminated(lines: seq<string>)
    requires forall i :: 0 <= i < |lines| ==> NoLineBreak(lines[i])
    ensures SplitLines(Terminated(lines)) == lines
    decreases |lines|
  {
    if |lines| > 0 {
      var s := Terminated(lines);
      var l := lines[0];
      assert s == l + "\n" + Terminated(lines[1..]);
      assert s[|l|] == '\n';
      assert NoLineBreak(s[0..|l|]) by { assert s[0..|l|] == l; }
      LineEndIsFirstBreak(s, 0, |l|);
      assert s[..|l|] == l;
      assert s[|l| + 1..] == Terminated(lines[1..]);
      SplitLinesTerminated(lines[1..]);
      assert lines == [l] + lines[1..];
    }
  }

  /** A boundary at j with none in s[i..j] is what LineEnd finds. */
  lemma {:induction false} LineEndIsFirstBreak(s: string, i: nat, j: nat)
    requires i <= j < |s| && NoLineBreak(s[i..j]) && IsLineBreak(s[j])
    ensures LineEnd(s, i) == j
    decreases j - i
  {
    if i < j {
      assert s[i] == s[i..j][0];
      assert s[i + 1..j] == s[i..j][1..];
      LineEndIsFirstBreak(s, i + 1, j);
    }
  }

  // ---------------------------------------------------------------------
  // Whitespace: `s.strip()`
  // ---------------------------------------------------------------------

  /** The characters Python's `str.isspace` (and so `str.strip()`) treat as whitespace. */
  predicate IsSpace(ch: char)
  {
    ('\t' <= ch <= '\r') || ('\U{1C}' <= ch <= ' ') || ch == '\U{85}' || ch == '\U{A0}' ||
    ch == '\U{1680}' || ('\U{2000}' <= ch <= '\U{200A}') || ch == '\U{2028}' || ch == '\U{2029}' ||
    ch == '\U{202F}' || ch == '\U{205F}' || ch == '\U{3000}'
  }

  predicate AllSpace(s: string)
  {
    forall i :: 0 <= i < |s| ==> IsSpace(s[i])
  }

  /** Removes leading whitespace. */
  function TrimLeft(s: string): string
    decreases |s|
  {
    if |s| > 0 && IsSpace(s[0]) then TrimLeft(s[1..]) else s
  }

  /** Removes trailing whitespace. */
  function TrimRight(s: string): string
    decreases |s|
  {
    if |s| > 0 && IsSpace(s[|s| - 1]) then TrimRight(s[..|s| - 1]) else s
  }

  /** TrimLeft keeps a suffix, what it cuts is whitespace, and what it keeps does not start with whitespace. */
  lemma {:induction false} TrimLeftCuts(s: string)
    ensures var r := TrimLeft(s);
      |r| <= |s| && r == s[|s| - |r|..] && AllSpace(s[..|s| - |r|]) && (r == [] || !IsSpace(r[0]))
    decreases |s|
  {
    if |s| > 0 && IsSpace(s[0]) {
      TrimLeftCuts(s[1..]);
      var r := TrimLeft(s[1..]);
      assert s[..|s| - |r|] == [s[0]] + s[1..][..|s[1..]| - |r|];
    }
  }

  /** TrimRight keeps a prefix, what it cuts is whitespace, and what it keeps does not end with whitespace. */
  lemma {:induction false} TrimRightCuts(s: string)
    ensures var r := TrimRight(s);
      |r| <= |s| && r == s[..|r|] && AllSpace(s[|r|..]) && (r == [] || !IsSpace(r[|r| - 1]))
    decreases |s|
  {
    if |s| > 0 && IsSpace(s[|s| - 1]) {
      TrimRightCuts(s[..|s| - 1]);
      var r := TrimRight(s[..|s| - 1]);
      assert s[|r|..] == s[..|s| - 1][|r|..] + [s[|s| - 1]];
    }
  }

  /** `s.strip()`. */
  function Strip(s: string): string
  {
    TrimRight(TrimLeft(s))
  }

  /** A string that neither starts nor ends with whitespace is left as it is by `strip()`. */
  lemma StripKeeps(s: string)
    requires s == [] || (!IsSpace(s[0]) && !IsSpace(s[|s| - 1]))
    ensures Strip(s) == s
  {
    assert TrimLeft(s) == s;
  }

  /** Leading whitespace before a word is what `strip()` removes. */
  lemma {:induction false} StripPadded(pad: string, t: string)
    requires AllSpace(pad) && 0 < |t| && !IsSpace(t[0]) && !IsSpace(t[|t| - 1])
    ensures Strip(pad + t) == t
    decreases |pad|
  {
    if |pad| == 0 {
      assert pad + t == t;
      StripKeeps(t);
    } else {
      assert (pad + t)[0] == pad[0] && (pad + t)[1..] == pad[1..] + t;
      StripPadded(pad[1..], t);
    }
  }

  // ---------------------------------------------------------------------
  // Integers: `int(s)` and `str(i)`
  // ---------------------------------------------------------------------

  predicate IsDigit(ch: char)
  {
    '0' <= ch <= '9'
  }

  /** The digits of a base-10 literal, with `_` allowed only between two digits. */
  predicate IsDigitBody(b: string)
    decreases |b|
  {
    |b| > 0 && IsDigit(b[0]) &&
    (|b| == 1 || IsDigitBody(b[1..]) || (|b| > 2 && b[1] == '_' && IsDigitBody(b[2..])))
  }

  /** A digit string starts and ends with a digit. */
  lemma {:induction false} DigitBodyEnds(b: string)
    requires IsDigitBody(b)
    ensures IsDigit(b[0]) && IsDigit(b[|b| - 1])
    decreases |b|
  {
    if |b| > 1 {
      if IsDigitBody(b[1..]) {
        DigitBodyEnds(b[1..]);
      } else {
        DigitBodyEnds(b[2..]);
      }
    }
  }

  /** A non-empty run of digits is a digit string. */
  lemma {:induction false} DigitsAreBody(b: string)
    requires |b| > 0 && forall i :: 0 <= i < |b| ==> IsDigit(b[i])
    ensures IsDigitBody(b)
    decreases |b|
  {
    if |b| > 1 {
      DigitsAreBody(b[1..]);
    }
  }

  /** The value of a digit string, skipping the `_` separators. */
  function DigitsValue(b: string): nat
    decreases |b|
  {
    if |b| == 0 then 0
    else if b[|b| - 1] == '_' then DigitsValue(b[..|b| - 1])
    else 10 * DigitsValue(b[..|b| - 1]) + ((b[|b| - 1] as int - '0' as int) % 10)
  }

  /**
   * The whitespace `int()` skips around a literal: that of `str.isspace`
   * except the ASCII separators U+001C to U+001F, which `int()` rejects.
   */
  predicate IsIntSpace(ch: char)
  {
    IsSpace(ch) && !('\U{1C}' <= ch <= '\U{1F}')
  }

  function IntTrimLeft(s: string): string
    decreases |s|
  {
    if |s| > 0 && IsIntSpace(s[0]) then IntTrimLeft(s[1..]) else s
  }

  function IntTrimRight(s: string): string
    decreases |s|
  {
    if |s| > 0 && IsIntSpace(s[|s| - 1]) then IntTrimRight(s[..|s| - 1]) else s
  }

  /** What `int()` removes around its argument before reading the literal. */
  function IntStrip(s: string): string
  {
    IntTrimRight(IntTrimLeft(s))
  }

  /**
   * `int(s)`: surrounding whitespace, an optional sign, then base-10 digits;
   * None where Python raises ValueError.
   */
  function PyInt(s: string): Option<int>
  {
    IntLiteral(IntStrip(s))
  }

  /** The literal `int()` reads once whitespace is stripped: an optional sign, then a digit string. */
  function IntLiteral(t: string): Option<int>
  {
    if |t| == 0 then None
    else
      var negative := t[0] == '-';
      var body := if t[0] == '-' || t[0] == '+' then t[1..] else t;
      if !IsDigitBody(body) then None
      else if negative then Some(-(DigitsValue(body) as int))
      else Some(DigitsValue(body))
  }

  function DigitChar(d: nat): char
    requires d < 10
  {
    ('0' as int + d) as char
  }

  /** The decimal digits of n, most significant first, without leading zeros. */
  function NatStr(n: nat): string
    decreases n
  {
    if n < 10 then [DigitChar(n)] else NatStr(n / 10) + [DigitChar(n % 10)]
  }

  /** `str(i)` for an int. */
  function Str(i: int): string
  {
    if i < 0 then "-" + NatStr(-i) else NatStr(i)
  }

  /** The decimal digits of n are a digit string whose value is n. */
  lemma {:induction false} NatStrValue(n: nat)
    ensures |NatStr(n)| > 0
    ensures forall i :: 0 <= i < |NatStr(n)| ==> IsDigit(NatStr(n)[i])
    ensures IsDigitBody(NatStr(n))
    ensures DigitsValue(NatStr(n)) == n
    decreases n
  {
    if n >= 10 {
      NatStrValue(n / 10);
      var s := NatStr(n);
      assert s[..|s| - 1] == NatStr(n / 10);
    }
    DigitsAreBody(NatStr(n));
  }

  /** `int` reads a digit string as its value. */
  lemma PyIntDigits(d: string)
    requires IsDigitBody(d)
    ensures PyInt(d) == Some(DigitsValue(d) as int)
  {
    DigitBodyEnds(d);
    IntStripKeeps(d);
    assert d[0] != '-' && d[0] != '+';
  }

  /** `int` reads a minus sign followed by a digit string as the negated value. */
  lemma PyIntNegatedDigits(d: string)
    requires IsDigitBody(d)
    ensures PyInt("-" + d) == Some(-(DigitsValue(d) as int))
  {
    var m := "-" + d;
    assert m[1..] == d;
    DigitBodyEnds(d);
    assert m[0] == '-' && m[|m| - 1] == d[|d| - 1];
    IntStripKeeps(m);
    var t := IntStrip(m);
    assert t == m;
    assert t[1..] == d;
    assert IsDigitBody(t[1..]);
  }

  /** `int(str(i)) == i`. */
  lemma PyIntStr(i: int)
    ensures PyInt(Str(i)) == Some(i)
  {
    var n: nat := if i < 0 then -i else i;
    var d := NatStr(n);
    NatStrValue(n);
    if i < 0 {
      PyIntNegatedDigits(d);
    } else {
      PyIntDigits(d);
    }
  }

  /** A digit string holds only digits and `_` separators. */
  lemma {:induction false} DigitBodyChars(b: string)
    ensures IsDigitBody(b) ==> forall k :: 0 <= k < |b| ==> IsDigit(b[k]) || b[k] == '_'
    decreases |b|
  {
    if IsDigitBody(b) && |b| > 1 {
      if IsDigitBody(b[1..]) {
        DigitBodyChars(b[1..]);
        assert forall k :: 1 <= k < |b| ==> b[k] == b[1..][k - 1];
      } else {
        DigitBodyChars(b[2..]);
        assert forall k :: 2 <= k < |b| ==> b[k] == b[2..][k - 2];
      }
    }
  }

  /** `int()` rejects a range such as `0-7`: a minus sign after the first digit is not part of a literal. */
  lemma PyIntRejectsRange(a: nat, b: nat)
    ensures PyInt(NatStr(a) + "-" + NatStr(b)).None?
  {
    NatStrValue(a);
    NatStrValue(b);
    PyIntRejectsDash(NatStr(a), NatStr(b));
  }

  /** Two digit-led and digit-ended parts joined by a minus sign are not an integer literal. */
  lemma PyIntRejectsDash(x: string, y: string)
    requires |x| > 0 && |y| > 0 && IsDigit(x[0]) && IsDigit(y[|y| - 1])
    ensures PyInt(x + "-" + y).None?
  {
    var r := x + "-" + y;
    assert r[0] == x[0];
    assert r[|r| - 1] == y[|y| - 1];
    assert r[|x|] == '-';
    PyIntRejectsUnsigned(r, |x|);
  }

  /** A string led and ended by digits, with a character that is neither digit nor `_` inside, is not an integer literal. */
  lemma PyIntRejectsUnsigned(r: string, k: nat)
    requires 0 < k < |r| && IsDigit(r[0]) && IsDigit(r[|r| - 1]) && !IsDigit(r[k]) && r[k] != '_'
    ensures PyInt(r).None?
  {
    DigitBodyChars(r);
    assert !IsDigitBody(r);
    IntLiteralRejectsBody(r);
    IntStripKeeps(r);
  }

  /** An unsigned string that is not a digit string is rejected. */
  lemma IntLiteralRejectsBody(r: string)
    requires 0 < |r| && IsDigit(r[0]) && !IsDigitBody(r)
    ensures IntLiteral(r).None?
  {
  }

  /** A string that neither starts nor ends with whitespace is left as it is by `int()`'s trim. */
  lemma IntStripKeeps(s: string)
    requires s == [] || (!IsSpace(s[0]) && !IsSpace(s[|s| - 1]))
    ensures IntStrip(s) == s
  {
    assert IntTrimLeft(s) == s;
  }

  /** What `strip()` leaves neither starts nor ends with whitespace. */
  lemma StripEnds(s: string)
    ensures var t := Strip(s); t == [] || (!IsSpace(t[0]) && !IsSpace(t[|t| - 1]))
  {
    var l := TrimLeft(s);
    var t := Strip(s);
    TrimLeftCuts(s);
    TrimRightCuts(l);
    if t != [] {
      assert t == l[..|t|];
      assert t[0] == l[0];
    }
  }

  /** On a string without surrounding whitespace `int()` reads the literal as it is. */
  lemma PyIntStripped(r: string)
    requires Strip(r) == r
    ensures PyInt(r) == IntLiteral(r)
  {
    StripEnds(r);
    IntStripKeeps(r);
  }

  /** After `strip()`, as `int(x.strip())` has it, `int()` trims nothing more and reads the literal itself. */
  lemma PyIntAfterStrip(s: string)
    ensures PyInt(Strip(s)) == IntLiteral(Strip(s))
  {
    StripEnds(s);
    IntStripKeeps(Strip(s));
  }

  /** `strip()` removes a leading U+001C, but `int()` on its own rejects it: `int('\x1c5')` raises. */
  lemma IntSpaceNarrowerThanStrip()
    ensures Strip("\U{1C}5") == "5" && PyInt("\U{1C}5").None? && PyInt(Strip("\U{1C}5")) == Some(5)
  {
    assert TrimLeft("\U{1C}5") == TrimLeft("5");
    assert IntStrip("\U{1C}5") == "\U{1C}5";
    assert !IsDigitBody("\U{1C}5");
    PyIntDigits("5");
  }

  /** `str(i)` contains no whitespace and no line boundary, so it survives `strip()` and `splitlines()`. */
  lemma StrIsPlain(i: int)
    ensures |Str(i)| > 0
    ensures forall k :: 0 <= k < |Str(i)| ==> Str(i)[k] == '-' || IsDigit(Str(i)[k])
    ensures forall k :: 0 <= k < |Str(i)| ==> !IsSpace(Str(i)[k]) && !IsLineBreak(Str(i)[k])
  {
    NatStrValue(if i < 0 then -i else i);
    if i < 0 {
      assert forall k :: 0 < k < |Str(i)| ==> Str(i)[k] == NatStr(-i)[k - 1];
    }
  }
}
