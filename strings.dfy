/**
 * The Python string operations the generator uses, with their Python
 * meaning: `str.strip()`, `p in s`, `str.replace` and `str(n)` for a
 * non-negative integer. There is also `str.split('\n')` and `'\n'.join`,
 * which the generator does not call: they state the line-level reference
 * of its MULTILINE substitution.
 *
 * Whitespace is the ASCII set " \t\n\r\v\f". Python's `\s` and `str.strip()`
 * also accept the separators U+001C..U+001F and the non-ASCII Unicode spaces;
 * those are left out of this model.
 */
module Strings {

  predicate IsSpace(c: char) {
    c == ' ' || c == '\t' || c == '\n' || c == '\r' || c == '\U{000B}' || c == '\U{000C}'
  }

  predicate IsDigit(c: char) {
    '0' <= c <= '9'
  }

  predicate NoNewline(l: string) {
    '\n' !in l
  }

  /** Joining two texts without a line break gives none. */
  lemma {:induction false} NoNewlineAppend(a: string, b: string)
    requires NoNewline(a) && NoNewline(b)
    ensures NoNewline(a + b)
  {
  }

  // ---------------------------------------------------------------- runs

  /** The number of characters before the first line break (all of s if none). */
  function LineLen(s: string): (n: nat)
    ensures n <= |s|
    ensures n < |s| ==> s[n] == '\n'
  {
    if |s| == 0 || s[0] == '\n' then 0 else 1 + LineLen(s[1..])
  }

  /** None of the characters LineLen counts is a line break. */
  lemma {:induction false} LineLenNoBreak(s: string)
    ensures forall k :: 0 <= k < LineLen(s) ==> s[k] != '\n'
    ensures NoNewline(s[..LineLen(s)])
  {
    if s != [] && s[0] != '\n' {
      LineLenNoBreak(s[1..]);
      forall k | 0 < k < LineLen(s) ensures s[k] != '\n' {
        assert s[k] == s[1..][k - 1];
      }
      assert s[..LineLen(s)] == [s[0]] + s[1..][..LineLen(s[1..])];
    }
  }

  /** Dropping part of the first line shortens it by as much. */
  lemma {:induction false} LineLenSuffix(s: string, a: nat)
    requires a <= LineLen(s)
    ensures LineLen(s[a..]) == LineLen(s) - a
  {
    if a > 0 {
      LineLenSuffix(s[1..], a - 1);
      assert s[1..][a - 1..] == s[a..];
    }
  }

  /** A line break-free prefix is counted whole. */
  lemma {:induction false} LineLenAppend(l: string, x: string)
    requires NoNewline(l)
    ensures LineLen(l + x) == |l| + LineLen(x)
  {
    if l != [] {
      assert l[0] in l;
      assert (l + x)[1..] == l[1..] + x;
      LineLenAppend(l[1..], x);
    } else {
      assert l + x == x;
    }
  }

  /** The number of leading copies of c in s. */
  function CountLeading(s: string, c: char): (n: nat)
    ensures n <= |s|
    ensures n < |s| ==> s[n] != c
  {
    if |s| == 0 || s[0] != c then 0 else 1 + CountLeading(s[1..], c)
  }

  /** Every character CountLeading counts is c. */
  lemma {:induction false} CountLeadingSpec(s: string, c: char)
    ensures forall k :: 0 <= k < CountLeading(s, c) ==> s[k] == c
  {
    if s != [] && s[0] == c {
      CountLeadingSpec(s[1..], c);
      forall k | 0 < k < CountLeading(s, c) ensures s[k] == c {
        assert s[k] == s[1..][k - 1];
      }
    }
  }

  /** CountLeading is the only length of a maximal run of c. */
  lemma {:induction false} CountLeadingUnique(s: string, c: char, m: nat)
    requires m <= |s|
    requires forall k :: 0 <= k < m ==> s[k] == c
    requires m < |s| ==> s[m] != c
    ensures CountLeading(s, c) == m
  {
    CountLeadingSpec(s, c);
  }

  /** Leading copies of c in a concatenation. */
  lemma {:induction false} CountLeadingAppend(l: string, x: string, c: char)
    ensures CountLeading(l + x, c) ==
      if CountLeading(l, c) < |l| then CountLeading(l, c) else |l| + CountLeading(x, c)
  {
    if l != [] {
      assert (l + x)[0] == l[0];
      if l[0] == c {
        assert (l + x)[1..] == l[1..] + x;
        CountLeadingAppend(l[1..], x, c);
      }
    } else {
      assert l + x == x;
    }
  }

  // ---------------------------------------------------------------- lines

  /** `s.split('\n')`: the lines of s without their terminators; never empty. */
  function Lines(s: string): (ls: seq<string>)
    ensures |ls| >= 1
    decreases |s|
  {
    var n := LineLen(s);
    if n == |s| then [s] else [s[..n]] + Lines(s[n + 1..])
  }

  /** No line of Lines(s) holds a line break. */
  lemma {:induction false} LinesNoBreak(s: string)
    ensures forall k :: 0 <= k < |Lines(s)| ==> NoNewline(Lines(s)[k])
    decreases |s|
  {
    var n := LineLen(s);
    LineLenNoBreak(s);
    if n == |s| {
      assert s[..n] == s;
    } else {
      LinesNoBreak(s[n + 1..]);
      LinesCons(s);
    }
  }

  /** `'\n'.join(ls)`. */
  function Unlines(ls: seq<string>): string {
    if |ls| == 0 then ""
    else if |ls| == 1 then ls[0]
    else ls[0] + "\n" + Unlines(ls[1..])
  }

  /** Splitting on line breaks and joining again gives back the text. */
  lemma {:induction false} UnlinesLines(s: string)
    ensures Unlines(Lines(s)) == s
    decreases |s|
  {
    var n := LineLen(s);
    if n < |s| {
      var t := s[n + 1..];
      calc {
        Unlines(Lines(s));
        { LinesCons(s); }
        Unlines([s[..n]] + Lines(t));
        { UnlinesCons(s[..n], Lines(t)); }
        s[..n] + "\n" + Unlines(Lines(t));
        { UnlinesLines(t); }
        s[..n] + "\n" + t;
        { assert "\n" == [s[n]]; }
        s[..n] + [s[n]] + s[n + 1..];
        { assert s[..n] + [s[n]] == s[..n + 1]; }
        s;
      }
    }
  }

  lemma {:induction false} UnlinesCons(l: string, ls: seq<string>)
    requires |ls| > 0
    ensures Unlines([l] + ls) == l + "\n" + Unlines(ls)
  {
    assert ([l] + ls)[1..] == ls;
  }

  /** A text without a line break is one line. */
  lemma {:induction false} LinesOne(l: string)
    requires NoNewline(l)
    ensures Lines(l) == [l]
  {
    LineLenAppend(l, []);
    assert l + [] == l;
  }

  /** A line without a break, then a line break, opens the lines of what follows. */
  lemma {:induction false} LinesLine(l: string, u: string)
    requires NoNewline(l)
    ensures Lines(l + "\n" + u) == [l] + Lines(u)
  {
    var s := l + ("\n" + u);
    assert s == l + "\n" + u;
    LineLenAppend(l, "\n" + u);
    assert LineLen("\n" + u) == 0;
    LinesCons(s);
    assert s[..|l|] == l;
    assert s == (l + "\n") + u;
    assert s[|l| + 1..] == u;
  }

  /** Joining lines that hold no line break and splitting again gives back the lines. */
  lemma {:induction false} LinesUnlines(ls: seq<string>)
    requires |ls| >= 1
    requires forall k :: 0 <= k < |ls| ==> NoNewline(ls[k])
    ensures Lines(Unlines(ls)) == ls
  {
    if |ls| == 1 {
      LinesOne(ls[0]);
    } else {
      var l, rest := ls[0], ls[1..];
      assert ls == [l] + rest;
      UnlinesCons(l, rest);
      LinesLine(l, Unlines(rest));
      LinesUnlines(rest);
    }
  }

  /** A line break followed by more text opens one more line. */
  lemma {:induction false} LinesCons(s: string)
    requires LineLen(s) < |s|
    ensures Lines(s) == [s[..LineLen(s)]] + Lines(s[LineLen(s) + 1..])
  {
  }

  // ---------------------------------------------------------------- strip

  /** `s.lstrip()`: a suffix of s that does not start with whitespace. */
  function TrimStart(s: string): string {
    if s != [] && IsSpace(s[0]) then TrimStart(s[1..]) else s
  }

  lemma {:induction false} TrimStartSuffix(s: string)
    ensures var r := TrimStart(s);
      |r| <= |s| && r == s[|s| - |r|..] && (|r| == 0 || !IsSpace(r[0]))
  {
    if s != [] && IsSpace(s[0]) {
      TrimStartSuffix(s[1..]);
    } else {
      assert s[0..] == s;
    }
  }

  /** What TrimStart drops is whitespace. */
  lemma {:induction false} TrimStartDropsSpace(s: string)
    ensures forall k :: 0 <= k < |s| - |TrimStart(s)| ==> IsSpace(s[k])
  {
    if s != [] && IsSpace(s[0]) {
      TrimStartDropsSpace(s[1..]);
      forall k | 0 < k < |s| - |TrimStart(s)| ensures IsSpace(s[k]) {
        assert s[k] == s[1..][k - 1];
      }
    }
  }

  /** `s.rstrip()`: a prefix of s that does not end with whitespace. */
  function TrimEnd(s: string): string {
    if s != [] && IsSpace(s[|s| - 1]) then TrimEnd(s[..|s| - 1]) else s
  }

  lemma {:induction false} TrimEndPrefix(s: string)
    ensures var r := TrimEnd(s);
      |r| <= |s| && r == s[..|r|] && (|r| == 0 || !IsSpace(r[|r| - 1]))
  {
    if s != [] && IsSpace(s[|s| - 1]) {
      TrimEndPrefix(s[..|s| - 1]);
    } else {
      assert s[..|s|] == s;
    }
  }

  /** What TrimEnd drops is whitespace. */
  lemma {:induction false} TrimEndDropsSpace(s: string)
    ensures forall k :: |TrimEnd(s)| <= k < |s| ==> IsSpace(s[k])
  {
    if s != [] && IsSpace(s[|s| - 1]) {
      var t := s[..|s| - 1];
      TrimEndDropsSpace(t);
      forall k | |TrimEnd(s)| <= k < |s| - 1 ensures IsSpace(s[k]) {
        assert s[k] == t[k];
      }
    }
  }

  /** `s.strip()`. */
  function Strip(s: string): string {
    TrimEnd(TrimStart(s))
  }

  /**
   * Strip keeps one contiguous slice of s, starting at the returned offset a,
   * whose ends are not whitespace; everything it removes is whitespace.
   */
  lemma {:induction false} StripSlice(s: string) returns (a: nat)
    ensures a + |Strip(s)| <= |s| && Strip(s) == s[a..a + |Strip(s)|]
    ensures Strip(s) == [] || (!IsSpace(Strip(s)[0]) && !IsSpace(Strip(s)[|Strip(s)| - 1]))
    ensures forall k :: 0 <= k < a ==> IsSpace(s[k])
    ensures forall k :: a + |Strip(s)| <= k < |s| ==> IsSpace(s[k])
  {
    var t := TrimStart(s);
    var r := TrimEnd(t);
    TrimStartSuffix(s);
    TrimEndPrefix(t);
    a := |s| - |t|;
    SuffixPrefix(s, a, t, r);
    if r != [] {
      assert r[0] == t[0];
    }
    TrimStartDropsSpace(s);
    TrimEndDropsSpace(t);
  }

  /** A prefix r of the suffix t of s that starts at a. */
  lemma {:induction false} SuffixPrefix(s: string, a: nat, t: string, r: string)
    requires a <= |s| && t == s[a..] && |r| <= |t| && r == t[..|r|]
    ensures r == s[a..a + |r|]
    ensures forall k :: a + |r| <= k < |s| ==> s[k] == t[k - a]
  {
  }

  // ---------------------------------------------------------------- search and replace

  /** p occurs in s at position i. */
  predicate OccursAt(s: string, p: string, i: nat) {
    i + |p| <= |s| && s[i..i + |p|] == p
  }

  /** Python's `p in s`. */
  predicate Contains(s: string, p: string) {
    exists i :: 0 <= i <= |s| - |p| && OccursAt(s, p, i)
  }

  /**
   * No occurrence of p starts inside x when its k-th character is neither in
   * x nor among the first k characters of what follows x.
   */
  lemma {:induction false} NoStartIn(x: string, y: string, p: string, k: nat)
    requires k < |p| && p[k] !in x
    requires forall j :: 0 <= j < k && j < |y| ==> y[j] != p[k]
    ensures forall i :: 0 <= i < |x| ==> !OccursAt(x + y, p, i)
  {
  }

  /** When no occurrence starts inside x, p occurs in x + y iff it occurs in y. */
  lemma {:induction false} ContainsSkip(x: string, y: string, p: string)
    requires forall i :: 0 <= i < |x| ==> !OccursAt(x + y, p, i)
    ensures Contains(x + y, p) <==> Contains(y, p)
  {
    var s := x + y;
    if Contains(s, p) {
      var i :| 0 <= i <= |s| - |p| && OccursAt(s, p, i);
      assert i >= |x|;
      assert s[i..i + |p|] == y[i - |x|..i - |x| + |p|];
      assert OccursAt(y, p, i - |x|);
    }
    if Contains(y, p) {
      var i :| 0 <= i <= |y| - |p| && OccursAt(y, p, i);
      assert s[|x| + i..|x| + i + |p|] == y[i..i + |p|];
      assert OccursAt(s, p, |x| + i);
    }
  }

  /** A text that starts with p contains it. */
  lemma {:induction false} ContainsFront(p: string, y: string)
    ensures Contains(p + y, p)
  {
    assert (p + y)[0..|p|] == p;
    assert OccursAt(p + y, p, 0);
  }

  /** A text holding no copy of p's first character does not contain p. */
  lemma {:induction false} ContainsNot(s: string, p: string)
    requires |p| > 0 && p[0] !in s
    ensures !Contains(s, p)
  {
    NoStartIn(s, [], p, 0);
    ContainsSkip(s, [], p);
    assert s + [] == s;
  }

  /**
   * `s.replace(pat, rep)`: every occurrence of pat, found left to right and
   * without overlap, is replaced by rep. The empty pattern is not modelled.
   */
  function ReplaceAll(s: string, pat: string, rep: string): string
    requires |pat| > 0
    decreases |s|
  {
    if |s| < |pat| then s
    else if s[..|pat|] == pat then rep + ReplaceAll(s[|pat|..], pat, rep)
    else [s[0]] + ReplaceAll(s[1..], pat, rep)
  }

  /** Text in which no occurrence of the pattern starts is copied unchanged. */
  lemma {:induction false} ReplaceAllSkip(x: string, y: string, pat: string, rep: string)
    requires |pat| > 0
    requires forall i :: 0 <= i < |x| ==> !OccursAt(x + y, pat, i)
    ensures ReplaceAll(x + y, pat, rep) == x + ReplaceAll(y, pat, rep)
    decreases |x|
  {
    if x != [] {
      var s := x + y;
      assert s[1..] == x[1..] + y;
      forall i | 0 <= i < |x| - 1 ensures !OccursAt(x[1..] + y, pat, i) {
        assert !OccursAt(s, pat, i + 1);
        if i + |pat| <= |s[1..]| {
          assert s[1..][i..i + |pat|] == s[i + 1..i + 1 + |pat|];
        }
      }
      ReplaceAllSkip(x[1..], y, pat, rep);
      if |s| < |pat| {
        ReplaceAllShort(s, pat, rep);
        ReplaceAllShort(y, pat, rep);
      } else {
        assert !OccursAt(s, pat, 0);
        assert s[0..|pat|] == s[..|pat|];
        calc {
          ReplaceAll(s, pat, rep);
          [s[0]] + ReplaceAll(s[1..], pat, rep);
          [x[0]] + (x[1..] + ReplaceAll(y, pat, rep));
          { assert [x[0]] + x[1..] == x; }
          x + ReplaceAll(y, pat, rep);
        }
      }
    } else {
      assert x + y == y;
    }
  }

  lemma {:induction false} ReplaceAllShort(s: string, pat: string, rep: string)
    requires |pat| > 0 && |s| < |pat|
    ensures ReplaceAll(s, pat, rep) == s
  {
  }

  /** Text without any occurrence of the pattern is left unchanged. */
  lemma {:induction false} ReplaceAllAbsent(s: string, pat: string, rep: string)
    requires |pat| > 0
    requires !Contains(s, pat)
    ensures ReplaceAll(s, pat, rep) == s
  {
    forall i | 0 <= i < |s| ensures !OccursAt(s + [], pat, i) {
      assert s + [] == s;
    }
    ReplaceAllSkip(s, [], pat, rep);
    assert s + [] == s;
  }

  /** An occurrence at the front is replaced. */
  lemma {:induction false} ReplaceAllFront(y: string, pat: string, rep: string)
    requires |pat| > 0
    ensures ReplaceAll(pat + y, pat, rep) == rep + ReplaceAll(y, pat, rep)
  {
    var s := pat + y;
    assert s[..|pat|] == pat;
    assert s[|pat|..] == y;
  }

  /**
   * `replace` rewrites the leftmost occurrence: when no occurrence of pat
   * starts inside x, the pat after x becomes rep, and the replacement goes on
   * after it.
   */
  lemma {:induction false} ReplaceAllLeftmost(x: string, y: string, pat: string, rep: string)
    requires |pat| > 0
    requires forall i :: 0 <= i < |x| ==> !OccursAt(x + (pat + y), pat, i)
    ensures ReplaceAll(x + pat + y, pat, rep) == x + rep + ReplaceAll(y, pat, rep)
  {
    assert x + pat + y == x + (pat + y);
    ReplaceAllSkip(x, pat + y, pat, rep);
    ReplaceAllFront(y, pat, rep);
    assert x + (rep + ReplaceAll(y, pat, rep)) == x + rep + ReplaceAll(y, pat, rep);
  }

  /** Replacing in a non-empty text with a non-empty replacement leaves a non-empty text. */
  lemma {:induction false} ReplaceAllNonEmpty(s: string, pat: string, rep: string)
    requires |pat| > 0 && |rep| > 0 && |s| > 0
    ensures |ReplaceAll(s, pat, rep)| > 0
  {
  }

  /**
   * Text x in which pat's k-th character does not occur, followed by text
   * whose first k characters are not that character either, is copied
   * unchanged by the replacement and can be skipped when searching.
   */
  predicate SkipsPattern(x: string, y: string, pat: string, k: nat) {
    && k < |pat| && pat[k] !in x
    && forall j :: 0 <= j < k && j < |y| ==> y[j] != pat[k]
  }

  lemma {:induction false} ReplaceAllPast(x: string, y: string, pat: string, rep: string, k: nat)
    requires SkipsPattern(x, y, pat, k)
    ensures ReplaceAll(x + y, pat, rep) == x + ReplaceAll(y, pat, rep)
  {
    NoStartIn(x, y, pat, k);
    ReplaceAllSkip(x, y, pat, rep);
  }

  lemma {:induction false} ContainsPast(x: string, y: string, p: string, k: nat)
    requires SkipsPattern(x, y, p, k)
    ensures Contains(x + y, p) <==> Contains(y, p)
  {
    NoStartIn(x, y, p, k);
    ContainsSkip(x, y, p);
  }

  // ---------------------------------------------------------------- decimal numerals

  function DigitChar(d: nat): (c: char)
    requires d < 10
    ensures IsDigit(c) && c as int - '0' as int == d
  {
    (('0' as int) + d) as char
  }

  /** `str(n)` for n >= 0: decimal digits without leading zeros. */
  function Decimal(n: nat): (r: string)
    ensures |r| >= 1
    ensures forall k :: 0 <= k < |r| ==> IsDigit(r[k])
    ensures r[0] == '0' ==> n == 0
  {
    if n < 10 then [DigitChar(n)] else Decimal(n / 10) + [DigitChar(n % 10)]
  }

  function DigitValue(c: char): nat
    requires IsDigit(c)
  {
    c as int - '0' as int
  }

  /** The value of a string of decimal digits. */
  function DecimalValue(s: string): nat
    requires forall k :: 0 <= k < |s| ==> IsDigit(s[k])
  {
    if |s| == 0 then 0
    else DecimalValue(s[..|s| - 1]) * 10 + DigitValue(s[|s| - 1])
  }

  /** Reading the numeral back gives the number. */
  lemma {:induction false} DecimalRoundTrip(n: nat)
    ensures DecimalValue(Decimal(n)) == n
  {
    if n >= 10 {
      DecimalRoundTrip(n / 10);
      var r := Decimal(n);
      assert r[..|r| - 1] == Decimal(n / 10);
    }
  }
}
