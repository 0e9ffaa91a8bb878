/**
 * The description cleaner `_clean_description`: Python's
 * `re.sub(r'^#+\s.*$', '', text, flags=re.MULTILINE)` followed by `.strip()`.
 *
 * The regular expression is modelled by the scan `re.sub` performs: at each
 * position it tries the pattern; on a match it drops the matched text and
 * resumes right after it, otherwise it keeps one character and moves on.
 * Under MULTILINE, `^` holds at the start of the text and after every '\n',
 * `$` holds at the end of the text and before every '\n', and `.` is any
 * character but '\n'. `\s` is whitespace, '\n' included (Strings.IsSpace
 * gives the ASCII set used for both `\s` and `strip()`).
 */
module Cleaner {
  import opened Wrappers
  import opened Strings

  /** The text starts with what `#+\s` matches: one or more '#', then one whitespace character. */
  predicate HeaderAt(s: string) {
    exists n :: 0 < n < |s| && IsSpace(s[n]) && forall k :: 0 <= k < n ==> s[k] == '#'
  }

  /** The maximal run of '#' at the front of s is non-empty and followed by whitespace. */
  predicate HashSpace(s: string) {
    var j := CountLeading(s, '#');
    0 < j < |s| && IsSpace(s[j])
  }

  /**
   * `#+` is greedy, and backtracking to a shorter run cannot help, because a
   * shorter run is followed by '#', which is not whitespace: only the maximal
   * run has to be tried.
   */
  lemma {:induction false} HeaderAtRun(s: string)
    ensures HeaderAt(s) <==> HashSpace(s)
  {
    var j := CountLeading(s, '#');
    CountLeadingSpec(s, '#');
    if HeaderAt(s) {
      var n :| 0 < n < |s| && IsSpace(s[n]) && forall k :: 0 <= k < n ==> s[k] == '#';
      CountLeadingUnique(s, '#', n);
    }
  }

  /** A text that starts with a header still does so with more text after it. */
  lemma {:induction false} HeaderAtPrefix(x: string, y: string)
    requires |x| <= |y| && x == y[..|x|]
    requires HeaderAt(x)
    ensures HeaderAt(y)
  {
    var n :| 0 < n < |x| && IsSpace(x[n]) && forall k :: 0 <= k < n ==> x[k] == '#';
    assert forall k :: 0 <= k <= n ==> y[k] == x[k];
  }

  /**
   * The length of the match of `^#+\s.*$` at the front of s, if there is one;
   * bol says whether `^` holds there (start of the text, or just after '\n').
   */
  function MatchLen(s: string, bol: bool): (r: Option<nat>)
    ensures r.Some? ==> 0 < r.value <= |s|
  {
    if !bol || !HashSpace(s) then None
    else
      var j := CountLeading(s, '#');
      Some(j + 1 + LineLen(s[j + 1..]))
  }

  /**
   * MatchLen finds exactly the matches of the pattern: `^` holds and the text
   * starts with `#+\s`; the match then runs over the '#' run, one whitespace
   * character, and the rest of that line up to its line break, which is kept.
   */
  lemma {:induction false} MatchLenSpec(s: string, bol: bool)
    ensures MatchLen(s, bol).Some? <==> bol && HeaderAt(s)
    ensures MatchLen(s, bol).Some? ==>
      var e := MatchLen(s, bol).value;
      var j := CountLeading(s, '#');
      && 0 < j < e <= |s|
      && IsSpace(s[j])
      && NoNewline(s[j + 1..e])
      && (e == |s| || s[e] == '\n')
  {
    HeaderAtRun(s);
    if MatchLen(s, bol).Some? {
      var j := CountLeading(s, '#');
      LineLenNoBreak(s[j + 1..]);
      assert s[j + 1..][..LineLen(s[j + 1..])] == s[j + 1..MatchLen(s, bol).value];
    }
  }

  /** `re.sub(r'^#+\s.*$', '', s, flags=re.MULTILINE)`, resumed where `^` holds iff bol. */
  function Sub(s: string, bol: bool): (r: string)
    ensures |r| <= |s|
    decreases |s|
  {
    if |s| == 0 then ""
    else match MatchLen(s, bol)
      case Some(n) => Sub(s[n..], s[n - 1] == '\n')
      case None => [s[0]] + Sub(s[1..], s[0] == '\n')
  }

  /** `_clean_description(text)`. */
  function CleanDescription(text: string): string {
    Strip(Sub(text, true))
  }

  // ---------------------------------------------------------------- the same, line by line

  /** A line the pattern blanks: one or more '#' and then a whitespace character. */
  predicate IsHeaderLine(l: string) {
    HashSpace(l)
  }

  /** A non-empty line made only of '#'. */
  predicate IsHashRun(l: string) {
    |l| > 0 && CountLeading(l, '#') == |l|
  }

  /**
   * The effect of the substitution on the lines of a text. A header line
   * becomes empty and keeps its line break. A line of '#' alone that has a
   * line after it makes `\s` match its line break, so `.*` then eats the whole
   * next line and the two lines become one empty line. Every other line is
   * kept as it is.
   */
  function StripLines(ls: seq<string>): (r: seq<string>)
    ensures |r| <= |ls|
    ensures |ls| > 0 ==> |r| > 0
  {
    if |ls| == 0 then []
    else if IsHeaderLine(ls[0]) then [""] + StripLines(ls[1..])
    else if IsHashRun(ls[0]) && |ls| >= 2 then [""] + StripLines(ls[2..])
    else [ls[0]] + StripLines(ls[1..])
  }

  /** One step of StripLines on a non-empty list of lines. */
  lemma {:induction false} StripLinesCons(l: string, ls: seq<string>)
    ensures StripLines([l] + ls) ==
      if IsHeaderLine(l) then [""] + StripLines(ls)
      else if IsHashRun(l) && |ls| >= 1 then [""] + StripLines(ls[1..])
      else [l] + StripLines(ls)
  {
    assert ([l] + ls)[0] == l;
    assert ([l] + ls)[1..] == ls;
    if |ls| >= 1 {
      assert ([l] + ls)[2..] == ls[1..];
    }
  }

  // ---------------------------------------------------------------- one step of the scan

  /** The match MatchLen reports when `^` holds and the text starts with `#+\s`. */
  lemma {:induction false} MatchLenSome(s: string, bol: bool)
    requires bol && HashSpace(s)
    ensures MatchLen(s, bol) == Some(CountLeading(s, '#') + 1 + LineLen(s[CountLeading(s, '#') + 1..]))
  {
  }

  /** No match where `^` fails or the text does not start with `#+\s`. */
  lemma {:induction false} MatchLenNone(s: string, bol: bool)
    requires !bol || !HashSpace(s)
    ensures MatchLen(s, bol) == None
  {
  }

  /** A match of length n is dropped. */
  lemma {:induction false} SubMatch(s: string, bol: bool, n: nat)
    requires |s| > 0 && MatchLen(s, bol) == Some(n)
    ensures Sub(s, bol) == Sub(s[n..], s[n - 1] == '\n')
  {
  }

  /** Without a match, one character is kept. */
  lemma {:induction false} SubCopy(s: string, bol: bool)
    requires |s| > 0 && MatchLen(s, bol) == None
    ensures Sub(s, bol) == [s[0]] + Sub(s[1..], s[0] == '\n')
  {
  }

  /** A line break is copied and opens a line. */
  lemma {:induction false} SubNewline(t: string, bol: bool)
    ensures Sub("\n" + t, bol) == "\n" + Sub(t, true)
  {
    var s := "\n" + t;
    assert s[0] == '\n';
    assert CountLeading(s, '#') == 0;
    MatchLenNone(s, bol);
    SubCopy(s, bol);
    assert s[1..] == t;
  }

  /** Away from the start of a line, a line without a break is copied. */
  lemma {:induction false} SubCopyLine(l: string, x: string)
    requires NoNewline(l)
    ensures Sub(l + x, false) == l + Sub(x, false)
  {
    if l != [] {
      var s := l + x;
      assert s[0] == l[0] && l[0] in l;
      MatchLenNone(s, false);
      SubCopy(s, false);
      assert s[1..] == l[1..] + x;
      SubCopyLine(l[1..], x);
      assert [l[0]] + l[1..] == l;
    } else {
      assert l + x == x;
    }
  }

  // ---------------------------------------------------------------- one line

  /** What is left of a + b after dropping a. */
  lemma {:induction false} DropAppend(a: string, b: string)
    ensures (a + b)[|a|..] == b
  {
  }

  /**
   * At the start of a line l that is followed by a line break, or by the end
   * of the text, `#+\s` matches exactly when l is a header line, or when l is
   * a run of '#' and the line break follows.
   */
  lemma {:induction false} HashSpaceLine(l: string, x: string)
    requires NoNewline(l)
    requires x == [] || x[0] == '\n'
    ensures CountLeading(l + x, '#') == CountLeading(l, '#')
    ensures HashSpace(l + x) <==> IsHeaderLine(l) || (IsHashRun(l) && x != [])
  {
    var s := l + x;
    var c := CountLeading(l, '#');
    CountLeadingAppend(l, x, '#');
    if c < |l| {
      assert s[c] == l[c];
    } else if x != [] {
      assert s[|l|] == x[0];
    } else {
      assert s == l;
    }
  }

  /** A header line followed by a line break or by the end of the text is matched whole. */
  lemma {:induction false} MatchHeader(l: string, x: string)
    requires NoNewline(l) && IsHeaderLine(l)
    requires x == [] || x[0] == '\n'
    ensures MatchLen(l + x, true) == Some(|l|)
  {
    var s := l + x;
    var j := CountLeading(l, '#');
    HashSpaceLine(l, x);
    MatchLenSome(s, true);
    assert s[j + 1..] == l[j + 1..] + x;
    LineLenAppend(l[j + 1..], x);
    if x != [] {
      assert LineLen(x) == 0;
    }
  }

  /** A header line that is not the last line leaves its line break. */
  lemma {:induction false} SubHeaderStep(l: string, t: string)
    requires NoNewline(l) && IsHeaderLine(l)
    ensures Sub(l + "\n" + t, true) == "\n" + Sub(t, true)
  {
    var s := l + ("\n" + t);
    assert s == l + "\n" + t;
    MatchHeader(l, "\n" + t);
    SubMatch(s, true, |l|);
    assert s[|l|..] == "\n" + t;
    SubNewline(t, s[|l| - 1] == '\n');
  }

  /** A header line that is the last line leaves nothing. */
  lemma {:induction false} SubHeaderLast(l: string)
    requires NoNewline(l) && IsHeaderLine(l)
    ensures Sub(l, true) == ""
  {
    assert l + [] == l;
    MatchHeader(l, []);
    SubMatch(l, true, |l|);
  }

  /**
   * A run of '#' followed by a line break: `\s` takes the line break and `.*`
   * takes the whole next line m, up to the line break or the end after it.
   */
  lemma {:induction false} MatchHashRun(l: string, m: string, y: string)
    requires NoNewline(l) && IsHashRun(l) && NoNewline(m)
    requires y == [] || y[0] == '\n'
    ensures MatchLen(l + ("\n" + (m + y)), true) == Some(|l| + 1 + |m|)
  {
    var x := "\n" + (m + y);
    var s := l + x;
    HashSpaceLine(l, x);
    MatchLenSome(s, true);
    assert s == (l + "\n") + (m + y);
    DropAppend(l + "\n", m + y);
    LineLenAppend(m, y);
    if y != [] {
      assert LineLen(y) == 0;
    }
  }

  /** The line after a run of '#' goes with it; the line break after that line is left. */
  lemma {:induction false} SubHashRunStep(l: string, m: string, t: string)
    requires NoNewline(l) && IsHashRun(l) && NoNewline(m)
    ensures Sub(l + "\n" + (m + "\n" + t), true) == "\n" + Sub(t, true)
  {
    var y := "\n" + t;
    var s := l + ("\n" + (m + y));
    assert s == l + "\n" + (m + "\n" + t);
    MatchHashRun(l, m, y);
    var e := |l| + 1 + |m|;
    SubMatch(s, true, e);
    assert s == (l + "\n" + m) + y;
    DropAppend(l + "\n" + m, y);
    SubNewline(t, s[e - 1] == '\n');
  }

  /** A run of '#' followed by the last line m: both go. */
  lemma {:induction false} SubHashRunLast(l: string, m: string)
    requires NoNewline(l) && IsHashRun(l) && NoNewline(m)
    ensures Sub(l + "\n" + m, true) == ""
  {
    var s := l + ("\n" + (m + []));
    assert s == l + "\n" + m;
    MatchHashRun(l, m, []);
    SubMatch(s, true, |s|);
  }

  /** Any other line is kept. */
  lemma {:induction false} SubKept(l: string, x: string)
    requires NoNewline(l) && !IsHeaderLine(l) && !(IsHashRun(l) && x != [])
    requires x == [] || x[0] == '\n'
    ensures Sub(l + x, true) == l + Sub(x, false)
  {
    if l == [] {
      assert l + x == x;
      if x != [] {
        SubBreakEither(x[1..]);
        assert x == "\n" + x[1..];
      }
    } else {
      SubKeptFirst(l, x);
    }
  }

  /** At a line break it does not matter whether `^` held before it. */
  lemma {:induction false} SubBreakEither(t: string)
    ensures Sub("\n" + t, true) == Sub("\n" + t, false)
  {
    SubNewline(t, true);
    SubNewline(t, false);
  }

  /** SubKept for a non-empty line: its first character cannot start a match. */
  lemma {:induction false} SubKeptFirst(l: string, x: string)
    requires |l| > 0 && NoNewline(l) && !IsHeaderLine(l) && !(IsHashRun(l) && x != [])
    requires x == [] || x[0] == '\n'
    ensures Sub(l + x, true) == l + Sub(x, false)
  {
    var s := l + x;
    HashSpaceLine(l, x);
    MatchLenNone(s, true);
    SubCopy(s, true);
    assert s[0] == l[0] && l[0] in l;
    assert s[1..] == l[1..] + x;
    SubCopyLine(l[1..], x);
    assert [l[0]] + l[1..] == l;
  }

  /** A kept line that is not the last line: it and its line break are copied. */
  lemma {:induction false} SubKeptLine(l: string, u: string)
    requires NoNewline(l) && !IsHeaderLine(l) && !IsHashRun(l)
    ensures Sub(l + "\n" + u, true) == l + "\n" + Sub(u, true)
  {
    var x := "\n" + u;
    assert l + "\n" + u == l + x;
    SubKept(l, x);
    SubNewline(u, false);
  }

  // ---------------------------------------------------------------- all lines

  /** SubUnlines for a single line. */
  lemma {:induction false} SubUnlinesOne(l: string)
    requires NoNewline(l)
    ensures Sub(Unlines([l]), true) == Unlines(StripLines([l]))
  {
    StripLinesCons(l, []);
    if IsHeaderLine(l) {
      SubHeaderLast(l);
    } else {
      assert l + [] == l;
      SubKept(l, []);
    }
  }

  /** SubUnlines when the first of several lines is a header line. */
  lemma {:induction false} SubUnlinesHeader(l: string, rest: seq<string>)
    requires NoNewline(l) && IsHeaderLine(l) && |rest| >= 1
    requires Sub(Unlines(rest), true) == Unlines(StripLines(rest))
    ensures Sub(Unlines([l] + rest), true) == Unlines(StripLines([l] + rest))
  {
    StripLinesCons(l, rest);
    UnlinesCons(l, rest);
    SubHeaderStep(l, Unlines(rest));
    UnlinesCons("", StripLines(rest));
  }

  /** SubUnlines when a run of '#' is followed by the last line. */
  lemma {:induction false} SubUnlinesHashRunLast(l: string, m: string)
    requires NoNewline(l) && IsHashRun(l) && !IsHeaderLine(l) && NoNewline(m)
    ensures Sub(Unlines([l] + [m]), true) == Unlines(StripLines([l] + [m]))
  {
    StripLinesCons(l, [m]);
    UnlinesCons(l, [m]);
    SubHashRunLast(l, m);
    assert [m][1..] == [];
  }

  /** SubUnlines when a run of '#' is followed by a line and more lines. */
  lemma {:induction false} SubUnlinesHashRun(l: string, m: string, more: seq<string>)
    requires NoNewline(l) && IsHashRun(l) && !IsHeaderLine(l) && NoNewline(m) && |more| >= 1
    requires Sub(Unlines(more), true) == Unlines(StripLines(more))
    ensures Sub(Unlines([l] + ([m] + more)), true) == Unlines(StripLines([l] + ([m] + more)))
  {
    StripLinesCons(l, [m] + more);
    assert ([m] + more)[1..] == more;
    UnlinesCons(l, [m] + more);
    UnlinesCons(m, more);
    SubHashRunStep(l, m, Unlines(more));
    UnlinesCons("", StripLines(more));
  }

  /** SubUnlines when the first of several lines is kept. */
  lemma {:induction false} SubUnlinesKept(l: string, rest: seq<string>)
    requires NoNewline(l) && !IsHeaderLine(l) && !IsHashRun(l) && |rest| >= 1
    requires Sub(Unlines(rest), true) == Unlines(StripLines(rest))
    ensures Sub(Unlines([l] + rest), true) == Unlines(StripLines([l] + rest))
  {
    StripLinesCons(l, rest);
    UnlinesCons(l, rest);
    SubKeptLine(l, Unlines(rest));
    UnlinesCons(l, StripLines(rest));
  }

  /** The substitution on joined lines is StripLines on those lines, joined. */
  lemma {:induction false} SubUnlines(ls: seq<string>)
    requires |ls| >= 1
    requires forall k :: 0 <= k < |ls| ==> NoNewline(ls[k])
    ensures Sub(Unlines(ls), true) == Unlines(StripLines(ls))
  {
    var l := ls[0];
    var rest := ls[1..];
    assert ls == [l] + rest;
    if |ls| == 1 {
      SubUnlinesOne(l);
    } else if IsHeaderLine(l) {
      SubUnlines(rest);
      SubUnlinesHeader(l, rest);
    } else if IsHashRun(l) {
      var m := rest[0];
      var more := rest[1..];
      assert rest == [m] + more;
      if |rest| == 1 {
        SubUnlinesHashRunLast(l, m);
      } else {
        SubUnlines(more);
        SubUnlinesHashRun(l, m, more);
      }
    } else {
      SubUnlines(rest);
      SubUnlinesKept(l, rest);
    }
  }

  /**
   * The substitution, line by line: it is exactly StripLines applied to the
   * lines of the text, joined again.
   */
  lemma {:induction false} SubByLines(s: string)
    ensures Sub(s, true) == Unlines(StripLines(Lines(s)))
  {
    UnlinesLines(s);
    LinesNoBreak(s);
    SubUnlines(Lines(s));
  }

  // ---------------------------------------------------------------- what the cleaner leaves

  /**
   * Lines as the substitution leaves them: none holds a line break, none is
   * a header line, and a run of '#' can only be the last line.
   */
  predicate CleanLines(ls: seq<string>) {
    forall k :: 0 <= k < |ls| ==>
      NoNewline(ls[k]) && !IsHeaderLine(ls[k]) && (IsHashRun(ls[k]) ==> k == |ls| - 1)
  }

  /** StripLines leaves clean lines. */
  lemma {:induction false} StripLinesClean(ls: seq<string>)
    requires forall k :: 0 <= k < |ls| ==> NoNewline(ls[k])
    ensures CleanLines(StripLines(ls))
  {
    if |ls| > 0 {
      var l := ls[0];
      assert ls == [l] + ls[1..];
      StripLinesCons(l, ls[1..]);
      assert !IsHeaderLine("") && !IsHashRun("");
      if IsHeaderLine(l) || (IsHashRun(l) && |ls| >= 2) {
        var rest := if IsHeaderLine(l) then ls[1..] else ls[2..];
        StripLinesClean(rest);
        CleanLinesCons("", StripLines(rest));
      } else {
        StripLinesClean(ls[1..]);
        CleanLinesCons(l, StripLines(ls[1..]));
      }
    }
  }

  /** Clean lines with one more clean line in front. */
  lemma {:induction false} CleanLinesCons(l: string, ls: seq<string>)
    requires CleanLines(ls)
    requires NoNewline(l) && !IsHeaderLine(l) && (IsHashRun(l) ==> |ls| == 0)
    ensures CleanLines([l] + ls)
  {
    var r := [l] + ls;
    forall k | 0 < k < |r| ensures r[k] == ls[k - 1] {}
  }

  /** StripLines changes nothing on clean lines. */
  lemma {:induction false} StripLinesFixed(ls: seq<string>)
    requires CleanLines(ls)
    ensures StripLines(ls) == ls
  {
    if |ls| > 0 {
      var l := ls[0];
      assert ls == [l] + ls[1..];
      StripLinesCons(l, ls[1..]);
      assert CleanLines(ls[1..]) by {
        forall k | 0 <= k < |ls[1..]| ensures ls[1..][k] == ls[k + 1] {}
      }
      StripLinesFixed(ls[1..]);
    }
  }

  /** The substitution alone is idempotent: a second pass finds nothing to remove. */
  lemma {:induction false} SubIdempotent(s: string)
    ensures Sub(Sub(s, true), true) == Sub(s, true)
  {
    var ls := StripLines(Lines(s));
    SubByLines(s);
    LinesNoBreak(s);
    StripLinesClean(Lines(s));
    LinesUnlines(ls);
    SubByLines(Unlines(ls));
    StripLinesFixed(ls);
  }

  /** Position p of s starts a line. */
  predicate LineStart(s: string, p: nat) {
    p == 0 || (0 < p <= |s| && s[p - 1] == '\n')
  }

  /** No line of joined clean lines starts with `#+\s`. */
  lemma {:induction false} UnlinesNoHeader(ls: seq<string>)
    requires |ls| >= 1 && CleanLines(ls)
    ensures forall p: nat :: LineStart(Unlines(ls), p) ==> !HashSpace(Unlines(ls)[p..])
  {
    var u := Unlines(ls);
    var l := ls[0];
    if |ls| == 1 {
      assert u == l;
      assert forall p: nat :: LineStart(u, p) ==> p == 0;
    } else {
      var rest := ls[1..];
      assert ls == [l] + rest;
      UnlinesCons(l, rest);
      var v := Unlines(rest);
      assert CleanLines(rest) by {
        forall k | 0 <= k < |rest| ensures rest[k] == ls[k + 1] {}
      }
      UnlinesNoHeader(rest);
      forall p: nat | LineStart(u, p) ensures !HashSpace(u[p..]) {
        if p == 0 {
          assert u == l + ("\n" + v);
          HashSpaceLine(l, "\n" + v);
        } else {
          assert p - 1 >= |l|;
          var q := p - |l| - 1;
          assert u[p..] == v[q..];
          assert LineStart(v, q) by {
            if q > 0 {
              assert v[q - 1] == u[p - 1];
            }
          }
        }
      }
    }
  }

  /** No line of what the substitution leaves starts with `#+\s`. */
  lemma {:induction false} SubNoHeader(s: string)
    ensures forall p: nat :: LineStart(Sub(s, true), p) ==> !HashSpace(Sub(s, true)[p..])
  {
    SubByLines(s);
    LinesNoBreak(s);
    StripLinesClean(Lines(s));
    UnlinesNoHeader(StripLines(Lines(s)));
  }

  /** A line start inside the kept slice r of u is a line start of u. */
  lemma {:induction false} NoHeaderInSlice(u: string, r: string, a: nat, p: nat)
    requires a + |r| <= |u| && r == u[a..a + |r|]
    requires 0 < p < |r| && r[p - 1] == '\n'
    requires !HashSpace(u[a + p..])
    ensures !HeaderAt(r[p..])
  {
    HeaderAtRun(u[a + p..]);
    if HeaderAt(r[p..]) {
      assert r[p..] == u[a + p..][..|r| - p];
      HeaderAtPrefix(r[p..], u[a + p..]);
    }
  }

  /**
   * The cleaned description neither starts nor ends with whitespace, and no
   * line after its first starts with `#+\s`.
   */
  lemma {:induction false} CleanShape(text: string)
    ensures var r := CleanDescription(text);
      |r| == 0 || (!IsSpace(r[0]) && !IsSpace(r[|r| - 1]))
    ensures var r := CleanDescription(text);
      forall p :: 0 < p < |r| && r[p - 1] == '\n' ==> !HeaderAt(r[p..])
  {
    var u := Sub(text, true);
    var r := CleanDescription(text);
    var a := StripSlice(u);
    SubNoHeader(text);
    forall p | 0 < p < |r| && r[p - 1] == '\n' ensures !HeaderAt(r[p..]) {
      assert u[a + p - 1] == r[p - 1];
      assert LineStart(u, a + p);
      NoHeaderInSlice(u, r, a, p);
    }
  }

  // ---------------------------------------------------------------- examples

  /** strip() drops leading whitespace w in front of a text that starts with none. */
  lemma {:induction false} StripAfterSpace(w: string, x: string)
    requires forall k :: 0 <= k < |w| ==> IsSpace(w[k])
    requires |x| > 0 && !IsSpace(x[0]) && !IsSpace(x[|x| - 1])
    ensures Strip(w + x) == x
  {
    if w != [] {
      assert (w + x)[0] == w[0];
      assert (w + x)[1..] == w[1..] + x;
      StripAfterSpace(w[1..], x);
    } else {
      assert w + x == x;
    }
  }

  /** The last line, when it is neither a header line nor a run of '#' after a line break, is kept as is. */
  lemma {:induction false} SubLastKept(b: string)
    requires NoNewline(b) && !IsHeaderLine(b)
    ensures Sub(b, true) == b
  {
    assert b + [] == b;
    SubKept(b, []);
  }

  /** A header line followed by a plain line: only the plain line is left. */
  lemma {:induction false} CleanAfterHeader(h: string, b: string)
    requires NoNewline(h) && IsHeaderLine(h)
    requires NoNewline(b) && !IsHeaderLine(b)
    requires |b| > 0 && !IsSpace(b[0]) && !IsSpace(b[|b| - 1])
    ensures CleanDescription(h + "\n" + b) == b
  {
    SubHeaderStep(h, b);
    SubLastKept(b);
    StripAfterSpace("\n", b);
  }

  /** Two lines, the first neither a header line nor a run of '#': the substitution keeps both. */
  lemma {:induction false} SubTwoKept(l: string, b: string)
    requires NoNewline(l) && !IsHeaderLine(l) && !IsHashRun(l)
    requires NoNewline(b) && !IsHeaderLine(b)
    ensures Sub(l + "\n" + b, true) == l + "\n" + b
  {
    SubKept(l, "\n" + b);
    SubNewline(b, false);
    SubLastKept(b);
    assert l + "\n" + b == l + ("\n" + b);
  }

  /** Two kept lines, the first indented by whitespace w: strip() removes w. */
  lemma {:induction false} CleanIndented(w: string, h: string, b: string)
    requires |w| > 0 && NoNewline(w) && forall k :: 0 <= k < |w| ==> IsSpace(w[k])
    requires |h| > 0 && NoNewline(h) && !IsSpace(h[0])
    requires NoNewline(b) && !IsHeaderLine(b)
    requires |b| > 0 && !IsSpace(b[|b| - 1])
    ensures CleanDescription(w + h + "\n" + b) == h + "\n" + b
  {
    var l := w + h;
    NoNewlineAppend(w, h);
    assert l[0] == w[0];
    assert CountLeading(l, '#') == 0;
    SubTwoKept(l, b);
    assert w + h + "\n" + b == w + (h + "\n" + b);
    StripAfterSpace(w, h + "\n" + b);
  }

  /** A run of '#', a line m it swallows, then a plain line: only the plain line is left. */
  lemma {:induction false} CleanAfterHashRun(r: string, m: string, b: string)
    requires NoNewline(r) && IsHashRun(r) && NoNewline(m)
    requires NoNewline(b) && !IsHeaderLine(b)
    requires |b| > 0 && !IsSpace(b[0]) && !IsSpace(b[|b| - 1])
    ensures CleanDescription(r + "\n" + (m + "\n" + b)) == b
  {
    SubHashRunStep(r, m, b);
    SubLastKept(b);
    StripAfterSpace("\n", b);
  }

  /** `clean("# Welcome\nBody text") == "Body text"`. */
  lemma {:induction false} CleanWelcome(text: string)
    requires text == "# Welcome\nBody text"
    ensures CleanDescription(text) == "Body text"
  {
    var h, b := "# Welcome", "Body text";
    assert text == h + "\n" + b;
    assert NoNewline(h) && NoNewline(b);
    CountLeadingUnique(h, '#', 1);
    assert CountLeading(b, '#') == 0;
    CleanAfterHeader(h, b);
  }

  /**
   * The cleaner is not idempotent: a header indented by spaces survives the
   * substitution, and strip() then moves it to the start of the text, where a
   * second cleaning removes it.
   */
  lemma {:induction false} CleanNotIdempotent(text: string, once: string)
    requires text == "  # T\nBody" && once == "# T\nBody"
    ensures CleanDescription(text) == once
    ensures CleanDescription(once) == "Body"
  {
    var w, h, b := "  ", "# T", "Body";
    assert text == w + h + "\n" + b;
    assert once == h + "\n" + b;
    assert NoNewline(w) && NoNewline(h) && NoNewline(b);
    CountLeadingUnique(h, '#', 1);
    assert CountLeading(b, '#') == 0;
    CleanIndented(w, h, b);
    CleanAfterHeader(h, b);
  }

  /** A line made only of '#' takes the next line with it: `"#\nLost\nKept"` cleans to "Kept". */
  lemma {:induction false} CleanSwallowsLine(text: string)
    requires text == "#\nLost\nKept"
    ensures CleanDescription(text) == "Kept"
  {
    var r, m, b := "#", "Lost", "Kept";
    assert text == r + "\n" + (m + "\n" + b);
    assert NoNewline(r) && NoNewline(m) && NoNewline(b);
    assert CountLeading(r, '#') == 1;
    assert CountLeading(b, '#') == 0;
    CleanAfterHashRun(r, m, b);
  }
}
