/** The last lines of a text file, read from a window at its end (files.py, tail_lines). */
module LogTail {

  const NL: char := '\n'
  const CR: char := '\r'

  /** The characters at which splitlines breaks. */
  predicate IsBreak(c: char) {
    c == NL || c == CR || 11 <= c as int <= 12 || 28 <= c as int <= 30 || c as int in {0x85, 0x2028, 0x2029}
  }

  /** Line feed, the two tabs after it, carriage return, the three file separators and the three Unicode
      line ends. */
  lemma BreaksAre(c: char)
    ensures IsBreak(c) <==> c as int in {10, 11, 12, 13, 28, 29, 30, 0x85, 0x2028, 0x2029}
  {
  }

  /** A carriage return and the newline after it are one break. */
  predicate IsPair(t: string) {
    |t| > 1 && t[0] == CR && t[1] == NL
  }

  function SplitLines(t: string): (lines: seq<string>)
    ensures t == "" <==> lines == []
    decreases |t|
  {
    if t == "" then []
    else if IsPair(t) then [""] + SplitLines(t[2..])
    else if IsBreak(t[0]) then [""] + SplitLines(t[1..])
    else if |t| == 1 then [t]
    else [[t[0]] + SplitLines(t[1..])[0]] + SplitLines(t[1..])[1..]
  }

  /** A text that ends at a break that b does not extend. */
  predicate EndsLine(a: string, b: string) {
    a == "" || (IsBreak(a[|a| - 1]) && !(a[|a| - 1] == CR && b != "" && b[0] == NL))
  }

  /** Cutting after a whole line cuts the lines there. */
  lemma {:induction false} CutAfterLine(a: string, b: string)
    requires EndsLine(a, b)
    ensures SplitLines(a + b) == SplitLines(a) + SplitLines(b)
    decreases |a|
  {
    hide SplitLines;
    var t := a + b;
    if a == "" {
      assert t == b;
      EmptyWindow();
      assert [] + SplitLines(b) == SplitLines(b);
    } else {
      SplitLinesStep(t);
      SplitLinesStep(a);
      if IsPair(a) {
        assert IsPair(t) && t[2..] == a[2..] + b;
        CutAfterLine(a[2..], b);
        assert [""] + (SplitLines(a[2..]) + SplitLines(b)) == [""] + SplitLines(a[2..]) + SplitLines(b);
      } else if IsBreak(a[0]) {
        assert !IsPair(t) && t[1..] == a[1..] + b;
        CutAfterLine(a[1..], b);
        assert [""] + (SplitLines(a[1..]) + SplitLines(b)) == [""] + SplitLines(a[1..]) + SplitLines(b);
      } else {
        assert t[1..] == a[1..] + b && a[1..] != "";
        CutAfterLine(a[1..], b);
        PrependAppend(a[0], SplitLines(a[1..]), SplitLines(b));
      }
    }
  }

  /** The last line of s and the first of h become one. */
  function Merge(s: seq<string>, h: seq<string>): seq<string>
    requires s != [] && h != []
  {
    s[..|s| - 1] + [s[|s| - 1] + h[0]] + h[1..]
  }

  function Prepend(c: char, s: seq<string>): seq<string>
    requires s != []
  {
    [[c] + s[0]] + s[1..]
  }

  lemma MergePrepend(c: char, s: seq<string>, h: seq<string>)
    requires s != [] && h != []
    ensures Prepend(c, Merge(s, h)) == Merge(Prepend(c, s), h)
    ensures [""] + Merge(s, h) == Merge([""] + s, h)
  {
    if |s| == 1 {
      assert [c] + (s[0] + h[0]) == [c] + s[0] + h[0];
    }
  }

  lemma PrependAppend(c: char, s: seq<string>, h: seq<string>)
    requires s != []
    ensures Prepend(c, s + h) == Prepend(c, s) + h
  {
  }

  lemma SplitLinesStep(t: string)
    requires t != ""
    ensures IsPair(t) ==> SplitLines(t) == [""] + SplitLines(t[2..])
    ensures !IsPair(t) && IsBreak(t[0]) ==> SplitLines(t) == [""] + SplitLines(t[1..])
    ensures !IsBreak(t[0]) && |t| > 1 ==> SplitLines(t) == Prepend(t[0], SplitLines(t[1..]))
    ensures !IsBreak(t[0]) && |t| == 1 ==> SplitLines(t) == [t]
  {
  }

  /** Cutting inside a line: its two halves become the last line before and the first line after. */
  lemma {:induction false} CutInsideLine(a: string, b: string)
    requires a != "" && b != "" && !IsBreak(a[|a| - 1])
    ensures SplitLines(a + b) == Merge(SplitLines(a), SplitLines(b))
    ensures SplitLines(a)[|SplitLines(a)| - 1] != ""
    decreases |a|
  {
    hide SplitLines; hide Merge;
    var t := a + b;
    SplitLinesStep(t);
    SplitLinesStep(a);
    if IsPair(a) {
      assert IsPair(t) && t[2..] == a[2..] + b && |a| > 2;
      CutInsideLine(a[2..], b);
      MergePrepend(a[0], SplitLines(a[2..]), SplitLines(b));
    } else if |a| == 1 {
      assert t[1..] == b;
      assert Merge([a], SplitLines(b)) == Prepend(a[0], SplitLines(b)) by { MergeOne(a, SplitLines(b)); }
    } else {
      assert t[1..] == a[1..] + b && t[0] == a[0] && t[1] == a[1];
      CutInsideLine(a[1..], b);
      MergePrepend(a[0], SplitLines(a[1..]), SplitLines(b));
    }
  }

  lemma MergeOne(a: string, h: seq<string>)
    requires |a| == 1 && h != []
    ensures Merge([a], h) == Prepend(a[0], h)
  {
    assert a == [a[0]];
  }

  /** out[-lines:], which for zero is everything. */
  function LastOf(out: seq<string>, lines: nat): seq<string> {
    if lines == 0 || lines >= |out| then out else out[|out| - lines..]
  }

  function AfterNewline(t: string): string {
    if t == "" then "" else if t[0] == NL then t[1..] else AfterNewline(t[1..])
  }

  /** split at the first newline, last piece: the whole text when there is none. */
  function DropPartial(t: string): string {
    if NL in t then AfterNewline(t) else t
  }

  function WindowStart(t: string, maxChars: nat): (start: nat)
    ensures start <= |t|
  {
    if |t| > maxChars then |t| - maxChars else 0
  }

  function TailLines(t: string, lines: nat, maxChars: nat): seq<string> {
    var start := WindowStart(t, maxChars);
    LastOf(SplitLines(if start > 0 then DropPartial(t[start..]) else t[start..]), lines)
  }

  predicate IsSuffixOf(some: seq<string>, all: seq<string>) {
    |some| <= |all| && all[|all| - |some|..] == some
  }

  lemma {:induction false} AfterNewlineCuts(t: string)
    requires NL in t
    ensures exists k :: 0 <= k < |t| && t[k] == NL && AfterNewline(t) == t[k + 1..]
  {
    if t[0] != NL {
      AfterNewlineCuts(t[1..]);
      var k :| 0 <= k < |t| - 1 && t[1..][k] == NL && AfterNewline(t[1..]) == t[1..][k + 1..];
      assert t[k + 1] == NL && AfterNewline(t) == t[k + 2..];
    } else {
      assert AfterNewline(t) == t[0 + 1..];
    }
  }

  /** What decides whether the window begins with a piece of a line that is returned as a line. */
  predicate KeepsPartial(t: string, lines: nat, maxChars: nat) {
    var start := WindowStart(t, maxChars);
    && start > 0
    && start < |t|
    && !IsBreak(t[start - 1])
    && NL !in t[start..]
    && (lines == 0 || |SplitLines(t[start..])| <= lines)
  }

  /**
   * The result is the end of the file's own lines exactly unless the window
   * holds no newline, begins inside a line, and that line is among those
   * returned: then the first line returned is only a piece of one.
   */
  lemma TailExactly(t: string, lines: nat, maxChars: nat)
    ensures IsSuffixOf(TailLines(t, lines, maxChars), SplitLines(t)) <==> !KeepsPartial(t, lines, maxChars)
  {
    hide SplitLines; hide AfterNewline; hide LastOf; hide IsSuffixOf; hide IsBreak;
    var start := WindowStart(t, maxChars);
    var a, b := t[..start], t[start..];
    assert t == a + b;
    if start == 0 {
      assert b == t;
      WholeIsSuffix([], SplitLines(t));
      assert [] + SplitLines(t) == SplitLines(t);
      LastIsSuffix(SplitLines(t), SplitLines(t), lines);
    } else if NL in b {
      WholeLinesAfterNewline(a, b);
      LastIsSuffix(SplitLines(AfterNewline(b)), SplitLines(t), lines);
    } else if b != "" {
      assert a[|a| - 1] == t[start - 1];
      if IsBreak(t[start - 1]) {
        assert b[0] in b;
        CutAfterLine(a, b);
        WholeIsSuffix(SplitLines(a), SplitLines(b));
        LastIsSuffix(SplitLines(b), SplitLines(t), lines);
      } else {
        PartialFirst(a, b, lines);
      }
    } else {
      EmptyWindow();
      WholeIsSuffix(SplitLines(t), []);
      assert SplitLines(t) + [] == SplitLines(t);
      LastIsSuffix([], SplitLines(t), lines);
    }
  }

  function Least(a: nat, b: nat): nat {
    if a < b then a else b
  }

  /** How many lines come back: as many as were asked for, or all if none were counted, as far as they
      go; of a file larger than the window, those after the first newline in it. */
  lemma TailLength(t: string, lines: nat, maxChars: nat)
    ensures |t| <= maxChars ==>
              |TailLines(t, lines, maxChars)| == Asked(lines, |SplitLines(t)|)
              && IsSuffixOf(TailLines(t, lines, maxChars), SplitLines(t))
    ensures |t| > maxChars ==>
              forall k :: |t| - maxChars <= k < |t| && t[k] == NL && NL !in t[|t| - maxChars..k] ==>
                |TailLines(t, lines, maxChars)| == Asked(lines, |SplitLines(t[k + 1..])|)
    ensures |t| > maxChars && NL !in t[|t| - maxChars..] ==>
              |TailLines(t, lines, maxChars)| == Asked(lines, |SplitLines(t[|t| - maxChars..])|)
  {
    hide SplitLines; hide AfterNewline;
    TailExactly(t, lines, maxChars);
    if |t| > maxChars {
      var b := t[|t| - maxChars..];
      forall k | |t| - maxChars <= k < |t| && t[k] == NL && NL !in t[|t| - maxChars..k]
        ensures |TailLines(t, lines, maxChars)| == Asked(lines, |SplitLines(t[k + 1..])|)
      {
        var n := k - (|t| - maxChars);
        assert b[..n] == t[|t| - maxChars..k] && b[n] == NL && b[n + 1..] == t[k + 1..];
        FirstNewline(b, n);
      }
    } else {
      assert t[0..] == t;
    }
  }

  function Asked(lines: nat, available: nat): nat {
    if lines == 0 then available else Least(lines, available)
  }

  lemma {:induction false} FirstNewline(t: string, n: nat)
    requires n < |t| && t[n] == NL && NL !in t[..n]
    ensures AfterNewline(t) == t[n + 1..]
  {
    if n > 0 {
      assert t[..n][0] == t[0] && t[1..][..n - 1] == t[..n][1..];
      FirstNewline(t[1..], n - 1);
      assert t[1..][n..] == t[n + 1..];
    }
  }

  lemma LastIsSuffix(out: seq<string>, all: seq<string>, lines: nat)
    requires IsSuffixOf(out, all)
    ensures IsSuffixOf(LastOf(out, lines), all)
  {
    var last := LastOf(out, lines);
    assert all[|all| - |last|..] == all[|all| - |out|..][|out| - |last|..];
  }

  lemma WholeIsSuffix(before: seq<string>, out: seq<string>)
    ensures IsSuffixOf(out, before + out)
  {
  }

  lemma EmptyWindow()
    ensures SplitLines("") == []
  {
  }

  lemma WholeLinesAfterNewline(a: string, b: string)
    requires NL in b
    ensures IsSuffixOf(SplitLines(AfterNewline(b)), SplitLines(a + b))
  {
    hide SplitLines;
    AfterNewlineCuts(b);
    var k :| 0 <= k < |b| && b[k] == NL && AfterNewline(b) == b[k + 1..];
    var before := a + b[..k + 1];
    assert a + b == before + b[k + 1..] && before[|before| - 1] == NL;
    CutAfterLine(before, b[k + 1..]);
  }

  lemma PartialFirst(a: string, b: string, lines: nat)
    requires a != "" && b != "" && !IsBreak(a[|a| - 1])
    ensures var out := LastOf(SplitLines(b), lines);
            IsSuffixOf(out, SplitLines(a + b)) <==> lines != 0 && |SplitLines(b)| > lines
  {
    hide SplitLines;
    CutInsideLine(a, b);
    var s, h, all := SplitLines(a), SplitLines(b), SplitLines(a + b);
    var out := LastOf(h, lines);
    assert |all| == |s| + |h| - 1;
    assert all[|all| - |h|] == s[|s| - 1] + h[0] != h[0] by {
      assert |s[|s| - 1] + h[0]| > |h[0]|;
    }
    if out == h {
      assert all[|all| - |h|..][0] != h[0];
    } else {
      assert out == h[|h| - lines..];
      assert all[|all| - lines..] == h[|h| - lines..];
    }
  }

  /** For instance, a window that falls inside one long line returns a piece of it. */
  lemma PieceOfALongLine()
    ensures TailLines("abcdef", 10, 3) == ["def"] && !IsSuffixOf(["def"], SplitLines("abcdef"))
  {
    hide SplitLines;
    var t, w := "abcdef", "def";
    assert t[3..] == w && t[2] == 'c';
    OneLine(w);
    assert TailLines(t, 10, 3) == [w];
    TailExactly(t, 10, 3);
  }

  lemma {:induction false} OneLine(t: string)
    requires t != "" && forall i :: 0 <= i < |t| ==> !IsBreak(t[i])
    ensures SplitLines(t) == [t]
  {
    if |t| > 1 {
      OneLine(t[1..]);
      assert [t[0]] + t[1..] == t;
    }
  }
}
