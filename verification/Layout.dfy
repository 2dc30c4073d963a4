/** Where the lines of a text end up (`normalize_text`): which characters stay, and how the lines that are
not blank are laid out.
 */
module Layout {
  import opened Text

  // ---------------------------------------------------------------------------
  // White space and line breaks
  // ---------------------------------------------------------------------------

  /** The 29 white-space characters of Python, ten of which end a line. */
  lemma SpaceChars(c: char)
    ensures IsSpace(c) <==>
            c in "\t\n\U{0B}\U{0C}\r\U{1C}\U{1D}\U{1E}\U{1F} \U{85}\U{A0}\U{1680}"
                 + "\U{2000}\U{2001}\U{2002}\U{2003}\U{2004}\U{2005}\U{2006}\U{2007}\U{2008}\U{2009}\U{200A}"
                 + "\U{2028}\U{2029}\U{202F}\U{205F}\U{3000}"
    ensures IsLineBreak(c) <==> c in "\n\U{0B}\U{0C}\r\U{1C}\U{1D}\U{1E}\U{85}\U{2028}\U{2029}"
  {
  }

  // ---------------------------------------------------------------------------
  // The filter
  // ---------------------------------------------------------------------------

  /** Every character is kept or dropped by itself: newlines and tabs stay, other control characters and those of
      the other C categories go, everything else stays. */
  lemma FilterChars(a: string, c: char, b: string, other: char -> bool)
    ensures Filter([], other) == []
    ensures Filter(a + [c] + b, other) ==
            Filter(a, other)
            + (if c == '\n' || c == '\t' then [c]
               else if c < ' ' || '\U{7F}' <= c <= '\U{9F}' || other(c) then []
               else [c])
            + Filter(b, other)
  {
    hide Filter;
    FilterOne(c, other);
    FilterAppend(a + [c], b, other);
    FilterAppend(a, [c], other);
  }

  lemma FilterOne(c: char, other: char -> bool)
    ensures Filter([], other) == [] && Filter([c], other) == if Survives(c, other) then [c] else []
  {
    assert [c][1..] == [];
  }

  lemma {:induction false} FilterAppend(a: string, b: string, other: char -> bool)
    ensures Filter(a + b, other) == Filter(a, other) + Filter(b, other)
  {
    hide Survives;
    if a == [] {
      FilterOne(' ', other);
      assert a + b == b && [] + Filter(b, other) == Filter(b, other);
    } else {
      var x := if Survives(a[0], other) then [a[0]] else [];
      assert (a + b)[0] == a[0] && (a + b)[1..] == a[1..] + b;
      FilterAppend(a[1..], b, other);
      assert (x + Filter(a[1..], other)) + Filter(b, other) == x + (Filter(a[1..], other) + Filter(b, other));
    }
  }

  // ---------------------------------------------------------------------------
  // Lines and their layout
  // ---------------------------------------------------------------------------

  predicate IsLine(line: string) {
    forall i :: 0 <= i < |line| ==> !IsLineBreak(line[i])
  }

  /** The text that consists of these lines, with these breaks between them. */
  function Glue(lines: seq<string>, breaks: string): string
    requires |lines| == |breaks| + 1
  {
    if breaks == [] then lines[0] else lines[0] + [breaks[0]] + Glue(lines[1..], breaks[1..])
  }

  /** The layout after a visible line: each further one on a line of its own, with one blank line before it if there
      were any. */
  function After(lines: seq<string>, gap: bool): string {
    if lines == [] then []
    else
      var line := RStrip(lines[0]);
      if line == [] then After(lines[1..], true)
      else (if gap then "\n\n" else "\n") + line + After(lines[1..], false)
  }

  /** The visible lines, without white space at their ends and before the first. */
  function Laid(lines: seq<string>): string {
    if lines == [] then []
    else
      var line := RStrip(lines[0]);
      if line == [] then Laid(lines[1..]) else LStrip(line) + After(lines[1..], false)
  }

  // ---------------------------------------------------------------------------
  // Splitting a glued text
  // ---------------------------------------------------------------------------

  /** `splitlines` reports no empty last line. */
  function Trim(lines: seq<string>): seq<string>
    requires lines != []
  {
    if lines[|lines| - 1] == [] then lines[..|lines| - 1] else lines
  }

  lemma {:induction false} LineLengthAt(line: string, rest: string)
    requires IsLine(line) && (rest == [] || IsLineBreak(rest[0]))
    ensures LineLength(line + rest) == |line|
  {
    hide IsLineBreak;
    if line == [] {
      assert line + rest == rest;
    } else {
      assert (line + rest)[1..] == line[1..] + rest;
      LineLengthAt(line[1..], rest);
    }
  }

  lemma {:induction false} SplitGlued(lines: seq<string>, breaks: string)
    requires |lines| == |breaks| + 1 && (forall i :: 0 <= i < |lines| ==> IsLine(lines[i]))
    requires forall i :: 0 <= i < |breaks| ==> IsLineBreak(breaks[i])
    ensures SplitLines(Glue(lines, breaks)) == Trim(lines)
  {
    hide IsLineBreak, LineLength, IsLine;
    if breaks == [] {
      LineLengthAt(lines[0], []);
      assert lines[0] + [] == lines[0] && lines == [lines[0]];
    } else {
      var rest := [breaks[0]] + Glue(lines[1..], breaks[1..]);
      assert Glue(lines, breaks) == lines[0] + rest;
      LineLengthAt(lines[0], rest);
      SplitGlued(lines[1..], breaks[1..]);
      assert (lines[0] + rest)[..|lines[0]|] == lines[0];
      assert (lines[0] + rest)[|lines[0]| + 1..] == Glue(lines[1..], breaks[1..]);
      assert lines == [lines[0]] + lines[1..];
    }
  }

  lemma {:induction false} AfterBlank(lines: seq<string>, gap: bool)
    ensures After(lines + [""], gap) == After(lines, gap)
  {
    hide RStrip;
    if lines == [] {
      assert RStrip([]) == [];
      assert [""][1..] == [];
    } else {
      assert (lines + [""])[1..] == lines[1..] + [""];
      AfterBlank(lines[1..], true);
      AfterBlank(lines[1..], false);
    }
  }

  lemma {:induction false} LaidBlank(lines: seq<string>)
    ensures Laid(lines + [""]) == Laid(lines)
  {
    hide RStrip, LStrip;
    if lines == [] {
      assert RStrip([]) == [];
      assert [""][1..] == [];
    } else {
      assert (lines + [""])[1..] == lines[1..] + [""];
      AfterBlank(lines[1..], false);
      LaidBlank(lines[1..]);
    }
  }

  lemma LaidTrim(lines: seq<string>)
    requires lines != []
    ensures Laid(Trim(lines)) == Laid(lines)
  {
    hide Laid;
    if lines[|lines| - 1] == [] {
      LaidBlank(lines[..|lines| - 1]);
      assert lines == lines[..|lines| - 1] + [""];
    }
  }

  // ---------------------------------------------------------------------------
  // Collapsing joined lines
  // ---------------------------------------------------------------------------

  function Newlines(n: nat): (s: string)
    ensures |s| == n && forall i :: 0 <= i < n ==> s[i] == '\n'
  {
    seq(n, _ => '\n')
  }

  lemma NewlinesAreSpace(n: nat)
    ensures AllSpace(Newlines(n))
  {
  }

  lemma {:induction false} CollapsePlain(a: string, u: string)
    requires '\n' !in a
    ensures Collapse(a + u) == a + Collapse(u)
  {
    if a == [] {
      assert a + u == u;
    } else {
      assert a[0] in a && (a + u)[1..] == a[1..] + u;
      CollapsePlain(a[1..], u);
    }
  }

  lemma {:induction false} RunOfNewlines(n: nat, u: string)
    requires u == [] || u[0] != '\n'
    ensures NewlineRun(Newlines(n) + u) == n
  {
    if n == 0 {
      assert Newlines(n) + u == u;
    } else {
      assert (Newlines(n) + u)[1..] == Newlines(n - 1) + u;
      RunOfNewlines(n - 1, u);
    }
  }

  lemma CollapseNewlines(n: nat, u: string)
    requires u == [] || u[0] != '\n'
    ensures Collapse(Newlines(n) + u) == Newlines(if n < 2 then n else 2) + Collapse(u)
  {
    var s := Newlines(n) + u;
    RunOfNewlines(n, u);
    if n == 0 {
      assert s == u && Newlines(0) + Collapse(u) == Collapse(u);
    } else if n == 1 {
      assert s[1..] == u && Newlines(1) == "\n";
    } else if n == 2 {
      RunOfNewlines(1, u);
      assert s[1..] == Newlines(1) + u && (Newlines(1) + u)[1..] == u;
      assert Newlines(2) == ['\n'] + ['\n'];
    } else {
      assert s[n..] == u && Newlines(2) == "\n\n";
    }
  }

  /** What follows a line in the joined text. */
  function Rest(lines: seq<string>): string {
    if lines == [] then [] else "\n" + Join(RStripAll(lines))
  }

  lemma JoinHead(lines: seq<string>)
    requires lines != []
    ensures Join(RStripAll(lines)) == RStrip(lines[0]) + Rest(lines[1..])
  {
    hide RStrip;
    JoinStripped(lines[0], lines[1..]);
    assert lines == [lines[0]] + lines[1..];
  }

  /** A visible line ends in a visible character and holds no newline. */
  lemma VisibleLine(line: string)
    requires IsLine(line)
    ensures '\n' !in RStrip(line)
    ensures RStrip(line) == [] || !IsSpace(RStrip(line)[|RStrip(line)| - 1])
  {
    var r := RStrip(line);
    assert IsLineBreak('\n');
    hide IsLineBreak, IsSpace;
    assert forall i :: 0 <= i < |r| ==> r[i] == line[i];
  }

  predicate EndsVisibly(s: string) {
    s == [] || !IsSpace(s[|s| - 1])
  }

  lemma {:induction false} AfterEndsVisibly(lines: seq<string>, gap: bool)
    ensures EndsVisibly(After(lines, gap))
  {
    hide IsSpace;
    if lines != [] {
      AfterEndsVisibly(lines[1..], true);
      AfterEndsVisibly(lines[1..], false);
    }
  }

  /** A visible line after `n` newlines. */
  lemma CollapsedVisible(n: nat, r: string, rest: string)
    requires r != [] && '\n' !in r
    ensures Collapse(Newlines(n) + (r + rest)) == Newlines(if n < 2 then n else 2) + (r + Collapse(rest))
  {
    hide Collapse;
    assert r[0] in r;
    CollapseNewlines(n, r + rest);
    CollapsePlain(r, rest);
  }

  lemma OneNewlineMore(n: nat, t: string)
    ensures Newlines(n) + ("\n" + t) == Newlines(n + 1) + t
  {
    assert Newlines(n + 1) == Newlines(n) + "\n";
  }

  lemma Pending(lines: seq<string>, n: nat)
    requires lines != []
    ensures Newlines(n) + Rest(lines) == Newlines(n + 1) + (RStrip(lines[0]) + Rest(lines[1..]))
  {
    hide RStrip, Join, RStripAll, Newlines;
    JoinHead(lines);
    OneNewlineMore(n, Join(RStripAll(lines)));
  }

  lemma Separator(n: nat)
    ensures Newlines(if n + 1 < 2 then n + 1 else 2) == if n > 0 then "\n\n" else "\n"
  {
  }

  lemma Regroup(a: string, r: string, b: string, c: string)
    ensures a + (r + (b + c)) == (a + r + b) + c
  {
  }

  lemma NothingBefore(s: string)
    ensures Newlines(0) + s == s && [] + s == s
  {
  }

  /** With `n` blank lines pending, what follows a visible line collapses to its layout and some white space. */
  lemma {:induction false} CollapsedRest(lines: seq<string>, n: nat) returns (space: string)
    requires forall i :: 0 <= i < |lines| ==> IsLine(lines[i])
    ensures AllSpace(space) && Collapse(Newlines(n) + Rest(lines)) == After(lines, n > 0) + space
  {
    hide IsLine, RStrip, Collapse, IsSpace, Newlines, Join;
    var few := if n < 2 then n else 2;
    if lines == [] {
      CollapseNewlines(n, []);
      CollapseNothing();
      NewlinesAreSpace(few);
      NothingBefore(Newlines(few));
      space := Newlines(few);
      assert Newlines(few) + [] == Newlines(few);
    } else {
      var r, rest := RStrip(lines[0]), Rest(lines[1..]);
      Pending(lines, n);
      VisibleLine(lines[0]);
      hide Rest;
      NothingBefore(rest);
      if r == [] {
        space := CollapsedRest(lines[1..], n + 1);
      } else {
        CollapsedVisible(n + 1, r, rest);
        space := CollapsedRest(lines[1..], 0);
        Separator(n);
        Regroup(if n > 0 then "\n\n" else "\n", r, After(lines[1..], false), space);
      }
    }
  }

  lemma CollapseNothing()
    ensures Collapse([]) == []
  {
  }

  lemma {:induction false} SpaceRunAt(before: string, t: string)
    requires AllSpace(before) && (t == [] || !IsSpace(t[0]))
    ensures SpaceRun(before + t) == |before|
  {
    hide IsSpace;
    if before == [] {
      assert before + t == t;
    } else {
      assert (before + t)[1..] == before[1..] + t;
      SpaceRunAt(before[1..], t);
    }
  }

  lemma {:induction false} RStripAt(core: string, after: string)
    requires EndsVisibly(core) && AllSpace(after)
    ensures RStrip(core + after) == core
  {
    hide IsSpace;
    if after == [] {
      assert core + after == core;
    } else {
      assert (core + after)[..|core + after| - 1] == core + after[..|after| - 1];
      RStripAt(core, after[..|after| - 1]);
    }
  }

  lemma StripAround(before: string, core: string, after: string)
    requires AllSpace(before) && AllSpace(after) && EndsVisibly(core) && core != [] && !IsSpace(core[0])
    ensures Strip(before + core + after) == core
  {
    hide IsSpace;
    SpaceRunAt(before, core + after);
    assert before + core + after == before + (core + after);
    RStripAt(core, after);
  }

  lemma StripSpace(space: string)
    requires AllSpace(space)
    ensures Strip(space) == []
  {
    hide IsSpace;
    SpaceRunAt(space, []);
    assert space + [] == space;
  }

  lemma StripNewlines(n: nat)
    ensures Strip(Collapse(Newlines(n) + [])) == []
  {
    hide Collapse, Strip;
    var few := if n < 2 then n else 2;
    CollapseNewlines(n, []);
    CollapseNothing();
    NewlinesAreSpace(few);
    StripSpace(Newlines(few));
    assert Newlines(few) + [] == Newlines(few);
  }

  lemma OneBlankMore(lines: seq<string>, n: nat)
    requires |lines| > 1 && RStrip(lines[0]) == []
    ensures Newlines(n) + Join(RStripAll(lines)) == Newlines(n + 1) + Join(RStripAll(lines[1..]))
  {
    hide RStrip, Join, RStripAll, Newlines;
    JoinHead(lines);
    NothingBefore(Rest(lines[1..]));
    OneNewlineMore(n, Join(RStripAll(lines[1..])));
  }

  /** Stripping drops what is blank before the first visible line. */
  lemma {:induction false} StrippedLines(lines: seq<string>, n: nat)
    requires forall i :: 0 <= i < |lines| ==> IsLine(lines[i])
    ensures Strip(Collapse(Newlines(n) + Join(RStripAll(lines)))) == Laid(lines)
  {
    hide IsLine, RStrip, LStrip, Collapse, IsSpace, Strip, Newlines;
    if lines == [] {
      assert Join(RStripAll([])) == [];
      StripNewlines(n);
    } else {
      var r, rest := RStrip(lines[0]), Rest(lines[1..]);
      JoinHead(lines);
      VisibleLine(lines[0]);
      if r != [] {
        StrippedVisible(r, lines[1..], n);
      } else if |lines| == 1 {
        NothingBefore(rest);
        assert rest == [] && lines[1..] == [];
        StripNewlines(n);
      } else {
        OneBlankMore(lines, n);
        StrippedLines(lines[1..], n + 1);
      }
    }
  }

  lemma VisiblePart(r: string)
    requires r != [] && !IsSpace(r[|r| - 1])
    ensures var k := SpaceRun(r); k < |r| && AllSpace(r[..k]) && !IsSpace(r[k]) && LStrip(r) == r[k..]
  {
    var k := SpaceRun(r);
    assert AllSpace(r[..k]);
    hide IsSpace;
    assert r[..|r|] == r;
  }

  lemma StrippedVisible(r: string, lines: seq<string>, n: nat)
    requires r != [] && '\n' !in r && !IsSpace(r[|r| - 1])
    requires forall i :: 0 <= i < |lines| ==> IsLine(lines[i])
    ensures Strip(Collapse(Newlines(n) + (r + Rest(lines)))) == LStrip(r) + After(lines, false)
  {
    hide IsLine, IsSpace, Collapse, Strip, Rest, Newlines, LStrip, After;
    var few, k := if n < 2 then n else 2, SpaceRun(r);
    CollapsedVisible(n, r, Rest(lines));
    NothingBefore(Rest(lines));
    var space := CollapsedRest(lines, 0);
    NewlinesAreSpace(few);
    AfterEndsVisibly(lines, false);
    VisiblePart(r);
    var before, core := Newlines(few) + r[..k], r[k..] + After(lines, false);
    assert AllSpace(before);
    Regrouped(Newlines(few), r, k, After(lines, false), space);
    assert EndsVisibly(core);
    StripAround(before, core, space);
  }

  lemma Regrouped(a: string, r: string, k: nat, b: string, c: string)
    requires k <= |r|
    ensures a + (r + (b + c)) == (a + r[..k]) + (r[k..] + b) + c
  {
    assert r == r[..k] + r[k..];
  }

  /** Main result: whatever the lines of the filtered text and the breaks between them, what is left is the lines
      that are not blank, each without its trailing white space, in order, one below the other, with exactly one
      blank line wherever there were any in between. */
  lemma NormalizedLayout(s: string, other: char -> bool, lines: seq<string>, breaks: string)
    requires |lines| == |breaks| + 1 && Filter(s, other) == Glue(lines, breaks)
    requires forall i :: 0 <= i < |lines| ==> IsLine(lines[i])
    requires forall i :: 0 <= i < |breaks| ==> IsLineBreak(breaks[i])
    ensures Normalize(s, other) == Laid(lines)
  {
    hide IsLine, IsLineBreak, Strip, Collapse, Laid, Glue;
    SplitGlued(lines, breaks);
    LaidTrim(lines);
    StrippedLines(Trim(lines), 0);
    var tidy := Join(RStripAll(Trim(lines)));
    assert Newlines(0) + tidy == tidy;
  }

  /** Every text consists of such lines. */
  lemma {:induction false} SomeLines(s: string) returns (lines: seq<string>, breaks: string)
    ensures |lines| == |breaks| + 1 && Glue(lines, breaks) == s
    ensures forall i :: 0 <= i < |lines| ==> IsLine(lines[i])
    ensures forall i :: 0 <= i < |breaks| ==> IsLineBreak(breaks[i])
    decreases |s|
  {
    hide IsLineBreak;
    var n := LineLength(s);
    if n == |s| {
      lines, breaks := [s], [];
    } else {
      lines, breaks := SomeLines(s[n + 1..]);
      var more, rest := lines, breaks;
      lines, breaks := [s[..n]] + lines, [s[n]] + breaks;
      assert lines[1..] == more && breaks[1..] == rest;
      assert s == s[..n] + [s[n]] + s[n + 1..];
    }
  }
}
