/** Plain-text normalisation of extracted essay text (`normalize_text`, `count_words`).

The Unicode tables are not modelled: the composition step is the function `nfc`,
and the categories Cf, Cs, Co and Cn are the predicate `other`; both are arbitrary.
 */
module Text {

  /** `str.isspace`, the test behind `strip`, `rstrip` and `split`. */
  predicate IsSpace(c: char) {
    || '\t' <= c <= '\r' || '\U{1C}' <= c <= ' '
    || c == '\U{85}' || c == '\U{A0}' || c == '\U{1680}' || '\U{2000}' <= c <= '\U{200A}'
    || c == '\U{2028}' || c == '\U{2029}' || c == '\U{202F}' || c == '\U{205F}' || c == '\U{3000}'
  }

  /** The one-character boundaries of `str.splitlines`; '\r' never reaches it, see `Survives`. */
  predicate IsLineBreak(c: char) {
    '\n' <= c <= '\r' || '\U{1C}' <= c <= '\U{1E}' || c == '\U{85}' || c == '\U{2028}' || c == '\U{2029}'
  }

  /** Unicode category Cc. */
  predicate IsControl(c: char) {
    c <= '\U{1F}' || '\U{7F}' <= c <= '\U{9F}'
  }

  predicate Survives(c: char, other: char -> bool) {
    c == '\n' || c == '\t' || !(IsControl(c) || other(c))
  }

  predicate AllSpace(s: string) {
    forall i :: 0 <= i < |s| ==> IsSpace(s[i])
  }

  /** The number a decimal numeral stands for. */
  function NumberOf(digits: string): nat
    requires forall i :: 0 <= i < |digits| ==> '0' <= digits[i] <= '9'
  {
    if digits == [] then 0
    else 10 * NumberOf(digits[..|digits| - 1]) + (digits[|digits| - 1] as int - '0' as int)
  }

  // ---------------------------------------------------------------------------
  // The steps of normalize_text
  // ---------------------------------------------------------------------------

  function Filter(s: string, other: char -> bool): string {
    if s == [] then []
    else (if Survives(s[0], other) then [s[0]] else []) + Filter(s[1..], other)
  }

  /** Number of white-space characters at the start. */
  function SpaceRun(s: string): (n: nat)
    ensures n <= |s| && AllSpace(s[..n])
    ensures n < |s| ==> !IsSpace(s[n])
  {
    if s != [] && IsSpace(s[0]) then
      var n := SpaceRun(s[1..]);
      AllSpaceCons(s, n);
      1 + n
    else 0
  }

  function LStrip(s: string): string {
    s[SpaceRun(s)..]
  }

  function RStrip(s: string): (r: string)
    ensures |r| <= |s| && r == s[..|r|] && AllSpace(s[|r|..])
    ensures r == [] || !IsSpace(r[|r| - 1])
  {
    if s != [] && IsSpace(s[|s| - 1]) then
      var r := RStrip(s[..|s| - 1]);
      AllSpaceSnoc(s, |r|);
      r
    else s
  }

  lemma AllSpaceSnoc(s: string, k: nat)
    requires k < |s| && AllSpace(s[..|s| - 1][k..]) && IsSpace(s[|s| - 1])
    ensures AllSpace(s[k..]) && s[..|s| - 1][..k] == s[..k]
  {
    hide IsSpace;
    assert s[k..] == s[..|s| - 1][k..] + [s[|s| - 1]];
  }

  lemma AllSpaceCons(s: string, k: nat)
    requires s != [] && k < |s| && AllSpace(s[1..][..k]) && IsSpace(s[0])
    ensures AllSpace(s[..1 + k])
  {
    hide IsSpace;
    assert s[..1 + k] == [s[0]] + s[1..][..k];
  }

  function Strip(s: string): string {
    RStrip(LStrip(s))
  }

  /** Length of the first line: up to the first boundary, or to the end. */
  function LineLength(s: string): (n: nat)
    ensures n <= |s| && forall i :: 0 <= i < n ==> !IsLineBreak(s[i])
    ensures n < |s| ==> IsLineBreak(s[n])
  {
    if s == [] || IsLineBreak(s[0]) then 0 else 1 + LineLength(s[1..])
  }

  function SplitLines(s: string): seq<string> {
    if s == [] then []
    else
      var n := LineLength(s);
      if n == |s| then [s] else [s[..n]] + SplitLines(s[n + 1..])
  }

  function RStripAll(lines: seq<string>): (r: seq<string>)
    ensures |r| == |lines|
  {
    if lines == [] then [] else [RStrip(lines[0])] + RStripAll(lines[1..])
  }

  function Join(lines: seq<string>): string {
    if lines == [] then []
    else if |lines| == 1 then lines[0]
    else lines[0] + "\n" + Join(lines[1..])
  }

  function TidyLines(s: string): string {
    Join(RStripAll(SplitLines(s)))
  }

  /** Number of newlines at the start. */
  function NewlineRun(s: string): (n: nat)
    ensures n <= |s| && forall i :: 0 <= i < n ==> s[i] == '\n'
    ensures n < |s| ==> s[n] != '\n'
  {
    if s == [] || s[0] != '\n' then 0 else 1 + NewlineRun(s[1..])
  }

  /** Every run of three or more newlines becomes two. */
  function Collapse(s: string): string
    decreases |s|
  {
    if s == [] then []
    else if NewlineRun(s) >= 3 then "\n\n" + Collapse(s[NewlineRun(s)..])
    else [s[0]] + Collapse(s[1..])
  }

  /** `normalize_text` after its composition step. */
  function Normalize(s: string, other: char -> bool): string {
    Strip(Collapse(TidyLines(Filter(s, other))))
  }

  function NormalizeText(s: string, nfc: string -> string, other: char -> bool): string {
    Normalize(nfc(s), other)
  }

  // ---------------------------------------------------------------------------
  // Words
  // ---------------------------------------------------------------------------

  /** The text begins inside a word. */
  predicate Lead(s: string) {
    s != [] && !IsSpace(s[0])
  }

  /** `str.split()`: the maximal runs of non-space characters, in order. */
  function Words(s: string): (ws: seq<string>)
    ensures Lead(s) ==> ws != []
    ensures forall w :: w in ws ==> w != [] && forall i :: 0 <= i < |w| ==> !IsSpace(w[i])
  {
    if s == [] then []
    else if IsSpace(s[0]) then Words(s[1..])
    else if Lead(s[1..]) then
      var ws := Words(s[1..]);
      [[s[0]] + ws[0]] + ws[1..]
    else [[s[0]]] + Words(s[1..])
  }

  function CountWords(s: string): nat {
    |Words(s)|
  }

  predicate SameWords(a: string, b: string) {
    Words(a) == Words(b) && Lead(a) == Lead(b)
  }

  /** A word is cut exactly at its surrounding white space. */
  lemma {:induction false} WordsOfRun(w: string, rest: string)
    requires w != [] && (forall i :: 0 <= i < |w| ==> !IsSpace(w[i])) && !Lead(rest)
    ensures Words(w + rest) == [w] + Words(rest)
  {
    assert (w + rest)[1..] == w[1..] + rest;
    if |w| > 1 {
      WordsOfRun(w[1..], rest);
      assert [w[0]] + w[1..] == w;
    } else {
      assert w[1..] + rest == rest && w == [w[0]];
    }
  }

  lemma {:induction false} WordsSkipSpace(sp: string, rest: string)
    requires AllSpace(sp)
    ensures Words(sp + rest) == Words(rest)
  {
    if sp == [] {
      assert sp + rest == rest;
    } else {
      assert (sp + rest)[1..] == sp[1..] + rest;
      WordsSkipSpace(sp[1..], rest);
    }
  }

  lemma {:induction false} SameWordsAppend(p: string, a: string, b: string)
    requires SameWords(a, b)
    ensures SameWords(p + a, p + b)
  {
    if p == [] {
      assert p + a == a && p + b == b;
    } else {
      assert (p + a)[1..] == p[1..] + a && (p + b)[1..] == p[1..] + b;
      SameWordsAppend(p[1..], a, b);
    }
  }

  lemma {:induction false} RStripWords(s: string)
    ensures SameWords(RStrip(s), s)
  {
    var r := RStrip(s);
    WordsSkipSpace(s[|r|..], []);
    assert s[|r|..] + [] == s[|r|..];
    SameWordsAppend(r, s[|r|..], []);
    assert r + s[|r|..] == s && r + [] == r;
  }

  lemma {:induction false} StripWords(s: string)
    ensures Words(Strip(s)) == Words(s)
  {
    var k := SpaceRun(s);
    WordsSkipSpace(s[..k], s[k..]);
    assert s[..k] + s[k..] == s;
    RStripWords(s[k..]);
  }

  lemma TidyLinesLast(s: string)
    requires s == [] || LineLength(s) == |s|
    ensures TidyLines(s) == RStrip(s)
  {
    hide LineLength, RStrip, IsSpace, IsLineBreak;
    if s != [] {
      assert SplitLines(s) == [s];
      JoinStripped(s, []);
      assert [s] + [] == [s] && RStrip(s) + [] == RStrip(s);
    }
  }

  /** Cutting trailing space off every line and rejoining with '\n' keeps the words. */
  lemma {:induction false} TidyLinesWords(s: string)
    ensures SameWords(TidyLines(s), s)
    decreases |s|
  {
    hide IsSpace, IsLineBreak, LineLength, RStrip, Words, TidyLines;
    var n := LineLength(s);
    if n == |s| {
      TidyLinesLast(s);
      RStripWords(s);
    } else {
      var rest := s[n + 1..];
      TidyLinesStep(s);
      TidyLinesWords(rest);
      BreakIsSpace(s[n]);
      var tail := TidyTail(rest);
      TidyLineWords(s[..n], s[n], rest, tail);
      assert s == s[..n] + [s[n]] + rest;
    }
  }

  lemma BreakIsSpace(c: char)
    requires IsLineBreak(c)
    ensures IsSpace(c)
  {
  }

  /** What follows the first line of a tidied text. */
  function TidyTail(rest: string): (t: string)
    ensures t == if rest == [] then [] else "\n" + TidyLines(rest)
    ensures !Lead(t) && Words(t) == Words(TidyLines(rest))
  {
    WordsSkipSpace("\n", TidyLines(rest));
    if rest == [] then [] else "\n" + TidyLines(rest)
  }

  lemma TidyLineWords(line: string, br: char, rest: string, tail: string)
    requires IsSpace(br) && Words(tail) == Words(rest) && !Lead(tail)
    ensures SameWords(RStrip(line) + tail, line + [br] + rest)
  {
    hide IsSpace, Words, RStrip;
    var r := RStrip(line);
    var gap := line[|r|..] + [br];
    WordsSkipSpace(gap, rest);
    SameWordsAppend(r, tail, gap + rest);
    assert line == r + line[|r|..];
    assert r + (gap + rest) == line + [br] + rest;
  }

  lemma TidyLinesStep(s: string)
    requires s != [] && LineLength(s) < |s|
    ensures var n := LineLength(s); var rest := s[n + 1..];
            TidyLines(s) == RStrip(s[..n]) + TidyTail(rest)
  {
    hide IsSpace, IsLineBreak, LineLength, RStripAll, Join, RStrip;
    var n := LineLength(s);
    var rest := s[n + 1..];
    var more := SplitLines(rest);
    assert SplitLines(s) == [s[..n]] + more;
    JoinStripped(s[..n], more);
    assert rest != [] ==> more != [];
  }

  lemma JoinStripped(line: string, more: seq<string>)
    ensures Join(RStripAll([line] + more)) == RStrip(line) + if more == [] then [] else "\n" + Join(RStripAll(more))
  {
    hide RStrip, IsSpace;
    var ls := [line] + more;
    assert ls[1..] == more;
    assert RStripAll(ls) == [RStrip(line)] + RStripAll(more);
    assert RStripAll(ls)[1..] == RStripAll(more);
  }

  lemma {:induction false} CollapseWords(s: string)
    ensures SameWords(Collapse(s), s)
    decreases |s|
  {
    hide IsSpace, Words;
    if s != [] {
      var n := NewlineRun(s);
      assert IsSpace('\n') by {
        BreakIsSpace('\n');
      }
      if n >= 3 {
        CollapseWords(s[n..]);
        WordsSkipSpace(s[..n], s[n..]);
        WordsSkipSpace("\n\n", Collapse(s[n..]));
        assert s[..n] + s[n..] == s;
      } else {
        CollapseWords(s[1..]);
        SameWordsAppend([s[0]], Collapse(s[1..]), s[1..]);
        assert [s[0]] + s[1..] == s;
      }
    }
  }

  /** Main result: normalisation keeps exactly the word sequence of the filtered text. */
  lemma {:induction false} NormalizeKeepsWords(s: string, other: char -> bool)
    ensures Words(Normalize(s, other)) == Words(Filter(s, other))
    ensures CountWords(Normalize(s, other)) == CountWords(Filter(s, other))
  {
    var f := Filter(s, other);
    TidyLinesWords(f);
    CollapseWords(TidyLines(f));
    StripWords(Collapse(TidyLines(f)));
  }

  // ---------------------------------------------------------------------------
  // Clean text: exactly the fixpoints of normalisation
  // ---------------------------------------------------------------------------

  predicate OnlyNewlineBreaks(s: string, other: char -> bool) {
    forall i :: 0 <= i < |s| ==> Survives(s[i], other) && (IsLineBreak(s[i]) ==> s[i] == '\n')
  }

  predicate LineEndsAt(s: string, i: nat)
    requires i < |s|
  {
    i + 1 == |s| || s[i + 1] == '\n'
  }

  /** No line ends in white space. */
  predicate Tidy(s: string) {
    forall i {:trigger LineEndsAt(s, i)} :: 0 <= i < |s| && LineEndsAt(s, i) ==> s[i] == '\n' || !IsSpace(s[i])
  }

  predicate TripleAt(s: string, i: nat) {
    i + 2 < |s| && s[i] == '\n' && s[i + 1] == '\n' && s[i + 2] == '\n'
  }

  /** No three newlines in a row. */
  predicate NoTriple(s: string) {
    forall i :: 0 <= i < |s| ==> !TripleAt(s, i)
  }

  predicate Clean(s: string, other: char -> bool) {
    && OnlyNewlineBreaks(s, other) && Tidy(s) && NoTriple(s)
    && (s != [] ==> !IsSpace(s[0]) && !IsSpace(s[|s| - 1]))
  }

  lemma {:induction false} FilterSurvives(s: string, other: char -> bool)
    ensures forall c :: c in Filter(s, other) ==> Survives(c, other)
    ensures (forall c :: c in s ==> Survives(c, other)) ==> Filter(s, other) == s
  {
    if s != [] {
      FilterSurvives(s[1..], other);
    }
  }

  lemma TidyDrop(s: string, k: nat)
    requires k <= |s| && Tidy(s)
    ensures Tidy(s[k..])
  {
    forall i | 0 <= i < |s| - k && LineEndsAt(s[k..], i)
      ensures s[k..][i] == '\n' || !IsSpace(s[k..][i])
    {
      assert LineEndsAt(s, k + i);
    }
  }

  lemma TidyTake(s: string, k: nat)
    requires k <= |s| && Tidy(s) && (k > 0 ==> !IsSpace(s[k - 1]))
    ensures Tidy(s[..k])
  {
    forall i | 0 <= i < k && LineEndsAt(s[..k], i)
      ensures s[..k][i] == '\n' || !IsSpace(s[..k][i])
    {
      assert i + 1 < k ==> LineEndsAt(s, i);
    }
  }

  lemma NoTripleSlice(s: string, k: nat)
    requires k <= |s| && NoTriple(s)
    ensures NoTriple(s[k..]) && NoTriple(s[..k])
  {
    forall i | 0 <= i < |s|
      ensures i < |s| - k ==> !TripleAt(s[k..], i)
      ensures i < k ==> !TripleAt(s[..k], i)
    {
      assert i < |s| - k ==> !TripleAt(s, k + i);
      assert !TripleAt(s, i);
    }
  }

  /** A tidy line can be put before a line break and a tidy rest. */
  lemma TidyAppend(r: string, tail: string)
    requires (r == [] || !IsSpace(r[|r| - 1])) && Tidy(tail)
    requires forall i :: 0 <= i < |r| ==> r[i] != '\n'
    ensures Tidy(r + tail)
  {
    var t := r + tail;
    forall i | 0 <= i < |t| && LineEndsAt(t, i)
      ensures t[i] == '\n' || !IsSpace(t[i])
    {
      if i >= |r| {
        assert LineEndsAt(tail, i - |r|);
      }
    }
  }

  /** The first line, stripped, holds no newline and does not end in white space. */
  lemma FirstLineStripped(s: string)
    ensures var r := RStrip(s[..LineLength(s)]);
            (r == [] || !IsSpace(r[|r| - 1])) && forall i :: 0 <= i < |r| ==> r[i] != '\n'
  {
    assert IsLineBreak('\n');
    hide LineLength, RStrip, IsSpace, IsLineBreak;
    var n := LineLength(s);
    var r := RStrip(s[..n]);
    assert forall i :: 0 <= i < |r| ==> r[i] == s[i];
  }

  lemma EmptyTidy()
    ensures Tidy("")
  {
  }

  /** The first line, stripped, may stand before any tidy text. */
  lemma FirstLineTidy(s: string, tail: string)
    requires Tidy(tail)
    ensures Tidy(RStrip(s[..LineLength(s)]) + tail)
  {
    FirstLineStripped(s);
    hide LineLength, RStrip, IsSpace, Tidy;
    TidyAppend(RStrip(s[..LineLength(s)]), tail);
  }

  lemma {:induction false} TidyLinesTidy(s: string)
    ensures Tidy(TidyLines(s))
    decreases |s|
  {
    var n := LineLength(s);
    hide LineLength, RStrip, TidyLines, SplitLines, IsSpace, Tidy;
    EmptyTidy();
    if n == |s| {
      assert s[..n] == s && RStrip(s) + "" == RStrip(s);
      TidyLinesLast(s);
      FirstLineTidy(s, "");
    } else {
      var rest := s[n + 1..];
      TidyLinesStep(s);
      TidyLinesTidy(rest);
      NewlineTidy(TidyLines(rest));
      FirstLineTidy(s, TidyTail(rest));
    }
  }

  lemma NewlineTidy(s: string)
    requires Tidy(s)
    ensures Tidy("\n" + s)
  {
    var t := "\n" + s;
    forall i | 1 <= i < |t| && LineEndsAt(t, i)
      ensures t[i] == '\n' || !IsSpace(t[i])
    {
      assert LineEndsAt(s, i - 1);
    }
  }

  lemma {:induction false} TidyLinesBreaks(s: string, other: char -> bool)
    requires forall c :: c in s ==> Survives(c, other)
    ensures OnlyNewlineBreaks(TidyLines(s), other)
    decreases |s|
  {
    hide LineLength, RStrip, TidyLines, IsSpace;
    if s == [] {
      TidyLinesLast(s);
    } else {
      var n := LineLength(s);
      if n == |s| {
        TidyLinesLast(s);
      } else {
        TidyLinesStep(s);
        TidyLinesBreaks(s[n + 1..], other);
      }
    }
  }

  lemma {:induction false} CollapseBreaks(s: string, other: char -> bool)
    requires OnlyNewlineBreaks(s, other)
    ensures OnlyNewlineBreaks(Collapse(s), other)
    decreases |s|
  {
    if s != [] {
      if NewlineRun(s) >= 3 {
        CollapseBreaks(s[NewlineRun(s)..], other);
      } else {
        CollapseBreaks(s[1..], other);
      }
    }
  }

  /** Collapsing starts with the same character and keeps a run of at most two newlines. */
  lemma {:induction false} CollapseRun(s: string)
    ensures s != [] ==> Collapse(s) != [] && Collapse(s)[0] == s[0]
    ensures NewlineRun(Collapse(s)) == if NewlineRun(s) >= 2 then 2 else NewlineRun(s)
    ensures NoTriple(Collapse(s))
    decreases |s|
  {
    if s != [] {
      var n := NewlineRun(s);
      if n >= 3 {
        CollapseRun(s[n..]);
        RunCons(Collapse(s[n..]));
        RunCons("\n" + Collapse(s[n..]));
        assert "\n\n" + Collapse(s[n..]) == "\n" + ("\n" + Collapse(s[n..]));
      } else {
        CollapseRun(s[1..]);
        if s[0] == '\n' {
          RunCons(Collapse(s[1..]));
        } else {
          NoTripleCons(s[0], Collapse(s[1..]));
        }
      }
    }
  }

  lemma RunCons(t: string)
    requires NoTriple(t) && NewlineRun(t) < 2
    ensures NewlineRun("\n" + t) == NewlineRun(t) + 1 && NoTriple("\n" + t)
  {
    assert ("\n" + t)[1..] == t;
    NoTripleCons('\n', t);
  }

  lemma NoTripleCons(c: char, t: string)
    requires NoTriple(t) && (c == '\n' ==> NewlineRun(t) < 2)
    ensures NoTriple([c] + t)
  {
    forall i: nat
      ensures !TripleAt([c] + t, i)
    {
      if i > 0 {
        assert !TripleAt(t, i - 1);
      }
    }
  }

  lemma {:induction false} CollapseTidy(s: string)
    requires Tidy(s)
    ensures Tidy(Collapse(s))
    decreases |s|
  {
    if s != [] {
      var n := NewlineRun(s);
      if n >= 3 {
        TidyDrop(s, n);
        CollapseTidy(s[n..]);
        NewlineTidy(Collapse(s[n..]));
        NewlineTidy("\n" + Collapse(s[n..]));
        assert "\n\n" + Collapse(s[n..]) == "\n" + ("\n" + Collapse(s[n..]));
      } else {
        TidyDrop(s, 1);
        CollapseTidy(s[1..]);
        CollapseRun(s[1..]);
        assert LineEndsAt(s, 0) || !LineEndsAt(Collapse(s), 0);
        TidyCons(s[0], Collapse(s[1..]));
      }
    }
  }

  lemma TidyCons(c: char, t: string)
    requires Tidy(t) && (LineEndsAt([c] + t, 0) ==> c == '\n' || !IsSpace(c))
    ensures Tidy([c] + t)
  {
    var u := [c] + t;
    forall i | 1 <= i < |u| && LineEndsAt(u, i)
      ensures u[i] == '\n' || !IsSpace(u[i])
    {
      assert LineEndsAt(t, i - 1);
    }
  }

  lemma StripClean(s: string, other: char -> bool)
    requires Tidy(s) && OnlyNewlineBreaks(s, other) && NoTriple(s)
    ensures Clean(Strip(s), other)
  {
    var k := SpaceRun(s);
    TidyDrop(s, k);
    NoTripleSlice(s, k);
    RStripClean(s[k..], other);
  }

  lemma RStripClean(l: string, other: char -> bool)
    requires Tidy(l) && OnlyNewlineBreaks(l, other) && NoTriple(l) && (l == [] || !IsSpace(l[0]))
    ensures Clean(RStrip(l), other)
  {
    var r := RStrip(l);
    TidyTake(l, |r|);
    NoTripleSlice(l, |r|);
  }

  lemma {:induction false} NormalizeClean(s: string, other: char -> bool)
    ensures Clean(Normalize(s, other), other)
  {
    var f := Filter(s, other);
    var t := TidyLines(f);
    FilterSurvives(s, other);
    TidyLinesTidy(f);
    TidyLinesBreaks(f, other);
    CollapseTidy(t);
    CollapseBreaks(t, other);
    CollapseRun(t);
    StripClean(Collapse(t), other);
  }

  lemma FirstLineIdentity(s: string)
    requires Tidy(s) && (LineLength(s) < |s| ==> s[LineLength(s)] == '\n')
    ensures RStrip(s[..LineLength(s)]) == s[..LineLength(s)]
  {
    assert IsLineBreak('\n');
    hide LineLength, IsSpace, IsLineBreak;
    var n := LineLength(s);
    if n > 0 {
      assert LineEndsAt(s, n - 1);
      assert s[..n][n - 1] == s[n - 1];
    }
    RStripNoop(s[..n]);
  }

  lemma RStripNoop(s: string)
    requires s == [] || !IsSpace(s[|s| - 1])
    ensures RStrip(s) == s
  {
  }

  lemma {:induction false} TidyLinesIdentity(s: string, other: char -> bool)
    requires Tidy(s) && OnlyNewlineBreaks(s, other) && (s != [] ==> s[|s| - 1] != '\n')
    ensures TidyLines(s) == s
    decreases |s|
  {
    hide TidyLines, LineLength, RStrip, IsSpace, IsControl, Tidy;
    var n := LineLength(s);
    assert n < |s| ==> s[n] == '\n';
    FirstLineIdentity(s);
    if n == |s| {
      TidyLinesLast(s);
      assert s[..n] == s;
    } else {
      var rest := s[n + 1..];
      BreaksDrop(s, n + 1, other);
      hide OnlyNewlineBreaks;
      TidyLinesStep(s);
      TidyDrop(s, n + 1);
      assert rest != [] && rest[|rest| - 1] == s[|s| - 1];
      TidyLinesIdentity(rest, other);
      assert s == s[..n] + ("\n" + rest);
    }
  }

  lemma BreaksDrop(s: string, k: nat, other: char -> bool)
    requires k <= |s| && OnlyNewlineBreaks(s, other)
    ensures OnlyNewlineBreaks(s[k..], other)
  {
  }

  lemma {:induction false} CollapseIdentity(s: string)
    requires NoTriple(s)
    ensures Collapse(s) == s
  {
    if s != [] {
      assert !TripleAt(s, 0);
      assert NewlineRun(s) < 3;
      NoTripleSlice(s, 1);
      CollapseIdentity(s[1..]);
    }
  }

  /** Main result: the fixpoints of normalisation are exactly the clean texts. */
  lemma {:induction false} NormalizeFixpoints(s: string, other: char -> bool)
    ensures Normalize(s, other) == s <==> Clean(s, other)
  {
    NormalizeClean(s, other);
    if Clean(s, other) {
      FilterSurvives(s, other);
      TidyLinesIdentity(s, other);
      CollapseIdentity(s);
    }
  }

  /** Main result: normalising a second time changes nothing. */
  lemma {:induction false} NormalizeIdempotent(s: string, other: char -> bool)
    ensures Normalize(Normalize(s, other), other) == Normalize(s, other)
  {
    NormalizeClean(s, other);
    NormalizeFixpoints(Normalize(s, other), other);
  }
}
