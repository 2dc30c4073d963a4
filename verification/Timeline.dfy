/** Composition timeline: segmentation of writing snapshots into sessions, time accounting,
and the paste and rapid-completion detectors (`composition_timeline.py`).

Times are whole microseconds and fractions are exact reals.
 */
module Timeline {
  import opened Outcomes

  const SECOND: int := 1_000_000

  /** A stored snapshot entry; None is a key that is missing or cannot be converted. */
  datatype RawSnapshot = RawSnapshot(number: Option<int>, ts: Option<int>, wordCount: Option<int>)

  datatype Snap = Snap(number: int, ts: int, words: nat)

  datatype Session = Session(
    index: nat, startedAt: int, endedAt: int, duration: int, count: nat,
    wordsStart: nat, wordsEnd: nat, wordsAdded: int)

  datatype PasteEvent = PasteEvent(
    number: int, occurredAt: int, wordsBefore: nat, wordsAfter: nat, wordsAdded: int, sessionIndex: nat)

  datatype RapidEvent = RapidEvent(
    sessionIndex: nat, duration: int, wordsAtStart: nat, wordsAtEnd: nat, fraction: real)

  datatype Thresholds = Thresholds(
    gap: int, pasteMinWords: int, pasteMinFraction: real, rapidFraction: real, rapidMaxDuration: int)

  const DEFAULTS := Thresholds(1800 * SECOND, 50, 0.15, 0.75, 1200 * SECOND)

  datatype Analysis = Analysis(
    hasProcessData: bool, sessions: seq<Session>, gaps: seq<int>, active: int, elapsed: int,
    pastes: seq<PasteEvent>, rapids: seq<RapidEvent>)

  const NO_DATA := Analysis(false, [], [], 0, 0, [], [])

  function Max(a: int, b: int): int {
    if a >= b then a else b
  }

  function Sum(xs: seq<int>): int {
    if xs == [] then 0 else Sum(xs[..|xs| - 1]) + xs[|xs| - 1]
  }

  // ---------------------------------------------------------------------------
  // Parsing and sorting
  // ---------------------------------------------------------------------------

  function ParseOne(raw: RawSnapshot): Option<Snap> {
    if raw.number.Some? && raw.ts.Some? && raw.wordCount.Some?
    then Some(Snap(raw.number.value, raw.ts.value, Max(0, raw.wordCount.value)))
    else None
  }

  function ParseAll(raw: seq<RawSnapshot>): seq<Snap> {
    if raw == [] then []
    else
      var last := ParseOne(raw[|raw| - 1]);
      ParseAll(raw[..|raw| - 1]) + if last.Some? then [last.value] else []
  }

  function InsertByTime(sorted: seq<Snap>, x: Snap): seq<Snap> {
    if sorted == [] || sorted[|sorted| - 1].ts <= x.ts then sorted + [x]
    else InsertByTime(sorted[..|sorted| - 1], x) + [sorted[|sorted| - 1]]
  }

  /** `list.sort(key=ts)`: stable, see `SortIsStable`. */
  function SortByTime(s: seq<Snap>): seq<Snap> {
    if s == [] then [] else InsertByTime(SortByTime(s[..|s| - 1]), s[|s| - 1])
  }

  predicate Sorted(s: seq<Snap>) {
    forall i, j :: 0 <= i < j < |s| ==> s[i].ts <= s[j].ts
  }

  /** The snapshots taken at time `t`, in order. */
  function AtTime(s: seq<Snap>, t: int): seq<Snap> {
    if s == [] then []
    else AtTime(s[..|s| - 1], t) + if s[|s| - 1].ts == t then [s[|s| - 1]] else []
  }

  lemma {:induction false} InsertSorted(sorted: seq<Snap>, x: Snap)
    requires Sorted(sorted)
    ensures Sorted(InsertByTime(sorted, x))
    ensures forall y :: y in InsertByTime(sorted, x) ==> y == x || y in sorted
  {
    if sorted != [] && sorted[|sorted| - 1].ts > x.ts {
      var front, last := sorted[..|sorted| - 1], sorted[|sorted| - 1];
      InsertSorted(front, x);
      var r := InsertByTime(front, x);
      assert forall y :: y in front ==> y.ts <= last.ts;
      forall i | 0 <= i < |r|
        ensures r[i].ts <= last.ts
      {
        assert r[i] in r;
      }
    }
  }

  lemma {:induction false} InsertAtTime(sorted: seq<Snap>, x: Snap, t: int)
    requires Sorted(sorted)
    ensures AtTime(InsertByTime(sorted, x), t) == AtTime(sorted, t) + if x.ts == t then [x] else []
  {
    if sorted == [] || sorted[|sorted| - 1].ts <= x.ts {
      assert (sorted + [x])[..|sorted|] == sorted;
    } else {
      var front, last := sorted[..|sorted| - 1], sorted[|sorted| - 1];
      InsertAtTime(front, x, t);
      var r := InsertByTime(front, x) + [last];
      assert r[..|r| - 1] == InsertByTime(front, x);
    }
  }

  /** Sorting orders by time and keeps the snapshots of every instant in their given order. */
  lemma {:induction false} SortIsStable(s: seq<Snap>, t: int)
    ensures Sorted(SortByTime(s))
    ensures AtTime(SortByTime(s), t) == AtTime(s, t)
  {
    if s != [] {
      SortIsStable(s[..|s| - 1], t);
      InsertSorted(SortByTime(s[..|s| - 1]), s[|s| - 1]);
      InsertAtTime(SortByTime(s[..|s| - 1]), s[|s| - 1], t);
    }
  }

  function Parsed(raw: seq<RawSnapshot>): (p: seq<Snap>)
    ensures Sorted(p)
  {
    SortIsStable(ParseAll(raw), 0);
    SortByTime(ParseAll(raw))
  }

  // ---------------------------------------------------------------------------
  // Segmentation
  // ---------------------------------------------------------------------------

  function Flatten(parts: seq<seq<Snap>>): seq<Snap> {
    if parts == [] then [] else Flatten(parts[..|parts| - 1]) + parts[|parts| - 1]
  }

  predicate NonEmptyParts(parts: seq<seq<Snap>>) {
    forall k :: 0 <= k < |parts| ==> parts[k] != []
  }

  function Last(s: seq<Snap>): Snap
    requires s != []
  {
    s[|s| - 1]
  }

  predicate CloseAt(part: seq<Snap>, i: nat, gap: int)
    requires i + 1 < |part|
  {
    part[i + 1].ts - part[i].ts < gap
  }

  /** Consecutive snapshots of one part are closer than the threshold. */
  predicate InnerGaps(part: seq<Snap>, gap: int) {
    forall i {:trigger CloseAt(part, i, gap)} :: 0 <= i < |part| - 1 ==> CloseAt(part, i, gap)
  }

  /** The gap between two neighbouring parts reaches the threshold. */
  predicate CutAt(parts: seq<seq<Snap>>, k: nat, gap: int)
    requires k + 1 < |parts| && parts[k] != [] && parts[k + 1] != []
  {
    parts[k + 1][0].ts - Last(parts[k]).ts >= gap
  }

  /** The parts are non-empty consecutive runs, cut exactly where the gap reaches the threshold. */
  predicate IsSegmentation(parsed: seq<Snap>, gap: int, parts: seq<seq<Snap>>) {
    && Flatten(parts) == parsed
    && NonEmptyParts(parts)
    && (forall k :: 0 <= k < |parts| ==> InnerGaps(parts[k], gap))
    && (forall k {:trigger CutAt(parts, k, gap)} :: 0 <= k < |parts| - 1 ==> CutAt(parts, k, gap))
  }

  /** The parts the segmentation loop builds. */
  function Segments(parsed: seq<Snap>, gap: int): (parts: seq<seq<Snap>>)
    ensures parsed != [] <==> parts != []
    ensures NonEmptyParts(parts)
    ensures parsed != [] ==> Last(parts[|parts| - 1]) == Last(parsed)
  {
    if parsed == [] then []
    else if |parsed| == 1 then [parsed]
    else
      var n := |parsed| - 1;
      var done := Segments(parsed[..n], gap);
      if parsed[n].ts - parsed[n - 1].ts >= gap then done + [[parsed[n]]]
      else done[..|done| - 1] + [done[|done| - 1] + [parsed[n]]]
  }

  lemma FlattenSnoc(parts: seq<seq<Snap>>, part: seq<Snap>)
    ensures Flatten(parts + [part]) == Flatten(parts) + part
  {
    assert (parts + [part])[..|parts|] == parts;
  }

  /** One step of the loop: a new part, or one more snapshot in the current part. */
  lemma SegmentsStep(parsed: seq<Snap>, gap: int, done: seq<seq<Snap>>, current: seq<Snap>, x: Snap)
    requires parsed != [] && Segments(parsed, gap) == done + [current]
    ensures Segments(parsed + [x], gap)
         == if x.ts - Last(parsed).ts >= gap then (done + [current]) + [[x]] else done + [current + [x]]
  {
    assert (parsed + [x])[..|parsed|] == parsed;
    assert (done + [current])[..|done|] == done;
  }

  lemma SegmentationStep(done: seq<seq<Snap>>, current: seq<Snap>, x: Snap, gap: int)
    requires current != [] && IsSegmentation(Flatten(done + [current]), gap, done + [current])
    ensures var parsed' := Flatten(done + [current]) + [x];
            if x.ts - Last(current).ts >= gap then IsSegmentation(parsed', gap, done + [current] + [[x]])
            else IsSegmentation(parsed', gap, done + [current + [x]])
  {
    var parts := done + [current];
    var parts' := if x.ts - Last(current).ts >= gap then parts + [[x]] else done + [current + [x]];
    FlattenSnoc(done, current);
    FlattenSnoc(parts, [x]);
    FlattenSnoc(done, current + [x]);
    assert Flatten(done) + (current + [x]) == (Flatten(done) + current) + [x];
    hide Flatten;
    assert parts[|done|] == current;
    forall i | 0 <= i < |current|
      ensures CloseAt(current + [x], i, gap) || x.ts - Last(current).ts >= gap
    {
      assert i + 1 < |current| ==> CloseAt(current, i, gap);
    }
    forall k | 0 <= k < |parts'| - 1
      ensures CutAt(parts', k, gap)
    {
      assert k + 1 < |parts| ==> CutAt(parts, k, gap);
    }
  }

  lemma OneSegment(x: Snap, gap: int)
    ensures Segments([x], gap) == [[x]] && IsSegmentation([x], gap, [[x]])
  {
    FlattenSnoc([], [x]);
    assert [] + [[x]] == [[x]];
  }

  lemma {:induction false} SegmentsIsSegmentation(parsed: seq<Snap>, gap: int)
    ensures IsSegmentation(parsed, gap, Segments(parsed, gap))
  {
    if |parsed| == 1 {
      assert parsed == [parsed[0]];
      OneSegment(parsed[0], gap);
    } else if parsed != [] {
      var n := |parsed| - 1;
      var front, x := parsed[..n], parsed[n];
      var parts := Segments(front, gap);
      var done, current := parts[..|parts| - 1], parts[|parts| - 1];
      SegmentsIsSegmentation(front, gap);
      hide Segments, IsSegmentation, Flatten, NonEmptyParts;
      assert parts == done + [current] && parsed == front + [x];
      SegmentsStep(front, gap, done, current, x);
      FlattenOfSegmentation(front, gap, parts);
      SegmentationStep(done, current, x, gap);
    }
  }

  lemma FlattenOfSegmentation(parsed: seq<Snap>, gap: int, parts: seq<seq<Snap>>)
    requires IsSegmentation(parsed, gap, parts)
    ensures Flatten(parts) == parsed
  {
  }

  /** The last part starts at a gap that reaches the threshold, unless it is everything. */
  lemma LastPartCut(parsed: seq<Snap>, gap: int, p: seq<seq<Snap>>)
    requires IsSegmentation(parsed, gap, p) && parsed != [] && p != []
    ensures var b := |parsed| - |p[|p| - 1]|;
            0 <= b < |parsed| && (b > 0 ==> parsed[b].ts - parsed[b - 1].ts >= gap)
  {
    var m := |p| - 1;
    var r := p[..m];
    assert parsed == Flatten(r) + p[m];
    if m > 0 {
      assert Flatten(r) == Flatten(r[..m - 1]) + p[m - 1];
      var b := |parsed| - |p[m]|;
      assert CutAt(p, m - 1, gap);
      assert parsed[b - 1] == Last(p[m - 1]) && parsed[b] == p[m][0];
    }
  }

  /** Inside the last part every gap is below the threshold. */
  lemma LastPartInner(parsed: seq<Snap>, gap: int, q: seq<seq<Snap>>)
    requires IsSegmentation(parsed, gap, q) && q != []
    ensures |q[|q| - 1]| <= |parsed|
    ensures forall b :: |parsed| - |q[|q| - 1]| < b < |parsed| ==> parsed[b].ts - parsed[b - 1].ts < gap
  {
    var lq := q[|q| - 1];
    assert parsed == Flatten(q[..|q| - 1]) + lq;
    forall b | |parsed| - |lq| < b < |parsed|
      ensures parsed[b].ts - parsed[b - 1].ts < gap
    {
      var i := b - 1 - (|parsed| - |lq|);
      assert CloseAt(lq, i, gap);
      assert parsed[b - 1] == lq[i] && parsed[b] == lq[i + 1];
    }
  }

  lemma EmptyFlatten(p: seq<seq<Snap>>)
    requires NonEmptyParts(p)
    ensures Flatten(p) == [] <==> p == []
  {
  }

  /** Main result: there is exactly one segmentation, and the loop finds it. */
  lemma {:induction false} SegmentationUnique(parsed: seq<Snap>, gap: int, parts: seq<seq<Snap>>)
    ensures IsSegmentation(parsed, gap, parts) <==> parts == Segments(parsed, gap)
  {
    SegmentsIsSegmentation(parsed, gap);
    if IsSegmentation(parsed, gap, parts) {
      SegmentationsAgree(parsed, gap, parts, Segments(parsed, gap));
    }
  }

  lemma LastPartsAgree(parsed: seq<Snap>, gap: int, p: seq<seq<Snap>>, q: seq<seq<Snap>>)
    requires IsSegmentation(parsed, gap, p) && IsSegmentation(parsed, gap, q)
    requires parsed != [] && p != [] && q != []
    ensures |p[|p| - 1]| == |q[|q| - 1]| <= |parsed|
  {
    LastPartCut(parsed, gap, p);
    LastPartCut(parsed, gap, q);
    LastPartInner(parsed, gap, p);
    LastPartInner(parsed, gap, q);
    hide IsSegmentation;
  }

  lemma EmptySegmentation(parsed: seq<Snap>, gap: int, p: seq<seq<Snap>>)
    requires IsSegmentation(parsed, gap, p)
    ensures parsed == [] <==> p == []
  {
    EmptyFlatten(p);
  }

  lemma {:induction false} SegmentationsAgree(parsed: seq<Snap>, gap: int, p: seq<seq<Snap>>, q: seq<seq<Snap>>)
    requires IsSegmentation(parsed, gap, p) && IsSegmentation(parsed, gap, q)
    ensures p == q
    decreases |p|
  {
    hide *;
    EmptySegmentation(parsed, gap, p);
    EmptySegmentation(parsed, gap, q);
    if parsed != [] {
      LastPartsAgree(parsed, gap, p, q);
      SegmentationFront(parsed, gap, p);
      SegmentationFront(parsed, gap, q);
      SegmentationsAgree(parsed[..|parsed| - |p[|p| - 1]|], gap, p[..|p| - 1], q[..|q| - 1]);
      assert p == p[..|p| - 1] + [p[|p| - 1]] && q == q[..|q| - 1] + [q[|q| - 1]];
    }
  }

  lemma SegmentationFront(parsed: seq<Snap>, gap: int, p: seq<seq<Snap>>)
    requires IsSegmentation(parsed, gap, p) && p != []
    ensures |p[|p| - 1]| <= |parsed| && p[|p| - 1] == parsed[|parsed| - |p[|p| - 1]|..]
    ensures IsSegmentation(parsed[..|parsed| - |p[|p| - 1]|], gap, p[..|p| - 1])
  {
    var front := p[..|p| - 1];
    assert parsed == Flatten(front) + p[|p| - 1];
    hide Flatten;
    forall k | 0 <= k < |front| - 1
      ensures CutAt(front, k, gap)
    {
      assert CutAt(p, k, gap);
    }
  }

  // ---------------------------------------------------------------------------
  // Sessions and the analysis
  // ---------------------------------------------------------------------------

  function MakeSession(snaps: seq<Snap>, index: nat): Session
    requires snaps != []
  {
    var first, last := snaps[0], Last(snaps);
    Session(index, first.ts, last.ts, Max(0, last.ts - first.ts), |snaps|,
            first.words, last.words, last.words - first.words)
  }

  function SessionsOf(parts: seq<seq<Snap>>): (ss: seq<Session>)
    requires NonEmptyParts(parts)
    ensures |ss| == |parts| && forall k :: 0 <= k < |parts| ==> ss[k] == MakeSession(parts[k], k)
  {
    seq(|parts|, k requires 0 <= k < |parts| => MakeSession(parts[k], k))
  }

  function Gap(earlier: Session, later: Session): int {
    Max(0, later.startedAt - earlier.endedAt)
  }

  function GapsOf(ss: seq<Session>): (gs: seq<int>)
    ensures |gs| == if ss == [] then 0 else |ss| - 1
    ensures forall j {:trigger gs[j]} :: 0 <= j < |gs| ==> gs[j] == Gap(ss[j], ss[j + 1])
  {
    if ss == [] then [] else seq(|ss| - 1, j requires 0 <= j < |ss| - 1 => Gap(ss[j], ss[j + 1]))
  }

  function Durations(ss: seq<Session>): (ds: seq<int>)
    ensures |ds| == |ss| && forall k :: 0 <= k < |ss| ==> ds[k] == ss[k].duration
  {
    seq(|ss|, k requires 0 <= k < |ss| => ss[k].duration)
  }

  /** The scan for a session that contains `ts`, with its default of 0. */
  function FindSessionIndex(ss: seq<Session>, ts: int): nat {
    if ss == [] then 0
    else if ss[0].startedAt <= ts <= ss[0].endedAt then ss[0].index
    else FindSessionIndex(ss[1..], ts)
  }

  predicate IsPaste(delta: int, final: nat, t: Thresholds)
    requires final > 0
  {
    delta >= t.pasteMinWords && delta as real / final as real >= t.pasteMinFraction
  }

  function PasteAt(prev: Snap, cur: Snap, ss: seq<Session>): PasteEvent {
    PasteEvent(cur.number, cur.ts, prev.words, cur.words, cur.words - prev.words, FindSessionIndex(ss, cur.ts))
  }

  /** The paste events among the first `n` snapshots. */
  function PastesUpTo(parsed: seq<Snap>, n: nat, final: nat, ss: seq<Session>, t: Thresholds): seq<PasteEvent>
    requires n <= |parsed| && final > 0
  {
    if n <= 1 then []
    else
      var event := PasteAt(parsed[n - 2], parsed[n - 1], ss);
      PastesUpTo(parsed, n - 1, final, ss, t) + if IsPaste(event.wordsAdded, final, t) then [event] else []
  }

  predicate IsRapid(s: Session, final: nat, t: Thresholds) {
    s.duration <= t.rapidMaxDuration && final != 0 && s.wordsAdded as real / final as real >= t.rapidFraction
  }

  function RapidOf(s: Session, final: nat): RapidEvent
    requires final != 0
  {
    RapidEvent(s.index, s.duration, s.wordsStart, s.wordsEnd, s.wordsAdded as real / final as real)
  }

  /** The rapid-completion events among the first `n` sessions. */
  function RapidsUpTo(ss: seq<Session>, n: nat, final: nat, t: Thresholds): seq<RapidEvent>
    requires n <= |ss|
  {
    if n == 0 then []
    else RapidsUpTo(ss, n - 1, final, t) + if IsRapid(ss[n - 1], final, t) then [RapidOf(ss[n - 1], final)] else []
  }

  function AnalyzeParsed(parsed: seq<Snap>, t: Thresholds): Analysis {
    if parsed == [] then NO_DATA
    else
      var ss := SessionsOf(Segments(parsed, t.gap));
      var final := Last(parsed).words;
      Analysis(
        true, ss, GapsOf(ss), Sum(Durations(ss)), Max(0, ss[|ss| - 1].endedAt - ss[0].startedAt),
        if final > 0 then PastesUpTo(parsed, |parsed|, final, ss, t) else [],
        RapidsUpTo(ss, |ss|, final, t))
  }

  function Analyze(raw: seq<RawSnapshot>, t: Thresholds): Analysis {
    AnalyzeParsed(Parsed(raw), t)
  }

  lemma NothingParsed()
    ensures Parsed([]) == []
  {
    assert ParseAll([]) == [];
  }

  /** The analysis of the parsed snapshots, when there are any. */
  method AnalyzeSnapshots(parsed: seq<Snap>, t: Thresholds) returns (a: Analysis)
    requires parsed != []
    ensures a == AnalyzeParsed(parsed, t)
  {
    hide Segments, Sum, PastesUpTo, RapidsUpTo, Durations, GapsOf;
    var sessions := SplitSessions(parsed, t.gap);
    var final := Last(parsed).words;
    var active := ActiveTime(sessions);
    assert sessions != [];
    hide SessionsOf;
    var elapsed := Max(0, sessions[|sessions| - 1].endedAt - sessions[0].startedAt);
    var pastes := [];
    if final > 0 {
      pastes := DetectPastes(parsed, sessions, final, t);
    }
    var rapids := DetectRapids(sessions, final, t);
    a := Analysis(true, sessions, GapsOf(sessions), active, elapsed, pastes, rapids);
  }

  /** The segmentation loop. */
  method SplitSessions(parsed: seq<Snap>, gap: int) returns (sessions: seq<Session>)
    requires parsed != []
    ensures sessions == SessionsOf(Segments(parsed, gap))
  {
    sessions := [];
    var current := [parsed[0]];
    assert parsed[..1] == current;
    LoopStart(parsed[0], gap);
    hide LoopState, MakeSession, SessionsOf, Segments;
    for i := 1 to |parsed|
      invariant current != [] && LoopState(parsed[..i], gap, sessions, current)
    {
      LoopStep(parsed[..i], gap, parsed[i], sessions, current);
      assert parsed[..i + 1] == parsed[..i] + [parsed[i]];
      var g := parsed[i].ts - parsed[i - 1].ts;
      if g >= gap {
        sessions := sessions + [MakeSession(current, |sessions|)];
        current := [parsed[i]];
      } else {
        current := current + [parsed[i]];
      }
    }
    assert parsed[..|parsed|] == parsed;
    LoopEnd(parsed, gap, sessions, current);
    sessions := sessions + [MakeSession(current, |sessions|)];
  }

  /** The closed sessions and the part still being filled are those of the snapshots seen so far. */
  ghost predicate LoopState(parsed: seq<Snap>, gap: int, sessions: seq<Session>, current: seq<Snap>) {
    exists done :: NonEmptyParts(done) && Segments(parsed, gap) == done + [current] && sessions == SessionsOf(done)
  }

  lemma LoopStart(x: Snap, gap: int)
    ensures LoopState([x], gap, [], [x])
  {
    assert Segments([x], gap) == [] + [[x]] && SessionsOf([]) == [];
  }

  lemma LoopStep(parsed: seq<Snap>, gap: int, x: Snap, sessions: seq<Session>, current: seq<Snap>)
    requires parsed != [] && current != [] && LoopState(parsed, gap, sessions, current)
    ensures if x.ts - Last(parsed).ts >= gap
            then LoopState(parsed + [x], gap, sessions + [MakeSession(current, |sessions|)], [x])
            else LoopState(parsed + [x], gap, sessions, current + [x])
  {
    var done :| NonEmptyParts(done) && Segments(parsed, gap) == done + [current] && sessions == SessionsOf(done);
    SegmentsStep(parsed, gap, done, current, x);
    SessionsSnoc(done, current);
    hide Segments, SessionsOf, MakeSession;
    assert NonEmptyParts(done + [current]);
  }

  lemma LoopEnd(parsed: seq<Snap>, gap: int, sessions: seq<Session>, current: seq<Snap>)
    requires current != [] && LoopState(parsed, gap, sessions, current)
    ensures sessions + [MakeSession(current, |sessions|)] == SessionsOf(Segments(parsed, gap))
  {
    var done :| NonEmptyParts(done) && Segments(parsed, gap) == done + [current] && sessions == SessionsOf(done);
    SessionsSnoc(done, current);
  }

  lemma SessionsSnoc(parts: seq<seq<Snap>>, part: seq<Snap>)
    requires NonEmptyParts(parts) && part != []
    ensures SessionsOf(parts + [part]) == SessionsOf(parts) + [MakeSession(part, |parts|)]
  {
    hide MakeSession;
  }

  method ActiveTime(sessions: seq<Session>) returns (active: int)
    ensures active == Sum(Durations(sessions))
  {
    active := 0;
    for k := 0 to |sessions|
      invariant active == Sum(Durations(sessions[..k]))
    {
      assert Durations(sessions[..k + 1])[..k] == Durations(sessions[..k]);
      active := active + sessions[k].duration;
    }
    assert sessions[..|sessions|] == sessions;
  }

  method DetectPastes(parsed: seq<Snap>, sessions: seq<Session>, final: nat, t: Thresholds)
    returns (pastes: seq<PasteEvent>)
    requires parsed != [] && final > 0
    ensures pastes == PastesUpTo(parsed, |parsed|, final, sessions, t)
  {
    pastes := [];
    for i := 1 to |parsed|
      invariant pastes == PastesUpTo(parsed, i, final, sessions, t)
    {
      var delta := parsed[i].words - parsed[i - 1].words;
      if delta >= t.pasteMinWords && !(delta as real / final as real < t.pasteMinFraction) {
        pastes := pastes + [PasteAt(parsed[i - 1], parsed[i], sessions)];
      }
    }
  }

  method DetectRapids(sessions: seq<Session>, final: nat, t: Thresholds) returns (rapids: seq<RapidEvent>)
    ensures rapids == RapidsUpTo(sessions, |sessions|, final, t)
  {
    rapids := [];
    for k := 0 to |sessions|
      invariant rapids == RapidsUpTo(sessions, k, final, t)
    {
      if sessions[k].duration <= t.rapidMaxDuration && final != 0 {
        if sessions[k].wordsAdded as real / final as real >= t.rapidFraction {
          rapids := rapids + [RapidOf(sessions[k], final)];
        }
      }
    }
  }

  // ---------------------------------------------------------------------------
  // Time accounting
  // ---------------------------------------------------------------------------

  lemma FlattenSplit(parts: seq<seq<Snap>>, k: nat)
    requires k < |parts|
    ensures |Flatten(parts[..k])| + |parts[k]| <= |Flatten(parts)|
    ensures Flatten(parts)[|Flatten(parts[..k])|..][..|parts[k]|] == parts[k]
    decreases |parts|
  {
    var m := |parts| - 1;
    if k == m {
      assert parts[..m] == parts[..k];
    } else {
      FlattenSplit(parts[..m], k);
      assert parts[..m][..k] == parts[..k];
    }
  }

  /** Where two snapshots of the parts stand in the whole sequence. */
  lemma Positions(parts: seq<seq<Snap>>, j: nat, k: nat, a: nat, b: nat) returns (p: nat, q: nat)
    requires j <= k < |parts| && a < |parts[j]| && b < |parts[k]| && (j < k || a <= b)
    ensures p <= q < |Flatten(parts)| && Flatten(parts)[p] == parts[j][a] && Flatten(parts)[q] == parts[k][b]
  {
    var f := Flatten(parts);
    FlattenSplit(parts, j);
    FlattenSplit(parts, k);
    var oj, ok := |Flatten(parts[..j])|, |Flatten(parts[..k])|;
    if j < k {
      FlattenSplit(parts[..k], j);
      assert parts[..k][..j] == parts[..j];
    }
    hide Flatten;
    p, q := oj + a, ok + b;
    assert f[oj..][..|parts[j]|][a] == f[p] && f[ok..][..|parts[k]|][b] == f[q];
  }

  /** Snapshots of a later part are never earlier. */
  lemma PartsOrdered(parts: seq<seq<Snap>>, j: nat, k: nat, a: nat, b: nat)
    requires Sorted(Flatten(parts)) && j <= k < |parts| && a < |parts[j]| && b < |parts[k]|
    requires j < k || a <= b
    ensures parts[j][a].ts <= parts[k][b].ts
  {
    hide Flatten;
    var p, q := Positions(parts, j, k, a, b);
  }

  predicate TimeOrdered(ss: seq<Session>) {
    && (forall k :: 0 <= k < |ss| ==>
          ss[k].startedAt <= ss[k].endedAt && ss[k].duration == ss[k].endedAt - ss[k].startedAt)
    && (forall j, k :: 0 <= j < k < |ss| ==> ss[j].endedAt <= ss[k].startedAt)
  }

  lemma SessionsTimeOrdered(parsed: seq<Snap>, gap: int)
    requires Sorted(parsed)
    ensures TimeOrdered(SessionsOf(Segments(parsed, gap)))
  {
    var parts: seq<seq<Snap>> := Segments(parsed, gap);
    SegmentsIsSegmentation(parsed, gap);
    hide Segments, Flatten;
    forall k: nat | k < |parts|
      ensures parts[k][0].ts <= Last(parts[k]).ts
    {
      PartsOrdered(parts, k, k, 0, |parts[k]| - 1);
    }
    forall j: nat, k: nat | j < k < |parts|
      ensures Last(parts[j]).ts <= parts[k][0].ts
    {
      PartsOrdered(parts, j, k, |parts[j]| - 1, 0);
    }
  }

  lemma DurationsFront(ss: seq<Session>)
    requires |ss| > 1
    ensures var m := |ss| - 1; Durations(ss) == Durations(ss[..m]) + [ss[m].duration]
  {
  }

  lemma GapsFront(ss: seq<Session>)
    requires |ss| > 1
    ensures var m := |ss| - 1; GapsOf(ss) == GapsOf(ss[..m]) + [Max(0, ss[m].startedAt - ss[m - 1].endedAt)]
  {
    hide Max;
  }

  lemma SumSnoc(xs: seq<int>, x: int)
    ensures Sum(xs + [x]) == Sum(xs) + x
  {
    assert (xs + [x])[..|xs|] == xs;
  }

  lemma OneSession(s: Session)
    ensures Sum(Durations([s])) == s.duration && Sum(GapsOf([s])) == 0
  {
    assert Durations([s]) == [s.duration] && [s.duration][..0] == [];
  }

  lemma TimeOrderedFront(ss: seq<Session>)
    requires TimeOrdered(ss) && ss != []
    ensures var m := |ss| - 1;
            && TimeOrdered(ss[..m]) && ss[m].duration == ss[m].endedAt - ss[m].startedAt
            && (m > 0 ==> ss[m - 1].endedAt <= ss[m].startedAt)
  {
  }

  lemma DurationSum(ss: seq<Session>)
    requires |ss| > 1
    ensures var m := |ss| - 1; Sum(Durations(ss)) == Sum(Durations(ss[..m])) + ss[m].duration
  {
    DurationsFront(ss);
    SumSnoc(Durations(ss[..|ss| - 1]), ss[|ss| - 1].duration);
  }

  lemma GapSum(ss: seq<Session>)
    requires |ss| > 1
    ensures var m := |ss| - 1;
            Sum(GapsOf(ss)) == Sum(GapsOf(ss[..m])) + Max(0, ss[m].startedAt - ss[m - 1].endedAt)
  {
    GapsFront(ss);
    SumSnoc(GapsOf(ss[..|ss| - 1]), Max(0, ss[|ss| - 1].startedAt - ss[|ss| - 2].endedAt));
  }

  lemma {:induction false} TimeTelescopes(ss: seq<Session>)
    requires ss != [] && TimeOrdered(ss)
    ensures Sum(Durations(ss)) + Sum(GapsOf(ss)) == ss[|ss| - 1].endedAt - ss[0].startedAt
  {
    var m := |ss| - 1;
    TimeOrderedFront(ss);
    hide Sum, GapsOf, Durations, TimeOrdered;
    if m > 0 {
      TimeTelescopes(ss[..m]);
      DurationSum(ss);
      GapSum(ss);
    } else {
      assert ss == [ss[0]];
      OneSession(ss[0]);
    }
  }

  function Counts(ss: seq<Session>): (cs: seq<int>)
    ensures |cs| == |ss| && forall k :: 0 <= k < |ss| ==> cs[k] == ss[k].count
  {
    seq(|ss|, k requires 0 <= k < |ss| => ss[k].count)
  }

  lemma {:induction false} CountsAddUp(parts: seq<seq<Snap>>)
    requires NonEmptyParts(parts)
    ensures Sum(Counts(SessionsOf(parts))) == |Flatten(parts)|
  {
    if parts != [] {
      var m := |parts| - 1;
      CountsAddUp(parts[..m]);
      assert Counts(SessionsOf(parts))[..m] == Counts(SessionsOf(parts[..m]));
    }
  }

  /** Every parsed snapshot is counted in one session, active time plus the inter-session
      gaps is exactly the elapsed time, and no `max(0, ...)` took effect. */
  predicate Accounted(a: Analysis, parsed: seq<Snap>, gap: int) {
    && a.hasProcessData == (parsed != [])
    && Sum(Counts(a.sessions)) == |parsed|
    && a.active + Sum(a.gaps) == a.elapsed
    && a.elapsed == (if parsed == [] then 0 else Last(parsed).ts - parsed[0].ts)
    && TimeOrdered(a.sessions)
    && a.gaps == GapsOf(a.sessions) && GapsAtLeast(a.sessions, gap)
  }

  /** Main result: the analysis of any snapshots accounts for all of them and all their time. */
  lemma AnalysisAccounts(parsed: seq<Snap>, t: Thresholds)
    requires Sorted(parsed)
    ensures Accounted(AnalyzeParsed(parsed, t), parsed, t.gap)
  {
    hide Accounted, AnalyzeParsed;
    if parsed == [] {
      NoDataAccounted(t);
    } else {
      SessionsAccounted(parsed, t);
    }
  }

  lemma NoDataAccounted(t: Thresholds)
    ensures Accounted(AnalyzeParsed([], t), [], t.gap)
  {
  }

  lemma SessionsAccounted(parsed: seq<Snap>, t: Thresholds)
    requires Sorted(parsed) && parsed != []
    ensures Accounted(AnalyzeParsed(parsed, t), parsed, t.gap)
  {
    hide *;
    var a, ss := AnalyzeParsed(parsed, t), SessionsOf(Segments(parsed, t.gap));
    AnalyzeFields(parsed, t);
    SegmentsAccount(parsed, t.gap);
    FirstBeforeLast(parsed);
    AccountedBy(a, parsed, t.gap);
  }

  lemma FirstBeforeLast(parsed: seq<Snap>)
    requires Sorted(parsed) && parsed != []
    ensures parsed[0].ts <= Last(parsed).ts
  {
  }

  lemma AccountedBy(a: Analysis, parsed: seq<Snap>, gap: int)
    requires parsed != [] && a.sessions != [] && parsed[0].ts <= Last(parsed).ts
    requires a.hasProcessData && a.gaps == GapsOf(a.sessions) && a.active == Sum(Durations(a.sessions))
    requires a.elapsed == Max(0, a.sessions[|a.sessions| - 1].endedAt - a.sessions[0].startedAt)
    requires Sum(Counts(a.sessions)) == |parsed| && TimeOrdered(a.sessions) && GapsAtLeast(a.sessions, gap)
    requires Sum(Durations(a.sessions)) + Sum(GapsOf(a.sessions)) ==
             a.sessions[|a.sessions| - 1].endedAt - a.sessions[0].startedAt
    requires a.sessions[0].startedAt == parsed[0].ts && a.sessions[|a.sessions| - 1].endedAt == Last(parsed).ts
    ensures Accounted(a, parsed, gap)
  {
    hide Sum, Counts, Durations, GapsOf, TimeOrdered, GapsAtLeast;
  }

  lemma AnalyzeFields(parsed: seq<Snap>, t: Thresholds)
    requires parsed != []
    ensures var a, ss := AnalyzeParsed(parsed, t), SessionsOf(Segments(parsed, t.gap));
      && a.hasProcessData && a.sessions == ss && a.gaps == GapsOf(ss) && a.active == Sum(Durations(ss))
      && a.elapsed == Max(0, ss[|ss| - 1].endedAt - ss[0].startedAt)
  {
    hide Segments, PastesUpTo, RapidsUpTo, MakeSession, Sum;
  }

  lemma SegmentsAccount(parsed: seq<Snap>, gap: int)
    requires parsed != [] && Sorted(parsed)
    ensures var ss := SessionsOf(Segments(parsed, gap));
      && Sum(Counts(ss)) == |parsed|
      && TimeOrdered(ss)
      && Sum(Durations(ss)) + Sum(GapsOf(ss)) == ss[|ss| - 1].endedAt - ss[0].startedAt
      && ss[0].startedAt == parsed[0].ts && ss[|ss| - 1].endedAt == Last(parsed).ts
      && GapsAtLeast(ss, gap)
  {
    hide Segments, Sorted, Sum, Flatten, TimeOrdered;
    var parts: seq<seq<Snap>> := Segments(parsed, gap);
    SegmentsIsSegmentation(parsed, gap);
    SessionsTimeOrdered(parsed, gap);
    TimeTelescopes(SessionsOf(parts));
    CountsAddUp(parts);
    SegmentationGaps(parsed, gap, parts);
    FirstOfFlatten(parts);
  }

  lemma FirstOfFlatten(parts: seq<seq<Snap>>)
    requires NonEmptyParts(parts) && parts != []
    ensures Flatten(parts) != [] && Flatten(parts)[0] == parts[0][0]
  {
    FlattenSplit(parts, 0);
    assert parts[..0] == [];
    assert Flatten(parts)[0..][..|parts[0]|][0] == Flatten(parts)[0];
  }

  /** Every inter-session gap is a real time difference that reaches the threshold. */
  predicate GapsAtLeast(ss: seq<Session>, gap: int) {
    forall k {:trigger GapsOf(ss)[k]} :: 0 <= k < |GapsOf(ss)| ==>
      GapsOf(ss)[k] == ss[k + 1].startedAt - ss[k].endedAt >= gap
  }

  lemma SegmentationGaps(parsed: seq<Snap>, gap: int, parts: seq<seq<Snap>>)
    requires IsSegmentation(parsed, gap, parts) && TimeOrdered(SessionsOf(parts))
    ensures GapsAtLeast(SessionsOf(parts), gap)
  {
    var ss := SessionsOf(parts);
    forall k | 0 <= k < |GapsOf(ss)|
      ensures GapsOf(ss)[k] == ss[k + 1].startedAt - ss[k].endedAt >= gap
    {
      assert CutAt(parts, k, gap);
      assert ss[k].endedAt <= ss[k + 1].startedAt;
    }
  }

  // ---------------------------------------------------------------------------
  // Session intervals and the session of an event
  // ---------------------------------------------------------------------------

  predicate Disjoint(ss: seq<Session>) {
    forall j, k :: 0 <= j < k < |ss| ==> ss[j].endedAt < ss[k].startedAt
  }

  lemma SessionsDisjoint(parsed: seq<Snap>, gap: int)
    requires Sorted(parsed) && gap > 0
    ensures Disjoint(SessionsOf(Segments(parsed, gap)))
  {
    var parts: seq<seq<Snap>> := Segments(parsed, gap);
    SegmentsIsSegmentation(parsed, gap);
    hide Segments, Flatten;
    forall j, k | 0 <= j < k < |parts|
      ensures Last(parts[j]).ts < parts[k][0].ts
    {
      PartsOrdered(parts, j, k - 1, |parts[j]| - 1, |parts[k - 1]| - 1);
      assert CutAt(parts, k - 1, gap);
    }
  }

  lemma {:induction false} FindInDisjoint(ss: seq<Session>, k: nat, ts: int)
    requires k < |ss| && ss[k].startedAt <= ts <= ss[k].endedAt
    requires forall j :: 0 <= j < k ==> ss[j].endedAt < ss[k].startedAt
    ensures FindSessionIndex(ss, ts) == ss[k].index
  {
    if k > 0 {
      FindInDisjoint(ss[1..], k - 1, ts);
    }
  }

  /** Main result: with a positive threshold the session intervals are strictly disjoint, and the
      scan by time returns the session whose part contains the snapshot. */
  lemma FindReturnsOwnSession(parsed: seq<Snap>, gap: int, k: nat, i: nat)
    requires Sorted(parsed) && gap > 0
    requires k < |Segments(parsed, gap)| && i < |Segments(parsed, gap)[k]|
    ensures var ss := SessionsOf(Segments(parsed, gap));
            Disjoint(ss) && FindSessionIndex(ss, Segments(parsed, gap)[k][i].ts) == k
  {
    var parts := Segments(parsed, gap);
    var ss := SessionsOf(parts);
    SegmentsIsSegmentation(parsed, gap);
    SessionsDisjoint(parsed, gap);
    hide Segments, Flatten;
    SessionContains(parts, k, i);
    hide Sorted;
    FindInDisjoint(ss, k, parts[k][i].ts);
  }

  lemma SessionContains(parts: seq<seq<Snap>>, k: nat, i: nat)
    requires Sorted(Flatten(parts)) && NonEmptyParts(parts) && k < |parts| && i < |parts[k]|
    ensures SessionsOf(parts)[k].startedAt <= parts[k][i].ts <= SessionsOf(parts)[k].endedAt
  {
    hide Sorted, Flatten;
    PartsOrdered(parts, k, k, 0, i);
    PartsOrdered(parts, k, k, i, |parts[k]| - 1);
  }

  /** Without a positive threshold the scan can name the wrong session. */
  lemma FindNeedsPositiveGap(gap: int)
    requires gap <= 0
    ensures var parsed := [Snap(1, 0, 0), Snap(2, 0, 0)];
            var parts := Segments(parsed, gap);
            Sorted(parsed) && |parts| == 2 && parts[1] == [parsed[1]]
            && FindSessionIndex(SessionsOf(parts), parts[1][0].ts) == 0
  {
    var parsed := [Snap(1, 0, 0), Snap(2, 0, 0)];
    assert parsed[..1] == [parsed[0]];
    assert Segments(parsed, gap) == [[parsed[0]]] + [[parsed[1]]];
  }

  lemma {:induction false} InSomePart(parts: seq<seq<Snap>>, x: Snap) returns (k: nat, i: nat)
    requires x in Flatten(parts)
    ensures k < |parts| && i < |parts[k]| && parts[k][i] == x
  {
    var m := |parts| - 1;
    if x in parts[m] {
      i :| 0 <= i < |parts[m]| && parts[m][i] == x;
      k := m;
    } else {
      k, i := InSomePart(parts[..m], x);
    }
  }

  lemma {:induction false} PasteOrigin(parsed: seq<Snap>, n: nat, final: nat, ss: seq<Session>, t: Thresholds,
                                       e: PasteEvent)
    returns (i: nat)
    requires n <= |parsed| && final > 0 && e in PastesUpTo(parsed, n, final, ss, t)
    ensures 0 < i < n && e == PasteAt(parsed[i - 1], parsed[i], ss) && IsPaste(e.wordsAdded, final, t)
  {
    if e in PastesUpTo(parsed, n - 1, final, ss, t) {
      i := PasteOrigin(parsed, n - 1, final, ss, t, e);
    } else {
      i := n - 1;
    }
  }

  lemma {:induction false} PasteListed(parsed: seq<Snap>, n: nat, final: nat, ss: seq<Session>, t: Thresholds, i: nat)
    requires 0 < i < n <= |parsed| && final > 0 && IsPaste(parsed[i].words - parsed[i - 1].words, final, t)
    ensures PasteAt(parsed[i - 1], parsed[i], ss) in PastesUpTo(parsed, n, final, ss, t)
  {
    if i < n - 1 {
      PasteListed(parsed, n - 1, final, ss, t, i);
    }
  }

  /** Main result: the reported pastes are exactly the snapshots that add enough words over their
      predecessor, both absolutely and as a share of the final count. */
  lemma PastesExact(parsed: seq<Snap>, t: Thresholds, e: PasteEvent)
    requires parsed != [] && Last(parsed).words > 0
    ensures e in AnalyzeParsed(parsed, t).pastes <==>
            exists i :: 0 < i < |parsed| && IsPaste(parsed[i].words - parsed[i - 1].words, Last(parsed).words, t)
                        && e == PasteAt(parsed[i - 1], parsed[i], AnalyzeParsed(parsed, t).sessions)
  {
    hide IsPaste, Segments;
    var final := Last(parsed).words;
    var ss := AnalyzeParsed(parsed, t).sessions;
    if e in AnalyzeParsed(parsed, t).pastes {
      var i := PasteOrigin(parsed, |parsed|, final, ss, t, e);
    }
    forall i | 0 < i < |parsed| && IsPaste(parsed[i].words - parsed[i - 1].words, final, t)
      ensures PasteAt(parsed[i - 1], parsed[i], ss) in AnalyzeParsed(parsed, t).pastes
    {
      PasteListed(parsed, |parsed|, final, ss, t, i);
    }
  }

  /** Main result: the reported rapid completions are exactly the short sessions that add a large
      enough share of the final count. */
  lemma {:induction false} RapidsExact(ss: seq<Session>, n: nat, final: nat, t: Thresholds, e: RapidEvent)
    requires n <= |ss|
    ensures e in RapidsUpTo(ss, n, final, t) <==>
            exists k :: 0 <= k < n && IsRapid(ss[k], final, t) && e == RapidOf(ss[k], final)
  {
    if n > 0 {
      RapidsExact(ss, n - 1, final, t, e);
    }
  }

  /** Main result: every paste event names the one session whose interval contains it, so the
      default of the scan is never used. */
  lemma PasteSessionsAreReal(parsed: seq<Snap>, t: Thresholds, e: PasteEvent)
    requires Sorted(parsed) && t.gap > 0 && e in AnalyzeParsed(parsed, t).pastes
    ensures var ss := AnalyzeParsed(parsed, t).sessions;
            e.sessionIndex < |ss| && forall k :: 0 <= k < |ss| ==>
              (ss[k].startedAt <= e.occurredAt <= ss[k].endedAt <==> k == e.sessionIndex)
  {
    var parts := Segments(parsed, t.gap);
    var ss := SessionsOf(parts);
    SegmentsIsSegmentation(parsed, t.gap);
    var i := PasteOrigin(parsed, |parsed|, Last(parsed).words, ss, t, e);
    var k, j := InSomePart(parts, parsed[i]);
    FindReturnsOwnSession(parsed, t.gap, k, j);
    hide Segments, Flatten, Sorted, PastesUpTo, IsPaste, IsSegmentation;
    SessionContains(parts, k, j);
    OnlyOneContains(ss, k, e.occurredAt);
  }

  lemma OnlyOneContains(ss: seq<Session>, k: nat, ts: int)
    requires Disjoint(ss) && k < |ss| && ss[k].startedAt <= ts <= ss[k].endedAt
    ensures forall j :: 0 <= j < |ss| && ss[j].startedAt <= ts <= ss[j].endedAt ==> j == k
  {
  }

  // ---------------------------------------------------------------------------
  // How many events there can be
  // ---------------------------------------------------------------------------

  predicate Growing(parsed: seq<Snap>) {
    forall i, j :: 0 <= i <= j < |parsed| ==> parsed[i].words <= parsed[j].words
  }

  function PasteWords(es: seq<PasteEvent>): int {
    if es == [] then 0 else PasteWords(es[..|es| - 1]) + es[|es| - 1].wordsAdded
  }

  /** `n` shares of at least `fraction` of `final` that add up to no more than `final`. */
  lemma SharesBound(n: nat, fraction: real, final: nat, total: int)
    requires final > 0 && Times(n, Unit(fraction, final)) <= total as real && total <= final
    ensures n as real * fraction <= 1.0
  {
    TimesIsProduct(n, Unit(fraction, final));
    var z, f := n as real * fraction, final as real;
    Associate(n as real, fraction, f);
    assert z * f == Times(n, Unit(fraction, final)) <= total as real <= f;
    AtMostOnce(z, f);
  }

  /** The number of words that makes up `fraction` of `final`. */
  function Unit(fraction: real, final: nat): real {
    fraction * final as real
  }

  lemma Associate(a: real, b: real, c: real)
    ensures a * (b * c) == (a * b) * c
  {
  }

  lemma AtMostOnce(x: real, f: real)
    requires f > 0.0 && x * f <= f
    ensures x <= 1.0
  {
    assert (x - 1.0) * f <= 0.0;
  }

  /** `n` shares of `unit`. */
  function Times(n: nat, unit: real): real {
    if n == 0 then 0.0 else Times(n - 1, unit) + unit
  }

  lemma {:induction false} TimesIsProduct(n: nat, unit: real)
    ensures Times(n, unit) == n as real * unit
  {
    if n > 0 {
      TimesIsProduct(n - 1, unit);
      assert (n - 1) as real * unit + unit == n as real * unit;
    }
  }

  lemma ShareOf(added: int, final: nat, fraction: real)
    requires final > 0 && added as real / final as real >= fraction
    ensures added as real >= fraction * final as real
  {
    assert (added as real / final as real) * final as real == added as real;
  }

  lemma PasteShare(delta: int, final: nat, t: Thresholds)
    requires final > 0 && IsPaste(delta, final, t)
    ensures delta as real >= Unit(t.pasteMinFraction, final)
  {
    ShareOf(delta, final, t.pasteMinFraction);
  }

  lemma RapidShare(s: Session, final: nat, t: Thresholds)
    requires IsRapid(s, final, t)
    ensures final > 0 && s.wordsAdded as real >= Unit(t.rapidFraction, final)
  {
    ShareOf(s.wordsAdded, final, t.rapidFraction);
  }

  lemma {:induction false} PastesAddUp(parsed: seq<Snap>, n: nat, final: nat, ss: seq<Session>, t: Thresholds)
    requires 0 < n <= |parsed| && final > 0 && Growing(parsed)
    ensures var es := PastesUpTo(parsed, n, final, ss, t);
            PasteWords(es) <= parsed[n - 1].words
            && Times(|es|, Unit(t.pasteMinFraction, final)) <= PasteWords(es) as real
  {
    if n > 1 {
      PastesAddUp(parsed, n - 1, final, ss, t);
      assert parsed[n - 2].words <= parsed[n - 1].words;
      hide IsPaste, Growing, FindSessionIndex, Unit;
      var before := PastesUpTo(parsed, n - 1, final, ss, t);
      var event := PasteAt(parsed[n - 2], parsed[n - 1], ss);
      if IsPaste(event.wordsAdded, final, t) {
        assert PastesUpTo(parsed, n, final, ss, t) == before + [event];
        assert (before + [event])[..|before|] == before;
        PasteShare(event.wordsAdded, final, t);
      } else {
        assert PastesUpTo(parsed, n, final, ss, t) == before + [] == before;
      }
    }
  }

  /** Main result: if the word count never drops, the pasted words add up to at most the final
      count and there are at most 1/fraction paste events: six with the defaults. */
  lemma PasteBound(parsed: seq<Snap>, t: Thresholds)
    requires Growing(parsed)
    ensures var es := AnalyzeParsed(parsed, t).pastes;
      && |es| as real * t.pasteMinFraction <= 1.0
      && (parsed != [] ==> PasteWords(es) <= Last(parsed).words)
      && (t.pasteMinFraction == DEFAULTS.pasteMinFraction ==> |es| <= 6)
  {
    hide Segments, SessionsOf, GapsOf, Durations, PastesUpTo, RapidsUpTo, Unit, Times;
    if parsed != [] && Last(parsed).words > 0 {
      var final := Last(parsed).words;
      var ss := SessionsOf(Segments(parsed, t.gap));
      var es := PastesUpTo(parsed, |parsed|, final, ss, t);
      PastesAddUp(parsed, |parsed|, final, ss, t);
      hide Growing;
      SharesBound(|es|, t.pasteMinFraction, final, PasteWords(es));
      AtMostSix(|es|);
    }
  }

  lemma AtMostSix(n: nat)
    ensures n as real * DEFAULTS.pasteMinFraction <= 1.0 ==> n <= 6
  {
  }

  function RapidWords(es: seq<RapidEvent>): int {
    if es == [] then 0 else RapidWords(es[..|es| - 1]) + (es[|es| - 1].wordsAtEnd - es[|es| - 1].wordsAtStart)
  }

  predicate GrowingSessions(ss: seq<Session>) {
    && (forall k :: 0 <= k < |ss| ==>
          ss[k].wordsStart <= ss[k].wordsEnd && ss[k].wordsAdded == ss[k].wordsEnd - ss[k].wordsStart)
    && (forall j, k :: 0 <= j < k < |ss| ==> ss[j].wordsEnd <= ss[k].wordsStart)
  }

  lemma {:induction false} RapidsAddUp(ss: seq<Session>, n: nat, final: nat, t: Thresholds)
    requires 0 < n <= |ss| && final > 0 && GrowingSessions(ss)
    ensures var es := RapidsUpTo(ss, n, final, t);
            RapidWords(es) <= ss[n - 1].wordsEnd
            && Times(|es|, Unit(t.rapidFraction, final)) <= RapidWords(es) as real
  {
    var before := RapidsUpTo(ss, n - 1, final, t);
    if n > 1 {
      RapidsAddUp(ss, n - 1, final, t);
      assert ss[n - 2].wordsEnd <= ss[n - 1].wordsStart;
    }
    assert ss[n - 1].wordsStart <= ss[n - 1].wordsEnd;
    hide IsRapid, Unit;
    if IsRapid(ss[n - 1], final, t) {
      var event := RapidOf(ss[n - 1], final);
      assert RapidsUpTo(ss, n, final, t) == before + [event];
      assert (before + [event])[..|before|] == before;
      RapidShare(ss[n - 1], final, t);
    } else {
      assert RapidsUpTo(ss, n, final, t) == before + [] == before;
    }
  }

  lemma PartsGrow(parts: seq<seq<Snap>>, j: nat, k: nat, a: nat, b: nat)
    requires Growing(Flatten(parts)) && j <= k < |parts| && a < |parts[j]| && b < |parts[k]|
    requires j < k || a <= b
    ensures parts[j][a].words <= parts[k][b].words
  {
    hide Flatten;
    var p, q := Positions(parts, j, k, a, b);
  }

  lemma SessionsGrow(parsed: seq<Snap>, gap: int)
    requires Growing(parsed)
    ensures GrowingSessions(SessionsOf(Segments(parsed, gap)))
  {
    var parts: seq<seq<Snap>> := Segments(parsed, gap);
    SegmentsIsSegmentation(parsed, gap);
    hide Segments, Flatten;
    forall k: nat | k < |parts|
      ensures parts[k][0].words <= Last(parts[k]).words
    {
      PartsGrow(parts, k, k, 0, |parts[k]| - 1);
    }
    forall j: nat, k: nat | j < k < |parts|
      ensures Last(parts[j]).words <= parts[k][0].words
    {
      PartsGrow(parts, j, k, |parts[j]| - 1, 0);
    }
  }

  /** Main result: if the word count never drops, there are at most 1/fraction rapid-completion
      events, so with a fraction above one half there is at most one. */
  lemma RapidBound(parsed: seq<Snap>, t: Thresholds)
    requires Growing(parsed)
    ensures var es := AnalyzeParsed(parsed, t).rapids;
      && |es| as real * t.rapidFraction <= 1.0
      && (t.rapidFraction > 0.5 ==> |es| <= 1)
  {
    hide Segments, SessionsOf, GapsOf, Durations, PastesUpTo, RapidsUpTo, Growing;
    hide GrowingSessions, Unit, Times, Sum, RapidWords;
    if parsed != [] {
      var ss := SessionsOf(Segments(parsed, t.gap));
      var final := Last(parsed).words;
      var es := RapidsUpTo(ss, |ss|, final, t);
      if final > 0 {
        SessionsGrow(parsed, t.gap);
        RapidsAddUp(ss, |ss|, final, t);
        SharesBound(|es|, t.rapidFraction, final, RapidWords(es));
      } else {
        NoRapidsWithoutWords(ss, |ss|, t);
      }
      if t.rapidFraction > 0.5 {
        AtMostOne(|es|, t.rapidFraction);
      }
    }
  }

  lemma AtMostOne(n: nat, fraction: real)
    requires n as real * fraction <= 1.0 && fraction > 0.5
    ensures n <= 1
  {
    assert n >= 2 ==> n as real * fraction >= 2.0 * fraction;
  }

  lemma {:induction false} NoRapidsWithoutWords(ss: seq<Session>, n: nat, t: Thresholds)
    requires n <= |ss|
    ensures RapidsUpTo(ss, n, 0, t) == []
  {
    if n > 0 {
      NoRapidsWithoutWords(ss, n - 1, t);
    }
  }
}
