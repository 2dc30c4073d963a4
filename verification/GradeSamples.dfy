/** Runs that break what a reader would expect of a grade.
 */
module GradeSamples {
  import opened Outcomes
  import Parsing
  import opened Grades
  import opened GradeEdits
  import opened GradeListing
  import opened GradeTotals

  // ---------------------------------------------------------------------------
  // Steps of a sample run
  // ---------------------------------------------------------------------------

  lemma Append(x: Setup, start: System, before: seq<Action>, s: System, a: Action)
    returns (actions: seq<Action>, s': System)
    requires IsRun(x, start, before, s) && Enabled(x, s, a)
    ensures IsRun(x, start, actions, s') && s' == Step(x, s, a)
  {
    RunSnoc(x, start, before, s, a);
    actions, s' := before + [a], Step(x, s, a);
  }

  function Scoring(i: nat, score: int): Edit {
    Override(i, Some(score), None)
  }

  /** What a request has read that is about to commit a score. */
  function ReadAll(flush: bool, g: Grade, i: nat, score: int): InFlight
    requires i < |g.rows|
  {
    var f := InFlight(Scoring(i, score), g.edited, g.total, Some(ValuesOf(g.rows[i])), None);
    f.(seen := Some(Selected(flush, g, f)))
  }

  lemma ReadForScore(x: Setup, start: System, before: seq<Action>, s: System, r: nat, i: nat, score: int)
    returns (actions: seq<Action>, s': System)
    requires IsRun(x, start, before, s) && r in s.begun && !s.grade.locked
    requires Admissible(x.criteria, s.grade, Scoring(i, score))
    ensures i < |s.grade.rows| && IsRun(x, start, actions, s')
    ensures s' == s.(begun := s.begun - {r}, editing := s.editing[r := ReadAll(x.flush, s.grade, i, score)])
  {
    hide IsRun, OutOfBounds, WriteRow;
    var a, s1 := Append(x, start, before, s, OpenEdit(r, Scoring(i, score)));
    var b, s2 := Append(x, start, a, s1, LoadRow(r));
    actions, s' := Append(x, start, b, s2, SelectFinals(r));
    assert s'.editing == s.editing[r := s'.editing[r]];
  }

  lemma Commit(x: Setup, start: System, before: seq<Action>, s: System, r: nat)
    returns (actions: seq<Action>, s': System)
    requires IsRun(x, start, before, s)
    requires r in s.editing && Ready(s.editing[r]) && Applies(s.grade, s.editing[r].edit)
    ensures IsRun(x, start, actions, s')
    ensures s' == s.(grade := Written(s.grade, s.editing[r]), stamps := s.stamps + [r], editing := s.editing - {r})
  {
    hide IsRun, Written;
    actions, s' := Append(x, start, before, s, FinishEdit(r));
  }

  /** Two edit transactions have begun, none has read anything. */
  lemma BeginTwo(x: Setup, start: System) returns (actions: seq<Action>, s: System)
    requires start.begun == {} && start.clock == 0
    ensures IsRun(x, start, actions, s) && s == start.(begun := {0, 1}, clock := 2)
  {
    assert IsRun(x, start, [], start);
    hide IsRun;
    var a, s1 := Append(x, start, [], start, BeginEdit);
    actions, s := Append(x, start, a, s1, BeginEdit);
    assert s.begun == {0, 1};
  }

  const PLAIN := Setup(false, SAMPLE_RUBRIC)

  function Sample(py: Parsing.Python): System {
    Graded(SAMPLE_RUBRIC, SampleResponse(py))
  }

  lemma SampleStart(py: Parsing.Python)
    ensures ValidRubric(SAMPLE_RUBRIC)
    ensures var s := Sample(py);
            && s.grade.rows == [Row("c", 3, None, 3, None)] && s.grade.log == [] && !s.grade.locked
            && s.grade.total == 3 && s.stamps == [] && s.clock == 0 && s.begun == {} && s.editing == map[]
            && s.lockers == {} && s.holder.None? && LogOk(s.grade)
  {
    SampleGrade(py);
    hide SampleResponse;
    NewLogOk(SAMPLE_RUBRIC, SampleResponse(py));
    hide LogOk, NewGrade;
  }

  lemma CanScore(g: Grade, score: int)
    requires |g.rows| == 1 && g.rows[0].criterion == "c" && 1 <= score <= 5
    ensures Admissible(SAMPLE_RUBRIC, g, Scoring(0, score))
  {
    assert FindCriterion(SAMPLE_RUBRIC, "c") == Some(SAMPLE_RUBRIC[0]);
  }

  // ---------------------------------------------------------------------------
  // The runs
  // ---------------------------------------------------------------------------

  /** The lock check does not cover the write: a score is changed after the grade was locked. */
  lemma EditMayFollowLock(py: Parsing.Python) returns (actions: seq<Action>, s: System)
    ensures IsRun(PLAIN, Sample(py), actions, s)
    ensures s.grade.locked && s.grade.rows == [Row("c", 3, Some(5), 5, None)]
    ensures |s.grade.log| == 2 && s.grade.log[0].GradeLocked? && IsEdit(s.grade.log[1])
  {
    SampleStart(py);
    hide Sample, IsRun, SumFinals;
    var start := Sample(py);
    var a, s1 := BeginTwo(PLAIN, start);
    CanScore(s1.grade, 5);
    var b, s2 := ReadForScore(PLAIN, start, a, s1, 0, 0, 5);
    var c, s3 := Append(PLAIN, start, b, s2, BeginLock);
    var d, s4 := Append(PLAIN, start, c, s3, TryLock(2));
    var e, s5 := Append(PLAIN, start, d, s4, CommitLock);
    actions, s := Commit(PLAIN, start, e, s5, 0);
  }

  /** Two overlapping overrides can leave a final score that is not the teacher's: one sets 5, the other
      repeats the AI's 3, which it does not write as final. */
  lemma OverlapSplitsRow(py: Parsing.Python) returns (actions: seq<Action>, s: System)
    ensures IsRun(PLAIN, Sample(py), actions, s)
    ensures s.grade.rows == [Row("c", 3, Some(3), 5, None)]
  {
    SampleStart(py);
    hide Sample, IsRun, SumFinals;
    var start := Sample(py);
    var a, s1 := BeginTwo(PLAIN, start);
    CanScore(s1.grade, 5);
    CanScore(s1.grade, 3);
    var b, s2 := ReadForScore(PLAIN, start, a, s1, 0, 0, 5);
    var c, s3 := ReadForScore(PLAIN, start, b, s2, 1, 0, 3);
    var d, s4 := Commit(PLAIN, start, c, s3, 0);
    assert s4.grade.rows == [Row("c", 3, Some(5), 5, None)];
    actions, s := Commit(PLAIN, start, d, s4, 1);
  }

  lemma TwoListed(first: Stamped, second: Stamped)
    requires second.start < first.start
    ensures Listed([first, second]) == [second, first]
  {
    assert [first, second][..1] == [first] && [first][..0] == [];
    assert Listed([]) == [] && Insert([], first) == [first];
    assert Listed([first]) == [first];
    assert [first][..0] == [] && Place([first], second.start) == Place([], second.start) == 0;
    assert Insert([first], second) == [second, first];
  }

  /** Two edits that are up to date, one after the other, are returned in the order in which their
      transactions began: the log then ends with the score that was overridden. */
  lemma LogOutOfOrder(py: Parsing.Python) returns (actions: seq<Action>, s: System)
    ensures IsRun(PLAIN, Sample(py), actions, s)
    ensures LogOk(s.grade) && !Faithful(s)
    ensures s.grade.rows == [Row("c", 3, Some(4), 4, None)] && |s.stamps| == |s.grade.log|
    ensures var four, five := Values(Some(4), None, 4), Values(Some(5), None, 5);
            ListedLog(s) == [ScoreOverride(0, five, four), ScoreOverride(0, Values(None, None, 3), five)]
  {
    SampleStart(py);
    hide Sample, IsRun, SumFinals, LogOk;
    var start := Sample(py);
    var a, s1 := BeginTwo(PLAIN, start);
    CanScore(s1.grade, 5);
    var b, s2 := ReadForScore(PLAIN, start, a, s1, 1, 0, 5);
    var c, s3 := Commit(PLAIN, start, b, s2, 1);
    WriteKeepsLog(s2.grade, s2.editing[1]);
    CanScore(s3.grade, 4);
    var d, s4 := ReadForScore(PLAIN, start, c, s3, 0, 0, 4);
    actions, s := Commit(PLAIN, start, d, s4, 0);
    WriteKeepsLog(s4.grade, s4.editing[0]);
    OutOfOrder(s);
  }

  lemma OutOfOrder(s: System)
    requires s.grade.rows == [Row("c", 3, Some(4), 4, None)] && s.stamps == [1, 0]
    requires var four, five := Values(Some(4), None, 4), Values(Some(5), None, 5);
             s.grade.log == [ScoreOverride(0, Values(None, None, 3), five), ScoreOverride(0, five, four)]
    ensures !Faithful(s) && ListedLog(s) == [s.grade.log[1], s.grade.log[0]]
  {
    var commits := Commits(s.grade.log, s.stamps);
    assert commits == [Stamped(1, s.grade.log[0]), Stamped(0, s.grade.log[1])];
    TwoListed(commits[0], commits[1]);
    hide Listed;
    assert ListedLog(s) == [s.grade.log[1], s.grade.log[0]];
    var g := s.grade.(log := ListedLog(s));
    assert InitialView(g).rows == [Values(None, None, 3)];
    assert g.log[..0] == [];
    assert !EntryOk(g, 0);
  }

  lemma LockerFirst(start: System) returns (actions: seq<Action>, s: System)
    requires start.begun == {} && start.lockers == {} && start.clock == 0
    ensures IsRun(PLAIN, start, actions, s) && s == start.(begun := {1}, lockers := {0}, clock := 2)
  {
    assert IsRun(PLAIN, start, [], start);
    hide IsRun;
    var a, s1 := Append(PLAIN, start, [], start, BeginLock);
    actions, s := Append(PLAIN, start, a, s1, BeginEdit);
    assert s.begun == {1} && s.lockers == {0};
  }

  lemma ScoreOnce(start: System, before: seq<Action>, s: System) returns (actions: seq<Action>, s': System)
    requires IsRun(PLAIN, start, before, s) && s.begun == {1} && s.editing == map[] && !s.grade.locked
    requires |s.grade.rows| == 1 && s.grade.rows[0].criterion == "c"
    ensures IsRun(PLAIN, start, actions, s')
    ensures s' == s.(grade := s'.grade, stamps := s.stamps + [1], begun := {})
    ensures |s'.grade.log| == |s.grade.log| + 1 && s'.grade.log == s.grade.log + [s'.grade.log[|s.grade.log|]]
    ensures IsEdit(s'.grade.log[|s.grade.log|]) && !s'.grade.locked
  {
    hide IsRun, SumFinals;
    CanScore(s.grade, 5);
    var a, s1 := ReadForScore(PLAIN, start, before, s, 1, 0, 5);
    actions, s' := Commit(PLAIN, start, a, s1, 1);
    assert s'.editing == map[] && s'.begun == {};
  }

  /** An edit that runs from start to commit between a locker's start and its UPDATE is listed after the
      lock, although nothing is in flight when the lock commits. */
  lemma EditListedAfterLock(py: Parsing.Python) returns (actions: seq<Action>, s: System)
    ensures IsRun(PLAIN, Sample(py), actions, s)
    ensures s.holder.Some? && Viable(PLAIN, s) == {}
    ensures var m := LockCommitted(s); |m.stamps| == |m.grade.log| && LateEdits(ListedLog(m)) == 1
  {
    SampleStart(py);
    hide Sample, IsRun, LogOk, LateEdits, ListedLog;
    var a, s1 := LockerFirst(Sample(py));
    var b, s2 := ScoreOnce(Sample(py), a, s1);
    actions, s := Append(PLAIN, Sample(py), b, s2, TryLock(0));
    ListedLast(LockCommitted(s), s2.grade.log[0]);
  }

  lemma ListedLast(m: System, e: Entry)
    requires m.grade.log == [e, GradeLocked] && m.stamps == [1, 0] && IsEdit(e)
    ensures LateEdits(ListedLog(m)) == 1
  {
    var commits := Commits(m.grade.log, m.stamps);
    assert commits == [Stamped(1, e), Stamped(0, GradeLocked)];
    TwoListed(commits[0], commits[1]);
    hide Listed;
    assert ListedLog(m) == [] + [GradeLocked] + [e];
    LockCounts([], GradeLocked);
    LockCounts([] + [GradeLocked], e);
  }

  // ---------------------------------------------------------------------------
  // Two criteria
  // ---------------------------------------------------------------------------

  const PAIR_RUBRIC: seq<Criterion> := [Parsing.CriterionInfo("c", 1, 5), Parsing.CriterionInfo("d", 1, 5)]

  const FLUSHED := Setup(true, PAIR_RUBRIC)

  function PairItem(id: string): map<string, Parsing.Json> {
    map["criterion_id" := Parsing.JStr(id), "score" := Parsing.JInt(3)]
  }

  function PairItems(): seq<Parsing.Json> {
    [Parsing.JObj(PairItem("c")), Parsing.JObj(PairItem("d"))]
  }

  function Pair(py: Parsing.Python): System {
    Graded(PAIR_RUBRIC, Parsing.Read(py, PairItems(), map[], PAIR_RUBRIC))
  }

  lemma PairEntries(py: Parsing.Python)
    ensures Parsing.LastEntry(py, PairItems(), "c") == Some(PairItem("c"))
    ensures Parsing.LastEntry(py, PairItems(), "d") == Some(PairItem("d"))
  {
    var items := PairItems();
    assert Parsing.IsLastAt(py, items, "c", 0) && Parsing.IsLastAt(py, items, "d", 1);
    Parsing.LastEntryAt(py, items, "c");
    Parsing.LastEntryAt(py, items, "d");
  }

  lemma PairScores(py: Parsing.Python)
    ensures var scores := Parsing.Read(py, PairItems(), map[], PAIR_RUBRIC).scores;
            && |scores| == 2 && scores[0].id == "c" && scores[1].id == "d"
            && scores[0].score == Some(3) && scores[1].score == Some(3) && !scores[0].clamped && !scores[1].clamped
  {
    PairEntries(py);
    assert Parsing.ReadScore(py, Parsing.Get(PairItem("c"), "score", Parsing.JNull)) == Some(3);
    assert Parsing.ReadScore(py, Parsing.Get(PairItem("d"), "score", Parsing.JNull)) == Some(3);
    hide Parsing.LastEntry, Parsing.Justification, Parsing.StatedConfidence, Parsing.Feedback, Parsing.Summary;
    hide Parsing.TooShort, Parsing.ReadScore, Parsing.Get, PairItem, PairItems;
  }

  lemma PairSums(a: Row, b: Row, c: Parsing.CriterionScore, d: Parsing.CriterionScore)
    ensures SumFinals([a, b]) == a.final + b.final
    ensures !c.clamped && !d.clamped ==> ClampEntries([c, d]) == []
  {
    SumOfTwo(a, b);
    assert [c, d][..1] == [c] && [c][..0] == [];
    assert !c.clamped ==> ClampEntries([c]) == [];
  }

  lemma PairStart(py: Parsing.Python)
    ensures var s := Pair(py);
            && s.grade.rows == [Row("c", 3, None, 3, None), Row("d", 3, None, 3, None)] && s.grade.total == 6
            && !s.grade.locked && s.clock == 0 && s.begun == {} && s.editing == map[]
  {
    PairScores(py);
    hide Parsing.Read, PairItems, SumFinals, SumMax, ClampEntries;
    var scores := Parsing.Read(py, PairItems(), map[], PAIR_RUBRIC).scores;
    assert scores == [scores[0], scores[1]];
    assert NewRows(scores) == [NewRow(scores[0]), NewRow(scores[1])];
    PairSums(NewRow(scores[0]), NewRow(scores[1]), scores[0], scores[1]);
  }

  lemma CanScorePair(g: Grade, i: nat, score: int)
    requires |g.rows| == 2 && g.rows[0].criterion == "c" && g.rows[1].criterion == "d" && i < 2 && 1 <= score <= 5
    ensures Admissible(PAIR_RUBRIC, g, Scoring(i, score))
  {
    FindCriterionAt(PAIR_RUBRIC, i);
  }

  /** A flush does not help when edits overlap: each of two overrides adds up the other row's old score. */
  lemma FlushedButWrong(py: Parsing.Python) returns (actions: seq<Action>, s: System)
    ensures IsRun(FLUSHED, Pair(py), actions, s)
    ensures s.grade.rows == [Row("c", 3, Some(5), 5, None), Row("d", 3, Some(5), 5, None)]
    ensures s.grade.total == 8 && SumFinals(s.grade.rows) == 10
  {
    PairStart(py);
    hide Pair, IsRun, SumFinals;
    var start := Pair(py);
    var a, s1 := BeginTwo(FLUSHED, start);
    CanScorePair(s1.grade, 0, 5);
    CanScorePair(s1.grade, 1, 5);
    var b, s2 := ReadForScore(FLUSHED, start, a, s1, 0, 0, 5);
    var c, s3 := ReadForScore(FLUSHED, start, b, s2, 1, 1, 5);
    var old0, old1 := Row("c", 3, None, 3, None), Row("d", 3, None, 3, None);
    var new0, new1 := Row("c", 3, Some(5), 5, None), Row("d", 3, Some(5), 5, None);
    assert WriteRow(old0, ValuesOf(old0), Scoring(0, 5)) == new0;
    assert WriteRow(old1, ValuesOf(old1), Scoring(1, 5)) == new1;
    assert start.grade.rows[0 := new0] == [new0, old1] && start.grade.rows[1 := new1] == [old0, new1];
    assert s3.editing[0].seen == Some([new0, old1]);
    assert s3.editing[1].seen == Some([old0, new1]);
    SumOfTwo(new0, old1);
    SumOfTwo(old0, new1);
    SumOfTwo(new0, new1);
    var d, s4 := Commit(FLUSHED, start, c, s3, 0);
    assert s4.grade.rows == [new0, old1] && s4.grade.total == 8;
    actions, s := Commit(FLUSHED, start, d, s4, 1);
    assert s.grade.rows == [new0, new1];
  }

  lemma SumOfTwo(a: Row, b: Row)
    ensures SumFinals([a, b]) == a.final + b.final
  {
    assert [a, b][..1] == [a] && [a][..0] == [];
    assert SumFinals([a]) == a.final;
  }
}
