/** The life of one grade (`grading.py` steps 7-9, `grade.py`): its creation from a parsed response,
the teacher's edits, locking, and the audit log that records them.

An edit here is one step; `GradeEdits` takes it apart and interleaves it with others.

A criterion-score row is identified by its position, which is the criterion's position in the
rubric snapshot. `flush` says whether pending changes reach the database before the SELECT that
recomputes the total; the sessions of this repository are built without autoflush, so it is false.
 */
module Grades {
  import opened Outcomes
  import Parsing

  type Criterion = Parsing.CriterionInfo

  datatype Row = Row(criterion: string, ai: int, teacher: Option<int>, final: int, feedback: Option<string>)

  /** The part of a row that an override can change, as the audit log stores it. */
  datatype Values = Values(teacher: Option<int>, feedback: Option<string>, final: int)

  datatype Entry =
    | ScoreClamped(row: nat, raw: Option<int>, to: int)
    | FeedbackEdited(oldText: string, newText: string)
    | ScoreOverride(row: nat, before: Values, after: Values)
    | GradeLocked

  datatype Grade = Grade(rows: seq<Row>, summary: string, edited: Option<string>, total: int, maxPossible: int,
                         locked: bool, log: seq<Entry>)

  datatype GradeError = NothingToChange | Locked | NoSuchRow | OutOfRange

  // ---------------------------------------------------------------------------
  // Sums
  // ---------------------------------------------------------------------------

  function SumFinals(rows: seq<Row>): int {
    if rows == [] then 0 else SumFinals(rows[..|rows| - 1]) + rows[|rows| - 1].final
  }

  function SumMax(criteria: seq<Criterion>): int {
    if criteria == [] then 0 else SumMax(criteria[..|criteria| - 1]) + criteria[|criteria| - 1].maxScore
  }

  lemma {:induction false} SumFinalsUpdate(rows: seq<Row>, i: nat, row: Row)
    requires i < |rows|
    ensures SumFinals(rows[i := row]) == SumFinals(rows) - rows[i].final + row.final
  {
    var init := rows[..|rows| - 1];
    if i == |rows| - 1 {
      assert rows[i := row][..|rows| - 1] == init;
    } else {
      assert rows[i := row][..|rows| - 1] == init[i := row];
      SumFinalsUpdate(init, i, row);
    }
  }

  predicate Bounded(rows: seq<Row>, criteria: seq<Criterion>) {
    |rows| == |criteria| && forall i :: 0 <= i < |rows| ==> 0 <= rows[i].final <= criteria[i].maxScore
  }

  lemma {:induction false} SumBounded(rows: seq<Row>, criteria: seq<Criterion>)
    requires Bounded(rows, criteria)
    ensures 0 <= SumFinals(rows) <= SumMax(criteria)
  {
    if rows != [] {
      SumBounded(rows[..|rows| - 1], criteria[..|rows| - 1]);
    }
  }

  // ---------------------------------------------------------------------------
  // A new grade
  // ---------------------------------------------------------------------------

  function AiScore(c: Parsing.CriterionScore): int {
    if c.score.Some? then c.score.value else 0
  }

  function NewRow(c: Parsing.CriterionScore): Row {
    Row(c.id, AiScore(c), None, AiScore(c), None)
  }

  function NewRows(scores: seq<Parsing.CriterionScore>): seq<Row> {
    seq(|scores|, i requires 0 <= i < |scores| => NewRow(scores[i]))
  }

  function ClampEntries(scores: seq<Parsing.CriterionScore>): seq<Entry> {
    if scores == [] then []
    else
      var n := |scores| - 1;
      ClampEntries(scores[..n])
      + if scores[n].clamped then [ScoreClamped(n, scores[n].rawScore, AiScore(scores[n]))] else []
  }

  function NewGrade(criteria: seq<Criterion>, response: Parsing.Response): Grade {
    Grade(NewRows(response.scores), response.summary, None, SumFinals(NewRows(response.scores)), SumMax(criteria),
          false, ClampEntries(response.scores))
  }

  lemma NothingWritten()
    ensures NewRows([]) == [] && ClampEntries([]) == [] && SumFinals([]) == 0
  {
  }

  lemma RowsSnoc(scores: seq<Parsing.CriterionScore>, c: Parsing.CriterionScore)
    ensures NewRows(scores + [c]) == NewRows(scores) + [NewRow(c)]
  {
    hide NewRow;
  }

  lemma FinalsSnoc(rows: seq<Row>, row: Row)
    ensures SumFinals(rows + [row]) == SumFinals(rows) + row.final
  {
    assert (rows + [row])[..|rows|] == rows;
  }

  lemma ClampsSnoc(scores: seq<Parsing.CriterionScore>, c: Parsing.CriterionScore)
    ensures ClampEntries(scores + [c])
         == ClampEntries(scores) + if c.clamped then [ScoreClamped(|scores|, c.rawScore, AiScore(c))] else []
  {
    assert (scores + [c])[..|scores|] == scores;
    hide AiScore;
  }

  // ---------------------------------------------------------------------------
  // Edits
  // ---------------------------------------------------------------------------

  datatype Edit =
    | SetSummary(text: string)
    | Override(row: nat, score: Option<int>, feedback: Option<string>)

  /** The snapshot's entry for a criterion id, the first one if there were several. */
  function FindCriterion(criteria: seq<Criterion>, id: string): Option<Criterion> {
    if criteria == [] then None
    else if criteria[0].id == id then Some(criteria[0])
    else FindCriterion(criteria[1..], id)
  }

  predicate OutOfBounds(criteria: seq<Criterion>, id: string, score: int) {
    var c := FindCriterion(criteria, id);
    c.Some? && !Parsing.InRange(score, c.value)
  }

  /** The checks made on the request and on the grade. */
  function OpenRefusal(g: Grade, e: Edit): Option<GradeError> {
    if e.Override? && e.score.None? && e.feedback.None? then Some(NothingToChange)
    else if g.locked then Some(Locked)
    else None
  }

  /** The checks made on the row, once it is looked up. */
  function RowRefusal(criteria: seq<Criterion>, g: Grade, e: Edit): Option<GradeError> {
    if e.SetSummary? then None
    else if e.row >= |g.rows| then Some(NoSuchRow)
    else if e.score.Some? && OutOfBounds(criteria, g.rows[e.row].criterion, e.score.value) then Some(OutOfRange)
    else None
  }

  /** The first check an edit fails, if any. */
  function Refusal(criteria: seq<Criterion>, g: Grade, e: Edit): Option<GradeError> {
    if OpenRefusal(g, e).Some? then OpenRefusal(g, e) else RowRefusal(criteria, g, e)
  }

  function ValuesOf(row: Row): Values {
    Values(row.teacher, row.feedback, row.final)
  }

  function ShownSummary(g: Grade): string {
    if g.edited.Some? then g.edited.value else g.summary
  }

  function Overridden(row: Row, score: Option<int>, feedback: Option<string>): Row {
    var scored := if score.Some? then row.(teacher := score, final := score.value) else row;
    if feedback.Some? then scored.(feedback := feedback) else scored
  }

  predicate Applies(g: Grade, e: Edit) {
    e.Override? ==> e.row < |g.rows|
  }

  /** The committed grade after an edit that passed its checks. */
  function Apply(flush: bool, g: Grade, e: Edit): Grade
    requires Applies(g, e)
  {
    match e
    case SetSummary(text) =>
      g.(edited := Some(text), log := g.log + [FeedbackEdited(ShownSummary(g), text)])
    case Override(i, score, feedback) =>
      var row := Overridden(g.rows[i], score, feedback);
      var rows := g.rows[i := row];
      g.(rows := rows,
         total := if score.None? then g.total else SumFinals(if flush then rows else g.rows),
         log := g.log + [ScoreOverride(i, ValuesOf(g.rows[i]), ValuesOf(row))])
  }

  // ---------------------------------------------------------------------------
  // What an override request is promised
  // ---------------------------------------------------------------------------

  /** The criterion with that id, the first of several, has the score in its range. */
  predicate ScoreFits(criteria: seq<Criterion>, id: string, score: int) {
    forall k :: 0 <= k < |criteria| && criteria[k].id == id && (forall j :: 0 <= j < k ==> criteria[j].id != id) ==>
      criteria[k].minScore <= score <= criteria[k].maxScore
  }

  /** `g'` is `g` after what was given is stored in row `i`: a score as the teacher's and the final one, and a
      comment; the rest of the row, every other row and the rest of the grade stay, and one entry records it. */
  predicate StoresOverride(flush: bool, g: Grade, g': Grade, i: nat, score: Option<int>, feedback: Option<string>) {
    && i < |g.rows| == |g'.rows|
    && (forall k :: 0 <= k < |g.rows| && k != i ==> g'.rows[k] == g.rows[k])
    && g'.rows[i].criterion == g.rows[i].criterion && g'.rows[i].ai == g.rows[i].ai
    && (score.Some? ==> g'.rows[i].teacher == score && g'.rows[i].final == score.value)
    && (score.None? ==> g'.rows[i].teacher == g.rows[i].teacher && g'.rows[i].final == g.rows[i].final)
    && g'.rows[i].feedback == (if feedback.Some? then feedback else g.rows[i].feedback)
    && g'.summary == g.summary && g'.edited == g.edited && g'.maxPossible == g.maxPossible && g'.locked == g.locked
    && g'.total == (if score.None? then g.total else SumFinals(if flush then g'.rows else g.rows))
    && g'.log == g.log + [ScoreOverride(i, Values(g.rows[i].teacher, g.rows[i].feedback, g.rows[i].final),
                                        Values(g'.rows[i].teacher, g'.rows[i].feedback, g'.rows[i].final))]
  }

  /** The same for the summary. */
  predicate StoresSummary(g: Grade, g': Grade, text: string) {
    && g'.edited == Some(text)
    && g'.rows == g.rows && g'.summary == g.summary && g'.total == g.total && g'.maxPossible == g.maxPossible
    && g'.locked == g.locked
    && g'.log == g.log + [FeedbackEdited(if g.edited.Some? then g.edited.value else g.summary, text)]
  }

  lemma {:induction false} FirstCriterion(criteria: seq<Criterion>, id: string, score: int)
    ensures OutOfBounds(criteria, id, score) <==> !ScoreFits(criteria, id, score)
  {
    if criteria != [] {
      if criteria[0].id == id {
        assert ScoreFits(criteria, id, score) ==> criteria[0].minScore <= score <= criteria[0].maxScore;
      } else {
        var rest := criteria[1..];
        FirstCriterion(rest, id, score);
        FitsInRest(criteria, id, score);
      }
    }
  }

  lemma FitsInRest(criteria: seq<Criterion>, id: string, score: int)
    requires criteria != [] && criteria[0].id != id
    ensures ScoreFits(criteria, id, score) <==> ScoreFits(criteria[1..], id, score)
  {
    var rest := criteria[1..];
    assert forall k :: 0 <= k < |rest| ==> rest[k] == criteria[k + 1];
    if ScoreFits(criteria, id, score) {
      forall k | 0 <= k < |rest| && rest[k].id == id && (forall j :: 0 <= j < k ==> rest[j].id != id)
        ensures rest[k].minScore <= score <= rest[k].maxScore
      {
        assert criteria[k + 1].id == id;
        assert forall j :: 1 <= j < k + 1 ==> criteria[j] == rest[j - 1];
      }
    }
    if ScoreFits(rest, id, score) {
      forall k | 0 <= k < |criteria| && criteria[k].id == id && (forall j :: 0 <= j < k ==> criteria[j].id != id)
        ensures criteria[k].minScore <= score <= criteria[k].maxScore
      {
        assert rest[k - 1].id == id;
        assert forall j :: 0 <= j < k - 1 ==> rest[j] == criteria[j + 1];
      }
    }
  }

  /** Which requests pass, and which error every other one gets. */
  lemma OverrideVerdict(criteria: seq<Criterion>, g: Grade, i: nat, score: Option<int>, feedback: Option<string>)
    ensures var verdict, given := Refusal(criteria, g, Override(i, score, feedback)), score.Some? || feedback.Some?;
            && (verdict == Some(NothingToChange) <==> !given)
            && (verdict == Some(Locked) <==> given && g.locked)
            && (verdict == Some(NoSuchRow) <==> given && !g.locked && i >= |g.rows|)
            && (verdict == Some(OutOfRange) <==>
                  given && !g.locked && i < |g.rows| && score.Some?
                  && !ScoreFits(criteria, g.rows[i].criterion, score.value))
            && (verdict.None? <==>
                  given && !g.locked && i < |g.rows|
                  && (score.Some? ==> ScoreFits(criteria, g.rows[i].criterion, score.value)))
  {
    if i < |g.rows| && score.Some? {
      FirstCriterion(criteria, g.rows[i].criterion, score.value);
    }
    hide OutOfBounds, ScoreFits;
  }

  lemma OverrideStores(flush: bool, g: Grade, i: nat, score: Option<int>, feedback: Option<string>)
    requires i < |g.rows|
    ensures StoresOverride(flush, g, Apply(flush, g, Override(i, score, feedback)), i, score, feedback)
  {
    hide SumFinals;
  }

  // ---------------------------------------------------------------------------
  // Replaying the audit log
  // ---------------------------------------------------------------------------

  /** What the log is about: each row's editable values, the edited summary, and the lock. */
  datatype View = View(rows: seq<Values>, edited: Option<string>, locked: bool)

  function ViewOf(g: Grade): View {
    View(seq(|g.rows|, i requires 0 <= i < |g.rows| => ValuesOf(g.rows[i])), g.edited, g.locked)
  }

  /** The view a grade had when the AI created it. */
  function InitialView(g: Grade): View {
    View(seq(|g.rows|, i requires 0 <= i < |g.rows| => Values(None, None, g.rows[i].ai)), None, false)
  }

  function ReplayEntry(v: View, e: Entry): View {
    match e
    case ScoreClamped(_, _, _) => v
    case FeedbackEdited(_, text) => v.(edited := Some(text))
    case ScoreOverride(i, _, after) => if i < |v.rows| then v.(rows := v.rows[i := after]) else v
    case GradeLocked => v.(locked := true)
  }

  function Replay(v: View, log: seq<Entry>): View {
    if log == [] then v else ReplayEntry(Replay(v, log[..|log| - 1]), log[|log| - 1])
  }

  /** What a view shows as the summary; `ai` is the AI's. */
  function Shown(v: View, ai: string): string {
    if v.edited.Some? then v.edited.value else ai
  }

  /** The entry starts from what the view holds. */
  predicate Fits(ai: string, v: View, e: Entry) {
    match e
    case ScoreClamped(_, _, _) => true
    case FeedbackEdited(oldText, _) => oldText == Shown(v, ai)
    case ScoreOverride(i, before, _) => i < |v.rows| && before == v.rows[i]
    case GradeLocked => !v.locked
  }

  /** Entry `n` starts from the state that the entries before it describe. */
  predicate EntryOk(g: Grade, n: nat)
    requires n < |g.log|
  {
    Fits(g.summary, Replay(InitialView(g), g.log[..n]), g.log[n])
  }

  predicate LogOk(g: Grade) {
    && Replay(InitialView(g), g.log) == ViewOf(g)
    && forall n :: 0 <= n < |g.log| ==> EntryOk(g, n)
  }

  lemma ReplaySnoc(v: View, log: seq<Entry>, e: Entry)
    ensures Replay(v, log + [e]) == ReplayEntry(Replay(v, log), e)
  {
    assert (log + [e])[..|log|] == log;
  }

  /** Recording one more change keeps the log faithful. */
  lemma LogAppend(g: Grade, e: Entry, g': Grade)
    requires LogOk(g) && g'.log == g.log + [e] && g'.summary == g.summary
    requires InitialView(g') == InitialView(g)
    requires ViewOf(g') == ReplayEntry(ViewOf(g), e)
    requires e.FeedbackEdited? ==> e.oldText == ShownSummary(g)
    requires e.ScoreOverride? ==> e.row < |g.rows| && e.before == ValuesOf(g.rows[e.row])
    requires e.GradeLocked? ==> !g.locked
    ensures LogOk(g')
  {
    hide InitialView, ReplayEntry, Replay;
    ReplaySnoc(InitialView(g), g.log, e);
    forall n | 0 <= n < |g'.log|
      ensures EntryOk(g', n)
    {
      assert g'.log[..n] == g.log[..n];
      if n < |g.log| {
        assert EntryOk(g, n);
      } else {
        assert g.log[..n] == g.log;
      }
    }
  }

  // ---------------------------------------------------------------------------
  // What holds of every reachable grade
  // ---------------------------------------------------------------------------

  /** What the rubric schema guarantees of a snapshot. */
  predicate ValidRubric(criteria: seq<Criterion>) {
    Parsing.DistinctIds(criteria) && forall i :: 0 <= i < |criteria| ==>
        1 <= criteria[i].minScore < criteria[i].maxScore
  }

  predicate RowOk(row: Row, c: Criterion) {
    && row.criterion == c.id
    && (row.ai == 0 || Parsing.InRange(row.ai, c))
    && (row.teacher.Some? ==> Parsing.InRange(row.teacher.value, c))
    && row.final == if row.teacher.Some? then row.teacher.value else row.ai
  }

  ghost predicate GradeOk(criteria: seq<Criterion>, g: Grade) {
    && |g.rows| == |criteria|
    && (forall i :: 0 <= i < |g.rows| ==> RowOk(g.rows[i], criteria[i]))
    && 0 <= g.total <= g.maxPossible
    && g.maxPossible == SumMax(criteria)
    && LogOk(g)
  }

  lemma {:induction false} FindCriterionAt(criteria: seq<Criterion>, i: nat)
    requires i < |criteria| && Parsing.DistinctIds(criteria)
    ensures FindCriterion(criteria, criteria[i].id) == Some(criteria[i])
  {
    if i > 0 {
      assert criteria[1..][i - 1] == criteria[i];
      FindCriterionAt(criteria[1..], i - 1);
    }
  }

  predicate OnlyClamps(log: seq<Entry>) {
    forall k :: 0 <= k < |log| ==> log[k].ScoreClamped?
  }

  lemma {:induction false} OnlyClampsReplay(v: View, log: seq<Entry>)
    requires OnlyClamps(log)
    ensures Replay(v, log) == v
  {
    if log != [] {
      OnlyClampsReplay(v, log[..|log| - 1]);
    }
  }

  lemma {:induction false} ClampsOnly(scores: seq<Parsing.CriterionScore>)
    ensures OnlyClamps(ClampEntries(scores))
  {
    if scores != [] {
      ClampsOnly(scores[..|scores| - 1]);
    }
  }

  lemma ClampsChangeNothing(v: View, scores: seq<Parsing.CriterionScore>, n: nat)
    requires n <= |ClampEntries(scores)|
    ensures Replay(v, ClampEntries(scores)[..n]) == v
    ensures forall k :: 0 <= k < |ClampEntries(scores)| ==> ClampEntries(scores)[k].ScoreClamped?
  {
    ClampsOnly(scores);
    hide ClampEntries, Replay;
    OnlyClampsReplay(v, ClampEntries(scores)[..n]);
  }

  /** The log of a new grade holds one entry per clamped score and nothing else, in row order. */
  lemma {:induction false} ClampEntriesExact(scores: seq<Parsing.CriterionScore>, e: Entry)
    ensures e in ClampEntries(scores) <==>
            exists i :: 0 <= i < |scores| && scores[i].clamped
                        && e == ScoreClamped(i, scores[i].rawScore, AiScore(scores[i]))
    ensures forall j, k :: 0 <= j < k < |ClampEntries(scores)| ==>
              ClampEntries(scores)[j].ScoreClamped? && ClampEntries(scores)[k].ScoreClamped?
              && ClampEntries(scores)[j].row < ClampEntries(scores)[k].row < |scores|
  {
    if scores != [] {
      var n := |scores| - 1;
      var init := scores[..n];
      ClampEntriesExact(init, e);
      ClampRowsBelow(init);
      assert forall i :: 0 <= i < n ==> init[i] == scores[i];
    }
  }

  lemma {:induction false} ClampRowsBelow(scores: seq<Parsing.CriterionScore>)
    ensures forall k :: 0 <= k < |ClampEntries(scores)| ==>
              ClampEntries(scores)[k].ScoreClamped? && ClampEntries(scores)[k].row < |scores|
  {
    if scores != [] {
      ClampRowsBelow(scores[..|scores| - 1]);
    }
  }

  /** The row of a scored criterion: its parsed score, 0 when it was missing, and nothing from the teacher yet. */
  predicate FreshRow(row: Row, c: Parsing.CriterionScore) {
    && row.criterion == c.id && row.teacher.None? && row.feedback.None? && row.final == row.ai
    && (c.score.Some? ==> row.ai == c.score.value)
    && (c.score.None? ==> row.ai == 0)
  }

  predicate IsClampOf(e: Entry, row: nat, rows: seq<Row>, c: Parsing.CriterionScore) {
    row < |rows| && c.clamped && e == ScoreClamped(row, c.rawScore, rows[row].ai)
  }

  /** What is stored for a response: a fresh row for each of its scores, in order, and an entry for each clamped one. */
  ghost predicate StoresResponse(g: Grade, criteria: seq<Criterion>, response: Parsing.Response) {
    var scores := response.scores;
    && |g.rows| == |scores| && (forall i :: 0 <= i < |scores| ==> FreshRow(g.rows[i], scores[i]))
    && g.summary == response.summary && g.edited.None? && !g.locked
    && g.total == SumFinals(g.rows) && g.maxPossible == SumMax(criteria)
    && (forall e :: e in g.log <==> exists i :: 0 <= i < |scores| && IsClampOf(e, i, g.rows, scores[i]))
  }

  lemma NewGradeStores(criteria: seq<Criterion>, response: Parsing.Response)
    ensures StoresResponse(NewGrade(criteria, response), criteria, response)
  {
    var g, scores := NewGrade(criteria, response), response.scores;
    forall e
      ensures e in g.log <==> exists i :: 0 <= i < |scores| && IsClampOf(e, i, g.rows, scores[i])
    {
      ClampEntriesExact(scores, e);
      assert forall i :: 0 <= i < |scores| && IsClampOf(e, i, g.rows, scores[i]) ==>
          scores[i].clamped && e == ScoreClamped(i, scores[i].rawScore, AiScore(scores[i]));
      assert forall i :: 0 <= i < |scores| && scores[i].clamped ==> g.rows[i].ai == AiScore(scores[i]);
      if i :| 0 <= i < |scores| && scores[i].clamped && e == ScoreClamped(i, scores[i].rawScore, AiScore(scores[i])) {
        assert IsClampOf(e, i, g.rows, scores[i]);
      }
    }
  }

  /** The two sums add up over any split, and a single row or criterion adds its final or maximum score. */
  lemma {:induction false} SumsAdd(a: seq<Row>, b: seq<Row>, c: seq<Criterion>, d: seq<Criterion>)
    ensures SumFinals(a + b) == SumFinals(a) + SumFinals(b)
    ensures SumMax(c + d) == SumMax(c) + SumMax(d)
    ensures |b| == 1 ==> SumFinals(b) == b[0].final
    ensures |d| == 1 ==> SumMax(d) == d[0].maxScore
    decreases |b| + |d|
  {
    if b != [] {
      var init := b[..|b| - 1];
      assert (a + b)[..|a + b| - 1] == a + init;
      SumsAdd(a, init, c, d);
    } else if d != [] {
      var init := d[..|d| - 1];
      assert (c + d)[..|c + d| - 1] == c + init;
      SumsAdd(a, b, c, init);
      assert a + b == a;
    } else {
      assert a + b == a && c + d == c;
    }
  }

  /** Grading any response whatever gives a well-formed grade whose total is the sum of its scores. */
  lemma NewGradeOk(py: Parsing.Python, items: seq<Parsing.Json>, fields: map<string, Parsing.Json>,
                   criteria: seq<Criterion>)
    requires ValidRubric(criteria)
    ensures var g := NewGrade(criteria, Parsing.Read(py, items, fields, criteria));
            GradeOk(criteria, g) && g.total == SumFinals(g.rows) && !g.locked
  {
    var response := Parsing.Read(py, items, fields, criteria);
    var g := NewGrade(criteria, response);
    NewRowsOk(py, items, fields, criteria);
    hide Parsing.Read, NewRows, RowOk;
    RowsAreBounded(g.rows, criteria);
    SumBounded(g.rows, criteria);
    NewLogOk(criteria, response);
  }

  lemma NewRowsOk(py: Parsing.Python, items: seq<Parsing.Json>, fields: map<string, Parsing.Json>,
                  criteria: seq<Criterion>)
    requires ValidRubric(criteria)
    ensures var rows := NewRows(Parsing.Read(py, items, fields, criteria).scores);
            |rows| == |criteria| && forall i :: 0 <= i < |rows| ==> RowOk(rows[i], criteria[i])
  {
    hide Parsing.Read;
    var scores := Parsing.Read(py, items, fields, criteria).scores;
    Parsing.ScoreIds(py, items, fields, criteria);
    forall i | 0 <= i < |criteria|
      ensures RowOk(NewRow(scores[i]), criteria[i])
    {
      Parsing.ParseCoversRubric(py, items, fields, criteria, i);
    }
  }

  lemma NewLogOk(criteria: seq<Criterion>, response: Parsing.Response)
    ensures LogOk(NewGrade(criteria, response))
  {
    var g := NewGrade(criteria, response);
    assert InitialView(g) == ViewOf(g);
    hide Replay, InitialView, ViewOf, NewRows, ClampEntries;
    ClampsChangeNothing(InitialView(g), response.scores, |g.log|);
    assert g.log[..|g.log|] == g.log;
    forall n | 0 <= n < |g.log|
      ensures EntryOk(g, n)
    {
      ClampsChangeNothing(InitialView(g), response.scores, n);
    }
  }

  lemma RowsAreBounded(rows: seq<Row>, criteria: seq<Criterion>)
    requires ValidRubric(criteria) && |rows| == |criteria|
    requires forall i :: 0 <= i < |rows| ==> RowOk(rows[i], criteria[i])
    ensures Bounded(rows, criteria)
  {
    forall i | 0 <= i < |rows|
      ensures 0 <= rows[i].final <= criteria[i].maxScore
    {
      assert RowOk(rows[i], criteria[i]);
    }
  }

  /** The edit names a row of the grade and a score in its range. */
  predicate Admissible(criteria: seq<Criterion>, g: Grade, e: Edit) {
    RowRefusal(criteria, g, e).None?
  }

  // ---------------------------------------------------------------------------
  // The total
  // ---------------------------------------------------------------------------

  /** With a flush the total is always the sum of the final scores. */
  lemma FlushedTotal(criteria: seq<Criterion>, g: Grade, e: Edit)
    requires Admissible(criteria, g, e) && g.total == SumFinals(g.rows)
    ensures Apply(true, g, e).total == SumFinals(Apply(true, g, e).rows)
  {
    hide OutOfBounds;
    if e.Override? && e.score.None? {
      SumFinalsUpdate(g.rows, e.row, Overridden(g.rows[e.row], e.score, e.feedback));
    }
  }

  /** Without one, a score override leaves the right total exactly when it repeats the row's current
      score; otherwise the total is off by the change just made, whatever came before. */
  lemma UnflushedTotal(criteria: seq<Criterion>, g: Grade, e: Edit)
    requires Admissible(criteria, g, e) && e.Override? && e.score.Some?
    ensures var g' := Apply(false, g, e);
            SumFinals(g'.rows) - g'.total == e.score.value - g.rows[e.row].final
    ensures Apply(false, g, e).total == SumFinals(Apply(false, g, e).rows) <==> e.score.value == g.rows[e.row].final
  {
    hide OutOfBounds;
    SumFinalsUpdate(g.rows, e.row, Overridden(g.rows[e.row], e.score, e.feedback));
  }

  const SAMPLE_RUBRIC: seq<Criterion> := [Parsing.CriterionInfo("c", 1, 5)]

  const SAMPLE_ITEM := map["criterion_id" := Parsing.JStr("c"), "score" := Parsing.JInt(3)]

  /** A parsed response that scores the only criterion 3 of 5. */
  function SampleResponse(py: Parsing.Python): Parsing.Response {
    Parsing.Read(py, [Parsing.JObj(SAMPLE_ITEM)], map[], SAMPLE_RUBRIC)
  }

  lemma SampleScores(py: Parsing.Python)
    ensures var scores := SampleResponse(py).scores;
            |scores| == 1 && scores[0].id == "c" && scores[0].score == Some(3) && !scores[0].clamped
  {
    SampleEntry(py);
    assert Parsing.ReadScore(py, Parsing.Get(SAMPLE_ITEM, "score", Parsing.JNull)) == Some(3);
    hide Parsing.LastEntry, Parsing.Justification, Parsing.StatedConfidence;
    hide Parsing.Feedback, Parsing.Summary, Parsing.TooShort;
    hide SAMPLE_ITEM, Parsing.ReadScore, Parsing.Get;
  }

  lemma SampleEntry(py: Parsing.Python)
    ensures Parsing.LastEntry(py, [Parsing.JObj(SAMPLE_ITEM)], "c") == Some(SAMPLE_ITEM)
  {
    assert Parsing.IsEntry(py, Parsing.JObj(SAMPLE_ITEM), "c");
    hide SAMPLE_ITEM, Parsing.IsEntry;
    var items := [Parsing.JObj(SAMPLE_ITEM)];
    assert items[|items| - 1] == Parsing.JObj(SAMPLE_ITEM);
  }

  lemma Singletons(row: Row, c: Criterion, score: Parsing.CriterionScore)
    ensures SumFinals([row]) == row.final && SumMax([c]) == c.maxScore
    ensures !score.clamped ==> ClampEntries([score]) == []
  {
    assert [row][..0] == [] && [c][..0] == [] && [score][..0] == [];
  }

  lemma SampleGrade(py: Parsing.Python)
    ensures ValidRubric(SAMPLE_RUBRIC)
    ensures var g := NewGrade(SAMPLE_RUBRIC, SampleResponse(py));
            g.rows == [Row("c", 3, None, 3, None)] && g.total == 3 && g.maxPossible == 5 && g.log == [] && !g.locked
            && g.edited.None?
  {
    SampleScores(py);
    hide SampleResponse, SumFinals, SumMax, ClampEntries;
    var scores := SampleResponse(py).scores;
    assert scores == [scores[0]];
    assert NewRows(scores) == [NewRow(scores[0])];
    Singletons(NewRow(scores[0]), SAMPLE_RUBRIC[0], scores[0]);
  }

  /** So a first override of a freshly graded essay already shows a wrong total. */
  lemma StaleTotal(py: Parsing.Python)
    ensures var g, e := NewGrade(SAMPLE_RUBRIC, SampleResponse(py)), Override(0, Some(5), None);
            && Refusal(SAMPLE_RUBRIC, g, e).None?
            && g.total == SumFinals(g.rows)
            && Apply(false, g, e).total != SumFinals(Apply(false, g, e).rows)
  {
    SampleGrade(py);
    hide SampleResponse, NewGrade;
    var g := NewGrade(SAMPLE_RUBRIC, SampleResponse(py));
    assert g.rows[..0] == [];
    assert FindCriterion(SAMPLE_RUBRIC, "c") == Some(SAMPLE_RUBRIC[0]);
    UnflushedTotal(SAMPLE_RUBRIC, g, Override(0, Some(5), None));
  }

  // ---------------------------------------------------------------------------
  // The before-and-after chain
  // ---------------------------------------------------------------------------

  predicate Overrides(e: Entry, i: nat) {
    e.ScoreOverride? && e.row == i
  }

  lemma {:induction false} ReplayedRow(v: View, log: seq<Entry>, m: nat, i: nat)
    requires m < |log| && i < |v.rows| && Overrides(log[m], i)
    requires forall k :: m < k < |log| ==> !Overrides(log[k], i)
    ensures |Replay(v, log).rows| == |v.rows| && Replay(v, log).rows[i] == log[m].after
  {
    var init := log[..|log| - 1];
    ReplayKeepsLength(v, init);
    if m < |log| - 1 {
      ReplayedRow(v, init, m, i);
    }
  }

  lemma {:induction false} ReplayKeepsLength(v: View, log: seq<Entry>)
    ensures |Replay(v, log).rows| == |v.rows|
  {
    if log != [] {
      ReplayKeepsLength(v, log[..|log| - 1]);
    }
  }

  lemma {:induction false} UntouchedRow(v: View, log: seq<Entry>, i: nat)
    requires i < |v.rows| && forall k :: 0 <= k < |log| ==> !Overrides(log[k], i)
    ensures |Replay(v, log).rows| == |v.rows| && Replay(v, log).rows[i] == v.rows[i]
  {
    if log != [] {
      UntouchedRow(v, log[..|log| - 1], i);
    }
  }

  /** An override's before-value is the after-value of the row's previous override, or else the AI's. */
  lemma OverrideChain(g: Grade, n: nat, i: nat)
    requires LogOk(g) && n < |g.log| && Overrides(g.log[n], i)
    ensures i < |g.rows|
    ensures forall m :: 0 <= m < n && Overrides(g.log[m], i) && (forall k :: m < k < n ==> !Overrides(g.log[k], i))
              ==> g.log[n].before == g.log[m].after
    ensures (forall k :: 0 <= k < n ==> !Overrides(g.log[k], i)) ==> g.log[n].before == Values(None, None, g.rows[i].ai)
  {
    hide ReplayEntry, Replay;
    assert EntryOk(g, n);
    var earlier := g.log[..n];
    ReplayKeepsLength(InitialView(g), earlier);
    forall m | 0 <= m < n && Overrides(g.log[m], i) && (forall k :: m < k < n ==> !Overrides(g.log[k], i))
      ensures g.log[n].before == g.log[m].after
    {
      ReplayedRow(InitialView(g), earlier, m, i);
    }
    if forall k :: 0 <= k < n ==> !Overrides(g.log[k], i) {
      UntouchedRow(InitialView(g), earlier, i);
    }
  }

  lemma {:induction false} ReplayedSummary(v: View, log: seq<Entry>, m: nat)
    requires m < |log| && log[m].FeedbackEdited?
    requires forall k :: m < k < |log| ==> !log[k].FeedbackEdited?
    ensures Replay(v, log).edited == Some(log[m].newText)
  {
    if m < |log| - 1 {
      ReplayedSummary(v, log[..|log| - 1], m);
    }
  }

  lemma {:induction false} UntouchedSummary(v: View, log: seq<Entry>)
    requires forall k :: 0 <= k < |log| ==> !log[k].FeedbackEdited?
    ensures Replay(v, log).edited == v.edited
  {
    if log != [] {
      UntouchedSummary(v, log[..|log| - 1]);
    }
  }

  /** A summary edit's old text is the new text of the previous one, or else the AI's summary. */
  lemma SummaryChain(g: Grade, n: nat)
    requires LogOk(g) && n < |g.log| && g.log[n].FeedbackEdited?
    ensures forall m :: 0 <= m < n && g.log[m].FeedbackEdited? && (forall k :: m < k < n ==> !g.log[k].FeedbackEdited?)
              ==> g.log[n].oldText == g.log[m].newText
    ensures (forall k :: 0 <= k < n ==> !g.log[k].FeedbackEdited?) ==> g.log[n].oldText == g.summary
  {
    hide ReplayEntry, Replay;
    assert EntryOk(g, n);
    var earlier := g.log[..n];
    forall m | 0 <= m < n && g.log[m].FeedbackEdited? && (forall k :: m < k < n ==> !g.log[k].FeedbackEdited?)
      ensures g.log[n].oldText == g.log[m].newText
    {
      ReplayedSummary(InitialView(g), earlier, m);
    }
    if forall k :: 0 <= k < n ==> !g.log[k].FeedbackEdited? {
      UntouchedSummary(InitialView(g), earlier);
    }
  }

  // ---------------------------------------------------------------------------
  // The stored grade
  // ---------------------------------------------------------------------------

  class GradeRecord {
    var rows: seq<Row>
    var summary: string
    var edited: Option<string>
    var total: int
    var maxPossible: int
    var locked: bool
    var log: seq<Entry>

    function State(): Grade
      reads this
    {
      Grade(rows, summary, edited, total, maxPossible, locked, log)
    }

    /** Steps 7 to 9 of `grade_essay`. */
    constructor (criteria: seq<Criterion>, response: Parsing.Response)
      ensures State() == NewGrade(criteria, response)
      ensures StoresResponse(State(), criteria, response)
    {
      NewGradeStores(criteria, response);
      hide StoresResponse, NewRows, ClampEntries, SumFinals, SumMax;
      var scores := response.scores;
      var sum := 0;
      var written: seq<Row> := [];
      var entries: seq<Entry> := [];
      NothingWritten();
      for i := 0 to |scores|
        invariant written == NewRows(scores[..i])
        invariant entries == ClampEntries(scores[..i])
        invariant sum == SumFinals(written)
      {
        RowsSnoc(scores[..i], scores[i]);
        ClampsSnoc(scores[..i], scores[i]);
        assert scores[..i + 1] == scores[..i] + [scores[i]];
        var aiScore := if scores[i].score.Some? then scores[i].score.value else 0;
        var row := Row(scores[i].id, aiScore, None, aiScore, None);
        FinalsSnoc(written, row);
        sum := sum + aiScore;
        written := written + [row];
        if scores[i].clamped {
          entries := entries + [ScoreClamped(i, scores[i].rawScore, aiScore)];
        }
      }
      assert scores[..|scores|] == scores;
      rows, summary, edited := written, response.summary, None;
      total, maxPossible := sum, SumMax(criteria);
      locked, log := false, entries;
    }

    method UpdateGradeFeedback(text: string) returns (result: Result<Grade, GradeError>)
      modifies this
      ensures result.Ok? <==> !old(locked)
      ensures result.Err? ==> result.error == Locked && State() == old(State())
      ensures result.Ok? ==> State() == result.value == Apply(false, old(State()), SetSummary(text))
      ensures result.Ok? ==> StoresSummary(old(State()), State(), text)
    {
      if locked {
        return Err(Locked);
      }
      var before := if edited.Some? then edited.value else summary;
      edited := Some(text);
      log := log + [FeedbackEdited(before, text)];
      return Ok(State());
    }

    method OverrideCriterion(flush: bool, criteria: seq<Criterion>, i: nat, score: Option<int>,
                             feedback: Option<string>)
      returns (result: Result<Grade, GradeError>)
      modifies this
      ensures result.Ok? <==> Refusal(criteria, old(State()), Override(i, score, feedback)).None?
      ensures result.Err? ==> Refusal(criteria, old(State()), Override(i, score, feedback)) == Some(result.error)
      ensures result.Err? ==> State() == old(State())
      ensures result.Ok? ==> State() == result.value == Apply(flush, old(State()), Override(i, score, feedback))
      ensures result.Ok? <==>
                && (score.Some? || feedback.Some?) && !old(locked) && i < |old(rows)|
                && (score.Some? ==> ScoreFits(criteria, old(rows)[i].criterion, score.value))
      ensures result.Ok? ==> StoresOverride(flush, old(State()), result.value, i, score, feedback)
      ensures result.Err? ==>
                && (result.error == NothingToChange <==> score.None? && feedback.None?)
                && (result.error == Locked <==> (score.Some? || feedback.Some?) && old(locked))
                && (result.error == NoSuchRow <==>
                      (score.Some? || feedback.Some?) && !old(locked) && i >= |old(rows)|)
    {
      OverrideVerdict(criteria, State(), i, score, feedback);
      if i < |rows| {
        OverrideStores(flush, State(), i, score, feedback);
      }
      hide StoresOverride, ScoreFits;
      if score.None? && feedback.None? {
        return Err(NothingToChange);
      }
      if locked {
        return Err(Locked);
      }
      if i >= |rows| {
        return Err(NoSuchRow);
      }
      var row := rows[i];
      if score.Some? {
        var criterion := FindCriterion(criteria, row.criterion);
        if criterion.Some? && !(criterion.value.minScore <= score.value <= criterion.value.maxScore) {
          return Err(OutOfRange);
        }
      }
      var before := Values(row.teacher, row.feedback, row.final);
      var stored := rows;
      if score.Some? {
        row := row.(teacher := score, final := score.value);
        if flush {
          stored := stored[i := row];
        }
        total := SumScores(stored);
      }
      if feedback.Some? {
        row := row.(feedback := feedback);
        SumFinalsUpdate(rows, i, row);
        SumFinalsUpdate(rows, i, row.(feedback := rows[i].feedback));
      }
      log := log + [ScoreOverride(i, before, Values(row.teacher, row.feedback, row.final))];
      rows := rows[i := row];
      return Ok(State());
    }

    /** Idempotent: locking a locked grade changes nothing. */
    method LockGrade() returns (performed: bool)
      modifies this
      ensures performed <==> !old(locked)
      ensures State() ==
              if performed then old(State()).(locked := true, log := old(log) + [GradeLocked]) else old(State())
    {
      performed := !locked;
      if performed {
        locked := true;
        log := log + [GradeLocked];
      }
    }
  }

  method SumScores(rows: seq<Row>) returns (sum: int)
    ensures sum == SumFinals(rows)
  {
    sum := 0;
    for i := 0 to |rows|
      invariant sum == SumFinals(rows[..i])
    {
      assert rows[..i + 1][..i] == rows[..i];
      sum := sum + rows[i].final;
    }
    assert rows[..|rows|] == rows;
  }
}
