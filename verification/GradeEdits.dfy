/** Edits of one grade, taken apart and interleaved with each other and with lockers (`grade.py`).

An edit request begins its transaction, checks the lock when it loads the grade, then loads its row,
then selects the final scores, and commits last. The session writes only the columns whose value
differs from the one it loaded, and nothing in the write looks at the lock again. Lockers go through
one conditional UPDATE, whose winner holds the grade's row until it commits or rolls back.

Requests and lockers are named by the order in which their transactions began. That is the time the
database stamps their audit entries with; `GradeListing` is about the log in that order.
 */
module GradeEdits {
  import opened Outcomes
  import Parsing
  import opened Grades

  /** The rubric snapshot, and whether pending changes are flushed before the SELECT. */
  datatype Setup = Setup(flush: bool, criteria: seq<Criterion>)

  /** What a request has read so far: summary and total with the grade, then its row, then the rows as
      its SELECT shows them. */
  datatype InFlight = InFlight(edit: Edit, edited: Option<string>, total: int, row: Option<Values>,
                               seen: Option<seq<Row>>)

  /** `stamps` goes with the grade's log, entry by entry. `begun` holds the edit requests that have not
      loaded the grade yet, `holder` the locker that has won the UPDATE. */
  datatype System = System(
    grade: Grade,
    stamps: seq<nat>,
    clock: nat,
    begun: set<nat>,
    editing: map<nat, InFlight>,
    lockers: set<nat>,
    holder: Option<nat>,
    returned: nat)

  datatype Action =
    | BeginEdit
    | OpenEdit(request: nat, edit: Edit)
    | LoadRow(request: nat)
    | SelectFinals(request: nat)
    | FinishEdit(request: nat)
    | DropEdit(request: nat)
    | BeginLock
    | TryLock(locker: nat)
    | CommitLock
    | AbortLock

  // ---------------------------------------------------------------------------
  // The write of a request
  // ---------------------------------------------------------------------------

  /** What a column holds after a session that loaded `loaded` and leaves it at `now`. */
  function Column<T(==)>(stored: T, loaded: T, now: T): T {
    if now == loaded then stored else now
  }

  /** The loaded row as the request changed it. */
  function After(loaded: Values, e: Edit): Values
    requires e.Override?
  {
    Values(if e.score.Some? then e.score else loaded.teacher,
           if e.feedback.Some? then e.feedback else loaded.feedback,
           if e.score.Some? then e.score.value else loaded.final)
  }

  function WriteRow(stored: Row, loaded: Values, e: Edit): Row
    requires e.Override?
  {
    var now := After(loaded, e);
    stored.(teacher := Column(stored.teacher, loaded.teacher, now.teacher),
            feedback := Column(stored.feedback, loaded.feedback, now.feedback),
            final := Column(stored.final, loaded.final, now.final))
  }

  /** The request has read all it needs and can commit. */
  predicate Ready(f: InFlight) {
    f.edit.Override? ==> f.row.Some? && (f.edit.score.Some? ==> f.seen.Some?)
  }

  function LoadedText(g: Grade, f: InFlight): string {
    if f.edited.Some? then f.edited.value else g.summary
  }

  /** The audit entry of a request. */
  function EntryOf(g: Grade, f: InFlight): Entry
    requires Ready(f)
  {
    match f.edit
    case SetSummary(text) => FeedbackEdited(LoadedText(g, f), text)
    case Override(i, _, _) => ScoreOverride(i, f.row.value, After(f.row.value, f.edit))
  }

  function Written(g: Grade, f: InFlight): Grade
    requires Ready(f) && Applies(g, f.edit)
  {
    var log := g.log + [EntryOf(g, f)];
    match f.edit
    case SetSummary(text) => g.(edited := Column(g.edited, f.edited, Some(text)), log := log)
    case Override(i, score, _) =>
      g.(rows := g.rows[i := WriteRow(g.rows[i], f.row.value, f.edit)],
         total := if score.Some? then Column(g.total, f.total, SumFinals(f.seen.value)) else g.total,
         log := log)
  }

  /** The SELECT of a request: its own row shows pending values only if they were flushed. */
  function Selected(flush: bool, g: Grade, f: InFlight): seq<Row>
    requires f.edit.Override? && f.row.Some? && Applies(g, f.edit)
  {
    var i := f.edit.row;
    if flush then g.rows[i := WriteRow(g.rows[i], f.row.value, f.edit)] else g.rows
  }

  // ---------------------------------------------------------------------------
  // Steps
  // ---------------------------------------------------------------------------

  predicate Enabled(x: Setup, s: System, a: Action) {
    match a
    case BeginEdit => true
    case OpenEdit(r, e) => r in s.begun && OpenRefusal(s.grade, e).None?
    case LoadRow(r) =>
      && r in s.editing && s.editing[r].edit.Override? && s.editing[r].row.None?
      && Admissible(x.criteria, s.grade, s.editing[r].edit)
    case SelectFinals(r) =>
      && r in s.editing && s.editing[r].edit.Override? && s.editing[r].row.Some? && s.editing[r].edit.score.Some?
      && s.editing[r].seen.None? && Applies(s.grade, s.editing[r].edit)
    case FinishEdit(r) => r in s.editing && Ready(s.editing[r]) && Applies(s.grade, s.editing[r].edit)
    case DropEdit(r) => r in s.begun || r in s.editing
    case BeginLock => true
    case TryLock(l) => l in s.lockers && s.holder.None?
    case CommitLock => s.holder.Some?
    case AbortLock => s.holder.Some?
  }

  function Locking(g: Grade): Grade {
    g.(locked := true, log := g.log + [GradeLocked])
  }

  function LockCommitted(s: System): System
    requires s.holder.Some?
  {
    s.(grade := Locking(s.grade), stamps := s.stamps + [s.holder.value], holder := None, returned := s.returned + 1)
  }

  function Step(x: Setup, s: System, a: Action): System
    requires Enabled(x, s, a)
  {
    match a
    case BeginEdit => s.(begun := s.begun + {s.clock}, clock := s.clock + 1)
    case OpenEdit(r, e) =>
      s.(begun := s.begun - {r}, editing := s.editing[r := InFlight(e, s.grade.edited, s.grade.total, None, None)])
    case LoadRow(r) =>
      s.(editing := s.editing[r := s.editing[r].(row := Some(ValuesOf(s.grade.rows[s.editing[r].edit.row])))])
    case SelectFinals(r) =>
      s.(editing := s.editing[r := s.editing[r].(seen := Some(Selected(x.flush, s.grade, s.editing[r])))])
    case FinishEdit(r) =>
      s.(grade := Written(s.grade, s.editing[r]), stamps := s.stamps + [r], editing := s.editing - {r})
    case DropEdit(r) => s.(begun := s.begun - {r}, editing := s.editing - {r})
    case BeginLock => s.(lockers := s.lockers + {s.clock}, clock := s.clock + 1)
    case TryLock(l) =>
      if s.grade.locked then s.(lockers := s.lockers - {l}, returned := s.returned + 1)
      else s.(lockers := s.lockers - {l}, holder := Some(l))
    case CommitLock => LockCommitted(s)
    case AbortLock => s.(holder := None)
  }

  ghost predicate IsRun(x: Setup, s: System, actions: seq<Action>, s': System)
    decreases |actions|
  {
    if actions == [] then s == s'
    else Enabled(x, s, actions[0]) && IsRun(x, Step(x, s, actions[0]), actions[1..], s')
  }

  lemma {:induction false} RunSnoc(x: Setup, s: System, actions: seq<Action>, m: System, a: Action)
    requires IsRun(x, s, actions, m) && Enabled(x, m, a)
    ensures IsRun(x, s, actions + [a], Step(x, m, a))
    decreases |actions|
  {
    hide Step, Enabled;
    var all := actions + [a];
    if actions == [] {
      assert all[0] == a && all[1..] == [];
      assert IsRun(x, Step(x, m, a), all[1..], Step(x, m, a));
    } else {
      RunSnoc(x, Step(x, s, actions[0]), actions[1..], m, a);
      assert all[0] == actions[0] && all[1..] == actions[1..] + [a];
    }
  }

  lemma {:induction false} RunAppend(x: Setup, s: System, a: seq<Action>, m: System, b: seq<Action>, s': System)
    requires IsRun(x, s, a, m) && IsRun(x, m, b, s')
    ensures IsRun(x, s, a + b, s')
    decreases |a|
  {
    hide Step, Enabled;
    if a == [] {
      assert a + b == b;
    } else {
      RunAppend(x, Step(x, s, a[0]), a[1..], m, b, s');
      assert (a + b)[0] == a[0] && (a + b)[1..] == a[1..] + b;
    }
  }

  /** The system in which the AI has just graded an essay with the given response. */
  function Graded(criteria: seq<Criterion>, response: Parsing.Response): System {
    var g := NewGrade(criteria, response);
    System(g, seq(|g.log|, i => i), |g.log|, {}, map[], {}, None, 0)
  }

  // ---------------------------------------------------------------------------
  // What no step changes
  // ---------------------------------------------------------------------------

  predicate SameShape(g: Grade, g': Grade) {
    && |g'.rows| == |g.rows| && g'.summary == g.summary && g'.maxPossible == g.maxPossible
    && (forall i :: 0 <= i < |g.rows| ==> g'.rows[i].criterion == g.rows[i].criterion && g'.rows[i].ai == g.rows[i].ai)
    && g.log <= g'.log
  }

  lemma StepKeepsShape(x: Setup, s: System, a: Action)
    requires Enabled(x, s, a)
    ensures SameShape(s.grade, Step(x, s, a).grade)
  {
    hide OpenRefusal, RowRefusal, SumFinals, After, Column;
  }

  lemma {:induction false} RunKeepsShape(x: Setup, s: System, actions: seq<Action>, s': System)
    requires IsRun(x, s, actions, s')
    ensures SameShape(s.grade, s'.grade)
    decreases |actions|
  {
    if actions != [] {
      StepKeepsShape(x, s, actions[0]);
      hide Step, Enabled;
      RunKeepsShape(x, Step(x, s, actions[0]), actions[1..], s');
    }
  }

  lemma ShapeDecides(criteria: seq<Criterion>, g: Grade, g': Grade, e: Edit)
    requires SameShape(g, g')
    ensures RowRefusal(criteria, g', e) == RowRefusal(criteria, g, e)
    ensures InitialView(g') == InitialView(g)
  {
    hide OutOfBounds;
  }

  // ---------------------------------------------------------------------------
  // Invariants of every run
  // ---------------------------------------------------------------------------

  predicate RowBounded(row: Row, c: Criterion) {
    && row.criterion == c.id
    && (row.ai == 0 || Parsing.InRange(row.ai, c))
    && (row.teacher.Some? ==> Parsing.InRange(row.teacher.value, c))
    && (row.final == row.ai || Parsing.InRange(row.final, c))
  }

  predicate GradeBounded(criteria: seq<Criterion>, g: Grade) {
    && |g.rows| == |criteria| && (forall i :: 0 <= i < |g.rows| ==> RowBounded(g.rows[i], criteria[i]))
    && 0 <= g.total <= g.maxPossible == SumMax(criteria)
  }

  predicate FlightOk(criteria: seq<Criterion>, g: Grade, f: InFlight) {
    && (f.row.Some? ==> f.edit.Override? && Admissible(criteria, g, f.edit))
    && (f.seen.Some? ==> |f.seen.value| == |g.rows| && 0 <= SumFinals(f.seen.value) <= g.maxPossible)
    && (f.edited.Some? ==> g.edited.Some?)
  }

  predicate LocksOk(s: System) {
    && LockEntries(s.grade.log) == (if s.grade.locked then 1 else 0)
    && (!s.grade.locked ==> LateEdits(s.grade.log) == 0)
    && (s.holder.Some? ==> !s.grade.locked)
    && (s.returned > 0 ==> s.grade.locked)
  }

  /** Every transaction under way has its own start, later than none that is still to come. */
  predicate StampsOk(s: System) {
    && |s.stamps| == |s.grade.log|
    && (forall i :: 0 <= i < |s.stamps| ==> s.stamps[i] < s.clock)
    && (forall i, j :: 0 <= i < j < |s.stamps| ==> s.stamps[i] != s.stamps[j])
    && (forall r :: r in s.begun ==> r < s.clock && r !in s.stamps && r !in s.lockers && r !in s.editing)
    && (forall r :: r in s.editing ==> r < s.clock && r !in s.stamps && r !in s.lockers)
    && (forall l :: l in s.lockers ==> l < s.clock && l !in s.stamps)
    && (s.holder.Some? ==>
          && s.holder.value < s.clock && s.holder.value !in s.stamps && s.holder.value !in s.begun
          && s.holder.value !in s.editing && s.holder.value !in s.lockers)
  }

  predicate Inv(x: Setup, s: System) {
    && ValidRubric(x.criteria) && GradeBounded(x.criteria, s.grade) && LocksOk(s) && StampsOk(s)
    && forall r :: r in s.editing ==> FlightOk(x.criteria, s.grade, s.editing[r])
  }

  function LockEntries(log: seq<Entry>): nat {
    if log == [] then 0 else LockEntries(log[..|log| - 1]) + if log[|log| - 1].GradeLocked? then 1 else 0
  }

  predicate IsEdit(e: Entry) {
    e.FeedbackEdited? || e.ScoreOverride?
  }

  /** Edits that stand after the lock entry in a log. */
  function LateEdits(log: seq<Entry>): nat {
    if log == [] then 0
    else
      var init := log[..|log| - 1];
      LateEdits(init) + if LockEntries(init) > 0 && IsEdit(log[|log| - 1]) then 1 else 0
  }

  lemma LockCounts(log: seq<Entry>, e: Entry)
    ensures LockEntries(log + [e]) == LockEntries(log) + if e.GradeLocked? then 1 else 0
    ensures LateEdits(log + [e]) == LateEdits(log) + if LockEntries(log) > 0 && IsEdit(e) then 1 else 0
  {
    assert (log + [e])[..|log|] == log;
  }

  lemma BoundedSum(criteria: seq<Criterion>, rows: seq<Row>)
    requires ValidRubric(criteria) && |rows| == |criteria|
    requires forall i :: 0 <= i < |rows| ==> RowBounded(rows[i], criteria[i])
    ensures 0 <= SumFinals(rows) <= SumMax(criteria)
  {
    forall i | 0 <= i < |rows|
      ensures 0 <= rows[i].final <= criteria[i].maxScore
    {
      assert RowBounded(rows[i], criteria[i]);
    }
    SumBounded(rows, criteria);
  }

  lemma WrittenRowBounded(criteria: seq<Criterion>, g: Grade, f: InFlight)
    requires ValidRubric(criteria) && GradeBounded(criteria, g)
    requires f.edit.Override? && f.row.Some? && Admissible(criteria, g, f.edit)
    ensures RowBounded(WriteRow(g.rows[f.edit.row], f.row.value, f.edit), criteria[f.edit.row])
  {
    hide SumMax;
    var i := f.edit.row;
    assert RowBounded(g.rows[i], criteria[i]);
    FindCriterionAt(criteria, i);
  }

  lemma WrittenRowsSum(flush: bool, criteria: seq<Criterion>, g: Grade, f: InFlight)
    requires ValidRubric(criteria) && GradeBounded(criteria, g)
    requires f.edit.Override? && f.row.Some? && Admissible(criteria, g, f.edit)
    ensures |Selected(flush, g, f)| == |g.rows| && 0 <= SumFinals(Selected(flush, g, f)) <= g.maxPossible
    ensures forall i :: 0 <= i < |g.rows| ==>
              RowBounded(g.rows[f.edit.row := WriteRow(g.rows[f.edit.row], f.row.value, f.edit)][i], criteria[i])
  {
    WrittenRowBounded(criteria, g, f);
    hide RowBounded, WriteRow, OutOfBounds, SumFinals, SumMax, ValidRubric;
    BoundedSum(criteria, g.rows);
    BoundedSum(criteria, g.rows[f.edit.row := WriteRow(g.rows[f.edit.row], f.row.value, f.edit)]);
  }

  lemma WrittenBounded(criteria: seq<Criterion>, g: Grade, f: InFlight)
    requires ValidRubric(criteria) && GradeBounded(criteria, g) && FlightOk(criteria, g, f)
    requires Ready(f) && Applies(g, f.edit)
    ensures GradeBounded(criteria, Written(g, f))
  {
    if f.edit.Override? {
      WrittenRowsSum(false, criteria, g, f);
    }
    hide RowBounded, WriteRow, RowRefusal, SumFinals, SumMax, ValidRubric, After;
  }

  lemma StepKeepsStamps(x: Setup, s: System, a: Action)
    requires StampsOk(s) && Enabled(x, s, a)
    ensures StampsOk(Step(x, s, a))
  {
    hide OpenRefusal, RowRefusal, SumFinals, After, Column, WriteRow, Selected;
  }

  lemma FinishKeepsInv(x: Setup, s: System, r: nat)
    requires Inv(x, s) && Enabled(x, s, FinishEdit(r))
    ensures Inv(x, Step(x, s, FinishEdit(r)))
  {
    StepKeepsStamps(x, s, FinishEdit(r));
    hide SumFinals, SumMax, LockEntries, LateEdits, ValidRubric, RowRefusal;
    hide GradeBounded, WriteRow, After, InitialView, StampsOk;
    var f := s.editing[r];
    assert FlightOk(x.criteria, s.grade, f);
    WrittenBounded(x.criteria, s.grade, f);
    var g' := Written(s.grade, f);
    var entry := EntryOf(s.grade, f);
    assert g'.log == s.grade.log + [entry] && g'.locked == s.grade.locked && IsEdit(entry);
    LockCounts(s.grade.log, entry);
    StepKeepsShape(x, s, FinishEdit(r));
    FlightsStay(x.criteria, s, g');
  }

  lemma FlightsStay(criteria: seq<Criterion>, s: System, g': Grade)
    requires SameShape(s.grade, g') && (s.grade.edited.Some? ==> g'.edited.Some?)
    requires forall r :: r in s.editing ==> FlightOk(criteria, s.grade, s.editing[r])
    ensures forall r :: r in s.editing ==> FlightOk(criteria, g', s.editing[r])
  {
    hide RowRefusal, InitialView;
    forall r | r in s.editing
      ensures FlightOk(criteria, g', s.editing[r])
    {
      assert FlightOk(criteria, s.grade, s.editing[r]);
      ShapeDecides(criteria, s.grade, g', s.editing[r].edit);
    }
  }

  lemma CommitKeepsInv(x: Setup, s: System)
    requires Inv(x, s) && s.holder.Some?
    ensures Inv(x, LockCommitted(s))
  {
    StepKeepsStamps(x, s, CommitLock);
    hide SumFinals, SumMax, LockEntries, LateEdits, ValidRubric, RowRefusal, RowBounded, StampsOk;
    LockCounts(s.grade.log, GradeLocked);
    FlightsStay(x.criteria, s, Locking(s.grade));
  }

  lemma SelectKeepsInv(x: Setup, s: System, r: nat)
    requires Inv(x, s) && Enabled(x, s, SelectFinals(r))
    ensures Inv(x, Step(x, s, SelectFinals(r)))
  {
    StepKeepsStamps(x, s, SelectFinals(r));
    hide SumMax, LockEntries, LateEdits, ValidRubric, RowRefusal, GradeBounded, Selected, StampsOk;
    assert FlightOk(x.criteria, s.grade, s.editing[r]);
    WrittenRowsSum(x.flush, x.criteria, s.grade, s.editing[r]);
    hide SumFinals, WriteRow;
  }

  lemma StepKeepsInv(x: Setup, s: System, a: Action)
    requires Inv(x, s) && Enabled(x, s, a)
    ensures Inv(x, Step(x, s, a))
  {
    StepKeepsStamps(x, s, a);
    hide GradeBounded, SumFinals, LockEntries, LateEdits, ValidRubric;
    hide RowRefusal, WriteRow, Written, Selected, StampsOk;
    match a
    case FinishEdit(r) => FinishKeepsInv(x, s, r);
    case SelectFinals(r) => SelectKeepsInv(x, s, r);
    case CommitLock => CommitKeepsInv(x, s);
    case _ =>
  }

  lemma {:induction false} RunKeepsInv(x: Setup, s: System, actions: seq<Action>, s': System)
    requires Inv(x, s) && IsRun(x, s, actions, s')
    ensures Inv(x, s')
    decreases |actions|
  {
    hide Inv, Step, Enabled;
    if actions != [] {
      StepKeepsInv(x, s, actions[0]);
      RunKeepsInv(x, Step(x, s, actions[0]), actions[1..], s');
    }
  }

  lemma {:induction false} ClampsDoNotLock(scores: seq<Parsing.CriterionScore>)
    ensures LockEntries(ClampEntries(scores)) == 0 && LateEdits(ClampEntries(scores)) == 0
  {
    if scores != [] {
      var n := |scores| - 1;
      ClampsDoNotLock(scores[..n]);
      var before := ClampEntries(scores[..n]);
      LockCounts(before, ScoreClamped(n, scores[n].rawScore, AiScore(scores[n])));
      hide LockEntries, LateEdits;
      assert !scores[n].clamped ==> ClampEntries(scores) == before;
    }
  }

  lemma InitialStamps(criteria: seq<Criterion>, response: Parsing.Response)
    ensures StampsOk(Graded(criteria, response))
  {
    hide NewGrade;
    var s := Graded(criteria, response);
    assert |s.stamps| == |s.grade.log| && forall i :: 0 <= i < |s.stamps| ==> s.stamps[i] == i;
  }

  lemma InitialBounds(criteria: seq<Criterion>, g: Grade)
    requires GradeOk(criteria, g)
    ensures GradeBounded(criteria, g)
  {
    hide LogOk, SumMax;
    forall i | 0 <= i < |g.rows|
      ensures RowBounded(g.rows[i], criteria[i])
    {
      assert RowOk(g.rows[i], criteria[i]);
    }
  }

  lemma InitialInv(py: Parsing.Python, items: seq<Parsing.Json>, fields: map<string, Parsing.Json>, x: Setup)
    requires ValidRubric(x.criteria)
    ensures Inv(x, Graded(x.criteria, Parsing.Read(py, items, fields, x.criteria)))
  {
    var response := Parsing.Read(py, items, fields, x.criteria);
    NewGradeOk(py, items, fields, x.criteria);
    hide Parsing.Read;
    ClampsDoNotLock(response.scores);
    InitialStamps(x.criteria, response);
    hide GradeOk, GradeBounded, StampsOk, SumFinals, ValidRubric, NewRows, ClampEntries, LockEntries, LateEdits;
    InitialBounds(x.criteria, NewGrade(x.criteria, response));
  }

  // ---------------------------------------------------------------------------
  // The log in commit order
  // ---------------------------------------------------------------------------

  /** At its write a request still has the stored values it is going to record as the old ones. */
  predicate UpToDate(g: Grade, f: InFlight)
    requires Ready(f) && Applies(g, f.edit)
  {
    match f.edit
    case SetSummary(_) => LoadedText(g, f) == ShownSummary(g)
    case Override(i, _, _) => f.row.value == ValuesOf(g.rows[i])
  }

  lemma UpToDateWrite(g: Grade, f: InFlight)
    requires Ready(f) && Applies(g, f.edit) && (f.edited.Some? ==> g.edited.Some?) && UpToDate(g, f)
    ensures ViewOf(Written(g, f)) == ReplayEntry(ViewOf(g), EntryOf(g, f))
  {
    assert ViewOf(Written(g, f)).rows == ReplayEntry(ViewOf(g), EntryOf(g, f)).rows;
  }

  /** A write keeps the log in commit order faithful exactly when its request is up to date. */
  lemma WriteKeepsLog(g: Grade, f: InFlight)
    requires LogOk(g) && Ready(f) && Applies(g, f.edit) && (f.edited.Some? ==> g.edited.Some?)
    ensures LogOk(Written(g, f)) <==> UpToDate(g, f)
    ensures !UpToDate(g, f) ==> !EntryOk(Written(g, f), |g.log|)
  {
    var g' := Written(g, f);
    var entry := EntryOf(g, f);
    assert g'.log == g.log + [entry] && g'.log[..|g.log|] == g.log;
    assert InitialView(g') == InitialView(g);
    if UpToDate(g, f) {
      UpToDateWrite(g, f);
      hide LogOk, InitialView, ViewOf, ReplayEntry, Written;
      LogAppend(g, entry, g');
    } else {
      hide InitialView, Replay;
      assert Replay(InitialView(g'), g'.log[..|g.log|]) == ViewOf(g);
      assert |g.log| < |g'.log|;
      assert LogOk(g') ==> EntryOk(g', |g.log|);
    }
  }

  /** A wrong old value in the log stays wrong. */
  lemma EntryFixed(g: Grade, g': Grade, n: nat)
    requires SameShape(g, g') && n < |g.log|
    ensures EntryOk(g', n) == EntryOk(g, n)
  {
    ShapeDecides([], g, g', SetSummary(""));
    assert g'.log[..n] == g.log[..n] && g'.log[n] == g.log[n];
    hide InitialView, Replay;
  }

  /** Every request that commits in the run is up to date when it does. */
  ghost predicate CommitsUpToDate(x: Setup, s: System, actions: seq<Action>)
    decreases |actions|
  {
    actions == [] ||
    (Enabled(x, s, actions[0])
     && (actions[0].FinishEdit? ==> UpToDate(s.grade, s.editing[actions[0].request]))
     && CommitsUpToDate(x, Step(x, s, actions[0]), actions[1..]))
  }

  lemma LockLogOk(g: Grade)
    requires LogOk(g) && !g.locked
    ensures LogOk(Locking(g))
  {
    hide LogOk;
    assert InitialView(Locking(g)) == InitialView(g);
    assert ViewOf(Locking(g)) == ReplayEntry(ViewOf(g), GradeLocked);
    LogAppend(g, GradeLocked, Locking(g));
  }

  lemma StepLog(x: Setup, s: System, a: Action)
    requires Inv(x, s) && LogOk(s.grade) && Enabled(x, s, a)
    ensures var m := Step(x, s, a);
            if a.FinishEdit? && !UpToDate(s.grade, s.editing[a.request])
            then |s.grade.log| < |m.grade.log| && !EntryOk(m.grade, |s.grade.log|)
            else LogOk(m.grade)
  {
    hide LogOk, UpToDate, GradeBounded, ValidRubric, LockEntries, LateEdits, OpenRefusal, RowRefusal, EntryOk, StampsOk;
    if a.FinishEdit? {
      assert FlightOk(x.criteria, s.grade, s.editing[a.request]);
      WriteKeepsLog(s.grade, s.editing[a.request]);
    } else if a.CommitLock? {
      LockLogOk(s.grade);
    }
  }

  /** Over a run the log in commit order replays to the stored state, each entry starting from where the
      one before it ended, exactly when every request that commits is up to date. */
  lemma {:induction false} CommitOrderFaithful(x: Setup, s: System, actions: seq<Action>, s': System)
    requires Inv(x, s) && LogOk(s.grade) && IsRun(x, s, actions, s')
    ensures LogOk(s'.grade) <==> CommitsUpToDate(x, s, actions)
    decreases |actions|
  {
    if actions != [] {
      var a := actions[0];
      var m := Step(x, s, a);
      StepLog(x, s, a);
      StepKeepsInv(x, s, a);
      hide Inv, Step, Enabled, UpToDate, EntryOk, InitialView, Replay;
      if a.FinishEdit? && !UpToDate(s.grade, s.editing[a.request]) {
        RunKeepsShape(x, m, actions[1..], s');
        EntryFixed(m.grade, s'.grade, |s.grade.log|);
        assert |s.grade.log| < |s'.grade.log|;
      } else {
        hide LogOk;
        CommitOrderFaithful(x, m, actions[1..], s');
      }
    }
  }

  // ---------------------------------------------------------------------------
  // The final score and the teacher's
  // ---------------------------------------------------------------------------

  predicate Follows(row: Row) {
    row.final == if row.teacher.Some? then row.teacher.value else row.ai
  }

  /** The request repeats the AI's score on a row it loaded without a teacher score, so it does not write
      the final score, and another request has changed that since. */
  predicate Splits(g: Grade, f: InFlight)
    requires Ready(f) && Applies(g, f.edit)
  {
    match f.edit
    case SetSummary(_) => false
    case Override(i, score, _) =>
      score == Some(g.rows[i].ai) && f.row.value.teacher.None? && g.rows[i].final != g.rows[i].ai
  }

  lemma FinalFollowsTeacher(stored: Row, loaded: Values, e: Edit)
    requires e.Override? && Follows(stored)
    requires loaded.final == if loaded.teacher.Some? then loaded.teacher.value else stored.ai
    ensures Follows(WriteRow(stored, loaded, e)) <==>
            (e.score == Some(stored.ai) && loaded.teacher.None? ==> stored.final == stored.ai)
  {
  }

  predicate RowsFollow(g: Grade) {
    forall i :: 0 <= i < |g.rows| ==> Follows(g.rows[i])
  }

  /** The row a request loaded had a final score that followed the teacher's. */
  predicate LoadedFollows(g: Grade, f: InFlight) {
    f.row.Some? && f.edit.Override? && f.edit.row < |g.rows| ==>
      f.row.value.final == if f.row.value.teacher.Some? then f.row.value.teacher.value else g.rows[f.edit.row].ai
  }

  predicate AllFollow(s: System) {
    RowsFollow(s.grade) && forall r :: r in s.editing ==> LoadedFollows(s.grade, s.editing[r])
  }

  /** In every state on the way each final score is the teacher's if set and the AI's if not. */
  ghost predicate AlwaysFollows(x: Setup, s: System, actions: seq<Action>)
    decreases |actions|
  {
    RowsFollow(s.grade) &&
    (actions == [] || (Enabled(x, s, actions[0]) && AlwaysFollows(x, Step(x, s, actions[0]), actions[1..])))
  }

  ghost predicate NeverSplits(x: Setup, s: System, actions: seq<Action>)
    decreases |actions|
  {
    actions == [] ||
    (Enabled(x, s, actions[0])
     && (actions[0].FinishEdit? ==> !Splits(s.grade, s.editing[actions[0].request]))
     && NeverSplits(x, Step(x, s, actions[0]), actions[1..]))
  }

  lemma WriteFollows(g: Grade, f: InFlight)
    requires RowsFollow(g) && Ready(f) && Applies(g, f.edit) && LoadedFollows(g, f)
    ensures RowsFollow(Written(g, f)) <==> !Splits(g, f)
  {
    hide SumFinals;
    if f.edit.Override? {
      var i := f.edit.row;
      FinalFollowsTeacher(g.rows[i], f.row.value, f.edit);
      hide WriteRow, Follows;
      assert Written(g, f).rows[i] == WriteRow(g.rows[i], f.row.value, f.edit);
    }
  }

  lemma FollowStep(x: Setup, s: System, a: Action)
    requires AllFollow(s) && Enabled(x, s, a)
    ensures RowsFollow(Step(x, s, a).grade) <==> (a.FinishEdit? ==> !Splits(s.grade, s.editing[a.request]))
    ensures RowsFollow(Step(x, s, a).grade) ==> AllFollow(Step(x, s, a))
  {
    hide SumFinals, OpenRefusal, RowRefusal, WriteRow;
    StepKeepsShape(x, s, a);
    if a.FinishEdit? {
      WriteFollows(s.grade, s.editing[a.request]);
    }
    hide Written, Splits;
  }

  /** Over a run every final score follows the teacher's all the way exactly when no commit splits a row. */
  lemma {:induction false} FinalsFollow(x: Setup, s: System, actions: seq<Action>, s': System)
    requires AllFollow(s) && IsRun(x, s, actions, s')
    ensures AlwaysFollows(x, s, actions) <==> NeverSplits(x, s, actions)
    ensures AlwaysFollows(x, s, actions) ==> RowsFollow(s'.grade)
    decreases |actions|
  {
    if actions != [] {
      FollowStep(x, s, actions[0]);
      hide Step, Enabled, Splits;
      var m := Step(x, s, actions[0]);
      if RowsFollow(m.grade) {
        FinalsFollow(x, m, actions[1..], s');
      }
    }
  }

  /** A request that is up to date never splits a row. */
  lemma {:induction false} UpToDateNeverSplits(x: Setup, s: System, actions: seq<Action>, s': System)
    requires AllFollow(s) && IsRun(x, s, actions, s') && CommitsUpToDate(x, s, actions)
    ensures NeverSplits(x, s, actions)
    decreases |actions|
  {
    if actions != [] {
      var a := actions[0];
      if a.FinishEdit? {
        CurrentDoesNotSplit(s.grade, s.editing[a.request]);
      }
      FollowStep(x, s, a);
      hide Step, Enabled, Splits, UpToDate, AllFollow;
      UpToDateNeverSplits(x, Step(x, s, a), actions[1..], s');
    }
  }

  lemma CurrentDoesNotSplit(g: Grade, f: InFlight)
    requires RowsFollow(g) && Ready(f) && Applies(g, f.edit) && UpToDate(g, f)
    ensures !Splits(g, f)
  {
    assert f.edit.Override? ==> Follows(g.rows[f.edit.row]);
  }

  // ---------------------------------------------------------------------------
  // Edits after the lock
  // ---------------------------------------------------------------------------

  /** The requests in flight whose edit the row checks would let through. */
  function Viable(x: Setup, s: System): set<nat> {
    set r | r in s.editing && Admissible(x.criteria, s.grade, s.editing[r].edit)
  }

  /** Those of them that began at `from` or later. */
  function ViableFrom(x: Setup, s: System, from: nat): set<nat> {
    set r | r in Viable(x, s) && from <= r
  }

  /** Recorded edits whose request began at `from` or later. */
  function EditsFrom(log: seq<Entry>, stamps: seq<nat>, from: nat): nat
    requires |stamps| == |log|
  {
    if log == [] then 0
    else
      var n := |log| - 1;
      EditsFrom(log[..n], stamps[..n], from) + if IsEdit(log[n]) && from <= stamps[n] then 1 else 0
  }

  lemma EditsFromSnoc(log: seq<Entry>, stamps: seq<nat>, e: Entry, r: nat, from: nat)
    requires |stamps| == |log|
    ensures EditsFrom(log + [e], stamps + [r], from) ==
            EditsFrom(log, stamps, from) + if IsEdit(e) && from <= r then 1 else 0
  {
    assert (log + [e])[..|log|] == log && (stamps + [r])[..|log|] == stamps;
  }

  lemma LockedStep(x: Setup, s: System, a: Action, from: nat)
    requires Inv(x, s) && s.grade.locked && Enabled(x, s, a)
    ensures var m := Step(x, s, a);
            && m.grade.locked && Viable(x, m) <= Viable(x, s) && |m.stamps| == |m.grade.log| && s.stamps <= m.stamps
            && (!a.FinishEdit? ==> m.grade == s.grade && m.stamps == s.stamps)
            && (a.FinishEdit? ==>
                  && a.request in Viable(x, s) && Viable(x, m) == Viable(x, s) - {a.request}
                  && EditsFrom(m.grade.log, m.stamps, from) ==
                     EditsFrom(s.grade.log, s.stamps, from) + if from <= a.request then 1 else 0)
  {
    StepKeepsStamps(x, s, a);
    hide GradeBounded, ValidRubric, LockEntries, LateEdits, RowRefusal;
    hide SumFinals, After, WriteRow, InitialView, EditsFrom;
    var m := Step(x, s, a);
    StepKeepsShape(x, s, a);
    forall e
      ensures RowRefusal(x.criteria, m.grade, e) == RowRefusal(x.criteria, s.grade, e)
    {
      ShapeDecides(x.criteria, s.grade, m.grade, e);
    }
    if a.FinishEdit? {
      assert FlightOk(x.criteria, s.grade, s.editing[a.request]);
      EditsFromSnoc(s.grade.log, s.stamps, EntryOf(s.grade, s.editing[a.request]), a.request, from);
      SummaryIsViable(x.criteria, s.grade, s.editing[a.request]);
    }
  }

  lemma SummaryIsViable(criteria: seq<Criterion>, g: Grade, f: InFlight)
    ensures f.edit.SetSummary? ==> Admissible(criteria, g, f.edit)
  {
  }

  /** On a locked grade, recorded edits and viable requests together never grow. */
  lemma {:induction false} LockedBound(x: Setup, s: System, actions: seq<Action>, s': System, from: nat)
    requires Inv(x, s) && s.grade.locked && IsRun(x, s, actions, s')
    ensures |s'.stamps| == |s'.grade.log| && s.stamps <= s'.stamps
    ensures EditsFrom(s'.grade.log, s'.stamps, from) + |ViableFrom(x, s', from)| <=
            EditsFrom(s.grade.log, s.stamps, from) + |ViableFrom(x, s, from)|
    ensures Viable(x, s) == {} ==> s'.grade == s.grade
    decreases |actions|
  {
    if actions != [] {
      var a := actions[0];
      var m := Step(x, s, a);
      StepKeepsInv(x, s, a);
      LockedStep(x, s, a, from);
      hide Inv, Step, Enabled, EditsFrom, Viable;
      LockedBound(x, m, actions[1..], s', from);
      FewerViable(x, s, m, a, from);
    }
  }

  lemma FewerViable(x: Setup, s: System, m: System, a: Action, from: nat)
    requires Viable(x, m) <= Viable(x, s)
    ensures |ViableFrom(x, m, from)| <= |ViableFrom(x, s, from)|
    ensures a.FinishEdit? && a.request in Viable(x, s) && Viable(x, m) == Viable(x, s) - {a.request} ==>
              |ViableFrom(x, m, from)| == |ViableFrom(x, s, from)| - if from <= a.request then 1 else 0
  {
    hide Viable;
    SubsetSize(ViableFrom(x, m, from), ViableFrom(x, s, from));
    if a.FinishEdit? && a.request in Viable(x, s) && Viable(x, m) == Viable(x, s) - {a.request} {
      assert ViableFrom(x, m, from) == ViableFrom(x, s, from) - {a.request};
    }
  }

  lemma SubsetSize(a: set<nat>, b: set<nat>)
    requires a <= b
    ensures |a| <= |b|
  {
    assert b == a + (b - a);
  }

  lemma ReadRow(x: Setup, s: System, r: nat) returns (actions: seq<Action>, s': System)
    requires Inv(x, s) && r in Viable(x, s)
    ensures IsRun(x, s, actions, s') && s' == s.(editing := s'.editing)
    ensures r in s'.editing && s'.editing == s.editing[r := s'.editing[r]] && s'.editing[r].edit == s.editing[r].edit
    ensures s.editing[r].edit.Override? ==> s'.editing[r].row.Some?
  {
    hide GradeBounded, ValidRubric, LockEntries, LateEdits, OpenRefusal, SumFinals, StampsOk;
    assert IsRun(x, s, [], s);
    if s.editing[r].edit.Override? && s.editing[r].row.None? {
      s' := Step(x, s, LoadRow(r));
      RunSnoc(x, s, [], s, LoadRow(r));
      actions := [] + [LoadRow(r)];
    } else {
      actions, s' := [], s;
      assert s.editing == s.editing[r := s.editing[r]];
    }
  }

  lemma ReadFinals(x: Setup, s0: System, before: seq<Action>, s: System, r: nat)
    returns (actions: seq<Action>, s': System)
    requires IsRun(x, s0, before, s) && r in Viable(x, s)
    requires s.editing[r].edit.Override? ==> s.editing[r].row.Some?
    ensures IsRun(x, s0, actions, s') && s' == s.(editing := s'.editing)
    ensures r in s'.editing && s'.editing == s.editing[r := s'.editing[r]] && s'.editing[r].edit == s.editing[r].edit
    ensures Ready(s'.editing[r])
  {
    hide OpenRefusal, SumFinals, IsRun, Selected;
    var f := s.editing[r];
    if f.edit.Override? && f.edit.score.Some? && f.seen.None? {
      s' := Step(x, s, SelectFinals(r));
      RunSnoc(x, s0, before, s, SelectFinals(r));
      actions := before + [SelectFinals(r)];
    } else {
      actions, s' := before, s;
      assert s.editing == s.editing[r := s.editing[r]];
    }
  }

  /** Any viable request can go through, lock or no lock. */
  lemma GoThrough(x: Setup, s: System, r: nat, from: nat) returns (actions: seq<Action>, s': System)
    requires Inv(x, s) && s.grade.locked && r in Viable(x, s)
    ensures IsRun(x, s, actions, s')
    ensures Inv(x, s') && s'.grade.locked && |s'.stamps| == |s'.grade.log|
    ensures EditsFrom(s'.grade.log, s'.stamps, from) ==
            EditsFrom(s.grade.log, s.stamps, from) + if from <= r then 1 else 0
    ensures Viable(x, s') == Viable(x, s) - {r} && s'.grade != s.grade
  {
    var a, m := ReadRow(x, s, r);
    assert Viable(x, m) == Viable(x, s);
    var b, n := ReadFinals(x, s, a, m, r);
    assert Viable(x, n) == Viable(x, s);
    RunKeepsInv(x, s, b, n);
    var finish := FinishEdit(r);
    assert Applies(n.grade, n.editing[r].edit);
    hide Inv, Viable, IsRun, EditsFrom;
    s' := Step(x, n, finish);
    RunSnoc(x, s, b, n, finish);
    actions := b + [finish];
    StepKeepsInv(x, n, finish);
    LockedStep(x, n, finish, from);
  }

  /** The bound is attained: all of them can be recorded. */
  lemma {:induction false} LockedAttained(x: Setup, s: System, from: nat) returns (actions: seq<Action>, s': System)
    requires Inv(x, s) && s.grade.locked
    ensures IsRun(x, s, actions, s') && |s'.stamps| == |s'.grade.log|
    ensures EditsFrom(s'.grade.log, s'.stamps, from) ==
            EditsFrom(s.grade.log, s.stamps, from) + |ViableFrom(x, s, from)|
    decreases |Viable(x, s)|
  {
    StampLengths(x, s);
    hide Inv, Viable, EditsFrom, Step, Enabled;
    if r :| r in Viable(x, s) {
      var a, m := GoThrough(x, s, r, from);
      assert |Viable(x, s) - {r}| == |Viable(x, s)| - 1;
      FewerViable(x, s, m, FinishEdit(r), from);
      var b, n := LockedAttained(x, m, from);
      RunAppend(x, s, a, m, b, n);
      actions, s' := a + b, n;
    } else {
      actions, s' := [], s;
      assert ViableFrom(x, s, from) == {};
    }
  }

  lemma StampLengths(x: Setup, s: System)
    requires Inv(x, s)
    ensures |s.stamps| == |s.grade.log|
  {
  }

  /** No continuation changes the grade. */
  ghost predicate Final(x: Setup, s: System) {
    forall actions, s' :: IsRun(x, s, actions, s') ==> s'.grade == s.grade
  }

  /** A locked grade is final exactly when no viable edit is in flight. */
  lemma LockedIsFinal(x: Setup, s: System)
    requires Inv(x, s) && s.grade.locked
    ensures Final(x, s) <==> Viable(x, s) == {}
  {
    hide Inv, Viable, Step, Enabled, IsRun, EditsFrom;
    if r :| r in Viable(x, s) {
      var actions, s' := GoThrough(x, s, r, 0);
    } else {
      assert Viable(x, s) == {};
      forall actions, s' | IsRun(x, s, actions, s')
        ensures s'.grade == s.grade
      {
        LockedBound(x, s, actions, s', 0);
      }
    }
  }

  lemma ViableAtLock(x: Setup, s: System)
    requires s.holder.Some?
    ensures Viable(x, LockCommitted(s)) == Viable(x, s)
  {
    hide OutOfBounds;
  }
}
