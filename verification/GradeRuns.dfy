/** What holds of a grade over every run of edit requests and lockers, and runs that show what does not.
 */
module GradeRuns {
  import opened Outcomes
  import Parsing
  import opened Grades
  import opened GradeEdits
  import opened GradeListing
  import opened GradeTotals

  // ---------------------------------------------------------------------------
  // Edits that do not overlap
  // ---------------------------------------------------------------------------

  /** An edit's transaction begins only when no other edit is under way. */
  ghost predicate OneEditAtATime(x: Setup, s: System, actions: seq<Action>)
    decreases |actions|
  {
    actions == [] ||
    (Enabled(x, s, actions[0])
     && (actions[0].BeginEdit? ==> s.begun == {} && s.editing == map[])
     && OneEditAtATime(x, Step(x, s, actions[0]), actions[1..]))
  }

  /** Whatever the request has read is still so. */
  predicate Current(flush: bool, g: Grade, f: InFlight) {
    && f.edited == g.edited && f.total == g.total
    && (f.row.Some? ==> f.edit.Override? && Applies(g, f.edit) && f.row.value == ValuesOf(g.rows[f.edit.row]))
    && (f.seen.Some? ==> f.row.Some? && f.seen.value == Selected(flush, g, f))
  }

  predicate UnderWay(s: System, r: nat) {
    r in s.begun || r in s.editing
  }

  /** At most one edit is under way, it has nothing stale, and it began after every recorded one. */
  ghost predicate Alone(x: Setup, s: System) {
    && |s.stamps| == |s.grade.log|
    && (forall r, q :: UnderWay(s, r) && UnderWay(s, q) ==> r == q)
    && (forall r :: r in s.editing ==> Current(x.flush, s.grade, s.editing[r]))
    && (forall i, r :: 0 <= i < |s.stamps| && UnderWay(s, r) && IsEdit(s.grade.log[i]) ==> s.stamps[i] < r)
  }

  /** Then a request's write is the edit made in one step. */
  lemma WriteIsApply(flush: bool, g: Grade, f: InFlight)
    requires Ready(f) && Applies(g, f.edit) && Current(flush, g, f)
    ensures UpToDate(g, f) && Written(g, f) == Apply(flush, g, f.edit)
  {
    hide SumFinals;
    if f.edit.Override? {
      assert WriteRow(g.rows[f.edit.row], f.row.value, f.edit) ==
             Overridden(g.rows[f.edit.row], f.edit.score, f.edit.feedback);
    }
  }

  /** A request passes the checks it makes on the way exactly when something is given, the grade is unlocked
      when it is loaded, and, when the row is loaded, the row exists and a given score fits its criterion. */
  lemma PassesExactly(x: Setup, s: System, r: nat, i: nat, score: Option<int>, feedback: Option<string>)
    ensures Enabled(x, s, OpenEdit(r, Override(i, score, feedback))) <==>
            r in s.begun && (score.Some? || feedback.Some?) && !s.grade.locked
    ensures r in s.editing && s.editing[r].edit == Override(i, score, feedback) && s.editing[r].row.None? ==>
              (Enabled(x, s, LoadRow(r)) <==>
               i < |s.grade.rows| && (score.Some? ==> ScoreFits(x.criteria, s.grade.rows[i].criterion, score.value)))
  {
    if i < |s.grade.rows| && score.Some? {
      FirstCriterion(x.criteria, s.grade.rows[i].criterion, score.value);
    }
    hide OutOfBounds, ScoreFits;
  }

  /** The commit of a request that has read nothing stale stores what was given, and nothing else. */
  lemma CommitStores(x: Setup, s: System, r: nat)
    requires Enabled(x, s, FinishEdit(r)) && Current(x.flush, s.grade, s.editing[r])
    ensures match s.editing[r].edit
            case SetSummary(text) =>
              StoresSummary(s.grade, Step(x, s, FinishEdit(r)).grade, text)
            case Override(i, score, feedback) =>
              StoresOverride(x.flush, s.grade, Step(x, s, FinishEdit(r)).grade, i, score, feedback)
  {
    var f := s.editing[r];
    WriteIsApply(x.flush, s.grade, f);
    if f.edit.Override? {
      OverrideStores(x.flush, s.grade, f.edit.row, f.edit.score, f.edit.feedback);
    }
    hide SumFinals, Written, StoresOverride, Current;
  }

  lemma AloneStep(x: Setup, s: System, a: Action)
    requires Alone(x, s) && StampsOk(s) && Enabled(x, s, a)
    requires a.BeginEdit? ==> s.begun == {} && s.editing == map[]
    ensures Alone(x, Step(x, s, a))
  {
    hide SumFinals, OpenRefusal, OutOfBounds, WriteRow, After;
    var m := Step(x, s, a);
    assert forall r :: UnderWay(m, r) ==> UnderWay(s, r) || (a.BeginEdit? && r == s.clock);
    if a.FinishEdit? {
      assert UnderWay(s, a.request);
      forall r
        ensures r !in m.editing && r !in m.begun
      {
        assert UnderWay(m, r) ==> UnderWay(s, r);
      }
    }
  }

  lemma NothingLater(x: Setup, s: System, r: nat)
    requires Alone(x, s) && StampsOk(s) && r in s.editing
    ensures forall i :: 0 <= i < |ListedAfter(s, r)| ==> !IsEdit(ListedAfter(s, r)[i])
  {
    var commits := Commits(s.grade.log, s.stamps);
    ListedSorts(commits);
    var list := Listed(commits);
    PlaceSplits(list, r);
    var p := Place(list, r);
    hide Listed, Place, StampsOk;
    assert UnderWay(s, r);
    forall i | 0 <= i < |list[p..]|
      ensures !IsEdit(list[p..][i].entry)
    {
      assert list[p + i] in multiset(commits);
      var j :| 0 <= j < |commits| && commits[j] == list[p + i];
    }
  }

  lemma AloneInPlace(x: Setup, s: System, r: nat)
    requires Alone(x, s) && StampsOk(s) && Enabled(x, s, FinishEdit(r))
    ensures InPlace(s, r) && UpToDate(s.grade, s.editing[r])
    ensures Step(x, s, FinishEdit(r)).grade == Apply(x.flush, s.grade, s.editing[r].edit)
  {
    WriteIsApply(x.flush, s.grade, s.editing[r]);
    NothingLater(x, s, r);
    hide StampsOk, ListedAfter, ListedBefore, Written, Apply, UpToDate, Fits, Replay;
  }

  lemma FlushedStep(x: Setup, s: System, a: Action)
    requires x.flush && Inv(x, s) && Alone(x, s) && Right(s.grade) && Enabled(x, s, a)
    ensures Right(Step(x, s, a).grade)
  {
    hide SumFinals, GradeBounded, ValidRubric, LocksOk, OpenRefusal, RowRefusal;
    hide Alone, Written, Apply, Selected, StampsOk;
    if a.FinishEdit? {
      AloneInPlace(x, s, a.request);
      assert FlightOk(x.criteria, s.grade, s.editing[a.request]);
      SummaryIsViable(x.criteria, s.grade, s.editing[a.request]);
      FlushedTotal(x.criteria, s.grade, s.editing[a.request].edit);
    }
  }

  /** When edits do not overlap every commit is up to date and in place, however lockers interleave with
      them, and with a flush the total stays the sum of the final scores. */
  lemma {:induction false} SeparateEdits(x: Setup, s: System, actions: seq<Action>, s': System)
    requires Inv(x, s) && Alone(x, s) && IsRun(x, s, actions, s') && OneEditAtATime(x, s, actions)
    ensures CommitsUpToDate(x, s, actions) && CommitsInPlace(x, s, actions)
    ensures x.flush && Right(s.grade) ==> Right(s'.grade)
    decreases |actions|
  {
    if actions != [] {
      var a := actions[0];
      AloneStep(x, s, a);
      StepKeepsInv(x, s, a);
      if a.FinishEdit? {
        AloneInPlace(x, s, a.request);
      }
      if x.flush && Right(s.grade) {
        FlushedStep(x, s, a);
      }
      hide Inv, Step, Enabled, UpToDate, InPlace, Right, UnderWay, Current;
      SeparateEdits(x, Step(x, s, a), actions[1..], s');
    }
  }

  // ---------------------------------------------------------------------------
  // Main results
  // ---------------------------------------------------------------------------

  /** The start of every run: an essay the AI has just graded, from any response. */
  function Start(py: Parsing.Python, items: seq<Parsing.Json>, fields: map<string, Parsing.Json>, x: Setup): System {
    Graded(x.criteria, Parsing.Read(py, items, fields, x.criteria))
  }

  lemma LastPlace(list: seq<Stamped>, start: nat)
    requires list != [] ==> list[|list| - 1].start < start
    ensures Place(list, start) == |list|
  {
  }

  lemma {:induction false} InOrderAlready(commits: seq<Stamped>)
    requires forall i :: 0 <= i < |commits| ==> commits[i].start == i
    ensures Listed(commits) == commits
  {
    if commits != [] {
      var init, last := commits[..|commits| - 1], commits[|commits| - 1];
      InOrderAlready(init);
      LastPlace(init, last.start);
      hide Place;
      assert init[..|init|] == init && commits == init + [last];
    }
  }

  lemma StartIsFaithful(s: System)
    requires s.stamps == seq(|s.grade.log|, i => i) && LogOk(s.grade)
    ensures Faithful(s)
  {
    hide LogOk, Listed;
    InOrderAlready(Commits(s.grade.log, s.stamps));
    assert ListedLog(s) == s.grade.log;
    assert s.grade.(log := s.grade.log) == s.grade;
  }

  lemma AllRowsFollow(criteria: seq<Criterion>, g: Grade)
    requires GradeOk(criteria, g)
    ensures RowsFollow(g)
  {
    hide LogOk, SumMax;
    assert forall i :: 0 <= i < |g.rows| ==> RowOk(g.rows[i], criteria[i]);
  }

  lemma NothingYet(s: System, x: Setup)
    requires s.begun == {} && s.editing == map[] && |s.stamps| == |s.grade.log| && RowsFollow(s.grade)
    ensures AllFollow(s) && AllSee(s) && Alone(x, s)
  {
    hide RowsFollow;
  }

  lemma StartIsGood(py: Parsing.Python, items: seq<Parsing.Json>, fields: map<string, Parsing.Json>, x: Setup)
    requires ValidRubric(x.criteria)
    ensures var s := Start(py, items, fields, x);
            Inv(x, s) && LogOk(s.grade) && Faithful(s) && AllFollow(s) && Right(s.grade) && AllSee(s) && Alone(x, s)
  {
    var s := Start(py, items, fields, x);
    InitialInv(py, items, fields, x);
    NewGradeOk(py, items, fields, x.criteria);
    AllRowsFollow(x.criteria, s.grade);
    hide Parsing.Read, NewGrade, LogOk, SumFinals, ValidRubric, Inv, Faithful, AllFollow, AllSee, Alone, RowsFollow;
    hide RowOk, SumMax;
    StartIsFaithful(s);
    NothingYet(s, x);
  }

  /** Whatever the AI answered and whatever requests and lockers interleave: one score row per criterion,
      every score in its range, the total between 0 and the maximum, and one lock entry exactly when the
      grade is locked, which it is once any locker has returned. */
  lemma EveryGradeIsSound(py: Parsing.Python, items: seq<Parsing.Json>, fields: map<string, Parsing.Json>, x: Setup,
                          actions: seq<Action>, s: System)
    requires ValidRubric(x.criteria) && IsRun(x, Start(py, items, fields, x), actions, s)
    ensures GradeBounded(x.criteria, s.grade) && LocksOk(s)
  {
    InitialInv(py, items, fields, x);
    RunKeepsInv(x, Start(py, items, fields, x), actions, s);
  }

  /** The returned log is faithful all the way exactly when every commit is in place, the log in commit order at
      the end exactly when every commit is up to date, and each final score is the teacher's if set and
      the AI's if not all the way exactly when no commit splits a row. */
  lemma EveryLogIsSound(py: Parsing.Python, items: seq<Parsing.Json>, fields: map<string, Parsing.Json>, x: Setup,
                        actions: seq<Action>, s: System)
    requires ValidRubric(x.criteria) && IsRun(x, Start(py, items, fields, x), actions, s)
    ensures AlwaysFaithful(x, Start(py, items, fields, x), actions) <==>
            CommitsInPlace(x, Start(py, items, fields, x), actions)
    ensures LogOk(s.grade) <==> CommitsUpToDate(x, Start(py, items, fields, x), actions)
    ensures AlwaysFollows(x, Start(py, items, fields, x), actions) <==>
            NeverSplits(x, Start(py, items, fields, x), actions)
    ensures x.flush ==> (AlwaysRight(x, Start(py, items, fields, x), actions) <==>
                         CommitsUndisturbed(x, Start(py, items, fields, x), actions))
    ensures OneEditAtATime(x, Start(py, items, fields, x), actions) ==>
              CommitsInPlace(x, Start(py, items, fields, x), actions) && RowsFollow(s.grade)
              && (x.flush ==> Right(s.grade))
  {
    StartIsGood(py, items, fields, x);
    hide *;
    var start := Start(py, items, fields, x);
    LogFaithful(x, start, actions, s);
    CommitOrderFaithful(x, start, actions, s);
    FinalsFollow(x, start, actions, s);
    if x.flush {
      FlushedTotals(x, start, actions, s);
    }
    if OneEditAtATime(x, start, actions) {
      SeparateEdits(x, start, actions, s);
      UpToDateNeverSplits(x, start, actions, s);
    }
  }

  /** A run whose commits were in place ends with a returned log that rebuilds the grade from the AI's scores:
      each teacher score, comment and final score, the edited summary and the lock. */
  lemma ReplayRebuilds(py: Parsing.Python, items: seq<Parsing.Json>, fields: map<string, Parsing.Json>, x: Setup,
                       actions: seq<Action>, s: System, i: nat)
    requires ValidRubric(x.criteria) && i < |x.criteria| && IsRun(x, Start(py, items, fields, x), actions, s)
    requires CommitsInPlace(x, Start(py, items, fields, x), actions)
    ensures |s.stamps| == |s.grade.log|
    ensures var v := Replay(InitialView(s.grade), ListedLog(s));
            && |v.rows| == |s.grade.rows| == |x.criteria|
            && v.rows[i] == Values(s.grade.rows[i].teacher, s.grade.rows[i].feedback, s.grade.rows[i].final)
            && v.edited == s.grade.edited && v.locked == s.grade.locked
  {
    StartIsGood(py, items, fields, x);
    EveryGradeIsSound(py, items, fields, x, actions, s);
    Rebuilt(x, Start(py, items, fields, x), actions, s);
    hide Start, IsRun, CommitsInPlace, Replay, InitialView, ListedLog, ValidRubric;
  }

  lemma Rebuilt(x: Setup, start: System, actions: seq<Action>, s: System)
    requires Inv(x, start) && Faithful(start) && IsRun(x, start, actions, s) && CommitsInPlace(x, start, actions)
    ensures |s.stamps| == |s.grade.log| && Replay(InitialView(s.grade), ListedLog(s)) == ViewOf(s.grade)
  {
    hide Inv, IsRun, CommitsInPlace, ListedLog;
    LogFaithful(x, start, actions, s);
    LogOkMeans(s.grade, ListedLog(s));
    hide LogOk;
  }

  /** In any reachable state where a locker is about to commit: the grade is final from then on exactly when no
      viable edit is in flight. And the least bound on the edits that are ever listed after the lock is
      the number of those whose transaction began after the locker's, recorded or viable. */
  lemma NoEditAfterLock(py: Parsing.Python, items: seq<Parsing.Json>, fields: map<string, Parsing.Json>, x: Setup,
                        actions: seq<Action>, s: System, n: nat)
    requires ValidRubric(x.criteria) && s.holder.Some? && IsRun(x, Start(py, items, fields, x), actions, s)
    ensures |s.stamps| == |s.grade.log|
    ensures Final(x, LockCommitted(s)) <==> Viable(x, s) == {}
    ensures var from := s.holder.value + 1;
            ListedAtMost(x, LockCommitted(s), n) <==>
            EditsFrom(s.grade.log, s.stamps, from) + |ViableFrom(x, s, from)| <= n
  {
    InitialInv(py, items, fields, x);
    hide *;
    RunKeepsInv(x, Start(py, items, fields, x), actions, s);
    LockMoment(x, s, n);
  }
}
