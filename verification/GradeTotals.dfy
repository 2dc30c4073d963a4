/** The total of a grade under overlapping edits, in the mode the comment in `grade.py` intends: every
request flushes its pending row before it selects the final scores.
 */
module GradeTotals {
  import opened Outcomes
  import Parsing
  import opened Grades
  import opened GradeEdits

  /** The final scores of the rows other than `i`, added up. */
  function Others(rows: seq<Row>, i: nat): int
    requires i < |rows|
  {
    SumFinals(rows) - rows[i].final
  }

  predicate Right(g: Grade) {
    g.total == SumFinals(g.rows)
  }

  /** The request writes a final score. */
  predicate WritesFinal(f: InFlight) {
    f.edit.Override? && f.edit.score.Some? && f.row.Some? && f.edit.score.value != f.row.value.final
  }

  /** What must not have changed for a write to leave the right total. If the selected sum is the total
      the request loaded, it does not write the total, so the row must already hold its score. If it is
      another, the scores it added up must still be worth as much. */
  predicate Undisturbed(g: Grade, f: InFlight)
    requires Ready(f) && Applies(g, f.edit) && (f.seen.Some? ==> |f.seen.value| == |g.rows|)
  {
    f.edit.Override? && f.edit.score.Some? ==>
      var i, seen := f.edit.row, f.seen.value;
      if SumFinals(seen) == f.total then WritesFinal(f) ==> g.rows[i].final == f.edit.score.value
      else if WritesFinal(f) then Others(seen, i) == Others(g.rows, i)
      else SumFinals(seen) == SumFinals(g.rows)
  }

  /** With a flush the SELECT shows the score the request is going to write. */
  predicate SeesOwn(f: InFlight) {
    f.seen.Some? ==>
      && f.row.Some?
      && (WritesFinal(f) ==>
            f.edit.row < |f.seen.value| && f.seen.value[f.edit.row].final == f.edit.score.value)
  }

  /** One write leaves the right total exactly when it is undisturbed. */
  lemma FlushedWrite(g: Grade, f: InFlight)
    requires Right(g) && Ready(f) && Applies(g, f.edit) && (f.seen.Some? ==> |f.seen.value| == |g.rows|) && SeesOwn(f)
    ensures Right(Written(g, f)) <==> Undisturbed(g, f)
  {
    if f.edit.Override? {
      SumFinalsUpdate(g.rows, f.edit.row, WriteRow(g.rows[f.edit.row], f.row.value, f.edit));
    }
    hide SumFinals;
  }

  predicate AllSee(s: System) {
    forall r :: r in s.editing ==> SeesOwn(s.editing[r])
  }

  lemma SelectSeesOwn(g: Grade, f: InFlight)
    requires f.edit.Override? && f.row.Some? && Applies(g, f.edit)
    ensures SeesOwn(f.(seen := Some(Selected(true, g, f))))
  {
  }

  /** In every state on the way the total is the sum of the final scores. */
  ghost predicate AlwaysRight(x: Setup, s: System, actions: seq<Action>)
    decreases |actions|
  {
    Right(s.grade) &&
    (actions == [] || (Enabled(x, s, actions[0]) && AlwaysRight(x, Step(x, s, actions[0]), actions[1..])))
  }

  ghost predicate CommitsUndisturbed(x: Setup, s: System, actions: seq<Action>)
    decreases |actions|
  {
    actions == [] ||
    (Enabled(x, s, actions[0])
     && (actions[0].FinishEdit? ==> CommitUndisturbed(s, actions[0].request))
     && CommitsUndisturbed(x, Step(x, s, actions[0]), actions[1..]))
  }

  predicate CommitUndisturbed(s: System, r: nat) {
    && r in s.editing && Ready(s.editing[r]) && Applies(s.grade, s.editing[r].edit)
    && (s.editing[r].seen.Some? ==> |s.editing[r].seen.value| == |s.grade.rows|)
    && Undisturbed(s.grade, s.editing[r])
  }

  lemma RightStep(x: Setup, s: System, a: Action)
    requires x.flush && Inv(x, s) && AllSee(s) && Right(s.grade) && Enabled(x, s, a)
    ensures AllSee(Step(x, s, a))
    ensures Right(Step(x, s, a).grade) <==> (a.FinishEdit? ==> CommitUndisturbed(s, a.request))
  {
    hide GradeBounded, ValidRubric, LocksOk, StampsOk, OpenRefusal;
    hide RowRefusal, SumFinals, Selected, Written, Undisturbed;
    if a.FinishEdit? {
      assert FlightOk(x.criteria, s.grade, s.editing[a.request]);
      FlushedWrite(s.grade, s.editing[a.request]);
    } else if a.SelectFinals? {
      SelectSeesOwn(s.grade, s.editing[a.request]);
    }
  }

  /** Over a run in which every request flushes, the total is right all the way exactly when every commit is
      undisturbed. */
  lemma {:induction false} FlushedTotals(x: Setup, s: System, actions: seq<Action>, s': System)
    requires x.flush && Inv(x, s) && AllSee(s) && Right(s.grade) && IsRun(x, s, actions, s')
    ensures AlwaysRight(x, s, actions) <==> CommitsUndisturbed(x, s, actions)
    ensures AlwaysRight(x, s, actions) ==> Right(s'.grade)
    decreases |actions|
  {
    if actions != [] {
      RightStep(x, s, actions[0]);
      StepKeepsInv(x, s, actions[0]);
      hide Inv, Step, Enabled, AllSee, Right, CommitUndisturbed;
      var m := Step(x, s, actions[0]);
      if Right(m.grade) {
        FlushedTotals(x, m, actions[1..], s');
      } else {
        assert !AlwaysRight(x, m, actions[1..]);
      }
    }
  }
}
