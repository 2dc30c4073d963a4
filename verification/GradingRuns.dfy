/** Grading runs over one essay (`grade_essay` in `grading.py` and the task that retries it),
interleaved with each other and with resubmissions.

A run reads the essay's status, then its latest version, then claims the essay by an update that
does not look at the stored status again, then calls the model, then inserts a grade under the
constraint of one grade per version. The model's answer is a success or a failure.
 */
module GradingRuns {
  import opened Outcomes

  const MAX_RETRIES: nat := 3

  datatype Status = Unassigned | Queued | Grading | Graded | Other

  /** `Undo` has failed on a duplicate grade and rolled back. `Reverting` has given up, and `Requeuing` has then
      read that the essay is being graded, and will write that it is queued. */
  datatype Phase =
    | Waiting
    | Observed(status: Status)
    | Chosen(status: Status, version: nat)
    | Calling(version: nat)
    | Undo
    | Reverting
    | Requeuing
    | Done

  datatype Task = Task(attempt: nat, phase: Phase)

  /** `saved` lists the versions in the order their grades were committed. */
  datatype System = System(status: Status, versions: nat, saved: seq<nat>, tasks: map<nat, Task>)

  datatype Action =
    | Submit(task: nat)
    | ReadStatus(task: nat)
    | PickVersion(task: nat)
    | Claim(task: nat)
    | ModelFails(task: nat)
    | OtherFailure(task: nat)
    | Revert(task: nat)
    | Requeue(task: nat)
    | Save(task: nat)
    | UndoSave(task: nat)
    | Resubmit

  function PhaseOf(s: System, t: nat): Phase {
    if t in s.tasks then s.tasks[t].phase else Done
  }

  predicate Enabled(s: System, a: Action) {
    match a
    case Submit(t) => t !in s.tasks
    case ReadStatus(t) => PhaseOf(s, t).Waiting?
    case PickVersion(t) => PhaseOf(s, t).Observed? && s.versions > 0
    case Claim(t) => PhaseOf(s, t).Chosen?
    case ModelFails(t) => PhaseOf(s, t).Calling?
    case OtherFailure(t) => PhaseOf(s, t).Calling?
    case Revert(t) => PhaseOf(s, t).Reverting?
    case Requeue(t) => PhaseOf(s, t).Requeuing?
    case Save(t) => PhaseOf(s, t).Calling?
    case UndoSave(t) => PhaseOf(s, t).Undo?
    case Resubmit => s.versions > 0
  }

  function Move(s: System, t: nat, phase: Phase): System
    requires t in s.tasks
  {
    s.(tasks := s.tasks[t := s.tasks[t].(phase := phase)])
  }

  function Step(s: System, a: Action): System
    requires Enabled(s, a)
  {
    match a
    case Submit(t) => s.(tasks := s.tasks[t := Task(0, Waiting)])
    case ReadStatus(t) => Move(s, t, Observed(s.status))
    case PickVersion(t) => Move(s, t, Chosen(s.tasks[t].phase.status, s.versions))
    case Claim(t) =>
      if s.tasks[t].phase.status == Queued then Move(s, t, Calling(s.tasks[t].phase.version)).(status := Grading)
      else Move(s, t, Done)
    case ModelFails(t) =>
      if s.tasks[t].attempt < MAX_RETRIES then s.(tasks := s.tasks[t := Task(s.tasks[t].attempt + 1, Waiting)])
      else Move(s, t, Reverting)
    case OtherFailure(t) => Move(s, t, Reverting)
    case Revert(t) => Move(s, t, if s.status == Grading then Requeuing else Done)
    case Requeue(t) => Move(s, t, Done).(status := Queued)
    case Save(t) =>
      var v := s.tasks[t].phase.version;
      if v in s.saved then Move(s, t, Undo)
      else Move(s, t, Done).(status := Graded, saved := s.saved + [v])
    case UndoSave(t) => Move(s, t, Done).(status := Queued)
    case Resubmit => s.(versions := s.versions + 1, status := Queued)
  }

  ghost predicate IsRun(s: System, actions: seq<Action>, s': System)
    decreases |actions|
  {
    if actions == [] then s == s'
    else Enabled(s, actions[0]) && IsRun(Step(s, actions[0]), actions[1..], s')
  }

  /** An essay as it was first queued. */
  const FRESH := System(Queued, 1, [], map[])

  predicate NoResubmission(actions: seq<Action>) {
    forall i :: 0 <= i < |actions| ==> !actions[i].Resubmit?
  }

  // ---------------------------------------------------------------------------
  // One grade per version
  // ---------------------------------------------------------------------------

  predicate Holds(p: Phase) {
    p.Chosen? || p.Calling?
  }

  predicate SavedOk(s: System) {
    && (forall i, j :: 0 <= i < j < |s.saved| ==> s.saved[i] != s.saved[j])
    && (forall v :: v in s.saved ==> 1 <= v <= s.versions)
    && (forall t :: t in s.tasks && Holds(s.tasks[t].phase) ==> 1 <= s.tasks[t].phase.version <= s.versions)
    && (s.status == Graded ==> s.saved != [])
  }

  lemma SavedStep(s: System, a: Action)
    requires SavedOk(s) && Enabled(s, a)
    ensures SavedOk(Step(s, a)) && s.saved <= Step(s, a).saved
  {
  }

  /** Whatever runs and resubmissions interleave, each version gets at most one grade, only existing
      versions get one, grades are never lost, and a graded essay has a grade. */
  lemma {:induction false} OneGradePerVersion(s: System, actions: seq<Action>, s': System)
    requires SavedOk(s) && IsRun(s, actions, s')
    ensures SavedOk(s') && s.saved <= s'.saved
    decreases |actions|
  {
    if actions != [] {
      SavedStep(s, actions[0]);
      hide SavedOk, Step, Enabled;
      OneGradePerVersion(Step(s, actions[0]), actions[1..], s');
    }
  }

  // ---------------------------------------------------------------------------
  // Is a graded essay's latest version graded?
  // ---------------------------------------------------------------------------

  predicate LatestGraded(s: System) {
    s.status == Graded ==> s.versions in s.saved
  }

  /** No run that may still commit holds an older version without a grade, or the latest has its grade. */
  predicate NotOvertaken(s: System) {
    s.versions in s.saved ||
    forall t :: t in s.tasks ==>
      var p := s.tasks[t].phase;
      (MayCommit(p) ==> p.version == s.versions || p.version in s.saved)
  }

  /** The task holds a version that it can still grade. */
  predicate MayCommit(p: Phase) {
    p.Calling? || (p.Chosen? && p.status == Queued)
  }

  lemma NotOvertakenStep(s: System, a: Action)
    requires LatestGraded(s) && NotOvertaken(s) && Enabled(s, a) && !a.Resubmit?
    ensures LatestGraded(Step(s, a)) && NotOvertaken(Step(s, a))
  {
  }

  lemma {:induction false} NotOvertakenRun(s: System, actions: seq<Action>, s': System)
    requires LatestGraded(s) && NotOvertaken(s) && IsRun(s, actions, s') && NoResubmission(actions)
    ensures LatestGraded(s')
    decreases |actions|
  {
    if actions != [] {
      NotOvertakenStep(s, actions[0]);
      hide LatestGraded, NotOvertaken, Step, Enabled;
      NotOvertakenRun(Step(s, actions[0]), actions[1..], s');
    }
  }

  lemma CanMismark(s: System, t: nat) returns (actions: seq<Action>, s': System)
    requires s.versions !in s.saved && t in s.tasks
    requires MayCommit(s.tasks[t].phase)
    requires s.tasks[t].phase.version != s.versions && s.tasks[t].phase.version !in s.saved
    ensures IsRun(s, actions, s') && NoResubmission(actions) && !LatestGraded(s')
  {
    actions, s' := CanGrade(s, t);
  }

  /** A task that can still commit, and whose version has no grade, can mark the essay as graded. */
  lemma CanGrade(s: System, t: nat) returns (actions: seq<Action>, s': System)
    requires t in s.tasks && MayCommit(s.tasks[t].phase) && s.tasks[t].phase.version !in s.saved
    ensures IsRun(s, actions, s') && NoResubmission(actions)
    ensures s'.status == Graded && s'.versions == s.versions && s'.saved == s.saved + [s.tasks[t].phase.version]
  {
    var p := s.tasks[t].phase;
    var m := if p.Chosen? then Step(s, Claim(t)) else s;
    s' := Step(m, Save(t));
    assert IsRun(s', [], s');
    OneStep(m, Save(t), [], s');
    actions := [Save(t)] + [];
    if p.Chosen? {
      OneStep(s, Claim(t), actions, s');
      actions := [Claim(t)] + actions;
    }
  }

  /** From a state in which "graded" tells the truth of the latest version, it goes on doing so until a
      resubmission exactly when no run under way has been overtaken. */
  lemma SaveIsCurrent(s: System)
    requires LatestGraded(s)
    ensures (forall actions, s' :: IsRun(s, actions, s') && NoResubmission(actions) ==> LatestGraded(s')) <==>
            NotOvertaken(s)
  {
    if NotOvertaken(s) {
      forall actions, s' | IsRun(s, actions, s') && NoResubmission(actions)
        ensures LatestGraded(s')
      {
        NotOvertakenRun(s, actions, s');
      }
    } else {
      var t :| t in s.tasks && MayCommit(s.tasks[t].phase)
               && s.tasks[t].phase.version != s.versions && s.tasks[t].phase.version !in s.saved;
      var actions, s' := CanMismark(s, t);
    }
  }

  /** No resubmission commits while a run holds the version it picked. */
  ghost predicate Unovertaken(s: System, actions: seq<Action>)
    decreases |actions|
  {
    actions == [] ||
    (Enabled(s, actions[0])
     && (actions[0].Resubmit? ==> forall t :: t in s.tasks ==> !Holds(s.tasks[t].phase))
     && Unovertaken(Step(s, actions[0]), actions[1..]))
  }

  predicate HoldsLatest(s: System) {
    forall t :: t in s.tasks && Holds(s.tasks[t].phase) ==> s.tasks[t].phase.version == s.versions
  }

  lemma CurrentStep(s: System, a: Action)
    requires LatestGraded(s) && HoldsLatest(s) && Enabled(s, a)
    requires a.Resubmit? ==> forall t :: t in s.tasks ==> !Holds(s.tasks[t].phase)
    ensures LatestGraded(Step(s, a)) && HoldsLatest(Step(s, a))
  {
  }

  /** In such runs "graded" means that the latest version has a grade. */
  lemma {:induction false} GradedIsCurrent(s: System, actions: seq<Action>, s': System)
    requires LatestGraded(s) && HoldsLatest(s)
    requires IsRun(s, actions, s') && Unovertaken(s, actions)
    ensures LatestGraded(s')
    decreases |actions|
  {
    if actions != [] {
      CurrentStep(s, actions[0]);
      hide LatestGraded, HoldsLatest, Step, Enabled;
      GradedIsCurrent(Step(s, actions[0]), actions[1..], s');
    }
  }

  lemma {:induction false} RunSnoc(s: System, actions: seq<Action>, m: System, a: Action)
    requires IsRun(s, actions, m) && Enabled(m, a)
    ensures IsRun(s, actions + [a], Step(m, a))
    decreases |actions|
  {
    hide Step, Enabled;
    var all := actions + [a];
    if actions == [] {
      assert all[0] == a && all[1..] == [];
      assert IsRun(Step(m, a), all[1..], Step(m, a));
    } else {
      RunSnoc(Step(s, actions[0]), actions[1..], m, a);
      assert all[0] == actions[0] && all[1..] == actions[1..] + [a];
    }
  }

  /** A new task brought to the call of the model. */
  lemma ToTheCall(before: seq<Action>, s: System, t: nat) returns (actions: seq<Action>, s': System)
    requires IsRun(FRESH, before, s) && t !in s.tasks && s.status == Queued && s.versions > 0
    ensures IsRun(FRESH, actions, s')
    ensures s' == s.(status := Grading, tasks := s.tasks[t := Task(0, Calling(s.versions))])
  {
    hide IsRun;
    var a := Step(s, Submit(t));
    RunSnoc(FRESH, before, s, Submit(t));
    var b := Step(a, ReadStatus(t));
    RunSnoc(FRESH, before + [Submit(t)], a, ReadStatus(t));
    var c := Step(b, PickVersion(t));
    RunSnoc(FRESH, before + [Submit(t)] + [ReadStatus(t)], b, PickVersion(t));
    s' := Step(c, Claim(t));
    RunSnoc(FRESH, before + [Submit(t)] + [ReadStatus(t)] + [PickVersion(t)], c, Claim(t));
    actions := before + [Submit(t)] + [ReadStatus(t)] + [PickVersion(t)] + [Claim(t)];
    assert s'.tasks == s.tasks[t := Task(0, Calling(s.versions))];
  }

  /** Otherwise the grade of an older version can mark a resubmitted essay as graded. */
  lemma OvertakenRun() returns (actions: seq<Action>, s: System)
    ensures IsRun(FRESH, actions, s) && !LatestGraded(s)
  {
    assert IsRun(FRESH, [], FRESH);
    hide IsRun;
    var a1, s1 := ToTheCall([], FRESH, 1);
    var s2 := Step(s1, Resubmit);
    RunSnoc(FRESH, a1, s1, Resubmit);
    s := Step(s2, Save(1));
    RunSnoc(FRESH, a1 + [Resubmit], s2, Save(1));
    actions := a1 + [Resubmit] + [Save(1)];
  }

  // ---------------------------------------------------------------------------
  // After a model failure
  // ---------------------------------------------------------------------------

  /** The essay is marked as being graded and nobody is grading it: no task holds the claim, is about
      to undo it, or saw the essay while it was queued. */
  predicate Abandoned(s: System) {
    s.status == Grading && forall t :: t in s.tasks ==> Harmless(s.tasks[t].phase)
  }

  predicate Harmless(p: Phase) {
    !p.Calling? && !p.Undo? && !p.Reverting? && !p.Requeuing? && !SawQueued(p)
  }

  predicate SawQueued(p: Phase) {
    (p.Observed? || p.Chosen?) && p.status == Queued
  }

  /** No continuation without a resubmission leaves the status. */
  ghost predicate Stays(s: System) {
    forall actions, s' :: IsRun(s, actions, s') && NoResubmission(actions) ==> s'.status == s.status
  }

  lemma AbandonedStep(s: System, a: Action)
    requires Abandoned(s) && Enabled(s, a) && !a.Resubmit?
    ensures Abandoned(Step(s, a)) && Step(s, a).saved == s.saved
  {
  }

  /** An abandoned essay stays so, whatever tasks and retries follow, until it is resubmitted. */
  lemma {:induction false} AbandonedForever(s: System, actions: seq<Action>, s': System)
    requires Abandoned(s) && IsRun(s, actions, s') && NoResubmission(actions)
    ensures s'.status == Grading && s'.saved == s.saved
    decreases |actions|
  {
    if actions != [] {
      AbandonedStep(s, actions[0]);
      hide Abandoned, Step, Enabled;
      AbandonedForever(Step(s, actions[0]), actions[1..], s');
    }
  }

  /** A run of one task by itself. */
  lemma {:induction false} OneStep(s: System, a: Action, rest: seq<Action>, s': System)
    requires Enabled(s, a) && !a.Resubmit? && IsRun(Step(s, a), rest, s') && NoResubmission(rest)
    ensures IsRun(s, [a] + rest, s') && NoResubmission([a] + rest)
  {
    hide Step, Enabled;
    assert ([a] + rest)[0] == a && ([a] + rest)[1..] == rest;
  }

  /** A task that saw the essay queued can claim it, whatever has happened since. */
  lemma CanClaim(s: System, t: nat) returns (actions: seq<Action>, s': System)
    requires t in s.tasks && SawQueued(s.tasks[t].phase) && s.versions > 0
    ensures IsRun(s, actions, s') && NoResubmission(actions) && s'.status == Grading
    ensures t in s'.tasks && s'.tasks[t].phase.Calling?
  {
    var chosen := if s.tasks[t].phase.Observed? then Step(s, PickVersion(t)) else s;
    s' := Step(chosen, Claim(t));
    assert IsRun(s', [], s');
    OneStep(chosen, Claim(t), [], s');
    actions := [Claim(t)] + [];
    if s.tasks[t].phase.Observed? {
      OneStep(s, PickVersion(t), actions, s');
      actions := [PickVersion(t)] + actions;
    }
  }

  /** A task that is calling the model, undoing a save or giving up can put the essay back in the queue. */
  lemma CanRequeue(s: System, t: nat) returns (actions: seq<Action>, s': System)
    requires s.status == Grading && t in s.tasks && !Harmless(s.tasks[t].phase) && !SawQueued(s.tasks[t].phase)
    ensures IsRun(s, actions, s') && NoResubmission(actions) && s'.status == Queued
  {
    var p := s.tasks[t].phase;
    var failed := if p.Calling? then Step(s, OtherFailure(t)) else s;
    var m := if p.Calling? || p.Reverting? then Step(failed, Revert(t)) else failed;
    var last := if p.Undo? then UndoSave(t) else Requeue(t);
    s' := Step(m, last);
    assert IsRun(s', [], s');
    OneStep(m, last, [], s');
    actions := [last] + [];
    hide IsRun, NoResubmission;
    if p.Calling? || p.Reverting? {
      OneStep(failed, Revert(t), actions, s');
      actions := [Revert(t)] + actions;
    }
    if p.Calling? {
      OneStep(s, OtherFailure(t), actions, s');
      actions := [OtherFailure(t)] + actions;
    }
  }

  lemma {:induction false} RunAppend(s: System, a: seq<Action>, m: System, b: seq<Action>, s': System)
    requires IsRun(s, a, m) && IsRun(m, b, s') && NoResubmission(a) && NoResubmission(b)
    ensures IsRun(s, a + b, s') && NoResubmission(a + b)
    decreases |a|
  {
    hide Step, Enabled;
    if a == [] {
      assert a + b == b;
    } else {
      RunAppend(Step(s, a[0]), a[1..], m, b, s');
      assert (a + b)[0] == a[0] && (a + b)[1..] == a[1..] + b;
    }
  }

  /** Being abandoned is exactly what keeps an essay marked as being graded. */
  lemma AbandonedExactly(s: System)
    requires s.status == Grading && s.versions > 0
    ensures Stays(s) <==> Abandoned(s)
  {
    if Abandoned(s) {
      forall actions, s' | IsRun(s, actions, s') && NoResubmission(actions)
        ensures s'.status == s.status
      {
        AbandonedForever(s, actions, s');
      }
    } else {
      var t :| t in s.tasks && !Harmless(s.tasks[t].phase);
      hide IsRun, Step, Enabled, NoResubmission;
      if SawQueued(s.tasks[t].phase) {
        var a, m := CanClaim(s, t);
        var b, s' := CanRequeue(m, t);
        RunAppend(s, a, m, b, s');
      } else {
        var a, s' := CanRequeue(s, t);
      }
    }
  }

  /** When a call fails and no other task can touch the essay, the essay is lost to grading exactly when
      the task still has a retry: each retry finds it "being graded", is refused as a conflict, and
      conflicts are not reverted. On the last attempt it is given back. */
  lemma RetriesNeverGrade(s: System, t: nat)
    requires Enabled(s, ModelFails(t)) && s.status == Grading && s.versions > 0
    ensures Stays(Step(s, ModelFails(t))) <==>
            s.tasks[t].attempt < MAX_RETRIES && forall u :: u in s.tasks && u != t ==> Harmless(s.tasks[u].phase)
    ensures Stays(Step(s, ModelFails(t))) ==> NeverSaves(Step(s, ModelFails(t)))
  {
    var m := Step(s, ModelFails(t));
    AbandonedExactly(m);
    assert forall u :: u in m.tasks && u != t ==> m.tasks[u] == s.tasks[u];
    assert Harmless(m.tasks[t].phase) <==> s.tasks[t].attempt < MAX_RETRIES;
    if Abandoned(m) {
      hide IsRun, Step, Enabled, NoResubmission;
      forall actions, s' | IsRun(m, actions, s') && NoResubmission(actions)
        ensures s'.saved == m.saved
      {
        AbandonedForever(m, actions, s');
      }
    }
  }

  /** No continuation without a resubmission adds a grade. */
  ghost predicate NeverSaves(s: System) {
    forall actions, s' :: IsRun(s, actions, s') && NoResubmission(actions) ==> s'.saved == s.saved
  }

  /** Such a failure is reachable at once, so an essay can be abandoned after one failed call. */
  lemma AbandonedRun() returns (actions: seq<Action>, s: System)
    ensures IsRun(FRESH, actions, s) && Abandoned(s) && s.saved == []
  {
    assert IsRun(FRESH, [], FRESH);
    hide IsRun;
    var a1, s1 := ToTheCall([], FRESH, 1);
    s := Step(s1, ModelFails(1));
    RunSnoc(FRESH, a1, s1, ModelFails(1));
    actions := a1 + [ModelFails(1)];
  }

  // ---------------------------------------------------------------------------
  // After a duplicate
  // ---------------------------------------------------------------------------

  /** The latest version has its grade, the essay does not say so, and no task can grade another version. */
  predicate Mislaid(s: System) {
    && s.status != Graded && s.versions in s.saved
    && forall t :: t in s.tasks && MayCommit(s.tasks[t].phase) ==> s.tasks[t].phase.version in s.saved
  }

  lemma MislaidStep(s: System, a: Action)
    requires Mislaid(s) && Enabled(s, a) && !a.Resubmit?
    ensures Mislaid(Step(s, a)) && Step(s, a).saved == s.saved
  {
  }

  lemma {:induction false} MislaidRun(s: System, actions: seq<Action>, s': System)
    requires Mislaid(s) && IsRun(s, actions, s') && NoResubmission(actions)
    ensures s'.status != Graded && s'.saved == s.saved
    decreases |actions|
  {
    if actions != [] {
      MislaidStep(s, actions[0]);
      hide Mislaid, Step, Enabled;
      MislaidRun(Step(s, actions[0]), actions[1..], s');
    }
  }

  /** No continuation without a resubmission marks the essay as graded. */
  ghost predicate NeverGraded(s: System) {
    forall actions, s' :: IsRun(s, actions, s') && NoResubmission(actions) ==> s'.status != Graded
  }

  /** An essay whose latest version has its grade, but which is not marked graded, is never marked again until it
      is resubmitted exactly when it is mislaid: every save is a duplicate and puts it back in the queue. */
  lemma MislaidForever(s: System)
    requires s.status != Graded && s.versions in s.saved
    ensures NeverGraded(s) <==> Mislaid(s)
    ensures Mislaid(s) ==> NeverSaves(s)
  {
    if Mislaid(s) {
      forall actions, s' | IsRun(s, actions, s') && NoResubmission(actions)
        ensures s'.status != Graded && s'.saved == s.saved
      {
        MislaidRun(s, actions, s');
      }
    } else {
      var t :| t in s.tasks && MayCommit(s.tasks[t].phase) && s.tasks[t].phase.version !in s.saved;
      var actions, s' := CanGrade(s, t);
    }
  }

  /** Two tasks have both seen the essay queued, and one of them has claimed it. */
  lemma TwoClaims() returns (actions: seq<Action>, s: System)
    ensures IsRun(FRESH, actions, s)
    ensures s == System(Grading, 1, [], map[1 := Task(0, Observed(Queued)), 2 := Task(0, Calling(1))])
  {
    assert IsRun(FRESH, [], FRESH);
    hide IsRun;
    var a, b := Submit(1), ReadStatus(1);
    var s1 := Step(FRESH, a);
    RunSnoc(FRESH, [], FRESH, a);
    var s2 := Step(s1, b);
    RunSnoc(FRESH, [] + [a], s1, b);
    actions, s := ToTheCall([] + [a] + [b], s2, 2);
  }

  /** That leads there: the claim does not exclude the second. */
  lemma TwoTasksMislay() returns (actions: seq<Action>, s: System)
    ensures IsRun(FRESH, actions, s) && Mislaid(s)
  {
    hide IsRun;
    var c, s3 := TwoClaims();
    actions, s := SaveThenDuplicate(c, s3);
  }

  lemma SaveThenDuplicate(before: seq<Action>, s: System) returns (actions: seq<Action>, s': System)
    requires IsRun(FRESH, before, s)
    requires s == System(Grading, 1, [], map[1 := Task(0, Observed(Queued)), 2 := Task(0, Calling(1))])
    ensures IsRun(FRESH, actions, s') && Mislaid(s')
  {
    hide IsRun;
    var s1 := Step(s, PickVersion(1));
    RunSnoc(FRESH, before, s, PickVersion(1));
    var s2 := Step(s1, Claim(1));
    RunSnoc(FRESH, before + [PickVersion(1)], s1, Claim(1));
    var s3 := Step(s2, Save(2));
    RunSnoc(FRESH, before + [PickVersion(1)] + [Claim(1)], s2, Save(2));
    var s4 := Step(s3, Save(1));
    RunSnoc(FRESH, before + [PickVersion(1)] + [Claim(1)] + [Save(2)], s3, Save(1));
    s' := Step(s4, UndoSave(1));
    RunSnoc(FRESH, before + [PickVersion(1)] + [Claim(1)] + [Save(2)] + [Save(1)], s4, UndoSave(1));
    actions := before + [PickVersion(1)] + [Claim(1)] + [Save(2)] + [Save(1)] + [UndoSave(1)];
  }

  /** And so does a task that gives up: it reads that the essay is being graded, the other one saves its grade,
      and then it writes that the essay is queued. */
  lemma RequeuedAfterSave() returns (actions: seq<Action>, s: System, m: System)
    ensures IsRun(FRESH, actions, m) && m.status == Graded && 1 in m.tasks && m.tasks[1].phase == Requeuing
    ensures IsRun(FRESH, actions + [Requeue(1)], s) && Mislaid(s)
  {
    hide IsRun;
    var before, s0 := TwoClaims();
    var s1 := Step(s0, PickVersion(1));
    RunSnoc(FRESH, before, s0, PickVersion(1));
    var s2 := Step(s1, Claim(1));
    RunSnoc(FRESH, before + [PickVersion(1)], s1, Claim(1));
    var s3 := Step(s2, OtherFailure(1));
    RunSnoc(FRESH, before + [PickVersion(1)] + [Claim(1)], s2, OtherFailure(1));
    var s4 := Step(s3, Revert(1));
    RunSnoc(FRESH, before + [PickVersion(1)] + [Claim(1)] + [OtherFailure(1)], s3, Revert(1));
    actions := before + [PickVersion(1)] + [Claim(1)] + [OtherFailure(1)] + [Revert(1)];
    m := Step(s4, Save(2));
    RunSnoc(FRESH, actions, s4, Save(2));
    actions := actions + [Save(2)];
    s := Step(m, Requeue(1));
    RunSnoc(FRESH, actions, m, Requeue(1));
  }

  /** No task under way can take the mark back: none saw the essay queued, none calls for a version that has its
      grade or that another one calls for, none is undoing a save or about to requeue the essay. */
  predicate Settled(s: System) {
    && s.status == Graded
    && (forall t :: t in s.tasks ==>
          var p := s.tasks[t].phase; !SawQueued(p) && !p.Undo? && !p.Requeuing?)
    && (forall t :: t in s.tasks && s.tasks[t].phase.Calling? ==> s.tasks[t].phase.version !in s.saved)
    && (forall t, u :: t in s.tasks && u in s.tasks && t != u ==> !SameCall(s.tasks[t].phase, s.tasks[u].phase))
  }

  predicate TakesBack(s: System, p: Phase) {
    p.Undo? || p.Requeuing? || (p.Calling? && p.version in s.saved)
  }

  predicate SameCall(p: Phase, q: Phase) {
    p.Calling? && q.Calling? && p.version == q.version
  }

  lemma SettledStep(s: System, a: Action)
    requires Settled(s) && Enabled(s, a) && !a.Resubmit?
    ensures Settled(Step(s, a))
  {
  }

  lemma {:induction false} SettledRun(s: System, actions: seq<Action>, s': System)
    requires Settled(s) && IsRun(s, actions, s') && NoResubmission(actions)
    ensures s'.status == Graded
    decreases |actions|
  {
    if actions != [] {
      SettledStep(s, actions[0]);
      hide Settled, Step, Enabled;
      SettledRun(Step(s, actions[0]), actions[1..], s');
    }
  }

  /** A second save of the same version puts the essay back in the queue. */
  lemma CanUndo(s: System, t: nat) returns (actions: seq<Action>, s': System)
    requires t in s.tasks
    requires var p := s.tasks[t].phase; p.Undo? || p.Requeuing? || (p.Calling? && p.version in s.saved)
    ensures IsRun(s, actions, s') && NoResubmission(actions) && s'.status == Queued
  {
    var p := s.tasks[t].phase;
    var m := if p.Calling? then Step(s, Save(t)) else s;
    var last := if p.Requeuing? then Requeue(t) else UndoSave(t);
    s' := Step(m, last);
    assert IsRun(s', [], s');
    OneStep(m, last, [], s');
    actions := [last] + [];
    if p.Calling? {
      OneStep(s, Save(t), actions, s');
      actions := [Save(t)] + actions;
    }
  }

  lemma CanUndoTwin(s: System, t: nat, u: nat) returns (actions: seq<Action>, s': System)
    requires t in s.tasks && u in s.tasks && t != u
    requires SameCall(s.tasks[t].phase, s.tasks[u].phase) && s.tasks[t].phase.version !in s.saved
    ensures IsRun(s, actions, s') && NoResubmission(actions) && s'.status == Queued
  {
    var m := Step(s, Save(t));
    assert m.tasks[u] == s.tasks[u];
    actions, s' := CanUndo(m, u);
    hide IsRun, NoResubmission;
    OneStep(s, Save(t), actions, s');
    actions := [Save(t)] + actions;
  }

  /** A graded essay keeps its mark until a resubmission exactly when it is settled. */
  lemma GradedStaysExactly(s: System)
    requires s.status == Graded && s.versions > 0
    ensures Stays(s) <==> Settled(s)
  {
    if Settled(s) {
      forall actions, s' | IsRun(s, actions, s') && NoResubmission(actions)
        ensures s'.status == s.status
      {
        SettledRun(s, actions, s');
      }
    } else {
      hide IsRun, Step, Enabled, NoResubmission;
      if t :| t in s.tasks && SawQueued(s.tasks[t].phase) {
        var a, s' := CanClaim(s, t);
      } else if t :| t in s.tasks && TakesBack(s, s.tasks[t].phase) {
        var a, s' := CanUndo(s, t);
      } else {
        var t, u :| t in s.tasks && u in s.tasks && t != u && SameCall(s.tasks[t].phase, s.tasks[u].phase);
        var a, s' := CanUndoTwin(s, t, u);
      }
    }
  }

  // ---------------------------------------------------------------------------
  // Runs that exclude each other
  // ---------------------------------------------------------------------------

  predicate Idle(p: Phase) {
    p.Waiting? || p.Done?
  }

  /** A run starts, and a resubmission commits, only while no other run is under way. */
  ghost predicate OneAtATime(s: System, actions: seq<Action>)
    decreases |actions|
  {
    actions == [] ||
    (Enabled(s, actions[0])
     && (actions[0].ReadStatus? || actions[0].Resubmit? ==> forall t :: t in s.tasks ==> Idle(s.tasks[t].phase))
     && OneAtATime(Step(s, actions[0]), actions[1..]))
  }

  /** What a run under way has seen is still so. */
  predicate UpToDate(s: System, p: Phase) {
    match p
    case Observed(status) => status == s.status
    case Chosen(status, version) => status == s.status && version == s.versions
    case Calling(version) => s.status == Grading && version == s.versions
    case Requeuing => s.status == Grading
    case Undo => false
    case _ => true
  }

  /** At most one run is under way, and the status tells whether the latest version has its grade. */
  predicate Orderly(s: System) {
    && (forall t, u :: t in s.tasks && u in s.tasks && t != u ==> Idle(s.tasks[t].phase) || Idle(s.tasks[u].phase))
    && (forall t :: t in s.tasks ==> UpToDate(s, s.tasks[t].phase))
    && (s.status == Graded <==> s.versions in s.saved)
    && (forall v :: v in s.saved ==> v <= s.versions)
  }

  lemma OrderlyMove(s: System, t: nat, s': System)
    requires Orderly(s) && t in s.tasks && (forall u :: u in s.tasks && u != t ==> Idle(s.tasks[u].phase))
    requires t in s'.tasks && s'.versions == s.versions && s'.tasks == s.tasks[t := s'.tasks[t]]
    requires UpToDate(s', s'.tasks[t].phase)
    requires s'.status == Graded <==> s'.versions in s'.saved
    requires forall v :: v in s'.saved ==> v <= s'.versions
    ensures Orderly(s')
  {
    assert forall u :: u in s.tasks && u != t ==> s'.tasks[u] == s.tasks[u];
  }

  lemma OrderlyStep(s: System, a: Action)
    requires Orderly(s) && Enabled(s, a)
    requires a.ReadStatus? || a.Resubmit? ==> forall t :: t in s.tasks ==> Idle(s.tasks[t].phase)
    ensures Orderly(Step(s, a))
  {
    var s' := Step(s, a);
    if !a.Submit? && !a.Resubmit? {
      OrderlyMove(s, a.task, s');
    }
  }

  /** Excluding each other is enough: then an essay is marked as graded exactly when its latest version
      has a grade, and no save is ever a duplicate. */
  lemma {:induction false} OneAtATimeIsOrderly(s: System, actions: seq<Action>, s': System)
    requires Orderly(s) && IsRun(s, actions, s') && OneAtATime(s, actions)
    ensures Orderly(s') && (s'.status == Graded <==> s'.versions in s'.saved)
    decreases |actions|
  {
    if actions != [] {
      OrderlyStep(s, actions[0]);
      hide Orderly, Step, Enabled;
      OneAtATimeIsOrderly(Step(s, actions[0]), actions[1..], s');
    } else {
      OrderlyStatus(s);
    }
  }

  lemma OrderlyStatus(s: System)
    requires Orderly(s)
    ensures s.status == Graded <==> s.versions in s.saved
  {
  }

  // ---------------------------------------------------------------------------
  // One uninterrupted run
  // ---------------------------------------------------------------------------

  datatype GradingError = NoVersion | InProgress | NotQueued | DuplicateGrade | ModelFailed

  class EssayRow {
    var status: Status
    var versions: nat
    var saved: seq<nat>

    constructor (versions: nat)
      ensures status == Queued && this.versions == versions && saved == []
    {
      status, this.versions, saved := Queued, versions, [];
    }

    /** `modelOk` is what the call of the model comes to. */
    method GradeEssay(modelOk: bool) returns (result: Result<nat, GradingError>)
      modifies this
      ensures versions == old(versions)
      ensures result.Ok? <==> old(versions) > 0 && old(status) == Queued && modelOk && old(versions) !in old(saved)
      ensures result.Ok? ==> result.value == versions && saved == old(saved) + [versions] && status == Graded
      ensures result.Err? ==> saved == old(saved)
      ensures result.Err? ==> status == if result.error == ModelFailed then Grading else old(status)
      ensures result == Err(NoVersion) <==> old(versions) == 0
      ensures result == Err(InProgress) <==> old(versions) > 0 && old(status) == Grading
      ensures result == Err(NotQueued) <==> old(versions) > 0 && old(status) != Grading && old(status) != Queued
      ensures result == Err(ModelFailed) <==> old(versions) > 0 && old(status) == Queued && !modelOk
      ensures result == Err(DuplicateGrade) <==>
              old(versions) > 0 && old(status) == Queued && modelOk && old(versions) in old(saved)
    {
      if versions == 0 {
        return Err(NoVersion);
      }
      var version := versions;
      if status == Grading {
        return Err(InProgress);
      }
      if status != Queued {
        return Err(NotQueued);
      }
      status := Grading;
      if !modelOk {
        return Err(ModelFailed);
      }
      if version in saved {
        status := Queued;
        return Err(DuplicateGrade);
      }
      saved := saved + [version];
      status := Graded;
      return Ok(version);
    }
  }
}
