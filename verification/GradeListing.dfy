/** The audit log of a grade as it is returned (`get_grade_audit_log` in `grade.py`): ordered by the time
stamp of each entry, which is the start of the transaction that wrote it, not its commit.
 */
module GradeListing {
  import opened Outcomes
  import Parsing
  import opened Grades
  import opened GradeEdits

  // ---------------------------------------------------------------------------
  // Sorting by stamp
  // ---------------------------------------------------------------------------

  datatype Stamped = Stamped(start: nat, entry: Entry)

  function Commits(log: seq<Entry>, stamps: seq<nat>): (c: seq<Stamped>)
    requires |stamps| == |log|
    ensures |c| == |log|
  {
    seq(|log|, i requires 0 <= i < |log| => Stamped(stamps[i], log[i]))
  }

  /** Where an entry stamped `start` goes: after every entry with an earlier stamp. */
  function Place(list: seq<Stamped>, start: nat): (p: nat)
    ensures p <= |list|
  {
    if list == [] || list[|list| - 1].start < start then |list| else Place(list[..|list| - 1], start)
  }

  function Insert(list: seq<Stamped>, x: Stamped): seq<Stamped> {
    var p := Place(list, x.start);
    list[..p] + [x] + list[p..]
  }

  function Listed(commits: seq<Stamped>): seq<Stamped> {
    if commits == [] then [] else Insert(Listed(commits[..|commits| - 1]), commits[|commits| - 1])
  }

  function Entries(list: seq<Stamped>): (log: seq<Entry>)
    ensures |log| == |list|
  {
    seq(|list|, i requires 0 <= i < |list| => list[i].entry)
  }

  predicate Ordered(list: seq<Stamped>) {
    forall i, j :: 0 <= i < j < |list| ==> list[i].start <= list[j].start
  }

  lemma {:induction false} PlaceSplits(list: seq<Stamped>, start: nat)
    requires Ordered(list)
    ensures forall i :: 0 <= i < Place(list, start) ==> list[i].start < start
    ensures forall i :: Place(list, start) <= i < |list| ==> start <= list[i].start
  {
    if list != [] && list[|list| - 1].start >= start {
      PlaceSplits(list[..|list| - 1], start);
    }
  }

  lemma InsertOrdered(list: seq<Stamped>, x: Stamped)
    requires Ordered(list)
    ensures Ordered(Insert(list, x)) && multiset(Insert(list, x)) == multiset(list) + multiset{x}
  {
    PlaceSplits(list, x.start);
    var p := Place(list, x.start);
    assert list == list[..p] + list[p..];
  }

  /** The listing is the commits, sorted by stamp. */
  lemma {:induction false} ListedSorts(commits: seq<Stamped>)
    ensures Ordered(Listed(commits)) && multiset(Listed(commits)) == multiset(commits)
  {
    if commits != [] {
      var init, last := commits[..|commits| - 1], commits[|commits| - 1];
      ListedSorts(init);
      InsertOrdered(Listed(init), last);
      assert commits == init + [last];
    }
  }

  lemma CommitsSnoc(log: seq<Entry>, stamps: seq<nat>, e: Entry, r: nat)
    requires |stamps| == |log|
    ensures Commits(log + [e], stamps + [r]) == Commits(log, stamps) + [Stamped(r, e)]
    ensures Listed(Commits(log + [e], stamps + [r])) == Insert(Listed(Commits(log, stamps)), Stamped(r, e))
  {
    assert Commits(log + [e], stamps + [r])[..|log|] == Commits(log, stamps);
  }

  lemma EntriesSplit(a: seq<Stamped>, x: Stamped, b: seq<Stamped>)
    ensures Entries(a + [x] + b) == Entries(a) + [x.entry] + Entries(b)
    ensures Entries(a + b) == Entries(a) + Entries(b)
  {
  }

  // ---------------------------------------------------------------------------
  // Putting an entry into the middle of a log
  // ---------------------------------------------------------------------------

  datatype Target = RowOf(i: nat) | SummaryOf | LockOf | Nothing

  /** The part of the view that an entry sets. */
  function TargetOf(e: Entry): Target {
    match e
    case ScoreClamped(_, _, _) => Nothing
    case FeedbackEdited(_, _) => SummaryOf
    case ScoreOverride(i, _, _) => RowOf(i)
    case GradeLocked => LockOf
  }

  predicate Touches(log: seq<Entry>, t: Target) {
    exists i :: 0 <= i < |log| && TargetOf(log[i]) == t
  }

  /** The two views show the same thing at `t`. */
  predicate Alike(ai: string, v: View, w: View, t: Target) {
    match t
    case RowOf(i) => i < |v.rows| && i < |w.rows| && v.rows[i] == w.rows[i]
    case SummaryOf => Shown(v, ai) == Shown(w, ai)
    case LockOf => v.locked == w.locked
    case Nothing => true
  }

  lemma {:induction false} ReplayTwice(v: View, a: seq<Entry>, b: seq<Entry>)
    ensures Replay(v, a + b) == Replay(Replay(v, a), b)
  {
    if b == [] {
      assert a + b == a;
    } else {
      var n := |b| - 1;
      assert (a + b)[..|a + b| - 1] == a + b[..n];
      ReplayTwice(v, a, b[..n]);
    }
  }

  lemma TouchesSnoc(b: seq<Entry>, t: Target)
    requires b != []
    ensures Touches(b, t) <==> Touches(b[..|b| - 1], t) || TargetOf(b[|b| - 1]) == t
  {
    var init := b[..|b| - 1];
    assert forall i :: 0 <= i < |init| ==> init[i] == b[i];
    if Touches(b, t) && TargetOf(b[|b| - 1]) != t {
      var i :| 0 <= i < |b| && TargetOf(b[i]) == t;
      assert TargetOf(init[i]) == t;
    }
    if Touches(init, t) {
      var i :| 0 <= i < |init| && TargetOf(init[i]) == t;
      assert TargetOf(b[i]) == t;
    }
  }

  /** Entries set values outright, so an earlier one is either overwritten by a later one or goes last. */
  lemma Commute(v: View, e: Entry, f: Entry)
    requires TargetOf(e) != Nothing
    ensures TargetOf(e) == TargetOf(f) ==> ReplayEntry(ReplayEntry(v, e), f) == ReplayEntry(v, f)
    ensures TargetOf(e) != TargetOf(f) ==> ReplayEntry(ReplayEntry(v, e), f) == ReplayEntry(ReplayEntry(v, f), e)
  {
    if e.ScoreOverride? && f.ScoreOverride? && e.row < |v.rows| && f.row < |v.rows| {
      assert e.row == f.row ==> v.rows[e.row := e.after][f.row := f.after] == v.rows[f.row := f.after];
      assert e.row != f.row ==>
        v.rows[e.row := e.after][f.row := f.after] == v.rows[f.row := f.after][e.row := e.after];
    }
  }

  lemma {:induction false} ReplayAfter(v: View, e: Entry, b: seq<Entry>)
    requires TargetOf(e) != Nothing
    ensures Replay(ReplayEntry(v, e), b) ==
            if Touches(b, TargetOf(e)) then Replay(v, b) else ReplayEntry(Replay(v, b), e)
  {
    if b != [] {
      var n := |b| - 1;
      ReplayAfter(v, e, b[..n]);
      TouchesSnoc(b, TargetOf(e));
      hide ReplayEntry, Touches;
      Commute(Replay(v, b[..n]), e, b[n]);
    }
  }

  /** What no entry sets stays. */
  lemma {:induction false} ReplayKeeps(ai: string, v: View, b: seq<Entry>, t: Target)
    requires !Touches(b, t) && (t.RowOf? ==> t.i < |v.rows|)
    ensures |Replay(v, b).rows| == |v.rows| && Alike(ai, v, Replay(v, b), t)
  {
    ReplayKeepsLength(v, b);
    if b != [] {
      TouchesSnoc(b, t);
      ReplayKeepsLength(v, b[..|b| - 1]);
      ReplayKeeps(ai, v, b[..|b| - 1], t);
    }
  }

  /** Every entry of the log starts from what the entries before it leave. */
  predicate AllFit(ai: string, v: View, log: seq<Entry>) {
    forall n :: 0 <= n < |log| ==> Fits(ai, Replay(v, log[..n]), log[n])
  }

  lemma AllFitConcat(ai: string, v: View, a: seq<Entry>, b: seq<Entry>)
    ensures AllFit(ai, v, a + b) <==> AllFit(ai, v, a) && AllFit(ai, Replay(v, a), b)
  {
    hide Fits, Replay;
    var all := a + b;
    forall n | 0 <= n < |a|
      ensures all[..n] == a[..n] && all[n] == a[n]
    {
    }
    forall n | 0 <= n < |b|
      ensures Replay(v, all[..|a| + n]) == Replay(Replay(v, a), b[..n]) && all[|a| + n] == b[n]
    {
      assert all[..|a| + n] == a + b[..n];
      ReplayTwice(v, a, b[..n]);
    }
    if AllFit(ai, v, all) {
      forall n | 0 <= n < |b|
        ensures Fits(ai, Replay(Replay(v, a), b[..n]), b[n])
      {
        assert Fits(ai, Replay(v, all[..|a| + n]), all[|a| + n]);
      }
    }
    if AllFit(ai, v, a) && AllFit(ai, Replay(v, a), b) {
      forall n | 0 <= n < |all|
        ensures Fits(ai, Replay(v, all[..n]), all[n])
      {
        if n >= |a| {
          assert n == |a| + (n - |a|);
          assert Fits(ai, Replay(Replay(v, a), b[..n - |a|]), b[n - |a|]);
        }
      }
    }
  }

  /** Whether a later entry fits is only a matter of what it sets. */
  lemma FitsIsLocal(ai: string, v: View, e: Entry, f: Entry)
    requires Fits(ai, v, f) && (e.ScoreOverride? ==> e.row < |v.rows|)
    ensures TargetOf(e) != TargetOf(f) ==> Fits(ai, ReplayEntry(v, e), f)
    ensures TargetOf(e) == TargetOf(f) ==>
              (Fits(ai, ReplayEntry(v, e), f) <==> Alike(ai, v, ReplayEntry(v, e), TargetOf(e)))
  {
  }

  lemma AlikeMoves(ai: string, v: View, w: View, e: Entry)
    requires Alike(ai, v, w, TargetOf(e)) && (e.ScoreOverride? ==> e.row < |v.rows| && e.row < |w.rows|)
    ensures Alike(ai, v, ReplayEntry(v, e), TargetOf(e)) <==> Alike(ai, w, ReplayEntry(w, e), TargetOf(e))
  {
  }

  /** The entries after the inserted one still fit exactly when none of them starts from what it sets, or it
      sets what was there. */
  lemma {:induction false} RestFits(ai: string, v: View, e: Entry, b: seq<Entry>)
    requires TargetOf(e) != Nothing && (e.ScoreOverride? ==> e.row < |v.rows|)
    requires AllFit(ai, v, b)
    ensures AllFit(ai, ReplayEntry(v, e), b) <==>
            (Touches(b, TargetOf(e)) ==> Alike(ai, v, ReplayEntry(v, e), TargetOf(e)))
  {
    if b != [] {
      var n := |b| - 1;
      var init, last := b[..n], b[n];
      assert b == init + [last];
      AllFitSnoc(ai, v, init, last);
      AllFitSnoc(ai, ReplayEntry(v, e), init, last);
      RestFits(ai, v, e, init);
      TouchesSnoc(b, TargetOf(e));
      ReplayAfter(v, e, init);
      ReplayKeepsLength(v, init);
      FitsIsLocal(ai, Replay(v, init), e, last);
      if !Touches(init, TargetOf(e)) {
        ReplayKeeps(ai, v, init, TargetOf(e));
        AlikeMoves(ai, v, Replay(v, init), e);
      }
      hide Touches, AllFit, Fits, Alike, ReplayEntry, Replay;
    }
  }

  lemma AllFitSnoc(ai: string, v: View, init: seq<Entry>, last: Entry)
    ensures AllFit(ai, v, init + [last]) <==> AllFit(ai, v, init) && Fits(ai, Replay(v, init), last)
  {
    AllFitConcat(ai, v, init, [last]);
    hide Fits;
    assert [last][..0] == [];
    assert Replay(Replay(v, init), []) == Replay(v, init);
  }

  lemma LogOkMeans(g: Grade, log: seq<Entry>)
    ensures LogOk(g.(log := log)) <==>
            Replay(InitialView(g), log) == ViewOf(g) && AllFit(g.summary, InitialView(g), log)
  {
    var h := g.(log := log);
    assert InitialView(h) == InitialView(g) && ViewOf(h) == ViewOf(g);
    hide Fits, Replay, InitialView, ViewOf;
    if LogOk(h) {
      forall n | 0 <= n < |log|
        ensures Fits(g.summary, Replay(InitialView(g), log[..n]), log[n])
      {
        assert EntryOk(h, n);
      }
    }
    if AllFit(g.summary, InitialView(g), log) {
      assert forall n :: 0 <= n < |log| ==> EntryOk(h, n);
    }
  }

  /** A log with one more entry in the middle is faithful to the new state exactly when that entry starts from
      what the ones before it leave, what comes after does not rest on what it sets, and the state has
      become what the new log says. */
  lemma InsertIntoLog(g: Grade, a: seq<Entry>, e: Entry, b: seq<Entry>, g': Grade)
    requires LogOk(g.(log := a + b)) && g'.summary == g.summary && InitialView(g') == InitialView(g)
    requires TargetOf(e) != Nothing && (e.ScoreOverride? ==> e.row < |g.rows|)
    ensures var v, t := Replay(InitialView(g), a), TargetOf(e);
            LogOk(g'.(log := a + [e] + b)) <==>
              && Fits(g.summary, v, e)
              && (Touches(b, t) ==> Alike(g.summary, v, ReplayEntry(v, e), t))
              && ViewOf(g') == if Touches(b, t) then ViewOf(g) else ReplayEntry(ViewOf(g), e)
  {
    var init := InitialView(g);
    var v := Replay(init, a);
    LogOkMeans(g, a + b);
    LogOkMeans(g', a + [e] + b);
    ReplayKeepsLength(init, a);
    assert |init.rows| == |g.rows|;
    hide InitialView, ViewOf, LogOk, Fits, Touches, Alike;
    AllFitConcat(g.summary, init, a, b);
    AllFitConcat(g.summary, init, a + [e], b);
    AllFitSnoc(g.summary, init, a, e);
    ReplayTwice(init, a, b);
    ReplayTwice(init, a + [e], b);
    ReplaySnoc(init, a, e);
    hide AllFit, Replay;
    ReplayAfter(v, e, b);
    hide ReplayEntry;
    RestFits(g.summary, v, e, b);
  }

  // ---------------------------------------------------------------------------
  // When the returned log is faithful
  // ---------------------------------------------------------------------------

  function ListedLog(s: System): seq<Entry>
    requires |s.stamps| == |s.grade.log|
  {
    Entries(Listed(Commits(s.grade.log, s.stamps)))
  }

  /** The returned log replays to the stored grade, each entry starting from where the one before it ended. */
  predicate Faithful(s: System) {
    |s.stamps| == |s.grade.log| && LogOk(s.grade.(log := ListedLog(s)))
  }

  /** The entries that will stand before those of transaction `r`, and after them. */
  function ListedBefore(s: System, r: nat): seq<Entry>
    requires |s.stamps| == |s.grade.log|
  {
    var list := Listed(Commits(s.grade.log, s.stamps));
    Entries(list[..Place(list, r)])
  }

  function ListedAfter(s: System, r: nat): seq<Entry>
    requires |s.stamps| == |s.grade.log|
  {
    var list := Listed(Commits(s.grade.log, s.stamps));
    Entries(list[Place(list, r)..])
  }

  lemma ListedInsert(s: System, e: Entry, r: nat)
    requires |s.stamps| == |s.grade.log|
    ensures ListedLog(s) == ListedBefore(s, r) + ListedAfter(s, r)
    ensures Entries(Listed(Commits(s.grade.log + [e], s.stamps + [r]))) ==
            ListedBefore(s, r) + [e] + ListedAfter(s, r)
  {
    hide Place, Listed;
    CommitsSnoc(s.grade.log, s.stamps, e, r);
    var list := Listed(Commits(s.grade.log, s.stamps));
    var p := Place(list, r);
    assert list == list[..p] + list[p..];
    EntriesSplit(list[..p], Stamped(r, e), list[p..]);
  }

  /** The write leaves every stored value, and its entry says so. */
  predicate ChangesNothing(g: Grade, f: InFlight)
    requires Ready(f) && Applies(g, f.edit)
  {
    match f.edit
    case SetSummary(text) => text == LoadedText(g, f) && Column(g.edited, f.edited, Some(text)) == g.edited
    case Override(_, _, _) => After(f.row.value, f.edit) == f.row.value
  }

  /** Where a request that is about to commit stands. If no request that began after it has written the same
      row, or the summary, it has to be up to date. If one has, it must change nothing, and must have
      loaded what the log shows at its own place. */
  predicate InPlace(s: System, r: nat)
    requires |s.stamps| == |s.grade.log|
    requires r in s.editing && Ready(s.editing[r]) && Applies(s.grade, s.editing[r].edit)
  {
    var f := s.editing[r];
    var e := EntryOf(s.grade, f);
    if !Touches(ListedAfter(s, r), TargetOf(e)) then UpToDate(s.grade, f)
    else
      && ChangesNothing(s.grade, f)
      && Fits(s.grade.summary, Replay(InitialView(s.grade), ListedBefore(s, r)), e)
  }

  lemma FreshFits(g: Grade, f: InFlight, v: View)
    requires Ready(f) && Applies(g, f.edit)
    requires Alike(g.summary, v, ViewOf(g), TargetOf(EntryOf(g, f)))
    ensures Fits(g.summary, v, EntryOf(g, f)) <==> UpToDate(g, f)
  {
  }

  lemma StaleFits(g: Grade, f: InFlight, v: View)
    requires Ready(f) && Applies(g, f.edit) && |v.rows| == |g.rows|
    requires Fits(g.summary, v, EntryOf(g, f))
    ensures ChangesNothing(g, f) <==>
            && Alike(g.summary, v, ReplayEntry(v, EntryOf(g, f)), TargetOf(EntryOf(g, f)))
            && ViewOf(Written(g, f)) == ViewOf(g)
  {
    hide SumFinals;
    var e := EntryOf(g, f);
    match f.edit {
      case SetSummary(text) =>
        assert ViewOf(Written(g, f)).edited == Column(g.edited, f.edited, Some(text));
        assert ViewOf(Written(g, f)).rows == ViewOf(g).rows;
      case Override(i, _, _) =>
        if After(f.row.value, f.edit) == f.row.value {
          assert WriteRow(g.rows[i], f.row.value, f.edit) == g.rows[i];
          assert Written(g, f).rows == g.rows;
        }
    }
  }

  lemma CommitFacts(x: Setup, s: System, r: nat)
    requires Inv(x, s) && Enabled(x, s, FinishEdit(r))
    ensures var f, g, m := s.editing[r], s.grade, Step(x, s, FinishEdit(r));
            && m.grade == Written(g, f) && m.stamps == s.stamps + [r] && |s.stamps| == |g.log|
            && m.grade.log == g.log + [EntryOf(g, f)] && m.grade.summary == g.summary
            && InitialView(m.grade) == InitialView(g)
            && TargetOf(EntryOf(g, f)) != Nothing
            && (EntryOf(g, f).ScoreOverride? ==> EntryOf(g, f).row < |g.rows|)
            && (f.edited.Some? ==> g.edited.Some?)
  {
    hide GradeBounded, ValidRubric, LocksOk, RowRefusal, SumFinals, InitialView;
    assert FlightOk(x.criteria, s.grade, s.editing[r]);
    StepKeepsShape(x, s, FinishEdit(r));
    ShapeDecides(x.criteria, s.grade, Written(s.grade, s.editing[r]), s.editing[r].edit);
  }

  lemma ListedFacts(s: System, r: nat)
    requires Faithful(s)
    ensures var g, a, b := s.grade, ListedBefore(s, r), ListedAfter(s, r);
            && LogOk(g.(log := a + b)) && |Replay(InitialView(g), a).rows| == |g.rows|
            && ViewOf(g) == Replay(Replay(InitialView(g), a), b)
  {
    hide LogOk, Replay, ListedBefore, ListedAfter, ListedLog;
    var g, a, b := s.grade, ListedBefore(s, r), ListedAfter(s, r);
    ListedInsert(s, GradeLocked, r);
    LogOkMeans(g, a + b);
    ReplayTwice(InitialView(g), a, b);
    ReplayKeepsLength(InitialView(g), a);
  }

  lemma ListedNext(s: System, m: System, e: Entry, r: nat)
    requires |s.stamps| == |s.grade.log| && m.grade.log == s.grade.log + [e] && m.stamps == s.stamps + [r]
    ensures Faithful(m) <==> LogOk(m.grade.(log := ListedBefore(s, r) + [e] + ListedAfter(s, r)))
  {
    hide LogOk, Listed, Commits, Entries, ListedBefore, ListedAfter;
    ListedInsert(s, e, r);
  }

  lemma CommitInserts(x: Setup, s: System, r: nat)
    requires Inv(x, s) && Faithful(s) && Enabled(x, s, FinishEdit(r))
    ensures |s.stamps| == |s.grade.log|
    ensures var f, g := s.editing[r], s.grade;
            var e, a, b := EntryOf(g, f), ListedBefore(s, r), ListedAfter(s, r);
            var v, t := Replay(InitialView(g), a), TargetOf(e);
            && t != Nothing && |v.rows| == |g.rows| && ViewOf(g) == Replay(v, b)
            && (f.edited.Some? ==> g.edited.Some?) && (e.ScoreOverride? ==> e.row < |g.rows|)
            && (Faithful(Step(x, s, FinishEdit(r))) <==>
                  && Fits(g.summary, v, e)
                  && (Touches(b, t) ==> Alike(g.summary, v, ReplayEntry(v, e), t))
                  && ViewOf(Written(g, f)) == if Touches(b, t) then ViewOf(g) else ReplayEntry(ViewOf(g), e))
  {
    CommitFacts(x, s, r);
    hide *;
    ListedFacts(s, r);
    var e := EntryOf(s.grade, s.editing[r]);
    ListedNext(s, Step(x, s, FinishEdit(r)), e, r);
    InsertIntoLog(s.grade, ListedBefore(s, r), e, ListedAfter(s, r), Written(s.grade, s.editing[r]));
  }

  /** A commit leaves the returned log faithful exactly when it is in place. */
  lemma CommitListed(x: Setup, s: System, r: nat)
    requires Inv(x, s) && Faithful(s) && Enabled(x, s, FinishEdit(r))
    ensures Faithful(Step(x, s, FinishEdit(r))) <==> InPlace(s, r)
  {
    CommitInserts(x, s, r);
    hide InitialView, Replay, ViewOf, LogOk, ListedBefore, ListedAfter, Touches, Alike, Fits, ChangesNothing, Written;
    hide UpToDate, ReplayEntry, Inv, Step, Faithful;
    var f, g := s.editing[r], s.grade;
    var e, b := EntryOf(g, f), ListedAfter(s, r);
    var v := Replay(InitialView(g), ListedBefore(s, r));
    if Touches(b, TargetOf(e)) {
      if Fits(g.summary, v, e) {
        StaleFits(g, f, v);
      }
    } else {
      ReplayKeeps(g.summary, v, b, TargetOf(e));
      FreshFits(g, f, v);
      if UpToDate(g, f) {
        UpToDateWrite(g, f);
      }
    }
  }

  lemma {:induction false} LockSticks(v: View, log: seq<Entry>)
    ensures Replay(v, log).locked <==> v.locked || Touches(log, LockOf)
  {
    if log != [] {
      LockSticks(v, log[..|log| - 1]);
      TouchesSnoc(log, LockOf);
      hide Touches;
    }
  }

  lemma LockListed(x: Setup, s: System)
    requires Inv(x, s) && Faithful(s) && s.holder.Some?
    ensures Faithful(LockCommitted(s))
  {
    var g := s.grade;
    var r := s.holder.value;
    var a, b := ListedBefore(s, r), ListedAfter(s, r);
    var v := Replay(InitialView(g), a);
    ListedInsert(s, GradeLocked, r);
    assert InitialView(Locking(g)) == InitialView(g);
    assert ViewOf(Locking(g)) == ReplayEntry(ViewOf(g), GradeLocked);
    assert !ViewOf(g).locked;
    InsertIntoLog(g, a, GradeLocked, b, Locking(g));
    LogOkMeans(g, a + b);
    ReplayTwice(InitialView(g), a, b);
    LockSticks(v, b);
  }

  /** In every state on the way the returned log is faithful. */
  ghost predicate AlwaysFaithful(x: Setup, s: System, actions: seq<Action>)
    decreases |actions|
  {
    Faithful(s) &&
    (actions == [] || (Enabled(x, s, actions[0]) && AlwaysFaithful(x, Step(x, s, actions[0]), actions[1..])))
  }

  ghost predicate CommitsInPlace(x: Setup, s: System, actions: seq<Action>)
    decreases |actions|
  {
    actions == [] ||
    (Enabled(x, s, actions[0])
     && (actions[0].FinishEdit? ==> |s.stamps| == |s.grade.log| && InPlace(s, actions[0].request))
     && CommitsInPlace(x, Step(x, s, actions[0]), actions[1..]))
  }

  lemma StepListed(x: Setup, s: System, a: Action)
    requires Inv(x, s) && Faithful(s) && Enabled(x, s, a)
    ensures Faithful(Step(x, s, a)) <==>
            (a.FinishEdit? ==> |s.stamps| == |s.grade.log| && InPlace(s, a.request))
  {
    hide LogOk, InPlace, GradeBounded, ValidRubric, LocksOk, StampsOk;
    hide OpenRefusal, RowRefusal, Entries, Listed, Commits;
    if a.FinishEdit? {
      CommitListed(x, s, a.request);
    } else if a.CommitLock? {
      LockListed(x, s);
    }
  }

  /** Over a run the returned log is faithful all the way exactly when every commit is in place. */
  lemma {:induction false} LogFaithful(x: Setup, s: System, actions: seq<Action>, s': System)
    requires Inv(x, s) && Faithful(s) && IsRun(x, s, actions, s')
    ensures AlwaysFaithful(x, s, actions) <==> CommitsInPlace(x, s, actions)
    ensures AlwaysFaithful(x, s, actions) ==> Faithful(s')
    decreases |actions|
  {
    if actions != [] {
      StepListed(x, s, actions[0]);
      StepKeepsInv(x, s, actions[0]);
      hide Inv, Step, Enabled, Faithful, InPlace;
      var m := Step(x, s, actions[0]);
      if Faithful(m) {
        LogFaithful(x, m, actions[1..], s');
      }
    }
  }

  // ---------------------------------------------------------------------------
  // Edits listed after the lock
  // ---------------------------------------------------------------------------

  function EditsSince(list: seq<Stamped>, from: nat): nat {
    if list == [] then 0
    else
      var last := list[|list| - 1];
      EditsSince(list[..|list| - 1], from) + if IsEdit(last.entry) && from <= last.start then 1 else 0
  }

  lemma {:induction false} EditsSinceConcat(a: seq<Stamped>, b: seq<Stamped>, from: nat)
    ensures EditsSince(a + b, from) == EditsSince(a, from) + EditsSince(b, from)
  {
    if b == [] {
      assert a + b == a;
    } else {
      assert (a + b)[..|a + b| - 1] == a + b[..|b| - 1];
      EditsSinceConcat(a, b[..|b| - 1], from);
    }
  }

  lemma InsertCounts(list: seq<Stamped>, e: Stamped, from: nat)
    ensures EditsSince(Insert(list, e), from) == EditsSince(list + [e], from)
  {
    var p := Place(list, e.start);
    hide Place;
    assert list == list[..p] + list[p..];
    EditsSinceConcat(list[..p], list[p..], from);
    EditsSinceConcat(list[..p] + [e], list[p..], from);
    EditsSinceConcat(list[..p], [e], from);
    EditsSinceConcat(list, [e], from);
  }

  lemma {:induction false} ListedCounts(log: seq<Entry>, stamps: seq<nat>, from: nat)
    requires |stamps| == |log|
    ensures EditsSince(Listed(Commits(log, stamps)), from) == EditsFrom(log, stamps, from)
  {
    if log != [] {
      var n := |log| - 1;
      var list := Listed(Commits(log[..n], stamps[..n]));
      ListedCounts(log[..n], stamps[..n], from);
      assert log == log[..n] + [log[n]] && stamps == stamps[..n] + [stamps[n]];
      CommitsSnoc(log[..n], stamps[..n], log[n], stamps[n]);
      InsertCounts(list, Stamped(stamps[n], log[n]), from);
      EditsSinceConcat(list, [Stamped(stamps[n], log[n])], from);
      hide Listed, Commits, Insert;
    }
  }

  /** The lock entries of the list are those stamped `h`. */
  predicate LockedAt(list: seq<Stamped>, h: nat) {
    forall i :: 0 <= i < |list| ==> (list[i].entry.GradeLocked? <==> list[i].start == h)
  }

  predicate Stamps(list: seq<Stamped>, h: nat) {
    exists i :: 0 <= i < |list| && list[i].start == h
  }

  lemma EditsSinceSnoc(init: seq<Stamped>, last: Stamped, from: nat)
    ensures EditsSince(init + [last], from) ==
            EditsSince(init, from) + if IsEdit(last.entry) && from <= last.start then 1 else 0
  {
    assert (init + [last])[..|init|] == init;
  }

  lemma OrderedFront(init: seq<Stamped>, last: Stamped, h: nat)
    requires Ordered(init + [last]) && LockedAt(init + [last], h)
    ensures Ordered(init) && LockedAt(init, h)
    ensures last.entry.GradeLocked? <==> last.start == h
    ensures last.start < h ==> !Stamps(init, h)
    ensures last.start <= h ==> EditsSince(init, h + 1) == 0
  {
    var list := init + [last];
    assert list[|init|] == last;
    assert forall i :: 0 <= i < |init| ==> init[i] == list[i] && init[i].start <= last.start;
    if last.start <= h {
      NoneSince(init, h + 1);
    }
  }

  /** In an ordered list the late edits are those stamped after the lock. */
  lemma {:induction false} LateInOrder(list: seq<Stamped>, h: nat)
    requires Ordered(list) && LockedAt(list, h)
    ensures LockEntries(Entries(list)) > 0 <==> Stamps(list, h)
    ensures LateEdits(Entries(list)) == if Stamps(list, h) then EditsSince(list, h + 1) else 0
  {
    if list != [] {
      var n := |list| - 1;
      var init, last := list[..n], list[n];
      assert list == init + [last];
      OrderedFront(init, last, h);
      LateInOrder(init, h);
      EntriesSplit(init, last, []);
      assert Entries(list) == Entries(init) + [last.entry];
      hide Stamps, LockEntries, LateEdits, EditsSince, Ordered, LockedAt, Entries;
      LockCounts(Entries(init), last.entry);
      StampsSnoc(init, last, h);
      EditsSinceSnoc(init, last, h + 1);
    }
  }

  lemma StampsSnoc(init: seq<Stamped>, last: Stamped, h: nat)
    ensures Stamps(init + [last], h) <==> Stamps(init, h) || last.start == h
  {
    if Stamps(init, h) {
      var i :| 0 <= i < |init| && init[i].start == h;
      assert (init + [last])[i].start == h;
    }
    assert (init + [last])[|init|] == last;
  }

  lemma {:induction false} NoneSince(list: seq<Stamped>, from: nat)
    requires forall i :: 0 <= i < |list| ==> list[i].start < from
    ensures EditsSince(list, from) == 0
  {
    if list != [] {
      NoneSince(list[..|list| - 1], from);
    }
  }

  lemma {:induction false} TwoLocks(log: seq<Entry>, i: nat, j: nat)
    requires i < j < |log| && log[i].GradeLocked? && log[j].GradeLocked?
    ensures LockEntries(log) >= 2
  {
    if j == |log| - 1 {
      OneLock(log[..j], i);
    } else {
      TwoLocks(log[..|log| - 1], i, j);
    }
  }

  lemma {:induction false} OneLock(log: seq<Entry>, i: nat)
    requires i < |log| && log[i].GradeLocked?
    ensures LockEntries(log) >= 1
  {
    if i < |log| - 1 {
      OneLock(log[..|log| - 1], i);
    }
  }

  lemma ListedLockedAt(log: seq<Entry>, stamps: seq<nat>, n: nat)
    requires |stamps| == |log| && LockEntries(log) == 1 && n < |log| && log[n].GradeLocked?
    requires forall i, j :: 0 <= i < j < |stamps| ==> stamps[i] != stamps[j]
    ensures LockedAt(Listed(Commits(log, stamps)), stamps[n]) && Stamps(Listed(Commits(log, stamps)), stamps[n])
  {
    var commits := Commits(log, stamps);
    forall i | 0 <= i < |log| && log[i].GradeLocked?
      ensures i == n
    {
      if i < n {
        TwoLocks(log, i, n);
      } else if n < i {
        TwoLocks(log, n, i);
      }
    }
    hide LockEntries, Listed;
    ListedSorts(commits);
    var list := Listed(commits);
    assert commits[n] in multiset(list);
    var k :| 0 <= k < |list| && list[k] == commits[n];
    assert list[k].start == stamps[n];
    forall i | 0 <= i < |list|
      ensures list[i].entry.GradeLocked? <==> list[i].start == stamps[n]
    {
      assert list[i] in multiset(commits);
      var j :| 0 <= j < |commits| && commits[j] == list[i];
    }
  }

  /** With the lock in the log, the late edits of the returned log are those that began after the locker did. */
  lemma ListedLate(s: System, n: nat)
    requires StampsOk(s) && LockEntries(s.grade.log) == 1 && n < |s.grade.log| && s.grade.log[n].GradeLocked?
    ensures LateEdits(ListedLog(s)) == EditsFrom(s.grade.log, s.stamps, s.stamps[n] + 1)
  {
    var commits := Commits(s.grade.log, s.stamps);
    ListedLockedAt(s.grade.log, s.stamps, n);
    ListedSorts(commits);
    ListedCounts(s.grade.log, s.stamps, s.stamps[n] + 1);
    hide Listed, Commits, LockEntries, LateEdits, EditsSince, EditsFrom, Ordered, LockedAt, Stamps;
    LateInOrder(Listed(commits), s.stamps[n]);
  }

  /** No continuation lists more than `n` edits after the lock. */
  ghost predicate ListedAtMost(x: Setup, s: System, n: nat) {
    forall actions, s' :: IsRun(x, s, actions, s') && |s'.stamps| == |s'.grade.log| ==> LateEdits(ListedLog(s')) <= n
  }

  lemma LateFromLock(x: Setup, m: System, actions: seq<Action>, s': System)
    requires Inv(x, m) && m.grade.locked && m.grade.log != [] && m.grade.log[|m.grade.log| - 1].GradeLocked?
    requires IsRun(x, m, actions, s')
    ensures |s'.stamps| == |s'.grade.log| && m.stamps != []
    ensures LateEdits(ListedLog(s')) == EditsFrom(s'.grade.log, s'.stamps, m.stamps[|m.stamps| - 1] + 1)
  {
    hide IsRun, ValidRubric, GradeBounded, FlightOk, EditsFrom, Listed, LateEdits, LockEntries, Viable, ViableFrom;
    RunKeepsInv(x, m, actions, s');
    RunKeepsShape(x, m, actions, s');
    LockedBound(x, m, actions, s', 0);
    hide Inv;
    LockStays(x, m, s');
    ListedLate(s', |m.grade.log| - 1);
  }

  lemma LockStays(x: Setup, m: System, s': System)
    requires Inv(x, m) && Inv(x, s') && m.grade.log != [] && m.grade.log[|m.grade.log| - 1].GradeLocked?
    requires SameShape(m.grade, s'.grade) && m.stamps <= s'.stamps
    ensures var n := |m.grade.log| - 1;
            && n < |s'.grade.log| && s'.grade.log[n].GradeLocked? && m.stamps != [] && StampsOk(s')
            && s'.stamps[n] == m.stamps[|m.stamps| - 1] && LockEntries(s'.grade.log) == 1
  {
    hide ValidRubric, GradeBounded, FlightOk, LateEdits;
    OneLock(s'.grade.log, |m.grade.log| - 1);
  }

  /** When a locker is about to commit: the grade is final from then on exactly when no viable edit is in flight.
      The edits that can ever be listed after the lock are those already recorded whose request began
      after the locker did, and those in flight that did. */
  lemma LockMoment(x: Setup, s: System, n: nat)
    requires Inv(x, s) && s.holder.Some?
    ensures Final(x, LockCommitted(s)) <==> Viable(x, s) == {}
    ensures |s.stamps| == |s.grade.log|
    ensures var from := s.holder.value + 1;
            ListedAtMost(x, LockCommitted(s), n) <==>
            EditsFrom(s.grade.log, s.stamps, from) + |ViableFrom(x, s, from)| <= n
  {
    LockCommits(x, s);
    hide *;
    LockedIsFinal(x, LockCommitted(s));
    LateMost(x, LockCommitted(s), n);
  }

  /** From the state a lock has just left. */
  lemma LateMost(x: Setup, m: System, n: nat)
    requires Inv(x, m) && m.grade.locked && m.grade.log != [] && m.grade.log[|m.grade.log| - 1].GradeLocked?
    requires |m.stamps| == |m.grade.log|
    ensures var from := m.stamps[|m.stamps| - 1] + 1;
            ListedAtMost(x, m, n) <==> EditsFrom(m.grade.log, m.stamps, from) + |ViableFrom(x, m, from)| <= n
  {
    hide *;
    var from := m.stamps[|m.stamps| - 1] + 1;
    var bound := EditsFrom(m.grade.log, m.stamps, from) + |ViableFrom(x, m, from)|;
    if bound <= n {
      forall actions, s' | IsRun(x, m, actions, s') && |s'.stamps| == |s'.grade.log|
        ensures LateEdits(ListedLog(s')) <= n
      {
        LateFromLock(x, m, actions, s');
        LockedBound(x, m, actions, s', from);
      }
      AtMost(x, m, n);
    } else {
      var all, most := LockedAttained(x, m, from);
      LateFromLock(x, m, all, most);
      MoreThan(x, m, n, all, most);
    }
  }

  lemma AtMost(x: Setup, m: System, n: nat)
    requires forall actions, s' :: IsRun(x, m, actions, s') && |s'.stamps| == |s'.grade.log| ==>
            LateEdits(ListedLog(s')) <= n
    ensures ListedAtMost(x, m, n)
  {
    hide IsRun, LateEdits, ListedLog;
  }

  lemma MoreThan(x: Setup, m: System, n: nat, actions: seq<Action>, s': System)
    requires IsRun(x, m, actions, s') && |s'.stamps| == |s'.grade.log| && LateEdits(ListedLog(s')) > n
    ensures !ListedAtMost(x, m, n)
  {
    hide IsRun, LateEdits, ListedLog;
  }

  lemma LockCommits(x: Setup, s: System)
    requires Inv(x, s) && s.holder.Some?
    ensures |s.stamps| == |s.grade.log|
    ensures var m, from := LockCommitted(s), s.holder.value + 1;
            && Inv(x, m) && m.grade.locked && m.grade.log != [] && m.grade.log[|m.grade.log| - 1].GradeLocked?
            && |m.stamps| == |m.grade.log| && m.stamps[|m.stamps| - 1] == s.holder.value
            && EditsFrom(m.grade.log, m.stamps, from) == EditsFrom(s.grade.log, s.stamps, from)
            && Viable(x, m) == Viable(x, s) && ViableFrom(x, m, from) == ViableFrom(x, s, from)
  {
    CommitKeepsInv(x, s);
    ViableAtLock(x, s);
    StampLengths(x, s);
    EditsFromSnoc(s.grade.log, s.stamps, GradeLocked, s.holder.value, s.holder.value + 1);
    hide Inv, Viable, EditsFrom;
  }
}
