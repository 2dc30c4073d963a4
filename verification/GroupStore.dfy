/** Publishing a class's groups (`compute_and_persist_groups`) and editing them by hand
(`update_group_members`), over every interleaving of tasks and edits.

A grouping task computes its clusters before it takes the class lock; under the lock it reads the
active keys, deletes every row and inserts the new ones. A manual edit does not take that lock, so
it may commit between the read and the delete; from the delete on the deleting transaction holds
every row and the edit finds nothing to update.
 */
module GroupStore {
  import opened Outcomes
  import opened Grouping

  /** The class's rows; the table's unique constraint makes the skill key a map key. */
  type Table = map<string, Group>

  function ActiveKeys(t: Table): set<string> {
    set k | k in t && t[k].stability != Exited
  }

  // ---------------------------------------------------------------------------
  // The published table
  // ---------------------------------------------------------------------------

  function Relabel(g: Group, active: set<string>): Group {
    g.(stability := if g.key in active then Persistent else New)
  }

  function ExitedGroup(key: string): Group {
    Group(key, [], 0, Exited)
  }

  function Keys(groups: seq<Group>): set<string> {
    set g | g in groups :: g.key
  }

  /** Groups with pairwise different keys, at least one student each, and a true count. */
  predicate Clusters(groups: seq<Group>) {
    && (forall i, j :: 0 <= i < j < |groups| ==> groups[i].key != groups[j].key)
    && (forall g :: g in groups ==> g.students != [] && g.count == |g.students| && NoDuplicates(g.students))
  }

  /** What a run leaves in the table, given its clusters and the keys it found active. */
  ghost predicate IsPublished(clusters: seq<Group>, active: set<string>, after: Table) {
    && after.Keys == Keys(clusters) + active
    && (forall g :: g in clusters ==> after[g.key] == Relabel(g, active))
    && (forall k :: k in active - Keys(clusters) ==> after[k] == ExitedGroup(k))
  }

  lemma PublishedUnique(clusters: seq<Group>, active: set<string>, a: Table, b: Table)
    requires IsPublished(clusters, active, a) && IsPublished(clusters, active, b)
    ensures a == b
  {
    forall k | k in a
      ensures a[k] == b[k]
    {
      if k in Keys(clusters) {
        var g :| g in clusters && g.key == k;
      }
    }
  }

  /** The published table reveals exactly which keys the run took for active. */
  lemma PublishedReveals(clusters: seq<Group>, first: set<string>, second: set<string>, a: Table, b: Table)
    requires IsPublished(clusters, first, a) && IsPublished(clusters, second, b)
    ensures a == b <==> first == second
  {
    if a == b {
      forall k
        ensures k in first <==> k in second
      {
        if k in Keys(clusters) {
          var g :| g in clusters && g.key == k;
          assert a[k] == Relabel(g, first) && b[k] == Relabel(g, second);
        } else {
          assert k in first <==> k in a.Keys;
          assert k in second <==> k in b.Keys;
        }
      }
      assert first == second;
    } else if first == second {
      PublishedUnique(clusters, first, a, b);
    }
  }

  // ---------------------------------------------------------------------------
  // Rows, inserted one by one
  // ---------------------------------------------------------------------------

  datatype StoreError = Conflict | NotFound

  /** An INSERT under the unique constraint. */
  function InsertRow(t: Table, g: Group): Result<Table, StoreError> {
    if g.key in t then Err(Conflict) else Ok(t[g.key := g])
  }

  /** The rows a run inserts: relabelled clusters, then the exited keys in order. */
  function Rows(clusters: seq<Group>, active: set<string>, exited: seq<string>): seq<Group> {
    seq(|clusters|, i requires 0 <= i < |clusters| => Relabel(clusters[i], active))
    + seq(|exited|, i requires 0 <= i < |exited| => ExitedGroup(exited[i]))
  }

  ghost predicate ExitedList(clusters: seq<Group>, active: set<string>, exited: seq<string>) {
    && NoDuplicates(exited)
    && forall k :: k in exited <==> k in active - Keys(clusters)
  }

  predicate DistinctKeys(rows: seq<Group>) {
    forall i, j :: 0 <= i < j < |rows| ==> rows[i].key != rows[j].key
  }

  /** New and exited keys never meet, so no two rows collide. */
  lemma RowsDistinct(clusters: seq<Group>, active: set<string>, exited: seq<string>)
    requires Clusters(clusters) && ExitedList(clusters, active, exited)
    ensures DistinctKeys(Rows(clusters, active, exited))
  {
    var rows := Rows(clusters, active, exited);
    forall i, j | 0 <= i < j < |rows|
      ensures rows[i].key != rows[j].key
    {
      if i < |clusters| {
        assert clusters[i] in clusters;
        assert clusters[i].key in Keys(clusters);
        assert rows[i].key == clusters[i].key;
      }
      if j >= |clusters| {
        assert exited[j - |clusters|] in exited;
        assert rows[j].key == exited[j - |clusters|];
      }
    }
  }

  /** The table holds exactly the first `n` rows. */
  ghost predicate Holds(t: Table, rows: seq<Group>, n: nat)
    requires n <= |rows|
  {
    && (forall i :: 0 <= i < n ==> rows[i].key in t && t[rows[i].key] == rows[i])
    && (forall k :: k in t ==> KeyAmong(rows, n, k))
  }

  predicate KeyAmong(rows: seq<Group>, n: nat, k: string)
    requires n <= |rows|
  {
    exists i :: 0 <= i < n && rows[i].key == k
  }

  lemma InsertNext(t: Table, rows: seq<Group>, n: nat)
    requires n < |rows| && DistinctKeys(rows) && Holds(t, rows, n)
    ensures InsertRow(t, rows[n]).Ok? && Holds(InsertRow(t, rows[n]).value, rows, n + 1)
  {
    assert rows[n].key !in t;
    var t' := t[rows[n].key := rows[n]];
    forall k | k in t'
      ensures KeyAmong(rows, n + 1, k)
    {
      if k == rows[n].key {
        assert rows[n].key == k;
      } else {
        assert KeyAmong(rows, n, k);
      }
    }
  }

  lemma RowsAt(clusters: seq<Group>, active: set<string>, exited: seq<string>)
    ensures |Rows(clusters, active, exited)| == |clusters| + |exited|
    ensures forall i :: 0 <= i < |clusters| ==> Rows(clusters, active, exited)[i] == Relabel(clusters[i], active)
    ensures forall i :: 0 <= i < |exited| ==> Rows(clusters, active, exited)[|clusters| + i] == ExitedGroup(exited[i])
  {
  }

  lemma AllRowsPublish(clusters: seq<Group>, active: set<string>, exited: seq<string>, t: Table)
    requires Clusters(clusters) && ExitedList(clusters, active, exited)
    requires |Rows(clusters, active, exited)| == |clusters| + |exited|
    requires Holds(t, Rows(clusters, active, exited), |clusters| + |exited|)
    ensures IsPublished(clusters, active, t)
  {
    hide Rows, Clusters;
    RowsAt(clusters, active, exited);
    var rows := Rows(clusters, active, exited);
    forall g | g in clusters
      ensures g.key in t && t[g.key] == Relabel(g, active)
    {
      var i :| 0 <= i < |clusters| && clusters[i] == g;
      assert rows[i] == Relabel(g, active);
    }
    forall k | k in active - Keys(clusters)
      ensures k in t && t[k] == ExitedGroup(k)
    {
      assert k in exited;
      var i :| 0 <= i < |exited| && exited[i] == k;
      assert rows[|clusters| + i] == ExitedGroup(k);
    }
    HeldKeys(clusters, active, exited, t);
    forall k | k in Keys(clusters) + active
      ensures k in t
    {
      if k in Keys(clusters) {
        var g :| g in clusters && g.key == k;
      }
    }
    assert t.Keys == Keys(clusters) + active;
  }

  lemma HeldKeys(clusters: seq<Group>, active: set<string>, exited: seq<string>, t: Table)
    requires ExitedList(clusters, active, exited)
    requires |Rows(clusters, active, exited)| == |clusters| + |exited|
    requires Holds(t, Rows(clusters, active, exited), |clusters| + |exited|)
    ensures forall k :: k in t ==> k in Keys(clusters) + active
  {
    hide Rows;
    RowsAt(clusters, active, exited);
    var rows := Rows(clusters, active, exited);
    forall k | k in t
      ensures k in Keys(clusters) + active
    {
      var i :| 0 <= i < |rows| && rows[i].key == k;
      if i < |clusters| {
        assert clusters[i] in clusters && clusters[i].key == k;
      } else {
        assert rows[|clusters| + (i - |clusters|)] == ExitedGroup(exited[i - |clusters|]);
        assert exited[i - |clusters|] in exited;
      }
    }
  }

  // ---------------------------------------------------------------------------
  // Manual edits
  // ---------------------------------------------------------------------------

  /** First occurrences of the enrolled ids, in the order they were sent. */
  function Dedup(ids: seq<string>, enrolled: set<string>): (r: seq<string>) {
    if ids == [] then []
    else
      var r := Dedup(ids[..|ids| - 1], enrolled);
      var last := ids[|ids| - 1];
      if last in enrolled && last !in r then r + [last] else r
  }

  lemma {:induction false} DedupMembers(ids: seq<string>, enrolled: set<string>)
    ensures NoDuplicates(Dedup(ids, enrolled))
    ensures forall x :: x in Dedup(ids, enrolled) <==> x in ids && x in enrolled
  {
    if ids != [] {
      DedupMembers(ids[..|ids| - 1], enrolled);
      assert ids == ids[..|ids| - 1] + [ids[|ids| - 1]];
    }
  }

  /** `x` is first seen before `y` is. */
  predicate SeenBefore(ids: seq<string>, x: string, y: string) {
    exists i :: 0 <= i < |ids| && ids[i] == x && y !in ids[..i + 1]
  }

  /** The edit keeps the teacher's order: `x` is listed before `y` only if it was sent before it. */
  lemma {:induction false} DedupKeepsOrder(ids: seq<string>, enrolled: set<string>, a: nat, b: nat)
    requires a < b < |Dedup(ids, enrolled)|
    ensures SeenBefore(ids, Dedup(ids, enrolled)[a], Dedup(ids, enrolled)[b])
  {
    var init := ids[..|ids| - 1];
    var last := ids[|ids| - 1];
    var r := Dedup(init, enrolled);
    DedupMembers(init, enrolled);
    assert ids == init + [last];
    var x := Dedup(ids, enrolled)[a];
    if b < |r| {
      DedupKeepsOrder(init, enrolled, a, b);
      var i :| 0 <= i < |init| && init[i] == x && r[b] !in init[..i + 1];
      assert ids[..i + 1] == init[..i + 1];
      assert ids[i] == x;
    } else {
      assert x in r && x in init;
      var i :| 0 <= i < |init| && init[i] == x;
      assert last !in init;
      assert ids[..i + 1] == init[..i + 1];
      assert ids[i] == x && last !in ids[..i + 1];
    }
  }

  function Edited(g: Group, ids: seq<string>, enrolled: set<string>): Group {
    var kept := Dedup(ids, enrolled);
    Group(g.key, kept, |kept|,
          if kept == [] then Exited else if g.stability == Exited then Persistent else g.stability)
  }

  /** An edit empties a group exactly when none of the ids is enrolled; a group it fills again is
      persistent, and a group that stays filled keeps its label. */
  lemma EditLabels(g: Group, ids: seq<string>, enrolled: set<string>)
    requires g.stability == Exited <==> g.students == []
    ensures Edited(g, ids, enrolled).stability == Exited <==> forall x :: x in ids ==> x !in enrolled
    ensures Edited(g, ids, enrolled).stability == New <==> g.stability == New && exists x :: x in ids && x in enrolled
    ensures g.stability == Exited && (exists x :: x in ids && x in enrolled) ==>
              Edited(g, ids, enrolled).stability == Persistent
  {
    DedupMembers(ids, enrolled);
    var kept := Dedup(ids, enrolled);
    assert kept != [] ==> kept[0] in kept;
    assert forall x :: x in ids && x in enrolled ==> x in kept;
  }

  /** What an edit leaves of a group: each enrolled id once, in the order sent, and the label that goes with them. */
  ghost predicate HoldsEdit(g: Group, g': Group, ids: seq<string>, enrolled: set<string>) {
    && g'.key == g.key && g'.count == |g'.students|
    && (forall x :: x in g'.students <==> x in ids && x in enrolled)
    && (forall a, b :: 0 <= a < b < |g'.students| ==>
          g'.students[a] != g'.students[b] && SeenBefore(ids, g'.students[a], g'.students[b]))
    && g'.stability == (if g'.students == [] then Exited
                        else if g.stability == Exited then Persistent
                        else g.stability)
  }

  lemma EditHolds(g: Group, ids: seq<string>, enrolled: set<string>)
    ensures HoldsEdit(g, Edited(g, ids, enrolled), ids, enrolled)
  {
    hide SeenBefore;
    DedupMembers(ids, enrolled);
    var kept := Dedup(ids, enrolled);
    forall a, b | 0 <= a < b < |kept|
      ensures kept[a] != kept[b] && SeenBefore(ids, kept[a], kept[b])
    {
      DedupKeepsOrder(ids, enrolled, a, b);
    }
  }

  // ---------------------------------------------------------------------------
  // Interleavings
  // ---------------------------------------------------------------------------

  datatype Commit =
    | Publish(clusters: seq<Group>, readAt: nat, after: Table)
    | Edit(key: string, ids: seq<string>, enrolled: set<string>, after: Table)

  /** `Writing` holds the transaction's own view of the table after its DELETE. */
  datatype Stage =
    | Free
    | Locked(clusters: seq<Group>)
    | Read(clusters: seq<Group>, active: set<string>, readAt: nat)
    | Writing(clusters: seq<Group>, active: set<string>, readAt: nat, exited: seq<string>, done: nat, view: Table)

  datatype System = System(table: Table, waiting: multiset<seq<Group>>, stage: Stage, commits: seq<Commit>,
                           conflicts: nat)

  datatype Action =
    | Compute(clusters: seq<Group>)
    | Lock(next: seq<Group>)
    | ReadActive
    | Delete(exited: seq<string>)
    | Insert
    | CommitRun
    | Abort
    | EditMembers(key: string, ids: seq<string>, enrolled: set<string>)

  const INITIAL := System(map[], multiset{}, Free, [], 0)

  ghost predicate Enabled(s: System, a: Action) {
    match a
    case Compute(clusters) => Clusters(clusters)
    case Lock(next) => s.stage.Free? && next in s.waiting
    case ReadActive => s.stage.Locked?
    case Delete(exited) => s.stage.Read? && ExitedList(s.stage.clusters, s.stage.active, exited)
    case Insert => s.stage.Writing? && s.stage.done < |s.stage.clusters| + |s.stage.exited|
    case CommitRun => s.stage.Writing? && s.stage.done == |s.stage.clusters| + |s.stage.exited|
    case Abort => !s.stage.Free?
    case EditMembers(key, _, _) => !s.stage.Writing? && key in s.table
  }

  ghost function Step(s: System, a: Action): System
    requires Enabled(s, a)
  {
    match a
    case Compute(clusters) => s.(waiting := s.waiting + multiset{clusters})
    case Lock(next) => s.(waiting := s.waiting - multiset{next}, stage := Locked(next))
    case ReadActive => s.(stage := Read(s.stage.clusters, ActiveKeys(s.table), |s.commits|))
    case Delete(exited) => s.(stage := Writing(s.stage.clusters, s.stage.active, s.stage.readAt, exited, 0, map[]))
    case Insert =>
      (match InsertRow(s.stage.view, Rows(s.stage.clusters, s.stage.active, s.stage.exited)[s.stage.done])
       case Ok(view) => s.(stage := s.stage.(done := s.stage.done + 1, view := view))
       case Err(_) => s.(stage := Free, conflicts := s.conflicts + 1))
    case CommitRun =>
      s.(table := s.stage.view, stage := Free,
         commits := s.commits + [Publish(s.stage.clusters, s.stage.readAt, s.stage.view)])
    case Abort => s.(stage := Free)
    case EditMembers(key, ids, enrolled) =>
      var after := s.table[key := Edited(s.table[key], ids, enrolled)];
      s.(table := after, commits := s.commits + [Edit(key, ids, enrolled, after)])
  }

  ghost predicate IsRun(s: System, actions: seq<Action>, s': System)
    decreases |actions|
  {
    if actions == [] then s == s'
    else
      && Enabled(s, actions[0])
      && IsRun(Step(s, actions[0]), actions[1..], s')
  }

  // ---------------------------------------------------------------------------
  // What every run keeps
  // ---------------------------------------------------------------------------

  /** A group is exited exactly when it is empty, its count is its length, its ids are distinct. */
  predicate GroupOk(g: Group) {
    (g.stability == Exited <==> g.students == []) && g.count == |g.students| && NoDuplicates(g.students)
  }

  ghost predicate TableOk(t: Table) {
    forall k :: k in t ==> t[k].key == k && GroupOk(t[k])
  }

  /** The table after the first `n` commits. */
  function TableAt(commits: seq<Commit>, n: nat): Table
    requires n <= |commits|
  {
    if n == 0 then map[] else commits[n - 1].after
  }

  /** A publish commit writes what its clusters and the keys active at its read prescribe, and only
      edits committed since that read. An edit changes its own group and nothing else. */
  ghost predicate CommitOk(commits: seq<Commit>, n: nat)
    requires n < |commits|
  {
    match commits[n]
    case Publish(clusters, readAt, after) =>
      && readAt <= n
      && Clusters(clusters)
      && IsPublished(clusters, ActiveKeys(TableAt(commits, readAt)), after)
      && OnlyEdits(commits, readAt, n)
    case Edit(key, ids, enrolled, after) =>
      && key in TableAt(commits, n)
      && after == TableAt(commits, n)[key := Edited(TableAt(commits, n)[key], ids, enrolled)]
  }

  predicate OnlyEdits(commits: seq<Commit>, low: nat, high: nat)
    requires high <= |commits|
  {
    forall i :: low <= i < high ==> commits[i].Edit?
  }

  ghost predicate StageOk(s: System) {
    match s.stage
    case Free => true
    case Locked(clusters) => Clusters(clusters)
    case Read(clusters, active, readAt) =>
      && Clusters(clusters) && readAt <= |s.commits|
      && active == ActiveKeys(TableAt(s.commits, readAt)) && OnlyEdits(s.commits, readAt, |s.commits|)
    case Writing(clusters, active, readAt, exited, done, view) =>
      && Clusters(clusters) && readAt <= |s.commits|
      && active == ActiveKeys(TableAt(s.commits, readAt)) && OnlyEdits(s.commits, readAt, |s.commits|)
      && ExitedList(clusters, active, exited) && done <= |clusters| + |exited|
      && Holds(view, Rows(clusters, active, exited), done)
  }

  ghost predicate Inv(s: System) {
    && s.table == TableAt(s.commits, |s.commits|)
    && (forall c :: c in s.waiting ==> Clusters(c))
    && StageOk(s)
    && (forall n :: 0 <= n < |s.commits| ==> CommitOk(s.commits, n))
    && (forall n :: 0 <= n <= |s.commits| ==> TableOk(TableAt(s.commits, n)))
    && s.conflicts == 0
  }

  lemma PublishedOk(clusters: seq<Group>, active: set<string>, t: Table)
    requires Clusters(clusters) && IsPublished(clusters, active, t)
    ensures TableOk(t)
  {
    forall k | k in t
      ensures t[k].key == k && GroupOk(t[k])
    {
      if k in Keys(clusters) {
        var g :| g in clusters && g.key == k;
        assert t[k] == Relabel(g, active);
      } else {
        assert t[k] == ExitedGroup(k);
      }
    }
  }

  lemma EditedOk(t: Table, key: string, ids: seq<string>, enrolled: set<string>)
    requires TableOk(t) && key in t
    ensures TableOk(t[key := Edited(t[key], ids, enrolled)])
  {
    DedupMembers(ids, enrolled);
  }

  /** A new commit leaves the earlier ones as they were. */
  lemma AppendCommit(commits: seq<Commit>, c: Commit)
    requires forall n :: 0 <= n < |commits| ==> CommitOk(commits, n)
    requires forall n :: 0 <= n <= |commits| ==> TableOk(TableAt(commits, n))
    requires TableOk(c.after) && CommitOk(commits + [c], |commits|)
    ensures forall n :: 0 <= n < |commits + [c]| ==> CommitOk(commits + [c], n)
    ensures forall n :: 0 <= n <= |commits + [c]| ==> TableOk(TableAt(commits + [c], n))
  {
    hide TableOk, IsPublished, Clusters, Edited;
    var all := commits + [c];
    TableAtPrefix(commits, c);
    forall n | 0 <= n < |all|
      ensures CommitOk(all, n)
    {
      if n < |commits| {
        assert CommitOk(commits, n) && all[n] == commits[n];
        if all[n].Publish? {
          assert OnlyEdits(all, all[n].readAt, n);
        }
      }
    }
  }

  lemma TableAtPrefix(commits: seq<Commit>, c: Commit)
    ensures forall n :: 0 <= n <= |commits| ==> TableAt(commits + [c], n) == TableAt(commits, n)
  {
    forall n | 0 <= n <= |commits|
      ensures TableAt(commits + [c], n) == TableAt(commits, n)
    {
      if n > 0 {
        assert (commits + [c])[n - 1] == commits[n - 1];
      }
    }
  }

  lemma InsertKeepsInv(s: System)
    requires Inv(s) && Enabled(s, Insert)
    ensures Inv(Step(s, Insert))
  {
    hide CommitOk, TableOk, OnlyEdits, Clusters, Rows, Holds, ExitedList, ActiveKeys;
    var w := s.stage;
    RowsDistinct(w.clusters, w.active, w.exited);
    RowsAt(w.clusters, w.active, w.exited);
    InsertNext(w.view, Rows(w.clusters, w.active, w.exited), w.done);
  }

  lemma CommitKeepsInv(s: System)
    requires Inv(s) && Enabled(s, CommitRun)
    ensures Inv(Step(s, CommitRun))
  {
    hide TableOk, Clusters, Rows, Holds, ExitedList, ActiveKeys, IsPublished;
    var w := s.stage;
    var c := Publish(w.clusters, w.readAt, w.view);
    RowsAt(w.clusters, w.active, w.exited);
    AllRowsPublish(w.clusters, w.active, w.exited, w.view);
    PublishedOk(w.clusters, w.active, w.view);
    TableAtPrefix(s.commits, c);
    assert OnlyEdits(s.commits + [c], w.readAt, |s.commits|);
    AppendCommit(s.commits, c);
  }

  lemma EditKeepsInv(s: System, key: string, ids: seq<string>, enrolled: set<string>)
    requires Inv(s) && Enabled(s, EditMembers(key, ids, enrolled))
    ensures Inv(Step(s, EditMembers(key, ids, enrolled)))
  {
    hide TableOk, Clusters, Rows, Holds, ExitedList, ActiveKeys, IsPublished, Edited;
    var after := s.table[key := Edited(s.table[key], ids, enrolled)];
    var c := Edit(key, ids, enrolled, after);
    EditedOk(s.table, key, ids, enrolled);
    TableAtPrefix(s.commits, c);
    AppendCommit(s.commits, c);
  }

  lemma StepKeepsInv(s: System, a: Action)
    requires Inv(s) && Enabled(s, a)
    ensures Inv(Step(s, a))
  {
    hide CommitOk, TableOk, Clusters, ExitedList, ActiveKeys, Rows, IsPublished, Edited, InsertRow;
    match a
    case Insert => InsertKeepsInv(s);
    case CommitRun => CommitKeepsInv(s);
    case EditMembers(key, ids, enrolled) => EditKeepsInv(s, key, ids, enrolled);
    case _ =>
  }

  lemma {:induction false} RunKeepsInv(s: System, actions: seq<Action>, s': System)
    requires Inv(s) && IsRun(s, actions, s')
    ensures Inv(s')
    decreases |actions|
  {
    hide Inv, Step, Enabled;
    if actions != [] {
      StepKeepsInv(s, actions[0]);
      RunKeepsInv(Step(s, actions[0]), actions[1..], s');
    }
  }

  lemma InitialInv()
    ensures Inv(INITIAL)
  {
  }

  // ---------------------------------------------------------------------------
  // Main results
  // ---------------------------------------------------------------------------

  /** Whatever interleaves, the unique constraint is never hit, the table is the one last committed,
      every commit is a publish over the keys read under the lock or a single-group edit, and every
      table ever committed is well formed. */
  lemma RunsAreSerial(actions: seq<Action>, s: System)
    requires IsRun(INITIAL, actions, s)
    ensures s.conflicts == 0
    ensures s.table == TableAt(s.commits, |s.commits|)
    ensures forall n :: 0 <= n < |s.commits| ==> CommitOk(s.commits, n)
    ensures forall n :: 0 <= n <= |s.commits| ==> TableOk(TableAt(s.commits, n))
  {
    InitialInv();
    RunKeepsInv(INITIAL, actions, s);
  }

  /** A committed table is the publish function of the task's clusters and the table committed just
      before it exactly when no edit since the read changed which keys are active. */
  lemma PublishesOverPredecessor(actions: seq<Action>, s: System, n: nat)
    requires IsRun(INITIAL, actions, s)
    requires n < |s.commits| && s.commits[n].Publish?
    ensures s.commits[n].readAt <= n
    ensures IsPublished(s.commits[n].clusters, ActiveKeys(TableAt(s.commits, n)), s.commits[n].after) <==>
            ActiveKeys(TableAt(s.commits, s.commits[n].readAt)) == ActiveKeys(TableAt(s.commits, n))
  {
    RunsAreSerial(actions, s);
    hide IsPublished, ActiveKeys;
    assert CommitOk(s.commits, n);
    var c := s.commits[n];
    if IsPublished(c.clusters, ActiveKeys(TableAt(s.commits, n)), c.after) {
      var read, now := ActiveKeys(TableAt(s.commits, c.readAt)), ActiveKeys(TableAt(s.commits, n));
      PublishedReveals(c.clusters, read, now, c.after, c.after);
    }
  }

  /** Without an edit between the read and the commit the tasks are serialised in lock order. */
  lemma SerialWithoutEdits(actions: seq<Action>, s: System, n: nat)
    requires IsRun(INITIAL, actions, s)
    requires n < |s.commits| && s.commits[n].Publish?
    requires n > 0 ==> s.commits[n - 1].Publish?
    ensures IsPublished(s.commits[n].clusters, ActiveKeys(TableAt(s.commits, n)), s.commits[n].after)
  {
    RunsAreSerial(actions, s);
    hide IsPublished, ActiveKeys;
    assert CommitOk(s.commits, n);
    assert s.commits[n].readAt == n;
  }

  lemma {:induction false} RunSnoc(s: System, actions: seq<Action>, m: System, a: Action)
    requires IsRun(s, actions, m) && Enabled(m, a)
    ensures IsRun(s, actions + [a], Step(m, a))
    decreases |actions|
  {
    hide Step, Enabled;
    var all := actions + [a];
    if actions == [] {
      assert all == [a] && all[1..] == [];
      assert IsRun(Step(m, a), all[1..], Step(m, a));
    } else {
      RunSnoc(Step(s, actions[0]), actions[1..], m, a);
      assert all[0] == actions[0] && all[1..] == actions[1..] + [a];
    }
  }

  /** One undisturbed run of a single cluster, from the read to the commit. */
  lemma RunOneCluster(before: seq<Action>, s: System, g: Group) returns (actions: seq<Action>, s': System)
    requires IsRun(INITIAL, before, s) && s.stage.Read? && s.stage.clusters == [g] && s.stage.active <= {g.key}
    ensures IsRun(INITIAL, actions, s')
    ensures s' == s.(table := map[g.key := Relabel(g, s.stage.active)], stage := Free,
                     commits := s.commits + [Publish([g], s.stage.readAt, map[g.key := Relabel(g, s.stage.active)])])
  {
    hide IsRun;
    var r := s.stage;
    assert g in [g];
    assert Keys([g]) == {g.key};
    RowsAt([g], r.active, []);
    var d := Step(s, Delete([]));
    RunSnoc(INITIAL, before, s, Delete([]));
    var i := Step(d, Insert);
    RunSnoc(INITIAL, before + [Delete([])], d, Insert);
    s' := Step(i, CommitRun);
    RunSnoc(INITIAL, before + [Delete([])] + [Insert], i, CommitRun);
    actions := before + [Delete([])] + [Insert] + [CommitRun];
  }

  lemma StartRun(before: seq<Action>, s: System, g: Group) returns (actions: seq<Action>, s': System)
    requires IsRun(INITIAL, before, s) && s.stage.Free? && Clusters([g])
    ensures IsRun(INITIAL, actions, s')
    ensures s' == s.(stage := Read([g], ActiveKeys(s.table), |s.commits|))
  {
    hide IsRun;
    var c := Step(s, Compute([g]));
    RunSnoc(INITIAL, before, s, Compute([g]));
    var l := Step(c, Lock([g]));
    RunSnoc(INITIAL, before + [Compute([g])], c, Lock([g]));
    assert l.waiting == s.waiting;
    s' := Step(l, ReadActive);
    RunSnoc(INITIAL, before + [Compute([g])] + [Lock([g])], l, ReadActive);
    actions := before + [Compute([g])] + [Lock([g])] + [ReadActive];
  }

  lemma EmptyGroup(before: seq<Action>, s: System, key: string) returns (actions: seq<Action>, s': System)
    requires IsRun(INITIAL, before, s) && s.stage.Read? && key in s.table
    ensures IsRun(INITIAL, actions, s')
    ensures |s'.commits| == |s.commits| + 1 && s'.table == s'.commits[|s.commits|].after
    ensures s' == s.(table := s'.table, commits := s'.commits)
    ensures key in s'.table && s'.table[key].stability == Exited
  {
    hide IsRun;
    var edit := EditMembers(key, [], {});
    s' := Step(s, edit);
    RunSnoc(INITIAL, before, s, edit);
    actions := before + [edit];
  }

  lemma StaleLabel(g: Group, before: Table, after: Table)
    requires g.key in before && before[g.key].stability == Exited
    requires g.key in after && after[g.key].stability == Persistent
    ensures !IsPublished([g], ActiveKeys(before), after)
  {
    assert g in [g];
    assert g.key !in ActiveKeys(before);
  }

  /** An edit between the read and the delete is lost, and can leave a key labelled as it no longer
      was: here a group emptied by hand is exited, yet comes back as persistent, not new. */
  lemma EditBetweenReadAndDelete() returns (actions: seq<Action>, s: System)
    ensures IsRun(INITIAL, actions, s)
    ensures |s.commits| == 3 && s.commits[2].Publish?
    ensures !IsPublished(s.commits[2].clusters, ActiveKeys(TableAt(s.commits, 2)), s.commits[2].after)
  {
    hide IsPublished, Enabled, Step;
    var g := Group("thesis", ["a"], 1, New);
    assert IsRun(INITIAL, [], INITIAL);
    hide IsRun;
    var a1, s1 := StartRun([], INITIAL, g);
    var a2, s2 := RunOneCluster(a1, s1, g);
    var a3, s3 := StartRun(a2, s2, g);
    var a4, s4 := EmptyGroup(a3, s3, g.key);
    actions, s := RunOneCluster(a4, s4, g);
    StaleLabel(g, TableAt(s.commits, 2), s.commits[2].after);
  }

  /** How a run relabels each key, given the table before it (when the read was fresh). */
  lemma PublishLabels(clusters: seq<Group>, before: Table, after: Table, k: string)
    requires TableOk(before) && Clusters(clusters) && IsPublished(clusters, ActiveKeys(before), after)
    ensures k in after && after[k].stability == Persistent <==>
            k in Keys(clusters) && k in before && before[k].students != []
    ensures k in after && after[k].stability == New <==>
            k in Keys(clusters) && (k in before ==> before[k].students == [])
    ensures k in after && after[k].stability == Exited <==>
            k !in Keys(clusters) && k in before && before[k].students != []
    ensures k in before && before[k].stability == Exited && k !in Keys(clusters) ==> k !in after
  {
    hide NoDuplicates;
    assert k in before ==> GroupOk(before[k]);
    if k in Keys(clusters) {
      var g :| g in clusters && g.key == k;
      assert after[k] == Relabel(g, ActiveKeys(before));
    } else {
      assert k in ActiveKeys(before) ==> after[k] == ExitedGroup(k);
    }
  }

  /** The students of the profiles low in the key, in string order, as many as there are such profiles. */
  ghost predicate HoldsLow(profiles: seq<Profile>, threshold: real, key: string, students: seq<string>, count: nat) {
    var low := LowPlaces(profiles, threshold, key);
    && count == |students| == |low|
    && (forall x :: x in students <==> exists i :: i in low && profiles[i].student == x)
    && (forall i, j :: 0 <= i < j < |students| ==> Precedes(students[i], students[j]))
  }

  /** What a call leaves under a key: a group when enough profiles are low in it, an exited one when the key was
      active and no longer is, and nothing otherwise. */
  ghost predicate LeavesKey(profiles: seq<Profile>, threshold: real, minSize: int, before: Table, after: Table,
                            k: string)
  {
    var low := LowPlaces(profiles, threshold, k);
    var wasActive := k in before && before[k].stability != Exited;
    if low != {} && |low| >= minSize then
      && k in after && after[k].key == k && HoldsLow(profiles, threshold, k, after[k].students, after[k].count)
      && after[k].stability == if wasActive then Persistent else New
    else if wasActive then k in after && after[k] == Group(k, [], 0, Exited)
    else k !in after
  }

  lemma ClusterHolds(profiles: seq<Profile>, threshold: real, minSize: int, g: Group)
    requires IsGroupOf(g, profiles, threshold, minSize, {})
    ensures HoldsLow(profiles, threshold, g.key, g.students, g.count)
  {
    WeakCount(profiles, threshold, g.key);
    GroupSize(g, profiles, threshold, minSize, {});
    SameMembers(g.students, WeakStudents(profiles, threshold, g.key));
    hide LessEq, Precedes, WeakStudents;
    forall x
      ensures x in g.students <==> exists i :: i in LowPlaces(profiles, threshold, g.key) && profiles[i].student == x
    {
      WeakStudentsMembers(profiles, threshold, g.key, x);
      assert forall i: nat :: i in LowPlaces(profiles, threshold, g.key) <==>
          i < |profiles| && IsWeak(profiles[i], threshold, g.key);
    }
    forall i, j | 0 <= i < j < |g.students|
      ensures Precedes(g.students[i], g.students[j])
    {
      LessEqIsPrecedes(g.students[i], g.students[j]);
    }
  }

  /** A key is clustered exactly when enough profiles are low in it. */
  lemma ClusteredKey(profiles: seq<Profile>, threshold: real, minSize: int, clusters: seq<Group>, k: string)
    requires IsGrouping(profiles, threshold, minSize, {}, clusters)
    ensures var low := LowPlaces(profiles, threshold, k); k in Keys(clusters) <==> low != {} && |low| >= minSize
    ensures forall g :: g in clusters && g.key == k ==> HoldsLow(profiles, threshold, k, g.students, g.count)
  {
    WeakCount(profiles, threshold, k);
    assert HasKey(clusters, k) <==> var n := |WeakStudents(profiles, threshold, k)|; n > 0 && n >= minSize;
    hide LessEq, WeakStudents, IsGroupOf, LowPlaces, StrictlySorted, HoldsLow;
    assert HasKey(clusters, k) <==> k in Keys(clusters);
    forall g | g in clusters && g.key == k
      ensures HoldsLow(profiles, threshold, k, g.students, g.count)
    {
      var i :| 0 <= i < |clusters| && clusters[i] == g;
      ClusterHolds(profiles, threshold, minSize, clusters[i]);
    }
  }

  lemma PublishLeaves(profiles: seq<Profile>, threshold: real, minSize: int, clusters: seq<Group>, before: Table,
                      after: Table, k: string)
    requires IsGrouping(profiles, threshold, minSize, {}, clusters)
    requires IsPublished(clusters, ActiveKeys(before), after)
    ensures LeavesKey(profiles, threshold, minSize, before, after, k)
  {
    ClusteredKey(profiles, threshold, minSize, clusters, k);
    hide IsGrouping, LowPlaces, HoldsLow;
    if k in Keys(clusters) {
      var g :| g in clusters && g.key == k;
      assert after[k] == Relabel(g, ActiveKeys(before));
    }
  }

  /** The clusters a task computes are well formed, whatever its threshold and minimum size. */
  lemma GroupingIsClusters(profiles: seq<Profile>, threshold: real, minSize: int, previous: set<string>,
                           groups: seq<Group>)
    requires DistinctStudents(profiles)
    requires IsGrouping(profiles, threshold, minSize, previous, groups)
    ensures Clusters(groups)
  {
    hide WeakStudents, LessEq, Sorted, DistinctStudents;
    forall g | g in groups
      ensures g.students != [] && g.count == |g.students| && NoDuplicates(g.students)
    {
      var i :| 0 <= i < |groups| && groups[i] == g;
      assert IsGroupOf(groups[i], profiles, threshold, minSize, previous);
      WeakStudentsDistinct(profiles, threshold, g.key);
      NoDuplicatesPermuted(WeakStudents(profiles, threshold, g.key), g.students);
    }
  }

  lemma NoDuplicatesPermuted(a: seq<string>, b: seq<string>)
    requires NoDuplicates(a) && multiset(a) == multiset(b)
    ensures NoDuplicates(b)
  {
    DistinctMultiset(a);
    assert forall x :: x in a <==> x in multiset(a);
    var keys := set x | x in a;
    assert multiset(b) == multiset(keys);
    SetMultiset(b, keys);
  }

  lemma {:induction false} DistinctMultiset(a: seq<string>)
    requires NoDuplicates(a)
    ensures forall x :: multiset(a)[x] <= 1
  {
    if a != [] {
      var init := a[..|a| - 1];
      var last := a[|a| - 1];
      DistinctMultiset(init);
      assert a == init + [last];
      assert last !in init;
      assert multiset(a) == multiset(init) + multiset{last};
    }
  }

  /** Tagging stability under the lock gives what grouping with the previous keys would have given. */
  lemma RelabelIsGrouping(profiles: seq<Profile>, threshold: real, minSize: int, active: set<string>,
                          raw: seq<Group>, groups: seq<Group>)
    requires IsGrouping(profiles, threshold, minSize, {}, raw)
    requires |groups| == |raw| && forall i :: 0 <= i < |raw| ==> groups[i] == Relabel(raw[i], active)
    ensures IsGrouping(profiles, threshold, minSize, active, groups)
  {
    hide WeakStudents, LessEq, Sorted;
    hide HasKey;
    SameKeys(raw, groups);
    forall i | 0 <= i < |groups|
      ensures IsGroupOf(groups[i], profiles, threshold, minSize, active)
    {
      assert IsGroupOf(raw[i], profiles, threshold, minSize, {});
    }
  }

  lemma SameKeys(a: seq<Group>, b: seq<Group>)
    requires |a| == |b| && forall i :: 0 <= i < |a| ==> a[i].key == b[i].key
    ensures forall k :: HasKey(a, k) <==> HasKey(b, k)
    ensures StrictlySorted(a) ==> StrictlySorted(b)
  {
    hide LessEq;
    forall k
      ensures HasKey(a, k) <==> HasKey(b, k)
    {
      if HasKey(a, k) {
        var i :| 0 <= i < |a| && a[i].key == k;
        assert b[i].key == k;
      }
      if HasKey(b, k) {
        var i :| 0 <= i < |b| && b[i].key == k;
        assert a[i].key == k;
      }
    }
  }

  // ---------------------------------------------------------------------------
  // The stored groups of one class
  // ---------------------------------------------------------------------------

  class ClassGroups {
    var table: Table

    constructor ()
      ensures table == map[]
    {
      table := map[];
    }

    /** One uninterrupted call. Its Conflict exit is never taken. */
    method ComputeAndPersistGroups(profiles: seq<Profile>, threshold: real, minSize: int)
      returns (result: Result<seq<Group>, StoreError>, ghost clusters: seq<Group>)
      requires DistinctStudents(profiles)
      modifies this
      ensures IsGrouping(profiles, threshold, minSize, {}, clusters)
      ensures IsPublished(clusters, ActiveKeys(old(table)), table)
      ensures result.Ok? && |clusters| <= |result.value|
      ensures IsGrouping(profiles, threshold, minSize, ActiveKeys(old(table)), result.value[..|clusters|])
      ensures forall g :: g in result.value[|clusters|..] <==>
                          g.key in table && g == table[g.key] && g.stability == Exited
      ensures forall k :: LeavesKey(profiles, threshold, minSize, old(table), table, k)
    {
      hide IsGrouping, LessEq, Clusters, Holds, LeavesKey;
      var raw := BuildGroups(profiles, threshold, minSize);
      clusters := raw;
      GroupingIsClusters(profiles, threshold, minSize, {}, raw);
      var active := ActiveKeys(table);
      var exited := SortedKeys(active - Keys(raw));
      var rows := Rows(raw, active, exited);
      RowsAt(raw, active, exited);
      RowsDistinct(raw, active, exited);
      var before := table;
      var view, failed := InsertRows(rows);
      AllRowsPublish(raw, active, exited, view);
      RelabelIsGrouping(profiles, threshold, minSize, active, raw, rows[..|raw|]);
      ExitedRows(raw, active, exited, view);
      forall k
        ensures LeavesKey(profiles, threshold, minSize, before, view, k)
      {
        PublishLeaves(profiles, threshold, minSize, raw, before, view, k);
      }
      table := if failed then before else view;
      result := if failed then Err(Conflict) else Ok(rows);
    }

    /** Replaces the members of one group; every other group stays as it was. */
    method UpdateGroupMembers(key: string, ids: seq<string>, enrolled: set<string>)
      returns (result: Result<Group, StoreError>)
      modifies this
      ensures result.Ok? <==> key in old(table)
      ensures result.Err? ==> result.error == NotFound && table == old(table)
      ensures result.Ok? ==> table == old(table)[key := Edited(old(table)[key], ids, enrolled)]
      ensures result.Ok? ==> result.value == table[key] && HoldsEdit(old(table)[key], table[key], ids, enrolled)
      ensures forall k :: k != key ==> (k in table <==> k in old(table)) && (k in table ==> table[k] == old(table)[k])
    {
      if key !in table {
        return Err(NotFound);
      }
      EditHolds(table[key], ids, enrolled);
      hide HoldsEdit;
      var group := table[key];
      var seen: set<string> := {};
      var unique: seq<string> := [];
      for i := 0 to |ids|
        invariant unique == Dedup(ids[..i], enrolled)
        invariant seen == set x | x in unique
      {
        assert ids[..i + 1][..i] == ids[..i];
        if ids[i] !in seen && ids[i] in enrolled {
          seen := seen + {ids[i]};
          unique := unique + [ids[i]];
        }
      }
      assert ids[..|ids|] == ids;
      var stability := group.stability;
      if |unique| == 0 {
        stability := Exited;
      } else if group.stability == Exited {
        stability := Persistent;
      }
      var updated := Group(group.key, unique, |unique|, stability);
      table := table[key := updated];
      return Ok(updated);
    }
  }

  /** Inserts the rows into the emptied table. */
  method InsertRows(rows: seq<Group>) returns (view: Table, failed: bool)
    requires DistinctKeys(rows)
    ensures !failed && Holds(view, rows, |rows|)
  {
    view, failed := map[], false;
    for i := 0 to |rows|
      invariant !failed && Holds(view, rows, i)
    {
      InsertNext(view, rows, i);
      var inserted := InsertRow(view, rows[i]);
      failed := failed || inserted.Err?;
      view := if inserted.Ok? then inserted.value else view;
    }
  }

  lemma ExitedRows(clusters: seq<Group>, active: set<string>, exited: seq<string>, t: Table)
    requires ExitedList(clusters, active, exited) && IsPublished(clusters, active, t)
    ensures |Rows(clusters, active, exited)| == |clusters| + |exited|
    ensures forall g :: g in Rows(clusters, active, exited)[|clusters|..] <==>
                        g.key in t && g == t[g.key] && g.stability == Exited
  {
    RowsAt(clusters, active, exited);
    hide Rows;
    var tail := Rows(clusters, active, exited)[|clusters|..];
    assert forall i :: 0 <= i < |exited| ==> tail[i] == Rows(clusters, active, exited)[|clusters| + i];
    forall k | k in Keys(clusters)
      ensures t[k].stability != Exited
    {
      var c :| c in clusters && c.key == k;
      assert t[k] == Relabel(c, active);
    }
    forall g
      ensures g in tail <==> g.key in t && g == t[g.key] && g.stability == Exited
    {
      if g in tail {
        var i :| 0 <= i < |tail| && tail[i] == g;
        assert exited[i] in exited && g == ExitedGroup(exited[i]);
      }
      if g.key in t && g == t[g.key] && g.stability == Exited {
        assert g.key in active - Keys(clusters);
        assert g.key in exited;
        var i :| 0 <= i < |exited| && exited[i] == g.key;
        assert tail[i] == ExitedGroup(g.key);
      }
    }
  }
}
