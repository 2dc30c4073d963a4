/** Resubmission intake (`resubmit_essay`, `_sanitize_filename`): versioned rows of one essay,
a row lock, an object store, and the clean-up of failed attempts.
 */
module Resubmission {
  import opened Outcomes
  import Text

  const MAX_FILENAME_LENGTH: nat := 200

  // ---------------------------------------------------------------------------
  // Names and keys
  // ---------------------------------------------------------------------------

  /** `os.path.basename`: what follows the last slash. */
  function Basename(path: string): (name: string)
    ensures '/' !in name
  {
    if path == [] then []
    else
      var rest := Basename(path[1..]);
      if path[0] == '/' || '/' in path[1..] then rest else [path[0]] + rest
  }

  predicate IsSafeChar(c: char) {
    'A' <= c <= 'Z' || 'a' <= c <= 'z' || '0' <= c <= '9' || c in "._-"
  }

  function ReplaceUnsafe(s: string): (r: string)
    ensures |r| == |s|
    ensures forall i :: 0 <= i < |s| ==> r[i] == if IsSafeChar(s[i]) then s[i] else '_'
  {
    seq(|s|, i requires 0 <= i < |s| => if IsSafeChar(s[i]) then s[i] else '_')
  }

  /** `fallback` is the generated `essay_<uuid>` name. */
  function SanitizeFilename(filename: string, fallback: string): (r: string)
    requires fallback != [] && |fallback| <= MAX_FILENAME_LENGTH
    requires forall i :: 0 <= i < |fallback| ==> IsSafeChar(fallback[i])
    ensures 0 < |r| <= MAX_FILENAME_LENGTH
    ensures forall i :: 0 <= i < |r| ==> IsSafeChar(r[i])
  {
    var name := ReplaceUnsafe(Basename(filename));
    var cut := if |name| > MAX_FILENAME_LENGTH then name[..MAX_FILENAME_LENGTH] else name;
    if cut == [] then fallback else cut
  }

  /** A name is kept as it is exactly when it is not empty, short enough and made of safe characters. */
  lemma SanitizeFixpoints(filename: string, fallback: string)
    requires fallback != [] && |fallback| <= MAX_FILENAME_LENGTH
    requires forall i :: 0 <= i < |fallback| ==> IsSafeChar(fallback[i])
    ensures SanitizeFilename(filename, fallback) == filename <==>
            0 < |filename| <= MAX_FILENAME_LENGTH && forall i :: 0 <= i < |filename| ==> IsSafeChar(filename[i])
  {
    hide IsSafeChar;
    if forall i :: 0 <= i < |filename| ==> IsSafeChar(filename[i]) {
      NoSlash(filename);
      BasenameOfFlat(filename);
      assert ReplaceUnsafe(filename) == filename;
    }
  }

  lemma {:induction false} BasenameAfter(dir: string, name: string)
    requires '/' !in name && (dir == [] || dir[|dir| - 1] == '/')
    ensures Basename(dir + name) == name
  {
    if dir == [] {
      BasenameOfFlat(name);
      assert dir + name == name;
    } else {
      assert (dir + name)[1..] == dir[1..] + name;
      assert |dir| > 1 ==> (dir[1..] + name)[|dir| - 2] == '/';
      BasenameAfter(dir[1..], name);
    }
  }

  /** The directory part goes, every character but letters, digits, `.`, `_` and `-` becomes `_`, what is past
      200 characters is cut off, and a name of which nothing is left is replaced. */
  lemma SanitizedName(dir: string, name: string, fallback: string)
    requires '/' !in name && (dir == [] || dir[|dir| - 1] == '/')
    requires fallback != [] && |fallback| <= MAX_FILENAME_LENGTH
    requires forall i :: 0 <= i < |fallback| ==> IsSafeChar(fallback[i])
    ensures name == [] ==> SanitizeFilename(dir + name, fallback) == fallback
    ensures name != [] ==>
              var r := SanitizeFilename(dir + name, fallback);
              && |r| == (if |name| < 200 then |name| else 200)
              && forall i :: 0 <= i < |r| ==>
                   var c := name[i];
                   r[i] == if 'a' <= c <= 'z' || 'A' <= c <= 'Z' || '0' <= c <= '9' || c == '.' || c == '_' || c == '-'
                           then c else '_'
  {
    BasenameAfter(dir, name);
  }

  lemma NoSlash(s: string)
    requires forall i :: 0 <= i < |s| ==> IsSafeChar(s[i])
    ensures '/' !in s
  {
  }

  lemma {:induction false} BasenameOfFlat(s: string)
    requires '/' !in s
    ensures Basename(s) == s
  {
    if s != [] {
      BasenameOfFlat(s[1..]);
    }
  }

  function Decimal(n: nat): (s: string)
    ensures s != [] && forall i :: 0 <= i < |s| ==> '0' <= s[i] <= '9'
  {
    var digit := ('0' as int + n % 10) as char;
    if n < 10 then [digit] else Decimal(n / 10) + [digit]
  }

  /** The object key of version `n`; `base` is `essays/<assignment>/<essay>`. */
  function Key(base: string, n: nat, name: string): string {
    base + "/v" + Decimal(n) + "/" + name
  }

  lemma {:induction false} DecimalReads(n: nat)
    ensures Text.NumberOf(Decimal(n)) == n && (n > 0 ==> Decimal(n)[0] != '0')
  {
    var s := Decimal(n);
    if n < 10 {
      assert s[..0] == [];
    } else {
      DecimalReads(n / 10);
      assert s[..|s| - 1] == Decimal(n / 10);
    }
  }

  /** A key is the essay's prefix, `v` and the version's numeral, and the name, with slashes between them. */
  lemma KeyReads(base: string, n: nat, name: string) returns (digits: string)
    ensures digits != [] && (forall i :: 0 <= i < |digits| ==> '0' <= digits[i] <= '9') && Text.NumberOf(digits) == n
    ensures n > 0 ==> digits[0] != '0'
    ensures Key(base, n, name) == base + "/v" + digits + "/" + name
  {
    digits := Decimal(n);
    DecimalReads(n);
  }

  lemma {:induction false} DecimalInjective(m: nat, n: nat)
    requires Decimal(m) == Decimal(n)
    ensures m == n
  {
    var dm, dn := Decimal(m), Decimal(n);
    assert dm[|dm| - 1] as int - '0' as int == m % 10;
    assert dn[|dn| - 1] as int - '0' as int == n % 10;
    if m >= 10 || n >= 10 {
      assert m >= 10 && n >= 10;
      assert Decimal(m / 10) == dm[..|dm| - 1] == dn[..|dn| - 1] == Decimal(n / 10);
      DecimalInjective(m / 10, n / 10);
    }
  }

  /** Two texts cut at their first slash agree on both sides of it. */
  lemma SplitAtSlash(a: string, x: string, b: string, y: string)
    requires '/' !in a && '/' !in b && a + "/" + x == b + "/" + y
    ensures a == b && x == y
  {
    var s := a + "/" + x;
    assert s[|a|] == '/' && s[|b|] == '/';
    assert forall i :: 0 <= i < |a| ==> s[i] == a[i] && a[i] in a;
    assert forall i :: 0 <= i < |b| ==> s[i] == b[i] && b[i] in b;
    assert s[..|a|] == a && s[..|b|] == b && s[|a| + 1..] == x && s[|b| + 1..] == y;
  }

  /** Different versions, or different names, never share a key. */
  lemma KeyInjective(base: string, m: nat, x: string, n: nat, y: string)
    requires Key(base, m, x) == Key(base, n, y)
    ensures m == n && x == y
  {
    var prefix := base + "/v";
    assert Key(base, m, x) == prefix + (Decimal(m) + "/" + x);
    assert Key(base, n, y) == prefix + (Decimal(n) + "/" + y);
    assert Key(base, m, x)[|prefix|..] == Decimal(m) + "/" + x;
    assert Key(base, n, y)[|prefix|..] == Decimal(n) + "/" + y;
    SplitAtSlash(Decimal(m), x, Decimal(n), y);
    DecimalInjective(m, n);
  }

  // ---------------------------------------------------------------------------
  // The protocol
  // ---------------------------------------------------------------------------

  datatype Row = Row(number: nat, key: Option<string>, content: string, words: nat)

  /** The assignment's policy; both fields stay fixed while attempts run. */
  datatype Policy = Policy(enabled: bool, limit: Option<int>)

  /** Where one attempt stands. `Cleaning` has rolled back, which gave up the row lock,
      but has not deleted its object yet. */
  datatype Phase =
    | Locked(number: nat)
    | Stored(number: nat)
    | Cleaning(number: nat)
    | Finished

  datatype Store = Store(rows: seq<Row>, bucket: set<string>, lock: Option<nat>, tasks: map<nat, Phase>)

  datatype Action =
    | Begin(task: nat)
    | UploadSucceeds(task: nat)
    | UploadFails(task: nat)
    | ExtractionFails(task: nat)
    | CommitSucceeds(task: nat, content: string)
    | CommitFails(task: nat)
    | CleanUp(task: nat)

  /** What the caller fixes: the key base, the policy, and the sanitised file name of each attempt made. */
  datatype Setting = Setting(base: string, policy: Policy, names: nat -> string)

  function KeyOf(x: Setting, number: nat, task: nat): string {
    Key(x.base, number, x.names(task))
  }

  function Max(a: int, b: int): int {
    if a >= b then a else b
  }

  function MaxNumber(rows: seq<Row>): nat {
    if rows == [] then 0 else Max(MaxNumber(rows[..|rows| - 1]), rows[|rows| - 1].number)
  }

  /** The eligibility check under the lock. */
  predicate Permits(policy: Policy, rows: seq<Row>) {
    policy.enabled && (policy.limit.Some? ==> Max(|rows| - 1, 0) < policy.limit.value)
  }

  function Finish(s: Store, task: nat): Store {
    s.(lock := None, tasks := s.tasks[task := Finished])
  }

  function Step(s: Store, a: Action, x: Setting): Store {
    var t := a.task;
    var phase := if t in s.tasks then Some(s.tasks[t]) else None;
    match a
    case Begin(_) =>
      if phase.Some? || s.lock.Some? then s
      else if !Permits(x.policy, s.rows) then s.(tasks := s.tasks[t := Finished])
      else s.(lock := Some(t), tasks := s.tasks[t := Locked(MaxNumber(s.rows) + 1)])
    case UploadSucceeds(_) =>
      if phase.Some? && phase.value.Locked? then
        var n := phase.value.number;
        s.(bucket := s.bucket + {KeyOf(x, n, t)}, tasks := s.tasks[t := Stored(n)])
      else s
    case UploadFails(_) =>
      if phase.Some? && phase.value.Locked? then Finish(s, t) else s
    case ExtractionFails(_) =>
      if phase.Some? && phase.value.Stored?
      then Finish(s.(bucket := s.bucket - {KeyOf(x, phase.value.number, t)}), t)
      else s
    case CommitSucceeds(_, content) =>
      if phase.Some? && phase.value.Stored? then
        var n := phase.value.number;
        Finish(s.(rows := s.rows + [Row(n, Some(KeyOf(x, n, t)), content, Text.CountWords(content))]), t)
      else s
    case CommitFails(_) =>
      if phase.Some? && phase.value.Stored?
      then s.(lock := None, tasks := s.tasks[t := Cleaning(phase.value.number)])
      else s
    case CleanUp(_) =>
      if phase.Some? && phase.value.Cleaning?
      then s.(bucket := s.bucket - {KeyOf(x, phase.value.number, t)}, tasks := s.tasks[t := Finished])
      else s
  }

  function Run(s: Store, actions: seq<Action>, x: Setting): Store {
    if actions == [] then s else Step(Run(s, actions[..|actions| - 1], x), actions[|actions| - 1], x)
  }

  // ---------------------------------------------------------------------------
  // Invariants of every run
  // ---------------------------------------------------------------------------

  predicate Numbered(rows: seq<Row>) {
    forall i :: 0 <= i < |rows| ==> rows[i].number == i + 1
  }

  lemma {:induction false} MaxOfNumbered(rows: seq<Row>)
    requires Numbered(rows)
    ensures MaxNumber(rows) == |rows|
  {
    if rows != [] {
      MaxOfNumbered(rows[..|rows| - 1]);
    }
  }

  /** A resting essay: version 1 exists, and no object of a future version does. */
  ghost predicate Resting(s: Store, x: Setting) {
    && s.rows != [] && Numbered(s.rows) && s.lock.None? && s.tasks == map[]
    && (forall n, name :: n > |s.rows| ==> Key(x.base, n, name) !in s.bucket)
  }

  /** Rows are numbered from 1, the lock holder is the one attempt inside, and it works on the next number. */
  predicate Ordered(s: Store, first: nat) {
    && first <= |s.rows| && Numbered(s.rows)
    && (forall t :: t in s.tasks && (s.tasks[t].Locked? || s.tasks[t].Stored?) ==>
          s.lock == Some(t) && s.tasks[t].number == |s.rows| + 1)
    && (s.lock.Some? ==> s.lock.value in s.tasks && (s.tasks[s.lock.value].Locked? || s.tasks[s.lock.value].Stored?))
    && (forall t :: t in s.tasks && s.tasks[t].Cleaning? ==> first < s.tasks[t].number)
  }

  /** Resubmissions stay within the limit, or where they were if they already exceeded it. */
  predicate WithinLimit(s: Store, first: nat, policy: Policy) {
    policy.limit.Some? ==>
      && |s.rows| - 1 <= Max(policy.limit.value, first - 1)
      && (s.lock.Some? ==> |s.rows| - 1 < policy.limit.value)
  }

  lemma StepKeepsOrder(s: Store, a: Action, first: nat, x: Setting)
    requires first >= 1 && Ordered(s, first) && WithinLimit(s, first, x.policy)
    ensures Ordered(Step(s, a, x), first) && WithinLimit(Step(s, a, x), first, x.policy)
    ensures s.rows <= Step(s, a, x).rows
  {
    hide KeyOf;
    MaxOfNumbered(s.rows);
  }

  /** Main result: in every interleaving version numbers are exactly 1..n, committed rows never change,
      and the resubmission limit holds. */
  lemma {:induction false} RunKeepsOrder(s: Store, actions: seq<Action>, x: Setting)
    requires Resting(s, x)
    ensures var s' := Run(s, actions, x);
      && Ordered(s', |s.rows|) && WithinLimit(s', |s.rows|, x.policy) && s.rows <= s'.rows
      && (x.policy.limit.Some? && |s.rows| - 1 <= x.policy.limit.value ==> |s'.rows| - 1 <= x.policy.limit.value)
  {
    hide Step;
    if actions != [] {
      var before := actions[..|actions| - 1];
      RunKeepsOrder(s, before, x);
      StepKeepsOrder(Run(s, before, x), actions[|actions| - 1], |s.rows|, x);
    }
  }

  // ---------------------------------------------------------------------------
  // Objects: what is kept, what is left behind
  // ---------------------------------------------------------------------------

  /** Every version committed since `first` still has its object. */
  predicate FilesKept(s: Store, first: nat) {
    forall i :: first <= i < |s.rows| ==> s.rows[i].key.Some? && s.rows[i].key.value in s.bucket
  }

  /** `k` is the object of an attempt that is still in progress. */
  ghost predicate InFlight(s: Store, k: string, x: Setting) {
    exists t :: t in s.tasks && (s.tasks[t].Stored? || s.tasks[t].Cleaning?) && k == KeyOf(x, s.tasks[t].number, t)
  }

  ghost predicate CommittedKey(s: Store, k: string, first: nat) {
    exists i :: first <= i < |s.rows| && s.rows[i].key == Some(k)
  }

  /** Nothing is in the bucket but the initial objects, committed files and objects in flight. */
  ghost predicate NoOrphans(s: Store, initial: set<string>, first: nat, x: Setting) {
    forall k :: k in s.bucket ==> k in initial || CommittedKey(s, k, first) || InFlight(s, k, x)
  }

  lemma StepLeavesNoOrphans(s: Store, a: Action, initial: set<string>, first: nat, x: Setting)
    requires Ordered(s, first) && NoOrphans(s, initial, first, x)
    ensures NoOrphans(Step(s, a, x), initial, first, x)
  {
    hide KeyOf, Ordered, MaxNumber, Permits;
    var s' := Step(s, a, x);
    forall k | k in s'.bucket
      ensures k in initial || CommittedKey(s', k, first) || InFlight(s', k, x)
    {
      OrphanCases(s, a, k, first, x);
      if k in s.bucket && CommittedKey(s, k, first) {
        var i :| first <= i < |s.rows| && s.rows[i].key == Some(k);
        assert s'.rows[i].key == Some(k);
      }
    }
  }

  /** An object present after a step was there before, was just uploaded, or stays accounted for. */
  lemma OrphanCases(s: Store, a: Action, k: string, first: nat, x: Setting)
    requires Ordered(s, first) && k in Step(s, a, x).bucket
    ensures k !in s.bucket || InFlight(s, k, x) ==>
            CommittedKey(Step(s, a, x), k, first) || InFlight(Step(s, a, x), k, x)
  {
    var s' := Step(s, a, x);
    var u := a.task;
    if k !in s.bucket {
      assert u in s'.tasks && s'.tasks[u].Stored? && k == KeyOf(x, s'.tasks[u].number, u);
    } else if InFlight(s, k, x) {
      var t :| t in s.tasks && (s.tasks[t].Stored? || s.tasks[t].Cleaning?) && k == KeyOf(x, s.tasks[t].number, t);
      hide KeyOf;
      if t != u || s' == s {
        assert t in s'.tasks && s'.tasks[t] == s.tasks[t];
      } else if a.CommitSucceeds? {
        assert s'.rows[|s.rows|].key == Some(k);
      } else {
        assert s'.tasks[t].Cleaning? && s'.tasks[t].number == s.tasks[t].number;
      }
    }
  }

  /** No attempt under the same file name is between its rollback and its delete. */
  predicate NoOverlap(s: Store, a: Action, x: Setting) {
    a.Begin? ==> forall u :: u in s.tasks && s.tasks[u].Cleaning? && u != a.task ==> x.names(u) != x.names(a.task)
  }

  predicate RunsWithoutOverlap(s: Store, actions: seq<Action>, x: Setting) {
    actions == [] ||
    (RunsWithoutOverlap(s, actions[..|actions| - 1], x)
     && NoOverlap(Run(s, actions[..|actions| - 1], x), actions[|actions| - 1], x))
  }

  /** The object a clean-up is about to delete belongs to no committed row and to no one's upload. */
  ghost predicate CleanersApart(s: Store, first: nat, x: Setting) {
    forall t :: t in s.tasks && s.tasks[t].Cleaning? ==>
      && !CommittedKey(s, KeyOf(x, s.tasks[t].number, t), first)
      && (s.lock.Some? ==> x.names(s.lock.value) != x.names(t))
  }


  ghost predicate Safe(s: Store, initial: set<string>, first: nat, x: Setting) {
    && Ordered(s, first) && FilesKept(s, first) && CleanersApart(s, first, x)
    && (forall i :: first <= i < |s.rows| ==> HasKeyOfNumber(s.rows[i], x))
    && initial <= s.bucket
    && (forall n, name :: n > first ==> Key(x.base, n, name) !in initial)
    && (s.lock.Some? && s.tasks[s.lock.value].Stored? ==>
          KeyOf(x, s.tasks[s.lock.value].number, s.lock.value) in s.bucket)
  }

  ghost predicate HasKeyOfNumber(row: Row, x: Setting) {
    exists name :: row.key == Some(Key(x.base, row.number, name))
  }

  /** A key of a future number belongs to no committed row. */
  lemma FutureKeyNotCommitted(s: Store, initial: set<string>, first: nat, x: Setting, n: nat, name: string)
    requires Safe(s, initial, first, x) && n > |s.rows|
    ensures !CommittedKey(s, Key(x.base, n, name), first) && Key(x.base, n, name) !in initial
  {
    hide Key;
    forall i | first <= i < |s.rows|
      ensures s.rows[i].key != Some(Key(x.base, n, name))
    {
      assert HasKeyOfNumber(s.rows[i], x);
      var other :| s.rows[i].key == Some(Key(x.base, s.rows[i].number, other));
      if Key(x.base, n, name) == Key(x.base, i + 1, other) {
        KeyInjective(x.base, n, name, i + 1, other);
      }
    }
  }

  /** Deleting an object that is neither committed nor initial keeps every file. */
  lemma DeleteKeepsFiles(s: Store, initial: set<string>, first: nat, x: Setting, k: string)
    requires Safe(s, initial, first, x) && !CommittedKey(s, k, first) && k !in initial
    ensures FilesKept(s.(bucket := s.bucket - {k}), first) && initial <= s.bucket - {k}
  {
    hide Ordered, CleanersApart, Key;
    forall i | first <= i < |s.rows|
      ensures s.rows[i].key.Some? && s.rows[i].key.value in s.bucket - {k}
    {
      assert s.rows[i].key != Some(k);
    }
  }

  lemma CommitKeepsSafe(s: Store, a: Action, initial: set<string>, first: nat, x: Setting)
    requires first >= 1 && Safe(s, initial, first, x) && a.CommitSucceeds?
    requires a.task in s.tasks && s.tasks[a.task].Stored?
    ensures Safe(Step(s, a, x), initial, first, x)
  {
    var t, s' := a.task, Step(s, a, x);
    var n := s.tasks[t].number;
    OrderedStep(s, a, first, x);
    assert s.lock == Some(t) && n == |s.rows| + 1;
    assert HasKeyOfNumber(s'.rows[|s.rows|], x);
    forall u | u in s'.tasks && s'.tasks[u].Cleaning?
      ensures !CommittedKey(s', KeyOf(x, s'.tasks[u].number, u), first)
    {
      assert !CommittedKey(s, KeyOf(x, s.tasks[u].number, u), first) && x.names(t) != x.names(u);
      if KeyOf(x, s.tasks[u].number, u) == KeyOf(x, n, t) {
        KeyInjective(x.base, s.tasks[u].number, x.names(u), n, x.names(t));
      }
      hide Key;
      forall i | first <= i < |s'.rows|
        ensures s'.rows[i].key != Some(KeyOf(x, s'.tasks[u].number, u))
      {
        if i < |s.rows| {
          assert s'.rows[i] == s.rows[i];
        }
      }
    }
  }

  /** The ordering part of a step, for a policy that may allow anything. */
  lemma OrderedStep(s: Store, a: Action, first: nat, x: Setting)
    requires Ordered(s, first) && first >= 1
    ensures Ordered(Step(s, a, x), first)
  {
    hide KeyOf;
    MaxOfNumbered(s.rows);
  }

  lemma RollbackKeepsSafe(s: Store, a: Action, initial: set<string>, first: nat, x: Setting)
    requires first >= 1 && Safe(s, initial, first, x) && (a.CommitFails? || a.ExtractionFails?)
    requires a.task in s.tasks && s.tasks[a.task].Stored?
    ensures Safe(Step(s, a, x), initial, first, x)
  {
    var t, s' := a.task, Step(s, a, x);
    var k := KeyOf(x, s.tasks[t].number, t);
    OrderedStep(s, a, first, x);
    FutureKeyNotCommitted(s, initial, first, x, s.tasks[t].number, x.names(t));
    DeleteKeepsFiles(s, initial, first, x, k);
    hide Key, Ordered, HasKeyOfNumber;
    forall u | u in s'.tasks && s'.tasks[u].Cleaning?
      ensures !CommittedKey(s', KeyOf(x, s'.tasks[u].number, u), first)
    {
      assert u in s.tasks && s'.tasks[u].number == s.tasks[u].number;
      SameCommitted(s, s', KeyOf(x, s.tasks[u].number, u), first);
    }
  }

  lemma SameCommitted(s: Store, s': Store, k: string, first: nat)
    requires s'.rows == s.rows
    ensures CommittedKey(s', k, first) == CommittedKey(s, k, first)
  {
  }

  lemma CleanUpKeepsSafe(s: Store, a: Action, initial: set<string>, first: nat, x: Setting)
    requires first >= 1 && Safe(s, initial, first, x) && a.CleanUp?
    requires a.task in s.tasks && s.tasks[a.task].Cleaning?
    ensures Safe(Step(s, a, x), initial, first, x)
  {
    var t, s' := a.task, Step(s, a, x);
    var n := s.tasks[t].number;
    OrderedStep(s, a, first, x);
    assert n > first && !CommittedKey(s, KeyOf(x, n, t), first);
    DeleteKeepsFiles(s, initial, first, x, KeyOf(x, n, t));
    if s.lock.Some? {
      var h := s.lock.value;
      assert x.names(h) != x.names(t);
      if KeyOf(x, s.tasks[h].number, h) == KeyOf(x, n, t) {
        KeyInjective(x.base, s.tasks[h].number, x.names(h), n, x.names(t));
      }
    }
    hide Key, Ordered, HasKeyOfNumber;
    forall u | u in s'.tasks && s'.tasks[u].Cleaning?
      ensures !CommittedKey(s', KeyOf(x, s'.tasks[u].number, u), first)
    {
      SameCommitted(s, s', KeyOf(x, s.tasks[u].number, u), first);
    }
  }

  /** Steps that neither delete nor commit. */
  lemma QuietStepKeepsSafe(s: Store, a: Action, initial: set<string>, first: nat, x: Setting)
    requires first >= 1 && Safe(s, initial, first, x) && NoOverlap(s, a, x)
    requires a.Begin? || a.UploadSucceeds? || a.UploadFails? || Step(s, a, x) == s
    ensures Safe(Step(s, a, x), initial, first, x)
  {
    var s' := Step(s, a, x);
    OrderedStep(s, a, first, x);
    hide Key, HasKeyOfNumber, MaxNumber, Permits;
    assert s'.rows == s.rows && s.bucket <= s'.bucket;
    forall u | u in s'.tasks && s'.tasks[u].Cleaning?
      ensures !CommittedKey(s', KeyOf(x, s'.tasks[u].number, u), first)
      ensures s'.lock.Some? ==> x.names(s'.lock.value) != x.names(u)
    {
      assert u in s.tasks && s.tasks[u] == s'.tasks[u];
      SameCommitted(s, s', KeyOf(x, s.tasks[u].number, u), first);
    }
  }

  lemma StepKeepsSafe(s: Store, a: Action, initial: set<string>, first: nat, x: Setting)
    requires first >= 1 && Safe(s, initial, first, x) && NoOverlap(s, a, x)
    ensures Safe(Step(s, a, x), initial, first, x)
  {
    hide Safe, NoOverlap, KeyOf;
    if a.task in s.tasks && s.tasks[a.task].Stored? && a.CommitSucceeds? {
      CommitKeepsSafe(s, a, initial, first, x);
    } else if a.task in s.tasks && s.tasks[a.task].Stored? && (a.CommitFails? || a.ExtractionFails?) {
      RollbackKeepsSafe(s, a, initial, first, x);
    } else if a.task in s.tasks && s.tasks[a.task].Cleaning? && a.CleanUp? {
      CleanUpKeepsSafe(s, a, initial, first, x);
    } else {
      QuietStepKeepsSafe(s, a, initial, first, x);
    }
  }

  lemma RestingIsSafe(s: Store, x: Setting)
    requires Resting(s, x)
    ensures Safe(s, s.bucket, |s.rows|, x) && NoOrphans(s, s.bucket, |s.rows|, x)
  {
  }

  /** Main result: in every interleaving each object is an initial one, a committed version's file, or
      that of an attempt still in progress: a failed attempt leaves nothing behind. */
  lemma {:induction false} RunLeavesNoOrphans(s: Store, actions: seq<Action>, x: Setting)
    requires Resting(s, x)
    ensures NoOrphans(Run(s, actions, x), s.bucket, |s.rows|, x)
  {
    hide Step, NoOrphans, Ordered, WithinLimit;
    if actions == [] {
      RestingIsSafe(s, x);
    } else {
      var before := actions[..|actions| - 1];
      RunLeavesNoOrphans(s, before, x);
      RunKeepsOrder(s, before, x);
      StepLeavesNoOrphans(Run(s, before, x), actions[|actions| - 1], s.bucket, |s.rows|, x);
    }
  }

  /** Main result: if no attempt takes the lock while one with the same file name still has to delete
      its object, every committed version keeps its file and no initial object is lost. */
  lemma {:induction false} RunKeepsFiles(s: Store, actions: seq<Action>, x: Setting)
    requires Resting(s, x) && RunsWithoutOverlap(s, actions, x)
    ensures Safe(Run(s, actions, x), s.bucket, |s.rows|, x)
  {
    hide Step, Safe, NoOverlap, Resting;
    assert |s.rows| >= 1 by {
      RestingHasRows(s, x);
    }
    if actions == [] {
      RestingIsSafe(s, x);
    } else {
      var before := actions[..|actions| - 1];
      RunKeepsFiles(s, before, x);
      StepKeepsSafe(Run(s, before, x), actions[|actions| - 1], s.bucket, |s.rows|, x);
    }
  }

  lemma RestingHasRows(s: Store, x: Setting)
    requires Resting(s, x)
    ensures |s.rows| >= 1
  {
  }

  /** Every attempt of the run is one of `attempts`. */
  predicate TasksIn(actions: seq<Action>, attempts: set<nat>) {
    forall i :: 0 <= i < |actions| ==> actions[i].task in attempts
  }

  predicate Distinct(names: nat -> string, attempts: set<nat>) {
    forall t, u :: t in attempts && u in attempts && t != u ==> names(t) != names(u)
  }

  lemma {:induction false} TasksOfRun(s: Store, actions: seq<Action>, x: Setting, attempts: set<nat>)
    requires s.tasks == map[] && TasksIn(actions, attempts)
    ensures Run(s, actions, x).tasks.Keys <= attempts
  {
    if actions != [] {
      TasksOfRun(s, actions[..|actions| - 1], x, attempts);
      StepTasks(Run(s, actions[..|actions| - 1], x), actions[|actions| - 1], x);
    }
  }

  lemma StepTasks(s: Store, a: Action, x: Setting)
    ensures Step(s, a, x).tasks.Keys <= s.tasks.Keys + {a.task}
  {
    hide KeyOf, Permits, MaxNumber;
  }

  lemma {:induction false} DistinctNeverOverlap(s: Store, actions: seq<Action>, x: Setting, attempts: set<nat>)
    requires s.tasks == map[] && TasksIn(actions, attempts) && Distinct(x.names, attempts)
    ensures RunsWithoutOverlap(s, actions, x)
  {
    hide Step;
    if actions != [] {
      var before := actions[..|actions| - 1];
      DistinctNeverOverlap(s, before, x, attempts);
      TasksOfRun(s, before, x, attempts);
      hide Run;
      assert actions[|actions| - 1].task in attempts;
    }
  }

  /** Main result: once no attempt is in progress the bucket holds exactly the initial objects and the
      files of the committed versions. */
  lemma QuietBucketIsExact(s: Store, actions: seq<Action>, x: Setting)
    requires Resting(s, x) && RunsWithoutOverlap(s, actions, x)
    requires var s' := Run(s, actions, x); forall t :: t in s'.tasks ==> !s'.tasks[t].Stored? && !s'.tasks[t].Cleaning?
    ensures var s' := Run(s, actions, x); forall k :: k in s'.bucket <==> k in s.bucket || CommittedKey(s', k, |s.rows|)
  {
    hide Run, Resting, Step, KeyOf;
    RunKeepsFiles(s, actions, x);
    RunLeavesNoOrphans(s, actions, x);
    var s' := Run(s, actions, x);
    forall k | k in s'.bucket
      ensures k in s.bucket || CommittedKey(s', k, |s.rows|)
    {
      assert !InFlight(s', k, x);
    }
  }

  lemma RunSnoc(s: Store, actions: seq<Action>, a: Action, x: Setting)
    ensures Run(s, actions + [a], x) == Step(Run(s, actions, x), a, x)
  {
    assert (actions + [a])[..|actions|] == actions;
  }

  /** The first attempt's commit fails and gives up the lock, the second stores and commits the same key,
      and only then does the first one clean up. */
  function LateCleanUp(t: nat, u: nat): seq<Action> {
    [Begin(t), UploadSucceeds(t), CommitFails(t)] + [Begin(u), UploadSucceeds(u), CommitSucceeds(u, "")] + [CleanUp(t)]
  }

  lemma FirstAttemptFails(s: Store, x: Setting, t: nat)
    requires Resting(s, x) && Permits(x.policy, s.rows)
    ensures Run(s, [Begin(t), UploadSucceeds(t), CommitFails(t)], x)
         == s.(bucket := s.bucket + {KeyOf(x, |s.rows| + 1, t)}, tasks := map[t := Cleaning(|s.rows| + 1)])
  {
    MaxOfNumbered(s.rows);
    RunSnoc(s, [], Begin(t), x);
    RunSnoc(s, [Begin(t)], UploadSucceeds(t), x);
    RunSnoc(s, [Begin(t), UploadSucceeds(t)], CommitFails(t), x);
    hide Run, KeyOf, Permits, MaxNumber;
    assert [] + [Begin(t)] == [Begin(t)];
    assert [Begin(t)] + [UploadSucceeds(t)] == [Begin(t), UploadSucceeds(t)];
    assert [Begin(t), UploadSucceeds(t)] + [CommitFails(t)] == [Begin(t), UploadSucceeds(t), CommitFails(t)];
  }

  lemma RunAppend(s: Store, a: seq<Action>, b: seq<Action>, x: Setting)
    ensures Run(s, a + b, x) == Run(Run(s, a, x), b, x)
    decreases |b|
  {
    hide Step;
    if b == [] {
      assert a + b == a;
    } else {
      var front := b[..|b| - 1];
      RunAppend(s, a, front, x);
      assert (a + b)[..|a + b| - 1] == a + front;
    }
  }

  lemma SecondAttemptCommits(s: Store, x: Setting, u: nat)
    requires s.lock.None? && u !in s.tasks && Permits(x.policy, s.rows) && Numbered(s.rows)
    ensures Run(s, [Begin(u), UploadSucceeds(u), CommitSucceeds(u, "")], x)
         == Store(s.rows + [Row(|s.rows| + 1, Some(KeyOf(x, |s.rows| + 1, u)), "", Text.CountWords(""))],
                  s.bucket + {KeyOf(x, |s.rows| + 1, u)}, None, s.tasks[u := Finished])
  {
    hide Text.CountWords, Key, KeyOf, Permits;
    MaxOfNumbered(s.rows);
    RunSnoc(s, [], Begin(u), x);
    RunSnoc(s, [Begin(u)], UploadSucceeds(u), x);
    RunSnoc(s, [Begin(u), UploadSucceeds(u)], CommitSucceeds(u, ""), x);
    hide Run, KeyOf, Permits, MaxNumber;
    assert [] + [Begin(u)] == [Begin(u)];
    assert [Begin(u)] + [UploadSucceeds(u)] == [Begin(u), UploadSucceeds(u)];
    assert [Begin(u), UploadSucceeds(u)] + [CommitSucceeds(u, "")] ==
           [Begin(u), UploadSucceeds(u), CommitSucceeds(u, "")];
  }

  /** Two attempts under one file name can lose a committed version's file. */
  lemma SameNameLosesFile(s: Store, x: Setting, t: nat, u: nat)
    requires Resting(s, x) && Permits(x.policy, s.rows) && t != u && x.names(t) == x.names(u)
    ensures !FilesKept(Run(s, LateCleanUp(t, u), x), |s.rows|)
  {
    hide Text.CountWords;
    var n := |s.rows| + 1;
    FirstAttemptFails(s, x, t);
    var s1 := Run(s, [Begin(t), UploadSucceeds(t), CommitFails(t)], x);
    SecondAttemptCommits(s1, x, u);
    var s2 := Run(s1, [Begin(u), UploadSucceeds(u), CommitSucceeds(u, "")], x);
    RunSnoc(s1, [Begin(u), UploadSucceeds(u), CommitSucceeds(u, "")], CleanUp(t), x);
    RunAppend(s, [Begin(t), UploadSucceeds(t), CommitFails(t)],
              [Begin(u), UploadSucceeds(u), CommitSucceeds(u, "")] + [CleanUp(t)], x);
    assert LateCleanUp(t, u) == [Begin(t), UploadSucceeds(t), CommitFails(t)]
                              + ([Begin(u), UploadSucceeds(u), CommitSucceeds(u, "")] + [CleanUp(t)]);
    hide Run, Permits, Key;
    var s3 := Step(s2, CleanUp(t), x);
    assert s3.rows[|s.rows|].key == Some(KeyOf(x, n, t));
  }

  /** Main result: while the policy permits a resubmission, every interleaving of the given attempts keeps
      the files of committed versions if and only if no two of them use the same sanitised file name. */
  lemma FilesKeptIffNamesDistinct(s: Store, x: Setting, attempts: set<nat>)
    requires Resting(s, x) && Permits(x.policy, s.rows)
    ensures (forall actions :: TasksIn(actions, attempts) ==> FilesKept(Run(s, actions, x), |s.rows|)) <==>
            Distinct(x.names, attempts)
  {
    NoTasksYet(s, x);
    hide Run, FilesKept, Permits, Resting;
    if Distinct(x.names, attempts) {
      forall actions | TasksIn(actions, attempts)
        ensures FilesKept(Run(s, actions, x), |s.rows|)
      {
        DistinctNeverOverlap(s, actions, x, attempts);
        RunKeepsFiles(s, actions, x);
      }
    } else {
      var t, u :| t in attempts && u in attempts && t != u && x.names(t) == x.names(u);
      SameNameLosesFile(s, x, t, u);
      assert TasksIn(LateCleanUp(t, u), attempts);
    }
  }

  lemma NoTasksYet(s: Store, x: Setting)
    requires Resting(s, x)
    ensures s.tasks == map[]
  {
  }

  // ---------------------------------------------------------------------------
  // One call, without interference
  // ---------------------------------------------------------------------------

  datatype ResubmitError =
    | FileTooLarge | FileTypeNotAllowed | Disabled | LimitReached | StorageFailed | ExtractionFailed | CommitFailed

  datatype EssayStatus = Unassigned | Queued | Grading | Graded | Reviewed | LockedStatus | Returned

  /** What the outside world does during one call. */
  datatype World = World(sizeOk: bool, mimeOk: bool, uploadOk: bool, extracted: Option<string>, commitOk: bool)

  /** The first check or outside operation of a call that fails, in the order they are made. */
  function FirstFailure(policy: Policy, rows: seq<Row>, world: World): Option<ResubmitError> {
    if !world.sizeOk then Some(FileTooLarge)
    else if !world.mimeOk then Some(FileTypeNotAllowed)
    else if !policy.enabled then Some(Disabled)
    else if !Permits(policy, rows) then Some(LimitReached)
    else if !world.uploadOk then Some(StorageFailed)
    else if world.extracted.None? then Some(ExtractionFailed)
    else if !world.commitOk then Some(CommitFailed)
    else None
  }

  class EssayStore {
    const base: string
    const policy: Policy
    var rows: seq<Row>
    var bucket: set<string>
    var status: EssayStatus

    constructor (base: string, policy: Policy, rows: seq<Row>, bucket: set<string>, status: EssayStatus)
      ensures this.base == base && this.policy == policy
      ensures this.rows == rows && this.bucket == bucket && this.status == status
    {
      this.base, this.policy := base, policy;
      this.rows, this.bucket, this.status := rows, bucket, status;
    }

    method ResubmitEssay(filename: string, fallback: string, world: World, nfc: string -> string, other: char -> bool)
      returns (r: Result<Row, ResubmitError>)
      requires Numbered(rows)
      requires fallback != [] && |fallback| <= MAX_FILENAME_LENGTH
      requires forall i :: 0 <= i < |fallback| ==> IsSafeChar(fallback[i])
      modifies this
      ensures Numbered(rows)
      ensures var key := Key(base, |old(rows)| + 1, SanitizeFilename(filename, fallback));
        match r
        case Ok(row) =>
          && Permits(policy, old(rows)) && world.extracted.Some?
          && row.number == |old(rows)| + 1 && row.key == Some(key)
          && row.content == Text.NormalizeText(world.extracted.value, nfc, other)
          && row.words == Text.CountWords(row.content)
          && rows == old(rows) + [row] && bucket == old(bucket) + {key} && status == Queued
        case Err(e) =>
          && rows == old(rows) && status == old(status)
          && bucket == (if e.ExtractionFailed? || e.CommitFailed? then old(bucket) - {key} else old(bucket))
      ensures r.Err? && r.error.LimitReached? ==> policy.limit.Some? && Max(|rows| - 1, 0) >= policy.limit.value
      ensures FirstFailure(policy, old(rows), world) == if r.Err? then Some(r.error) else None
      ensures r == Err(FileTooLarge) <==> !world.sizeOk
      ensures r == Err(FileTypeNotAllowed) <==> world.sizeOk && !world.mimeOk
      ensures r == Err(Disabled) <==> world.sizeOk && world.mimeOk && !policy.enabled
      ensures r == Err(LimitReached) <==>
                world.sizeOk && world.mimeOk && policy.enabled && policy.limit.Some?
                && (policy.limit.value <= 0 || |old(rows)| > policy.limit.value)
      ensures r.Ok? <==>
                && world.sizeOk && world.mimeOk && policy.enabled
                && (policy.limit.Some? ==> policy.limit.value > 0 && |old(rows)| <= policy.limit.value)
                && world.uploadOk && world.extracted.Some? && world.commitOk
      ensures r == Err(CommitFailed) ==> world.uploadOk && world.extracted.Some?
      ensures r == Err(ExtractionFailed) ==> world.uploadOk
    {
      hide Key, SanitizeFilename, Text.NormalizeText, Text.CountWords, Decimal, IsSafeChar;
      if !world.sizeOk {
        return Err(FileTooLarge);
      }
      if !world.mimeOk {
        return Err(FileTypeNotAllowed);
      }
      if !policy.enabled {
        return Err(Disabled);
      }
      var count := |rows|;
      var maxVersion := MaxNumber(rows);
      MaxOfNumbered(rows);
      hide MaxNumber;
      var resubmissions := Max(count - 1, 0);
      if policy.limit.Some? && resubmissions >= policy.limit.value {
        return Err(LimitReached);
      }
      var number := maxVersion + 1;
      var safeName := SanitizeFilename(filename, fallback);
      var key := Key(base, number, safeName);
      if !world.uploadOk {
        return Err(StorageFailed);
      }
      bucket := bucket + {key};
      if world.extracted.None? {
        bucket := bucket - {key};
        return Err(ExtractionFailed);
      }
      var normalized := Text.NormalizeText(world.extracted.value, nfc, other);
      var row := Row(number, Some(key), normalized, Text.CountWords(normalized));
      if !world.commitOk {
        bucket := bucket - {key};
        return Err(CommitFailed);
      }
      rows := rows + [row];
      status := Queued;
      r := Ok(row);
    }
  }
}
