/** Skill-gap grouping (`auto_grouping.py`): the inverted index of weak skills, the locked
replacement of a class's groups, and manual membership edits.

Labels, group ids and computation times are not modelled; a group is identified by its skill key.
 */
module Grouping {
  import opened Outcomes

  // ---------------------------------------------------------------------------
  // String order
  // ---------------------------------------------------------------------------

  predicate LessEq(a: string, b: string) {
    a == [] || (b != [] && (a[0] < b[0] || (a[0] == b[0] && LessEq(a[1..], b[1..]))))
  }

  /** `a` is a beginning of `b`, or has the smaller character where they first differ. */
  predicate Precedes(a: string, b: string) {
    exists k :: 0 <= k <= |a| && k <= |b| && a[..k] == b[..k] && (k == |a| || (k < |b| && a[k] < b[k]))
  }

  lemma {:induction false} LessEqIsPrecedes(a: string, b: string)
    ensures LessEq(a, b) <==> Precedes(a, b)
  {
    if a == [] {
      assert a[..0] == b[..0];
    } else if b != [] && a[0] == b[0] {
      LessEqIsPrecedes(a[1..], b[1..]);
      if Precedes(a[1..], b[1..]) {
        var k :| 0 <= k <= |a[1..]| && k <= |b[1..]| && a[1..][..k] == b[1..][..k]
                 && (k == |a[1..]| || (k < |b[1..]| && a[1..][k] < b[1..][k]));
        assert a[..k + 1] == [a[0]] + a[1..][..k] && b[..k + 1] == [b[0]] + b[1..][..k];
      }
      if Precedes(a, b) {
        var k :| 0 <= k <= |a| && k <= |b| && a[..k] == b[..k] && (k == |a| || (k < |b| && a[k] < b[k]));
        assert k > 0;
        assert a[1..][..k - 1] == a[..k][1..] && b[1..][..k - 1] == b[..k][1..];
      }
    } else if b != [] && a[0] < b[0] {
      assert a[..0] == b[..0];
    }
  }

  lemma {:induction false} LessEqTotal(a: string, b: string)
    ensures LessEq(a, b) || LessEq(b, a)
    ensures LessEq(a, b) && LessEq(b, a) ==> a == b
  {
    if a != [] && b != [] {
      LessEqTotal(a[1..], b[1..]);
      assert a == [a[0]] + a[1..] && b == [b[0]] + b[1..];
    }
  }

  lemma {:induction false} LessEqTransitive(a: string, b: string, c: string)
    requires LessEq(a, b) && LessEq(b, c)
    ensures LessEq(a, c)
  {
    if a != [] && a[0] == b[0] && b[0] == c[0] {
      LessEqTransitive(a[1..], b[1..], c[1..]);
    }
  }

  predicate Sorted(s: seq<string>) {
    forall i, j :: 0 <= i <= j < |s| ==> LessEq(s[i], s[j])
  }

  predicate NoDuplicates(s: seq<string>) {
    forall i, j :: 0 <= i < j < |s| ==> s[i] != s[j]
  }

  function Insert(s: seq<string>, x: string): (r: seq<string>)
    ensures multiset(r) == multiset(s) + multiset{x}
  {
    if s == [] || LessEq(x, s[0]) then [x] + s
    else
      assert s == [s[0]] + s[1..];
      [s[0]] + Insert(s[1..], x)
  }

  lemma {:induction false} InsertSorted(s: seq<string>, x: string)
    requires Sorted(s)
    ensures Sorted(Insert(s, x))
  {
    LessEqTotal(x, x);
    if s != [] {
      if LessEq(x, s[0]) {
        forall j | 0 <= j < |s|
          ensures LessEq(x, s[j])
        {
          LessEqTransitive(x, s[0], s[j]);
        }
      } else {
        InsertSorted(s[1..], x);
        LessEqTotal(x, s[0]);
        var r := Insert(s[1..], x);
        forall j | 0 <= j < |r|
          ensures LessEq(s[0], r[j])
        {
          assert r[j] in multiset(r);
          assert r[j] in multiset(s[1..]) + multiset{x};
        }
        LessEqTotal(s[0], s[0]);
      }
    }
  }

  /** `sorted(...)` */
  function Sort(s: seq<string>): (r: seq<string>)
    ensures multiset(r) == multiset(s) && |r| == |s|
    ensures Sorted(r)
  {
    if s == [] then []
    else
      assert s == s[..|s| - 1] + [s[|s| - 1]];
      InsertSorted(Sort(s[..|s| - 1]), s[|s| - 1]);
      Insert(Sort(s[..|s| - 1]), s[|s| - 1])
  }

  lemma FirstIsLeast(s: seq<string>, x: string)
    requires Sorted(s) && x in s
    ensures LessEq(s[0], x)
  {
  }

  lemma SortedTail(a: seq<string>)
    requires a != [] && Sorted(a)
    ensures Sorted(a[1..]) && multiset(a[1..]) == multiset(a) - multiset{a[0]}
  {
    hide LessEq;
    assert a == [a[0]] + a[1..];
    var t := a[1..];
    assert forall i :: 0 <= i < |t| ==> t[i] == a[i + 1];
  }

  lemma SameHead(a: seq<string>, b: seq<string>)
    requires a != [] && b != []
    requires Sorted(a) && Sorted(b) && multiset(a) == multiset(b)
    ensures a[0] == b[0]
  {
    hide LessEq;
    assert a[0] in multiset(b) && b[0] in multiset(a);
    FirstIsLeast(b, a[0]);
    FirstIsLeast(a, b[0]);
    LessEqTotal(a[0], b[0]);
  }

  /** A sorted list is determined by its elements. */
  lemma {:induction false} SortedUnique(a: seq<string>, b: seq<string>)
    requires Sorted(a) && Sorted(b) && multiset(a) == multiset(b)
    ensures a == b
  {
    hide LessEq, Sorted;
    assert |multiset(a)| == |a| && |multiset(b)| == |b|;
    if a != [] {
      SameHead(a, b);
      SortedTail(a);
      SortedTail(b);
      SortedUnique(a[1..], b[1..]);
      assert a == [a[0]] + a[1..] && b == [b[0]] + b[1..];
    }
  }

  // ---------------------------------------------------------------------------
  // The inverted index
  // ---------------------------------------------------------------------------

  /** `skills` maps a skill key to its average score; None is an entry that holds no number. */
  datatype Profile = Profile(student: string, skills: map<string, Option<real>>)

  datatype Stability = New | Persistent | Exited

  datatype Group = Group(key: string, students: seq<string>, count: nat, stability: Stability)

  predicate IsWeak(p: Profile, threshold: real, key: string) {
    key in p.skills && p.skills[key].Some? && p.skills[key].value < threshold
  }

  /** The students weak in `key`, in profile order. */
  function WeakStudents(profiles: seq<Profile>, threshold: real, key: string): seq<string> {
    if profiles == [] then []
    else
      var last := profiles[|profiles| - 1];
      WeakStudents(profiles[..|profiles| - 1], threshold, key)
      + if IsWeak(last, threshold, key) then [last.student] else []
  }

  predicate StrictlySorted(groups: seq<Group>) {
    forall i, j :: 0 <= i < j < |groups| ==> LessEq(groups[i].key, groups[j].key) && groups[i].key != groups[j].key
  }

  /** The group of `key` holds exactly the students weak in it, sorted, and says so. */
  predicate IsGroupOf(g: Group, profiles: seq<Profile>, threshold: real, minSize: int, previous: set<string>) {
    && Sorted(g.students) && multiset(g.students) == multiset(WeakStudents(profiles, threshold, g.key))
    && g.count == |g.students| && g.count >= minSize && g.count > 0
    && g.stability == if g.key in previous then Persistent else New
  }

  predicate HasKey(groups: seq<Group>, key: string) {
    exists i :: 0 <= i < |groups| && groups[i].key == key
  }

  /** What `_build_groups` promises, without saying how. */
  ghost predicate IsGrouping(profiles: seq<Profile>, threshold: real, minSize: int, previous: set<string>,
                             groups: seq<Group>) {
    && StrictlySorted(groups)
    && (forall i :: 0 <= i < |groups| ==> IsGroupOf(groups[i], profiles, threshold, minSize, previous))
    && (forall key :: HasKey(groups, key) <==>
          var n := |WeakStudents(profiles, threshold, key)|; n > 0 && n >= minSize)
  }

  method BuildGroups(profiles: seq<Profile>, threshold: real, minSize: int, previous: set<string> := {})
    returns (groups: seq<Group>)
    ensures IsGrouping(profiles, threshold, minSize, previous, groups)
  {
    hide LessEq, WeakStudents, IsGroupOf;
    var index := BuildIndex(profiles, threshold);
    var keys := SortedKeys(index.Keys);
    groups := [];
    for i := 0 to |keys|
      invariant StrictlySorted(groups) && AllGroups(groups, profiles, threshold, minSize, previous)
      invariant KeysOf(groups, keys[..i], profiles, threshold, minSize)
    {
      var key := keys[i];
      assert key in index.Keys && keys[..i + 1] == keys[..i] + [key];
      var students := index[key];
      if |students| >= minSize {
        var g := Group(key, Sort(students), |students|, if key in previous then Persistent else New);
        NewGroup(profiles, threshold, minSize, previous, g, students);
        KeyAfterAll(keys, i, groups);
        hide AllGroups, StrictlySorted, KeysOf;
        AddGroup(groups, g, keys[..i], profiles, threshold, minSize, previous);
        groups := groups + [g];
      }
    }
    assert keys[..|keys|] == keys;
    KeysAreExact(profiles, threshold, minSize, previous, index, groups);
  }

  ghost predicate AllGroups(groups: seq<Group>, profiles: seq<Profile>, threshold: real, minSize: int,
                            previous: set<string>) {
    forall j :: 0 <= j < |groups| ==> IsGroupOf(groups[j], profiles, threshold, minSize, previous)
  }

  /** The groups built so far are those of the keys seen so far that enough students share. */
  ghost predicate KeysOf(groups: seq<Group>, keys: seq<string>, profiles: seq<Profile>, threshold: real, minSize: int) {
    && (forall j :: 0 <= j < |groups| ==> groups[j].key in keys)
    && (forall k :: k in keys && |WeakStudents(profiles, threshold, k)| >= minSize ==> HasKey(groups, k))
  }

  lemma AddGroup(groups: seq<Group>, g: Group, keys: seq<string>, profiles: seq<Profile>, threshold: real, minSize: int,
                 previous: set<string>)
    requires StrictlySorted(groups) && AllGroups(groups, profiles, threshold, minSize, previous)
    requires KeysOf(groups, keys, profiles, threshold, minSize) && IsGroupOf(g, profiles, threshold, minSize, previous)
    requires forall j :: 0 <= j < |groups| ==> LessEq(groups[j].key, g.key) && groups[j].key != g.key
    ensures StrictlySorted(groups + [g]) && AllGroups(groups + [g], profiles, threshold, minSize, previous)
    ensures KeysOf(groups + [g], keys + [g.key], profiles, threshold, minSize)
  {
    hide LessEq, WeakStudents, IsGroupOf, HasKey;
    HasKeySnoc(groups, g);
  }

  lemma NewGroup(profiles: seq<Profile>, threshold: real, minSize: int, previous: set<string>,
                 g: Group, students: seq<string>)
    requires students == WeakStudents(profiles, threshold, g.key) && students != [] && |students| >= minSize
    requires g == Group(g.key, Sort(students), |students|, if g.key in previous then Persistent else New)
    ensures IsGroupOf(g, profiles, threshold, minSize, previous)
  {
    hide WeakStudents, LessEq;
  }

  lemma KeysAreExact(profiles: seq<Profile>, threshold: real, minSize: int, previous: set<string>,
                     index: map<string, seq<string>>, groups: seq<Group>)
    requires IsIndex(index, profiles, threshold)
    requires forall j :: 0 <= j < |groups| ==> IsGroupOf(groups[j], profiles, threshold, minSize, previous)
    requires forall k :: k in index && |WeakStudents(profiles, threshold, k)| >= minSize ==> HasKey(groups, k)
    ensures forall k :: HasKey(groups, k) <==> var n := |WeakStudents(profiles, threshold, k)|; n > 0 && n >= minSize
  {
    hide LessEq, WeakStudents;
    forall k
      ensures HasKey(groups, k) <==> var n := |WeakStudents(profiles, threshold, k)|; n > 0 && n >= minSize
    {
      if HasKey(groups, k) {
        var i :| 0 <= i < |groups| && groups[i].key == k;
        GroupSize(groups[i], profiles, threshold, minSize, previous);
      } else if WeakStudents(profiles, threshold, k) != [] {
        assert k in index;
      }
    }
  }

  lemma GroupSize(g: Group, profiles: seq<Profile>, threshold: real, minSize: int, previous: set<string>)
    requires IsGroupOf(g, profiles, threshold, minSize, previous)
    ensures |WeakStudents(profiles, threshold, g.key)| == g.count
  {
    assert |multiset(g.students)| == |multiset(WeakStudents(profiles, threshold, g.key))|;
  }

  lemma KeyAfterAll(keys: seq<string>, i: nat, groups: seq<Group>)
    requires Sorted(keys) && NoDuplicates(keys) && i < |keys|
    requires forall j :: 0 <= j < |groups| ==> groups[j].key in keys[..i]
    ensures forall j :: 0 <= j < |groups| ==> LessEq(groups[j].key, keys[i]) && groups[j].key != keys[i]
  {
  }

  lemma HasKeySnoc(groups: seq<Group>, g: Group)
    ensures forall k :: HasKey(groups + [g], k) <==> HasKey(groups, k) || k == g.key
  {
    forall k
      ensures HasKey(groups + [g], k) <==> HasKey(groups, k) || k == g.key
    {
      assert (groups + [g])[|groups|].key == g.key;
      assert forall i :: 0 <= i < |groups| ==> (groups + [g])[i] == groups[i];
    }
  }

  /** The index maps a key to its weak students, and holds no other key. */
  ghost predicate IsIndex(index: map<string, seq<string>>, profiles: seq<Profile>, threshold: real) {
    forall k :: (k in index <==> WeakStudents(profiles, threshold, k) != [])
             && (k in index ==> index[k] == WeakStudents(profiles, threshold, k))
  }

  method BuildIndex(profiles: seq<Profile>, threshold: real) returns (index: map<string, seq<string>>)
    ensures IsIndex(index, profiles, threshold)
  {
    index := map[];
    for i := 0 to |profiles|
      invariant IsIndex(index, profiles[..i], threshold)
    {
      assert profiles[..i + 1][..i] == profiles[..i];
      index := AddProfile(index, profiles[..i], profiles[i], threshold);
    }
    assert profiles[..|profiles|] == profiles;
  }

  /** The inner loop, which meets the skills of one profile in any order. */
  method AddProfile(before: map<string, seq<string>>, ghost seen: seq<Profile>, profile: Profile, threshold: real)
    returns (index: map<string, seq<string>>)
    requires IsIndex(before, seen, threshold)
    ensures IsIndex(index, seen + [profile], threshold)
  {
    assert (seen + [profile])[..|seen|] == seen;
    index := before;
    var todo := profile.skills.Keys;
    while todo != {}
      invariant todo <= profile.skills.Keys
      invariant forall k :: k in todo || k !in profile.skills.Keys ==>
        (k in index <==> k in before) && (k in before ==> index[k] == before[k])
      invariant forall k :: k in profile.skills.Keys - todo ==>
        (k in index <==> WeakStudents(seen + [profile], threshold, k) != [])
        && (k in index ==> index[k] == WeakStudents(seen + [profile], threshold, k))
      decreases todo
    {
      var key :| key in todo;
      todo := todo - {key};
      var entry := profile.skills[key];
      if entry.Some? && entry.value < threshold {
        index := index[key := (if key in index then index[key] else []) + [profile.student]];
      }
    }
  }

  method SortedKeys(keys: set<string>) returns (sorted: seq<string>)
    ensures Sorted(sorted) && NoDuplicates(sorted)
    ensures forall k :: k in sorted <==> k in keys
  {
    sorted := [];
    var todo := keys;
    while todo != {}
      invariant todo <= keys && Sorted(sorted)
      invariant multiset(sorted) == multiset(keys - todo)
      decreases todo
    {
      var key :| key in todo;
      InsertSorted(sorted, key);
      sorted := Insert(sorted, key);
      assert keys - (todo - {key}) == (keys - todo) + {key};
      todo := todo - {key};
    }
    assert keys - todo == keys;
    SetMultiset(sorted, keys);
  }

  lemma SetMultiset(s: seq<string>, keys: set<string>)
    requires multiset(s) == multiset(keys)
    ensures NoDuplicates(s) && forall k :: k in s <==> k in keys
  {
    assert forall k :: k in s <==> k in multiset(s);
    forall i, j | 0 <= i < j < |s|
      ensures s[i] != s[j]
    {
      assert s == s[..i] + [s[i]] + s[i + 1..j] + [s[j]] + s[j + 1..];
      assert multiset(s)[s[i]] >= 1 + if s[i] == s[j] then 1 else 0;
      assert multiset(keys)[s[i]] <= 1;
    }
  }

  // ---------------------------------------------------------------------------
  // What a grouping means
  // ---------------------------------------------------------------------------

  /** A student is listed under a key exactly when some profile of that student is weak in it. */
  lemma {:induction false} WeakStudentsMembers(profiles: seq<Profile>, threshold: real, key: string, student: string)
    ensures student in WeakStudents(profiles, threshold, key) <==>
            exists i :: 0 <= i < |profiles| && profiles[i].student == student && IsWeak(profiles[i], threshold, key)
  {
    if profiles != [] {
      var init := profiles[..|profiles| - 1];
      WeakStudentsMembers(init, threshold, key, student);
      assert forall i :: 0 <= i < |init| ==> init[i] == profiles[i];
    }
  }

  predicate DistinctStudents(profiles: seq<Profile>) {
    forall i, j :: 0 <= i < j < |profiles| ==> profiles[i].student != profiles[j].student
  }

  lemma {:induction false} WeakStudentsDistinct(profiles: seq<Profile>, threshold: real, key: string)
    requires DistinctStudents(profiles)
    ensures NoDuplicates(WeakStudents(profiles, threshold, key))
  {
    if profiles != [] {
      WeakStudentsDistinct(profiles[..|profiles| - 1], threshold, key);
      WeakStudentsMembers(profiles[..|profiles| - 1], threshold, key, profiles[|profiles| - 1].student);
    }
  }

  /** Where the profiles with a number below the threshold under `key` stand. */
  ghost function LowPlaces(profiles: seq<Profile>, threshold: real, key: string): set<nat> {
    set i: nat | i < |profiles| && key in profiles[i].skills && profiles[i].skills[key].Some?
                 && profiles[i].skills[key].value < threshold
  }

  lemma {:induction false} WeakCount(profiles: seq<Profile>, threshold: real, key: string)
    ensures |WeakStudents(profiles, threshold, key)| == |LowPlaces(profiles, threshold, key)|
  {
    var all := LowPlaces(profiles, threshold, key);
    if profiles == [] {
      assert all == {};
    } else {
      var n := |profiles| - 1;
      var init := profiles[..n];
      WeakCount(init, threshold, key);
      var front := LowPlaces(init, threshold, key);
      assert n !in front;
      assert all == front + if IsWeak(profiles[n], threshold, key) then {n} else {};
    }
  }

  /** The groups invert the profiles: a student is in the group of a key exactly when one of the student's profiles
      has a number below the threshold under it, and enough profiles do. */
  lemma GroupsInvertProfiles(profiles: seq<Profile>, threshold: real, minSize: int, previous: set<string>,
                             groups: seq<Group>, student: string, key: string)
    requires IsGrouping(profiles, threshold, minSize, previous, groups)
    ensures (exists g :: g in groups && g.key == key && student in g.students) <==>
            && (exists i :: i in LowPlaces(profiles, threshold, key) && profiles[i].student == student)
            && |LowPlaces(profiles, threshold, key)| >= minSize
  {
    WeakCount(profiles, threshold, key);
    WeakStudentsMembers(profiles, threshold, key, student);
    hide LessEq, WeakStudents;
    GroupMembers(profiles, threshold, minSize, previous, groups, student, key);
    assert forall i: nat :: i in LowPlaces(profiles, threshold, key) <==>
        i < |profiles| && IsWeak(profiles[i], threshold, key);
  }

  lemma GroupMembers(profiles: seq<Profile>, threshold: real, minSize: int, previous: set<string>,
                     groups: seq<Group>, student: string, key: string)
    requires IsGrouping(profiles, threshold, minSize, previous, groups)
    ensures (exists g :: g in groups && g.key == key && student in g.students) <==>
            student in WeakStudents(profiles, threshold, key) && |WeakStudents(profiles, threshold, key)| >= minSize
  {
    hide LessEq, WeakStudents, IsWeak;
    if student in WeakStudents(profiles, threshold, key) && |WeakStudents(profiles, threshold, key)| >= minSize {
      assert HasKey(groups, key);
      var i :| 0 <= i < |groups| && groups[i].key == key;
      SameMembers(groups[i].students, WeakStudents(profiles, threshold, key));
      assert groups[i] in groups && student in groups[i].students;
    }
    forall g | g in groups && g.key == key
      ensures student in g.students ==> student in WeakStudents(profiles, threshold, key)
      ensures |WeakStudents(profiles, threshold, key)| >= minSize
    {
      var i :| 0 <= i < |groups| && groups[i] == g;
      assert IsGroupOf(groups[i], profiles, threshold, minSize, previous);
      GroupSize(g, profiles, threshold, minSize, previous);
      SameMembers(g.students, WeakStudents(profiles, threshold, key));
    }
  }

  /** A group's students are listed in string order; it counts the low profiles, and is persistent exactly when its
      key was there before. Keys are listed in string order. */
  lemma GroupsAreOrdered(profiles: seq<Profile>, threshold: real, minSize: int, previous: set<string>,
                         groups: seq<Group>)
    requires IsGrouping(profiles, threshold, minSize, previous, groups)
    ensures forall i :: 0 <= i < |groups| ==>
              && groups[i].count == |groups[i].students| == |LowPlaces(profiles, threshold, groups[i].key)|
              && groups[i].stability == (if groups[i].key in previous then Persistent else New)
    ensures forall i, j, k :: 0 <= i < |groups| && 0 <= j < k < |groups[i].students| ==>
              Precedes(groups[i].students[j], groups[i].students[k])
    ensures forall i, j :: 0 <= i < j < |groups| ==>
              Precedes(groups[i].key, groups[j].key) && groups[i].key != groups[j].key
  {
    hide LessEq, WeakStudents, Precedes, LowPlaces;
    forall i | 0 <= i < |groups|
      ensures && groups[i].count == |groups[i].students| == |LowPlaces(profiles, threshold, groups[i].key)|
              && groups[i].stability == (if groups[i].key in previous then Persistent else New)
    {
      assert IsGroupOf(groups[i], profiles, threshold, minSize, previous);
      GroupSize(groups[i], profiles, threshold, minSize, previous);
      WeakCount(profiles, threshold, groups[i].key);
    }
    forall i, j, k | 0 <= i < |groups| && 0 <= j < k < |groups[i].students|
      ensures Precedes(groups[i].students[j], groups[i].students[k])
    {
      assert IsGroupOf(groups[i], profiles, threshold, minSize, previous);
      LessEqIsPrecedes(groups[i].students[j], groups[i].students[k]);
    }
    forall i, j | 0 <= i < j < |groups|
      ensures Precedes(groups[i].key, groups[j].key)
    {
      LessEqIsPrecedes(groups[i].key, groups[j].key);
    }
  }

  lemma SameMembers(a: seq<string>, b: seq<string>)
    requires multiset(a) == multiset(b)
    ensures forall x :: x in a <==> x in b
  {
    assert forall x :: x in a <==> x in multiset(a);
    assert forall x :: x in b <==> x in multiset(b);
  }

  /** The profiles determine the groups: the order in which skills are met does not matter. */
  lemma GroupingUnique(profiles: seq<Profile>, threshold: real, minSize: int, previous: set<string>, a: seq<Group>,
                       b: seq<Group>)
    requires IsGrouping(profiles, threshold, minSize, previous, a)
    requires IsGrouping(profiles, threshold, minSize, previous, b)
    ensures a == b
  {
    hide LessEq, WeakStudents, IsGroupOf;
    KeysUnique(a, b);
    forall i | 0 <= i < |a|
      ensures a[i] == b[i]
    {
      assert IsGroupOf(a[i], profiles, threshold, minSize, previous);
      assert IsGroupOf(b[i], profiles, threshold, minSize, previous);
      GroupUnique(a[i], b[i], profiles, threshold, minSize, previous);
    }
  }

  lemma GroupUnique(a: Group, b: Group, profiles: seq<Profile>, threshold: real, minSize: int, previous: set<string>)
    requires a.key == b.key
    requires IsGroupOf(a, profiles, threshold, minSize, previous)
    requires IsGroupOf(b, profiles, threshold, minSize, previous)
    ensures a == b
  {
    hide LessEq, WeakStudents, Sorted;
    SortedUnique(a.students, b.students);
  }

  lemma {:induction false} KeysUnique(a: seq<Group>, b: seq<Group>)
    requires StrictlySorted(a) && StrictlySorted(b)
    requires forall k :: HasKey(a, k) <==> HasKey(b, k)
    ensures |a| == |b| && forall i :: 0 <= i < |a| ==> a[i].key == b[i].key
  {
    hide LessEq;
    if a == [] || b == [] {
      assert a != [] ==> HasKey(a, a[0].key);
      assert b != [] ==> HasKey(b, b[0].key);
    } else {
      assert HasKey(a, a[0].key) && HasKey(b, b[0].key);
      var i :| 0 <= i < |b| && b[i].key == a[0].key;
      var j :| 0 <= j < |a| && a[j].key == b[0].key;
      LessEqTotal(a[0].key, b[0].key);
      assert a[0].key == b[0].key;
      TailKeys(a);
      TailKeys(b);
      KeysUnique(a[1..], b[1..]);
      assert forall n :: 0 < n < |a| ==> a[n] == a[1..][n - 1];
      assert forall n :: 0 < n < |b| ==> b[n] == b[1..][n - 1];
    }
  }

  lemma TailKeys(a: seq<Group>)
    requires a != [] && StrictlySorted(a)
    ensures StrictlySorted(a[1..])
    ensures forall k :: HasKey(a[1..], k) <==> HasKey(a, k) && k != a[0].key
  {
    hide LessEq;
    var t := a[1..];
    assert forall i :: 0 <= i < |t| ==> t[i] == a[i + 1];
    forall k | HasKey(a, k) && k != a[0].key
      ensures HasKey(t, k)
    {
      var i :| 0 <= i < |a| && a[i].key == k;
      assert t[i - 1].key == k;
    }
  }

  lemma {:induction false} WeakStudentsGrow(profiles: seq<Profile>, low: real, high: real, key: string)
    requires low <= high
    ensures |WeakStudents(profiles, low, key)| <= |WeakStudents(profiles, high, key)|
    ensures forall x :: x in WeakStudents(profiles, low, key) ==> x in WeakStudents(profiles, high, key)
  {
    if profiles != [] {
      WeakStudentsGrow(profiles[..|profiles| - 1], low, high, key);
    }
  }

  /** Raising the threshold or lowering the minimum size never removes a group or a member. */
  lemma GroupingMonotone(profiles: seq<Profile>, low: real, high: real, small: int, large: int,
                         strict: seq<Group>, lenient: seq<Group>, g: Group)
    requires low <= high && small <= large
    requires IsGrouping(profiles, low, large, {}, strict) && IsGrouping(profiles, high, small, {}, lenient)
    requires g in strict
    ensures exists h :: h in lenient && h.key == g.key && g.count <= h.count
                        && forall x :: x in g.students ==> x in h.students
  {
    hide LessEq, WeakStudents;
    WeakStudentsGrow(profiles, low, high, g.key);
    var i :| 0 <= i < |strict| && strict[i] == g;
    assert HasKey(strict, g.key);
    assert HasKey(lenient, g.key);
    var j :| 0 <= j < |lenient| && lenient[j].key == g.key;
    GroupSize(g, profiles, low, large, {});
    GroupSize(lenient[j], profiles, high, small, {});
    SameMembers(g.students, WeakStudents(profiles, low, g.key));
    SameMembers(lenient[j].students, WeakStudents(profiles, high, g.key));
    assert lenient[j] in lenient;
  }
}
