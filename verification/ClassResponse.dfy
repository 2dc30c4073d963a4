/** The class response, said of the rows themselves: which scores make up an average, how it is rounded,
how its histogram counts, and who is affected.
 */
module ClassResponse {
  import opened Outcomes
  import Grouping
  import opened Insights

  // ---------------------------------------------------------------------------
  // The scores behind a skill
  // ---------------------------------------------------------------------------

  /** `share` is where the row's score lies in its criterion's range, from 0 to 1. */
  predicate IsShare(row: Row, share: real) {
    && row.criterion.Some?
    && var c := row.criterion.value;
    if c.maxScore <= c.minScore || row.final >= c.maxScore then share == 1.0
    else if row.final <= c.minScore then share == 0.0
    else c.minScore as real + share * (c.maxScore - c.minScore) as real == row.final as real
  }

  predicate IsAbout(row: Row, norm: string -> string, skill: string) {
    row.criterion.Some? && norm(row.criterion.value.name) == skill
  }

  datatype Whose = Everyone | Only(student: StudentId)

  predicate IsOf(row: Row, whose: Whose) {
    whose.Everyone? || row.student == Some(whose.student)
  }

  predicate Increasing(places: seq<nat>) {
    forall j, k :: 0 <= j < k < |places| ==> places[j] < places[k]
  }

  /** The given rows are, in order, those about the skill, of the class or of one student; `shares` are their scores. */
  predicate Picks(rows: seq<Row>, norm: string -> string, skill: string, whose: Whose, picks: seq<nat>,
                  shares: seq<real>)
  {
    && |picks| == |shares| && Increasing(picks)
    && (forall k :: 0 <= k < |picks| ==> picks[k] < |rows| && IsShare(rows[picks[k]], shares[k]))
    && (forall i: nat :: i < |rows| ==> (i in picks <==> IsAbout(rows[i], norm, skill) && IsOf(rows[i], whose)))
  }

  /** Running totals. */
  predicate AddsUp(shares: seq<real>, totals: seq<real>) {
    && |totals| == |shares| + 1 && totals[0] == 0.0
    && forall k :: 0 <= k < |shares| ==> totals[k + 1] == totals[k] + shares[k]
  }

  lemma ShareOfRow(row: Row)
    requires row.criterion.Some?
    ensures IsShare(row, Normalised(row))
  {
    var c := row.criterion.value;
    NormalisedScore(row.final, row.final, c.minScore, c.maxScore);
    hide NormaliseScore;
  }

  lemma PickOneMore(rows: seq<Row>, row: Row, norm: string -> string, skill: string, whose: Whose,
                    picks: seq<nat>, shares: seq<real>, share: real)
    requires Picks(rows, norm, skill, whose, picks, shares)
    ensures IsAbout(row, norm, skill) && IsOf(row, whose) && IsShare(row, share) ==>
              Picks(rows + [row], norm, skill, whose, picks + [|rows|], shares + [share])
    ensures !(IsAbout(row, norm, skill) && IsOf(row, whose)) ==> Picks(rows + [row], norm, skill, whose, picks, shares)
  {
    hide IsAbout, IsShare;
    var rows' := rows + [row];
    assert forall k :: 0 <= k < |picks| ==> rows'[picks[k]] == rows[picks[k]];
    assert |rows| !in picks;
  }

  lemma {:induction false} SomePicks(rows: seq<Row>, norm: string -> string, skill: string) returns (picks: seq<nat>)
    ensures Picks(rows, norm, skill, Everyone, picks, Scores(rows, norm, skill))
  {
    if rows == [] {
      picks := [];
    } else {
      var init, row := rows[..|rows| - 1], rows[|rows| - 1];
      assert rows == init + [row];
      picks := SomePicks(init, norm, skill);
      SnocRow(init, row, norm, skill, None);
      hide Scores, Picks, IsShare, Normalised;
      if IsAbout(row, norm, skill) {
        ShareOfRow(row);
        PickOneMore(init, row, norm, skill, Everyone, picks, Scores(init, norm, skill), Normalised(row));
        picks := picks + [|init|];
      } else {
        PickOneMore(init, row, norm, skill, Everyone, picks, Scores(init, norm, skill), 0.0);
      }
    }
  }

  lemma {:induction false} SomeOwnPicks(rows: seq<Row>, norm: string -> string, skill: string, x: StudentId)
    returns (picks: seq<nat>)
    ensures Picks(rows, norm, skill, Only(x), picks, OwnScores(rows, norm, skill, Some(x)))
  {
    if rows == [] {
      picks := [];
    } else {
      var init, row := rows[..|rows| - 1], rows[|rows| - 1];
      assert rows == init + [row];
      picks := SomeOwnPicks(init, norm, skill, x);
      SnocRow(init, row, norm, skill, Some(x));
      var before := OwnScores(init, norm, skill, Some(x));
      hide OwnScores, Picks, IsShare, Normalised;
      if IsAbout(row, norm, skill) && row.student == Some(x) {
        ShareOfRow(row);
        PickOneMore(init, row, norm, skill, Only(x), picks, before, Normalised(row));
        picks := picks + [|init|];
      } else {
        PickOneMore(init, row, norm, skill, Only(x), picks, before, 0.0);
      }
    }
  }

  lemma {:induction false} SomeTotals(s: seq<real>) returns (totals: seq<real>)
    ensures AddsUp(s, totals) && totals[|s|] == Sum(s)
  {
    if s == [] {
      totals := [0.0];
    } else {
      totals := SomeTotals(s[..|s| - 1]);
      totals := totals + [Sum(s)];
    }
  }

  // ---------------------------------------------------------------------------
  // There is only one way to pick them
  // ---------------------------------------------------------------------------

  predicate SameMembers(a: seq<nat>, b: seq<nat>) {
    (forall i :: i in a ==> i in b) && (forall i :: i in b ==> i in a)
  }

  lemma LastIsLargest(a: seq<nat>, i: nat)
    requires Increasing(a) && i in a
    ensures i <= a[|a| - 1] && (i in a[..|a| - 1] <==> i < a[|a| - 1])
  {
    var k :| 0 <= k < |a| && a[k] == i;
    assert k < |a| - 1 ==> a[..|a| - 1][k] == i;
  }

  lemma SameFronts(a: seq<nat>, b: seq<nat>)
    requires Increasing(a) && Increasing(b) && SameMembers(a, b) && a != [] && b != []
    ensures a[|a| - 1] == b[|b| - 1] && SameMembers(a[..|a| - 1], b[..|b| - 1])
  {
    var m, n := |a| - 1, |b| - 1;
    assert a[m] in a && b[n] in b;
    LastIsLargest(b, a[m]);
    LastIsLargest(a, b[n]);
    var p, q := a[..m], b[..n];
    forall i: nat | i in a
      ensures i in p <==> i in q
    {
      LastIsLargest(a, i);
      LastIsLargest(b, i);
    }
    assert (forall i :: i in p ==> i in a) && (forall i :: i in q ==> i in b);
  }

  lemma {:induction false} SamePlaces(a: seq<nat>, b: seq<nat>)
    requires Increasing(a) && Increasing(b) && SameMembers(a, b)
    ensures a == b
  {
    if a != [] && b != [] {
      SameFronts(a, b);
      SamePlaces(a[..|a| - 1], b[..|b| - 1]);
      assert a == a[..|a| - 1] + [a[|a| - 1]] && b == b[..|b| - 1] + [b[|b| - 1]];
    } else {
      EmptyMembers(a, b);
    }
  }

  lemma EmptyMembers(a: seq<nat>, b: seq<nat>)
    requires SameMembers(a, b) && (a == [] || b == [])
    ensures a == b
  {
    NoMembers(a);
    NoMembers(b);
  }

  lemma NoMembers(a: seq<nat>)
    ensures a == [] <==> forall i: nat :: i !in a
  {
    if a != [] {
      assert a[0] in a;
    }
  }

  lemma SameShare(row: Row, share: real, other: real)
    requires IsShare(row, share) && IsShare(row, other)
    ensures share == other
  {
    var c := row.criterion.value;
    if c.minScore < row.final < c.maxScore {
      var n := (c.maxScore - c.minScore) as real;
      assert (share - other) * n == 0.0;
      TimesSign(share - other, n);
    }
  }

  lemma PickedOnce(rows: seq<Row>, norm: string -> string, skill: string, whose: Whose, picks: seq<nat>,
                   shares: seq<real>, picks': seq<nat>, shares': seq<real>)
    requires Picks(rows, norm, skill, whose, picks, shares) && Picks(rows, norm, skill, whose, picks', shares')
    ensures picks == picks' && shares == shares'
  {
    hide IsShare, IsAbout, IsOf;
    assert forall i :: i in picks ==> i < |rows|;
    assert forall i :: i in picks' ==> i < |rows|;
    SamePlaces(picks, picks');
    forall k | 0 <= k < |picks|
      ensures shares[k] == shares'[k]
    {
      SameShare(rows[picks[k]], shares[k], shares'[k]);
    }
  }

  lemma {:induction false} AddsUpToSum(shares: seq<real>, totals: seq<real>)
    requires AddsUp(shares, totals)
    ensures totals[|shares|] == Sum(shares)
  {
    if shares != [] {
      AddsUpToSum(shares[..|shares| - 1], totals[..|shares|]);
    }
  }

  // ---------------------------------------------------------------------------
  // Rounding and buckets
  // ---------------------------------------------------------------------------

  predicate IsRounding(avg: real, mean: real, n: int) {
    && avg == n as real / 10000.0
    && -0.00005 <= avg - mean <= 0.00005
    && (avg - mean == 0.00005 || avg - mean == -0.00005 ==> n % 2 == 0)
  }

  /** `avg` is a number of ten-thousandths, no further than half of one from the mean, and even on a tie. */
  ghost predicate Rounds(avg: real, mean: real) {
    exists n :: IsRounding(avg, mean, n)
  }

  lemma RoundedMean(mean: real)
    ensures Rounds(Round4(mean), mean)
  {
    var y := mean * 10000.0;
    var n := RoundHalfEven(y);
    assert -0.5 <= n as real - y <= 0.5;
    assert IsRounding(Round4(mean), mean, n);
  }

  /** A larger mean is never rounded to less. */
  lemma RoundsInOrder(a: real, b: real, p: real, m: int, q: real, n: int)
    requires IsRounding(a, p, m) && IsRounding(b, q, n) && p <= q
    ensures a <= b
  {
    assert m > n ==> a - b >= 0.0001;
  }

  /** Bucket `b` of the five covers a fifth of the range, and the first and last what lies beyond it. */
  predicate InFifth(b: nat, x: real) {
    b < 5 && (b > 0 ==> b as real <= 5.0 * x) && (b < 4 ==> 5.0 * x < b as real + 1.0)
  }

  lemma EnclosedInFifth(b: nat, x: real)
    ensures Encloses(b, x) <==> InFifth(b, x)
  {
    assert b == 0 || b == 1 || b == 2 || b == 3 || b == 4 || b >= 5;
  }

  /** Where the shares of a bucket stand. */
  ghost function Places(shares: seq<real>, b: nat): set<nat> {
    set k: nat | k < |shares| && InFifth(b, shares[k])
  }

  lemma OneMorePlace(shares: seq<real>, x: real, b: nat)
    ensures |Places(shares + [x], b)| == |Places(shares, b)| + if InFifth(b, x) then 1 else 0
  {
    hide InFifth;
    var before, after := Places(shares, b), Places(shares + [x], b);
    assert |shares| !in before;
    assert after == before + if InFifth(b, x) then {|shares|} else {};
  }

  lemma {:induction false} CountedOnce(shares: seq<real>, b: nat)
    ensures CountIn(shares, b) == |Places(shares, b)|
  {
    if shares == [] {
      assert Places(shares, b) == {};
    } else {
      var n := |shares| - 1;
      CountedOnce(shares[..n], b);
      EnclosedInFifth(b, shares[n]);
      OneMorePlace(shares[..n], shares[n], b);
      hide Encloses, InFifth, Places;
      assert shares == shares[..n] + [shares[n]];
    }
  }

  // ---------------------------------------------------------------------------
  // Main results
  // ---------------------------------------------------------------------------

  /** The students of the given rows. */
  ghost function StudentsOf(rows: seq<Row>, picks: seq<nat>): set<StudentId>
    requires forall k :: 0 <= k < |picks| ==> picks[k] < |rows|
  {
    set k | 0 <= k < |picks| && rows[picks[k]].student.Some? :: rows[picks[k]].student.value
  }

  lemma ContributorsPicked(rows: seq<Row>, norm: string -> string, skill: string, picks: seq<nat>, shares: seq<real>)
    requires Picks(rows, norm, skill, Everyone, picks, shares)
    ensures Contributors(rows, norm, skill) == StudentsOf(rows, picks)
  {
    hide IsShare;
    forall x
      ensures x in Contributors(rows, norm, skill) <==> x in StudentsOf(rows, picks)
    {
      ContributorHasScores(rows, norm, skill, x);
      OwnScoresNeedRow(rows, norm, skill, Some(x));
      hide Contributors, OwnScores;
      if i :| 0 <= i < |rows| && Counts(rows[i], norm, skill) && rows[i].student == Some(x) {
        assert i in picks;
      }
      if x in StudentsOf(rows, picks) {
        var k :| 0 <= k < |picks| && rows[picks[k]].student == Some(x);
        assert picks[k] in picks && Counts(rows[picks[k]], norm, skill);
      }
    }
  }

  lemma ScoresPicked(rows: seq<Row>, norm: string -> string, skill: string, picks: seq<nat>, shares: seq<real>)
    requires Picks(rows, norm, skill, Everyone, picks, shares)
    ensures shares == Scores(rows, norm, skill)
  {
    hide Scores, Picks;
    var found := SomePicks(rows, norm, skill);
    PickedOnce(rows, norm, skill, Everyone, picks, shares, found, Scores(rows, norm, skill));
  }

  lemma OwnScoresPicked(rows: seq<Row>, norm: string -> string, skill: string, x: StudentId, picks: seq<nat>,
                        shares: seq<real>)
    requires Picks(rows, norm, skill, Only(x), picks, shares)
    ensures shares == OwnScores(rows, norm, skill, Some(x))
  {
    hide OwnScores, Picks;
    var found := SomeOwnPicks(rows, norm, skill, x);
    PickedOnce(rows, norm, skill, Only(x), picks, shares, found, OwnScores(rows, norm, skill, Some(x)));
  }

  /** Main result: an average is the mean of the shares of all the rows about its skill, rounded to four digits,
      with the number of those rows and of their students, and the number of shares in each fifth. */
  lemma AverageFromRows(r: ClassInsights, rows: seq<Row>, norm: string -> string, i: nat, picks: seq<nat>,
                        shares: seq<real>, totals: seq<real>)
    requires IsInsights(r, rows, norm) && i < |r.averages|
    requires Picks(rows, norm, r.averages[i].skill, Everyone, picks, shares) && AddsUp(shares, totals)
    ensures var a := r.averages[i];
            && shares != [] && Rounds(a.avg, totals[|shares|] / |shares| as real)
            && a.dataPoints == |picks| && a.students == |StudentsOf(rows, picks)|
            && |a.distribution| == 5 && forall b :: 0 <= b < 5 ==> a.distribution[b] == |Places(shares, b)|
  {
    hide Scores, Contributors, Round4, CountIn, StudentsOf, IsShare, IsAbout, Places, Rounds, Sum;
    var a := r.averages[i];
    assert Describes(a, rows, norm);
    hide IsInsights;
    ScoresPicked(rows, norm, a.skill, picks, shares);
    ContributorsPicked(rows, norm, a.skill, picks, shares);
    AddsUpToSum(shares, totals);
    RoundedMean(Mean(shares));
    forall b | 0 <= b < 5
      ensures a.distribution[b] == |Places(shares, b)|
    {
      CountedOnce(shares, b);
    }
  }

  /** Main result: a skill is listed exactly when some row is about it. */
  lemma SkillsFromRows(r: ClassInsights, rows: seq<Row>, norm: string -> string, skill: string)
    requires IsInsights(r, rows, norm)
    ensures (exists i :: 0 <= i < |r.averages| && r.averages[i].skill == skill) <==>
            exists i :: 0 <= i < |rows| && IsAbout(rows[i], norm, skill)
  {
    assert HasSkill(r.averages, skill) <==> Scores(rows, norm, skill) != [];
    hide IsInsights, Scores;
    ScoresNeedRow(rows, norm, skill);
    assert forall i :: 0 <= i < |rows| ==> (Counts(rows[i], norm, skill) <==> IsAbout(rows[i], norm, skill));
  }

  /** Main result: of two averages, in one response or two, the one with the larger mean is never the lower. */
  lemma AveragesInOrder(r: ClassInsights, rows: seq<Row>, i: nat, r': ClassInsights, rows': seq<Row>, j: nat,
                        norm: string -> string, picks: seq<nat>, shares: seq<real>, totals: seq<real>,
                        picks': seq<nat>, shares': seq<real>, totals': seq<real>)
    requires IsInsights(r, rows, norm) && i < |r.averages| && IsInsights(r', rows', norm) && j < |r'.averages|
    requires Picks(rows, norm, r.averages[i].skill, Everyone, picks, shares) && AddsUp(shares, totals)
    requires Picks(rows', norm, r'.averages[j].skill, Everyone, picks', shares') && AddsUp(shares', totals')
    requires shares != [] && shares' != []
    requires totals[|shares|] / |shares| as real <= totals'[|shares'|] / |shares'| as real
    ensures r.averages[i].avg <= r'.averages[j].avg
  {
    AverageFromRows(r, rows, norm, i, picks, shares, totals);
    AverageFromRows(r', rows', norm, j, picks', shares', totals');
    hide IsInsights, Picks, AddsUp, IsRounding;
    var p, q := totals[|shares|] / |shares| as real, totals'[|shares'|] / |shares'| as real;
    var m: int :| IsRounding(r.averages[i].avg, p, m);
    var n: int :| IsRounding(r'.averages[j].avg, q, n);
    RoundsInOrder(r.averages[i].avg, r'.averages[j].avg, p, m, q, n);
  }

  /** The student's own shares in the skill have a mean below 0.6. */
  ghost predicate IsLow(rows: seq<Row>, norm: string -> string, skill: string, x: StudentId) {
    exists picks, shares, totals ::
      Picks(rows, norm, skill, Only(x), picks, shares) && AddsUp(shares, totals)
      && totals[|shares|] < 0.6 * |shares| as real
  }

  lemma LowIsAffected(rows: seq<Row>, norm: string -> string, skill: string, x: StudentId)
    ensures x in Affected(rows, norm, skill) <==> IsLow(rows, norm, skill, x)
  {
    hide OwnScores, Contributors, Picks, Sum;
    var own := OwnScores(rows, norm, skill, Some(x));
    ContributorHasScores(rows, norm, skill, x);
    BelowIsDeficit(own);
    var found := SomeOwnPicks(rows, norm, skill, x);
    var sums := SomeTotals(own);
    forall picks, shares, totals |
        Picks(rows, norm, skill, Only(x), picks, shares) && AddsUp(shares, totals)
      ensures shares == own && |totals| > |shares| && totals[|shares|] == Sum(own)
    {
      OwnScoresPicked(rows, norm, skill, x, picks, shares);
      AddsUpToSum(shares, totals);
    }
  }

  /** Main result: an issue is an average shown below 0.6, and counts the students that are low in the skill. */
  lemma IssueFromRows(r: ClassInsights, rows: seq<Row>, norm: string -> string, i: nat, low: set<StudentId>)
    requires IsInsights(r, rows, norm) && i < |r.issues|
    requires forall x :: x in low <==> IsLow(rows, norm, r.issues[i].skill, x)
    ensures r.issues[i].avg < 0.6 && r.issues[i].affected == |low|
    ensures exists k :: 0 <= k < |r.averages| && r.averages[k].skill == r.issues[i].skill
                        && r.averages[k].avg == r.issues[i].avg
  {
    assert FromAverage(r.issues[i], r.averages, rows, norm);
    hide IsInsights, Affected, IsLow;
    forall x
      ensures x in low <==> x in Affected(rows, norm, r.issues[i].skill)
    {
      LowIsAffected(rows, norm, r.issues[i].skill, x);
    }
    assert low == Affected(rows, norm, r.issues[i].skill);
  }

  /** Main result: averages are listed once each in string order of their skills, every one shown below 0.6 is an
      issue, once, and issues are listed from the lowest average, equal ones in string order. */
  lemma ListedInOrder(r: ClassInsights, rows: seq<Row>, norm: string -> string)
    requires IsInsights(r, rows, norm)
    ensures r.gradedEssays == |set row | row in rows :: row.essay|
    ensures forall i, j :: 0 <= i < j < |r.averages| ==>
              r.averages[i].skill != r.averages[j].skill
              && Grouping.Precedes(r.averages[i].skill, r.averages[j].skill)
    ensures forall i :: 0 <= i < |r.averages| && r.averages[i].avg < 0.6 ==>
              exists j :: 0 <= j < |r.issues| && r.issues[j].skill == r.averages[i].skill
    ensures forall i, j :: 0 <= i < j < |r.issues| ==>
              && r.issues[i].skill != r.issues[j].skill && r.issues[i].avg <= r.issues[j].avg
              && (r.issues[i].avg == r.issues[j].avg ==> Grouping.Precedes(r.issues[i].skill, r.issues[j].skill))
  {
    hide Scores, Describes, FromAverage, Grouping.LessEq, Grouping.Precedes;
    forall i, j | 0 <= i < j < |r.averages|
      ensures Grouping.Precedes(r.averages[i].skill, r.averages[j].skill)
    {
      Grouping.LessEqIsPrecedes(r.averages[i].skill, r.averages[j].skill);
    }
    forall i, j | 0 <= i < j < |r.issues|
      ensures r.issues[i].avg <= r.issues[j].avg
      ensures r.issues[i].avg == r.issues[j].avg ==> Grouping.Precedes(r.issues[i].skill, r.issues[j].skill)
    {
      assert Before(r.issues[i], r.issues[j]);
      Grouping.LessEqIsPrecedes(r.issues[i].skill, r.issues[j].skill);
    }
    forall i | 0 <= i < |r.averages| && r.averages[i].avg < 0.6
      ensures exists j :: 0 <= j < |r.issues| && r.issues[j].skill == r.averages[i].skill
    {
      assert HasIssue(r.issues, r.averages[i].skill);
    }
  }
}
