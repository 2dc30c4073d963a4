/** Class analytics (`class_insights.py`): score normalisation, histograms, skill averages and the
common issues they raise. Scores are exact fractions.
 */
module Insights {
  import opened Outcomes
  import Grouping

  type StudentId = nat
  type EssayId = nat

  /** One locked criterion score; `criterion` is None when the snapshot does not know its id. */
  datatype Criterion = Criterion(name: string, minScore: int, maxScore: int)
  datatype Row = Row(essay: EssayId, student: Option<StudentId>, final: int, criterion: Option<Criterion>)

  const BUCKETS := 5
  const EDGES: seq<real> := [0.0, 0.2, 0.4, 0.6, 0.8, 1.0]

  // ---------------------------------------------------------------------------
  // Normalising and bucketing
  // ---------------------------------------------------------------------------

  function NormaliseScore(final: int, minScore: int, maxScore: int): real {
    if maxScore - minScore <= 0 then 1.0
    else
      var x := (final - minScore) as real / (maxScore - minScore) as real;
      if x < 0.0 then 0.0 else if x > 1.0 then 1.0 else x
  }

  /** A better score never normalises lower; in a range of more than one score its ends are 0 and 1, and
      inside it nothing is clipped: the raw score can be read back. A degenerate range gives full credit. */
  lemma NormalisedScore(final: int, better: int, minScore: int, maxScore: int)
    requires final <= better
    ensures 0.0 <= NormaliseScore(final, minScore, maxScore) <= NormaliseScore(better, minScore, maxScore) <= 1.0
    ensures NormaliseScore(final, minScore, maxScore) == 0.0 <==> final <= minScore < maxScore
    ensures NormaliseScore(final, minScore, maxScore) == 1.0 <==> final >= maxScore || minScore >= maxScore
    ensures minScore <= final <= maxScore ==>
              minScore as real + NormaliseScore(final, minScore, maxScore) * (maxScore - minScore) as real ==
              final as real
  {
    if minScore < maxScore {
      ProperRange(final, better, minScore, maxScore);
    }
  }

  lemma ProperRange(final: int, better: int, minScore: int, maxScore: int)
    requires final <= better && minScore < maxScore
    ensures 0.0 <= NormaliseScore(final, minScore, maxScore) <= NormaliseScore(better, minScore, maxScore) <= 1.0
    ensures NormaliseScore(final, minScore, maxScore) == 0.0 <==> final <= minScore
    ensures NormaliseScore(final, minScore, maxScore) == 1.0 <==> final >= maxScore
    ensures minScore <= final <= maxScore ==>
              minScore as real + NormaliseScore(final, minScore, maxScore) * (maxScore - minScore) as real ==
              final as real
  {
    var n := (maxScore - minScore) as real;
    var a := (final - minScore) as real;
    var b := (better - minScore) as real;
    DivideBounds(a, n);
    DivideBounds(b, n);
    DivideMonotone(a, b, n);
    assert a / n * n == a;
  }

  lemma DivideBounds(a: real, n: real)
    requires n > 0.0
    ensures a / n < 0.0 <==> a < 0.0
    ensures a / n > 1.0 <==> a > n
    ensures a / n == 0.0 <==> a == 0.0
    ensures a / n == 1.0 <==> a == n
  {
    var q := a / n;
    assert q * n == a && (q - 1.0) * n == a - n;
    TimesSign(q, n);
    TimesSign(q - 1.0, n);
  }

  lemma TimesSign(x: real, n: real)
    requires n > 0.0
    ensures x * n > 0.0 <==> x > 0.0
    ensures x * n == 0.0 <==> x == 0.0
  {
    if x < 0.0 {
      assert -x * n > 0.0;
    }
  }

  lemma DivideMonotone(a: real, b: real, n: real)
    requires n > 0.0 && a <= b
    ensures a / n <= b / n
  {
    var p, q := a / n, b / n;
    assert p * n == a && q * n == b && (q - p) * n == b - a;
    TimesSign(q - p, n);
  }

  /** The bucket that holds `x`; the first is open below and the last above. */
  predicate Encloses(i: nat, x: real) {
    i < BUCKETS && (i > 0 ==> EDGES[i] <= x) && (i < BUCKETS - 1 ==> x < EDGES[i + 1])
  }

  method BucketIndex(x: real) returns (i: nat)
    ensures Encloses(i, x)
  {
    i := BUCKETS - 1;
    if x < 1.0 {
      var upper := EDGES[1..];
      for k := 0 to |upper|
        invariant i == BUCKETS - 1
        invariant forall j :: 0 < j <= k ==> EDGES[j] <= x
      {
        if x < upper[k] {
          i := k;
          break;
        }
      }
    }
  }

  /** Every score has exactly one bucket. */
  lemma OneBucket(x: real)
    ensures Encloses(0, x) || Encloses(1, x) || Encloses(2, x) || Encloses(3, x) || Encloses(4, x)
    ensures forall i: nat, j: nat :: Encloses(i, x) && Encloses(j, x) ==> i == j
  {
    forall i: nat, j: nat | i < j && Encloses(i, x)
      ensures !Encloses(j, x)
    {
      assert j < BUCKETS ==> EDGES[i + 1] <= EDGES[j];
    }
  }

  function CountIn(scores: seq<real>, i: nat): nat {
    if scores == [] then 0 else CountIn(scores[..|scores| - 1], i) + if Encloses(i, scores[|scores| - 1]) then 1 else 0
  }

  method BuildDistribution(scores: seq<real>) returns (distribution: seq<nat>)
    ensures |distribution| == BUCKETS && forall i :: 0 <= i < BUCKETS ==> distribution[i] == CountIn(scores, i)
  {
    var counts := new nat[BUCKETS](_ => 0);
    for k := 0 to |scores|
      invariant forall i :: 0 <= i < BUCKETS ==> counts[i] == CountIn(scores[..k], i)
    {
      assert scores[..k + 1][..k] == scores[..k];
      var i := BucketIndex(scores[k]);
      OneBucket(scores[k]);
      hide Encloses;
      counts[i] := counts[i] + 1;
    }
    assert scores[..|scores|] == scores;
    return counts[..];
  }

  /** The five counts account for every data point. */
  lemma {:induction false} CountsAddUp(scores: seq<real>)
    ensures CountIn(scores, 0) + CountIn(scores, 1) + CountIn(scores, 2) + CountIn(scores, 3) + CountIn(scores, 4) ==
            |scores|
  {
    if scores != [] {
      CountsAddUp(scores[..|scores| - 1]);
      OneBucket(scores[|scores| - 1]);
      hide Encloses;
    }
  }

  // ---------------------------------------------------------------------------
  // Means and rounding
  // ---------------------------------------------------------------------------

  function Sum(s: seq<real>): real {
    if s == [] then 0.0 else Sum(s[..|s| - 1]) + s[|s| - 1]
  }

  function Mean(s: seq<real>): real
    requires s != []
  {
    Sum(s) / |s| as real
  }

  predicate Below(s: seq<real>) {
    s != [] && Mean(s) < 0.6
  }

  lemma BelowIsDeficit(s: seq<real>)
    ensures Below(s) <==> Sum(s) < 0.6 * |s| as real
  {
    if s != [] {
      var n := |s| as real;
      var m := Mean(s);
      assert m * n == Sum(s);
      if m < 0.6 {
        assert (0.6 - m) * n > 0.0;
      } else {
        assert (m - 0.6) * n >= 0.0;
      }
    }
  }

  /** `round(x)` to the nearest integer, ties to the even one. */
  function RoundHalfEven(y: real): int {
    var f := y.Floor;
    if y - f as real < 0.5 || (y - f as real == 0.5 && f % 2 == 0) then f else f + 1
  }

  /** `round(x, 4)` */
  function Round4(x: real): real {
    RoundHalfEven(x * 10000.0) as real / 10000.0
  }

  /** A mean is shown below the threshold exactly when it is below 0.59995: one between that and 0.6
      is rounded up to it and escapes. */
  lemma RoundedBelow(x: real)
    ensures Round4(x) < 0.6 <==> x < 0.59995
  {
    var y := x * 10000.0;
    var f := y.Floor;
    assert Round4(x) < 0.6 <==> RoundHalfEven(y) < 6000;
    assert RoundHalfEven(y) < 6000 <==> y < 5999.5;
  }

  // ---------------------------------------------------------------------------
  // What the rows say of a skill
  // ---------------------------------------------------------------------------

  predicate Counts(row: Row, norm: string -> string, skill: string) {
    row.criterion.Some? && norm(row.criterion.value.name) == skill
  }

  function Normalised(row: Row): real
    requires row.criterion.Some?
  {
    NormaliseScore(row.final, row.criterion.value.minScore, row.criterion.value.maxScore)
  }

  function Scores(rows: seq<Row>, norm: string -> string, skill: string): seq<real> {
    if rows == [] then []
    else
      var earlier, row := Scores(rows[..|rows| - 1], norm, skill), rows[|rows| - 1];
      if Counts(row, norm, skill) then earlier + [Normalised(row)] else earlier
  }

  function OwnScores(rows: seq<Row>, norm: string -> string, skill: string, student: Option<StudentId>): seq<real> {
    if rows == [] then []
    else
      var earlier, row := OwnScores(rows[..|rows| - 1], norm, skill, student), rows[|rows| - 1];
      if Counts(row, norm, skill) && row.student == student then earlier + [Normalised(row)] else earlier
  }

  /** Students with at least one score in the skill. */
  ghost function Contributors(rows: seq<Row>, norm: string -> string, skill: string): set<StudentId> {
    set row | row in rows && row.student.Some? && OwnScores(rows, norm, skill, row.student) != [] :: row.student.value
  }

  /** Contributors whose own mean in the skill is below the threshold. */
  ghost function Affected(rows: seq<Row>, norm: string -> string, skill: string): set<StudentId> {
    set x | x in Contributors(rows, norm, skill) && Below(OwnScores(rows, norm, skill, Some(x)))
  }

  lemma {:induction false} OwnScoresNeedRow(rows: seq<Row>, norm: string -> string, skill: string,
                                            student: Option<StudentId>)
    ensures OwnScores(rows, norm, skill, student) != [] <==>
            exists i :: 0 <= i < |rows| && Counts(rows[i], norm, skill) && rows[i].student == student
  {
    if rows != [] {
      var init := rows[..|rows| - 1];
      OwnScoresNeedRow(init, norm, skill, student);
      assert forall i :: 0 <= i < |init| ==> init[i] == rows[i];
    }
  }

  lemma {:induction false} ScoresNeedRow(rows: seq<Row>, norm: string -> string, skill: string)
    ensures Scores(rows, norm, skill) != [] <==> exists i :: 0 <= i < |rows| && Counts(rows[i], norm, skill)
  {
    if rows != [] {
      var init := rows[..|rows| - 1];
      ScoresNeedRow(init, norm, skill);
      assert forall i :: 0 <= i < |init| ==> init[i] == rows[i];
    }
  }

  lemma ContributorHasScores(rows: seq<Row>, norm: string -> string, skill: string, x: StudentId)
    ensures x in Contributors(rows, norm, skill) <==> OwnScores(rows, norm, skill, Some(x)) != []
  {
    if OwnScores(rows, norm, skill, Some(x)) != [] {
      OwnScoresNeedRow(rows, norm, skill, Some(x));
      var i :| 0 <= i < |rows| && Counts(rows[i], norm, skill) && rows[i].student == Some(x);
      assert rows[i] in rows;
    }
  }

  // ---------------------------------------------------------------------------
  // A low class mean has a low student behind it
  // ---------------------------------------------------------------------------

  function Without(rows: seq<Row>, student: Option<StudentId>): seq<Row> {
    if rows == [] then []
    else
      var earlier, row := Without(rows[..|rows| - 1], student), rows[|rows| - 1];
      if row.student == student then earlier else earlier + [row]
  }

  lemma SumSnoc(s: seq<real>, x: real)
    ensures Sum(s + [x]) == Sum(s) + x
  {
    assert (s + [x])[..|s|] == s;
  }

  lemma SnocRow(rows: seq<Row>, row: Row, norm: string -> string, skill: string, student: Option<StudentId>)
    ensures var before := Scores(rows, norm, skill);
            Scores(rows + [row], norm, skill) == if Counts(row, norm, skill) then before + [Normalised(row)] else before
    ensures var before := OwnScores(rows, norm, skill, student);
            OwnScores(rows + [row], norm, skill, student) ==
            if Counts(row, norm, skill) && row.student == student then before + [Normalised(row)] else before
  {
    assert (rows + [row])[..|rows|] == rows;
  }

  /** A student's scores and everyone else's make up the class's. */
  lemma {:induction false} SplitStudent(rows: seq<Row>, norm: string -> string, skill: string,
                                        student: Option<StudentId>)
    ensures |Scores(rows, norm, skill)| ==
            |Scores(Without(rows, student), norm, skill)| + |OwnScores(rows, norm, skill, student)|
    ensures Sum(Scores(rows, norm, skill)) ==
            Sum(Scores(Without(rows, student), norm, skill)) + Sum(OwnScores(rows, norm, skill, student))
  {
    if rows != [] {
      var init, row := rows[..|rows| - 1], rows[|rows| - 1];
      SplitStudent(init, norm, skill, student);
      SnocRow(Without(init, student), row, norm, skill, student);
      if row.criterion.Some? {
        SumSnoc(Scores(init, norm, skill), Normalised(row));
        SumSnoc(OwnScores(init, norm, skill, student), Normalised(row));
        SumSnoc(Scores(Without(init, student), norm, skill), Normalised(row));
      }
      hide Sum, Normalised;
    }
  }

  lemma {:induction false} WithoutOthers(rows: seq<Row>, norm: string -> string, skill: string,
                                         student: Option<StudentId>, other: Option<StudentId>)
    ensures OwnScores(Without(rows, student), norm, skill, other) ==
            if other == student then [] else OwnScores(rows, norm, skill, other)
  {
    hide Normalised, Counts;
    if rows != [] {
      var init, row := rows[..|rows| - 1], rows[|rows| - 1];
      WithoutOthers(init, norm, skill, student, other);
      SnocRow(Without(init, student), row, norm, skill, other);
    }
  }

  lemma {:induction false} WithoutShrinks(rows: seq<Row>, student: Option<StudentId>)
    ensures |Without(rows, student)| <= |rows|
    ensures (exists i :: 0 <= i < |rows| && rows[i].student == student) ==> |Without(rows, student)| < |rows|
  {
    if rows != [] {
      var init := rows[..|rows| - 1];
      WithoutShrinks(init, student);
      assert forall i :: 0 <= i < |init| ==> init[i] == rows[i];
    }
  }

  /** If the class mean is below the threshold, then some student's mean is, or the mean of the rows
      that have no student is. */
  lemma {:induction false} LowMeanHasSource(rows: seq<Row>, norm: string -> string, skill: string)
    returns (source: Option<StudentId>)
    requires Below(Scores(rows, norm, skill))
    ensures Below(OwnScores(rows, norm, skill, source))
    decreases |rows|
  {
    hide Normalised, Counts, Scores, OwnScores, Sum, Mean;
    ScoresNeedRow(rows, norm, skill);
    var i :| 0 <= i < |rows| && Counts(rows[i], norm, skill);
    source := rows[i].student;
    if !Below(OwnScores(rows, norm, skill, source)) {
      var rest := Without(rows, source);
      SplitStudent(rows, norm, skill, source);
      BelowIsDeficit(Scores(rows, norm, skill));
      BelowIsDeficit(OwnScores(rows, norm, skill, source));
      BelowIsDeficit(Scores(rest, norm, skill));
      WithoutShrinks(rows, source);
      WithoutOthers(rows, norm, skill, source, source);
      var other := LowMeanHasSource(rest, norm, skill);
      WithoutOthers(rows, norm, skill, source, other);
      source := other;
    }
  }

  /** Every row of the skill belongs to a student. */
  predicate AllAssigned(rows: seq<Row>, norm: string -> string, skill: string) {
    forall i :: 0 <= i < |rows| && Counts(rows[i], norm, skill) ==> rows[i].student.Some?
  }

  /** A skill listed as a common issue has an affected student, unless rows without a student pull it
      down; when every row has a student there is always one. */
  lemma IssueHasAffectedStudent(rows: seq<Row>, norm: string -> string, skill: string)
    requires Scores(rows, norm, skill) != [] && Round4(Mean(Scores(rows, norm, skill))) < 0.6
    ensures Affected(rows, norm, skill) != {} || Below(OwnScores(rows, norm, skill, None))
    ensures AllAssigned(rows, norm, skill) ==> |Affected(rows, norm, skill)| >= 1
  {
    hide OwnScores, Scores, Mean, Counts, Round4;
    RoundedBelow(Mean(Scores(rows, norm, skill)));
    var source := LowMeanHasSource(rows, norm, skill);
    OwnScoresNeedRow(rows, norm, skill, source);
    if source.Some? {
      ContributorHasScores(rows, norm, skill, source.value);
      assert source.value in Affected(rows, norm, skill);
    }
  }

  /** One score just below the threshold: it is the student's mean and the class's, and is not listed. */
  const CLOSE_ROWS := [Row(1, Some(7), 12000, Some(Criterion("thesis", 1, 20001)))]

  lemma CloseScores(norm: string -> string)
    requires norm("thesis") == "thesis"
    ensures Scores(CLOSE_ROWS, norm, "thesis") == [0.59995]
    ensures OwnScores(CLOSE_ROWS, norm, "thesis", Some(7)) == [0.59995]
  {
    assert NormaliseScore(12000, 1, 20001) == 0.59995;
    hide NormaliseScore;
    SnocRow([], CLOSE_ROWS[0], norm, "thesis", Some(7));
    assert [] + [CLOSE_ROWS[0]] == CLOSE_ROWS;
  }

  lemma RoundedAway(norm: string -> string)
    requires norm("thesis") == "thesis"
    ensures Scores(CLOSE_ROWS, norm, "thesis") != []
    ensures Affected(CLOSE_ROWS, norm, "thesis") != {} && Round4(Mean(Scores(CLOSE_ROWS, norm, "thesis"))) >= 0.6
  {
    CloseScores(norm);
    SumSnoc([], 0.59995);
    assert [] + [0.59995] == [0.59995] && Mean([0.59995]) == 0.59995;
    RoundedBelow(0.59995);
    ContributorHasScores(CLOSE_ROWS, norm, "thesis", 7);
    hide Scores, OwnScores, Round4, Mean, Contributors;
    assert 7 in Affected(CLOSE_ROWS, norm, "thesis");
  }

  const THESIS := Criterion("thesis", 1, 5)

  /** Full marks of student 7, and the lowest score in a row without a student. */
  const MIXED_ROWS := [Row(1, Some(7), 5, Some(THESIS)), Row(2, None, 1, Some(THESIS))]

  lemma MixedScores(norm: string -> string)
    requires norm("thesis") == "thesis"
    ensures Scores(MIXED_ROWS, norm, "thesis") == [1.0, 0.0]
    ensures OwnScores(MIXED_ROWS, norm, "thesis", Some(7)) == [1.0]
  {
    var full, lowest := MIXED_ROWS[0], MIXED_ROWS[1];
    NormalisedScore(5, 5, 1, 5);
    NormalisedScore(1, 1, 1, 5);
    hide NormaliseScore;
    SnocRow([], full, norm, "thesis", Some(7));
    SnocRow([full], lowest, norm, "thesis", Some(7));
    assert [] + [full] == [full] && [full] + [lowest] == MIXED_ROWS;
  }

  lemma MixedMeans()
    ensures Round4(Mean([1.0, 0.0])) < 0.6 && !Below([1.0])
  {
    hide Round4;
    SumSnoc([], 1.0);
    SumSnoc([1.0], 0.0);
    assert [1.0] + [0.0] == [1.0, 0.0] && [] + [1.0] == [1.0];
    RoundedBelow(0.5);
  }

  /** Without that, a listed skill may affect nobody: one unassigned zero beside a student's full marks. */
  lemma IssueWithoutStudent(norm: string -> string)
    requires norm("thesis") == "thesis"
    ensures Scores(MIXED_ROWS, norm, "thesis") != [] && Round4(Mean(Scores(MIXED_ROWS, norm, "thesis"))) < 0.6
    ensures Affected(MIXED_ROWS, norm, "thesis") == {}
  {
    MixedScores(norm);
    MixedMeans();
    hide Scores, OwnScores, Round4, Mean, Counts, Below;
    forall x | x in Contributors(MIXED_ROWS, norm, "thesis")
      ensures x == 7
    {
      ContributorHasScores(MIXED_ROWS, norm, "thesis", x);
      OwnScoresNeedRow(MIXED_ROWS, norm, "thesis", Some(x));
    }
  }

  // ---------------------------------------------------------------------------
  // The class response
  // ---------------------------------------------------------------------------

  datatype SkillAverage = SkillAverage(skill: string, avg: real, students: nat, dataPoints: nat, distribution: seq<nat>)

  datatype CommonIssue = CommonIssue(skill: string, avg: real, affected: nat)

  datatype ClassInsights = ClassInsights(gradedEssays: nat, averages: seq<SkillAverage>, issues: seq<CommonIssue>)

  ghost predicate Describes(a: SkillAverage, rows: seq<Row>, norm: string -> string) {
    var scores := Scores(rows, norm, a.skill);
    && scores != []
    && a.avg == Round4(Mean(scores)) && a.dataPoints == |scores|
    && a.students == |Contributors(rows, norm, a.skill)|
    && |a.distribution| == BUCKETS && forall i :: 0 <= i < BUCKETS ==> a.distribution[i] == CountIn(scores, i)
  }

  predicate HasSkill(averages: seq<SkillAverage>, skill: string) {
    exists i :: 0 <= i < |averages| && averages[i].skill == skill
  }

  /** Worst first; equal averages in skill order. */
  predicate Before(a: CommonIssue, b: CommonIssue) {
    a.avg < b.avg || (a.avg == b.avg && Grouping.LessEq(a.skill, b.skill))
  }

  predicate WorstFirst(issues: seq<CommonIssue>) {
    forall i, j :: 0 <= i < j < |issues| ==> Before(issues[i], issues[j])
  }

  ghost predicate FromAverage(issue: CommonIssue, averages: seq<SkillAverage>, rows: seq<Row>, norm: string -> string) {
    && issue.avg < 0.6 && issue.affected == |Affected(rows, norm, issue.skill)|
    && exists i :: 0 <= i < |averages| && averages[i].skill == issue.skill && averages[i].avg == issue.avg
  }

  predicate HasIssue(issues: seq<CommonIssue>, skill: string) {
    exists i :: 0 <= i < |issues| && issues[i].skill == skill
  }

  /** What the response says of the rows. */
  ghost predicate IsInsights(r: ClassInsights, rows: seq<Row>, norm: string -> string) {
    && r.gradedEssays == |set row | row in rows :: row.essay|
    && (forall i, j :: 0 <= i < j < |r.averages| ==>
          Grouping.LessEq(r.averages[i].skill, r.averages[j].skill) && r.averages[i].skill != r.averages[j].skill)
    && (forall i :: 0 <= i < |r.averages| ==> Describes(r.averages[i], rows, norm))
    && (forall skill :: HasSkill(r.averages, skill) <==> Scores(rows, norm, skill) != [])
    && WorstFirst(r.issues)
    && (forall i :: 0 <= i < |r.issues| ==> FromAverage(r.issues[i], r.averages, rows, norm))
    && (forall i :: 0 <= i < |r.averages| && r.averages[i].avg < 0.6 ==> HasIssue(r.issues, r.averages[i].skill))
    && DistinctSkills(r.issues)
  }

  predicate DistinctSkills(issues: seq<CommonIssue>) {
    forall i, j :: 0 <= i < j < |issues| ==> issues[i].skill != issues[j].skill
  }

  // ---------------------------------------------------------------------------
  // The single pass over the rows
  // ---------------------------------------------------------------------------

  datatype Totals = Totals(all: map<string, seq<real>>, students: map<string, set<StudentId>>,
                           own: map<StudentId, map<string, seq<real>>>, essays: set<EssayId>)

  function StudentsIn(t: Totals, skill: string): set<StudentId> {
    if skill in t.students then t.students[skill] else {}
  }

  function OwnIn(t: Totals, x: StudentId, skill: string): seq<real> {
    if x in t.own && skill in t.own[x] then t.own[x][skill] else []
  }

  ghost predicate AllOk(t: Totals, rows: seq<Row>, norm: string -> string) {
    forall k :: (k in t.all <==> Scores(rows, norm, k) != []) && (k in t.all ==> t.all[k] == Scores(rows, norm, k))
  }

  ghost predicate StudentsOk(t: Totals, rows: seq<Row>, norm: string -> string) {
    forall k, x :: x in StudentsIn(t, k) <==> OwnScores(rows, norm, k, Some(x)) != []
  }

  ghost predicate OwnOk(t: Totals, rows: seq<Row>, norm: string -> string) {
    forall x, k :: OwnIn(t, x, k) == OwnScores(rows, norm, k, Some(x))
  }

  ghost predicate IsTotals(t: Totals, rows: seq<Row>, norm: string -> string) {
    && AllOk(t, rows, norm) && StudentsOk(t, rows, norm) && OwnOk(t, rows, norm)
    && t.essays == set row | row in rows :: row.essay
  }

  method Aggregate(rows: seq<Row>, norm: string -> string) returns (t: Totals)
    ensures IsTotals(t, rows, norm)
  {
    t := Totals(map[], map[], map[], {});
    for i := 0 to |rows|
      invariant IsTotals(t, rows[..i], norm)
    {
      assert rows[..i + 1] == rows[..i] + [rows[i]];
      t := AddRow(t, rows[..i], rows[i], norm);
    }
    assert rows[..|rows|] == rows;
  }

  method AddRow(before: Totals, ghost seen: seq<Row>, row: Row, norm: string -> string) returns (t: Totals)
    requires IsTotals(before, seen, norm)
    ensures IsTotals(t, seen + [row], norm)
  {
    hide AllOk, StudentsOk, OwnOk, Normalised;
    t := before.(essays := before.essays + {row.essay});
    EssaysOf(seen, row);
    if row.criterion.Some? {
      var normalised := Normalised(row);
      var skill := norm(row.criterion.value.name);
      t := t.(all := t.all[skill := (if skill in t.all then t.all[skill] else []) + [normalised]]);
      if row.student.Some? {
        var x := row.student.value;
        var per := if x in t.own then t.own[x] else map[];
        t := t.(students := t.students[skill := StudentsIn(t, skill) + {x}],
                own := t.own[x := per[skill := (if skill in per then per[skill] else []) + [normalised]]]);
      }
    }
    AddToAll(before, t, seen, row, norm);
    AddToStudents(before, t, seen, row, norm);
    AddToOwn(before, t, seen, row, norm);
  }

  lemma AddToAll(before: Totals, t: Totals, seen: seq<Row>, row: Row, norm: string -> string)
    requires AllOk(before, seen, norm)
    requires row.criterion.None? ==> t.all == before.all
    requires row.criterion.Some? ==>
      var k := norm(row.criterion.value.name);
      t.all == before.all[k := (if k in before.all then before.all[k] else []) + [Normalised(row)]]
    ensures AllOk(t, seen + [row], norm)
  {
    hide Scores, Normalised;
    forall k
      ensures k in t.all <==> Scores(seen + [row], norm, k) != []
      ensures k in t.all ==> t.all[k] == Scores(seen + [row], norm, k)
    {
      SnocRow(seen, row, norm, k, None);
    }
  }

  lemma AddToStudents(before: Totals, t: Totals, seen: seq<Row>, row: Row, norm: string -> string)
    requires StudentsOk(before, seen, norm)
    requires row.criterion.None? || row.student.None? ==> t.students == before.students
    requires row.criterion.Some? && row.student.Some? ==>
      var k := norm(row.criterion.value.name);
      t.students == before.students[k := StudentsIn(before, k) + {row.student.value}]
    ensures StudentsOk(t, seen + [row], norm)
  {
    hide OwnScores, Normalised;
    forall k, x
      ensures x in StudentsIn(t, k) <==> OwnScores(seen + [row], norm, k, Some(x)) != []
    {
      SnocRow(seen, row, norm, k, Some(x));
      assert x in StudentsIn(before, k) <==> OwnScores(seen, norm, k, Some(x)) != [];
    }
  }

  lemma AddToOwn(before: Totals, t: Totals, seen: seq<Row>, row: Row, norm: string -> string)
    requires OwnOk(before, seen, norm)
    requires row.criterion.None? || row.student.None? ==> t.own == before.own
    requires row.criterion.Some? && row.student.Some? ==>
      var k, x := norm(row.criterion.value.name), row.student.value;
      var per := if x in before.own then before.own[x] else map[];
      t.own == before.own[x := per[k := OwnIn(before, x, k) + [Normalised(row)]]]
    ensures OwnOk(t, seen + [row], norm)
  {
    hide OwnScores, Normalised;
    forall x, k
      ensures OwnIn(t, x, k) == OwnScores(seen + [row], norm, k, Some(x))
    {
      SnocRow(seen, row, norm, k, Some(x));
      assert OwnIn(before, x, k) == OwnScores(seen, norm, k, Some(x));
    }
  }

  lemma EssaysOf(seen: seq<Row>, row: Row)
    ensures (set r | r in seen + [row] :: r.essay) == (set r | r in seen :: r.essay) + {row.essay}
  {
    assert row in seen + [row];
  }

  // ---------------------------------------------------------------------------
  // Building the response
  // ---------------------------------------------------------------------------

  method GetClassInsights(rows: seq<Row>, norm: string -> string) returns (r: ClassInsights)
    ensures IsInsights(r, rows, norm)
  {
    hide Grouping.LessEq, Scores, OwnScores;
    var t := Aggregate(rows, norm);
    var averages := BuildAverages(t, rows, norm);
    var issues := BuildIssues(t, rows, norm, averages);
    r := ClassInsights(|t.essays|, averages, issues);
  }

  method BuildAverages(t: Totals, ghost rows: seq<Row>, norm: string -> string) returns (averages: seq<SkillAverage>)
    requires IsTotals(t, rows, norm)
    ensures forall i, j :: 0 <= i < j < |averages| ==>
              Grouping.LessEq(averages[i].skill, averages[j].skill) && averages[i].skill != averages[j].skill
    ensures forall i :: 0 <= i < |averages| ==> Describes(averages[i], rows, norm)
    ensures forall skill :: HasSkill(averages, skill) <==> Scores(rows, norm, skill) != []
  {
    hide Grouping.LessEq, Scores, OwnScores, Mean, Round4, CountIn, Contributors;
    var keys := Grouping.SortedKeys(t.all.Keys);
    averages := [];
    for i := 0 to |keys|
      invariant |averages| == i
      invariant forall j :: 0 <= j < i ==> averages[j].skill == keys[j] && Describes(averages[j], rows, norm)
    {
      var skill := keys[i];
      assert skill in t.all;
      var scores := t.all[skill];
      var distribution := BuildDistribution(scores);
      StudentsAreContributors(t, rows, norm, skill);
      var a := SkillAverage(skill, Round4(Mean(scores)), |StudentsIn(t, skill)|, |scores|, distribution);
      assert Describes(a, rows, norm);
      averages := averages + [a];
    }
    hide Describes;
    SkillsAreKeys(averages, keys);
    assert forall k :: k in keys <==> Scores(rows, norm, k) != [];
  }

  lemma SkillsAreKeys(averages: seq<SkillAverage>, keys: seq<string>)
    requires |averages| == |keys| && forall i :: 0 <= i < |keys| ==> averages[i].skill == keys[i]
    ensures forall k :: HasSkill(averages, k) <==> k in keys
  {
    forall k
      ensures HasSkill(averages, k) <==> k in keys
    {
      if k in keys {
        var i :| 0 <= i < |keys| && keys[i] == k;
        assert averages[i].skill == k;
      }
    }
  }

  lemma StudentsAreContributors(t: Totals, rows: seq<Row>, norm: string -> string, skill: string)
    requires IsTotals(t, rows, norm)
    ensures StudentsIn(t, skill) == Contributors(rows, norm, skill)
  {
    hide Scores, OwnScores;
    forall x
      ensures x in StudentsIn(t, skill) <==> x in Contributors(rows, norm, skill)
    {
      ContributorHasScores(rows, norm, skill, x);
    }
  }

  method BuildIssues(t: Totals, ghost rows: seq<Row>, norm: string -> string, averages: seq<SkillAverage>)
    returns (issues: seq<CommonIssue>)
    requires IsTotals(t, rows, norm)
    requires forall i, j :: 0 <= i < j < |averages| ==>
               Grouping.LessEq(averages[i].skill, averages[j].skill) && averages[i].skill != averages[j].skill
    ensures WorstFirst(issues) && DistinctSkills(issues)
    ensures forall i :: 0 <= i < |issues| ==> FromAverage(issues[i], averages, rows, norm)
    ensures forall i :: 0 <= i < |averages| && averages[i].avg < 0.6 ==> HasIssue(issues, averages[i].skill)
  {
    hide Grouping.LessEq, Scores, OwnScores, Mean;
    issues := [];
    for i := 0 to |averages|
      invariant WorstFirst(issues) && DistinctSkills(issues)
      invariant forall e :: e in issues ==> FromAverage(e, averages, rows, norm)
      invariant forall e, k :: e in issues && i <= k < |averages| ==>
                  Grouping.LessEq(e.skill, averages[k].skill) && e.skill != averages[k].skill
      invariant forall j :: 0 <= j < i && averages[j].avg < 0.6 ==> HasIssue(issues, averages[j].skill)
    {
      var a := averages[i];
      if a.avg < 0.6 {
        var affected := set x | x in t.own && a.skill in t.own[x] && Below(t.own[x][a.skill]);
        AffectedInTotals(t, rows, norm, a.skill, affected);
        var issue := CommonIssue(a.skill, a.avg, |affected|);
        assert FromAverage(issue, averages, rows, norm);
        InsertIssueKeeps(issues, issue);
        InsertIssueDistinct(issues, issue);
        issues := InsertIssue(issues, issue);
      }
    }
  }

  lemma AffectedInTotals(t: Totals, rows: seq<Row>, norm: string -> string, skill: string, affected: set<StudentId>)
    requires IsTotals(t, rows, norm)
    requires affected == set x | x in t.own && skill in t.own[x] && Below(t.own[x][skill])
    ensures affected == Affected(rows, norm, skill)
  {
    hide Scores, OwnScores, Mean, Contributors;
    forall x
      ensures x in affected <==> x in Affected(rows, norm, skill)
    {
      ContributorHasScores(rows, norm, skill, x);
      assert OwnIn(t, x, skill) == OwnScores(rows, norm, skill, Some(x));
    }
  }

  /** One step of a stable sort by average: `x` goes after its equals. */
  function InsertIssue(s: seq<CommonIssue>, x: CommonIssue): seq<CommonIssue> {
    if s == [] || s[|s| - 1].avg <= x.avg then s + [x]
    else InsertIssue(s[..|s| - 1], x) + [s[|s| - 1]]
  }

  lemma {:induction false} InsertIssueKeeps(s: seq<CommonIssue>, x: CommonIssue)
    requires WorstFirst(s)
    requires forall i :: 0 <= i < |s| ==> Grouping.LessEq(s[i].skill, x.skill)
    ensures WorstFirst(InsertIssue(s, x)) && multiset(InsertIssue(s, x)) == multiset(s) + multiset{x}
    ensures forall e :: e in InsertIssue(s, x) <==> e in s || e == x
    ensures forall skill :: HasIssue(InsertIssue(s, x), skill) <==> HasIssue(s, skill) || skill == x.skill
  {
    hide Grouping.LessEq;
    var r := InsertIssue(s, x);
    if s == [] || s[|s| - 1].avg <= x.avg {
      assert forall i :: 0 <= i < |s| ==> s[i].avg <= s[|s| - 1].avg;
    } else {
      var init, last := s[..|s| - 1], s[|s| - 1];
      assert s == init + [last];
      InsertIssueKeeps(init, x);
      forall i | 0 <= i < |r| - 1
        ensures Before(r[i], last)
      {
        assert r[i] in InsertIssue(init, x);
      }
    }
    SameIssues(r, s, x);
  }

  lemma {:induction false} InsertIssueDistinct(s: seq<CommonIssue>, x: CommonIssue)
    requires DistinctSkills(s) && forall e :: e in s ==> e.skill != x.skill
    ensures DistinctSkills(InsertIssue(s, x))
    ensures forall e :: e in InsertIssue(s, x) ==> e in s || e == x
  {
    if s != [] && s[|s| - 1].avg > x.avg {
      var init, last := s[..|s| - 1], s[|s| - 1];
      assert s == init + [last];
      InsertIssueDistinct(init, x);
      var r := InsertIssue(init, x);
      forall i | 0 <= i < |r|
        ensures r[i].skill != last.skill
      {
        assert r[i] in r;
      }
    }
  }

  lemma SameIssues(r: seq<CommonIssue>, s: seq<CommonIssue>, x: CommonIssue)
    requires forall e :: e in r <==> e in s || e == x
    ensures forall skill :: HasIssue(r, skill) <==> HasIssue(s, skill) || skill == x.skill
  {
    forall skill
      ensures HasIssue(r, skill) <==> HasIssue(s, skill) || skill == x.skill
    {
      if HasIssue(r, skill) {
        var i :| 0 <= i < |r| && r[i].skill == skill;
        assert r[i] in r;
      }
      if HasIssue(s, skill) {
        var i :| 0 <= i < |s| && s[i].skill == skill;
        assert s[i] in r;
      }
      assert x in r;
    }
  }

  /** In a response every listed issue of fully assigned rows affects somebody, and the histogram of
      each skill accounts for all its data points. */
  lemma InsightsAreConsistent(r: ClassInsights, rows: seq<Row>, norm: string -> string)
    requires IsInsights(r, rows, norm)
    ensures forall i :: 0 <= i < |r.issues| && AllAssigned(rows, norm, r.issues[i].skill) ==> r.issues[i].affected >= 1
    ensures forall i :: 0 <= i < |r.averages| ==>
              var d := r.averages[i].distribution;
              |d| == BUCKETS && d[0] + d[1] + d[2] + d[3] + d[4] == r.averages[i].dataPoints
    ensures forall i :: 0 <= i < |r.issues| ==> r.issues[i].affected <= |Contributors(rows, norm, r.issues[i].skill)|
  {
    hide Scores, OwnScores, Round4, Mean, Grouping.LessEq, AllAssigned, Counts, CountIn;
    forall i | 0 <= i < |r.issues|
      ensures AllAssigned(rows, norm, r.issues[i].skill) ==> r.issues[i].affected >= 1
      ensures r.issues[i].affected <= |Contributors(rows, norm, r.issues[i].skill)|
    {
      var skill := r.issues[i].skill;
      assert FromAverage(r.issues[i], r.averages, rows, norm);
      var j :| 0 <= j < |r.averages| && r.averages[j].skill == skill && r.averages[j].avg == r.issues[i].avg;
      assert Describes(r.averages[j], rows, norm);
      IssueHasAffectedStudent(rows, norm, skill);
      Subset(Affected(rows, norm, skill), Contributors(rows, norm, skill));
    }
    forall i | 0 <= i < |r.averages|
      ensures var d := r.averages[i].distribution;
              |d| == BUCKETS && d[0] + d[1] + d[2] + d[3] + d[4] == r.averages[i].dataPoints
    {
      assert Describes(r.averages[i], rows, norm);
      CountsAddUp(Scores(rows, norm, r.averages[i].skill));
    }
  }

  lemma {:induction false} Subset(a: set<StudentId>, b: set<StudentId>)
    requires a <= b
    ensures |a| <= |b|
  {
    assert b == a + (b - a);
  }
}
