/** When a common issue is certain to have an affected student, although some rows have none
(`class_insights.py`): the exact condition on who owns the rows, over every way to score them.
 */
module IssueBounds {
  import opened Outcomes
  import opened Insights

  type Owner = Option<StudentId>

  // ---------------------------------------------------------------------------
  // Owners and scorings
  // ---------------------------------------------------------------------------

  /** A row of this owner, with any score in the range of the criterion. */
  predicate IsRowOf(row: Row, owner: Owner, c: Criterion) {
    row.student == owner && row.criterion == Some(c) && c.minScore <= row.final <= c.maxScore
  }

  predicate IsScoring(rows: seq<Row>, owners: seq<Owner>, c: Criterion) {
    |rows| == |owners| && forall i :: 0 <= i < |rows| ==> IsRowOf(rows[i], owners[i], c)
  }

  function Count(owners: seq<Owner>, x: Owner): nat {
    if owners == [] then 0
    else Count(owners[..|owners| - 1], x) + if owners[|owners| - 1] == x then 1 else 0
  }

  function Drop(owners: seq<Owner>, x: Owner): seq<Owner> {
    if owners == [] then []
    else
      var earlier, last := Drop(owners[..|owners| - 1], x), owners[|owners| - 1];
      if last == x then earlier else earlier + [last]
  }

  /** Three fifths of `m`, rounded up. */
  function ThreeFifths(m: int): int {
    (3 * m + 4) / 5
  }

  lemma {:induction false} DropShrinks(owners: seq<Owner>, x: Owner)
    ensures |Drop(owners, x)| + Count(owners, x) == |owners|
    ensures owners != [] && owners[|owners| - 1] == x ==> |Drop(owners, x)| < |owners|
  {
    if owners != [] {
      DropShrinks(owners[..|owners| - 1], x);
    }
  }

  lemma {:induction false} DropOther(owners: seq<Owner>, x: Owner, y: Owner)
    ensures Count(Drop(owners, x), y) == if x == y then 0 else Count(owners, y)
  {
    if owners != [] {
      var init, last := owners[..|owners| - 1], owners[|owners| - 1];
      DropOther(init, x, y);
      assert (Drop(init, x) + [last])[..|Drop(init, x)|] == Drop(init, x);
    }
  }

  /** What a student's row adds to the need who has `n` earlier ones. */
  function Share(scale: nat, n: nat): int {
    ThreeFifths(scale * (n + 1)) - ThreeFifths(scale * n)
  }

  /** The least sum of scores above the minimum with which no student is below the threshold: for each
      student three fifths of the range times the student's rows, rounded up (see `NeedByStudent`); rows
      without a student add nothing. */
  function Need(owners: seq<Owner>, scale: nat): int {
    if owners == [] then 0
    else
      var init, x := owners[..|owners| - 1], owners[|owners| - 1];
      Need(init, scale) + if x.Some? then Share(scale, Count(init, x)) else 0
  }

  lemma NeedSnoc(owners: seq<Owner>, x: Owner, scale: nat)
    ensures Need(owners + [x], scale) == Need(owners, scale) + if x.Some? then Share(scale, Count(owners, x)) else 0
  {
    assert (owners + [x])[..|owners|] == owners;
  }

  /** Each student counts for three fifths of the range times the student's rows, rounded up. */
  lemma {:induction false} NeedByStudent(owners: seq<Owner>, x: Owner, scale: nat)
    ensures Need(owners, scale) ==
            Need(Drop(owners, x), scale) + if x.Some? then ThreeFifths(scale * Count(owners, x)) else 0
  {
    if owners == [] {
      assert scale * 0 == 0;
    } else {
      var init, last := owners[..|owners| - 1], owners[|owners| - 1];
      NeedByStudent(init, x, scale);
      if last != x {
        NeedSnoc(Drop(init, x), last, scale);
        DropOther(init, x, last);
      }
      hide ThreeFifths;
    }
  }

  // ---------------------------------------------------------------------------
  // Sums of raw scores
  // ---------------------------------------------------------------------------

  function RawAll(rows: seq<Row>, low: int): int {
    if rows == [] then 0 else RawAll(rows[..|rows| - 1], low) + rows[|rows| - 1].final - low
  }

  function RawOwn(rows: seq<Row>, low: int, x: Owner): int {
    if rows == [] then 0
    else
      var row := rows[|rows| - 1];
      RawOwn(rows[..|rows| - 1], low, x) + if row.student == x then row.final - low else 0
  }

  lemma RawSnoc(rows: seq<Row>, row: Row, low: int, x: Owner)
    ensures RawAll(rows + [row], low) == RawAll(rows, low) + row.final - low
    ensures RawOwn(rows + [row], low, x) == RawOwn(rows, low, x) + if row.student == x then row.final - low else 0
  {
    assert (rows + [row])[..|rows|] == rows;
  }

  lemma {:induction false} RawSplit(rows: seq<Row>, low: int, x: Owner)
    ensures RawAll(rows, low) == RawAll(Without(rows, x), low) + RawOwn(rows, low, x)
  {
    if rows != [] {
      var init, row := rows[..|rows| - 1], rows[|rows| - 1];
      RawSplit(init, low, x);
      RawSnoc(Without(init, x), row, low, x);
    }
  }

  lemma {:induction false} RawOthers(rows: seq<Row>, low: int, x: Owner, y: Owner)
    ensures RawOwn(Without(rows, x), low, y) == if x == y then 0 else RawOwn(rows, low, y)
  {
    if rows != [] {
      var init, row := rows[..|rows| - 1], rows[|rows| - 1];
      RawOthers(init, low, x, y);
      RawSnoc(Without(init, x), row, low, y);
    }
  }

  lemma {:induction false} ScoringWithout(rows: seq<Row>, owners: seq<Owner>, c: Criterion, x: Owner)
    requires IsScoring(rows, owners, c)
    ensures IsScoring(Without(rows, x), Drop(owners, x), c)
  {
    if rows != [] {
      ScoringWithout(rows[..|rows| - 1], owners[..|owners| - 1], c, x);
    }
  }

  lemma {:induction false} RawNotNegative(rows: seq<Row>, owners: seq<Owner>, c: Criterion, x: Owner)
    requires IsScoring(rows, owners, c)
    ensures RawOwn(rows, c.minScore, x) >= 0
  {
    if rows != [] {
      RawNotNegative(rows[..|rows| - 1], owners[..|owners| - 1], c, x);
    }
  }

  /** If every student has at least three fifths, the rows add up to at least what is needed. */
  lemma {:induction false} NeedIsLeast(rows: seq<Row>, owners: seq<Owner>, c: Criterion, scale: nat)
    requires IsScoring(rows, owners, c)
    requires forall x: Owner :: x.Some? ==> RawOwn(rows, c.minScore, x) >= ThreeFifths(scale * Count(owners, x))
    ensures RawAll(rows, c.minScore) >= Need(owners, scale)
    decreases |rows|
  {
    if rows != [] {
      var x := owners[|owners| - 1];
      var rest, others := Without(rows, x), Drop(owners, x);
      DropShrinks(owners, x);
      ScoringWithout(rows, owners, c, x);
      RawSplit(rows, c.minScore, x);
      RawNotNegative(rows, owners, c, x);
      forall y: Owner | y.Some?
        ensures RawOwn(rest, c.minScore, y) >= ThreeFifths(scale * Count(others, y))
      {
        RawOthers(rows, c.minScore, x, y);
        DropOther(owners, x, y);
        assert scale * 0 == 0;
      }
      NeedIsLeast(rest, others, c, scale);
      NeedByStudent(owners, x, scale);
    }
  }

  // ---------------------------------------------------------------------------
  // The cheapest scoring
  // ---------------------------------------------------------------------------

  lemma ShareInRange(scale: nat, n: nat)
    ensures 0 <= Share(scale, n) <= scale
  {
    var m := scale * n;
    assert scale * (n + 1) == m + scale;
    assert (3 * m + 4 + 5 * scale) / 5 == (3 * m + 4) / 5 + scale;
  }

  /** Each student's rows add up to three fifths, rounded up, and the other rows score the minimum. */
  function Cheapest(owners: seq<Owner>, c: Criterion): (rows: seq<Row>)
    requires c.minScore < c.maxScore
    ensures |rows| == |owners|
  {
    if owners == [] then []
    else
      var init, x := owners[..|owners| - 1], owners[|owners| - 1];
      var raw := if x.Some? then Share(c.maxScore - c.minScore, Count(init, x)) else 0;
      Cheapest(init, c) + [Row(|init|, x, c.minScore + raw, Some(c))]
  }

  lemma {:induction false} CheapestIsScoring(owners: seq<Owner>, c: Criterion)
    requires c.minScore < c.maxScore
    ensures IsScoring(Cheapest(owners, c), owners, c)
  {
    if owners != [] {
      CheapestIsScoring(owners[..|owners| - 1], c);
      ShareInRange(c.maxScore - c.minScore, Count(owners[..|owners| - 1], owners[|owners| - 1]));
      hide Share;
    }
  }

  lemma {:induction false} CheapestOwn(owners: seq<Owner>, c: Criterion, x: Owner)
    requires c.minScore < c.maxScore
    ensures RawOwn(Cheapest(owners, c), c.minScore, x) ==
            if x.Some? then ThreeFifths((c.maxScore - c.minScore) * Count(owners, x)) else 0
  {
    if owners == [] {
      assert (c.maxScore - c.minScore) * 0 == 0;
    } else {
      var init := owners[..|owners| - 1];
      CheapestOwn(init, c, x);
      RawSnoc(Cheapest(init, c), Cheapest(owners, c)[|owners| - 1], c.minScore, x);
      hide ThreeFifths;
    }
  }

  lemma {:induction false} CheapestMeetsNeed(owners: seq<Owner>, c: Criterion)
    requires c.minScore < c.maxScore
    ensures RawAll(Cheapest(owners, c), c.minScore) == Need(owners, c.maxScore - c.minScore)
  {
    if owners != [] {
      var init := owners[..|owners| - 1];
      CheapestMeetsNeed(init, c);
      RawSnoc(Cheapest(init, c), Cheapest(owners, c)[|owners| - 1], c.minScore, None);
      hide Share;
    }
  }

  // ---------------------------------------------------------------------------
  // From raw scores to means
  // ---------------------------------------------------------------------------

  lemma ScaledScore(row: Row, c: Criterion)
    requires row.criterion == Some(c) && c.minScore < c.maxScore && c.minScore <= row.final <= c.maxScore
    ensures Normalised(row) * (c.maxScore - c.minScore) as real == (row.final - c.minScore) as real
  {
    NormalisedScore(row.final, row.final, c.minScore, c.maxScore);
    hide NormaliseScore;
  }

  /** The normalised sum is the raw one on the scale of 0 to 1. */
  predicate IsScaled(sum: real, c: Criterion, raw: int) {
    sum * (c.maxScore - c.minScore) as real == raw as real
  }

  lemma AddScaled(sum: real, x: real, c: Criterion, a: int, b: int)
    requires IsScaled(sum, c, a) && IsScaled(x, c, b)
    ensures IsScaled(sum + x, c, a + b)
  {
    var k := (c.maxScore - c.minScore) as real;
    assert (sum + x) * k == sum * k + x * k;
  }

  lemma FrontAndLast(rows: seq<Row>, owners: seq<Owner>, c: Criterion)
    requires IsScoring(rows, owners, c) && rows != []
    ensures var init, row := rows[..|rows| - 1], rows[|rows| - 1];
            && rows == init + [row] && IsScoring(init, owners[..|owners| - 1], c)
            && IsRowOf(row, owners[|owners| - 1], c) && owners == owners[..|owners| - 1] + [owners[|owners| - 1]]
  {
    hide IsRowOf;
  }

  lemma CountSnoc(owners: seq<Owner>, last: Owner, x: Owner)
    ensures Count(owners + [last], x) == Count(owners, x) + if last == x then 1 else 0
  {
    assert (owners + [last])[..|owners|] == owners;
  }

  lemma RowCounts(row: Row, owner: Owner, c: Criterion, norm: string -> string)
    requires IsRowOf(row, owner, c)
    ensures Counts(row, norm, norm(c.name)) && row.criterion.Some? && row.student == owner
  {
  }

  lemma NothingScored(norm: string -> string, skill: string, c: Criterion, x: Owner)
    ensures Scores([], norm, skill) == [] && OwnScores([], norm, skill, x) == [] && Sum([]) == 0.0
    ensures RawAll([], c.minScore) == 0 && RawOwn([], c.minScore, x) == 0 && Count([], x) == 0 && IsScaled(0.0, c, 0)
  {
  }

  lemma {:induction false} ScaledAll(rows: seq<Row>, owners: seq<Owner>, c: Criterion, norm: string -> string,
                                     skill: string)
    requires IsScoring(rows, owners, c) && c.minScore < c.maxScore && norm(c.name) == skill
    ensures |Scores(rows, norm, skill)| == |rows|
    ensures IsScaled(Sum(Scores(rows, norm, skill)), c, RawAll(rows, c.minScore))
    decreases |rows|
  {
    hide *;
    if rows == [] {
      NothingScored(norm, skill, c, None);
    } else {
      var init, row := rows[..|rows| - 1], rows[|rows| - 1];
      FrontAndLast(rows, owners, c);
      ScaledAll(init, owners[..|owners| - 1], c, norm, skill);
      RowCounts(row, owners[|owners| - 1], c, norm);
      ScaledRow(row, owners[|owners| - 1], c);
      SnocRow(init, row, norm, skill, None);
      SumSnoc(Scores(init, norm, skill), Normalised(row));
      RawSnoc(init, row, c.minScore, None);
      AddScaled(Sum(Scores(init, norm, skill)), Normalised(row), c, RawAll(init, c.minScore), row.final - c.minScore);
    }
  }

  lemma ScaledRow(row: Row, owner: Owner, c: Criterion)
    requires IsRowOf(row, owner, c) && c.minScore < c.maxScore
    ensures row.criterion.Some?
    ensures IsScaled(Normalised(row), c, row.final - c.minScore)
  {
    ScaledScore(row, c);
    hide Normalised;
  }

  lemma OwnStep(rows: seq<Row>, owners: seq<Owner>, c: Criterion, norm: string -> string, skill: string, x: Owner)
    requires IsScoring(rows, owners, c) && rows != [] && norm(c.name) == skill
    ensures owners != []
    ensures var init, row, last := rows[..|rows| - 1], rows[|rows| - 1], owners[|owners| - 1];
            && row.criterion.Some?
            && OwnScores(rows, norm, skill, x) ==
               OwnScores(init, norm, skill, x) + (if last == x then [Normalised(row)] else [])
            && RawOwn(rows, c.minScore, x) ==
               RawOwn(init, c.minScore, x) + (if last == x then row.final - c.minScore else 0)
            && Count(owners, x) == Count(owners[..|owners| - 1], x) + (if last == x then 1 else 0)
  {
    var init, row := rows[..|rows| - 1], rows[|rows| - 1];
    assert IsRowOf(row, owners[|owners| - 1], c);
    RowCounts(row, owners[|owners| - 1], c, norm);
    hide IsRowOf, IsScoring, Normalised;
  }

  lemma {:induction false} OwnLength(rows: seq<Row>, owners: seq<Owner>, c: Criterion, norm: string -> string,
                                     skill: string, x: Owner)
    requires IsScoring(rows, owners, c) && norm(c.name) == skill
    ensures |OwnScores(rows, norm, skill, x)| == Count(owners, x)
    decreases |rows|
  {
    assert |rows| == |owners|;
    hide *;
    if rows == [] {
      assert owners == [];
      NothingScored(norm, skill, c, x);
    } else {
      FrontAndLast(rows, owners, c);
      OwnLength(rows[..|rows| - 1], owners[..|owners| - 1], c, norm, skill, x);
      OwnStep(rows, owners, c, norm, skill, x);
    }
  }

  lemma AddOwn(before: seq<real>, after: seq<real>, x: real, c: Criterion, raw: int, more: int)
    requires after == before + [x] && IsScaled(Sum(before), c, raw) && IsScaled(x, c, more)
    ensures IsScaled(Sum(after), c, raw + more)
  {
    hide IsScaled;
    SumSnoc(before, x);
    hide Sum;
    AddScaled(Sum(before), x, c, raw, more);
  }

  lemma {:induction false} ScaledOwn(rows: seq<Row>, owners: seq<Owner>, c: Criterion, norm: string -> string,
                                     skill: string, x: Owner)
    requires IsScoring(rows, owners, c) && c.minScore < c.maxScore && norm(c.name) == skill
    ensures IsScaled(Sum(OwnScores(rows, norm, skill, x)), c, RawOwn(rows, c.minScore, x))
    decreases |rows|
  {
    hide *;
    if rows == [] {
      NothingScored(norm, skill, c, x);
    } else {
      var init, row := rows[..|rows| - 1], rows[|rows| - 1];
      FrontAndLast(rows, owners, c);
      ScaledOwn(init, owners[..|owners| - 1], c, norm, skill, x);
      OwnStep(rows, owners, c, norm, skill, x);
      ScaledRow(row, owners[|owners| - 1], c);
      var before, after := OwnScores(init, norm, skill, x), OwnScores(rows, norm, skill, x);
      if owners[|owners| - 1] == x {
        AddOwn(before, after, Normalised(row), c, RawOwn(init, c.minScore, x), row.final - c.minScore);
      } else {
        assert after == before && RawOwn(rows, c.minScore, x) == RawOwn(init, c.minScore, x);
      }
    }
  }

  /** A sum is below a share of its length exactly when the raw sum is below that share of the raw maximum. */
  lemma ScaleBelow(sum: real, n: nat, scale: nat, raw: int, share: real)
    requires scale > 0 && sum * scale as real == raw as real
    ensures sum < share * n as real <==> raw as real < share * (scale * n) as real
  {
    TimesSign(share * n as real - sum, scale as real);
    Regroup(share, n, scale, sum);
  }

  lemma Regroup(share: real, n: nat, scale: nat, sum: real)
    ensures (share * n as real - sum) * scale as real == share * (scale * n) as real - sum * scale as real
  {
    var a, k := n as real, scale as real;
    Cast(scale, n);
    ThreeFactors(share, a, k);
    Subtract(share * a, sum, k);
  }

  lemma Cast(a: nat, b: nat)
    ensures (a * b) as real == b as real * a as real
  {
  }

  lemma ThreeFactors(a: real, b: real, c: real)
    ensures a * b * c == a * (b * c)
  {
  }

  lemma Subtract(a: real, b: real, k: real)
    ensures (a - b) * k == a * k - b * k
  {
  }

  lemma ScaleStudent(sum: real, n: nat, c: Criterion, raw: int)
    requires c.minScore < c.maxScore && IsScaled(sum, c, raw)
    ensures sum < 0.6 * n as real <==> raw < ThreeFifths((c.maxScore - c.minScore) * n)
  {
    var m := (c.maxScore - c.minScore) * n;
    ScaleBelow(sum, n, c.maxScore - c.minScore, raw, 0.6);
    assert raw as real < 0.6 * m as real <==> 5 * raw < 3 * m;
  }

  lemma ScaleClass(sum: real, n: nat, c: Criterion, raw: int)
    requires c.minScore < c.maxScore && IsScaled(sum, c, raw)
    ensures sum < 0.59995 * n as real <==> 100000 * raw < 59995 * ((c.maxScore - c.minScore) * n)
  {
    ScaleBelow(sum, n, c.maxScore - c.minScore, raw, 0.59995);
    InWholeNumbers(raw, (c.maxScore - c.minScore) * n);
  }

  /** A student is below the threshold exactly when short of three fifths of the raw maximum. */
  lemma StudentBelow(rows: seq<Row>, owners: seq<Owner>, c: Criterion, norm: string -> string, x: Owner)
    requires IsScoring(rows, owners, c) && c.minScore < c.maxScore
    ensures Below(OwnScores(rows, norm, norm(c.name), x)) <==>
            RawOwn(rows, c.minScore, x) < ThreeFifths((c.maxScore - c.minScore) * Count(owners, x))
  {
    hide *;
    var own := OwnScores(rows, norm, norm(c.name), x);
    ScaledOwn(rows, owners, c, norm, norm(c.name), x);
    OwnLength(rows, owners, c, norm, norm(c.name), x);
    BelowIsDeficit(own);
    ScaleStudent(Sum(own), Count(owners, x), c, RawOwn(rows, c.minScore, x));
  }

  /** The skill is listed as a common issue. */
  predicate IsListed(rows: seq<Row>, norm: string -> string, skill: string) {
    Scores(rows, norm, skill) != [] && Round4(Mean(Scores(rows, norm, skill))) < 0.6
  }

  lemma MeanBelow(s: seq<real>, share: real)
    requires s != []
    ensures Mean(s) < share <==> Sum(s) < share * |s| as real
  {
    var n := |s| as real;
    assert Mean(s) * n == Sum(s);
    hide Mean;
    TimesSign(share - Mean(s), n);
    Subtract(share, Mean(s), n);
  }

  lemma ListedMeans(rows: seq<Row>, norm: string -> string, skill: string)
    ensures var scores := Scores(rows, norm, skill);
            IsListed(rows, norm, skill) <==> scores != [] && Sum(scores) < 0.59995 * |scores| as real
  {
    hide Scores, Mean, Sum, Round4;
    var scores := Scores(rows, norm, skill);
    if scores != [] {
      RoundedBelow(Mean(scores));
      MeanBelow(scores, 0.59995);
    }
  }

  lemma NothingToList(c: Criterion)
    ensures RawAll([], c.minScore) == 0 && (c.maxScore - c.minScore) * 0 == 0
  {
  }

  /** The skill is listed exactly when the raw sum is below 59995 hundred-thousandths of the raw maximum. */
  lemma ListedBelow(rows: seq<Row>, owners: seq<Owner>, c: Criterion, norm: string -> string)
    requires IsScoring(rows, owners, c) && c.minScore < c.maxScore
    ensures IsListed(rows, norm, norm(c.name)) <==>
            100000 * RawAll(rows, c.minScore) < 59995 * ((c.maxScore - c.minScore) * |owners|)
  {
    var scores, skill := Scores(rows, norm, norm(c.name)), norm(c.name);
    assert |rows| == |owners|;
    hide *;
    ScaledAll(rows, owners, c, norm, skill);
    ListedMeans(rows, norm, skill);
    if rows == [] {
      NothingToList(c);
      assert owners == [];
    } else {
      ScaleClass(Sum(scores), |owners|, c, RawAll(rows, c.minScore));
    }
  }

  lemma InWholeNumbers(raw: int, m: int)
    ensures raw as real < 0.59995 * m as real <==> 100000 * raw < 59995 * m
  {
  }

  // ---------------------------------------------------------------------------
  // Main result
  // ---------------------------------------------------------------------------

  lemma NobodyAffected(rows: seq<Row>, norm: string -> string, skill: string)
    ensures Affected(rows, norm, skill) == {} <==>
            forall x: Owner :: x.Some? ==> !Below(OwnScores(rows, norm, skill, x))
  {
    hide OwnScores, Below;
    forall x: Owner | x.Some?
      ensures x.value in Affected(rows, norm, skill) <==> Below(OwnScores(rows, norm, skill, x))
    {
      ContributorHasScores(rows, norm, skill, x.value);
      BelowNeedsScores(OwnScores(rows, norm, skill, x));
    }
    if forall x: Owner :: x.Some? ==> !Below(OwnScores(rows, norm, skill, x)) {
      forall v
        ensures v !in Affected(rows, norm, skill)
      {
        assert Some(v).Some?;
      }
    }
  }

  lemma BelowNeedsScores(s: seq<real>)
    ensures Below(s) ==> s != []
  {
  }

  lemma ListedHasStudent(rows: seq<Row>, owners: seq<Owner>, c: Criterion, norm: string -> string)
    requires IsScoring(rows, owners, c) && c.minScore < c.maxScore
    requires 100000 * Need(owners, c.maxScore - c.minScore) >= 59995 * ((c.maxScore - c.minScore) * |owners|)
    requires IsListed(rows, norm, norm(c.name))
    ensures Affected(rows, norm, norm(c.name)) != {}
  {
    ListedBelow(rows, owners, c, norm);
    NobodyAffected(rows, norm, norm(c.name));
    hide IsListed, Below, OwnScores, Affected, ThreeFifths, RawAll, RawOwn, Need;
    var scale := c.maxScore - c.minScore;
    if Affected(rows, norm, norm(c.name)) == {} {
      forall x: Owner | x.Some?
        ensures RawOwn(rows, c.minScore, x) >= ThreeFifths(scale * Count(owners, x))
      {
        StudentBelow(rows, owners, c, norm, x);
      }
      NeedIsLeast(rows, owners, c, scale);
    }
  }

  lemma CheapestListsNobody(owners: seq<Owner>, c: Criterion, norm: string -> string)
    requires c.minScore < c.maxScore
    requires 100000 * Need(owners, c.maxScore - c.minScore) < 59995 * ((c.maxScore - c.minScore) * |owners|)
    ensures IsScoring(Cheapest(owners, c), owners, c)
    ensures IsListed(Cheapest(owners, c), norm, norm(c.name)) && Affected(Cheapest(owners, c), norm, norm(c.name)) == {}
  {
    var rows := Cheapest(owners, c);
    var scale := c.maxScore - c.minScore;
    CheapestIsScoring(owners, c);
    hide IsListed, Below, OwnScores, Affected, ThreeFifths, RawAll, RawOwn, Need, Cheapest;
    forall x: Owner
      ensures RawOwn(rows, c.minScore, x) == if x.Some? then ThreeFifths(scale * Count(owners, x)) else 0
      ensures x.Some? ==> !Below(OwnScores(rows, norm, norm(c.name), x))
    {
      CheapestOwn(owners, c, x);
      StudentBelow(rows, owners, c, norm, x);
    }
    CheapestMeetsNeed(owners, c);
    ListedBelow(rows, owners, c, norm);
    NobodyAffected(rows, norm, norm(c.name));
  }

  /** However the rows of these owners are scored, a listed issue affects somebody: true exactly when what
      keeps every student at the threshold is enough to keep the class mean from being listed. */
  lemma IssueAlwaysAffects(owners: seq<Owner>, c: Criterion, norm: string -> string)
    requires c.minScore < c.maxScore
    ensures (forall rows :: IsScoring(rows, owners, c) && IsListed(rows, norm, norm(c.name)) ==>
               Affected(rows, norm, norm(c.name)) != {}) <==>
            100000 * Need(owners, c.maxScore - c.minScore) >= 59995 * ((c.maxScore - c.minScore) * |owners|)
  {
    hide IsScoring, IsListed, Affected, Need;
    if 100000 * Need(owners, c.maxScore - c.minScore) >= 59995 * ((c.maxScore - c.minScore) * |owners|) {
      forall rows | IsScoring(rows, owners, c) && IsListed(rows, norm, norm(c.name))
        ensures Affected(rows, norm, norm(c.name)) != {}
      {
        ListedHasStudent(rows, owners, c, norm);
      }
    } else {
      CheapestListsNobody(owners, c, norm);
    }
  }

  /** Four students and one row without a student, on a scale of 1 to 5: an issue always affects somebody. */
  lemma FourAndOne(name: string, norm: string -> string, rows: seq<Row>)
    requires IsScoring(rows, [Some(1), Some(2), Some(3), Some(4), None], Criterion(name, 1, 5))
    requires IsListed(rows, norm, norm(name))
    ensures Affected(rows, norm, norm(name)) != {}
  {
    NeedOfFour();
    hide Need, IsListed, Affected, IsScoring;
    ListedHasStudent(rows, [Some(1), Some(2), Some(3), Some(4), None], Criterion(name, 1, 5), norm);
  }

  /** No student from `x` on has a row yet. */
  ghost predicate NoneFrom(owners: seq<Owner>, x: StudentId) {
    forall y: StudentId :: x <= y ==> Count(owners, Some(y)) == 0
  }

  lemma NeedOfOneMore(owners: seq<Owner>, x: StudentId, scale: nat)
    requires NoneFrom(owners, x)
    ensures Need(owners + [Some(x)], scale) == Need(owners, scale) + ThreeFifths(scale)
    ensures NoneFrom(owners + [Some(x)], x + 1)
  {
    hide Share, ThreeFifths, Need, Count;
    assert Count(owners, Some(x)) == 0;
    NeedSnoc(owners, Some(x), scale);
    FirstShare(scale);
    forall y: StudentId | x + 1 <= y
      ensures Count(owners + [Some(x)], Some(y)) == 0
    {
      CountSnoc(owners, Some(x), Some(y));
    }
  }

  lemma FirstShare(scale: nat)
    ensures Share(scale, 0) == ThreeFifths(scale)
  {
    assert scale * (0 + 1) == scale && scale * 0 == 0;
  }

  lemma NeedOfNone()
    ensures Need([], 4) == 0 && ThreeFifths(4) == 3 && NoneFrom([], 1)
  {
  }

  lemma NeedOfFour()
    ensures Need([Some(1), Some(2), Some(3), Some(4), None], 4) == 12
  {
    NeedOfNone();
    hide *;
    var none: seq<Owner> := [];
    var one := none + [Some(1)];
    var two := one + [Some(2)];
    var three := two + [Some(3)];
    var four := three + [Some(4)];
    NeedOfOneMore(none, 1, 4);
    NeedOfOneMore(one, 2, 4);
    NeedOfOneMore(two, 3, 4);
    NeedOfOneMore(three, 4, 4);
    NeedSnoc(four, None, 4);
    assert [Some(1), Some(2), Some(3), Some(4), None] == four + [None];
  }
}
