/** The per-repository sub-scores: step-function bands over the analysis figures,
    the Gini-committers product, and the scaling of the message score. */
module Scoring {
  import opened Bands
  import opened Duration
  import opened Text

  /** The five levels every band can take. */
  predicate IsLevel(score: real) {
    score == 0.0 || score == 0.25 || score == 0.5 || score == 0.75 || score == 1.0
  }

  // ---------------------------------------------------------------------------
  // Commits per day: strict thresholds

  /** 1, 0.75, 0.5 or 0.25 once the average exceeds 1, 0.75, 0.5 or 0.25; else 0. */
  function CommitsPerDayScore(avgCommitsPerDay: real): (score: real)
    ensures IsLevel(score)
    ensures score == 1.0 <==> avgCommitsPerDay > 1.0
    ensures score == 0.0 <==> avgCommitsPerDay <= 0.25
  {
    if avgCommitsPerDay > 1.0 then 1.0
    else if avgCommitsPerDay > 0.75 then 0.75
    else if avgCommitsPerDay > 0.5 then 0.5
    else if avgCommitsPerDay > 0.25 then 0.25
    else 0.0
  }

  const CommitsPerDayTable := [Step(1.0, 1.0), Step(0.75, 0.75), Step(0.5, 0.5), Step(0.25, 0.25)]

  lemma CommitsPerDayTableDescends()
    ensures Descending(CommitsPerDayTable, 0.0)
  {
  }

  /** The cascade is the strict step table read from the top. */
  lemma CommitsPerDayIsBand(x: real)
    ensures CommitsPerDayScore(x) == Band(CommitsPerDayTable, Above, 0.0, x)
  {
    var t := CommitsPerDayTable;
    if x > 1.0 {
      assert FirstPassed(t, Above, x, 0);
    } else if x > 0.75 {
      assert FirstPassed(t, Above, x, 1);
    } else if x > 0.5 {
      assert FirstPassed(t, Above, x, 2);
    } else if x > 0.25 {
      assert FirstPassed(t, Above, x, 3);
    }
  }

  /** More commits per day never lower the score. */
  lemma CommitsPerDayMonotone(x: real, y: real)
    requires x <= y
    ensures CommitsPerDayScore(x) <= CommitsPerDayScore(y)
  {
    CommitsPerDayIsBand(x);
    CommitsPerDayIsBand(y);
    CommitsPerDayTableDescends();
    BandMonotone(CommitsPerDayTable, Above, 0.0, x, y);
  }

  /** The thresholds are exclusive: reaching a threshold exactly is not enough. */
  lemma CommitsPerDayBreakpoints()
    ensures CommitsPerDayScore(1.0) == 0.75
    ensures CommitsPerDayScore(0.25) == 0.0
    ensures CommitsPerDayScore(0.5) == 0.25
  {
  }

  // ---------------------------------------------------------------------------
  // Committers: inclusive thresholds on the number of distinct authors

  /** 1, 0.75, 0.5 or 0.25 from 100, 50, 25 or 10 committers on; else 0. */
  function CommittersScore(totalCommitters: nat): (score: real)
    ensures IsLevel(score)
    ensures score == 1.0 <==> totalCommitters >= 100
    ensures score == 0.0 <==> totalCommitters < 10
  {
    if totalCommitters >= 100 then 1.0
    else if totalCommitters >= 50 then 0.75
    else if totalCommitters >= 25 then 0.5
    else if totalCommitters >= 10 then 0.25
    else 0.0
  }

  const CommittersTable := [Step(100.0, 1.0), Step(50.0, 0.75), Step(25.0, 0.5), Step(10.0, 0.25)]

  lemma CommittersTableDescends()
    ensures Descending(CommittersTable, 0.0)
  {
  }

  lemma CommittersIsBand(n: nat)
    ensures CommittersScore(n) == Band(CommittersTable, AtLeast, 0.0, n as real)
  {
    var t, x := CommittersTable, n as real;
    if n >= 100 {
      assert FirstPassed(t, AtLeast, x, 0);
    } else if n >= 50 {
      assert FirstPassed(t, AtLeast, x, 1);
    } else if n >= 25 {
      assert FirstPassed(t, AtLeast, x, 2);
    } else if n >= 10 {
      assert FirstPassed(t, AtLeast, x, 3);
    }
  }

  lemma CommittersMonotone(a: nat, b: nat)
    requires a <= b
    ensures CommittersScore(a) <= CommittersScore(b)
  {
    CommittersIsBand(a);
    CommittersIsBand(b);
    CommittersTableDescends();
    BandMonotone(CommittersTable, AtLeast, 0.0, a as real, b as real);
  }

  /** The thresholds are inclusive. */
  lemma CommittersBreakpoints()
    ensures CommittersScore(100) == 1.0
    ensures CommittersScore(99) == 0.75
    ensures CommittersScore(10) == 0.25
    ensures CommittersScore(9) == 0.0
  {
  }

  // ---------------------------------------------------------------------------
  // Commit size: inclusive thresholds on the mean number of changed lines

  /** 1, 0.75, 0.5 or 0.25 from a mean of 100, 75, 50 or 25 lines on; else 0. */
  function CommitSizeScore(avgCommitSize: real): (score: real)
    ensures IsLevel(score)
    ensures score == 1.0 <==> avgCommitSize >= 100.0
    ensures score == 0.0 <==> avgCommitSize < 25.0
  {
    if avgCommitSize >= 100.0 then 1.0
    else if avgCommitSize >= 75.0 then 0.75
    else if avgCommitSize >= 50.0 then 0.5
    else if avgCommitSize >= 25.0 then 0.25
    else 0.0
  }

  const CommitSizeTable := [Step(100.0, 1.0), Step(75.0, 0.75), Step(50.0, 0.5), Step(25.0, 0.25)]

  lemma CommitSizeTableDescends()
    ensures Descending(CommitSizeTable, 0.0)
  {
  }

  lemma CommitSizeIsBand(x: real)
    ensures CommitSizeScore(x) == Band(CommitSizeTable, AtLeast, 0.0, x)
  {
    var t := CommitSizeTable;
    if x >= 100.0 {
      assert FirstPassed(t, AtLeast, x, 0);
    } else if x >= 75.0 {
      assert FirstPassed(t, AtLeast, x, 1);
    } else if x >= 50.0 {
      assert FirstPassed(t, AtLeast, x, 2);
    } else if x >= 25.0 {
      assert FirstPassed(t, AtLeast, x, 3);
    }
  }

  lemma CommitSizeMonotone(x: real, y: real)
    requires x <= y
    ensures CommitSizeScore(x) <= CommitSizeScore(y)
  {
    CommitSizeIsBand(x);
    CommitSizeIsBand(y);
    CommitSizeTableDescends();
    BandMonotone(CommitSizeTable, AtLeast, 0.0, x, y);
  }

  lemma CommitSizeBreakpoints()
    ensures CommitSizeScore(100.0) == 1.0
    ensures CommitSizeScore(99.0) == 0.75
    ensures CommitSizeScore(25.0) == 0.25
    ensures CommitSizeScore(24.0) == 0.0
  {
  }

  // ---------------------------------------------------------------------------
  // Project duration: strict upper bounds on the fractional number of years

  /** 0 below one year, then 0.25, 0.5 and 0.75 below two, three and four years;
      1 from four years on. */
  function YearsBand(totalYears: real): (score: real)
    ensures IsLevel(score)
    ensures score == 0.0 <==> totalYears < 1.0
    ensures score == 1.0 <==> totalYears >= 4.0
  {
    if totalYears < 1.0 then 0.0
    else if totalYears < 2.0 then 0.25
    else if totalYears < 3.0 then 0.5
    else if totalYears < 4.0 then 0.75
    else 1.0
  }

  /** The same band written as an inclusive table read from the top. */
  const DurationTable := [Step(4.0, 1.0), Step(3.0, 0.75), Step(2.0, 0.5), Step(1.0, 0.25)]

  lemma DurationTableDescends()
    ensures Descending(DurationTable, 0.0)
  {
  }

  /** "below `t`" cascading upwards and "at least `t`" cascading downwards agree. */
  lemma YearsBandIsBand(x: real)
    ensures YearsBand(x) == Band(DurationTable, AtLeast, 0.0, x)
  {
    var t := DurationTable;
    if x >= 4.0 {
      assert FirstPassed(t, AtLeast, x, 0);
    } else if x >= 3.0 {
      assert FirstPassed(t, AtLeast, x, 1);
    } else if x >= 2.0 {
      assert FirstPassed(t, AtLeast, x, 2);
    } else if x >= 1.0 {
      assert FirstPassed(t, AtLeast, x, 3);
    }
  }

  lemma YearsBandMonotone(x: real, y: real)
    requires x <= y
    ensures YearsBand(x) <= YearsBand(y)
  {
    YearsBandIsBand(x);
    YearsBandIsBand(y);
    DurationTableDescends();
    BandMonotone(DurationTable, AtLeast, 0.0, x, y);
  }

  /** The duration score of an analysis record's duration text. */
  function ProjectDurationScore(durationText: string): (score: real)
    ensures IsLevel(score)
  {
    YearsBand(TotalYears(durationText))
  }

  /** The text written by the analysis scores as the band of `years + months / 12`. */
  lemma DurationScoreOfDurationText(years: nat, months: nat)
    ensures ProjectDurationScore(DurationText(years, months)) == YearsBand(years as real + months as real / 12.0)
  {
    TotalYearsOfDurationText(years, months);
  }

  /** The thresholds are whole years, so the months a calendar difference leaves
      over (fewer than twelve) never move the score. */
  lemma DurationScoreIgnoresMonths(years: nat, months: nat)
    requires months < 12
    ensures ProjectDurationScore(DurationText(years, months)) == ProjectDurationScore(DurationText(years, 0))
  {
    DurationScoreOfDurationText(years, months);
    DurationScoreOfDurationText(years, 0);
    var fraction := months as real / 12.0;
    assert 0.0 <= fraction < 1.0;
    YearsBandOfWholeYears(years, fraction);
  }

  /** Less than a year on top of whole years stays in the same band. */
  lemma YearsBandOfWholeYears(years: nat, fraction: real)
    requires 0.0 <= fraction < 1.0
    ensures YearsBand(years as real + fraction) == YearsBand(years as real)
  {
  }

  /** A text with only a year part, or only a month part, counts the other as 0. */
  lemma DurationScoreOfPartialText(n: nat)
    ensures ProjectDurationScore(NatToString(n) + " years") == YearsBand(n as real)
    ensures ProjectDurationScore(NatToString(n) + " months") == YearsBand(n as real / 12.0)
  {
    YearsOnlyText(n);
    MonthsOnlyText(n);
  }

  // ---------------------------------------------------------------------------
  // Products and scaling

  /** The equality index weighted by the committer band. */
  function GiniCommittersScore(gini: real, committersScore: real): (score: real)
    ensures gini == 0.0 || committersScore == 0.0 ==> score == 0.0
    ensures committersScore == 1.0 ==> score == gini
  {
    gini * committersScore
  }

  /** A non-negative product of the two scores is at most each factor that the
      other factor, being at most 1, scales down. */
  lemma GiniCommittersBounds(gini: real, committersScore: real)
    ensures 0.0 <= gini && 0.0 <= committersScore ==> 0.0 <= GiniCommittersScore(gini, committersScore)
    ensures 0.0 <= committersScore && gini <= 1.0 ==> GiniCommittersScore(gini, committersScore) <= committersScore
    ensures 0.0 <= gini && committersScore <= 1.0 ==> GiniCommittersScore(gini, committersScore) <= gini
  {
    ProductBounds(gini, committersScore);
    assert GiniCommittersScore(gini, committersScore) == gini * committersScore;
  }

  lemma MulNonNegative(a: real, b: real)
    requires 0.0 <= a && 0.0 <= b
    ensures 0.0 <= a * b
  {
  }

  lemma MulAtMostOne(a: real, b: real)
    requires 0.0 <= b && a <= 1.0
    ensures a * b <= b
  {
    MulNonNegative(1.0 - a, b);
    assert (1.0 - a) * b == b - a * b;
  }

  lemma ProductBounds(a: real, b: real)
    ensures 0.0 <= a && 0.0 <= b ==> 0.0 <= a * b
    ensures 0.0 <= b && a <= 1.0 ==> a * b <= b
    ensures 0.0 <= a && b <= 1.0 ==> a * b <= a
  {
    if 0.0 <= a && 0.0 <= b {
      MulNonNegative(a, b);
    }
    if 0.0 <= b && a <= 1.0 {
      MulAtMostOne(a, b);
    }
    if 0.0 <= a && b <= 1.0 {
      MulAtMostOne(b, a);
      assert b * a == a * b;
    }
  }

  /** With both factors in [0, 1] the product is too. */
  lemma GiniCommittersInUnitRange(gini: real, committersScore: real)
    requires 0.0 <= gini <= 1.0 && 0.0 <= committersScore <= 1.0
    ensures 0.0 <= GiniCommittersScore(gini, committersScore) <= 1.0
  {
    GiniCommittersBounds(gini, committersScore);
  }

  /** A column divided by a fixed maximum. */
  function NormalizeWithMax(series: seq<real>, maxValue: real): (r: seq<real>)
    requires maxValue != 0.0
    ensures |r| == |series|
    ensures forall i :: 0 <= i < |r| ==> r[i] * maxValue == series[i]
  {
    seq(|series|, i requires 0 <= i < |series| => series[i] / maxValue)
  }

  /** The divisor applied to the message score. */
  const AverageScoreMax := 7.0

  /** The per-commit average lies in [1, 3], so after division by 7 the message
      score lies in [1/7, 3/7] and never reaches 1. */
  lemma NormalizedAverageScoreRange(series: seq<real>)
    requires forall i :: 0 <= i < |series| ==> 1.0 <= series[i] <= 3.0
    ensures forall i :: 0 <= i < |series| ==>
      1.0 / 7.0 <= NormalizeWithMax(series, AverageScoreMax)[i] <= 3.0 / 7.0
  {
    var r := NormalizeWithMax(series, AverageScoreMax);
    forall i | 0 <= i < |series|
      ensures 1.0 / 7.0 <= r[i] <= 3.0 / 7.0
    {
      assert r[i] * 7.0 == series[i];
    }
  }

  // ---------------------------------------------------------------------------
  // One repository

  /** The analysis record written for one repository. */
  datatype AnalysisRecord = AnalysisRecord(
    projectName: string,
    durationText: string,
    gini: real,
    contributors: nat,
    commitsPerDay: real,
    commitsPerWeek: real,
    commitsPerMonth: real,
    percentageWithFiveOrMore: real,
    averageCommitSize: real,
    uniqueTimezones: nat,
    averageTitleLength: real,
    averageTitleEndsWithFullstop: real,
    averageTitleFirstCharacterCapital: real,
    averageScore: real)

  /** The seven sub-scores of one repository, in the order they are returned. */
  datatype RepositoryScores = RepositoryScores(
    gini: real,
    durationScore: real,
    commitsPerDayScore: real,
    averageScore: real,
    committersScore: real,
    commitSizeScore: real,
    giniCommittersScore: real)

  /** Scores one analysis record. The Gini index and the message average pass
      through unchanged; the duration, cadence, committer and commit-size scores
      are the bands of their threshold tables over the record's figures (the
      duration over its total years), and the last score is the Gini index times
      the committer band. */
  function CalculateScores(record: AnalysisRecord): (s: RepositoryScores)
    ensures s.gini == record.gini && s.averageScore == record.averageScore
    ensures s.durationScore == Band(DurationTable, AtLeast, 0.0, TotalYears(record.durationText))
    ensures s.commitsPerDayScore == Band(CommitsPerDayTable, Above, 0.0, record.commitsPerDay)
    ensures s.committersScore == Band(CommittersTable, AtLeast, 0.0, record.contributors as real)
    ensures s.commitSizeScore == Band(CommitSizeTable, AtLeast, 0.0, record.averageCommitSize)
    ensures s.giniCommittersScore == GiniCommittersScore(record.gini, s.committersScore)
    ensures IsLevel(s.durationScore) && IsLevel(s.commitsPerDayScore)
    ensures IsLevel(s.committersScore) && IsLevel(s.commitSizeScore)
    ensures s.committersScore == 0.0 ==> s.giniCommittersScore == 0.0
    ensures 0.0 <= record.gini <= 1.0 ==> 0.0 <= s.giniCommittersScore <= record.gini
  {
    var committers := CommittersScore(record.contributors);
    var giniCommitters := GiniCommittersScore(record.gini, committers);
    GiniCommittersBounds(record.gini, committers);
    YearsBandIsBand(TotalYears(record.durationText));
    CommitsPerDayIsBand(record.commitsPerDay);
    CommittersIsBand(record.contributors);
    CommitSizeIsBand(record.averageCommitSize);
    RepositoryScores(
      record.gini,
      ProjectDurationScore(record.durationText),
      CommitsPerDayScore(record.commitsPerDay),
      record.averageScore,
      committers,
      CommitSizeScore(record.averageCommitSize),
      giniCommitters)
  }
}
