/** The overall quality score of one repository and of a whole scores table. */
module Quality {
  import opened Results
  import opened Scoring
  import opened Weighting

  /** One repository's row after the message score is divided by 7. */
  function NormalizedRow(s: RepositoryScores): (row: Row)
    ensures row.Keys == ScoresRow(s).Keys
    ensures AverageScoreColumn in row && row[AverageScoreColumn] * AverageScoreMax == s.averageScore
    ensures forall k :: k in row && k != AverageScoreColumn ==> row[k] == ScoresRow(s)[k]
  {
    var row := ScoresRow(s);
    PositionalColumn(s, 3);
    assert Columns[1..][3] == AverageScoreColumn;
    row[AverageScoreColumn := NormalizeWithMax([row[AverageScoreColumn]], AverageScoreMax)[0]]
  }

  /** The overall quality score of one repository: its row is normalized, the
      weighted copies are added and summed. */
  function QualityScore(s: RepositoryScores): Result<real, string> {
    var row := NormalizedRow(s);
    var weighted :- CalculateWeightedScores(row, Columns, Weights);
    OverallQualityScore(weighted, Weights)
  }

  /** The overall score written out as the weighted sum of the five sub-scores. */
  function WeightedSum(s: RepositoryScores): real {
    0.2 * s.durationScore + 0.2 * s.commitsPerDayScore + 0.1 * (s.averageScore / AverageScoreMax)
      + 0.1 * s.commitSizeScore + 0.4 * s.giniCommittersScore
  }

  lemma NormalizedRowHasScoreColumns(s: RepositoryScores)
    ensures forall c :: c in Columns[1..] ==> c in NormalizedRow(s)
  {
  }

  /** The weighted copies of one repository's row. */
  lemma WeightedRowValues(s: RepositoryScores)
    ensures CalculateWeightedScores(NormalizedRow(s), Columns, Weights).Success?
    ensures var w := CalculateWeightedScores(NormalizedRow(s), Columns, Weights).value;
      && Weighted(ProjectDurationScoreColumn) in w && w[Weighted(ProjectDurationScoreColumn)] == s.durationScore * 0.2
      && Weighted(NormalizedCommitsPerDay) in w && w[Weighted(NormalizedCommitsPerDay)] == s.commitsPerDayScore * 0.2
      && Weighted(AverageScoreColumn) in w && w[Weighted(AverageScoreColumn)] == (s.averageScore / AverageScoreMax) * 0.1
      && Weighted(AverageCommitSize) in w && w[Weighted(AverageCommitSize)] == s.commitSizeScore * 0.1
      && Weighted(GiniCommittersScoreColumn) in w && w[Weighted(GiniCommittersScoreColumn)] == s.giniCommittersScore * 0.4
  {
    var row := NormalizedRow(s);
    var names := Columns[1..];
    ScoreColumnsIndependent();
    NormalizedRowHasScoreColumns(s);
    AddWeightedSucceeds(row, names, Weights);
    WeightTableColumns();
    PositionalColumns(s);
    assert names[1] == ProjectDurationScoreColumn && names[2] == NormalizedCommitsPerDay;
    assert names[3] == AverageScoreColumn && names[5] == AverageCommitSize && names[6] == GiniCommittersScoreColumn;
    AddWeightedValues(row, names, Weights, ProjectDurationScoreColumn);
    AddWeightedValues(row, names, Weights, NormalizedCommitsPerDay);
    AddWeightedValues(row, names, Weights, AverageScoreColumn);
    AddWeightedValues(row, names, Weights, AverageCommitSize);
    AddWeightedValues(row, names, Weights, GiniCommittersScoreColumn);
  }

  /** Summing the weighted copies of the weight table's columns. */
  lemma OverallOfWeightTable(w: Row)
    requires Weighted(ProjectDurationScoreColumn) in w && Weighted(NormalizedCommitsPerDay) in w
    requires Weighted(AverageScoreColumn) in w && Weighted(AverageCommitSize) in w
    requires Weighted(GiniCommittersScoreColumn) in w
    ensures OverallQualityScore(w, Weights) == Success(
      w[Weighted(ProjectDurationScoreColumn)] + w[Weighted(NormalizedCommitsPerDay)]
      + w[Weighted(AverageScoreColumn)] + w[Weighted(AverageCommitSize)]
      + w[Weighted(GiniCommittersScoreColumn)])
  {
    var x1, x2, x3 := w[Weighted(ProjectDurationScoreColumn)], w[Weighted(NormalizedCommitsPerDay)], w[Weighted(AverageScoreColumn)];
    var x4, x5 := w[Weighted(AverageCommitSize)], w[Weighted(GiniCommittersScoreColumn)];
    assert OverallQualityScore(w, Weights[4..]) == Success(x5) by {
      assert Weights[4..][1..] == [];
    }
    assert OverallQualityScore(w, Weights[3..]) == Success(x4 + x5) by {
      assert Weights[3..][1..] == Weights[4..];
    }
    assert OverallQualityScore(w, Weights[2..]) == Success(x3 + (x4 + x5)) by {
      assert Weights[2..][1..] == Weights[3..];
    }
    assert OverallQualityScore(w, Weights[1..]) == Success(x2 + (x3 + (x4 + x5))) by {
      assert Weights[1..][1..] == Weights[2..];
    }
  }

  lemma QualityScoreOfWeightedRow(s: RepositoryScores)
    requires CalculateWeightedScores(NormalizedRow(s), Columns, Weights).Success?
    ensures QualityScore(s) ==
      OverallQualityScore(CalculateWeightedScores(NormalizedRow(s), Columns, Weights).value, Weights)
  {
  }

  /** The overall score of a row whose weighted copies hold the weighted sub-scores. */
  lemma OverallOfWeightedCopies(s: RepositoryScores, w: Row)
    requires Weighted(ProjectDurationScoreColumn) in w && w[Weighted(ProjectDurationScoreColumn)] == s.durationScore * 0.2
    requires Weighted(NormalizedCommitsPerDay) in w && w[Weighted(NormalizedCommitsPerDay)] == s.commitsPerDayScore * 0.2
    requires Weighted(AverageScoreColumn) in w && w[Weighted(AverageScoreColumn)] == (s.averageScore / AverageScoreMax) * 0.1
    requires Weighted(AverageCommitSize) in w && w[Weighted(AverageCommitSize)] == s.commitSizeScore * 0.1
    requires Weighted(GiniCommittersScoreColumn) in w && w[Weighted(GiniCommittersScoreColumn)] == s.giniCommittersScore * 0.4
    ensures OverallQualityScore(w, Weights) == Success(WeightedSum(s))
  {
    var x1, x2, x3 := w[Weighted(ProjectDurationScoreColumn)], w[Weighted(NormalizedCommitsPerDay)], w[Weighted(AverageScoreColumn)];
    var x4, x5 := w[Weighted(AverageCommitSize)], w[Weighted(GiniCommittersScoreColumn)];
    OverallOfWeightTable(w);
    SumOfFive(s, x1, x2, x3, x4, x5);
  }

  /** The overall score is the weighted sum of the duration, cadence, message,
      commit-size and Gini-committers scores, the message score divided by 7. */
  lemma QualityScoreIsWeightedSum(s: RepositoryScores)
    ensures QualityScore(s) == Success(WeightedSum(s))
  {
    WeightedRowValues(s);
    var w := CalculateWeightedScores(NormalizedRow(s), Columns, Weights).value;
    QualityScoreOfWeightedRow(s);
    OverallOfWeightedCopies(s, w);
  }

  lemma SumOfFive(s: RepositoryScores, x1: real, x2: real, x3: real, x4: real, x5: real)
    requires x1 == s.durationScore * 0.2 && x2 == s.commitsPerDayScore * 0.2
    requires x3 == (s.averageScore / AverageScoreMax) * 0.1
    requires x4 == s.commitSizeScore * 0.1 && x5 == s.giniCommittersScore * 0.4
    ensures x1 + x2 + x3 + x4 + x5 == WeightedSum(s)
  {
  }

  /** With every sub-score in [0, 1] and the message average in [1, 3], the overall
      score lies in [0, 1]; since the message part never exceeds 3/7 of its weight,
      it stays below 0.9 + 0.3/7, so it never reaches 1. */
  lemma QualityScoreRange(s: RepositoryScores)
    requires 0.0 <= s.durationScore <= 1.0 && 0.0 <= s.commitsPerDayScore <= 1.0
    requires 0.0 <= s.commitSizeScore <= 1.0 && 0.0 <= s.giniCommittersScore <= 1.0
    requires 1.0 <= s.averageScore <= 3.0
    ensures QualityScore(s).Success?
    ensures 0.0 <= QualityScore(s).value <= 0.9 + 0.3 / 7.0
    ensures QualityScore(s).value < 1.0
  {
    QualityScoreIsWeightedSum(s);
    NormalizedAverageScoreRange([s.averageScore]);
  }

  /** Scoring an analysis record: the overall score of a record whose Gini index
      lies in [0, 1] and whose message average lies in [1, 3] exists and lies in [0, 1). */
  lemma RecordQualityRange(record: AnalysisRecord)
    requires 0.0 <= record.gini <= 1.0
    requires 1.0 <= record.averageScore <= 3.0
    ensures QualityScore(CalculateScores(record)).Success?
    ensures 0.0 <= QualityScore(CalculateScores(record)).value < 1.0
  {
    var s := CalculateScores(record);
    assert 0.0 <= s.giniCommittersScore <= 1.0;
    QualityScoreRange(s);
  }

  /** The overall score of every repository of the table, in order. */
  method ScoreTable(all: seq<RepositoryScores>) returns (overall: seq<real>)
    ensures |overall| == |all|
    ensures forall i :: 0 <= i < |all| ==> QualityScore(all[i]) == Success(overall[i])
    ensures forall i :: 0 <= i < |all| ==> overall[i] == WeightedSum(all[i])
  {
    overall := [];
    for i := 0 to |all|
      invariant |overall| == i
      invariant forall j :: 0 <= j < i ==> overall[j] == WeightedSum(all[j])
    {
      QualityScoreIsWeightedSum(all[i]);
      var score := QualityScore(all[i]);
      overall := overall + [score.value];
    }
    forall i | 0 <= i < |all|
      ensures QualityScore(all[i]) == Success(overall[i])
    {
      QualityScoreIsWeightedSum(all[i]);
    }
  }
}
