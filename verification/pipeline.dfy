/** From one repository's commit log to its analysis record and on to its overall
    quality score. */
module Pipeline {
  import opened GiniIndex
  import opened Messages
  import opened Activity
  import opened Duration
  import opened Scoring
  import opened Quality
  import opened Results

  /** What the analysis reads from one repository's commits: the number of commits
      of each distinct author, every commit message, the whole-day span between the
      first and last author date, the calendar difference between them in whole
      years and months, the mean commit size and the number of distinct timezones. */
  datatype CommitLog = CommitLog(
    authorCounts: seq<nat>,
    messages: seq<string>,
    spanDays: nat,
    years: nat,
    months: nat,
    averageCommitSize: real,
    uniqueTimezones: nat)

  lemma GiniInUnitRange(counts: seq<nat>)
    ensures 0.0 <= Gini(counts) <= 1.0
  {
    if !AllZero(counts) {
      GiniRange(counts);
    }
  }

  /** The analysis record of one repository. The program computes the message
      averages and the share of active authors only for a non-empty log. */
  function Analyze(name: string, log: CommitLog): (r: AnalysisRecord)
    requires |log.messages| > 0 && |log.authorCounts| > 0
    ensures r.projectName == name
    ensures r.durationText == DurationText(log.years, log.months)
    ensures r.gini == Gini(log.authorCounts)
    ensures r.contributors == |log.authorCounts|
    ensures r.commitsPerDay == (|log.messages| as real) / (EffectiveDays(log.spanDays) as real)
    ensures r.percentageWithFiveOrMore ==
      (CountAtLeast(log.authorCounts, ActiveThreshold) as real) / (|log.authorCounts| as real) * 100.0
    ensures r.averageCommitSize == log.averageCommitSize && r.uniqueTimezones == log.uniqueTimezones
    ensures r.averageTitleLength == SumLength(log.messages) / |log.messages| as real
    ensures r.averageTitleEndsWithFullstop == SumDots(log.messages) / |log.messages| as real
    ensures r.averageTitleFirstCharacterCapital == SumCapital(log.messages) / |log.messages| as real
    ensures r.averageScore == SumAverage(log.messages) / |log.messages| as real
    ensures 0.0 <= r.gini <= 1.0
    ensures 1.0 <= r.averageScore <= 3.0
    ensures 0.0 <= r.percentageWithFiveOrMore <= 100.0
    ensures r.commitsPerWeek == 7.0 * r.commitsPerDay && r.commitsPerMonth == 30.0 * r.commitsPerDay
  {
    GiniInUnitRange(log.authorCounts);
    var frequency := CommitFrequency(|log.messages|, log.spanDays);
    var averages := AverageScores(log.messages);
    AnalysisRecord(
      name,
      DurationText(log.years, log.months),
      Gini(log.authorCounts),
      |log.authorCounts|,
      frequency.perDay,
      frequency.perWeek,
      frequency.perMonth,
      PercentageWithFiveOrMoreCommits(log.authorCounts),
      log.averageCommitSize,
      log.uniqueTimezones,
      averages.lengthOfTitle,
      averages.endsWithDots,
      averages.firstCharacterCapital,
      averages.average)
  }

  /** The five scores of an analysed repository that enter its overall score, each
      written out from its commit log. */
  lemma ScoresOfLog(name: string, log: CommitLog)
    requires |log.messages| > 0 && |log.authorCounts| > 0
    ensures CalculateScores(Analyze(name, log)).durationScore ==
      YearsBand(log.years as real + log.months as real / 12.0)
    ensures CalculateScores(Analyze(name, log)).commitsPerDayScore ==
      CommitsPerDayScore(CommitFrequency(|log.messages|, log.spanDays).perDay)
    ensures CalculateScores(Analyze(name, log)).averageScore == AverageScores(log.messages).average
    ensures CalculateScores(Analyze(name, log)).commitSizeScore == CommitSizeScore(log.averageCommitSize)
    ensures CalculateScores(Analyze(name, log)).committersScore == CommittersScore(|log.authorCounts|)
    ensures CalculateScores(Analyze(name, log)).giniCommittersScore ==
      GiniCommittersScore(Gini(log.authorCounts), CommittersScore(|log.authorCounts|))
  {
    DurationScoreOfDurationText(log.years, log.months);
  }

  /** The weighted sum of an analysed repository's scores, written out from its
      commit log: 0.2 times the band of its age in years, 0.2 times the band of its
      commits per day, 0.1 times its mean message score over 7, 0.1 times the band
      of its mean commit size and 0.4 times its Gini index weighted by the band of
      its number of distinct authors. */
  lemma AnalysedWeightedSum(name: string, log: CommitLog)
    requires |log.messages| > 0 && |log.authorCounts| > 0
    ensures WeightedSum(CalculateScores(Analyze(name, log))) ==
      0.2 * YearsBand(log.years as real + log.months as real / 12.0)
      + 0.2 * CommitsPerDayScore(CommitFrequency(|log.messages|, log.spanDays).perDay)
      + 0.1 * (AverageScores(log.messages).average / AverageScoreMax)
      + 0.1 * CommitSizeScore(log.averageCommitSize)
      + 0.4 * GiniCommittersScore(Gini(log.authorCounts), CommittersScore(|log.authorCounts|))
  {
    var scores := CalculateScores(Analyze(name, log));
    ScoresOfLog(name, log);
    WeightedSumOfParts(scores,
      YearsBand(log.years as real + log.months as real / 12.0),
      CommitsPerDayScore(CommitFrequency(|log.messages|, log.spanDays).perDay),
      AverageScores(log.messages).average,
      CommitSizeScore(log.averageCommitSize),
      GiniCommittersScore(Gini(log.authorCounts), CommittersScore(|log.authorCounts|)));
  }

  lemma WeightedSumOfParts(s: RepositoryScores, duration: real, cadence: real, message: real, size: real, giniCommitters: real)
    requires s.durationScore == duration && s.commitsPerDayScore == cadence
    requires s.averageScore == message && s.commitSizeScore == size
    requires s.giniCommittersScore == giniCommitters
    ensures WeightedSum(s) ==
      0.2 * duration + 0.2 * cadence + 0.1 * (message / AverageScoreMax) + 0.1 * size + 0.4 * giniCommitters
  {
  }

  /** The overall score of an analysed repository is that weighted sum. */
  lemma AnalysedRepositoryScore(name: string, log: CommitLog)
    requires |log.messages| > 0 && |log.authorCounts| > 0
    ensures QualityScore(CalculateScores(Analyze(name, log))) ==
      Success(WeightedSum(CalculateScores(Analyze(name, log))))
    ensures WeightedSum(CalculateScores(Analyze(name, log))) ==
      0.2 * YearsBand(log.years as real + log.months as real / 12.0)
      + 0.2 * CommitsPerDayScore(CommitFrequency(|log.messages|, log.spanDays).perDay)
      + 0.1 * (AverageScores(log.messages).average / AverageScoreMax)
      + 0.1 * CommitSizeScore(log.averageCommitSize)
      + 0.4 * GiniCommittersScore(Gini(log.authorCounts), CommittersScore(|log.authorCounts|))
  {
    QualityScoreIsWeightedSum(CalculateScores(Analyze(name, log)));
    AnalysedWeightedSum(name, log);
  }

  /** Every analysed repository gets an overall score in [0, 1). */
  lemma AnalysedRepositoryScoreRange(name: string, log: CommitLog)
    requires |log.messages| > 0 && |log.authorCounts| > 0
    ensures QualityScore(CalculateScores(Analyze(name, log))).Success?
    ensures 0.0 <= QualityScore(CalculateScores(Analyze(name, log))).value < 1.0
  {
    RecordQualityRange(Analyze(name, log));
  }
}
