# GitHub contribution analysis: the metrics and scoring engine

This project models the engine of a tool that mines a repository's commit history and rates it. The tool has two stages.

The first stage turns one repository's commits into an analysis record:
- a score for every commit title: its length band, a trailing full stop and an initial capital, then the three averaged;
- an inverted Gini index over per-author commit counts, where 1 means everyone committed equally;
- commits per day, week and month;
- the share of authors with at least five commits;
- the project duration, written as `"<Y> years and <M> months"`;
- a folder name taken from the GitHub URL.

The second stage turns that record into an overall quality score:
- it bands the duration, the cadence, the number of committers and the mean commit size into the levels 0, 0.25, 0.5, 0.75 and 1;
- it multiplies the Gini index by the committer band;
- it divides the message score by 7;
- it adds up the weighted copies of five columns.

A third part cleans file extensions and counts them across commits.

Modules follow the program's files:

| module | file | models |
|---|---|---|
| `Results` | results.dfy | `Option` and `Result` |
| `Text` | text.dfy | character classes, `str.split`, `str.split()`, `str.lower`, decimal digits |
| `Messages` | messages.dfy | title scores and their per-repository means (mining.py) |
| `GiniIndex` | gini.dfy | the equality metric with its sort and cumulative sums (mining.py) |
| `Activity` | activity.dfy | cadence and the share of active authors (mining.py) |
| `GithubName` | github.dfy | the folder name of a repository URL (mining.py) |
| `Duration` | duration.dfy | the duration text and the regular-expression reading of it back (mining.py, score.py) |
| `Bands` | bands.dfy | step tables in general |
| `Scoring` | scoring.dfy | the per-repository sub-scores (score.py) |
| `Weighting` | weighting.dfy | the columns, the weight table, the weighted copies and the overall score (score.py) |
| `Quality` | quality.dfy | one repository's overall score and the scores table (score.py) |
| `Extensions` | extensions.dfy | `clean_extension`, `os.path.splitext` and the extension counter (analysis.py) |
| `Pipeline` | pipeline.dfy | one repository from commit log to overall score |

Numbers are exact reals. Whatever the program gets from a library is a parameter here: the whole-day span between the first and last commit, the calendar years and months between them, the mean commit size and the timezone count.

For the counts [8, 2] the equality metric is 1 − (2/2)·((1/2 − 2/10) + (1 − 1)) = 0.7, which `GiniIndex.GiniOfEightAndTwo` proves.

## Model

| member | source | states |
|---|---|---|
| GithubName.IndexOf | mining.py:29 | `list.index`: nothing exactly when the segment is absent; otherwise the position of its first occurrence |
| GithubName.ExtractGithubName | mining.py:26-32 | Only the first `github.com` segment counts. If two segments follow it, the name is `owner-repo`; otherwise, or when there is no such segment, it is the fixed invalid string |
| GithubName.NameOfRepositoryUrl | mining.py:26-32 | `https://github.com/<owner>/<repo>` names the folder `<owner>-<repo>` |
| GithubName.RejectsOtherHosts | mining.py:28-32 | A URL with another host gives the invalid string, even when owner or repository is called `github.com` |
| Messages.Title | mining.py:149 | The title is a prefix of the message with no line break, and it ends where the first line break is |
| Messages.LengthOfTitleScore | mining.py:132-138 | The score is in 1..5; it is 1 iff the title is empty or longer than 72; it is 5 iff the length is 51..72 |
| Messages.LengthScoreBands | mining.py:134-137 | The score is 2 iff the length is 1..10, 3 iff it is 11..30, 4 iff it is 31..50 |
| Messages.LengthScoreBreakpoints | mining.py:134-138 | Each band includes its upper length: 10 → 2, 11 → 3, 30 → 3, 31 → 4, 50 → 4, 51 → 5, 72 → 5, 73 → 1 |
| Messages.LengthScoreMonotoneUpToLimit | mining.py:134-138 | Between 1 and 72 characters, a longer title never scores lower |
| Messages.TitleEndsWithDots | mining.py:140-141 | 1 or 2; 2 iff the title ends with `.` |
| Messages.TitleFirstCharacterCapital | mining.py:143-144 | 1 or 2; 2 iff the title is non-empty and starts upper-case |
| Messages.CalculateCommitScores | mining.py:147-162 | The three scores are those of the title, and 3 × the average is their sum, so the average is in [1, 3] |
| Messages.EmptyMessageScores | mining.py:147-162 | An empty message scores 1, 1, 1 with average exactly 1 |
| Messages.ScoresIgnoreBody | mining.py:149 | Text after the first line break changes neither the title nor any score |
| Messages.ColumnSums | mining.py:274-276 | Each score column's total over the commits lies within that score's bounds times the number of commits; the averages column totals a third of the other three |
| Messages.AverageScores | mining.py:274-276 | Each mean is its column's total over the commits divided by their number; the title-length mean is in [1, 5], the full-stop and capital means in [1, 2], the mean average in [1, 3] and a third of the three means |
| GiniIndex.Insert | mining.py:172 | Inserting into an ascending sequence keeps it ascending and adds exactly the new element |
| GiniIndex.Sort | mining.py:172 | `np.sort`: an ascending permutation of the counts |
| GiniIndex.SortedUnique | mining.py:172 | Two ascending sequences with the same elements are equal, so the sorted order is unique |
| GiniIndex.CumSumRecurrence | mining.py:173 | `np.cumsum`: the first entry is the first count, each next entry adds the next count, the entries never decrease, and the last is the total |
| GiniIndex.LorenzBelowDiagonal | mining.py:172-178 | The first k of n sorted counts hold at most k/n of the total |
| GiniIndex.GapScaling | mining.py:174-178 | The sum of the `cum_pop - cum_prop` gaps equals the integer scaled gap divided by n × total |
| GiniIndex.GiniOfNoCommits | mining.py:169-170 | No authors, or only zero counts, give 0.0 |
| GiniIndex.GiniRange | mining.py:172-178 | With a positive count the metric lies in [1/n, 1], so in (0, 1] |
| GiniIndex.GiniOfEqualCounts | mining.py:172-178 | Equal positive counts give exactly 1 |
| GiniIndex.GiniOrderIndependent | mining.py:172 | Counts with the same elements in any order give the same metric |
| GiniIndex.GiniOfEightAndTwo | mining.py:166-179 | The counts [8, 2] give 0.7 |
| Activity.EffectiveDays | mining.py:192-193 | A span of 0 days counts as 1; any other span is kept |
| Activity.CommitFrequency | mining.py:183-201 | per day × days = commits; per week = 7 × per day; per month = 30 × per day; all non-negative |
| Activity.SameDayCadence | mining.py:190-195 | Commits within one day are measured over one day: per day equals the commit count |
| Activity.CadenceMonotoneInCommits | mining.py:195 | More commits over the same span never lower the per-day cadence |
| Activity.CountAtLeast | mining.py:205-206 | It equals all authors iff every author has at least k commits, and is 0 iff none does |
| Activity.CountAtLeastIsCardinality | mining.py:205-206 | The count is the size of the set of authors with at least k commits |
| Activity.PercentageWithFiveOrMoreCommits | mining.py:204-208 | The number of authors with at least 5 commits, divided by the number of authors, times 100; in [0, 100]; 100 iff every author has at least 5 commits; 0 iff none has |
| Duration.Search | score.py:43-44 | `re.search`: the leftmost start of a match of `(\d+)\s+<word>`, or none when nothing matches |
| Duration.NumberBefore | score.py:46-47 | Text with no match reads as 0 |
| Duration.DurationTextRoundTrip | mining.py:286 | Reading the year and month numbers back out of the written duration recovers Y and M |
| Duration.TotalYearsOfDurationText | score.py:41-49 | The written duration reads back as Y + M/12 years |
| Duration.YearsOnlyText | score.py:43-49 | `"<Y> years"` with no month part reads as Y years |
| Duration.MonthsOnlyText | score.py:43-49 | `"<M> months"` with no year part reads as M/12 years |
| Duration.TotalYearsWithoutNumbers | score.py:46-49 | Text without digits reads as 0 years |
| Bands.Band | score.py:13-23 | A table read from the top gives the level of the first row passed, or the floor if none is passed |
| Bands.BandBetween | score.py:13-72 | In a descending table every band lies between the floor and the top level |
| Bands.BandMonotone | score.py:13-72 | A descending table is a non-decreasing step function, for strict and inclusive thresholds alike |
| Scoring.CommitsPerDayScore | score.py:13-23 | Output is one of the five levels; 1 iff the input exceeds 1; 0 iff it is at most 0.25 |
| Scoring.CommitsPerDayIsBand | score.py:13-23 | The cascade equals the strict table 1/0.75/0.5/0.25 |
| Scoring.CommitsPerDayMonotone | score.py:13-23 | More commits per day never lower the score |
| Scoring.CommitsPerDayBreakpoints | score.py:14-23 | Thresholds are exclusive: 1 → 0.75, 0.5 → 0.25, 0.25 → 0 |
| Scoring.CommittersScore | score.py:29-39 | Output is one of the five levels; 1 iff at least 100 committers; 0 iff fewer than 10 |
| Scoring.CommittersIsBand | score.py:29-39 | The cascade equals the inclusive table 100/50/25/10 |
| Scoring.CommittersMonotone | score.py:29-39 | More committers never lower the score |
| Scoring.CommittersBreakpoints | score.py:30-39 | Thresholds are inclusive: 100 → 1, 99 → 0.75, 10 → 0.25, 9 → 0 |
| Scoring.CommitSizeScore | score.py:62-72 | Output is one of the five levels; 1 iff the mean size is at least 100; 0 iff it is below 25 |
| Scoring.CommitSizeIsBand | score.py:62-72 | The cascade equals the inclusive table 100/75/50/25 |
| Scoring.CommitSizeMonotone | score.py:62-72 | Larger commits never lower the score |
| Scoring.CommitSizeBreakpoints | score.py:63-72 | 100 → 1, 99 → 0.75, 25 → 0.25, 24 → 0 |
| Scoring.YearsBand | score.py:51-60 | Output is one of the five levels; 0 iff under one year; 1 iff at least four years |
| Scoring.YearsBandIsBand | score.py:51-60 | The upward cascade of strict upper bounds equals the downward inclusive table 4/3/2/1 |
| Scoring.YearsBandMonotone | score.py:51-60 | A longer project never scores lower |
| Scoring.ProjectDurationScore | score.py:41-60 | The duration score is one of the five levels |
| Scoring.DurationScoreOfDurationText | score.py:41-60 | A written duration scores as the band of Y + M/12 |
| Scoring.DurationScoreIgnoresMonths | score.py:49-60 | With fewer than 12 months the months never change the score |
| Scoring.DurationScoreOfPartialText | score.py:43-60 | A text with only years, or only months, counts the missing part as 0 |
| Scoring.GiniCommittersScore | score.py:25-26 | A zero factor gives 0, and a committer band of 1 leaves the Gini index unchanged |
| Scoring.GiniCommittersBounds | score.py:25-26 | The product is non-negative for non-negative factors and is at most either factor when the other is at most 1 |
| Scoring.GiniCommittersInUnitRange | score.py:25-26 | Both factors in [0, 1] give a product in [0, 1] |
| Scoring.NormalizeWithMax | score.py:10-11 | The result has the same length, and each entry times the divisor is the original entry |
| Scoring.NormalizedAverageScoreRange | score.py:172 | A message average in [1, 3], divided by 7, lies in [1/7, 3/7] |
| Scoring.CalculateScores | score.py:95-120 | Gini and message average pass through. The duration score is the inclusive 4/3/2/1 table over the years read from the text, the cadence score the strict 1/0.75/0.5/0.25 table over commits per day, the committer score the inclusive 100/50/25/10 table over the contributors, the size score the inclusive 100/75/50/25 table over the mean commit size. The last score is the Gini index times the committer band, between 0 and the index when the index is in [0, 1] |
| Weighting.WeightsSumToOne | score.py:149-155 | The weights 0.2, 0.2, 0.1, 0.1, 0.4 add up to 1 |
| Weighting.Lookup | score.py:76-78 | `column in weights` and `weights[column]`: absent iff no entry names the column |
| Weighting.AddWeighted | score.py:74-79 | Only a weighted column that is missing from the row can make it fail |
| Weighting.AddWeightedSucceeds | score.py:74-79 | Adding the weighted copies succeeds iff every weighted column is present |
| Weighting.AddWeightedKeys | score.py:74-79 | The new keys are exactly the weighted copies of the weighted columns; nothing is removed |
| Weighting.AddWeightedKeepsColumns | score.py:74-79 | Every column other than a weighted copy keeps its value |
| Weighting.AddWeightedValues | score.py:76-78 | Each weighted copy is its column times the column's weight |
| Weighting.WeightedScoresOfRow | score.py:74-79 | Succeeds iff every weighted column after the first is in the row; the keys become the row's plus exactly the weighted copies of those columns; every other column keeps its value; the first column gets no weighted copy |
| Weighting.WeightedCopyOfRow | score.py:76-78 | Each weighted copy written for a row is its column times its weight |
| Weighting.WeightedInjective | score.py:77 | Different columns get different weighted names |
| Weighting.OverallQualityScore | score.py:82-85 | Succeeds iff every weighted copy of the table is present; on failure it names a missing column |
| Weighting.OverallWithinWeights | score.py:82-85 | When each weighted copy lies between 0 and its weight, the overall score lies between 0 and the weights' total |
| Weighting.ZipColumns | score.py:171 | The row's keys are exactly the column names |
| Weighting.ZipColumnsAt | score.py:171 | With distinct names, each name holds the value at its own position |
| Weighting.PositionalColumn | score.py:167-171 | The i-th returned value lands in column i + 1 |
| Weighting.PositionalColumns | score.py:120-147 | Columns are filled by position: each named column holds the matching returned score, e.g. `Total Committers` the committer score and `Average Commit Size` the commit-size score |
| Weighting.ScoreColumnsIndependent | score.py:147 | No column name is the weighted copy of another, so no column is overwritten before it is read |
| Weighting.WeightTableColumns | score.py:147-155 | Each of the five weighted columns gets its declared weight; `Folder Name`, `Gini Coefficient` and `Total Committers` get none |
| Weighting.WeightedColumnsOfScoresTable | score.py:147-155 | Exactly the five columns of the weight table get a weighted copy |
| Weighting.UnweightedColumnsOfScoresTable | score.py:147-155 | `Gini Coefficient`, `Total Committers` and `Folder Name` get no weighted copy |
| Quality.NormalizedRow | score.py:172 | The same columns, the message score times 7 is the original, and every other column is unchanged |
| Quality.WeightedRowValues | score.py:174 | Weighting a repository's row succeeds, and each of the five weighted copies is its sub-score times its weight |
| Quality.OverallOfWeightTable | score.py:82-85 | The overall score of a row is the sum of the five weighted copies |
| Quality.QualityScoreIsWeightedSum | score.py:171-175 | The overall score is 0.2·duration + 0.2·cadence + 0.1·(message/7) + 0.1·size + 0.4·gini-committers |
| Quality.QualityScoreRange | score.py:171-175 | With sub-scores in [0, 1] and a message average in [1, 3], the overall score is at most 0.9 + 0.3/7, so below 1 |
| Quality.RecordQualityRange | score.py:166-175 | Any analysis record with a Gini index in [0, 1] and a message average in [1, 3] scores in [0, 1) |
| Quality.ScoreTable | score.py:160-175 | One overall score per repository, in order, each the weighted sum of that repository's sub-scores |
| Extensions.CleanExtension | analysis.py:46-50 | No longer than its input; no whitespace; only word characters and dots; no upper case |
| Extensions.CleanExtensionKeepsWordCharsAndDots | analysis.py:48-50 | The result is the lower-cased word characters and dots of the input, in their order |
| Extensions.CleanExtensionFixesClean | analysis.py:46-50 | A string of lower-case word characters and dots is left unchanged |
| Extensions.CleanExtensionIdempotent | analysis.py:46-50 | Cleaning twice is cleaning once |
| Extensions.Extension | analysis.py:235 | `os.path.splitext(path)[1]`: empty, or a suffix of the path that starts with its only dot and has no `/` |
| Extensions.ExtensionOfName | analysis.py:235 | A name with a non-dot character before its last dot gets the text from that dot on |
| Extensions.HiddenFileHasNoExtension | analysis.py:235 | Leading dots followed by a dot-free name give no extension |
| Extensions.CellExtensionsSeparated | analysis.py:235 | A whitespace character splits a cell: its extensions are those of the text before it followed by those of the text after it |
| Extensions.CellExtensionsOfPaths | analysis.py:235 | Paths joined by spaces give one cleaned extension per path, in order |
| Extensions.TalliesStep | analysis.py:237-238 | Adding one extension keeps the counter exact, and `""` and `"."` are skipped |
| Extensions.TallyCell | analysis.py:237-238 | After a cell, the counter holds exactly the counted extensions seen so far, each with its number of occurrences |
| Extensions.FileTypeCounts | analysis.py:231-238 | An extension is counted iff it is neither `""` nor `"."` and occurs. Its count is its number of occurrences over all cells |
| Text.Split | mining.py:27 | `str.split(sep)`: at least one part, no part holds the separator, and the first part is the prefix before the first separator |
| Text.SplitJoin | mining.py:27 | Splitting parts that were joined by the separator gives the parts back |
| Text.WordsCoverText | analysis.py:235 | `str.split()`: the words, put together, are the input without its whitespace |
| Text.WordsSeparated | analysis.py:235 | A whitespace character ends a word: the words of `a + c + b` are the words of `a` followed by those of `b` |
| Text.WordsOfWord | analysis.py:235 | A non-empty string without whitespace is one word |
| Text.WordsOfJoin | analysis.py:235 | Non-empty words without whitespace, joined by spaces, split back into the same words |
| Text.DigitsValueOfNatToString | mining.py:286 | The decimal digits written for a number read back as that number |
| Pipeline.GiniInUnitRange | mining.py:166-179 | The metric of any counts lies in [0, 1] |
| Pipeline.Analyze | mining.py:241-300 | The record holds the name, the duration text, the Gini index of the author counts and the number of authors. Commits per day are the commits over the effective days, and the active share is the count of authors with at least 5 commits over all authors, times 100. The four message averages are the column totals over the number of commits, and size and timezones pass through. The Gini index is in [0, 1], the message average in [1, 3] and the active share in [0, 100]. Weekly and monthly cadence are 7 and 30 times the daily |
| Pipeline.ScoresOfLog | score.py:95-120 | Each sub-score of an analysed repository is its band over the log's figures: the years and months, the daily cadence, the mean message score, the mean commit size and the number of authors |
| Pipeline.AnalysedWeightedSum | score.py:171-175 | The weighted sum of an analysed repository's scores, written out from its commit log |
| Pipeline.AnalysedRepositoryScore | score.py:171-175 | The overall score of an analysed repository is that weighted sum |
| Pipeline.AnalysedRepositoryScoreRange | score.py:166-175 | Every analysed repository gets an overall score in [0, 1) |

## Left out

- Repository traversal with pydriller, CSV reading and writing, and folder scanning: these are I/O.
- Plots: they only present results.
- Calendar arithmetic with `relativedelta` and date parsing with pandas. The whole-day span and the whole years and months are inputs of `Activity.CommitFrequency` and `Pipeline.Analyze`.
- Floating point, and the `.round(3)` of the overall score: the model uses exact reals and sums without rounding.
- Unicode: `str.isupper`, `\w` and `str.lower` are modelled on ASCII letters, digits and `_`. `\s` and `str.split()` use Python's whitespace characters.
- Text.IsDigit: only the ASCII digits 0-9. Python's `\d` and `int()` also accept other Unicode decimal digits, such as Arabic-Indic ones. The program only reads durations it wrote itself with ASCII digits.
- Extensions.Extension: models POSIX `posixpath.splitext` only, with `/` as the only separator. On Windows `ntpath` also splits at `\` and at a drive colon.
- GiniIndex.Gini: transfer monotonicity is not proved. Moving a commit from an author with more commits to one with fewer never lowers the metric. A proof has to relate the sorted orders before and after the transfer. Order independence, the range and the equal-counts value are proved.
- The `timezones` table and `most_common(5)` in `file_types`: the first is data and the second only picks what to plot. The counter itself is modelled.
- `value_counts` ordering: the metric sorts its input, and `GiniIndex.GiniOrderIndependent` shows that order never matters.
- The optional plural `s` in `(\d+)\s+years?` and `(\d+)\s+months?` is not part of the modelled pattern. The pattern ends at the `s`, so the `s` never decides whether or where a match starts, nor what is captured.
- Scoring.NormalizeWithMax: requires a non-zero divisor. The only divisor used is 7, and division of a float column by 0 (inf or NaN) is not modelled.
- Activity.PercentageWithFiveOrMoreCommits: requires at least one author, because the program divides by the author count without a guard.
- Messages.AverageScores: requires at least one commit message, because the mean of an empty column is NaN.
- Pipeline.Analyze: requires a non-empty commit log, for the two reasons above.
- Weighting.AddWeighted: a missing weighted column fails with that column's name, standing in for pandas' `KeyError`.
- Weighting.OverallQualityScore: fails with the first missing column, where pandas lists every missing column in one `KeyError`.
