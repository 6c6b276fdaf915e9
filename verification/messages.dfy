/** Commit-message heuristics: each commit title is scored on its length, a
    trailing full stop and an initial capital, and the three scores are averaged. */
module Messages {
  import opened Text

  /** Titles longer than this are penalised like empty ones. */
  const MaxTitleLength: nat := 72

  /** The title of a commit message: `message.split('\n', 1)[0]`. */
  function Title(message: string): (title: string)
    ensures '\n' !in title
    ensures title <= message
    ensures |title| < |message| ==> message[|title|] == '\n'
  {
    Split(message, '\n')[0]
  }

  /** The length band of a title: 1 for empty or over-long titles, otherwise
      2, 3, 4 or 5 as the length passes 10, 30 and 50 characters. */
  function LengthOfTitleScore(title: string): (score: nat)
    ensures 1 <= score <= 5
    ensures score == 1 <==> |title| == 0 || |title| > MaxTitleLength
    ensures score == 5 <==> 50 < |title| <= MaxTitleLength
  {
    var length := |title|;
    if length == 0 || length > MaxTitleLength then 1
    else if length <= 10 then 2
    else if length <= 30 then 3
    else if length <= 50 then 4
    else 5
  }

  /** The middle bands: 2 for 1 to 10 characters, 3 for 11 to 30, 4 for 31 to 50. */
  lemma LengthScoreBands(title: string)
    ensures LengthOfTitleScore(title) == 2 <==> 1 <= |title| <= 10
    ensures LengthOfTitleScore(title) == 3 <==> 11 <= |title| <= 30
    ensures LengthOfTitleScore(title) == 4 <==> 31 <= |title| <= 50
  {
  }

  /** 2 when the title ends with a full stop, else 1. */
  function TitleEndsWithDots(title: string): (score: nat)
    ensures score == 1 || score == 2
    ensures score == 2 <==> |title| > 0 && title[|title| - 1] == '.'
  {
    if |title| > 0 && title[|title| - 1] == '.' then 2 else 1
  }

  /** 2 when the title is non-empty and starts with an upper-case letter, else 1. */
  function TitleFirstCharacterCapital(title: string): (score: nat)
    ensures score == 1 || score == 2
    ensures score == 2 <==> |title| > 0 && IsUpper(title[0])
  {
    if |title| > 0 && IsUpper(title[0]) then 2 else 1
  }

  /** The three sub-scores of one commit message and their mean. */
  datatype CommitScores = CommitScores(
    lengthOfTitle: nat,
    endsWithDots: nat,
    firstCharacterCapital: nat,
    average: real)

  /** Scores the title of `message` three ways and averages the scores. */
  function CalculateCommitScores(message: string): (s: CommitScores)
    ensures s.lengthOfTitle == LengthOfTitleScore(Title(message))
    ensures s.endsWithDots == TitleEndsWithDots(Title(message))
    ensures s.firstCharacterCapital == TitleFirstCharacterCapital(Title(message))
    ensures 3.0 * s.average == (s.lengthOfTitle + s.endsWithDots + s.firstCharacterCapital) as real
    ensures 1.0 <= s.average <= 3.0
  {
    var title := Title(message);
    var length := LengthOfTitleScore(title);
    var dots := TitleEndsWithDots(title);
    var capital := TitleFirstCharacterCapital(title);
    CommitScores(length, dots, capital, (length + dots + capital) as real / 3.0)
  }

  /** Within the accepted length range a longer title never scores lower. */
  lemma LengthScoreMonotoneUpToLimit(a: string, b: string)
    requires 0 < |a| <= |b| <= MaxTitleLength
    ensures LengthOfTitleScore(a) <= LengthOfTitleScore(b)
  {
  }

  /** The band edges: each band includes its upper length (10, 30, 50, 72); one
      character more moves to the next band, and past 72 back to 1. */
  lemma LengthScoreBreakpoints(t: string)
    ensures |t| == 72 ==> LengthOfTitleScore(t) == 5
    ensures |t| == 73 ==> LengthOfTitleScore(t) == 1
    ensures |t| == 10 ==> LengthOfTitleScore(t) == 2
    ensures |t| == 11 ==> LengthOfTitleScore(t) == 3
    ensures |t| == 30 ==> LengthOfTitleScore(t) == 3
    ensures |t| == 31 ==> LengthOfTitleScore(t) == 4
    ensures |t| == 50 ==> LengthOfTitleScore(t) == 4
    ensures |t| == 51 ==> LengthOfTitleScore(t) == 5
  {
  }

  /** An empty message scores 1 on every heuristic and averages exactly 1. */
  lemma EmptyMessageScores()
    ensures CalculateCommitScores("") == CommitScores(1, 1, 1, 1.0)
  {
    assert Title("") == "";
  }

  /** The title only depends on the first line: text after the first line break
      never changes the scores. */
  lemma {:induction false} ScoresIgnoreBody(title: string, body: string)
    requires '\n' !in title
    ensures Title(title + "\n" + body) == title
    ensures CalculateCommitScores(title + "\n" + body) == CalculateCommitScores(title)
  {
    SplitField(title, body, '\n');
    SplitWithoutSeparator(title, '\n');
  }

  // ---------------------------------------------------------------------------
  // Per-repository averages (the mean of each score column over all commits)

  /** Mean of each score column over the commits of one repository. */
  datatype MessageAverages = MessageAverages(
    lengthOfTitle: real,
    endsWithDots: real,
    firstCharacterCapital: real,
    average: real)

  function SumLength(messages: seq<string>): real {
    if |messages| == 0 then 0.0
    else SumLength(messages[..|messages| - 1]) + CalculateCommitScores(messages[|messages| - 1]).lengthOfTitle as real
  }

  function SumDots(messages: seq<string>): real {
    if |messages| == 0 then 0.0
    else SumDots(messages[..|messages| - 1]) + CalculateCommitScores(messages[|messages| - 1]).endsWithDots as real
  }

  function SumCapital(messages: seq<string>): real {
    if |messages| == 0 then 0.0
    else SumCapital(messages[..|messages| - 1]) + CalculateCommitScores(messages[|messages| - 1]).firstCharacterCapital as real
  }

  function SumAverage(messages: seq<string>): real {
    if |messages| == 0 then 0.0
    else SumAverage(messages[..|messages| - 1]) + CalculateCommitScores(messages[|messages| - 1]).average
  }

  /** The column sums stay within the per-commit bounds times the number of commits,
      and the sum of the averages is a third of the sum of the three columns. */
  lemma {:induction false} ColumnSums(messages: seq<string>)
    ensures |messages| as real <= SumLength(messages) <= 5.0 * |messages| as real
    ensures |messages| as real <= SumDots(messages) <= 2.0 * |messages| as real
    ensures |messages| as real <= SumCapital(messages) <= 2.0 * |messages| as real
    ensures 3.0 * SumAverage(messages) == SumLength(messages) + SumDots(messages) + SumCapital(messages)
    decreases |messages|
  {
    if |messages| > 0 {
      ColumnSums(messages[..|messages| - 1]);
    }
  }

  lemma MeanBounds(total: real, n: real, lo: real, hi: real)
    requires n > 0.0
    ensures lo * n <= total <= hi * n ==> lo <= total / n <= hi
  {
  }

  lemma MeanOfSum(a: real, b: real, c: real, avg: real, n: real)
    requires n > 0.0
    ensures 3.0 * avg == a + b + c ==> 3.0 * (avg / n) == a / n + b / n + c / n
  {
  }

  /** The means of four column sums over `n` commits; the per-commit bounds and the
      three-to-one relation of the sums carry over to the means. */
  function Means(length: real, dots: real, capital: real, average: real, n: real): (a: MessageAverages)
    requires n > 0.0
    ensures a.lengthOfTitle == length / n && a.endsWithDots == dots / n
    ensures a.firstCharacterCapital == capital / n && a.average == average / n
    ensures n <= length <= 5.0 * n ==> 1.0 <= a.lengthOfTitle <= 5.0
    ensures n <= dots <= 2.0 * n ==> 1.0 <= a.endsWithDots <= 2.0
    ensures n <= capital <= 2.0 * n ==> 1.0 <= a.firstCharacterCapital <= 2.0
    ensures n <= average <= 3.0 * n ==> 1.0 <= a.average <= 3.0
    ensures 3.0 * average == length + dots + capital ==>
      3.0 * a.average == a.lengthOfTitle + a.endsWithDots + a.firstCharacterCapital
  {
    MeanBounds(length, n, 1.0, 5.0);
    MeanBounds(dots, n, 1.0, 2.0);
    MeanBounds(capital, n, 1.0, 2.0);
    MeanBounds(average, n, 1.0, 3.0);
    MeanOfSum(length, dots, capital, average, n);
    MessageAverages(length / n, dots / n, capital / n, average / n)
  }

  /** The per-repository message averages; the program only computes them for a
      repository with at least one commit. Each average is the column's sum over
      the messages divided by their number. */
  function AverageScores(messages: seq<string>): (a: MessageAverages)
    requires |messages| > 0
    ensures a.lengthOfTitle == SumLength(messages) / |messages| as real
    ensures a.endsWithDots == SumDots(messages) / |messages| as real
    ensures a.firstCharacterCapital == SumCapital(messages) / |messages| as real
    ensures a.average == SumAverage(messages) / |messages| as real
    ensures 1.0 <= a.lengthOfTitle <= 5.0
    ensures 1.0 <= a.endsWithDots <= 2.0
    ensures 1.0 <= a.firstCharacterCapital <= 2.0
    ensures 1.0 <= a.average <= 3.0
    ensures 3.0 * a.average == a.lengthOfTitle + a.endsWithDots + a.firstCharacterCapital
  {
    ColumnSums(messages);
    Means(SumLength(messages), SumDots(messages), SumCapital(messages), SumAverage(messages), |messages| as real)
  }
}
