/** The scores table: one row per repository, the weighted copies of the weighted
    columns, and the overall quality score as the sum of the weighted copies. */
module Weighting {
  import opened Results
  import opened Scoring

  const FolderName := "Folder Name"
  const GiniCoefficient := "Gini Coefficient"
  const ProjectDurationScoreColumn := "Project Duration Score"
  const NormalizedCommitsPerDay := "Normalized Avg Commits/Day"
  const AverageScoreColumn := "Average Score"
  const TotalCommitters := "Total Committers"
  const AverageCommitSize := "Average Commit Size"
  const GiniCommittersScoreColumn := "Gini-Committers Score"

  /** The columns of the scores table, in order; the first holds the folder name. */
  const Columns: seq<string> := [
    FolderName, GiniCoefficient, ProjectDurationScoreColumn, NormalizedCommitsPerDay,
    AverageScoreColumn, TotalCommitters, AverageCommitSize, GiniCommittersScoreColumn]

  /** One entry of the weight table. */
  datatype Weight = Weight(column: string, factor: real)

  /** The weight table, in its declared order. */
  const Weights: seq<Weight> := [
    Weight(ProjectDurationScoreColumn, 0.2),
    Weight(NormalizedCommitsPerDay, 0.2),
    Weight(AverageScoreColumn, 0.1),
    Weight(AverageCommitSize, 0.1),
    Weight(GiniCommittersScoreColumn, 0.4)]

  function WeightSum(weights: seq<Weight>): real {
    if |weights| == 0 then 0.0 else weights[0].factor + WeightSum(weights[1..])
  }

  lemma WeightsSumToOne()
    ensures WeightSum(Weights) == 1.0
  {
    assert WeightSum(Weights[4..]) == 0.4 by {
      assert Weights[4..][1..] == [];
    }
    assert Weights[3..][1..] == Weights[4..];
    assert WeightSum(Weights[3..]) == 0.1 + 0.4;
    assert Weights[2..][1..] == Weights[3..];
    assert WeightSum(Weights[2..]) == 0.1 + 0.1 + 0.4;
    assert Weights[1..][1..] == Weights[2..];
    assert WeightSum(Weights[1..]) == 0.2 + 0.1 + 0.1 + 0.4;
  }

  /** `weights[column]`, or nothing when the column has no weight. */
  function Lookup(weights: seq<Weight>, column: string): (r: Option<real>)
    ensures r.None? <==> forall i :: 0 <= i < |weights| ==> weights[i].column != column
    ensures r.Some? ==> exists i :: 0 <= i < |weights| && weights[i] == Weight(column, r.value)
    decreases |weights|
  {
    if |weights| == 0 then None
    else if weights[0].column == column then Some(weights[0].factor)
    else
      var r := Lookup(weights[1..], column);
      assert forall i :: 0 <= i < |weights[1..]| ==> weights[1..][i] == weights[i + 1];
      r
  }

  predicate HasWeight(weights: seq<Weight>, column: string) {
    Lookup(weights, column).Some?
  }

  /** The name of the weighted copy of a column. */
  function Weighted(column: string): string {
    column + " Weighted"
  }

  /** No column is the weighted copy of another, so writing a weighted copy never
      overwrites a column that is still to be read. */
  predicate Independent(columns: seq<string>) {
    forall i, j :: 0 <= i < |columns| && 0 <= j < |columns| ==> columns[i] != Weighted(columns[j])
  }

  /** The names of the weighted copies written for `columns`. */
  function WeightedNames(columns: seq<string>, weights: seq<Weight>): set<string> {
    set c | c in columns && HasWeight(weights, c) :: Weighted(c)
  }

  /** A row of numeric columns, keyed by column name. */
  type Row = map<string, real>

  /** Walks `columns` in order and, for each one with a weight, writes the column
      times its weight under the weighted name; a weighted column missing from the
      row fails with its name. */
  function AddWeighted(row: Row, columns: seq<string>, weights: seq<Weight>): (r: Result<Row, string>)
    ensures r.Failure? ==> r.error in columns && HasWeight(weights, r.error)
    decreases |columns|
  {
    if |columns| == 0 then Success(row)
    else
      var c := columns[0];
      match Lookup(weights, c)
      case None => AddWeighted(row, columns[1..], weights)
      case Some(factor) =>
        if c !in row then Failure(c)
        else AddWeighted(WithWeighted(row, c, factor), columns[1..], weights)
  }

  lemma AddWeightedStep(row: Row, columns: seq<string>, weights: seq<Weight>)
    requires |columns| > 0
    ensures !HasWeight(weights, columns[0]) ==>
      AddWeighted(row, columns, weights) == AddWeighted(row, columns[1..], weights)
    ensures HasWeight(weights, columns[0]) && columns[0] !in row ==>
      AddWeighted(row, columns, weights) == Failure(columns[0])
    ensures HasWeight(weights, columns[0]) && columns[0] in row ==>
      AddWeighted(row, columns, weights) ==
        AddWeighted(WithWeighted(row, columns[0], Lookup(weights, columns[0]).value), columns[1..], weights)
  {
  }

  /** The row with the weighted copy of `c` written. */
  function WithWeighted(row: Row, c: string, factor: real): Row
    requires c in row
  {
    row[Weighted(c) := row[c] * factor]
  }

  lemma WeightedInjective(c: string, d: string)
    ensures Weighted(c) == Weighted(d) ==> c == d
  {
    assert c == Weighted(c)[..|c|];
    assert d == Weighted(d)[..|d|];
  }

  lemma WeightedNamesStep(columns: seq<string>, weights: seq<Weight>)
    requires |columns| > 0
    ensures WeightedNames(columns, weights) ==
      WeightedNames(columns[1..], weights) + (if HasWeight(weights, columns[0]) then {Weighted(columns[0])} else {})
  {
    assert columns == [columns[0]] + columns[1..];
  }

  lemma IndependentTail(columns: seq<string>)
    requires |columns| > 0 && Independent(columns)
    ensures Independent(columns[1..])
    ensures forall c :: c in columns[1..] ==> c != Weighted(columns[0])
  {
    assert forall i :: 0 <= i < |columns[1..]| ==> columns[1..][i] == columns[i + 1];
  }

  /** Adding the weighted copies fails exactly when a weighted column is missing. */
  lemma {:induction false} AddWeightedSucceeds(row: Row, columns: seq<string>, weights: seq<Weight>)
    requires Independent(columns)
    ensures AddWeighted(row, columns, weights).Success? <==>
      forall c :: c in columns && HasWeight(weights, c) ==> c in row
    decreases |columns|
  {
    if |columns| > 0 {
      var c := columns[0];
      IndependentTail(columns);
      AddWeightedStep(row, columns, weights);
      if HasWeight(weights, c) {
        if c in row {
          var row' := WithWeighted(row, c, Lookup(weights, c).value);
          AddWeightedSucceeds(row', columns[1..], weights);
          assert forall d :: d in columns[1..] ==> (d in row' <==> d in row);
        }
      } else {
        AddWeightedSucceeds(row, columns[1..], weights);
      }
    }
  }

  /** The weighted copies are added and nothing is removed. */
  lemma {:induction false} AddWeightedKeys(row: Row, columns: seq<string>, weights: seq<Weight>)
    requires AddWeighted(row, columns, weights).Success?
    ensures AddWeighted(row, columns, weights).value.Keys == row.Keys + WeightedNames(columns, weights)
    decreases |columns|
  {
    if |columns| > 0 {
      var c := columns[0];
      WeightedNamesStep(columns, weights);
      AddWeightedStep(row, columns, weights);
      if HasWeight(weights, c) {
        AddWeightedKeys(WithWeighted(row, c, Lookup(weights, c).value), columns[1..], weights);
      } else {
        AddWeightedKeys(row, columns[1..], weights);
      }
    }
  }

  /** Every column that is not a weighted copy keeps its value. */
  lemma {:induction false} AddWeightedKeepsColumns(row: Row, columns: seq<string>, weights: seq<Weight>, k: string)
    requires AddWeighted(row, columns, weights).Success?
    requires k in row && k !in WeightedNames(columns, weights)
    ensures k in AddWeighted(row, columns, weights).value
    ensures AddWeighted(row, columns, weights).value[k] == row[k]
    decreases |columns|
  {
    if |columns| > 0 {
      var c := columns[0];
      WeightedNamesStep(columns, weights);
      AddWeightedStep(row, columns, weights);
      if HasWeight(weights, c) {
        AddWeightedKeepsColumns(WithWeighted(row, c, Lookup(weights, c).value), columns[1..], weights, k);
      } else {
        AddWeightedKeepsColumns(row, columns[1..], weights, k);
      }
    }
  }

  /** Each weighted copy is its column times the column's weight. */
  lemma {:induction false} AddWeightedValues(row: Row, columns: seq<string>, weights: seq<Weight>, c: string)
    requires Independent(columns)
    requires AddWeighted(row, columns, weights).Success?
    requires c in columns && HasWeight(weights, c)
    ensures c in row && Weighted(c) in AddWeighted(row, columns, weights).value
    ensures AddWeighted(row, columns, weights).value[Weighted(c)] == row[c] * Lookup(weights, c).value
    decreases |columns|
  {
    var c0 := columns[0];
    IndependentTail(columns);
    AddWeightedStep(row, columns, weights);
    if HasWeight(weights, c0) {
      var row' := WithWeighted(row, c0, Lookup(weights, c0).value);
      if c in columns[1..] {
        AddWeightedValues(row', columns[1..], weights, c);
      } else {
        assert c == c0;
        forall d | d in columns[1..] && HasWeight(weights, d)
          ensures Weighted(d) != Weighted(c)
        {
          WeightedInjective(d, c);
        }
        AddWeightedKeepsColumns(row', columns[1..], weights, Weighted(c));
      }
    } else {
      assert c in columns[1..];
      AddWeightedValues(row, columns[1..], weights, c);
    }
  }

  /** Adds the weighted copies for every column but the first (the folder name). */
  function CalculateWeightedScores(row: Row, columns: seq<string>, weights: seq<Weight>): (r: Result<Row, string>)
    ensures |columns| == 0 ==> r == Success(row)
    ensures |columns| > 0 ==> r == AddWeighted(row, columns[1..], weights)
  {
    if |columns| == 0 then Success(row) else AddWeighted(row, columns[1..], weights)
  }

  /** What adding the weighted copies does to a table's row. It succeeds iff every
      weighted column after the first is present. It then adds exactly their weighted
      copies (their values are given by `WeightedCopyOfRow`) and changes no other
      column. The first column gets no weighted copy, even when it has a weight. */
  lemma WeightedScoresOfRow(row: Row, columns: seq<string>, weights: seq<Weight>)
    requires |columns| > 0 && Independent(columns[1..]) && columns[0] !in columns[1..]
    ensures CalculateWeightedScores(row, columns, weights).Success? <==>
      forall c :: c in columns[1..] && HasWeight(weights, c) ==> c in row
    ensures var r := CalculateWeightedScores(row, columns, weights);
      r.Success? ==> r.value.Keys == row.Keys + WeightedNames(columns[1..], weights)
    ensures var r := CalculateWeightedScores(row, columns, weights);
      r.Success? ==> forall k :: k in row && k !in WeightedNames(columns[1..], weights) ==>
        k in r.value && r.value[k] == row[k]
    ensures Weighted(columns[0]) !in WeightedNames(columns[1..], weights)
  {
    var rest := columns[1..];
    AddWeightedSucceeds(row, rest, weights);
    var r := AddWeighted(row, rest, weights);
    assert CalculateWeightedScores(row, columns, weights) == r;
    if r.Success? {
      AddWeightedKeys(row, rest, weights);
      forall k | k in row && k !in WeightedNames(rest, weights)
        ensures k in r.value && r.value[k] == row[k]
      {
        AddWeightedKeepsColumns(row, rest, weights, k);
      }
    }
    forall c | c in rest && HasWeight(weights, c)
      ensures Weighted(c) != Weighted(columns[0])
    {
      WeightedInjective(c, columns[0]);
    }
  }

  /** Each weighted copy written for a table's row is its column times its weight. */
  lemma WeightedCopyOfRow(row: Row, columns: seq<string>, weights: seq<Weight>, c: string)
    requires |columns| > 0 && Independent(columns[1..])
    requires CalculateWeightedScores(row, columns, weights).Success?
    requires c in columns[1..] && HasWeight(weights, c)
    ensures c in row && Weighted(c) in CalculateWeightedScores(row, columns, weights).value
    ensures CalculateWeightedScores(row, columns, weights).value[Weighted(c)] == row[c] * Lookup(weights, c).value
  {
    AddWeightedValues(row, columns[1..], weights, c);
  }

  /** The sum of the weighted copies of every column in the weight table; a missing
      weighted copy fails with its name. */
  function OverallQualityScore(row: Row, weights: seq<Weight>): (r: Result<real, string>)
    ensures r.Success? <==> forall i :: 0 <= i < |weights| ==> Weighted(weights[i].column) in row
    ensures r.Failure? ==> r.error !in row
    decreases |weights|
  {
    if |weights| == 0 then Success(0.0)
    else
      var key := Weighted(weights[0].column);
      assert forall i :: 0 <= i < |weights[1..]| ==> weights[1..][i] == weights[i + 1];
      if key !in row then Failure(key)
      else
        var rest :- OverallQualityScore(row, weights[1..]);
        Success(row[key] + rest)
  }

  /** When each weighted copy lies between 0 and its weight, the overall score lies
      between 0 and the total weight. */
  lemma {:induction false} OverallWithinWeights(row: Row, weights: seq<Weight>)
    requires forall i :: 0 <= i < |weights| ==> Weighted(weights[i].column) in row
    requires forall i :: 0 <= i < |weights| ==>
      0.0 <= row[Weighted(weights[i].column)] <= weights[i].factor
    ensures OverallQualityScore(row, weights).Success?
    ensures 0.0 <= OverallQualityScore(row, weights).value <= WeightSum(weights)
    decreases |weights|
  {
    if |weights| > 0 {
      assert forall i :: 0 <= i < |weights[1..]| ==> weights[1..][i] == weights[i + 1];
      OverallWithinWeights(row, weights[1..]);
    }
  }

  // ---------------------------------------------------------------------------
  // The scores table of this program

  /** Pairs column names with values by position. */
  function ZipColumns(names: seq<string>, values: seq<real>): (row: Row)
    requires |names| == |values|
    ensures forall k :: k in row <==> k in names
    decreases |names|
  {
    if |names| == 0 then map[]
    else ZipColumns(names[1..], values[1..])[names[0] := values[0]]
  }

  predicate Distinct(names: seq<string>) {
    forall i, j :: 0 <= i < j < |names| ==> names[i] != names[j]
  }

  /** With distinct names, each name holds the value at its own position. */
  lemma {:induction false} ZipColumnsAt(names: seq<string>, values: seq<real>, i: nat)
    requires |names| == |values| && Distinct(names) && i < |names|
    ensures ZipColumns(names, values)[names[i]] == values[i]
    decreases |names|
  {
    if i > 0 {
      assert names[1..][i - 1] == names[i] && values[1..][i - 1] == values[i];
      assert names[0] != names[i];
      ZipColumnsAt(names[1..], values[1..], i - 1);
    }
  }

  /** The values of one repository in the order they are returned. */
  function ScoreValues(s: RepositoryScores): seq<real> {
    [s.gini, s.durationScore, s.commitsPerDayScore, s.averageScore,
     s.committersScore, s.commitSizeScore, s.giniCommittersScore]
  }

  /** One repository's row: the returned values under the columns after the folder name. */
  function ScoresRow(s: RepositoryScores): Row {
    ZipColumns(Columns[1..], ScoreValues(s))
  }

  lemma ScoreColumnsDistinct()
    ensures Distinct(Columns[1..])
  {
  }

  /** The value at position `i` of the returned tuple lands in column `i + 1`. */
  lemma PositionalColumn(s: RepositoryScores, i: nat)
    requires i < 7
    ensures ScoresRow(s)[Columns[i + 1]] == ScoreValues(s)[i]
  {
    ScoreColumnsDistinct();
    assert Columns[1..][i] == Columns[i + 1];
    ZipColumnsAt(Columns[1..], ScoreValues(s), i);
  }

  /** The columns are taken by position, so two of them hold scores under the name
      of the raw figure: "Total Committers" holds the committer band and
      "Average Commit Size" the commit-size band. */
  lemma PositionalColumns(s: RepositoryScores)
    ensures ScoresRow(s)[GiniCoefficient] == s.gini
    ensures ScoresRow(s)[ProjectDurationScoreColumn] == s.durationScore
    ensures ScoresRow(s)[NormalizedCommitsPerDay] == s.commitsPerDayScore
    ensures ScoresRow(s)[AverageScoreColumn] == s.averageScore
    ensures ScoresRow(s)[TotalCommitters] == s.committersScore
    ensures ScoresRow(s)[AverageCommitSize] == s.commitSizeScore
    ensures ScoresRow(s)[GiniCommittersScoreColumn] == s.giniCommittersScore
  {
    PositionalColumn(s, 0);
    PositionalColumn(s, 1);
    PositionalColumn(s, 2);
    PositionalColumn(s, 3);
    PositionalColumn(s, 4);
    PositionalColumn(s, 5);
    PositionalColumn(s, 6);
  }

  lemma ScoreColumnsIndependent()
    ensures Independent(Columns[1..])
  {
    var names := Columns[1..];
    forall i, j | 0 <= i < |names| && 0 <= j < |names|
      ensures names[i] != Weighted(names[j])
    {
      if |names[i]| == |Weighted(names[j])| {
        assert names[i] == ProjectDurationScoreColumn && names[j] == AverageScoreColumn;
        assert names[i][0] != Weighted(names[j])[0];
      }
    }
  }

  /** The first entry naming `c` gives its weight. */
  lemma {:induction false} LookupFirst(weights: seq<Weight>, i: nat, c: string)
    requires i < |weights| && weights[i].column == c
    requires forall j :: 0 <= j < i ==> |weights[j].column| != |c|
    ensures Lookup(weights, c) == Some(weights[i].factor)
    decreases i
  {
    if i > 0 {
      assert weights[0].column != c;
      assert forall j :: 0 <= j < i - 1 ==> weights[1..][j] == weights[j + 1];
      LookupFirst(weights[1..], i - 1, c);
    }
  }

  /** Column names differ in length from every column of the weight table. */
  lemma {:induction false} LookupAbsent(weights: seq<Weight>, c: string)
    requires forall j :: 0 <= j < |weights| ==> |weights[j].column| != |c|
    ensures Lookup(weights, c) == None
  {
  }

  lemma WeightColumnLengths()
    ensures |Weights[0].column| == 22 && |Weights[1].column| == 26 && |Weights[2].column| == 13
    ensures |Weights[3].column| == 19 && |Weights[4].column| == 21
    ensures |FolderName| == 11 && |GiniCoefficient| == 16 && |TotalCommitters| == 16
  {
  }

  lemma DurationWeight()
    ensures Lookup(Weights, ProjectDurationScoreColumn) == Some(0.2)
  {
    LookupFirst(Weights, 0, ProjectDurationScoreColumn);
  }

  lemma CommitsPerDayWeight()
    ensures Lookup(Weights, NormalizedCommitsPerDay) == Some(0.2)
  {
    WeightColumnLengths();
    LookupFirst(Weights, 1, NormalizedCommitsPerDay);
  }

  lemma AverageScoreWeight()
    ensures Lookup(Weights, AverageScoreColumn) == Some(0.1)
  {
    WeightColumnLengths();
    LookupFirst(Weights, 2, AverageScoreColumn);
  }

  lemma CommitSizeWeight()
    ensures Lookup(Weights, AverageCommitSize) == Some(0.1)
  {
    WeightColumnLengths();
    LookupFirst(Weights, 3, AverageCommitSize);
  }

  lemma GiniCommittersWeight()
    ensures Lookup(Weights, GiniCommittersScoreColumn) == Some(0.4)
  {
    WeightColumnLengths();
    LookupFirst(Weights, 4, GiniCommittersScoreColumn);
  }

  lemma UnweightedColumns()
    ensures !HasWeight(Weights, FolderName) && !HasWeight(Weights, GiniCoefficient)
    ensures !HasWeight(Weights, TotalCommitters)
  {
    WeightColumnLengths();
    LookupAbsent(Weights, FolderName);
    LookupAbsent(Weights, GiniCoefficient);
    LookupAbsent(Weights, TotalCommitters);
  }

  /** Which columns of the scores table have a weight, and which weight. */
  lemma WeightTableColumns()
    ensures Lookup(Weights, ProjectDurationScoreColumn) == Some(0.2)
    ensures Lookup(Weights, NormalizedCommitsPerDay) == Some(0.2)
    ensures Lookup(Weights, AverageScoreColumn) == Some(0.1)
    ensures Lookup(Weights, AverageCommitSize) == Some(0.1)
    ensures Lookup(Weights, GiniCommittersScoreColumn) == Some(0.4)
    ensures !HasWeight(Weights, FolderName) && !HasWeight(Weights, GiniCoefficient)
    ensures !HasWeight(Weights, TotalCommitters)
  {
    DurationWeight();
    CommitsPerDayWeight();
    AverageScoreWeight();
    CommitSizeWeight();
    GiniCommittersWeight();
    UnweightedColumns();
  }

  /** The columns after the folder name, one by one. */
  lemma ScoreColumnsMembers(c: string)
    ensures c in Columns[1..] <==> (c == GiniCoefficient || c == ProjectDurationScoreColumn
      || c == NormalizedCommitsPerDay || c == AverageScoreColumn || c == TotalCommitters
      || c == AverageCommitSize || c == GiniCommittersScoreColumn)
  {
    var names := Columns[1..];
    assert names == [GiniCoefficient, ProjectDurationScoreColumn, NormalizedCommitsPerDay,
      AverageScoreColumn, TotalCommitters, AverageCommitSize, GiniCommittersScoreColumn];
  }

  /** The columns of the weight table, named in the scores table. */
  predicate IsWeightColumn(c: string) {
    || c == ProjectDurationScoreColumn || c == NormalizedCommitsPerDay || c == AverageScoreColumn
    || c == AverageCommitSize || c == GiniCommittersScoreColumn
  }

  lemma ScoreColumnWeighted(c: string)
    ensures (c in Columns[1..] && HasWeight(Weights, c)) <==> IsWeightColumn(c)
  {
    ScoreColumnsMembers(c);
    WeightTableColumns();
  }

  /** Exactly the five columns of the weight table get a weighted copy. */
  lemma WeightedColumnsOfScoresTable()
    ensures WeightedNames(Columns[1..], Weights) == {
      Weighted(ProjectDurationScoreColumn), Weighted(NormalizedCommitsPerDay),
      Weighted(AverageScoreColumn), Weighted(AverageCommitSize), Weighted(GiniCommittersScoreColumn)}
  {
    var expected := {
      Weighted(ProjectDurationScoreColumn), Weighted(NormalizedCommitsPerDay),
      Weighted(AverageScoreColumn), Weighted(AverageCommitSize), Weighted(GiniCommittersScoreColumn)};
    forall x | x in WeightedNames(Columns[1..], Weights)
      ensures x in expected
    {
      var c :| c in Columns[1..] && HasWeight(Weights, c) && x == Weighted(c);
      ScoreColumnWeighted(c);
    }
    forall c | IsWeightColumn(c)
      ensures Weighted(c) in WeightedNames(Columns[1..], Weights)
    {
      ScoreColumnWeighted(c);
    }
  }

  /** A name whose length matches no weighted copy is not one. */
  lemma NotAWeightedName(x: string)
    requires |x| != 31 && |x| != 35 && |x| != 22 && |x| != 28 && |x| != 30
    ensures x !in WeightedNames(Columns[1..], Weights)
  {
    WeightedColumnsOfScoresTable();
  }

  /** The Gini index, the committer band and the folder name get no weighted copy. */
  lemma UnweightedColumnsOfScoresTable()
    ensures Weighted(GiniCoefficient) !in WeightedNames(Columns[1..], Weights)
    ensures Weighted(TotalCommitters) !in WeightedNames(Columns[1..], Weights)
    ensures Weighted(FolderName) !in WeightedNames(Columns[1..], Weights)
  {
    NotAWeightedName(Weighted(GiniCoefficient));
    NotAWeightedName(Weighted(TotalCommitters));
    NotAWeightedName(Weighted(FolderName));
  }
}
