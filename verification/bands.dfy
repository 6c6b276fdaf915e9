/** Step functions: a table of (threshold, level) rows read from the top; the first
    row whose threshold the input passes gives the level, and an input that passes
    none gets the floor level. */
module Bands {

  /** One row of a step table. */
  datatype Step = Step(threshold: real, level: real)

  /** Whether a threshold is passed strictly (`x > t`) or inclusively (`x >= t`). */
  datatype Comparison = Above | AtLeast

  predicate Passes(x: real, threshold: real, cmp: Comparison) {
    match cmp
    case Above => x > threshold
    case AtLeast => x >= threshold
  }

  /** Row `i` is the first row whose threshold `x` passes. */
  predicate FirstPassed(table: seq<Step>, cmp: Comparison, x: real, i: int) {
    && 0 <= i < |table|
    && Passes(x, table[i].threshold, cmp)
    && forall j :: 0 <= j < i ==> !Passes(x, table[j].threshold, cmp)
  }

  /** The level of `x` under `table`, or `floor` when no threshold is passed. */
  function Band(table: seq<Step>, cmp: Comparison, floor: real, x: real): (r: real)
    ensures r == floor || exists i :: 0 <= i < |table| && r == table[i].level
    ensures forall i :: FirstPassed(table, cmp, x, i) ==> r == table[i].level
    ensures (forall i :: 0 <= i < |table| ==> !Passes(x, table[i].threshold, cmp)) ==> r == floor
    decreases |table|
  {
    if |table| == 0 then floor
    else if Passes(x, table[0].threshold, cmp) then table[0].level
    else
      var r := Band(table[1..], cmp, floor, x);
      assert forall i :: 0 <= i < |table[1..]| ==> table[1..][i] == table[i + 1];
      assert forall i :: FirstPassed(table, cmp, x, i) ==> FirstPassed(table[1..], cmp, x, i - 1);
      r
  }

  /** Thresholds and levels both fall from the top row down, and the floor is
      below every level: the shape of every scoring table. */
  predicate Descending(table: seq<Step>, floor: real) {
    && (forall i, j :: 0 <= i < j < |table| ==> table[j].threshold < table[i].threshold)
    && (forall i, j :: 0 <= i < j < |table| ==> table[j].level <= table[i].level)
    && (forall i :: 0 <= i < |table| ==> floor <= table[i].level)
  }

  lemma DescendingTail(table: seq<Step>, floor: real)
    requires |table| > 0 && Descending(table, floor)
    ensures Descending(table[1..], floor)
  {
    assert forall i :: 0 <= i < |table[1..]| ==> table[1..][i] == table[i + 1];
  }

  /** In a descending table no input scores above the top level or below the floor. */
  lemma {:induction false} BandBetween(table: seq<Step>, cmp: Comparison, floor: real, x: real)
    requires Descending(table, floor)
    ensures floor <= Band(table, cmp, floor, x)
    ensures |table| > 0 ==> Band(table, cmp, floor, x) <= table[0].level
    decreases |table|
  {
    if |table| > 0 && !Passes(x, table[0].threshold, cmp) {
      DescendingTail(table, floor);
      BandBetween(table[1..], cmp, floor, x);
      if |table| > 1 {
        assert table[1..][0] == table[1];
      }
    }
  }

  /** Passing a threshold is preserved by a larger input. */
  lemma PassesMonotone(x: real, y: real, t: real, cmp: Comparison)
    requires x <= y && Passes(x, t, cmp)
    ensures Passes(y, t, cmp)
  {
  }

  /** A descending table is a non-decreasing step function. */
  lemma {:induction false} BandMonotone(table: seq<Step>, cmp: Comparison, floor: real, x: real, y: real)
    requires Descending(table, floor)
    requires x <= y
    ensures Band(table, cmp, floor, x) <= Band(table, cmp, floor, y)
    decreases |table|
  {
    if |table| > 0 {
      if Passes(x, table[0].threshold, cmp) {
        PassesMonotone(x, y, table[0].threshold, cmp);
      } else if Passes(y, table[0].threshold, cmp) {
        BandBetween(table, cmp, floor, x);
      } else {
        DescendingTail(table, floor);
        BandMonotone(table[1..], cmp, floor, x, y);
      }
    }
  }
}
