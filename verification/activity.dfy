/** Commit cadence and contributor participation for one repository. */
module Activity {

  // ---------------------------------------------------------------------------
  // Cadence

  /** Commits per day, week and (30-day) month. */
  datatype Frequency = Frequency(perDay: real, perWeek: real, perMonth: real)

  /** The day span actually divided by: a span of zero whole days counts as one. */
  function EffectiveDays(spanDays: nat): (days: nat)
    ensures days >= 1
    ensures spanDays > 0 ==> days == spanDays
  {
    if spanDays == 0 then 1 else spanDays
  }

  /** Commit frequency from the number of commits and the whole-day span between
      the earliest and latest author date; weeks are `days / 7` and months
      `days / 30`. */
  function CommitFrequency(commits: nat, spanDays: nat): (f: Frequency)
    ensures f.perDay * (EffectiveDays(spanDays) as real) == commits as real
    ensures f.perWeek == 7.0 * f.perDay
    ensures f.perMonth == 30.0 * f.perDay
    ensures 0.0 <= f.perDay && 0.0 <= f.perWeek && 0.0 <= f.perMonth
  {
    var days := EffectiveDays(spanDays) as real;
    var weeks := days / 7.0;
    var months := days / 30.0;
    Frequency(commits as real / days, commits as real / weeks, commits as real / months)
  }

  /** A repository whose commits all fall within one day is measured over one day,
      so its cadence is finite: the commit count itself per day. */
  lemma SameDayCadence(commits: nat)
    ensures CommitFrequency(commits, 0) == CommitFrequency(commits, 1)
    ensures CommitFrequency(commits, 0).perDay == commits as real
  {
  }

  /** More commits over the same span never lower the cadence. */
  lemma CadenceMonotoneInCommits(a: nat, b: nat, spanDays: nat)
    requires a <= b
    ensures CommitFrequency(a, spanDays).perDay <= CommitFrequency(b, spanDays).perDay
  {
    var d := EffectiveDays(spanDays) as real;
    var x, y := CommitFrequency(a, spanDays).perDay, CommitFrequency(b, spanDays).perDay;
    assert x * d == a as real;
    assert y * d == b as real;
  }

  // ---------------------------------------------------------------------------
  // Participation

  /** The minimum number of commits for an author to count as active. */
  const ActiveThreshold: nat := 5

  /** How many authors made at least `k` commits. */
  function CountAtLeast(counts: seq<nat>, k: nat): (c: nat)
    ensures c <= |counts|
    ensures c == |counts| <==> forall i :: 0 <= i < |counts| ==> counts[i] >= k
    ensures c == 0 <==> forall i :: 0 <= i < |counts| ==> counts[i] < k
    decreases |counts|
  {
    if |counts| == 0 then 0
    else
      var last := |counts| - 1;
      var rest := CountAtLeast(counts[..last], k);
      assert forall i :: 0 <= i < last ==> counts[i] == counts[..last][i];
      rest + (if counts[last] >= k then 1 else 0)
  }

  /** The count is the number of positions whose author made at least `k` commits. */
  lemma {:induction false} CountAtLeastIsCardinality(counts: seq<nat>, k: nat)
    ensures CountAtLeast(counts, k) == |set i | 0 <= i < |counts| && counts[i] >= k|
    decreases |counts|
  {
    if |counts| > 0 {
      var last := |counts| - 1;
      var prefix := counts[..last];
      CountAtLeastIsCardinality(prefix, k);
      var before := set i | 0 <= i < |prefix| && prefix[i] >= k;
      var all := set i | 0 <= i < |counts| && counts[i] >= k;
      if counts[last] >= k {
        assert all == before + {last};
      } else {
        assert all == before;
      }
    }
  }

  lemma ShareBounds(part: real, whole: real)
    requires 0.0 <= part <= whole && whole > 0.0
    ensures 0.0 <= part / whole <= 1.0
    ensures part / whole == 1.0 <==> part == whole
    ensures part / whole == 0.0 <==> part == 0.0
  {
    var r := part / whole;
    assert r * whole == part;
  }

  /** The percentage of authors with at least five commits. The program divides by
      the number of authors without a guard, so a repository needs one author. */
  function PercentageWithFiveOrMoreCommits(counts: seq<nat>): (p: real)
    requires |counts| > 0
    ensures p == (CountAtLeast(counts, ActiveThreshold) as real) / (|counts| as real) * 100.0
    ensures 0.0 <= p <= 100.0
    ensures p == 100.0 <==> forall i :: 0 <= i < |counts| ==> counts[i] >= ActiveThreshold
    ensures p == 0.0 <==> forall i :: 0 <= i < |counts| ==> counts[i] < ActiveThreshold
  {
    var active := CountAtLeast(counts, ActiveThreshold) as real;
    var n := |counts| as real;
    ShareBounds(active, n);
    (active / n) * 100.0
  }
}
