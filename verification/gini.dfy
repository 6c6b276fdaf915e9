/** The equality metric over per-author commit counts. It follows the Gini
    construction (sort, cumulative shares, area between the Lorenz curve and the
    diagonal) but is inverted: 1 means every author committed equally, and values
    near 0 mean one author made almost every commit. */
module GiniIndex {

  // ---------------------------------------------------------------------------
  // Sums and sorting

  /** The total of a sequence of counts. */
  function Sum(s: seq<nat>): nat
    decreases |s|
  {
    if |s| == 0 then 0 else Sum(s[..|s| - 1]) + s[|s| - 1]
  }

  /** `np.all(counts == 0)`; true of the empty sequence. */
  predicate AllZero(s: seq<nat>) {
    forall i :: 0 <= i < |s| ==> s[i] == 0
  }

  predicate Sorted(s: seq<nat>) {
    forall i, j :: 0 <= i < j < |s| ==> s[i] <= s[j]
  }

  /** Putting a value no larger than the head in front keeps a sequence ascending. */
  lemma PrependSorted(h: nat, t: seq<nat>)
    requires Sorted(t)
    requires |t| > 0 ==> h <= t[0]
    ensures Sorted([h] + t)
  {
  }

  /** Inserts `x` into an ascending sequence. */
  function Insert(x: nat, s: seq<nat>): (r: seq<nat>)
    requires Sorted(s)
    ensures Sorted(r)
    ensures multiset(r) == multiset(s) + multiset{x}
    ensures |r| == |s| + 1
    ensures r[0] == if |s| > 0 && s[0] < x then s[0] else x
    decreases |s|
  {
    if |s| == 0 then [x]
    else if x <= s[0] then
      PrependSorted(x, s);
      [x] + s
    else
      var tail := Insert(x, s[1..]);
      PrependSorted(s[0], tail);
      assert s == [s[0]] + s[1..];
      [s[0]] + tail
  }

  /** `np.sort`: the ascending arrangement of the counts. */
  function Sort(s: seq<nat>): (r: seq<nat>)
    ensures Sorted(r)
    ensures multiset(r) == multiset(s)
    decreases |s|
  {
    if |s| == 0 then []
    else
      assert s == [s[0]] + s[1..];
      Insert(s[0], Sort(s[1..]))
  }

  lemma HeadIsLeast(s: seq<nat>, x: nat)
    requires Sorted(s)
    requires x in multiset(s)
    ensures |s| > 0 && s[0] <= x
  {
    assert x in s;
  }

  /** There is only one ascending arrangement of a multiset. */
  lemma {:induction false} SortedUnique(a: seq<nat>, b: seq<nat>)
    requires Sorted(a) && Sorted(b)
    requires multiset(a) == multiset(b)
    ensures a == b
    decreases |a|
  {
    assert |a| == |multiset(a)| == |multiset(b)| == |b|;
    if |a| > 0 {
      assert a[0] in multiset(a);
      HeadIsLeast(b, a[0]);
      assert b[0] in multiset(b);
      HeadIsLeast(a, b[0]);
      var ta, tb := a[1..], b[1..];
      assert a == [a[0]] + ta;
      assert b == [b[0]] + tb;
      assert multiset(ta) == multiset(tb) by {
        assert a[0] == b[0];
        assert multiset(a) == multiset{a[0]} + multiset(ta);
        assert multiset(b) == multiset{a[0]} + multiset(tb);
        assert multiset(ta) == multiset(a) - multiset{a[0]};
        assert multiset(tb) == multiset(b) - multiset{a[0]};
      }
      SortedUnique(ta, tb);
    }
  }

  /** `np.cumsum`: entry `i` is the total of the first `i + 1` counts. */
  function CumSum(s: seq<nat>): (cum: seq<nat>)
    ensures |cum| == |s|
    ensures forall i :: 0 <= i < |s| ==> cum[i] == Sum(s[..i + 1])
  {
    seq(|s|, i requires 0 <= i < |s| => Sum(s[..i + 1]))
  }

  lemma {:induction false} ElementAtMostSum(s: seq<nat>, j: nat)
    requires j < |s|
    ensures s[j] <= Sum(s)
    decreases |s|
  {
    if j < |s| - 1 {
      ElementAtMostSum(s[..|s| - 1], j);
    }
  }

  // ---------------------------------------------------------------------------
  // The metric

  /** `np.sum(cum_pop - cum_prop)` over the first `|cum|` ranks:
      the sum of `(i + 1) / n - cum[i] / total`. */
  function LorenzGap(cum: seq<nat>, total: nat, n: nat): real
    requires total > 0 && n > 0
    decreases |cum|
  {
    if |cum| == 0 then 0.0
    else
      LorenzGap(cum[..|cum| - 1], total, n)
        + ((|cum| as real) / (n as real) - (cum[|cum| - 1] as real) / (total as real))
  }

  /** With a positive count present, the last cumulative sum is a positive total. */
  lemma LastCumIsTotal(s: seq<nat>)
    requires !AllZero(s)
    ensures |CumSum(s)| == |s| > 0
    ensures CumSum(s)[|s| - 1] == Sum(s) > 0
  {
    var j :| 0 <= j < |s| && s[j] != 0;
    ElementAtMostSum(s, j);
    assert s[..|s|] == s;
  }

  lemma ZeroPermutation(a: seq<nat>, b: seq<nat>)
    requires multiset(a) == multiset(b)
    requires !AllZero(a)
    ensures !AllZero(b)
  {
    var i :| 0 <= i < |a| && a[i] != 0;
    assert a[i] in multiset(a);
    assert a[i] in b;
  }

  /** The metric computed from counts already in ascending order. */
  function GiniOfSorted(sorted: seq<nat>): real
    requires !AllZero(sorted)
  {
    var n := |sorted|;
    var cum := CumSum(sorted);
    LastCumIsTotal(sorted);
    1.0 - (2.0 / (n as real)) * LorenzGap(cum, cum[n - 1], n)
  }

  /** The equality metric: 0.0 for no authors or no commits, otherwise
      `1 - (2 / n) * sum((i + 1) / n - cum[i] / total)` over the sorted counts. */
  function Gini(counts: seq<nat>): real {
    if |counts| == 0 || AllZero(counts) then 0.0
    else
      ZeroPermutation(counts, Sort(counts));
      GiniOfSorted(Sort(counts))
  }

  // ---------------------------------------------------------------------------
  // Integer form of the gap

  /** The gap scaled by `n * total`: the sum of `(i + 1) * total - n * cum[i]`. */
  function ScaledGap(cum: seq<nat>, total: nat, n: nat): int
    decreases |cum|
  {
    if |cum| == 0 then 0
    else ScaledGap(cum[..|cum| - 1], total, n) + (|cum| * total - n * cum[|cum| - 1])
  }

  lemma Rescale(m: nat, c: nat, n: nat, total: nat)
    requires n > 0 && total > 0
    ensures (m as real) / (n as real) - (c as real) / (total as real)
         == ((m * total - n * c) as real) / ((n * total) as real)
  {
    var N, T := n as real, total as real;
    assert ((m * total - n * c) as real) == (m as real) * T - N * (c as real);
    assert ((n * total) as real) == N * T;
  }

  lemma {:induction false} GapScaling(cum: seq<nat>, total: nat, n: nat)
    requires total > 0 && n > 0
    ensures LorenzGap(cum, total, n) == (ScaledGap(cum, total, n) as real) / ((n * total) as real)
    decreases |cum|
  {
    if |cum| > 0 {
      GapScaling(cum[..|cum| - 1], total, n);
      Rescale(|cum|, cum[|cum| - 1], n, total);
    }
  }

  // ---------------------------------------------------------------------------
  // Lorenz curve below the diagonal

  lemma {:induction false} PrefixSumBound(s: seq<nat>, k: nat, m: nat)
    requires k <= |s|
    requires forall i :: 0 <= i < k ==> s[i] <= m
    ensures Sum(s[..k]) <= k * m
    decreases k
  {
    if k > 0 {
      PrefixSumBound(s, k - 1, m);
      assert s[..k][..k - 1] == s[..k - 1];
      assert (k - 1) * m + m == k * m;
    }
  }

  lemma PrefixSumStep(s: seq<nat>, k: nat)
    requires k < |s|
    ensures Sum(s[..k + 1]) == Sum(s[..k]) + s[k]
  {
    assert s[..k + 1][..k] == s[..k];
  }

  /** The running totals start at the first count, grow by each next count, never
      decrease, and end at the total. */
  lemma CumSumRecurrence(s: seq<nat>)
    ensures |s| > 0 ==> CumSum(s)[0] == s[0]
    ensures forall i :: 0 <= i < |s| - 1 ==> CumSum(s)[i + 1] == CumSum(s)[i] + s[i + 1]
    ensures forall i, j :: 0 <= i <= j < |s| ==> CumSum(s)[i] <= CumSum(s)[j]
    ensures |s| > 0 ==> CumSum(s)[|s| - 1] == Sum(s)
  {
    var cum := CumSum(s);
    if |s| > 0 {
      assert s[..1] == [s[0]];
      assert [s[0]][..0] == [];
      assert s[..|s|] == s;
    }
    forall i | 0 <= i < |s| - 1
      ensures cum[i + 1] == cum[i] + s[i + 1]
    {
      PrefixSumStep(s, i + 1);
    }
    forall i, j | 0 <= i <= j < |s|
      ensures cum[i] <= cum[j]
    {
      CumSumGrows(s, i, j);
    }
  }

  lemma {:induction false} CumSumGrows(s: seq<nat>, i: nat, j: nat)
    requires i <= j < |s|
    ensures CumSum(s)[i] <= CumSum(s)[j]
    decreases j - i
  {
    if i < j {
      CumSumGrows(s, i, j - 1);
      PrefixSumStep(s, j);
    }
  }

  /** In an ascending sequence the mean of a prefix never exceeds the mean of a
      longer prefix. */
  lemma PrefixMeanStep(s: seq<nat>, k: nat)
    requires Sorted(s)
    requires k < |s|
    ensures (k + 1) * Sum(s[..k]) <= k * Sum(s[..k + 1])
  {
    var a := Sum(s[..k]);
    PrefixSumBound(s, k, s[k]);
    PrefixSumStep(s, k);
    assert (k + 1) * a == k * a + a;
    assert k * (a + s[k]) == k * a + k * s[k];
  }

  lemma MulMono(a: int, b: int, c: nat)
    requires a <= b
    ensures c * a <= c * b
  {
  }

  lemma MulMonoStrict(a: int, b: int, c: nat)
    requires c > 0
    ensures a < b ==> c * a < c * b
  {
    if a < b {
      MulMono(a + 1, b, c);
      assert c * (a + 1) == c * a + c;
    }
  }

  lemma MulCancel(a: int, b: int, c: nat)
    requires c > 0
    requires c * a <= c * b
    ensures a <= b
  {
    MulMonoStrict(b, a, c);
  }

  /** One step of the chain of prefix means, in pure arithmetic. */
  lemma MeanChain(n: nat, k: nat, a: nat, b: nat, t: nat)
    requires (k + 1) * a <= k * b
    requires n * b <= (k + 1) * t
    ensures n * a <= k * t
  {
    // (k + 1) * (n * a) <= n * (k * b) == k * (n * b) <= k * ((k + 1) * t)
    MulMono((k + 1) * a, k * b, n);
    MulMono(n * b, (k + 1) * t, k);
    assert (k + 1) * (n * a) == n * ((k + 1) * a);
    assert n * (k * b) == k * (n * b);
    assert k * ((k + 1) * t) == (k + 1) * (k * t);
    MulCancel(n * a, k * t, k + 1);
  }

  /** The Lorenz curve of an ascending sequence lies on or below the diagonal:
      the first `k` of `n` counts hold at most `k / n` of the total. */
  lemma {:induction false} LorenzBelowDiagonal(s: seq<nat>, k: nat)
    requires Sorted(s)
    requires k <= |s|
    ensures |s| * Sum(s[..k]) <= k * Sum(s)
    decreases |s| - k
  {
    var n, t := |s|, Sum(s);
    if k == n {
      assert s[..k] == s;
    } else {
      LorenzBelowDiagonal(s, k + 1);
      var a, b := Sum(s[..k]), Sum(s[..k + 1]);
      PrefixMeanStep(s, k);
      MeanChain(n, k, a, b, t);
    }
  }

  /** Every rank contributes a non-negative amount to the scaled gap of a sorted sequence. */
  lemma {:induction false} ScaledGapNonNegative(s: seq<nat>, k: nat)
    requires Sorted(s)
    requires k <= |s|
    ensures ScaledGap(CumSum(s)[..k], Sum(s), |s|) >= 0
    decreases k
  {
    if k > 0 {
      var cum := CumSum(s);
      ScaledGapNonNegative(s, k - 1);
      assert cum[..k][..k - 1] == cum[..k - 1];
      LorenzBelowDiagonal(s, k);
    }
  }

  /** The scaled gap of the first `k` ranks is at most `total * (1 + ... + k)`. */
  lemma {:induction false} ScaledGapUpper(cum: seq<nat>, total: nat, n: nat, k: nat)
    requires k <= |cum|
    ensures 2 * ScaledGap(cum[..k], total, n) <= k * (k + 1) * total
    decreases k
  {
    if k > 0 {
      ScaledGapUpper(cum, total, n, k - 1);
      assert cum[..k][..k - 1] == cum[..k - 1];
      assert (k - 1) * k * total + 2 * (k * total) == k * (k + 1) * total;
      assert n * cum[k - 1] >= 0;
    }
  }

  lemma RatioBound(g: real, d: real, m: real)
    requires d > 0.0 && 0.0 <= g
    requires 2.0 * g <= m * d
    ensures 0.0 <= g / d
    ensures 2.0 * (g / d) <= m
  {
    var x := g / d;
    assert x * d == g;
    if 2.0 * x > m {
      assert 2.0 * x * d > m * d;
    }
  }

  lemma ShareBound(x: real, n: real)
    requires n >= 1.0
    requires 0.0 <= 2.0 * x <= n - 1.0
    ensures 1.0 / n <= 1.0 - (2.0 / n) * x <= 1.0
  {
    assert (2.0 / n) * x == (2.0 * x) / n;
    assert (2.0 * x) / n <= (n - 1.0) / n;
    assert (n - 1.0) / n == 1.0 - 1.0 / n;
  }

  lemma CastProduct(a: int, b: int)
    ensures (a * b) as real == (a as real) * (b as real)
  {
  }

  lemma RealBounds(g: int, n: nat, total: nat)
    requires n > 0 && total > 0
    requires 0 <= g
    requires 2 * g <= (n - 1) * (n * total)
    ensures 1.0 / (n as real) <= 1.0 - (2.0 / (n as real)) * ((g as real) / ((n * total) as real)) <= 1.0
  {
    var d := (n * total) as real;
    CastProduct(n, total);
    CastProduct(n - 1, n * total);
    RatioBound(g as real, d, (n - 1) as real);
    ShareBound((g as real) / d, n as real);
  }

  // ---------------------------------------------------------------------------
  // Properties

  /** No authors, or no commits at all, give the neutral value 0. */
  lemma GiniOfNoCommits(counts: seq<nat>)
    requires AllZero(counts)
    ensures Gini(counts) == 0.0
  {
  }

  lemma LastRankAddsNothing(cum: seq<nat>, t: nat, n: nat)
    requires |cum| > 0 && cum[|cum| - 1] == t && n == |cum|
    ensures ScaledGap(cum, t, n) == ScaledGap(cum[..n - 1], t, n)
  {
    assert n * t - n * cum[n - 1] == 0;
  }

  lemma Reassociate(a: int, b: int, c: int)
    ensures a * b * c == a * (b * c)
  {
  }

  /** The scaled gap of a sorted sequence is never negative. */
  lemma ScaledGapLowerBound(s: seq<nat>)
    requires Sorted(s)
    ensures 0 <= ScaledGap(CumSum(s), Sum(s), |s|)
  {
    var cum := CumSum(s);
    assert cum[..|s|] == cum;
    ScaledGapNonNegative(s, |s|);
  }

  /** The scaled gap is at most `(n - 1) * n * total / 2`: the last rank adds nothing. */
  lemma ScaledGapUpperBound(s: seq<nat>)
    requires !AllZero(s)
    ensures 2 * ScaledGap(CumSum(s), Sum(s), |s|) <= (|s| - 1) * (|s| * Sum(s))
  {
    var n, t := |s|, Sum(s);
    var cum := CumSum(s);
    LastCumIsTotal(s);
    var m := n - 1;
    var g := ScaledGap(cum[..m], t, n);
    ScaledGapUpper(cum, t, n, m);
    assert 2 * g <= m * (m + 1) * t;
    Reassociate(m, n, t);
    assert 2 * g <= m * (n * t);
    LastRankAddsNothing(cum, t, n);
  }

  lemma GiniOfSortedRange(s: seq<nat>)
    requires Sorted(s) && !AllZero(s)
    ensures 1.0 / (|s| as real) <= GiniOfSorted(s) <= 1.0
  {
    var n := |s|;
    var cum := CumSum(s);
    LastCumIsTotal(s);
    var t := Sum(s);
    var g := ScaledGap(cum, t, n);
    assert GiniOfSorted(s) == 1.0 - (2.0 / (n as real)) * LorenzGap(cum, t, n);
    GapScaling(cum, t, n);
    ScaledGapLowerBound(s);
    ScaledGapUpperBound(s);
    RealBounds(g, n, t);
  }

  /** With at least one commit the metric lies in `[1/n, 1]`, so in particular in `(0, 1]`. */
  lemma GiniRange(counts: seq<nat>)
    requires !AllZero(counts)
    ensures 1.0 / (|counts| as real) <= Gini(counts) <= 1.0
    ensures 0.0 < Gini(counts)
  {
    var s := Sort(counts);
    ZeroPermutation(counts, s);
    assert Gini(counts) == GiniOfSorted(s);
    GiniOfSortedRange(s);
    assert |s| == |counts| by {
      assert |multiset(s)| == |multiset(counts)|;
    }
    assert 1.0 / (|s| as real) > 0.0;
  }

  lemma {:induction false} SumOfConstant(s: seq<nat>, k: nat, j: nat)
    requires j <= |s|
    requires forall i :: 0 <= i < |s| ==> s[i] == k
    ensures Sum(s[..j]) == j * k
    decreases j
  {
    if j > 0 {
      SumOfConstant(s, k, j - 1);
      PrefixSumStep(s, j - 1);
    }
  }

  lemma {:induction false} EqualGapIsZero(s: seq<nat>, k: nat, j: nat)
    requires j <= |s|
    requires forall i :: 0 <= i < |s| ==> s[i] == k
    ensures ScaledGap(CumSum(s)[..j], |s| * k, |s|) == 0
    decreases j
  {
    if j > 0 {
      var cum := CumSum(s);
      EqualGapIsZero(s, k, j - 1);
      assert cum[..j][..j - 1] == cum[..j - 1];
      SumOfConstant(s, k, j);
      assert j * (|s| * k) == |s| * (j * k);
    }
  }

  lemma EqualLorenzGapIsZero(counts: seq<nat>, k: nat)
    requires |counts| > 0 && k > 0
    requires forall i :: 0 <= i < |counts| ==> counts[i] == k
    ensures LorenzGap(CumSum(counts), |counts| * k, |counts|) == 0.0
  {
    var n := |counts|;
    var cum := CumSum(counts);
    EqualGapIsZero(counts, k, n);
    assert cum[..n] == cum;
    GapScaling(cum, n * k, n);
  }

  /** Authors who all made the same positive number of commits score exactly 1. */
  lemma GiniOfEqualCounts(counts: seq<nat>, k: nat)
    requires |counts| > 0 && k > 0
    requires forall i :: 0 <= i < |counts| ==> counts[i] == k
    ensures Gini(counts) == 1.0
  {
    var n := |counts|;
    assert !AllZero(counts) by { assert counts[0] != 0; }
    SortedUnique(Sort(counts), counts);
    assert Gini(counts) == GiniOfSorted(counts);
    LastCumIsTotal(counts);
    SumOfConstant(counts, k, n);
    assert counts[..n] == counts;
    assert CumSum(counts)[n - 1] == n * k;
    EqualLorenzGapIsZero(counts, k);
  }

  /** The metric depends only on the multiset of counts, not on their order. */
  lemma GiniOrderIndependent(a: seq<nat>, b: seq<nat>)
    requires multiset(a) == multiset(b)
    ensures Gini(a) == Gini(b)
  {
    assert |a| == |multiset(a)| == |multiset(b)| == |b|;
    if !AllZero(a) {
      ZeroPermutation(a, b);
      SortedUnique(Sort(a), Sort(b));
    } else if !AllZero(b) {
      ZeroPermutation(b, a);
    }
  }

  lemma CumSumOfTwoAndEight()
    ensures CumSum([2, 8]) == [2, 10]
  {
    var s: seq<nat> := [2, 8];
    assert s[..1] == [2] && s[..2] == s;
    assert Sum([2]) == 2 by { assert [2][..0] == []; }
  }

  lemma GiniOfTwoAndEightSorted()
    ensures !AllZero([2, 8])
    ensures GiniOfSorted([2, 8]) == 0.7
  {
    var s: seq<nat> := [2, 8];
    assert s[1] != 0;
    CumSumOfTwoAndEight();
    var cum: seq<nat> := [2, 10];
    GapScaling(cum, 10, 2);
    assert ScaledGap(cum, 10, 2) == 6 by {
      assert cum[..1] == [2];
      assert [2][..0] == [];
      assert ScaledGap([2], 10, 2) == 6;
    }
    assert LorenzGap(cum, 10, 2) == 0.3;
  }

  /** Two authors with 8 and 2 commits: the sorted shares are 0.2 and 1 against
      population shares 0.5 and 1, so the metric is `1 - (2 / 2) * 0.3 = 0.7`. */
  lemma GiniOfEightAndTwo()
    ensures Gini([8, 2]) == 0.7
  {
    var counts: seq<nat> := [8, 2];
    assert counts[0] != 0;
    assert multiset(counts) == multiset([2, 8]);
    SortedUnique(Sort(counts), [2, 8]);
    GiniOfTwoAndEightSorted();
  }
}
