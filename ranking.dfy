/** Exercise 1: the rows sorted by cost, highest first, with absent costs last; the running
    cumulative cost along that order, its percentage of the total cost, and the number of
    rows whose cumulative percentage is at most 80. */
module Ranking {
  import opened Table

  /** `a` may stand before `b` when sorting by cost descending with NaN placed last. */
  predicate CostPrecedes(a: Record, b: Record)
  {
    b.costUSD.None? || (a.costUSD.Some? && a.costUSD.value >= b.costUSD.value)
  }

  predicate IsCostDescending(s: seq<Record>)
  {
    forall i, j :: 0 <= i < j < |s| ==> CostPrecedes(s[i], s[j])
  }

  function Insert(x: Record, s: seq<Record>): (r: seq<Record>)
    requires IsCostDescending(s)
    ensures IsCostDescending(r)
    ensures multiset(r) == multiset(s) + multiset{x}
  {
    if |s| == 0 then [x]
    else if CostPrecedes(x, s[0]) then
      assert IsCostDescending([x] + s) by {
        forall j | 1 <= j < |s| ensures CostPrecedes(x, s[j]) {
          assert CostPrecedes(s[0], s[j]);
        }
      }
      [x] + s
    else
      var tail := Insert(x, s[1..]);
      assert s == [s[0]] + s[1..];
      HeadBeforeInserted(x, s, tail);
      [s[0]] + tail
  }

  lemma HeadBeforeInserted(x: Record, s: seq<Record>, tail: seq<Record>)
    requires IsCostDescending(s) && |s| > 0 && !CostPrecedes(x, s[0])
    requires IsCostDescending(tail) && multiset(tail) == multiset(s[1..]) + multiset{x}
    ensures IsCostDescending([s[0]] + tail)
  {
    forall k | 0 <= k < |tail| ensures CostPrecedes(s[0], tail[k]) {
      assert tail[k] in multiset(tail);
      if tail[k] != x {
        assert tail[k] in multiset(s[1..]);
        var m :| 0 <= m < |s[1..]| && s[1..][m] == tail[k];
        assert s[m + 1] == tail[k];
      }
    }
    var r := [s[0]] + tail;
    forall i, j | 0 <= i < j < |r| ensures CostPrecedes(r[i], r[j]) {
      if i == 0 {
        assert r[j] == tail[j - 1];
      } else {
        assert r[i] == tail[i - 1] && r[j] == tail[j - 1];
      }
    }
  }

  /** `sort_values("CostUSD", ascending=False)`. The order among equal costs is this
      insertion sort's; nothing proved elsewhere depends on it (pandas' default sort is not
      stable), since every property of the ranking is stated for any cost-descending
      permutation of the rows. */
  function SortByCost(rows: seq<Record>): (sorted: seq<Record>)
    ensures IsCostDescending(sorted)
    ensures multiset(sorted) == multiset(rows)
  {
    if |rows| == 0 then []
    else
      assert rows == [rows[0]] + rows[1..];
      Insert(rows[0], SortByCost(rows[1..]))
  }

  /** `cumsum()` of the cost column: at a present cost, the sum of the present costs up to
      and including that row; at an absent cost, absent. */
  function CumulativeCosts(sorted: seq<Record>): (cum: seq<Option<real>>)
  {
    seq(|sorted|, i requires 0 <= i < |sorted| =>
      if sorted[i].costUSD.Some? then Some(Sum(sorted[..i + 1], Cost)) else None)
  }

  /** The running accumulator that computes the cumulative cost column. */
  method RunningCostSum(sorted: seq<Record>) returns (cum: seq<Option<real>>)
    ensures cum == CumulativeCosts(sorted)
  {
    cum := [];
    var total := 0.0;
    var i := 0;
    while i < |sorted|
      invariant 0 <= i <= |sorted|
      invariant |cum| == i
      invariant total == Sum(sorted[..i], Cost)
      invariant forall k :: 0 <= k < i ==> cum[k] == CumulativeCosts(sorted)[k]
    {
      assert sorted[..i + 1][..i] == sorted[..i];
      match sorted[i].costUSD {
        case Some(c) =>
          total := total + c;
          cum := cum + [Some(total)];
        case None =>
          cum := cum + [None];
      }
      i := i + 1;
    }
  }

  /** `CumulativeCost / total * 100`. */
  function CumulativePercentages(cum: seq<Option<real>>, total: real): (pct: seq<Float>)
  {
    seq(|cum|, i requires 0 <= i < |cum| => Scale(Divide(cum[i], Some(total)), 100.0))
  }

  /** `(CumulativePercentage <= 80).sum()`: how many entries are at most 80. */
  function EightyPercentCount(pct: seq<Float>): (n: nat)
    ensures n <= |pct|
  {
    if |pct| == 0 then 0
    else (if FloatAtMost(pct[0], 80.0) then 1 else 0) + EightyPercentCount(pct[1..])
  }

  predicate NonNegativeCosts(rows: seq<Record>)
  {
    forall r :: r in rows && r.costUSD.Some? ==> r.costUSD.value >= 0.0
  }

  /** Absent costs come after every present one. */
  lemma AbsentCostsLast(sorted: seq<Record>, i: nat, j: nat)
    requires IsCostDescending(sorted)
    requires i < j < |sorted| && sorted[i].costUSD.None?
    ensures sorted[j].costUSD.None?
  {
    assert CostPrecedes(sorted[i], sorted[j]);
  }

  lemma {:induction false} SumOfAbsent(rows: seq<Record>)
    requires forall k :: 0 <= k < |rows| ==> rows[k].costUSD.None?
    ensures Sum(rows, Cost) == 0.0
    decreases |rows|
  {
    if |rows| > 0 {
      SumOfAbsent(rows[..|rows| - 1]);
    }
  }

  /** At the last row with a present cost the cumulative cost is the total cost of the
      table the rows were sorted from. */
  lemma LastCumulativeIsTotal(rows: seq<Record>, sorted: seq<Record>, k: nat)
    requires multiset(sorted) == multiset(rows) && IsCostDescending(sorted)
    requires k < |sorted| && sorted[k].costUSD.Some?
    requires k + 1 == |sorted| || sorted[k + 1].costUSD.None?
    ensures CumulativeCosts(sorted)[k] == Some(Sum(rows, Cost))
  {
    var tail := sorted[k + 1..];
    forall j | 0 <= j < |tail| ensures tail[j].costUSD.None? {
      if j > 0 {
        AbsentCostsLast(sorted, k + 1, k + 1 + j);
      }
    }
    SumOfAbsent(tail);
    assert sorted == sorted[..k + 1] + tail;
    SumAppend(sorted[..k + 1], tail, Cost);
    SumPermutation(sorted, rows, Cost);
  }

  /** With non-negative costs the cumulative cost never decreases along the order. */
  lemma CumulativeCostMonotone(sorted: seq<Record>, i: nat, j: nat)
    requires NonNegativeCosts(sorted)
    requires i <= j < |sorted| && sorted[i].costUSD.Some? && sorted[j].costUSD.Some?
    ensures CumulativeCosts(sorted)[i].value <= CumulativeCosts(sorted)[j].value
  {
    var middle := sorted[i + 1..j + 1];
    assert sorted[..j + 1] == sorted[..i + 1] + middle;
    SumAppend(sorted[..i + 1], middle, Cost);
    assert forall r :: r in middle ==> r in sorted;
    SumNonNegative(middle, Cost);
  }

  /** Given a positive total, a present row's percentage is finite and is its cumulative
      cost as a percentage of the total; an absent row's is NaN. */
  lemma PercentageAt(sorted: seq<Record>, total: real, i: nat)
    requires total > 0.0 && i < |sorted|
    ensures var p := CumulativePercentages(CumulativeCosts(sorted), total)[i];
            && (sorted[i].costUSD.Some? ==>
                  p.Finite? && p.val == CumulativeCosts(sorted)[i].value / total * 100.0)
            && (sorted[i].costUSD.None? ==> p == NaN)
  {
  }

  /** With non-negative costs and a positive total the cumulative percentage never
      decreases along the present-cost rows. */
  lemma PercentageMonotone(sorted: seq<Record>, total: real, i: nat, j: nat)
    requires NonNegativeCosts(sorted) && total > 0.0
    requires i <= j < |sorted| && sorted[i].costUSD.Some? && sorted[j].costUSD.Some?
    ensures var pct := CumulativePercentages(CumulativeCosts(sorted), total);
            pct[i].Finite? && pct[j].Finite? && pct[i].val <= pct[j].val
  {
    var cum := CumulativeCosts(sorted);
    CumulativeCostMonotone(sorted, i, j);
    PercentageAt(sorted, total, i);
    PercentageAt(sorted, total, j);
    DivisionMonotone(cum[i].value, cum[j].value, total);
  }

  lemma DivisionMonotone(a: real, b: real, t: real)
    requires a <= b && t > 0.0
    ensures a / t * 100.0 <= b / t * 100.0
  {
    assert b / t - a / t == (b - a) / t;
  }

  /** The cumulative percentage reaches exactly 100 at the last present-cost row. */
  lemma PercentageReachesHundred(rows: seq<Record>, sorted: seq<Record>, k: nat)
    requires multiset(sorted) == multiset(rows) && IsCostDescending(sorted)
    requires Sum(rows, Cost) > 0.0
    requires k < |sorted| && sorted[k].costUSD.Some?
    requires k + 1 == |sorted| || sorted[k + 1].costUSD.None?
    ensures CumulativePercentages(CumulativeCosts(sorted), Sum(rows, Cost))[k] == Finite(100.0)
  {
    LastCumulativeIsTotal(rows, sorted, k);
    PercentageAt(sorted, Sum(rows, Cost), k);
  }

  /** Counting the entries of a column whose "at most 80" is closed downwards (it holds at
      every entry before one where it holds) gives the length of its longest prefix. */
  lemma {:induction false} CountOfDownwardClosed(pct: seq<Float>)
    requires forall i, j :: 0 <= i < j < |pct| && FloatAtMost(pct[j], 80.0) ==> FloatAtMost(pct[i], 80.0)
    ensures var n := EightyPercentCount(pct);
            && (forall i :: 0 <= i < n ==> FloatAtMost(pct[i], 80.0))
            && (forall i :: n <= i < |pct| ==> !FloatAtMost(pct[i], 80.0))
    decreases |pct|
  {
    if |pct| > 0 {
      var rest := pct[1..];
      assert forall i :: 0 <= i < |rest| ==> rest[i] == pct[i + 1];
      CountOfDownwardClosed(rest);
      if !FloatAtMost(pct[0], 80.0) {
        assert forall j :: 0 < j < |pct| ==> !FloatAtMost(pct[j], 80.0);
        CountOfNone(rest);
      }
    }
  }

  lemma {:induction false} CountOfNone(pct: seq<Float>)
    requires forall i :: 0 <= i < |pct| ==> !FloatAtMost(pct[i], 80.0)
    ensures EightyPercentCount(pct) == 0
    decreases |pct|
  {
    if |pct| > 0 {
      CountOfNone(pct[1..]);
    }
  }

  /** With non-negative costs and a positive total cost, the 80% count is the length of the
      longest prefix of the cost ranking whose cumulative percentage is at most 80: every row
      before it is within 80%, and none from it on. */
  lemma EightyPercentCountIsPrefix(rows: seq<Record>, sorted: seq<Record>)
    requires multiset(sorted) == multiset(rows) && IsCostDescending(sorted)
    requires NonNegativeCosts(rows) && Sum(rows, Cost) > 0.0
    ensures var pct := CumulativePercentages(CumulativeCosts(sorted), Sum(rows, Cost));
            var n := EightyPercentCount(pct);
            && n <= |rows|
            && (forall i :: 0 <= i < n ==> FloatAtMost(pct[i], 80.0))
            && (forall i :: n <= i < |sorted| ==> !FloatAtMost(pct[i], 80.0))
  {
    var total := Sum(rows, Cost);
    var pct := CumulativePercentages(CumulativeCosts(sorted), total);
    assert |sorted| == |multiset(rows)| == |rows|;
    assert NonNegativeCosts(sorted) by {
      forall r | r in sorted ensures r in rows {
        assert r in multiset(sorted);
      }
    }
    forall i, j | 0 <= i < j < |pct| && FloatAtMost(pct[j], 80.0) ensures FloatAtMost(pct[i], 80.0) {
      PercentageAt(sorted, total, j);
      PercentageMonotone(sorted, total, i, j);
    }
    CountOfDownwardClosed(pct);
  }
}
