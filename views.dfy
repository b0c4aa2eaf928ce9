/** The threshold views: boolean-mask selections of the table, each keeping exactly the
    rows whose cells pass its comparisons (an absent cell or a NaN quotient fails every
    comparison), in table order; the right-sizing view is then sorted by cost. */
module Views {
  import opened Table
  import Ranking
  import Derived

  /** `frame[mask]`: the rows that pass, in their original order. */
  function Filter(rows: seq<Record>, keep: Record -> bool): (kept: seq<Record>)
    ensures |kept| <= |rows|
  {
    if |rows| == 0 then [] else Kept(rows[0], keep) + Filter(rows[1..], keep)
  }

  function Kept(x: Record, keep: Record -> bool): seq<Record>
  {
    if keep(x) then [x] else []
  }

  /** A row occurs in the selection as often as in the table if it passes, and not at all
      otherwise. */
  lemma {:induction false} FilterCounts(rows: seq<Record>, keep: Record -> bool, x: Record)
    ensures multiset(Filter(rows, keep))[x] == if keep(x) then multiset(rows)[x] else 0
    decreases |rows|
  {
    if |rows| > 0 {
      FilterCounts(rows[1..], keep, x);
      assert rows == [rows[0]] + rows[1..];
    }
  }

  lemma FilterMembers(rows: seq<Record>, keep: Record -> bool)
    ensures forall x :: x in Filter(rows, keep) <==> x in rows && keep(x)
  {
    forall x ensures x in Filter(rows, keep) <==> x in rows && keep(x) {
      FilterCounts(rows, keep, x);
    }
  }

  /** Selection keeps order: selecting from two runs of rows is selecting from each in turn. */
  lemma {:induction false} FilterAppend(a: seq<Record>, b: seq<Record>, keep: Record -> bool)
    ensures Filter(a + b, keep) == Filter(a, keep) + Filter(b, keep)
    decreases |a|
  {
    if |a| == 0 {
      assert a + b == b;
    } else {
      var ab := a + b;
      assert ab[0] == a[0];
      assert ab[1..] == a[1..] + b;
      calc {
        Filter(ab, keep);
        Kept(a[0], keep) + Filter(a[1..] + b, keep);
        { FilterAppend(a[1..], b, keep); }
        Kept(a[0], keep) + (Filter(a[1..], keep) + Filter(b, keep));
        (Kept(a[0], keep) + Filter(a[1..], keep)) + Filter(b, keep);
      }
    }
  }

  /** Selecting again with the same condition changes nothing. */
  lemma {:induction false} FilterIdempotent(rows: seq<Record>, keep: Record -> bool)
    ensures Filter(Filter(rows, keep), keep) == Filter(rows, keep)
    decreases |rows|
  {
    if |rows| > 0 {
      FilterIdempotent(rows[1..], keep);
      var rest := Filter(rows[1..], keep);
      if keep(rows[0]) {
        assert ([rows[0]] + rest)[1..] == rest;
      } else {
        assert [] + rest == rest;
      }
    }
  }

  /** Exercise 2: low duration per megabyte on a large production function. */
  predicate IsRightsizingCandidate(r: Record)
  {
    FloatLess(Derived.DurationPerMB(r), 0.3) && Greater(r.memoryMB, 1024.0) && r.environment == Some("production")
  }

  function RightsizingCandidates(rows: seq<Record>): seq<Record>
  {
    Ranking.SortByCost(Filter(rows, IsRightsizingCandidate))
  }

  /** Exercise 3: functions with provisioned concurrency. */
  predicate UsesProvisionedConcurrency(r: Record)
  {
    Greater(r.provisionedConcurrency, 0.0)
  }

  function ProvisionedConcurrencyFunctions(rows: seq<Record>): seq<Record>
  {
    Filter(rows, UsesProvisionedConcurrency)
  }

  /** Exercise 4: under 1% of all invocations yet over $10 a month. */
  predicate IsLowValue(r: Record, totalInvocations: real)
  {
    FloatLess(Derived.InvocationPercentage(r, totalInvocations), 1.0) && Greater(r.costUSD, 10.0)
  }

  function LowValueWorkloads(rows: seq<Record>): seq<Record>
  {
    var total := Sum(rows, Invocations);
    Filter(rows, r => IsLowValue(r, total))
  }

  /** Exercise 6: long-running, memory-heavy, rarely invoked functions. */
  predicate IsContainerCandidate(r: Record)
  {
    Greater(r.avgDurationMs, 3000.0) && Greater(r.memoryMB, 2048.0) && Less(r.invocationsPerMonth, 1000.0)
  }

  function ContainerCandidates(rows: seq<Record>): seq<Record>
  {
    Filter(rows, IsContainerCandidate)
  }

  /** A row is a right-sizing candidate exactly when its duration and memory are present,
      the memory exceeds 1024 MB, the duration per megabyte is under 0.3 and the environment
      is "production"; so zero or absent memory always excludes it. */
  lemma RightsizingCondition(r: Record)
    ensures IsRightsizingCandidate(r) <==>
              && r.avgDurationMs.Some? && r.memoryMB.Some?
              && r.memoryMB.value > 1024.0
              && r.avgDurationMs.value / r.memoryMB.value < 0.3
              && r.environment == Some("production")
    ensures r.memoryMB == Some(0.0) || r.memoryMB.None? ==> !IsRightsizingCandidate(r)
  {
  }

  /** The right-sizing view holds each candidate of the table as often as the table does and
      nothing else, ordered by cost, highest first, absent costs last. */
  lemma RightsizingCandidatesSpec(rows: seq<Record>, x: Record)
    ensures Ranking.IsCostDescending(RightsizingCandidates(rows))
    ensures multiset(RightsizingCandidates(rows))[x] == if IsRightsizingCandidate(x) then multiset(rows)[x] else 0
    ensures x in RightsizingCandidates(rows) <==> x in rows && IsRightsizingCandidate(x)
  {
    FilterCounts(rows, IsRightsizingCandidate, x);
  }

  /** Re-selecting the candidates from the right-sizing view gives back all of it (in the
      view's own order). */
  lemma RightsizingClosed(rows: seq<Record>)
    ensures Filter(RightsizingCandidates(rows), IsRightsizingCandidate) == RightsizingCandidates(rows)
  {
    var view := RightsizingCandidates(rows);
    FilterMembers(rows, IsRightsizingCandidate);
    forall x | x in view ensures IsRightsizingCandidate(x) {
      assert x in multiset(view);
    }
    FilterAllPass(view, IsRightsizingCandidate);
  }

  lemma {:induction false} FilterAllPass(rows: seq<Record>, keep: Record -> bool)
    requires forall x :: x in rows ==> keep(x)
    ensures Filter(rows, keep) == rows
    decreases |rows|
  {
    if |rows| > 0 {
      assert forall x :: x in rows[1..] ==> x in rows;
      FilterAllPass(rows[1..], keep);
      assert [rows[0]] + rows[1..] == rows;
    }
  }

  /** A row uses provisioned concurrency exactly when that cell is present and positive. */
  lemma ProvisionedConcurrencyCondition(rows: seq<Record>, x: Record)
    ensures x in ProvisionedConcurrencyFunctions(rows) <==>
              x in rows && x.provisionedConcurrency.Some? && x.provisionedConcurrency.value > 0.0
    ensures multiset(ProvisionedConcurrencyFunctions(rows))[x]
            == if UsesProvisionedConcurrency(x) then multiset(rows)[x] else 0
    ensures ProvisionedConcurrencyFunctions(ProvisionedConcurrencyFunctions(rows)) == ProvisionedConcurrencyFunctions(rows)
  {
    FilterCounts(rows, UsesProvisionedConcurrency, x);
    FilterIdempotent(rows, UsesProvisionedConcurrency);
  }

  /** A row is low value exactly when its invocation count and cost are present, its cost is
      over $10 and its share of the total invocations is under 1%; when the total is 0 the
      share is an infinity or NaN, and only a negative count (whose share is -inf) passes. */
  lemma LowValueCondition(rows: seq<Record>, x: Record)
    ensures var t := Sum(rows, Invocations);
            x in LowValueWorkloads(rows) <==>
              && x in rows && x.invocationsPerMonth.Some? && x.costUSD.Some? && x.costUSD.value > 10.0
              && (t != 0.0 ==> x.invocationsPerMonth.value / t * 100.0 < 1.0)
              && (t == 0.0 ==> x.invocationsPerMonth.value < 0.0)
    ensures var t := Sum(rows, Invocations);
            multiset(LowValueWorkloads(rows))[x] == if IsLowValue(x, t) then multiset(rows)[x] else 0
  {
    var t := Sum(rows, Invocations);
    FilterCounts(rows, r => IsLowValue(r, t), x);
  }

  /** Re-applying the low-value condition (with the same total) to the view changes nothing. */
  lemma LowValueIdempotent(rows: seq<Record>)
    ensures var t := Sum(rows, Invocations);
            Filter(LowValueWorkloads(rows), r => IsLowValue(r, t)) == LowValueWorkloads(rows)
  {
    var t := Sum(rows, Invocations);
    FilterIdempotent(rows, r => IsLowValue(r, t));
  }

  /** A row is a container candidate exactly when duration, memory and invocation count are
      all present, over 3000 ms, over 2048 MB and under 1000 a month. */
  lemma ContainerCondition(rows: seq<Record>, x: Record)
    ensures x in ContainerCandidates(rows) <==>
              && x in rows
              && x.avgDurationMs.Some? && x.avgDurationMs.value > 3000.0
              && x.memoryMB.Some? && x.memoryMB.value > 2048.0
              && x.invocationsPerMonth.Some? && x.invocationsPerMonth.value < 1000.0
    ensures multiset(ContainerCandidates(rows))[x] == if IsContainerCandidate(x) then multiset(rows)[x] else 0
    ensures ContainerCandidates(ContainerCandidates(rows)) == ContainerCandidates(rows)
  {
    FilterCounts(rows, IsContainerCandidate, x);
    FilterIdempotent(rows, IsContainerCandidate);
  }
}
