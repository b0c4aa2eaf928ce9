/** The dashboard script as a sequence of steps over data frames. A frame holds the
    coerced input records, which no step changes, and the derived columns that steps add to
    it in place. The cost ranking is a sorted copy with columns of its own. */
module Dashboard {
  import opened Table
  import Ranking
  import Derived
  import Views

  class Frame {
    const records: seq<Record>
    var durationPerMB: seq<Float>
    var invocationPercentage: seq<Float>
    var calculatedGBSeconds: seq<Option<real>>
    var predictedCost: seq<real>
    var cumulativeCost: seq<Option<real>>
    var cumulativePercentage: seq<Float>

    constructor (records: seq<Record>)
      ensures this.records == records
      ensures durationPerMB == [] && invocationPercentage == [] && calculatedGBSeconds == []
      ensures predictedCost == [] && cumulativeCost == [] && cumulativePercentage == []
    {
      this.records := records;
      durationPerMB, invocationPercentage, calculatedGBSeconds := [], [], [];
      predictedCost, cumulativeCost, cumulativePercentage := [], [], [];
    }

    /** `frame["DurationPerMB"] = AvgDurationMs / MemoryMB`. */
    method AddDurationPerMB()
      modifies this`durationPerMB
      ensures durationPerMB == Derived.DurationPerMBColumn(records)
    {
      durationPerMB := Derived.DurationPerMBColumn(records);
    }

    /** `frame["InvocationPercentage"] = InvocationsPerMonth / total_invocations * 100`. */
    method AddInvocationPercentage(totalInvocations: real)
      modifies this`invocationPercentage
      ensures invocationPercentage == Derived.InvocationPercentageColumn(records, totalInvocations)
    {
      invocationPercentage := Derived.InvocationPercentageColumn(records, totalInvocations);
    }

    /** `frame["CalculatedGBSeconds"] = ...`. */
    method AddCalculatedGBSeconds()
      modifies this`calculatedGBSeconds
      ensures calculatedGBSeconds == Derived.CalculatedGBSecondsColumn(records)
    {
      calculatedGBSeconds := Derived.CalculatedGBSecondsColumn(records);
    }

    /** `frame["PredictedCost"] = model.predict(X)`. */
    method AddPredictedCost(model: Derived.LinearModel)
      modifies this`predictedCost
      ensures predictedCost == Derived.PredictedCostColumn(model, records)
    {
      predictedCost := Derived.PredictedCostColumn(model, records);
    }

    /** `frame["CumulativeCost"] = frame["CostUSD"].cumsum()`. */
    method AddCumulativeCost()
      modifies this`cumulativeCost
      ensures cumulativeCost == Ranking.CumulativeCosts(records)
    {
      cumulativeCost := Ranking.RunningCostSum(records);
    }

    /** `frame["CumulativePercentage"] = CumulativeCost / total * 100`. */
    method AddCumulativePercentage(total: real)
      modifies this`cumulativePercentage
      ensures cumulativePercentage == Ranking.CumulativePercentages(cumulativeCost, total)
    {
      cumulativePercentage := Ranking.CumulativePercentages(cumulativeCost, total);
    }
  }

  /** A bubble chart sized by cost refuses a bubble whose size is absent or negative. */
  predicate InvalidBubbleSize(r: Record)
  {
    r.costUSD.None? || r.costUSD.value < 0.0
  }

  /** The provisioned-concurrency chart is drawn only for a non-empty view, and stops the
      script when some row of the view cannot be sized by its cost. */
  predicate ConcurrencyChartFails(view: seq<Record>)
  {
    exists i :: 0 <= i < |view| && InvalidBubbleSize(view[i])
  }

  /** The chart stops the script exactly when the table has a row with present, positive
      provisioned concurrency whose cost is absent or negative. */
  lemma ConcurrencyChartFailsOn(records: seq<Record>)
    ensures ConcurrencyChartFails(Views.ProvisionedConcurrencyFunctions(records)) <==>
              exists r :: r in records && r.provisionedConcurrency.Some?
                          && r.provisionedConcurrency.value > 0.0 && InvalidBubbleSize(r)
  {
    var view := Views.ProvisionedConcurrencyFunctions(records);
    Views.FilterMembers(records, Views.UsesProvisionedConcurrency);
    if ConcurrencyChartFails(view) {
      var i :| 0 <= i < |view| && InvalidBubbleSize(view[i]);
      assert view[i] in view;
    }
  }

  /** What the dashboard reports, apart from the charts. A section the script does not
      reach is absent: the provisioned-concurrency chart can stop the script after
      Exercise 3, and the regression refuses a table without rows, which stops it before
      the predictions and Exercise 6. */
  datatype Report = Report(
    totalMonthlyCost: real,
    costRanking: seq<Record>,
    cumulativeCost: seq<Option<real>>,
    cumulativePercentage: seq<Float>,
    topEightyPercentageCount: nat,
    durationPerMB: seq<Float>,
    rightsizingCandidates: seq<Record>,
    provisionedConcurrencyFunctions: seq<Record>,
    invocationPercentage: Option<seq<Float>>,
    lowValueWorkloads: Option<seq<Record>>,
    calculatedGBSeconds: Option<seq<Option<real>>>,
    predictedCost: Option<seq<real>>,
    containerCandidates: Option<seq<Record>>)

  /** The script's steps in its order, given the coerced records and the coefficients the
      regression produces from them when it has at least one row to fit. */
  method Run(records: seq<Record>, model: Derived.LinearModel) returns (report: Report)
    ensures report.totalMonthlyCost == Sum(records, Cost)
    ensures Ranking.IsCostDescending(report.costRanking)
    ensures multiset(report.costRanking) == multiset(records)
    ensures report.cumulativeCost == Ranking.CumulativeCosts(report.costRanking)
    ensures report.cumulativePercentage
            == Ranking.CumulativePercentages(report.cumulativeCost, report.totalMonthlyCost)
    ensures report.topEightyPercentageCount == Ranking.EightyPercentCount(report.cumulativePercentage)
    ensures report.durationPerMB == Derived.DurationPerMBColumn(records)
    ensures report.rightsizingCandidates == Views.RightsizingCandidates(records)
    ensures report.provisionedConcurrencyFunctions == Views.ProvisionedConcurrencyFunctions(records)
    ensures var reached := !ConcurrencyChartFails(report.provisionedConcurrencyFunctions);
            && (report.invocationPercentage.Some? <==> reached)
            && (report.lowValueWorkloads.Some? <==> reached)
            && (report.calculatedGBSeconds.Some? <==> reached)
            && (report.predictedCost.Some? <==> reached && |records| > 0)
            && (report.containerCandidates.Some? <==> reached && |records| > 0)
    ensures report.invocationPercentage.Some? ==>
              report.invocationPercentage.value
              == Derived.InvocationPercentageColumn(records, Sum(records, Invocations))
    ensures report.lowValueWorkloads.Some? ==> report.lowValueWorkloads.value == Views.LowValueWorkloads(records)
    ensures report.calculatedGBSeconds.Some? ==>
              report.calculatedGBSeconds.value == Derived.CalculatedGBSecondsColumn(records)
    ensures report.predictedCost.Some? ==>
              report.predictedCost.value == Derived.PredictedCostColumn(model, records)
    ensures report.containerCandidates.Some? ==>
              report.containerCandidates.value == Views.ContainerCandidates(records)
  {
    var frame := new Frame(records);

    // Exercise 1
    var ranked := new Frame(Ranking.SortByCost(frame.records));
    var totalMonthlyCost := Sum(frame.records, Cost);
    ranked.AddCumulativeCost();
    ranked.AddCumulativePercentage(totalMonthlyCost);
    var cumulativeCost, cumulativePercentage := ranked.cumulativeCost, ranked.cumulativePercentage;
    var count := Ranking.EightyPercentCount(cumulativePercentage);

    // Exercise 2
    frame.AddDurationPerMB();
    var durationPerMB := frame.durationPerMB;
    var rightsizing := Views.RightsizingCandidates(frame.records);

    // Exercise 3: the chart of a non-empty view may stop the script
    var provisioned := Views.ProvisionedConcurrencyFunctions(frame.records);
    var invocationPercentage: Option<seq<Float>> := None;
    var lowValue: Option<seq<Record>> := None;
    var calculatedGBSeconds: Option<seq<Option<real>>> := None;
    var predicted: Option<seq<real>> := None;
    var containers: Option<seq<Record>> := None;
    if !ConcurrencyChartFails(provisioned) {
      // Exercise 4
      var totalInvocations := Sum(frame.records, Invocations);
      frame.AddInvocationPercentage(totalInvocations);
      invocationPercentage := Some(frame.invocationPercentage);
      lowValue := Some(Views.LowValueWorkloads(frame.records));

      // Exercise 5: the fit needs at least one row
      frame.AddCalculatedGBSeconds();
      calculatedGBSeconds := Some(frame.calculatedGBSeconds);
      if |frame.records| > 0 {
        frame.AddPredictedCost(model);
        predicted := Some(frame.predictedCost);

        // Exercise 6
        containers := Some(Views.ContainerCandidates(frame.records));
      }
    }

    report := Report(totalMonthlyCost, ranked.records, cumulativeCost, cumulativePercentage,
                     count, durationPerMB, rightsizing, provisioned, invocationPercentage,
                     lowValue, calculatedGBSeconds, predicted, containers);
  }

  /** The worked example: costs 100, 50 and 10 are already in cost order, and their
      cumulative costs are 100, 150 and 160, that is 62.5%, 93.75% and 100%; one row is
      within 80%. */
  lemma ThreeRowExample(a: Record, b: Record, c: Record)
    requires a.costUSD == Some(100.0) && b.costUSD == Some(50.0) && c.costUSD == Some(10.0)
    ensures var rows := [a, b, c];
            var cum := Ranking.CumulativeCosts(rows);
            var pct := Ranking.CumulativePercentages(cum, Sum(rows, Cost));
            && Ranking.IsCostDescending(rows)
            && cum == [Some(100.0), Some(150.0), Some(160.0)]
            && pct == [Finite(62.5), Finite(93.75), Finite(100.0)]
            && Ranking.EightyPercentCount(pct) == 1
  {
    var rows := [a, b, c];
    assert rows[..1] == [a] && rows[..2] == [a, b] && rows[..3] == rows;
    assert [a, b][..1] == [a] && [a][..0] == [];
    assert Sum([a], Cost) == 100.0;
    assert Sum([a, b], Cost) == 150.0;
    assert Sum(rows, Cost) == 160.0;
    var cum := Ranking.CumulativeCosts(rows);
    assert cum[0] == Some(100.0) && cum[1] == Some(150.0) && cum[2] == Some(160.0);
    var pct := Ranking.CumulativePercentages(cum, Sum(rows, Cost));
    assert pct[1..][1..] == [pct[2]];
    assert Ranking.EightyPercentCount([pct[2]]) == 0 by {
      assert [pct[2]][1..] == [];
    }
    assert Ranking.EightyPercentCount(pct[1..]) == 0;
  }
}
