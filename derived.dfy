/** The per-row derived columns: duration per megabyte, each function's share of all
    invocations, the computed GB-seconds, and the cost the fitted linear model predicts. */
module Derived {
  import opened Table

  /** `AvgDurationMs / MemoryMB`. */
  function DurationPerMB(r: Record): Float
  {
    Divide(r.avgDurationMs, r.memoryMB)
  }

  /** `InvocationsPerMonth / total_invocations * 100`. */
  function InvocationPercentage(r: Record, totalInvocations: real): Float
  {
    Scale(Divide(r.invocationsPerMonth, Some(totalInvocations)), 100.0)
  }

  /** `InvocationsPerMonth * (AvgDurationMs / 1000) * (MemoryMB / 1024)`: present only when
      all three factors are, and then invocations times duration in seconds times memory in
      gibibytes. */
  function CalculatedGBSeconds(r: Record): (g: Option<real>)
    ensures g.Some? <==> r.invocationsPerMonth.Some? && r.avgDurationMs.Some? && r.memoryMB.Some?
    ensures g.Some? ==>
              g.value * 1024000.0 == r.invocationsPerMonth.value * r.avgDurationMs.value * r.memoryMB.value
  {
    match (r.invocationsPerMonth, r.avgDurationMs, r.memoryMB)
    case (Some(n), Some(d), Some(m)) => Some(n * (d / 1000.0) * (m / 1024.0))
    case _ => None
  }

  function DurationPerMBColumn(rows: seq<Record>): seq<Float>
  {
    seq(|rows|, i requires 0 <= i < |rows| => DurationPerMB(rows[i]))
  }

  function InvocationPercentageColumn(rows: seq<Record>, totalInvocations: real): seq<Float>
  {
    seq(|rows|, i requires 0 <= i < |rows| => InvocationPercentage(rows[i], totalInvocations))
  }

  function CalculatedGBSecondsColumn(rows: seq<Record>): seq<Option<real>>
  {
    seq(|rows|, i requires 0 <= i < |rows| => CalculatedGBSeconds(rows[i]))
  }

  /** The duration per megabyte is finite exactly when both cells are present and the memory
      is not zero, and then times the memory it gives back the duration; zero memory never
      gives a finite value. */
  lemma DurationPerMBDefined(r: Record)
    ensures DurationPerMB(r).Finite? <==> r.avgDurationMs.Some? && r.memoryMB.Some? && r.memoryMB.value != 0.0
    ensures DurationPerMB(r).Finite? ==> DurationPerMB(r).val * r.memoryMB.value == r.avgDurationMs.value
    ensures r.memoryMB == Some(0.0) ==> !DurationPerMB(r).Finite?
  {
  }

  /** A function's invocation share, given a positive total: its invocations as a percentage
      of the total, NaN when its count is absent. */
  lemma InvocationPercentageAt(r: Record, totalInvocations: real)
    requires totalInvocations > 0.0
    ensures r.invocationsPerMonth.Some? ==>
              InvocationPercentage(r, totalInvocations)
                == Finite(r.invocationsPerMonth.value / totalInvocations * 100.0)
    ensures r.invocationsPerMonth.None? ==> InvocationPercentage(r, totalInvocations) == NaN
  {
  }

  lemma {:induction false} PercentagesOfPrefix(rows: seq<Record>, t: real, n: nat)
    requires t > 0.0 && n <= |rows|
    ensures SumFinite(InvocationPercentageColumn(rows, t)[..n]) == Sum(rows[..n], Invocations) / t * 100.0
    decreases n
  {
    if n > 0 {
      var col := InvocationPercentageColumn(rows, t);
      PercentagesOfPrefix(rows, t, n - 1);
      var r := rows[n - 1];
      InvocationPercentageAt(r, t);
      var x := ValueOrZero(Invocations(r));
      assert col[..n][..n - 1] == col[..n - 1];
      assert SumFinite(col[..n]) == SumFinite(col[..n - 1]) + x / t * 100.0;
      assert rows[..n][..n - 1] == rows[..n - 1];
      assert Sum(rows[..n], Invocations) == Sum(rows[..n - 1], Invocations) + x;
      AddShares(Sum(rows[..n - 1], Invocations), x, t);
    }
  }

  lemma AddShares(a: real, b: real, t: real)
    requires t > 0.0
    ensures a / t * 100.0 + b / t * 100.0 == (a + b) / t * 100.0
  {
  }

  /** When the total invocation count is positive (and is the sum of the column), the
      invocation shares of the rows with a present count add up to 100. */
  lemma InvocationPercentagesSumToHundred(rows: seq<Record>)
    requires Sum(rows, Invocations) > 0.0
    ensures SumFinite(InvocationPercentageColumn(rows, Sum(rows, Invocations))) == 100.0
  {
    var t := Sum(rows, Invocations);
    PercentagesOfPrefix(rows, t, |rows|);
    assert InvocationPercentageColumn(rows, t)[..|rows|] == InvocationPercentageColumn(rows, t);
    assert rows[..|rows|] == rows;
    WholeShare(t);
  }

  lemma WholeShare(t: real)
    requires t > 0.0
    ensures t / t * 100.0 == 100.0
  {
  }

  /** The regression's result: intercept and one coefficient per feature. Fitting it is
      done by a foreign least-squares routine, so the model takes it as given. */
  datatype LinearModel = LinearModel(intercept: real, computeCoefficient: real, dataTransferCoefficient: real)

  /** The two features of a row as the model sees them, absent cells imputed as 0. */
  function Features(r: Record): (real, real)
  {
    (ValueOrZero(CalculatedGBSeconds(r)), ValueOrZero(r.dataTransferGB))
  }

  /** `model.predict(X)` for one row. */
  function PredictedCost(model: LinearModel, r: Record): real
  {
    var x := Features(r);
    model.intercept + model.computeCoefficient * x.0 + model.dataTransferCoefficient * x.1
  }

  function PredictedCostColumn(model: LinearModel, rows: seq<Record>): seq<real>
  {
    seq(|rows|, i requires 0 <= i < |rows| => PredictedCost(model, rows[i]))
  }

  /** A row with every cell the model reads present is predicted from its raw cells: the
      prediction, scaled by 1000 * 1024, is the intercept and the data-transfer term scaled
      alike plus the compute coefficient times invocations times duration times memory. */
  lemma PredictedCostOfCompleteRow(model: LinearModel, r: Record)
    requires r.invocationsPerMonth.Some? && r.avgDurationMs.Some? && r.memoryMB.Some?
    requires r.dataTransferGB.Some?
    ensures PredictedCost(model, r) * 1024000.0
            == (model.intercept + model.dataTransferCoefficient * r.dataTransferGB.value) * 1024000.0
               + model.computeCoefficient
                 * (r.invocationsPerMonth.value * r.avgDurationMs.value * r.memoryMB.value)
  {
  }

  /** Imputation: a row missing invocations, duration or memory has no computed
      GB-seconds, and the model then reads 0 for them and predicts from the data transfer
      alone, itself read as 0 when absent; so a row missing both is predicted as the
      intercept. */
  lemma PredictionOfMissingFeatures(model: LinearModel, r: Record)
    requires r.invocationsPerMonth.None? || r.avgDurationMs.None? || r.memoryMB.None?
    ensures r.dataTransferGB.Some? ==>
              PredictedCost(model, r) == model.intercept + model.dataTransferCoefficient * r.dataTransferGB.value
    ensures r.dataTransferGB.None? ==> PredictedCost(model, r) == model.intercept
  {
  }
}
