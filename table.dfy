/** The telemetry table: one record per serverless function, numeric cells that may
    be absent (text that did not parse as a number), the values a float division
    can produce, and column sums that skip absent cells. */
module Table {

  datatype Option<+T> = None | Some(value: T)

  /** A float64 as far as the pipeline can observe it: a finite value, one of the two
      infinities that a division by zero yields, or NaN (also the value of an absent cell). */
  datatype Float = Finite(val: real) | PosInf | NegInf | NaN

  /** One row of the table after numeric coercion. A cell the row was too short to hold
      is absent (pandas pads short rows with NaN). */
  datatype Record = Record(
    functionName: Option<string>,
    environment: Option<string>,
    invocationsPerMonth: Option<real>,
    avgDurationMs: Option<real>,
    memoryMB: Option<real>,
    coldStartRate: Option<real>,
    provisionedConcurrency: Option<real>,
    gbSeconds: Option<real>,
    dataTransferGB: Option<real>,
    costUSD: Option<real>)

  // Column selectors, passed to the column-wide operations below.
  function Cost(r: Record): Option<real> { r.costUSD }
  function Invocations(r: Record): Option<real> { r.invocationsPerMonth }

  // Comparisons of a numeric cell with a constant: an absent cell fails every one.
  predicate Greater(x: Option<real>, c: real) { x.Some? && x.value > c }
  predicate Less(x: Option<real>, c: real) { x.Some? && x.value < c }

  // Comparisons of a float with a constant: NaN fails every one, infinities compare as usual.
  predicate FloatLess(x: Float, c: real)
  {
    match x
    case Finite(v) => v < c
    case NegInf => true
    case PosInf => false
    case NaN => false
  }

  predicate FloatAtMost(x: Float, c: real)
  {
    match x
    case Finite(v) => v <= c
    case NegInf => true
    case PosInf => false
    case NaN => false
  }

  /** Float division of two cells: absent operands give NaN, a zero divisor gives an
      infinity signed like the dividend, or NaN for 0/0. */
  function Divide(x: Option<real>, y: Option<real>): (q: Float)
    ensures q.Finite? <==> x.Some? && y.Some? && y.value != 0.0
    ensures q.Finite? ==> q.val * y.value == x.value
    ensures q == PosInf <==> x.Some? && y.Some? && y.value == 0.0 && x.value > 0.0
    ensures q == NegInf <==> x.Some? && y.Some? && y.value == 0.0 && x.value < 0.0
    ensures q == NaN <==> x.None? || y.None? || (y.value == 0.0 && x.value == 0.0)
  {
    if x.None? || y.None? then NaN
    else if y.value != 0.0 then Finite(x.value / y.value)
    else if x.value > 0.0 then PosInf
    else if x.value < 0.0 then NegInf
    else NaN
  }

  /** Multiplication of a float by a positive constant. */
  function Scale(x: Float, k: real): Float
    requires k > 0.0
  {
    match x
    case Finite(v) => Finite(v * k)
    case _ => x
  }

  /** Scaling by a positive factor and then comparing with a threshold is comparing the
      unscaled value with the threshold divided by that factor, for every float; so the
      `<= 80` and `< 1` tests on a percentage test the quotient against 0.8 and 0.01. */
  lemma ScaleThreshold(x: Float, k: real, c: real)
    requires k > 0.0
    ensures FloatAtMost(Scale(x, k), c) <==> FloatAtMost(x, c / k)
    ensures FloatLess(Scale(x, k), c) <==> FloatLess(x, c / k)
  {
  }

  /** The imputation `fillna(0)`: an absent cell counts as zero. */
  function ValueOrZero(x: Option<real>): real
  {
    if x.Some? then x.value else 0.0
  }

  /** `Series.sum()` of one column: the sum of its present cells (0 for none). */
  function Sum(rows: seq<Record>, column: Record -> Option<real>): real
  {
    if |rows| == 0 then 0.0
    else Sum(rows[..|rows| - 1], column) + ValueOrZero(column(rows[|rows| - 1]))
  }

  /** Sum of the finite entries of a float column (NaN and infinities skipped). */
  function SumFinite(xs: seq<Float>): real
  {
    if |xs| == 0 then 0.0
    else SumFinite(xs[..|xs| - 1]) + (if xs[|xs| - 1].Finite? then xs[|xs| - 1].val else 0.0)
  }

  lemma {:induction false} SumAppend(a: seq<Record>, b: seq<Record>, column: Record -> Option<real>)
    ensures Sum(a + b, column) == Sum(a, column) + Sum(b, column)
    decreases |b|
  {
    if |b| == 0 {
      assert a + b == a;
    } else {
      assert (a + b)[..|a + b| - 1] == a + b[..|b| - 1];
      SumAppend(a, b[..|b| - 1], column);
    }
  }

  /** A column sum does not depend on the order of the rows. */
  lemma {:induction false} SumPermutation(a: seq<Record>, b: seq<Record>, column: Record -> Option<real>)
    requires multiset(a) == multiset(b)
    ensures Sum(a, column) == Sum(b, column)
    decreases |a|
  {
    if |a| == 0 {
      assert |b| == |multiset(b)| == 0;
    } else {
      var x := a[|a| - 1];
      var a' := a[..|a| - 1];
      assert a == a' + [x];
      assert x in multiset(b);
      var k :| 0 <= k < |b| && b[k] == x;
      var b' := b[..k] + b[k + 1..];
      RemoveAt(b, k);
      assert multiset(a') == multiset(a) - multiset{x};
      SumPermutation(a', b', column);
      SumRemoveAt(b, k, column);
      SumAppend(a', [x], column);
      SumSingle(x, column);
    }
  }

  lemma RemoveAt(b: seq<Record>, k: nat)
    requires k < |b|
    ensures multiset(b[..k] + b[k + 1..]) == multiset(b) - multiset{b[k]}
  {
    assert b == b[..k] + [b[k]] + b[k + 1..];
  }

  lemma SumSingle(x: Record, column: Record -> Option<real>)
    ensures Sum([x], column) == ValueOrZero(column(x))
  {
    assert [x][..0] == [];
  }

  lemma SumRemoveAt(b: seq<Record>, k: nat, column: Record -> Option<real>)
    requires k < |b|
    ensures Sum(b, column) == Sum(b[..k] + b[k + 1..], column) + ValueOrZero(column(b[k]))
  {
    var x, before, after := b[k], b[..k], b[k + 1..];
    assert b == (before + [x]) + after;
    calc {
      Sum(b, column);
      { SumAppend(before + [x], after, column); }
      Sum(before + [x], column) + Sum(after, column);
      { SumAppend(before, [x], column); SumSingle(x, column); }
      Sum(before, column) + ValueOrZero(column(x)) + Sum(after, column);
      { SumAppend(before, after, column); }
      Sum(before + after, column) + ValueOrZero(column(x));
    }
  }

  /** A column whose present cells are non-negative has a non-negative sum. */
  lemma {:induction false} SumNonNegative(rows: seq<Record>, column: Record -> Option<real>)
    requires forall r :: r in rows && column(r).Some? ==> column(r).value >= 0.0
    ensures Sum(rows, column) >= 0.0
    decreases |rows|
  {
    if |rows| > 0 {
      var init := rows[..|rows| - 1];
      assert forall r :: r in init ==> r in rows;
      SumNonNegative(init, column);
      assert rows[|rows| - 1] in rows;
    }
  }
}
