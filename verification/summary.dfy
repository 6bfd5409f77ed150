/** The three headline figures derived from a projection: total projected
    profit, final student count and average monthly burn. They are plain
    reductions over the record sequence. */
module Summary {
  import opened Wrappers
  import opened Projection

  /** The monetary columns of the projection table. */
  datatype Column = GrossRevenue | RealizedInflow | TotalOutflow | NetCashFlow

  function Cell(r: MonthlyRecord, col: Column): real {
    match col
    case GrossRevenue => r.grossRevenue
    case RealizedInflow => r.realizedInflow
    case TotalOutflow => r.totalOutflow
    case NetCashFlow => r.netCashFlow
  }

  /** Column total, accumulated in month order; the total of no rows is 0. */
  function Sum(rs: seq<MonthlyRecord>, col: Column): real {
    if |rs| == 0 then 0.0 else Sum(rs[..|rs| - 1], col) + Cell(rs[|rs| - 1], col)
  }

  /** Total projected profit: the net cash flow summed over every month. */
  function TotalProjectedProfit(rs: seq<MonthlyRecord>): real {
    Sum(rs, NetCashFlow)
  }

  /** Final student count: the student count of the last row. An empty table
      has no last row. */
  function FinalStudentCount(rs: seq<MonthlyRecord>): (r: Option<int>)
    ensures r.Some? <==> |rs| > 0
    ensures r.Some? ==> r.value == rs[|rs| - 1].students
  {
    if |rs| == 0 then None else Some(rs[|rs| - 1].students)
  }

  /** Average monthly burn: the mean of the outflow column. The mean of an
      empty column is undefined. */
  function AvgMonthlyBurn(rs: seq<MonthlyRecord>): (r: Option<real>)
    ensures r.Some? <==> |rs| > 0
    ensures r.Some? ==> r.value * |rs| as real == Sum(rs, TotalOutflow)
  {
    if |rs| == 0 then None else Some(Sum(rs, TotalOutflow) / |rs| as real)
  }

  /** A column that holds the same value `k` in every row sums to `k` times
      the number of rows. */
  lemma {:induction false} SumConstant(rs: seq<MonthlyRecord>, col: Column, k: real)
    requires forall i :: 0 <= i < |rs| ==> Cell(rs[i], col) == k
    ensures Sum(rs, col) == |rs| as real * k
  {
    if |rs| > 0 {
      var front := rs[..|rs| - 1];
      assert forall i :: 0 <= i < |front| ==> front[i] == rs[i];
      SumConstant(front, col, k);
    }
  }

  /** When every row's net cash flow is its inflow minus its outflow, the
      column totals obey the same relation. */
  lemma {:induction false} SumNetIsInflowMinusOutflow(rs: seq<MonthlyRecord>)
    requires forall i :: 0 <= i < |rs| ==> rs[i].netCashFlow == rs[i].realizedInflow - rs[i].totalOutflow
    ensures Sum(rs, NetCashFlow) == Sum(rs, RealizedInflow) - Sum(rs, TotalOutflow)
  {
    if |rs| > 0 {
      var front := rs[..|rs| - 1];
      assert forall i :: 0 <= i < |front| ==> front[i] == rs[i];
      SumNetIsInflowMinusOutflow(front);
    }
  }

  /** When every row carries the same outflow `k`, the average burn of a
      non-empty table is `k`. */
  lemma AvgOfConstantOutflow(rs: seq<MonthlyRecord>, k: real)
    requires |rs| > 0
    requires forall i :: 0 <= i < |rs| ==> Cell(rs[i], TotalOutflow) == k
    ensures AvgMonthlyBurn(rs) == Some(k)
  {
    SumConstant(rs, TotalOutflow, k);
    var avg := AvgMonthlyBurn(rs).value;
    assert avg * |rs| as real == |rs| as real * k;
    Cancel(|rs| as real, avg, k);
  }

  /** A common positive factor cancels. */
  lemma Cancel(n: real, x: real, y: real)
    requires n > 0.0 && x * n == n * y
    ensures x == y
  {
    assert (x - y) * n == 0.0;
  }
}
