/** The month-by-month cash-flow projection engine of the school fee-revenue
    predictor.

    Every input of the engine comes from an integer widget; the percentage
    widgets are divided by 100 before use. The configuration keeps the widget
    values as integers and the rates derived from them are exact `real`s, so
    the arithmetic below is the rational arithmetic the floating-point code
    approximates. */
module Projection {

  /** The widget values the engine reads. `markupPct` is collected but never
      used by the calculation. */
  datatype Config = Config(
    tuitionBase: int,
    transportFee: int,
    otherFees: int,
    salaries: int,
    fixedCosts: int,
    marketing: int,
    markupPct: int,
    waiverPct: int,
    currentEnrollment: int,
    growthPct: int,
    arrearsPct: int,
    projectionMonths: int
  )

  /** One emitted row of the projection table. */
  datatype MonthlyRecord = MonthlyRecord(
    month: int,
    students: int,
    grossRevenue: real,
    realizedInflow: real,
    totalOutflow: real,
    netCashFlow: real
  )

  /** The ranges the input widgets enforce; the engine itself checks none. */
  predicate Valid(c: Config) {
    && 1000 <= c.tuitionBase <= 50000
    && 0 <= c.transportFee <= 5000
    && 0 <= c.otherFees <= 5000
    && 5000 <= c.salaries <= 500000
    && 0 <= c.fixedCosts <= 100000
    && 0 <= c.marketing <= 50000
    && 1 <= c.markupPct <= 200
    && 0 <= c.waiverPct <= 30
    && 1 <= c.currentEnrollment <= 5000
    && -20 <= c.growthPct <= 50
    && 0 <= c.arrearsPct <= 40
    && 1 <= c.projectionMonths <= 24
  }

  /** A slider percentage turned into a fraction. */
  function Rate(pct: int): (r: real)
    ensures r * 100.0 == pct as real
    ensures 0.0 <= r <= 1.0 <==> 0 <= pct <= 100
  {
    pct as real / 100.0
  }

  /** The monthly compounding factor: the annual growth rate spread over
      twelve months. */
  function GrowthFactor(c: Config): (g: real)
    ensures g > 0.0 <==> c.growthPct > -1200
    ensures g >= 1.0 <==> c.growthPct >= 0
    ensures g <= 1.0 <==> c.growthPct <= 0
    ensures g == 1.0 <==> c.growthPct == 0
  {
    1.0 + Rate(c.growthPct) / 12.0
  }

  /** Gross monthly fee billed per student. */
  function FeePerStudent(c: Config): real {
    (c.tuitionBase + c.transportFee + c.otherFees) as real
  }

  /** The monthly expense total; it does not depend on the month. */
  function Outflow(c: Config): real {
    (c.salaries + c.fixedCosts + c.marketing) as real
  }

  /** Gross revenue after the waiver discount and then the arrears discount. */
  function Realized(c: Config, gross: real): (r: real)
    ensures 0 <= c.waiverPct <= 100 && 0 <= c.arrearsPct <= 100 && 0.0 <= gross
            ==> 0.0 <= r <= gross
    ensures c.waiverPct == 0 && c.arrearsPct == 0 ==> r == gross
  {
    var afterWaiver := gross * (1.0 - Rate(c.waiverPct));
    assert 0 <= c.waiverPct <= 100 && 0.0 <= gross ==> 0.0 <= afterWaiver <= gross by {
      if 0 <= c.waiverPct <= 100 && 0.0 <= gross {
        ScaleDown(gross, 1.0 - Rate(c.waiverPct));
      }
    }
    var r := afterWaiver * (1.0 - Rate(c.arrearsPct));
    assert 0 <= c.waiverPct <= 100 && 0 <= c.arrearsPct <= 100 && 0.0 <= gross ==> 0.0 <= r <= afterWaiver by {
      if 0 <= c.waiverPct <= 100 && 0 <= c.arrearsPct <= 100 && 0.0 <= gross {
        ScaleDown(afterWaiver, 1.0 - Rate(c.arrearsPct));
      }
    }
    r
  }

  /** Multiplying a non-negative amount by a factor in [0, 1] keeps it between
      zero and itself. */
  lemma ScaleDown(x: real, f: real)
    requires 0.0 <= x && 0.0 <= f <= 1.0
    ensures 0.0 <= x * f <= x
  {
    assert x * f <= x * 1.0;
  }

  /** Truncation toward zero, as Python's `int()` does on a float. */
  function Trunc(x: real): (r: int)
    ensures 0.0 <= x ==> 0 <= r && r as real <= x < r as real + 1.0
    ensures x < 0.0 ==> r <= 0 && r as real - 1.0 < x <= r as real
  {
    if x >= 0.0 then x.Floor else -((-x).Floor)
  }

  /** The running enrollment after `k` months: each month multiplies the
      previous month's figure by the growth factor, without truncation. */
  function Enrollment(c: Config, k: nat): real {
    if k == 0 then c.currentEnrollment as real
    else Enrollment(c, k - 1) * GrowthFactor(c)
  }

  /** The record emitted for month `month` from the running enrollment `e`. */
  function Emit(c: Config, month: int, e: real): MonthlyRecord {
    var gross := e * FeePerStudent(c);
    var realized := Realized(c, gross);
    var outflow := Outflow(c);
    MonthlyRecord(month, Trunc(e), gross, realized, outflow, realized - outflow)
  }

  /** How many times the loop body runs: `range` of a non-positive count is
      empty. */
  function MonthCount(c: Config): (n: nat)
    ensures c.projectionMonths >= 0 ==> n == c.projectionMonths
    ensures c.projectionMonths <= 0 ==> n == 0
  {
    if c.projectionMonths > 0 then c.projectionMonths else 0
  }

  /** The first `n` records of the projection. */
  function Records(c: Config, n: nat): (r: seq<MonthlyRecord>)
    ensures |r| == n
    ensures forall i :: 0 <= i < n ==> r[i] == Emit(c, i + 1, Enrollment(c, i + 1))
  {
    if n == 0 then [] else Records(c, n - 1) + [Emit(c, n, Enrollment(c, n))]
  }

  /** The projection: one record per month, in month order, numbered from 1. */
  function Project(c: Config): (r: seq<MonthlyRecord>)
    ensures |r| == MonthCount(c)
    ensures c.projectionMonths >= 1 ==> |r| == c.projectionMonths
    ensures c.projectionMonths <= 0 ==> r == []
    ensures forall i :: 0 <= i < |r| ==> r[i].month == i + 1
  {
    Records(c, MonthCount(c))
  }

  /** The projection loop as written: a running enrollment multiplied once per
      month, and one record appended per iteration. */
  method ProjectLoop(c: Config) returns (data: seq<MonthlyRecord>)
    ensures data == Project(c)
  {
    data := [];
    var enrollment := c.currentEnrollment as real;
    var m := 0;
    while m < MonthCount(c)
      invariant 0 <= m <= MonthCount(c)
      invariant enrollment == Enrollment(c, m)
      invariant data == Records(c, m)
    {
      enrollment := enrollment * GrowthFactor(c);
      assert enrollment == Enrollment(c, m + 1);
      data := data + [Emit(c, m + 1, enrollment)];
      assert data == Records(c, m + 1);
      m := m + 1;
    }
  }
}
