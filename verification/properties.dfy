/** Properties of the projection: numbering, compounding, the direction of
    enrollment, constancy of the outflow, composition of the discounts, and
    what the headline figures come to. */
module ProjectionProperties {
  import opened Wrappers
  import opened Projection
  import opened Summary

  /** `x` to the power `k`, the reference for compounding. */
  function Pow(x: real, k: nat): real {
    if k == 0 then 1.0 else x * Pow(x, k - 1)
  }

  /** The starting count compounded `k` times, in closed form. */
  function Compounded(c: Config, k: nat): real {
    c.currentEnrollment as real * Pow(GrowthFactor(c), k)
  }

  /** The running enrollment after `k` months is the starting count times the
      growth factor to the power `k`. */
  lemma {:induction false} EnrollmentCompounds(c: Config, k: nat)
    ensures Enrollment(c, k) == Compounded(c, k)
  {
    if k > 0 {
      EnrollmentCompounds(c, k - 1);
      var n, g, p := c.currentEnrollment as real, GrowthFactor(c), Pow(GrowthFactor(c), k - 1);
      assert Enrollment(c, k - 1) == n * p;
      assert Pow(g, k) == g * p;
      assert (n * p) * g == n * (g * p);
    }
  }

  /** Under the widget bounds the growth factor is positive, so the running
      enrollment never reaches zero. */
  lemma {:induction false} EnrollmentPositive(c: Config, k: nat)
    requires c.currentEnrollment >= 1 && c.growthPct >= -20
    ensures Enrollment(c, k) > 0.0
  {
    if k > 0 {
      EnrollmentPositive(c, k - 1);
      var e, g := Enrollment(c, k - 1), GrowthFactor(c);
      assert e * g > 0.0 by { assert e > 0.0 && g > 0.0; }
    }
  }

  /** With non-negative growth the running enrollment never falls. */
  lemma {:induction false} EnrollmentNonDecreasing(c: Config, i: nat, j: nat)
    requires c.currentEnrollment >= 1 && c.growthPct >= 0
    requires i <= j
    ensures Enrollment(c, i) <= Enrollment(c, j)
  {
    if i < j {
      EnrollmentNonDecreasing(c, i, j - 1);
      EnrollmentPositive(c, j - 1);
      var e, g := Enrollment(c, j - 1), GrowthFactor(c);
      assert e <= e * g by { assert e * 1.0 <= e * g; }
    }
  }

  /** With positive growth the running enrollment strictly rises. */
  lemma {:induction false} EnrollmentIncreasing(c: Config, i: nat, j: nat)
    requires c.currentEnrollment >= 1 && c.growthPct > 0
    requires i < j
    ensures Enrollment(c, i) < Enrollment(c, j)
  {
    EnrollmentPositive(c, j - 1);
    var e, g := Enrollment(c, j - 1), GrowthFactor(c);
    assert e < e * g by { assert e * 1.0 < e * g; }
    if i < j - 1 {
      EnrollmentIncreasing(c, i, j - 1);
    }
  }

  /** With negative growth (down to the widget's -20%) the running enrollment
      strictly falls. */
  lemma {:induction false} EnrollmentDecreasing(c: Config, i: nat, j: nat)
    requires c.currentEnrollment >= 1 && -20 <= c.growthPct < 0
    requires i < j
    ensures Enrollment(c, j) < Enrollment(c, i)
  {
    EnrollmentPositive(c, j - 1);
    var e, g := Enrollment(c, j - 1), GrowthFactor(c);
    assert e * g < e by { assert e * g < e * 1.0; }
    if i < j - 1 {
      EnrollmentDecreasing(c, i, j - 1);
    }
  }

  /** With non-positive growth (down to the widget's -20%) the running
      enrollment never rises. */
  lemma {:induction false} EnrollmentNonIncreasing(c: Config, i: nat, j: nat)
    requires c.currentEnrollment >= 1 && -20 <= c.growthPct <= 0
    requires i <= j
    ensures Enrollment(c, j) <= Enrollment(c, i)
  {
    if i < j {
      EnrollmentNonIncreasing(c, i, j - 1);
      EnrollmentPositive(c, j - 1);
      var e, g := Enrollment(c, j - 1), GrowthFactor(c);
      assert e * g <= e by { assert e * g <= e * 1.0; }
    }
  }

  /** Truncation preserves order on non-negative values. */
  lemma TruncMonotone(x: real, y: real)
    requires 0.0 <= x <= y
    ensures Trunc(x) <= Trunc(y)
  {
  }

  /** Record `i` is the record emitted from the enrollment after `i + 1`
      months. */
  lemma ProjectAt(c: Config, i: nat)
    requires i < MonthCount(c)
    ensures |Project(c)| == MonthCount(c)
    ensures Project(c)[i] == Emit(c, i + 1, Enrollment(c, i + 1))
  {
  }

  /** Record `i` in closed form: month `i + 1`, the starting count compounded
      `i + 1` times, and the revenue that enrollment bills. */
  lemma RecordCompounds(c: Config, i: nat)
    requires i < MonthCount(c)
    ensures Project(c)[i].month == i + 1
    ensures Project(c)[i].students == Trunc(Compounded(c, i + 1))
    ensures Project(c)[i].grossRevenue == Compounded(c, i + 1) * FeePerStudent(c)
  {
    ProjectAt(c, i);
    EnrollmentCompounds(c, i + 1);
  }

  /** Under the widget bounds no record has a negative student count. */
  lemma StudentsNonNegative(c: Config)
    requires c.currentEnrollment >= 1 && c.growthPct >= -20
    ensures forall i :: 0 <= i < |Project(c)| ==> Project(c)[i].students >= 0
  {
    forall i: nat | i < |Project(c)|
      ensures Project(c)[i].students >= 0
    {
      ProjectAt(c, i);
      EnrollmentPositive(c, i + 1);
    }
  }

  /** With non-negative growth the student count never falls from one month
      to a later one. */
  lemma StudentsNonDecreasing(c: Config)
    requires c.currentEnrollment >= 1 && c.growthPct >= 0
    ensures forall i, j :: 0 <= i <= j < |Project(c)| ==> Project(c)[i].students <= Project(c)[j].students
  {
    var r := Project(c);
    forall i, j | 0 <= i <= j < |r|
      ensures r[i].students <= r[j].students
    {
      ProjectAt(c, i);
      ProjectAt(c, j);
      EnrollmentPositive(c, i + 1);
      EnrollmentNonDecreasing(c, i + 1, j + 1);
      TruncMonotone(Enrollment(c, i + 1), Enrollment(c, j + 1));
    }
  }

  /** With growth between -20% and 0 the student count never rises from one
      month to a later one. */
  lemma StudentsNonIncreasing(c: Config)
    requires c.currentEnrollment >= 1 && -20 <= c.growthPct <= 0
    ensures forall i, j :: 0 <= i <= j < |Project(c)| ==> Project(c)[j].students <= Project(c)[i].students
  {
    var r := Project(c);
    forall i, j | 0 <= i <= j < |r|
      ensures r[j].students <= r[i].students
    {
      ProjectAt(c, i);
      ProjectAt(c, j);
      EnrollmentPositive(c, j + 1);
      EnrollmentNonIncreasing(c, i + 1, j + 1);
      TruncMonotone(Enrollment(c, j + 1), Enrollment(c, i + 1));
    }
  }

  /** With zero growth every month has the starting student count and bills
      the same gross revenue. */
  lemma {:induction false} StudentsConstant(c: Config)
    requires c.growthPct == 0
    ensures forall i :: 0 <= i < |Project(c)| ==> Project(c)[i].students == c.currentEnrollment
    ensures forall i :: 0 <= i < |Project(c)| ==>
              Project(c)[i].grossRevenue == c.currentEnrollment as real * FeePerStudent(c)
  {
    forall i: nat | i < |Project(c)|
      ensures Project(c)[i].students == c.currentEnrollment
      ensures Project(c)[i].grossRevenue == c.currentEnrollment as real * FeePerStudent(c)
    {
      ProjectAt(c, i);
      EnrollmentCompounds(c, i + 1);
      PowOne(i + 1);
    }
  }

  /** Any power of 1 is 1. */
  lemma {:induction false} PowOne(k: nat)
    ensures Pow(1.0, k) == 1.0
  {
    if k > 0 {
      PowOne(k - 1);
    }
  }

  /** Truncation does not make the student count strictly monotone: at 1%
      annual growth from one student, the enrollment rises but the count
      stays at 1 in both months. */
  lemma StudentsCanStall(c: Config)
    requires c == Config(5000, 500, 200, 50000, 15000, 2000, 20, 5, 1, 1, 12, 2)
    ensures Valid(c) && c.growthPct > 0
    ensures Enrollment(c, 1) < Enrollment(c, 2)
    ensures Project(c)[0].students == 1 && Project(c)[1].students == 1
  {
    StallEnrollments(c);
    ProjectAt(c, 0);
    ProjectAt(c, 1);
    TruncIsOne(1201.0 / 1200.0);
    TruncIsOne(1442401.0 / 1440000.0);
  }

  /** The enrollment of the stalling configuration after one and two months. */
  lemma StallEnrollments(c: Config)
    requires c == Config(5000, 500, 200, 50000, 15000, 2000, 20, 5, 1, 1, 12, 2)
    ensures Enrollment(c, 1) == 1201.0 / 1200.0
    ensures Enrollment(c, 2) == 1442401.0 / 1440000.0
  {
    assert GrowthFactor(c) == 1201.0 / 1200.0;
    assert Enrollment(c, 1) == 1201.0 / 1200.0;
  }

  /** Every value in [1, 2) truncates to 1. */
  lemma TruncIsOne(x: real)
    requires 1.0 <= x < 2.0
    ensures Trunc(x) == 1
  {
  }

  /** Every record carries the same outflow, the sum of the three expense
      inputs. */
  lemma OutflowConstant(c: Config)
    ensures forall i :: 0 <= i < |Project(c)| ==>
              Project(c)[i].totalOutflow == (c.salaries + c.fixedCosts + c.marketing) as real
  {
    forall i: nat | i < |Project(c)|
      ensures Project(c)[i].totalOutflow == (c.salaries + c.fixedCosts + c.marketing) as real
    {
      ProjectAt(c, i);
    }
  }

  /** The outflow column holds the monthly expense total in every row:
      `OutflowConstant` read through the column accessor. */
  lemma OutflowColumn(c: Config)
    ensures forall i :: 0 <= i < |Project(c)| ==> Cell(Project(c)[i], TotalOutflow) == Outflow(c)
  {
    OutflowConstant(c);
  }

  /** In every record the realized inflow is the gross revenue reduced by the
      waiver and then by the arrears. */
  lemma DiscountComposition(c: Config)
    ensures forall i :: 0 <= i < |Project(c)| ==>
              Project(c)[i].realizedInflow
              == Project(c)[i].grossRevenue * (1.0 - Rate(c.waiverPct)) * (1.0 - Rate(c.arrearsPct))
  {
    forall i: nat | i < |Project(c)|
      ensures Project(c)[i].realizedInflow
              == Project(c)[i].grossRevenue * (1.0 - Rate(c.waiverPct)) * (1.0 - Rate(c.arrearsPct))
    {
      ProjectAt(c, i);
      EmitDiscount(c, i + 1, Enrollment(c, i + 1));
    }
  }

  /** The row emitted from any enrollment discounts its own gross revenue. */
  lemma EmitDiscount(c: Config, month: int, e: real)
    ensures Emit(c, month, e).realizedInflow
            == Emit(c, month, e).grossRevenue * (1.0 - Rate(c.waiverPct)) * (1.0 - Rate(c.arrearsPct))
  {
    var gross := e * FeePerStudent(c);
    assert Emit(c, month, e).grossRevenue == gross;
    assert Emit(c, month, e).realizedInflow == Realized(c, gross);
  }

  /** Under the widget bounds the realized inflow lies between zero and the
      gross revenue. */
  lemma InflowBounded(c: Config)
    requires Valid(c)
    ensures forall i :: 0 <= i < |Project(c)| ==>
              0.0 <= Project(c)[i].realizedInflow <= Project(c)[i].grossRevenue
  {
    forall i: nat | i < |Project(c)|
      ensures 0.0 <= Project(c)[i].realizedInflow <= Project(c)[i].grossRevenue
    {
      RecordInflowBounded(c, i);
    }
  }

  /** Record `i` bills a non-negative gross revenue and collects part of it. */
  lemma RecordInflowBounded(c: Config, i: nat)
    requires Valid(c) && i < |Project(c)|
    ensures 0.0 <= Project(c)[i].realizedInflow <= Project(c)[i].grossRevenue
  {
    ProjectAt(c, i);
    EnrollmentPositive(c, i + 1);
    var e := Enrollment(c, i + 1);
    var gross := e * FeePerStudent(c);
    NonNegativeProduct(e, FeePerStudent(c));
    assert Project(c)[i].grossRevenue == gross;
    assert Project(c)[i].realizedInflow == Realized(c, gross);
  }

  /** With no waiver and no arrears every month collects its gross revenue. */
  lemma ZeroDiscountIdentity(c: Config)
    requires c.waiverPct == 0 && c.arrearsPct == 0
    ensures forall i :: 0 <= i < |Project(c)| ==> Project(c)[i].realizedInflow == Project(c)[i].grossRevenue
  {
    forall i: nat | i < |Project(c)|
      ensures Project(c)[i].realizedInflow == Project(c)[i].grossRevenue
    {
      ProjectAt(c, i);
    }
  }

  /** In every record the net cash flow is the realized inflow less the
      outflow. */
  lemma NetIsInflowMinusOutflow(c: Config)
    ensures forall i :: 0 <= i < |Project(c)| ==>
              Project(c)[i].netCashFlow == Project(c)[i].realizedInflow - Project(c)[i].totalOutflow
  {
    forall i: nat | i < |Project(c)|
      ensures Project(c)[i].netCashFlow == Project(c)[i].realizedInflow - Project(c)[i].totalOutflow
    {
      ProjectAt(c, i);
    }
  }

  /** With growth, waiver and arrears all zero every month is the same apart
      from its number. */
  lemma ZeroRatesSteady(c: Config)
    requires c.growthPct == 0 && c.waiverPct == 0 && c.arrearsPct == 0
    ensures forall i, j :: 0 <= i < |Project(c)| && 0 <= j < |Project(c)| ==>
              Project(c)[i].(month := 0) == Project(c)[j].(month := 0)
    ensures forall i :: 0 <= i < |Project(c)| ==> Project(c)[i].realizedInflow == Project(c)[i].grossRevenue
  {
    StudentsConstant(c);
  }

  /** The total projected profit is the total realized inflow less the
      outflow of every projected month. */
  lemma TotalProfitDecomposes(c: Config)
    ensures TotalProjectedProfit(Project(c))
            == Sum(Project(c), RealizedInflow) - MonthCount(c) as real * Outflow(c)
  {
    var r := Project(c);
    NetIsInflowMinusOutflow(c);
    SumNetIsInflowMinusOutflow(r);
    OutflowColumn(c);
    SumConstant(r, TotalOutflow, Outflow(c));
    assert TotalProjectedProfit(r) == Sum(r, NetCashFlow);
  }

  /** The final student count is the starting count compounded over the whole
      horizon and truncated; a horizon of at least one month guarantees
      there is a last record. */
  lemma FinalStudentCountCompounds(c: Config)
    requires c.projectionMonths >= 1
    ensures FinalStudentCount(Project(c))
            == Some(Trunc(Compounded(c, c.projectionMonths)))
  {
    var r := Project(c);
    RecordCompounds(c, c.projectionMonths - 1);
    assert FinalStudentCount(r) == Some(r[|r| - 1].students);
  }

  /** The average monthly burn equals the constant monthly outflow. */
  lemma AvgBurnIsOutflow(c: Config)
    requires c.projectionMonths >= 1
    ensures AvgMonthlyBurn(Project(c)) == Some((c.salaries + c.fixedCosts + c.marketing) as real)
  {
    OutflowColumn(c);
    AvgOfConstantOutflow(Project(c), Outflow(c));
  }

  /** The product of two non-negative values is non-negative. */
  lemma NonNegativeProduct(x: real, y: real)
    requires 0.0 <= x && 0.0 <= y
    ensures 0.0 <= x * y
  {
  }

  /** The markup level is read but has no effect on the projection. */
  lemma ProjectIgnoresMarkup(c: Config, pct: int)
    ensures Project(c.(markupPct := pct)) == Project(c)
  {
    RecordsIgnoreMarkup(c, pct, MonthCount(c));
  }

  /** No prefix of the projection depends on the markup level. */
  lemma {:induction false} RecordsIgnoreMarkup(c: Config, pct: int, n: nat)
    ensures Records(c.(markupPct := pct), n) == Records(c, n)
  {
    if n > 0 {
      var c' := c.(markupPct := pct);
      RecordsIgnoreMarkup(c, pct, n - 1);
      EnrollmentIgnoresMarkup(c, pct, n);
      EmitIgnoresMarkup(c, pct, n, Enrollment(c, n));
    }
  }

  /** A single emitted row does not depend on the markup level. */
  lemma EmitIgnoresMarkup(c: Config, pct: int, month: int, e: real)
    ensures Emit(c.(markupPct := pct), month, e) == Emit(c, month, e)
  {
    var c' := c.(markupPct := pct);
    var gross := e * FeePerStudent(c);
    assert FeePerStudent(c') == FeePerStudent(c);
    assert Realized(c', gross) == Realized(c, gross) by {
      assert c'.waiverPct == c.waiverPct && c'.arrearsPct == c.arrearsPct;
    }
    assert Outflow(c') == Outflow(c);
  }

  /** The running enrollment does not depend on the markup level. */
  lemma {:induction false} EnrollmentIgnoresMarkup(c: Config, pct: int, k: nat)
    ensures Enrollment(c.(markupPct := pct), k) == Enrollment(c, k)
  {
    if k > 0 {
      EnrollmentIgnoresMarkup(c, pct, k - 1);
    }
  }

  /** One month at the default settings: 500 students growing at 10% a year
      become 504.1666..., billed 5700 each; 5% waiver and 12% arrears leave
      2,402,455 realized against 67,000 outflow. */
  lemma DefaultsOneMonth(c: Config)
    requires c == Config(5000, 500, 200, 50000, 15000, 2000, 20, 5, 500, 10, 12, 1)
    ensures Valid(c)
    ensures |Project(c)| == 1
    ensures Project(c)[0] == MonthlyRecord(1, 504, 2873750.0, 2402455.0, 67000.0, 2335455.0)
  {
    ProjectAt(c, 0);
    var e := Enrollment(c, 1);
    assert e == 500.0 * (1210.0 / 1200.0);
    assert Trunc(e) == 504;
    var gross := e * FeePerStudent(c);
    assert gross == 2873750.0;
    assert Realized(c, gross) == 2873750.0 * (95.0 / 100.0) * (88.0 / 100.0);
  }
}
