/** Vacation saving planner: the trip's cost inflated to the travel date,
    the monthly saving that reaches it, and a month-by-month table. */
module VacationSaving {
  import opened Num
  import opened Results
  import opened Annuity

  /** The page's checks, in order. */
  function Validate(vacationCost: real, months: int, currentSavings: real): (r: Result<()>)
    ensures r.Ok? <==> vacationCost > 0.0 && months > 0 && currentSavings <= vacationCost
  {
    if vacationCost <= 0.0 then Err("Vacation cost must be greater than 0")
    else if months <= 0 then Err("Months until vacation must be greater than 0")
    else if currentSavings > vacationCost then Err("Current savings cannot exceed vacation cost")
    else Ok(())
  }

  /** A calendar month as the date picker reports it: `month` counts from 0
      (January) to 11. */
  datatype YearMonth = YearMonth(year: int, month: int)

  /** The month `k` months after `d` (before it when `k` is negative). */
  function AddMonths(d: YearMonth, k: int): (e: YearMonth)
    requires 0 <= d.month < 12
    ensures 0 <= e.month < 12
    ensures 12 * e.year + e.month == 12 * d.year + d.month + k
  {
    YearMonth(d.year + (d.month + k) / 12, (d.month + k) % 12)
  }

  /** Months from today to the picked date: twelve per year of difference
      plus the month difference, but at least one. */
  function MonthsFromDate(selected: YearMonth, today: YearMonth): (n: int)
    ensures n >= 1
    ensures n >= 12 * (selected.year - today.year) + (selected.month - today.month)
  {
    var total := 12 * (selected.year - today.year) + (selected.month - today.month);
    if total > 1 then total else 1
  }

  /** The slider only goes up to 60 months. */
  function SliderMonths(n: int): (s: int)
    ensures s <= 60 && (s == n || s == 60)
    ensures n <= 60 ==> s == n
  {
    if n < 60 then n else 60
  }

  /** Picking the date `k` months ahead gives back `k`; a date in the past
      or this month gives one month. */
  lemma MonthsFromDateInvertsAddMonths(today: YearMonth, k: int)
    requires 0 <= today.month < 12
    ensures k >= 1 ==> MonthsFromDate(AddMonths(today, k), today) == k
    ensures k < 1 ==> MonthsFromDate(AddMonths(today, k), today) == 1
  {
  }

  /** The headline figures the calculation reports. */
  datatype Estimate = Estimate(monthlySavingsNeeded: real, estimatedAccumulatedValue: real,
                               totalInvestmentReturns: real)

  /** The page's monthly rate, `expectedReturn / 12 / 100`. */
  function MonthlyRate(expectedReturn: real): real
  {
    expectedReturn / 12.0 / 100.0
  }

  /** What today's savings grow to by the travel date. */
  function GrownSavings(currentSavings: real, expectedReturn: real, months: nat): real
  {
    currentSavings * Pow(1.0 + MonthlyRate(expectedReturn), months)
  }

  /** The level month-end saving for what the grown savings leave uncovered. */
  function MonthlyNeeded(adjustedCost: real, months: nat, currentSavings: real, expectedReturn: real): real
    requires months > 0
  {
    var remainingNeeded := adjustedCost - GrownSavings(currentSavings, expectedReturn, months);
    if remainingNeeded > 0.0 then PaymentFor(remainingNeeded, MonthlyRate(expectedReturn), months) else 0.0
  }

  /** `adjustedCost` is the cost grown by inflation over the period; its
      fractional-year power is computed outside the model. With a positive
      return and more than one month, the savings' growth is counted and
      the rest comes from a level month-end saving; otherwise the shortfall
      is simply split over the months. */
  function Plan(adjustedCost: real, months: nat, currentSavings: real, expectedReturn: real): Estimate
    requires months > 0
  {
    if expectedReturn > 0.0 && months > 1 then
      var monthly := MonthlyNeeded(adjustedCost, months, currentSavings, expectedReturn);
      var estimated := GrownSavings(currentSavings, expectedReturn, months)
                       + OrdinaryBalance(monthly, MonthlyRate(expectedReturn), months);
      Estimate(monthly, estimated, estimated - (currentSavings + monthly * months as real))
    else
      Estimate((adjustedCost - currentSavings) / months as real, adjustedCost, 0.0)
  }

  /** In the growth branch the estimate reaches the inflated cost exactly
      when savings are needed, and otherwise the grown savings already
      cover it with nothing more saved. */
  lemma PlanMeetsCost(adjustedCost: real, months: nat, currentSavings: real, expectedReturn: real)
    requires months > 1 && expectedReturn > 0.0
    ensures var grown := GrownSavings(currentSavings, expectedReturn, months);
            var e := Plan(adjustedCost, months, currentSavings, expectedReturn);
            && (grown < adjustedCost ==> e.estimatedAccumulatedValue == adjustedCost && e.monthlySavingsNeeded > 0.0)
            && (grown >= adjustedCost ==> e.estimatedAccumulatedValue == grown && e.monthlySavingsNeeded == 0.0)
  {
    var m := MonthlyRate(expectedReturn);
    var grown := GrownSavings(currentSavings, expectedReturn, months);
    var monthly := MonthlyNeeded(adjustedCost, months, currentSavings, expectedReturn);
    if grown < adjustedCost {
      PaymentForReachesTarget(adjustedCost - grown, m, months);
      PaymentPositive(adjustedCost - grown, m, months);
      assert OrdinaryBalance(monthly, m, months) == adjustedCost - grown;
    } else {
      ZeroPaymentBalance(m, months);
      assert monthly == 0.0;
    }
  }

  lemma PaymentPositive(target: real, rate: real, n: nat)
    requires target > 0.0 && rate > 0.0 && n > 0
    ensures PaymentFor(target, rate, n) > 0.0
  {
    PowAboveOne(1.0 + rate, n);
    var q := Pow(1.0 + rate, n) - 1.0;
    assert target * rate > 0.0;
  }

  /** The running total after `k` months of the table: every month's saving
      joins the balance and then earns that month's return (no return when
      the expected return is not positive). */
  function MonthTotal(currentSavings: real, monthly: real, rate: real, k: nat): real
  {
    if k == 0 then currentSavings else (MonthTotal(currentSavings, monthly, rate, k - 1) + monthly) * (1.0 + rate)
  }

  /** The monthly rate the table applies. */
  function TableRate(expectedReturn: real): real
  {
    if expectedReturn > 0.0 then MonthlyRate(expectedReturn) else 0.0
  }

  /** The table's total is the grown savings plus an annuity due of the savings. */
  lemma {:induction false} MonthTotalClosedForm(currentSavings: real, monthly: real, rate: real, k: nat)
    ensures MonthTotal(currentSavings, monthly, rate, k)
            == currentSavings * Pow(1.0 + rate, k) + DueBalance(monthly, rate, k)
  {
    if k > 0 {
      MonthTotalClosedForm(currentSavings, monthly, rate, k - 1);
      var g := 1.0 + rate;
      var p := Pow(g, k - 1);
      var d := DueBalance(monthly, rate, k - 1);
      assert (currentSavings * p + d + monthly) * g == currentSavings * (g * p) + (d + monthly) * g;
    }
  }

  /** Without returns the table's last month reaches the inflated cost,
      which is also the reported estimate. */
  lemma NoReturnTableReachesCost(adjustedCost: real, months: nat, currentSavings: real, expectedReturn: real)
    requires months > 0 && expectedReturn <= 0.0
    ensures var e := Plan(adjustedCost, months, currentSavings, expectedReturn);
            && MonthTotal(currentSavings, e.monthlySavingsNeeded, TableRate(expectedReturn), months) == adjustedCost
            && e.estimatedAccumulatedValue == adjustedCost
            && e.totalInvestmentReturns == 0.0
  {
    var c := (adjustedCost - currentSavings) / months as real;
    MonthTotalClosedForm(currentSavings, c, 0.0, months);
    ZeroRateBalances(c, months);
    PowOfOne(months);
    assert months as real * c == adjustedCost - currentSavings;
  }

  /** The table credits each month's saving with that month's return while
      the estimate does not, so whenever a saving is needed the table ends
      above the estimate shown beside it. */
  lemma TableEndsAboveEstimate(adjustedCost: real, months: nat, currentSavings: real, expectedReturn: real)
    requires months > 1 && expectedReturn > 0.0
    requires GrownSavings(currentSavings, expectedReturn, months) < adjustedCost
    ensures var e := Plan(adjustedCost, months, currentSavings, expectedReturn);
            MonthTotal(currentSavings, e.monthlySavingsNeeded, TableRate(expectedReturn), months)
            > e.estimatedAccumulatedValue
  {
    var m := MonthlyRate(expectedReturn);
    PlanMeetsCost(adjustedCost, months, currentSavings, expectedReturn);
    var e := Plan(adjustedCost, months, currentSavings, expectedReturn);
    var c := e.monthlySavingsNeeded;
    MonthTotalClosedForm(currentSavings, c, m, months);
    DueIsGrownOrdinary(c, m, months);
    OrdinaryAtLeastPaid(c, m, months);
    var o := OrdinaryBalance(c, m, months);
    assert o >= months as real * c > 0.0;
    assert o * (1.0 + m) == o + o * m;
    assert o * m > 0.0;
    var grown := GrownSavings(currentSavings, expectedReturn, months);
    assert e.estimatedAccumulatedValue == grown + o;
    assert TableRate(expectedReturn) == m;
    assert MonthTotal(currentSavings, c, m, months) == grown + o * (1.0 + m);
  }

  /** Progress towards the inflated cost, capped at 100% and kept to one decimal. */
  function Progress(total: real, adjustedCost: real): (p: real)
    requires adjustedCost != 0.0
    ensures p <= 100.0
    ensures adjustedCost > 0.0 && total >= adjustedCost ==> p == 100.0
    ensures adjustedCost > 0.0 && total >= 0.0 ==> p >= 0.0
  {
    RatioFacts(total, adjustedCost);
    Round(Min(total / adjustedCost * 100.0, 100.0) * 10.0) as real / 10.0
  }

  lemma RatioFacts(total: real, whole: real)
    requires whole != 0.0
    ensures whole > 0.0 && total >= whole ==> total / whole >= 1.0
    ensures whole > 0.0 && total >= 0.0 ==> total / whole >= 0.0
  {
    if whole > 0.0 && total >= whole {
      var q := total / whole;
      assert q * whole == total;
    }
  }

  datatype MonthRow = MonthRow(month: int, monthlySavings: int, cumulativeSavings: int, investmentGrowth: int,
                               totalAmount: int, progress: real)

  /** Row `k` describes month `k + 1`. */
  predicate MonthRowOk(row: MonthRow, k: nat, currentSavings: real, monthly: real, rate: real, adjustedCost: real)
    requires adjustedCost != 0.0
  {
    var saved := currentSavings + Times(k + 1, monthly);
    var total := MonthTotal(currentSavings, monthly, rate, k + 1);
    && row.month == k + 1
    && row.monthlySavings == Round(monthly)
    && row.cumulativeSavings == Round(saved)
    && row.investmentGrowth == Round(total - saved)
    && row.totalAmount == Round(total)
    && row.progress == Progress(total, adjustedCost)
  }

  method MonthWiseData(currentSavings: real, monthly: real, expectedReturn: real, adjustedCost: real, months: nat)
    returns (rows: seq<MonthRow>)
    requires adjustedCost != 0.0
    ensures |rows| == months
    ensures forall k :: 0 <= k < |rows| ==>
              MonthRowOk(rows[k], k, currentSavings, monthly, TableRate(expectedReturn), adjustedCost)
  {
    var rate := TableRate(expectedReturn);
    rows := [];
    var cumulativeSavings := currentSavings;
    var totalInvestmentGrowth := 0.0;
    var month := 1;
    while month <= months
      invariant 1 <= month <= months + 1
      invariant |rows| == month - 1
      invariant cumulativeSavings == currentSavings + Times(month - 1, monthly)
      invariant cumulativeSavings + totalInvestmentGrowth == MonthTotal(currentSavings, monthly, rate, month - 1)
      invariant forall k :: 0 <= k < |rows| ==> MonthRowOk(rows[k], k, currentSavings, monthly, rate, adjustedCost)
    {
      var previousBalance := cumulativeSavings + totalInvestmentGrowth;
      cumulativeSavings := cumulativeSavings + monthly;
      var monthlyGrowth := if expectedReturn > 0.0 then (previousBalance + monthly) * MonthlyRate(expectedReturn) else 0.0;
      totalInvestmentGrowth := totalInvestmentGrowth + monthlyGrowth;
      var totalAmount := cumulativeSavings + totalInvestmentGrowth;
      MonthStep(previousBalance, monthly, monthlyGrowth, rate, totalAmount);
      ghost var saved := currentSavings + Times(month, monthly);
      ghost var total := MonthTotal(currentSavings, monthly, rate, month);
      assert cumulativeSavings == saved && totalAmount == total;
      var row := MonthRow(month, Round(monthly), Round(cumulativeSavings), Round(totalInvestmentGrowth),
                          Round(totalAmount), Progress(totalAmount, adjustedCost));
      RowFromParts(row, month - 1, currentSavings, monthly, rate, adjustedCost, cumulativeSavings, totalAmount);
      rows := rows + [row];
      month := month + 1;
    }
  }

  /** One month of the table: the growth on the opening balance plus the
      instalment, at the table's rate. */
  lemma MonthStep(previous: real, monthly: real, growth: real, rate: real, total: real)
    requires growth == (previous + monthly) * rate
    requires total == previous + monthly + growth
    ensures total == (previous + monthly) * (1.0 + rate)
  {
  }

  /** A row built from the running totals is the row the contract describes. */
  lemma RowFromParts(row: MonthRow, k: nat, currentSavings: real, monthly: real, rate: real, adjustedCost: real,
                     saved: real, total: real)
    requires adjustedCost != 0.0
    requires saved == currentSavings + Times(k + 1, monthly)
    requires total == MonthTotal(currentSavings, monthly, rate, k + 1)
    requires row == MonthRow(k + 1, Round(monthly), Round(saved), Round(total - saved), Round(total),
                             Progress(total, adjustedCost))
    ensures MonthRowOk(row, k, currentSavings, monthly, rate, adjustedCost)
  {
  }

  datatype VacationResult = VacationResult(vacationCost: real, inflationAdjustedCost: int, monthsUntilVacation: int,
                                           currentSavings: real, remainingAmount: int, monthlySavingsNeeded: int,
                                           estimatedAccumulatedValue: int, totalInvestmentReturns: int,
                                           monthWiseData: seq<MonthRow>)

  /** The page's own calculation once the inputs pass validation;
      `inflationFactor` is `(1 + inflation/100)` raised to the period in years. */
  method CalculateVacationSavings(vacationCost: real, months: nat, currentSavings: real, expectedReturn: real,
                                  inflationFactor: real)
    returns (r: VacationResult)
    requires vacationCost > 0.0 && months > 0 && inflationFactor > 0.0
    ensures var adjusted := vacationCost * inflationFactor;
            var e := Plan(adjusted, months, currentSavings, expectedReturn);
            && r.inflationAdjustedCost == Round(adjusted)
            && r.remainingAmount == Round(adjusted - currentSavings)
            && r.monthlySavingsNeeded == Round(e.monthlySavingsNeeded)
            && r.estimatedAccumulatedValue == Round(e.estimatedAccumulatedValue)
            && r.totalInvestmentReturns == Round(e.totalInvestmentReturns)
            && |r.monthWiseData| == months
            && forall k :: 0 <= k < months ==>
                 MonthRowOk(r.monthWiseData[k], k, currentSavings, e.monthlySavingsNeeded,
                            TableRate(expectedReturn), adjusted)
  {
    var adjusted := vacationCost * inflationFactor;
    var e := Plan(adjusted, months, currentSavings, expectedReturn);
    var rows := MonthWiseData(currentSavings, e.monthlySavingsNeeded, expectedReturn, adjusted, months);
    r := VacationResult(vacationCost, Round(adjusted), months, currentSavings, Round(adjusted - currentSavings),
                        Round(e.monthlySavingsNeeded), Round(e.estimatedAccumulatedValue),
                        Round(e.totalInvestmentReturns), rows);
  }
}
