/** Child education planning: today's course cost inflated to the college
    year, the monthly SIP that builds what current savings do not cover,
    and the year-by-year projection of that SIP. */
module ChildEducation {
  import opened Num
  import opened Results
  import opened Annuity

  datatype Inputs = Inputs(currentAge: int, collegeAge: int, currentCost: real, inflationRate: real,
                           returnRate: real, currentSavings: real)

  /** The form's entries with the page's fallbacks for missing or zero values. */
  function GetInputs(currentAge: Option<int>, collegeAge: Option<int>, cost: Field, inflation: Field,
                     returnRate: Field, savings: Field): (i: Inputs)
    ensures currentAge.None? ==> i.currentAge == 5
    ensures collegeAge.None? ==> i.collegeAge == 18
    ensures cost.None? ==> i.currentCost == 500000.0
    ensures inflation.None? ==> i.inflationRate == 6.0
    ensures returnRate.None? ==> i.returnRate == 12.0
    ensures savings.None? ==> i.currentSavings == 0.0
    ensures ReadsAsInt(i.currentAge, currentAge, 5)
    ensures ReadsAsInt(i.collegeAge, collegeAge, 18)
    ensures ReadsAs(i.currentCost, cost, 500000.0)
    ensures ReadsAs(i.inflationRate, inflation, 6.0)
    ensures ReadsAs(i.returnRate, returnRate, 12.0)
    ensures ReadsAs(i.currentSavings, savings, 0.0)
  {
    Inputs(OrDefaultInt(currentAge, 5), OrDefaultInt(collegeAge, 18), OrDefault(cost, 500000.0),
           OrDefault(inflation, 6.0), OrDefault(returnRate, 12.0), OrDefault(savings, 0.0))
  }

  const CostError := "Current education cost must be between ₹1L and ₹50L"

  /** The page's checks in order; the rates and the savings are not checked. */
  function Validate(i: Inputs): (r: Result<Inputs>)
    ensures r.Ok? <==> i.currentAge < i.collegeAge && 1 <= i.currentAge <= 17 && 16 <= i.collegeAge <= 25
                       && 100000.0 <= i.currentCost <= 5000000.0
    ensures r.Ok? ==> r.value == i
    ensures i.collegeAge <= i.currentAge ==> r == Err("College start age must be greater than current age")
  {
    if i.collegeAge <= i.currentAge then Err("College start age must be greater than current age")
    else if i.currentAge < 1 || i.currentAge > 17 then Err("Child's current age must be between 1 and 17 years")
    else if i.collegeAge < 16 || i.collegeAge > 25 then Err("College start age must be between 16 and 25 years")
    else if i.currentCost < 100000.0 || i.currentCost > 5000000.0 then Err(CostError)
    else Ok(i)
  }

  /** College is still ahead, as the page checks before computing. */
  predicate Calculable(i: Inputs)
  {
    i.currentAge < i.collegeAge
  }

  function YearsToCollege(i: Inputs): nat
    requires Calculable(i)
  {
    i.collegeAge - i.currentAge
  }

  function Months(i: Inputs): nat
    requires Calculable(i)
  {
    YearsToCollege(i) * 12
  }

  function MonthlyRate(i: Inputs): real
  {
    i.returnRate / 12.0 / 100.0
  }

  /** Today's cost inflated to the college year. */
  function FutureCost(i: Inputs): real
    requires Calculable(i)
  {
    i.currentCost * Pow(1.0 + i.inflationRate / 100.0, YearsToCollege(i))
  }

  /** The part of the future cost that current savings, taken at face
      value and not grown, leave uncovered. */
  function NetAmount(i: Inputs): (n: real)
    requires Calculable(i)
    ensures n >= 0.0 && n + i.currentSavings >= FutureCost(i)
    ensures n == 0.0 <==> i.currentSavings >= FutureCost(i)
  {
    Max(0.0, FutureCost(i) - i.currentSavings)
  }

  /** The monthly SIP: `net * m / ((1 + m)^n - 1)` for a positive monthly
      rate, else `net / n`. */
  function MonthlySip(i: Inputs): real
    requires Calculable(i)
  {
    PaymentFor(NetAmount(i), MonthlyRate(i), Months(i))
  }

  /** For a return that is not negative, the SIP paid at every month end
      builds exactly the net amount, and is never negative; it is zero
      exactly when the savings already cover the cost. */
  lemma SipBuildsNetAmount(i: Inputs)
    requires Calculable(i) && i.returnRate >= 0.0
    ensures OrdinaryBalance(MonthlySip(i), MonthlyRate(i), Months(i)) == NetAmount(i)
    ensures MonthlySip(i) >= 0.0
    ensures MonthlySip(i) == 0.0 <==> i.currentSavings >= FutureCost(i)
  {
    var n, m, k := NetAmount(i), MonthlyRate(i), Months(i);
    assert MonthlySip(i) == PaymentFor(n, m, k);
    PaymentForReachesTarget(n, m, k);
    if n == 0.0 {
      NothingNeedsNoPayment(m, k);
    } else if PaymentFor(n, m, k) == 0.0 {
      ZeroPaymentBalance(m, k);
    }
  }

  lemma NothingNeedsNoPayment(rate: real, n: nat)
    requires n > 0
    ensures PaymentFor(0.0, rate, n) == 0.0
  {
    if rate > 0.0 {
      PowAboveOne(1.0 + rate, n);
      var q := Pow(1.0 + rate, n) - 1.0;
      assert PaymentFor(0.0, rate, n) == 0.0 * rate / q;
      assert 0.0 * rate / q == 0.0;
    }
  }

  datatype EducationResult = EducationResult(
    currentAge: int, collegeAge: int, yearsToCollege: int, currentCost: real, futureCost: int,
    currentSavings: real, netAmountNeeded: int, monthlySipRequired: int, totalInvestment: int,
    inflationRate: real, returnRate: real)

  /** The page's own calculation (run when the server cannot be reached);
      money figures are rounded to whole rupees. */
  function CalculateEducation(i: Inputs): (r: EducationResult)
    requires Calculable(i)
    ensures r.yearsToCollege == i.collegeAge - i.currentAge > 0
    ensures r.futureCost == Round(FutureCost(i))
    ensures r.netAmountNeeded == Round(NetAmount(i)) && r.netAmountNeeded >= 0
    ensures r.monthlySipRequired == Round(MonthlySip(i))
    ensures r.totalInvestment == Round(MonthlySip(i) * Months(i) as real + i.currentSavings)
    ensures r.currentAge == i.currentAge && r.currentSavings == i.currentSavings && r.returnRate == i.returnRate
  {
    EducationResult(i.currentAge, i.collegeAge, YearsToCollege(i), i.currentCost, Round(FutureCost(i)),
                    i.currentSavings, Round(NetAmount(i)), Round(MonthlySip(i)),
                    Round(MonthlySip(i) * Months(i) as real + i.currentSavings), i.inflationRate, i.returnRate)
  }

  /** The projected portfolio after `n` months: each month the SIP joins
      the balance and the whole earns the monthly rate. */
  function Portfolio(savings: real, monthly: real, rate: real, n: nat): real
  {
    if n == 0 then savings else (Portfolio(savings, monthly, rate, n - 1) + monthly) * (1.0 + rate)
  }

  /** The projection is the savings grown for `n` months plus an annuity
      due of the monthly SIP. */
  lemma {:induction false} PortfolioClosedForm(savings: real, monthly: real, rate: real, n: nat)
    ensures Portfolio(savings, monthly, rate, n) == savings * Pow(1.0 + rate, n) + DueBalance(monthly, rate, n)
  {
    if n == 0 {
      assert Portfolio(savings, monthly, rate, n) == savings;
      assert Pow(1.0 + rate, n) == 1.0;
      assert DueBalance(monthly, rate, n) == 0.0;
    } else {
      PortfolioClosedForm(savings, monthly, rate, n - 1);
      var g := 1.0 + rate;
      var vn, v := Portfolio(savings, monthly, rate, n), Portfolio(savings, monthly, rate, n - 1);
      var pn, p := Pow(g, n), Pow(g, n - 1);
      var dn, d := DueBalance(monthly, rate, n), DueBalance(monthly, rate, n - 1);
      assert vn == (v + monthly) * g;
      assert pn == g * p;
      assert dn == (d + monthly) * g;
      PortfolioStep(vn, v, savings, pn, p, dn, d, monthly, g);
    }
  }

  /** One month of `PortfolioClosedForm`, over plain numbers. */
  lemma PortfolioStep(vn: real, v: real, savings: real, pn: real, p: real, dn: real, d: real,
                      monthly: real, g: real)
    requires vn == (v + monthly) * g && v == savings * p + d
    requires pn == g * p && dn == (d + monthly) * g
    ensures vn == savings * pn + dn
  {
    assert (savings * p + d + monthly) * g == savings * (g * p) + (d + monthly) * g;
  }

  /** With nothing negative, the projection is never below what was put in. */
  lemma {:induction false} PortfolioAtLeastPaid(savings: real, monthly: real, rate: real, n: nat)
    requires savings >= 0.0 && monthly >= 0.0 && rate >= 0.0
    ensures Portfolio(savings, monthly, rate, n) >= savings + n as real * monthly
  {
    if n > 0 {
      PortfolioAtLeastPaid(savings, monthly, rate, n - 1);
      var b := Portfolio(savings, monthly, rate, n - 1) + monthly;
      ScaleMono(b, 1.0, 1.0 + rate);
    }
  }

  datatype EducationRow = EducationRow(year: int, childAge: int, annualInvestment: int,
                                       cumulativeInvestment: int, portfolioValue: int, growth: int)

  /** The savings plus `year` years of the annual investment. */
  function Cumulative(r: EducationResult, year: nat): real
  {
    r.currentSavings + Times(year, r.monthlySipRequired as real * 12.0)
  }

  /** The portfolio after `year` years: compounded month by month for a
      positive return, otherwise just what was invested. */
  function PortfolioAt(r: EducationResult, year: nat): real
  {
    var m := r.returnRate / 12.0 / 100.0;
    if m > 0.0 then Portfolio(r.currentSavings, r.monthlySipRequired as real, m, 12 * year)
    else Cumulative(r, year)
  }

  /** The projection row of year `year`; it uses the SIP as displayed,
      rounded to whole rupees. */
  function RowAt(r: EducationResult, year: nat): EducationRow
  {
    EducationRow(year, r.currentAge + year, Round(r.monthlySipRequired as real * 12.0),
                 Round(Cumulative(r, year)), Round(PortfolioAt(r, year)),
                 Round(PortfolioAt(r, year) - Cumulative(r, year)))
  }

  /** For a return that is not negative and nothing negative invested,
      no year of the projection shows a loss. */
  lemma RowGrowthNotNegative(r: EducationResult, year: nat)
    requires r.currentSavings >= 0.0 && r.monthlySipRequired >= 0 && r.returnRate >= 0.0
    ensures RowAt(r, year).growth >= 0
    ensures RowAt(r, year).portfolioValue >= RowAt(r, year).cumulativeInvestment
  {
    var m := r.returnRate / 12.0 / 100.0;
    var p := r.monthlySipRequired as real;
    TimesIsProduct(year, p * 12.0);
    if m > 0.0 {
      PortfolioAtLeastPaid(r.currentSavings, p, m, 12 * year);
      assert (12 * year) as real * p == year as real * (p * 12.0);
    }
  }

  /** One more year adds the annual investment to the running total. */
  lemma CumulativeStep(r: EducationResult, year: nat)
    requires year >= 1
    ensures Cumulative(r, year) == Cumulative(r, year - 1) + r.monthlySipRequired as real * 12.0
  {
  }

  /** A row built from the running totals is the projection's row. */
  lemma RowFromParts(r: EducationResult, year: nat, annual: real, cumulative: real, portfolio: real)
    requires annual == r.monthlySipRequired as real * 12.0
    requires cumulative == Cumulative(r, year) && portfolio == PortfolioAt(r, year)
    ensures EducationRow(year, r.currentAge + year, Round(annual), Round(cumulative), Round(portfolio),
                         Round(portfolio - cumulative)) == RowAt(r, year)
  {
  }

  /** Twelve monthly steps from the start of a year give the year end. */
  lemma YearEnd(r: EducationResult, year: nat, yearEnd: real)
    requires year >= 1 && r.returnRate / 12.0 / 100.0 > 0.0
    requires yearEnd == Portfolio(r.currentSavings, r.monthlySipRequired as real, r.returnRate / 12.0 / 100.0,
                                  12 * (year - 1) + 12)
    ensures yearEnd == PortfolioAt(r, year)
  {
    assert 12 * (year - 1) + 12 == 12 * year;
  }

  /** `generateEducationYearlyData`: one row per year until college. */
  method GenerateYearlyData(r: EducationResult) returns (rows: seq<EducationRow>)
    ensures |rows| == if r.yearsToCollege > 0 then r.yearsToCollege else 0
    ensures forall k :: 0 <= k < |rows| ==> rows[k] == RowAt(r, k + 1)
  {
    var monthly := r.monthlySipRequired as real;
    var annual := monthly * 12.0;
    var m := r.returnRate / 12.0 / 100.0;
    var cumulative := r.currentSavings;
    var portfolio := r.currentSavings;
    rows := [];
    var year := 1;
    while year <= r.yearsToCollege
      invariant 1 <= year && |rows| == year - 1
      invariant r.yearsToCollege > 0 ==> year <= r.yearsToCollege + 1
      invariant r.yearsToCollege <= 0 ==> year == 1
      invariant cumulative == Cumulative(r, year - 1)
      invariant portfolio == PortfolioAt(r, year - 1)
      invariant forall k :: 0 <= k < |rows| ==> rows[k] == RowAt(r, k + 1)
    {
      CumulativeStep(r, year);
      cumulative := cumulative + annual;
      if m > 0.0 {
        var yearEnd := portfolio;
        var month := 1;
        while month <= 12
          invariant 1 <= month <= 13
          invariant yearEnd == Portfolio(r.currentSavings, monthly, m, 12 * (year - 1) + month - 1)
        {
          yearEnd := (yearEnd + monthly) * (1.0 + m);
          month := month + 1;
        }
        YearEnd(r, year, yearEnd);
        portfolio := yearEnd;
      } else {
        portfolio := cumulative;
      }
      RowFromParts(r, year, annual, cumulative, portfolio);
      rows := rows + [EducationRow(year, r.currentAge + year, Round(annual), Round(cumulative), Round(portfolio),
                                   Round(portfolio - cumulative))];
      year := year + 1;
    }
  }
}
