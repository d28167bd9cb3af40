/** Pension planning: today's expenses inflated to retirement, the corpus
    that pays them through retirement, and the monthly saving that builds
    what existing savings will not. */
module Pension {
  import opened Num
  import opened Results
  import opened Annuity

  datatype Inputs = Inputs(currentExpenses: real, currentAge: int, retirementAge: int, lifeExpectancy: int,
                           expenseRatio: real, inflationRate: real, preRetirementReturn: real,
                           postRetirementReturn: real, existingSavings: real)

  /** The form's entries with the page's fallbacks for missing or zero values. */
  function GetInputs(expenses: Field, currentAge: Option<int>, retirementAge: Option<int>, life: Option<int>,
                     ratio: Field, inflation: Field, pre: Field, post: Field, savings: Field): (i: Inputs)
    ensures expenses.None? ==> i.currentExpenses == 0.0
    ensures currentAge.None? ==> i.currentAge == 25
    ensures retirementAge.None? ==> i.retirementAge == 60
    ensures life.None? ==> i.lifeExpectancy == 85
    ensures ratio.None? ==> i.expenseRatio == 100.0
    ensures inflation.None? ==> i.inflationRate == 6.0
    ensures pre.None? ==> i.preRetirementReturn == 8.0
    ensures post.None? ==> i.postRetirementReturn == 6.0
    ensures savings.None? ==> i.existingSavings == 0.0
    ensures ReadsAs(i.currentExpenses, expenses, 0.0)
    ensures ReadsAsInt(i.currentAge, currentAge, 25)
    ensures ReadsAsInt(i.retirementAge, retirementAge, 60)
    ensures ReadsAsInt(i.lifeExpectancy, life, 85)
    ensures ReadsAs(i.expenseRatio, ratio, 100.0)
    ensures ReadsAs(i.inflationRate, inflation, 6.0)
    ensures ReadsAs(i.preRetirementReturn, pre, 8.0)
    ensures ReadsAs(i.postRetirementReturn, post, 6.0)
    ensures ReadsAs(i.existingSavings, savings, 0.0)
  {
    Inputs(OrDefault(expenses, 0.0), OrDefaultInt(currentAge, 25), OrDefaultInt(retirementAge, 60),
           OrDefaultInt(life, 85), OrDefault(ratio, 100.0), OrDefault(inflation, 6.0), OrDefault(pre, 8.0),
           OrDefault(post, 6.0), OrDefault(savings, 0.0))
  }

  /** The page's checks, in order. */
  function Validate(i: Inputs): (r: Result<()>)
    ensures r.Ok? <==> i.currentAge < i.retirementAge < i.lifeExpectancy && i.currentExpenses > 0.0
    ensures i.currentAge >= i.retirementAge ==> r == Err("Current age must be less than retirement age")
  {
    if i.currentAge >= i.retirementAge then Err("Current age must be less than retirement age")
    else if i.retirementAge >= i.lifeExpectancy then Err("Retirement age must be less than life expectancy")
    else if i.currentExpenses <= 0.0 then Err("Current monthly expenses must be greater than 0")
    else Ok(())
  }

  /** The ages are in order (as validation ensures) and the inflation rate
      is not -100%, which would divide by zero in the real return. */
  predicate Calculable(i: Inputs)
  {
    i.currentAge < i.retirementAge < i.lifeExpectancy && i.inflationRate != -100.0
  }

  function YearsToRetirement(i: Inputs): nat
    requires Calculable(i)
  {
    i.retirementAge - i.currentAge
  }

  function RetirementYears(i: Inputs): nat
    requires Calculable(i)
  {
    i.lifeExpectancy - i.retirementAge
  }

  /** Monthly expenses at retirement: inflated, then scaled by the share of
      today's expenses expected in retirement. */
  function InflatedMonthlyExpenses(i: Inputs): real
    requires Calculable(i)
  {
    i.currentExpenses * Pow(1.0 + i.inflationRate / 100.0, YearsToRetirement(i)) * (i.expenseRatio / 100.0)
  }

  function AnnualExpenses(i: Inputs): real
    requires Calculable(i)
  {
    InflatedMonthlyExpenses(i) * 12.0
  }

  /** The post-retirement return net of inflation. */
  function RealReturn(i: Inputs): real
    requires Calculable(i)
  {
    (1.0 + i.postRetirementReturn / 100.0) / (1.0 + i.inflationRate / 100.0) - 1.0
  }

  /** The corpus needed at retirement: the present value of the annual
      expenses at the real return, or simply their total when that return
      is not positive. */
  function CorpusNeeded(i: Inputs): real
    requires Calculable(i)
  {
    if RealReturn(i) <= 0.0 then AnnualExpenses(i) * RetirementYears(i) as real
    else PresentValue(AnnualExpenses(i), RealReturn(i), RetirementYears(i))
  }

  /** The corpus earning the real return pays the year's expenses at the end
      of every retirement year and is then exactly used up (without real
      growth, it is simply their total). */
  lemma CorpusLastsThroughRetirement(i: Inputs)
    requires Calculable(i)
    ensures Drawdown(CorpusNeeded(i), AnnualExpenses(i), Max(RealReturn(i), 0.0), RetirementYears(i)) == 0.0
  {
    if RealReturn(i) <= 0.0 {
      assert Max(RealReturn(i), 0.0) == 0.0;
      var w, n := AnnualExpenses(i), RetirementYears(i);
      assert CorpusNeeded(i) == n as real * w;
      ZeroRateDrawdown(w, n);
    } else {
      PresentValueLastsExactly(AnnualExpenses(i), RealReturn(i), RetirementYears(i));
    }
  }

  /** What existing savings grow to by retirement. */
  function SavingsFutureValue(i: Inputs): real
    requires Calculable(i)
  {
    i.existingSavings * Pow(1.0 + i.preRetirementReturn / 100.0, YearsToRetirement(i))
  }

  /** The part of the corpus the savings will not cover, never negative. */
  function NetCorpus(i: Inputs): (n: real)
    requires Calculable(i)
    ensures n >= 0.0 && n + SavingsFutureValue(i) >= CorpusNeeded(i)
    ensures n == 0.0 <==> SavingsFutureValue(i) >= CorpusNeeded(i)
  {
    Max(0.0, CorpusNeeded(i) - SavingsFutureValue(i))
  }

  /** The monthly saving for the net corpus over the months to retirement,
      `net / (((1 + m)^n - 1) / m)`, or `net / n` when the monthly return is
      not positive; nothing when nothing is needed. */
  function MonthlySaving(i: Inputs): real
    requires Calculable(i)
  {
    if NetCorpus(i) > 0.0 then PaymentFor(NetCorpus(i), i.preRetirementReturn / 100.0 / 12.0, YearsToRetirement(i) * 12)
    else 0.0
  }

  /** Saved at each month end until retirement, the monthly saving builds
      the net corpus exactly. */
  lemma MonthlySavingBuildsNetCorpus(i: Inputs)
    requires Calculable(i) && i.preRetirementReturn >= 0.0
    ensures MonthlySaving(i) >= 0.0
    ensures OrdinaryBalance(MonthlySaving(i), i.preRetirementReturn / 1200.0, YearsToRetirement(i) * 12) == NetCorpus(i)
  {
    var m := i.preRetirementReturn / 100.0 / 12.0;
    assert m == i.preRetirementReturn / 1200.0;
    if NetCorpus(i) > 0.0 {
      PaymentForReachesTarget(NetCorpus(i), m, YearsToRetirement(i) * 12);
    } else {
      ZeroPaymentBalance(m, YearsToRetirement(i) * 12);
    }
  }

  /** The projected balance after `k` years: the opening balance grows at
      the pre-retirement rate and the year's saving is added undiscounted. */
  function Balance(savings: real, annual: real, rate: real, k: nat): real
  {
    if k == 0 then savings
    else
      var opening := Balance(savings, annual, rate, k - 1);
      opening + annual + opening * rate
  }

  /** The projection is the savings grown for `k` years plus year-end savings. */
  lemma {:induction false} BalanceClosedForm(savings: real, annual: real, rate: real, k: nat)
    ensures Balance(savings, annual, rate, k) == savings * Pow(1.0 + rate, k) + OrdinaryBalance(annual, rate, k)
  {
    if k == 0 {
      assert Balance(savings, annual, rate, k) == savings;
      assert Pow(1.0 + rate, k) == 1.0;
      assert OrdinaryBalance(annual, rate, k) == 0.0;
    } else {
      BalanceClosedForm(savings, annual, rate, k - 1);
      GrowthStep(Balance(savings, annual, rate, k), Balance(savings, annual, rate, k - 1), savings,
                 Pow(1.0 + rate, k), Pow(1.0 + rate, k - 1),
                 OrdinaryBalance(annual, rate, k), OrdinaryBalance(annual, rate, k - 1), annual, rate);
    }
  }

  /** One year of `BalanceClosedForm`, over plain numbers. */
  lemma GrowthStep(closing: real, opening: real, savings: real, pk: real, p: real, ok: real, o: real,
                   annual: real, rate: real)
    requires closing == opening + annual + opening * rate && opening == savings * p + o
    requires pk == (1.0 + rate) * p && ok == o * (1.0 + rate) + annual
    ensures closing == savings * pk + ok
  {
  }

  datatype YearRow = YearRow(year: int, age: int, annualInvestment: int, openingBalance: int, growth: int,
                             closingBalance: int, cumulativeInvestment: int)

  /** The savings plus `years` years of the annual saving. */
  function Invested(annual: real, years: nat, savings: real): real
  {
    Times(years, annual) + savings
  }

  /** The row of year `year` opening at `opening`: the opening balance earns
      `rate` and the year's saving is added. */
  function RowFrom(year: nat, age: int, annual: real, opening: real, savings: real, rate: real): YearRow
  {
    var growth := opening * rate;
    YearRow(year, age, Round(annual), Round(opening), Round(growth),
            Round(opening + annual + growth), Round(Invested(annual, year, savings)))
  }

  /** Row `k` of the table, year `k + 1` before retirement. */
  function ProjectedRow(k: nat, currentAge: int, savings: real, annual: real, rate: real): YearRow
  {
    RowFrom(k + 1, currentAge + k + 1, annual, Balance(savings, annual, rate, k), savings, rate)
  }

  /** Each year opens at the previous year's closing balance, and closes at
      the projection's balance after that year. */
  lemma RowsChain(k: nat, currentAge: int, savings: real, annual: real, rate: real)
    ensures ProjectedRow(k, currentAge, savings, annual, rate).closingBalance
            == Round(Balance(savings, annual, rate, k + 1))
            == ProjectedRow(k + 1, currentAge, savings, annual, rate).openingBalance
    ensures ProjectedRow(0, currentAge, savings, annual, rate).openingBalance == Round(savings)
  {
  }

  lemma ProjectedRowMatches(year: nat, currentAge: int, savings: real, annual: real, rate: real, opening: real)
    requires year >= 1 && opening == Balance(savings, annual, rate, year - 1)
    ensures RowFrom(year, currentAge + year, annual, opening, savings, rate)
            == ProjectedRow(year - 1, currentAge, savings, annual, rate)
    ensures opening + annual + opening * rate == Balance(savings, annual, rate, year)
  {
    var k: nat := year - 1;
    assert currentAge + year == currentAge + k + 1;
  }

  /** The table shows at most the first ten years. */
  method YearWiseData(currentAge: int, savings: real, annual: real, rate: real, yearsToRetirement: nat)
    returns (rows: seq<YearRow>)
    ensures |rows| == if yearsToRetirement < 10 then yearsToRetirement else 10
    ensures forall k :: 0 <= k < |rows| ==> rows[k] == ProjectedRow(k, currentAge, savings, annual, rate)
  {
    var last := if yearsToRetirement < 10 then yearsToRetirement else 10;
    rows := [];
    var cumulativeSavings := savings;
    var year := 1;
    while year <= last
      invariant 1 <= year <= last + 1
      invariant |rows| == year - 1
      invariant cumulativeSavings == Balance(savings, annual, rate, year - 1)
      invariant forall k :: 0 <= k < |rows| ==> rows[k] == ProjectedRow(k, currentAge, savings, annual, rate)
    {
      var openingBalance := cumulativeSavings;
      var row := RowFrom(year, currentAge + year, annual, openingBalance, savings, rate);
      ProjectedRowMatches(year, currentAge, savings, annual, rate, openingBalance);
      rows := rows + [row];
      cumulativeSavings := openingBalance + annual + openingBalance * rate;
      year := year + 1;
    }
  }

  datatype PensionResult = PensionResult(yearsToRetirement: int, retirementYears: int,
                                         inflatedMonthlyExpenses: int, inflatedAnnualExpenses: int,
                                         retirementCorpusNeeded: int, existingSavingsFutureValue: int,
                                         netCorpusNeeded: int, monthlySavingsRequired: int,
                                         annualSavingsRequired: int, totalInvestmentNeeded: int,
                                         yearWiseData: seq<YearRow>)

  /** The page's own calculation once the inputs pass validation. */
  method CalculatePension(i: Inputs) returns (r: PensionResult)
    requires Calculable(i)
    ensures r.yearsToRetirement == YearsToRetirement(i) && r.retirementYears == RetirementYears(i)
    ensures r.inflatedMonthlyExpenses == Round(InflatedMonthlyExpenses(i))
    ensures r.inflatedAnnualExpenses == Round(AnnualExpenses(i))
    ensures r.retirementCorpusNeeded == Round(CorpusNeeded(i))
    ensures r.existingSavingsFutureValue == Round(SavingsFutureValue(i))
    ensures r.netCorpusNeeded == Round(NetCorpus(i))
    ensures r.monthlySavingsRequired == Round(MonthlySaving(i))
    ensures r.annualSavingsRequired == Round(MonthlySaving(i) * 12.0)
    ensures r.totalInvestmentNeeded == Round(MonthlySaving(i) * 12.0 * YearsToRetirement(i) as real)
    ensures |r.yearWiseData| == Min(YearsToRetirement(i) as real, 10.0).Floor
    ensures forall k :: 0 <= k < |r.yearWiseData| ==>
              r.yearWiseData[k] == ProjectedRow(k, i.currentAge, i.existingSavings, MonthlySaving(i) * 12.0,
                                                i.preRetirementReturn / 100.0)
  {
    var annual := MonthlySaving(i) * 12.0;
    var rows := YearWiseData(i.currentAge, i.existingSavings, annual, i.preRetirementReturn / 100.0,
                             YearsToRetirement(i));
    r := PensionResult(YearsToRetirement(i), RetirementYears(i), Round(InflatedMonthlyExpenses(i)),
                       Round(AnnualExpenses(i)), Round(CorpusNeeded(i)), Round(SavingsFutureValue(i)),
                       Round(NetCorpus(i)), Round(MonthlySaving(i)), Round(MonthlySaving(i) * 12.0),
                       Round(MonthlySaving(i) * 12.0 * YearsToRetirement(i) as real), rows);
  }
}
