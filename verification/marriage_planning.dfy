/** Marriage planning: the cost of a wedding inflated to the marriage year,
    the part existing savings will not cover, the monthly investment that
    builds it, and a yearly projection of the portfolio. */
module MarriagePlanning {
  import opened Num
  import opened Results
  import opened Annuity

  datatype Inputs = Inputs(currentCost: real, inflationRate: real, currentAge: int, marriageAge: int,
                           expectedReturn: real, existingSavings: real)

  /** The form's entries with the page's fallbacks for missing or zero values. */
  function GetInputs(cost: Field, inflation: Field, currentAge: Option<int>, marriageAge: Option<int>,
                     expectedReturn: Field, savings: Field): (i: Inputs)
    ensures cost.None? ==> i.currentCost == 500000.0
    ensures inflation.None? ==> i.inflationRate == 6.0
    ensures currentAge.None? ==> i.currentAge == 5
    ensures marriageAge.None? ==> i.marriageAge == 25
    ensures expectedReturn.None? ==> i.expectedReturn == 8.0
    ensures savings.None? ==> i.existingSavings == 0.0
    ensures savings.Some? ==> i.existingSavings == savings.value
    ensures ReadsAs(i.currentCost, cost, 500000.0)
    ensures ReadsAs(i.inflationRate, inflation, 6.0)
    ensures ReadsAsInt(i.currentAge, currentAge, 5)
    ensures ReadsAsInt(i.marriageAge, marriageAge, 25)
    ensures ReadsAs(i.expectedReturn, expectedReturn, 8.0)
    ensures ReadsAs(i.existingSavings, savings, 0.0)
  {
    Inputs(OrDefault(cost, 500000.0), OrDefault(inflation, 6.0), OrDefaultInt(currentAge, 5),
           OrDefaultInt(marriageAge, 25), OrDefault(expectedReturn, 8.0), OrDefault(savings, 0.0))
  }

  /** The page's checks, in order; on success, the years until marriage. */
  function Validate(i: Inputs): (r: Result<nat>)
    ensures r.Ok? <==> i.marriageAge > i.currentAge && 0 <= i.currentAge <= 25
                       && 18 <= i.marriageAge <= 35 && 3.0 <= i.inflationRate <= 12.0
                       && 4.0 <= i.expectedReturn <= 20.0
    ensures r.Ok? ==> r.value as int == i.marriageAge - i.currentAge && r.value > 0
    ensures i.marriageAge <= i.currentAge ==> r == Err("Marriage age must be greater than current age")
  {
    if i.marriageAge <= i.currentAge then Err("Marriage age must be greater than current age")
    else if i.currentAge < 0 || i.currentAge > 25 then Err("Current age must be between 0 and 25 years")
    else if i.marriageAge < 18 || i.marriageAge > 35 then Err("Marriage age must be between 18 and 35 years")
    else if i.inflationRate < 3.0 || i.inflationRate > 12.0 then Err("Inflation rate must be between 3% and 12%")
    else if i.expectedReturn < 4.0 || i.expectedReturn > 20.0 then Err("Expected return must be between 4% and 20%")
    else Ok((i.marriageAge - i.currentAge) as nat)
  }

  /** Today's cost inflated to the marriage year. */
  function FutureCost(i: Inputs, years: nat): real
  {
    i.currentCost * Pow(1.0 + i.inflationRate / 100.0, years)
  }

  /** What the existing savings grow to by the marriage year. */
  function FutureSavings(i: Inputs, years: nat): real
  {
    i.existingSavings * Pow(1.0 + i.expectedReturn / 100.0, years)
  }

  /** What the savings must still build: the inflated cost less what the
      existing savings grow to, never below zero. */
  function RequiredCorpus(i: Inputs, years: nat): (c: real)
    ensures c >= 0.0
    ensures c == 0.0 <==> FutureCost(i, years) <= FutureSavings(i, years)
    ensures c > 0.0 ==> c + FutureSavings(i, years) == FutureCost(i, years)
  {
    Max(0.0, FutureCost(i, years) - FutureSavings(i, years))
  }

  /** The monthly amount the page asks for: nothing when nothing is needed
      or there are no months, otherwise the level payment for the corpus. */
  function MonthlyInvestment(corpus: real, expectedReturn: real, months: nat): real
  {
    if corpus > 0.0 && months > 0 then PaymentFor(corpus, expectedReturn / 12.0 / 100.0, months) else 0.0
  }

  /** Invested at month ends for the whole period, that amount builds the
      required corpus exactly. */
  lemma MonthlyInvestmentBuildsCorpus(corpus: real, expectedReturn: real, months: nat)
    requires corpus >= 0.0 && expectedReturn >= 0.0 && months > 0
    ensures MonthlyInvestment(corpus, expectedReturn, months) >= 0.0
    ensures OrdinaryBalance(MonthlyInvestment(corpus, expectedReturn, months), expectedReturn / 1200.0, months) == corpus
  {
    assert expectedReturn / 12.0 / 100.0 == expectedReturn / 1200.0;
    if corpus > 0.0 {
      PaymentForReachesTarget(corpus, expectedReturn / 1200.0, months);
    } else {
      ZeroPaymentBalance(expectedReturn / 1200.0, months);
    }
  }

  /** The projected portfolio after `k` years: each year's returns are paid
      on the opening balance plus half the year's investment. */
  function Portfolio(savings: real, annual: real, rate: real, k: nat): real
  {
    if k == 0 then savings
    else
      var opening := Portfolio(savings, annual, rate, k - 1);
      opening + annual + (opening + annual / 2.0) * rate
  }

  /** The projection is the savings grown for `k` years plus a year-end
      annuity of the investment credited with half a year's return. */
  lemma PortfolioClosedForm(savings: real, annual: real, rate: real, k: nat)
    ensures Portfolio(savings, annual, rate, k)
            == savings * Pow(1.0 + rate, k) + OrdinaryBalance(annual * (1.0 + rate / 2.0), rate, k)
  {
    PortfolioCompounds(savings, annual, rate, k);
    CompoundClosedForm(savings, annual * (1.0 + rate / 2.0), rate, k);
  }

  /** Crediting half a year's return on the year's investment is the same
      as a year-end payment of the investment grown by half the rate. */
  lemma {:induction false} PortfolioCompounds(savings: real, annual: real, rate: real, k: nat)
    ensures Portfolio(savings, annual, rate, k) == Compound(savings, annual * (1.0 + rate / 2.0), rate, k)
  {
    if k == 0 {
      assert Portfolio(savings, annual, rate, k) == savings;
      assert Compound(savings, annual * (1.0 + rate / 2.0), rate, k) == savings;
    } else {
      PortfolioCompounds(savings, annual, rate, k - 1);
      YearStep(Portfolio(savings, annual, rate, k), Portfolio(savings, annual, rate, k - 1),
               Compound(savings, annual * (1.0 + rate / 2.0), rate, k),
               Compound(savings, annual * (1.0 + rate / 2.0), rate, k - 1), annual, rate);
    }
  }

  /** One year of `PortfolioCompounds`, over plain numbers. */
  lemma YearStep(pk: real, p: real, ck: real, c: real, annual: real, rate: real)
    requires pk == p + annual + (p + annual / 2.0) * rate && p == c
    requires ck == c * (1.0 + rate) + annual * (1.0 + rate / 2.0)
    ensures pk == ck
  {
  }

  /** With non-negative savings, investment and return the portfolio never
      falls below what was put in, so the reported growth is not negative. */
  lemma {:induction false} PortfolioAtLeastInvested(savings: real, annual: real, rate: real, k: nat)
    requires savings >= 0.0 && annual >= 0.0 && rate >= 0.0
    ensures Portfolio(savings, annual, rate, k) >= savings + Times(k, annual)
  {
    if k > 0 {
      PortfolioAtLeastInvested(savings, annual, rate, k - 1);
      var opening := Portfolio(savings, annual, rate, k - 1);
      ScaleMono(rate, 0.0, opening + annual / 2.0);
    }
  }

  datatype YearRow = YearRow(year: int, annualInvestment: real, openingBalance: int, returnsEarned: int,
                             closingBalance: int, totalInvestedTillDate: int)

  datatype Plan = Plan(futureMarriageCost: int, monthlyInvestmentRequired: int, totalCorpusRequired: int,
                       yearsUntilMarriage: int, totalInvestment: int, investmentGrowth: int,
                       existingSavings: real, futureValueExistingSavings: int, yearWiseData: seq<YearRow>)

  /** Row `k` describes year `k + 1` of the projection. */
  predicate YearRowOk(row: YearRow, k: nat, savings: real, annual: real, rate: real)
  {
    var opening := Portfolio(savings, annual, rate, k);
    && row.year == k + 1
    && row.annualInvestment == annual
    && row.openingBalance == Round(opening)
    && row.returnsEarned == Round((opening + annual / 2.0) * rate)
    && row.closingBalance == Round(Portfolio(savings, annual, rate, k + 1))
    && row.totalInvestedTillDate == Round(Times(k + 1, annual))
  }

  method YearWiseData(savings: real, annual: real, rate: real, years: nat)
    returns (rows: seq<YearRow>, totalInvested: real, portfolioValue: real)
    ensures |rows| == years
    ensures forall k :: 0 <= k < |rows| ==> YearRowOk(rows[k], k, savings, annual, rate)
    ensures totalInvested == Times(years, annual)
    ensures portfolioValue == Portfolio(savings, annual, rate, years)
  {
    rows := [];
    totalInvested := 0.0;
    portfolioValue := savings;
    var year := 1;
    while year <= years
      invariant 1 <= year <= years + 1
      invariant |rows| == year - 1
      invariant totalInvested == Times(year - 1, annual)
      invariant portfolioValue == Portfolio(savings, annual, rate, year - 1)
      invariant forall k :: 0 <= k < |rows| ==> YearRowOk(rows[k], k, savings, annual, rate)
    {
      var openingBalance := portfolioValue;
      var returnsEarned := (openingBalance + annual / 2.0) * rate;
      var closingBalance := openingBalance + annual + returnsEarned;
      totalInvested := totalInvested + annual;
      portfolioValue := closingBalance;
      rows := rows + [YearRow(year, annual, Round(openingBalance), Round(returnsEarned), Round(closingBalance),
                              Round(totalInvested))];
      year := year + 1;
    }
  }

  /** A year's investment: twelve of the required monthly amounts. */
  function AnnualInvestment(i: Inputs, years: nat): real
  {
    MonthlyInvestment(RequiredCorpus(i, years), i.expectedReturn, years * 12) * 12.0
  }

  /** The page's own calculation, reached once the inputs pass validation
      (which guarantees a marriage age above the current age). */
  method CalculateMarriagePlan(i: Inputs) returns (plan: Plan)
    requires i.marriageAge > i.currentAge
    ensures plan.yearsUntilMarriage == i.marriageAge - i.currentAge
    ensures plan.futureMarriageCost == Round(FutureCost(i, plan.yearsUntilMarriage))
    ensures plan.futureValueExistingSavings == Round(FutureSavings(i, plan.yearsUntilMarriage))
    ensures plan.totalCorpusRequired == Round(RequiredCorpus(i, plan.yearsUntilMarriage))
    ensures plan.monthlyInvestmentRequired == Round(AnnualInvestment(i, plan.yearsUntilMarriage) / 12.0)
    ensures plan.totalInvestment == Round(Times(plan.yearsUntilMarriage, AnnualInvestment(i, plan.yearsUntilMarriage)))
    ensures plan.investmentGrowth
            == Round(Portfolio(i.existingSavings, AnnualInvestment(i, plan.yearsUntilMarriage),
                               i.expectedReturn / 100.0, plan.yearsUntilMarriage)
                     - Times(plan.yearsUntilMarriage, AnnualInvestment(i, plan.yearsUntilMarriage))
                     - i.existingSavings)
    ensures |plan.yearWiseData| == plan.yearsUntilMarriage
    ensures forall k :: 0 <= k < |plan.yearWiseData| ==>
              YearRowOk(plan.yearWiseData[k], k, i.existingSavings, AnnualInvestment(i, plan.yearsUntilMarriage),
                        i.expectedReturn / 100.0)
  {
    var years := (i.marriageAge - i.currentAge) as nat;
    var annual := AnnualInvestment(i, years);
    var rows, totalInvested, portfolioValue := YearWiseData(i.existingSavings, annual, i.expectedReturn / 100.0, years);
    var totalGrowth := portfolioValue - totalInvested - i.existingSavings;
    plan := Plan(Round(FutureCost(i, years)), Round(annual / 12.0), Round(RequiredCorpus(i, years)), years,
                 Round(totalInvested), Round(totalGrowth), i.existingSavings, Round(FutureSavings(i, years)), rows);
  }

  /** When the savings alone outgrow the inflated cost, nothing more is
      invested and the projection ends at the grown savings, which cover the cost. */
  lemma SavingsAloneSuffice(i: Inputs, years: nat)
    requires RequiredCorpus(i, years) == 0.0
    ensures MonthlyInvestment(RequiredCorpus(i, years), i.expectedReturn, years * 12) == 0.0
    ensures Portfolio(i.existingSavings, 0.0, i.expectedReturn / 100.0, years) == FutureSavings(i, years)
    ensures FutureSavings(i, years) >= FutureCost(i, years)
  {
    GrownSavings(i.existingSavings, i.expectedReturn / 100.0, years);
  }

  lemma {:induction false} GrownSavings(savings: real, rate: real, k: nat)
    ensures Portfolio(savings, 0.0, rate, k) == savings * Pow(1.0 + rate, k)
  {
    if k > 0 {
      GrownSavings(savings, rate, k - 1);
      var p := Pow(1.0 + rate, k - 1);
      assert savings * p + savings * p * rate == savings * ((1.0 + rate) * p);
    }
  }
}
