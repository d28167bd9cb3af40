/** ELSS against an ordinary SIP of the same monthly amount: ELSS
    contributions are deductible under section 80C up to 1.5 lakh a year. */
module ElssVsSip {
  import opened Num
  import opened Results
  import opened Annuity

  const Max80c := 150000.0

  function Validate(monthlyInvestment: real, durationYears: int): (r: Result<()>)
    ensures r.Ok? <==> 500.0 <= monthlyInvestment <= 50000.0 && 3 <= durationYears <= 30
  {
    if monthlyInvestment < 500.0 || monthlyInvestment > 50000.0 then
      Err("Monthly investment must be between ₹500 and ₹50,000")
    else if durationYears < 3 || durationYears > 30 then
      Err("Investment duration must be between 3 and 30 years")
    else Ok(())
  }

  /** Tax saved a year: the slab rate on the year's contributions up to the 80C cap. */
  function AnnualTaxSaved(monthlyInvestment: real, taxSlab: real): (t: real)
    ensures t * 100.0 == Min(monthlyInvestment * 12.0, Max80c) * taxSlab
    ensures monthlyInvestment >= 0.0 && taxSlab >= 0.0 ==> t >= 0.0
  {
    var eligible := Min(monthlyInvestment * 12.0, Max80c);
    eligible * (taxSlab / 100.0)
  }

  /** Value after `months` monthly instalments by the annuity-due formula;
      the page's rate fields fall back to 12 and 14 when zero, so the
      formula is always defined. */
  function FundValue(monthly: real, annualRate: real, months: nat): (v: real)
    requires annualRate != 0.0
    ensures v == DueBalance(monthly, annualRate / 1200.0, months)
  {
    var m := annualRate / (12.0 * 100.0);
    SipFormulaIsDueBalance(monthly, m, months);
    SipFutureValue(monthly, m, months)
  }

  datatype YearRow = YearRow(year: int, annualInvestment: real, sipValue: int, elssValue: int,
                             annualTaxSaved: int, elssAdvantage: int)

  datatype ElssResult = ElssResult(sipFinalValue: int, elssFinalValue: int, totalTaxSaved: int,
                                   netBenefit: int, annualInvestment: real, yearWiseData: seq<YearRow>)

  /** Row `k`: the two funds after `k + 1` years and the ELSS's lead
      counting the tax saved so far. */
  predicate YearRowOk(row: YearRow, k: nat, monthly: real, sipRate: real, elssRate: real, taxSlab: real)
    requires sipRate != 0.0 && elssRate != 0.0
  {
    var sip := FundValue(monthly, sipRate, 12 * (k + 1));
    var elss := FundValue(monthly, elssRate, 12 * (k + 1));
    var annual := AnnualTaxSaved(monthly, taxSlab);
    && row.year == k + 1
    && row.annualInvestment == monthly * 12.0
    && row.sipValue == Round(sip)
    && row.elssValue == Round(elss)
    && row.annualTaxSaved == Round(annual)
    && row.elssAdvantage == Round(elss + TaxSavedUpTo(monthly, taxSlab, k + 1) - sip)
  }

  /** Tax saved over the first `years` years, accumulated year by year. */
  function TaxSavedUpTo(monthly: real, taxSlab: real, years: nat): real
  {
    if years == 0 then 0.0 else TaxSavedUpTo(monthly, taxSlab, years - 1) + AnnualTaxSaved(monthly, taxSlab)
  }

  lemma {:induction false} TaxSavedUpToIsProduct(monthly: real, taxSlab: real, years: nat)
    ensures TaxSavedUpTo(monthly, taxSlab, years) == AnnualTaxSaved(monthly, taxSlab) * years as real
  {
    if years > 0 {
      TaxSavedUpToIsProduct(monthly, taxSlab, years - 1);
      var a := AnnualTaxSaved(monthly, taxSlab);
      assert a * years as real == a * (years - 1) as real + a;
    }
  }

  /** ELSS value plus the tax it saved, less the SIP value. */
  function NetBenefit(monthly: real, durationYears: nat, sipRate: real, elssRate: real, taxSlab: real): (b: real)
    requires sipRate != 0.0 && elssRate != 0.0
  {
    var months := durationYears * 12;
    var total := AnnualTaxSaved(monthly, taxSlab) * durationYears as real;
    (FundValue(monthly, elssRate, months) + total) - FundValue(monthly, sipRate, months)
  }

  /** With equal return rates the ELSS's whole advantage is the tax saved,
      never negative for a non-negative slab. */
  lemma EqualRatesBenefitIsTaxSaved(monthly: real, durationYears: nat, rate: real, taxSlab: real)
    requires rate != 0.0 && monthly >= 0.0 && taxSlab >= 0.0
    ensures NetBenefit(monthly, durationYears, rate, rate, taxSlab)
            == AnnualTaxSaved(monthly, taxSlab) * durationYears as real
    ensures NetBenefit(monthly, durationYears, rate, rate, taxSlab) >= 0.0
  {
  }

  method YearWiseData(monthly: real, durationYears: nat, sipRate: real, elssRate: real, taxSlab: real)
    returns (rows: seq<YearRow>)
    requires sipRate != 0.0 && elssRate != 0.0
    ensures |rows| == durationYears
    ensures forall k :: 0 <= k < |rows| ==> YearRowOk(rows[k], k, monthly, sipRate, elssRate, taxSlab)
  {
    var annual := AnnualTaxSaved(monthly, taxSlab);
    rows := [];
    var cumulativeTaxSaved := 0.0;
    var year := 1;
    while year <= durationYears
      invariant 1 <= year <= durationYears + 1
      invariant |rows| == year - 1
      invariant cumulativeTaxSaved == TaxSavedUpTo(monthly, taxSlab, year - 1)
      invariant forall k :: 0 <= k < |rows| ==> YearRowOk(rows[k], k, monthly, sipRate, elssRate, taxSlab)
    {
      var monthsCompleted := year * 12;
      var sipValue := FundValue(monthly, sipRate, monthsCompleted);
      var elssValue := FundValue(monthly, elssRate, monthsCompleted);
      cumulativeTaxSaved := cumulativeTaxSaved + annual;
      var row := YearRow(year, monthly * 12.0, Round(sipValue), Round(elssValue), Round(annual),
                         Round((elssValue + cumulativeTaxSaved) - sipValue));
      assert monthsCompleted == 12 * (year - 1 + 1);
      assert YearRowOk(row, year - 1, monthly, sipRate, elssRate, taxSlab);
      rows := rows + [row];
      year := year + 1;
    }
  }

  method CalculateElssVsSip(monthly: real, durationYears: nat, sipRate: real, elssRate: real, taxSlab: real)
    returns (r: ElssResult)
    requires sipRate != 0.0 && elssRate != 0.0
    ensures var months := durationYears * 12;
            && r.sipFinalValue == Round(DueBalance(monthly, sipRate / 1200.0, months))
            && r.elssFinalValue == Round(DueBalance(monthly, elssRate / 1200.0, months))
            && r.totalTaxSaved == Round(AnnualTaxSaved(monthly, taxSlab) * durationYears as real)
            && r.netBenefit == Round(NetBenefit(monthly, durationYears, sipRate, elssRate, taxSlab))
    ensures |r.yearWiseData| == durationYears
    ensures forall k :: 0 <= k < |r.yearWiseData| ==> YearRowOk(r.yearWiseData[k], k, monthly, sipRate, elssRate, taxSlab)
    ensures durationYears > 0 ==> r.yearWiseData[durationYears - 1].elssAdvantage == r.netBenefit
  {
    var totalMonths := durationYears * 12;
    var sipFinal := FundValue(monthly, sipRate, totalMonths);
    var elssFinal := FundValue(monthly, elssRate, totalMonths);
    var totalTaxSaved := AnnualTaxSaved(monthly, taxSlab) * durationYears as real;
    var rows := YearWiseData(monthly, durationYears, sipRate, elssRate, taxSlab);
    if durationYears > 0 {
      assert YearRowOk(rows[durationYears - 1], durationYears - 1, monthly, sipRate, elssRate, taxSlab);
      assert 12 * (durationYears - 1 + 1) == totalMonths;
      TaxSavedUpToIsProduct(monthly, taxSlab, durationYears);
    }
    r := ElssResult(Round(sipFinal), Round(elssFinal), Round(totalTaxSaved),
                    Round(NetBenefit(monthly, durationYears, sipRate, elssRate, taxSlab)), monthly * 12.0, rows);
  }
}
