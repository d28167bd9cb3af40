/** NPS against SIP with equal monthly contributions: the SIP is taxed on
    long-term gains, the NPS pays out part as a lump sum and buys an
    annuity with the rest, and contributions earn an 80CCD(1B) deduction. */
module NpsVsSip {
  import opened Num
  import opened Results
  import opened Annuity

  datatype Inputs = Inputs(monthlyInvestment: real, duration: nat, sipReturn: real, npsReturn: real,
                           taxSlab: real, taxBenefit: bool, lumpSumPercent: real, annuityPercent: real,
                           annuityRate: real)

  /** The form's numeric entries with their fallbacks; a zero entry falls
      back as well, so neither return rate can be zero. */
  function GetInputs(monthly: Field, duration: nat, sipReturn: Field, npsReturn: Field, taxSlab: Field,
                     taxBenefit: bool, lumpSum: Field, annuity: Field, annuityRate: Field): (i: Inputs)
    ensures i.sipReturn != 0.0 && i.npsReturn != 0.0
    ensures lumpSum.None? ==> i.lumpSumPercent == 60.0
    ensures annuity.None? ==> i.annuityPercent == 40.0
    ensures duration != 0 ==> i.duration == duration
    ensures duration == 0 ==> i.duration == 20
    ensures ReadsAs(i.monthlyInvestment, monthly, 5000.0)
    ensures ReadsAs(i.sipReturn, sipReturn, 12.0)
    ensures ReadsAs(i.npsReturn, npsReturn, 10.0)
    ensures ReadsAs(i.taxSlab, taxSlab, 30.0)
    ensures ReadsAs(i.lumpSumPercent, lumpSum, 60.0)
    ensures ReadsAs(i.annuityPercent, annuity, 40.0)
    ensures ReadsAs(i.annuityRate, annuityRate, 6.5)
  {
    Inputs(OrDefault(monthly, 5000.0), if duration == 0 then 20 else duration, OrDefault(sipReturn, 12.0),
           OrDefault(npsReturn, 10.0), OrDefault(taxSlab, 30.0), taxBenefit, OrDefault(lumpSum, 60.0),
           OrDefault(annuity, 40.0), OrDefault(annuityRate, 6.5))
  }

  datatype Returns = Returns(maturityValue: real, totalInvestment: real, totalGains: real)

  /** SIP maturity by the annuity-due formula; the NPS is projected by the same function. */
  function SipReturns(monthly: real, annualReturn: real, years: nat): (r: Returns)
    requires annualReturn != 0.0
    ensures r.maturityValue == DueBalance(monthly, annualReturn / 100.0 / 12.0, years * 12)
    ensures r.totalInvestment == monthly * (years * 12) as real
    ensures r.totalGains == r.maturityValue - r.totalInvestment
  {
    FormulaIsBalance(monthly, annualReturn, years);
    var fv := SipFutureValue(monthly, annualReturn / 100.0 / 12.0, years * 12);
    Returns(fv, monthly * (years * 12) as real, fv - monthly * (years * 12) as real)
  }

  lemma FormulaIsBalance(monthly: real, annualReturn: real, years: nat)
    requires annualReturn != 0.0
    ensures SipFutureValue(monthly, annualReturn / 100.0 / 12.0, years * 12)
            == DueBalance(monthly, annualReturn / 100.0 / 12.0, years * 12)
  {
    SipFormulaIsDueBalance(monthly, annualReturn / 100.0 / 12.0, years * 12);
  }

  /** 10% of long-term gains above the 1 lakh exemption. */
  function LtcgTax(totalGains: real): (t: real)
    ensures totalGains <= 100000.0 ==> t == 0.0
    ensures totalGains > 100000.0 ==> t * 10.0 == totalGains - 100000.0
    ensures 0.0 <= t && t * 10.0 <= Max(0.0, totalGains)
  {
    if totalGains > 100000.0 then (totalGains - 100000.0) * 0.10 else 0.0
  }

  /** Pension a month from the annuity corpus at the annuity rate. */
  function MonthlyPension(annuityCorpus: real, annuityRate: real): (p: real)
    ensures p * 1200.0 == annuityCorpus * annuityRate
  {
    annuityCorpus * (annuityRate / 100.0 / 12.0)
  }

  /** Editing the lump-sum share sets the annuity share to the rest of the
      whole percentage: `100 - parseInt(lump)`. */
  function SyncAnnuityPercent(lumpSumPercent: int): (a: int)
    ensures a + lumpSumPercent == 100
  {
    100 - lumpSumPercent
  }

  /** Once the shares are in sync the two parts make up the whole corpus. */
  lemma SyncedPartsMakeCorpus(maturity: real, lumpSumPercent: int)
    ensures var annuity := SyncAnnuityPercent(lumpSumPercent);
            maturity * (lumpSumPercent as real / 100.0) + maturity * (annuity as real / 100.0) == maturity
  {
    var a := SyncAnnuityPercent(lumpSumPercent);
    assert lumpSumPercent as real / 100.0 + a as real / 100.0 == 1.0;
    Distribute(maturity, lumpSumPercent as real / 100.0, a as real / 100.0);
  }

  lemma Distribute(m: real, x: real, y: real)
    ensures m * x + m * y == m * (x + y)
  {
  }

  const MaxTaxBenefit := 50000.0

  /** Tax saved a year under section 80CCD(1B): the slab rate on the year's
      contributions up to 50000, and nothing when the benefit is off. */
  function AnnualTaxSaved(monthly: real, taxSlab: real, taxBenefit: bool): (t: real)
    ensures !taxBenefit ==> t == 0.0
    ensures taxBenefit ==> t * 100.0 == Min(monthly * 12.0, MaxTaxBenefit) * taxSlab
  {
    var eligible := Min(monthly * 12.0, MaxTaxBenefit);
    if taxBenefit then eligible * taxSlab / 100.0 else 0.0
  }

  /** `s` is `percent`% of `total`. */
  predicate IsShare(s: real, total: real, percent: real)
  {
    s * 100.0 == total * percent
  }

  /** `percent`% of `total`, as `total * (percent / 100)`. */
  function Share(total: real, percent: real): (s: real)
    ensures IsShare(s, total, percent)
  {
    total * (percent / 100.0)
  }

  datatype Winner = Sip | Nps

  datatype Comparison = Comparison(sip: Returns, sipLtcgTax: real, sipPostTaxValue: real, nps: Returns,
                                   npsLumpSum: real, npsAnnuityCorpus: real, monthlyPension: real,
                                   annualTaxSaved: real, totalTaxSaved: real, winner: Winner, difference: real)

  /** The SIP after tax is weighed against the NPS lump sum only; the
      annuity is left out of the comparison. */
  function CalculateNpsSipComparison(i: Inputs): (c: Comparison)
    requires i.sipReturn != 0.0 && i.npsReturn != 0.0
    ensures c.sip == SipReturns(i.monthlyInvestment, i.sipReturn, i.duration)
    ensures c.nps == SipReturns(i.monthlyInvestment, i.npsReturn, i.duration)
    ensures c.sipPostTaxValue == c.sip.maturityValue - LtcgTax(c.sip.totalGains)
    ensures IsShare(c.npsLumpSum, c.nps.maturityValue, i.lumpSumPercent)
    ensures IsShare(c.npsAnnuityCorpus, c.nps.maturityValue, i.annuityPercent)
    ensures c.totalTaxSaved == c.annualTaxSaved * i.duration as real
    ensures c.annualTaxSaved == AnnualTaxSaved(i.monthlyInvestment, i.taxSlab, i.taxBenefit)
    ensures !i.taxBenefit ==> c.annualTaxSaved == 0.0 && c.totalTaxSaved == 0.0
    ensures i.taxBenefit ==> c.annualTaxSaved * 100.0 == Min(i.monthlyInvestment * 12.0, MaxTaxBenefit) * i.taxSlab
    ensures c.monthlyPension == MonthlyPension(c.npsAnnuityCorpus, i.annuityRate)
    ensures c.monthlyPension * 1200.0 == c.npsAnnuityCorpus * i.annuityRate
    ensures c.winner == Sip <==> c.sipPostTaxValue > c.npsLumpSum
    ensures c.difference >= 0.0
    ensures c.difference == Abs(c.sipPostTaxValue - c.npsLumpSum)
  {
    var sip := SipReturns(i.monthlyInvestment, i.sipReturn, i.duration);
    var tax := LtcgTax(sip.totalGains);
    var sipPost := sip.maturityValue - tax;
    var nps := SipReturns(i.monthlyInvestment, i.npsReturn, i.duration);
    var lump := Share(nps.maturityValue, i.lumpSumPercent);
    var annuity := Share(nps.maturityValue, i.annuityPercent);
    var annual := AnnualTaxSaved(i.monthlyInvestment, i.taxSlab, i.taxBenefit);
    var (winner, difference) := Decide(sipPost, lump);
    Comparison(sip, tax, sipPost, nps, lump, annuity, MonthlyPension(annuity, i.annuityRate), annual,
               annual * i.duration as real, winner, difference)
  }

  /** The winner is the SIP only when its post-tax value is strictly larger;
      the difference is the gap either way. */
  function Decide(sipPost: real, lump: real): (d: (Winner, real))
    ensures d.0 == Sip <==> sipPost > lump
    ensures d.1 >= 0.0 && d.1 == Abs(sipPost - lump)
  {
    var winner := if sipPost > lump then Sip else Nps;
    var difference := if sipPost > lump then sipPost - lump else lump - sipPost;
    (winner, difference)
  }

  /** With equal return rates the NPS grows exactly as the SIP does. */
  lemma EqualRatesEqualCorpus(i: Inputs)
    requires i.sipReturn != 0.0 && i.sipReturn == i.npsReturn
    ensures var c := CalculateNpsSipComparison(i);
            c.sip == c.nps && c.sipPostTaxValue <= c.sip.maturityValue
  {
  }

  datatype TableRow = TableRow(year: int, annualInvestment: real, sipValue: real, npsValue: real,
                               annualTaxSaved: real, difference: real)

  predicate TableRowOk(row: TableRow, k: nat, i: Inputs)
  {
    && row.year == k + 1
    && row.annualInvestment == i.monthlyInvestment * 12.0
    && row.sipValue == DueBalance(i.monthlyInvestment, i.sipReturn / 100.0 / 12.0, 12 * (k + 1))
    && row.npsValue == DueBalance(i.monthlyInvestment, i.npsReturn / 100.0 / 12.0, 12 * (k + 1))
    && row.annualTaxSaved == AnnualTaxSaved(i.monthlyInvestment, i.taxSlab, i.taxBenefit)
    && row.difference == row.sipValue - row.npsValue
  }

  /** One row per year; the last row's values are the headline maturities. */
  method YearlyTable(i: Inputs) returns (rows: seq<TableRow>)
    requires i.sipReturn != 0.0 && i.npsReturn != 0.0
    ensures |rows| == i.duration
    ensures forall k :: 0 <= k < |rows| ==> TableRowOk(rows[k], k, i)
    ensures |rows| > 0 ==> rows[|rows| - 1].sipValue == CalculateNpsSipComparison(i).sip.maturityValue
  {
    rows := [];
    var annualInvestment := i.monthlyInvestment * 12.0;
    var annualTaxSaved := AnnualTaxSaved(i.monthlyInvestment, i.taxSlab, i.taxBenefit);
    var year := 1;
    while year <= i.duration
      invariant 1 <= year <= i.duration + 1
      invariant |rows| == year - 1
      invariant forall k :: 0 <= k < |rows| ==> TableRowOk(rows[k], k, i)
    {
      var sipValue := SipReturns(i.monthlyInvestment, i.sipReturn, year).maturityValue;
      var npsValue := SipReturns(i.monthlyInvestment, i.npsReturn, year).maturityValue;
      var row := TableRow(year, annualInvestment, sipValue, npsValue, annualTaxSaved, sipValue - npsValue);
      assert year * 12 == 12 * (year - 1 + 1);
      assert TableRowOk(row, year - 1, i);
      rows := rows + [row];
      year := year + 1;
    }
  }
}
