/** CTC-to-take-home breakdown: salary structure derived from the annual
    cost to company, employer and employee contributions, the old-regime
    HRA exemption and capped deductions, regime slab tax and the monthly
    take-home figure. */
module Ctc {
  import opened Num
  import opened Results
  import IncomeTax

  datatype CtcInput = CtcInput(
    ctcAmount: real, monthlyFrequency: bool,
    basicPercent: real, hraPercent: real, specialAllowance: real, bonusAmount: real,
    employerPfPercent: real, employeePfPercent: real, gratuityPercent: real,
    professionalTax: real,
    oldRegime: bool, metroCity: bool, monthlyRent: real,
    section80C: real, section80CCD1B: real, section80D: real,
    seniorCitizens: bool, includeParents: bool, section80TTA: real,
    homeLoanInterest: real, propertyRentedOut: bool,
    epfApplicable: bool, professionalTaxApplicable: bool)

  /** Annual salary structure derived from the CTC. */
  datatype Salary = Salary(
    annualCtc: real, basic: real, hra: real, employerPf: real, gratuity: real,
    gross: real, employeePf: real, professionalTaxMonthly: real)

  /** The tax side: HRA exemption, taxable income and annual income tax. */
  datatype TaxFigures = TaxFigures(hraExemption: real, taxableIncome: real, incomeTax: real)

  /** Monthly and annual take-home, total deductions and the take-home share of CTC. */
  datatype TakeHome = TakeHome(monthly: real, annual: real, deductionsMonthly: real,
                               deductionsAnnual: real, percentage: real)

  datatype CtcBreakdown = CtcBreakdown(salary: Salary, tax: TaxFigures, takehome: TakeHome)

  /** The HRA exemption, granted only under the old regime when rent is
      paid: the least of the HRA received, 50% (metro) or 40% of basic, and
      the rent in excess of 10% of basic. */
  function HraExemption(oldRegime: bool, metro: bool, monthlyRent: real, basicAnnual: real,
                        hraAnnual: real): (r: real)
    ensures !(oldRegime && monthlyRent > 0.0) ==> r == 0.0
    ensures oldRegime && monthlyRent > 0.0 ==>
              r <= hraAnnual
              && r <= basicAnnual * (if metro then 0.5 else 0.4)
              && r <= Max(0.0, monthlyRent * 12.0 - basicAnnual * 0.1)
              && (r == hraAnnual || r == basicAnnual * (if metro then 0.5 else 0.4)
                  || r == Max(0.0, monthlyRent * 12.0 - basicAnnual * 0.1))
    ensures hraAnnual >= 0.0 && basicAnnual >= 0.0 ==> 0.0 <= r <= hraAnnual
  {
    if oldRegime && monthlyRent > 0.0 then
      var annualRent := monthlyRent * 12.0;
      var limit := basicAnnual * (if metro then 0.5 else 0.4);
      Min3(hraAnnual, limit, Max(0.0, annualRent - basicAnnual * 0.1))
    else 0.0
  }

  /** Section 80D limit: 25000 (50000 for senior self), plus 25000 (50000
      for senior parents) when parents are included. */
  function HealthInsuranceLimit(seniors: bool, includeParents: bool): (r: real)
    ensures r >= 25000.0 && r <= 100000.0
    ensures includeParents <==> r >= 50000.0 && (seniors ==> r == 100000.0)
    ensures !seniors && !includeParents ==> r == 25000.0
    ensures seniors && !includeParents ==> r == 50000.0
    ensures !seniors && includeParents ==> r == 50000.0
    ensures seniors && includeParents ==> r == 100000.0
  {
    var own := if seniors then 50000.0 else 25000.0;
    if includeParents then own + (if seniors then 50000.0 else 25000.0) else own
  }

  /** Home-loan interest cap: 3 lakh for a let-out property, else 2 lakh. */
  function HomeLoanLimit(rentedOut: bool): real
  {
    if rentedOut then 300000.0 else 200000.0
  }

  /** Old-regime slab tax as this script writes it (no age variation). */
  function OldSlabTax(taxable: real): real
  {
    if taxable > 250000.0 then
      if taxable <= 500000.0 then (taxable - 250000.0) * 0.05
      else if taxable <= 1000000.0 then 250000.0 * 0.05 + (taxable - 500000.0) * 0.20
      else 250000.0 * 0.05 + 500000.0 * 0.20 + (taxable - 1000000.0) * 0.30
    else 0.0
  }

  /** New-regime slab tax as this script writes it. */
  function NewSlabTax(taxable: real): real
  {
    if taxable > 300000.0 then
      if taxable <= 600000.0 then (taxable - 300000.0) * 0.05
      else if taxable <= 900000.0 then 300000.0 * 0.05 + (taxable - 600000.0) * 0.10
      else if taxable <= 1200000.0 then 300000.0 * 0.05 + 300000.0 * 0.10 + (taxable - 900000.0) * 0.15
      else if taxable <= 1500000.0 then
        300000.0 * 0.05 + 300000.0 * 0.10 + 300000.0 * 0.15 + (taxable - 1200000.0) * 0.20
      else 300000.0 * 0.05 + 300000.0 * 0.10 + 300000.0 * 0.15 + 300000.0 * 0.20 + (taxable - 1500000.0) * 0.30
    else 0.0
  }

  /** This script's slabs agree with the income-tax calculator's (the old
      regime with the below-60 slabs), so they inherit its shape: zero up to
      2.5 lakh (old) or 3 lakh (new), non-decreasing and continuous. */
  lemma SlabsAgreeWithIncomeTax(x: real, y: real)
    requires x <= y
    ensures OldSlabTax(x) == IncomeTax.OldRegimeSlabTax(x, "0-60")
    ensures NewSlabTax(x) == IncomeTax.NewRegimeSlabTax(x)
    ensures x <= 250000.0 ==> OldSlabTax(x) == 0.0
    ensures x <= 300000.0 ==> NewSlabTax(x) == 0.0
    ensures 0.0 <= OldSlabTax(y) - OldSlabTax(x) <= 0.30 * (y - x)
    ensures 0.0 <= NewSlabTax(y) - NewSlabTax(x) <= 0.30 * (y - x)
  {
    IncomeTax.OldRegimeShape(x, y, "0-60");
    IncomeTax.NewRegimeShape(x, y);
  }

  /** Every old-regime section entry is at most its cap. */
  predicate WithinCaps(inp: CtcInput)
  {
    && inp.section80C <= 150000.0 && inp.section80CCD1B <= 50000.0
    && inp.section80D <= HealthInsuranceLimit(inp.seniorCitizens, inp.includeParents)
    && inp.section80TTA <= 10000.0 && inp.homeLoanInterest <= HomeLoanLimit(inp.propertyRentedOut)
  }

  /** Every old-regime section entry is at least its cap. */
  predicate AtLeastCaps(inp: CtcInput)
  {
    && inp.section80C >= 150000.0 && inp.section80CCD1B >= 50000.0
    && inp.section80D >= HealthInsuranceLimit(inp.seniorCitizens, inp.includeParents)
    && inp.section80TTA >= 10000.0 && inp.homeLoanInterest >= HomeLoanLimit(inp.propertyRentedOut)
  }

  predicate NonNegativeEntries(inp: CtcInput)
  {
    && inp.section80C >= 0.0 && inp.section80CCD1B >= 0.0 && inp.section80D >= 0.0
    && inp.section80TTA >= 0.0 && inp.homeLoanInterest >= 0.0
  }

  /** Deductions the regime allows against gross salary: the standard
      deduction and employee PF in both regimes, and under the old regime
      also the HRA exemption and the capped sections. */
  function RegimeDeductions(inp: CtcInput, gross: real, employeePf: real, hraExemption: real): (r: real)
    ensures !inp.oldRegime ==> r == Min(50000.0, gross) + employeePf
    ensures inp.oldRegime ==>
              r <= Min(50000.0, gross) + employeePf + hraExemption + 150000.0 + 50000.0
                   + HealthInsuranceLimit(inp.seniorCitizens, inp.includeParents) + 10000.0
                   + HomeLoanLimit(inp.propertyRentedOut)
    // entries within their caps are deducted as entered
    ensures inp.oldRegime && WithinCaps(inp) ==>
              r == Min(50000.0, gross) + employeePf + hraExemption + inp.section80C + inp.section80CCD1B
                   + inp.section80D + inp.section80TTA + inp.homeLoanInterest
    // entries at or above their caps are deducted at the cap
    ensures inp.oldRegime && AtLeastCaps(inp) ==>
              r == Min(50000.0, gross) + employeePf + hraExemption + 150000.0 + 50000.0
                   + HealthInsuranceLimit(inp.seniorCitizens, inp.includeParents) + 10000.0
                   + HomeLoanLimit(inp.propertyRentedOut)
    ensures inp.oldRegime && NonNegativeEntries(inp) ==>
              r >= Min(50000.0, gross) + employeePf + hraExemption
  {
    var base := Min(50000.0, gross) + employeePf;
    if inp.oldRegime then
      base + hraExemption + Min(inp.section80C, 150000.0) + Min(inp.section80CCD1B, 50000.0)
      + Min(inp.section80D, HealthInsuranceLimit(inp.seniorCitizens, inp.includeParents))
      + Min(inp.section80TTA, 10000.0) + Min(inp.homeLoanInterest, HomeLoanLimit(inp.propertyRentedOut))
    else base
  }

  /** Salary structure: basic is a share of CTC, HRA, employer PF and
      gratuity are shares of basic, and gross salary is what remains of CTC
      after the employer's contributions. */
  function SalaryOf(inp: CtcInput, annualCtc: real): (s: Salary)
    ensures s.annualCtc == annualCtc
    ensures s.gross == annualCtc - s.employerPf - s.gratuity
    ensures s.basic == annualCtc * inp.basicPercent / 100.0
    ensures s.hra == s.basic * inp.hraPercent / 100.0
    ensures s.employerPf == s.basic * inp.employerPfPercent / 100.0
    ensures s.gratuity == s.basic * inp.gratuityPercent / 100.0
    ensures s.employeePf == (if inp.epfApplicable then s.basic * inp.employeePfPercent / 100.0 else 0.0)
    ensures s.professionalTaxMonthly == (if inp.professionalTaxApplicable then inp.professionalTax / 12.0 else 0.0)
  {
    var basic := annualCtc * inp.basicPercent / 100.0;
    var employerPf := basic * inp.employerPfPercent / 100.0;
    var gratuity := basic * inp.gratuityPercent / 100.0;
    Salary(annualCtc, basic, basic * inp.hraPercent / 100.0, employerPf, gratuity,
           annualCtc - employerPf - gratuity,
           if inp.epfApplicable then basic * inp.employeePfPercent / 100.0 else 0.0,
           if inp.professionalTaxApplicable then inp.professionalTax / 12.0 else 0.0)
  }

  /** Gross salary as a share of CTC. */
  lemma GrossShareOfCtc(inp: CtcInput, annualCtc: real)
    ensures var s := SalaryOf(inp, annualCtc);
            s.gross == annualCtc * (1.0 - inp.basicPercent * (inp.employerPfPercent + inp.gratuityPercent) / 10000.0)
  {
    var s := SalaryOf(inp, annualCtc);
    var b := annualCtc * inp.basicPercent / 100.0;
    assert s.employerPf + s.gratuity == b * (inp.employerPfPercent + inp.gratuityPercent) / 100.0;
  }

  /** Taxable income and tax under the chosen regime. */
  function TaxOf(inp: CtcInput, s: Salary): (t: TaxFigures)
    ensures t.hraExemption == HraExemption(inp.oldRegime, inp.metroCity, inp.monthlyRent, s.basic, s.hra)
    ensures t.taxableIncome >= 0.0
    ensures t.taxableIncome >= s.gross - RegimeDeductions(inp, s.gross, s.employeePf, t.hraExemption)
    ensures t.taxableIncome > 0.0 ==>
              t.taxableIncome == s.gross - RegimeDeductions(inp, s.gross, s.employeePf, t.hraExemption)
    ensures t.incomeTax == (if inp.oldRegime then IncomeTax.OldRegimeSlabTax(t.taxableIncome, "0-60")
                            else IncomeTax.NewRegimeSlabTax(t.taxableIncome))
  {
    var exemption := HraExemption(inp.oldRegime, inp.metroCity, inp.monthlyRent, s.basic, s.hra);
    var taxable := Max(0.0, s.gross - RegimeDeductions(inp, s.gross, s.employeePf, exemption));
    SlabsAgreeWithIncomeTax(taxable, taxable);
    TaxFigures(exemption, taxable, if inp.oldRegime then OldSlabTax(taxable) else NewSlabTax(taxable))
  }

  /** Take-home: monthly gross less the monthly employee PF, professional tax
      and income tax; over a year, take-home and deductions add up to gross. */
  function TakeHomeOf(s: Salary, t: TaxFigures): (h: TakeHome)
    requires s.annualCtc != 0.0
    ensures h.monthly == s.gross / 12.0 - (s.employeePf / 12.0 + s.professionalTaxMonthly + t.incomeTax / 12.0)
    ensures h.annual + h.deductionsAnnual == s.gross
    ensures h.annual == 12.0 * h.monthly
    ensures h.percentage == h.annual / s.annualCtc * 100.0
  {
    var deductions := s.employeePf / 12.0 + s.professionalTaxMonthly + t.incomeTax / 12.0;
    var monthly := s.gross / 12.0 - deductions;
    TakeHome(monthly, monthly * 12.0, deductions, deductions * 12.0, monthly * 12.0 / s.annualCtc * 100.0)
  }

  /** The client-side breakdown, after the page's two input checks. */
  function CalculateCtc(inp: CtcInput): (r: Result<CtcBreakdown>)
    ensures r.Err? <==> inp.ctcAmount <= 0.0 || inp.basicPercent < 30.0 || inp.basicPercent > 60.0
    ensures r.Ok? ==>
      && r.value.salary == SalaryOf(inp, (if inp.monthlyFrequency then 12.0 else 1.0) * inp.ctcAmount)
      && r.value.salary.annualCtc > 0.0
      && r.value.tax == TaxOf(inp, r.value.salary)
      && r.value.takehome == TakeHomeOf(r.value.salary, r.value.tax)
  {
    var annualCtc := if inp.monthlyFrequency then inp.ctcAmount * 12.0 else inp.ctcAmount;
    if inp.ctcAmount <= 0.0 then Err("CTC amount must be greater than 0")
    else if inp.basicPercent < 30.0 || inp.basicPercent > 60.0 then
      Err("Basic Salary percentage should be between 30% and 60%")
    else
      var s := SalaryOf(inp, annualCtc);
      var t := TaxOf(inp, s);
      Ok(CtcBreakdown(s, t, TakeHomeOf(s, t)))
  }

  /** For a valid input with a non-negative HRA share, the exemption lies
      between zero and the HRA received, and is zero under the new regime. */
  lemma ExemptionWithinHra(inp: CtcInput)
    requires CalculateCtc(inp).Ok? && inp.hraPercent >= 0.0
    ensures var b := CalculateCtc(inp).value;
            0.0 <= b.tax.hraExemption <= b.salary.hra
            && (!inp.oldRegime ==> b.tax.hraExemption == 0.0)
  {
    var s := CalculateCtc(inp).value.salary;
    PositiveShare(s.annualCtc, inp.basicPercent);
    PositiveShare(s.basic, inp.hraPercent);
  }

  lemma PositiveShare(a: real, p: real)
    requires a >= 0.0 && p >= 0.0
    ensures a * p / 100.0 >= 0.0
  {
  }
}
