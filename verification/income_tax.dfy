/** Client-side income-tax comparison of the old and new Indian tax regimes:
    capped deductions, age-dependent old-regime slabs, the new-regime slabs,
    4% cess and the regime recommendation. */
module IncomeTax {
  import opened Num
  import opened Slabs

  /** The form fields the comparison reads (all amounts in rupees). */
  datatype TaxForm = TaxForm(
    salary: real, rentalIncome: real, digitalAssetIncome: real, otherIncome: real,
    exemptAllowances: real, selfOccupiedPropertyLoss: real, interestHomeLoanLetout: real,
    section80C: real, section80D: real, section80G: real, section80TTA: real,
    section80CCD1: real, section80CCD2: real, section80EEA: real, otherDeductions: real,
    ageGroup: string)

  datatype RegimeComparison = RegimeComparison(
    totalIncome: real,
    oldTaxable: real, oldDeductions: real, oldTotalTax: real,
    newTaxable: real, newTotalTax: real,
    savingsAmount: real, betterRegime: string)

  const StandardDeduction: real := 50000.0

  /** Senior age groups get the larger section 80D limit. */
  predicate IsSenior(ageGroup: string)
  {
    ageGroup == "80+" || ageGroup == "60-80"
  }

  function Limit80D(ageGroup: string): (r: real)
    ensures r == 50000.0 <==> IsSenior(ageGroup)
    ensures r == 25000.0 <==> !IsSenior(ageGroup)
  {
    if ageGroup == "80+" || ageGroup == "60-80" then 50000.0 else 25000.0
  }

  /** Old-regime brackets; any age group other than the two named ones is
      treated as 80+. */
  function OldBrackets(ageGroup: string): seq<Bracket>
  {
    if ageGroup == "0-60" then
      [Bracket(250000.0, 0.05), Bracket(500000.0, 0.20), Bracket(1000000.0, 0.30)]
    else if ageGroup == "60-80" then
      [Bracket(300000.0, 0.05), Bracket(500000.0, 0.20), Bracket(1000000.0, 0.30)]
    else
      [Bracket(500000.0, 0.20), Bracket(1000000.0, 0.30)]
  }

  const NewBrackets: seq<Bracket> :=
    [Bracket(300000.0, 0.05), Bracket(600000.0, 0.10), Bracket(900000.0, 0.15),
     Bracket(1200000.0, 0.20), Bracket(1500000.0, 0.30)]

  /** The exemption limit below which the old regime levies nothing. */
  function OldExemptionLimit(ageGroup: string): real
  {
    if ageGroup == "0-60" then 250000.0 else if ageGroup == "60-80" then 300000.0 else 500000.0
  }

  /** Old-regime slab tax, as the script writes it out per age group. */
  function OldRegimeSlabTax(taxable: real, ageGroup: string): real
  {
    if ageGroup == "0-60" then
      if taxable <= 250000.0 then 0.0
      else if taxable <= 500000.0 then (taxable - 250000.0) * 0.05
      else if taxable <= 1000000.0 then 12500.0 + (taxable - 500000.0) * 0.20
      else 112500.0 + (taxable - 1000000.0) * 0.30
    else if ageGroup == "60-80" then
      if taxable <= 300000.0 then 0.0
      else if taxable <= 500000.0 then (taxable - 300000.0) * 0.05
      else if taxable <= 1000000.0 then 10000.0 + (taxable - 500000.0) * 0.20
      else 110000.0 + (taxable - 1000000.0) * 0.30
    else
      if taxable <= 500000.0 then 0.0
      else if taxable <= 1000000.0 then (taxable - 500000.0) * 0.20
      else 100000.0 + (taxable - 1000000.0) * 0.30
  }

  /** New-regime slab tax, as the script writes it out. */
  function NewRegimeSlabTax(taxable: real): real
  {
    if taxable <= 300000.0 then 0.0
    else if taxable <= 600000.0 then (taxable - 300000.0) * 0.05
    else if taxable <= 900000.0 then 15000.0 + (taxable - 600000.0) * 0.10
    else if taxable <= 1200000.0 then 45000.0 + (taxable - 900000.0) * 0.15
    else if taxable <= 1500000.0 then 90000.0 + (taxable - 1200000.0) * 0.20
    else 150000.0 + (taxable - 1500000.0) * 0.30
  }

  /** The hand-written old-regime formulas are exactly marginal taxation
      under the age group's brackets. */
  lemma OldRegimeIsMarginal(taxable: real, ageGroup: string)
    ensures Ascending(OldBrackets(ageGroup))
    ensures OldRegimeSlabTax(taxable, ageGroup) == MarginalTax(taxable, OldBrackets(ageGroup))
  {
    var bs := OldBrackets(ageGroup);
    assert MarginalFrom(taxable, bs, |bs|) == 0.0;
    if |bs| == 3 {
      assert MarginalFrom(taxable, bs, 1) == BandTax(taxable, bs, bs[1].rate, 1) + BandTax(taxable, bs, bs[2].rate, 2);
    } else {
      assert MarginalFrom(taxable, bs, 1) == BandTax(taxable, bs, bs[1].rate, 1);
    }
  }

  /** The hand-written new-regime formulas are exactly marginal taxation. */
  lemma NewRegimeIsMarginal(taxable: real)
    ensures Ascending(NewBrackets)
    ensures NewRegimeSlabTax(taxable) == MarginalTax(taxable, NewBrackets)
  {
    var bs := NewBrackets;
    assert MarginalFrom(taxable, bs, 5) == 0.0;
    assert MarginalFrom(taxable, bs, 4) == BandTax(taxable, bs, 0.30, 4);
    assert MarginalFrom(taxable, bs, 3) == BandTax(taxable, bs, 0.20, 3) + MarginalFrom(taxable, bs, 4);
    assert MarginalFrom(taxable, bs, 2) == BandTax(taxable, bs, 0.15, 2) + MarginalFrom(taxable, bs, 3);
    assert MarginalFrom(taxable, bs, 1) == BandTax(taxable, bs, 0.10, 1) + MarginalFrom(taxable, bs, 2);
  }

  /** Old-regime tax is zero up to the age group's exemption limit, never
      decreases with income, and rises by at most 30 paise per rupee, so it
      is continuous at every slab edge. */
  lemma OldRegimeShape(x: real, y: real, ageGroup: string)
    requires x <= y
    ensures x <= OldExemptionLimit(ageGroup) ==> OldRegimeSlabTax(x, ageGroup) == 0.0
    ensures 0.0 <= OldRegimeSlabTax(y, ageGroup) - OldRegimeSlabTax(x, ageGroup) <= 0.30 * (y - x)
  {
    OldRegimeIsMarginal(x, ageGroup);
    OldRegimeIsMarginal(y, ageGroup);
    var bs := OldBrackets(ageGroup);
    MarginalGrowth(x, y, bs);
    if x <= OldExemptionLimit(ageGroup) {
      MarginalZeroBelow(x, bs, 0);
    }
  }

  /** New-regime tax is zero up to 3 lakh, never decreases, and rises by at
      most 30 paise per rupee. */
  lemma NewRegimeShape(x: real, y: real)
    requires x <= y
    ensures x <= 300000.0 ==> NewRegimeSlabTax(x) == 0.0
    ensures 0.0 <= NewRegimeSlabTax(y) - NewRegimeSlabTax(x) <= 0.30 * (y - x)
  {
    NewRegimeIsMarginal(x);
    NewRegimeIsMarginal(y);
    MarginalGrowth(x, y, NewBrackets);
    if x <= 300000.0 {
      MarginalZeroBelow(x, NewBrackets, 0);
    }
  }

  /** Total old-regime deductions: each capped section is limited to its cap,
      80G, 80CCD(2) and "other" pass through uncapped. */
  function OldRegimeDeductions(f: TaxForm): (r: real)
    ensures r <= 150000.0 + Limit80D(f.ageGroup) + 10000.0 + 50000.0 + 150000.0
                 + f.section80G + f.section80CCD2 + f.otherDeductions
    ensures (f.section80C <= 150000.0 && f.section80D <= Limit80D(f.ageGroup)
             && f.section80TTA <= 10000.0 && f.section80CCD1 <= 50000.0
             && f.section80EEA <= 150000.0) ==>
            r == f.section80C + f.section80D + f.section80G + f.section80TTA
                 + f.section80CCD1 + f.section80CCD2 + f.section80EEA + f.otherDeductions
  {
    Min(f.section80C, 150000.0) + Min(f.section80D, Limit80D(f.ageGroup))
    + f.section80G + Min(f.section80TTA, 10000.0)
    + Min(f.section80CCD1, 50000.0) + f.section80CCD2
    + Min(f.section80EEA, 150000.0) + f.otherDeductions
  }

  function TotalIncome(f: TaxForm): real
  {
    f.salary + f.rentalIncome + f.digitalAssetIncome + f.otherIncome
    - f.exemptAllowances - f.selfOccupiedPropertyLoss - f.interestHomeLoanLetout
  }

  /** Regime recommendation from the two total taxes. */
  function Recommend(oldTax: real, newTax: real): (better: string)
    ensures better == "Both Similar" <==> Abs(oldTax - newTax) < 100.0
    ensures better == "New Regime" ==> newTax <= oldTax - 100.0
    ensures better == "Old Regime" ==> oldTax <= newTax - 100.0
    ensures better in {"Both Similar", "New Regime", "Old Regime"}
  {
    var savings := oldTax - newTax;
    if Abs(savings) < 100.0 then "Both Similar"
    else if savings > 0.0 then "New Regime" else "Old Regime"
  }

  /** The client-side comparison: both regimes' taxable income and total tax
      (slab tax plus 4% cess), the absolute difference, and the advice. */
  function CompareRegimes(f: TaxForm): (r: RegimeComparison)
    ensures r.oldTaxable >= 0.0 && r.newTaxable >= 0.0
    ensures r.oldTaxable >= r.totalIncome - r.oldDeductions
    ensures r.oldTaxable > 0.0 ==> r.oldTaxable == r.totalIncome - r.oldDeductions
    ensures r.newTaxable >= r.totalIncome - StandardDeduction
    ensures r.newTaxable > 0.0 ==> r.newTaxable == r.totalIncome - StandardDeduction
    ensures r.oldTotalTax == 1.04 * OldRegimeSlabTax(r.oldTaxable, f.ageGroup)
    ensures r.newTotalTax == 1.04 * NewRegimeSlabTax(r.newTaxable)
    ensures r.savingsAmount >= 0.0
    ensures r.savingsAmount == r.oldTotalTax - r.newTotalTax
            || r.savingsAmount == r.newTotalTax - r.oldTotalTax
    ensures r.betterRegime == "Both Similar" <==> r.savingsAmount < 100.0
    ensures r.betterRegime == "New Regime" ==> r.newTotalTax < r.oldTotalTax
    ensures r.betterRegime == "Old Regime" ==> r.oldTotalTax < r.newTotalTax
    ensures r.totalIncome == f.salary + f.rentalIncome + f.digitalAssetIncome + f.otherIncome
                             - f.exemptAllowances - f.selfOccupiedPropertyLoss - f.interestHomeLoanLetout
    ensures r.oldDeductions == OldRegimeDeductions(f)
  {
    var total := TotalIncome(f);
    var deductions := OldRegimeDeductions(f);
    var oldTaxable := Max(0.0, total - deductions);
    var oldTax := OldRegimeSlabTax(oldTaxable, f.ageGroup) * 1.04;
    var newTaxable := Max(0.0, total - StandardDeduction);
    var newTax := NewRegimeSlabTax(newTaxable) * 1.04;
    RegimeComparison(total, oldTaxable, deductions, oldTax, newTaxable, newTax,
                     Abs(oldTax - newTax), Recommend(oldTax, newTax))
  }

  /** Claiming more deductions on the same income never raises the
      old-regime tax, and saves at most 31.2% of the extra deductions
      (30% slab rate plus 4% cess); the new regime, which ignores them,
      does not change. */
  lemma DeductionsLowerOldTaxOnly(f: TaxForm, g: TaxForm)
    requires TotalIncome(g) == TotalIncome(f) && g.ageGroup == f.ageGroup
    requires OldRegimeDeductions(g) >= OldRegimeDeductions(f)
    ensures CompareRegimes(g).oldTotalTax <= CompareRegimes(f).oldTotalTax
    ensures CompareRegimes(f).oldTotalTax - CompareRegimes(g).oldTotalTax
            <= 0.312 * (OldRegimeDeductions(g) - OldRegimeDeductions(f))
    ensures CompareRegimes(g).newTotalTax == CompareRegimes(f).newTotalTax
  {
    var rf, rg := CompareRegimes(f), CompareRegimes(g);
    OldRegimeShape(rg.oldTaxable, rf.oldTaxable, f.ageGroup);
    assert rf.oldTaxable - rg.oldTaxable <= OldRegimeDeductions(g) - OldRegimeDeductions(f);
  }

  /** Worked figures: new regime 15000/45000/90000/150000 at 6/9/12/15 lakh,
      old regime (below 60) 12500 at 5 lakh and 112500 at 10 lakh. */
  lemma SlabExamples()
    ensures NewRegimeSlabTax(600000.0) == 15000.0 && NewRegimeSlabTax(900000.0) == 45000.0
    ensures NewRegimeSlabTax(1200000.0) == 90000.0 && NewRegimeSlabTax(1500000.0) == 150000.0
    ensures OldRegimeSlabTax(500000.0, "0-60") == 12500.0
    ensures OldRegimeSlabTax(1000000.0, "0-60") == 112500.0
  {
  }
}
