/** Capital-gains calculator: holding-period classification per asset
    class, cost indexation, exemptions, the tax rate rules (flat, or the
    incremental slab tax on the gain) and cess and surcharge. */
module CapitalGains {
  import opened Num
  import opened Slabs
  import opened Dates

  datatype CgInputs = CgInputs(
    taxMode: string, assetType: string, purchaseDate: Date, saleDate: Date,
    purchaseValue: real, saleValue: real, transferCosts: real, improvementCost: real,
    exemptionAmount: real, annualIncome: real, applyCess: bool, applySurcharge: bool)

  datatype Exemptions = Exemptions(ltcgExemption: real, sectionExemption: real, totalExemption: real)

  datatype TaxDetails = TaxDetails(baseTax: real, cess: real, surcharge: real, totalTax: real)

  datatype CgResult = CgResult(
    holdingDays: int, isLongTerm: bool, gain: real, exemptions: Exemptions,
    taxableGain: real, baseCost: real, netConsideration: real, tax: TaxDetails,
    effectiveRate: real, afterTaxGain: real)

  /** Sales on or after 23 July 2024 fall under the revised equity rates. */
  const RevisedRatesDate: Date := Date(2024, 7, 23)

  predicate IsEquity(assetType: string)
  {
    assetType == "equity_share" || assetType == "equity_mf"
  }

  /** Assets whose long-term gains are indexed. */
  predicate IsIndexedAsset(assetType: string)
  {
    assetType == "property" || assetType == "gold" || assetType == "unlisted_share"
  }

  /** Long-term classification by asset class and holding period in days. */
  function IsLongTerm(assetType: string, holdingDays: int): (r: bool)
    ensures assetType == "crypto" ==> !r
    ensures IsEquity(assetType) ==> (r <==> holdingDays >= 365)
    ensures assetType == "property" ==> (r <==> holdingDays >= 730)
    ensures !IsEquity(assetType) && assetType != "property" && assetType != "crypto" ==>
              (r <==> holdingDays >= 1095)
  {
    match assetType
    case "equity_share" => holdingDays >= 365
    case "equity_mf" => holdingDays >= 365
    case "property" => holdingDays >= 730
    case "debt_mf" => holdingDays >= 1095
    case "gold" => holdingDays >= 1095
    case "unlisted_share" => holdingDays >= 1095
    case "crypto" => false
    case _ => holdingDays >= 1095
  }

  /** Holding an asset longer never turns a long-term gain short-term, and
      every asset except crypto is long-term after three years. */
  lemma LongTermMonotone(assetType: string, d1: int, d2: int)
    requires d1 <= d2
    ensures IsLongTerm(assetType, d1) ==> IsLongTerm(assetType, d2)
    ensures assetType != "crypto" && d2 >= 1095 ==> IsLongTerm(assetType, d2)
    ensures d1 < 365 ==> !IsLongTerm(assetType, d1)
  {
  }

  /** Cost inflation index for financial years 2001..2025. */
  const CiiTable: seq<int> :=
    [100, 105, 109, 113, 117, 122, 129, 137, 148, 167, 184, 200, 220, 240,
     254, 264, 272, 280, 289, 301, 317, 331, 348, 363, 380]

  function CiiEntry(year: int): (r: int)
    requires 2001 <= year <= 2025
    ensures r >= 100
  {
    CiiTable[year - 2001]
  }

  /** Index for the purchase year, falling back to the 2001 entry. */
  function PurchaseCii(year: int): (r: int)
    ensures r >= 100
  {
    if 2001 <= year <= 2025 then CiiEntry(year) else CiiEntry(2001)
  }

  /** Index for the sale year, falling back to the 2024 entry. */
  function SaleCii(year: int): (r: int)
    ensures r >= 100
  {
    if 2001 <= year <= 2025 then CiiEntry(year) else CiiEntry(2024)
  }

  lemma {:induction false} CiiAscending(y1: int, y2: int)
    requires 2001 <= y1 <= y2 <= 2025
    ensures CiiEntry(y1) <= CiiEntry(y2)
    decreases y2 - y1
  {
    if y1 < y2 {
      CiiAscending(y1 + 1, y2);
      assert CiiTable[y1 - 2001] < CiiTable[y1 - 2000];
    }
  }

  function ShouldIndex(assetType: string, isLongTerm: bool): (r: bool)
    ensures r <==> isLongTerm && IsIndexedAsset(assetType)
  {
    if !isLongTerm then false
    else match assetType
      case "property" => true
      case "gold" => true
      case "unlisted_share" => true
      case _ => false
  }

  /** Ratio of the sale-year index to the purchase-year index. */
  function IndexFactor(purchaseYear: int, saleYear: int): (f: real)
    ensures f > 0.0
  {
    SaleCii(saleYear) as real / PurchaseCii(purchaseYear) as real
  }

  lemma IndexFactorAtLeastOne(purchaseYear: int, saleYear: int)
    requires 2001 <= purchaseYear <= saleYear <= 2025
    ensures IndexFactor(purchaseYear, saleYear) >= 1.0
  {
    CiiAscending(purchaseYear, saleYear);
  }

  /** Base cost: the purchase value, scaled by the ratio of sale-year to
      purchase-year index when indexation applies. */
  function BaseCost(inp: CgInputs, isLongTerm: bool): real
  {
    Scaled(inp.purchaseValue, ShouldIndex(inp.assetType, isLongTerm),
           IndexFactor(inp.purchaseDate.year, inp.saleDate.year))
  }

  /** `value`, multiplied by `factor` when `apply` holds. */
  function Scaled(value: real, apply: bool, factor: real): real
  {
    if apply then value * factor else value
  }

  /** With both years inside the table and the sale no earlier than the
      purchase, indexation never lowers the cost. */
  lemma IndexationNeverLowersCost(inp: CgInputs, isLongTerm: bool)
    requires inp.purchaseValue >= 0.0
    requires 2001 <= inp.purchaseDate.year <= inp.saleDate.year <= 2025
    ensures BaseCost(inp, isLongTerm) >= inp.purchaseValue
  {
    IndexFactorAtLeastOne(inp.purchaseDate.year, inp.saleDate.year);
    ScaledAtLeast(inp.purchaseValue, ShouldIndex(inp.assetType, isLongTerm),
                  IndexFactor(inp.purchaseDate.year, inp.saleDate.year));
  }

  lemma ScaledAtLeast(value: real, apply: bool, factor: real)
    requires value >= 0.0 && factor >= 1.0
    ensures Scaled(value, apply, factor) >= value
  {
    if apply {
      ScaleAtLeast(value, factor);
    }
  }

  lemma ScaleAtLeast(a: real, f: real)
    requires a >= 0.0 && f >= 1.0
    ensures a * f >= a
  {
    assert a * f - a == a * (f - 1.0);
  }

  /** Exemptions: the equity LTCG allowance (1.25 lakh for sales from the
      revision date, else 1 lakh) and, for property, the section 54/54F/54EC
      amount up to the remaining gain. */
  function CalculateExemptions(inp: CgInputs, gain: real, isLongTerm: bool): (e: Exemptions)
    ensures e.totalExemption == e.ltcgExemption + e.sectionExemption
    ensures !(IsEquity(inp.assetType) && isLongTerm) ==> e.ltcgExemption == 0.0
    ensures IsEquity(inp.assetType) && isLongTerm ==>
              e.ltcgExemption == Min(gain, if OnOrAfter(inp.saleDate, RevisedRatesDate) then 125000.0 else 100000.0)
    ensures !(inp.assetType == "property" && inp.exemptionAmount > 0.0) ==> e.sectionExemption == 0.0
    ensures e.sectionExemption <= inp.exemptionAmount || e.sectionExemption == 0.0
    ensures inp.assetType == "property" && inp.exemptionAmount > 0.0 ==>
              e.sectionExemption == Min(inp.exemptionAmount, gain - e.ltcgExemption)
              && e.sectionExemption == Min(inp.exemptionAmount, gain)
    ensures e.totalExemption <= gain || (gain < 0.0 && e.totalExemption == 0.0)
    ensures gain >= 0.0 ==> 0.0 <= e.totalExemption <= gain
  {
    var ltcg := if IsEquity(inp.assetType) && isLongTerm then
                  (if OnOrAfter(inp.saleDate, RevisedRatesDate) then Min(gain, 125000.0) else Min(gain, 100000.0))
                else 0.0;
    var section := if inp.assetType == "property" && inp.exemptionAmount > 0.0 then
                     Min(inp.exemptionAmount, gain - ltcg)
                   else 0.0;
    Exemptions(ltcg, section, ltcg + section)
  }

  /** The slab table the "with slab" mode uses (2024-25 new regime). */
  const CgBrackets: seq<Bracket> :=
    [Bracket(300000.0, 0.05), Bracket(700000.0, 0.10), Bracket(1000000.0, 0.15),
     Bracket(1200000.0, 0.20), Bracket(1500000.0, 0.30)]

  function SlabTax(income: real): real
  {
    if income <= 300000.0 then 0.0
    else if income <= 700000.0 then (income - 300000.0) * 0.05
    else if income <= 1000000.0 then 20000.0 + (income - 700000.0) * 0.10
    else if income <= 1200000.0 then 50000.0 + (income - 1000000.0) * 0.15
    else if income <= 1500000.0 then 80000.0 + (income - 1200000.0) * 0.20
    else 140000.0 + (income - 1500000.0) * 0.30
  }

  lemma SlabTaxIsMarginal(income: real)
    ensures Ascending(CgBrackets)
    ensures SlabTax(income) == MarginalTax(income, CgBrackets)
  {
    var bs := CgBrackets;
    assert MarginalFrom(income, bs, 5) == 0.0;
    assert MarginalFrom(income, bs, 4) == BandTax(income, bs, 0.30, 4);
    assert MarginalFrom(income, bs, 3) == BandTax(income, bs, 0.20, 3) + MarginalFrom(income, bs, 4);
    assert MarginalFrom(income, bs, 2) == BandTax(income, bs, 0.15, 2) + MarginalFrom(income, bs, 3);
    assert MarginalFrom(income, bs, 1) == BandTax(income, bs, 0.10, 1) + MarginalFrom(income, bs, 2);
  }

  /** The slab tax is zero up to 3 lakh, non-decreasing and continuous, so
      the extra tax a gain causes on top of other income lies between zero
      and 30% of the gain. */
  lemma SlabIncrementBounds(income: real, g: real)
    requires g >= 0.0
    ensures income <= 300000.0 ==> SlabTax(income) == 0.0
    ensures 0.0 <= SlabTax(income + g) - SlabTax(income) <= 0.30 * g
  {
    SlabTaxIsMarginal(income);
    SlabTaxIsMarginal(income + g);
    MarginalGrowth(income, income + g, CgBrackets);
    if income <= 300000.0 {
      MarginalZeroBelow(income, CgBrackets, 0);
    }
  }

  /** Base tax before cess and surcharge, by asset class and term. */
  function BaseTax(inp: CgInputs, g: real, isLongTerm: bool): (t: real)
    ensures inp.assetType == "crypto" ==> t == g * 0.30
  {
    var slabIncrement := SlabTax(inp.annualIncome + g) - SlabTax(inp.annualIncome);
    if inp.assetType == "crypto" then g * 0.30
    else if isLongTerm then
      match inp.assetType
      case "equity_share" => g * (if OnOrAfter(inp.saleDate, RevisedRatesDate) then 0.125 else 0.10)
      case "equity_mf" => g * (if OnOrAfter(inp.saleDate, RevisedRatesDate) then 0.125 else 0.10)
      case "property" => g * 0.20
      case "gold" => g * 0.20
      case "unlisted_share" => g * 0.20
      case "debt_mf" => if inp.taxMode == "with_slab" then slabIncrement else g * 0.20
      case _ => 0.0
    else if IsEquity(inp.assetType) then
      g * (if OnOrAfter(inp.saleDate, RevisedRatesDate) then 0.20 else 0.15)
    else if inp.taxMode == "with_slab" then slabIncrement
    else g * 0.20
  }

  /** Whatever the asset, the base tax on a positive taxable gain lies
      between zero and 30% of it. */
  lemma BaseTaxBounds(inp: CgInputs, g: real, isLongTerm: bool)
    requires g > 0.0
    ensures 0.0 <= BaseTax(inp, g, isLongTerm) <= 0.30 * g
  {
    SlabIncrementBounds(inp.annualIncome, g);
  }

  /** Tax on the taxable gain: nothing when there is no taxable gain;
      otherwise the base tax, 4% cess when asked for, and a 10% surcharge
      when asked for and income plus gain exceeds 50 lakh. */
  function CalculateTax(inp: CgInputs, g: real, isLongTerm: bool): (t: TaxDetails)
    ensures g <= 0.0 ==> t == TaxDetails(0.0, 0.0, 0.0, 0.0)
    ensures g > 0.0 ==>
      && t.baseTax == BaseTax(inp, g, isLongTerm)
      && t.cess == (if inp.applyCess then 0.04 * t.baseTax else 0.0)
      && t.surcharge == (if inp.applySurcharge && inp.annualIncome + g > 5000000.0 then 0.10 * t.baseTax else 0.0)
    ensures t.totalTax == t.baseTax + t.cess + t.surcharge
  {
    if g <= 0.0 then TaxDetails(0.0, 0.0, 0.0, 0.0)
    else
      var base := BaseTax(inp, g, isLongTerm);
      var cess := if inp.applyCess then base * 0.04 else 0.0;
      var surcharge := if inp.applySurcharge && inp.annualIncome + g > 5000000.0 then base * 0.10 else 0.0;
      TaxDetails(base, cess, surcharge, base + cess + surcharge)
  }

  /** Total tax is never negative and never exceeds 30% of the taxable gain
      plus 14% of that (the cess and surcharge together). */
  lemma TotalTaxBounds(inp: CgInputs, g: real, isLongTerm: bool)
    ensures var t := CalculateTax(inp, g, isLongTerm);
            0.0 <= t.totalTax && (g > 0.0 ==> t.totalTax <= 0.342 * g)
  {
    if g > 0.0 {
      BaseTaxBounds(inp, g, isLongTerm);
    }
  }

  /** The whole computation for one sale. */
  function ComputeCapitalGains(inp: CgInputs): (r: CgResult)
    ensures r.holdingDays == DaysBetween(inp.purchaseDate, inp.saleDate)
    ensures r.isLongTerm == IsLongTerm(inp.assetType, r.holdingDays)
    ensures r.baseCost == BaseCost(inp, r.isLongTerm)
    ensures r.netConsideration == inp.saleValue - inp.transferCosts
    ensures r.gain >= 0.0 && r.gain >= r.netConsideration - r.baseCost - inp.improvementCost
    ensures r.gain > 0.0 ==> r.gain == r.netConsideration - r.baseCost - inp.improvementCost
    ensures r.exemptions == CalculateExemptions(inp, r.gain, r.isLongTerm)
    ensures 0.0 <= r.taxableGain <= r.gain
    ensures r.taxableGain == Max(0.0, r.gain - r.exemptions.totalExemption)
    ensures r.tax == CalculateTax(inp, r.taxableGain, r.isLongTerm)
    ensures r.gain == 0.0 ==> r.effectiveRate == 0.0
    ensures r.gain > 0.0 ==> r.effectiveRate == r.tax.totalTax / r.gain * 100.0
    ensures r.afterTaxGain == r.gain - r.tax.totalTax
  {
    var days := DaysBetween(inp.purchaseDate, inp.saleDate);
    var isLong := IsLongTerm(inp.assetType, days);
    var baseCost := BaseCost(inp, isLong);
    var net := inp.saleValue - inp.transferCosts;
    var gain := Max(0.0, net - baseCost - inp.improvementCost);
    var ex := CalculateExemptions(inp, gain, isLong);
    var taxable := Max(0.0, gain - ex.totalExemption);
    var tax := CalculateTax(inp, taxable, isLong);
    var rate := if gain > 0.0 then tax.totalTax / gain * 100.0 else 0.0;
    CgResult(days, isLong, gain, ex, taxable, baseCost, net, tax, rate, gain - tax.totalTax)
  }

  /** Indexation can only shrink the gain: with both years inside the
      table, the gain is at most what the unindexed purchase value gives. */
  lemma IndexationNeverRaisesGain(inp: CgInputs)
    requires inp.purchaseValue >= 0.0
    requires 2001 <= inp.purchaseDate.year <= inp.saleDate.year <= 2025
    ensures var r := ComputeCapitalGains(inp);
            r.gain <= Max(0.0, r.netConsideration - inp.purchaseValue - inp.improvementCost)
  {
    var r := ComputeCapitalGains(inp);
    IndexationNeverLowersCost(inp, r.isLongTerm);
  }

  /** Selling for more never lowers the gain, and the gain rises by at
      most the extra sale proceeds. */
  lemma GainGrowsWithSale(inp: CgInputs, higher: real)
    requires inp.saleValue <= higher
    ensures var a, b := ComputeCapitalGains(inp), ComputeCapitalGains(inp.(saleValue := higher));
            a.gain <= b.gain <= a.gain + (higher - inp.saleValue)
  {
    var a, b := ComputeCapitalGains(inp), ComputeCapitalGains(inp.(saleValue := higher));
    assert a.isLongTerm == b.isLongTerm;
    assert a.baseCost == b.baseCost;
  }

  /** A long-term equity gain within the allowance (1 lakh, or 1.25 lakh
      for sales from the revision date) carries no tax at all. */
  lemma EquityGainWithinAllowanceIsTaxFree(inp: CgInputs)
    requires IsEquity(inp.assetType)
    requires ComputeCapitalGains(inp).isLongTerm
    requires ComputeCapitalGains(inp).gain <= (if OnOrAfter(inp.saleDate, RevisedRatesDate) then 125000.0 else 100000.0)
    ensures ComputeCapitalGains(inp).taxableGain == 0.0
    ensures ComputeCapitalGains(inp).tax.totalTax == 0.0
    ensures ComputeCapitalGains(inp).afterTaxGain == ComputeCapitalGains(inp).gain
  {
  }

  /** The effective rate on the whole gain is at most 34.2% (30% plus cess
      and surcharge) and zero when there is no gain. */
  lemma EffectiveRateBound(inp: CgInputs)
    ensures var r := ComputeCapitalGains(inp);
            0.0 <= r.effectiveRate <= 34.2
  {
    var r := ComputeCapitalGains(inp);
    TotalTaxBounds(inp, r.taxableGain, r.isLongTerm);
    RateFromBoundedTax(r);
  }

  lemma RateFromBoundedTax(r: CgResult)
    requires 0.0 <= r.taxableGain <= r.gain
    requires 0.0 <= r.tax.totalTax && (r.taxableGain > 0.0 ==> r.tax.totalTax <= 0.342 * r.taxableGain)
    requires r.taxableGain <= 0.0 ==> r.tax.totalTax == 0.0
    requires r.gain == 0.0 ==> r.effectiveRate == 0.0
    requires r.gain > 0.0 ==> r.effectiveRate == r.tax.totalTax / r.gain * 100.0
    ensures 0.0 <= r.effectiveRate <= 34.2
  {
    if r.gain > 0.0 {
      var t, g := r.tax.totalTax, r.gain;
      ScaleMono(0.342, r.taxableGain, g);
      RatioBound(t, g, 0.342);
    }
  }
}
