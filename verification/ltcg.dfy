/** LTCG calculator for listed equity: STCG/LTCG classification by a
    one-year holding period, the rates and exemption before and after
    23 July 2024, tax and effective rate, and rupee formatting. */
module Ltcg {
  import opened Num
  import opened Dates
  import opened Results
  import opened IndianDigits

  /** Rates and exemption in force on a sale date (percentages and rupees). */
  datatype TaxRegime = TaxRegime(name: string, stcgRate: real, ltcgExemption: real, ltcgRate: real)

  datatype LtcgResult = LtcgResult(
    holdingDays: int, isLtcg: bool, netGain: real, exemption: real,
    taxableGain: real, taxRate: real, tax: real, effectiveTaxPercent: real, regime: TaxRegime)

  const Cutoff: Date := Date(2024, 7, 23)

  function GetTaxRegime(saleDate: Date): (t: TaxRegime)
    ensures OnOrAfter(saleDate, Cutoff) ==>
              t.stcgRate == 20.0 && t.ltcgExemption == 125000.0 && t.ltcgRate == 12.5
    ensures !OnOrAfter(saleDate, Cutoff) ==>
              t.stcgRate == 15.0 && t.ltcgExemption == 100000.0 && t.ltcgRate == 10.0
  {
    if OnOrAfter(saleDate, Cutoff) then
      TaxRegime("New Regime (From 23-Jul-2024)", 20.0, 125000.0, 12.5)
    else
      TaxRegime("Old Regime (Before 23-Jul-2024)", 15.0, 100000.0, 10.0)
  }

  /** The tax on one sale. */
  function CalculateLtcgTax(purchaseDate: Date, saleDate: Date, purchaseValue: real, saleValue: real): (r: LtcgResult)
    ensures r.holdingDays == DaysBetween(purchaseDate, saleDate)
    ensures r.isLtcg <==> r.holdingDays >= 365
    ensures r.netGain == saleValue - purchaseValue
    ensures r.regime == GetTaxRegime(saleDate)
    ensures r.netGain <= 0.0 ==> r.tax == 0.0 && r.taxableGain == 0.0 && r.exemption == 0.0
    ensures r.netGain > 0.0 && r.isLtcg ==>
              && r.exemption == r.regime.ltcgExemption
              && r.taxableGain == Max(0.0, r.netGain - r.exemption)
              && r.taxRate == r.regime.ltcgRate
              && r.tax == r.taxableGain * (r.taxRate / 100.0)
    ensures r.netGain > 0.0 && !r.isLtcg ==>
              && r.exemption == 0.0
              && r.taxableGain == r.netGain
              && r.taxRate == r.regime.stcgRate
              && r.tax == r.netGain * (r.taxRate / 100.0)
    ensures r.netGain <= 0.0 ==> r.effectiveTaxPercent == 0.0
    ensures r.netGain > 0.0 ==> r.effectiveTaxPercent == r.tax / r.netGain * 100.0
  {
    var days := DaysBetween(purchaseDate, saleDate);
    var isLtcg := days >= 365;
    var net := saleValue - purchaseValue;
    var regime := GetTaxRegime(saleDate);
    var exemption := if net > 0.0 && isLtcg then regime.ltcgExemption else 0.0;
    var taxable := if net <= 0.0 then 0.0 else if isLtcg then Max(0.0, net - exemption) else net;
    var rate := if net <= 0.0 then 0.0 else if isLtcg then regime.ltcgRate else regime.stcgRate;
    var tax := if net <= 0.0 then 0.0 else taxable * (rate / 100.0);
    var effective := if net > 0.0 then tax / net * 100.0 else 0.0;
    LtcgResult(days, isLtcg, net, exemption, taxable, rate, tax, effective, regime)
  }

  /** Holding to the same date a year later (365 or 366 days) makes the gain
      long-term; selling the day after buying keeps it short-term. */
  lemma AnniversaryIsLongTerm(y: int, m: int, day: int, purchaseValue: real, saleValue: real)
    requires 1 <= m <= 12
    ensures CalculateLtcgTax(Date(y, m, day), Date(y + 1, m, day), purchaseValue, saleValue).isLtcg
  {
    DaysBetweenYearLater(y, m, day);
  }

  lemma NextDayIsShortTerm(purchaseDate: Date, purchaseValue: real, saleValue: real)
    requires Exists(purchaseDate)
    ensures !CalculateLtcgTax(purchaseDate, NextDay(purchaseDate), purchaseValue, saleValue).isLtcg
  {
    DaysBetweenNextDay(purchaseDate);
  }

  /** The exemption can only lower the tax: the effective rate never
      exceeds the applicable rate and is never negative. */
  lemma EffectiveRateWithinApplicable(purchaseDate: Date, saleDate: Date, purchaseValue: real, saleValue: real)
    ensures var r := CalculateLtcgTax(purchaseDate, saleDate, purchaseValue, saleValue);
            0.0 <= r.effectiveTaxPercent <= r.taxRate
            && (r.netGain > 0.0 ==> r.tax <= r.netGain * (r.taxRate / 100.0))
  {
    var r := CalculateLtcgTax(purchaseDate, saleDate, purchaseValue, saleValue);
    if r.netGain > 0.0 {
      var c := r.taxRate / 100.0;
      assert 0.0 <= r.taxableGain <= r.netGain;
      ScaleMono(c, r.taxableGain, r.netGain);
      assert r.tax == c * r.taxableGain;
      RatioBound(r.tax, r.netGain, c);
    }
  }

  /** The tax law stated piecewise on the gain: nothing on a loss, the
      short-term rate on the whole gain, and the long-term rate only on
      the part of the gain above the exemption. */
  function ReferenceTax(gain: real, longTerm: bool, regime: TaxRegime): real
  {
    if gain <= 0.0 then 0.0
    else if !longTerm then gain * (regime.stcgRate / 100.0)
    else if gain <= regime.ltcgExemption then 0.0
    else (gain - regime.ltcgExemption) * (regime.ltcgRate / 100.0)
  }

  lemma TaxMatchesReference(purchaseDate: Date, saleDate: Date, purchaseValue: real, saleValue: real)
    ensures CalculateLtcgTax(purchaseDate, saleDate, purchaseValue, saleValue).tax
            == ReferenceTax(saleValue - purchaseValue, DaysBetween(purchaseDate, saleDate) >= 365, GetTaxRegime(saleDate))
  {
  }

  /** Under either regime, holding past a year never raises the tax on the
      same gain: the long-term rate is lower and comes with an exemption. */
  lemma LongTermNeverCostsMore(gain: real, saleDate: Date)
    ensures ReferenceTax(gain, true, GetTaxRegime(saleDate)) <= ReferenceTax(gain, false, GetTaxRegime(saleDate))
  {
    var t := GetTaxRegime(saleDate);
    if gain > 0.0 {
      ScaleMono(gain, t.ltcgRate / 100.0, t.stcgRate / 100.0);
      if gain > t.ltcgExemption {
        ScaleMono(t.ltcgRate / 100.0, gain - t.ltcgExemption, gain);
      }
    }
  }

  /** A larger gain never carries less tax, short- or long-term. */
  lemma TaxGrowsWithGain(g: real, h: real, longTerm: bool, saleDate: Date)
    requires g <= h
    ensures ReferenceTax(g, longTerm, GetTaxRegime(saleDate)) <= ReferenceTax(h, longTerm, GetTaxRegime(saleDate))
  {
    var t := GetTaxRegime(saleDate);
    if g > 0.0 {
      if !longTerm {
        ScaleMono(t.stcgRate / 100.0, g, h);
      } else if g > t.ltcgExemption {
        ScaleMono(t.ltcgRate / 100.0, g - t.ltcgExemption, h - t.ltcgExemption);
      }
    }
  }

  /** The validation the page performs before computing. */
  function ValidateInputs(purchaseDate: Option<Date>, saleDate: Option<Date>,
                          purchaseValue: real, saleValue: real): (r: Result<LtcgResult>)
    ensures r.Ok? <==> purchaseDate.Some? && saleDate.Some?
                       && DaysBetween(purchaseDate.value, saleDate.value) > 0
                       && 0.0 < purchaseValue <= 100000000.0 && 0.0 < saleValue <= 100000000.0
    ensures r.Ok? ==> r.value == CalculateLtcgTax(purchaseDate.value, saleDate.value, purchaseValue, saleValue)
  {
    if purchaseDate.None? || saleDate.None? then Err("Please enter both purchase and sale dates")
    else if !(DayNumber(saleDate.value) > DayNumber(purchaseDate.value)) then
      Err("Sale date must be after purchase date")
    else if purchaseValue <= 0.0 || saleValue <= 0.0 then
      Err("Purchase and sale values must be greater than 0")
    else if purchaseValue > 100000000.0 || saleValue > 100000000.0 then
      Err("Values cannot exceed ₹10 crores")
    else Ok(CalculateLtcgTax(purchaseDate.value, saleDate.value, purchaseValue, saleValue))
  }

  /** Rupee text: "-₹" for a negative amount, else "₹", then the rounded
      absolute amount in Indian grouping (what `toLocaleString('en-IN')`
      gives for a whole number). */
  function FormatLtcgCurrency(amount: real): (s: string)
    ensures |s| >= 2
    ensures amount < 0.0 <==> s[0] == '-'
    ensures StripCommas(s[if amount < 0.0 then 2 else 1..]) == Digits(Round(Abs(amount)))
  {
    var digits := Digits(Round(Abs(amount)));
    var prefix := if amount < 0.0 then "-₹" else "₹";
    GroupedRoundTrip(digits);
    GroupedShape(digits);
    assert (prefix + Grouped(digits))[|prefix|..] == Grouped(digits);
    prefix + Grouped(digits)
  }
}
