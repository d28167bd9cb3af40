/** EMI calculator page: the tenure split sent with the request, the input
    checks that short-circuit to a zero EMI, the lakh/crore axis labels, and
    the conversion when the tenure tab is switched. */
module Emi {
  import opened Num
  import opened IndianDigits
  import opened Results

  datatype TenureType = Year | Month

  datatype EmiRequest =
    | ZeroEmi(totalAmount: real, loanAmount: real)
    | Request(principal: real, rate: real, tenureYears: int, tenureMonths: int, emiAdvance: bool)

  /** Years and months from the (integer) tenure field: years mode sends
      the value as years, months mode splits it. */
  function SplitTenure(tenureValue: int, t: TenureType): (p: (int, int))
    ensures t == Year ==> p == (tenureValue, 0)
    ensures t == Month && tenureValue >= 0 ==> 12 * p.0 + p.1 == tenureValue && 0 <= p.1 < 12
    ensures t == Month && tenureValue < 0 ==> 12 * p.0 + p.1 < 0
  {
    match t
    case Year => (tenureValue, 0)
    case Month => (tenureValue / 12, JsRem12(tenureValue))
  }

  function TotalMonths(tenureValue: int, t: TenureType): int
  {
    var p := SplitTenure(tenureValue, t);
    p.0 * 12 + p.1
  }

  /** EMI is paid in advance only for a car loan with that scheme chosen. */
  function EmiAdvance(loanType: string, scheme: Option<string>): (b: bool)
    ensures b <==> loanType == "car" && scheme == Some("advance")
  {
    loanType == "car" && scheme.Some? && scheme.value == "advance"
  }

  /** A non-positive principal, rate or total tenure shows a zero EMI and
      sends no request. */
  function CalculateEmi(principal: real, rate: real, tenureValue: int, t: TenureType,
                        loanType: string, scheme: Option<string>): (r: EmiRequest)
    ensures r.ZeroEmi? <==> principal <= 0.0 || rate <= 0.0 || TotalMonths(tenureValue, t) <= 0
    ensures r.ZeroEmi? ==> r.totalAmount == principal && r.loanAmount == principal
    ensures r.Request? ==> r.principal == principal && r.rate == rate
                           && 12 * r.tenureYears + r.tenureMonths == TotalMonths(tenureValue, t)
                           && r.emiAdvance == EmiAdvance(loanType, scheme)
    ensures r.Request? && t == Month ==> 12 * r.tenureYears + r.tenureMonths == tenureValue
    ensures r.Request? && t == Year ==> r.tenureYears == tenureValue && r.tenureMonths == 0
  {
    var p := SplitTenure(tenureValue, t);
    if principal <= 0.0 || rate <= 0.0 || p.0 * 12 + p.1 <= 0 then ZeroEmi(principal, principal)
    else Request(principal, rate, p.0, p.1, EmiAdvance(loanType, scheme))
  }

  /** The axis label: whole crores from one crore, whole lakhs from one lakh,
      otherwise whole thousands. */
  function FormatLakhCrore(amount: real): (s: string)
    ensures amount >= 10000000.0 ==> s == IntString(Round(amount / 10000000.0)) + "Cr"
    ensures 100000.0 <= amount < 10000000.0 ==> s == IntString(Round(amount / 100000.0)) + "L"
    ensures amount < 100000.0 ==> s == IntString(Round(amount / 1000.0)) + "K"
  {
    if amount >= 10000000.0 then Label(amount, 10000000.0, "Cr")
    else if amount >= 100000.0 then Label(amount, 100000.0, "L")
    else Label(amount, 1000.0, "K")
  }

  /** `Math.round(amount / unit) + suffix`. */
  function Label(amount: real, unit: real, suffix: string): string
    requires unit > 0.0
  {
    IntString(Round(amount / unit)) + suffix
  }

  /** The number in front of a label's suffix. */
  function LabelNumber(s: string, suffixLength: nat): int
  {
    if |s| >= suffixLength then Value(s[..|s| - suffixLength]) else 0
  }

  /** Reading a label's number back gives the amount to within half a unit
      of the suffix it carries; from a lakh on, the number is at least 1. */
  lemma LakhCroreReadsBack(amount: real)
    requires amount >= 0.0
    ensures amount >= 10000000.0 ==>
              ReadsBack(FormatLakhCrore(amount), 2, amount, 10000000.0) && LabelNumber(FormatLakhCrore(amount), 2) >= 1
    ensures 100000.0 <= amount < 10000000.0 ==>
              ReadsBack(FormatLakhCrore(amount), 1, amount, 100000.0) && LabelNumber(FormatLakhCrore(amount), 1) >= 1
    ensures amount < 100000.0 ==> ReadsBack(FormatLakhCrore(amount), 1, amount, 1000.0)
  {
    if amount >= 10000000.0 {
      LabelReadsBack(amount, 10000000.0, "Cr");
    } else if amount >= 100000.0 {
      LabelReadsBack(amount, 100000.0, "L");
    } else {
      LabelReadsBack(amount, 1000.0, "K");
    }
  }

  /** The label's number times the unit is within half a unit of the amount. */
  predicate ReadsBack(s: string, suffixLength: nat, amount: real, unit: real)
  {
    Close(LabelNumber(s, suffixLength), amount, unit)
  }

  /** `n` units are within half a unit of the amount. */
  predicate Close(n: int, amount: real, unit: real)
  {
    Abs(n as real * unit - amount) <= unit / 2.0
  }

  lemma LabelReadsBack(amount: real, unit: real, suffix: string)
    requires amount >= 0.0 && unit > 0.0
    ensures ReadsBack(Label(amount, unit, suffix), |suffix|, amount, unit)
    ensures amount >= unit ==> LabelNumber(Label(amount, unit, suffix), |suffix|) >= 1
  {
    RoundedScale(amount, unit);
    LabelNumberIsRounded(amount, unit, suffix);
  }

  lemma LabelNumberIsRounded(amount: real, unit: real, suffix: string)
    requires amount >= 0.0 && unit > 0.0
    ensures LabelNumber(Label(amount, unit, suffix), |suffix|) == Round(amount / unit)
  {
    var n := Round(amount / unit);
    RoundedScale(amount, unit);
    LabelValue(n, suffix);
  }

  lemma LabelValue(n: int, suffix: string)
    requires n >= 0
    ensures LabelNumber(IntString(n) + suffix, |suffix|) == n
  {
    ValueOfDigits(n);
    var s := IntString(n) + suffix;
    assert s[..|s| - |suffix|] == Digits(n);
  }

  lemma RoundedScale(amount: real, unit: real)
    requires amount >= 0.0 && unit > 0.0
    ensures Round(amount / unit) >= 0
    ensures Close(Round(amount / unit), amount, unit)
    ensures amount >= unit ==> Round(amount / unit) >= 1
  {
    var q := amount / unit;
    assert q * unit == amount;
    ScaleAbs(Round(q) as real, q, unit);
  }

  lemma ScaleAbs(n: real, q: real, unit: real)
    requires unit > 0.0 && q - 0.5 < n <= q + 0.5
    ensures Abs(n * unit - q * unit) <= unit / 2.0
  {
    var d := n - q;
    var e := n * unit - q * unit;
    assert e == d * unit;
    HalfBound(d, unit);
    AbsWithin(e, unit / 2.0);
  }

  lemma HalfBound(d: real, unit: real)
    requires unit > 0.0 && -0.5 < d <= 0.5
    ensures -(unit / 2.0) <= d * unit <= unit / 2.0
  {
    ScaleMono(unit, d, 0.5);
    ScaleMono(unit, -0.5, d);
  }

  /** The tenure field after the tab switch, as written: to months, values up
      to 30 are taken for years and multiplied by 12; to years, values above
      30 are taken for months and divided by 12. */
  function SwitchTenureType(value: int, target: TenureType): (v: int)
    ensures target == Month ==> v == (if value <= 30 then value * 12 else value)
    ensures target == Year && value > 30 ==> Abs(v as real - value as real / 12.0) <= 0.5
    ensures target == Year && value <= 30 ==> v == value
  {
    match target
    case Month => if value <= 30 then value * 12 else value
    case Year => if value > 30 then Round(value as real / 12.0) else value
  }

  /** As written, two years switched to months and back become 24 years:
      24 months is not above 30, so it is kept as a number of years. */
  lemma SwitchLosesShortTenures()
    ensures SwitchTenureType(SwitchTenureType(2, Month), Year) == 24
  {
  }

  /** The evidently intended conversion, driven by the unit being left
      rather than by the size of the value. */
  function SwitchTenureCorrected(value: int, current: TenureType, target: TenureType): (v: int)
    ensures current == target ==> v == value
    ensures current == Year && target == Month ==> v == value * 12
    ensures current == Month && target == Year ==> Abs(v as real - value as real / 12.0) <= 0.5
  {
    if current == target then value
    else if target == Month then value * 12
    else Round(value as real / 12.0)
  }

  /** Whole years survive a trip to months and back, and the correction
      agrees with the page whenever the page's size test guesses the unit
      right (years from 3 to 30, months above 30). */
  lemma CorrectedRoundTrip(years: int)
    ensures SwitchTenureCorrected(SwitchTenureCorrected(years, Year, Month), Month, Year) == years
  {
    assert (years * 12) as real / 12.0 == years as real;
    RoundOfInteger(years);
  }

  lemma CorrectedAgreesWhenGuessRight(value: int)
    ensures 3 <= value <= 30 ==> SwitchTenureCorrected(value, Year, Month) == SwitchTenureType(value, Month)
    ensures value > 30 ==> SwitchTenureCorrected(value, Month, Year) == SwitchTenureType(value, Year)
  {
  }
}
