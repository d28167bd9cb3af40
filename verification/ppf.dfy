/** Public Provident Fund: a yearly contribution is added at the start of
    each year and the balance compounds once a year. */
module Ppf {
  import opened Num
  import opened Results
  import opened Annuity

  datatype YearRow = YearRow(year: int, annualContribution: real, openingBalance: int,
                             interestEarned: int, closingBalance: int, totalInvestedTillDate: int)

  datatype PpfResult = PpfResult(totalInvestment: int, totalInterest: int, maturityValue: int,
                                 investmentDuration: int, annualContribution: real,
                                 contributionFrequency: string, interestRate: real,
                                 yearWiseData: seq<YearRow>)

  /** The page's bounds on the contribution and the duration. */
  function Validate(annualContribution: real, durationYears: int): (r: Result<()>)
    ensures r.Ok? <==> 500.0 <= annualContribution <= 150000.0 && 15 <= durationYears <= 30
  {
    if annualContribution < 500.0 || annualContribution > 150000.0 then
      Err("Annual contribution must be between ₹500 and ₹1,50,000")
    else if durationYears < 15 || durationYears > 30 then
      Err("Investment duration must be between 15 and 30 years")
    else Ok(())
  }

  /** Interest credited in year `k`, the balance growth beyond the contribution. */
  function YearInterest(contribution: real, rate: real, k: nat): real
    requires k >= 1
  {
    DueBalance(contribution, rate, k) - DueBalance(contribution, rate, k - 1) - contribution
  }

  /** The year's interest is the rate applied to opening balance plus
      contribution, so it is never negative for a non-negative rate. */
  lemma YearInterestIsRate(contribution: real, rate: real, k: nat)
    requires k >= 1
    ensures YearInterest(contribution, rate, k) == (DueBalance(contribution, rate, k - 1) + contribution) * rate
  {
  }

  lemma InterestNonNegative(contribution: real, rate: real, k: nat)
    requires k >= 1 && contribution >= 0.0 && rate >= 0.0
    ensures YearInterest(contribution, rate, k) >= 0.0
  {
    YearInterestIsRate(contribution, rate, k);
    DueAtLeastPaid(contribution, rate, k - 1);
    ScaleMono(DueBalance(contribution, rate, k - 1) + contribution, 0.0, rate);
  }

  /** Interest credited over the first `n` years. */
  function InterestUpTo(contribution: real, rate: real, n: nat): real
  {
    if n == 0 then 0.0 else InterestUpTo(contribution, rate, n - 1) + YearInterest(contribution, rate, n)
  }

  /** The yearly interests add up to maturity minus everything paid in. */
  lemma {:induction false} InterestsAddUp(contribution: real, rate: real, n: nat)
    ensures InterestUpTo(contribution, rate, n) == DueBalance(contribution, rate, n) - n as real * contribution
  {
    if n > 0 {
      InterestsAddUp(contribution, rate, n - 1);
    }
  }

  predicate RowOk(row: YearRow, k: nat, contribution: real, rate: real)
  {
    row == YearRow(k + 1, contribution, Round(DueBalance(contribution, rate, k)),
                   Round(YearInterest(contribution, rate, k + 1)),
                   Round(DueBalance(contribution, rate, k + 1)), Round((k + 1) as real * contribution))
  }

  /** The year-by-year accumulation, with the running totals it ends on. */
  method YearlyBreakdown(annualContribution: real, durationYears: int, annualRate: real)
    returns (rows: seq<YearRow>, totalInvestment: real, maturityValue: real)
    ensures |rows| == (if durationYears > 0 then durationYears else 0)
    ensures forall k :: 0 <= k < |rows| ==> RowOk(rows[k], k, annualContribution, annualRate)
    ensures totalInvestment == |rows| as real * annualContribution
    ensures maturityValue == DueBalance(annualContribution, annualRate, |rows|)
  {
    totalInvestment := 0.0;
    maturityValue := 0.0;
    rows := [];
    var year := 1;
    while year <= durationYears
      invariant 1 <= year && (durationYears >= 1 ==> year <= durationYears + 1) && (durationYears < 1 ==> year == 1)
      invariant |rows| == year - 1
      invariant totalInvestment == (year - 1) as real * annualContribution
      invariant maturityValue == DueBalance(annualContribution, annualRate, year - 1)
      invariant forall k :: 0 <= k < |rows| ==> RowOk(rows[k], k, annualContribution, annualRate)
    {
      assert year as real * annualContribution == (year - 1) as real * annualContribution + annualContribution;
      totalInvestment := totalInvestment + annualContribution;
      var openingBalance := maturityValue;
      var closingBalance := (openingBalance + annualContribution) * (1.0 + annualRate);
      var interestEarned := closingBalance - openingBalance - annualContribution;
      assert closingBalance == DueBalance(annualContribution, annualRate, year);
      maturityValue := closingBalance;
      var row := YearRow(year, annualContribution, Round(openingBalance), Round(interestEarned),
                         Round(closingBalance), Round(totalInvestment));
      assert RowOk(row, year - 1, annualContribution, annualRate);
      rows := rows + [row];
      year := year + 1;
    }
  }

  /** The contribution frequency is echoed back but changes no figure. */
  method CalculatePpfReturns(annualContribution: real, durationYears: int, interestRate: real,
                             contributionFrequency: string) returns (r: PpfResult)
    ensures |r.yearWiseData| == (if durationYears > 0 then durationYears else 0)
    ensures forall k :: 0 <= k < |r.yearWiseData| ==> RowOk(r.yearWiseData[k], k, annualContribution, interestRate / 100.0)
    ensures durationYears >= 0 ==>
              && r.totalInvestment == Round(durationYears as real * annualContribution)
              && r.maturityValue == Round(DueBalance(annualContribution, interestRate / 100.0, durationYears))
              && r.totalInterest == Round(InterestUpTo(annualContribution, interestRate / 100.0, durationYears))
    ensures r.investmentDuration == durationYears && r.annualContribution == annualContribution
    ensures r.contributionFrequency == contributionFrequency && r.interestRate == interestRate
  {
    var annualRate := interestRate / 100.0;
    var rows, totalInvestment, maturityValue := YearlyBreakdown(annualContribution, durationYears, annualRate);
    InterestsAddUp(annualContribution, annualRate, |rows|);
    r := PpfResult(Round(totalInvestment), Round(maturityValue - totalInvestment), Round(maturityValue),
                   durationYears, annualContribution, contributionFrequency, interestRate, rows);
  }

  /** The instalment per payment for a contribution frequency; anything
      unrecognised is treated as monthly. */
  function MonthlyContribution(annualContribution: real, frequency: string): (m: real)
    ensures frequency == "annually" ==> m == annualContribution
    ensures frequency == "quarterly" ==> m * 4.0 == annualContribution
    ensures frequency != "annually" && frequency != "quarterly" ==> m * 12.0 == annualContribution
  {
    match frequency
    case "monthly" => annualContribution / 12.0
    case "quarterly" => annualContribution / 4.0
    case "annually" => annualContribution
    case _ => annualContribution / 12.0
  }

  function FormatFrequency(frequency: string): (s: string)
    ensures s in {"Monthly", "Quarterly", "Annually"}
    ensures frequency != "quarterly" && frequency != "annually" ==> s == "Monthly"
  {
    match frequency
    case "monthly" => "Monthly"
    case "quarterly" => "Quarterly"
    case "annually" => "Annually"
    case _ => "Monthly"
  }
}
