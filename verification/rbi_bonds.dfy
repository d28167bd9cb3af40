/** RBI floating-rate savings bonds: simple interest paid every six months,
    the principal returned at maturity, and the next rate-reset date. */
module RbiBonds {
  import opened Num
  import opened Results
  import opened IndianDigits
  import Dates

  datatype YearRow = YearRow(year: int, interestEarned: int, cumulativeInterest: int, principalOutstanding: real)
  datatype HalfYearRow = HalfYearRow(payoutNumber: int, year: int, halfYear: int, payoutAmount: int,
                                     cumulativeInterest: int)

  datatype BondResult = BondResult(
    investmentAmount: int, interestRate: real, tenureYears: int,
    totalInterestPerYear: int, halfYearlyPayout: int, totalInterestOverTenure: int,
    maturityAmount: int, yearlyData: seq<YearRow>, halfYearlyData: seq<HalfYearRow>)

  /** Minimum ₹1,000; the rate must lie in (0, 20]. */
  function Validate(investment: real, rate: real): (r: Result<(real, real)>)
    ensures r.Ok? <==> investment >= 1000.0 && 0.0 < rate <= 20.0
    ensures r.Ok? ==> r.value == (investment, rate)
  {
    if investment < 1000.0 then Err("Minimum investment amount is ₹1,000")
    else if rate <= 0.0 || rate > 20.0 then Err("Interest rate must be between 0% and 20%")
    else Ok((investment, rate))
  }

  predicate YearRowOk(row: YearRow, k: nat, yearly: real, investment: real)
  {
    row == YearRow(k + 1, Round(yearly), Round((k + 1) as real * yearly), investment)
  }

  /** Payout `i` (0-based) is the `i % 2 + 1`-th half of year `i / 2 + 1`. */
  predicate HalfRowOk(row: HalfYearRow, i: nat, half: real)
  {
    row == HalfYearRow(i + 1, i / 2 + 1, i % 2 + 1, Round(half), Round((i + 1) as real * half))
  }

  /** Year-wise and half-yearly rows, as the page's nested loops build them. */
  method Breakdown(investment: real, yearly: real, half: real, tenure: int)
    returns (years: seq<YearRow>, halves: seq<HalfYearRow>)
    ensures |years| == (if tenure > 0 then tenure else 0) && |halves| == 2 * |years|
    ensures forall k :: 0 <= k < |years| ==> YearRowOk(years[k], k, yearly, investment)
    ensures forall i :: 0 <= i < |halves| ==> HalfRowOk(halves[i], i, half)
  {
    years := [];
    halves := [];
    var cumulative := 0.0;
    var year := 1;
    while year <= tenure
      invariant 1 <= year && (tenure > 0 ==> year <= tenure + 1) && (tenure <= 0 ==> year == 1)
      invariant |years| == year - 1 && |halves| == 2 * (year - 1)
      invariant cumulative == (year - 1) as real * yearly
      invariant forall k :: 0 <= k < |years| ==> YearRowOk(years[k], k, yearly, investment)
      invariant forall i :: 0 <= i < |halves| ==> HalfRowOk(halves[i], i, half)
    {
      cumulative := cumulative + yearly;
      assert cumulative == year as real * yearly;
      var row := YearRow(year, Round(yearly), Round(cumulative), investment);
      assert YearRowOk(row, year - 1, yearly, investment);
      years := years + [row];
      var halfYear := 1;
      while halfYear <= 2
        invariant 1 <= halfYear <= 3
        invariant |halves| == 2 * (year - 1) + halfYear - 1
        invariant forall i :: 0 <= i < |halves| ==> HalfRowOk(halves[i], i, half)
      {
        var payoutNumber := (year - 1) * 2 + halfYear;
        var h := HalfYearRow(payoutNumber, year, halfYear, Round(half), Round(payoutNumber as real * half));
        assert HalfRowOk(h, payoutNumber - 1, half);
        halves := halves + [h];
        halfYear := halfYear + 1;
      }
      year := year + 1;
    }
  }

  method CalculateBondReturns(investment: real, rate: real, tenure: int) returns (r: BondResult)
    ensures r.totalInterestPerYear == Round(investment * rate / 100.0)
    // two half-yearly payouts make up the year's interest
    ensures r.halfYearlyPayout == Round(investment * rate / 100.0 / 2.0)
    ensures r.totalInterestOverTenure == Round(investment * rate / 100.0 * tenure as real)
    ensures r.maturityAmount == Round(investment + investment * rate / 100.0 * tenure as real)
    ensures |r.yearlyData| == (if tenure > 0 then tenure else 0)
    ensures |r.halfYearlyData| == 2 * |r.yearlyData|
    ensures forall k :: 0 <= k < |r.yearlyData| ==> YearRowOk(r.yearlyData[k], k, investment * rate / 100.0, investment)
    ensures forall i :: 0 <= i < |r.halfYearlyData| ==> HalfRowOk(r.halfYearlyData[i], i, investment * rate / 100.0 / 2.0)
  {
    // the page's `investment * (rate / 100)` and its half, written as one product
    var yearly := investment * rate / 100.0;
    var half := investment * rate / 100.0 / 2.0;
    var total := investment * rate / 100.0 * tenure as real;
    var years, halves := Breakdown(investment, yearly, half, tenure);
    r := BondResult(Round(investment), rate, tenure, Round(yearly), Round(half), Round(total),
                    Round(investment + total), years, halves);
  }

  /** The last half-yearly row's cumulative interest is the whole tenure's
      interest (before rounding, both are 2T half-year payouts). */
  lemma LastPayoutIsTotal(investment: real, rate: real, tenure: int, halves: seq<HalfYearRow>)
    requires tenure > 0 && |halves| == 2 * tenure
    requires forall i :: 0 <= i < |halves| ==> HalfRowOk(halves[i], i, investment * rate / 100.0 / 2.0)
    ensures halves[|halves| - 1].cumulativeInterest == Round(investment * rate / 100.0 * tenure as real)
    ensures halves[|halves| - 1].payoutNumber == 2 * tenure
  {
    var half := investment * rate / 100.0 / 2.0;
    assert HalfRowOk(halves[2 * tenure - 1], 2 * tenure - 1, half);
    assert (2 * tenure) as real * half == investment * rate / 100.0 * tenure as real;
  }

  /** The next rate reset: 1 July this year up to June, else 1 January next year. */
  function NextRevisionDate(currentMonth: int, currentYear: int): (d: Dates.Date)
    requires 1 <= currentMonth <= 12
    ensures d.day == 1 && (d.month == 1 || d.month == 7)
    ensures currentMonth <= 6 ==> d == Dates.Date(currentYear, 7, 1)
    ensures currentMonth > 6 ==> d == Dates.Date(currentYear + 1, 1, 1)
  {
    if currentMonth <= 6 then Dates.Date(currentYear, 7, 1) else Dates.Date(currentYear + 1, 1, 1)
  }

  /** The reset always falls after the first of the current month and no
      more than six months after it. */
  lemma RevisionWithinSixMonths(currentMonth: int, currentYear: int)
    requires 1 <= currentMonth <= 12
    ensures var d := NextRevisionDate(currentMonth, currentYear);
            var monthsAhead := (d.year - currentYear) * 12 + d.month - currentMonth;
            1 <= monthsAhead <= 6
  {
  }

  /** The date as the page writes it ("Jul 1, 2025"). */
  function RevisionLabel(d: Dates.Date): string
    requires d.year >= 0
  {
    (if d.month == 7 then "Jul 1, " else "Jan 1, ") + Digits(d.year)
  }
}
