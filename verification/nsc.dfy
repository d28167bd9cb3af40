/** National Savings Certificate: a fixed five-year deposit compounded
    yearly, with the investment deductible under section 80C up to a cap. */
module Nsc {
  import opened Num

  const TenureYears := 5
  const Max80cLimit := 150000.0

  datatype YearRow = YearRow(year: int, openingBalance: real, interestEarned: real,
                             closingBalance: real, cumulativeInterest: real)
  datatype MonthRow = MonthRow(year: int, month: string, amount: real, interestEarned: real)
  datatype NscResult = NscResult(investmentAmount: real, maturityAmount: real, totalInterest: real,
                                 taxBenefit: real, yearlyData: seq<YearRow>, monthlyData: seq<MonthRow>)

  const MonthNames: seq<string> := ["Jan", "Feb", "Mar", "Apr", "May", "Jun",
                                    "Jul", "Aug", "Sep", "Oct", "Nov", "Dec"]

  /** Balance at the end of `year` when compounding yearly at `rate`. */
  function Closing(investment: real, rate: real, year: nat): real
  {
    investment * Pow(1.0 + rate, year)
  }

  /** Row `k` (year `k + 1`): it opens on the previous year's closing
      balance, and interest is what the year added. */
  predicate YearRowOk(row: YearRow, k: nat, investment: real, rate: real)
  {
    && row.year == k + 1
    && row.openingBalance == (if k == 0 then investment else Closing(investment, rate, k))
    && row.closingBalance == Closing(investment, rate, k + 1)
    && row.interestEarned == row.closingBalance - row.openingBalance
    && row.cumulativeInterest == row.closingBalance - investment
  }

  method YearlyBreakdown(investment: real, rate: real, years: int) returns (rows: seq<YearRow>)
    ensures |rows| == (if years > 0 then years else 0)
    ensures forall k :: 0 <= k < |rows| ==> YearRowOk(rows[k], k, investment, rate)
  {
    rows := [];
    var cumulativeAmount := investment;
    var year := 1;
    while year <= years
      invariant 1 <= year && (years >= 1 ==> year <= years + 1) && (years < 1 ==> year == 1)
      invariant |rows| == year - 1
      invariant cumulativeAmount == (if year == 1 then investment else Closing(investment, rate, year - 1))
      invariant forall k :: 0 <= k < |rows| ==> YearRowOk(rows[k], k, investment, rate)
    {
      var yearEndAmount := investment * Pow(1.0 + rate, year);
      var row := YearRow(year, cumulativeAmount, yearEndAmount - cumulativeAmount,
                         yearEndAmount, yearEndAmount - investment);
      assert YearRowOk(row, year - 1, investment, rate);
      rows := rows + [row];
      cumulativeAmount := yearEndAmount;
      year := year + 1;
    }
  }

  /** Each row opens where the previous one closed. */
  lemma RowsChain(rows: seq<YearRow>, investment: real, rate: real, k: nat)
    requires forall j :: 0 <= j < |rows| ==> YearRowOk(rows[j], j, investment, rate)
    requires 0 < k < |rows|
    ensures rows[k].openingBalance == rows[k - 1].closingBalance
  {
    assert YearRowOk(rows[k], k, investment, rate);
    assert YearRowOk(rows[k - 1], k - 1, investment, rate);
  }

  function Interests(rows: seq<YearRow>): seq<real>
  {
    seq(|rows|, i requires 0 <= i < |rows| => rows[i].interestEarned)
  }

  /** The yearly interests add up to the last row's cumulative interest. */
  lemma {:induction false} InterestsTelescope(rows: seq<YearRow>, investment: real, rate: real)
    requires forall j :: 0 <= j < |rows| ==> YearRowOk(rows[j], j, investment, rate)
    requires |rows| > 0
    ensures Sum(Interests(rows)) == rows[|rows| - 1].cumulativeInterest
  {
    var n := |rows|;
    assert YearRowOk(rows[n - 1], n - 1, investment, rate);
    if n == 1 {
      assert Interests(rows)[..0] == [];
    } else {
      var prefix := rows[..n - 1];
      assert Interests(rows)[..n - 1] == Interests(prefix);
      assert prefix[n - 2] == rows[n - 2];
      InterestsTelescope(prefix, investment, rate);
      assert YearRowOk(rows[n - 2], n - 2, investment, rate);
    }
  }

  /** Month `m` (1-based) lies in year `ceil(m / 12)`, under the name of
      month `(m - 1) mod 12`. The value after `m` months compounds yearly at
      a fractional exponent, `(1 + r)^(m / 12)`; that power is the parameter
      `growth`. */
  predicate MonthRowOk(row: MonthRow, i: nat, investment: real, growth: int -> real)
  {
    var m := i + 1;
    && row.year == Ceil(m as real / 12.0)
    && row.month == MonthNames[(m - 1) % 12]
    && row.amount == investment * growth(m)
    && row.interestEarned == row.amount - investment
  }

  /** At most two years of months are listed. */
  method MonthlyBreakdown(investment: real, growth: int -> real, years: int) returns (rows: seq<MonthRow>)
    ensures |rows| == (if years <= 0 then 0 else if years * 12 < 24 then years * 12 else 24)
    ensures forall i :: 0 <= i < |rows| ==> MonthRowOk(rows[i], i, investment, growth)
  {
    rows := [];
    var totalMonths := if years * 12 <= 24 then years * 12 else 24;
    var month := 1;
    while month <= totalMonths
      invariant 1 <= month && (totalMonths >= 1 ==> month <= totalMonths + 1) && (totalMonths < 1 ==> month == 1)
      invariant |rows| == month - 1
      invariant forall i :: 0 <= i < |rows| ==> MonthRowOk(rows[i], i, investment, growth)
    {
      var monthAmount := investment * growth(month);
      var year := Ceil(month as real / 12.0);
      var monthInYear := (month - 1) % 12 + 1;
      rows := rows + [MonthRow(year, MonthNames[monthInYear - 1], monthAmount, monthAmount - investment)];
      month := month + 1;
    }
  }

  /** Month `m` of the listing belongs to year 1 for m <= 12 and year 2 after. */
  lemma MonthYear(m: nat)
    requires 1 <= m <= 24
    ensures Ceil(m as real / 12.0) == (if m <= 12 then 1 else 2)
  {
  }

  /** When `growth` agrees with yearly compounding at whole years, the
      listing's twelfth and twenty-fourth months show the yearly table's
      closing balances, under the same year. */
  lemma YearEndMonthsMatchYearRows(r: NscResult, investment: real, ratePercent: real,
                                   growth: int -> real, k: nat)
    requires |r.yearlyData| == TenureYears && |r.monthlyData| == 24 && 1 <= k <= 2
    requires forall j :: 0 <= j < |r.yearlyData| ==> YearRowOk(r.yearlyData[j], j, investment, ratePercent / 100.0)
    requires forall i :: 0 <= i < |r.monthlyData| ==> MonthRowOk(r.monthlyData[i], i, investment, growth)
    requires growth(12 * k) == Pow(1.0 + ratePercent / 100.0, k)
    ensures r.monthlyData[12 * k - 1].amount == r.yearlyData[k - 1].closingBalance
    ensures r.monthlyData[12 * k - 1].year == r.yearlyData[k - 1].year
  {
    assert MonthRowOk(r.monthlyData[12 * k - 1], 12 * k - 1, investment, growth);
    assert YearRowOk(r.yearlyData[k - 1], k - 1, investment, ratePercent / 100.0);
    MonthYear(12 * k);
  }

  method CalculateNscReturns(investment: real, ratePercent: real, growth: int -> real) returns (r: NscResult)
    ensures r.maturityAmount == Closing(investment, ratePercent / 100.0, TenureYears)
    ensures r.totalInterest == r.maturityAmount - investment
    ensures r.taxBenefit == Min(investment, Max80cLimit)
    ensures |r.yearlyData| == TenureYears
    ensures forall k :: 0 <= k < |r.yearlyData| ==> YearRowOk(r.yearlyData[k], k, investment, ratePercent / 100.0)
    ensures r.yearlyData[TenureYears - 1].closingBalance == r.maturityAmount
    ensures r.yearlyData[TenureYears - 1].cumulativeInterest == r.totalInterest
    ensures |r.monthlyData| == 24
    ensures forall i :: 0 <= i < |r.monthlyData| ==> MonthRowOk(r.monthlyData[i], i, investment, growth)
  {
    var annualRate := ratePercent / 100.0;
    var maturityAmount := investment * Pow(1.0 + annualRate, TenureYears);
    var yearly := YearlyBreakdown(investment, annualRate, TenureYears);
    assert YearRowOk(yearly[TenureYears - 1], TenureYears - 1, investment, annualRate);
    var monthly := MonthlyBreakdown(investment, growth, TenureYears);
    r := NscResult(investment, maturityAmount, maturityAmount - investment,
                   Min(investment, Max80cLimit), yearly, monthly);
  }
}
