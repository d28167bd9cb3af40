/** Kisan Vikas Patra: the investment doubles at maturity; the page shows a
    year-by-year progression towards that and a monthly one for at most two
    years. */
module Kvp {
  import opened Num
  import opened Annuity

  datatype YearRow = YearRow(year: int, amount: real, interestEarned: real, interestRate: real)
  datatype MonthRow = MonthRow(year: int, month: string, amount: real, interestEarned: real)

  const MonthNames: seq<string> := ["Jan", "Feb", "Mar", "Apr", "May", "Jun",
                                    "Jul", "Aug", "Sep", "Oct", "Nov", "Dec"]

  /** Maturity is twice the investment whatever the rate, so the interest
      equals the investment. */
  function MaturityAmount(investment: real): (m: real)
    ensures m - investment == investment
  {
    investment * 2.0
  }

  /** The value and interest at the end of the lock-in period;
      `lockInGrowth` stands for `(1 + rate)^lockInPeriod`, a fractional
      power taken from `Math.pow`. */
  datatype LockIn = LockIn(amount: real, interest: real)

  function LockInFigures(investment: real, lockInGrowth: real): (l: LockIn)
    ensures l.amount == l.interest + investment
    ensures investment >= 0.0 && lockInGrowth >= 1.0 ==> l.interest >= 0.0
  {
    var amount := investment * lockInGrowth;
    assert investment >= 0.0 && lockInGrowth >= 1.0 ==> amount >= investment by {
      if investment >= 0.0 && lockInGrowth >= 1.0 {
        ScaleMono(investment, 1.0, lockInGrowth);
      }
    }
    LockIn(amount, amount - investment)
  }

  /** The amount shown for `year`: doubled once the maturity term is
      reached, otherwise compounded yearly. */
  function YearAmount(investment: real, annualRate: real, maturityYears: real, year: int): real
    requires year >= 1
  {
    if year as real >= maturityYears then MaturityAmount(investment)
    else investment * Pow(1.0 + annualRate, year)
  }

  /** Before maturity the shown amount is the investment left to compound
      yearly with nothing added: the same recurrence the other
      calculators grow balances with. */
  lemma YearAmountCompounds(investment: real, annualRate: real, maturityYears: real, year: int)
    requires 1 <= year && (year as real) < maturityYears
    ensures YearAmount(investment, annualRate, maturityYears, year) == Compound(investment, 0.0, annualRate, year)
  {
    CompoundClosedForm(investment, 0.0, annualRate, year);
    ZeroPaymentBalance(annualRate, year);
  }

  /** A whole-year lock-in shows the same amount as that year's row of
      the yearly table. */
  lemma LockInMatchesTable(investment: real, annualRate: real, maturityYears: real, n: int)
    requires 1 <= n && (n as real) < maturityYears
    ensures LockInFigures(investment, Pow(1.0 + annualRate, n)).amount == YearAmount(investment, annualRate, maturityYears, n)
  {
  }

  /** When the rate is the one that doubles the money in exactly `m` whole
      years, the progression climbs from the investment to the maturity
      amount and never overshoots it. */
  lemma ProgressionWithinMaturity(investment: real, annualRate: real, m: nat, year: int)
    requires investment >= 0.0 && annualRate >= 0.0 && m >= 1 && year >= 1
    requires Pow(1.0 + annualRate, m) == 2.0
    ensures investment <= YearAmount(investment, annualRate, m as real, year) <= MaturityAmount(investment)
  {
    if year < m {
      var g := 1.0 + annualRate;
      PowAdd(g, year, m - year);
      PowAtLeastOne(g, year);
      PowAtLeastOne(g, m - year);
      assert YearAmount(investment, annualRate, m as real, year) == investment * Pow(g, year);
      ShareOfDouble(investment, Pow(g, year), Pow(g, m - year));
    }
  }

  lemma ShareOfDouble(investment: real, p: real, q: real)
    requires investment >= 0.0 && p >= 1.0 && q >= 1.0 && p * q == 2.0
    ensures investment <= investment * p <= investment * 2.0
  {
    ScaleMono(p, 1.0, q);
    ScaleMono(investment, 1.0, p);
    ScaleMono(investment, p, 2.0);
  }

  predicate YearRowOk(row: YearRow, k: nat, investment: real, annualRate: real, maturityYears: real, ratePercent: real)
  {
    var amount := YearAmount(investment, annualRate, maturityYears, k + 1);
    row == YearRow(k + 1, amount, amount - investment, ratePercent)
  }

  /** One row per year up to the first whole year at or past maturity. */
  method YearlyBreakdown(investment: real, annualRate: real, maturityYears: real, ratePercent: real)
    returns (rows: seq<YearRow>)
    ensures |rows| == (if maturityYears > 0.0 then Ceil(maturityYears) else 0)
    ensures forall k :: 0 <= k < |rows| ==> YearRowOk(rows[k], k, investment, annualRate, maturityYears, ratePercent)
    ensures |rows| > 0 ==> rows[|rows| - 1].amount == 2.0 * investment
  {
    rows := [];
    var year := 1;
    var last := Ceil(maturityYears);
    while year <= last
      invariant 1 <= year && (last >= 1 ==> year <= last + 1) && (last < 1 ==> year == 1)
      invariant |rows| == year - 1
      invariant forall k :: 0 <= k < |rows| ==> YearRowOk(rows[k], k, investment, annualRate, maturityYears, ratePercent)
    {
      var amount;
      if year as real >= maturityYears {
        amount := investment * 2.0;
      } else {
        amount := investment * Pow(1.0 + annualRate, year);
      }
      var row := YearRow(year, amount, amount - investment, ratePercent);
      assert YearRowOk(row, year - 1, investment, annualRate, maturityYears, ratePercent);
      rows := rows + [row];
      year := year + 1;
    }
  }

  predicate MonthRowOk(row: MonthRow, i: nat, investment: real, annualRate: real)
  {
    var amount := investment * Pow(1.0 + annualRate / 12.0, i + 1);
    row == MonthRow(i / 12 + 1, MonthNames[i % 12], amount, amount - investment)
  }

  /** Month-by-month compounding for the whole years within `years` (the
      page passes at most two). */
  method MonthlyBreakdown(investment: real, annualRate: real, years: real) returns (rows: seq<MonthRow>)
    ensures |rows| == (if years >= 1.0 then 12 * Floor(years) else 0)
    ensures forall i :: 0 <= i < |rows| ==> MonthRowOk(rows[i], i, investment, annualRate)
  {
    rows := [];
    var monthlyRate := annualRate / 12.0;
    var totalMonths := years * 12.0;
    var year := 1;
    while year as real <= years
      invariant 1 <= year && (years >= 1.0 ==> year <= Floor(years) + 1) && (years < 1.0 ==> year == 1)
      invariant |rows| == 12 * (year - 1)
      invariant forall i :: 0 <= i < |rows| ==> MonthRowOk(rows[i], i, investment, annualRate)
    {
      var month := 1;
      while month <= 12
        invariant 1 <= month <= 13
        invariant |rows| == 12 * (year - 1) + month - 1
        invariant forall i :: 0 <= i < |rows| ==> MonthRowOk(rows[i], i, investment, annualRate)
      {
        var monthsElapsed := (year - 1) * 12 + month;
        if monthsElapsed as real > totalMonths {
          assert false;
          break;
        }
        var amount := investment * Pow(1.0 + monthlyRate, monthsElapsed);
        var row := MonthRow(year, MonthNames[month - 1], amount, amount - investment);
        assert (monthsElapsed - 1) / 12 == year - 1 && (monthsElapsed - 1) % 12 == month - 1;
        assert MonthRowOk(row, monthsElapsed - 1, investment, annualRate);
        rows := rows + [row];
        month := month + 1;
      }
      year := year + 1;
    }
  }

  /** The page's monthly table never exceeds two years of months. */
  method MonthlyForMaturity(investment: real, annualRate: real, maturityYears: real) returns (rows: seq<MonthRow>)
    ensures |rows| <= 24
    ensures maturityYears >= 2.0 ==> |rows| == 24
    ensures forall i :: 0 <= i < |rows| ==> MonthRowOk(rows[i], i, investment, annualRate)
  {
    rows := MonthlyBreakdown(investment, annualRate, Min(2.0, maturityYears));
  }
}
