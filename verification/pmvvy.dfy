/** Pradhan Mantri Vaya Vandana Yojana: a ten-year pension at a fixed 7.40%
    a year, paid monthly, quarterly, half-yearly or yearly, with the
    investment returned at the end. */
module Pmvvy {
  import opened Num
  import opened Results

  const AnnualRate: real := 7.40
  const PolicyPeriod: nat := 10

  datatype Row = Row(year: nat, age: real, pensionAmount: real, cumulativePension: real,
                     remainingBalance: real)

  datatype PmvvyResult = PmvvyResult(
    pensionAmount: real, pensionsPerYear: nat, totalPensionPayouts: real,
    maturityAmount: real, effectiveRate: real, yearlyBreakdown: seq<Row>)

  /** Payouts a year for the chosen frequency; anything else counts as monthly. */
  function PensionsPerYear(frequency: string): (n: nat)
    ensures n in {1, 2, 4, 12}
    ensures frequency !in {"quarterly", "half-yearly", "yearly"} ==> n == 12
  {
    match frequency
    case "quarterly" => 4
    case "half-yearly" => 2
    case "yearly" => 1
    case _ => 12
  }

  /** One payout: the year's interest shared equally among the payouts. */
  function PensionAmount(investment: real, frequency: string): (p: real)
    ensures p * (PensionsPerYear(frequency) as real) * 100.0 == investment * AnnualRate
  {
    var n := PensionsPerYear(frequency);
    investment * AnnualRate / (n as real * 100.0)
  }

  /** Row `k` (0-based) of the breakdown. */
  predicate RowOk(row: Row, k: nat, subscriberAge: real, yearly: real, investment: real)
  {
    && row.year == k + 1 && row.age == subscriberAge + (k + 1) as real
    && row.pensionAmount == Round2(yearly)
    && row.cumulativePension == Round2((k + 1) as real * yearly)
    && row.remainingBalance == (if k + 1 == PolicyPeriod then 0.0 else investment)
  }

  /** The ten yearly rows: age, the year's pension, the pension received so
      far (accumulated year by year), and the investment still held until
      the last year. */
  method YearlyBreakdown(subscriberAge: real, pension: real, perYear: nat, investment: real)
    returns (rows: seq<Row>)
    ensures |rows| == PolicyPeriod
    ensures forall k :: 0 <= k < |rows| ==> RowOk(rows[k], k, subscriberAge, pension * perYear as real, investment)
  {
    rows := [];
    var cumulative := 0.0;
    var year := 1;
    while year <= PolicyPeriod
      invariant 1 <= year <= PolicyPeriod + 1
      invariant |rows| == year - 1
      invariant cumulative == (year - 1) as real * (pension * perYear as real)
      invariant forall k :: 0 <= k < |rows| ==> RowOk(rows[k], k, subscriberAge, pension * perYear as real, investment)
    {
      var yearly := pension * perYear as real;
      cumulative := cumulative + yearly;
      assert cumulative == year as real * yearly;
      var row := Row(year, subscriberAge + year as real, Round2(yearly), Round2(cumulative),
                     if year == PolicyPeriod then 0.0 else investment);
      assert RowOk(row, year - 1, subscriberAge, yearly, investment);
      rows := rows + [row];
      year := year + 1;
    }
  }

  /** The page's checks and computation. */
  method CalculatePmvvy(subscriberAge: real, investment: real, frequency: string)
    returns (r: Result<PmvvyResult>)
    ensures r.Err? <==> subscriberAge < 60.0 || subscriberAge > 90.0 || investment < 10000.0 || investment > 1500000.0
    ensures r.Ok? ==>
              var v := r.value;
              && v.pensionsPerYear == PensionsPerYear(frequency)
              && v.pensionAmount == Round2(PensionAmount(investment, frequency))
              // the ten years pay out 74% of the investment, whatever the frequency
              && v.totalPensionPayouts == Round2(investment * 0.74)
              && v.maturityAmount == Round2(investment * 1.74)
              && v.effectiveRate == Round2(AnnualRate)
              && |v.yearlyBreakdown| == PolicyPeriod
              && v.yearlyBreakdown[PolicyPeriod - 1].cumulativePension == Round2(investment * 0.74)
              && v.yearlyBreakdown[PolicyPeriod - 1].remainingBalance == 0.0
  {
    if subscriberAge < 60.0 || subscriberAge > 90.0 {
      return Err("Subscriber age must be between 60 and 90 years");
    }
    if investment < 10000.0 || investment > 1500000.0 {
      return Err("Investment amount must be between ₹10,000 and ₹15,00,000");
    }
    var perYear := PensionsPerYear(frequency);
    var pension := PensionAmount(investment, frequency);
    var total := pension * perYear as real * PolicyPeriod as real;
    assert total == investment * 0.74;
    var maturity := total + investment;
    var effective := total / investment / PolicyPeriod as real * 100.0;
    assert effective == AnnualRate;
    var rows := YearlyBreakdown(subscriberAge, pension, perYear, investment);
    assert (PolicyPeriod as real) * (pension * perYear as real) == investment * 0.74;
    r := Ok(PmvvyResult(Round2(pension), perYear, Round2(total), Round2(maturity), Round2(effective), rows));
  }
}
