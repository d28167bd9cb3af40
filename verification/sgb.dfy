/** Sovereign Gold Bonds: the bond pays a fixed yearly interest on the
    issue value and redeems at the gold price at maturity. */
module Sgb {
  import opened Num
  import opened Results

  datatype SgbInputs = SgbInputs(quantity: real, issuePrice: real, expectedPrice: real,
                                 interestRate: real, tenure: int)

  datatype YearRow = YearRow(year: int, annualInterest: real, cumulativeInterest: real,
                             investmentValue: real, estimatedGoldValue: real, totalValueWithInterest: real)

  /** The summary figures are rounded to whole rupees and the annualized
      return to two decimals; the year rows keep exact values. */
  datatype SgbResult = SgbResult(totalInvestment: int, annualInterest: int, totalInterestEarned: int,
                                 maturityValue: int, capitalGain: int, totalReturn: int,
                                 totalGain: int, annualizedReturn: real, yearWiseData: seq<YearRow>)

  /** The checks in the order the page makes them; the first failure wins. */
  function Validate(i: SgbInputs): (r: Result<SgbInputs>)
    ensures r.Ok? <==> i.quantity > 0.0 && i.issuePrice > 0.0 && i.expectedPrice > 0.0
                       && i.interestRate >= 0.0 && i.tenure > 0
    ensures r.Ok? ==> r.value == i
    ensures i.quantity <= 0.0 ==> r == Err("Investment quantity must be greater than 0")
  {
    if i.quantity <= 0.0 then Err("Investment quantity must be greater than 0")
    else if i.issuePrice <= 0.0 then Err("Issue price must be greater than 0")
    else if i.expectedPrice <= 0.0 then Err("Expected gold price must be greater than 0")
    else if i.interestRate < 0.0 then Err("Interest rate cannot be negative")
    else if i.tenure <= 0 then Err("Tenure must be greater than 0")
    else Ok(i)
  }

  /** The amount paid for the bonds. */
  function Investment(i: SgbInputs): real
  {
    i.quantity * i.issuePrice
  }

  /** The fixed interest paid each year on the issue value. */
  function YearlyInterest(i: SgbInputs): real
  {
    Investment(i) * (i.interestRate / 100.0)
  }

  /** The redemption value at the expected gold price. */
  function Maturity(i: SgbInputs): real
  {
    i.quantity * i.expectedPrice
  }

  /** Redemption plus all the interest paid over the tenure. */
  function TotalReturn(i: SgbInputs): real
  {
    Maturity(i) + YearlyInterest(i) * i.tenure as real
  }

  /** Gold value after `year` years, moving in a straight line from the
      issue value to the expected maturity value. */
  function GoldValue(i: SgbInputs, year: int): real
    requires i.issuePrice > 0.0 && i.tenure > 0
  {
    Investment(i) * (1.0 + ((i.expectedPrice - i.issuePrice) / i.issuePrice) * (year as real / i.tenure as real))
  }

  /** The interpolation is exact at both ends. */
  lemma GoldValueEnds(i: SgbInputs)
    requires i.issuePrice > 0.0 && i.tenure > 0
    ensures GoldValue(i, 0) == Investment(i)
    ensures GoldValue(i, i.tenure) == Maturity(i)
  {
    var q, p, e := i.quantity, i.issuePrice, i.expectedPrice;
    assert i.tenure as real / i.tenure as real == 1.0;
    GrowthFactor(p, e);
    assert q * p * (1.0 + (e - p) / p) == q * (p * (1.0 + (e - p) / p));
  }

  /** Scaling the issue price by the relative gain gives the expected price. */
  lemma GrowthFactor(p: real, e: real)
    requires p > 0.0
    ensures p * (1.0 + (e - p) / p) == e
  {
    var d := (e - p) / p;
    assert p * d == e - p;
    assert p * (1.0 + d) == p + p * d;
  }

  /** The table row of year `year`. */
  function RowAt(i: SgbInputs, year: int): YearRow
    requires i.issuePrice > 0.0 && i.tenure > 0
  {
    var cumulative := year as real * YearlyInterest(i);
    var gold := GoldValue(i, year);
    YearRow(year, YearlyInterest(i), cumulative, Investment(i), gold, gold + cumulative)
  }

  /** The per-year gain: the year's interest plus an equal share of the
      expected price gain. */
  function YearlyGain(i: SgbInputs): real
    requires i.tenure > 0
  {
    YearlyInterest(i) + (Maturity(i) - Investment(i)) / i.tenure as real
  }

  /** The table's total value grows in a straight line: after `k` years it
      is the investment plus `k` equal yearly gains. */
  lemma RowValueIsLinear(i: SgbInputs, k: int)
    requires i.issuePrice > 0.0 && i.tenure > 0
    ensures RowAt(i, k).totalValueWithInterest == Investment(i) + k as real * YearlyGain(i)
  {
    var q, p, e, t := i.quantity, i.issuePrice, i.expectedPrice, i.tenure as real;
    var f := k as real / t;
    assert (e - p) / p * f * (q * p) == (e - p) * q * f by {
      assert (e - p) / p * p == e - p;
    }
    assert (q * e - q * p) / t * k as real == (e - p) * q * f;
  }

  /** The table's last row carries the whole interest and the maturity
      value, so it shows the summary's total return. */
  lemma LastRowIsTotalReturn(i: SgbInputs)
    requires Validate(i).Ok?
    ensures RowAt(i, i.tenure).cumulativeInterest == YearlyInterest(i) * i.tenure as real
    ensures RowAt(i, i.tenure).estimatedGoldValue == Maturity(i)
    ensures RowAt(i, i.tenure).totalValueWithInterest == TotalReturn(i)
  {
    GoldValueEnds(i);
  }

  /** Redemption and interest are never negative for valid inputs, so a
      non-negative compounding factor for the annualized return exists. */
  lemma TotalReturnPositive(i: SgbInputs)
    requires Validate(i).Ok?
    ensures TotalReturn(i) > 0.0 && Investment(i) > 0.0
  {
    assert YearlyInterest(i) >= 0.0;
  }

  /** `growth` stands for `(totalReturn / totalInvestment)^(1 / tenure)`, the
      value the page takes from `Math.pow`: a non-negative factor that,
      compounded for the tenure, turns the investment into the total return. */
  predicate IsAnnualGrowth(i: SgbInputs, growth: real)
    requires i.tenure > 0
  {
    growth >= 0.0 && Investment(i) * Pow(growth, i.tenure) == TotalReturn(i)
  }

  /** The annualized return is non-negative exactly when the bond returns
      at least what was invested. */
  lemma AnnualizedSign(i: SgbInputs, growth: real)
    requires Validate(i).Ok? && IsAnnualGrowth(i, growth)
    ensures growth >= 1.0 <==> TotalReturn(i) >= Investment(i)
  {
    var inv, p := Investment(i), Pow(growth, i.tenure);
    assert inv > 0.0 && inv * p == TotalReturn(i);
    if growth >= 1.0 {
      PowAtLeastOne(growth, i.tenure);
      ScaleMono(inv, 1.0, p);
    } else {
      PowBelowOne(growth, i.tenure);
      assert inv * p < inv * 1.0;
    }
  }

  method CalculateSgbReturns(i: SgbInputs, growth: real) returns (r: SgbResult)
    requires Validate(i).Ok? && IsAnnualGrowth(i, growth)
    ensures r.totalInvestment == Round(Investment(i))
    ensures r.annualInterest == Round(YearlyInterest(i))
    ensures r.maturityValue == Round(Maturity(i))
    ensures r.totalInterestEarned == Round(YearlyInterest(i) * i.tenure as real)
    ensures r.capitalGain == Round(Maturity(i) - Investment(i))
    ensures r.totalReturn == Round(TotalReturn(i))
    ensures r.totalGain == Round(TotalReturn(i) - Investment(i))
    ensures Abs(r.annualizedReturn - (growth - 1.0) * 100.0) <= 0.005
    ensures |r.yearWiseData| == i.tenure
    ensures forall k :: 0 <= k < |r.yearWiseData| ==> r.yearWiseData[k] == RowAt(i, k + 1)
  {
    var totalInvestment := Investment(i);
    var annualInterest := YearlyInterest(i);
    var totalInterestEarned := YearlyInterest(i) * i.tenure as real;
    var maturityValue := Maturity(i);
    var capitalGain := Maturity(i) - Investment(i);
    var totalReturn := TotalReturn(i);
    var totalGain := TotalReturn(i) - Investment(i);
    // totalInvestment and tenure are positive once validated
    var annualized := (growth - 1.0) * 100.0;
    var rows: seq<YearRow> := [];
    var cumulativeInterest := 0.0;
    var year := 1;
    while year <= i.tenure
      invariant 1 <= year <= i.tenure + 1
      invariant |rows| == year - 1
      invariant cumulativeInterest == (year - 1) as real * annualInterest
      invariant forall k :: 0 <= k < |rows| ==> rows[k] == RowAt(i, k + 1)
    {
      cumulativeInterest := cumulativeInterest + annualInterest;
      assert cumulativeInterest == year as real * annualInterest;
      var gold := GoldValue(i, year);
      var row := YearRow(year, annualInterest, cumulativeInterest, totalInvestment, gold, gold + cumulativeInterest);
      assert row == RowAt(i, year);
      rows := rows + [row];
      year := year + 1;
    }
    var rounded := Round2(annualized);
    AbsWithin(rounded - annualized, 0.005);
    r := SgbResult(Round(totalInvestment), Round(annualInterest), Round(totalInterestEarned),
                   Round(maturityValue), Round(capitalGain), Round(totalReturn), Round(totalGain),
                   rounded, rows);
  }
}
