/** RD, FD and SIP side by side over one tenure: each instrument's
    maturity, and a ranking of the three by maturity value. */
module RdVsFdVsSip {
  import opened Num
  import opened Sorting
  import opened Annuity

  datatype Kind = RD | FD | SIP

  datatype InstrumentResult = InstrumentResult(kind: Kind, totalInvested: int, maturityValue: int,
                                               returnsEarned: int, riskLevel: string)

  /** Deposits and fixed deposits are low risk, a SIP is high risk. */
  function RiskLevel(k: Kind): (s: string)
    ensures s == "High" <==> k == SIP
    ensures s == "Low" <==> k != SIP
  {
    if k == SIP then "High" else "Low"
  }

  /** Recurring deposit, compounded quarterly. Its formula divides by
      `1 - (1 + i)^(-1/3)`, which needs a cube root: `c` is that cube root of
      the quarter's growth `1 + i`. */
  function CalculateRd(monthlyDeposit: real, annualRate: real, years: nat, c: real): (r: InstrumentResult)
    requires c > 0.0 && c * c * c == 1.0 + annualRate / 400.0
    ensures r.kind == RD && r.riskLevel == "Low"
    ensures r.totalInvested == Round(monthlyDeposit * 12.0 * years as real)
    ensures annualRate == 0.0 ==> r.maturityValue == Round(monthlyDeposit * 12.0 * years as real)
    ensures r.maturityValue == Round(DueBalance(monthlyDeposit, c - 1.0, 12 * years))
    ensures r.returnsEarned == Round(DueBalance(monthlyDeposit, c - 1.0, 12 * years)
                                     - monthlyDeposit * 12.0 * years as real)
  {
    RdMaturityIsDue(monthlyDeposit, annualRate, years, c);
    var i := annualRate / 400.0;
    var n := years * 4;
    var maturity := if i == 0.0 then monthlyDeposit * 12.0 * years as real
                    else RdFormula(monthlyDeposit, i, n, c);
    var invested := monthlyDeposit * 12.0 * years as real;
    InstrumentResult(RD, Round(invested), Round(maturity), Round(maturity - invested), RiskLevel(RD))
  }

  /** Both branches of the deposit's maturity, the zero-rate one included,
      are the deposits made at the start of every month and compounded
      monthly at the cube root `c` of the quarter's growth. */
  lemma RdMaturityIsDue(monthlyDeposit: real, annualRate: real, years: nat, c: real)
    requires c > 0.0 && c * c * c == 1.0 + annualRate / 400.0
    ensures annualRate == 0.0 ==> DueBalance(monthlyDeposit, c - 1.0, 12 * years) == monthlyDeposit * 12.0 * years as real
    ensures annualRate != 0.0 ==> RdFormula(monthlyDeposit, annualRate / 400.0, years * 4, c)
                                  == DueBalance(monthlyDeposit, c - 1.0, 12 * years)
  {
    if annualRate == 0.0 {
      UnitCubeRoot(c);
      ZeroRateBalances(monthlyDeposit, 12 * years);
      assert (12 * years) as real * monthlyDeposit == monthlyDeposit * 12.0 * years as real;
    } else {
      RdFormulaIsMonthlyDeposits(monthlyDeposit, annualRate / 400.0, years * 4, c);
      assert 3 * (years * 4) == 12 * years;
    }
  }

  /** The only positive cube root of one is one. */
  lemma UnitCubeRoot(c: real)
    requires c > 0.0 && c * c * c == 1.0
    ensures c == 1.0
  {
  }

  /** `R ((1 + i)^n - 1) / (1 - (1 + i)^(-1/3))`. */
  function RdFormula(r: real, i: real, n: nat, c: real): real
    requires c > 0.0 && c * c * c == 1.0 + i && i != 0.0
  {
    CubeRootNotOne(c, i);
    r * ((Pow(1.0 + i, n) - 1.0) / (1.0 - 1.0 / c))
  }

  lemma CubeRootNotOne(c: real, i: real)
    requires c > 0.0 && c * c * c == 1.0 + i && i != 0.0
    ensures c != 1.0 && 1.0 - 1.0 / c != 0.0
  {
  }

  /** The RD formula is every monthly deposit compounding monthly at the
      cube root of the quarterly growth: the start-of-month recurrence. */
  lemma RdFormulaIsMonthlyDeposits(r: real, i: real, quarters: nat, c: real)
    requires c > 0.0 && c * c * c == 1.0 + i && i != 0.0
    ensures RdFormula(r, i, quarters, c) == DueBalance(r, c - 1.0, 3 * quarters)
  {
    CubeRootNotOne(c, i);
    var n := 3 * quarters;
    var p := Pow(c, n);
    CubePower(c, i, quarters);
    DueInGrowth(r, c, n);
    RdDivide(r, p, c, DueBalance(r, c - 1.0, n));
  }

  /** `c^(3q) = (1 + i)^q` when `c` is the cube root of `1 + i`. */
  lemma CubePower(c: real, i: real, quarters: nat)
    requires c * c * c == 1.0 + i
    ensures Pow(1.0 + i, quarters) == Pow(c, 3 * quarters)
  {
    PowMul(c, 3, quarters);
    assert quarters * 3 == 3 * quarters;
    assert Pow(c, 1) == c;
    assert Pow(c, 2) == c * c;
    assert Pow(c, 3) == c * (c * c);
  }

  /** The closed form with the growth factor `c` in place of the rate. */
  lemma DueInGrowth(r: real, c: real, n: nat)
    ensures DueBalance(r, c - 1.0, n) * (c - 1.0) == r * (Pow(c, n) - 1.0) * c
  {
    DueClosedForm(r, c - 1.0, n);
    assert 1.0 + (c - 1.0) == c;
  }

  lemma RdDivide(r: real, p: real, c: real, d: real)
    requires c > 0.0 && c != 1.0 && d * (c - 1.0) == r * (p - 1.0) * c
    ensures r * ((p - 1.0) / (1.0 - 1.0 / c)) == d
  {
    var den := 1.0 - 1.0 / c;
    assert den * c == c - 1.0;
    var q := (p - 1.0) / den;
    assert q * den == p - 1.0;
    assert r * q * (c - 1.0) == r * (q * den) * c;
    assert r * q * (c - 1.0) == d * (c - 1.0);
  }

  /** Compounding periods per year for a named frequency; unknown names
      compound quarterly. */
  function CompoundingFrequency(compounding: string): (f: nat)
    ensures f in {1, 2, 4, 12}
    ensures compounding !in {"annual", "halfyearly", "quarterly", "monthly"} ==> f == 4
  {
    match compounding
    case "annual" => 1
    case "halfyearly" => 2
    case "quarterly" => 4
    case "monthly" => 12
    case _ => 4
  }

  /** A year's growth factor of the deposit, `(1 + r/f)^f`. */
  function YearGrowth(annualRate: real, compounding: string): real
  {
    var f := CompoundingFrequency(compounding);
    Pow(1.0 + annualRate / 100.0 / f as real, f)
  }

  function CalculateFd(principal: real, annualRate: real, years: nat, compounding: string): (r: InstrumentResult)
    ensures r.kind == FD && r.riskLevel == "Low"
    ensures r.totalInvested == Round(principal)
    ensures r.returnsEarned == Round(FdMaturity(principal, annualRate, years, compounding) - principal)
    ensures r.maturityValue == Round(FdMaturity(principal, annualRate, years, compounding))
  {
    var maturity := FdMaturity(principal, annualRate, years, compounding);
    InstrumentResult(FD, Round(principal), Round(maturity), Round(maturity - principal), RiskLevel(FD))
  }

  /** `P (1 + r/f)^(f t)`. */
  function FdMaturity(principal: real, annualRate: real, years: nat, compounding: string): real
  {
    var f := CompoundingFrequency(compounding);
    principal * Pow(1.0 + annualRate / 100.0 / f as real, f * years)
  }

  /** Compounding `f` times a year for `t` years is compounding yearly by
      the year's growth. */
  lemma FdCompoundsYearly(principal: real, annualRate: real, years: nat, compounding: string)
    ensures FdMaturity(principal, annualRate, years, compounding)
            == principal * Pow(YearGrowth(annualRate, compounding), years)
  {
    var f := CompoundingFrequency(compounding);
    var g := 1.0 + annualRate / 100.0 / f as real;
    PowMul(g, f, years);
    assert years * f == f * years;
    assert Pow(g, f * years) == Pow(YearGrowth(annualRate, compounding), years);
  }

  /** At a zero rate the deposit does not grow. */
  lemma FdAtZeroRate(principal: real, years: nat, compounding: string)
    ensures FdMaturity(principal, 0.0, years, compounding) == principal
  {
    var f := CompoundingFrequency(compounding);
    assert 1.0 + 0.0 / 100.0 / f as real == 1.0;
    PowOfOne(f * years);
  }

  /** SIP by the annuity-due formula, or the plain instalment total at a
      zero return. */
  function CalculateSip(monthlyInvestment: real, expectedReturn: real, years: nat): (r: InstrumentResult)
    ensures r.kind == SIP && r.riskLevel == "High"
    ensures r.totalInvested == Round(monthlyInvestment * (years * 12) as real)
    ensures r.maturityValue == Round(SipMaturity(monthlyInvestment, expectedReturn, years))
    ensures r.maturityValue == Round(DueBalance(monthlyInvestment, expectedReturn / 12.0 / 100.0, years * 12))
    ensures r.returnsEarned == Round(DueBalance(monthlyInvestment, expectedReturn / 12.0 / 100.0, years * 12)
                                     - monthlyInvestment * (years * 12) as real)
  {
    SipIsMonthlyDeposits(monthlyInvestment, expectedReturn, years);
    var maturity := SipMaturity(monthlyInvestment, expectedReturn, years);
    var invested := monthlyInvestment * (years * 12) as real;
    InstrumentResult(SIP, Round(invested), Round(maturity), Round(maturity - invested), RiskLevel(SIP))
  }

  function SipMaturity(monthlyInvestment: real, expectedReturn: real, years: nat): real
  {
    var monthlyRate := expectedReturn / 12.0 / 100.0;
    var totalMonths := years * 12;
    if monthlyRate == 0.0 then monthlyInvestment * totalMonths as real
    else monthlyInvestment * ((Pow(1.0 + monthlyRate, totalMonths) - 1.0) / monthlyRate) * (1.0 + monthlyRate)
  }

  /** Both branches are the start-of-month recurrence, the zero-rate one included. */
  lemma SipIsMonthlyDeposits(monthlyInvestment: real, expectedReturn: real, years: nat)
    ensures SipMaturity(monthlyInvestment, expectedReturn, years)
            == DueBalance(monthlyInvestment, expectedReturn / 12.0 / 100.0, years * 12)
  {
    var m := expectedReturn / 12.0 / 100.0;
    if m == 0.0 {
      ZeroRateBalances(monthlyInvestment, years * 12);
    } else {
      SipFormulaBranch(monthlyInvestment, m, years * 12);
    }
  }

  lemma SipFormulaBranch(p: real, m: real, n: nat)
    requires m != 0.0
    ensures p * ((Pow(1.0 + m, n) - 1.0) / m) * (1.0 + m) == DueBalance(p, m, n)
  {
    SipFormulaIsDueBalance(p, m, n);
    Associate(p, (Pow(1.0 + m, n) - 1.0) / m, 1.0 + m);
  }

  lemma Associate(a: real, b: real, c: real)
    ensures a * b * c == a * (b * c)
  {
  }

  /** With the FD type "match", the lump sum is the larger of what the RD
      and the SIP put in; otherwise it is the entered amount. */
  function FdLumpsum(fdType: string, entered: real, rd: InstrumentResult, sipMonthly: real, years: nat): (p: real)
    ensures fdType == "match" ==> p == Max(rd.totalInvested as real, sipMonthly * 12.0 * years as real)
    ensures fdType != "match" ==> p == entered
  {
    if fdType == "match" then Max(rd.totalInvested as real, sipMonthly * 12.0 * years as real) else entered
  }

  /** The compound growth rate the page reports, rounded to two decimals,
      and 0 when nothing was invested. `root` is
      `(maturity / invested)^(1 / years)`, a fractional power passed in. */
  function EffectiveCagr(invested: real, root: real): (r: real)
    ensures invested <= 0.0 ==> r == 0.0
    ensures invested > 0.0 && root >= 1.0 ==> r >= 0.0
  {
    var cagr := if invested > 0.0 then (root - 1.0) * 100.0 else 0.0;
    Round(cagr * 100.0) as real / 100.0
  }

  /** The sort key of the ranking. */
  function Maturity(r: InstrumentResult): real
  {
    r.maturityValue as real
  }

  function DisplayName(k: Kind): string
  {
    match k
    case RD => "Recurring Deposit (RD)"
    case FD => "Fixed Deposit (FD)"
    case SIP => "SIP"
  }

  datatype RankItem = RankItem(rank: string, name: string, amount: int)

  const Ranks: seq<string> := ["1st", "2nd", "3rd"]

  /** The three results ranked, "1st" for the largest maturity, by
      `[...results].sort((a, b) => b.maturityValue - a.maturityValue)`; the
      ranking is a sorted copy, so the results themselves are untouched. */
  function UpdateRanking(results: seq<InstrumentResult>): (items: seq<RankItem>)
    requires |results| == 3
    ensures var sorted := SortDescendingBy(results, Maturity);
            && |items| == 3
            && forall k :: 0 <= k < 3 ==>
                 items[k] == RankItem(Ranks[k], DisplayName(sorted[k].kind), sorted[k].maturityValue)
    ensures forall k :: 0 <= k < 2 ==> items[k].amount >= items[k + 1].amount
  {
    var sorted := SortDescendingBy(results, Maturity);
    seq(3, k requires 0 <= k < 3 => RankItem(Ranks[k], DisplayName(sorted[k].kind), sorted[k].maturityValue))
  }
}
