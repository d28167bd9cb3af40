/** FD against SIP: a year's savings (twelve monthly amounts) placed in a
    fixed deposit at the start of each year, against a monthly SIP, compared
    year by year in a table. */
module FdVsSip {
  import opened Num
  import opened Results
  import opened Annuity

  datatype Inputs = Inputs(fdMonthly: real, fdDuration: int, fdRate: real, fdCompounding: string,
                           sipMonthly: real, sipDuration: int, sipCagr: real)

  /** The page's checks in order; the first failure is reported. */
  function ValidateInputs(i: Inputs): (r: Result<Inputs>)
    ensures r.Ok? <==> && 0.0 < i.fdMonthly <= 100000.0 && 0.0 < i.sipMonthly <= 100000.0
                       && 0 < i.fdDuration <= 30 && 0 < i.sipDuration <= 30
                       && i.fdRate >= 0.0 && i.sipCagr >= 0.0
    ensures r.Ok? ==> r.value == i
  {
    if i.fdMonthly <= 0.0 || i.sipMonthly <= 0.0 then Err("Monthly investment amount must be greater than 0")
    else if i.fdDuration <= 0 || i.sipDuration <= 0 then Err("Investment duration must be greater than 0")
    else if i.fdRate < 0.0 || i.sipCagr < 0.0 then Err("Interest/Return rates cannot be negative")
    else if i.fdMonthly > 100000.0 || i.sipMonthly > 100000.0 then Err("Monthly investment cannot exceed ₹1,00,000")
    else if i.fdDuration > 30 || i.sipDuration > 30 then Err("Investment duration cannot exceed 30 years")
    else Ok(i)
  }

  /** Compounding periods per year: monthly 12, quarterly 4, anything else yearly. */
  function Periods(compounding: string): (n: nat)
    ensures n in {1, 4, 12}
    ensures n == 12 <==> compounding == "monthly"
    ensures n == 4 <==> compounding == "quarterly"
  {
    if compounding == "monthly" then 12 else if compounding == "quarterly" then 4 else 1
  }

  datatype Figures = Figures(invested: real, gain: real, balance: real)

  const Zeros := Figures(0.0, 0.0, 0.0)

  /** `P g + P g^2 + … + P g^y`: deposits of `P` that have grown for
      `y, y - 1, …, 1` periods of factor `g`, summed from the shortest. */
  function Geometric(p: real, g: real, y: nat): real
  {
    if y == 0 then 0.0 else Geometric(p, g, y - 1) + p * Pow(g, y)
  }

  lemma {:induction false} GeometricStep(p: real, g: real, y: nat)
    requires y >= 1
    ensures Geometric(p, g, y) == (Geometric(p, g, y - 1) + p) * g
  {
    if y > 1 {
      GeometricStep(p, g, y - 1);
      assert p * Pow(g, y) == p * Pow(g, y - 1) * g;
    }
  }

  /** The sum of yearly deposits is the start-of-year recurrence with the
      year's growth `g - 1` as its rate. */
  lemma {:induction false} GeometricIsDue(p: real, g: real, y: nat)
    ensures Geometric(p, g, y) == DueBalance(p, g - 1.0, y)
  {
    if y > 0 {
      GeometricIsDue(p, g, y - 1);
      GeometricStep(p, g, y);
    }
  }

  /** The year's growth factor of the deposit: `(1 + r/n)^n`. */
  function YearFactor(rate: real, compounding: string): real
  {
    var n := Periods(compounding);
    Pow(1.0 + rate / n as real, n)
  }

  /** FD position at the end of `year`: each earlier year's savings
      `12 m`, compounded from the start of its year. Years beyond the FD's
      own duration show as zeros. */
  method CalculateYearlyFd(year: int, monthly: real, rate: real, compounding: string, maxDuration: int)
    returns (f: Figures)
    ensures year > maxDuration ==> f == Zeros
    ensures year <= maxDuration ==>
              && f.invested == monthly * 12.0 * year as real
              && f.gain == f.balance - f.invested
              && (year >= 0 ==> f.balance == DueBalance(monthly * 12.0, YearFactor(rate, compounding) - 1.0, year))
  {
    if year > maxDuration {
      return Zeros;
    }
    var invested := monthly * 12.0 * year as real;
    var n := Periods(compounding);
    var r := rate / n as real;
    var g := Pow(1.0 + r, n);
    var principal := monthly * 12.0;
    var balance := 0.0;
    var i := 1;
    while i <= year
      invariant 1 <= i && (year >= 1 ==> i <= year + 1) && (year < 1 ==> i == 1)
      invariant year >= 0 ==> balance == Geometric(principal, g, year) - Geometric(principal, g, year - (i - 1))
    {
      var periods := (year - i + 1) * n;
      PowMul(1.0 + r, n, year - i + 1);
      balance := balance + principal * Pow(1.0 + r, periods);
      i := i + 1;
    }
    if year >= 0 {
      GeometricIsDue(principal, g, year);
    }
    f := Figures(invested, balance - invested, balance);
  }

  /** The SIP balance exactly as the table computes it, with the standard
      formula; `None` is the NaN it yields for a zero CAGR (0 / 0). */
  function SipBalanceAsWritten(monthly: real, rate: real, year: nat): (b: Option<real>)
    ensures b.None? <==> rate == 0.0
  {
    var monthlyRate := rate / 12.0;
    if monthlyRate == 0.0 then None
    else Some(monthly * ((Pow(1.0 + monthlyRate, year * 12) - 1.0) / monthlyRate) * (1.0 + monthlyRate))
  }

  /** A zero CAGR passes validation yet makes every SIP balance NaN. */
  lemma ZeroCagrGivesNaN()
    ensures ValidateInputs(Inputs(5000.0, 10, 7.0, "quarterly", 5000.0, 10, 0.0)).Ok?
    ensures SipBalanceAsWritten(5000.0, 0.0, 1).None?
  {
  }

  /** SIP position at the end of `year`, instalments at the start of each
      month; with no growth it is just the instalments paid. Years beyond
      the SIP's own duration show as zeros. */
  function CalculateYearlySip(year: int, monthly: real, rate: real, maxDuration: int): (f: Figures)
    ensures year > maxDuration ==> f == Zeros
    ensures year <= maxDuration ==> f.invested == monthly * 12.0 * year as real && f.gain == f.balance - f.invested
  {
    if year > maxDuration then Zeros
    else
      var invested := monthly * 12.0 * year as real;
      var balance := if year >= 0 then DueBalance(monthly, rate / 12.0, year * 12) else 0.0;
      Figures(invested, balance - invested, balance)
  }

  /** Where the formula is defined, the corrected balance is the formula's value. */
  lemma CorrectedSipAgrees(year: nat, monthly: real, rate: real, maxDuration: int)
    requires rate != 0.0 && year <= maxDuration
    ensures SipBalanceAsWritten(monthly, rate, year) == Some(CalculateYearlySip(year, monthly, rate, maxDuration).balance)
  {
    var m := rate / 12.0;
    var n := year * 12;
    var q := (Pow(1.0 + m, n) - 1.0) / m;
    assert m != 0.0;
    SipFormulaIsDueBalance(monthly, m, n);
    assert SipFutureValue(monthly, m, n) == monthly * (q * (1.0 + m));
    Associate(monthly, q, 1.0 + m);
    var b := SipBalanceAsWritten(monthly, rate, year);
    assert b.Some?;
    assert b.value == monthly * ((Pow(1.0 + m, year * 12) - 1.0) / m) * (1.0 + m);
    assert b.value == monthly * q * (1.0 + m);
    assert CalculateYearlySip(year, monthly, rate, maxDuration).balance == DueBalance(monthly, m, n);
  }

  lemma Associate(a: real, b: real, c: real)
    ensures a * b * c == a * (b * c)
  {
  }

  /** At a zero CAGR the corrected balance is the amount invested. */
  lemma CorrectedSipAtZeroRate(year: nat, monthly: real, maxDuration: int)
    requires year <= maxDuration
    ensures CalculateYearlySip(year, monthly, 0.0, maxDuration).balance == monthly * 12.0 * year as real
    ensures CalculateYearlySip(year, monthly, 0.0, maxDuration).gain == 0.0
  {
    ZeroRateBalances(monthly, year * 12);
  }

  datatype TableRow = TableRow(year: int, fd: Figures, sip: Figures, betterOption: string, advantage: real)

  /** Ties go to the FD. */
  function Better(sip: real, fd: real): (s: string)
    ensures s == "SIP" <==> sip > fd
    ensures s == "FD" <==> sip <= fd
  {
    if sip > fd then "SIP" else "FD"
  }

  predicate TableRowOk(row: TableRow, k: nat, i: Inputs)
  {
    && row.year == k + 1
    && row.sip == CalculateYearlySip(k + 1, i.sipMonthly, i.sipCagr / 100.0, i.sipDuration)
    && (k + 1 > i.fdDuration ==> row.fd == Zeros)
    && (k + 1 <= i.fdDuration ==>
          row.fd.balance == DueBalance(i.fdMonthly * 12.0, YearFactor(i.fdRate / 100.0, i.fdCompounding) - 1.0, k + 1)
          && row.fd.invested == i.fdMonthly * 12.0 * (k + 1) as real)
    && row.betterOption == Better(row.sip.balance, row.fd.balance)
    && row.advantage == Abs(row.sip.balance - row.fd.balance)
  }

  /** One row per year up to the longer of the two durations. */
  method ComparisonTable(i: Inputs) returns (rows: seq<TableRow>)
    ensures var d := if i.fdDuration >= i.sipDuration then i.fdDuration else i.sipDuration;
            |rows| == (if d > 0 then d else 0)
    ensures forall k :: 0 <= k < |rows| ==> TableRowOk(rows[k], k, i)
  {
    var duration := if i.fdDuration >= i.sipDuration then i.fdDuration else i.sipDuration;
    var fdRate := i.fdRate / 100.0;
    var sipRate := i.sipCagr / 100.0;
    rows := [];
    var year := 1;
    while year <= duration
      invariant 1 <= year && (duration >= 1 ==> year <= duration + 1) && (duration < 1 ==> year == 1)
      invariant |rows| == year - 1
      invariant forall k :: 0 <= k < |rows| ==> TableRowOk(rows[k], k, i)
    {
      var fd := CalculateYearlyFd(year, i.fdMonthly, fdRate, i.fdCompounding, i.fdDuration);
      var sip := CalculateYearlySip(year, i.sipMonthly, sipRate, i.sipDuration);
      var row := TableRow(year, fd, sip, Better(sip.balance, fd.balance), Abs(sip.balance - fd.balance));
      assert TableRowOk(row, year - 1, i);
      rows := rows + [row];
      year := year + 1;
    }
  }
}
