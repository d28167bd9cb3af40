/** PPF against SIP: the same horizon, a yearly PPF deposit of twelve
    monthly amounts against a monthly SIP, compared year by year. */
module PpfVsSip {
  import opened Num
  import opened Results
  import opened Annuity

  datatype Inputs = Inputs(ppfMonthlyAmount: real, ppfInterestRate: real, sipMonthlyAmount: real,
                           sipReturnRate: real, duration: int)

  /** The form's entries, each falling back to its default when missing or zero. */
  function GetInputValues(ppfMonthly: Field, ppfRate: Field, sipMonthly: Field, sipRate: Field,
                          duration: Option<int>): (i: Inputs)
    ensures i.ppfMonthlyAmount != 0.0 && i.ppfInterestRate != 0.0 && i.sipMonthlyAmount != 0.0
    ensures i.sipReturnRate != 0.0 && i.duration != 0
    ensures ppfMonthly.None? ==> i.ppfMonthlyAmount == 12500.0
    ensures ppfRate.None? ==> i.ppfInterestRate == 7.1
    ensures sipMonthly.None? ==> i.sipMonthlyAmount == 12500.0
    ensures sipRate.None? ==> i.sipReturnRate == 12.0
    ensures duration.None? ==> i.duration == 15
    ensures ReadsAs(i.ppfMonthlyAmount, ppfMonthly, 12500.0)
    ensures ReadsAs(i.ppfInterestRate, ppfRate, 7.1)
    ensures ReadsAs(i.sipMonthlyAmount, sipMonthly, 12500.0)
    ensures ReadsAs(i.sipReturnRate, sipRate, 12.0)
    ensures ReadsAsInt(i.duration, duration, 15)
  {
    Inputs(OrDefault(ppfMonthly, 12500.0), OrDefault(ppfRate, 7.1), OrDefault(sipMonthly, 12500.0),
           OrDefault(sipRate, 12.0), OrDefaultInt(duration, 15))
  }

  datatype Row = Row(year: int, invested: real, gain: real, balance: real)

  /** `netGain / totalInvested * 100`; `None` stands for JavaScript's NaN
      or Infinity when nothing was invested. */
  datatype InstrumentResult = InstrumentResult(totalInvested: real, maturityValue: real, netGain: real,
                                               totalReturn: Option<real>, annualReturn: real,
                                               yearlyBreakdown: seq<Row>)

  function ReturnPercent(netGain: real, invested: real): (r: Option<real>)
    ensures r.Some? <==> invested != 0.0
    ensures r.Some? ==> r.value * invested == netGain * 100.0
  {
    if invested == 0.0 then None else Some(netGain / invested * 100.0)
  }

  predicate RowFor(row: Row, k: nat, invested: real, balance: real)
  {
    row == Row(k + 1, invested, balance - invested, balance)
  }

  /** PPF row `k`: twelve monthly amounts deposited at the start of each
      year, compounding yearly. */
  predicate PpfRowOk(row: Row, k: nat, annual: real, rate: real)
  {
    RowFor(row, k, (k + 1) as real * annual, DueBalance(annual, rate, k + 1))
  }

  method CalculatePpfReturns(i: Inputs) returns (r: InstrumentResult)
    ensures var annual := i.ppfMonthlyAmount * 12.0;
            var n := if i.duration > 0 then i.duration else 0;
            && |r.yearlyBreakdown| == n
            && (forall k :: 0 <= k < n ==> PpfRowOk(r.yearlyBreakdown[k], k, annual, i.ppfInterestRate / 100.0))
            && r.totalInvested == n as real * annual
            && r.maturityValue == DueBalance(annual, i.ppfInterestRate / 100.0, n)
            && r.netGain == r.maturityValue - r.totalInvested
            && r.totalReturn == ReturnPercent(r.netGain, r.totalInvested)
            && r.annualReturn == i.ppfInterestRate
  {
    var annualRate := i.ppfInterestRate / 100.0;
    var annual := i.ppfMonthlyAmount * 12.0;
    var totalInvested := 0.0;
    var maturityValue := 0.0;
    var rows: seq<Row> := [];
    var year := 1;
    while year <= i.duration
      invariant 1 <= year && (i.duration >= 1 ==> year <= i.duration + 1) && (i.duration < 1 ==> year == 1)
      invariant |rows| == year - 1
      invariant totalInvested == (year - 1) as real * annual
      invariant maturityValue == DueBalance(annual, annualRate, year - 1)
      invariant forall k :: 0 <= k < |rows| ==> PpfRowOk(rows[k], k, annual, annualRate)
    {
      assert year as real * annual == (year - 1) as real * annual + annual;
      totalInvested := totalInvested + annual;
      if year == 1 {
        maturityValue := annual * (1.0 + annualRate);
      } else {
        maturityValue := (maturityValue + annual) * (1.0 + annualRate);
      }
      assert maturityValue == DueBalance(annual, annualRate, year);
      var row := Row(year, totalInvested, maturityValue - totalInvested, maturityValue);
      assert PpfRowOk(row, year - 1, annual, annualRate);
      rows := rows + [row];
      year := year + 1;
    }
    var netGain := maturityValue - totalInvested;
    r := InstrumentResult(totalInvested, maturityValue, netGain, ReturnPercent(netGain, totalInvested),
                          i.ppfInterestRate, rows);
  }

  /** SIP row `k`: the snapshot after `12 (k + 1)` monthly instalments, each
      paid at the end of its month. */
  predicate SipRowOk(row: Row, k: nat, monthly: real, rate: real)
  {
    RowFor(row, k, (12 * (k + 1)) as real * monthly, OrdinaryBalance(monthly, rate, 12 * (k + 1)))
  }

  method CalculateSipReturns(i: Inputs) returns (r: InstrumentResult)
    ensures var monthlyRate := i.sipReturnRate / 1200.0;
            var n := if i.duration > 0 then i.duration else 0;
            && |r.yearlyBreakdown| == n
            && (forall k :: 0 <= k < n ==> SipRowOk(r.yearlyBreakdown[k], k, i.sipMonthlyAmount, monthlyRate))
            && r.totalInvested == (12 * n) as real * i.sipMonthlyAmount
            && r.maturityValue == OrdinaryBalance(i.sipMonthlyAmount, monthlyRate, 12 * n)
            && r.netGain == r.maturityValue - r.totalInvested
            && r.totalReturn == ReturnPercent(r.netGain, r.totalInvested)
            && r.annualReturn == i.sipReturnRate
  {
    var s := i.sipMonthlyAmount;
    var monthlyRate := i.sipReturnRate / (12.0 * 100.0);
    var totalMonths := i.duration * 12;
    var totalInvested := 0.0;
    var maturityValue := 0.0;
    var rows: seq<Row> := [];
    var month := 1;
    while month <= totalMonths
      invariant 1 <= month && (totalMonths >= 1 ==> month <= totalMonths + 1) && (totalMonths < 1 ==> month == 1)
      invariant |rows| == (month - 1) / 12
      invariant totalInvested == (month - 1) as real * s
      invariant maturityValue == OrdinaryBalance(s, monthlyRate, month - 1)
      invariant forall k :: 0 <= k < |rows| ==> SipRowOk(rows[k], k, s, monthlyRate)
    {
      assert month as real * s == (month - 1) as real * s + s;
      totalInvested := totalInvested + s;
      if month == 1 {
        maturityValue := s;
      } else {
        maturityValue := maturityValue * (1.0 + monthlyRate) + s;
      }
      assert maturityValue == OrdinaryBalance(s, monthlyRate, month);
      if month % 12 == 0 {
        var year := month / 12;
        var row := Row(year, totalInvested, maturityValue - totalInvested, maturityValue);
        assert 12 * year == month;
        assert SipRowOk(row, year - 1, s, monthlyRate);
        rows := rows + [row];
      }
      month := month + 1;
    }
    var netGain := maturityValue - totalInvested;
    r := InstrumentResult(totalInvested, maturityValue, netGain, ReturnPercent(netGain, totalInvested),
                          i.sipReturnRate, rows);
  }

  /** `Array.prototype.find` by year: the first row of that year. */
  function Find(rows: seq<Row>, year: int): (r: Option<Row>)
    ensures r.Some? ==> r.value in rows && r.value.year == year
    ensures r.None? ==> forall k :: 0 <= k < |rows| ==> rows[k].year != year
  {
    if |rows| == 0 then None
    else if rows[0].year == year then Some(rows[0])
    else Find(rows[1..], year)
  }

  /** In a breakdown numbered 1, 2, … the row for year `y` is the `y`-th. */
  lemma {:induction false} FindNumbered(rows: seq<Row>, first: int, year: int)
    requires forall k :: 0 <= k < |rows| ==> rows[k].year == first + k
    requires first <= year < first + |rows|
    ensures Find(rows, year) == Some(rows[year - first])
    decreases |rows|
  {
    if rows[0].year != year {
      forall k | 0 <= k < |rows[1..]|
        ensures rows[1..][k].year == first + 1 + k
      {
        assert rows[1..][k] == rows[k + 1];
      }
      FindNumbered(rows[1..], first + 1, year);
    }
  }

  /** A year missing from a breakdown shows as zeros. */
  function Figures(r: Option<Row>): Row
  {
    if r.Some? then r.value else Row(0, 0.0, 0.0, 0.0)
  }

  datatype ComparisonRow = ComparisonRow(year: int, ppfInvested: real, ppfInterest: real, ppfBalance: real,
                                         sipInvested: real, sipReturns: real, sipBalance: real,
                                         betterOption: string, advantage: real)

  datatype Comparison = Comparison(maturityDifference: real, betterOption: string,
                                   advantagePercentage: Option<real>, yearlyBreakdown: seq<ComparisonRow>)

  /** Ties go to PPF. */
  function Better(sip: real, ppf: real): (s: string)
    ensures s == "SIP" <==> sip > ppf
    ensures s == "PPF" <==> sip <= ppf
  {
    if sip > ppf then "SIP" else "PPF"
  }

  function CompareYear(ppfRows: seq<Row>, sipRows: seq<Row>, year: int): (c: ComparisonRow)
    ensures c.year == year
    ensures c.betterOption == Better(c.sipBalance, c.ppfBalance)
    ensures c.advantage == Abs(c.sipBalance - c.ppfBalance)
  {
    var p := Figures(Find(ppfRows, year));
    var s := Figures(Find(sipRows, year));
    ComparisonRow(year, p.invested, p.gain, p.balance, s.invested, s.gain, s.balance,
                  Better(s.balance, p.balance), Abs(s.balance - p.balance))
  }

  function CompareResults(ppf: InstrumentResult, sip: InstrumentResult, duration: int): (c: Comparison)
    ensures c.maturityDifference == Abs(sip.maturityValue - ppf.maturityValue)
    ensures c.betterOption == Better(sip.maturityValue, ppf.maturityValue)
    ensures var lo := Min(sip.maturityValue, ppf.maturityValue);
            c.advantagePercentage.Some? <==> lo != 0.0
    ensures |c.yearlyBreakdown| == (if duration > 0 then duration else 0)
    ensures forall k :: 0 <= k < |c.yearlyBreakdown| ==>
              c.yearlyBreakdown[k] == CompareYear(ppf.yearlyBreakdown, sip.yearlyBreakdown, k + 1)
  {
    var hi := Max(sip.maturityValue, ppf.maturityValue);
    var lo := Min(sip.maturityValue, ppf.maturityValue);
    var n := if duration > 0 then duration else 0;
    Comparison(Abs(sip.maturityValue - ppf.maturityValue), Better(sip.maturityValue, ppf.maturityValue),
               if lo == 0.0 then None else Some((hi - lo) / lo * 100.0),
               seq(n, k requires 0 <= k < n => CompareYear(ppf.yearlyBreakdown, sip.yearlyBreakdown, k + 1)))
  }

  /** For the calculators' own breakdowns, the comparison's year `y` shows
      year `y` of each, and the final row agrees with the headline verdict. */
  lemma ComparisonMatchesBreakdowns(i: Inputs, ppf: InstrumentResult, sip: InstrumentResult, y: int)
    requires i.duration >= 1 && 1 <= y <= i.duration
    requires |ppf.yearlyBreakdown| == i.duration && |sip.yearlyBreakdown| == i.duration
    requires forall k :: 0 <= k < i.duration ==> PpfRowOk(ppf.yearlyBreakdown[k], k, i.ppfMonthlyAmount * 12.0, i.ppfInterestRate / 100.0)
    requires forall k :: 0 <= k < i.duration ==> SipRowOk(sip.yearlyBreakdown[k], k, i.sipMonthlyAmount, i.sipReturnRate / 1200.0)
    requires ppf.maturityValue == ppf.yearlyBreakdown[i.duration - 1].balance
    requires sip.maturityValue == sip.yearlyBreakdown[i.duration - 1].balance
    ensures var c := CompareYear(ppf.yearlyBreakdown, sip.yearlyBreakdown, y);
            c.ppfBalance == ppf.yearlyBreakdown[y - 1].balance && c.sipBalance == sip.yearlyBreakdown[y - 1].balance
    ensures var last := CompareYear(ppf.yearlyBreakdown, sip.yearlyBreakdown, i.duration);
            last.betterOption == Better(sip.maturityValue, ppf.maturityValue)
  {
    forall k | 0 <= k < |ppf.yearlyBreakdown|
      ensures ppf.yearlyBreakdown[k].year == 1 + k
    {
      assert PpfRowOk(ppf.yearlyBreakdown[k], k, i.ppfMonthlyAmount * 12.0, i.ppfInterestRate / 100.0);
    }
    forall k | 0 <= k < |sip.yearlyBreakdown|
      ensures sip.yearlyBreakdown[k].year == 1 + k
    {
      assert SipRowOk(sip.yearlyBreakdown[k], k, i.sipMonthlyAmount, i.sipReturnRate / 1200.0);
    }
    FindNumbered(ppf.yearlyBreakdown, 1, y);
    FindNumbered(sip.yearlyBreakdown, 1, y);
    FindNumbered(ppf.yearlyBreakdown, 1, i.duration);
    FindNumbered(sip.yearlyBreakdown, 1, i.duration);
  }
}
