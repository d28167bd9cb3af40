/** Stock averaging: the purchase rows of the form, the purchases the page
    sends off (rows with a positive quantity and price, in form order), the
    totals its export computes from them, the numbering of the rows as they
    are added and removed, and the page's currency format. */
module StockAverage {
  import opened Num
  import opened Results
  import opened Currency
  import opened IndianDigits

  /** One purchase row of the form: its header number and its two entries. */
  datatype PurchaseRow = PurchaseRow(number: nat, shares: Field, price: Field)

  datatype Purchase = Purchase(shares: real, price: real)

  /** The market-price box drives the slider with its entry held to
      `[0.01, 5000]`, a missing or zero entry counting as 1. */
  function SliderPrice(entry: Field): (v: real)
    ensures 0.01 <= v <= 5000.0
    ensures 0.01 <= OrDefault(entry, 1.0) <= 5000.0 ==> v == OrDefault(entry, 1.0)
    ensures OrDefault(entry, 1.0) > 5000.0 ==> v == 5000.0
  {
    Max(Min(OrDefault(entry, 1.0), 5000.0), 0.01)
  }

  /** A row takes part when both entries, missing ones read as 0, are positive. */
  predicate Counted(row: PurchaseRow)
  {
    OrDefault(row.shares, 0.0) > 0.0 && OrDefault(row.price, 0.0) > 0.0
  }

  function Entry(row: PurchaseRow): Purchase
  {
    Purchase(OrDefault(row.shares, 0.0), OrDefault(row.price, 0.0))
  }

  predicate Positive(p: Purchase)
  {
    p.shares > 0.0 && p.price > 0.0
  }

  /** The purchases of the counted rows, in form order. */
  function Collect(rows: seq<PurchaseRow>): (ps: seq<Purchase>)
    ensures |ps| <= |rows|
    ensures forall k :: 0 <= k < |ps| ==> Positive(ps[k])
  {
    if |rows| == 0 then []
    else (if Counted(rows[0]) then [Entry(rows[0])] else []) + Collect(rows[1..])
  }

  /** Collecting is done row by row: two runs of rows give their purchases
      one after the other. */
  lemma {:induction false} CollectAppend(a: seq<PurchaseRow>, b: seq<PurchaseRow>)
    ensures Collect(a + b) == Collect(a) + Collect(b)
  {
    if |a| == 0 {
      assert a + b == b;
    } else {
      assert (a + b)[0] == a[0];
      assert (a + b)[1..] == a[1..] + b;
      CollectAppend(a[1..], b);
    }
  }

  /** Every counted row is sent, and an uncounted row adds nothing. */
  lemma {:induction false} CollectKeepsCounted(rows: seq<PurchaseRow>, k: nat)
    requires k < |rows|
    ensures Counted(rows[k]) ==> Entry(rows[k]) in Collect(rows)
    ensures !Counted(rows[k]) ==> Collect(rows) == Collect(rows[..k]) + Collect(rows[k + 1..])
  {
    assert rows == rows[..k] + [rows[k]] + rows[k + 1..];
    CollectAppend(rows[..k] + [rows[k]], rows[k + 1..]);
    CollectAppend(rows[..k], [rows[k]]);
    assert Collect([rows[k]]) == (if Counted(rows[k]) then [Entry(rows[k])] else []) + Collect([]);
  }

  /** What the page does with the form: with no purchase, or no positive
      market price, it shows zeros; otherwise it sends the purchases and
      the market price to the server. */
  datatype Outcome = Zeros | Send(purchases: seq<Purchase>, marketPrice: real)

  function CalculateAndUpdate(market: Field, rows: seq<PurchaseRow>): (o: Outcome)
    ensures o.Send? <==> |Collect(rows)| > 0 && OrDefault(market, 0.0) > 0.0
    ensures o.Send? ==> o.purchases == Collect(rows) && o.marketPrice > 0.0
  {
    var purchases := Collect(rows);
    var price := OrDefault(market, 0.0);
    if |purchases| == 0 || price <= 0.0 then Zeros else Send(purchases, price)
  }

  // ---- The export's figures -------------------------------------------------

  /** One purchase's line of the export. */
  datatype Line = Line(investment: real, currentValue: real, profitLoss: real, returnsPercent: real)

  function LineOf(p: Purchase, market: real): (l: Line)
    requires Positive(p)
    ensures l.investment > 0.0
    ensures l.profitLoss >= 0.0 <==> market >= p.price
  {
    var investment := p.shares * p.price;
    var value := p.shares * market;
    ChangeSign(p.shares, p.price, market);
    StrictScale(p.shares, 0.0, p.price);
    Line(investment, value, value - investment, (value - investment) / investment * 100.0)
  }

  /** A line's return is the price change in percent, whatever the quantity. */
  lemma LineReturnIsPriceChange(p: Purchase, market: real)
    requires Positive(p)
    ensures LineOf(p, market).returnsPercent == (market - p.price) / p.price * 100.0
  {
    var s, y := p.shares, (market - p.price) / p.price;
    assert y * p.price == market - p.price;
    assert s * market - s * p.price == y * (s * p.price);
  }

  /** The running totals of the export, added up in form order. */
  function TotalShares(ps: seq<Purchase>): real
  {
    if |ps| == 0 then 0.0 else TotalShares(ps[..|ps| - 1]) + ps[|ps| - 1].shares
  }

  function TotalInvestment(ps: seq<Purchase>): real
  {
    if |ps| == 0 then 0.0
    else TotalInvestment(ps[..|ps| - 1]) + ps[|ps| - 1].shares * ps[|ps| - 1].price
  }

  /** The sum of the lines' profit or loss. */
  function LinesProfit(ps: seq<Purchase>, market: real): real
    requires forall k :: 0 <= k < |ps| ==> Positive(ps[k])
  {
    if |ps| == 0 then 0.0
    else LinesProfit(ps[..|ps| - 1], market) + LineOf(ps[|ps| - 1], market).profitLoss
  }

  /** The summary's profit, the value at the market price less the total
      investment, is the sum of the lines' profits. */
  lemma {:induction false} TotalProfitIsSumOfLines(ps: seq<Purchase>, market: real)
    requires forall k :: 0 <= k < |ps| ==> Positive(ps[k])
    ensures TotalShares(ps) * market - TotalInvestment(ps) == LinesProfit(ps, market)
  {
    if |ps| > 0 {
      var init, last := ps[..|ps| - 1], ps[|ps| - 1];
      TotalProfitIsSumOfLines(init, market);
      assert (TotalShares(init) + last.shares) * market
             == TotalShares(init) * market + last.shares * market;
    }
  }

  /** With every price in `[lo, hi]` the investment lies between `lo` and
      `hi` times the shares bought. */
  lemma {:induction false} InvestmentBetween(ps: seq<Purchase>, lo: real, hi: real)
    requires forall k :: 0 <= k < |ps| ==> ps[k].shares >= 0.0 && lo <= ps[k].price <= hi
    ensures lo * TotalShares(ps) <= TotalInvestment(ps) <= hi * TotalShares(ps)
  {
    if |ps| > 0 {
      var init, last := ps[..|ps| - 1], ps[|ps| - 1];
      InvestmentBetween(init, lo, hi);
      assert last.shares >= 0.0 && lo <= last.price <= hi;
      ScaleMono(last.shares, lo, last.price);
      ScaleMono(last.shares, last.price, hi);
      assert lo * (TotalShares(init) + last.shares) == lo * TotalShares(init) + lo * last.shares;
      assert hi * (TotalShares(init) + last.shares) == hi * TotalShares(init) + hi * last.shares;
    }
  }

  lemma {:induction false} SharesPositive(ps: seq<Purchase>)
    requires forall k :: 0 <= k < |ps| ==> Positive(ps[k])
    ensures |ps| > 0 ==> TotalShares(ps) > 0.0 && TotalInvestment(ps) > 0.0
  {
    if |ps| > 0 {
      var last := ps[|ps| - 1];
      assert Positive(last);
      StrictScale(last.shares, 0.0, last.price);
      SharesPositive(ps[..|ps| - 1]);
    }
  }

  /** The export's summary; `None` is the `NaN` that dividing by a zero
      total gives. */
  datatype Summary = Summary(totalShares: real, totalInvestment: real, averagePrice: Option<real>,
                             currentValue: real, profitLoss: real, returnsPercent: Option<real>)

  function Summarize(ps: seq<Purchase>, market: real): (s: Summary)
    requires forall k :: 0 <= k < |ps| ==> Positive(ps[k])
    ensures s.averagePrice == AveragePrice(ps)
    ensures s.profitLoss == LinesProfit(ps, market)
    ensures s.totalShares == TotalShares(ps) && s.totalInvestment == TotalInvestment(ps)
    ensures s.currentValue == s.totalShares * market
    ensures s.profitLoss == s.currentValue - s.totalInvestment
    // the percentage is the profit over the investment, NaN for no purchases
    ensures s.returnsPercent.Some? <==> |ps| > 0
    ensures s.returnsPercent.Some? ==> s.returnsPercent.value * s.totalInvestment == s.profitLoss * 100.0
  {
    var shares, investment := TotalShares(ps), TotalInvestment(ps);
    var value := shares * market;
    var profit := value - investment;
    TotalProfitIsSumOfLines(ps, market);
    assert profit == LinesProfit(ps, market);
    SharesPositive(ps);
    var percent := Quotient(profit, investment);
    Summary(shares, investment, AveragePrice(ps), value, profit,
            if percent.Some? then Some(percent.value * 100.0) else None)
  }

  /** Total investment over total shares. */
  function AveragePrice(ps: seq<Purchase>): (avg: Option<real>)
    requires forall k :: 0 <= k < |ps| ==> Positive(ps[k])
    ensures avg.Some? <==> |ps| > 0
    ensures avg.Some? ==> avg.value * TotalShares(ps) == TotalInvestment(ps)
  {
    SharesPositive(ps);
    Quotient(TotalInvestment(ps), TotalShares(ps))
  }

  /** `a / b` where the only zero divisor that arises comes with `a` zero
      too, whose `NaN` is `None`. */
  function Quotient(a: real, b: real): (r: Option<real>)
    ensures r.Some? <==> b != 0.0
    ensures r.Some? ==> r.value * b == a
  {
    if b == 0.0 then None else Some(a / b)
  }

  /** The average price lies between the lowest and the highest price paid. */
  lemma AverageWithinPrices(ps: seq<Purchase>, lo: real, hi: real)
    requires |ps| > 0 && forall k :: 0 <= k < |ps| ==> Positive(ps[k]) && lo <= ps[k].price <= hi
    ensures var avg := AveragePrice(ps); avg.Some? && lo <= avg.value <= hi
  {
    SharesPositive(ps);
    InvestmentBetween(ps, lo, hi);
    var avg := AveragePrice(ps);
    var c, t := TotalShares(ps), TotalInvestment(ps);
    FactorBetween(avg.value, c, t, lo, hi);
  }

  /** `x` lies between `lo` and `hi` when `x * c` lies between their multiples by `c > 0`. */
  lemma FactorBetween(x: real, c: real, t: real, lo: real, hi: real)
    requires c > 0.0 && x * c == t && lo * c <= t <= hi * c
    ensures lo <= x <= hi
  {
    if x < lo {
      StrictScale(c, x, lo);
    }
    if x > hi {
      StrictScale(c, hi, x);
    }
  }

  /** For a positive quantity, the value change has the sign of the price change. */
  lemma ChangeSign(c: real, a: real, b: real)
    requires c > 0.0
    ensures c * b - c * a >= 0.0 <==> b >= a
  {
    if b >= a {
      ScaleMono(c, a, b);
    } else {
      StrictScale(c, b, a);
    }
  }

  lemma StrictScale(c: real, a: real, b: real)
    requires c > 0.0 && a < b
    ensures c * a < c * b
  {
  }

  // ---- Numbering of the rows -----------------------------------------------

  /** The rows in page order and the running purchase count new headers use. */
  datatype Sheet = Sheet(rows: seq<PurchaseRow>, count: nat)

  /** Rows numbered 1, 2, ... in order, with the count equal to the number of rows. */
  predicate WellNumbered(s: Sheet)
  {
    s.count == |s.rows| && forall k :: 0 <= k < |s.rows| ==> s.rows[k].number == k + 1
  }

  /** A new row is numbered one past the count and goes last. */
  function AddRow(s: Sheet, shares: Field, price: Field): (r: Sheet)
    ensures r.rows == s.rows + [PurchaseRow(s.count + 1, shares, price)]
    ensures WellNumbered(s) ==> WellNumbered(r)
  {
    Sheet(s.rows + [PurchaseRow(s.count + 1, shares, price)], s.count + 1)
  }

  /** The rows numbered 1, 2, ... in order, entries unchanged. */
  function Renumber(rows: seq<PurchaseRow>, first: nat): (r: seq<PurchaseRow>)
    ensures |r| == |rows|
    ensures forall k :: 0 <= k < |r| ==> r[k] == rows[k].(number := first + k)
  {
    if |rows| == 0 then [] else [rows[0].(number := first)] + Renumber(rows[1..], first + 1)
  }

  /** The page removes the first row with the given number, but only when
      it exists and is not the last row left, then renumbers the rest. */
  function RemoveRow(s: Sheet, number: nat): (r: Sheet)
    ensures |s.rows| >= 1 ==> |r.rows| >= 1
    ensures WellNumbered(s) ==> WellNumbered(r)
    ensures |s.rows| <= 1 || NumberIndex(s.rows, number).None? ==> r == s
    ensures |s.rows| > 1 && NumberIndex(s.rows, number).Some? ==>
              var k := NumberIndex(s.rows, number).value;
              |r.rows| == |s.rows| - 1 && WellNumbered(r)
              && r.rows == Renumber(s.rows[..k] + s.rows[k + 1..], 1)
  {
    var at := NumberIndex(s.rows, number);
    if |s.rows| <= 1 || at.None? then s
    else
      var rest := s.rows[..at.value] + s.rows[at.value + 1..];
      Sheet(Renumber(rest, 1), |rest|)
  }

  /** The position of the first row with the given number. */
  function NumberIndex(rows: seq<PurchaseRow>, number: nat): (i: Option<nat>)
    ensures i.Some? ==> i.value < |rows| && rows[i.value].number == number
    ensures i.Some? ==> forall k :: 0 <= k < i.value ==> rows[k].number != number
    ensures i.None? ==> forall k :: 0 <= k < |rows| ==> rows[k].number != number
  {
    if |rows| == 0 then None
    else if rows[0].number == number then Some(0)
    else
      var rest := NumberIndex(rows[1..], number);
      if rest.None? then None else Some(rest.value + 1)
  }

  /** In a well-numbered sheet removing row `k + 1` takes out the `k`-th row. */
  lemma RemoveFindsRow(s: Sheet, k: nat)
    requires WellNumbered(s) && k < |s.rows|
    ensures NumberIndex(s.rows, k + 1) == Some(k)
  {
    var at := NumberIndex(s.rows, k + 1);
    assert s.rows[k].number == k + 1;
    if at.Some? {
      assert s.rows[at.value].number == at.value + 1;
    }
  }

  /** The numbering plays no part in what is sent. */
  lemma {:induction false} RenumberKeepsPurchases(rows: seq<PurchaseRow>, first: nat)
    ensures Collect(Renumber(rows, first)) == Collect(rows)
  {
    if |rows| > 0 {
      RenumberKeepsPurchases(rows[1..], first + 1);
      assert Renumber(rows, first)[1..] == Renumber(rows[1..], first + 1);
    }
  }

  // ---- The currency format -------------------------------------------------

  /** The suffix each band is printed with. */
  function Suffix(b: Band): string
  {
    match b
    case Crore => " Cr"
    case Lakh => " L"
    case Thousand => " K"
    case Below => ""
  }

  /** A positive magnitude: two decimals of the band's unit with the band's
      suffix, or below 1000 the amount itself with Indian grouping. */
  function Magnitude(a: real): (s: string)
    requires a > 0.0
  {
    var b := BandOf(a);
    if b == Below then "₹" + LocaleFixed2(a)
    else "₹" + FixedAbs(InBandUnits(a), 2) + Suffix(b)
  }

  /** `formatCurrency`; `None` stands for `NaN`. */
  function FormatCurrency(amount: Option<real>): (s: string)
    ensures amount.None? || amount.value == 0.0 ==> s == "₹0.00"
    ensures amount.Some? && amount.value > 0.0 ==> s == Magnitude(amount.value)
    ensures amount.Some? && amount.value < 0.0 ==> s == "-" + Magnitude(-amount.value)
  {
    if amount.None? || amount.value == 0.0 then "₹0.00"
    else if amount.value < 0.0 then "-" + Magnitude(-amount.value)
    else Magnitude(amount.value)
  }

  /** An abbreviated amount shows its number of band units to within half
      a hundredth; a small one, without its commas, is its two-decimal text. */
  lemma MagnitudeReadsBack(a: real)
    requires a > 0.0
    ensures BandOf(a) != Below ==>
              Magnitude(a) == "₹" + FixedAbs(InBandUnits(a), 2) + Suffix(BandOf(a))
              && Abs(Shown(FixedAbs(InBandUnits(a), 2), 2) - InBandUnits(a)) <= HalfUnit(2)
    ensures BandOf(a) == Below ==>
              Magnitude(a) == "₹" + LocaleFixed2(a) && StripCommas(LocaleFixed2(a)) == FixedAbs(a, 2)
  {
    FixedIsClose(InBandUnits(a), 2);
  }

  /** `formatPercentage`. */
  function FormatPercentage(p: real): (s: string)
    ensures p >= 0.0 ==> s == FixedAbs(p, 2) + "%"
    ensures p < 0.0 ==> s == "-" + FixedAbs(-p, 2) + "%"
  {
    Fixed(p, 2) + "%"
  }
}
