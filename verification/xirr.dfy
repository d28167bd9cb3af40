/** The XIRR calculator page: collecting the dated cash flows from the
    input rows, the two validity checks made before a request is sent, the
    remove buttons that keep at least two rows on the page, and the
    formatting of the figures that come back. */
module Xirr {
  import opened Num
  import opened Results
  import opened Currency
  import opened Sorting

  /** One input row: the date as a day number (`None` when the date field
      is empty) and the amount (`None` when the amount field is empty). */
  datatype Row = Row(date: Option<int>, amount: Field)

  /** A cash flow sent for analysis. */
  datatype CashFlow = CashFlow(date: int, amount: real)

  /** A row is used when both fields are filled and the amount is not zero. */
  predicate Used(row: Row)
  {
    row.date.Some? && row.amount.Some? && row.amount.value != 0.0
  }

  function FlowOf(row: Row): CashFlow
    requires Used(row)
  {
    CashFlow(row.date.value, row.amount.value)
  }

  /** The used rows' cash flows, in page order. */
  function Entries(rows: seq<Row>): (fs: seq<CashFlow>)
    ensures |fs| <= |rows|
    ensures forall k :: 0 <= k < |fs| ==> fs[k].amount != 0.0
  {
    if |rows| == 0 then []
    else (if Used(rows[0]) then [FlowOf(rows[0])] else []) + Entries(rows[1..])
  }

  /** Earliest first is largest negated day first. */
  function Earliness(f: CashFlow): real
  {
    -(f.date as real)
  }

  /** The cash flows the page sends: the used rows, earliest date first,
      flows on the same date in page order. */
  function Collect(rows: seq<Row>): (fs: seq<CashFlow>)
    ensures multiset(fs) == multiset(Entries(rows))
    ensures forall i, j :: 0 <= i < j < |fs| ==> fs[i].date <= fs[j].date
  {
    var fs := SortDescendingBy(Entries(rows), Earliness);
    assert forall i, j :: 0 <= i < j < |fs| ==> Earliness(fs[i]) >= Earliness(fs[j]);
    fs
  }

  /** Every used row's cash flow is among the collected flows. */
  lemma {:induction false} EntriesHaveUsedRows(rows: seq<Row>, k: nat)
    requires k < |rows| && Used(rows[k])
    ensures FlowOf(rows[k]) in Entries(rows)
  {
    if k > 0 {
      EntriesHaveUsedRows(rows[1..], k - 1);
    }
  }

  /** Every collected flow comes from a used row. */
  lemma {:induction false} EntriesComeFromRows(rows: seq<Row>, f: CashFlow)
    requires f in Entries(rows)
    ensures exists k :: 0 <= k < |rows| && Used(rows[k]) && FlowOf(rows[k]) == f
  {
    if !(Used(rows[0]) && FlowOf(rows[0]) == f) {
      assert f in Entries(rows[1..]);
      EntriesComeFromRows(rows[1..], f);
      var k :| 0 <= k < |rows[1..]| && Used(rows[1..][k]) && FlowOf(rows[1..][k]) == f;
      assert rows[k + 1] == rows[1..][k];
    }
  }

  /** A flow is collected exactly when some used row carries it. */
  lemma CollectIsUsedRows(rows: seq<Row>, f: CashFlow)
    ensures f in Collect(rows) <==> exists k :: 0 <= k < |rows| && Used(rows[k]) && FlowOf(rows[k]) == f
  {
    if f in Collect(rows) {
      assert f in multiset(Entries(rows));
      EntriesComeFromRows(rows, f);
    }
    if exists k :: 0 <= k < |rows| && Used(rows[k]) && FlowOf(rows[k]) == f {
      var k :| 0 <= k < |rows| && Used(rows[k]) && FlowOf(rows[k]) == f;
      EntriesHaveUsedRows(rows, k);
      assert f in multiset(Collect(rows));
    }
  }

  /** Flows on one date keep the order of their rows. */
  lemma CollectKeepsSameDayOrder(rows: seq<Row>, day: int)
    ensures WithKey(Collect(rows), Earliness, -(day as real)) == WithKey(Entries(rows), Earliness, -(day as real))
  {
    var es := Entries(rows);
    SortKeepsTies(es, Earliness, -(day as real));
    assert Collect(rows) == SortDescendingBy(es, Earliness);
  }

  /** Flows already in date order are sent in page order. */
  lemma CollectKeepsOrderedRows(rows: seq<Row>)
    requires forall i, j :: 0 <= i < j < |Entries(rows)| ==> Entries(rows)[i].date <= Entries(rows)[j].date
    ensures Collect(rows) == Entries(rows)
  {
    var es := Entries(rows);
    assert DescendingBy(es, Earliness) by {
      forall i, j | 0 <= i < j < |es|
        ensures Earliness(es[i]) >= Earliness(es[j])
      {
        assert es[i].date <= es[j].date;
      }
    }
    SortedIsUnchanged(es, Earliness);
  }

  predicate HasInflow(fs: seq<CashFlow>)
  {
    exists k :: 0 <= k < |fs| && fs[k].amount > 0.0
  }

  predicate HasOutflow(fs: seq<CashFlow>)
  {
    exists k :: 0 <= k < |fs| && fs[k].amount < 0.0
  }

  /** The check on the collected flows: at least two, one positive and one
      negative. */
  function ValidateCashFlows(fs: seq<CashFlow>): (ok: bool)
    ensures ok <==> |fs| >= 2 && HasInflow(fs) && HasOutflow(fs)
  {
    if |fs| < 2 then false
    else (exists k :: 0 <= k < |fs| && fs[k].amount > 0.0) && (exists k :: 0 <= k < |fs| && fs[k].amount < 0.0)
  }

  /** Some used row has an amount satisfying `positive` (or a negative one). */
  predicate RowWithSign(rows: seq<Row>, positive: bool)
  {
    exists k :: 0 <= k < |rows| && Used(rows[k]) && (if positive then rows[k].amount.value > 0.0 else rows[k].amount.value < 0.0)
  }

  /** The check on the rows as they stand, made on every edit: a used row,
      a positive and a negative amount among the used rows, at least two
      rows on the page. */
  method ValidateInputs(rows: seq<Row>) returns (ok: bool)
    ensures ok <==> RowWithSign(rows, true) && RowWithSign(rows, false) && |rows| >= 2
  {
    var hasValidData, hasPositive, hasNegative := false, false, false;
    var i := 0;
    while i < |rows|
      invariant 0 <= i <= |rows|
      invariant hasPositive <==> RowWithSign(rows[..i], true)
      invariant hasNegative <==> RowWithSign(rows[..i], false)
      invariant hasValidData <==> exists k :: 0 <= k < i && Used(rows[k])
    {
      var row := rows[i];
      assert rows[..i + 1] == rows[..i] + [row];
      if Used(row) {
        hasValidData := true;
        if row.amount.value > 0.0 {
          hasPositive := true;
        }
        if row.amount.value < 0.0 {
          hasNegative := true;
        }
      }
      SignedRowsStep(rows, i, true);
      SignedRowsStep(rows, i, false);
      i := i + 1;
    }
    assert rows[..i] == rows;
    ok := hasValidData && hasPositive && hasNegative && |rows| >= 2;
  }

  lemma SignedRowsStep(rows: seq<Row>, i: nat, positive: bool)
    requires i < |rows|
    ensures RowWithSign(rows[..i + 1], positive) <==>
      RowWithSign(rows[..i], positive) || (Used(rows[i]) && (if positive then rows[i].amount.value > 0.0 else rows[i].amount.value < 0.0))
  {
    var p := rows[..i + 1];
    if RowWithSign(p, positive) && !(Used(rows[i]) && (if positive then rows[i].amount.value > 0.0 else rows[i].amount.value < 0.0)) {
      var k :| 0 <= k < |p| && Used(p[k]) && (if positive then p[k].amount.value > 0.0 else p[k].amount.value < 0.0);
      assert k < i && rows[..i][k] == p[k];
    }
    if RowWithSign(rows[..i], positive) {
      var k :| 0 <= k < i && Used(rows[..i][k]) && (if positive then rows[..i][k].amount.value > 0.0 else rows[..i][k].amount.value < 0.0);
      assert p[k] == rows[..i][k];
    }
    if Used(rows[i]) {
      assert p[i] == rows[i];
    }
  }

  /** Rows that pass give flows that pass. */
  lemma RowsValidGiveFlowsValid(rows: seq<Row>)
    requires RowWithSign(rows, true) && RowWithSign(rows, false)
    ensures ValidateCashFlows(Collect(rows))
  {
    var fs := Collect(rows);
    var a :| 0 <= a < |rows| && Used(rows[a]) && rows[a].amount.value > 0.0;
    var b :| 0 <= b < |rows| && Used(rows[b]) && rows[b].amount.value < 0.0;
    CollectIsUsedRows(rows, FlowOf(rows[a]));
    CollectIsUsedRows(rows, FlowOf(rows[b]));
    var i :| 0 <= i < |fs| && fs[i] == FlowOf(rows[a]);
    var j :| 0 <= j < |fs| && fs[j] == FlowOf(rows[b]);
    assert i != j;
  }

  /** Flows that pass come from rows that pass. */
  lemma FlowsValidGiveRowsValid(rows: seq<Row>)
    requires ValidateCashFlows(Collect(rows))
    ensures RowWithSign(rows, true) && RowWithSign(rows, false) && |rows| >= 2
  {
    var fs := Collect(rows);
    var i :| 0 <= i < |fs| && fs[i].amount > 0.0;
    var j :| 0 <= j < |fs| && fs[j].amount < 0.0;
    CollectIsUsedRows(rows, fs[i]);
    CollectIsUsedRows(rows, fs[j]);
    assert |fs| == |Entries(rows)| by {
      assert |multiset(fs)| == |multiset(Entries(rows))|;
    }
  }

  /** The two checks agree: the rows pass exactly when the flows collected
      from them do. */
  lemma InputsValidIffFlowsValid(rows: seq<Row>)
    ensures (RowWithSign(rows, true) && RowWithSign(rows, false) && |rows| >= 2) <==> ValidateCashFlows(Collect(rows))
  {
    if RowWithSign(rows, true) && RowWithSign(rows, false) {
      RowsValidGiveFlowsValid(rows);
    }
    if ValidateCashFlows(Collect(rows)) {
      FlowsValidGiveRowsValid(rows);
    }
  }

  /** What a calculation does with the collected flows. */
  datatype Outcome = Cleared | Send(flows: seq<CashFlow>)

  /** Fewer than two flows, or flows that fail the check, clear the results;
      otherwise the sorted flows are sent. */
  function CalculateOutcome(rows: seq<Row>): (o: Outcome)
    ensures o.Send? <==> RowWithSign(rows, true) && RowWithSign(rows, false) && |rows| >= 2
    ensures o.Send? ==> o.flows == Collect(rows) && |o.flows| >= 2
  {
    InputsValidIffFlowsValid(rows);
    var fs := Collect(rows);
    if |fs| < 2 then Cleared
    else if !ValidateCashFlows(fs) then Cleared
    else Send(fs)
  }

  /** The rows on the page as far as their remove buttons are concerned. */
  datatype Line = Line(id: nat, shown: bool)

  /** The rows and the counter that numbers new rows (it never goes back). */
  datatype Page = Page(lines: seq<Line>, counter: nat)

  /** A new row takes the next number; its button is hidden for the first
      two rows ever added and shown after. The other buttons stay as they were. */
  function AddRow(p: Page): (q: Page)
    ensures q.counter == p.counter + 1
    ensures q.lines == p.lines + [Line(q.counter, q.counter > 2)]
  {
    Page(p.lines + [Line(p.counter + 1, p.counter + 1 > 2)], p.counter + 1)
  }

  /** After a removal every button is shown exactly when more than two rows remain. */
  function UpdateButtons(lines: seq<Line>): (r: seq<Line>)
    ensures |r| == |lines|
    ensures forall k :: 0 <= k < |r| ==> r[k] == Line(lines[k].id, |lines| > 2)
  {
    seq(|lines|, k requires 0 <= k < |lines| => Line(lines[k].id, |lines| > 2))
  }

  /** The position of the first row numbered `id`. */
  function IndexOf(lines: seq<Line>, id: nat): (r: Option<nat>)
    ensures r.Some? ==> r.value < |lines| && lines[r.value].id == id
    ensures r.None? ==> forall k :: 0 <= k < |lines| ==> lines[k].id != id
  {
    if |lines| == 0 then None
    else if lines[0].id == id then Some(0)
    else match IndexOf(lines[1..], id)
      case None => None
      case Some(k) => Some(k + 1)
  }

  /** Removes the row numbered `id`, if there is one, and updates the buttons. */
  function RemoveRow(p: Page, id: nat): (q: Page)
    ensures q.counter == p.counter
    ensures IndexOf(p.lines, id).None? ==> q == p
    ensures IndexOf(p.lines, id).Some? ==>
      var k := IndexOf(p.lines, id).value;
      q.lines == UpdateButtons(p.lines[..k] + p.lines[k + 1..]) && |q.lines| == |p.lines| - 1
  {
    match IndexOf(p.lines, id)
    case None => p
    case Some(k) => Page(UpdateButtons(p.lines[..k] + p.lines[k + 1..]), p.counter)
  }

  /** What the user can do: add a row, or press the remove button of a row. */
  datatype Action = Add | Press(id: nat)

  /** A button can only be pressed while it is shown. */
  function Step(p: Page, a: Action): Page
  {
    match a
    case Add => AddRow(p)
    case Press(id) =>
      match IndexOf(p.lines, id)
      case Some(k) => if p.lines[k].shown then RemoveRow(p, id) else p
      case None => p
  }

  function Run(p: Page, actions: seq<Action>): Page
    decreases |actions|
  {
    if |actions| == 0 then p else Run(Step(p, actions[0]), actions[1..])
  }

  /** The page the calculator opens with: three sample rows. */
  function Initial(): (p: Page)
    ensures |p.lines| == 3 && p.counter == 3
  {
    AddRow(AddRow(AddRow(Page([], 0))))
  }

  /** At least two rows, and a shown button only when more than two rows exist. */
  predicate Sound(p: Page)
  {
    |p.lines| >= 2 && forall k :: 0 <= k < |p.lines| && p.lines[k].shown ==> |p.lines| > 2
  }

  lemma StepKeepsSound(p: Page, a: Action)
    requires Sound(p)
    ensures Sound(Step(p, a))
  {
    match a
    case Add =>
      var q := AddRow(p);
      assert forall k :: 0 <= k < |p.lines| ==> q.lines[k] == p.lines[k];
    case Press(id) =>
  }

  /** However the user adds and removes rows, the page keeps at least two. */
  lemma {:induction false} RunKeepsTwoRows(actions: seq<Action>)
    ensures Sound(Run(Initial(), actions)) && |Run(Initial(), actions).lines| >= 2
  {
    var p := Initial();
    assert p.lines[0].shown == false && p.lines[1].shown == false;
    RunKeepsSound(p, actions);
  }

  lemma {:induction false} RunKeepsSound(p: Page, actions: seq<Action>)
    requires Sound(p)
    ensures Sound(Run(p, actions))
    decreases |actions|
  {
    if |actions| > 0 {
      StepKeepsSound(p, actions[0]);
      RunKeepsSound(Step(p, actions[0]), actions[1..]);
    }
  }

  /** The digits after the point in each band: two for crores and lakhs,
      one for thousands. */
  function Places(b: Band): (p: nat)
    ensures p >= 1
  {
    if b == Thousand then 1 else 2
  }

  /** The summary cards' amounts: "₹0" for a missing figure, the signed
      count of crores, lakhs or thousands with its tag, and below a
      thousand the locale text `small` of the amount. */
  function FormatCurrency(amount: Field, small: string): (s: string)
    ensures amount.None? ==> s == "₹0"
    ensures |s| >= 1 && s[0] == '₹'
  {
    match amount
    case None => "₹0"
    case Some(a) =>
      var b := BandOf(Abs(a));
      if b == Below then "₹" + small
      else "₹" + Fixed(BandCount(a), Places(b)) + Tag(b)
  }

  /** An amount of a thousand or more shows its band count with the band's
      tag, and the count read back lies within half a unit of its last digit. */
  lemma FormatReadsBack(a: real, small: string)
    requires Abs(a) >= 1000.0
    ensures var b := BandOf(Abs(a));
      var f := Fixed(BandCount(a), Places(b));
      FormatCurrency(Some(a), small) == "₹" + f + Tag(b) &&
      Abs(ReadFixed(f, Places(b)) - BandCount(a)) <= HalfUnit(Places(b))
  {
    ReadFixedIsClose(BandCount(a), Places(BandOf(Abs(a))));
  }

  /** The shown count carries a minus sign exactly when the amount is negative. */
  lemma FormatShowsSign(a: real, small: string)
    requires Abs(a) >= 1000.0
    ensures var s := FormatCurrency(Some(a), small);
      |s| >= 2 && (s[1] == '-' <==> a < 0.0)
  {
    var b := BandOf(Abs(a));
    var q := BandCount(a);
    FormatReadsBack(a, small);
    assert a < 0.0 <==> q < 0.0;
    LeadingMinus(q, Places(b), Tag(b));
  }

  /** Text after the rupee sign starts with a minus exactly for a negative count. */
  lemma LeadingMinus(q: real, p: nat, tag: string)
    requires p >= 1
    ensures var s := "₹" + Fixed(q, p) + tag;
      |s| >= 2 && (s[1] == '-' <==> q < 0.0)
  {
    var f := Fixed(q, p);
    if q >= 0.0 {
      assert DecimalText(f) && f[0] != '-';
    }
    assert ("₹" + f + tag)[1] == f[0];
  }

  /** The net gain card: the magnitude's format, after a minus sign when
      the investment lost money. */
  function NetGainText(net: real, small: string): (s: string)
    ensures |s| >= 1 && (s[0] == '-' <==> net < 0.0)
  {
    var magnitude := FormatCurrency(Some(Abs(net)), small);
    if net < 0.0 then "-" + magnitude else magnitude
  }

  /** A loss and a gain of the same size differ only by the leading minus. */
  lemma NetGainIsSymmetric(x: real, small: string)
    requires x > 0.0
    ensures NetGainText(-x, small) == "-" + NetGainText(x, small)
  {
  }

  /** The XIRR card: the rate to two places with a percent sign, or "N/A"
      when none came back. */
  function RateText(rate: Field): (s: string)
    ensures rate.None? <==> s == "N/A"
  {
    match rate
    case None => "N/A"
    case Some(r) => Fixed(r, 2) + "%"
  }

  /** The rate in the confirmation message as written: a rate of exactly
      zero is falsy and reads "N/A". */
  function MessageRateAsWritten(rate: Field): string
  {
    match rate
    case None => "N/A"
    case Some(r) => if r == 0.0 then "N/A" else Fixed(r, 2) + "%"
  }

  /** A zero rate shows "0.00%" on the card and "N/A" in the message. */
  lemma ZeroRateReadsNotAvailable()
    ensures MessageRateAsWritten(Some(0.0)) == "N/A"
    ensures RateText(Some(0.0)) != "N/A"
  {
  }

  /** The message's rate as intended: the card's text. */
  function MessageRate(rate: Field): (s: string)
    ensures s == "N/A" <==> rate.None?
    ensures rate.Some? ==> |s| >= 1 && s[|s| - 1] == '%'
  {
    RateText(rate)
  }

  /** Apart from a zero rate, the written and intended messages agree. */
  lemma MessageAgreesOffZero(rate: Field)
    requires rate != Some(0.0)
    ensures MessageRateAsWritten(rate) == MessageRate(rate)
  {
  }
}
