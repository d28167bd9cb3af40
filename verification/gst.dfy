/** GST calculator: adding GST to an exclusive amount or removing it from an
    inclusive one, and the saved-calculation history. */
module Gst {
  import opened Num
  import opened Results

  datatype CalculationType = Add | Remove

  datatype GstAmounts = GstAmounts(base: real, gst: real, total: real)

  datatype GstResult = GstResult(originalAmount: real, baseAmount: real, gstAmount: real,
                                 totalAmount: real, gstRate: real, calculationType: CalculationType)

  const MaxAmount: real := 20000000.0
  const HistoryLimit: nat := 50

  /** The page's checks: no negative amount, nothing above two crore. */
  function ValidateAmount(amount: real): (r: Result<real>)
    ensures r.Ok? <==> 0.0 <= amount <= MaxAmount
    ensures r.Ok? ==> r.value == amount
  {
    if amount < 0.0 then Err("Amount cannot be negative")
    else if amount > MaxAmount then Err("Amount cannot exceed ₹2,00,00,000")
    else Ok(amount)
  }

  /** The unrounded split of an amount into base and GST. */
  function Split(amount: real, rate: real, t: CalculationType): (r: GstAmounts)
    requires rate >= 0.0
    ensures r.base + r.gst == r.total
    ensures t == Add ==> r.base == amount && r.gst * 100.0 == amount * rate
    ensures t == Remove ==> r.total == amount && r.gst * (100.0 + rate) == amount * rate
    ensures rate == 0.0 ==> r.gst == 0.0 && r.base == amount && r.total == amount
    ensures amount >= 0.0 ==> 0.0 <= r.gst && 0.0 <= r.base <= r.total
  {
    match t
    case Add =>
      var gst := amount * (rate / 100.0);
      GstAmounts(amount, gst, amount + gst)
    case Remove =>
      var gst := amount * (rate / (100.0 + rate));
      assert amount >= 0.0 ==> gst <= amount by {
        if amount >= 0.0 { ScaleMono(amount, rate / (100.0 + rate), 1.0); }
      }
      GstAmounts(amount - gst, gst, amount)
  }

  function CalculateGstAmounts(amount: real, rate: real, t: CalculationType): (r: GstResult)
    requires rate >= 0.0
    ensures var s := Split(amount, rate, t);
            r.baseAmount == Round2(s.base) && r.gstAmount == Round2(s.gst) && r.totalAmount == Round2(s.total)
    ensures r.originalAmount == amount && r.gstRate == rate && r.calculationType == t
  {
    var s := Split(amount, rate, t);
    GstResult(amount, Round2(s.base), Round2(s.gst), Round2(s.total), rate, t)
  }

  /** Removing GST from the unrounded total of an addition, at the same
      rate, gives back the same base, GST and total. */
  lemma AddThenRemove(amount: real, rate: real)
    requires rate >= 0.0
    ensures Split(Split(amount, rate, Add).total, rate, Remove) == Split(amount, rate, Add)
  {
    var a := Split(amount, rate, Add);
    var total := amount + amount * (rate / 100.0);
    assert total == amount * (100.0 + rate) / 100.0;
    var g := total * (rate / (100.0 + rate));
    assert g == amount * (100.0 + rate) / 100.0 * rate / (100.0 + rate);
    assert g == amount * rate / 100.0;
  }

  /** Adding GST to the unrounded base of a removal gives back the inclusive
      amount. */
  lemma RemoveThenAdd(amount: real, rate: real)
    requires rate >= 0.0
    ensures Split(Split(amount, rate, Remove).base, rate, Add) == Split(amount, rate, Remove)
  {
    var g := amount * (rate / (100.0 + rate));
    var b := amount - g;
    assert b == amount * 100.0 / (100.0 + rate);
    assert b * (rate / 100.0) == amount * rate / (100.0 + rate);
  }

  /** The history after a save: the newest record first, at most fifty kept. */
  function SaveCalculation<T>(history: seq<T>, rec: T): (h: seq<T>)
    ensures |h| == if |history| < HistoryLimit then |history| + 1 else HistoryLimit
    ensures h[0] == rec
    ensures forall k :: 1 <= k < |h| ==> h[k] == history[k - 1]
  {
    var h := [rec] + history;
    if |h| > HistoryLimit then h[..HistoryLimit] else h
  }

  /** Saving repeatedly never lets the history exceed fifty entries, and the
      latest saves are kept newest first. */
  lemma {:induction false} HistoryBounded<T>(history: seq<T>, recs: seq<T>)
    requires |history| <= HistoryLimit
    ensures |SaveAll(history, recs)| <= HistoryLimit
    ensures |recs| > 0 ==> SaveAll(history, recs)[0] == recs[|recs| - 1]
  {
    if |recs| > 0 {
      HistoryBounded(history, recs[..|recs| - 1]);
    }
  }

  function SaveAll<T>(history: seq<T>, recs: seq<T>): seq<T>
  {
    if |recs| == 0 then history else SaveCalculation(SaveAll(history, recs[..|recs| - 1]), recs[|recs| - 1])
  }
}
