/** Loan-amount page: splitting the tenure field into the years and months
    of the request. */
module LoanAmount {
  import opened Num
  import Tenure

  /** JavaScript's `v % 12` on a real: the remainder after removing whole
      dozens towards zero, with the sign of `v`. */
  function JsRemReal12(v: real): (r: real)
    ensures v >= 0.0 ==> 0.0 <= r < 12.0 && r == v - 12.0 * Floor(v / 12.0) as real
    ensures v < 0.0 ==> -12.0 < r <= 0.0 && r == v - 12.0 * Ceil(v / 12.0) as real
  {
    if v >= 0.0 then v - 12.0 * Floor(v / 12.0) as real else v - 12.0 * Ceil(v / 12.0) as real
  }

  datatype TenureParts = TenureParts(years: int, months: int)

  /** Years and months as the page derives them, before the one-month
      minimum (the summary used for export shows these). */
  function SplitTenure(tenureValue: real, unit: Tenure.Unit): (p: TenureParts)
    ensures unit == Tenure.Years ==> p.years == Floor(tenureValue) && 0 <= p.months <= 12
    ensures unit == Tenure.Months ==> p.years == Floor(tenureValue / 12.0)
    ensures unit == Tenure.Months && tenureValue >= 0.0 ==> 0 <= p.months <= 12
  {
    match unit
    case Years =>
      var y := Floor(tenureValue);
      TenureParts(y, Round((tenureValue - y as real) * 12.0))
    case Months =>
      TenureParts(Floor(tenureValue / 12.0), Round(JsRemReal12(tenureValue)))
  }

  /** The request's years and months: as split, but never zero in total. */
  function RequestTenure(tenureValue: real, unit: Tenure.Unit): (p: TenureParts)
    ensures !(p.years == 0 && p.months == 0)
    ensures var s := SplitTenure(tenureValue, unit);
            p == (if s.years == 0 && s.months == 0 then TenureParts(0, 1) else s)
  {
    var s := SplitTenure(tenureValue, unit);
    if s.years == 0 && s.months == 0 then TenureParts(0, 1) else s
  }

  /** Rounding commutes with adding a whole number. */
  lemma RoundShift(x: real, n: int)
    ensures Round(x + n as real) == Round(x) + n
  {
  }

  /** For a non-negative field the split adds back up to the field's value
      in whole months (12 v in years mode, v in months mode). */
  lemma SplitRecombines(tenureValue: real, unit: Tenure.Unit)
    requires tenureValue >= 0.0
    ensures var p := SplitTenure(tenureValue, unit);
            12 * p.years + p.months
              == (if unit == Tenure.Years then Round(tenureValue * 12.0) else Round(tenureValue))
  {
    var p := SplitTenure(tenureValue, unit);
    if unit == Tenure.Years {
      var y := Floor(tenureValue);
      RoundShift((tenureValue - y as real) * 12.0, 12 * y);
      assert (tenureValue - y as real) * 12.0 + (12 * y) as real == tenureValue * 12.0;
    } else {
      var y := Floor(tenureValue / 12.0);
      RoundShift(JsRemReal12(tenureValue), 12 * y);
    }
  }

  /** In particular a whole number of months is split exactly. */
  lemma WholeMonthsSplitExactly(m: int)
    requires m >= 0
    ensures var p := SplitTenure(m as real, Tenure.Months);
            12 * p.years + p.months == m && 0 <= p.months < 12
  {
    SplitRecombines(m as real, Tenure.Months);
    RoundOfInteger(m);
    var p := SplitTenure(m as real, Tenure.Months);
    assert p.months as real == JsRemReal12(m as real) by {
      var r := JsRemReal12(m as real);
      assert r == (m - 12 * p.years) as real;
      RoundOfInteger(m - 12 * p.years);
    }
  }
}
