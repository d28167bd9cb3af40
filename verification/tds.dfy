/** TDS calculator: per-section rate tables for the old and new regimes,
    the threshold rule, the new-regime section 194A slabs, and the net
    payment after deduction. */
module Tds {
  import opened Num
  import opened Results

  /** One row of a slab list; `max` absent means unbounded. */
  datatype Slab = Slab(min: real, max: Option<real>, rate: real)

  /** A section's entry: either flat rates, or (194A under the new regime)
      slabs when the payee has a PAN. */
  datatype RateConfig =
    | Flat(panRate: real, noPanRate: real, threshold: real)
    | PanSlabs(noPanRate: real, threshold: real, panSlabs: seq<Slab>, noPanSlabs: seq<Slab>)
  {
    function Threshold(): real
    {
      match this
      case Flat(_, _, t) => t
      case PanSlabs(_, t, _, _) => t
    }
  }

  datatype TdsResult = TdsResult(
    paymentAmount: real, tdsAmount: real, netAmount: real,
    applicableRate: real, threshold: real, tdsPercentage: real)

  const OldRates: map<string, RateConfig> := map[
    "192A" := Flat(10.0, 20.0, 30000.0), "194A" := Flat(10.0, 20.0, 40000.0),
    "194H" := Flat(5.0, 20.0, 15000.0), "194I" := Flat(10.0, 20.0, 240000.0),
    "194J" := Flat(10.0, 20.0, 30000.0), "194C" := Flat(1.0, 20.0, 30000.0),
    "194D" := Flat(5.0, 20.0, 15000.0), "194G" := Flat(5.0, 20.0, 15000.0),
    "194K" := Flat(10.0, 20.0, 25000.0), "194LA" := Flat(10.0, 20.0, 250000.0),
    "194M" := Flat(0.1, 5.0, 500000.0), "194N" := Flat(2.0, 2.0, 1000000.0),
    "194O" := Flat(1.0, 5.0, 500000.0)]

  const Slabs194A: RateConfig := PanSlabs(20.0, 50000.0,
    [Slab(0.0, Some(50000.0), 0.0), Slab(50001.0, Some(500000.0), 10.0), Slab(500001.0, None, 15.0)],
    [Slab(0.0, Some(50000.0), 0.0), Slab(50001.0, None, 20.0)])

  const NewRates: map<string, RateConfig> := OldRates["194A" := Slabs194A]

  /** The table for the regime ('new' selects the new one) and the section's
      entry, falling back to 194A for an unknown section. */
  function RateConfigFor(regimeType: string, paymentType: string): (c: RateConfig)
    ensures var table := if regimeType == "new" then NewRates else OldRates;
            c == (if paymentType in table then table[paymentType] else table["194A"])
    ensures regimeType != "new" ==> c.Flat?
    ensures c.PanSlabs? <==> regimeType == "new" && (paymentType == "194A" || paymentType !in OldRates)
  {
    var table := if regimeType == "new" then NewRates else OldRates;
    if paymentType in table then table[paymentType] else table["194A"]
  }

  predicate InSlab(s: Slab, amount: real)
  {
    s.min <= amount && (s.max.None? || amount <= s.max.value)
  }

  /** The rate of the first slab containing the amount, if any. */
  function FirstSlabRate(slabs: seq<Slab>, amount: real): (r: Option<real>)
    ensures r.Some? <==> exists k :: 0 <= k < |slabs| && InSlab(slabs[k], amount)
    ensures r.Some? ==> exists k :: 0 <= k < |slabs| && InSlab(slabs[k], amount) && slabs[k].rate == r.value
                          && forall j :: 0 <= j < k ==> !InSlab(slabs[j], amount)
  {
    if |slabs| == 0 then None
    else if InSlab(slabs[0], amount) then Some(slabs[0].rate)
    else
      var r := FirstSlabRate(slabs[1..], amount);
      assert forall k :: 1 <= k < |slabs| ==> slabs[k] == slabs[1..][k - 1];
      r
  }

  /** Rate and TDS before rounding. */
  function RateAndTds(config: RateConfig, panAvailable: string, amount: real): (rt: (real, real))
    ensures amount < config.Threshold() ==> rt == (0.0, 0.0)
    ensures config.Flat? && amount >= config.Threshold() ==>
              rt.0 == (if panAvailable == "yes" then config.panRate else config.noPanRate)
              && rt.1 == amount * rt.0 / 100.0
    ensures config.PanSlabs? && panAvailable != "yes" && amount >= config.Threshold() ==>
              rt.0 == config.noPanRate && rt.1 == amount * rt.0 / 100.0
    ensures config.PanSlabs? && panAvailable == "yes" && amount >= config.Threshold() ==>
              match FirstSlabRate(config.panSlabs, amount)
              case None => rt == (0.0, 0.0)
              case Some(rate) => rt.0 == rate && rt.1 == amount * rate / 100.0
  {
    if amount < config.Threshold() then (0.0, 0.0)
    else match config
      case Flat(panRate, noPanRate, _) =>
        var rate := if panAvailable == "yes" then panRate else noPanRate;
        (rate, amount * rate / 100.0)
      case PanSlabs(noPanRate, _, panSlabs, _) =>
        if panAvailable == "yes" then
          match FirstSlabRate(panSlabs, amount)
          case None => (0.0, 0.0)
          case Some(rate) => (rate, amount * rate / 100.0)
        else (noPanRate, amount * noPanRate / 100.0)
  }

  /** The client-side TDS computation; amounts are rounded to paise. */
  function CalculateTds(regimeType: string, panAvailable: string, paymentType: string, amount: real): (r: TdsResult)
    ensures var rt := RateAndTds(RateConfigFor(regimeType, paymentType), panAvailable, amount);
            && r.applicableRate == rt.0
            && r.tdsAmount == Round2(rt.1)
            && r.netAmount == Round2(amount - rt.1)
    ensures r.tdsPercentage == r.applicableRate
    ensures r.threshold == RateConfigFor(regimeType, paymentType).Threshold()
    ensures amount < r.threshold ==> r.tdsAmount == 0.0 && r.applicableRate == 0.0
  {
    var config := RateConfigFor(regimeType, paymentType);
    var rt := RateAndTds(config, panAvailable, amount);
    TdsResult(amount, Round2(rt.1), Round2(amount - rt.1), rt.0, config.Threshold(), rt.0)
  }

  /** The page refuses a non-positive payment before computing anything. */
  function CalculateTdsChecked(regimeType: string, panAvailable: string, paymentType: string, amount: real): (r: Result<TdsResult>)
    ensures r.Err? <==> amount <= 0.0
    ensures r.Ok? ==> r.value == CalculateTds(regimeType, panAvailable, paymentType, amount)
  {
    if amount <= 0.0 then Err("Please enter a valid payment amount")
    else Ok(CalculateTds(regimeType, panAvailable, paymentType, amount))
  }

  /** Every rate in either table, flat or slab, lies between 0 and 20%. */
  predicate RatesAtMost20(c: RateConfig)
  {
    match c
    case Flat(p, n, _) => 0.0 <= p <= 20.0 && 0.0 <= n <= 20.0
    case PanSlabs(n, _, slabs, _) =>
      0.0 <= n <= 20.0 && forall k :: 0 <= k < |slabs| ==> 0.0 <= slabs[k].rate <= 20.0
  }

  lemma TablesRatesAtMost20(regimeType: string, paymentType: string)
    ensures RatesAtMost20(RateConfigFor(regimeType, paymentType))
  {
    var slabs := Slabs194A.panSlabs;
    assert forall k :: 0 <= k < |slabs| ==> 0.0 <= slabs[k].rate <= 20.0;
  }

  /** The deduction never exceeds a fifth of the payment, so the net
      payment (before rounding) keeps at least 80% of it. */
  lemma TdsWithinPayment(regimeType: string, panAvailable: string, paymentType: string, amount: real)
    requires amount >= 0.0
    ensures var rt := RateAndTds(RateConfigFor(regimeType, paymentType), panAvailable, amount);
            0.0 <= rt.0 <= 20.0 && 0.0 <= rt.1 <= amount * 0.2
  {
    var c := RateConfigFor(regimeType, paymentType);
    TablesRatesAtMost20(regimeType, paymentType);
    RateBounded(c, panAvailable, amount);
    var rt := RateAndTds(c, panAvailable, amount);
    TdsBound(amount, rt.0, rt.1);
  }

  /** Whatever the configuration picks, the deduction is the payment at
      the picked rate, and that rate lies within the table's bounds. */
  lemma RateBounded(c: RateConfig, panAvailable: string, amount: real)
    requires RatesAtMost20(c)
    ensures var rt := RateAndTds(c, panAvailable, amount);
            0.0 <= rt.0 <= 20.0 && IsRateShare(rt.1, amount, rt.0)
  {
    if amount >= c.Threshold() && c.PanSlabs? && panAvailable == "yes" {
      var fr := FirstSlabRate(c.panSlabs, amount);
      if fr.Some? {
        var k :| 0 <= k < |c.panSlabs| && InSlab(c.panSlabs[k], amount) && c.panSlabs[k].rate == fr.value;
      }
    }
  }

  /** `tds` is `rate` percent of `amount`. */
  predicate IsRateShare(tds: real, amount: real, rate: real)
  {
    tds == amount * rate / 100.0
  }

  lemma TdsBound(amount: real, rate: real, tds: real)
    requires amount >= 0.0 && 0.0 <= rate <= 20.0 && IsRateShare(tds, amount, rate)
    ensures 0.0 <= tds <= amount * 0.2
  {
    ScaleMono(amount, 0.0, rate);
    ScaleMono(amount, rate, 20.0);
  }

  /** Net payment and deduction, each rounded to paise, add back up to the
      payment to within a paisa. */
  lemma NetPlusTdsIsPayment(regimeType: string, panAvailable: string, paymentType: string, amount: real)
    ensures var r := CalculateTds(regimeType, panAvailable, paymentType, amount);
            Abs(r.netAmount + r.tdsAmount - amount) <= 0.01
  {
    var rt := RateAndTds(RateConfigFor(regimeType, paymentType), panAvailable, amount);
    var r := CalculateTds(regimeType, panAvailable, paymentType, amount);
    assert rt.1 - 0.005 < r.tdsAmount <= rt.1 + 0.005;
    assert amount - rt.1 - 0.005 < r.netAmount <= amount - rt.1 + 0.005;
    AbsWithin(r.netAmount + r.tdsAmount - amount, 0.01);
  }

  /** Every flat rate in either table is positive. */
  predicate PositiveFlatRates(c: RateConfig)
  {
    c.Flat? ==> c.panRate > 0.0 && c.noPanRate > 0.0
  }

  lemma TablesPositiveFlatRates(regimeType: string, paymentType: string)
    ensures PositiveFlatRates(RateConfigFor(regimeType, paymentType))
  {
  }

  /** For a flat-rate section the threshold is sharp: a positive payment
      has tax deducted exactly when it reaches the threshold, and the
      deduction never falls as the payment grows. */
  lemma FlatThresholdIsSharp(regimeType: string, panAvailable: string, paymentType: string, a: real, b: real)
    requires RateConfigFor(regimeType, paymentType).Flat? && 0.0 < a <= b
    ensures var c := RateConfigFor(regimeType, paymentType);
            RateAndTds(c, panAvailable, a).1 > 0.0 <==> a >= c.Threshold()
    ensures var c := RateConfigFor(regimeType, paymentType);
            RateAndTds(c, panAvailable, a).1 <= RateAndTds(c, panAvailable, b).1
  {
    TablesPositiveFlatRates(regimeType, paymentType);
    FlatConfigIsSharp(RateConfigFor(regimeType, paymentType), panAvailable, a, b);
  }

  lemma FlatConfigIsSharp(c: RateConfig, panAvailable: string, a: real, b: real)
    requires c.Flat? && PositiveFlatRates(c) && 0.0 < a <= b
    ensures RateAndTds(c, panAvailable, a).1 > 0.0 <==> a >= c.Threshold()
    ensures RateAndTds(c, panAvailable, a).1 <= RateAndTds(c, panAvailable, b).1
  {
    var rate := if panAvailable == "yes" then c.panRate else c.noPanRate;
    var ta, tb := RateAndTds(c, panAvailable, a).1, RateAndTds(c, panAvailable, b).1;
    if a >= c.Threshold() {
      ShareGrows(a, b, rate, ta, tb);
    } else if b >= c.Threshold() {
      ShareGrows(b, b, rate, tb, tb);
    }
  }

  /** A positive rate takes a positive share that grows with the amount. */
  lemma ShareGrows(a: real, b: real, rate: real, ta: real, tb: real)
    requires 0.0 < a <= b && rate > 0.0 && IsRateShare(ta, a, rate) && IsRateShare(tb, b, rate)
    ensures 0.0 < ta <= tb
  {
    ScaleMono(rate, a, b);
    assert a * rate > 0.0;
  }

  /** The new-regime 194A slabs for a payee with a PAN, on whole-rupee
      amounts: nothing up to 50000, 10% up to 5 lakh, 15% above. */
  lemma Slabs194AOnWholeRupees(n: int)
    requires n >= 50000
    ensures var r := CalculateTds("new", "yes", "194A", n as real);
            && (n == 50000 ==> r.applicableRate == 0.0)
            && (50001 <= n <= 500000 ==> r.applicableRate == 10.0)
            && (n >= 500001 ==> r.applicableRate == 15.0)
  {
    var slabs := Slabs194A.panSlabs;
    var a := n as real;
    if n == 50000 {
      assert InSlab(slabs[0], a);
    } else if n <= 500000 {
      assert !InSlab(slabs[0], a) && InSlab(slabs[1], a);
    } else {
      assert !InSlab(slabs[0], a) && !InSlab(slabs[1], a) && InSlab(slabs[2], a);
    }
  }

  /** A payee without a PAN under 194A (new regime) is not taxed by the
      slab list: the flat 20% applies from the 50000 threshold, so exactly
      50000 already pays 20%. */
  lemma NoPanIgnoresSlabs(amount: real)
    requires amount >= 50000.0
    ensures CalculateTds("new", "no", "194A", amount).applicableRate == 20.0
  {
  }

  /** As written, an amount between two slabs (after 50000 or after
      500000, by less than a rupee) matches no slab and pays nothing:
      500000.50 pays no TDS although 500000 pays 50000. */
  lemma GapAmountPaysNothing()
    ensures CalculateTds("new", "yes", "194A", 500000.5).tdsAmount == 0.0
    ensures CalculateTds("new", "yes", "194A", 500000.0).tdsAmount == 50000.0
  {
    var slabs := Slabs194A.panSlabs;
    assert !InSlab(slabs[0], 500000.5) && !InSlab(slabs[1], 500000.5) && !InSlab(slabs[2], 500000.5);
    assert InSlab(slabs[1], 500000.0);
    assert Round(5000000000.0) == 5000000000;
  }

  /** The evidently intended 194A slabs: each slab starts where the previous
      one ends, so every amount from the threshold on has a rate. */
  function CorrectedSlabRate(amount: real): (rate: real)
    ensures amount <= 50000.0 ==> rate == 0.0
    ensures 50000.0 < amount <= 500000.0 ==> rate == 10.0
    ensures amount > 500000.0 ==> rate == 15.0
  {
    if amount <= 50000.0 then 0.0 else if amount <= 500000.0 then 10.0 else 15.0
  }

  /** New-regime 194A TDS for a payee with a PAN, with contiguous slabs. */
  function CorrectedTds194A(amount: real): (tds: real)
    ensures amount < 50000.0 ==> tds == 0.0
    ensures amount >= 50000.0 ==> tds == amount * CorrectedSlabRate(amount) / 100.0
  {
    if amount < 50000.0 then 0.0 else amount * CorrectedSlabRate(amount) / 100.0
  }

  /** With contiguous slabs the deduction never falls as the amount grows,
      and it agrees with the script on every whole-rupee amount. */
  lemma CorrectedTdsMonotone(a: real, b: real)
    requires 0.0 <= a <= b
    ensures CorrectedTds194A(a) <= CorrectedTds194A(b)
  {
    var ra, rb := CorrectedSlabRate(a), CorrectedSlabRate(b);
    if a >= 50000.0 {
      assert ra <= rb;
      ScaleMono(ra, a, b);
      ScaleMono(b, ra, rb);
      assert a * ra <= b * rb;
    }
  }

  lemma CorrectedAgreesOnWholeRupees(n: int)
    requires n >= 0
    ensures CorrectedTds194A(n as real) == RateAndTds(Slabs194A, "yes", n as real).1
  {
    if n >= 50000 {
      var slabs := Slabs194A.panSlabs;
      var a := n as real;
      if n == 50000 {
        assert InSlab(slabs[0], a);
      } else if n <= 500000 {
        assert !InSlab(slabs[0], a) && InSlab(slabs[1], a);
      } else {
        assert !InSlab(slabs[0], a) && !InSlab(slabs[1], a) && InSlab(slabs[2], a);
      }
    }
  }
}
