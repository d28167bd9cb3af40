/** Marginal-rate tax brackets, the reference definition every hand-written
    slab function of the calculators is checked against: income inside a
    bracket is taxed at that bracket's rate only. */
module Slabs {
  import opened Num

  /** A bracket starts at `lower` and is taxed at `rate`; it ends where the
      next bracket starts, and the last bracket is unbounded. */
  datatype Bracket = Bracket(lower: real, rate: real)

  /** Brackets are listed with strictly increasing lower edges. */
  predicate Ascending(bs: seq<Bracket>)
  {
    forall i :: 0 <= i < |bs| - 1 ==> bs[i].lower < bs[i + 1].lower
  }

  /** The part of `income` that falls inside bracket `i`. */
  function Portion(income: real, bs: seq<Bracket>, i: nat): (r: real)
    requires i < |bs|
    ensures r >= 0.0
  {
    if i + 1 < |bs| then Max(0.0, Min(income, bs[i + 1].lower) - bs[i].lower)
    else Max(0.0, income - bs[i].lower)
  }

  /** Tax on `income` under the brackets from index `i` on. */
  function MarginalFrom(income: real, bs: seq<Bracket>, i: nat): real
    decreases |bs| - i
  {
    if i >= |bs| then 0.0
    else BandTax(income, bs, bs[i].rate, i) + MarginalFrom(income, bs, i + 1)
  }

  function MarginalTax(income: real, bs: seq<Bracket>): real
  {
    MarginalFrom(income, bs, 0)
  }

  /** The highest marginal rate of every slab table in the calculators. */
  const TopRate: real := 0.30

  /** Every rate lies in `[0, TopRate]`. */
  predicate RatesWithin(bs: seq<Bracket>)
  {
    forall i :: 0 <= i < |bs| ==> 0.0 <= bs[i].rate <= TopRate
  }

  /** Raising the income raises every bracket's portion, each by at most the raise. */
  lemma PortionGrowth(x: real, y: real, bs: seq<Bracket>, i: nat)
    requires i < |bs| && x <= y
    ensures 0.0 <= Portion(y, bs, i) - Portion(x, bs, i) <= y - x
  {
  }

  /** Tax levied by bracket `i` alone, at rate `rate`. */
  function BandTax(income: real, bs: seq<Bracket>, rate: real, i: nat): real
    requires i < |bs|
  {
    rate * Portion(income, bs, i)
  }

  /** One bracket at a rate within `[0, TopRate]` grows by at most `TopRate` times
      the growth of its portion. */
  lemma BandTaxGrowth(x: real, y: real, bs: seq<Bracket>, i: nat)
    requires RatesWithin(bs) && x <= y && i < |bs|
    ensures 0.0 <= BandTax(y, bs, bs[i].rate, i) - BandTax(x, bs, bs[i].rate, i)
            <= TopRate * (Portion(y, bs, i) - Portion(x, bs, i))
  {
    PortionGrowth(x, y, bs, i);
    ScaledDifference(bs[i].rate, TopRate, Portion(y, bs, i), Portion(x, bs, i));
  }

  /** For `0 <= a <= b` and `q <= p`: `0 <= a p - a q <= b (p - q)`. */
  lemma ScaledDifference(a: real, b: real, p: real, q: real)
    requires 0.0 <= a <= b && q <= p
    ensures 0.0 <= a * p - a * q <= b * (p - q)
  {
    var d := p - q;
    assert a * p - a * q == a * d;
    ScaleMono(d, a, b);
    ScaleMono(a, 0.0, d);
  }

  /** The income above bracket `i`'s lower edge (none past the last bracket). */
  function Above(income: real, bs: seq<Bracket>, i: nat): real
  {
    if i < |bs| then Max(0.0, income - bs[i].lower) else 0.0
  }

  /** The tax of brackets `i..` grows by at most `TopRate` times the growth
      of the income above bracket `i`. */
  lemma {:induction false} MarginalGrowthFrom(x: real, y: real, bs: seq<Bracket>, i: nat)
    requires Ascending(bs) && RatesWithin(bs) && x <= y
    ensures 0.0 <= MarginalFrom(y, bs, i) - MarginalFrom(x, bs, i)
            <= TopRate * (Above(y, bs, i) - Above(x, bs, i))
    decreases |bs| - i
  {
    if i < |bs| {
      MarginalGrowthFrom(x, y, bs, i + 1);
      BandTaxGrowth(x, y, bs, i);
      AboveStep(x, bs, i);
      AboveStep(y, bs, i);
      AddBounds(BandTax(y, bs, bs[i].rate, i) - BandTax(x, bs, bs[i].rate, i),
                MarginalFrom(y, bs, i + 1) - MarginalFrom(x, bs, i + 1),
                Portion(y, bs, i) - Portion(x, bs, i),
                Above(y, bs, i + 1) - Above(x, bs, i + 1),
                Above(y, bs, i) - Above(x, bs, i));
    }
  }

  /** Bracket `i`'s portion plus the income above the next edge is the
      income above bracket `i`'s edge. */
  lemma AboveStep(income: real, bs: seq<Bracket>, i: nat)
    requires Ascending(bs) && i < |bs|
    ensures Portion(income, bs, i) + Above(income, bs, i + 1) == Above(income, bs, i)
  {
    if i + 1 < |bs| {
      assert bs[i].lower < bs[i + 1].lower;
    }
  }

  lemma AddBounds(a: real, b: real, u: real, v: real, w: real)
    requires 0.0 <= a <= TopRate * u && 0.0 <= b <= TopRate * v && u + v == w
    ensures 0.0 <= a + b <= TopRate * w
  {
  }

  /** Clamping at a floor never widens a gap. */
  lemma ClampGap(x: real, y: real, l: real)
    requires x <= y
    ensures Max(0.0, y - l) - Max(0.0, x - l) <= y - x
  {
  }

  /** Marginal tax is non-decreasing, and grows no faster than the top rate:
      it is therefore continuous at every bracket edge. */
  lemma MarginalGrowth(x: real, y: real, bs: seq<Bracket>)
    requires Ascending(bs) && RatesWithin(bs) && |bs| > 0 && x <= y
    ensures 0.0 <= MarginalTax(y, bs) - MarginalTax(x, bs) <= TopRate * (y - x)
  {
    MarginalGrowthFrom(x, y, bs, 0);
    ClampGap(x, y, bs[0].lower);
  }

  /** Below the first edge no tax is due. */
  lemma {:induction false} MarginalZeroBelow(x: real, bs: seq<Bracket>, i: nat)
    requires Ascending(bs) && |bs| > 0 && x <= bs[0].lower
    ensures MarginalFrom(x, bs, i) == 0.0
    decreases |bs| - i
  {
    if i < |bs| {
      MarginalZeroBelow(x, bs, i + 1);
      AscendingLower(bs, 0, i);
    }
  }

  lemma {:induction false} AscendingLower(bs: seq<Bracket>, i: nat, j: nat)
    requires Ascending(bs) && i <= j < |bs|
    ensures bs[i].lower <= bs[j].lower
    decreases j - i
  {
    if i < j {
      AscendingLower(bs, i, j - 1);
    }
  }
}
