/** ULIP against a SIP (optionally a SIP of the premium-reduced amount
    plus a term plan), after charges and the chosen tax treatment. */
module UlipVsSip {
  import opened Num
  import opened Results
  import opened Annuity

  datatype Inputs = Inputs(monthlyInvestment: real, tenureYears: int, sipReturnRate: real,
                           sipExpenseRatio: real, ulipReturnRate: real, ulipFmc: real,
                           ulipOtherCharges: real, includeTerm: bool, termPremium: real, taxModel: string)

  function Validate(i: Inputs): (r: Result<Inputs>)
    ensures r.Ok? <==> && 500.0 <= i.monthlyInvestment <= 100000.0 && 5 <= i.tenureYears <= 30
                       && 1.0 <= i.sipReturnRate <= 25.0 && 1.0 <= i.ulipReturnRate <= 25.0
    ensures r.Ok? ==> r.value == i
  {
    if i.monthlyInvestment < 500.0 || i.monthlyInvestment > 100000.0 then
      Err("Monthly investment must be between ₹500 and ₹1,00,000")
    else if i.tenureYears < 5 || i.tenureYears > 30 then Err("Investment tenure must be between 5 and 30 years")
    else if i.sipReturnRate < 1.0 || i.sipReturnRate > 25.0 then Err("SIP return rate must be between 1% and 25%")
    else if i.ulipReturnRate < 1.0 || i.ulipReturnRate > 25.0 then Err("ULIP return rate must be between 1% and 25%")
    else Ok(i)
  }

  /** Net annual return of the SIP: its return less the expense ratio. */
  function SipNetReturn(i: Inputs): real
  {
    i.sipReturnRate - i.sipExpenseRatio
  }

  /** Net annual return of the ULIP: its return less fund management and other charges. */
  function UlipNetReturn(i: Inputs): real
  {
    i.ulipReturnRate - i.ulipFmc - i.ulipOtherCharges
  }

  /** Tax on a SIP gain: 10% above the 1 lakh exemption for equity, 20% of
      the whole gain for debt, nothing under any other model. */
  function SipTax(taxModel: string, gain: real): (t: real)
    ensures taxModel == "equity" ==> t == Max(0.0, gain - 100000.0) * 0.10
    ensures taxModel == "debt" ==> t == gain * 0.20
    ensures taxModel != "equity" && taxModel != "debt" ==> t == 0.0
    ensures taxModel == "equity" ==> 0.0 <= t && (gain <= 100000.0 <==> t == 0.0)
  {
    if taxModel == "equity" then Max(0.0, gain - 100000.0) * 0.10
    else if taxModel == "debt" then gain * 0.20
    else 0.0
  }

  /** ULIP maturity is exempt under section 10(10D) in the "ulip_exempt"
      model and taxed at 10% of the gain otherwise. */
  function UlipTax(taxModel: string, gain: real): (t: real)
    ensures taxModel == "ulip_exempt" ==> t == 0.0
    ensures taxModel != "ulip_exempt" ==> t * 10.0 == gain
  {
    if taxModel == "ulip_exempt" then 0.0 else gain * 0.10
  }

  /** Value of `monthly` invested at the start of each of `months` months. */
  function Value(monthly: real, annualNet: real, months: nat): real
  {
    DueBalance(monthly, annualNet / 12.0 / 100.0, months)
  }

  /** The value exactly as the page computes it, with the standard SIP
      formula on the monthly rate; `None` is the NaN it yields when the
      charges cancel the return (a zero rate makes the formula 0 / 0). */
  function ValueAsWritten(monthly: real, annualNet: real, months: nat): (v: Option<real>)
    ensures v.None? <==> annualNet == 0.0
  {
    var rate := annualNet / 12.0 / 100.0;
    if rate == 0.0 then None
    else Some(monthly * (((Pow(1.0 + rate, months) - 1.0) / rate) * (1.0 + rate)))
  }

  /** Validation never looks at the charges: a SIP whose expense ratio equals
      its return, or a ULIP whose charges add up to its return, is accepted
      and then valued as NaN. */
  lemma ChargesEqualToReturnGiveNaN()
    ensures var i := Inputs(5000.0, 10, 2.0, 2.0, 3.0, 2.0, 1.0, false, 0.0, "equity");
            && Validate(i).Ok?
            && SipNetReturn(i) == 0.0 && ValueAsWritten(5000.0, SipNetReturn(i), 120).None?
            && UlipNetReturn(i) == 0.0 && ValueAsWritten(5000.0, UlipNetReturn(i), 120).None?
  {
  }

  /** Wherever the formula is defined it is the start-of-month balance the
      model uses; at a zero net return that balance is the instalments paid. */
  lemma CorrectedValueAgrees(monthly: real, annualNet: real, months: nat)
    ensures annualNet != 0.0 ==> ValueAsWritten(monthly, annualNet, months) == Some(Value(monthly, annualNet, months))
    ensures annualNet == 0.0 ==> Value(monthly, annualNet, months) == monthly * months as real
  {
    var rate := annualNet / 12.0 / 100.0;
    if annualNet != 0.0 {
      assert rate != 0.0;
      SipFormulaIsDueBalance(monthly, rate, months);
      var v := ValueAsWritten(monthly, annualNet, months);
      assert v.value == monthly * (((Pow(1.0 + rate, months) - 1.0) / rate) * (1.0 + rate));
      assert v.value == SipFutureValue(monthly, rate, months);
      assert Value(monthly, annualNet, months) == DueBalance(monthly, rate, months);
    } else {
      ZeroRateBalances(monthly, months);
    }
  }

  datatype Position = Position(totalInvested: real, futureValue: real, estimatedTax: real, postTaxValue: real)

  /** A SIP position after tax under the chosen model. */
  function SipPosition(monthly: real, annualNet: real, months: nat, taxModel: string): (p: Position)
    ensures p.totalInvested == monthly * months as real
    ensures p.futureValue == Value(monthly, annualNet, months)
    ensures p.estimatedTax == SipTax(taxModel, p.futureValue - p.totalInvested)
    ensures p.postTaxValue == p.futureValue - p.estimatedTax
  {
    var fv := Value(monthly, annualNet, months);
    var invested := monthly * months as real;
    var tax := SipTax(taxModel, fv - invested);
    Position(invested, fv, tax, fv - tax)
  }

  function UlipPosition(monthly: real, annualNet: real, months: nat, taxModel: string): (p: Position)
    ensures p.totalInvested == monthly * months as real
    ensures p.futureValue == Value(monthly, annualNet, months)
    ensures p.estimatedTax == UlipTax(taxModel, p.futureValue - p.totalInvested)
    ensures p.postTaxValue == p.futureValue - p.estimatedTax
  {
    var fv := Value(monthly, annualNet, months);
    var invested := monthly * months as real;
    var tax := UlipTax(taxModel, fv - invested);
    Position(invested, fv, tax, fv - tax)
  }

  datatype Best = SipInvestment | SipPlusTerm | UlipInvestment

  /** The headline verdict. `term` is the SIP + term plan's post-tax value,
      present only when the term plan is included. */
  function BestOption(sip: real, term: Option<real>, ulip: real): (b: Best)
    ensures b == SipPlusTerm <==> term.Some? && term.value > sip && term.value > ulip
    ensures b == UlipInvestment <==> !(term.Some? && term.value > sip && term.value > ulip)
                                     && ulip > sip && (term.None? || ulip > term.value)
  {
    if term.Some? && term.value > sip && term.value > ulip then SipPlusTerm
    else if ulip > sip && (term.None? || ulip > term.value) then UlipInvestment
    else SipInvestment
  }

  /** The per-year verdict: start from the SIP, move to SIP + term plan if
      strictly better, then to the ULIP if strictly better than that. */
  function YearBest(sip: real, term: Option<real>, ulip: real): (b: Best)
    ensures var best := if term.Some? && term.value > sip then term.value else sip;
            b == UlipInvestment <==> ulip > best
    ensures b == SipPlusTerm <==> term.Some? && term.value > sip && ulip <= term.value
  {
    var (option, value) := if term.Some? && term.value > sip then (SipPlusTerm, term.value) else (SipInvestment, sip);
    if ulip > value then UlipInvestment else option
  }

  /** The two rules agree unless the ULIP and the SIP + term plan tie. */
  lemma VerdictsAgreeWithoutTie(sip: real, term: Option<real>, ulip: real)
    requires term.Some? ==> term.value != ulip
    ensures BestOption(sip, term, ulip) == YearBest(sip, term, ulip)
  {
  }

  /** When the ULIP and the SIP + term plan tie above the plain SIP, the
      headline names the plain SIP, the weakest of the three. */
  lemma TiedLeadersHeadlineNamesSip()
    ensures BestOption(100.0, Some(200.0), 200.0) == SipInvestment
    ensures YearBest(100.0, Some(200.0), 200.0) == SipPlusTerm
  {
  }

  datatype Comparison = Comparison(sip: Position, sipTerm: Option<Position>, ulip: Position,
                                   bestOption: Best, costDrag: real, costDragPercentage: Option<real>)

  function CalculateUlipSipComparison(i: Inputs): (c: Comparison)
    requires i.tenureYears >= 0
    ensures var months := i.tenureYears * 12;
            && c.sip == SipPosition(i.monthlyInvestment, SipNetReturn(i), months, i.taxModel)
            && (c.sipTerm.Some? <==> i.includeTerm)
            && (i.includeTerm ==>
                  c.sipTerm.value == SipPosition(i.monthlyInvestment - i.termPremium, SipNetReturn(i), months, i.taxModel))
            && c.ulip == UlipPosition(i.monthlyInvestment, UlipNetReturn(i), months, i.taxModel)
    ensures c.bestOption == BestOption(c.sip.postTaxValue, PostTax(c.sipTerm), c.ulip.postTaxValue)
    ensures var bestSip := if c.sipTerm.Some? then c.sipTerm.value.postTaxValue else c.sip.postTaxValue;
            && c.costDrag == bestSip - c.ulip.postTaxValue
            && (c.costDragPercentage.Some? <==> bestSip != 0.0)
  {
    var months := i.tenureYears * 12;
    var sip := SipPosition(i.monthlyInvestment, SipNetReturn(i), months, i.taxModel);
    var sipTerm := if i.includeTerm then
                     Some(SipPosition(i.monthlyInvestment - i.termPremium, SipNetReturn(i), months, i.taxModel))
                   else None;
    var ulip := UlipPosition(i.monthlyInvestment, UlipNetReturn(i), months, i.taxModel);
    var bestSip := if sipTerm.Some? then sipTerm.value.postTaxValue else sip.postTaxValue;
    var costDrag := bestSip - ulip.postTaxValue;
    Comparison(sip, sipTerm, ulip, BestOption(sip.postTaxValue, PostTax(sipTerm), ulip.postTaxValue),
               costDrag, if bestSip == 0.0 then None else Some(costDrag / bestSip * 100.0))
  }

  function PostTax(p: Option<Position>): Option<real>
  {
    if p.Some? then Some(p.value.postTaxValue) else None
  }

  datatype YearRow = YearRow(year: int, sipValue: int, sipPostTax: int, sipTermValue: Option<int>,
                             sipTermPostTax: Option<int>, ulipValue: int, bestOption: Best)

  /** Row `k` is the position after `12 (k + 1)` months, by the same rules as the headline. */
  predicate YearRowOk(row: YearRow, k: nat, i: Inputs)
  {
    var months := 12 * (k + 1);
    var sip := SipPosition(i.monthlyInvestment, SipNetReturn(i), months, i.taxModel);
    var term := SipPosition(i.monthlyInvestment - i.termPremium, SipNetReturn(i), months, i.taxModel);
    var ulip := UlipPosition(i.monthlyInvestment, UlipNetReturn(i), months, i.taxModel);
    && row.year == k + 1
    && row.sipValue == Round(sip.futureValue)
    && row.sipPostTax == Round(sip.postTaxValue)
    && row.sipTermValue == (if i.includeTerm then Some(Round(term.futureValue)) else None)
    && row.sipTermPostTax == (if i.includeTerm then Some(Round(term.postTaxValue)) else None)
    && row.ulipValue == Round(ulip.postTaxValue)
    && row.bestOption == YearBest(sip.postTaxValue, if i.includeTerm then Some(term.postTaxValue) else None,
                                  ulip.postTaxValue)
  }

  method YearWiseData(i: Inputs) returns (rows: seq<YearRow>)
    ensures |rows| == (if i.tenureYears > 0 then i.tenureYears else 0)
    ensures forall k :: 0 <= k < |rows| ==> YearRowOk(rows[k], k, i)
  {
    rows := [];
    var effective := if i.includeTerm then i.monthlyInvestment - i.termPremium else i.monthlyInvestment;
    var year := 1;
    while year <= i.tenureYears
      invariant 1 <= year && (i.tenureYears >= 1 ==> year <= i.tenureYears + 1) && (i.tenureYears < 1 ==> year == 1)
      invariant |rows| == year - 1
      invariant forall k :: 0 <= k < |rows| ==> YearRowOk(rows[k], k, i)
    {
      var monthsElapsed := year * 12;
      var sip := SipPosition(i.monthlyInvestment, SipNetReturn(i), monthsElapsed, i.taxModel);
      var sipTermBalance := 0.0;
      var sipTermPostTax := 0.0;
      if i.includeTerm {
        var term := SipPosition(effective, SipNetReturn(i), monthsElapsed, i.taxModel);
        sipTermBalance := term.futureValue;
        sipTermPostTax := term.postTaxValue;
      }
      var ulip := UlipPosition(i.monthlyInvestment, UlipNetReturn(i), monthsElapsed, i.taxModel);
      var best := SipInvestment;
      var bestValue := sip.postTaxValue;
      if i.includeTerm && sipTermPostTax > bestValue {
        best := SipPlusTerm;
        bestValue := sipTermPostTax;
      }
      if ulip.postTaxValue > bestValue {
        best := UlipInvestment;
      }
      var row := YearRow(year, Round(sip.futureValue), Round(sip.postTaxValue),
                         if i.includeTerm then Some(Round(sipTermBalance)) else None,
                         if i.includeTerm then Some(Round(sipTermPostTax)) else None,
                         Round(ulip.postTaxValue), best);
      assert monthsElapsed == 12 * (year - 1 + 1);
      assert YearRowOk(row, year - 1, i);
      rows := rows + [row];
      year := year + 1;
    }
  }

  /** The table's final year shows the headline figures, and its verdict
      is the headline's unless the ULIP and the SIP + term plan tie. */
  lemma LastRowMatchesHeadline(i: Inputs, row: YearRow)
    requires i.tenureYears >= 1 && YearRowOk(row, i.tenureYears - 1, i)
    ensures var c := CalculateUlipSipComparison(i);
            && row.sipPostTax == Round(c.sip.postTaxValue)
            && row.ulipValue == Round(c.ulip.postTaxValue)
            && (c.sipTerm.Some? ==> row.sipTermPostTax == Some(Round(c.sipTerm.value.postTaxValue)))
    ensures var c := CalculateUlipSipComparison(i);
            (c.sipTerm.Some? ==> c.sipTerm.value.postTaxValue != c.ulip.postTaxValue) ==> row.bestOption == c.bestOption
  {
    var c := CalculateUlipSipComparison(i);
    assert 12 * (i.tenureYears - 1 + 1) == i.tenureYears * 12;
    if c.sipTerm.Some? ==> c.sipTerm.value.postTaxValue != c.ulip.postTaxValue {
      VerdictsAgreeWithoutTie(c.sip.postTaxValue, PostTax(c.sipTerm), c.ulip.postTaxValue);
    }
  }
}
