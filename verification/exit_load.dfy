/** Exit-load calculator: rupee formatting with Indian digit grouping and
    the redemption-amount comparison curve. */
module ExitLoad {
  import opened Num
  import opened IndianDigits

  /** The currency text: a minus sign for negative amounts, the rupee sign,
      and the rounded absolute amount with Indian grouping. */
  method FormatCurrency(amount: real) returns (s: string)
    ensures s == (if amount < 0.0 then "-" else "") + "₹" + Grouped(Digits(Round(Abs(amount))))
    ensures amount >= 0.0 ==> s[0] == '₹'
    ensures amount < 0.0 ==> s[..2] == "-₹"
  {
    var sign := if amount < 0.0 then "-" else "";
    var grouped := FormatIndianNumber(Digits(Round(Abs(amount))));
    s := sign + "₹" + grouped;
  }

  /** Reading the formatted text back: behind the sign and the rupee sign,
      deleting the commas leaves exactly the rounded amount's digits. */
  lemma FormatRoundTrip(amount: real)
    ensures var digits := Digits(Round(Abs(amount)));
            var body := Grouped(digits);
            StripCommas(body) == digits && body[0] == digits[0]
  {
    var digits := Digits(Round(Abs(amount)));
    GroupedRoundTrip(digits);
    GroupedShape(digits);
  }

  /** Exit-load charge on a redemption: the rate applies only to a positive
      amount under a positive rate. */
  function ExitLoadCharge(amount: real, rate: real): (c: real)
    ensures !(rate > 0.0 && amount > 0.0) ==> c == 0.0
    ensures rate > 0.0 && amount > 0.0 ==> c * 100.0 == amount * rate
  {
    if rate > 0.0 && amount > 0.0 then amount * rate / 100.0 else 0.0
  }

  /** Net redemption after the charge. */
  function NetAmount(amount: real, rate: real): (n: real)
    ensures n + ExitLoadCharge(amount, rate) == amount
  {
    amount - ExitLoadCharge(amount, rate)
  }

  /** With a rate of at most 100%, the charge and the net amount both lie
      between zero and the redemption amount. */
  lemma ChargeWithinAmount(amount: real, rate: real)
    requires 0.0 <= rate <= 100.0 && amount >= 0.0
    ensures 0.0 <= ExitLoadCharge(amount, rate) <= amount
    ensures 0.0 <= NetAmount(amount, rate) <= amount
  {
    if rate > 0.0 && amount > 0.0 {
      ScaleMono(amount, rate, 100.0);
    }
  }

  /** The ten redemption amounts plotted: zero, fractions and multiples of
      the current value (1 lakh when it is missing or zero), and finally
      three times the value but at least 10 lakh. */
  function RedemptionPoints(currentValue: real): (pts: seq<real>)
    ensures |pts| == 10
    ensures pts[0] == 0.0
    ensures pts[9] == Max((if currentValue == 0.0 then 100000.0 else currentValue) * 3.0, 1000000.0)
    ensures pts[9] >= 1000000.0
    ensures currentValue > 0.0 ==> forall k :: 0 <= k < 9 ==> pts[k] < pts[k + 1]
  {
    var cv := if currentValue == 0.0 then 100000.0 else currentValue;
    [0.0, cv * 0.1, cv * 0.25, cv * 0.5, cv * 0.75, cv, cv * 1.25, cv * 1.5, cv * 2.0,
     Max(cv * 3.0, 1000000.0)]
  }
}
