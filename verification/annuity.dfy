/** Recurring-deposit growth shared by the SIP, PPF and comparison
    calculators: a fixed payment every period, compounding each period. */
module Annuity {
  import opened Num

  /** Balance after `n` periods when each payment is made at the START of
      its period (annuity due): it earns interest for the period it joins. */
  function DueBalance(payment: real, rate: real, n: nat): real
  {
    if n == 0 then 0.0 else (DueBalance(payment, rate, n - 1) + payment) * (1.0 + rate)
  }

  /** Balance after `n` periods when each payment is made at the END of its
      period (ordinary annuity): the newest payment has not yet earned. */
  function OrdinaryBalance(payment: real, rate: real, n: nat): real
  {
    if n == 0 then 0.0 else OrdinaryBalance(payment, rate, n - 1) * (1.0 + rate) + payment
  }

  /** The standard SIP formula `P * ((1 + i)^n - 1) / i * (1 + i)`; it is
      undefined for a zero rate. */
  function SipFutureValue(payment: real, rate: real, n: nat): real
    requires rate != 0.0
  {
    payment * (((Pow(1.0 + rate, n) - 1.0) / rate) * (1.0 + rate))
  }

  lemma {:induction false} DueClosedForm(payment: real, rate: real, n: nat)
    ensures DueBalance(payment, rate, n) * rate == payment * (Pow(1.0 + rate, n) - 1.0) * (1.0 + rate)
  {
    if n == 0 {
      assert DueBalance(payment, rate, n) == 0.0;
      assert Pow(1.0 + rate, n) == 1.0;
    } else {
      DueClosedForm(payment, rate, n - 1);
      DueStep(DueBalance(payment, rate, n), DueBalance(payment, rate, n - 1), payment, rate,
              Pow(1.0 + rate, n), Pow(1.0 + rate, n - 1));
    }
  }

  /** One period of `DueClosedForm`, over plain numbers. */
  lemma DueStep(dn: real, d: real, payment: real, rate: real, pn: real, p: real)
    requires dn == (d + payment) * (1.0 + rate) && pn == (1.0 + rate) * p
    requires d * rate == payment * (p - 1.0) * (1.0 + rate)
    ensures dn * rate == payment * (pn - 1.0) * (1.0 + rate)
  {
    var g := 1.0 + rate;
    calc {
      dn * rate;
      (d * rate + payment * rate) * g;
      (payment * (p - 1.0) * g + payment * rate) * g;
      payment * (p * g - g + rate) * g;
      payment * (pn - 1.0) * g;
    }
  }

  /** The formula is the closed form of the start-of-period recurrence. */
  lemma SipFormulaIsDueBalance(payment: real, rate: real, n: nat)
    requires rate != 0.0
    ensures SipFutureValue(payment, rate, n) == DueBalance(payment, rate, n)
  {
    DueClosedForm(payment, rate, n);
    SameScaled(SipFutureValue(payment, rate, n), DueBalance(payment, rate, n),
               payment, Pow(1.0 + rate, n) - 1.0, 1.0 + rate, rate);
  }

  lemma SameScaled(f: real, d: real, payment: real, q: real, g: real, rate: real)
    requires rate != 0.0 && f == payment * ((q / rate) * g) && d * rate == payment * q * g
    ensures f == d
  {
    Rescale(payment, q, g, rate);
    CancelRate(f, d, rate);
  }

  lemma Rescale(p: real, q: real, g: real, r: real)
    requires r != 0.0
    ensures p * ((q / r) * g) * r == p * q * g
  {
    var t := q / r;
    assert t * r == q;
    assert p * (t * g) * r == p * g * (t * r);
  }

  lemma CancelRate(a: real, b: real, c: real)
    requires c != 0.0 && a * c == b * c
    ensures a == b
  {
    assert (a - b) * c == 0.0;
  }

  /** Paying at the start of each period is worth one period's growth more. */
  lemma {:induction false} DueIsGrownOrdinary(payment: real, rate: real, n: nat)
    ensures DueBalance(payment, rate, n) == OrdinaryBalance(payment, rate, n) * (1.0 + rate)
  {
    if n == 0 {
      assert OrdinaryBalance(payment, rate, n) == 0.0;
      assert DueBalance(payment, rate, n) == 0.0;
    } else {
      DueIsGrownOrdinary(payment, rate, n - 1);
      GrownStep(DueBalance(payment, rate, n), OrdinaryBalance(payment, rate, n),
                DueBalance(payment, rate, n - 1), OrdinaryBalance(payment, rate, n - 1), payment, 1.0 + rate);
    }
  }

  lemma GrownStep(due: real, ordinary: real, d: real, o: real, payment: real, g: real)
    requires due == (d + payment) * g && ordinary == o * g + payment && d == o * g
    ensures due == ordinary * g
  {
  }

  /** With no growth both balances are simply the payments made. */
  lemma {:induction false} ZeroRateBalances(payment: real, n: nat)
    ensures DueBalance(payment, 0.0, n) == n as real * payment
    ensures OrdinaryBalance(payment, 0.0, n) == n as real * payment
  {
    if n > 0 {
      ZeroRateBalances(payment, n - 1);
    }
  }

  /** With non-negative payments and rate, the balance is at least what was paid in. */
  lemma {:induction false} DueAtLeastPaid(payment: real, rate: real, n: nat)
    requires payment >= 0.0 && rate >= 0.0
    ensures DueBalance(payment, rate, n) >= n as real * payment
  {
    if n > 0 {
      DueAtLeastPaid(payment, rate, n - 1);
      var b := DueBalance(payment, rate, n - 1) + payment;
      ScaleMono(b, 1.0, 1.0 + rate);
    }
  }

  lemma {:induction false} OrdinaryAtLeastPaid(payment: real, rate: real, n: nat)
    requires payment >= 0.0 && rate >= 0.0
    ensures OrdinaryBalance(payment, rate, n) >= n as real * payment
  {
    if n > 0 {
      OrdinaryAtLeastPaid(payment, rate, n - 1);
      var b := OrdinaryBalance(payment, rate, n - 1);
      ScaleMono(b, 1.0, 1.0 + rate);
    }
  }

  lemma {:induction false} OrdinaryClosedForm(payment: real, rate: real, n: nat)
    ensures OrdinaryBalance(payment, rate, n) * rate == payment * (Pow(1.0 + rate, n) - 1.0)
  {
    if n == 0 {
      assert OrdinaryBalance(payment, rate, n) == 0.0;
      assert Pow(1.0 + rate, n) == 1.0;
    } else {
      OrdinaryClosedForm(payment, rate, n - 1);
      OrdinaryStep(OrdinaryBalance(payment, rate, n), OrdinaryBalance(payment, rate, n - 1), payment, rate,
                   Pow(1.0 + rate, n), Pow(1.0 + rate, n - 1));
    }
  }

  /** One period of `OrdinaryClosedForm`, over plain numbers. */
  lemma OrdinaryStep(on: real, o: real, payment: real, rate: real, pn: real, p: real)
    requires on == o * (1.0 + rate) + payment && pn == (1.0 + rate) * p
    requires o * rate == payment * (p - 1.0)
    ensures on * rate == payment * (pn - 1.0)
  {
    var g := 1.0 + rate;
    calc {
      on * rate;
      o * rate * g + payment * rate;
      payment * (p - 1.0) * g + payment * rate;
      payment * (pn - 1.0);
    }
  }

  /** A starting balance compounded for `k` periods with a payment added at
      the end of each one. */
  function Compound(start: real, payment: real, rate: real, k: nat): real
  {
    if k == 0 then start else Compound(start, payment, rate, k - 1) * (1.0 + rate) + payment
  }

  /** The compounded balance is the start grown for `k` periods plus the
      end-of-period annuity of the payments. */
  lemma {:induction false} CompoundClosedForm(start: real, payment: real, rate: real, k: nat)
    ensures Compound(start, payment, rate, k) == start * Pow(1.0 + rate, k) + OrdinaryBalance(payment, rate, k)
  {
    if k == 0 {
      assert Compound(start, payment, rate, k) == start;
      assert Pow(1.0 + rate, k) == 1.0;
      assert OrdinaryBalance(payment, rate, k) == 0.0;
    } else {
      CompoundClosedForm(start, payment, rate, k - 1);
      CompoundStep(Compound(start, payment, rate, k), Compound(start, payment, rate, k - 1), start,
                   Pow(1.0 + rate, k), Pow(1.0 + rate, k - 1),
                   OrdinaryBalance(payment, rate, k), OrdinaryBalance(payment, rate, k - 1), payment, rate);
    }
  }

  /** One period of `CompoundClosedForm`, over plain numbers. */
  lemma CompoundStep(ck: real, c: real, start: real, pk: real, p: real, ok: real, o: real, payment: real, rate: real)
    requires ck == c * (1.0 + rate) + payment
    requires c == start * p + o && pk == (1.0 + rate) * p
    requires ok == o * (1.0 + rate) + payment
    ensures ck == start * pk + ok
  {
  }

  /** The level end-of-period payment that builds `target` in `n` periods,
      `target * i / ((1 + i)^n - 1)`, or the plain share `target / n` when
      the rate is not positive. Dividing by `((1 + i)^n - 1) / i` instead,
      as some calculators write it, is the same value. */
  function PaymentFor(target: real, rate: real, n: nat): real
    requires n > 0
  {
    if rate > 0.0 then
      PowAboveOne(1.0 + rate, n);
      target * rate / (Pow(1.0 + rate, n) - 1.0)
    else target / n as real
  }

  /** The payment reaches its target exactly, and is never negative for a
      non-negative target. */
  lemma PaymentForReachesTarget(target: real, rate: real, n: nat)
    requires n > 0 && rate >= 0.0
    ensures OrdinaryBalance(PaymentFor(target, rate, n), rate, n) == target
    ensures target >= 0.0 ==> PaymentFor(target, rate, n) >= 0.0
  {
    var p := PaymentFor(target, rate, n);
    if rate > 0.0 {
      var q := Pow(1.0 + rate, n) - 1.0;
      PowAboveOne(1.0 + rate, n);
      OrdinaryClosedForm(p, rate, n);
      assert p == target * rate / q;
      assert p * q == target * rate;
      assert OrdinaryBalance(p, rate, n) * rate == p * q;
      CancelRate(OrdinaryBalance(p, rate, n), target, rate);
    } else {
      ZeroRateBalances(p, n);
    }
  }

  /** A balance that earns `rate` each period and pays out `withdrawal` at
      the end of it. */
  function Drawdown(balance: real, withdrawal: real, rate: real, k: nat): real
  {
    if k == 0 then balance else Drawdown(balance, withdrawal, rate, k - 1) * (1.0 + rate) - withdrawal
  }

  lemma {:induction false} DrawdownClosedForm(balance: real, withdrawal: real, rate: real, k: nat)
    ensures Drawdown(balance, withdrawal, rate, k)
            == balance * Pow(1.0 + rate, k) - OrdinaryBalance(withdrawal, rate, k)
  {
    if k == 0 {
      assert Drawdown(balance, withdrawal, rate, k) == balance;
      assert Pow(1.0 + rate, k) == 1.0;
      assert OrdinaryBalance(withdrawal, rate, k) == 0.0;
    } else {
      DrawdownClosedForm(balance, withdrawal, rate, k - 1);
      DrawdownStep(Drawdown(balance, withdrawal, rate, k), Drawdown(balance, withdrawal, rate, k - 1),
                   balance, withdrawal, 1.0 + rate, Pow(1.0 + rate, k), Pow(1.0 + rate, k - 1),
                   OrdinaryBalance(withdrawal, rate, k), OrdinaryBalance(withdrawal, rate, k - 1));
    }
  }

  /** One period of `DrawdownClosedForm`, over plain numbers. */
  lemma DrawdownStep(dk: real, d: real, balance: real, w: real, g: real, pk: real, p: real, ok: real, o: real)
    requires dk == d * g - w && pk == g * p && ok == o * g + w && d == balance * p - o
    ensures dk == balance * pk - ok
  {
    assert (balance * p - o) * g - w == balance * (g * p) - (o * g + w);
  }

  /** The present value of `n` end-of-period withdrawals,
      `w * (1 - (1 + i)^-n) / i`. */
  function PresentValue(withdrawal: real, rate: real, n: nat): real
    requires rate > 0.0
  {
    PowPositive(1.0 + rate, n);
    withdrawal * ((1.0 - 1.0 / Pow(1.0 + rate, n)) / rate)
  }

  /** A corpus of that present value pays every withdrawal and is then exactly used up. */
  lemma PresentValueLastsExactly(withdrawal: real, rate: real, n: nat)
    requires rate > 0.0
    ensures Drawdown(PresentValue(withdrawal, rate, n), withdrawal, rate, n) == 0.0
  {
    var g := Pow(1.0 + rate, n);
    PowPositive(1.0 + rate, n);
    var c := PresentValue(withdrawal, rate, n);
    var o := OrdinaryBalance(withdrawal, rate, n);
    DrawdownClosedForm(c, withdrawal, rate, n);
    OrdinaryClosedForm(withdrawal, rate, n);
    assert c == withdrawal * ((1.0 - 1.0 / g) / rate);
    GrowPresentValue(c, withdrawal, rate, g);
    Exhausted(Drawdown(c, withdrawal, rate, n), c * g, o, rate, withdrawal * (g - 1.0));
  }

  /** Two amounts that grow to the same multiple of a positive rate cancel. */
  lemma Exhausted(d: real, a: real, b: real, r: real, v: real)
    requires r > 0.0 && d == a - b && a * r == v && b * r == v
    ensures d == 0.0
  {
    CancelRate(a, b, r);
  }

  lemma GrowPresentValue(c: real, w: real, r: real, g: real)
    requires r > 0.0 && g > 0.0 && c == w * ((1.0 - 1.0 / g) / r)
    ensures c * g * r == w * (g - 1.0)
  {
    var t := (1.0 - 1.0 / g) / r;
    assert t * r == 1.0 - 1.0 / g;
    assert (1.0 - 1.0 / g) * g == g - 1.0;
    assert c * g * r == w * ((t * r) * g);
  }

  /** Without growth, `n` withdrawals use up `n` times their amount. */
  lemma ZeroRateDrawdown(withdrawal: real, n: nat)
    ensures Drawdown(n as real * withdrawal, withdrawal, 0.0, n) == 0.0
  {
    DrawdownClosedForm(n as real * withdrawal, withdrawal, 0.0, n);
    ZeroRateBalances(withdrawal, n);
    PowOfOne(n);
  }

  /** Paying nothing builds nothing. */
  lemma {:induction false} ZeroPaymentBalance(rate: real, n: nat)
    ensures OrdinaryBalance(0.0, rate, n) == 0.0
    ensures DueBalance(0.0, rate, n) == 0.0
  {
    if n > 0 {
      ZeroPaymentBalance(rate, n - 1);
    }
  }
}
