/** Retirement planning: the desired monthly income inflated to the
    retirement date, the corpus that pays it through retirement, the
    monthly saving that builds what current savings will not, the saved
    scenario list, and the age fields' automatic correction. */
module Retirement {
  import opened Num
  import opened Results
  import opened Annuity
  import opened Lists

  datatype Inputs = Inputs(currentAge: int, retirementAge: int, lifeExpectancy: int,
                           monthlyIncomeDesired: real, inflationRate: real,
                           preRetirementReturn: real, postRetirementReturn: real, currentSavings: real)

  /** The form's entries with the page's fallbacks for missing or zero values. */
  function GetInputs(currentAge: Option<int>, retirementAge: Option<int>, life: Option<int>, income: Field,
                     inflation: Field, pre: Field, post: Field, savings: Field): (i: Inputs)
    ensures currentAge.None? ==> i.currentAge == 30
    ensures retirementAge.None? ==> i.retirementAge == 60
    ensures life.None? ==> i.lifeExpectancy == 80
    ensures income.None? ==> i.monthlyIncomeDesired == 50000.0
    ensures inflation.None? ==> i.inflationRate == 6.0
    ensures pre.None? ==> i.preRetirementReturn == 8.0
    ensures post.None? ==> i.postRetirementReturn == 6.0
    ensures savings.None? ==> i.currentSavings == 100000.0
    ensures ReadsAsInt(i.currentAge, currentAge, 30)
    ensures ReadsAsInt(i.retirementAge, retirementAge, 60)
    ensures ReadsAsInt(i.lifeExpectancy, life, 80)
    ensures ReadsAs(i.monthlyIncomeDesired, income, 50000.0)
    ensures ReadsAs(i.inflationRate, inflation, 6.0)
    ensures ReadsAs(i.preRetirementReturn, pre, 8.0)
    ensures ReadsAs(i.postRetirementReturn, post, 6.0)
    ensures ReadsAs(i.currentSavings, savings, 100000.0)
  {
    Inputs(OrDefaultInt(currentAge, 30), OrDefaultInt(retirementAge, 60), OrDefaultInt(life, 80),
           OrDefault(income, 50000.0), OrDefault(inflation, 6.0), OrDefault(pre, 8.0),
           OrDefault(post, 6.0), OrDefault(savings, 100000.0))
  }

  const AgeError := "Please check your age inputs. Retirement age must be greater than current age, and life expectancy must be greater than retirement age."
  const FinancialError := "Please check your financial inputs. All values must be positive."

  /** The page's three checks, in order; the first failure wins. */
  function Validate(i: Inputs): (r: Result<Inputs>)
    ensures r.Ok? <==> 0 < i.currentAge < i.retirementAge < i.lifeExpectancy
                       && i.monthlyIncomeDesired > 0.0 && i.inflationRate >= 0.0
                       && i.preRetirementReturn > 0.0 && i.postRetirementReturn > 0.0
                       && i.currentSavings >= 0.0
    ensures r.Ok? ==> r.value == i
    ensures !(0 < i.currentAge < i.retirementAge < i.lifeExpectancy) ==>
              r == Err(AgeError)
  {
    if i.currentAge <= 0 || i.retirementAge <= i.currentAge || i.lifeExpectancy <= i.retirementAge then
      Err(AgeError)
    else if i.monthlyIncomeDesired <= 0.0 || i.inflationRate < 0.0 || i.preRetirementReturn <= 0.0
            || i.postRetirementReturn <= 0.0 then
      Err(FinancialError)
    else if i.currentSavings < 0.0 then Err("Current savings cannot be negative.")
    else Ok(i)
  }

  /** The ages are in order, which the page checks before it computes. */
  predicate Calculable(i: Inputs)
  {
    i.currentAge < i.retirementAge < i.lifeExpectancy
  }

  function YearsToRetirement(i: Inputs): nat
    requires Calculable(i)
  {
    i.retirementAge - i.currentAge
  }

  function YearsInRetirement(i: Inputs): nat
    requires Calculable(i)
  {
    i.lifeExpectancy - i.retirementAge
  }

  /** The desired monthly income in money of the retirement year. */
  function InflatedMonthlyIncome(i: Inputs): real
    requires Calculable(i)
  {
    i.monthlyIncomeDesired * Pow(1.0 + i.inflationRate / 100.0, YearsToRetirement(i))
  }

  function AnnualRetirementIncome(i: Inputs): real
    requires Calculable(i)
  {
    InflatedMonthlyIncome(i) * 12.0
  }

  /** The corpus needed at retirement: the present value of the annual
      income over the retirement years, `a * (1 - (1 + r)^-n) / r`, or
      their plain total when the post-retirement return is not positive. */
  function CorpusNeeded(i: Inputs): real
    requires Calculable(i)
  {
    if i.postRetirementReturn / 100.0 > 0.0 then
      PresentValue(AnnualRetirementIncome(i), i.postRetirementReturn / 100.0, YearsInRetirement(i))
    else AnnualRetirementIncome(i) * YearsInRetirement(i) as real
  }

  /** Earning the post-retirement return (nothing, when that is not
      positive), the corpus pays the year's income at the end of every
      retirement year and is then exactly used up. */
  lemma CorpusLastsThroughRetirement(i: Inputs)
    requires Calculable(i)
    ensures Drawdown(CorpusNeeded(i), AnnualRetirementIncome(i), Max(i.postRetirementReturn / 100.0, 0.0),
                     YearsInRetirement(i)) == 0.0
  {
    var w, n := AnnualRetirementIncome(i), YearsInRetirement(i);
    if i.postRetirementReturn / 100.0 > 0.0 {
      PresentValueLastsExactly(w, i.postRetirementReturn / 100.0, n);
    } else {
      assert CorpusNeeded(i) == n as real * w;
      ZeroRateDrawdown(w, n);
    }
  }

  /** What current savings grow to by retirement at the pre-retirement return. */
  function SavingsFutureValue(i: Inputs): real
    requires Calculable(i)
  {
    i.currentSavings * Pow(1.0 + i.preRetirementReturn / 100.0, YearsToRetirement(i))
  }

  /** The part of the corpus the grown savings do not cover. */
  function AdditionalCorpus(i: Inputs): (a: real)
    requires Calculable(i)
    ensures a >= 0.0 && a + SavingsFutureValue(i) >= CorpusNeeded(i)
    ensures a == 0.0 <==> SavingsFutureValue(i) >= CorpusNeeded(i)
  {
    Max(0.0, CorpusNeeded(i) - SavingsFutureValue(i))
  }

  function MonthlyRate(i: Inputs): real
  {
    i.preRetirementReturn / 100.0 / 12.0
  }

  function Months(i: Inputs): nat
    requires Calculable(i)
  {
    YearsToRetirement(i) * 12
  }

  /** The monthly saving, `additional / (((1 + m)^n - 1) / m)`, when more
      corpus is needed and the pre-retirement return is positive, else
      nothing. (The page's own fallback to `additional / n` for a zero
      monthly rate sits inside the positive-return branch, so it can never
      run, and is not modelled.) */
  function MonthlySaving(i: Inputs): real
    requires Calculable(i)
  {
    if AdditionalCorpus(i) > 0.0 && i.preRetirementReturn / 100.0 > 0.0 then
      PowAboveOne(1.0 + MonthlyRate(i), Months(i));
      AdditionalCorpus(i) / (Growth(i) / MonthlyRate(i))
    else 0.0
  }

  /** `(1 + m)^n - 1` over the months to retirement. */
  function Growth(i: Inputs): real
    requires Calculable(i)
  {
    Pow(1.0 + MonthlyRate(i), Months(i)) - 1.0
  }

  /** Dividing by the annuity factor is paying the standard level payment. */
  lemma MonthlySavingIsPayment(i: Inputs)
    requires Calculable(i)
    ensures MonthlySaving(i) == if AdditionalCorpus(i) > 0.0 && i.preRetirementReturn > 0.0
                                then PaymentFor(AdditionalCorpus(i), MonthlyRate(i), Months(i)) else 0.0
  {
    if AdditionalCorpus(i) > 0.0 && i.preRetirementReturn > 0.0 {
      var a, m, n := AdditionalCorpus(i), MonthlyRate(i), Months(i);
      PowAboveOne(1.0 + m, n);
      assert PaymentFor(a, m, n) == a * m / Growth(i);
      DivideByFactor(a, Growth(i), m);
    }
  }

  lemma DivideByFactor(a: real, q: real, m: real)
    requires q > 0.0 && m > 0.0
    ensures a / (q / m) == a * m / q
  {
  }

  /** Saved at every month end until retirement at the monthly rate, the
      monthly saving builds exactly the additional corpus, so with the
      grown savings it meets the corpus; it is positive exactly when the
      savings alone fall short. */
  lemma SavingMeetsCorpus(i: Inputs)
    requires Validate(i).Ok?
    ensures OrdinaryBalance(MonthlySaving(i), MonthlyRate(i), Months(i)) == AdditionalCorpus(i)
    ensures SavingsFutureValue(i) + OrdinaryBalance(MonthlySaving(i), MonthlyRate(i), Months(i)) >= CorpusNeeded(i)
    ensures MonthlySaving(i) > 0.0 <==> SavingsFutureValue(i) < CorpusNeeded(i)
  {
    MonthlySavingIsPayment(i);
    var a, m, n := AdditionalCorpus(i), MonthlyRate(i), Months(i);
    if a > 0.0 {
      PaymentForReachesTarget(a, m, n);
      if PaymentFor(a, m, n) == 0.0 {
        ZeroPaymentBalance(m, n);
      }
    } else {
      ZeroPaymentBalance(m, n);
    }
  }

  datatype RetirementResult = RetirementResult(
    requiredRetirementCorpus: int, monthlySavingsRequired: int, annualRetirementIncomeNeeded: int,
    inflatedMonthlyIncome: int, yearsToRetirement: int, yearsInRetirement: int,
    futureValueCurrentSavings: int, additionalCorpusNeeded: int, inputs: Inputs)

  /** The page's own calculation (run when the server cannot be reached);
      money figures are rounded to whole rupees. */
  function CalculateRetirement(i: Inputs): (r: RetirementResult)
    requires Calculable(i)
    ensures r.requiredRetirementCorpus == Round(CorpusNeeded(i))
    ensures r.monthlySavingsRequired == Round(MonthlySaving(i))
    ensures r.annualRetirementIncomeNeeded == Round(AnnualRetirementIncome(i))
    ensures r.inflatedMonthlyIncome == Round(InflatedMonthlyIncome(i))
    ensures r.yearsToRetirement == i.retirementAge - i.currentAge
    ensures r.yearsInRetirement == i.lifeExpectancy - i.retirementAge
    ensures r.futureValueCurrentSavings == Round(SavingsFutureValue(i))
    ensures r.additionalCorpusNeeded == Round(AdditionalCorpus(i))
    ensures r.additionalCorpusNeeded >= 0
    ensures r.inputs == i
  {
    RetirementResult(Round(CorpusNeeded(i)), Round(MonthlySaving(i)), Round(AnnualRetirementIncome(i)),
                     Round(InflatedMonthlyIncome(i)), YearsToRetirement(i), YearsInRetirement(i),
                     Round(SavingsFutureValue(i)), Round(AdditionalCorpus(i)), i)
  }

  /** Saving a scenario appends it and then drops the single oldest entry
      if the list has grown past ten. */
  function SaveScenario<T>(saved: seq<T>, scenario: T): (r: seq<T>)
    ensures |r| > 0 && r[|r| - 1] == scenario
    ensures |r| == if |saved| >= 10 then |saved| else |saved| + 1
    ensures r == (saved + [scenario])[|saved| + 1 - |r|..]
  {
    var pushed := saved + [scenario];
    if |pushed| > 10 then pushed[1..] else pushed
  }

  /** Scenarios saved one after another. */
  function SaveAll<T>(saved: seq<T>, scenarios: seq<T>): seq<T>
  {
    if |scenarios| == 0 then saved
    else SaveScenario(SaveAll(saved, scenarios[..|scenarios| - 1]), scenarios[|scenarios| - 1])
  }

  /** From a list of at most ten, any run of saves leaves exactly the ten
      newest scenarios, in the order they were saved. */
  lemma {:induction false} SaveAllKeepsNewestTen<T>(saved: seq<T>, scenarios: seq<T>)
    requires |saved| <= 10
    ensures SaveAll(saved, scenarios) == Newest(saved + scenarios, 10)
  {
    if |scenarios| == 0 {
      assert saved + scenarios == saved;
    } else {
      var front, x := scenarios[..|scenarios| - 1], scenarios[|scenarios| - 1];
      SaveAllKeepsNewestTen(saved, front);
      assert saved + scenarios == (saved + front) + [x];
      NewestAppend(saved + front, x, 10);
      SaveIsNewest(Newest(saved + front, 10), x);
    }
  }

  /** On a list of at most ten, one save keeps the newest ten. */
  lemma SaveIsNewest<T>(saved: seq<T>, x: T)
    requires |saved| <= 10
    ensures SaveScenario(saved, x) == Newest(saved + [x], 10)
  {
  }

  /** `validateAgeInputs` as written: a retirement age not above the
      current age becomes current + 10, and a life expectancy not above the
      retirement age becomes retirement + 10, both tests and the second
      repair using the retirement age as it was BEFORE the first repair.
      Returns the new retirement age and life expectancy. */
  function AdjustAgesAsWritten(currentAge: int, retirementAge: int, lifeExpectancy: int): (r: (int, int))
    ensures r.0 > currentAge
    ensures lifeExpectancy > retirementAge ==> r.1 == lifeExpectancy
  {
    var retirement := if retirementAge <= currentAge then currentAge + 10 else retirementAge;
    var life := if lifeExpectancy <= retirementAge then retirementAge + 10 else lifeExpectancy;
    (retirement, life)
  }

  /** Ages 50, 40 and 45: retirement moves to 60 but life expectancy stays
      at 45, because it was compared with the old retirement age 40, so the
      corrected fields still fail the page's own age check. */
  lemma AgeRepairCanLeaveDisorder()
    ensures AdjustAgesAsWritten(50, 40, 45) == (60, 45)
    ensures Validate(Inputs(50, 60, 45, 50000.0, 6.0, 8.0, 6.0, 100000.0)).Err?
  {
  }

  /** The repair as intended: life expectancy is compared with, and moved
      past, the corrected retirement age, so the ages always end in order. */
  function AdjustAges(currentAge: int, retirementAge: int, lifeExpectancy: int): (r: (int, int))
    ensures currentAge < r.0 < r.1
    ensures retirementAge > currentAge ==> r.0 == retirementAge
    ensures lifeExpectancy > r.0 ==> r.1 == lifeExpectancy
  {
    var retirement := if retirementAge <= currentAge then currentAge + 10 else retirementAge;
    var life := if lifeExpectancy <= retirement then retirement + 10 else lifeExpectancy;
    (retirement, life)
  }

  /** The two agree whenever the retirement age needed no repair. */
  lemma AdjustAgesAgreesWhenRetirementValid(currentAge: int, retirementAge: int, lifeExpectancy: int)
    requires retirementAge > currentAge
    ensures AdjustAges(currentAge, retirementAge, lifeExpectancy)
            == AdjustAgesAsWritten(currentAge, retirementAge, lifeExpectancy)
  {
  }
}
