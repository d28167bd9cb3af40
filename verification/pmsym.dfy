/** Pradhan Mantri Shram Yogi Maan-dhan: an age-based monthly contribution,
    matched 50% by the government, paid from joining until 60 and grown
    monthly at 8% a year. */
module Pmsym {
  import opened Num
  import opened Results

  const PensionAmount: real := 3000.0
  const InterestRate: real := 8.0
  const MonthlyFactor: real := 1.0 + InterestRate / 100.0 / 12.0

  datatype Row = Row(year: int, age: real, yearlySubscriber: real, yearlyGovernment: real,
                     totalYearly: real, corpusAtYearEnd: real,
                     cumulativeSubscriber: real, cumulativeGovernment: real)

  datatype PmsymResult = PmsymResult(
    monthlyContribution: real, governmentContribution: real, pensionAmount: real,
    interestRate: real, yearsOfContribution: int,
    totalSubscriber: real, totalGovernment: real, totalContribution: real,
    corpusAt60: real, yearlyBreakdown: seq<Row>)

  /** The subscriber's monthly contribution by joining age: 55 up to 29,
      then 5 more for each further year of age, 110 from 40 on. */
  function MonthlyContribution(age: real): (c: real)
    ensures 55.0 <= c <= 110.0
    ensures age <= 29.0 ==> c == 55.0
    ensures age > 39.0 ==> c == 110.0
  {
    if age <= 29.0 then 55.0
    else if age <= 30.0 then 60.0
    else if age <= 31.0 then 65.0
    else if age <= 32.0 then 70.0
    else if age <= 33.0 then 75.0
    else if age <= 34.0 then 80.0
    else if age <= 35.0 then 85.0
    else if age <= 36.0 then 90.0
    else if age <= 37.0 then 95.0
    else if age <= 38.0 then 100.0
    else if age <= 39.0 then 105.0
    else 110.0
  }

  /** The contribution table is a staircase: 5 rupees per year of age over
      29, reached at each whole age, and never lower for an older joiner. */
  lemma ContributionStaircase(a: int)
    requires 29 <= a <= 40
    ensures MonthlyContribution(a as real) == 55.0 + 5.0 * (a - 29) as real
  {
  }

  lemma ContributionMonotone(x: real, y: real)
    requires x <= y
    ensures MonthlyContribution(x) <= MonthlyContribution(y)
  {
  }

  /** The corpus after `n` months of paying `monthly` and then growing by
      `factor`. */
  function Corpus(n: nat, monthly: real, factor: real): real
  {
    if n == 0 then 0.0 else (Corpus(n - 1, monthly, factor) + monthly) * factor
  }

  /** The geometric-series closed form of the corpus. */
  lemma {:induction false} CorpusClosedForm(n: nat, monthly: real, factor: real)
    ensures Corpus(n, monthly, factor) * (factor - 1.0) == monthly * factor * (Pow(factor, n) - 1.0)
  {
    if n == 0 {
      assert Corpus(n, monthly, factor) == 0.0;
      assert Pow(factor, n) == 1.0;
    } else {
      CorpusClosedForm(n - 1, monthly, factor);
      CorpusStep(Corpus(n, monthly, factor), Corpus(n - 1, monthly, factor), monthly, factor,
                 Pow(factor, n), Pow(factor, n - 1));
    }
  }

  /** One month of `CorpusClosedForm`, over plain numbers. */
  lemma CorpusStep(cn: real, c: real, monthly: real, factor: real, pn: real, p: real)
    requires cn == (c + monthly) * factor && pn == factor * p
    requires c * (factor - 1.0) == monthly * factor * (p - 1.0)
    ensures cn * (factor - 1.0) == monthly * factor * (pn - 1.0)
  {
    var k := c * (factor - 1.0);
    calc {
      cn * (factor - 1.0);
      (c + monthly) * factor * (factor - 1.0);
      factor * k + monthly * factor * (factor - 1.0);
      factor * (monthly * factor * (p - 1.0)) + monthly * factor * (factor - 1.0);
      monthly * factor * (pn - 1.0);
    }
  }

  /** With a growth factor of at least 1 the corpus is never below the sum
      of the payments. */
  lemma {:induction false} CorpusAtLeastPaid(n: nat, monthly: real, factor: real)
    requires monthly >= 0.0 && factor >= 1.0
    ensures Corpus(n, monthly, factor) >= n as real * monthly
  {
    if n > 0 {
      CorpusAtLeastPaid(n - 1, monthly, factor);
      var c := Corpus(n - 1, monthly, factor) + monthly;
      assert c >= n as real * monthly;
      ScaleMono(c, 1.0, factor);
    }
  }

  predicate RowOk(row: Row, k: nat, age: real, m: real)
  {
    && row.year == k + 1 && row.age == age + (k + 1) as real
    && row.yearlySubscriber == m * 12.0 && row.yearlyGovernment == m * 0.5 * 12.0
    && row.totalYearly == (m + m * 0.5) * 12.0
    && row.corpusAtYearEnd == Corpus(12 * (k + 1), m + m * 0.5, MonthlyFactor)
    && row.cumulativeSubscriber == m * 12.0 * (k + 1) as real
    && row.cumulativeGovernment == m * 0.5 * 12.0 * (k + 1) as real
  }

  /** The yearly rows, with the corpus grown month by month. */
  method YearlyBreakdown(age: real, m: real, years: int) returns (rows: seq<Row>, corpus: real)
    ensures |rows| == if years > 0 then years else 0
    ensures forall k :: 0 <= k < |rows| ==> RowOk(rows[k], k, age, m)
    ensures corpus == Corpus(12 * |rows|, m + m * 0.5, MonthlyFactor)
  {
    rows := [];
    corpus := 0.0;
    var gov := m * 0.5;
    var year := 1;
    while year <= years
      invariant 1 <= year
      invariant |rows| == year - 1
      invariant years > 0 ==> year <= years + 1
      invariant years <= 0 ==> year == 1
      invariant corpus == Corpus(12 * (year - 1), m + gov, MonthlyFactor)
      invariant forall k :: 0 <= k < |rows| ==> RowOk(rows[k], k, age, m)
    {
      var month := 0;
      while month < 12
        invariant 0 <= month <= 12
        invariant corpus == Corpus(12 * (year - 1) + month, m + gov, MonthlyFactor)
      {
        var monthlyTotal := m + gov;
        corpus := corpus + monthlyTotal;
        corpus := corpus * (1.0 + InterestRate / 100.0 / 12.0);
        month := month + 1;
      }
      var row := Row(year, age + year as real, m * 12.0, gov * 12.0, (m + gov) * 12.0, corpus,
                     m * 12.0 * year as real, gov * 12.0 * year as real);
      assert RowOk(row, year - 1, age, m);
      rows := rows + [row];
      year := year + 1;
    }
  }

  /** A monthly amount paid for `years` whole years. */
  function PaidOver(monthly: real, years: int): real
  {
    monthly * 12.0 * years as real
  }

  lemma PaidOverAdds(a: real, b: real, years: int)
    ensures PaidOver(a, years) + PaidOver(b, years) == PaidOver(a + b, years)
  {
  }

  method CalculatePmsym(joiningAge: real) returns (r: Result<PmsymResult>)
    ensures r.Err? <==> joiningAge < 18.0 || joiningAge > 40.0
    ensures r.Ok? ==>
              var v := r.value;
              var m := MonthlyContribution(joiningAge);
              && v.yearsOfContribution == Floor(60.0 - joiningAge)
              && 20 <= v.yearsOfContribution <= 42
              && v.monthlyContribution == m && v.governmentContribution * 2.0 == m
              && v.pensionAmount == PensionAmount && v.interestRate == InterestRate
              && v.totalSubscriber == Round2(PaidOver(m, v.yearsOfContribution))
              && v.totalGovernment == Round2(PaidOver(m * 0.5, v.yearsOfContribution))
              && v.totalContribution == Round2(PaidOver(m * 1.5, v.yearsOfContribution))
              && |v.yearlyBreakdown| == v.yearsOfContribution
              && v.corpusAt60 == Round2(Corpus(12 * v.yearsOfContribution, m * 1.5, MonthlyFactor))
  {
    if joiningAge < 18.0 || joiningAge > 40.0 {
      return Err("Joining age must be between 18 and 40 years");
    }
    var years := Floor(60.0 - joiningAge);
    var m := MonthlyContribution(joiningAge);
    var gov := m * 0.5;
    var totalSub := PaidOver(m, years);
    var totalGov := PaidOver(gov, years);
    PaidOverAdds(m, gov, years);
    var rows, corpus := YearlyBreakdown(joiningAge, m, years);
    assert m + m * 0.5 == m * 1.5;
    r := Ok(PmsymResult(m, gov, PensionAmount, InterestRate, years, Round2(totalSub), Round2(totalGov),
                        Round2(totalSub + totalGov), Round2(corpus), rows));
  }
}
