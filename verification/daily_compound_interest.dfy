/** Daily compound interest: a principal compounded at one of six
    frequencies for a period entered in days, weeks, months, quarters or
    years, with a table comparing all six frequencies. */
module DailyCompound {
  import opened Num
  import opened Results
  import opened Sorting
  import opened Labels

  /** The units the period can be entered in; any other selector value is `Unlisted`. */
  datatype Unit = Days | Weeks | Months | Quarters | Years | Unlisted

  function UnitOf(name: string): Unit
  {
    if name == "days" then Days
    else if name == "weeks" then Weeks
    else if name == "months" then Months
    else if name == "quarters" then Quarters
    else if name == "years" then Years
    else Unlisted
  }

  function UnitName(u: Unit): string
    requires u != Unlisted
  {
    match u
    case Days => "days"
    case Weeks => "weeks"
    case Months => "months"
    case Quarters => "quarters"
    case Years => "years"
  }

  lemma UnitNameRoundTrip(u: Unit)
    requires u != Unlisted
    ensures UnitOf(UnitName(u)) == u
  {
  }

  /** How many of a unit make one year; an unlisted unit counts as days. */
  function PerYear(u: Unit): (r: real)
    ensures r >= 1.0
  {
    match u
    case Days => 365.0
    case Weeks => 52.0
    case Months => 12.0
    case Quarters => 4.0
    case Years => 1.0
    case Unlisted => 365.0
  }

  /** The range the period input accepts in a unit, and the value it falls
      back to when the current entry lies outside that range. */
  datatype Limits = Limits(min: real, max: real, default: real)

  function LimitsFor(u: Unit): (l: Limits)
    ensures l.min == 1.0 <= l.default <= l.max
  {
    match u
    case Days => Limits(1.0, 3650.0, 1.0)
    case Weeks => Limits(1.0, 520.0, 4.0)
    case Months => Limits(1.0, 120.0, 12.0)
    case Quarters => Limits(1.0, 40.0, 4.0)
    case Years => Limits(1.0, 50.0, 5.0)
    case Unlisted => Limits(1.0, 3650.0, 1.0)
  }

  /** The period in years: the entry divided by the unit's count per year. */
  function TimeInYears(value: real, u: Unit): (t: real)
    ensures t * PerYear(u) == value
    ensures t > 0.0 <==> value > 0.0
  {
    value / PerYear(u)
  }

  /** The longest period the sliders offer is ten years in every unit but
      years, where it is the fifty years the validation allows. */
  lemma LongestPeriod(u: Unit)
    ensures u != Years ==> TimeInYears(LimitsFor(u).max, u) == 10.0
    ensures u == Years ==> TimeInYears(LimitsFor(u).max, u) == 50.0
  {
  }

  /** The period entry after the unit changes: an entry whose numeric value
      (`parseFloat(...) || 0`) lies outside the unit's range is replaced by
      the unit's default; any other entry is kept. */
  function ResetPeriod(u: Unit, entry: Field): (r: Field)
    ensures var l := LimitsFor(u);
            l.min <= OrDefault(r, 0.0) <= l.max
    ensures var v := OrDefault(entry, 0.0);
            LimitsFor(u).min <= v <= LimitsFor(u).max ==> r == entry
  {
    var l := LimitsFor(u);
    var current := OrDefault(entry, 0.0);
    if current < l.min || current > l.max then Some(l.default) else entry
  }

  /** Resetting twice is the same as resetting once. */
  lemma ResetIsIdempotent(u: Unit, entry: Field)
    ensures ResetPeriod(u, ResetPeriod(u, entry)) == ResetPeriod(u, entry)
  {
  }

  /** The figures the calculation reads from the form. */
  datatype Request = Request(principal: real, annualRate: real, periodValue: real,
                             unit: Unit, timeYears: real, frequency: Frequency)

  /** Reads the form: an empty or zero principal is 0, an empty or zero rate
      is 10, an empty or zero period is 1, and an unknown frequency
      compounds daily. */
  function ReadRequest(principal: Field, annualRate: Field, period: Field,
                       unitName: string, frequency: string): (q: Request)
    ensures q.unit == UnitOf(unitName) && q.frequency == FrequencyOf(frequency)
    ensures q.timeYears * PerYear(q.unit) == q.periodValue
    ensures q.annualRate != 0.0 && q.periodValue != 0.0
    ensures ReadsAs(q.principal, principal, 0.0)
    ensures ReadsAs(q.annualRate, annualRate, 10.0)
    ensures ReadsAs(q.periodValue, period, 1.0)
  {
    var value := OrDefault(period, 1.0);
    var u := UnitOf(unitName);
    Request(OrDefault(principal, 0.0), OrDefault(annualRate, 10.0), value, u, TimeInYears(value, u), FrequencyOf(frequency))
  }

  const PrincipalError := "Principal amount must be greater than 0"
  const RateError := "Interest rate must be greater than 0"
  const TimeError := "Time period must be greater than 0"
  const PrincipalLimitError := "Principal amount cannot exceed ₹1,00,00,000"
  const RateLimitError := "Interest rate cannot exceed 50%"
  const TimeLimitError := "Time period cannot exceed 50 years"

  /** The checks in the order the page makes them; the first failure wins. */
  function Validate(q: Request): (r: Result<Request>)
    ensures r.Ok? <==> 0.0 < q.principal <= 10000000.0 && 0.0 < q.annualRate <= 50.0
                       && 0.0 < q.timeYears <= 50.0
    ensures r.Ok? ==> r.value == q
    ensures q.principal <= 0.0 ==> r == Err(PrincipalError)
    ensures q.principal > 0.0 && q.annualRate <= 0.0 ==> r == Err(RateError)
  {
    if q.principal <= 0.0 then Err(PrincipalError)
    else if q.annualRate <= 0.0 then Err(RateError)
    else if q.timeYears <= 0.0 then Err(TimeError)
    else if q.principal > 10000000.0 then Err(PrincipalLimitError)
    else if q.annualRate > 50.0 then Err(RateLimitError)
    else if q.timeYears > 50.0 then Err(TimeLimitError)
    else Ok(q)
  }

  /** Every period the slider of a unit offers passes the period checks. */
  lemma SliderPeriodsAreValid(u: Unit, value: real)
    requires LimitsFor(u).min <= value <= LimitsFor(u).max
    ensures 0.0 < TimeInYears(value, u) <= 50.0
  {
    var t := TimeInYears(value, u);
    assert t * PerYear(u) <= LimitsFor(u).max;
    if t > 50.0 {
      ScaleMono(PerYear(u), 50.0, t);
      assert false;
    }
  }

  /** One plus the rate of one compounding period. */
  function PeriodGrowth(annualRate: real, count: int): real
    requires count >= 1
  {
    1.0 + annualRate / 100.0 / count as real
  }

  /** `v` is the future value the page takes from `Math.pow` for `count`
      compounding periods a year: whenever the number of periods is whole,
      it is the principal compounded that many times. */
  ghost predicate IsFutureValue(principal: real, annualRate: real, timeYears: real, count: int, v: real)
    requires count >= 1
  {
    forall m: nat :: m as real == count as real * timeYears ==> v == principal * Pow(PeriodGrowth(annualRate, count), m)
  }

  /** With a non-negative rate and a whole number of periods, money only grows. */
  lemma WholePeriodsGrow(principal: real, annualRate: real, timeYears: real, count: int, v: real, m: nat)
    requires count >= 1 && principal >= 0.0 && annualRate >= 0.0
    requires IsFutureValue(principal, annualRate, timeYears, count, v)
    requires m as real == count as real * timeYears
    ensures v >= principal
  {
    var g := PeriodGrowth(annualRate, count);
    assert v == principal * Pow(g, m);
    PowAtLeastOne(g, m);
    ScaleMono(principal, 1.0, Pow(g, m));
  }

  /** The compounding frequencies in the order the page lists them. */
  datatype Frequency = Daily | Weekly | Monthly | Quarterly | HalfYearly | Annually

  const Frequencies: seq<Frequency> := [Daily, Weekly, Monthly, Quarterly, HalfYearly, Annually]

  /** The selector value of a frequency. */
  function Key(f: Frequency): string
  {
    match f
    case Daily => "daily"
    case Weekly => "weekly"
    case Monthly => "monthly"
    case Quarterly => "quarterly"
    case HalfYearly => "half-yearly"
    case Annually => "annually"
  }

  /** Compounding periods per year. */
  function Count(f: Frequency): (n: int)
    ensures n >= 1
  {
    match f
    case Daily => 365
    case Weekly => 52
    case Monthly => 12
    case Quarterly => 4
    case HalfYearly => 2
    case Annually => 1
  }

  /** The frequency a selector value compounds at: `frequencyMap[name] || 365`,
      so an unknown value compounds daily. */
  function FrequencyOf(name: string): (f: Frequency)
    ensures f != Daily ==> Key(f) == name
  {
    if name == "weekly" then Weekly
    else if name == "monthly" then Monthly
    else if name == "quarterly" then Quarterly
    else if name == "half-yearly" then HalfYearly
    else if name == "annually" then Annually
    else Daily
  }

  lemma KeyRoundTrip(f: Frequency)
    ensures FrequencyOf(Key(f)) == f
  {
  }

  /** Where a frequency stands in the list. */
  function Position(f: Frequency): (k: nat)
    ensures k < |Frequencies| && Frequencies[k] == f
  {
    match f
    case Daily => 0
    case Weekly => 1
    case Monthly => 2
    case Quarterly => 3
    case HalfYearly => 4
    case Annually => 5
  }

  /** More periods a year come earlier in the list. */
  lemma CountsDescend(i: nat, j: nat)
    requires i < j < |Frequencies|
    ensures Count(Frequencies[i]) > Count(Frequencies[j])
  {
  }

  /** A row of the comparison table; the page shows the frequency as
      `Title(row)`. */
  datatype ComparisonRow = ComparisonRow(frequency: Frequency, futureValue: real,
                                         interestEarned: real, difference: real)

  /** The frequency column's text: first letter capitalised, the first
      hyphen turned into a space, so `half-yearly` reads `Half yearly`. */
  function Title(row: ComparisonRow): string
  {
    Label(Key(row.frequency))
  }

  /** The row of one frequency whose future value is `v`, beside the
      selected frequency's future value `chosen`. */
  function RowOf(f: Frequency, principal: real, v: real, chosen: real): ComparisonRow
  {
    ComparisonRow(f, Round2(v), Round2(v - principal), Round2((v - principal) - (chosen - principal)))
  }

  /** The comparison rows before sorting, one per frequency in list order;
      `selected` is the position of the frequency the summary uses. */
  function RowsFor(principal: real, fv: seq<real>, selected: nat): (rows: seq<ComparisonRow>)
    requires |fv| == |Frequencies| && selected < |fv|
    ensures |rows| == |fv|
    ensures forall k :: 0 <= k < |rows| ==> rows[k].frequency == Frequencies[k]
  {
    seq(|fv|, k requires 0 <= k < |fv| => RowOf(Frequencies[k], principal, fv[k], fv[selected]))
  }

  function InterestKey(r: ComparisonRow): real
  {
    r.interestEarned
  }

  /** Frequencies that earn the same rounded interest keep their list order. */
  lemma TiesKeepListOrder(principal: real, fv: seq<real>, selected: nat, v: real)
    requires |fv| == |Frequencies| && selected < |fv|
    ensures WithKey(SortDescendingBy(RowsFor(principal, fv, selected), InterestKey), InterestKey, v)
         == WithKey(RowsFor(principal, fv, selected), InterestKey, v)
  {
    SortKeepsTies(RowsFor(principal, fv, selected), InterestKey, v);
  }

  /** When more frequent compounding never earns less, as it does for a
      positive rate, the table keeps the list order: daily first. */
  lemma MoreFrequentComesFirst(principal: real, fv: seq<real>, selected: nat)
    requires |fv| == |Frequencies| && selected < |fv|
    requires forall k :: 0 < k < |fv| ==> fv[k - 1] >= fv[k]
    ensures SortDescendingBy(RowsFor(principal, fv, selected), InterestKey)
         == RowsFor(principal, fv, selected)
  {
    var rows := RowsFor(principal, fv, selected);
    forall i, j | 0 <= i < j < |rows|
      ensures InterestKey(rows[i]) >= InterestKey(rows[j])
    {
      ValuesDescend(fv, i, j);
      assert rows[i].interestEarned == Round2(fv[i] - principal);
      assert rows[j].interestEarned == Round2(fv[j] - principal);
      Round2Mono(fv[j] - principal, fv[i] - principal);
    }
    SortedIsUnchanged(rows, InterestKey);
  }

  lemma {:induction false} ValuesDescend(fv: seq<real>, i: nat, j: nat)
    requires forall k :: 0 < k < |fv| ==> fv[k - 1] >= fv[k]
    requires i <= j < |fv|
    ensures fv[i] >= fv[j]
    decreases j - i
  {
    if i < j {
      ValuesDescend(fv, i + 1, j);
    }
  }

  /** The difference column compares a frequency with the selected one: it
      is never negative for a frequency worth at least as much, never
      positive for one worth at most as much, and zero for the selected
      frequency itself. */
  lemma DifferenceFollowsValue(f: Frequency, principal: real, v: real, chosen: real)
    ensures v >= chosen ==> RowOf(f, principal, v, chosen).difference >= 0.0
    ensures v <= chosen ==> RowOf(f, principal, v, chosen).difference <= 0.0
    ensures RowOf(f, principal, chosen, chosen).difference == 0.0
  {
    var d := (v - principal) - (chosen - principal);
    ZeroRoundsToZero();
    if v >= chosen {
      Round2Mono(0.0, d);
    }
    if v <= chosen {
      Round2Mono(d, 0.0);
    }
  }

  lemma ZeroRoundsToZero()
    ensures Round2(0.0) == 0.0
  {
    RoundOfInteger(0);
  }

  /** The selected frequency's row is in the sorted table, with a zero
      difference. */
  lemma SelectedRowShown(principal: real, fv: seq<real>, selected: nat)
    requires |fv| == |Frequencies| && selected < |fv|
    ensures var row := RowOf(Frequencies[selected], principal, fv[selected], fv[selected]);
            row in SortDescendingBy(RowsFor(principal, fv, selected), InterestKey)
            && row.difference == 0.0
  {
    var unsorted := RowsFor(principal, fv, selected);
    DifferenceFollowsValue(Frequencies[selected], principal, fv[selected], fv[selected]);
    assert unsorted[selected] in unsorted;
    SortKeepsMembers(unsorted, InterestKey, unsorted[selected]);
  }

  /** The six future values, in list order. */
  ghost predicate AreFutureValues(principal: real, annualRate: real, timeYears: real, fv: seq<real>)
  {
    |fv| == |Frequencies|
    && forall k :: 0 <= k < |fv| ==> IsFutureValue(principal, annualRate, timeYears, Count(Frequencies[k]), fv[k])
  }

  /** The summary figures and the comparison table. */
  datatype CompoundResult = CompoundResult(principal: real, annualRate: real, timeYears: real,
                                           futureValue: real, interestEarned: real, effectiveRate: real,
                                           comparisonData: seq<ComparisonRow>)

  /** The page's own calculation for the frequency at position `selected`.
      `fv` holds the six future values in list order (the page computes
      them with `Math.pow` on a fractional exponent), and `root` stands for
      `Math.pow(futureValue / principal, 1 / timeYears)`, the yearly growth
      behind the effective rate. The table is the rows sorted by interest
      earned, largest first. */
  function Calculate(principal: real, annualRate: real, timeYears: real, fv: seq<real>, selected: nat,
                     root: real): (r: CompoundResult)
    requires |fv| == |Frequencies| && selected < |fv|
    ensures r.futureValue == Round2(fv[selected]) && r.interestEarned == Round2(fv[selected] - principal)
    ensures r.effectiveRate == Round2((root - 1.0) * 100.0)
    ensures multiset(r.comparisonData) == multiset(RowsFor(principal, fv, selected))
    ensures DescendingBy(r.comparisonData, InterestKey)
    ensures var row := RowOf(Frequencies[selected], principal, fv[selected], fv[selected]);
            row in r.comparisonData && row.futureValue == r.futureValue
            && row.interestEarned == r.interestEarned && row.difference == 0.0
  {
    SelectedRowShown(principal, fv, selected);
    CompoundResult(Round2(principal), annualRate, timeYears, Round2(fv[selected]), Round2(fv[selected] - principal),
                   Round2((root - 1.0) * 100.0), SortDescendingBy(RowsFor(principal, fv, selected), InterestKey))
  }

  /** The calculation for a request; an unknown frequency was read as
      daily, so its figures are the daily ones. */
  function CalculateClientSide(q: Request, fv: seq<real>, root: real): CompoundResult
    requires |fv| == |Frequencies|
  {
    Calculate(q.principal, q.annualRate, q.timeYears, fv, Position(q.frequency), root)
  }

  /** `root` is the yearly growth that takes `principal` to `v` in `t`
      whole years: what `Math.pow(v / principal, 1 / t)` gives. */
  predicate IsYearlyRoot(principal: real, t: nat, v: real, root: real)
  {
    root >= 0.0 && principal * Pow(root, t) == v
  }

  /** The yearly growth is at least one exactly when the money did not shrink. */
  lemma YearlyRootSign(principal: real, t: nat, v: real, root: real)
    requires principal > 0.0 && t > 0 && IsYearlyRoot(principal, t, v, root)
    ensures root >= 1.0 <==> v >= principal
  {
    var p := Pow(root, t);
    if root >= 1.0 {
      PowAtLeastOne(root, t);
      ScaleMono(principal, 1.0, p);
    } else {
      PowBelowOne(root, t);
      ScaleStrict(principal, p, 1.0);
    }
  }

  /** Compounding `n` times a year at growth `g >= 1` for `t` years has
      the yearly root `g^n`. */
  lemma RootOfCompounding(principal: real, g: real, n: nat, t: nat, root: real)
    requires principal > 0.0 && g >= 1.0 && t > 0
    requires IsYearlyRoot(principal, t, principal * Pow(g, t * n), root)
    ensures root == Pow(g, n) && root >= 1.0
  {
    PowMul(g, n, t);
    var year := Pow(g, n);
    assert principal * Pow(root, t) == principal * Pow(year, t);
    assert Pow(root, t) == Pow(year, t);
    PowAtLeastOne(g, n);
    PowRootUnique(root, year, t);
  }

  /** Over a whole number of years at a non-negative rate, the effective
      rate is the selected compounding's one-year growth, `(1 + r/n)^n - 1`
      as a percentage rounded to hundredths, and so never negative. */
  lemma EffectiveRateIsYearlyGrowth(principal: real, annualRate: real, timeYears: real, fv: seq<real>,
                                    selected: nat, t: nat, root: real)
    requires AreFutureValues(principal, annualRate, timeYears, fv) && selected < |fv|
    requires principal > 0.0 && annualRate >= 0.0 && t > 0 && t as real == timeYears
    requires IsYearlyRoot(principal, t, fv[selected], root)
    ensures var n := Count(Frequencies[selected]);
            root == Pow(PeriodGrowth(annualRate, n), n as nat)
            && Calculate(principal, annualRate, timeYears, fv, selected, root).effectiveRate
               == Round2((Pow(PeriodGrowth(annualRate, n), n as nat) - 1.0) * 100.0)
    ensures Calculate(principal, annualRate, timeYears, fv, selected, root).effectiveRate >= 0.0
  {
    var n: nat := Count(Frequencies[selected]);
    var g := PeriodGrowth(annualRate, n);
    var m: nat := t * n;
    assert m as real == n as real * timeYears;
    assert fv[selected] == principal * Pow(g, m);
    RootOfCompounding(principal, g, n, t, root);
    ZeroRoundsToZero();
    Round2Mono(0.0, (root - 1.0) * 100.0);
  }

  /** When compounding more often never earns less, as holds for a
      positive rate, the table lists the frequencies in list order, daily
      first. */
  lemma TableInListOrder(q: Request, fv: seq<real>, root: real)
    requires |fv| == |Frequencies|
    requires forall k :: 0 < k < |fv| ==> fv[k - 1] >= fv[k]
    ensures CalculateClientSide(q, fv, root).comparisonData == RowsFor(q.principal, fv, Position(q.frequency))
  {
    MoreFrequentComesFirst(q.principal, fv, Position(q.frequency));
  }

  /** With a non-negative rate and a whole number of compounding periods
      for the selected frequency, the summary never shows negative interest. */
  lemma InterestNotNegative(principal: real, annualRate: real, timeYears: real, fv: seq<real>, selected: nat, m: nat,
                            root: real)
    requires AreFutureValues(principal, annualRate, timeYears, fv) && selected < |fv|
    requires principal >= 0.0 && annualRate >= 0.0
    requires m as real == Count(Frequencies[selected]) as real * timeYears
    ensures Calculate(principal, annualRate, timeYears, fv, selected, root).interestEarned >= 0.0
  {
    WholePeriodsGrow(principal, annualRate, timeYears, Count(Frequencies[selected]), fv[selected], m);
    ZeroRoundsToZero();
    Round2Mono(0.0, fv[selected] - principal);
  }
}
