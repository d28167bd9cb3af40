/** Interest-rate (loan) page: the request's tenure split, grouping the
    monthly schedule returned by the server into year rows, and month labels. */
module InterestRate {
  import opened Num
  import opened IndianDigits
  import Tenure

  /** One month of the repayment schedule. */
  datatype Payment = Payment(month: int, principal: real, interest: real, emi: real,
                             balance: real, loanPaidPercentage: real)

  /** One year row: its sums, its closing balance, and its months in order. */
  datatype YearBucket = YearBucket(year: int, principal: real, interest: real,
                                   totalPayment: real, balance: real, months: seq<Payment>)

  /** `Math.ceil(month / 12)`. */
  function YearOf(month: int): (y: int)
    ensures (y - 1) * 12 < month <= y * 12
  {
    (month + 11) / 12
  }

  /** The schedule entries falling in year `y`, in schedule order. */
  function InYear(s: seq<Payment>, y: int): (r: seq<Payment>)
    ensures |r| <= |s|
    ensures forall k :: 0 <= k < |r| ==> YearOf(r[k].month) == y
  {
    if |s| == 0 then []
    else InYear(s[..|s| - 1], y) + (if YearOf(s[|s| - 1].month) == y then [s[|s| - 1]] else [])
  }

  datatype Field = PrincipalField | InterestField | EmiField

  function Get(p: Payment, f: Field): real
  {
    match f
    case PrincipalField => p.principal
    case InterestField => p.interest
    case EmiField => p.emi
  }

  function Total(s: seq<Payment>, f: Field): real
  {
    if |s| == 0 then 0.0 else Total(s[..|s| - 1], f) + Get(s[|s| - 1], f)
  }

  /** The row for year `y`: sums over its months and the last month's balance. */
  function BucketFor(s: seq<Payment>, y: int): YearBucket
    requires |InYear(s, y)| > 0
  {
    var ms := InYear(s, y);
    YearBucket(y, Total(ms, PrincipalField), Total(ms, InterestField), Total(ms, EmiField),
               ms[|ms| - 1].balance, ms)
  }

  /** The largest year of any entry (0 for an empty schedule). */
  function MaxYear(s: seq<Payment>): (m: int)
    ensures m >= 0
    ensures forall k :: 0 <= k < |s| ==> YearOf(s[k].month) <= m
  {
    if |s| == 0 then 0
    else
      var y := YearOf(s[|s| - 1].month);
      var rest := MaxYear(s[..|s| - 1]);
      assert forall k :: 0 <= k < |s| - 1 ==> s[..|s| - 1][k] == s[k];
      if y > rest then y else rest
  }

  /** The rows of years `lo..hi` that have entries, in ascending year order:
      the order in which `Object.values` lists integer keys. */
  function RowsFrom(s: seq<Payment>, lo: int, hi: int): seq<YearBucket>
    decreases hi - lo + 1
  {
    if lo > hi then []
    else (if |InYear(s, lo)| > 0 then [BucketFor(s, lo)] else []) + RowsFrom(s, lo + 1, hi)
  }

  /** The reference grouping of a schedule into year rows. */
  function YearRows(s: seq<Payment>): seq<YearBucket>
  {
    RowsFrom(s, 1, MaxYear(s))
  }

  /** The same rows read out of a map keyed by year. */
  function ValuesFrom(m: map<int, YearBucket>, lo: int, hi: int): seq<YearBucket>
    decreases hi - lo + 1
  {
    if lo > hi then [] else (if lo in m then [m[lo]] else []) + ValuesFrom(m, lo + 1, hi)
  }

  lemma {:induction false} ValuesAreRows(m: map<int, YearBucket>, s: seq<Payment>, lo: int, hi: int)
    requires forall y :: lo <= y <= hi ==> (y in m <==> |InYear(s, y)| > 0)
    requires forall y :: lo <= y <= hi && y in m ==> |InYear(s, y)| > 0 && m[y] == BucketFor(s, y)
    ensures ValuesFrom(m, lo, hi) == RowsFrom(s, lo, hi)
    decreases hi - lo + 1
  {
    if lo <= hi {
      ValuesAreRows(m, s, lo + 1, hi);
    }
  }

  lemma InYearAppend(s: seq<Payment>, p: Payment, y: int)
    ensures InYear(s + [p], y) == InYear(s, y) + (if YearOf(p.month) == y then [p] else [])
  {
    assert (s + [p])[..|s|] == s;
  }

  lemma MaxYearAppend(s: seq<Payment>, p: Payment)
    ensures MaxYear(s + [p]) == if YearOf(p.month) > MaxYear(s) then YearOf(p.month) else MaxYear(s)
  {
    assert (s + [p])[..|s|] == s;
  }

  lemma TotalAppend(s: seq<Payment>, p: Payment, f: Field)
    ensures Total(s + [p], f) == Total(s, f) + Get(p, f)
  {
    assert (s + [p])[..|s|] == s;
  }

  /** `yearly` holds exactly the rows of the entries `s`, keyed by year. */
  ghost predicate Represents(yearly: map<int, YearBucket>, s: seq<Payment>)
  {
    && (forall y :: y in yearly <==> |InYear(s, y)| > 0)
    && (forall y :: y in yearly ==> |InYear(s, y)| > 0 && yearly[y] == BucketFor(s, y))
  }

  /** One pass of the loop body: create the year's row on first sight, then
      add the entry's amounts, take its balance and append it. */
  function AddPayment(yearly: map<int, YearBucket>, p: Payment): map<int, YearBucket>
  {
    var year := YearOf(p.month);
    var start := if year in yearly then yearly else yearly[year := YearBucket(year, 0.0, 0.0, 0.0, p.balance, [])];
    var b := start[year];
    start[year := b.(principal := b.principal + p.principal,
                     interest := b.interest + p.interest,
                     totalPayment := b.totalPayment + p.emi,
                     balance := p.balance,
                     months := b.months + [p])]
  }

  lemma AddPaymentYearRow(yearly: map<int, YearBucket>, s: seq<Payment>, p: Payment)
    requires Represents(yearly, s)
    ensures var year := YearOf(p.month);
            InYear(s + [p], year) == InYear(s, year) + [p]
            && AddPayment(yearly, p)[year] == BucketFor(s + [p], year)
  {
    var year := YearOf(p.month);
    InYearAppend(s, p, year);
    var b := if year in yearly then yearly[year] else YearBucket(year, 0.0, 0.0, 0.0, p.balance, []);
    assert b.months == InYear(s, year);
    TotalAppend(b.months, p, PrincipalField);
    TotalAppend(b.months, p, InterestField);
    TotalAppend(b.months, p, EmiField);
  }

  lemma AddPaymentOtherRows(yearly: map<int, YearBucket>, p: Payment, y: int)
    requires y != YearOf(p.month)
    ensures y in AddPayment(yearly, p) <==> y in yearly
    ensures y in yearly ==> AddPayment(yearly, p)[y] == yearly[y]
  {
  }

  lemma AddPaymentKeepsRows(yearly: map<int, YearBucket>, s: seq<Payment>, p: Payment)
    requires Represents(yearly, s)
    ensures Represents(AddPayment(yearly, p), s + [p])
  {
    var year := YearOf(p.month);
    AddPaymentYearRow(yearly, s, p);
    var after := AddPayment(yearly, p);
    assert year in after;
    forall y
      ensures y in after <==> |InYear(s + [p], y)| > 0
      ensures y in after ==> |InYear(s + [p], y)| > 0 && after[y] == BucketFor(s + [p], y)
    {
      if y != year {
        InYearAppend(s, p, y);
        AddPaymentOtherRows(yearly, p, y);
        assert InYear(s + [p], y) == InYear(s, y);
      }
    }
  }

  /** The page's grouping loop: each entry is added to the row of its year,
      creating the row on first sight; rows come out in ascending year. */
  method UpdatePaymentSchedule(schedule: seq<Payment>) returns (rows: seq<YearBucket>)
    requires forall k :: 0 <= k < |schedule| ==> schedule[k].month >= 1
    ensures rows == YearRows(schedule)
  {
    if |schedule| == 0 {
      return [];
    }
    var yearly: map<int, YearBucket> := map[];
    var maxYear := 0;
    var i := 0;
    while i < |schedule|
      invariant 0 <= i <= |schedule|
      invariant maxYear == MaxYear(schedule[..i])
      invariant yearly == Accumulated(schedule[..i])
    {
      var p := schedule[i];
      assert schedule[..i + 1] == schedule[..i] + [p];
      MaxYearAppend(schedule[..i], p);
      AccumulatedAppend(schedule[..i], p);
      yearly := AddPayment(yearly, p);
      if YearOf(p.month) > maxYear {
        maxYear := YearOf(p.month);
      }
      i := i + 1;
    }
    assert schedule[..i] == schedule;
    AccumulatedRepresents(schedule);
    rows := ValuesFrom(yearly, 1, maxYear);
    ValuesAreRows(yearly, schedule, 1, maxYear);
  }

  /** The map the loop has built after the entries `s`. */
  function Accumulated(s: seq<Payment>): map<int, YearBucket>
  {
    if |s| == 0 then map[] else AddPayment(Accumulated(s[..|s| - 1]), s[|s| - 1])
  }

  lemma AccumulatedAppend(s: seq<Payment>, p: Payment)
    ensures Accumulated(s + [p]) == AddPayment(Accumulated(s), p)
  {
    assert (s + [p])[..|s|] == s;
  }

  /** The loop's map holds exactly the rows of the entries seen. */
  lemma {:induction false} AccumulatedRepresents(s: seq<Payment>)
    ensures Represents(Accumulated(s), s)
  {
    if |s| == 0 {
      assert Accumulated(s) == map[];
      forall y ensures |InYear(s, y)| == 0 {
        assert InYear(s, y) == [];
      }
    } else {
      var front, p := s[..|s| - 1], s[|s| - 1];
      assert s == front + [p];
      AccumulatedRepresents(front);
      AddPaymentKeepsRows(Accumulated(front), front, p);
    }
  }

  /** `r` is the row of a year in `lo..hi` that has entries. */
  predicate RowOf(s: seq<Payment>, lo: int, hi: int, r: YearBucket)
  {
    lo <= r.year <= hi && |InYear(s, r.year)| > 0 && r == BucketFor(s, r.year)
  }

  /** Every row of years `lo..hi` is the row of a year in range with entries. */
  lemma {:induction false} RowsAreBuckets(s: seq<Payment>, lo: int, hi: int)
    ensures forall k :: 0 <= k < |RowsFrom(s, lo, hi)| ==> RowOf(s, lo, hi, RowsFrom(s, lo, hi)[k])
    decreases hi - lo + 1
  {
    if lo <= hi {
      RowsAreBuckets(s, lo + 1, hi);
      var rows, rest := RowsFrom(s, lo, hi), RowsFrom(s, lo + 1, hi);
      if |InYear(s, lo)| > 0 {
        assert rows == [BucketFor(s, lo)] + rest;
        forall k | 0 <= k < |rows|
          ensures RowOf(s, lo, hi, rows[k])
        {
          if k > 0 {
            assert rows[k] == rest[k - 1];
            assert RowOf(s, lo + 1, hi, rest[k - 1]);
          }
        }
      } else {
        assert rows == rest;
        forall k | 0 <= k < |rows|
          ensures RowOf(s, lo, hi, rows[k])
        {
          assert RowOf(s, lo + 1, hi, rest[k]);
        }
      }
    }
  }

  /** Row years ascend strictly. */
  predicate Ascending(rows: seq<YearBucket>)
  {
    forall j, k :: 0 <= j < k < |rows| ==> rows[j].year < rows[k].year
  }

  lemma {:induction false} RowsAscending(s: seq<Payment>, lo: int, hi: int)
    ensures Ascending(RowsFrom(s, lo, hi))
    decreases hi - lo + 1
  {
    if lo <= hi {
      RowsAscending(s, lo + 1, hi);
      RowsAreBuckets(s, lo + 1, hi);
      var rows, rest := RowsFrom(s, lo, hi), RowsFrom(s, lo + 1, hi);
      if |InYear(s, lo)| > 0 {
        assert rows == [BucketFor(s, lo)] + rest;
        forall j, k | 0 <= j < k < |rows|
          ensures rows[j].year < rows[k].year
        {
          assert rows[k] == rest[k - 1];
          assert RowOf(s, lo + 1, hi, rest[k - 1]);
          if j > 0 {
            assert rows[j] == rest[j - 1];
          }
        }
      } else {
        assert rows == rest;
      }
    }
  }

  lemma {:induction false} RowsComplete(s: seq<Payment>, lo: int, hi: int, y: int)
    requires lo <= y <= hi && |InYear(s, y)| > 0
    ensures exists k :: 0 <= k < |RowsFrom(s, lo, hi)| && RowsFrom(s, lo, hi)[k].year == y
    decreases hi - lo + 1
  {
    var rows, rest := RowsFrom(s, lo, hi), RowsFrom(s, lo + 1, hi);
    if y == lo {
      assert rows == [BucketFor(s, lo)] + rest;
      assert rows[0].year == y;
    } else {
      RowsComplete(s, lo + 1, hi, y);
      var k :| 0 <= k < |rest| && rest[k].year == y;
      if |InYear(s, lo)| > 0 {
        assert rows == [BucketFor(s, lo)] + rest;
        assert rows[k + 1] == rest[k];
      } else {
        assert rows == rest;
      }
    }
  }

  /** An entry belongs to the entries of its own year. */
  lemma {:induction false} EntryInItsYear(s: seq<Payment>, k: int)
    requires 0 <= k < |s|
    ensures s[k] in InYear(s, YearOf(s[k].month))
  {
    var init := s[..|s| - 1];
    if k < |s| - 1 {
      EntryInItsYear(init, k);
      assert init[k] == s[k];
    }
  }

  /** The grouped rows: one per year that has entries, in ascending year
      order, each with the sums of its months and the last month's balance. */
  lemma YearRowsShape(s: seq<Payment>)
    requires forall k :: 0 <= k < |s| ==> s[k].month >= 1
    ensures var rows := YearRows(s);
            && (forall k :: 0 <= k < |rows| ==>
                  var ms := rows[k].months;
                  && |ms| > 0 && ms == InYear(s, rows[k].year)
                  && rows[k].principal == Total(ms, PrincipalField)
                  && rows[k].interest == Total(ms, InterestField)
                  && rows[k].totalPayment == Total(ms, EmiField)
                  && rows[k].balance == ms[|ms| - 1].balance)
            && (forall j, k :: 0 <= j < k < |rows| ==> rows[j].year < rows[k].year)
            && (forall i :: 0 <= i < |s| ==> exists k :: 0 <= k < |rows| && rows[k].year == YearOf(s[i].month))
  {
    RowsAreBuckets(s, 1, MaxYear(s));
    RowsAscending(s, 1, MaxYear(s));
    var rows := RowsFrom(s, 1, MaxYear(s));
    assert rows == YearRows(s);
    forall k | 0 <= k < |rows|
      ensures |rows[k].months| > 0 && rows[k].months == InYear(s, rows[k].year)
    {
      assert RowOf(s, 1, MaxYear(s), rows[k]);
    }
    forall i | 0 <= i < |s|
      ensures exists k :: 0 <= k < |rows| && rows[k].year == YearOf(s[i].month)
    {
      EntryInItsYear(s, i);
      RowsComplete(s, 1, MaxYear(s), YearOf(s[i].month));
    }
  }

  /** The months of a list of rows, concatenated. */
  function Flatten(rows: seq<YearBucket>): seq<Payment>
  {
    if |rows| == 0 then [] else rows[0].months + Flatten(rows[1..])
  }

  /** A schedule numbered 1, 2, 3, ... */
  predicate Consecutive(s: seq<Payment>)
  {
    forall k :: 0 <= k < |s| ==> s[k].month == k + 1
  }

  function MinInt(a: int, b: int): int
  {
    if a <= b then a else b
  }

  /** In a consecutive schedule year `y` holds months 12(y-1)+1 .. 12y. */
  lemma {:induction false} InYearIsSlice(s: seq<Payment>, y: int)
    requires Consecutive(s) && y >= 1
    ensures InYear(s, y) == s[MinInt(12 * (y - 1), |s|)..MinInt(12 * y, |s|)]
  {
    if |s| > 0 {
      var init := s[..|s| - 1];
      assert Consecutive(init) by {
        forall k | 0 <= k < |init| ensures init[k].month == k + 1 {
          assert init[k] == s[k];
        }
      }
      InYearIsSlice(init, y);
      var n := |s|;
      if 12 * (y - 1) < n <= 12 * y {
        assert init[12 * (y - 1)..n - 1] + [s[n - 1]] == s[12 * (y - 1)..n];
      } else if n > 12 * y {
        assert init[12 * (y - 1)..12 * y] == s[12 * (y - 1)..12 * y];
      }
    }
  }

  lemma FlattenCons(b: YearBucket, rest: seq<YearBucket>)
    ensures Flatten([b] + rest) == b.months + Flatten(rest)
  {
    assert ([b] + rest)[1..] == rest;
  }

  lemma RowsFromHead(s: seq<Payment>, lo: int, hi: int)
    requires lo <= hi && |InYear(s, lo)| > 0
    ensures Flatten(RowsFrom(s, lo, hi)) == InYear(s, lo) + Flatten(RowsFrom(s, lo + 1, hi))
  {
    FlattenCons(BucketFor(s, lo), RowsFrom(s, lo + 1, hi));
  }

  lemma {:induction false} FlattenRows(s: seq<Payment>, lo: int, hi: int)
    requires Consecutive(s) && 1 <= lo <= hi + 1 && |s| > 12 * (hi - 1)
    ensures Flatten(RowsFrom(s, lo, hi)) == s[MinInt(12 * (lo - 1), |s|)..MinInt(12 * hi, |s|)]
    decreases hi - lo + 1
  {
    if lo <= hi {
      var a, b, c := MinInt(12 * (lo - 1), |s|), MinInt(12 * lo, |s|), MinInt(12 * hi, |s|);
      assert a == 12 * (lo - 1) && a < b <= c;
      FlattenRows(s, lo + 1, hi);
      var tail := Flatten(RowsFrom(s, lo + 1, hi));
      assert tail == s[b..c];
      InYearIsSlice(s, lo);
      var head := InYear(s, lo);
      assert head == s[a..b];
      RowsFromHead(s, lo, hi);
      SliceJoin(s, a, b, c);
    }
  }

  lemma SliceJoin<T>(s: seq<T>, a: int, b: int, c: int)
    requires 0 <= a <= b <= c <= |s|
    ensures s[a..b] + s[b..c] == s[a..c]
  {
  }

  lemma {:induction false} MaxYearConsecutive(s: seq<Payment>)
    requires Consecutive(s)
    ensures MaxYear(s) == YearOf(|s|)
  {
    if |s| > 0 {
      var init := s[..|s| - 1];
      assert Consecutive(init) by {
        forall k | 0 <= k < |init| ensures init[k].month == k + 1 {
          assert init[k] == s[k];
        }
      }
      MaxYearConsecutive(init);
    }
  }

  /** For a schedule numbered 1..n, reading the rows' months in order gives
      the schedule back, and no row has more than twelve months. */
  lemma ConsecutiveRows(s: seq<Payment>)
    requires Consecutive(s)
    ensures Flatten(YearRows(s)) == s
    ensures forall k :: 0 <= k < |YearRows(s)| ==> |YearRows(s)[k].months| <= 12
  {
    MaxYearConsecutive(s);
    var hi := YearOf(|s|);
    FlattenRows(s, 1, hi);
    assert s[0..MinInt(12 * hi, |s|)] == s;
    RowsAreBuckets(s, 1, hi);
    forall k | 0 <= k < |YearRows(s)|
      ensures |YearRows(s)[k].months| <= 12
    {
      InYearIsSlice(s, YearRows(s)[k].year);
    }
  }

  /** The year row's loan-paid percentage: its last month's, or 0 for an
      empty row. */
  function RowLoanPaidPercentage(b: YearBucket): real
  {
    if |b.months| > 0 then b.months[|b.months| - 1].loanPaidPercentage else 0.0
  }

  /** For a schedule numbered 1..n, each year row shows the percentage of
      that year's last scheduled month (month 12y, or n in the final year). */
  lemma RowPercentIsYearEnd(s: seq<Payment>, k: int)
    requires Consecutive(s) && 0 <= k < |YearRows(s)|
    ensures var y := YearRows(s)[k].year;
            1 <= MinInt(12 * y, |s|) <= |s|
            && RowLoanPaidPercentage(YearRows(s)[k]) == s[MinInt(12 * y, |s|) - 1].loanPaidPercentage
  {
    var r := YearRows(s)[k];
    RowsAreBuckets(s, 1, MaxYear(s));
    assert RowOf(s, 1, MaxYear(s), r);
    InYearIsSlice(s, r.year);
  }

  const MonthNames: seq<string> := ["Jan", "Feb", "Mar", "Apr", "May", "Jun",
                                    "Jul", "Aug", "Sep", "Oct", "Nov", "Dec"]

  /** The label of schedule month `n`: its calendar month and its year. */
  function GetMonthName(n: int): string
    requires n >= 1
  {
    MonthNames[(n - 1) % 12] + " Y" + Digits((n - 1) / 12 + 1)
  }

  /** Month `i` (0-based) of loan year `y` is labelled with the i-th month
      name and `Y<y>`, and the year in the label is the row it is grouped in. */
  lemma MonthNameOf(y: int, i: int)
    requires y >= 1 && 0 <= i < 12
    ensures GetMonthName(12 * (y - 1) + i + 1) == MonthNames[i] + " Y" + Digits(y)
    ensures YearOf(12 * (y - 1) + i + 1) == y
  {
    MonthParts(y, i);
  }

  /** The index and year arithmetic behind `MonthNameOf`. */
  lemma MonthParts(y: int, i: int)
    requires y >= 1 && 0 <= i < 12
    ensures var n := 12 * (y - 1) + i + 1;
            (n - 1) % 12 == i && (n - 1) / 12 + 1 == y && (n + 11) / 12 == y
  {
    var n := 12 * (y - 1) + i + 1;
    DivMod12(y - 1, i);
    assert n - 1 == 12 * (y - 1) + i;
    DivMod12(y, i);
    assert n + 11 == 12 * y + i;
  }

  lemma DivMod12(q: int, i: int)
    requires 0 <= i < 12
    ensures (12 * q + i) / 12 == q && (12 * q + i) % 12 == i
  {
  }

  datatype RateRequest =
    | DefaultDisplay
    | Request(loanAmount: real, emi: real, tenureYears: int, tenureMonths: int,
              feesCharges: real, emiScheme: string)

  /** Months the field's value stands for: whole months of `12 v` in years
      mode, the value rounded in months mode. */
  function TotalMonths(tenureValue: real, unit: Tenure.Unit): (m: int)
    ensures unit == Tenure.Years ==> Abs(m as real - 12.0 * tenureValue) <= 0.5
    ensures unit == Tenure.Months ==> Abs(m as real - tenureValue) <= 0.5
  {
    if unit == Tenure.Years then Round(tenureValue * 12.0) else Round(tenureValue)
  }

  /** The years part of the request as the page writes it: the whole years
      of the field in years mode, whole years of the total in months mode. */
  function TenureYears(tenureValue: real, unit: Tenure.Unit): int
  {
    if unit == Tenure.Years then Floor(tenureValue) else TotalMonths(tenureValue, unit) / 12
  }

  /** The request sent by the page, or the default display when the loan,
      EMI or tenure is not positive. */
  function CalculateRequest(loanAmount: real, emi: real, tenureValue: real, unit: Tenure.Unit,
                            feesCharges: real, emiScheme: string): (r: RateRequest)
    ensures r.DefaultDisplay? <==> loanAmount <= 0.0 || emi <= 0.0 || TotalMonths(tenureValue, unit) <= 0
    ensures r.Request? ==> r.loanAmount == loanAmount && r.emi == emi
                           && r.tenureYears == TenureYears(tenureValue, unit)
                           && 0 <= r.tenureMonths < 12
                           && (TotalMonths(tenureValue, unit) - r.tenureMonths) % 12 == 0
  {
    var total := TotalMonths(tenureValue, unit);
    if loanAmount <= 0.0 || emi <= 0.0 || total <= 0 then DefaultDisplay
    else Request(loanAmount, emi, TenureYears(tenureValue, unit), JsRem12(total), feesCharges, emiScheme)
  }

  /** In months mode the request's years and months add back up to the
      total. In years mode they do exactly when the field's whole years
      equal the total's whole years. */
  lemma RequestTenureRecombines(loanAmount: real, emi: real, tenureValue: real, unit: Tenure.Unit,
                                feesCharges: real, emiScheme: string)
    requires CalculateRequest(loanAmount, emi, tenureValue, unit, feesCharges, emiScheme).Request?
    ensures var r := CalculateRequest(loanAmount, emi, tenureValue, unit, feesCharges, emiScheme);
            var total := TotalMonths(tenureValue, unit);
            && (unit == Tenure.Months ==> 12 * r.tenureYears + r.tenureMonths == total)
            && (unit == Tenure.Years ==>
                  (12 * r.tenureYears + r.tenureMonths == total <==> Floor(tenureValue) == total / 12))
  {
  }

  /** As written, 5.99 years asks for 72 months of tenure but sends 5 years
      and 0 months. */
  lemma YearsModeDropsAYear()
    ensures CalculateRequest(1000000.0, 21618.0, 5.99, Tenure.Years, 0.0, "arrears")
            == Request(1000000.0, 21618.0, 5, 0, 0.0, "arrears")
    ensures TotalMonths(5.99, Tenure.Years) == 72
  {
    assert Round(5.99 * 12.0) == 72;
    assert Floor(5.99) == 5;
  }

  /** The evidently intended request: whole years and the remaining months
      of the same total, in both modes. */
  function CorrectedRequest(loanAmount: real, emi: real, tenureValue: real, unit: Tenure.Unit,
                            feesCharges: real, emiScheme: string): (r: RateRequest)
    ensures r.DefaultDisplay? <==> loanAmount <= 0.0 || emi <= 0.0 || TotalMonths(tenureValue, unit) <= 0
    ensures r.Request? ==> 12 * r.tenureYears + r.tenureMonths == TotalMonths(tenureValue, unit)
                           && 0 <= r.tenureMonths < 12
  {
    var total := TotalMonths(tenureValue, unit);
    if loanAmount <= 0.0 || emi <= 0.0 || total <= 0 then DefaultDisplay
    else Request(loanAmount, emi, total / 12, total % 12, feesCharges, emiScheme)
  }

  /** The correction changes nothing in months mode, nor in years mode when
      rounding to whole months does not reach the next year. */
  lemma CorrectedAgreesWhenYearsMatch(loanAmount: real, emi: real, tenureValue: real, unit: Tenure.Unit,
                                      feesCharges: real, emiScheme: string)
    requires unit == Tenure.Months || Floor(tenureValue) == TotalMonths(tenureValue, unit) / 12
    ensures CorrectedRequest(loanAmount, emi, tenureValue, unit, feesCharges, emiScheme)
            == CalculateRequest(loanAmount, emi, tenureValue, unit, feesCharges, emiScheme)
  {
  }
}
