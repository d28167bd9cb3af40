/** `Number.prototype.toFixed` on the amounts the currency formatters of
    the pages print, and the reading-back that makes it checkable: removing
    the decimal point and reading the digits gives the amount in units of
    the last place, rounded to the nearest. */
module Currency {
  import opened Num
  import opened IndianDigits

  /** `10^p`. */
  function Scale(p: nat): (s: nat)
    ensures s >= 1
  {
    if p == 0 then 1 else 10 * Scale(p - 1)
  }

  /** `k` zero digits. */
  function Zeros(k: nat): (s: string)
    ensures |s| == k
    ensures forall i :: 0 <= i < k ==> s[i] == '0'
  {
    if k == 0 then "" else Zeros(k - 1) + "0"
  }

  lemma {:induction false} ValueZeros(k: nat)
    ensures Value(Zeros(k)) == 0
  {
    if k > 0 {
      var s := Zeros(k);
      ValueZeros(k - 1);
      assert s[..|s| - 1] == Zeros(k - 1);
    }
  }

  /** Reading two digit strings one after the other. */
  lemma {:induction false} ValueAppend(a: string, b: string)
    ensures Value(a + b) == Value(a) * Scale(|b|) + Value(b)
    decreases |b|
  {
    if |b| == 0 {
      assert a + b == a;
    } else {
      var c := a + b;
      var b' := b[..|b| - 1];
      assert c[..|c| - 1] == a + b';
      assert c[|c| - 1] == b[|b| - 1];
      ValueAppend(a, b');
      var d := b[|b| - 1] as int - '0' as int;
      var va, vb, k := Value(a), Value(b'), Scale(|b'|);
      assert Value(c) == (va * k + vb) * 10 + d;
      assert Value(b) == vb * 10 + d;
      assert Scale(|b|) == 10 * k;
      RegroupProduct(va, vb, k, d);
    }
  }

  lemma RegroupProduct(va: int, vb: int, k: int, d: int)
    ensures (va * k + vb) * 10 + d == va * (10 * k) + (vb * 10 + d)
  {
  }

  /** `x` in units of the `p`-th decimal place, rounded to the nearest. */
  function Units(x: real, p: nat): (n: nat)
    requires x >= 0.0
    ensures IsNearest(n as real, x, Scale(p) as real)
  {
    ScaleMono(Scale(p) as real, 0.0, x);
    Round(x * Scale(p) as real)
  }

  /** The digits of `n` with leading zeros up to at least `k` digits. */
  function AtLeastDigits(n: nat, k: nat): (t: string)
    ensures |t| >= k && |t| >= 1
    ensures forall i :: 0 <= i < |t| ==> '0' <= t[i] <= '9'
  {
    var d := Digits(n);
    if |d| >= k then d else Zeros(k - |d|) + d
  }

  /** `x.toFixed(p)` for `x >= 0`: `x` rounded to `p` decimals, the whole
      part in plain digits (at least one), then a point and exactly `p`
      decimals. */
  function FixedAbs(x: real, p: nat): (s: string)
    requires x >= 0.0 && p >= 1
    ensures |s| >= p + 2 && s[|s| - p - 1] == '.'
    ensures NoCommas(s) && DecimalText(s)
  {
    WithPoint(Units(x, p), p)
  }

  /** `n` units of the `p`-th decimal place written with a decimal point. */
  function WithPoint(n: nat, p: nat): (s: string)
    requires p >= 1
    ensures |s| >= p + 2 && s[|s| - p - 1] == '.'
    ensures NoCommas(s) && DecimalText(s)
  {
    InsertPoint(AtLeastDigits(n, p + 1), p)
  }

  /** A point placed before the last `p` characters of `t`; taking it out
      again gives back `t`. */
  function InsertPoint(t: string, p: nat): (s: string)
    requires |t| > p
    ensures |s| == |t| + 1 && s[|s| - p - 1] == '.'
    ensures RemovePoint(s, p) == t
    ensures NoCommas(t) ==> NoCommas(s)
    ensures DecimalText(t) ==> DecimalText(s)
  {
    var s := t[..|t| - p] + "." + t[|t| - p..];
    assert s[..|s| - p - 1] == t[..|t| - p];
    assert s[|s| - p..] == t[|t| - p..];
    assert forall i :: 0 <= i < |s| ==> s[i] == '.' || s[i] in t;
    s
  }

  /** Only digits and decimal points. */
  predicate DecimalText(s: string)
  {
    forall k :: 0 <= k < |s| ==> s[k] == '.' || '0' <= s[k] <= '9'
  }

  /** `x.toFixed(p)`: a negative value is its magnitude's digits after a minus sign. */
  function Fixed(x: real, p: nat): (s: string)
    requires p >= 1
    ensures x < 0.0 ==> s == "-" + FixedAbs(-x, p)
    ensures x >= 0.0 ==> s == FixedAbs(x, p)
  {
    if x < 0.0 then "-" + FixedAbs(-x, p) else FixedAbs(x, p)
  }

  /** A negative amount is the minus sign before its magnitude's text. */
  lemma FixedOfNegative(y: real, p: nat)
    requires y > 0.0 && p >= 1
    ensures Fixed(-y, p) == "-" + FixedAbs(y, p)
  {
    assert -(-y) == y;
  }

  /** `parseFloat` on a text `toFixed(p)` produces: an optional minus
      sign, then the digits with their point. */
  function ReadFixed(s: string, p: nat): real
    requires |s| >= p + 2
  {
    if s[0] == '-' then (if |s| >= p + 3 then -Shown(s[1..], p) else 0.0) else Shown(s, p)
  }

  /** Reading back `q.toFixed(p)` gives `q` to within half a last-place unit. */
  lemma ReadFixedIsClose(q: real, p: nat)
    requires p >= 1
    ensures |Fixed(q, p)| >= p + 2 && Abs(ReadFixed(Fixed(q, p), p) - q) <= HalfUnit(p)
  {
    if q < 0.0 {
      ReadNegativeIsClose(-q, p);
      assert -(-q) == q;
    } else {
      ReadNonNegativeIsClose(q, p);
    }
  }

  lemma ReadNegativeIsClose(y: real, p: nat)
    requires y > 0.0 && p >= 1
    ensures |Fixed(-y, p)| >= p + 2 && Abs(ReadFixed(Fixed(-y, p), p) - -y) <= HalfUnit(p)
  {
    var m := FixedAbs(y, p);
    FixedOfNegative(y, p);
    ReadNegative(m, p);
    FixedIsClose(y, p);
    NegateWithin(Shown(m, p), y, HalfUnit(p));
  }

  lemma ReadNonNegativeIsClose(x: real, p: nat)
    requires x >= 0.0 && p >= 1
    ensures |Fixed(x, p)| >= p + 2 && Abs(ReadFixed(Fixed(x, p), p) - x) <= HalfUnit(p)
  {
    ReadNonNegative(FixedAbs(x, p), p);
    FixedIsClose(x, p);
  }

  lemma ReadNegative(m: string, p: nat)
    requires |m| >= p + 2
    ensures ReadFixed("-" + m, p) == -Shown(m, p)
  {
    assert ("-" + m)[0] == '-' && ("-" + m)[1..] == m;
  }

  lemma ReadNonNegative(m: string, p: nat)
    requires |m| >= p + 2 && DecimalText(m)
    ensures ReadFixed(m, p) == Shown(m, p)
  {
    assert m[0] != '-';
  }

  lemma NegateWithin(v: real, y: real, e: real)
    requires Abs(v - y) <= e
    ensures Abs(-v - -y) <= e
  {
  }

  /** The digits of a fixed-point string with its point removed, read as a
      whole number of last-place units. */
  function Unfixed(s: string, p: nat): int
    requires |s| >= p + 1
  {
    Value(RemovePoint(s, p))
  }

  /** `s` without the character before its last `p`. */
  function RemovePoint(s: string, p: nat): (t: string)
    requires |s| >= p + 1
    ensures |t| == |s| - 1
  {
    s[..|s| - p - 1] + s[|s| - p..]
  }

  /** Reading a formatted amount back gives the amount, in last-place units,
      rounded to the nearest. */
  lemma FixedRoundTrip(x: real, p: nat)
    requires x >= 0.0 && p >= 1
    ensures Unfixed(FixedAbs(x, p), p) == Units(x, p)
  {
    PointRoundTrip(Units(x, p), p);
  }

  lemma PointRoundTrip(n: nat, p: nat)
    requires p >= 1
    ensures Unfixed(WithPoint(n, p), p) == n
  {
    var t := AtLeastDigits(n, p + 1);
    var s := InsertPoint(t, p);
    assert WithPoint(n, p) == s;
    assert Unfixed(s, p) == Value(t);
    PaddedValue(n, p + 1);
  }

  /** Leading zeros do not change the value. */
  lemma PaddedValue(n: nat, k: nat)
    ensures Value(AtLeastDigits(n, k)) == n
  {
    var d := Digits(n);
    ValueOfDigits(n);
    if |d| < k {
      var z := Zeros(k - |d|);
      ValueAppend(z, d);
      ValueZeros(k - |d|);
      assert Value(z + d) == 0 * Scale(|d|) + n;
    }
  }

  /** The value a fixed-point string shows. */
  function Shown(s: string, p: nat): real
    requires |s| >= p + 1
  {
    Unfixed(s, p) as real / Scale(p) as real
  }

  /** Half a unit of the `p`-th decimal place. */
  function HalfUnit(p: nat): real
  {
    0.5 / Scale(p) as real
  }

  /** So the printed value is within half a last-place unit of the amount. */
  lemma FixedIsClose(x: real, p: nat)
    requires x >= 0.0 && p >= 1
    ensures Abs(Shown(FixedAbs(x, p), p) - x) <= HalfUnit(p)
  {
    var n, u := Units(x, p), Scale(p) as real;
    FixedRoundTrip(x, p);
    var v := Shown(FixedAbs(x, p), p);
    assert v == n as real / u;
    HalfWithin(n as real, x, u);
    assert Abs(v - x) <= 0.5 / u;
  }

  /** `n` is `x * u` rounded to the nearest whole number. */
  predicate IsNearest(n: real, x: real, u: real)
  {
    x * u - 0.5 < n <= x * u + 0.5
  }

  lemma HalfWithin(n: real, x: real, u: real)
    requires u >= 1.0 && IsNearest(n, x, u)
    ensures Abs(n / u - x) <= 0.5 / u
  {
    var e := n - x * u;
    assert n / u - x == e / u;
    DivMono(-0.5, e, u);
    DivMono(e, 0.5, u);
    AbsWithin(e / u, 0.5 / u);
  }

  lemma DivMono(a: real, b: real, u: real)
    requires a <= b && u > 0.0
    ensures a / u <= b / u
  {
    ScaleMono(1.0 / u, a, b);
    assert a / u == (1.0 / u) * a && b / u == (1.0 / u) * b;
  }

  /** The magnitude bands the pages abbreviate amounts by. */
  datatype Band = Crore | Lakh | Thousand | Below

  function BandOf(a: real): (b: Band)
    ensures b == Crore <==> a >= 10000000.0
    ensures b == Lakh <==> 100000.0 <= a < 10000000.0
    ensures b == Thousand <==> 1000.0 <= a < 100000.0
  {
    if a >= 10000000.0 then Crore
    else if a >= 100000.0 then Lakh
    else if a >= 1000.0 then Thousand
    else Below
  }

  /** What one of a band's abbreviated units is worth. */
  function BandUnit(b: Band): (u: real)
    ensures u >= 1.0
  {
    match b
    case Crore => 10000000.0
    case Lakh => 100000.0
    case Thousand => 1000.0
    case Below => 1.0
  }

  /** An amount counted in the units of its band (the amount itself below 1000). */
  function InBandUnits(a: real): (q: real)
    requires a >= 0.0
    ensures q >= 0.0 && q * BandUnit(BandOf(a)) == a
  {
    match BandOf(a)
    case Crore => a / 10000000.0
    case Lakh => a / 100000.0
    case Thousand => a / 1000.0
    case Below => a
  }

  /** `amount / unit` for the band of the amount's size: the count keeps
      the amount's sign. */
  function BandCount(amount: real): (q: real)
    ensures q * BandUnit(BandOf(Abs(amount))) == amount
    ensures amount < 0.0 ==> q == -InBandUnits(-amount)
    ensures amount >= 0.0 ==> q == InBandUnits(amount)
  {
    if amount < 0.0 then -InBandUnits(-amount) else InBandUnits(amount)
  }

  /** The band's suffix as the net worth and XIRR pages write it, with no space. */
  function Tag(b: Band): string
  {
    match b
    case Crore => "Cr"
    case Lakh => "L"
    case Thousand => "K"
    case Below => ""
  }

  /** `x.toLocaleString('en-IN', {minimumFractionDigits: 2,
      maximumFractionDigits: 2})` for `x >= 0`: two decimals, the whole part
      grouped the Indian way; without its commas it is the plain
      two-decimal text. */
  function LocaleFixed2(x: real): (s: string)
    requires x >= 0.0
    ensures StripCommas(s) == FixedAbs(x, 2)
  {
    GroupWhole(FixedAbs(x, 2), 3)
  }

  /** `t` with the part before its last `k` characters grouped the Indian
      way; removing the commas gives back `t`. */
  function GroupWhole(t: string, k: nat): (s: string)
    requires |t| >= k
    ensures NoCommas(t) ==> StripCommas(s) == t
  {
    var whole, rest := t[..|t| - k], t[|t| - k..];
    assert whole + rest == t;
    assert NoCommas(t) ==> StripCommas(Grouped(whole) + rest) == t by {
      if NoCommas(t) {
        assert NoCommas(whole) && NoCommas(rest);
        StripAppend(Grouped(whole), rest);
        GroupedRoundTrip(whole);
        StripNoCommas(rest);
      }
    }
    Grouped(whole) + rest
  }
}
