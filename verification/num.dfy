/** Numeric helpers shared by every calculator model: the `Math.min`,
    `Math.max`, `Math.abs`, `Math.pow` (integer exponent), `Math.round` and
    `Math.floor`/`Math.ceil` operations the scripts use, over exact reals. */
module Num {

  function Min(a: real, b: real): (r: real)
    ensures r <= a && r <= b
    ensures r == a || r == b
  {
    if a <= b then a else b
  }

  function Max(a: real, b: real): (r: real)
    ensures r >= a && r >= b
    ensures r == a || r == b
  {
    if a >= b then a else b
  }

  function Min3(a: real, b: real, c: real): (r: real)
    ensures r <= a && r <= b && r <= c
    ensures r == a || r == b || r == c
  {
    Min(a, Min(b, c))
  }

  function Abs(x: real): (r: real)
    ensures r >= 0.0
    ensures r == x || r == -x
  {
    if x < 0.0 then -x else x
  }

  lemma AbsWithin(x: real, b: real)
    requires -b <= x <= b
    ensures Abs(x) <= b
  {
  }

  /** `Math.pow(x, n)` for a non-negative integer exponent. */
  function Pow(x: real, n: nat): real
  {
    if n == 0 then 1.0 else x * Pow(x, n - 1)
  }

  lemma {:induction false} PowPositive(x: real, n: nat)
    requires x > 0.0
    ensures Pow(x, n) > 0.0
  {
    if n > 0 {
      PowPositive(x, n - 1);
    }
  }

  lemma {:induction false} PowAtLeastOne(x: real, n: nat)
    requires x >= 1.0
    ensures Pow(x, n) >= 1.0
  {
    if n > 0 {
      PowAtLeastOne(x, n - 1);
    }
  }

  lemma {:induction false} PowOfOne(n: nat)
    ensures Pow(1.0, n) == 1.0
  {
    if n > 0 {
      PowOfOne(n - 1);
    }
  }

  /** Growth above one compounds to more than one over any positive number of periods. */
  lemma {:induction false} PowAboveOne(x: real, n: nat)
    requires x > 1.0 && n > 0
    ensures Pow(x, n) > 1.0
  {
    if n > 1 {
      PowAboveOne(x, n - 1);
      ScaleMono(x, 1.0, Pow(x, n - 1));
    }
  }

  /** A factor in [0, 1) compounds to less than one over any positive number of periods. */
  lemma {:induction false} PowBelowOne(x: real, n: nat)
    requires 0.0 <= x < 1.0 && n > 0
    ensures 0.0 <= Pow(x, n) < 1.0
  {
    if n > 1 {
      PowBelowOne(x, n - 1);
      ScaleMono(x, Pow(x, n - 1), 1.0);
      assert Pow(x, n) == x * Pow(x, n - 1);
    }
  }

  lemma {:induction false} PowAdd(x: real, a: nat, b: nat)
    ensures Pow(x, a + b) == Pow(x, a) * Pow(x, b)
  {
    if a > 0 {
      PowAdd(x, a - 1, b);
    }
  }

  lemma {:induction false} PowMul(x: real, n: nat, a: nat)
    ensures Pow(x, a * n) == Pow(Pow(x, n), a)
  {
    if a > 0 {
      PowMul(x, n, a - 1);
      var m: nat := (a - 1) * n;
      var k: nat := a * n;
      MulStep(a, n);
      PowAdd(x, n, m);
      assert Pow(x, k) == Pow(x, n + m);
    }
  }

  lemma {:induction false} PowNonNegative(x: real, n: nat)
    requires x >= 0.0
    ensures Pow(x, n) >= 0.0
  {
    if n > 0 {
      PowNonNegative(x, n - 1);
    }
  }

  /** A positive power is strictly increasing on the non-negative reals. */
  lemma {:induction false} PowStrictMono(x: real, y: real, n: nat)
    requires 0.0 <= x < y && n > 0
    ensures Pow(x, n) < Pow(y, n)
  {
    if n > 1 {
      var px, py := Pow(x, n - 1), Pow(y, n - 1);
      PowStrictMono(x, y, n - 1);
      PowNonNegative(x, n - 1);
      ScaleMono(px, x, y);
      ScaleStrict(y, px, py);
      assert Pow(x, n) == x * px && Pow(y, n) == y * py;
    }
  }

  /** So a non-negative `n`-th root is unique. */
  lemma PowRootUnique(x: real, y: real, n: nat)
    requires x >= 0.0 && y >= 0.0 && n > 0 && Pow(x, n) == Pow(y, n)
    ensures x == y
  {
    if x < y {
      PowStrictMono(x, y, n);
    } else if y < x {
      PowStrictMono(y, x, n);
    }
  }

  lemma MulStep(a: nat, n: nat)
    requires a > 0
    ensures a * n == n + (a - 1) * n
  {
  }

  /** `Math.floor` on a real. */
  function Floor(x: real): (r: int)
    ensures r as real <= x < r as real + 1.0
  {
    x.Floor
  }

  /** `Math.ceil` on a real. */
  function Ceil(x: real): (r: int)
    ensures r as real - 1.0 < x <= r as real
  {
    if x.Floor as real == x then x.Floor else x.Floor + 1
  }

  /** `Math.round`: the nearest integer, halves rounded towards +infinity. */
  function Round(x: real): (r: int)
    ensures x - 0.5 < r as real <= x + 0.5
  {
    (x + 0.5).Floor
  }

  /** `Math.round(x * 100) / 100`: rounding to two decimals. */
  function Round2(x: real): (r: real)
    ensures x - 0.005 < r <= x + 0.005
  {
    Round(x * 100.0) as real / 100.0
  }

  /** Rounding never reverses the order of two values. */
  lemma RoundMono(a: real, b: real)
    requires a <= b
    ensures Round(a) <= Round(b)
  {
    assert Round(a) as real <= b + 0.5 < Round(b) as real + 1.0;
  }

  lemma Round2Mono(a: real, b: real)
    requires a <= b
    ensures Round2(a) <= Round2(b)
  {
    RoundMono(a * 100.0, b * 100.0);
  }

  lemma RoundOfInteger(n: int)
    ensures Round(n as real) == n
  {
  }

  /** JavaScript's `a % 12` on an integer: the remainder takes the sign of
      `a` (Dafny's `%` never returns a negative value). */
  function JsRem12(a: int): (r: int)
    ensures a >= 0 ==> 0 <= r < 12
    ensures a < 0 ==> -12 < r <= 0
    ensures (a - r) % 12 == 0
  {
    if a >= 0 then a % 12 else -((-a) % 12)
  }

  function Sum(s: seq<real>): real
  {
    if |s| == 0 then 0.0 else Sum(s[..|s| - 1]) + s[|s| - 1]
  }

  lemma {:induction false} SumAppend(s: seq<real>, t: seq<real>)
    ensures Sum(s + t) == Sum(s) + Sum(t)
  {
    if |t| == 0 {
      assert s + t == s;
    } else {
      assert (s + t)[..|s + t| - 1] == s + t[..|t| - 1];
      SumAppend(s, t[..|t| - 1]);
    }
  }

  /** `x` added up `n` times, the way a running total accumulates a fixed
      amount; it is `n * x` (see `TimesIsProduct`). */
  function Times(n: nat, x: real): (r: real)
    ensures x >= 0.0 ==> r >= 0.0
  {
    if n == 0 then 0.0 else Times(n - 1, x) + x
  }

  lemma {:induction false} TimesIsProduct(n: nat, x: real)
    ensures Times(n, x) == n as real * x
  {
    if n > 0 {
      TimesIsProduct(n - 1, x);
      assert n as real * x == (n - 1) as real * x + x;
    }
  }

  /** Multiplying by a non-negative factor keeps the order. */
  lemma ScaleMono(c: real, a: real, b: real)
    requires c >= 0.0 && a <= b
    ensures c * a <= c * b
  {
  }

  lemma ScaleStrict(c: real, a: real, b: real)
    requires c > 0.0 && a < b
    ensures c * a < c * b
  {
  }

  /** A share bounded by `c` of a positive whole is at most `100 c` percent of it. */
  lemma RatioBound(t: real, g: real, c: real)
    requires g > 0.0 && 0.0 <= t <= c * g
    ensures 0.0 <= t / g * 100.0 <= c * 100.0
  {
    assert t / g <= c;
  }
}
