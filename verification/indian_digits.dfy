/** Indian digit grouping ("12,34,567"): the last three digits form one
    group and every two digits to their left form another. The exit-load
    script writes this out as a right-to-left loop; `Grouped` is the
    reference definition the loop is proved against. */
module IndianDigits {

  /** Decimal digits of a natural number, without leading zeros (`n.toString()`). */
  function Digits(n: nat): (s: string)
    ensures |s| > 0
    ensures forall k :: 0 <= k < |s| ==> '0' <= s[k] <= '9'
    ensures n >= 10 ==> s[0] != '0'
    decreases n
  {
    var d := [(('0' as int) + n % 10) as char];
    if n < 10 then d else Digits(n / 10) + d
  }

  /** The decimal value of a digit string (`parseInt` on digits only). */
  function Value(s: string): int
  {
    if |s| == 0 then 0 else Value(s[..|s| - 1]) * 10 + (s[|s| - 1] as int - '0' as int)
  }

  /** Reading the digits back gives the number. */
  lemma {:induction false} ValueOfDigits(n: nat)
    ensures Value(Digits(n)) == n
    decreases n
  {
    var d := [(('0' as int) + n % 10) as char];
    if n >= 10 {
      ValueOfDigits(n / 10);
      var s := Digits(n / 10) + d;
      assert s[..|s| - 1] == Digits(n / 10);
    }
  }

  /** `String(n)` for an integer: a minus sign and the digits of |n|. */
  function IntString(n: int): (s: string)
    ensures n >= 0 ==> s == Digits(n)
    ensures n < 0 ==> |s| > 1 && s[0] == '-' && s[1..] == Digits(-n)
  {
    if n < 0 then "-" + Digits(-n) else Digits(n)
  }

  predicate NoCommas(s: string)
  {
    forall k :: 0 <= k < |s| ==> s[k] != ','
  }

  /** Groups of two from the right, separated by commas. */
  function Pairs(t: string): string
    decreases |t|
  {
    if |t| <= 2 then t else Pairs(t[..|t| - 2]) + "," + t[|t| - 2..]
  }

  /** The reference grouping: the last three digits, and pairs to their left. */
  function Grouped(s: string): string
  {
    if |s| <= 3 then s else Pairs(s[..|s| - 3]) + "," + s[|s| - 3..]
  }

  /** Deleting the commas. */
  function StripCommas(s: string): (r: string)
    ensures NoCommas(r)
    ensures |r| <= |s|
  {
    if |s| == 0 then ""
    else (if s[0] == ',' then "" else [s[0]]) + StripCommas(s[1..])
  }

  lemma {:induction false} StripAppend(a: string, b: string)
    ensures StripCommas(a + b) == StripCommas(a) + StripCommas(b)
    decreases |a|
  {
    if |a| == 0 {
      assert a + b == b;
    } else {
      assert (a + b)[1..] == a[1..] + b;
      StripAppend(a[1..], b);
    }
  }

  lemma {:induction false} StripNoCommas(s: string)
    requires NoCommas(s)
    ensures StripCommas(s) == s
    decreases |s|
  {
    if |s| > 0 {
      StripNoCommas(s[1..]);
    }
  }

  lemma {:induction false} PairsRoundTrip(t: string)
    requires NoCommas(t)
    ensures StripCommas(Pairs(t)) == t
    decreases |t|
  {
    if |t| <= 2 {
      StripNoCommas(t);
    } else {
      var a, b := t[..|t| - 2], t[|t| - 2..];
      PairsRoundTrip(a);
      StripAppend(Pairs(a) + ",", b);
      StripAppend(Pairs(a), ",");
      StripNoCommas(b);
      SplitAt(t, |t| - 2);
    }
  }

  lemma SplitAt(s: string, k: nat)
    requires k <= |s|
    ensures s[..k] + s[k..] == s
  {
  }

  /** Deleting the commas from a grouped digit string gives it back. */
  lemma GroupedRoundTrip(s: string)
    requires NoCommas(s)
    ensures StripCommas(Grouped(s)) == s
  {
    if |s| <= 3 {
      StripNoCommas(s);
    } else {
      var a, b := s[..|s| - 3], s[|s| - 3..];
      PairsRoundTrip(a);
      StripAppend(Pairs(a) + ",", b);
      StripAppend(Pairs(a), ",");
      StripNoCommas(b);
      SplitAt(s, |s| - 3);
    }
  }

  lemma {:induction false} PairsShape(t: string)
    requires NoCommas(t)
    ensures |t| > 0 ==> |Pairs(t)| > 0 && Pairs(t)[0] == t[0]
    ensures |Pairs(t)| == |t| + (if |t| == 0 then 0 else (|t| - 1) / 2)
    decreases |t|
  {
    if |t| > 2 {
      PairsShape(t[..|t| - 2]);
    }
  }

  /** The grouping never starts with a comma, leaves strings of up to three
      digits alone, and adds one comma per group after the first. */
  lemma GroupedShape(s: string)
    requires NoCommas(s)
    ensures |s| <= 3 ==> Grouped(s) == s
    ensures |s| > 0 ==> Grouped(s)[0] == s[0] && Grouped(s)[0] != ','
    ensures |s| > 3 ==> |Grouped(s)| == |s| + 1 + (|s| - 4) / 2
    ensures |s| > 3 ==> Grouped(s)[|Grouped(s)| - 4] == ','
  {
    if |s| > 3 {
      PairsShape(s[..|s| - 3]);
    }
  }

  /** A comma is written just before the digit that has `n` digits to its
      right exactly when `n` is 3, 5, 7, ... */
  predicate CommaBefore(n: int)
  {
    n == 3 || (n > 3 && (n - 3) % 2 == 0)
  }

  function EvenComma(n: int): string
  {
    if n > 0 && n % 2 == 0 then "," else ""
  }

  lemma {:induction false} PairsPrepend(c: char, t: string)
    ensures Pairs([c] + t) == [c] + EvenComma(|t|) + Pairs(t)
    decreases |t|
  {
    if |t| == 2 {
      assert ([c] + t)[..1] == [c];
      assert ([c] + t)[1..] == t;
    } else if |t| > 2 {
      PairsPrepend(c, t[..|t| - 2]);
      PairsPrependStep(c, t);
    }
  }

  lemma PairsPrependStep(c: char, t: string)
    requires |t| > 2
    requires Pairs([c] + t[..|t| - 2]) == [c] + EvenComma(|t| - 2) + Pairs(t[..|t| - 2])
    ensures Pairs([c] + t) == [c] + EvenComma(|t|) + Pairs(t)
  {
    var u := [c] + t;
    var a, b := t[..|t| - 2], t[|t| - 2..];
    FrontSlices(c, t, 2);
    var m := EvenComma(|t|);
    assert EvenComma(|t| - 2) == m;
    var pa := Pairs(a);
    assert Pairs(u) == Pairs([c] + a) + "," + b;
    assert Pairs(t) == pa + "," + b;
    Regroup([c], m, pa, ",", b);
  }

  /** Cutting `n` characters off the end of `[c] + t`. */
  lemma FrontSlices(c: char, t: string, n: nat)
    requires n <= |t|
    ensures ([c] + t)[..|t| + 1 - n] == [c] + t[..|t| - n]
    ensures ([c] + t)[|t| + 1 - n..] == t[|t| - n..]
  {
  }

  /** `GroupedPrepend` at position `i` of a string. */
  lemma GroupedPrependAt(s: string, i: nat)
    requires i < |s|
    ensures Grouped(s[i..]) == [s[i]] + (if CommaBefore(|s| - 1 - i) then "," else "") + Grouped(s[i + 1..])
  {
    GroupedPrepend(s[i], s[i + 1..]);
    assert [s[i]] + s[i + 1..] == s[i..];
  }

  lemma Assoc(x: string, y: string, z: string)
    ensures x + (y + z) == x + y + z
  {
  }

  lemma Regroup(x: string, y: string, z: string, v: string, w: string)
    ensures (x + y + z) + v + w == x + y + (z + v + w)
  {
  }

  /** Putting one more digit in front of a grouped string. */
  lemma GroupedPrepend(c: char, u: string)
    ensures Grouped([c] + u) == [c] + (if CommaBefore(|u|) then "," else "") + Grouped(u)
  {
    if |u| >= 3 {
      var a, b := u[..|u| - 3], u[|u| - 3..];
      FrontSlices(c, u, 3);
      PairsPrepend(c, a);
      var m := EvenComma(|a|);
      if |u| == 3 {
        assert a == [];
        assert Grouped([c] + u) == [c] + "," + u;
      } else {
        assert m == (if CommaBefore(|u|) then "," else "");
        var pa := Pairs(a);
        assert Grouped([c] + u) == ([c] + m + pa) + "," + b;
        assert Grouped(u) == pa + "," + b;
        Regroup([c], m, pa, ",", b);
      }
    }
  }

  /** The script's loop: walk the digits right to left, prepending each and
      a comma after the third digit and after every second one beyond it,
      never before the leftmost digit. */
  method FormatIndianNumber(numStr: string) returns (result: string)
    ensures result == Grouped(numStr)
  {
    if |numStr| <= 3 {
      return numStr;
    }
    result := "";
    var count := 0;
    var i := |numStr| - 1;
    ghost var comma: string := "";
    ghost var done: string := "";
    while i >= 0
      invariant -1 <= i < |numStr|
      invariant count == |numStr| - 1 - i
      invariant done == Grouped(numStr[i + 1..])
      invariant comma == (if i + 1 > 0 && CommaBefore(count) then "," else "")
      invariant result == comma + done
    {
      GroupedPrependAt(numStr, i);
      Assoc([numStr[i]], comma, done);
      done := Grouped(numStr[i..]);
      result := [numStr[i]] + result;
      count := count + 1;
      if count == 3 && i > 0 {
        result := "," + result;
      } else if count > 3 && (count - 3) % 2 == 0 && i > 0 {
        result := "," + result;
      }
      comma := if i > 0 && CommaBefore(count) then "," else "";
      i := i - 1;
    }
    assert numStr[0..] == numStr;
  }
}
