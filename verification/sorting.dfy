/** The comparison sorts the pages apply to their result tables
    (`Array.prototype.sort` with a "larger first" comparator, which is
    stable), modelled as an insertion sort on a numeric key. */
module Sorting {

  /** Keys never increase along `s`. */
  predicate DescendingBy<T>(s: seq<T>, key: T -> real)
  {
    forall i, j :: 0 <= i < j < |s| ==> key(s[i]) >= key(s[j])
  }

  /** Every entry of `s` has a key of at most `v`. */
  predicate AllAtMost<T>(s: seq<T>, key: T -> real, v: real)
  {
    forall i :: 0 <= i < |s| ==> key(s[i]) <= v
  }

  /** Places `x` before the first entry whose key it is at least as large as. */
  function InsertBy<T>(x: T, s: seq<T>, key: T -> real): (r: seq<T>)
    ensures multiset(r) == multiset(s) + multiset{x}
    ensures |r| == |s| + 1
  {
    if |s| == 0 then [x]
    else if key(s[0]) <= key(x) then [x] + s
    else
      assert s == [s[0]] + s[1..];
      [s[0]] + InsertBy(x, s[1..], key)
  }

  /** A copy of `s`, largest key first, equal keys in their original order. */
  function SortDescendingBy<T>(s: seq<T>, key: T -> real): (r: seq<T>)
    ensures multiset(r) == multiset(s)
    ensures |r| == |s|
    ensures DescendingBy(r, key)
  {
    if |s| == 0 then []
    else
      assert s == [s[0]] + s[1..];
      var rest := SortDescendingBy(s[1..], key);
      InsertDescending(s[0], rest, key);
      InsertBy(s[0], rest, key)
  }

  lemma {:induction false} InsertKeepsBound<T>(x: T, s: seq<T>, key: T -> real, v: real)
    requires AllAtMost(s, key, v) && key(x) <= v
    ensures AllAtMost(InsertBy(x, s, key), key, v)
  {
    if |s| > 0 && key(s[0]) > key(x) {
      InsertKeepsBound(x, s[1..], key, v);
    }
  }

  lemma {:induction false} InsertDescending<T>(x: T, s: seq<T>, key: T -> real)
    requires DescendingBy(s, key)
    ensures DescendingBy(InsertBy(x, s, key), key)
  {
    if |s| > 0 {
      var rest := s[1..];
      assert AllAtMost(rest, key, key(s[0]));
      if key(s[0]) <= key(x) {
        assert AllAtMost(s, key, key(x));
        Prepend(x, s, key);
      } else {
        InsertDescending(x, rest, key);
        InsertKeepsBound(x, rest, key, key(s[0]));
        Prepend(s[0], InsertBy(x, rest, key), key);
      }
    }
  }

  /** Putting a largest entry in front of a descending sequence keeps it descending. */
  lemma Prepend<T>(x: T, s: seq<T>, key: T -> real)
    requires DescendingBy(s, key) && AllAtMost(s, key, key(x))
    ensures DescendingBy([x] + s, key)
  {
    var r := [x] + s;
    forall i, j | 0 <= i < j < |r|
      ensures key(r[i]) >= key(r[j])
    {
      if i > 0 {
        assert r[i] == s[i - 1] && r[j] == s[j - 1];
      } else {
        assert r[j] == s[j - 1];
      }
    }
  }

  /** The entries of `s` whose key is `v`, in their order in `s`. */
  function WithKey<T>(s: seq<T>, key: T -> real, v: real): seq<T>
  {
    if |s| == 0 then []
    else (if key(s[0]) == v then [s[0]] else []) + WithKey(s[1..], key, v)
  }

  /** Insertion goes in front of every entry it ties with. */
  lemma {:induction false} InsertKeepsTies<T>(x: T, s: seq<T>, key: T -> real, v: real)
    ensures WithKey(InsertBy(x, s, key), key, v) == (if key(x) == v then [x] else []) + WithKey(s, key, v)
  {
    var own := if key(x) == v then [x] else [];
    if |s| == 0 {
      assert [x][1..] == [];
    } else if key(s[0]) <= key(x) {
      assert ([x] + s)[1..] == s;
    } else {
      var head := if key(s[0]) == v then [s[0]] else [];
      InsertKeepsTies(x, s[1..], key, v);
      assert ([s[0]] + InsertBy(x, s[1..], key))[1..] == InsertBy(x, s[1..], key);
      assert head == [] || own == [];
      calc {
        WithKey(InsertBy(x, s, key), key, v);
        head + WithKey(InsertBy(x, s[1..], key), key, v);
        head + (own + WithKey(s[1..], key, v));
        { SwapEmpty(head, own, WithKey(s[1..], key, v)); }
        own + (head + WithKey(s[1..], key, v));
      }
    }
  }

  lemma SwapEmpty<T>(a: seq<T>, b: seq<T>, c: seq<T>)
    requires a == [] || b == []
    ensures a + (b + c) == b + (a + c)
  {
    if a == [] {
      assert a + (b + c) == b + c == b + (a + c);
    } else {
      assert a + (b + c) == a + c == b + (a + c);
    }
  }

  /** The sort is stable: the entries sharing any one key come out in the
      order they went in. */
  lemma {:induction false} SortKeepsTies<T>(s: seq<T>, key: T -> real, v: real)
    ensures WithKey(SortDescendingBy(s, key), key, v) == WithKey(s, key, v)
  {
    if |s| > 0 {
      SortKeepsTies(s[1..], key, v);
      InsertKeepsTies(s[0], SortDescendingBy(s[1..], key), key, v);
    }
  }

  /** Sorting a sequence that is already in order changes nothing. */
  lemma {:induction false} SortedIsUnchanged<T>(s: seq<T>, key: T -> real)
    requires DescendingBy(s, key)
    ensures SortDescendingBy(s, key) == s
  {
    if |s| > 0 {
      var rest := s[1..];
      assert DescendingBy(rest, key);
      SortedIsUnchanged(rest, key);
      assert s == [s[0]] + rest;
      if |rest| > 0 {
        assert key(rest[0]) <= key(s[0]);
      }
    }
  }

  /** Sorting loses no entry. */
  lemma SortKeepsMembers<T>(s: seq<T>, key: T -> real, x: T)
    requires x in s
    ensures x in SortDescendingBy(s, key)
  {
    assert x in multiset(s);
  }
}
