/** Sequence helpers shared by the pages that keep a short history of
    saved entries in the browser's storage. */
module Lists {

  /** The last `n` entries of `s` (all of them when there are fewer),
      in their order in `s`: what `s.slice(-n)` gives for `n > 0`. */
  function Newest<T>(s: seq<T>, n: nat): (r: seq<T>)
    ensures |r| == if |s| < n then |s| else n
    ensures r == s[|s| - |r|..]
  {
    if |s| <= n then s else s[|s| - n..]
  }

  /** Taking the newest `n` after appending one more entry is the same as
      appending it to the newest `n` and taking the newest `n` again. */
  lemma NewestAppend<T>(s: seq<T>, x: T, n: nat)
    requires n > 0
    ensures Newest(s + [x], n) == Newest(Newest(s, n) + [x], n)
  {
    var t := Newest(s, n);
    if |s| > n {
      assert t + [x] == (s + [x])[|s| - n..];
      assert Newest(t + [x], n) == (s + [x])[|s| + 1 - n..];
    }
  }
}
