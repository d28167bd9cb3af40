/** Turning a frequency's key, such as `half-yearly`, into the text a
    table shows, such as `Half yearly`. */
module Labels {

  /** `Character.toUpperCase` on the lower-case ASCII letters. */
  function Upper(c: char): char
  {
    if 'a' <= c <= 'z' then (c as int - 32) as char else c
  }

  /** Where `a` first occurs in `s`. */
  function FirstIndex(s: string, a: char): (i: nat)
    requires a in s
    ensures i < |s| && s[i] == a && a !in s[..i]
  {
    if s[0] == a then 0
    else
      assert s == [s[0]] + s[1..];
      var j := FirstIndex(s[1..], a);
      assert s[..j + 1] == [s[0]] + s[1..][..j];
      j + 1
  }

  /** `s.replace(a, b)` with a one-character pattern: only the first
      occurrence is replaced. */
  function ReplaceFirst(s: string, a: char, b: char): (r: string)
    ensures a !in s ==> r == s
    ensures a in s ==> r == s[..FirstIndex(s, a)] + [b] + s[FirstIndex(s, a) + 1..]
  {
    if |s| == 0 then s
    else if s[0] == a then [b] + s[1..]
    else
      var rest := ReplaceFirst(s[1..], a, b);
      ReplaceStep(s, a, b, rest);
      [s[0]] + rest
  }

  /** Replacing in the tail of `s`, when its head is not `a`, replaces in `s`. */
  lemma ReplaceStep(s: string, a: char, b: char, rest: string)
    requires |s| > 0 && s[0] != a
    requires a !in s[1..] ==> rest == s[1..]
    requires a in s[1..] ==> rest == s[1..][..FirstIndex(s[1..], a)] + [b] + s[1..][FirstIndex(s[1..], a) + 1..]
    ensures a !in s ==> [s[0]] + rest == s
    ensures a in s ==> [s[0]] + rest == s[..FirstIndex(s, a)] + [b] + s[FirstIndex(s, a) + 1..]
  {
    assert s == [s[0]] + s[1..];
    if a in s[1..] {
      var j := FirstIndex(s[1..], a);
      assert FirstIndex(s, a) == j + 1;
      assert s[..j + 1] == [s[0]] + s[1..][..j];
      assert s[j + 2..] == s[1..][j + 1..];
    }
  }

  /** The frequency's name as the comparison table shows it: first letter
      capitalised, the first hyphen turned into a space. */
  function Label(name: string): string
  {
    if |name| == 0 then "" else [Upper(name[0])] + ReplaceFirst(name[1..], '-', ' ')
  }

  /** A name without a hyphen only has its first letter capitalised. */
  lemma NoHyphenLabel(name: string, first: char, rest: string)
    requires name == [first] + rest && '-' !in rest
    ensures Label(name) == [Upper(first)] + rest
  {
    assert name[1..] == rest;
  }

  /** In a hyphenated name only the first hyphen becomes a space. */
  lemma HyphenLabel(name: string, first: char, before: string, after: string)
    requires name == [first] + before + ['-'] + after && '-' !in before
    ensures Label(name) == [Upper(first)] + before + [' '] + after
  {
    var t := name[1..];
    assert t == before + ['-'] + after;
    assert t[|before|] == '-' && t[..|before|] == before;
    assert FirstIndex(t, '-') == |before|;
    assert t[|before| + 1..] == after;
  }
}
