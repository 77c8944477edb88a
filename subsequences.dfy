/**
 * Order-preserving selection from a sequence, the meaning of a Python list
 * comprehension `[x for x in s if p(x)]`, and the subsequence relation it
 * establishes.
 */
module Subsequences {

  /** `[x for x in s if p(x)]`. */
  function Keep<T>(s: seq<T>, p: T -> bool): (r: seq<T>)
    ensures |r| <= |s|
    ensures forall x :: x in r ==> x in s && p(x)
  {
    if s == [] then [] else (if p(s[0]) then [s[0]] else []) + Keep(s[1..], p)
  }

  /** `xs` is `ys` with some elements dropped and the rest left in their order. */
  predicate IsSubsequence<T(==)>(xs: seq<T>, ys: seq<T>)
    decreases |ys|
  {
    xs == [] ||
    (ys != [] &&
     ((xs[0] == ys[0] && IsSubsequence(xs[1..], ys[1..])) || IsSubsequence(xs, ys[1..])))
  }

  /** Selection keeps the order of what it keeps. */
  lemma {:induction false} KeepIsSubsequence<T>(s: seq<T>, p: T -> bool)
    ensures IsSubsequence(Keep(s, p), s)
  {
    if s != [] {
      KeepIsSubsequence(s[1..], p);
      if !p(s[0]) && Keep(s, p) != [] {
        assert Keep(s, p) == Keep(s[1..], p);
      }
    }
  }

  /**
   * Selection keeps every occurrence of an element that satisfies `p` and no
   * occurrence of one that does not.
   */
  lemma {:induction false} KeepMultiplicity<T>(s: seq<T>, p: T -> bool, x: T)
    ensures multiset(Keep(s, p))[x] == if p(x) then multiset(s)[x] else 0
  {
    if s != [] {
      KeepMultiplicity(s[1..], p, x);
      assert s == [s[0]] + s[1..];
    }
  }

  /** What selection keeps: exactly the elements of `s` that satisfy `p`. */
  lemma {:induction false} KeepMembers<T>(s: seq<T>, p: T -> bool, x: T)
    ensures x in Keep(s, p) <==> x in s && p(x)
  {
    KeepMultiplicity(s, p, x);
  }

  /** Selecting with a condition every element meets changes nothing. */
  lemma {:induction false} KeepAll<T>(s: seq<T>, p: T -> bool)
    requires forall x :: x in s ==> p(x)
    ensures Keep(s, p) == s
  {
    if s != [] {
      assert s[0] in s;
      KeepAll(s[1..], p);
    }
  }

  /** Two conditions that agree on the elements of `s` select the same elements. */
  lemma {:induction false} KeepAgree<T>(s: seq<T>, p: T -> bool, q: T -> bool)
    requires forall x :: x in s ==> p(x) == q(x)
    ensures Keep(s, p) == Keep(s, q)
  {
    if s != [] {
      assert s[0] in s;
      KeepAgree(s[1..], p, q);
    }
  }

  /** Selecting twice is selecting once with both conditions. */
  lemma {:induction false} KeepTwice<T>(s: seq<T>, p: T -> bool, q: T -> bool, both: T -> bool)
    requires forall x :: x in s ==> both(x) == (p(x) && q(x))
    ensures Keep(Keep(s, p), q) == Keep(s, both)
  {
    if s != [] {
      assert s[0] in s;
      KeepTwice(s[1..], p, q, both);
      assert Keep(s, p) == (if p(s[0]) then [s[0]] else []) + Keep(s[1..], p);
      assert Keep(s, both) == (if both(s[0]) then [s[0]] else []) + Keep(s[1..], both);
      if p(s[0]) {
        var kept := Keep(s, p);
        assert kept[0] == s[0] && kept[1..] == Keep(s[1..], p);
        assert Keep(kept, q) == (if q(s[0]) then [s[0]] else []) + Keep(Keep(s[1..], p), q);
        assert both(s[0]) == q(s[0]);
      } else {
        assert !both(s[0]);
        assert Keep(s, p) == Keep(s[1..], p);
      }
    }
  }

  /** Two sequences with the same elements, as many times each, have the same members. */
  lemma SameMembers<T>(a: seq<T>, b: seq<T>)
    requires multiset(a) == multiset(b)
    ensures forall x :: x in a <==> x in b
  {
    forall x ensures x in a <==> x in b {
      assert x in a <==> x in multiset(a);
      assert x in b <==> x in multiset(b);
    }
  }
}
