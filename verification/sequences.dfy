/** Facts about sequences that several components use. */
module Sequences {

  predicate NoRepeats<T(==)>(s: seq<T>) {
    forall i, j :: 0 <= i < j < |s| ==> s[i] != s[j]
  }

  lemma NoRepeatsAppend<T>(a: seq<T>, x: T)
    ensures NoRepeats(a + [x]) <==> NoRepeats(a) && x !in a
  {
    if NoRepeats(a + [x]) {
      forall i | 0 <= i < |a|
        ensures a[i] != x
      {
        assert (a + [x])[i] != (a + [x])[|a|];
      }
      assert forall i | 0 <= i < |a| :: a[i] == (a + [x])[i];
    }
  }

  lemma {:induction false} NoRepeatsConcat<T>(a: seq<T>, b: seq<T>)
    ensures NoRepeats(a + b) <==> NoRepeats(a) && NoRepeats(b) && forall x | x in b :: x !in a
  {
    if b == [] {
      assert a + b == a;
    } else {
      var init, last := b[..|b| - 1], b[|b| - 1];
      assert b == init + [last] && a + b == a + init + [last];
      NoRepeatsConcat(a, init);
      NoRepeatsAppend(a + init, last);
      NoRepeatsAppend(init, last);
    }
  }

  lemma {:induction false} CountWithoutRepeats<T>(s: seq<T>, x: T)
    requires NoRepeats(s)
    ensures multiset(s)[x] == if x in s then 1 else 0
  {
    if s != [] {
      var init, last := s[..|s| - 1], s[|s| - 1];
      assert s == init + [last];
      NoRepeatsAppend(init, last);
      CountWithoutRepeats(init, x);
    }
  }

  /** Without repeats the same elements are a permutation. */
  lemma SameElements<T>(a: seq<T>, b: seq<T>)
    requires NoRepeats(a) && NoRepeats(b) && forall x :: x in a <==> x in b
    ensures multiset(a) == multiset(b)
  {
    forall x
      ensures multiset(a)[x] == multiset(b)[x]
    {
      CountWithoutRepeats(a, x);
      CountWithoutRepeats(b, x);
    }
  }

  /** Taking the same element out of two permutations of each other leaves permutations. */
  lemma WithoutOne<T>(init: seq<T>, a: seq<T>, x: T, b: seq<T>)
    requires multiset(init + [x]) == multiset(a + [x] + b)
    ensures multiset(init) == multiset(a + b)
  {
    assert multiset(init) == multiset(init + [x]) - multiset{x};
    assert multiset(a + [x] + b) == multiset(a) + multiset{x} + multiset(b);
  }

  /** A permutation of `init + [x]` has `x` somewhere, and the rest of it is a permutation of `init`. */
  lemma SplitPermutation<T>(init: seq<T>, x: T, s: seq<T>) returns (a: seq<T>, b: seq<T>)
    requires multiset(init + [x]) == multiset(s)
    ensures s == a + [x] + b && multiset(init) == multiset(a + b)
  {
    assert x in multiset(s);
    var k :| 0 <= k < |s| && s[k] == x;
    a, b := s[..k], s[k + 1..];
    assert s == a + [x] + b;
    WithoutOne(init, a, x, b);
  }

  lemma AfterPrefix<T>(a: seq<T>, s: seq<T>) returns (rest: seq<T>)
    requires a < s
    ensures s == a + rest && rest != []
  {
    rest := s[|a|..];
  }
}
