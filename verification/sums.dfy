/** Sums of an integer-valued measure over a sequence, and their invariance
    under concatenation and permutation. Used for money totals throughout. */
module Sums {

  /** f(s[0]) + f(s[1]) + ... + f(s[|s|-1]) */
  function SumOf<T>(s: seq<T>, f: T -> int): int
  {
    if |s| == 0 then 0 else f(s[0]) + SumOf(s[1..], f)
  }

  lemma {:induction false} SumOfConcat<T>(a: seq<T>, b: seq<T>, f: T -> int)
    ensures SumOf(a + b, f) == SumOf(a, f) + SumOf(b, f)
    decreases |a|
  {
    if |a| == 0 {
      assert a + b == b;
    } else {
      assert (a + b)[1..] == a[1..] + b;
      SumOfConcat(a[1..], b, f);
    }
  }

  /** Taking one element out of a sequence takes its measure out of the sum. */
  lemma SumOfRemove<T>(b: seq<T>, k: int, f: T -> int)
    requires 0 <= k < |b|
    ensures SumOf(b, f) == f(b[k]) + SumOf(b[..k] + b[k+1..], f)
  {
    var front, back := b[..k], b[k+1..];
    var tail := [b[k]] + back;
    assert b[k..] == tail by {
      assert b[k..][1..] == back;
    }
    assert b == front + b[k..];
    assert tail[1..] == back;
    assert SumOf(tail, f) == f(b[k]) + SumOf(back, f);
    SumOfConcat(front, tail, f);
    SumOfConcat(front, back, f);
  }

  lemma MultisetRemove<T>(b: seq<T>, k: int)
    requires 0 <= k < |b|
    ensures multiset(b[..k] + b[k+1..]) == multiset(b) - multiset{b[k]}
  {
    assert b == b[..k] + [b[k]] + b[k+1..];
  }

  lemma FindIndex<T>(b: seq<T>, x: T) returns (k: int)
    requires x in multiset(b)
    ensures 0 <= k < |b| && b[k] == x
  {
    assert x in b;
    k :| 0 <= k < |b| && b[k] == x;
  }

  /** Taking the head of `a` and its match in `b` out keeps them permutations. */
  lemma PermutationTail<T>(a: seq<T>, b: seq<T>, k: int)
    requires multiset(a) == multiset(b) && |a| > 0
    requires 0 <= k < |b| && b[k] == a[0]
    ensures multiset(a[1..]) == multiset(b[..k] + b[k+1..])
  {
    assert a == [a[0]] + a[1..];
    assert multiset(a[1..]) == multiset(a) - multiset{a[0]};
    MultisetRemove(b, k);
  }

  /** A sum does not depend on the order in which the elements are visited. */
  lemma {:induction false} SumOfPermutation<T>(a: seq<T>, b: seq<T>, f: T -> int)
    requires multiset(a) == multiset(b)
    ensures SumOf(a, f) == SumOf(b, f)
    decreases |a|
  {
    if |a| == 0 {
      assert |b| == |multiset(b)| == 0;
    } else {
      assert a[0] in multiset(a);
      var k := FindIndex(b, a[0]);
      PermutationTail(a, b, k);
      SumOfPermutation(a[1..], b[..k] + b[k+1..], f);
      SumOfRemove(b, k, f);
    }
  }
}
