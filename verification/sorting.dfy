/** Stable sorting by an integer key: what `Array.prototype.sort` does with a
    comparator `(a, b) => key(a) - key(b)` (the sort is stable since
    ECMAScript 2019). */
module Sorting {

  predicate SortedBy<T>(s: seq<T>, key: T -> int)
  {
    forall i, j :: 0 <= i < j < |s| ==> key(s[i]) <= key(s[j])
  }

  /** The elements of `s` whose key is `v`, in their order in `s`. */
  function WithKey<T>(s: seq<T>, key: T -> int, v: int): seq<T>
  {
    if |s| == 0 then []
    else (if key(s[0]) == v then [s[0]] else []) + WithKey(s[1..], key, v)
  }

  /** Inserts `x` after every element whose key is at most `key(x)`. */
  function Insert<T>(t: seq<T>, x: T, key: T -> int): (r: seq<T>)
    ensures multiset(r) == multiset(t) + multiset{x}
  {
    if |t| == 0 then [x]
    else if key(x) < key(t[0]) then
      assert t == [t[0]] + t[1..];
      [x] + t
    else
      assert t == [t[0]] + t[1..];
      [t[0]] + Insert(t[1..], x, key)
  }

  lemma {:induction false} InsertSorted<T>(t: seq<T>, x: T, key: T -> int)
    requires SortedBy(t, key)
    ensures SortedBy(Insert(t, x, key), key)
    decreases |t|
  {
    if |t| > 0 && key(x) >= key(t[0]) {
      var tail := Insert(t[1..], x, key);
      InsertSorted(t[1..], x, key);
      forall j | 0 <= j < |tail|
        ensures key(t[0]) <= key(tail[j])
      {
        assert tail[j] in multiset(tail);
        if tail[j] != x {
          assert tail[j] in multiset(t[1..]);
          var i :| 0 <= i < |t[1..]| && t[1..][i] == tail[j];
          assert t[i + 1] == tail[j];
        }
      }
      var r := [t[0]] + tail;
      forall i, j | 0 <= i < j < |r|
        ensures key(r[i]) <= key(r[j])
      {
        if i > 0 {
          assert r[i] == tail[i - 1] && r[j] == tail[j - 1];
        } else {
          assert r[j] == tail[j - 1];
        }
      }
    }
  }

  /** Insertion sort, each element inserted in input order. */
  function SortBy<T>(s: seq<T>, key: T -> int): (r: seq<T>)
    ensures multiset(r) == multiset(s)
    ensures SortedBy(r, key)
    decreases |s|
  {
    if |s| == 0 then []
    else
      assert s == s[..|s| - 1] + [s[|s| - 1]];
      InsertSorted(SortBy(s[..|s| - 1], key), s[|s| - 1], key);
      Insert(SortBy(s[..|s| - 1], key), s[|s| - 1], key)
  }

  lemma SortBySingle<T>(x: T, key: T -> int)
    ensures SortBy([x], key) == [x]
  {
    assert [x][..0] == [];
  }

  /** Two elements swap only when the second has the strictly smaller key. */
  lemma SortByPair<T>(x: T, y: T, key: T -> int)
    ensures SortBy([x, y], key) == if key(y) < key(x) then [y, x] else [x, y]
  {
    var s := [x, y];
    assert s[..1] == [x];
    SortBySingle(x, key);
    assert [x][1..] == [];
  }

  lemma {:induction false} WithKeyConcat<T>(a: seq<T>, b: seq<T>, key: T -> int, v: int)
    ensures WithKey(a + b, key, v) == WithKey(a, key, v) + WithKey(b, key, v)
    decreases |a|
  {
    if |a| == 0 {
      assert a + b == b;
    } else {
      var h := if key(a[0]) == v then [a[0]] else [];
      assert (a + b)[0] == a[0];
      assert (a + b)[1..] == a[1..] + b;
      assert WithKey(a + b, key, v) == h + WithKey(a[1..] + b, key, v);
      WithKeyConcat(a[1..], b, key, v);
      ConcatAssoc(h, WithKey(a[1..], key, v), WithKey(b, key, v));
    }
  }

  lemma {:induction false} WithKeyNone<T>(t: seq<T>, key: T -> int, v: int)
    requires forall i :: 0 <= i < |t| ==> key(t[i]) > v
    ensures WithKey(t, key, v) == []
    decreases |t|
  {
    if |t| > 0 {
      WithKeyNone(t[1..], key, v);
    }
  }

  lemma {:induction false} InsertWithKey<T>(t: seq<T>, x: T, key: T -> int, v: int)
    requires SortedBy(t, key)
    ensures WithKey(Insert(t, x, key), key, v)
              == WithKey(t, key, v) + (if key(x) == v then [x] else [])
    decreases |t|
  {
    if |t| > 0 {
      if key(x) < key(t[0]) {
        InsertFrontWithKey(t, x, key, v);
      } else {
        SortedTail(t, key);
        InsertWithKey(t[1..], x, key, v);
        InsertLaterWithKey(t, x, key, v);
      }
    }
  }

  /** `x` goes in front of a sorted list whose keys all exceed its own. */
  lemma InsertFrontWithKey<T>(t: seq<T>, x: T, key: T -> int, v: int)
    requires SortedBy(t, key) && |t| > 0 && key(x) < key(t[0])
    ensures WithKey(Insert(t, x, key), key, v)
              == WithKey(t, key, v) + (if key(x) == v then [x] else [])
  {
    assert Insert(t, x, key) == [x] + t;
    WithKeyCons(x, t, key, v);
    if key(x) == v {
      assert forall i :: 0 <= i < |t| ==> key(t[0]) <= key(t[i]);
      WithKeyNone(t, key, v);
    }
  }

  /** `x` goes past the head: the head's contribution comes first. */
  lemma InsertLaterWithKey<T>(t: seq<T>, x: T, key: T -> int, v: int)
    requires |t| > 0 && key(x) >= key(t[0])
    requires WithKey(Insert(t[1..], x, key), key, v)
               == WithKey(t[1..], key, v) + (if key(x) == v then [x] else [])
    ensures WithKey(Insert(t, x, key), key, v)
              == WithKey(t, key, v) + (if key(x) == v then [x] else [])
  {
    var own := if key(x) == v then [x] else [];
    var head := if key(t[0]) == v then [t[0]] else [];
    assert Insert(t, x, key) == [t[0]] + Insert(t[1..], x, key);
    WithKeyCons(t[0], Insert(t[1..], x, key), key, v);
    assert WithKey(t, key, v) == head + WithKey(t[1..], key, v);
    ConcatAssoc(head, WithKey(t[1..], key, v), own);
  }

  lemma ConcatAssoc<T>(a: seq<T>, b: seq<T>, c: seq<T>)
    ensures a + (b + c) == (a + b) + c
  {
  }

  lemma WithKeyCons<T>(h: T, t: seq<T>, key: T -> int, v: int)
    ensures WithKey([h] + t, key, v) == (if key(h) == v then [h] else []) + WithKey(t, key, v)
  {
    assert ([h] + t)[0] == h && ([h] + t)[1..] == t;
  }

  lemma SortedTail<T>(t: seq<T>, key: T -> int)
    requires |t| > 0 && SortedBy(t, key)
    ensures SortedBy(t[1..], key)
  {
    forall i, j | 0 <= i < j < |t[1..]| ensures key(t[1..][i]) <= key(t[1..][j]) {
      assert t[1..][i] == t[i + 1] && t[1..][j] == t[j + 1];
    }
  }

  /** Stability: elements with equal keys keep their relative order. */
  lemma {:induction false} SortByStable<T>(s: seq<T>, key: T -> int, v: int)
    ensures WithKey(SortBy(s, key), key, v) == WithKey(s, key, v)
    decreases |s|
  {
    if |s| > 0 {
      var init, last := s[..|s| - 1], s[|s| - 1];
      assert s == init + [last];
      SortByStable(init, key, v);
      InsertWithKey(SortBy(init, key), last, key, v);
      WithKeyConcat(init, [last], key, v);
    }
  }

  lemma SortedLength<T>(s: seq<T>, key: T -> int)
    ensures |SortBy(s, key)| == |s|
  {
    assert |multiset(SortBy(s, key))| == |multiset(s)|;
  }
}
