/** The allocator: `calculateEqualSplit` in src/lib/algorithms.js. */
module Split {
  import opened Ledger

  /** `parseFloat((total / n).toFixed(2))` on an amount in cents: the quotient
      rounded to a whole cent. An exact half cent goes away from zero; this
      is the cents model's rule, not a property of floating-point `toFixed`. */
  function RoundDiv(total: int, n: int): (q: int)
    requires n > 0
    ensures -n <= 2 * (total - q * n) <= n
    ensures 2 * (total - q * n) == n ==> total < 0
    ensures 2 * (total - q * n) == -n ==> total >= 0
  {
    if total >= 0 then (2 * total + n) / (2 * n)
    else -((-2 * total + n) / (2 * n))
  }

  /** Every listed id gets `v`, by assignment in list order. */
  function AssignAll(m: Entries, ids: seq<Id>, v: int): Entries
    decreases |ids|
  {
    if |ids| == 0 then m else AssignAll(Assign(m, ids[0], v), ids[1..], v)
  }

  /** Splits `total` cents equally over the consumers in order. Every consumer
      gets the rounded share; the whole residue `total - share * n` goes to
      the first consumer. No consumers, no shares. */
  function EqualSplit(total: int, ids: seq<Id>): (r: Entries)
    ensures |ids| == 0 ==> r == []
  {
    if |ids| == 0 then []
    else
      var share := RoundDiv(total, |ids|);
      var splits := AssignAll([], ids, share);
      var diff := total - share * |ids|;
      if diff != 0 then Assign(splits, ids[0], Get(splits, ids[0]) + diff)
      else splits
  }

  lemma {:induction false} AssignAllFacts(m: Entries, ids: seq<Id>, v: int)
    ensures forall k :: Get(AssignAll(m, ids, v), k) == if k in ids then v else Get(m, k)
    ensures forall k :: HasKey(AssignAll(m, ids, v), k) <==> HasKey(m, k) || k in ids
    ensures NoDupKeys(m) ==> NoDupKeys(AssignAll(m, ids, v))
    decreases |ids|
  {
    if |ids| > 0 {
      AssignAllFacts(Assign(m, ids[0], v), ids[1..], v);
      assert ids == [ids[0]] + ids[1..];
    }
  }

  /** Assigning distinct fresh keys appends them in list order. */
  lemma {:induction false} AssignAllFreshKeys(m: Entries, ids: seq<Id>, v: int)
    requires NoDupKeys(m) && Distinct(ids)
    requires forall k :: k in ids ==> !HasKey(m, k)
    ensures Keys(AssignAll(m, ids, v)) == Keys(m) + ids
    decreases |ids|
  {
    if |ids| > 0 {
      FreshTail(m, ids, v);
      AssignAllFreshKeys(Assign(m, ids[0], v), ids[1..], v);
      AssignAllFreshStep(m, ids, v);
    }
  }

  lemma AssignAllFreshStep(m: Entries, ids: seq<Id>, v: int)
    requires |ids| > 0 && !HasKey(m, ids[0])
    requires Keys(AssignAll(Assign(m, ids[0], v), ids[1..], v)) == Keys(Assign(m, ids[0], v)) + ids[1..]
    ensures Keys(AssignAll(m, ids, v)) == Keys(m) + ids
  {
    var m' := Assign(m, ids[0], v);
    assert AssignAll(m, ids, v) == AssignAll(m', ids[1..], v);
    AssignFresh(m, ids[0], v);
    ConcatHead(Keys(m), ids);
  }

  lemma ConcatHead<T>(a: seq<T>, s: seq<T>)
    requires |s| > 0
    ensures a + s == (a + [s[0]]) + s[1..]
  {
    assert s == [s[0]] + s[1..];
  }

  lemma AssignFresh(m: Entries, k: Id, v: int)
    requires !HasKey(m, k)
    ensures Keys(Assign(m, k, v)) == Keys(m) + [k]
  {
    KeysAppend(m, (k, v));
  }

  /** Assigning `v` to distinct fresh keys adds `v` per key to the total. */
  lemma {:induction false} AssignAllFreshSum(m: Entries, ids: seq<Id>, v: int)
    requires NoDupKeys(m) && Distinct(ids)
    requires forall k :: k in ids ==> !HasKey(m, k)
    ensures Sum(AssignAll(m, ids, v)) == Sum(m) + |ids| * v
    decreases |ids|
  {
    if |ids| > 0 {
      var m' := Assign(m, ids[0], v);
      assert Get(m, ids[0]) == 0;
      SumAssign(m, ids[0], v);
      FreshTail(m, ids, v);
      AssignAllFreshSum(m', ids[1..], v);
      assert AssignAll(m, ids, v) == AssignAll(m', ids[1..], v);
      assert |ids| * v == (|ids| - 1) * v + v;
    }
  }

  lemma FreshTail(m: Entries, ids: seq<Id>, v: int)
    requires NoDupKeys(m) && Distinct(ids) && |ids| > 0
    requires forall k :: k in ids ==> !HasKey(m, k)
    ensures Distinct(ids[1..])
    ensures forall k :: k in ids[1..] ==> !HasKey(Assign(m, ids[0], v), k)
  {
    forall k | k in ids[1..]
      ensures !HasKey(Assign(m, ids[0], v), k)
    {
      var j :| 0 <= j < |ids[1..]| && ids[1..][j] == k;
      assert ids[j + 1] == k;
    }
  }

  /** The result's keys are exactly the consumers and are unique; every
      consumer other than the first gets the rounded share, and the first gets
      whatever the others leave of the total. */
  lemma EqualSplitShares(total: int, ids: seq<Id>)
    requires |ids| > 0
    ensures NoDupKeys(EqualSplit(total, ids))
    ensures forall k :: HasKey(EqualSplit(total, ids), k) <==> k in ids
    ensures forall k :: k in ids && k != ids[0] ==>
              Get(EqualSplit(total, ids), k) == RoundDiv(total, |ids|)
    ensures Get(EqualSplit(total, ids), ids[0])
              == total - (|ids| - 1) * RoundDiv(total, |ids|)
  {
    var share := RoundDiv(total, |ids|);
    AssignAllFacts([], ids, share);
    assert share * |ids| == (|ids| - 1) * share + share;
  }

  /** For distinct consumers the shares list the consumers in order and add up
      to the total exactly. */
  lemma EqualSplitSum(total: int, ids: seq<Id>)
    requires |ids| > 0 && Distinct(ids)
    ensures Keys(EqualSplit(total, ids)) == ids
    ensures Sum(EqualSplit(total, ids)) == total
  {
    var n := |ids|;
    var share := RoundDiv(total, n);
    var splits := AssignAll([], ids, share);
    AssignAllFreshKeys([], ids, share);
    AssignAllFreshSum([], ids, share);
    AssignAllFacts([], ids, share);
    assert Keys([]) + ids == ids;
    var diff := total - share * n;
    if diff != 0 {
      assert HasKey(splits, ids[0]);
      SumAssign(splits, ids[0], Get(splits, ids[0]) + diff);
    }
  }

  /** Each share other than the first is within half a cent of `total / n`;
      the first differs from the rounded share by at most `n / 2` cents. */
  lemma EqualSplitNearQuotient(total: int, ids: seq<Id>)
    requires |ids| > 0
    ensures forall k :: k in ids && k != ids[0] ==>
              -|ids| <= 2 * (total - Get(EqualSplit(total, ids), k) * |ids|) <= |ids|
    ensures -|ids| <= 2 * (Get(EqualSplit(total, ids), ids[0]) - RoundDiv(total, |ids|)) <= |ids|
  {
    OthersNearQuotient(total, ids);
    FirstNearShare(total, ids);
  }

  lemma OthersNearQuotient(total: int, ids: seq<Id>)
    requires |ids| > 0
    ensures forall k :: k in ids && k != ids[0] ==>
              -|ids| <= 2 * (total - Get(EqualSplit(total, ids), k) * |ids|) <= |ids|
  {
    var share := RoundDiv(total, |ids|);
    EqualSplitShares(total, ids);
    assert -|ids| <= 2 * (total - share * |ids|) <= |ids|;
  }

  lemma FirstNearShare(total: int, ids: seq<Id>)
    requires |ids| > 0
    ensures -|ids| <= 2 * (Get(EqualSplit(total, ids), ids[0]) - RoundDiv(total, |ids|)) <= |ids|
  {
    var n := |ids|;
    var share := RoundDiv(total, n);
    var first := Get(EqualSplit(total, ids), ids[0]);
    assert first == total - (n - 1) * share by {
      EqualSplitShares(total, ids);
    }
    assert -n <= 2 * (total - share * n) <= n;
    assert first - share == total - share * n by {
      assert (n - 1) * share + share == share * n;
    }
  }

  /** 100.00 over A, B, C: A gets 33.34, B and C get 33.33. */
  lemma EqualSplitThreeWays()
    ensures EqualSplit(10000, ["A", "B", "C"]) == [("A", 3334), ("B", 3333), ("C", 3333)]
  {
  }

  /** The residue can exceed the share itself: 0.05 over ten consumers rounds
      the share up to 0.01, and the first consumer is left with -0.04. */
  lemma FirstShareCanBeNegative()
    ensures Get(EqualSplit(5, ["a", "b", "c", "d", "e", "f", "g", "h", "i", "j"]), "a") == -4
  {
    var ids := ["a", "b", "c", "d", "e", "f", "g", "h", "i", "j"];
    assert |ids| == 10;
    assert RoundDiv(5, 10) == 1;
    EqualSplitShares(5, ids);
  }

  /** 0.15 over two consumers: the quotient is exactly half a cent past 7,
      the share rounds up to 8, and the first consumer keeps the -1 residue. */
  lemma HalfCentTie()
    ensures EqualSplit(15, ["A", "B"]) == [("A", 7), ("B", 8)]
  {
    assert RoundDiv(15, 2) == 8;
  }
}
