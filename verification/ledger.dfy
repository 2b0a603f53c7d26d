/** A JavaScript plain object from participant id to an amount in cents, as
    the ledger code builds and reads it: an ordered list of entries, in the
    order `Object.entries` reports them (insertion order for non-numeric keys). */
module Ledger {
  import opened Sums

  type Id = string
  type Entry = (Id, int)
  type Entries = seq<Entry>

  function Keys(m: Entries): seq<Id>
  {
    if |m| == 0 then [] else [m[0].0] + Keys(m[1..])
  }

  /** Whether the object has the key; generic in the value, so that it
      also serves objects whose values are not amounts. */
  predicate HasKey<V>(m: seq<(Id, V)>, k: Id)
  {
    |m| > 0 && (m[0].0 == k || HasKey(m[1..], k))
  }

  /** Object keys are unique; every object built through `Assign` keeps this. */
  predicate NoDupKeys<V>(m: seq<(Id, V)>)
  {
    |m| == 0 || (!HasKey(m[1..], m[0].0) && NoDupKeys(m[1..]))
  }

  /** No id occurs twice in the list. */
  predicate Distinct(ids: seq<Id>)
  {
    forall i, j :: 0 <= i < j < |ids| ==> ids[i] != ids[j]
  }

  /** `m[k] || 0`: the value stored under `k`, or 0 when there is none. */
  function Get(m: Entries, k: Id): (v: int)
    ensures !HasKey(m, k) ==> v == 0
  {
    if |m| == 0 then 0
    else if m[0].0 == k then m[0].1
    else Get(m[1..], k)
  }

  /** `m[k] = v`: an existing key keeps its position and takes the new value;
      a new key is appended at the end. */
  function Assign(m: Entries, k: Id, v: int): (r: Entries)
    ensures Get(r, k) == v
    ensures forall k' :: k' != k ==> Get(r, k') == Get(m, k')
    ensures forall k' :: HasKey(r, k') <==> HasKey(m, k') || k' == k
    ensures HasKey(m, k) ==> Keys(r) == Keys(m)
    ensures !HasKey(m, k) ==> r == m + [(k, v)]
    ensures NoDupKeys(m) ==> NoDupKeys(r)
  {
    if |m| == 0 then [(k, v)]
    else if m[0].0 == k then
      var r := [(k, v)] + m[1..];
      assert r[1..] == m[1..];
      r
    else
      var r := [m[0]] + Assign(m[1..], k, v);
      assert r[1..] == Assign(m[1..], k, v);
      assert !HasKey(m, k) ==> m + [(k, v)] == [m[0]] + (m[1..] + [(k, v)]);
      r
  }

  function Amount(e: Entry): int
  {
    e.1
  }

  function AmountFor(k: Id): Entry -> int
  {
    (e: Entry) => if e.0 == k then e.1 else 0
  }

  /** Total of all values. */
  function Sum(m: Entries): int
  {
    SumOf(m, Amount)
  }

  /** Total of the values stored under `k` (several only if keys repeat). */
  function SumFor(m: Entries, k: Id): int
  {
    SumOf(m, AmountFor(k))
  }

  lemma SumForCons(m: Entries, k: Id)
    requires |m| > 0
    ensures SumFor(m, k) == (if m[0].0 == k then m[0].1 else 0) + SumFor(m[1..], k)
  {
  }

  lemma SumCons(m: Entries)
    requires |m| > 0
    ensures Sum(m) == m[0].1 + Sum(m[1..])
  {
  }

  lemma {:induction false} GetAt(m: Entries, i: int)
    requires NoDupKeys(m)
    requires 0 <= i < |m|
    ensures Get(m, m[i].0) == m[i].1
    decreases i
  {
    if i > 0 {
      assert m[1..][i - 1] == m[i];
      GetAt(m[1..], i - 1);
      HasKeyAt(m[1..], i - 1);
    }
  }

  lemma {:induction false} HasKeyAt(m: Entries, i: int)
    requires 0 <= i < |m|
    ensures HasKey(m, m[i].0)
    decreases i
  {
    if i > 0 {
      assert m[1..][i - 1] == m[i];
      HasKeyAt(m[1..], i - 1);
    }
  }

  /** With unique keys the value under a key is the total stored under it. */
  lemma {:induction false} SumForIsGet(m: Entries, k: Id)
    requires NoDupKeys(m)
    ensures SumFor(m, k) == Get(m, k)
    decreases |m|
  {
    if |m| > 0 {
      SumForIsGet(m[1..], k);
    }
  }

  /** Assigning `v` to `k` changes the total by exactly `v - m[k]`. */
  lemma {:induction false} SumAssign(m: Entries, k: Id, v: int)
    requires NoDupKeys(m)
    ensures Sum(Assign(m, k, v)) == Sum(m) - Get(m, k) + v
    decreases |m|
  {
    if |m| > 0 {
      if m[0].0 == k {
        assert Assign(m, k, v)[1..] == m[1..];
      } else {
        assert Assign(m, k, v)[1..] == Assign(m[1..], k, v);
        SumAssign(m[1..], k, v);
      }
    }
  }

  lemma {:induction false} KeysAppend(m: Entries, e: Entry)
    ensures Keys(m + [e]) == Keys(m) + [e.0]
    decreases |m|
  {
    if |m| > 0 {
      assert (m + [e])[1..] == m[1..] + [e];
      KeysAppend(m[1..], e);
    }
  }

  lemma {:induction false} HasKeyIndex(m: Entries, k: Id)
    requires HasKey(m, k)
    ensures exists i :: 0 <= i < |m| && m[i].0 == k
    decreases |m|
  {
    if m[0].0 != k {
      HasKeyIndex(m[1..], k);
      var i :| 0 <= i < |m[1..]| && m[1..][i].0 == k;
      assert m[i + 1].0 == k;
    }
  }

  /** With unique keys, an entry of the object is what `Get` reads. */
  lemma GetEntry(m: Entries, e: Entry)
    requires NoDupKeys(m) && e in m
    ensures Get(m, e.0) == e.1
  {
    var i :| 0 <= i < |m| && m[i] == e;
    GetAt(m, i);
  }
}
