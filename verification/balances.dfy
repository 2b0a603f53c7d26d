/** The balance aggregator: `calculateBalances` in src/lib/algorithms.js. */
module Balances {
  import opened Sums
  import opened Ledger

  datatype Participant = Participant(id: Id, name: string)

  /** An expense record as the aggregator reads it: who paid how many cents
      and how many cents each consumer owes for it. */
  datatype Expense = Expense(amount: int, paidBy: Entries, splitBetween: Entries)

  /** Whether a posting is a payment (credit) or a consumption (debit). */
  datatype Side = Credit | Debit

  function Signed(side: Side, x: int): int
  {
    match side
    case Credit => x
    case Debit => -x
  }

  function RosterIds(roster: seq<Participant>): seq<Id>
  {
    seq(|roster|, i requires 0 <= i < |roster| => roster[i].id)
  }

  /** Every roster participant starts at zero. */
  function ZeroAll(b: Entries, roster: seq<Participant>): Entries
    decreases |roster|
  {
    if |roster| == 0 then b else ZeroAll(Assign(b, roster[0].id, 0), roster[1..])
  }

  /** `balances[id] = (balances[id] || 0) ± amount` for every entry, in order. */
  function Post(b: Entries, entries: Entries, side: Side): Entries
    decreases |entries|
  {
    if |entries| == 0 then b
    else
      var id := entries[0].0;
      Post(Assign(b, id, Get(b, id) + Signed(side, entries[0].1)), entries[1..], side)
  }

  /** One expense: credit every payer, then debit every consumer. */
  function PostExpense(b: Entries, e: Expense): Entries
  {
    Post(Post(b, e.paidBy, Credit), e.splitBetween, Debit)
  }

  function PostAll(b: Entries, expenses: seq<Expense>): Entries
    decreases |expenses|
  {
    if |expenses| == 0 then b else PostAll(PostExpense(b, expenses[0]), expenses[1..])
  }

  /** Net balance per participant id, positive when the participant is owed
      money. */
  function CalculateBalances(expenses: seq<Expense>, roster: seq<Participant>): Entries
  {
    PostAll(ZeroAll([], roster), expenses)
  }

  // Reference definitions the aggregator is proved against.

  /** What one expense does to `id`: paid minus consumed. */
  function Net(e: Expense, id: Id): int
  {
    SumFor(e.paidBy, id) - SumFor(e.splitBetween, id)
  }

  function NetOf(id: Id): Expense -> int
  {
    (e: Expense) => Net(e, id)
  }

  /** What all expenses together do to `id`. */
  function TotalNet(expenses: seq<Expense>, id: Id): int
  {
    SumOf(expenses, NetOf(id))
  }

  /** Paid minus consumed over a whole expense; 0 for a self-balanced record. */
  function Imbalance(e: Expense): int
  {
    Sum(e.paidBy) - Sum(e.splitBetween)
  }

  /** `id` is a payer or consumer of some expense. */
  predicate Involved(expenses: seq<Expense>, id: Id)
  {
    exists e :: e in expenses && (HasKey(e.paidBy, id) || HasKey(e.splitBetween, id))
  }

  lemma PostCons(b: Entries, entries: Entries, side: Side)
    requires |entries| > 0
    ensures Post(b, entries, side)
              == Post(Assign(b, entries[0].0, Get(b, entries[0].0) + Signed(side, entries[0].1)), entries[1..], side)
  {
  }

  lemma SignedAdd(side: Side, x: int, y: int)
    ensures Signed(side, x + y) == Signed(side, x) + Signed(side, y)
  {
  }

  lemma {:induction false} PostGet(b: Entries, entries: Entries, side: Side, k: Id)
    ensures Get(Post(b, entries, side), k) == Get(b, k) + Signed(side, SumFor(entries, k))
    decreases |entries|
  {
    if |entries| > 0 {
      var id, amount := entries[0].0, entries[0].1;
      var b' := Assign(b, id, Get(b, id) + Signed(side, amount));
      PostCons(b, entries, side);
      assert Get(b', k) == Get(b, k) + (if id == k then Signed(side, amount) else 0);
      PostGet(b', entries[1..], side, k);
      SumForCons(entries, k);
      SignedAdd(side, if id == k then amount else 0, SumFor(entries[1..], k));
    }
  }

  lemma {:induction false} PostKeys(b: Entries, entries: Entries, side: Side)
    ensures forall k :: HasKey(Post(b, entries, side), k) <==> HasKey(b, k) || HasKey(entries, k)
    ensures NoDupKeys(b) ==> NoDupKeys(Post(b, entries, side))
    decreases |entries|
  {
    if |entries| > 0 {
      var id, amount := entries[0].0, entries[0].1;
      var b' := Assign(b, id, Get(b, id) + Signed(side, amount));
      PostCons(b, entries, side);
      PostKeys(b', entries[1..], side);
    }
  }

  lemma {:induction false} PostSum(b: Entries, entries: Entries, side: Side)
    requires NoDupKeys(b)
    ensures Sum(Post(b, entries, side)) == Sum(b) + Signed(side, Sum(entries))
    decreases |entries|
  {
    if |entries| > 0 {
      var id, amount := entries[0].0, entries[0].1;
      var v := Get(b, id) + Signed(side, amount);
      var b' := Assign(b, id, v);
      PostCons(b, entries, side);
      PostSumStep(b, id, v, side, amount);
      PostSum(b', entries[1..], side);
      SumCons(entries);
      SignedAdd(side, amount, Sum(entries[1..]));
    }
  }

  lemma PostSumStep(b: Entries, id: Id, v: int, side: Side, amount: int)
    requires NoDupKeys(b) && v == Get(b, id) + Signed(side, amount)
    ensures Sum(Assign(b, id, v)) == Sum(b) + Signed(side, amount)
    ensures NoDupKeys(Assign(b, id, v))
  {
    SumAssign(b, id, v);
  }

  lemma PostExpenseFacts(b: Entries, e: Expense)
    ensures forall k :: Get(PostExpense(b, e), k) == Get(b, k) + Net(e, k)
    ensures forall k :: HasKey(PostExpense(b, e), k)
              <==> HasKey(b, k) || HasKey(e.paidBy, k) || HasKey(e.splitBetween, k)
    ensures NoDupKeys(b) ==> NoDupKeys(PostExpense(b, e))
    ensures NoDupKeys(b) ==> Sum(PostExpense(b, e)) == Sum(b) + Imbalance(e)
  {
    var b' := Post(b, e.paidBy, Credit);
    forall k ensures Get(PostExpense(b, e), k) == Get(b, k) + Net(e, k) {
      PostGet(b, e.paidBy, Credit, k);
      PostGet(b', e.splitBetween, Debit, k);
    }
    PostKeys(b, e.paidBy, Credit);
    PostKeys(b', e.splitBetween, Debit);
    if NoDupKeys(b) {
      PostSum(b, e.paidBy, Credit);
      PostSum(b', e.splitBetween, Debit);
    }
  }

  lemma {:induction false} PostAllGet(b: Entries, expenses: seq<Expense>, k: Id)
    ensures Get(PostAll(b, expenses), k) == Get(b, k) + TotalNet(expenses, k)
    decreases |expenses|
  {
    if |expenses| > 0 {
      PostExpenseFacts(b, expenses[0]);
      PostAllGet(PostExpense(b, expenses[0]), expenses[1..], k);
    }
  }

  lemma {:induction false} PostAllKeys(b: Entries, expenses: seq<Expense>)
    ensures forall k :: HasKey(PostAll(b, expenses), k) <==> HasKey(b, k) || Involved(expenses, k)
    ensures NoDupKeys(b) ==> NoDupKeys(PostAll(b, expenses))
    decreases |expenses|
  {
    if |expenses| > 0 {
      var e := expenses[0];
      PostExpenseFacts(b, e);
      PostAllKeys(PostExpense(b, e), expenses[1..]);
      InvolvedCons(expenses);
    }
  }

  /** An id is involved in a non-empty list of expenses iff it appears in the
      first one or is involved in the rest. */
  lemma InvolvedCons(expenses: seq<Expense>)
    requires |expenses| > 0
    ensures forall k :: Involved(expenses, k)
              <==> HasKey(expenses[0].paidBy, k) || HasKey(expenses[0].splitBetween, k)
                   || Involved(expenses[1..], k)
  {
    var e := expenses[0];
    forall k ensures Involved(expenses, k)
               <==> HasKey(e.paidBy, k) || HasKey(e.splitBetween, k) || Involved(expenses[1..], k)
    {
      if Involved(expenses, k) {
        var x :| x in expenses && (HasKey(x.paidBy, k) || HasKey(x.splitBetween, k));
        if x != e {
          assert expenses == [e] + expenses[1..];
          assert x in expenses[1..];
        }
      }
      if Involved(expenses[1..], k) {
        var x :| x in expenses[1..] && (HasKey(x.paidBy, k) || HasKey(x.splitBetween, k));
        assert x in expenses;
      }
    }
  }

  lemma {:induction false} PostAllSum(b: Entries, expenses: seq<Expense>)
    requires NoDupKeys(b)
    ensures Sum(PostAll(b, expenses)) == Sum(b) + SumOf(expenses, Imbalance)
    decreases |expenses|
  {
    if |expenses| > 0 {
      PostExpenseFacts(b, expenses[0]);
      PostAllSum(PostExpense(b, expenses[0]), expenses[1..]);
    }
  }

  lemma {:induction false} ZeroAllFacts(b: Entries, roster: seq<Participant>)
    ensures forall k :: Get(ZeroAll(b, roster), k) == if k in RosterIds(roster) then 0 else Get(b, k)
    ensures forall k :: HasKey(ZeroAll(b, roster), k) <==> HasKey(b, k) || k in RosterIds(roster)
    ensures NoDupKeys(b) ==> NoDupKeys(ZeroAll(b, roster))
    decreases |roster|
  {
    if |roster| > 0 {
      ZeroAllFacts(Assign(b, roster[0].id, 0), roster[1..]);
      assert RosterIds(roster) == [roster[0].id] + RosterIds(roster[1..]);
    }
  }

  /** Every balance is the participant's net over all expenses, keys are
      unique, and the keys are the roster plus every id an expense mentions
      (ids outside the roster are accumulated too). */
  lemma BalancesAreNet(expenses: seq<Expense>, roster: seq<Participant>)
    ensures forall id :: Get(CalculateBalances(expenses, roster), id) == TotalNet(expenses, id)
    ensures NoDupKeys(CalculateBalances(expenses, roster))
    ensures forall id :: HasKey(CalculateBalances(expenses, roster), id)
              <==> id in RosterIds(roster) || Involved(expenses, id)
  {
    var z := ZeroAll([], roster);
    ZeroAllFacts([], roster);
    PostAllKeys(z, expenses);
    forall id ensures Get(CalculateBalances(expenses, roster), id) == TotalNet(expenses, id) {
      PostAllGet(z, expenses, id);
    }
  }

  /** With no expenses every roster participant has a zero balance, and
      nobody else has one. */
  lemma NoExpensesAllZero(roster: seq<Participant>)
    ensures forall id :: HasKey(CalculateBalances([], roster), id) <==> id in RosterIds(roster)
    ensures forall i :: 0 <= i < |CalculateBalances([], roster)| ==> CalculateBalances([], roster)[i].1 == 0
  {
    ZeroAllFacts([], roster);
    ZeroValues([], roster);
  }

  lemma {:induction false} ZeroValues(b: Entries, roster: seq<Participant>)
    requires forall i :: 0 <= i < |b| ==> b[i].1 == 0
    ensures forall i :: 0 <= i < |ZeroAll(b, roster)| ==> ZeroAll(b, roster)[i].1 == 0
    decreases |roster|
  {
    if |roster| > 0 {
      AssignZero(b, roster[0].id);
      ZeroValues(Assign(b, roster[0].id, 0), roster[1..]);
    }
  }

  lemma {:induction false} AssignZero(b: Entries, k: Id)
    requires forall i :: 0 <= i < |b| ==> b[i].1 == 0
    ensures forall i :: 0 <= i < |Assign(b, k, 0)| ==> Assign(b, k, 0)[i].1 == 0
    decreases |b|
  {
    if |b| > 0 && b[0].0 != k {
      AssignZero(b[1..], k);
    }
  }

  /** The balances add up to total paid minus total consumed over all
      expenses. */
  lemma BalancesSum(expenses: seq<Expense>, roster: seq<Participant>)
    ensures Sum(CalculateBalances(expenses, roster)) == SumOf(expenses, Imbalance)
  {
    var z := ZeroAll([], roster);
    ZeroAllFacts([], roster);
    ZeroValues([], roster);
    ZeroSum(z);
    PostAllSum(z, expenses);
  }

  lemma {:induction false} ZeroSum(b: Entries)
    requires forall i :: 0 <= i < |b| ==> b[i].1 == 0
    ensures Sum(b) == 0
    decreases |b|
  {
    if |b| > 0 {
      ZeroSum(b[1..]);
    }
  }

  /** Conservation: when every expense is self-balanced, so are the balances. */
  lemma {:induction false} Conservation(expenses: seq<Expense>, roster: seq<Participant>)
    requires forall i :: 0 <= i < |expenses| ==> Imbalance(expenses[i]) == 0
    ensures Sum(CalculateBalances(expenses, roster)) == 0
  {
    BalancesSum(expenses, roster);
    ZeroImbalances(expenses);
  }

  lemma {:induction false} ZeroImbalances(expenses: seq<Expense>)
    requires forall i :: 0 <= i < |expenses| ==> Imbalance(expenses[i]) == 0
    ensures SumOf(expenses, Imbalance) == 0
    decreases |expenses|
  {
    if |expenses| > 0 {
      ZeroImbalances(expenses[1..]);
    }
  }

  /** Reordering the expenses changes no participant's balance and no
      participant's presence. */
  lemma OrderIndependent(xs: seq<Expense>, ys: seq<Expense>, roster: seq<Participant>)
    requires multiset(xs) == multiset(ys)
    ensures forall id :: Get(CalculateBalances(xs, roster), id) == Get(CalculateBalances(ys, roster), id)
    ensures forall id :: HasKey(CalculateBalances(xs, roster), id) <==> HasKey(CalculateBalances(ys, roster), id)
  {
    BalancesAreNet(xs, roster);
    BalancesAreNet(ys, roster);
    forall id ensures TotalNet(xs, id) == TotalNet(ys, id) {
      SumOfPermutation(xs, ys, NetOf(id));
    }
    forall id ensures Involved(xs, id) <==> Involved(ys, id) {
      if Involved(xs, id) {
        var x :| x in xs && (HasKey(x.paidBy, id) || HasKey(x.splitBetween, id));
        assert x in multiset(ys);
      }
      if Involved(ys, id) {
        var x :| x in ys && (HasKey(x.paidBy, id) || HasKey(x.splitBetween, id));
        assert x in multiset(xs);
      }
    }
  }
}
