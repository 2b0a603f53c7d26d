/** The settlement planner: `calculateSettlements` in src/lib/algorithms.js. */
module Settlements {
  import opened Sums
  import opened Ledger
  import opened Sorting

  /** `from` pays `to` the given number of cents. */
  datatype Transfer = Transfer(from: Id, to: Id, amount: int)

  /** Balances below -1 cent (the source's `< -0.01`), in object order. */
  function Debtors(b: Entries): (ds: Entries)
    ensures forall e :: e in ds <==> e in b && e.1 < -1
  {
    if |b| == 0 then []
    else (if b[0].1 < -1 then [b[0]] else []) + Debtors(b[1..])
  }

  /** Balances above 1 cent (the source's `> 0.01`), in object order. */
  function Creditors(b: Entries): (cs: Entries)
    ensures forall e :: e in cs <==> e in b && e.1 > 1
  {
    if |b| == 0 then []
    else (if b[0].1 > 1 then [b[0]] else []) + Creditors(b[1..])
  }

  /** Sort key of the debtors: most negative first. */
  function DebtorKey(e: Entry): int
  {
    e.1
  }

  /** Sort key of the creditors: most positive first. */
  function CreditorKey(e: Entry): int
  {
    -e.1
  }

  predicate AllOwing(ds: Entries)
  {
    forall e :: e in ds ==> e.1 < 0
  }

  predicate AllOwed(cs: Entries)
  {
    forall e :: e in cs ==> e.1 > 0
  }

  function Min(a: int, b: int): int
  {
    if a <= b then a else b
  }

  function Max(a: int, b: int): int
  {
    if a <= b then b else a
  }

  /** The two-cursor sweep over debtors `ds` and creditors `cs`, carrying the
      amounts still open. The head debtor pays the head creditor as much as
      both can take; a party whose open amount reaches zero (the source's
      `< 0.01` in absolute value) is dropped. Each step settles at least one
      of the two heads, so the sweep ends; it stops as soon as one side is
      exhausted. */
  function Sweep(ds: Entries, cs: Entries): seq<Transfer>
    requires AllOwing(ds) && AllOwed(cs)
    decreases |ds| + |cs|
  {
    if |ds| == 0 || |cs| == 0 then []
    else
      var d, c := ds[0], cs[0];
      var amount := Min(-d.1, c.1);
      var emitted := if amount > 0 then [Transfer(d.0, c.0, amount)] else [];
      emitted + Sweep(Reduce(ds, d.1 + amount), Reduce(cs, c.1 - amount))
  }

  /** The head party's open amount becomes `v`; it leaves the list when `v`
      is zero. */
  function Reduce(s: Entries, v: int): Entries
    requires |s| > 0
  {
    if v == 0 then s[1..] else [(s[0].0, v)] + s[1..]
  }

  function SortedDebtors(b: Entries): (ds: Entries)
    ensures AllOwing(ds)
  {
    var s := SortBy(Debtors(b), DebtorKey);
    assert forall e :: e in s ==> e in multiset(Debtors(b));
    s
  }

  function SortedCreditors(b: Entries): (cs: Entries)
    ensures AllOwed(cs)
  {
    var s := SortBy(Creditors(b), CreditorKey);
    assert forall e :: e in s ==> e in multiset(Creditors(b));
    s
  }

  /** Debtors owing the same amount keep their object order: the entries
      with balance `v` appear in the sorted debtors exactly as in `b`. */
  lemma DebtorsKeepOrder(b: Entries, v: int)
    requires v < -1
    ensures WithKey(SortedDebtors(b), DebtorKey, v) == WithKey(b, DebtorKey, v)
  {
    SortByStable(Debtors(b), DebtorKey, v);
    DebtorsWithKey(b, v);
  }

  /** Creditors owed the same amount keep their object order. */
  lemma CreditorsKeepOrder(b: Entries, v: int)
    requires v > 1
    ensures WithKey(SortedCreditors(b), CreditorKey, -v) == WithKey(b, CreditorKey, -v)
  {
    SortedCreditorsWithKey(b, -v);
  }

  /** `k` is a creditor sort key, the negated amount owed. */
  lemma SortedCreditorsWithKey(b: Entries, k: int)
    requires k < -1
    ensures WithKey(SortedCreditors(b), CreditorKey, k) == WithKey(b, CreditorKey, k)
  {
    assert SortedCreditors(b) == SortBy(Creditors(b), CreditorKey);
    SortByStable(Creditors(b), CreditorKey, k);
    CreditorsWithKey(b, k);
  }

  lemma {:induction false} DebtorsWithKey(b: Entries, v: int)
    requires v < -1
    ensures WithKey(Debtors(b), DebtorKey, v) == WithKey(b, DebtorKey, v)
    decreases |b|
  {
    if |b| > 0 {
      var head := if b[0].1 < -1 then [b[0]] else [];
      assert Debtors(b) == head + Debtors(b[1..]);
      WithKeyConcat(head, Debtors(b[1..]), DebtorKey, v);
      DebtorsWithKey(b[1..], v);
    }
  }

  lemma {:induction false} CreditorsWithKey(b: Entries, k: int)
    requires k < -1
    ensures WithKey(Creditors(b), CreditorKey, k) == WithKey(b, CreditorKey, k)
    decreases |b|
  {
    if |b| > 0 {
      var head := if b[0].1 > 1 then [b[0]] else [];
      assert Creditors(b) == head + Creditors(b[1..]);
      assert WithKey(head, CreditorKey, k) == if CreditorKey(b[0]) == k then [b[0]] else [];
      WithKeyConcat(head, Creditors(b[1..]), CreditorKey, k);
      CreditorsWithKey(b[1..], k);
    }
  }

  /** The settlement plan for a balance object. */
  function CalculateSettlements(b: Entries): seq<Transfer>
  {
    Sweep(SortedDebtors(b), SortedCreditors(b))
  }

  // Totals of a plan.

  function AmountOf(t: Transfer): int
  {
    t.amount
  }

  function PaidBy(id: Id): Transfer -> int
  {
    (t: Transfer) => if t.from == id then t.amount else 0
  }

  function ReceivedBy(id: Id): Transfer -> int
  {
    (t: Transfer) => if t.to == id then t.amount else 0
  }

  /** Cents `id` pays under the plan. */
  function Paid(plan: seq<Transfer>, id: Id): int
  {
    SumOf(plan, PaidBy(id))
  }

  /** Cents `id` receives under the plan. */
  function Received(plan: seq<Transfer>, id: Id): int
  {
    SumOf(plan, ReceivedBy(id))
  }

  /** Cents moved by the whole plan. */
  function Transferred(plan: seq<Transfer>): int
  {
    SumOf(plan, AmountOf)
  }

  lemma ReduceFacts(s: Entries, v: int)
    requires |s| > 0
    ensures forall id :: SumFor(Reduce(s, v), id) == SumFor(s, id) + (if s[0].0 == id then v - s[0].1 else 0)
    ensures Sum(Reduce(s, v)) == Sum(s) + v - s[0].1
    ensures forall k :: HasKey(Reduce(s, v), k) ==> HasKey(s, k)
    ensures |Reduce(s, v)| == if v == 0 then |s| - 1 else |s|
  {
    var r := Reduce(s, v);
    if v != 0 {
      assert r[1..] == s[1..];
    }
    forall id ensures SumFor(r, id) == SumFor(s, id) + (if s[0].0 == id then v - s[0].1 else 0) {
      SumForCons(s, id);
      if v != 0 {
        SumForCons(r, id);
      }
    }
    SumCons(s);
    if v != 0 {
      SumCons(r);
    }
  }

  /** Every open debt is negative, so each debtor's total is too. */
  lemma {:induction false} OwingSums(ds: Entries, id: Id)
    requires AllOwing(ds)
    ensures SumFor(ds, id) <= 0
    decreases |ds|
  {
    if |ds| > 0 {
      assert ds[0] in ds;
      assert AllOwing(ds[1..]) by {
        forall e | e in ds[1..] ensures e.1 < 0 {
          assert e in ds;
        }
      }
      OwingSums(ds[1..], id);
      SumForCons(ds, id);
    }
  }

  /** The debtors' total is negative unless there are none. */
  lemma {:induction false} OwingTotal(ds: Entries)
    requires AllOwing(ds)
    ensures Sum(ds) <= 0
    ensures |ds| > 0 ==> Sum(ds) < 0
    decreases |ds|
  {
    if |ds| > 0 {
      assert ds[0] in ds;
      assert AllOwing(ds[1..]) by {
        forall e | e in ds[1..] ensures e.1 < 0 {
          assert e in ds;
        }
      }
      OwingTotal(ds[1..]);
      SumCons(ds);
    }
  }

  lemma {:induction false} OwedSums(cs: Entries, id: Id)
    requires AllOwed(cs)
    ensures SumFor(cs, id) >= 0
    decreases |cs|
  {
    if |cs| > 0 {
      assert cs[0] in cs;
      assert AllOwed(cs[1..]) by {
        forall e | e in cs[1..] ensures e.1 > 0 {
          assert e in cs;
        }
      }
      OwedSums(cs[1..], id);
      SumForCons(cs, id);
    }
  }

  lemma {:induction false} OwedTotal(cs: Entries)
    requires AllOwed(cs)
    ensures Sum(cs) >= 0
    ensures |cs| > 0 ==> Sum(cs) > 0
    decreases |cs|
  {
    if |cs| > 0 {
      assert cs[0] in cs;
      assert AllOwed(cs[1..]) by {
        forall e | e in cs[1..] ensures e.1 > 0 {
          assert e in cs;
        }
      }
      OwedTotal(cs[1..]);
      SumCons(cs);
    }
  }

  /** One step of the sweep, unfolded. */
  lemma SweepStep(ds: Entries, cs: Entries, amount: int)
    requires AllOwing(ds) && AllOwed(cs) && |ds| > 0 && |cs| > 0
    requires amount == Min(-ds[0].1, cs[0].1)
    ensures amount > 0
    ensures AllOwing(Reduce(ds, ds[0].1 + amount))
    ensures AllOwed(Reduce(cs, cs[0].1 - amount))
    ensures Sweep(ds, cs)
              == [Transfer(ds[0].0, cs[0].0, amount)]
                 + Sweep(Reduce(ds, ds[0].1 + amount), Reduce(cs, cs[0].1 - amount))
  {
    StepSigns(ds, cs, amount);
    StepUnfold(ds, cs, amount);
  }

  lemma StepSigns(ds: Entries, cs: Entries, amount: int)
    requires AllOwing(ds) && AllOwed(cs) && |ds| > 0 && |cs| > 0
    requires amount == Min(-ds[0].1, cs[0].1)
    ensures amount > 0
    ensures AllOwing(Reduce(ds, ds[0].1 + amount))
    ensures AllOwed(Reduce(cs, cs[0].1 - amount))
  {
    assert ds[0] in ds && cs[0] in cs;
    ReduceSigns(ds, ds[0].1 + amount, -1);
    ReduceSigns(cs, cs[0].1 - amount, 1);
  }

  /** Reducing the head party's amount to `v`, which has the sign of the
      rest or is zero, keeps every open amount of that sign. */
  lemma ReduceSigns(s: Entries, v: int, sign: int)
    requires |s| > 0 && (sign == 1 || sign == -1)
    requires forall e :: e in s ==> e.1 * sign > 0
    requires v * sign >= 0
    ensures forall e :: e in Reduce(s, v) ==> e.1 * sign > 0
  {
    assert forall e :: e in s[1..] ==> e in s;
  }

  lemma StepUnfold(ds: Entries, cs: Entries, amount: int)
    requires AllOwing(ds) && AllOwed(cs) && |ds| > 0 && |cs| > 0
    requires amount == Min(-ds[0].1, cs[0].1)
    requires amount > 0
    requires AllOwing(Reduce(ds, ds[0].1 + amount)) && AllOwed(Reduce(cs, cs[0].1 - amount))
    ensures Sweep(ds, cs)
              == [Transfer(ds[0].0, cs[0].0, amount)]
                 + Sweep(Reduce(ds, ds[0].1 + amount), Reduce(cs, cs[0].1 - amount))
  {
    var emitted := if amount > 0 then [Transfer(ds[0].0, cs[0].0, amount)] else [];
    assert emitted == [Transfer(ds[0].0, cs[0].0, amount)];
  }

  lemma PlanCons(t: Transfer, rest: seq<Transfer>, id: Id)
    ensures Paid([t] + rest, id) == (if t.from == id then t.amount else 0) + Paid(rest, id)
    ensures Received([t] + rest, id) == (if t.to == id then t.amount else 0) + Received(rest, id)
  {
    assert ([t] + rest)[0] == t;
    assert ([t] + rest)[1..] == rest;
  }

  lemma PlanConsTotal(t: Transfer, rest: seq<Transfer>)
    ensures Transferred([t] + rest) == t.amount + Transferred(rest)
  {
    assert ([t] + rest)[0] == t;
    assert ([t] + rest)[1..] == rest;
  }

  /** Every transfer moves a positive amount from a debtor to a creditor. */
  lemma {:induction false} SweepParties(ds: Entries, cs: Entries)
    requires AllOwing(ds) && AllOwed(cs)
    ensures forall t :: t in Sweep(ds, cs) ==> t.amount > 0 && HasKey(ds, t.from) && HasKey(cs, t.to)
    decreases |ds| + |cs|
  {
    if |ds| > 0 && |cs| > 0 {
      var amount := Min(-ds[0].1, cs[0].1);
      var ds', cs' := Reduce(ds, ds[0].1 + amount), Reduce(cs, cs[0].1 - amount);
      SweepStep(ds, cs, amount);
      ReduceFacts(ds, ds[0].1 + amount);
      ReduceFacts(cs, cs[0].1 - amount);
      SweepParties(ds', cs');
    }
  }

  /** The plan has at most one transfer fewer than there are parties. */
  lemma {:induction false} SweepLength(ds: Entries, cs: Entries)
    requires AllOwing(ds) && AllOwed(cs)
    ensures |Sweep(ds, cs)| <= Max(0, |ds| + |cs| - 1)
    ensures |ds| == 0 || |cs| == 0 ==> Sweep(ds, cs) == []
    decreases |ds| + |cs|
  {
    if |ds| > 0 && |cs| > 0 {
      var amount := Min(-ds[0].1, cs[0].1);
      var ds', cs' := Reduce(ds, ds[0].1 + amount), Reduce(cs, cs[0].1 - amount);
      SweepStep(ds, cs, amount);
      ReduceFacts(ds, ds[0].1 + amount);
      ReduceFacts(cs, cs[0].1 - amount);
      SweepLength(ds', cs');
    }
  }

  /** No debtor pays more than it owes. */
  lemma {:induction false} SweepPaidBound(ds: Entries, cs: Entries, id: Id)
    requires AllOwing(ds) && AllOwed(cs)
    ensures 0 <= Paid(Sweep(ds, cs), id) <= -SumFor(ds, id)
    decreases |ds| + |cs|
  {
    OwingSums(ds, id);
    if |ds| > 0 && |cs| > 0 {
      var amount := Min(-ds[0].1, cs[0].1);
      var ds', cs' := Reduce(ds, ds[0].1 + amount), Reduce(cs, cs[0].1 - amount);
      SweepStep(ds, cs, amount);
      ReduceFacts(ds, ds[0].1 + amount);
      ReduceFacts(cs, cs[0].1 - amount);
      SweepPaidBound(ds', cs', id);
      PlanCons(Transfer(ds[0].0, cs[0].0, amount), Sweep(ds', cs'), id);
    }
  }

  /** No creditor receives more than it is owed. */
  lemma {:induction false} SweepReceivedBound(ds: Entries, cs: Entries, id: Id)
    requires AllOwing(ds) && AllOwed(cs)
    ensures 0 <= Received(Sweep(ds, cs), id) <= SumFor(cs, id)
    decreases |ds| + |cs|
  {
    OwedSums(cs, id);
    if |ds| > 0 && |cs| > 0 {
      var amount := Min(-ds[0].1, cs[0].1);
      var ds', cs' := Reduce(ds, ds[0].1 + amount), Reduce(cs, cs[0].1 - amount);
      SweepStep(ds, cs, amount);
      ReduceFacts(ds, ds[0].1 + amount);
      ReduceFacts(cs, cs[0].1 - amount);
      SweepReceivedBound(ds', cs', id);
      PlanCons(Transfer(ds[0].0, cs[0].0, amount), Sweep(ds', cs'), id);
    }
  }

  /** The plan moves the smaller of total debt and total credit. */
  lemma {:induction false} SweepTransferred(ds: Entries, cs: Entries)
    requires AllOwing(ds) && AllOwed(cs)
    ensures Transferred(Sweep(ds, cs)) == Min(-Sum(ds), Sum(cs))
    decreases |ds| + |cs|
  {
    OwingTotal(ds);
    OwedTotal(cs);
    if |ds| > 0 && |cs| > 0 {
      var amount := Min(-ds[0].1, cs[0].1);
      var ds', cs' := Reduce(ds, ds[0].1 + amount), Reduce(cs, cs[0].1 - amount);
      SweepStep(ds, cs, amount);
      ReduceFacts(ds, ds[0].1 + amount);
      ReduceFacts(cs, cs[0].1 - amount);
      SweepTransferred(ds', cs');
      PlanConsTotal(Transfer(ds[0].0, cs[0].0, amount), Sweep(ds', cs'));
    }
  }

  /** When total credit covers total debt, every debtor pays exactly what it
      owes. */
  lemma {:induction false} SweepSettlesDebtors(ds: Entries, cs: Entries, id: Id)
    requires AllOwing(ds) && AllOwed(cs)
    requires -Sum(ds) <= Sum(cs)
    ensures Paid(Sweep(ds, cs), id) == -SumFor(ds, id)
    decreases |ds| + |cs|
  {
    OwingSums(ds, id);
    OwingTotal(ds);
    if |ds| > 0 && |cs| > 0 {
      var amount := Min(-ds[0].1, cs[0].1);
      var ds', cs' := Reduce(ds, ds[0].1 + amount), Reduce(cs, cs[0].1 - amount);
      SweepStep(ds, cs, amount);
      ReduceFacts(ds, ds[0].1 + amount);
      ReduceFacts(cs, cs[0].1 - amount);
      SweepSettlesDebtors(ds', cs', id);
      PlanCons(Transfer(ds[0].0, cs[0].0, amount), Sweep(ds', cs'), id);
    } else if |ds| > 0 {
      assert false;
    }
  }

  /** When total debt covers total credit, every creditor receives exactly
      what it is owed. */
  lemma {:induction false} SweepSettlesCreditors(ds: Entries, cs: Entries, id: Id)
    requires AllOwing(ds) && AllOwed(cs)
    requires Sum(cs) <= -Sum(ds)
    ensures Received(Sweep(ds, cs), id) == SumFor(cs, id)
    decreases |ds| + |cs|
  {
    OwedSums(cs, id);
    OwedTotal(cs);
    OwingTotal(ds);
    if |ds| > 0 && |cs| > 0 {
      var amount := Min(-ds[0].1, cs[0].1);
      var ds', cs' := Reduce(ds, ds[0].1 + amount), Reduce(cs, cs[0].1 - amount);
      SweepStep(ds, cs, amount);
      ReduceFacts(ds, ds[0].1 + amount);
      ReduceFacts(cs, cs[0].1 - amount);
      SweepSettlesCreditors(ds', cs', id);
      PlanCons(Transfer(ds[0].0, cs[0].0, amount), Sweep(ds', cs'), id);
    } else if |cs| > 0 {
      assert false;
    }
  }

  // The plan for a balance object.

  /** Total owed by the debtors. */
  function DebtTotal(b: Entries): int
  {
    -Sum(Debtors(b))
  }

  /** Total owed to the creditors. */
  function CreditTotal(b: Entries): int
  {
    Sum(Creditors(b))
  }

  /** What `id` owes as a debtor: its debt, or 0 within tolerance or in credit. */
  function Debt(b: Entries, id: Id): int
  {
    if Get(b, id) < -1 then -Get(b, id) else 0
  }

  /** What `id` is owed as a creditor. */
  function Credit(b: Entries, id: Id): int
  {
    if Get(b, id) > 1 then Get(b, id) else 0
  }

  lemma {:induction false} DebtorsSumFor(b: Entries, id: Id)
    requires NoDupKeys(b)
    ensures SumFor(Debtors(b), id) == -Debt(b, id)
    ensures SumFor(Creditors(b), id) == Credit(b, id)
    decreases |b|
  {
    if |b| > 0 {
      var head := if b[0].1 < -1 then [b[0]] else [];
      var chead := if b[0].1 > 1 then [b[0]] else [];
      DebtorsSumFor(b[1..], id);
      assert Debtors(b) == head + Debtors(b[1..]);
      assert Creditors(b) == chead + Creditors(b[1..]);
      SumOfConcat(head, Debtors(b[1..]), AmountFor(id));
      SumOfConcat(chead, Creditors(b[1..]), AmountFor(id));
    }
  }

  lemma SortedSums(b: Entries, id: Id)
    ensures SumFor(SortedDebtors(b), id) == SumFor(Debtors(b), id)
    ensures SumFor(SortedCreditors(b), id) == SumFor(Creditors(b), id)
  {
    SumOfPermutation(SortedDebtors(b), Debtors(b), AmountFor(id));
    SumOfPermutation(SortedCreditors(b), Creditors(b), AmountFor(id));
  }

  lemma SortedTotals(b: Entries)
    ensures Sum(SortedDebtors(b)) == Sum(Debtors(b))
    ensures Sum(SortedCreditors(b)) == Sum(Creditors(b))
  {
    SumOfPermutation(SortedDebtors(b), Debtors(b), Amount);
    SumOfPermutation(SortedCreditors(b), Creditors(b), Amount);
  }

  /** Every settlement moves a positive amount from a participant whose
      balance was below -1 cent to one whose balance was above 1 cent; a
      participant within one cent of zero takes part in none. */
  lemma SettlementParties(b: Entries)
    requires NoDupKeys(b)
    ensures forall t :: t in CalculateSettlements(b) ==>
              t.amount > 0 && Get(b, t.from) < -1 && Get(b, t.to) > 1
  {
    var ds, cs := SortedDebtors(b), SortedCreditors(b);
    SweepParties(ds, cs);
    forall t | t in CalculateSettlements(b)
      ensures Get(b, t.from) < -1 && Get(b, t.to) > 1
    {
      HasKeyIndex(ds, t.from);
      var i :| 0 <= i < |ds| && ds[i].0 == t.from;
      assert ds[i] in multiset(Debtors(b));
      GetEntry(b, ds[i]);
      HasKeyIndex(cs, t.to);
      var j :| 0 <= j < |cs| && cs[j].0 == t.to;
      assert cs[j] in multiset(Creditors(b));
      GetEntry(b, cs[j]);
    }
  }

  /** Every transfer closes at least one debtor or creditor, so a non-empty
      plan has fewer transfers than there are debtors and creditors. */
  lemma SettlementLength(b: Entries)
    ensures CalculateSettlements(b) == [] || |CalculateSettlements(b)| < |Debtors(b)| + |Creditors(b)|
  {
    var ds, cs := SortedDebtors(b), SortedCreditors(b);
    SortedLength(Debtors(b), DebtorKey);
    SortedLength(Creditors(b), CreditorKey);
    SweepLength(ds, cs);
    assert CalculateSettlements(b) == Sweep(ds, cs);
    assert |ds| == |Debtors(b)| && |cs| == |Creditors(b)|;
    assert |ds| + |cs| - 1 == |Debtors(b)| + |Creditors(b)| - 1;
  }

  /** Balances all within one cent of zero need no settlement. */
  lemma {:induction false} SettledNeedsNoPlan(b: Entries)
    requires forall e :: e in b ==> -1 <= e.1 <= 1
    ensures CalculateSettlements(b) == []
  {
    NoDebtorsAboveBand(b);
    SweepLength(SortedDebtors(b), SortedCreditors(b));
  }

  lemma {:induction false} NoDebtorsAboveBand(b: Entries)
    requires forall e :: e in b ==> -1 <= e.1
    ensures Debtors(b) == []
    decreases |b|
  {
    if |b| > 0 {
      assert b[0] in b;
      assert forall e :: e in b[1..] ==> e in b;
      NoDebtorsAboveBand(b[1..]);
    }
  }

  /** Nobody pays more than its debt or receives more than its credit, and
      the plan moves the smaller of total debt and total credit. */
  lemma SettlementBounds(b: Entries, id: Id)
    requires NoDupKeys(b)
    ensures 0 <= Paid(CalculateSettlements(b), id) <= Debt(b, id)
    ensures 0 <= Received(CalculateSettlements(b), id) <= Credit(b, id)
    ensures Transferred(CalculateSettlements(b)) == Min(DebtTotal(b), CreditTotal(b))
  {
    PaidWithinDebt(b, id);
    ReceivedWithinCredit(b, id);
    TransferredTotal(b);
  }

  lemma PaidWithinDebt(b: Entries, id: Id)
    requires NoDupKeys(b)
    ensures 0 <= Paid(CalculateSettlements(b), id) <= Debt(b, id)
  {
    var ds, cs := SortedDebtors(b), SortedCreditors(b);
    SortedSums(b, id);
    DebtorsSumFor(b, id);
    SweepPaidBound(ds, cs, id);
  }

  lemma ReceivedWithinCredit(b: Entries, id: Id)
    requires NoDupKeys(b)
    ensures 0 <= Received(CalculateSettlements(b), id) <= Credit(b, id)
  {
    var ds, cs := SortedDebtors(b), SortedCreditors(b);
    SortedSums(b, id);
    DebtorsSumFor(b, id);
    SweepReceivedBound(ds, cs, id);
  }

  lemma TransferredTotal(b: Entries)
    ensures Transferred(CalculateSettlements(b)) == Min(DebtTotal(b), CreditTotal(b))
  {
    var ds, cs := SortedDebtors(b), SortedCreditors(b);
    SortedTotals(b);
    SweepTransferred(ds, cs);
  }

  /** Paying one transfer: `from` moves up by the amount, `to` down. */
  function ApplyTransfer(b: Entries, t: Transfer): (r: Entries)
    ensures forall id :: Get(r, id) == Get(b, id) + (if t.from == id then t.amount else 0)
                                                  - (if t.to == id then t.amount else 0)
  {
    var paid := Assign(b, t.from, Get(b, t.from) + t.amount);
    Assign(paid, t.to, Get(paid, t.to) - t.amount)
  }

  /** Paying out a whole plan, in order. */
  function ApplyTransfers(b: Entries, plan: seq<Transfer>): Entries
    decreases |plan|
  {
    if |plan| == 0 then b else ApplyTransfers(ApplyTransfer(b, plan[0]), plan[1..])
  }

  /** After paying out a plan, each balance has gone up by what its owner
      paid and down by what it received. */
  lemma {:induction false} ApplyTransfersGet(b: Entries, plan: seq<Transfer>, id: Id)
    ensures Get(ApplyTransfers(b, plan), id) == Get(b, id) + Paid(plan, id) - Received(plan, id)
    decreases |plan|
  {
    if |plan| > 0 {
      var t := plan[0];
      ApplyTransfersGet(ApplyTransfer(b, t), plan[1..], id);
      assert plan == [t] + plan[1..];
      PlanCons(t, plan[1..], id);
    }
  }

  /** When total debt equals total credit, paying out the plan brings every
      debtor and every creditor to exactly zero and leaves the balances
      within one cent of zero as they were. */
  lemma PlanSettlesBalances(b: Entries)
    requires NoDupKeys(b)
    requires DebtTotal(b) == CreditTotal(b)
    ensures forall id :: Get(ApplyTransfers(b, CalculateSettlements(b)), id)
              == if -1 <= Get(b, id) <= 1 then Get(b, id) else 0
  {
    var ds, cs := SortedDebtors(b), SortedCreditors(b);
    var plan := CalculateSettlements(b);
    SortedTotals(b);
    forall id ensures Get(ApplyTransfers(b, plan), id) == if -1 <= Get(b, id) <= 1 then Get(b, id) else 0 {
      SortedSums(b, id);
      DebtorsSumFor(b, id);
      SweepSettlesDebtors(ds, cs, id);
      SweepSettlesCreditors(ds, cs, id);
      ApplyTransfersGet(b, plan, id);
    }
  }

  lemma {:induction false} SumByBand(b: Entries)
    requires forall e :: e in b ==> e.1 != 1 && e.1 != -1
    ensures Sum(b) == CreditTotal(b) - DebtTotal(b)
    decreases |b|
  {
    if |b| > 0 {
      var head := if b[0].1 < -1 then [b[0]] else [];
      var chead := if b[0].1 > 1 then [b[0]] else [];
      assert b[0] in b;
      assert forall e :: e in b[1..] ==> e in b;
      SumByBand(b[1..]);
      assert Debtors(b) == head + Debtors(b[1..]);
      assert Creditors(b) == chead + Creditors(b[1..]);
      SumOfConcat(head, Debtors(b[1..]), Amount);
      SumOfConcat(chead, Creditors(b[1..]), Amount);
    }
  }

  /** Balances that add up to zero, none of them exactly one cent either
      way, are all brought to exactly zero by paying out the plan. */
  lemma ConservedBalancesSettle(b: Entries)
    requires NoDupKeys(b)
    requires Sum(b) == 0
    requires forall e :: e in b ==> e.1 != 1 && e.1 != -1
    ensures forall id :: Get(ApplyTransfers(b, CalculateSettlements(b)), id) == 0
  {
    SumByBand(b);
    PlanSettlesBalances(b);
    forall id ensures Get(b, id) != 1 && Get(b, id) != -1 {
      if HasKey(b, id) {
        HasKeyIndex(b, id);
        var i :| 0 <= i < |b| && b[i].0 == id;
        GetEntry(b, b[i]);
      }
    }
  }

  /** Balances of exactly one cent are never settled: +0.02, -0.01, -0.01
      adds up to zero, yet the plan is empty and the first participant stays
      two cents in credit. */
  lemma OneCentDebtsStayOpen()
    ensures Sum([("A", 2), ("B", -1), ("C", -1)]) == 0
    ensures CalculateSettlements([("A", 2), ("B", -1), ("C", -1)]) == []
  {
    var b := [("A", 2), ("B", -1), ("C", -1)];
    assert Debtors(b) == [];
    SumCons(b);
    SumCons(b[1..]);
    SumCons(b[2..]);
  }

  /** Balances +66.66, -33.33, -33.33: both debtors pay the creditor, the
      one listed first paying first. */
  lemma TwoDebtorsOneCreditor()
    ensures CalculateSettlements([("A", 6666), ("B", -3333), ("C", -3333)])
              == [Transfer("B", "A", 3333), Transfer("C", "A", 3333)]
  {
    var b := [("A", 6666), ("B", -3333), ("C", -3333)];
    SortExample();
    SweepExample();
    assert SortedDebtors(b) == [("B", -3333), ("C", -3333)];
    assert SortedCreditors(b) == [("A", 6666)];
  }

  lemma SortExample()
    ensures SortedDebtors([("A", 6666), ("B", -3333), ("C", -3333)]) == [("B", -3333), ("C", -3333)]
    ensures SortedCreditors([("A", 6666), ("B", -3333), ("C", -3333)]) == [("A", 6666)]
  {
    var b := [("A", 6666), ("B", -3333), ("C", -3333)];
    SortDebtorsExample(b, [("B", -3333), ("C", -3333)]);
    SortCreditorsExample(b, [("A", 6666)]);
  }

  lemma SortDebtorsExample(b: Entries, ds: Entries)
    requires b == [("A", 6666), ("B", -3333), ("C", -3333)]
    requires ds == [("B", -3333), ("C", -3333)]
    ensures SortedDebtors(b) == ds
  {
    var b1, b2 := b[1..], b[1..][1..];
    assert b1 == [b[1], b[2]] && b2 == [b[2]] && b2[1..] == [];
    assert Debtors(b2) == [ds[1]];
    assert Debtors(b1) == [ds[0]] + Debtors(b2);
    assert Debtors(b) == Debtors(b1);
    SortByPair(ds[0], ds[1], DebtorKey);
  }

  lemma SortCreditorsExample(b: Entries, cs: Entries)
    requires b == [("A", 6666), ("B", -3333), ("C", -3333)]
    requires cs == [("A", 6666)]
    ensures SortedCreditors(b) == cs
  {
    var b1, b2 := b[1..], b[1..][1..];
    assert b1 == [b[1], b[2]] && b2 == [b[2]] && b2[1..] == [];
    assert Creditors(b2) == [];
    assert Creditors(b1) == [];
    assert Creditors(b) == [cs[0]] + Creditors(b1);
    SortBySingle(cs[0], CreditorKey);
  }

  lemma SweepExample()
    ensures Sweep([("B", -3333), ("C", -3333)], [("A", 6666)])
              == [Transfer("B", "A", 3333), Transfer("C", "A", 3333)]
  {
    var ds, cs := [("B", -3333), ("C", -3333)], [("A", 6666)];
    SweepStep(ds, cs, 3333);
    assert Reduce(ds, 0) == [("C", -3333)];
    assert Reduce(cs, 3333) == [("A", 3333)];
    SweepStep([("C", -3333)], [("A", 3333)], 3333);
    assert Reduce([("C", -3333)], 0) == [];
    assert Sweep([], []) == [];
  }

  /** One pass of the loop body keeps the unsettled suffixes signed. */
  lemma CursorStepSigns(ds: Entries, cs: Entries, i: int, j: int, amount: int,
                   ds2: Entries, cs2: Entries, i2: int, j2: int)
    requires 0 <= i < |ds| && 0 <= j < |cs|
    requires AllOwing(ds[i..]) && AllOwed(cs[j..])
    requires amount == Min(-ds[i].1, cs[j].1)
    requires ds2 == ds[i := (ds[i].0, ds[i].1 + amount)]
    requires cs2 == cs[j := (cs[j].0, cs[j].1 - amount)]
    requires i2 == if ds2[i].1 == 0 then i + 1 else i
    requires j2 == if cs2[j].1 == 0 then j + 1 else j
    ensures amount > 0
    ensures AllOwing(ds2[i2..]) && AllOwed(cs2[j2..])
  {
    CursorSlices(ds, i, amount, ds2, i2, 1);
    CursorSlices(cs, j, amount, cs2, j2, -1);
    SweepStep(ds[i..], cs[j..], amount);
  }

  /** The loop invariant of `PlanSettlements`: the transfers emitted so far,
      followed by the sweep of the unsettled suffixes, make up the plan. */
  predicate Cursor(emitted: seq<Transfer>, ds: Entries, cs: Entries, i: int, j: int, target: seq<Transfer>)
  {
    0 <= i <= |ds| && 0 <= j <= |cs| && AllOwing(ds[i..]) && AllOwed(cs[j..])
    && emitted + Sweep(ds[i..], cs[j..]) == target
  }

  /** One pass of the loop body on cursor positions `i` and `j` emits the
      same transfer as one step of the sweep on the unsettled suffixes. */
  lemma CursorStep(ds: Entries, cs: Entries, i: int, j: int, amount: int,
                   ds2: Entries, cs2: Entries, i2: int, j2: int)
    requires 0 <= i < |ds| && 0 <= j < |cs|
    requires AllOwing(ds[i..]) && AllOwed(cs[j..])
    requires amount == Min(-ds[i].1, cs[j].1)
    requires ds2 == ds[i := (ds[i].0, ds[i].1 + amount)]
    requires cs2 == cs[j := (cs[j].0, cs[j].1 - amount)]
    requires i2 == if ds2[i].1 == 0 then i + 1 else i
    requires j2 == if cs2[j].1 == 0 then j + 1 else j
    requires AllOwing(ds2[i2..]) && AllOwed(cs2[j2..])
    ensures Sweep(ds[i..], cs[j..]) == [Transfer(ds[i].0, cs[j].0, amount)] + Sweep(ds2[i2..], cs2[j2..])
  {
    var d, c := ds[i..], cs[j..];
    CursorSlices(ds, i, amount, ds2, i2, 1);
    CursorSlices(cs, j, amount, cs2, j2, -1);
    SweepStepTo(d, c, amount, ds2[i2..], cs2[j2..]);
  }

  /** `SweepStep` with the reduced lists named. */
  lemma SweepStepTo(ds: Entries, cs: Entries, amount: int, ds2: Entries, cs2: Entries)
    requires AllOwing(ds) && AllOwed(cs) && |ds| > 0 && |cs| > 0
    requires amount == Min(-ds[0].1, cs[0].1)
    requires ds2 == Reduce(ds, ds[0].1 + amount) && cs2 == Reduce(cs, cs[0].1 - amount)
    ensures AllOwing(ds2) && AllOwed(cs2)
    ensures Sweep(ds, cs) == [Transfer(ds[0].0, cs[0].0, amount)] + Sweep(ds2, cs2)
  {
    SweepStep(ds, cs, amount);
  }

  lemma CursorSlices(s: Entries, i: int, amount: int, s2: Entries, i2: int, sign: int)
    requires 0 <= i < |s|
    requires s2 == s[i := (s[i].0, s[i].1 + sign * amount)]
    requires i2 == if s2[i].1 == 0 then i + 1 else i
    ensures s[i..][0] == s[i]
    ensures s2[i2..] == Reduce(s[i..], s[i].1 + sign * amount)
  {
    SliceUpdate(s, i, s[i].1 + sign * amount);
  }

  /** Updating the open amount at the cursor, then advancing the cursor past
      a zero, is `Reduce` on the suffix. */
  lemma SliceUpdate(s: Entries, i: int, v: int)
    requires 0 <= i < |s|
    ensures var i2 := if v == 0 then i + 1 else i;
            s[i := (s[i].0, v)][i2..] == Reduce(s[i..], v)
  {
    if v != 0 {
      assert s[i := (s[i].0, v)][i..] == [(s[i].0, v)] + s[i..][1..];
    } else {
      assert s[i := (s[i].0, v)][i + 1..] == s[i..][1..];
    }
  }

  /** The loop of the source: cursors over the sorted debtors and creditors,
      whose open amounts are updated in place. A party counts as settled when
      its open amount is zero (the source's `< 0.01` in absolute value). */
  method PlanSettlements(balances: Entries) returns (settlements: seq<Transfer>)
    ensures settlements == CalculateSettlements(balances)
  {
    var debtors := SortedDebtors(balances);
    var creditors := SortedCreditors(balances);
    ghost var plan := Sweep(debtors, creditors);
    settlements := [];
    var i, j := 0, 0;
    CursorStart(debtors, creditors);
    while i < |debtors| && j < |creditors|
      invariant Cursor(settlements, debtors, creditors, i, j, plan)
      decreases |debtors| - i + |creditors| - j
    {
      ghost var before, ds, cs, i0, j0 := settlements, debtors, creditors, i, j;
      var debtor, creditor := debtors[i], creditors[j];
      var amount;
      amount, debtors, creditors, i, j := SettleHeads(debtors, creditors, i, j);
      if amount > 0 {
        settlements := settlements + [Transfer(debtor.0, creditor.0, amount)];
      }
      CursorAdvance(before, plan, ds, cs, i0, j0, Transfer(debtor.0, creditor.0, amount), debtors, creditors, i, j);
    }
    CursorDone(settlements, debtors, creditors, i, j, plan);
  }

  /** One pass of the loop body: the head debtor pays the head creditor as
      much as both can take, both open amounts move by that much, and a
      cursor whose party is settled advances. The amount is always positive,
      and the step emits exactly the next transfer of the sweep over the
      unsettled suffixes. */
  method SettleHeads(debtors: Entries, creditors: Entries, i: int, j: int)
    returns (amount: int, ds: Entries, cs: Entries, i2: int, j2: int)
    requires 0 <= i < |debtors| && 0 <= j < |creditors|
    requires AllOwing(debtors[i..]) && AllOwed(creditors[j..])
    ensures amount > 0
    ensures 0 <= i2 <= |ds| && 0 <= j2 <= |cs|
    ensures |ds| - i2 + |cs| - j2 < |debtors| - i + |creditors| - j
    ensures AllOwing(ds[i2..]) && AllOwed(cs[j2..])
    ensures Sweep(debtors[i..], creditors[j..])
              == [Transfer(debtors[i].0, creditors[j].0, amount)] + Sweep(ds[i2..], cs[j2..])
  {
    var debtor, creditor := debtors[i], creditors[j];
    amount := Min(-debtor.1, creditor.1);
    ds := debtors[i := (debtor.0, debtor.1 + amount)];
    cs := creditors[j := (creditor.0, creditor.1 - amount)];
    i2 := if ds[i].1 == 0 then i + 1 else i;
    j2 := if cs[j].1 == 0 then j + 1 else j;
    CursorStepSigns(debtors, creditors, i, j, amount, ds, cs, i2, j2);
    CursorStep(debtors, creditors, i, j, amount, ds, cs, i2, j2);
  }

  /** Appending the emitted transfer keeps the loop invariant. */
  lemma CursorAdvance(before: seq<Transfer>, target: seq<Transfer>, ds: Entries, cs: Entries, i: int, j: int,
                      t: Transfer, ds2: Entries, cs2: Entries, i2: int, j2: int)
    requires Cursor(before, ds, cs, i, j, target)
    requires 0 <= i2 <= |ds2| && 0 <= j2 <= |cs2| && AllOwing(ds2[i2..]) && AllOwed(cs2[j2..])
    requires Sweep(ds[i..], cs[j..]) == [t] + Sweep(ds2[i2..], cs2[j2..])
    ensures Cursor(before + [t], ds2, cs2, i2, j2, target)
  {
    ConcatAssoc(before, [t], Sweep(ds2[i2..], cs2[j2..]));
  }

  lemma CursorStart(ds: Entries, cs: Entries)
    requires AllOwing(ds) && AllOwed(cs)
    ensures Cursor([], ds, cs, 0, 0, Sweep(ds, cs))
  {
    assert ds[0..] == ds && cs[0..] == cs;
  }

  /** Once either cursor has run off its list, the plan is complete. */
  lemma CursorDone(emitted: seq<Transfer>, ds: Entries, cs: Entries, i: int, j: int, target: seq<Transfer>)
    requires Cursor(emitted, ds, cs, i, j, target) && (i == |ds| || j == |cs|)
    ensures emitted == target
  {
    SweepLength(ds[i..], cs[j..]);
  }
}
