/** Worked examples running the allocator, the aggregator and the planner
    one after another. */
module Scenarios {
  import opened Ledger
  import opened Split
  import opened Balances
  import opened Sorting
  import opened Settlements

  function Roster(): seq<Participant>
  {
    [Participant("A", "Asha"), Participant("B", "Bo"), Participant("C", "Cy")]
  }

  /** 100.00 paid by A and split over A, B, C leaves A 66.66 in credit and
      B and C 33.33 in debt each. */
  lemma OneExpenseBalances()
    ensures CalculateBalances([Expense(10000, [("A", 10000)], EqualSplit(10000, ["A", "B", "C"]))], Roster())
              == [("A", 6666), ("B", -3333), ("C", -3333)]
  {
    var e := Expense(10000, [("A", 10000)], EqualSplit(10000, ["A", "B", "C"]));
    RosterStartsAtZero();
    EqualSplitThreeWays();
    PostFirst();
    assert PostAll([("A", 0), ("B", 0), ("C", 0)], [e])
        == PostAll(PostExpense([("A", 0), ("B", 0), ("C", 0)], e), []);
  }

  lemma RosterStartsAtZero()
    ensures ZeroAll([], Roster()) == [("A", 0), ("B", 0), ("C", 0)]
  {
    var r := Roster();
    assert Assign([], "A", 0) == [("A", 0)];
    assert Assign([("A", 0)], "B", 0) == [("A", 0), ("B", 0)];
    assert Assign([("A", 0), ("B", 0)], "C", 0) == [("A", 0), ("B", 0), ("C", 0)];
    assert r[1..][1..][1..] == [];
  }

  lemma PostFirst()
    ensures PostExpense([("A", 0), ("B", 0), ("C", 0)],
                        Expense(10000, [("A", 10000)], [("A", 3334), ("B", 3333), ("C", 3333)]))
              == [("A", 6666), ("B", -3333), ("C", -3333)]
  {
    PostFirstAt([("A", 0), ("B", 0), ("C", 0)],
                Expense(10000, [("A", 10000)], [("A", 3334), ("B", 3333), ("C", 3333)]),
                [("A", 6666), ("B", -3333), ("C", -3333)]);
  }

  lemma PostFirstAt(z: Entries, e: Expense, b: Entries)
    requires z == [("A", 0), ("B", 0), ("C", 0)]
    requires e == Expense(10000, [("A", 10000)], [("A", 3334), ("B", 3333), ("C", 3333)])
    requires b == [("A", 6666), ("B", -3333), ("C", -3333)]
    ensures PostExpense(z, e) == b
  {
    var p, q, r := ("A", 0), ("B", 0), ("C", 0);
    PostAtFirst(p, q, r, e.paidBy, Credit);
    assert e.paidBy[1..] == [];
    var p' := ("A", 10000);
    PostThree(p', q, r, e.splitBetween, Debit);
  }

  /** Posting an entry for the first key of a three-entry ledger. */
  lemma PostAtFirst(p: Entry, q: Entry, r: Entry, s: Entries, side: Side)
    requires |s| > 0 && s[0].0 == p.0
    ensures Post([p, q, r], s, side) == Post([(p.0, p.1 + Signed(side, s[0].1)), q, r], s[1..], side)
  {
    PostCons([p, q, r], s, side);
    AssignThree(p, q, r, p.0, p.1 + Signed(side, s[0].1));
  }

  /** Posting an entry for the second key of a three-entry ledger. */
  lemma PostAtSecond(p: Entry, q: Entry, r: Entry, s: Entries, side: Side)
    requires |s| > 0 && s[0].0 == q.0 && q.0 != p.0
    ensures Post([p, q, r], s, side) == Post([p, (q.0, q.1 + Signed(side, s[0].1)), r], s[1..], side)
  {
    PostCons([p, q, r], s, side);
    AssignThree(p, q, r, q.0, q.1 + Signed(side, s[0].1));
  }

  /** Posting an entry for the third key of a three-entry ledger. */
  lemma PostAtThird(p: Entry, q: Entry, r: Entry, s: Entries, side: Side)
    requires |s| > 0 && s[0].0 == r.0 && r.0 != p.0 && r.0 != q.0
    ensures Post([p, q, r], s, side) == Post([p, q, (r.0, r.1 + Signed(side, s[0].1))], s[1..], side)
  {
    PostCons([p, q, r], s, side);
    AssignThree(p, q, r, r.0, r.1 + Signed(side, s[0].1));
  }

  /** Assigning to one of the keys of a three-entry ledger. */
  lemma AssignThree(p: Entry, q: Entry, r: Entry, k: Id, v: int)
    ensures k == p.0 ==> Get([p, q, r], k) == p.1 && Assign([p, q, r], k, v) == [(k, v), q, r]
    ensures k != p.0 && k == q.0 ==> Get([p, q, r], k) == q.1 && Assign([p, q, r], k, v) == [p, (k, v), r]
    ensures k != p.0 && k != q.0 && k == r.0 ==>
              Get([p, q, r], k) == r.1 && Assign([p, q, r], k, v) == [p, q, (k, v)]
  {
    var m := [p, q, r];
    assert m[1..] == [q, r] && [q, r][1..] == [r] && [r][1..] == [];
    if k != p.0 {
      assert Get(m, k) == Get([q, r], k);
      assert Assign(m, k, v) == [p] + Assign([q, r], k, v);
      if k != q.0 {
        assert Get([q, r], k) == Get([r], k);
        assert Assign([q, r], k, v) == [q] + Assign([r], k, v);
      }
    }
  }

  /** Posting one entry per key, in ledger order, to a three-entry ledger. */
  lemma PostThree(p: Entry, q: Entry, r: Entry, s: Entries, side: Side)
    requires p.0 != q.0 && p.0 != r.0 && q.0 != r.0
    requires |s| == 3 && s[0].0 == p.0 && s[1].0 == q.0 && s[2].0 == r.0
    ensures Post([p, q, r], s, side)
              == [(p.0, p.1 + Signed(side, s[0].1)), (q.0, q.1 + Signed(side, s[1].1)),
                  (r.0, r.1 + Signed(side, s[2].1))]
  {
    var p' := (p.0, p.1 + Signed(side, s[0].1));
    var q' := (q.0, q.1 + Signed(side, s[1].1));
    var r' := (r.0, r.1 + Signed(side, s[2].1));
    PostAtFirst(p, q, r, s, side);
    var s1 := s[1..];
    PostAtSecond(p', q, r, s1, side);
    var s2 := s1[1..];
    PostAtThird(p', q', r, s2, side);
    assert s2[1..] == [];
  }

  /** A second expense of 60.00 paid by B and split the same way: A ends at
      46.66, B at 6.67 and C at -53.33. */
  lemma TwoExpensesBalances(e1: Expense, e2: Expense)
    requires e1 == Expense(10000, [("A", 10000)], EqualSplit(10000, ["A", "B", "C"]))
    requires e2 == Expense(6000, [("B", 6000)], EqualSplit(6000, ["A", "B", "C"]))
    ensures CalculateBalances([e1, e2], Roster()) == [("A", 4666), ("B", 667), ("C", -5333)]
  {
    var z := [("A", 0), ("B", 0), ("C", 0)];
    var b1 := [("A", 6666), ("B", -3333), ("C", -3333)];
    RosterStartsAtZero();
    EqualSplitThreeWays();
    PostFirst();
    SecondExpense(b1, e2);
    PostTwo(z, e1, e2);
  }

  lemma PostTwo(z: Entries, e1: Expense, e2: Expense)
    ensures PostAll(z, [e1, e2]) == PostExpense(PostExpense(z, e1), e2)
  {
    var es := [e1, e2];
    assert es[1..] == [e2] && [e2][1..] == [];
    assert PostAll(z, es) == PostAll(PostExpense(z, e1), [e2]);
    assert PostAll(PostExpense(z, e1), [e2]) == PostAll(PostExpense(PostExpense(z, e1), e2), []);
  }

  lemma SecondExpense(b1: Entries, e2: Expense)
    requires b1 == [("A", 6666), ("B", -3333), ("C", -3333)]
    requires e2 == Expense(6000, [("B", 6000)], EqualSplit(6000, ["A", "B", "C"]))
    ensures PostExpense(b1, e2) == [("A", 4666), ("B", 667), ("C", -5333)]
  {
    EvenSplit();
    var p, q, r := ("A", 6666), ("B", -3333), ("C", -3333);
    PostAtSecond(p, q, r, e2.paidBy, Credit);
    assert e2.paidBy[1..] == [];
    var q' := ("B", 2667);
    PostThree(p, q', r, e2.splitBetween, Debit);
  }

  /** 60.00 over three consumers divides evenly: no residue. */
  lemma EvenSplit()
    ensures EqualSplit(6000, ["A", "B", "C"]) == [("A", 2000), ("B", 2000), ("C", 2000)]
  {
    assert RoundDiv(6000, 3) == 2000;
  }

  /** From those balances C, the only debtor, pays A first (the larger
      credit) and then B, 53.33 in all. */
  lemma TwoExpensesPlan()
    ensures CalculateSettlements([("A", 4666), ("B", 667), ("C", -5333)])
              == [Transfer("C", "A", 4666), Transfer("C", "B", 667)]
  {
    var b := [("A", 4666), ("B", 667), ("C", -5333)];
    PlanSort();
    PlanSweep();
    assert SortedDebtors(b) == [("C", -5333)];
    assert SortedCreditors(b) == [("A", 4666), ("B", 667)];
  }

  lemma PlanSort()
    ensures SortedDebtors([("A", 4666), ("B", 667), ("C", -5333)]) == [("C", -5333)]
    ensures SortedCreditors([("A", 4666), ("B", 667), ("C", -5333)]) == [("A", 4666), ("B", 667)]
  {
    var b := [("A", 4666), ("B", 667), ("C", -5333)];
    var cs := [("A", 4666), ("B", 667)];
    assert Debtors(b) == [("C", -5333)];
    assert Creditors(b) == cs;
    assert SortBy([("C", -5333)], DebtorKey) == [("C", -5333)];
    assert cs[..1] == [("A", 4666)];
    assert SortBy(cs[..1], CreditorKey) == Insert([], ("A", 4666), CreditorKey) == [("A", 4666)];
    assert Insert([("A", 4666)], ("B", 667), CreditorKey) == cs;
  }

  lemma PlanSweep()
    ensures Sweep([("C", -5333)], [("A", 4666), ("B", 667)])
              == [Transfer("C", "A", 4666), Transfer("C", "B", 667)]
  {
    var cs := [("A", 4666), ("B", 667)];
    SweepStep([("C", -5333)], cs, 4666);
    assert Reduce([("C", -5333)], -667) == [("C", -667)];
    assert Reduce(cs, 0) == [("B", 667)];
    SweepStep([("C", -667)], [("B", 667)], 667);
    assert Reduce([("C", -667)], 0) == [];
    assert Sweep([], []) == [];
  }

  /** A group of one with no expenses: a single zero balance and nothing
      to settle. */
  lemma LoneParticipant()
    ensures CalculateBalances([], [Participant("A", "Asha")]) == [("A", 0)]
    ensures CalculateSettlements([("A", 0)]) == []
  {
    assert Assign([], "A", 0) == [("A", 0)];
    SettledNeedsNoPlan([("A", 0)]);
  }
}
