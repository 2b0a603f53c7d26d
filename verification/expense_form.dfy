/** The pure logic of the add-expense form in
    src/components/expenses/AddExpense.jsx: choosing the consumers and
    building the expense record on submit. */
module ExpenseForm {
  import opened Sums
  import opened Ledger
  import opened Outcomes
  import opened Split
  import opened Balances

  /** `ids.filter(p => p !== id)` */
  function Without(ids: seq<Id>, id: Id): (r: seq<Id>)
    ensures forall x :: x in r <==> x in ids && x != id
    ensures |r| <= |ids|
    ensures id !in ids ==> r == ids
    ensures Distinct(ids) ==> Distinct(r)
  {
    if |ids| == 0 then []
    else
      var rest := Without(ids[1..], id);
      if ids[0] == id then rest
      else
        assert Distinct(ids) ==> ids[0] !in ids[1..];
        DistinctCons(ids[0], rest);
        [ids[0]] + rest
  }

  lemma DistinctCons(x: Id, s: seq<Id>)
    ensures Distinct([x] + s) <==> x !in s && Distinct(s)
  {
    var t := [x] + s;
    if x !in s && Distinct(s) {
      forall i, j | 0 <= i < j < |t|
        ensures t[i] != t[j]
      {
        if i == 0 {
          assert t[j] == s[j - 1];
        } else {
          assert t[i] == s[i - 1] && t[j] == s[j - 1];
        }
      }
    }
    if Distinct(t) {
      forall k | 0 <= k < |s|
        ensures s[k] != x
      {
        assert s[k] == t[k + 1] && x == t[0];
      }
      forall i, j | 0 <= i < j < |s|
        ensures s[i] != s[j]
      {
        assert s[i] == t[i + 1] && s[j] == t[j + 1];
      }
    }
  }

  /** Clicking a participant in the consumer list: a selected participant is
      removed unless it is the only one left, an unselected one is appended
      at the end. The list never has duplicates, and then it never empties. */
  function ToggleConsumer(prev: seq<Id>, id: Id): (r: seq<Id>)
    ensures id in prev && |prev| == 1 ==> r == prev
    ensures id in prev && |prev| > 1 ==> id !in r && forall x :: x != id ==> (x in r <==> x in prev)
    ensures id !in prev ==> r == prev + [id]
    ensures Distinct(prev) ==> Distinct(r)
    ensures Distinct(prev) ==> |r| > 0
  {
    if id in prev then
      if |prev| == 1 then prev
      else
        var r := Without(prev, id);
        assert Distinct(prev) ==> |r| > 0 by {
          if Distinct(prev) {
            if prev[0] == id {
              assert prev[1] in r;
            } else {
              assert prev[0] in r;
            }
          }
        }
        r
    else
      assert Distinct(prev) ==> Distinct(prev + [id]) by {
        if Distinct(prev) {
          var t := prev + [id];
          forall i, j | 0 <= i < j < |t|
            ensures t[i] != t[j]
          {
            if j == |prev| {
              assert t[i] == prev[i];
            } else {
              assert t[i] == prev[i] && t[j] == prev[j];
            }
          }
        }
      }
      prev + [id]
  }

  /** How the payers were entered on the form. */
  datatype PayerMode =
    | Single(payerId: Id)
      /** One amount field per participant; `None` for a blank or unparseable field. */
    | Multiple(entered: seq<(Id, Option<int>)>)

  datatype SubmitError =
    | InvalidDescriptionOrAmount
      /** The entered payer amounts do not add up to the expense amount. */
    | PaidTotalMismatch(enteredTotal: int)

  /** One participant's amount field on the multi-payer form. */
  type Field = (Id, Option<int>)

  /** A field's contribution to the entered total (`parseFloat(val) || 0`). */
  function FieldValue(f: Field): int
  {
    match f.1
    case Some(x) => x
    case None => 0
  }

  /** What a field puts into `paidBy`: its value when that is positive. */
  function Positive(f: Field): int
  {
    if f.1.Some? && f.1.value > 0 then f.1.value else 0
  }

  /** The entered payer total. */
  function EnteredTotal(entered: seq<Field>): int
  {
    SumOf(entered, FieldValue)
  }

  /** `paidBy[uid] = val` for every field whose value is positive, in order. */
  function PositivePayers(paidBy: Entries, entered: seq<Field>): Entries
    decreases |entered|
  {
    if |entered| == 0 then paidBy
    else
      var next := if Positive(entered[0]) > 0 then Assign(paidBy, entered[0].0, Positive(entered[0])) else paidBy;
      PositivePayers(next, entered[1..])
  }

  function Abs(x: int): int
  {
    if x < 0 then -x else x
  }

  /** Submitting the form. The amount arrives already parsed to cents
      (`None` when it is not a number). A missing description or a
      non-positive amount is rejected before anything is built; with several
      payers the entered amounts must come within one cent of the total. */
  function Submit(description: string, amount: Option<int>, mode: PayerMode, consumers: seq<Id>)
    : (r: Result<Expense, SubmitError>)
    ensures (description == [] || amount.None? || amount.value <= 0) ==>
              r == Failure(InvalidDescriptionOrAmount)
    ensures r.Success? ==> description != [] && amount.Some? && amount.value > 0
    ensures r.Success? ==>
              r.value.amount == amount.value && r.value.splitBetween == EqualSplit(amount.value, consumers)
    ensures r.Success? && mode.Single? ==> r.value.paidBy == [(mode.payerId, amount.value)]
    ensures description != [] && amount.Some? && amount.value > 0 && mode.Multiple? ==>
              (r.Failure? <==> Abs(EnteredTotal(mode.entered) - amount.value) > 1)
    ensures description != [] && amount.Some? && amount.value > 0 && mode.Single? ==> r.Success?
  {
    if description == [] || amount.None? || amount.value <= 0 then
      Failure(InvalidDescriptionOrAmount)
    else
      var total := amount.value;
      match mode
      case Single(payerId) =>
        Success(Expense(total, [(payerId, total)], EqualSplit(total, consumers)))
      case Multiple(entered) =>
        var multiTotal := EnteredTotal(entered);
        if Abs(multiTotal - total) > 1 then Failure(PaidTotalMismatch(multiTotal))
        else Success(Expense(total, PositivePayers([], entered), EqualSplit(total, consumers)))
  }

  /** The positive amount entered for `uid`, or 0. */
  function EnteredFor(entered: seq<Field>, uid: Id): int
  {
    if |entered| == 0 then 0
    else if entered[0].0 == uid then Positive(entered[0])
    else EnteredFor(entered[1..], uid)
  }

  lemma {:induction false} PositivePayersFacts(acc: Entries, entered: seq<Field>)
    requires NoDupKeys(acc) && NoDupKeys(entered)
    requires forall uid :: HasKey(entered, uid) ==> !HasKey(acc, uid)
    ensures var r := PositivePayers(acc, entered);
      && NoDupKeys(r)
      && (forall uid :: Get(r, uid) == if HasKey(entered, uid) then EnteredFor(entered, uid) else Get(acc, uid))
      && (forall uid :: HasKey(r, uid) <==> HasKey(acc, uid) || EnteredFor(entered, uid) > 0)
      && Sum(r) == Sum(acc) + SumOf(entered, Positive)
    decreases |entered|
  {
    if |entered| > 0 {
      var f := entered[0];
      var next := if Positive(f) > 0 then Assign(acc, f.0, Positive(f)) else acc;
      assert !HasKey(acc, f.0);
      if Positive(f) > 0 {
        SumAssign(acc, f.0, Positive(f));
      }
      assert Sum(next) == Sum(acc) + Positive(f);
      forall uid | HasKey(entered[1..], uid)
        ensures !HasKey(next, uid)
      {
        assert HasKey(entered, uid);
      }
      PositivePayersFacts(next, entered[1..]);
      UnlistedNothingEntered(entered[1..], f.0);
      forall uid
        ensures HasKey(next, uid) <==> HasKey(acc, uid) || (uid == f.0 && Positive(f) > 0)
      {
      }
    }
  }

  /** With several payers the record's `paidBy` holds exactly the
      participants who entered a positive amount, with that amount, and its
      total is the sum of the positive fields. */
  lemma PaidByFromFields(description: string, amount: Option<int>, entered: seq<Field>, consumers: seq<Id>)
    requires NoDupKeys(entered)
    requires Submit(description, amount, Multiple(entered), consumers).Success?
    ensures var paidBy := Submit(description, amount, Multiple(entered), consumers).value.paidBy;
      && NoDupKeys(paidBy)
      && (forall uid :: HasKey(paidBy, uid) <==> EnteredFor(entered, uid) > 0)
      && (forall uid :: Get(paidBy, uid) == EnteredFor(entered, uid))
      && Sum(paidBy) == SumOf(entered, Positive)
  {
    PositivePayersFacts([], entered);
    forall uid
      ensures !HasKey(entered, uid) ==> EnteredFor(entered, uid) == 0
    {
      UnlistedNothingEntered(entered, uid);
    }
  }

  lemma {:induction false} UnlistedNothingEntered(entered: seq<Field>, uid: Id)
    ensures !HasKey(entered, uid) ==> EnteredFor(entered, uid) == 0
  {
    if |entered| > 0 {
      UnlistedNothingEntered(entered[1..], uid);
    }
  }

  lemma {:induction false} NonNegativeFields(entered: seq<Field>)
    requires forall i :: 0 <= i < |entered| ==> FieldValue(entered[i]) >= 0
    ensures SumOf(entered, Positive) == EnteredTotal(entered)
    decreases |entered|
  {
    if |entered| > 0 {
      assert Positive(entered[0]) == FieldValue(entered[0]);
      NonNegativeFields(entered[1..]);
    }
  }

  /** A submitted record's consumers' shares add up to its amount. */
  lemma SubmittedSplitSum(description: string, amount: Option<int>, mode: PayerMode, consumers: seq<Id>)
    requires |consumers| > 0 && Distinct(consumers)
    requires Submit(description, amount, mode, consumers).Success?
    ensures var e := Submit(description, amount, mode, consumers).value;
      Keys(e.splitBetween) == consumers && Sum(e.splitBetween) == e.amount
  {
    EqualSplitSum(amount.value, consumers);
  }

  /** A single-payer record pays out exactly what its consumers owe. */
  lemma SinglePayerBalanced(description: string, amount: Option<int>, payerId: Id, consumers: seq<Id>)
    requires |consumers| > 0 && Distinct(consumers)
    requires Submit(description, amount, Single(payerId), consumers).Success?
    ensures Imbalance(Submit(description, amount, Single(payerId), consumers).value) == 0
  {
    SubmittedSplitSum(description, amount, Single(payerId), consumers);
    var paidBy := [(payerId, amount.value)];
    SumCons(paidBy);
    assert paidBy[1..] == [];
  }

  /** With several payers and no negative field, a record's payers are
      within one cent of its amount (the tolerance of the form's check). */
  lemma MultiPayerWithinCent(description: string, amount: Option<int>, entered: seq<Field>, consumers: seq<Id>)
    requires NoDupKeys(entered)
    requires forall i :: 0 <= i < |entered| ==> FieldValue(entered[i]) >= 0
    requires Submit(description, amount, Multiple(entered), consumers).Success?
    ensures var e := Submit(description, amount, Multiple(entered), consumers).value;
      -1 <= Sum(e.paidBy) - e.amount <= 1
  {
    PaidByFromFields(description, amount, entered, consumers);
    NonNegativeFields(entered);
  }

  /** A negative field passes the total check but is dropped from `paidBy`:
      here 200.00 and -100.00 add up to the 100.00 amount, and the record
      says A paid 200.00. */
  lemma NegativeFieldUnbalances()
    ensures var r := Submit("x", Some(10000), Multiple([("A", Some(20000)), ("B", Some(-10000))]), ["A"]);
      r.Success? && Sum(r.value.paidBy) == 20000 && r.value.amount == 10000
  {
    var entered := [("A", Some(20000)), ("B", Some(-10000))];
    assert EnteredTotal(entered) == 10000 by {
      assert entered[1..][1..] == [];
    }
    assert PositivePayers([], entered) == [("A", 20000)] by {
      assert entered[1..][1..] == [];
      assert Assign([], "A", 20000) == [("A", 20000)];
    }
  }

  lemma {:induction false} WithoutConcat(a: seq<Id>, b: seq<Id>, id: Id)
    ensures Without(a + b, id) == Without(a, id) + Without(b, id)
    decreases |a|
  {
    if |a| > 0 {
      assert (a + b)[1..] == a[1..] + b;
      WithoutConcat(a[1..], b, id);
    } else {
      assert a + b == b;
    }
  }

  lemma WithoutAt(ids: seq<Id>, k: nat)
    requires Distinct(ids) && k < |ids|
    ensures Without(ids, ids[k]) == ids[..k] + ids[k + 1..]
  {
    var front, x, back := ids[..k], ids[k], ids[k + 1..];
    assert ids == front + [x] + back;
    DistinctAt(ids, k);
    WithoutConcat(front + [x], back, x);
    WithoutConcat(front, [x], x);
    assert Without([x], x) == [] by {
      assert [x][1..] == [];
    }
    assert front + [] == front;
  }

  /** In a list without duplicates, the id at `k` occurs nowhere else. */
  lemma DistinctAt(ids: seq<Id>, k: nat)
    requires Distinct(ids) && k < |ids|
    ensures ids[k] !in ids[..k] && ids[k] !in ids[k + 1..]
  {
    forall i | 0 <= i < |ids| && i != k
      ensures ids[i] != ids[k]
    {
      if i < k {
        assert ids[i] != ids[k];
      } else {
        assert ids[k] != ids[i];
      }
    }
  }

  /** Deselecting a consumer removes it where it stands and keeps the
      order of the others. */
  lemma DeselectKeepsOrder(prev: seq<Id>, k: nat)
    requires Distinct(prev) && |prev| > 1 && k < |prev|
    ensures ToggleConsumer(prev, prev[k]) == prev[..k] + prev[k + 1..]
  {
    WithoutAt(prev, k);
  }

  /** Selecting a new consumer and deselecting it again restores the list. */
  lemma ToggleTwiceRestores(prev: seq<Id>, id: Id)
    requires id !in prev && |prev| > 0
    ensures ToggleConsumer(ToggleConsumer(prev, id), id) == prev
  {
    WithoutConcat(prev, [id], id);
    assert Without([id], id) == [] by {
      assert [id][1..] == [];
    }
  }

  /** Deselecting and reselecting the first consumer moves it to the end,
      so another consumer absorbs the split's rounding remainder. */
  lemma ReselectMovesToEnd(prev: seq<Id>)
    requires Distinct(prev) && |prev| > 1
    ensures var toggled := ToggleConsumer(ToggleConsumer(prev, prev[0]), prev[0]);
      toggled == prev[1..] + [prev[0]] && toggled[0] != prev[0]
  {
    WithoutAt(prev, 0);
    assert prev[1] != prev[0];
  }
}
