# Shared-expense ledger reconciliation in Dafny

This project models the ledger-reconciliation core of a shared-expense
tracker and proves properties of the model. The core has three parts, which
feed each other:

- **The allocator** (`calculateEqualSplit`) splits an expense over an ordered
  list of consumers. Every consumer gets the rounded equal share, and the
  first consumer absorbs the whole rounding residue.
- **The aggregator** (`calculateBalances`) turns expense records into one
  signed net balance per participant. A payment is a credit and a
  consumption is a debit.
- **The settlement planner** (`calculateSettlements`) keeps the balances
  more than one cent from zero. It sorts debtors most-negative first and
  creditors most-positive first, then matches them greedily with two
  cursors.

It also models the pure logic of the add-expense form. That form builds the
records the aggregator reads: it chooses the consumers (`toggleConsumer`) and
validates the input and builds `paidBy` and `splitBetween` (`handleSubmit`).

## Modelling choices

- **Money.** Amounts are integer cents, so `toFixed(2)` on an amount is the
  identity. The thresholds become exact comparisons:
  - the allocator's `|diff| > 0.001` becomes `diff != 0`;
  - the planner's partition `< -0.01` / `> 0.01` becomes `< -1` / `> 1` cents;
  - its "settled" test `|x| < 0.01` becomes `x == 0`.
- **Rounding.** The equal share `total / n` is rounded to a whole cent, with
  an exact half-cent quotient going away from zero (`Split.RoundDiv`). This
  tie rule is the cents model's own; see `Split.RoundDiv` under "Left out"
  for how the floating-point source can differ at a half cent.
- **JavaScript objects** are ordered lists of `(id, cents)` entries
  (`Ledger.Entries`). Assigning to an existing key keeps its position;
  assigning to a new key appends it (`Ledger.Assign`). Reading a missing key
  gives 0, like `obj[k] || 0` (`Ledger.Get`). Entry order matters, because
  `Object.entries` order and the stable `Array.prototype.sort` decide
  tie-breaks.
- **Sorting** is a stable insertion sort by an integer key
  (`Sorting.SortBy`). Creditors are sorted by the negated amount.
- **The planner** is defined twice. `Settlements.Sweep` is a recursive
  reference definition. `Settlements.PlanSettlements` is the source's
  two-cursor loop, whose open amounts are updated in place. The loop is
  proved to compute the same plan.
- **Form values** arrive already parsed to cents. `None` stands for a blank
  or unparseable field (`Outcomes.Option`).

## Behaviour worth knowing

Each case below follows from the code as written, and the model keeps it.

- **Shares are not all within a cent of the quotient.** Only the non-first
  shares are (`Split.EqualSplitNearQuotient`). The first consumer takes the
  whole residue, which can reach `n/2` cents and can even make that share
  negative: 0.05 split ten ways gives the first consumer -0.04
  (`Split.FirstShareCanBeNegative`).
- **Paying out the plan does not always zero the balances.** Balances of
  exactly one cent either way are never matched. So +0.02, -0.01, -0.01
  adds up to zero, yet the plan is empty (`Settlements.OneCentDebtsStayOpen`).
  - What does hold: when total debt equals total credit outside that band,
    every debtor and creditor ends at exactly zero
    (`Settlements.PlanSettlesBalances`).
  - For balances that add up to zero, the same holds whenever none of them
    is exactly ±1 cent (`Settlements.ConservedBalancesSettle`).
- **Expense order decides the key order.** Reordering the expenses changes
  no balance value and nobody's presence (`Balances.OrderIndependent`). The
  entry order can differ, though, for ids outside the roster, and entry
  order is what the planner's stable sort uses for ties.
- **A built record can be unbalanced.** `paidBy` is within one cent of the
  amount only if no multi-payer field is negative
  (`ExpenseForm.MultiPayerWithinCent`). A negative field counts in the total
  check but is dropped from `paidBy` (`ExpenseForm.NegativeFieldUnbalances`).
  The inputs' `min` attribute is the only thing that keeps such values out.
- **The non-empty consumer list depends on no duplicates.** `toggleConsumer`
  keeps the list non-empty only while it has no duplicates
  (`ExpenseForm.ToggleConsumer`). From `[x, x]`, removing `x` empties it.

## Model

| member | source | states |
|---|---|---|
| Ledger.Get | src/lib/algorithms.js:35 | reading an id that has no entry gives 0 (`balances[id] \|\| 0`) |
| Ledger.Assign | src/lib/algorithms.js:35 | property assignment: the key then holds the new value and no other key changes; an existing key keeps its place and the key list, a new key is appended at the end; unique keys stay unique |
| Split.RoundDiv | src/lib/algorithms.js:4 | the share is within half a cent of `total / n`, and a tie goes away from zero |
| Split.AssignAll | src/lib/algorithms.js:8-10 | every listed consumer gets the share by assignment in list order; stated by `Split.AssignAllFacts` |
| Split.AssignAllFacts | src/lib/algorithms.js:8-10 | after the loop every listed id holds the share, every other key keeps its value, the keys are the old keys plus the listed ids, and unique keys stay unique |
| Split.EqualSplit | src/lib/algorithms.js:3 | no consumers give an empty split |
| Split.EqualSplitShares | src/lib/algorithms.js:4-16 | the split's keys are exactly the consumers, without duplicates; every consumer but the first gets the rounded share; the first gets what the others leave of the total |
| Split.EqualSplitSum | src/lib/algorithms.js:12-16 | for distinct consumers the split lists them in order and its shares add up to the total exactly |
| Split.EqualSplitNearQuotient | src/lib/algorithms.js:4-16 | each non-first share is within half a cent of `total / n`; the first differs from the rounded share by at most `n / 2` cents |
| Split.EqualSplitThreeWays | src/lib/algorithms.js:2-20 | 100.00 over A, B, C gives A 33.34 and B, C 33.33 each |
| Split.HalfCentTie | src/lib/algorithms.js:2-20 | 0.15 over A, B: the half-cent share rounds up to 0.08 and A keeps 0.07 |
| Split.FirstShareCanBeNegative | src/lib/algorithms.js:12-16 | 0.05 over ten consumers leaves the first consumer with -0.04 |
| Balances.ZeroAll | src/lib/algorithms.js:28 | every roster participant starts at zero; stated by `Balances.ZeroAllFacts` |
| Balances.ZeroAllFacts | src/lib/algorithms.js:28 | every roster id reads 0, every other key keeps its value, the keys are the old keys plus the roster, and unique keys stay unique |
| Balances.Post | src/lib/algorithms.js:34-36 | one `forEach` over an entry object, adding (payments) or subtracting (consumptions) each amount; stated by `Balances.PostGet`, `Balances.PostKeys` and `Balances.PostSum` |
| Balances.PostGet | src/lib/algorithms.js:34-41 | after posting, each id's balance has moved by the signed total of its entries |
| Balances.PostKeys | src/lib/algorithms.js:34-41 | posting adds exactly the posted ids as keys and keeps keys unique |
| Balances.PostSum | src/lib/algorithms.js:34-41 | posting moves the total of the balances by the signed total of the entries |
| Balances.PostExpense | src/lib/algorithms.js:30-42 | one expense: credit every payer, then debit every consumer; stated by `Balances.PostExpenseFacts` |
| Balances.PostExpenseFacts | src/lib/algorithms.js:30-42 | one expense moves each id by what it paid minus what it consumed, adds exactly the ids it mentions, and moves the total by its imbalance |
| Balances.PostAll | src/lib/algorithms.js:30-42 | the expenses posted in order; stated by `Balances.PostAllGet`, `Balances.PostAllKeys` and `Balances.PostAllSum` |
| Balances.PostAllGet | src/lib/algorithms.js:30-42 | after all expenses each id has moved by its net over them |
| Balances.PostAllKeys | src/lib/algorithms.js:30-42 | the keys afterwards are the old keys plus every id an expense mentions, still unique |
| Balances.PostAllSum | src/lib/algorithms.js:30-42 | the total afterwards has moved by the sum of the expenses' imbalances |
| Balances.CalculateBalances | src/lib/algorithms.js:24-45 | zero the roster, then post every expense; its behaviour is stated by `Balances.BalancesAreNet`, `Balances.NoExpensesAllZero`, `Balances.BalancesSum`, `Balances.Conservation` and `Balances.OrderIndependent` |
| Balances.BalancesAreNet | src/lib/algorithms.js:24-45 | every balance equals the participant's total paid minus total consumed over all expenses; keys are unique; the keys are the roster plus every id some expense mentions |
| Balances.NoExpensesAllZero | src/lib/algorithms.js:28 | with no expenses, exactly the roster has balances and all of them are zero |
| Balances.BalancesSum | src/lib/algorithms.js:30-42 | the balances add up to total paid minus total consumed, over all expenses |
| Balances.Conservation | src/lib/algorithms.js:30-42 | when every expense is self-balanced, the balances add up to zero |
| Balances.OrderIndependent | src/lib/algorithms.js:30-42 | reordering the expenses changes no balance value and nobody's presence in the result |
| Sorting.SortBy | src/lib/algorithms.js:59-60 | the sorted list is a permutation of the input and is ordered by the key |
| Sorting.SortByPair | src/lib/algorithms.js:59-60 | two elements change places only when the second has the strictly smaller key; equal keys keep their order |
| Sorting.SortByStable | src/lib/algorithms.js:59-60 | elements with equal keys keep their input order |
| Settlements.Debtors | src/lib/algorithms.js:53-54 | the debtors are exactly the balance entries below -1 cent |
| Settlements.Creditors | src/lib/algorithms.js:53-55 | the creditors are exactly the balance entries above 1 cent |
| Settlements.DebtorsWithKey | src/lib/algorithms.js:53-54 | partitioning keeps, in object order, every entry with a given balance below -1 cent |
| Settlements.CreditorsWithKey | src/lib/algorithms.js:53-55 | partitioning keeps, in object order, every entry with a given balance above 1 cent |
| Settlements.DebtorsKeepOrder | src/lib/algorithms.js:53-59 | after sorting, debtors owing the same amount still appear in object order |
| Settlements.CreditorsKeepOrder | src/lib/algorithms.js:53-60 | after sorting, creditors owed the same amount still appear in object order |
| Settlements.Sweep | src/lib/algorithms.js:68-91 | the greedy matching as a recursion: the head debtor pays the head creditor the smaller of the two open amounts, and a party reaching zero leaves its list; its behaviour is stated by the Sweep lemmas below |
| Settlements.CalculateSettlements | src/lib/algorithms.js:47-94 | partition, sort both lists, sweep; its behaviour is stated by `Settlements.SettlementParties`, `Settlements.SettlementLength`, `Settlements.SettlementBounds`, `Settlements.PlanSettlesBalances`, `Settlements.DebtorsKeepOrder` and `Settlements.CreditorsKeepOrder` |
| Settlements.SweepParties | src/lib/algorithms.js:68-91 | every transfer has a positive amount, from a listed debtor to a listed creditor |
| Settlements.SweepLength | src/lib/algorithms.js:68-91 | each step closes a debtor or a creditor, so there are at most `debtors + creditors - 1` transfers, and none when either list is empty |
| Settlements.SweepPaidBound | src/lib/algorithms.js:68-91 | no debtor pays more than it owes |
| Settlements.SweepReceivedBound | src/lib/algorithms.js:68-91 | no creditor receives more than it is owed |
| Settlements.SweepTransferred | src/lib/algorithms.js:68-91 | the transfers move the smaller of total debt and total credit |
| Settlements.SweepSettlesDebtors | src/lib/algorithms.js:68-91 | when credit covers debt, every debtor pays exactly its debt |
| Settlements.SweepSettlesCreditors | src/lib/algorithms.js:68-91 | when debt covers credit, every creditor receives exactly its credit |
| Settlements.SettlementParties | src/lib/algorithms.js:53-81 | every settlement moves a positive amount from a participant below -1 cent to one above 1 cent, so nobody within a cent of zero appears |
| Settlements.SettlementLength | src/lib/algorithms.js:68-93 | a non-empty plan has fewer transfers than there are debtors and creditors |
| Settlements.SettledNeedsNoPlan | src/lib/algorithms.js:53-56 | balances all within one cent of zero give an empty plan |
| Settlements.SettlementBounds | src/lib/algorithms.js:68-93 | each participant pays between 0 and its debt and receives between 0 and its credit; the plan moves the smaller of total debt and total credit |
| Settlements.PlanSettlesBalances | src/lib/algorithms.js:47-94 | when total debt equals total credit, paying out the plan brings every debtor and creditor to zero and leaves the balances within a cent as they were |
| Settlements.ConservedBalancesSettle | src/lib/algorithms.js:47-94 | balances that add up to zero, none exactly ±1 cent, are all zero after paying out the plan |
| Settlements.OneCentDebtsStayOpen | src/lib/algorithms.js:53-56 | +0.02, -0.01, -0.01 adds up to zero but gets an empty plan |
| Settlements.TwoDebtorsOneCreditor | src/lib/algorithms.js:47-94 | +66.66, -33.33, -33.33 gives B pays A 33.33, then C pays A 33.33 |
| Settlements.SettleHeads | src/lib/algorithms.js:69-90 | one pass of the loop body moves a positive amount, advances at least one cursor, keeps the unsettled debtors negative and the unsettled creditors positive, and emits exactly the next transfer of the recursive sweep |
| Settlements.PlanSettlements | src/lib/algorithms.js:47-94 | the two-cursor loop terminates, since every pass advances a cursor, and returns the plan of the recursive sweep |
| ExpenseForm.Without | src/components/expenses/AddExpense.jsx:95 | the filtered list holds exactly the other ids, is no longer, keeps a list without the id unchanged and keeps distinct ids distinct |
| ExpenseForm.ToggleConsumer | src/components/expenses/AddExpense.jsx:91-100 | the sole consumer cannot be removed; a selected id is removed and every other id stays; an unselected id is appended; a duplicate-free list stays duplicate-free and non-empty |
| ExpenseForm.DeselectKeepsOrder | src/components/expenses/AddExpense.jsx:95 | deselecting removes the consumer where it stands and keeps the others in order |
| ExpenseForm.ToggleTwiceRestores | src/components/expenses/AddExpense.jsx:93-98 | selecting a new consumer and deselecting it again restores the list |
| ExpenseForm.ReselectMovesToEnd | src/components/expenses/AddExpense.jsx:95-97 | deselecting and reselecting the first consumer moves it to the end, so someone else absorbs the residue |
| ExpenseForm.Submit | src/components/expenses/AddExpense.jsx:37-65 | a missing description or a missing or non-positive amount is rejected; single mode always builds `paidBy` as just the payer with the whole amount; multiple mode fails exactly when the entered total is more than a cent off; a built record's split is the equal split of the amount over the consumers in order |
| ExpenseForm.PositivePayers | src/components/expenses/AddExpense.jsx:57-62 | only fields with a positive amount become payers, in field order; stated by `ExpenseForm.PositivePayersFacts` and `ExpenseForm.PaidByFromFields` |
| ExpenseForm.PositivePayersFacts | src/components/expenses/AddExpense.jsx:57-62 | each field with a positive amount becomes a payer with that amount, no other key is added, keys stay unique, and the total grows by the positive fields |
| ExpenseForm.PaidByFromFields | src/components/expenses/AddExpense.jsx:57-62 | in multiple mode `paidBy` holds exactly the participants who entered a positive amount, with that amount, and adds up to the positive fields |
| ExpenseForm.SubmittedSplitSum | src/components/expenses/AddExpense.jsx:65 | a built record's shares list the distinct consumers and add up to its amount |
| ExpenseForm.SinglePayerBalanced | src/components/expenses/AddExpense.jsx:46-47 | a single-payer record pays out exactly what its consumers owe |
| ExpenseForm.MultiPayerWithinCent | src/components/expenses/AddExpense.jsx:50-62 | with no negative field, a multi-payer record's payments are within a cent of its amount |
| ExpenseForm.NegativeFieldUnbalances | src/components/expenses/AddExpense.jsx:50-62 | fields 200.00 and -100.00 pass the check for a 100.00 expense, and the record says 200.00 was paid |
| Scenarios.OneExpenseBalances | src/lib/algorithms.js:24-45 | 100.00 paid by A and split over A, B, C gives balances +66.66, -33.33, -33.33 |
| Scenarios.TwoExpensesBalances | src/lib/algorithms.js:24-45 | adding 60.00 paid by B, split the same way, gives +46.66, +6.67, -53.33 |
| Scenarios.TwoExpensesPlan | src/lib/algorithms.js:47-94 | from those balances, C pays A 46.66 and then B 6.67 |
| Scenarios.LoneParticipant | src/lib/algorithms.js:28 | a lone participant with no expenses has one zero balance and nothing to settle |

## Left out

- **Firestore.** Reads, writes and snapshot listeners are I/O against an
  external service. This includes the record's write in `handleSubmit` and
  what follows it: resetting the form, callbacks and error alerts.
- **Record fields.** The model does not carry `description`, `date`,
  `createdAt`, `groupId` or `consumptions`. The aggregator never reads them.
  The description only enters the form's validation, as a parameter.
- **JSX and the rest of the UI.** Rendering, routing, authentication, the
  balance view's display filtering and the history list are presentation
  over the core.
- **Date-based expense sorting.** It depends on `Date` and Firestore
  timestamp conversion. The aggregator takes expenses in whatever order it
  is given.
- **`parseFloat` and `isNaN`.** Form values arrive as cents or `None`, so
  string parsing is not modelled.
- **Floating point.** IEEE-754 arithmetic, `toFixed` and float accumulation
  are replaced by exact cents. Where the float source sits right at a
  threshold, as with a balance of exactly ±0.01 or a payer total exactly
  0.01 off, its decision depends on representation error. The model takes
  the integer reading.
- Split.RoundDiv: at an exact half-cent quotient the model always rounds
  away from zero. The source rounds the binary double nearest the quotient,
  so its choice at a half cent depends on representation error, and who
  receives the residue can differ. For 0.15 split over [A, B], `0.15 / 2` is
  the double 0.07499999…, which `toFixed(2)` makes 0.07, so the source gives
  A 0.08 and B 0.07. The model gives A 0.07 and B 0.08
  (`Split.HalfCentTie`).
- **Integer-like ids.** A JavaScript object lists integer-like keys first,
  in numeric order. The model keeps plain insertion order, which is right
  for the random string ids participants have.
- **Initial form state and `handleMultiPayerChange`.** These are React state
  plumbing. The form's consumer list is taken as given, and each
  multi-payer field is an entry of `PayerMode.Multiple`.
