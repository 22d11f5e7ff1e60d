/** The write side of `BudgetService`: adding, replacing and removing
    transactions, budgets and goals, recomputing each active budget's spending
    for the current month, and crediting savings goals. The service's lists
    are one immutable `Ledger`; every operation returns the next one. The
    current date (`DateTime.Now`) is a parameter. */
module BudgetLedger {
  import opened Wrappers
  import opened Text
  import opened Seqs
  import opened LedgerModels

  datatype Ledger = Ledger(transactions: seq<Transaction>, budgets: seq<Budget>, goals: seq<FinancialGoal>)

  /** Matches by id, as the `t => t.Id == id` lambdas do. */
  function TransactionIdIs(id: nat): Transaction -> bool {
    (t: Transaction) => t.id == id
  }

  function BudgetIdIs(id: nat): Budget -> bool {
    (b: Budget) => b.id == id
  }

  function GoalIdIs(id: nat): FinancialGoal -> bool {
    (g: FinancialGoal) => g.id == id
  }

  // ----------------------------------------------------------------------------
  // Monthly spending

  /** `t` is an expense of `category` (ignoring case) dated in the month and
      year of `now`. */
  predicate CountsToward(t: Transaction, category: string, now: DateTime) {
    && t.kind == Expense
    && EqualsIgnoreCase(t.category, category)
    && t.date.month == now.month
    && t.date.year == now.year
  }

  /** The sum of the amounts of the transactions that count toward `category`
      this month. */
  function MonthlySpent(ts: seq<Transaction>, category: string, now: DateTime): real
    decreases |ts|
  {
    if |ts| == 0 then 0.0
    else (if CountsToward(ts[0], category, now) then ts[0].amount else 0.0) + MonthlySpent(ts[1..], category, now)
  }

  /** `after` is `before` with every active budget's `CurrentSpent` set to its
      category's spending this month, and nothing else changed. */
  predicate Refreshed(ts: seq<Transaction>, before: seq<Budget>, after: seq<Budget>, now: DateTime) {
    && |after| == |before|
    && forall i :: 0 <= i < |before| ==>
         && after[i].(currentSpent := 0.0) == before[i].(currentSpent := 0.0)
         && (if before[i].isActive
             then after[i].currentSpent == MonthlySpent(ts, before[i].category, now)
             else after[i] == before[i])
  }

  /** `UpdateBudgetSpendingAsync` on the budget list. */
  function RefreshSpending(ts: seq<Transaction>, bs: seq<Budget>, now: DateTime): (r: seq<Budget>)
    ensures Refreshed(ts, bs, r, now)
  {
    seq(|bs|, i requires 0 <= i < |bs| =>
      if bs[i].isActive then bs[i].(currentSpent := MonthlySpent(ts, bs[i].category, now)) else bs[i])
  }

  /** `Refreshed` pins the budget list down: whatever satisfies it is the
      refreshed list. */
  lemma RefreshedIsUnique(ts: seq<Transaction>, bs: seq<Budget>, after: seq<Budget>, now: DateTime)
    requires Refreshed(ts, bs, after, now)
    ensures after == RefreshSpending(ts, bs, now)
  {
    var r := RefreshSpending(ts, bs, now);
    forall i | 0 <= i < |bs|
      ensures after[i] == r[i]
    {
      assert after[i].(currentSpent := 0.0) == r[i].(currentSpent := 0.0);
      assert after[i].currentSpent == r[i].currentSpent;
    }
  }

  /** Recomputing twice gives what recomputing once gives. */
  lemma RefreshIdempotent(ts: seq<Transaction>, bs: seq<Budget>, now: DateTime)
    ensures RefreshSpending(ts, RefreshSpending(ts, bs, now), now) == RefreshSpending(ts, bs, now)
  {
    var once := RefreshSpending(ts, bs, now);
    var twice := RefreshSpending(ts, once, now);
    forall i | 0 <= i < |bs|
      ensures twice[i] == once[i]
    {
      assert once[i].category == bs[i].category && once[i].isActive == bs[i].isActive;
    }
  }

  /** One more transaction adds its amount to the categories it counts toward. */
  lemma {:induction false} MonthlySpentAppend(ts: seq<Transaction>, t: Transaction, category: string, now: DateTime)
    ensures MonthlySpent(ts + [t], category, now)
            == MonthlySpent(ts, category, now) + (if CountsToward(t, category, now) then t.amount else 0.0)
    decreases |ts|
  {
    if |ts| == 0 {
      assert [] + [t] == [t];
      assert [t][1..] == [];
    } else {
      assert (ts + [t])[1..] == ts[1..] + [t];
      MonthlySpentAppend(ts[1..], t, category, now);
    }
  }

  /** Categories that agree ignoring case have the same monthly spending. */
  lemma {:induction false} MonthlySpentIgnoresCase(ts: seq<Transaction>, a: string, b: string, now: DateTime)
    requires EqualsIgnoreCase(a, b)
    ensures MonthlySpent(ts, a, now) == MonthlySpent(ts, b, now)
    decreases |ts|
  {
    if |ts| > 0 {
      assert CountsToward(ts[0], a, now) == CountsToward(ts[0], b, now);
      MonthlySpentIgnoresCase(ts[1..], a, b, now);
    }
  }

  /** Splitting the transactions by any test splits the spending. */
  lemma {:induction false} MonthlySpentSplits(ts: seq<Transaction>, p: Transaction -> bool, category: string, now: DateTime)
    ensures MonthlySpent(ts, category, now)
            == MonthlySpent(Where(ts, p), category, now) + MonthlySpent(RemoveAll(ts, p), category, now)
    decreases |ts|
  {
    if |ts| > 0 {
      MonthlySpentSplits(ts[1..], p, category, now);
      var kept := Where(ts[1..], p);
      var dropped := RemoveAll(ts[1..], p);
      if p(ts[0]) {
        assert Where(ts, p) == [ts[0]] + kept;
        assert ([ts[0]] + kept)[1..] == kept;
        assert RemoveAll(ts, p) == dropped;
      } else {
        assert Where(ts, p) == kept;
        assert RemoveAll(ts, p) == [ts[0]] + dropped;
        assert ([ts[0]] + dropped)[1..] == dropped;
      }
    }
  }

  // ----------------------------------------------------------------------------
  // Transactions

  /** `AddTransactionAsync`: appends, then recomputes budget spending. */
  function AddTransaction(l: Ledger, t: Transaction, now: DateTime): (r: Ledger)
    ensures r.transactions == l.transactions + [t]
    ensures Refreshed(r.transactions, l.budgets, r.budgets, now)
    ensures r.goals == l.goals
  {
    var ts := l.transactions + [t];
    l.(transactions := ts, budgets := RefreshSpending(ts, l.budgets, now))
  }

  /** After an addition, each active budget has spent what it had this month
      before, plus the new amount when the transaction counts toward it. */
  lemma AddTransactionSpending(l: Ledger, t: Transaction, now: DateTime, i: nat)
    requires i < |l.budgets| && l.budgets[i].isActive
    ensures AddTransaction(l, t, now).budgets[i].currentSpent
            == MonthlySpent(l.transactions, l.budgets[i].category, now)
               + (if CountsToward(t, l.budgets[i].category, now) then t.amount else 0.0)
  {
    MonthlySpentAppend(l.transactions, t, l.budgets[i].category, now);
  }

  /** `UpdateTransactionAsync`: replaces the first transaction with the same id
      and recomputes; an unknown id changes nothing. */
  function UpdateTransaction(l: Ledger, t: Transaction, now: DateTime): (r: Ledger)
    ensures FirstIndex(l.transactions, TransactionIdIs(t.id)).None? ==> r == l
    ensures FirstIndex(l.transactions, TransactionIdIs(t.id)).Some? ==>
      var i := FirstIndex(l.transactions, TransactionIdIs(t.id)).value;
      && |r.transactions| == |l.transactions|
      && r.transactions[i] == t
      && (forall j :: 0 <= j < |l.transactions| && j != i ==> r.transactions[j] == l.transactions[j])
      && (forall j :: 0 <= j < i ==> l.transactions[j].id != t.id)
      && Refreshed(r.transactions, l.budgets, r.budgets, now)
    ensures r.goals == l.goals
  {
    match FirstIndex(l.transactions, TransactionIdIs(t.id))
    case None => l
    case Some(i) =>
      var ts := ReplaceFirst(l.transactions, TransactionIdIs(t.id), t);
      l.(transactions := ts, budgets := RefreshSpending(ts, l.budgets, now))
  }

  /** `DeleteTransactionAsync`: removes every transaction with the id, keeps the
      others in order, and recomputes (also when nothing was removed). */
  function DeleteTransaction(l: Ledger, id: nat, now: DateTime): (r: Ledger)
    ensures forall t :: t in r.transactions ==> t.id != id
    ensures forall t: Transaction :: t.id != id ==> multiset(r.transactions)[t] == multiset(l.transactions)[t]
    ensures IsSubsequence(r.transactions, l.transactions)
    ensures Refreshed(r.transactions, l.budgets, r.budgets, now)
    ensures r.goals == l.goals
  {
    var ts := RemoveAll(l.transactions, TransactionIdIs(id));
    l.(transactions := ts, budgets := RefreshSpending(ts, l.budgets, now))
  }

  /** After a deletion, each active budget has spent what it had this month
      before, less the removed transactions that counted toward it. */
  lemma DeleteTransactionSpending(l: Ledger, id: nat, now: DateTime, i: nat)
    requires i < |l.budgets| && l.budgets[i].isActive
    ensures DeleteTransaction(l, id, now).budgets[i].currentSpent
            == MonthlySpent(l.transactions, l.budgets[i].category, now)
               - MonthlySpent(Where(l.transactions, TransactionIdIs(id)), l.budgets[i].category, now)
  {
    MonthlySpentSplits(l.transactions, TransactionIdIs(id), l.budgets[i].category, now);
  }

  // ----------------------------------------------------------------------------
  // Budgets

  /** `GetAllBudgetsAsync`: the active budgets, in order. */
  function GetAllBudgets(bs: seq<Budget>): (r: seq<Budget>)
    ensures forall b :: b in r ==> b.isActive
    ensures forall b: Budget :: b.isActive ==> multiset(r)[b] == multiset(bs)[b]
    ensures IsSubsequence(r, bs)
  {
    Where(bs, (b: Budget) => b.isActive)
  }

  /** `AddBudgetAsync`: appends, then recomputes every active budget's spending. */
  function AddBudget(l: Ledger, b: Budget, now: DateTime): (r: Ledger)
    ensures Refreshed(l.transactions, l.budgets + [b], r.budgets, now)
    ensures r.transactions == l.transactions && r.goals == l.goals
  {
    l.(budgets := RefreshSpending(l.transactions, l.budgets + [b], now))
  }

  /** `UpdateBudgetAsync`: replaces the first budget with the same id, without
      recomputing spending; an unknown id changes nothing. */
  function UpdateBudget(l: Ledger, b: Budget): (r: Ledger)
    ensures FirstIndex(l.budgets, BudgetIdIs(b.id)).None? ==> r == l
    ensures FirstIndex(l.budgets, BudgetIdIs(b.id)).Some? ==>
      var i := FirstIndex(l.budgets, BudgetIdIs(b.id)).value;
      && |r.budgets| == |l.budgets|
      && r.budgets[i] == b
      && (forall j :: 0 <= j < |l.budgets| && j != i ==> r.budgets[j] == l.budgets[j])
    ensures r.transactions == l.transactions && r.goals == l.goals
  {
    l.(budgets := ReplaceFirst(l.budgets, BudgetIdIs(b.id), b))
  }

  /** `DeleteBudgetAsync`: a soft delete that marks the first budget with the id
      inactive and keeps it in the list. */
  function DeleteBudget(l: Ledger, id: nat): (r: Ledger)
    ensures |r.budgets| == |l.budgets|
    ensures FirstIndex(l.budgets, BudgetIdIs(id)).None? ==> r == l
    ensures FirstIndex(l.budgets, BudgetIdIs(id)).Some? ==>
      var i := FirstIndex(l.budgets, BudgetIdIs(id)).value;
      && r.budgets[i] == l.budgets[i].(isActive := false)
      && (forall j :: 0 <= j < |l.budgets| && j != i ==> r.budgets[j] == l.budgets[j])
    ensures r.transactions == l.transactions && r.goals == l.goals
  {
    match FirstIndex(l.budgets, BudgetIdIs(id))
    case None => l
    case Some(i) => l.(budgets := l.budgets[i := l.budgets[i].(isActive := false)])
  }

  /** No two budgets share an id. */
  predicate UniqueBudgetIds(bs: seq<Budget>) {
    forall i, j :: 0 <= i < j < |bs| ==> bs[i].id != bs[j].id
  }

  /** With unique ids, a deleted budget is no longer listed. */
  lemma DeletedBudgetNotListed(l: Ledger, id: nat)
    requires UniqueBudgetIds(l.budgets)
    ensures forall b :: b in GetAllBudgets(DeleteBudget(l, id).budgets) ==> b.id != id
  {
    var r := DeleteBudget(l, id).budgets;
    var listed := GetAllBudgets(r);
    forall b | b in listed
      ensures b.id != id
    {
      assert b in multiset(listed);
      assert b in r;
    }
  }

  /** Deleting a budget leaves every other listed budget listed. */
  lemma DeleteBudgetKeepsOthersListed(l: Ledger, id: nat, b: Budget)
    requires b in GetAllBudgets(l.budgets) && b.id != id
    ensures b in GetAllBudgets(DeleteBudget(l, id).budgets)
  {
    var r := DeleteBudget(l, id).budgets;
    assert b in multiset(GetAllBudgets(l.budgets));
    var k :| 0 <= k < |l.budgets| && l.budgets[k] == b;
    assert r[k] == b;
    assert b in multiset(r);
  }

  /** `UpdateBudgetSpendingAsync` on the whole ledger. */
  function UpdateBudgetSpending(l: Ledger, now: DateTime): (r: Ledger)
    ensures Refreshed(l.transactions, l.budgets, r.budgets, now)
    ensures r.transactions == l.transactions && r.goals == l.goals
  {
    l.(budgets := RefreshSpending(l.transactions, l.budgets, now))
  }

  // ----------------------------------------------------------------------------
  // Goals

  /** `GetAllGoalsAsync`: the goals not yet completed, in order. */
  function GetAllGoals(gs: seq<FinancialGoal>): (r: seq<FinancialGoal>)
    ensures forall g :: g in r ==> !g.isCompleted
    ensures forall g: FinancialGoal :: !g.isCompleted ==> multiset(r)[g] == multiset(gs)[g]
    ensures IsSubsequence(r, gs)
  {
    Where(gs, (g: FinancialGoal) => !g.isCompleted)
  }

  /** `AddGoalAsync`. */
  function AddGoal(l: Ledger, g: FinancialGoal): (r: Ledger)
    ensures |r.goals| == |l.goals| + 1 && r.goals[|l.goals|] == g
    ensures forall j :: 0 <= j < |l.goals| ==> r.goals[j] == l.goals[j]
    ensures r.transactions == l.transactions && r.budgets == l.budgets
  {
    l.(goals := l.goals + [g])
  }

  /** `UpdateGoalAsync`: replaces the first goal with the same id; an unknown id
      changes nothing. */
  function UpdateGoal(l: Ledger, g: FinancialGoal): (r: Ledger)
    ensures FirstIndex(l.goals, GoalIdIs(g.id)).None? ==> r == l
    ensures FirstIndex(l.goals, GoalIdIs(g.id)).Some? ==>
      var i := FirstIndex(l.goals, GoalIdIs(g.id)).value;
      && |r.goals| == |l.goals|
      && r.goals[i] == g
      && (forall j :: 0 <= j < |l.goals| && j != i ==> r.goals[j] == l.goals[j])
    ensures r.transactions == l.transactions && r.budgets == l.budgets
  {
    l.(goals := ReplaceFirst(l.goals, GoalIdIs(g.id), g))
  }

  /** `DeleteGoalAsync`: removes every goal with the id and keeps the others in order. */
  function DeleteGoal(l: Ledger, id: nat): (r: Ledger)
    ensures forall g :: g in r.goals ==> g.id != id
    ensures forall g: FinancialGoal :: g.id != id ==> multiset(r.goals)[g] == multiset(l.goals)[g]
    ensures IsSubsequence(r.goals, l.goals)
    ensures r.transactions == l.transactions && r.budgets == l.budgets
  {
    l.(goals := RemoveAll(l.goals, GoalIdIs(id)))
  }

  /** Credits `amount` to one goal: the saved amount never ends above the
      target, and the goal is completed once the target is reached. A
      completed goal stays completed. */
  function CreditGoal(g: FinancialGoal, amount: real): (r: FinancialGoal)
    ensures g.currentAmount + amount >= g.targetAmount ==> r.currentAmount == g.targetAmount
    ensures g.currentAmount + amount < g.targetAmount ==> r.currentAmount == g.currentAmount + amount
    ensures r.isCompleted <==> g.isCompleted || g.currentAmount + amount >= g.targetAmount
    ensures r.(currentAmount := 0.0, isCompleted := false) == g.(currentAmount := 0.0, isCompleted := false)
  {
    var saved := g.currentAmount + amount;
    if saved >= g.targetAmount then g.(currentAmount := g.targetAmount, isCompleted := true)
    else g.(currentAmount := saved)
  }

  /** Deposits add up: crediting `a` and then a non-negative `b` is crediting
      `a + b` once. */
  lemma CreditsCompose(g: FinancialGoal, a: real, b: real)
    requires b >= 0.0
    ensures CreditGoal(CreditGoal(g, a), b) == CreditGoal(g, a + b)
  {
  }

  /** Non-negative credits keep the saved amount between zero and the target,
      and the progress percentage between 0 and 100. */
  lemma CreditKeepsRange(g: FinancialGoal, amount: real)
    requires 0.0 <= g.currentAmount <= g.targetAmount && amount >= 0.0
    ensures 0.0 <= CreditGoal(g, amount).currentAmount <= g.targetAmount
    ensures g.targetAmount > 0.0 ==> 0.0 <= ProgressPercentage(CreditGoal(g, amount)) <= 100.0
  {
    if g.targetAmount > 0.0 {
      ProgressInRange(CreditGoal(g, amount));
    }
  }

  /** `UpdateGoalProgressAsync`: credits the first goal with the id; an unknown
      id changes nothing. */
  function UpdateGoalProgress(l: Ledger, id: nat, amount: real): (r: Ledger)
    ensures |r.goals| == |l.goals|
    ensures FirstIndex(l.goals, GoalIdIs(id)).None? ==> r == l
    ensures FirstIndex(l.goals, GoalIdIs(id)).Some? ==>
      var i := FirstIndex(l.goals, GoalIdIs(id)).value;
      && r.goals[i] == CreditGoal(l.goals[i], amount)
      && (forall j :: 0 <= j < |l.goals| && j != i ==> r.goals[j] == l.goals[j])
    ensures r.transactions == l.transactions && r.budgets == l.budgets
  {
    match FirstIndex(l.goals, GoalIdIs(id))
    case None => l
    case Some(i) => l.(goals := l.goals[i := CreditGoal(l.goals[i], amount)])
  }

  /** No two goals share an id. */
  predicate UniqueGoalIds(gs: seq<FinancialGoal>) {
    forall i, j :: 0 <= i < j < |gs| ==> gs[i].id != gs[j].id
  }

  /** With unique ids, a credit that reaches the target takes the goal off the
      list of open goals. */
  lemma ReachedGoalLeavesList(l: Ledger, id: nat, amount: real)
    requires UniqueGoalIds(l.goals)
    requires FirstIndex(l.goals, GoalIdIs(id)).Some?
    requires var i := FirstIndex(l.goals, GoalIdIs(id)).value;
      l.goals[i].currentAmount + amount >= l.goals[i].targetAmount
    ensures forall g :: g in GetAllGoals(UpdateGoalProgress(l, id, amount).goals) ==> g.id != id
  {
    var r := UpdateGoalProgress(l, id, amount).goals;
    var i := FirstIndex(l.goals, GoalIdIs(id)).value;
    forall g | g in GetAllGoals(r)
      ensures g.id != id
    {
      assert g in multiset(GetAllGoals(r));
      assert g in r;
    }
  }
}
