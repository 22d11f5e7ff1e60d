/** The financial records the budget service keeps: transactions, budgets and
    savings goals, with the values a `Budget` and a `FinancialGoal` derive from
    their fields. Amounts (`decimal` in the source) are reals. */
module LedgerModels {
  import opened Wrappers

  /** `TimeSpan.TicksPerDay`. */
  const TicksPerDay: int := 864_000_000_000

  /** A local `DateTime`: calendar date and ticks since midnight. */
  datatype DateTime = DateTime(year: int, month: int, day: int, timeOfDay: int)

  /** The field ranges every `DateTime` value keeps. */
  predicate ValidDateTime(d: DateTime) {
    1 <= d.month <= 12 && 1 <= d.day <= 31 && 0 <= d.timeOfDay < TicksPerDay
  }

  /** `d.Date` as a number that grows from day to day. */
  function DayNumber(d: DateTime): int {
    (d.year * 13 + d.month) * 32 + d.day
  }

  /** The instant as a number that grows with time: what `OrderBy(t => t.Date)` compares. */
  function Stamp(d: DateTime): int {
    DayNumber(d) * TicksPerDay + d.timeOfDay
  }

  /** Calendar order on dates: year, then month, then day. */
  predicate DayBefore(a: DateTime, b: DateTime) {
    a.year < b.year || (a.year == b.year && (a.month < b.month || (a.month == b.month && a.day < b.day)))
  }

  /** Day numbers follow calendar order. */
  lemma DayNumberOrdersDays(a: DateTime, b: DateTime)
    requires ValidDateTime(a) && ValidDateTime(b)
    ensures DayNumber(a) < DayNumber(b) <==> DayBefore(a, b)
    ensures DayNumber(a) == DayNumber(b) <==> (a.year == b.year && a.month == b.month && a.day == b.day)
  {
    if a.year < b.year {
      assert (a.year * 13 + a.month) < (b.year * 13 + b.month);
    } else if b.year < a.year {
      assert (b.year * 13 + b.month) < (a.year * 13 + a.month);
    }
  }

  /** Stamps follow the day first, then the time of day. */
  lemma StampOrdersInstants(a: DateTime, b: DateTime)
    requires ValidDateTime(a) && ValidDateTime(b)
    ensures Stamp(a) < Stamp(b) <==>
      DayNumber(a) < DayNumber(b) || (DayNumber(a) == DayNumber(b) && a.timeOfDay < b.timeOfDay)
  {
    if DayNumber(a) < DayNumber(b) {
      assert DayNumber(a) * TicksPerDay + TicksPerDay <= DayNumber(b) * TicksPerDay;
    } else if DayNumber(b) < DayNumber(a) {
      assert DayNumber(b) * TicksPerDay + TicksPerDay <= DayNumber(a) * TicksPerDay;
    }
  }

  datatype TransactionType = Income | Expense

  datatype Transaction = Transaction(
    id: nat, description: string, amount: real, kind: TransactionType,
    category: string, date: DateTime, notes: Option<string>)

  datatype Budget = Budget(
    id: nat, name: string, category: string, monthlyLimit: real,
    currentSpent: real, createdDate: DateTime, isActive: bool)

  datatype FinancialGoal = FinancialGoal(
    id: nat, name: string, description: string, targetAmount: real,
    currentAmount: real, targetDate: DateTime, createdDate: DateTime, isCompleted: bool)

  // ----------------------------------------------------------------------------
  // Budget

  /** `new Budget()`: fresh id and creation date, active, nothing spent. */
  function NewBudget(id: nat, now: DateTime): (b: Budget)
    ensures b.isActive && b.currentSpent == 0.0 && b.id == id && b.createdDate == now
  {
    Budget(id, "", "", 0.0, 0.0, now, true)
  }

  /** `new Budget(name, category, monthlyLimit)`. */
  function NewBudgetFor(id: nat, name: string, category: string, monthlyLimit: real, now: DateTime): (b: Budget)
    ensures b.isActive && b.currentSpent == 0.0
    ensures b.name == name && b.category == category && b.monthlyLimit == monthlyLimit
    ensures b.id == id && b.createdDate == now
  {
    Budget(id, name, category, monthlyLimit, 0.0, now, true)
  }

  /** `RemainingBudget`: what is left of the limit; spending it all leaves 0. */
  function RemainingBudget(b: Budget): (r: real)
    ensures r + b.currentSpent == b.monthlyLimit
    ensures r <= 0.0 <==> b.currentSpent >= b.monthlyLimit
  {
    b.monthlyLimit - b.currentSpent
  }

  /** `BudgetUtilizationPercentage`: 0 without a positive limit, otherwise the
      share of the limit spent, in percent. */
  function BudgetUtilizationPercentage(b: Budget): (p: real)
    ensures b.monthlyLimit <= 0.0 ==> p == 0.0
    ensures b.monthlyLimit > 0.0 ==> p * b.monthlyLimit == b.currentSpent * 100.0
  {
    if b.monthlyLimit > 0.0 then (b.currentSpent / b.monthlyLimit) * 100.0 else 0.0
  }

  /** `IsOverBudget`: spending exceeds the limit, so nothing remains and the
      remainder is negative. */
  function IsOverBudget(b: Budget): (over: bool)
    ensures over <==> RemainingBudget(b) < 0.0
  {
    b.currentSpent > b.monthlyLimit
  }

  /** With a positive limit, utilisation passes 100 percent exactly when the
      budget is over, and reaches it exactly when nothing remains. */
  lemma UtilisationAgreesWithOverBudget(b: Budget)
    requires b.monthlyLimit > 0.0
    ensures BudgetUtilizationPercentage(b) > 100.0 <==> IsOverBudget(b)
    ensures BudgetUtilizationPercentage(b) == 100.0 <==> RemainingBudget(b) == 0.0
  {
    var p := BudgetUtilizationPercentage(b);
    assert p * b.monthlyLimit == b.currentSpent * 100.0;
    if p > 100.0 {
      assert p * b.monthlyLimit > 100.0 * b.monthlyLimit;
    }
    if b.currentSpent > b.monthlyLimit {
      assert p * b.monthlyLimit > b.monthlyLimit * 100.0;
    }
  }

  // ----------------------------------------------------------------------------
  // FinancialGoal

  /** `new FinancialGoal()`. */
  function NewGoal(id: nat, now: DateTime): (g: FinancialGoal)
    ensures !g.isCompleted && g.currentAmount == 0.0 && g.id == id && g.createdDate == now
  {
    FinancialGoal(id, "", "", 0.0, 0.0, DateTime(1, 1, 1, 0), now, false)
  }

  /** `new FinancialGoal(name, description, targetAmount, targetDate)`. */
  function NewGoalFor(id: nat, name: string, description: string, targetAmount: real,
                      targetDate: DateTime, now: DateTime): (g: FinancialGoal)
    ensures !g.isCompleted && g.currentAmount == 0.0
    ensures g.name == name && g.description == description
    ensures g.targetAmount == targetAmount && g.targetDate == targetDate
    ensures g.id == id && g.createdDate == now
  {
    FinancialGoal(id, name, description, targetAmount, 0.0, targetDate, now, false)
  }

  /** `RemainingAmount`: what is still to be saved; reaching the target leaves 0. */
  function RemainingAmount(g: FinancialGoal): (r: real)
    ensures r + g.currentAmount == g.targetAmount
    ensures r <= 0.0 <==> g.currentAmount >= g.targetAmount
  {
    g.targetAmount - g.currentAmount
  }

  /** `ProgressPercentage`: 0 without a positive target, otherwise the share of
      the target saved, in percent. */
  function ProgressPercentage(g: FinancialGoal): (p: real)
    ensures g.targetAmount <= 0.0 ==> p == 0.0
    ensures g.targetAmount > 0.0 ==> p * g.targetAmount == g.currentAmount * 100.0
  {
    if g.targetAmount > 0.0 then (g.currentAmount / g.targetAmount) * 100.0 else 0.0
  }

  /** Between nothing and the target saved, progress lies between 0 and 100
      percent, and it is 100 exactly when the target is met. */
  lemma ProgressInRange(g: FinancialGoal)
    requires g.targetAmount > 0.0
    requires 0.0 <= g.currentAmount <= g.targetAmount
    ensures 0.0 <= ProgressPercentage(g) <= 100.0
    ensures ProgressPercentage(g) == 100.0 <==> g.currentAmount == g.targetAmount
  {
    var p := ProgressPercentage(g);
    assert p * g.targetAmount == g.currentAmount * 100.0;
    if p == 100.0 {
      assert g.currentAmount * 100.0 == 100.0 * g.targetAmount;
    }
  }
}
