/** The read side of `BudgetService` over transactions: the date-ordered
    listings, the date-range and category queries, the income and expense
    totals, and the per-category expense breakdown. */
module TransactionQueries {
  import opened Wrappers
  import opened Text
  import opened Seqs
  import opened LedgerModels

  // ----------------------------------------------------------------------------
  // Ordering by date, newest first

  predicate SortedByDateDesc(s: seq<Transaction>) {
    forall i, j :: 0 <= i < j < |s| ==> Stamp(s[i].date) >= Stamp(s[j].date)
  }

  /** The transactions dated at instant `k`, in order. */
  function AtInstant(s: seq<Transaction>, k: int): seq<Transaction> {
    if |s| == 0 then []
    else (if Stamp(s[0].date) == k then [s[0]] else []) + AtInstant(s[1..], k)
  }

  /** Inserts `x` before the first element that is not later than it. */
  function InsertByDate(x: Transaction, s: seq<Transaction>): (r: seq<Transaction>)
    ensures multiset(r) == multiset(s) + multiset{x}
  {
    if |s| == 0 then [x]
    else if Stamp(s[0].date) <= Stamp(x.date) then [x] + s
    else
      assert s == [s[0]] + s[1..];
      [s[0]] + InsertByDate(x, s[1..])
  }

  /** No transaction in `s` is later than `bound`. */
  predicate NotLaterThan(s: seq<Transaction>, bound: int) {
    forall i :: 0 <= i < |s| ==> Stamp(s[i].date) <= bound
  }

  /** Insertion keeps a common upper bound. */
  lemma {:induction false} InsertKeepsBound(x: Transaction, s: seq<Transaction>, bound: int)
    requires NotLaterThan(s, bound) && Stamp(x.date) <= bound
    ensures NotLaterThan(InsertByDate(x, s), bound)
    decreases |s|
  {
    if |s| > 0 && Stamp(s[0].date) > Stamp(x.date) {
      InsertKeepsBound(x, s[1..], bound);
    }
  }

  /** A head that bounds a newest-first tail gives a newest-first list. */
  lemma SortedCons(h: Transaction, t: seq<Transaction>)
    requires SortedByDateDesc(t) && NotLaterThan(t, Stamp(h.date))
    ensures SortedByDateDesc([h] + t)
  {
    var r := [h] + t;
    forall i, j | 0 <= i < j < |r|
      ensures Stamp(r[i].date) >= Stamp(r[j].date)
    {
      if i > 0 {
        assert r[i] == t[i - 1] && r[j] == t[j - 1];
      } else {
        assert r[j] == t[j - 1];
      }
    }
  }

  /** The tail of a newest-first list is newest first and bounded by the head. */
  lemma SortedTail(s: seq<Transaction>)
    requires |s| > 0 && SortedByDateDesc(s)
    ensures SortedByDateDesc(s[1..]) && NotLaterThan(s[1..], Stamp(s[0].date))
  {
    var t := s[1..];
    forall i, j | 0 <= i < j < |t|
      ensures Stamp(t[i].date) >= Stamp(t[j].date)
    {
      assert t[i] == s[i + 1] && t[j] == s[j + 1];
    }
    forall i | 0 <= i < |t|
      ensures Stamp(t[i].date) <= Stamp(s[0].date)
    {
      assert t[i] == s[i + 1];
    }
  }

  /** Insertion keeps a newest-first list newest first. */
  lemma {:induction false} InsertKeepsSorted(x: Transaction, s: seq<Transaction>)
    requires SortedByDateDesc(s)
    ensures SortedByDateDesc(InsertByDate(x, s))
    decreases |s|
  {
    if |s| == 0 {
    } else if Stamp(s[0].date) <= Stamp(x.date) {
      SortedTail(s);
      assert NotLaterThan(s, Stamp(x.date));
      SortedCons(x, s);
    } else {
      SortedTail(s);
      InsertKeepsSorted(x, s[1..]);
      InsertKeepsBound(x, s[1..], Stamp(s[0].date));
      SortedCons(s[0], InsertByDate(x, s[1..]));
    }
  }

  /** The same-instant reading of a list with a head. */
  lemma AtInstantCons(h: Transaction, t: seq<Transaction>, k: int)
    ensures AtInstant([h] + t, k) == (if Stamp(h.date) == k then [h] else []) + AtInstant(t, k)
  {
    assert ([h] + t)[0] == h;
    assert ([h] + t)[1..] == t;
  }

  /** Insertion puts `x` ahead of every transaction of the same instant and
      leaves their order alone. */
  lemma {:induction false} InsertAtInstant(x: Transaction, s: seq<Transaction>, k: int)
    ensures AtInstant(InsertByDate(x, s), k) == (if Stamp(x.date) == k then [x] else []) + AtInstant(s, k)
    decreases |s|
  {
    if |s| == 0 {
      AtInstantCons(x, [], k);
      assert [x] + [] == [x];
    } else if Stamp(s[0].date) <= Stamp(x.date) {
      AtInstantCons(x, s, k);
    } else {
      var rest := InsertByDate(x, s[1..]);
      InsertAtInstant(x, s[1..], k);
      AtInstantCons(s[0], rest, k);
      AtInstantCons(s[0], s[1..], k);
      assert s == [s[0]] + s[1..];
      var ax: seq<Transaction> := if Stamp(x.date) == k then [x] else [];
      var a0: seq<Transaction> := if Stamp(s[0].date) == k then [s[0]] else [];
      var tail := AtInstant(s[1..], k);
      assert AtInstant(InsertByDate(x, s), k) == a0 + (ax + tail);
      assert AtInstant(s, k) == a0 + tail;
      if Stamp(x.date) == k {
        assert a0 == [];
        assert a0 + (ax + tail) == ax + tail;
      } else {
        assert ax + (a0 + tail) == a0 + tail;
      }
    }
  }

  /** `OrderByDescending(t => t.Date)`: a stable sort, newest first. The result
      is a permutation of the input, ordered by date, and transactions with
      the same date keep their relative order. */
  function SortByDateDesc(s: seq<Transaction>): (r: seq<Transaction>)
    ensures multiset(r) == multiset(s)
    ensures SortedByDateDesc(r)
    ensures forall k :: AtInstant(r, k) == AtInstant(s, k)
  {
    if |s| == 0 then []
    else
      assert s == [s[0]] + s[1..];
      var rest := SortByDateDesc(s[1..]);
      InsertKeepsSorted(s[0], rest);
      forall k ensures AtInstant(InsertByDate(s[0], rest), k) == AtInstant(s, k) {
        InsertAtInstant(s[0], rest, k);
      }
      InsertByDate(s[0], rest)
  }

  /** `GetAllTransactionsAsync`. */
  function GetAllTransactions(ts: seq<Transaction>): (r: seq<Transaction>)
    ensures multiset(r) == multiset(ts)
    ensures SortedByDateDesc(r)
    ensures forall k :: AtInstant(r, k) == AtInstant(ts, k)
  {
    SortByDateDesc(ts)
  }

  /** Sequences with the same elements have the same members. */
  lemma SameMembers(a: seq<Transaction>, b: seq<Transaction>)
    requires multiset(a) == multiset(b)
    ensures forall x :: x in a ==> x in b
  {
    forall x | x in a
      ensures x in b
    {
      assert x in multiset(a);
    }
  }

  /** `Where(p).OrderByDescending(t => t.Date)`: exactly the transactions that
      pass `p`, each as often as stored, newest first, and those with the same
      date in stored order. */
  function SelectNewestFirst(ts: seq<Transaction>, p: Transaction -> bool): (r: seq<Transaction>)
    ensures forall t :: t in r ==> p(t)
    ensures forall t :: p(t) ==> multiset(r)[t] == multiset(ts)[t]
    ensures SortedByDateDesc(r)
    ensures forall k :: AtInstant(r, k) == AtInstant(Where(ts, p), k)
  {
    var selected := Where(ts, p);
    var r := SortByDateDesc(selected);
    SameMembers(r, selected);
    r
  }

  /** The day of `t` lies in [start, end], comparing dates only. */
  predicate InDayRange(t: Transaction, start: DateTime, end: DateTime) {
    DayNumber(start) <= DayNumber(t.date) <= DayNumber(end)
  }

  /** The filter of `GetTransactionsByDateRangeAsync`. */
  function InRange(start: DateTime, end: DateTime): Transaction -> bool {
    (t: Transaction) => InDayRange(t, start, end)
  }

  /** `GetTransactionsByDateRangeAsync`: exactly the transactions whose day lies
      in the range, each as often as stored, newest first, and those with the
      same date in stored order. */
  function GetTransactionsByDateRange(ts: seq<Transaction>, start: DateTime, end: DateTime): (r: seq<Transaction>)
    ensures forall t :: t in r ==> InDayRange(t, start, end)
    ensures forall t :: InDayRange(t, start, end) ==> multiset(r)[t] == multiset(ts)[t]
    ensures SortedByDateDesc(r)
    ensures forall k :: AtInstant(r, k) == AtInstant(Where(ts, InRange(start, end)), k)
  {
    SelectNewestFirst(ts, InRange(start, end))
  }

  /** The filter of `GetTransactionsByCategoryAsync`. */
  function InCategory(category: string): Transaction -> bool {
    (t: Transaction) => EqualsIgnoreCase(t.category, category)
  }

  /** `GetTransactionsByCategoryAsync`: exactly the transactions whose category
      equals `category` ignoring case, each as often as stored, newest first,
      and those with the same date in stored order. */
  function GetTransactionsByCategory(ts: seq<Transaction>, category: string): (r: seq<Transaction>)
    ensures forall t :: t in r ==> EqualsIgnoreCase(t.category, category)
    ensures forall t: Transaction :: EqualsIgnoreCase(t.category, category) ==> multiset(r)[t] == multiset(ts)[t]
    ensures SortedByDateDesc(r)
    ensures forall k :: AtInstant(r, k) == AtInstant(Where(ts, InCategory(category)), k)
  {
    SelectNewestFirst(ts, InCategory(category))
  }

  // ----------------------------------------------------------------------------
  // Totals

  /** The optional day bounds of the total queries. */
  predicate WithinBounds(t: Transaction, start: Option<DateTime>, end: Option<DateTime>) {
    && (start.Some? ==> DayNumber(t.date) >= DayNumber(start.value))
    && (end.Some? ==> DayNumber(t.date) <= DayNumber(end.value))
  }

  predicate Counts(t: Transaction, kind: TransactionType, start: Option<DateTime>, end: Option<DateTime>) {
    t.kind == kind && WithinBounds(t, start, end)
  }

  /** The sum of the amounts of the transactions of `kind` within the bounds. */
  function TotalOf(ts: seq<Transaction>, kind: TransactionType, start: Option<DateTime>, end: Option<DateTime>): real
    decreases |ts|
  {
    if |ts| == 0 then 0.0
    else
      var t := ts[|ts| - 1];
      TotalOf(ts[..|ts| - 1], kind, start, end) + (if Counts(t, kind, start, end) then t.amount else 0.0)
  }

  /** The filter chain of the total queries: the type test, then each bound
      that is given. */
  function CountsAs(kind: TransactionType, start: Option<DateTime>, end: Option<DateTime>): Transaction -> bool {
    (t: Transaction) => Counts(t, kind, start, end)
  }

  /** LINQ `Sum(t => t.Amount)`. */
  function SumAmounts(s: seq<Transaction>): real
    decreases |s|
  {
    if |s| == 0 then 0.0 else s[0].amount + SumAmounts(s[1..])
  }

  /** The running total is the sum over the filtered sequence, as the LINQ
      chain computes it. */
  lemma {:induction false} TotalIsSumOfSelected(ts: seq<Transaction>, kind: TransactionType,
                                                start: Option<DateTime>, end: Option<DateTime>)
    ensures TotalOf(ts, kind, start, end) == SumAmounts(Where(ts, CountsAs(kind, start, end)))
    decreases |ts|
  {
    if |ts| > 0 {
      var p := CountsAs(kind, start, end);
      var h, tail := ts[0], ts[1..];
      var rest := Where(tail, p);
      var own := if Counts(h, kind, start, end) then h.amount else 0.0;
      TotalIsSumOfSelected(tail, kind, start, end);
      assert ts == [h] + tail;
      TotalOfConcat([h], tail, kind, start, end);
      assert [h][..0] == [];
      assert TotalOf([h], kind, start, end) == own;
      assert TotalOf(ts, kind, start, end) == own + TotalOf(tail, kind, start, end);
      if p(h) {
        assert Where(ts, p) == [h] + rest;
        assert ([h] + rest)[1..] == rest;
        assert SumAmounts([h] + rest) == h.amount + SumAmounts(rest);
      } else {
        assert Where(ts, p) == rest;
      }
    }
  }

  /** `GetTotalIncomeAsync`: the sum of the income transactions within the bounds. */
  function GetTotalIncome(ts: seq<Transaction>, start: Option<DateTime>, end: Option<DateTime>): (r: real)
    ensures r == SumAmounts(Where(ts, CountsAs(Income, start, end)))
  {
    TotalIsSumOfSelected(ts, Income, start, end);
    TotalOf(ts, Income, start, end)
  }

  /** `GetTotalExpensesAsync`: the sum of the expense transactions within the
      bounds, which is also what the per-category breakdown adds up to. */
  function GetTotalExpenses(ts: seq<Transaction>, start: Option<DateTime>, end: Option<DateTime>): (r: real)
    ensures r == SumAmounts(Where(ts, CountsAs(Expense, start, end)))
    ensures r == SumEntries(GetExpensesByCategory(ts, start, end))
  {
    TotalIsSumOfSelected(ts, Expense, start, end);
    ExpensesByCategorySumToTotal(ts, start, end);
    TotalOf(ts, Expense, start, end)
  }

  /** `GetNetIncomeAsync`: income minus expenses, which is the signed sum of the
      transactions within the bounds. */
  function GetNetIncome(ts: seq<Transaction>, start: Option<DateTime>, end: Option<DateTime>): (r: real)
    ensures r == SignedTotal(ts, start, end)
  {
    NetIncomeIsSignedTotal(ts, start, end);
    GetTotalIncome(ts, start, end) - GetTotalExpenses(ts, start, end)
  }

  /** Reference for the net: every transaction within the bounds counted once,
      income with its sign and expenses against it. */
  function SignedTotal(ts: seq<Transaction>, start: Option<DateTime>, end: Option<DateTime>): real
    decreases |ts|
  {
    if |ts| == 0 then 0.0
    else
      var t := ts[|ts| - 1];
      SignedTotal(ts[..|ts| - 1], start, end)
      + (if !WithinBounds(t, start, end) then 0.0 else if t.kind == Income then t.amount else -t.amount)
  }

  /** Income minus expenses is the signed sum of the transactions within the bounds. */
  lemma {:induction false} NetIncomeIsSignedTotal(ts: seq<Transaction>, start: Option<DateTime>, end: Option<DateTime>)
    ensures TotalOf(ts, Income, start, end) - TotalOf(ts, Expense, start, end) == SignedTotal(ts, start, end)
    decreases |ts|
  {
    if |ts| > 0 {
      NetIncomeIsSignedTotal(ts[..|ts| - 1], start, end);
    }
  }

  /** Totals add up over a split of the transaction list. */
  lemma {:induction false} TotalOfConcat(a: seq<Transaction>, b: seq<Transaction>, kind: TransactionType,
                                         start: Option<DateTime>, end: Option<DateTime>)
    ensures TotalOf(a + b, kind, start, end) == TotalOf(a, kind, start, end) + TotalOf(b, kind, start, end)
    decreases |b|
  {
    if |b| == 0 {
      assert a + b == a;
    } else {
      var b' := b[..|b| - 1];
      assert (a + b)[..|a + b| - 1] == a + b';
      TotalOfConcat(a, b', kind, start, end);
    }
  }

  // ----------------------------------------------------------------------------
  // Expenses by category

  /** The categories of the counted expenses, distinct, in order of first
      appearance (the order `GroupBy` yields its groups in). Categories are
      compared exactly, as `GroupBy` does. */
  function ExpenseCategories(ts: seq<Transaction>, start: Option<DateTime>, end: Option<DateTime>): (cs: seq<string>)
    ensures forall i, j :: 0 <= i < j < |cs| ==> cs[i] != cs[j]
    ensures forall c :: c in cs <==> exists i :: 0 <= i < |ts| && Counts(ts[i], Expense, start, end) && ts[i].category == c
    decreases |ts|
  {
    if |ts| == 0 then []
    else
      var front := ts[..|ts| - 1];
      var t := ts[|ts| - 1];
      var cs := ExpenseCategories(front, start, end);
      assert forall i :: 0 <= i < |front| ==> ts[i] == front[i];
      if Counts(t, Expense, start, end) && t.category !in cs then cs + [t.category] else cs
  }

  /** The counted expenses of one category. */
  function CategoryTotal(ts: seq<Transaction>, c: string, start: Option<DateTime>, end: Option<DateTime>): real
    decreases |ts|
  {
    if |ts| == 0 then 0.0
    else
      var t := ts[|ts| - 1];
      CategoryTotal(ts[..|ts| - 1], c, start, end)
      + (if Counts(t, Expense, start, end) && t.category == c then t.amount else 0.0)
  }

  /** `GetExpensesByCategoryAsync`: one (category, total) entry per category of
      counted expenses. */
  function GetExpensesByCategory(ts: seq<Transaction>, start: Option<DateTime>, end: Option<DateTime>)
    : (r: seq<(string, real)>)
    ensures |r| == |ExpenseCategories(ts, start, end)|
    ensures forall i, j :: 0 <= i < j < |r| ==> r[i].0 != r[j].0
    ensures forall i :: 0 <= i < |r| ==> r[i].1 == CategoryTotal(ts, r[i].0, start, end)
    ensures forall i :: 0 <= i < |r| ==> r[i].0 == ExpenseCategories(ts, start, end)[i]
  {
    var cs := ExpenseCategories(ts, start, end);
    seq(|cs|, i requires 0 <= i < |cs| => (cs[i], CategoryTotal(ts, cs[i], start, end)))
  }

  /** The sum of the entries' totals. */
  function SumEntries(r: seq<(string, real)>): real
    decreases |r|
  {
    if |r| == 0 then 0.0 else SumEntries(r[..|r| - 1]) + r[|r| - 1].1
  }

  /** Sum over the listed categories of their totals in `ts`. */
  function SumOverCategories(ts: seq<Transaction>, cs: seq<string>, start: Option<DateTime>, end: Option<DateTime>): real
    decreases |cs|
  {
    if |cs| == 0 then 0.0
    else SumOverCategories(ts, cs[..|cs| - 1], start, end) + CategoryTotal(ts, cs[|cs| - 1], start, end)
  }

  /** A category with no counted expense totals zero. */
  lemma {:induction false} AbsentCategoryTotalsZero(ts: seq<Transaction>, c: string, start: Option<DateTime>, end: Option<DateTime>)
    requires c !in ExpenseCategories(ts, start, end)
    ensures CategoryTotal(ts, c, start, end) == 0.0
    decreases |ts|
  {
    if |ts| > 0 {
      var front := ts[..|ts| - 1];
      assert c !in ExpenseCategories(front, start, end);
      AbsentCategoryTotalsZero(front, c, start, end);
    }
  }

  /** Appending one transaction moves the sum over distinct categories by its
      amount exactly when it is a counted expense of one of them. */
  lemma {:induction false} SumOverCategoriesStep(ts: seq<Transaction>, t: Transaction, cs: seq<string>,
                                                 start: Option<DateTime>, end: Option<DateTime>)
    requires forall i, j :: 0 <= i < j < |cs| ==> cs[i] != cs[j]
    ensures SumOverCategories(ts + [t], cs, start, end) ==
      SumOverCategories(ts, cs, start, end)
      + (if Counts(t, Expense, start, end) && t.category in cs then t.amount else 0.0)
    decreases |cs|
  {
    assert (ts + [t])[..|ts|] == ts;
    if |cs| > 0 {
      var front := cs[..|cs| - 1];
      SumOverCategoriesStep(ts, t, front, start, end);
      assert t.category in cs <==> t.category in front || t.category == cs[|cs| - 1];
      assert cs[|cs| - 1] !in front;
    }
  }

  /** The category sums add up to the category-free sum of the counted expenses. */
  lemma {:induction false} CategoriesCoverExpenses(ts: seq<Transaction>, start: Option<DateTime>, end: Option<DateTime>)
    ensures SumOverCategories(ts, ExpenseCategories(ts, start, end), start, end) == TotalOf(ts, Expense, start, end)
    decreases |ts|
  {
    if |ts| > 0 {
      var front := ts[..|ts| - 1];
      var t := ts[|ts| - 1];
      assert ts == front + [t];
      var cs := ExpenseCategories(front, start, end);
      var all := ExpenseCategories(ts, start, end);
      var counted := Counts(t, Expense, start, end);
      CategoriesCoverExpenses(front, start, end);
      SumOverCategoriesStep(front, t, cs, start, end);
      assert TotalOf(ts, Expense, start, end) == TotalOf(front, Expense, start, end) + (if counted then t.amount else 0.0);
      if counted && t.category !in cs {
        assert all == cs + [t.category];
        AbsentCategoryTotalsZero(front, t.category, start, end);
        assert CategoryTotal(ts, t.category, start, end) == t.amount;
        assert all[..|cs|] == cs;
        assert SumOverCategories(ts, all, start, end)
            == SumOverCategories(ts, cs, start, end) + CategoryTotal(ts, t.category, start, end);
      } else {
        assert all == cs;
      }
    }
  }

  /** The entries add up as the categories do. */
  lemma {:induction false} SumEntriesOfCategories(ts: seq<Transaction>, cs: seq<string>, start: Option<DateTime>, end: Option<DateTime>)
    ensures SumEntries(seq(|cs|, i requires 0 <= i < |cs| => (cs[i], CategoryTotal(ts, cs[i], start, end))))
            == SumOverCategories(ts, cs, start, end)
    decreases |cs|
  {
    if |cs| > 0 {
      var front := cs[..|cs| - 1];
      SumEntriesOfCategories(ts, front, start, end);
      var r := seq(|cs|, i requires 0 <= i < |cs| => (cs[i], CategoryTotal(ts, cs[i], start, end)));
      var r' := seq(|front|, i requires 0 <= i < |front| => (front[i], CategoryTotal(ts, front[i], start, end)));
      assert r[..|r| - 1] == r';
    }
  }

  /** The per-category breakdown adds up to the total expenses over the same bounds. */
  lemma ExpensesByCategorySumToTotal(ts: seq<Transaction>, start: Option<DateTime>, end: Option<DateTime>)
    ensures SumEntries(GetExpensesByCategory(ts, start, end)) == TotalOf(ts, Expense, start, end)
  {
    var cs := ExpenseCategories(ts, start, end);
    SumEntriesOfCategories(ts, cs, start, end);
    CategoriesCoverExpenses(ts, start, end);
  }
}
