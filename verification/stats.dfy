/** `getMonthlyStats` of lib/inngest/function.js: the month's rows of a user
    folded into total expenses, total income, expenses per category and the
    row count. The rows are the `findMany` result, in the store's order. */
module MonthlyStats {
  import opened Results
  import opened CivilTime
  import opened Ledger
  import Budgets
  import Alerts

  datatype Stats = Stats(
    totalExpenses: int,
    totalIncome: int,
    byCategory: map<string, int>,
    transactionCount: nat)

  // ---------------------------------------------------------------------
  // Reference sums

  /** The EXPENSE amounts of `rows`. */
  function ExpenseSum(rows: seq<Transaction>): int {
    if |rows| == 0 then 0
    else ExpenseSum(rows[..|rows| - 1]) + (if rows[|rows| - 1].txType == Expense then rows[|rows| - 1].amount else 0)
  }

  /** The amounts of every row that is not an EXPENSE. */
  function IncomeSum(rows: seq<Transaction>): int {
    if |rows| == 0 then 0
    else IncomeSum(rows[..|rows| - 1]) + (if rows[|rows| - 1].txType == Expense then 0 else rows[|rows| - 1].amount)
  }

  predicate IsExpenseIn(t: Transaction, c: string) {
    t.txType == Expense && t.category == c
  }

  /** The EXPENSE amounts of `rows` filed under category `c`. */
  function CategorySum(rows: seq<Transaction>, c: string): int {
    if |rows| == 0 then 0
    else CategorySum(rows[..|rows| - 1], c) + (if IsExpenseIn(rows[|rows| - 1], c) then rows[|rows| - 1].amount else 0)
  }

  /** Some EXPENSE row of `rows` is filed under `c`. */
  predicate HasExpenseIn(rows: seq<Transaction>, c: string) {
    exists i :: 0 <= i < |rows| && IsExpenseIn(rows[i], c)
  }

  /** A map that has a key for each expense category and holds that
      category's sum. */
  ghost predicate IsCategoryTable(rows: seq<Transaction>, m: map<string, int>) {
    && (forall c :: c in m <==> HasExpenseIn(rows, c))
    && (forall c :: c in m ==> m[c] == CategorySum(rows, c))
  }

  // ---------------------------------------------------------------------
  // The fold

  lemma HasExpenseInStep(rows: seq<Transaction>, c: string)
    requires |rows| > 0
    ensures HasExpenseIn(rows, c) <==> HasExpenseIn(rows[..|rows| - 1], c) || IsExpenseIn(rows[|rows| - 1], c)
  {
    var p := rows[..|rows| - 1];
    if HasExpenseIn(rows, c) && !IsExpenseIn(rows[|rows| - 1], c) {
      var i :| 0 <= i < |rows| && IsExpenseIn(rows[i], c);
      assert p[i] == rows[i];
    }
    if HasExpenseIn(p, c) {
      var i :| 0 <= i < |p| && IsExpenseIn(p[i], c);
      assert rows[i] == p[i];
    }
  }

  /** A category with no EXPENSE row sums to zero. */
  lemma {:induction false} NoExpenseSumsToZero(rows: seq<Transaction>, c: string)
    requires !HasExpenseIn(rows, c)
    ensures CategorySum(rows, c) == 0
    decreases |rows|
  {
    if |rows| > 0 {
      HasExpenseInStep(rows, c);
      NoExpenseSumsToZero(rows[..|rows| - 1], c);
    }
  }

  /** One step of the reducer keeps the table right. */
  lemma CategoryTableStep(rows: seq<Transaction>, m: map<string, int>, t: Transaction)
    requires IsCategoryTable(rows, m)
    ensures t.txType == Expense ==>
              IsCategoryTable(rows + [t], m[t.category := (if t.category in m then m[t.category] else 0) + t.amount])
    ensures t.txType != Expense ==> IsCategoryTable(rows + [t], m)
  {
    var rows' := rows + [t];
    assert rows'[..|rows'| - 1] == rows;
    forall c
      ensures HasExpenseIn(rows', c) <==> HasExpenseIn(rows, c) || IsExpenseIn(t, c)
    {
      HasExpenseInStep(rows', c);
    }
    if t.category !in m {
      NoExpenseSumsToZero(rows, t.category);
    }
  }

  /** The reduce. */
  method GetMonthlyStats(rows: seq<Transaction>) returns (s: Stats)
    ensures s.totalExpenses == ExpenseSum(rows)
    ensures s.totalIncome == IncomeSum(rows)
    ensures s.transactionCount == |rows|
    ensures IsCategoryTable(rows, s.byCategory)
    ensures SumValues(s.byCategory) == s.totalExpenses
  {
    s := Stats(0, 0, map[], |rows|);
    var i := 0;
    while i < |rows|
      invariant 0 <= i <= |rows|
      invariant s.totalExpenses == ExpenseSum(rows[..i])
      invariant s.totalIncome == IncomeSum(rows[..i])
      invariant s.transactionCount == |rows|
      invariant IsCategoryTable(rows[..i], s.byCategory)
    {
      var t := rows[i];
      assert rows[..i + 1] == rows[..i] + [t];
      CategoryTableStep(rows[..i], s.byCategory, t);
      if t.txType == Expense {
        var prev := if t.category in s.byCategory then s.byCategory[t.category] else 0;
        s := s.(totalExpenses := s.totalExpenses + t.amount,
                byCategory := s.byCategory[t.category := prev + t.amount]);
      } else {
        s := s.(totalIncome := s.totalIncome + t.amount);
      }
      i := i + 1;
    }
    assert rows[..i] == rows;
    CategoryTableSum(rows, s.byCategory);
  }

  // ---------------------------------------------------------------------
  // The categories add up to the expenses

  /** Taking the last row off the table. */
  function DropLast(rows: seq<Transaction>, m: map<string, int>): map<string, int>
    requires |rows| > 0
  {
    var t := rows[|rows| - 1];
    var p := rows[..|rows| - 1];
    if t.txType != Expense then m
    else if HasExpenseIn(p, t.category) then m[t.category := CategorySum(p, t.category)]
    else m - {t.category}
  }

  lemma DropLastIsTable(rows: seq<Transaction>, m: map<string, int>)
    requires |rows| > 0 && IsCategoryTable(rows, m)
    ensures IsCategoryTable(rows[..|rows| - 1], DropLast(rows, m))
  {
    forall c {
      HasExpenseInStep(rows, c);
    }
  }

  /** Every table of a list of rows sums to the list's expenses. */
  lemma {:induction false} CategoryTableSum(rows: seq<Transaction>, m: map<string, int>)
    requires IsCategoryTable(rows, m)
    ensures SumValues(m) == ExpenseSum(rows)
    decreases |rows|
  {
    if |rows| == 0 {
      assert m == map[];
    } else {
      var t := rows[|rows| - 1];
      var p := rows[..|rows| - 1];
      var m' := DropLast(rows, m);
      DropLastIsTable(rows, m);
      CategoryTableSum(p, m');
      if t.txType == Expense {
        HasExpenseInStep(rows, t.category);
        if HasExpenseIn(p, t.category) {
          SumValuesPut(m', t.category, m[t.category]);
          assert m'[t.category := m[t.category]] == m;
        } else {
          NoExpenseSumsToZero(p, t.category);
          SumValuesPut(m', t.category, m[t.category]);
          assert m'[t.category := m[t.category]] == m;
        }
      }
    }
  }

  // ---------------------------------------------------------------------
  // The month the rows are read from

  /** `lte: new Date(y, m + 1, 0)` reads the last day of the month at
      midnight, as written. */
  predicate InStatsWindow(month: DateTime, t: DateTime)
    requires Valid(month)
  {
    var end := Budgets.MonthEnd(month);
    NotAfter(Budgets.MonthStart(month), t) && NotAfter(t, DateTime(end.date, 0))
  }

  /** As written, a row dated on the last day of the month after midnight is
      left out of that month's report. */
  lemma StatsWindowMissesLastDay(y: int, m: Month, ms: MsOfDay)
    requires ms > 0
    ensures var month := DateTime(Date(y, m, 1), 0);
            !InStatsWindow(month, DateTime(Date(y, m, DaysInMonth(y, m)), ms))
  {
  }

  /** The window the report is for: the whole calendar month. */
  predicate InStatsWindowCorrected(month: DateTime, t: DateTime) {
    Alerts.MonthIndex(t) == Alerts.MonthIndex(month)
  }

  /** The corrected window is the as-written one plus the rest of the last
      day. */
  lemma StatsWindowCorrected(month: DateTime, t: DateTime)
    requires Valid(month) && Valid(t)
    ensures InStatsWindowCorrected(month, t) <==>
              InStatsWindow(month, t) || (Alerts.MonthIndex(t) == Alerts.MonthIndex(month)
                                          && t.date.day == DaysInMonth(month.date.year, month.date.month))
  {
    var y, m := month.date.year, month.date.month;
    var first := DayFromYear(y) + DaysBeforeMonth(y, m);
    Budgets.InMonthDays(t.date, y, m);
    Alerts.MonthIndexSame(t, month);
    assert TimeValue(Budgets.MonthStart(month)) == first * MsPerDay;
    assert DayNumber(Budgets.MonthEnd(month).date) == first + DaysInMonth(y, m) - 1;
  }
}
