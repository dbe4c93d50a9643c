/** The budget server actions of actions/budget.js: `updateBudget`, an
    upsert of the user's single monthly budget, and `getCurrentBudget`,
    which reports that budget with the user's expenses of the current
    calendar month. */
module Budgets {
  import opened Results
  import opened CivilTime
  import opened Ledger
  import Recurrence

  // ---------------------------------------------------------------------
  // updateBudget

  /** `budget.upsert({ where: { userId }, update: { amount },
      create: { userId, amount } })`. An existing budget keeps its id and
      the time of its last alert; a new one gets the store's fresh id and no
      alert yet. */
  function UpdateBudget(db: Db, user: Id, newId: Id, amount: int): (r: Reply<Budget>)
    ensures r.db.budgets.Keys == db.budgets.Keys + {user}
    ensures r.result.Ok? && r.result.value == r.db.budgets[user]
    ensures r.result.value.amount == amount
    ensures user in db.budgets ==>
              && r.result.value.id == db.budgets[user].id
              && r.result.value.userId == db.budgets[user].userId
              && r.result.value.lastAlertSent == db.budgets[user].lastAlertSent
    ensures user !in db.budgets ==> r.result.value == Budget(newId, user, amount, None)
    ensures forall u :: u in db.budgets && u != user ==> r.db.budgets[u] == db.budgets[u]
    ensures r.db.accounts == db.accounts && r.db.transactions == db.transactions
  {
    var b := if user in db.budgets then db.budgets[user].(amount := amount)
             else Budget(newId, user, amount, None);
    Reply(db.(budgets := db.budgets[user := b]), Ok(b))
  }

  /** Saving twice leaves what saving the second amount once leaves: the
      upsert never creates a second budget for a user. */
  lemma UpdateBudgetLastWins(db: Db, user: Id, id1: Id, id2: Id, a1: int, a2: int)
    ensures UpdateBudget(UpdateBudget(db, user, id1, a1).db, user, id2, a2)
            == UpdateBudget(db, user, id1, a2)
  {
    var once := UpdateBudget(db, user, id1, a2);
    var twice := UpdateBudget(UpdateBudget(db, user, id1, a1).db, user, id2, a2);
    assert twice.db.budgets == once.db.budgets;
  }

  /** The stored budget keeps its owner: a well-formed store stays so. */
  lemma UpdateBudgetWellFormed(db: Db, user: Id, newId: Id, amount: int)
    requires WellFormed(db)
    ensures WellFormed(UpdateBudget(db, user, newId, amount).db)
  {
  }

  // ---------------------------------------------------------------------
  // The month window of getCurrentBudget

  /** 23:59:59.000, the time of day the window ends at. */
  const EndOfDayMs: int := 23 * 3600000 + 59 * 60000 + 59 * 1000

  /** `new Date(y, m, 1, 0, 0, 0)` for the year and month of `now`. */
  function MonthStart(now: DateTime): (r: DateTime)
    requires Valid(now)
    ensures Valid(r) && r == DateTime(Date(now.date.year, now.date.month, 1), 0)
  {
    var d := MakeDay(GetFullYear(now), GetMonth(now), 1);
    DayNumberInjective(d, Date(now.date.year, now.date.month, 1));
    DateTime(d, 0)
  }

  /** `new Date(y, m + 1, 0, 23, 59, 59)`: day zero of the next month is the
      last day of this one. */
  function MonthEnd(now: DateTime): (r: DateTime)
    requires Valid(now)
    ensures Valid(r)
    ensures r == DateTime(Date(now.date.year, now.date.month, DaysInMonth(now.date.year, now.date.month)), EndOfDayMs)
  {
    var y, m := now.date.year, now.date.month;
    var d := MakeDay(GetFullYear(now), GetMonth(now) + 1, 0);
    Recurrence.NextMonthIsMakeDayCarry(y, m);
    DayNumberInjective(d, Date(y, m, DaysInMonth(y, m)));
    DateTime(d, EndOfDayMs)
  }

  /** The last day of the year is the last day of December. */
  lemma DecemberEndsYear(y: int)
    ensures DaysBeforeMonth(y, 12) + DaysInMonth(y, 12) == DaysInYear(y)
  {
  }

  /** A valid date falls in the day numbers of month `m` of year `y` exactly
      when it is a date of that month. */
  lemma InMonthDays(d: Date, y: int, m: Month)
    requires ValidDate(d)
    ensures var first := DayFromYear(y) + DaysBeforeMonth(y, m);
            first <= DayNumber(d) < first + DaysInMonth(y, m) <==> d.year == y && d.month == m
  {
    var first := DayFromYear(y) + DaysBeforeMonth(y, m);
    DecemberEndsYear(y);
    DecemberEndsYear(d.year);
    if d.year < y {
      YearLowerBound(d.year, y);
      if d.month < 12 { MonthLowerBound(d.year, d.month, 12); }
    } else if y < d.year {
      YearLowerBound(y, d.year);
      if m < 12 { MonthLowerBound(y, m, 12); }
    } else if d.month < m {
      MonthLowerBound(y, d.month, m);
    } else if m < d.month {
      MonthLowerBound(y, m, d.month);
    }
  }

  /** The window `gte startOfMonth, lte endOfMonth` holds every moment of the
      current calendar month except the last 999 milliseconds of its last
      day, and nothing outside the month. */
  lemma MonthWindow(now: DateTime, t: DateTime)
    requires Valid(now) && Valid(t)
    ensures NotAfter(MonthStart(now), t) && NotAfter(t, MonthEnd(now))
            <==> && t.date.year == now.date.year && t.date.month == now.date.month
                 && !(t.date.day == DaysInMonth(now.date.year, now.date.month) && t.msOfDay > EndOfDayMs)
  {
    var y, m := now.date.year, now.date.month;
    var first := DayFromYear(y) + DaysBeforeMonth(y, m);
    InMonthDays(t.date, y, m);
    assert DayNumber(MonthStart(now).date) == first;
    assert DayNumber(MonthEnd(now).date) == first + DaysInMonth(y, m) - 1;
    if t.date.year == y && t.date.month == m {
      assert (t.date.day == DaysInMonth(y, m)) == (DayNumber(t.date) == first + DaysInMonth(y, m) - 1);
    }
  }

  /** A purchase at 23:59:59.500 on the last day of the month is left out of
      the month's expenses. */
  lemma LastSecondLeftOut(y: int, m: Month)
    ensures var now := DateTime(Date(y, m, 1), 0);
            !NotAfter(DateTime(Date(y, m, DaysInMonth(y, m)), EndOfDayMs + 500), MonthEnd(now))
  {
  }

  // ---------------------------------------------------------------------
  // getCurrentBudget

  /** `...(accountId && { accountId })`: the account filter applies only to
      a given, non-empty id. */
  function AccountFilter(accountId: Option<Id>): (r: Option<Id>)
    ensures r.Some? <==> accountId.Some? && accountId.value != ""
    ensures r.Some? ==> r == accountId
  {
    match accountId
    case Some(a) => if a == "" then None else Some(a)
    case None => None
  }

  /** The EXPENSE amounts `getCurrentBudget` adds up. */
  function MonthExpenses(user: Id, accountId: Option<Id>, now: DateTime): Measure
    requires Valid(now)
  {
    ExpensesOf(user, AccountFilter(accountId), MonthStart(now), Some(MonthEnd(now)))
  }

  /** What `getCurrentBudget` returns: the budget (or null) and the month's
      expenses. */
  datatype BudgetView = BudgetView(budget: Option<Budget>, currentExpenses: int)

  /** The type error `budget.amount` raises when the user has no budget. */
  const NullBudget: string := "Cannot read properties of null (reading 'amount')"

  /** The outcome of `getCurrentBudget` once the budget and the sum are read:
      the percentage is computed from `budget.amount` before the null check
      of the return statement, so a user without a budget gets the error. */
  function CurrentBudgetOutcome(budget: Option<Budget>, expenses: int): (r: Result<BudgetView>)
    ensures r.Err? <==> budget.None?
    ensures r.Ok? ==> r.value == BudgetView(budget, expenses)
  {
    match budget
    case None => Err(NullBudget)
    case Some(b) => Ok(BudgetView(budget, expenses))
  }

  /** The outcome the return statement's `budget ? … : null` is written
      for: no budget is reported as null. */
  function CurrentBudgetOutcomeGuarded(budget: Option<Budget>, expenses: int): (r: Result<BudgetView>)
    ensures r == Ok(BudgetView(budget, expenses))
  {
    Ok(BudgetView(budget, expenses))
  }

  /** A user without a budget: the code as written throws, the guarded
      version reports null and the expenses. */
  lemma NoBudgetThrows(expenses: int)
    ensures CurrentBudgetOutcome(None, expenses).Err?
    ensures CurrentBudgetOutcomeGuarded(None, expenses).value.budget.None?
  {
  }

  /** The two agree for every user who has a budget. */
  lemma GuardedAgrees(b: Budget, expenses: int)
    ensures CurrentBudgetOutcome(Some(b), expenses) == CurrentBudgetOutcomeGuarded(Some(b), expenses)
  {
  }

  function BudgetOf(db: Db, user: Id): Option<Budget> {
    if user in db.budgets then Some(db.budgets[user]) else None
  }

  /** `getCurrentBudget(accountId)` as written. */
  method GetCurrentBudget(db: Db, user: Id, accountId: Option<Id>, now: DateTime) returns (r: Result<BudgetView>)
    requires Valid(now)
    ensures r.Err? <==> user !in db.budgets
    ensures r.Ok? ==> r.value.budget == Some(db.budgets[user])
    ensures r.Ok? ==> r.value.currentExpenses == Total(db.transactions, MonthExpenses(user, accountId, now))
  {
    var expenses := SumMeasure(db.transactions, MonthExpenses(user, accountId, now));
    r := CurrentBudgetOutcome(BudgetOf(db, user), expenses);
  }

  /** `getCurrentBudget(accountId)` with the null budget guarded. */
  method GetCurrentBudgetGuarded(db: Db, user: Id, accountId: Option<Id>, now: DateTime) returns (r: BudgetView)
    requires Valid(now)
    ensures r.budget == BudgetOf(db, user)
    ensures r.currentExpenses == Total(db.transactions, MonthExpenses(user, accountId, now))
  {
    var expenses := SumMeasure(db.transactions, MonthExpenses(user, accountId, now));
    r := CurrentBudgetOutcomeGuarded(BudgetOf(db, user), expenses).value;
  }

  /** A row adds its amount to the month's expenses exactly when it is the
      caller's own EXPENSE, dated in the current month but not after
      23:59:59 on its last day, and on the chosen account when one is given;
      any other row adds nothing. */
  lemma MonthExpensesCounts(user: Id, accountId: Option<Id>, now: DateTime, t: Transaction)
    requires Valid(now) && Valid(t.date)
    ensures Weight(MonthExpenses(user, accountId, now), t)
            == if && t.userId == user && t.txType == Expense
                  && t.date.date.year == now.date.year && t.date.date.month == now.date.month
                  && !(t.date.date.day == DaysInMonth(now.date.year, now.date.month)
                       && t.date.msOfDay > EndOfDayMs)
                  && (accountId.Some? && accountId.value != "" ==> t.accountId == accountId.value)
               then t.amount else 0
  {
    MonthWindow(now, t.date);
  }
}
