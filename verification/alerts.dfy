/** The budget alert of lib/inngest/function.js (`checkBudgetAlerts` and
    `isNewMonth`): for each budget whose owner has a default account, the
    month's expenses on that account are compared with 80% of the budget,
    and an alert is sent at most once per calendar month. Sending the email
    is reduced to the fact that it was attempted. */
module Alerts {
  import opened Results
  import opened CivilTime
  import opened Ledger
  import Budgets

  // ---------------------------------------------------------------------
  // isNewMonth

  /** `isNewMonth(lastAlertDate, currentDate)`. */
  predicate IsNewMonth(last: DateTime, current: DateTime) {
    GetMonth(last) != GetMonth(current) || GetFullYear(last) != GetFullYear(current)
  }

  /** Months counted from year zero: one number per calendar month. */
  function MonthIndex(t: DateTime): int {
    12 * t.date.year + t.date.month - 1
  }

  /** Equal month numbers are equal years and months. */
  lemma MonthIndexSame(a: DateTime, b: DateTime)
    ensures MonthIndex(a) == MonthIndex(b) <==> a.date.year == b.date.year && a.date.month == b.date.month
  {
  }

  /** Two times lie in different calendar months exactly when their month
      numbers differ. */
  lemma IsNewMonthIndex(last: DateTime, current: DateTime)
    ensures IsNewMonth(last, current) <==> MonthIndex(last) != MonthIndex(current)
  {
    MonthIndexSame(last, current);
  }

  // ---------------------------------------------------------------------
  // The expense window

  /** `startDate = new Date(); startDate.setDate(1)`: the first of the month,
      but at the time of day of the run. */
  function AlertWindowStart(now: DateTime): (r: DateTime)
    requires Valid(now)
    ensures r == DateTime(Date(now.date.year, now.date.month, 1), now.msOfDay)
  {
    var r := SetDate(now, 1);
    DayNumberInjective(r.date, Date(now.date.year, now.date.month, 1));
    r
  }

  /** As written, the window starts at the run's time of day: a purchase
      dated at midnight on the first of the month is not counted by any run
      later that month that does not itself happen at midnight. */
  lemma AlertWindowSkipsFirstMidnight(y: int, m: Month, day: int, ms: MsOfDay)
    requires 1 <= day <= DaysInMonth(y, m) && ms > 0
    ensures var now := DateTime(Date(y, m, day), ms);
            !NotAfter(AlertWindowStart(now), DateTime(Date(y, m, 1), 0))
  {
  }

  /** As written, a moment of the month up to now is counted unless it
      falls on the first of the month before the run's time of day. */
  lemma AlertWindowAsWritten(now: DateTime, t: DateTime)
    requires Valid(now) && Valid(t) && NotAfter(t, now)
    ensures NotAfter(AlertWindowStart(now), t)
            <==> MonthIndex(t) == MonthIndex(now) && (t.date.day > 1 || t.msOfDay >= now.msOfDay)
  {
    var y, m := now.date.year, now.date.month;
    var first := DayFromYear(y) + DaysBeforeMonth(y, m);
    Budgets.InMonthDays(t.date, y, m);
    Budgets.InMonthDays(now.date, y, m);
    MonthIndexSame(t, now);
    assert TimeValue(AlertWindowStart(now)) == first * MsPerDay + now.msOfDay;
  }

  /** The window the comment "Start of current month" describes: the first
      of the month at midnight, as `getCurrentBudget` computes it. */
  function AlertWindowStartCorrected(now: DateTime): (r: DateTime)
    requires Valid(now)
    ensures r == DateTime(Date(now.date.year, now.date.month, 1), 0)
  {
    Budgets.MonthStart(now)
  }

  /** The corrected window holds every moment of the current month up to
      now, and nothing of an earlier month. */
  lemma AlertWindowCorrectedCoversMonth(now: DateTime, t: DateTime)
    requires Valid(now) && Valid(t) && NotAfter(t, now)
    ensures NotAfter(AlertWindowStartCorrected(now), t) <==> MonthIndex(t) == MonthIndex(now)
  {
    var y, m := now.date.year, now.date.month;
    var first := DayFromYear(y) + DaysBeforeMonth(y, m);
    Budgets.InMonthDays(t.date, y, m);
    Budgets.InMonthDays(now.date, y, m);
    MonthIndexSame(t, now);
    assert TimeValue(AlertWindowStartCorrected(now)) == first * MsPerDay;
  }

  /** The expenses the alert compares: the owner's EXPENSE rows on the
      default account dated from the window start on, with no upper bound. */
  function AlertExpenses(user: Id, account: Id, start: DateTime): Measure {
    ExpensesOf(user, Some(account), start, None)
  }

  // ---------------------------------------------------------------------
  // The threshold

  /** `(totalExpenses / budgetAmount) * 100 >= 80` in IEEE arithmetic,
      compared by cross-multiplication. A zero budget gives +Infinity for
      positive expenses, NaN for none and -Infinity for negative ones; a
      negative budget flips the inequality. */
  predicate Over80(expenses: int, budget: int) {
    if budget > 0 then 100 * expenses >= 80 * budget
    else if budget == 0 then expenses > 0
    else 100 * expenses <= 80 * budget
  }

  /** Multiplying by a positive number keeps the sign. */
  lemma PositiveFactorKeepsSign(x: real, b: real)
    requires b > 0.0
    ensures x >= 0.0 <==> x * b >= 0.0
  {
    if x < 0.0 {
      assert x * b == -((-x) * b);
    }
  }

  /** The percentage test is the cross-multiplied one, with the inequality
      kept for a positive budget and flipped for a negative one. */
  lemma PercentageCrossMultiplied(e: real, b: real)
    requires b != 0.0
    ensures b > 0.0 ==> ((e / b) * 100.0 >= 80.0 <==> 100.0 * e >= 80.0 * b)
    ensures b < 0.0 ==> ((e / b) * 100.0 >= 80.0 <==> 100.0 * e <= 80.0 * b)
  {
    var q := e / b;
    assert q * b == e;
    if b > 0.0 {
      assert 100.0 * e - 80.0 * b == (q * 100.0 - 80.0) * b;
      PositiveFactorKeepsSign(q * 100.0 - 80.0, b);
    } else {
      assert 80.0 * b - 100.0 * e == (q * 100.0 - 80.0) * (-b);
      PositiveFactorKeepsSign(q * 100.0 - 80.0, -b);
    }
  }

  /** For a non-zero budget the cross-multiplied test is the percentage test
      over the reals. */
  lemma Over80IsPercentage(expenses: int, budget: int)
    requires budget != 0
    ensures Over80(expenses, budget) <==> (expenses as real / budget as real) * 100.0 >= 80.0
  {
    PercentageCrossMultiplied(expenses as real, budget as real);
  }

  /** The rest of the gate: never alerted, or last alerted in another
      calendar month. */
  predicate AlertRearmed(b: Budget, now: DateTime) {
    b.lastAlertSent.None? || IsNewMonth(b.lastAlertSent.value, now)
  }

  // ---------------------------------------------------------------------
  // One budget

  /** What checking one budget did: the store afterwards and whether the
      alert email was attempted. */
  datatype AlertStep = AlertStep(db: Db, sent: bool)

  /** `budget.user.accounts[0]` of the `isDefault: true` include: some
      default account of the owner, or none. */
  predicate DefaultPick(db: Db, user: Id, pick: Option<Id>) {
    match pick
    case None => DefaultsOf(db.accounts, user) == {}
    case Some(a) => a in DefaultsOf(db.accounts, user)
  }

  /** The alert condition for the budget of `user`: a default account, at
      least 80% of the budget spent on it this month, and the gate re-armed. */
  ghost predicate AlertGate(db: Db, user: Id, pick: Option<Id>, now: DateTime)
    requires Valid(now) && user in db.budgets
  {
    && pick.Some?
    && Over80(Total(db.transactions, AlertExpenses(user, pick.value, AlertWindowStart(now))),
              db.budgets[user].amount)
    && AlertRearmed(db.budgets[user], now)
  }

  /** The step for the budget of `user`. An owner without a default account
      is skipped. The alert is recorded whatever `sendEmail` reports, since
      it reports failure by its return value, which is not looked at. */
  method CheckBudgetAlert(db: Db, user: Id, pick: Option<Id>, now: DateTime) returns (r: AlertStep)
    requires Valid(now) && user in db.budgets
    requires DefaultPick(db, user, pick)
    ensures r.sent <==> AlertGate(db, user, pick, now)
    ensures r.sent ==> r.db == db.(budgets := db.budgets[user := db.budgets[user].(lastAlertSent := Some(now))])
    ensures !r.sent ==> r.db == db
  {
    var b := db.budgets[user];
    match pick {
      case None =>
        r := AlertStep(db, false);
      case Some(account) =>
        var expenses := SumMeasure(db.transactions, AlertExpenses(user, account, AlertWindowStart(now)));
        if Over80(expenses, b.amount) && AlertRearmed(b, now) {
          r := AlertStep(db.(budgets := db.budgets[user := b.(lastAlertSent := Some(now))]), true);
        } else {
          r := AlertStep(db, false);
        }
    }
  }

  /** `checkBudgetAlerts` at `now`: every budget is checked once, against
      the budgets as fetched at the start; `picks` holds each owner's
      default-account pick. Each step writes only its own budget, so the
      order of the budgets does not matter. */
  method CheckBudgetAlerts(db: Db, picks: map<Id, Option<Id>>, now: DateTime) returns (r: Db, alerted: set<Id>)
    requires Valid(now)
    requires forall u :: u in db.budgets ==> u in picks && DefaultPick(db, u, picks[u])
    ensures r.accounts == db.accounts && r.transactions == db.transactions
    ensures r.budgets.Keys == db.budgets.Keys
    ensures forall u :: u in alerted <==> u in db.budgets && AlertGate(db, u, picks[u], now)
    ensures forall u :: u in db.budgets ==>
              r.budgets[u] == if u in alerted then db.budgets[u].(lastAlertSent := Some(now)) else db.budgets[u]
  {
    var rest := db.budgets.Keys;
    ghost var done: set<Id> := {};
    r := db;
    alerted := {};
    while rest != {}
      invariant done !! rest && done + rest == db.budgets.Keys
      invariant r.accounts == db.accounts && r.transactions == db.transactions
      invariant r.budgets.Keys == db.budgets.Keys
      invariant forall u :: u in rest ==> r.budgets[u] == db.budgets[u]
      invariant forall u :: u in alerted <==> u in done && AlertGate(db, u, picks[u], now)
      invariant forall u :: u in done ==>
                  r.budgets[u] == if u in alerted then db.budgets[u].(lastAlertSent := Some(now)) else db.budgets[u]
      decreases rest
    {
      var u :| u in rest;
      assert AlertGate(r, u, picks[u], now) == AlertGate(db, u, picks[u], now);
      var step := CheckBudgetAlert(r, u, picks[u], now);
      if step.sent {
        alerted := alerted + {u};
      }
      r := step.db;
      rest := rest - {u};
      done := done + {u};
    }
  }

  /** Once an alert went out at `sentAt`, the gate stays shut for the rest of
      that calendar month and opens again in any other month. */
  lemma AlertOncePerMonth(b: Budget, sentAt: DateTime, later: DateTime)
    ensures AlertRearmed(b.(lastAlertSent := Some(sentAt)), later) <==> MonthIndex(sentAt) != MonthIndex(later)
  {
    IsNewMonthIndex(sentAt, later);
  }

  /** A second check in the same month sends nothing, whatever the expenses
      have grown to. */
  lemma SecondCheckSameMonthSilent(b: Budget, sentAt: DateTime, later: DateTime)
    requires MonthIndex(sentAt) == MonthIndex(later)
    ensures !AlertRearmed(b.(lastAlertSent := Some(sentAt)), later)
  {
    AlertOncePerMonth(b, sentAt, later);
  }
}
