# Finexa bookkeeping and scheduling core in Dafny

This project models the server-side core of Finexa, a personal-finance
application. The core covers five things:

- **Ledger reconciliation.** Creating, updating and bulk-deleting
  transactions each move the cached `balance` of an account. An EXPENSE
  counts as minus its amount and an INCOME as plus its amount. The
  invariant is `balance == opening balance + Σ signed(tx)` over the
  account's live transactions (`Ledger.Reconciled`).
- **Default-account flag.** This covers `createAccount` and
  `updateDefaultAccount`, including the non-atomic failure path of the
  latter.
- **Recurring-transaction scheduler.** It consists of:
  - the due predicate;
  - date advancement through the JavaScript `Date` setters, normalised as
    section 21.4.1 of ECMA-262 (MakeDay/MakeDate) does;
  - the sweep that emits one event per due template;
  - the per-event processor that books a copy and advances the template.
- **Budgets.** This covers:
  - the `updateBudget` upsert;
  - the month window, expense sum and null dereference of
    `getCurrentBudget`;
  - the 80% alert gate with its once-per-calendar-month rule;
  - the `getMonthlyStats` fold.
- **Input validation.** These are the zod schemas `accountSchema` and
  `transactionSchema`, with the `superRefine` rule.

Modules, one per file:

| Module | File |
|---|---|
| `Results` | `results.dfy` |
| `CivilTime` | `civil_time.dfy` |
| `Recurrence` | `recurrence.dfy` |
| `Ledger` | `ledger.dfy` |
| `Transactions` | `transactions.dfy` |
| `Accounts` | `accounts.dfy` |
| `Money` | `money.dfy` |
| `Dashboard` | `dashboard.dfy` |
| `Budgets` | `budgets.dfy` |
| `Scheduler` | `scheduler.dfy` |
| `Alerts` | `alerts.dfy` |
| `MonthlyStats` | `stats.dfy` |
| `Schema` | `schema.dfy` |

The database is an immutable record of three maps: accounts and
transactions keyed by id, and budgets keyed by user id. Every server action
is a pure function from the database to a `Reply(db, result)`, so a failed
action can be seen to leave the database alone. Money is whole cents. A
point in time is a civil date plus milliseconds of the day. Its time value
is `DayNumber * 86400000 + ms`. `CivilTime.DayFromYearIsEcma` proves that
the day count agrees with the closed formula of ECMA-262 section 21.4.1.3.

The caller's user id, the clock (`now`) and the ids the database would
generate are all parameters. Each Prisma `$transaction` block is one
atomic state change.

Behaviour of the code that a reader might not expect, which the model keeps:

- A budget of zero alerts on any positive expense, because the division
  gives +Infinity.
- `lastAlertSent` is written even when the email fails. `sendEmail`
  reports failure through its return value, and nobody looks at it.
- "At most one default before `createAccount` means exactly one after" is
  false for a user with accounts but no default who adds a non-default
  account (`Dashboard.CreateAccountKeepsZeroDefaults`). It holds under the
  conditions of `Dashboard.CreateAccountExactlyOneDefault`.
- The sweep and the due predicate disagree about a processed template with
  no next date (`Scheduler.DueButNotSwept`).
- A template without an interval is booked again when its event is
  delivered a second time (`Scheduler.NoIntervalProcessesTwice`).

## Model

| member | source | states |
|---|---|---|
| CivilTime.DayFromYearIsEcma | lib/inngest/function.js:313-330 | the year-by-year day count under the `Date` setters equals the ECMA-262 closed formula for the first day of every year |
| CivilTime.SetDate | lib/inngest/function.js:316-317 | `setDate(dt)` keeps the time of day and lands exactly `dt - 1` days after the first of the same month, rolling into later or earlier months |
| CivilTime.SetFullYear | lib/inngest/function.js:325-326 | `setFullYear(y)` keeps month, day and time of day as a day offset into year `y`, rolling Feb 29 forward when `y` is not leap |
| CivilTime.SetMonth | lib/inngest/function.js:322-323 | `setMonth(m0)` keeps the time of day and lands `day - 1` days after the first of month `m0`, a month outside 0..11 carrying into the year |
| CivilTime.Normalize | lib/inngest/function.js:322-323 | normalising an overflowing (year, month, day) yields a valid date with the day number the overflow denotes |
| CivilTime.NormalizeValid | lib/inngest/function.js:313-330 | a valid civil date is left unchanged by normalisation |
| CivilTime.DayNumberInjective | lib/inngest/function.js:313-330 | two valid dates with the same day number are the same date, so a `Date` is determined by its time value |
| Recurrence.AddDays | lib/inngest/function.js:316-321 | adding k days keeps the time of day and moves the day number by exactly k |
| Recurrence.AddMonth | lib/inngest/function.js:322-324 | month+1 keeps the time of day, is the normalised date one month on, and lies exactly "days in the current month" later |
| Recurrence.AddYear | lib/inngest/function.js:325-327 | year+1 keeps the time of day, is the normalised date one year on, and lies 365 or 366 days later |
| Recurrence.NextRecurringDate | lib/inngest/function.js:313-330 | DAILY is +1 day and WEEKLY +7 days; MONTHLY and YEARLY are as above; a missing interval returns the date unchanged; every known interval moves strictly forward |
| Recurrence.MonthlyCivilDate | lib/inngest/function.js:322-324 | monthly advance gives the same day of the next month when it exists, otherwise it rolls into the month after |
| Recurrence.YearlyCivilDate | lib/inngest/function.js:325-327 | yearly advance gives the same month and day next year, except Feb 29 which becomes Mar 1 |
| Recurrence.JanuaryThirtyFirstPlusOneMonth | lib/inngest/function.js:322-324 | Jan 31 plus one month is Mar 3, or Mar 2 in a leap year |
| Recurrence.LeapDayPlusOneYear | lib/inngest/function.js:325-327 | Feb 29 plus one year is Mar 1 |
| Transactions.CalculateNextRecurringDate | actions/transaction.js:297-316 | the copy in the transaction actions, written with the setters, agrees with the scheduler's advancement on every input |
| Transactions.ScheduledNext | actions/transaction.js:78-81 | a next date is stored iff the row is recurring with an interval; it is the advanced date and lies strictly after the row's date |
| Transactions.CreateTransaction | actions/transaction.js:57-89 | fails with "Account not found" and writes nothing iff the account is not the caller's; otherwise stores a row holding the form's fields, owned by the caller, never processed, with next date `ScheduledNext(data)`, and moves only that account, by −amount for EXPENSE and +amount for INCOME |
| Transactions.CreatePreservesReconciled | actions/transaction.js:69-89 | creating a transaction keeps every account reconciled |
| Transactions.CreatedRowOwnedByCaller | actions/transaction.js:113-120 | after a successful create, `getTransaction` on the new id returns the stored row to its owner and "Transaction not found" to every other user |
| Transactions.UpdateTransaction | actions/transaction.js:137-184 | fails and writes nothing for an absent or foreign row; otherwise replaces the row by the edited one (form fields written, an absent description or interval kept, next date `ScheduledNext(data)`) and adds newSigned − oldSigned to the balance of `data.accountId`, every other field of that account and every other account kept |
| Transactions.Edited | actions/transaction.js:162-173 | the `...data` update writes every given form field, keeps the stored description or interval when the form leaves it out, keeps owner, status and last-processed, and sets the next date to the schedule of the form |
| Transactions.UpdateSameAccountPreservesReconciled | actions/transaction.js:150-184 | an update that keeps the account keeps every account reconciled |
| Transactions.ExpenseToIncomeMovesBySixty | actions/transaction.js:150-158 | turning an EXPENSE of 30 into an INCOME of 30 raises the balance by 60 |
| Transactions.UpdateReassignBreaksReconciled | actions/transaction.js:177-184 | moving a non-zero row to another account leaves the ledger unreconciled |
| Transactions.UpdateTransactionReconciled | actions/transaction.js:150-184 | the corrected update: the old effect comes off the old account and the new effect goes on the new, caller-owned account; the stored row is the edited one, and every account keeps all its fields but the balance |
| Transactions.UpdateReconciledPreservesReconciled | actions/transaction.js:150-184 | the corrected update keeps every account reconciled whatever account it moves the row to |
| Transactions.UpdateSameAccountAgrees | actions/transaction.js:150-184 | when the account is unchanged and owned, the code's update and the corrected one are the same |
| Accounts.GroupBalanceChanges | actions/account.js:85-92 | the change per account is minus the signed sum of its deleted rows, with keys exactly the touched accounts |
| Accounts.BulkDeleteTransactions | actions/account.js:77-125 | deletes exactly the caller's listed rows and takes their signed sum off each touched account; any failure is returned, not thrown, and writes nothing |
| Accounts.BulkDeletePreservesReconciled | actions/account.js:85-116 | bulk delete keeps every account reconciled |
| Accounts.UntouchedAccountKeepsBalance | actions/account.js:105-116 | an account with no deleted row is unchanged |
| Accounts.CreateThenDeleteRestores | actions/account.js:85-116 | creating a transaction and then bulk-deleting it gives back the database from before |
| Accounts.UpdateDefaultAccount | actions/account.js:142-163 | succeeds iff the account is the caller's, and then it is the caller's only default; on failure the cleared flags stay cleared; other users are untouched |
| Accounts.UpdateDefaultFailureDropsDefault | actions/account.js:142-162 | a failed call by a user who had a default leaves that user with none |
| Accounts.UpdateDefaultAccountAtomic | actions/account.js:142-157 | the atomic version writes nothing on failure and agrees with the code on success |
| Accounts.UpdateDefaultIdempotent | actions/account.js:142-157 | repeating the call on the current sole default changes nothing |
| Accounts.UpdateDefaultKeepsAtMostOne | actions/account.js:142-157 | both versions keep at most one default per user |
| Dashboard.CreateAccount | actions/dashboard.js:97-130 | an unparseable balance fails with "Invalid balance amount" before any write; otherwise the account is opened with the balance as read |
| Dashboard.OpenAccount | actions/dashboard.js:103-130 | the new account is stored with the given balance; a first account is default whatever was asked; a new default clears the caller's other flags; a non-default one leaves every account alone; other users are untouched |
| Dashboard.CreateAccountDefaults | actions/dashboard.js:103-128 | after creation the caller's defaults are exactly the new account when it is default, and otherwise unchanged |
| Dashboard.CreateAccountKeepsAtMostOne | actions/dashboard.js:114-128 | creating an account keeps at most one default per user |
| Dashboard.CreateAccountExactlyOneDefault | actions/dashboard.js:103-128 | with one default before, or no accounts, or a default request, there is exactly one default after |
| Dashboard.CreateAccountKeepsZeroDefaults | actions/dashboard.js:103-128 | a user with accounts but no default who adds a non-default account still has no default |
| Dashboard.CreateAccountReconciled | actions/dashboard.js:123-130 | the opening balance is the parsed balance with no transaction, so the ledger stays reconciled |
| Dashboard.InsertByCreatedAt | actions/dashboard.js:36-46 | inserting into a newest-first list keeps it newest-first and is a permutation of the list plus the new account |
| Dashboard.GetUserAccounts | actions/dashboard.js:36-46 | returns exactly the caller's accounts, each once, newest `createdAt` first |
| Dashboard.SerializeTransaction | actions/dashboard.js:9-20 | a present, truthy `balance` or `amount` becomes a number and every other field is copied unchanged; a truthy non-`Decimal` money field throws |
| Dashboard.SerializeRevive | actions/dashboard.js:9-20 | converting the numbers back to `Decimal`s gives the original row |
| Dashboard.SerializeAccountRow | actions/dashboard.js:9-20 | serialising a stored account never fails and only its balance changes representation |
| Money.ParseBalance | actions/dashboard.js:96-99 | after leading white space and an optional sign, the balance is a number iff a numeral follows (a digit, or a point and a digit); a minus sign negates it and a plus sign is ignored |
| Money.ParseUnsigned | actions/dashboard.js:96-99 | an unsigned numeral is read iff the text starts with a digit or with a point and a digit, and its value is never negative |
| Money.UnsignedRoundTrip | actions/dashboard.js:97-100 | reading a formatted amount of cents back with `parseFloat` gives the same cents, whatever non-digit text follows |
| Money.ParseFormatRoundTrip | actions/dashboard.js:97-100 | the same for signed amounts: parse after format is the identity |
| Money.NoDigitsIsNaN | actions/dashboard.js:97-100 | text without any digit parses to NaN, which is the "Invalid balance amount" case |
| Budgets.UpdateBudget | actions/budget.js:90-104 | afterwards the user has exactly one budget, holding the new amount; an existing row keeps its id and alert date; nothing else changes |
| Budgets.UpdateBudgetLastWins | actions/budget.js:90-104 | two calls leave one row holding the second amount |
| Budgets.UpdateBudgetWellFormed | actions/budget.js:90-104 | the upsert keeps the database well formed |
| Budgets.MonthStart | actions/budget.js:28-35 | the window opens on day 1 of the current month at 00:00:00 |
| Budgets.MonthEnd | actions/budget.js:36-43 | the window closes on the month's last day at 23:59:59 |
| Budgets.MonthWindow | actions/budget.js:27-52 | a time lies in the window iff it is in the current month and not in the final fraction of a second after 23:59:59 on the last day |
| Budgets.LastSecondLeftOut | actions/budget.js:36-43 | the last second of the month, after 23:59:59, is outside the window |
| Budgets.MonthExpensesCounts | actions/budget.js:45-58 | a row adds its amount iff it is the caller's EXPENSE dated in the current month but not after 23:59:59 on its last day, and on the given non-empty account when one is given; otherwise it adds nothing |
| Budgets.GetCurrentBudget | actions/budget.js:20-70 | throws iff the user has no budget; otherwise returns the budget and the month's expense sum |
| Budgets.NoBudgetThrows | actions/budget.js:60-65 | with no budget the code throws, while the guarded version returns a null budget |
| Budgets.GuardedAgrees | actions/budget.js:60-70 | when a budget exists, code and guarded version agree |
| Budgets.GetCurrentBudgetGuarded | actions/budget.js:20-70 | the guarded action returns the user's budget or none, and the month's expense sum |
| Scheduler.DueCases | lib/inngest/function.js:302-311 | for any `now` not before the epoch: due iff never processed, or processed with no next date (which `new Date(null)` reads as the epoch), or processed with a next date no later than now |
| Scheduler.RecurringCopy | lib/inngest/function.js:42-53 | the copy is dated now, is not recurring, keeps type, amount, category, account and owner, and gets the " (Recurring)" suffix |
| Scheduler.ProcessRecurringTransaction | lib/inngest/function.js:21-77 | no ids, a missing template or one not due writes nothing; otherwise it books exactly one copy, moves the account by the signed amount, and sets last-processed to now and next date to the advanced now |
| Scheduler.ProcessPreservesReconciled | lib/inngest/function.js:42-65 | processing keeps every account reconciled |
| Scheduler.AdvancedNotDue | lib/inngest/function.js:68-77 | with an interval, the advanced template is no longer due at the same moment |
| Scheduler.ProcessTwiceOnce | lib/inngest/function.js:37-77 | a second delivery at the same moment books nothing and moves no balance |
| Scheduler.NoIntervalProcessesTwice | lib/inngest/function.js:68-77 | without an interval a second delivery books a second copy |
| Scheduler.EventsFor | lib/inngest/function.js:112-119 | one `{transactionId, userId}` event per selected row |
| Scheduler.TriggerRecurringTransactions | lib/inngest/function.js:94-125 | exactly one event per match with no duplicates, sent iff there is a match, and `triggered` equals the number of matches |
| Scheduler.SweepMatchIsDue | lib/inngest/function.js:94-107 | every swept row is due |
| Scheduler.DueButNotSwept | lib/inngest/function.js:94-107 | a processed row with no next date is due but never swept |
| Scheduler.AdvancedNotSwept | lib/inngest/function.js:98-105 | a just-processed template with an interval is not swept again at the same moment |
| Alerts.IsNewMonthIndex | lib/inngest/function.js:294-299 | `isNewMonth` holds iff the two times fall in different calendar months |
| Alerts.AlertWindowStart | lib/inngest/function.js:240-241 | `setDate(1)` gives the first of the current month at the run's time of day |
| Alerts.AlertWindowAsWritten | lib/inngest/function.js:240-256 | a moment of the month up to now is counted unless it is on the first of the month before the run's time of day |
| Alerts.AlertWindowSkipsFirstMidnight | lib/inngest/function.js:240-251 | after midnight, an expense at 00:00 on the first of the month falls before the window |
| Alerts.AlertWindowStartCorrected | lib/inngest/function.js:240-241 | the corrected start is the first of the current month at 00:00 |
| Alerts.AlertWindowCorrectedCoversMonth | lib/inngest/function.js:240-251 | a time up to now is in the corrected window iff it is in the current month |
| Alerts.Over80IsPercentage | lib/inngest/function.js:258-264 | the integer cross-multiplied test equals `(expenses / budget) * 100 >= 80` over the reals for a non-zero budget |
| Alerts.CheckBudgetAlert | lib/inngest/function.js:236-287 | an alert is sent iff there is a default account, the expenses on it since `setDate(1)` reach 80% of the budget and the gate is re-armed; then only `lastAlertSent` becomes now, else nothing changes |
| Alerts.CheckBudgetAlerts | lib/inngest/function.js:219-290 | every budget is checked once; the users alerted are exactly those passing the gate; only their `lastAlertSent` changes |
| Alerts.AlertOncePerMonth | lib/inngest/function.js:263-266 | after an alert the gate is re-armed iff the calendar month has changed |
| Alerts.SecondCheckSameMonthSilent | lib/inngest/function.js:263-287 | a second check in the same month sends nothing |
| MonthlyStats.GetMonthlyStats | lib/inngest/function.js:346-365 | total expenses and total income are the sums by type; the count is the number of rows; the category table has keys only for expense categories, and its values sum to total expenses |
| MonthlyStats.CategoryTableSum | lib/inngest/function.js:350-353 | any correct category table sums to the total expenses |
| MonthlyStats.StatsWindowMissesLastDay | lib/inngest/function.js:333-342 | the window ends at 00:00 of the last day, so later expenses that day are left out |
| MonthlyStats.StatsWindowCorrected | lib/inngest/function.js:333-342 | the corrected window holds a time iff it is in the month |
| Schema.StringMin1 | app/lib/schema.js:12-25 | passes iff the key holds a non-empty string; an empty string gives the field's own message |
| Schema.OptionalString | app/lib/schema.js:22 | passes iff absent or a string, and never reports "too small" |
| Schema.BoolDefaultFalse | app/lib/schema.js:15 | passes iff absent or a boolean; absent means false |
| Schema.RequiredDate | app/lib/schema.js:23 | passes iff a valid date is present; absent gives "Date is required" |
| Schema.Enum | app/lib/schema.js:13 | passes iff the value is one of the listed names |
| Schema.OptionalEnum | app/lib/schema.js:27-29 | passes iff absent or one of the listed names |
| Schema.AccountSchema | app/lib/schema.js:3-16 | accepts iff the name and balance are non-empty, the type is CURRENT or SAVINGS and `isDefault` is a boolean or absent; rejections carry an issue |
| Schema.RecurringRule | app/lib/schema.js:31-38 | raises no issue iff the row is not recurring or has an interval |
| Schema.TransactionSchema | app/lib/schema.js:18-39 | accepts iff every field passes and the recurring rule holds; rejections carry an issue |
| Schema.RecurringNeedsInterval | app/lib/schema.js:31-38 | a recurring row without an interval is rejected with the one custom issue at `recurringInterval` |
| Schema.IntervalWithoutRecurringKept | app/lib/schema.js:26-32 | an interval on a non-recurring row is accepted and kept |
| Schema.EmptyAmountStillRefined | app/lib/schema.js:21-38 | an empty amount does not stop the rule from running, so both issues are reported |
| Schema.MissingDateSkipsRule | app/lib/schema.js:23-38 | a missing date aborts before the rule, so only the date issue is reported |
| Schema.AcceptedRecurringIsScheduled | app/lib/schema.js:26-38 | a form the schema accepts gets a next date in `createTransaction` iff it is recurring |
| Ledger.SumMeasure | actions/budget.js:45-58 | the loop computes the aggregate sum of the selected amounts |
| Ledger.ClearDefaults | actions/account.js:142-148 | clears exactly the caller's default flags and changes nothing else |

## Left out

- Clerk `auth()`, the user lookup and `lib/checkUser.js`. The caller's user id is a parameter.
- Prisma itself, `revalidatePath` and the failure modes of the database. Each `$transaction` block is one atomic step.
- The Inngest runtime: throttling, retries, `step.run` memoisation and event transport.
- The email: sending and template rendering. Only the fact that an email was attempted is recorded.
- The Gemini calls `scanReceipt` and `generateFinancialInsights`. They are foreign and nondeterministic.
- The Inngest cron `generateMonthlyReports` that calls `getMonthlyStats` for every user, and its email. Only the `getMonthlyStats` fold is modelled.
- `getUserTransactions` and `getDashboardData`. They are plain queries outside the bookkeeping core.
- Arcjet rate limiting, whose uses are commented out.
- All UI code.
- Timezones. One calendar is assumed, so local and UTC month boundaries coincide.
- Money.ParseBalance: models `parseFloat` on decimal text and truncates to cents. It does not model exponents, `Infinity` or fractions finer than a cent, because balances are whole cents here.
- Money.ParseBalance: skips only ASCII white space. `parseFloat` also skips U+00A0, U+FEFF, U+2028, U+2029 and the other Unicode space separators, so `parseFloat("\u00A0100")` is 100 where the model reports "Invalid balance amount".
- CivilTime: does not model the time-value range of ECMA-262 (TimeClip, ±8.64e15 ms). Dates of any year are valid here, where JavaScript gives an invalid date.
- Accounts.GroupBalanceChanges: uses the numeric sum. At actions/account.js:90, `(acc[id] || 0) + change` can concatenate a `Decimal` as a string.
- Accounts.BulkDeleteTransactions: takes the numeric signed sum off each account. The code at actions/account.js:90 can instead build a string: two EXPENSE rows of 30 and 20 on one account give `"030"` and then `"03020"`, so the account is raised by 3020 rather than 50.
- Transactions.CreateTransaction: takes the amount as cents already parsed, so `parseFloat` and `Decimal` rounding are not modelled.
- Scheduler.ProcessRecurringTransaction: the calls to `new Date()` are one `now`, and the processor's reads and writes are one atomic step.
- Transactions.UpdateTransaction: a target account that does not exist is reported as Prisma's "Record to update not found.". The code writes the row with the dangling `accountId` first (actions/transaction.js:162-173), so Prisma would fail on the foreign key with its own message; the model only promises that the call fails and writes nothing. `Scheduler.ProcessRecurringTransaction` reports the same message for the same reason (lib/inngest/function.js:42-65).
- Concurrent requests. Every action is one step on one database, so interleavings are not modelled. For example, `createTransaction` reads the balance outside `$transaction` and writes an absolute value (actions/transaction.js:57-89), so two creates at once can lose one balance change.
- Scheduler.TriggerRecurringTransactions: assumes the status of a template is COMPLETED unless it is stored otherwise.
- Budgets.GetCurrentBudget: does not return the percentage. The code computes it on lines 61-62 and never returns it; only the null dereference it causes is modelled.
- MonthlyStats.GetMonthlyStats: takes the month's rows as input. The date filter of the query is stated separately by `MonthlyStats.InStatsWindow`.
- Schema.TransactionSchema: does not reproduce zod's messages for values of the wrong type. It only records that such a field fails.

## Findings

| source | as written | input that shows it | evidently intended | confidence | as-written member | corrected member |
|---|---|---|---|---|---|---|
| actions/transaction.js:150-184 | the net change `newSigned − oldSigned` is applied to the new account only | moving an EXPENSE of 10 from account A to account B as an EXPENSE of 10: the net is 0, so A keeps the −10 of a row no longer on it, and B is unchanged instead of going down by 10 | take the old effect off the old account and put the new effect on the new one | high, not executed | Transactions.UpdateReassignBreaksReconciled | Transactions.UpdateReconciledPreservesReconciled |
| actions/account.js:142-162 | the flags are cleared before the target is updated, outside a transaction | `updateDefaultAccount` on an account id the caller does not own: every flag is cleared, then the update fails | clear and set together, or not at all | high, not executed | Accounts.UpdateDefaultFailureDropsDefault | Accounts.UpdateDefaultAccountAtomic |
| actions/budget.js:60-65 | `budget.amount` is read on line 62, before the null check on line 65 | a user with no budget row: `getCurrentBudget` throws | return a null budget with the expenses | high, not executed | Budgets.NoBudgetThrows | Budgets.GetCurrentBudgetGuarded |
| lib/inngest/function.js:240-241 | `setDate(1)` keeps the current time of day | an expense at 00:00 on the 1st, checked at 10:00 later that month, is not counted | start of the month at 00:00 | high, not executed | Alerts.AlertWindowSkipsFirstMidnight | Alerts.AlertWindowCorrectedCoversMonth |
| lib/inngest/function.js:333-342 | the window ends at 00:00 of the month's last day | an expense at 12:00 on Jan 31 is left out of January's report | the end of the last day | medium, not executed | MonthlyStats.StatsWindowMissesLastDay | MonthlyStats.StatsWindowCorrected |
