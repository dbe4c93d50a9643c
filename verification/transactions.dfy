/** The balance and date logic of the transaction server actions in
    actions/transaction.js: `createTransaction`, `getTransaction`,
    `updateTransaction` and the file's own `calculateNextRecurringDate`.
    The caller's user id is a parameter; a thrown `Error(msg)` is `Err(msg)`
    with the store left as it was (Prisma's `$transaction` rolls back). */
module Transactions {
  import opened Results
  import opened CivilTime
  import opened Recurrence
  import opened Ledger

  /** A validated transaction form, amount in cents. `description` and
      `recurringInterval` are optional form fields: `None` is `undefined`. */
  datatype TxData = TxData(
    txType: TxType,
    amount: int,
    description: Option<string>,
    date: DateTime,
    accountId: Id,
    category: string,
    isRecurring: bool,
    recurringInterval: Option<Interval>)

  const AccountNotFound: string := "Account not found"
  const TransactionNotFound: string := "Transaction not found"

  /** The default of the `status` column for rows created without one. */
  const NewRowStatus: Status := Completed

  /** The signed effect of a form on its account's balance. */
  function SignedAmount(txType: TxType, amount: int): int {
    if txType == Expense then -amount else amount
  }

  /** The second copy of `calculateNextRecurringDate`, local to this file. It
      is the same switch over the same setters as the scheduler's copy and
      agrees with it on every input. */
  function CalculateNextRecurringDate(startDate: DateTime, interval: Option<Interval>): (r: DateTime)
    requires Valid(startDate)
    ensures r == NextRecurringDate(startDate, interval)
  {
    match interval
    case Some(Daily) => SetDate(startDate, GetDate(startDate) + 1)
    case Some(Weekly) => SetDate(startDate, GetDate(startDate) + 7)
    case Some(Monthly) => SetMonth(startDate, GetMonth(startDate) + 1)
    case Some(Yearly) => SetFullYear(startDate, GetFullYear(startDate) + 1)
    case None => startDate
  }

  /** `data.isRecurring && data.recurringInterval ? calculate… : null`: a
      schedule exactly for recurring forms that name an interval, and then
      one strictly after the transaction's own date. */
  function ScheduledNext(data: TxData): (r: Option<DateTime>)
    requires Valid(data.date)
    ensures r.Some? <==> data.isRecurring && data.recurringInterval.Some?
    ensures r.Some? ==> r.value == NextRecurringDate(data.date, data.recurringInterval)
    ensures r.Some? ==> TimeValue(data.date) < TimeValue(r.value)
  {
    if data.isRecurring && data.recurringInterval.Some? then
      Some(CalculateNextRecurringDate(data.date, data.recurringInterval))
    else None
  }

  /** The row `createTransaction` inserts: the form, the caller as owner,
      the computed schedule, never processed. */
  function NewRow(user: Id, newId: Id, data: TxData): Transaction
    requires Valid(data.date)
  {
    Transaction(newId, user, data.accountId, data.txType, data.amount, data.description,
                data.date, data.category, data.isRecurring, data.recurringInterval,
                NewRowStatus, None, ScheduledNext(data))
  }

  /** `createTransaction(data)`. The store generates `newId`, so it is fresh. */
  function CreateTransaction(db: Db, user: Id, newId: Id, data: TxData): (r: Reply<Transaction>)
    requires Valid(data.date)
    requires newId !in db.transactions
    ensures !OwnedAccount(db, user, data.accountId) <==> r.result.Err?
    ensures r.result.Err? ==> r.db == db && r.result.message == AccountNotFound
    ensures r.result.Ok? ==>
              && r.db.transactions == db.transactions[newId := r.result.value]
              && r.db.budgets == db.budgets
              && r.db.accounts.Keys == db.accounts.Keys
              && r.db.accounts[data.accountId]
                 == db.accounts[data.accountId].(balance := db.accounts[data.accountId].balance
                                                            + SignedAmount(data.txType, data.amount))
              && (forall a :: a in db.accounts && a != data.accountId ==>
                                r.db.accounts[a] == db.accounts[a])
    ensures r.result.Ok? ==>
              var t := r.result.value;
              && t.id == newId && t.userId == user && t.accountId == data.accountId
              && t.txType == data.txType && t.amount == data.amount
              && t.description == data.description && t.date == data.date
              && t.category == data.category && t.isRecurring == data.isRecurring
              && t.recurringInterval == data.recurringInterval
              && t.status == Completed && t.lastProcessed.None?
              && t.nextRecurringDate == ScheduledNext(data)
  {
    if !OwnedAccount(db, user, data.accountId) then Reply(db, Err(AccountNotFound))
    else
      var acc := db.accounts[data.accountId];
      var t := NewRow(user, newId, data);
      var newBalance := acc.balance + SignedAmount(data.txType, data.amount);
      Reply(db.(transactions := db.transactions[newId := t],
                accounts := db.accounts[data.accountId := acc.(balance := newBalance)]),
            Ok(t))
  }

  /** `getTransaction(id)`: the row only when the caller owns it. */
  function GetTransaction(db: Db, user: Id, id: Id): (r: Result<Transaction>)
    ensures r.Ok? <==> id in db.transactions && db.transactions[id].userId == user
    ensures r.Ok? ==> r.value == db.transactions[id]
    ensures r.Err? ==> r.message == TransactionNotFound
  {
    if id in db.transactions && db.transactions[id].userId == user then Ok(db.transactions[id])
    else Err(TransactionNotFound)
  }

  /** The row after `update({ data: { ...data, nextRecurringDate } })`. An
      optional field left `undefined` is not written, so a missing
      description or interval keeps the stored one. */
  function Edited(orig: Transaction, data: TxData): (t: Transaction)
    requires Valid(data.date)
    ensures t.id == orig.id && t.userId == orig.userId && t.status == orig.status
    ensures t.lastProcessed == orig.lastProcessed
    ensures t.txType == data.txType && t.amount == data.amount && t.date == data.date
    ensures t.accountId == data.accountId && t.category == data.category
    ensures t.isRecurring == data.isRecurring
    ensures t.description == (if data.description.None? then orig.description else data.description)
    ensures t.recurringInterval
            == (if data.recurringInterval.None? then orig.recurringInterval else data.recurringInterval)
    ensures t.nextRecurringDate == ScheduledNext(data)
  {
    orig.(txType := data.txType, amount := data.amount,
          description := if data.description.Some? then data.description else orig.description,
          date := data.date, accountId := data.accountId, category := data.category,
          isRecurring := data.isRecurring,
          recurringInterval :=
            if data.recurringInterval.Some? then data.recurringInterval else orig.recurringInterval,
          nextRecurringDate := ScheduledNext(data))
  }

  /** `updateTransaction(id, data)` as written: the whole net change
      `newSigned - oldSigned` is added to `data.accountId`, whichever account
      the row was on before, and that account is not checked to be the
      caller's. */
  function UpdateTransaction(db: Db, user: Id, id: Id, data: TxData): (r: Reply<Transaction>)
    requires Valid(data.date)
    ensures r.result.Ok? <==>
              GetTransaction(db, user, id).Ok? && data.accountId in db.accounts
    ensures r.result.Err? ==> r.db == db
    ensures GetTransaction(db, user, id).Err? ==> r.result == Err(TransactionNotFound)
    ensures r.result.Ok? ==>
              var orig := db.transactions[id];
              var net := SignedAmount(data.txType, data.amount) - Signed(orig);
              && r.db.transactions == db.transactions[id := r.result.value]
              && r.db.budgets == db.budgets
              && r.db.accounts.Keys == db.accounts.Keys
              && r.db.accounts[data.accountId]
                 == db.accounts[data.accountId].(balance := db.accounts[data.accountId].balance + net)
              && (forall a :: a in db.accounts && a != data.accountId ==>
                                r.db.accounts[a] == db.accounts[a])
    ensures r.result.Ok? ==>
              var orig := db.transactions[id];
              var t := r.result.value;
              && t.id == orig.id && t.userId == user && t.accountId == data.accountId
              && t.txType == data.txType && t.amount == data.amount
              && t.date == data.date && t.category == data.category
              && t.isRecurring == data.isRecurring
              && t.description == (if data.description.None? then orig.description else data.description)
              && t.recurringInterval
                 == (if data.recurringInterval.None? then orig.recurringInterval else data.recurringInterval)
              && t.status == orig.status && t.lastProcessed == orig.lastProcessed
              && t.nextRecurringDate == ScheduledNext(data)
  {
    if !(id in db.transactions && db.transactions[id].userId == user) then
      Reply(db, Err(TransactionNotFound))
    else
      var orig := db.transactions[id];
      var net := SignedAmount(data.txType, data.amount) - Signed(orig);
      if data.accountId !in db.accounts then Reply(db, Err(RecordNotFound))
      else
        var acc := db.accounts[data.accountId];
        var t := Edited(orig, data);
        Reply(db.(transactions := db.transactions[id := t],
                  accounts := db.accounts[data.accountId := acc.(balance := acc.balance + net)]),
              Ok(t))
  }

  /** `updateTransaction` as evidently intended: the old row's effect is
      taken off the account it was on, the new row's effect is put on the
      account it is on now, and, as `createTransaction` does, that account
      must be the caller's. */
  function UpdateTransactionReconciled(db: Db, user: Id, id: Id, data: TxData): (r: Reply<Transaction>)
    requires Valid(data.date)
    requires WellFormed(db)
    ensures r.result.Ok? <==>
              GetTransaction(db, user, id).Ok? && OwnedAccount(db, user, data.accountId)
    ensures r.result.Err? ==> r.db == db
    ensures r.result.Ok? ==>
              var orig := db.transactions[id];
              && r.db.transactions == db.transactions[id := r.result.value]
              && r.db.budgets == db.budgets
              && r.db.accounts.Keys == db.accounts.Keys
              && (forall a :: a in db.accounts ==>
                    r.db.accounts[a]
                    == db.accounts[a].(balance := db.accounts[a].balance
                                                  - (if a == orig.accountId then Signed(orig) else 0)
                                                  + (if a == data.accountId then SignedAmount(data.txType, data.amount) else 0)))
    ensures r.result.Ok? ==> r.result.value == Edited(db.transactions[id], data)
  {
    if !(id in db.transactions && db.transactions[id].userId == user) then
      Reply(db, Err(TransactionNotFound))
    else if !OwnedAccount(db, user, data.accountId) then
      Reply(db, Err(AccountNotFound))
    else
      var orig := db.transactions[id];
      var t := Edited(orig, data);
      var prev := db.accounts[orig.accountId];
      var accounts := db.accounts[orig.accountId := prev.(balance := prev.balance - Signed(orig))];
      var acc := accounts[data.accountId];
      Reply(db.(transactions := db.transactions[id := t],
                accounts := accounts[data.accountId := acc.(balance := acc.balance + Signed(t))]),
            Ok(t))
  }

  // ---------------------------------------------------------------------
  // The balance invariant across the actions

  /** Writing one row and moving each account by the change of its ledger
      keeps every account reconciled. */
  lemma PutKeepsReconciled(db: Db, opening: map<Id, int>, k: Id, t: Transaction, db': Db)
    requires Reconciled(db, opening)
    requires db'.transactions == db.transactions[k := t]
    requires db'.accounts.Keys == db.accounts.Keys
    requires forall a :: a in db.accounts ==>
               db'.accounts[a].balance
               == db.accounts[a].balance
                  - (if k in db.transactions then Weight(LedgerOf(a), db.transactions[k]) else 0)
                  + Weight(LedgerOf(a), t)
    ensures Reconciled(db', opening)
  {
    forall a | a in db'.accounts
      ensures a in opening && db'.accounts[a].balance == opening[a] + Total(db'.transactions, LedgerOf(a))
    {
      TotalPut(db.transactions, k, t, LedgerOf(a));
    }
  }

  /** Creating a transaction keeps the cached balances reconciled. */
  lemma CreatePreservesReconciled(db: Db, opening: map<Id, int>, user: Id, newId: Id, data: TxData)
    requires Valid(data.date) && newId !in db.transactions
    requires Reconciled(db, opening)
    ensures Reconciled(CreateTransaction(db, user, newId, data).db, opening)
  {
    var r := CreateTransaction(db, user, newId, data);
    if r.result.Ok? {
      PutKeepsReconciled(db, opening, newId, r.result.value, r.db);
    }
  }

  /** A created row can be read back by its owner, and by nobody else. */
  lemma CreatedRowOwnedByCaller(db: Db, user: Id, newId: Id, data: TxData, v: Id)
    requires Valid(data.date) && newId !in db.transactions
    requires CreateTransaction(db, user, newId, data).result.Ok?
    ensures var r := CreateTransaction(db, user, newId, data);
            GetTransaction(r.db, v, newId) == if v == user then Ok(r.result.value) else Err(TransactionNotFound)
  {
  }

  /** The corrected update keeps the cached balances reconciled whatever
      account the row moves to. */
  lemma UpdateReconciledPreservesReconciled(db: Db, opening: map<Id, int>, user: Id, id: Id, data: TxData)
    requires Valid(data.date) && WellFormed(db)
    requires Reconciled(db, opening)
    ensures Reconciled(UpdateTransactionReconciled(db, user, id, data).db, opening)
  {
    var r := UpdateTransactionReconciled(db, user, id, data);
    if r.result.Ok? {
      PutKeepsReconciled(db, opening, id, r.result.value, r.db);
    }
  }

  /** When the row stays on its account, the update as written keeps the
      balances reconciled. */
  lemma UpdateSameAccountPreservesReconciled(db: Db, opening: map<Id, int>, user: Id, id: Id, data: TxData)
    requires Valid(data.date)
    requires Reconciled(db, opening)
    requires id in db.transactions && db.transactions[id].userId == user
    requires data.accountId == db.transactions[id].accountId
    ensures Reconciled(UpdateTransaction(db, user, id, data).db, opening)
  {
    var r := UpdateTransaction(db, user, id, data);
    if r.result.Ok? {
      PutKeepsReconciled(db, opening, id, r.result.value, r.db);
    }
  }

  /** When the row stays on one of the caller's accounts, the update as
      written and the corrected one coincide. */
  lemma UpdateSameAccountAgrees(db: Db, user: Id, id: Id, data: TxData)
    requires Valid(data.date) && WellFormed(db)
    requires id in db.transactions && db.transactions[id].userId == user
    requires data.accountId == db.transactions[id].accountId
    requires OwnedAccount(db, user, data.accountId)
    ensures UpdateTransaction(db, user, id, data) == UpdateTransactionReconciled(db, user, id, data)
  {
    var orig := db.transactions[id];
    var acc := db.accounts[data.accountId];
    var prev := acc.(balance := acc.balance - Signed(orig));
    var t := Edited(orig, data);
    assert Signed(t) == SignedAmount(data.txType, data.amount);
    assert db.accounts[orig.accountId := prev][data.accountId := prev.(balance := prev.balance + Signed(t))]
           == db.accounts[data.accountId := acc.(balance := acc.balance + (SignedAmount(data.txType, data.amount) - Signed(orig)))];
  }

  /** Moving a row with a non-zero effect to another account breaks the
      invariant under the update as written: the old account keeps the
      effect of a row that is no longer on it. */
  lemma UpdateReassignBreaksReconciled(db: Db, opening: map<Id, int>, user: Id, id: Id, data: TxData)
    requires Valid(data.date)
    requires Reconciled(db, opening)
    requires id in db.transactions && db.transactions[id].userId == user
    requires db.transactions[id].accountId in db.accounts
    requires data.accountId in db.accounts && data.accountId != db.transactions[id].accountId
    requires Signed(db.transactions[id]) != 0
    ensures !Reconciled(UpdateTransaction(db, user, id, data).db, opening)
  {
    var orig := db.transactions[id];
    var a := orig.accountId;
    var r := UpdateTransaction(db, user, id, data);
    TotalPut(db.transactions, id, r.result.value, LedgerOf(a));
    assert r.db.accounts[a] == db.accounts[a];
    assert Total(r.db.transactions, LedgerOf(a)) == Total(db.transactions, LedgerOf(a)) - Signed(orig);
  }

  /** Turning an EXPENSE of 30 into an INCOME of 30 on the same account
      raises its balance by 60. */
  lemma ExpenseToIncomeMovesBySixty(db: Db, user: Id, id: Id, data: TxData)
    requires Valid(data.date)
    requires id in db.transactions && db.transactions[id].userId == user
    requires db.transactions[id].txType == Expense && db.transactions[id].amount == 30
    requires data.txType == Income && data.amount == 30
    requires data.accountId == db.transactions[id].accountId && data.accountId in db.accounts
    ensures UpdateTransaction(db, user, id, data).db.accounts[data.accountId].balance
            == db.accounts[data.accountId].balance + 60
  {
  }
}
