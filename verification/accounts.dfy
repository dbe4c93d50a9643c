/** The account server actions of actions/account.js:
    `bulkDeleteTransactions`, which deletes the caller's listed transactions
    and gives their effect back to the accounts, and `updateDefaultAccount`.
    Both report failure as `{ success: false, error }` instead of throwing;
    here that is `Err(error)`. */
module Accounts {
  import opened Results
  import opened Ledger
  import CivilTime
  import Transactions

  /** The rows `deleteMany({ where: { id: { in: ids }, userId } })` removes:
      listed, existing and the caller's. Unknown and foreign ids are ignored. */
  function DeletedKeys(db: Db, user: Id, ids: seq<Id>): (r: set<Id>)
    ensures r <= db.transactions.Keys
    ensures forall k :: k in r <==>
              k in db.transactions && k in ids && db.transactions[k].userId == user
  {
    set k | k in db.transactions && k in ids && db.transactions[k].userId == user
  }

  /** The accounts the rows `keys` of `m` are on. */
  function AccountsOf(m: map<Id, Transaction>, keys: set<Id>): set<Id> {
    set k | k in keys && k in m :: m[k].accountId
  }

  /** `acc[accountId] || 0`. */
  function ChangeOf(changes: map<Id, int>, a: Id): int {
    if a in changes then changes[a] else 0
  }

  /** Adding one more key to a restriction adds that row. */
  lemma RestrictAdd(m: map<Id, Transaction>, done: set<Id>, k: Id)
    requires k in m && k !in done
    ensures Restrict(m, done + {k}) == Restrict(m, done)[k := m[k]]
    ensures AccountsOf(m, done + {k}) == AccountsOf(m, done) + {m[k].accountId}
  {
  }

  /** One step of the `reduce`: folding row `k` into the grouped changes of
      the rows `done` gives the grouped changes of `done + {k}`. */
  lemma GroupStep(m: map<Id, Transaction>, done: set<Id>, k: Id, changes: map<Id, int>, change: int)
    requires k in m && k !in done
    requires changes.Keys == AccountsOf(m, done)
    requires forall a :: ChangeOf(changes, a) == -Total(Restrict(m, done), LedgerOf(a))
    requires change == -Signed(m[k])
    ensures var changes' := changes[m[k].accountId := ChangeOf(changes, m[k].accountId) + change];
            && changes'.Keys == AccountsOf(m, done + {k})
            && forall a :: ChangeOf(changes', a) == -Total(Restrict(m, done + {k}), LedgerOf(a))
  {
    var t := m[k];
    RestrictAdd(m, done, k);
    forall a ensures Total(Restrict(m, done + {k}), LedgerOf(a))
                     == Total(Restrict(m, done), LedgerOf(a)) + Weight(LedgerOf(a), t) {
      TotalPut(Restrict(m, done), k, t, LedgerOf(a));
    }
  }

  /** The `reduce` that groups the deleted rows by account: an EXPENSE gives
      its amount back, an INCOME takes it away. Each account's entry is
      minus the sum of its deleted rows' signed amounts, and exactly the
      accounts with a deleted row get an entry. */
  method GroupBalanceChanges(m: map<Id, Transaction>, keys: set<Id>) returns (changes: map<Id, int>)
    requires keys <= m.Keys
    ensures changes.Keys == AccountsOf(m, keys)
    ensures forall a :: ChangeOf(changes, a) == -Total(Restrict(m, keys), LedgerOf(a))
  {
    changes := map[];
    var rest := keys;
    ghost var done: set<Id> := {};
    assert Restrict(m, done) == map[];
    forall a ensures Total(Restrict(m, done), LedgerOf(a)) == 0 {
      TotalEmpty(LedgerOf(a));
    }
    while rest != {}
      invariant done !! rest && done + rest == keys
      invariant changes.Keys == AccountsOf(m, done)
      invariant forall a :: ChangeOf(changes, a) == -Total(Restrict(m, done), LedgerOf(a))
      decreases rest
    {
      var k :| k in rest;
      var t := m[k];
      var change := if t.txType == Expense then t.amount else -t.amount;
      GroupStep(m, done, k, changes, change);
      changes := changes[t.accountId := ChangeOf(changes, t.accountId) + change];
      rest := rest - {k};
      done := done + {k};
    }
  }

  /** The store the deletion is meant to leave: the rows `keys` gone and each
      account's balance lowered by what those rows had added to it. */
  ghost function AfterDelete(db: Db, keys: set<Id>): Db {
    db.(transactions := db.transactions - keys,
        accounts := map a | a in db.accounts ::
          db.accounts[a].(balance := db.accounts[a].balance
                                     - Total(Restrict(db.transactions, keys), LedgerOf(a))))
  }

  /** A store that agrees with `AfterDelete` row by row and account by
      account is `AfterDelete`. */
  lemma AfterDeleteIs(db: Db, keys: set<Id>, db': Db)
    requires db'.transactions == db.transactions - keys && db'.budgets == db.budgets
    requires db'.accounts.Keys == db.accounts.Keys
    requires forall a :: a in db.accounts ==>
               db'.accounts[a] == db.accounts[a].(balance := db.accounts[a].balance
                                                              - Total(Restrict(db.transactions, keys), LedgerOf(a)))
    ensures AfterDelete(db, keys) == db'
  {
    assert AfterDelete(db, keys).accounts == db'.accounts;
  }

  /** `bulkDeleteTransactions(ids)`. The deletion and the balance updates run
      in one `$transaction`; an update of an account that does not exist
      throws, everything is rolled back and `{ success: false }` is
      returned. */
  method BulkDeleteTransactions(db: Db, user: Id, ids: seq<Id>) returns (r: Reply<()>)
    ensures r.result.Ok? <==> AccountsOf(db.transactions, DeletedKeys(db, user, ids)) <= db.accounts.Keys
    ensures r.result.Ok? ==> r.db == AfterDelete(db, DeletedKeys(db, user, ids))
    ensures r.result.Err? ==> r.db == db && r.result.message == RecordNotFound
  {
    var keys := DeletedKeys(db, user, ids);
    var changes := GroupBalanceChanges(db.transactions, keys);
    if changes.Keys <= db.accounts.Keys {
      var accounts := map a | a in db.accounts ::
        db.accounts[a].(balance := db.accounts[a].balance + ChangeOf(changes, a));
      forall a | a in db.accounts
        ensures accounts[a] == db.accounts[a].(balance := db.accounts[a].balance
                                                          - Total(Restrict(db.transactions, keys), LedgerOf(a)))
      {
      }
      r := Reply(db.(transactions := db.transactions - keys, accounts := accounts), Ok(()));
      AfterDeleteIs(db, keys, r.db);
    } else {
      r := Reply(db, Err(RecordNotFound));
    }
  }

  /** Deleting rows and taking their effect off the balances keeps every
      account reconciled. */
  lemma BulkDeletePreservesReconciled(db: Db, opening: map<Id, int>, keys: set<Id>)
    requires Reconciled(db, opening)
    ensures Reconciled(AfterDelete(db, keys), opening)
  {
    var db' := AfterDelete(db, keys);
    forall a | a in db'.accounts
      ensures a in opening && db'.accounts[a].balance == opening[a] + Total(db'.transactions, LedgerOf(a))
    {
      TotalSplit(db.transactions, keys, LedgerOf(a));
    }
  }

  /** An account none of the deleted rows is on keeps its balance, and every
      account keeps everything but its balance. */
  lemma UntouchedAccountKeepsBalance(db: Db, keys: set<Id>, a: Id)
    requires a in db.accounts && a !in AccountsOf(db.transactions, keys)
    ensures AfterDelete(db, keys).accounts[a] == db.accounts[a]
  {
    var part := Restrict(db.transactions, keys);
    forall k | k in part ensures part[k].accountId != a {
      assert db.transactions[k].accountId in AccountsOf(db.transactions, keys);
    }
    TotalOfUnusedAccount(part, a);
  }

  /** The ledger of a single row is that row's weight. */
  lemma TotalSingleton(k: Id, t: Transaction, s: Measure)
    ensures Total(map[k := t], s) == Weight(s, t)
  {
    TotalEmpty(s);
    TotalPut(map[], k, t, s);
    assert map[][k := t] == map[k := t];
  }

  /** Deleting a row that was just put, with its effect on the balances,
      gives back the store it was put into. */
  lemma DeleteUndoesPut(db: Db, db': Db, k: Id, t: Transaction)
    requires k !in db.transactions
    requires db'.transactions == db.transactions[k := t] && db'.budgets == db.budgets
    requires db'.accounts.Keys == db.accounts.Keys
    requires forall a :: a in db.accounts ==>
               db'.accounts[a] == db.accounts[a].(balance := db.accounts[a].balance + Weight(LedgerOf(a), t))
    ensures AfterDelete(db', {k}) == db
  {
    var part := Restrict(db'.transactions, {k});
    RestrictSingleton(db'.transactions, k);
    forall a | a in db.accounts
      ensures db.accounts[a] == db'.accounts[a].(balance := db'.accounts[a].balance - Total(part, LedgerOf(a)))
    {
      TotalSingleton(k, t, LedgerOf(a));
    }
    PutRemove(db.transactions, k, t);
    AfterDeleteIs(db', {k}, db);
  }

  /** Creating a transaction and then bulk-deleting it restores the store
      exactly: the row is gone and every balance is what it was. */
  lemma CreateThenDeleteRestores(db: Db, user: Id, newId: Id, data: Transactions.TxData)
    requires CivilTime.Valid(data.date) && newId !in db.transactions
    requires Transactions.CreateTransaction(db, user, newId, data).result.Ok?
    ensures var db' := Transactions.CreateTransaction(db, user, newId, data).db;
            DeletedKeys(db', user, [newId]) == {newId} && AfterDelete(db', {newId}) == db
  {
    var r := Transactions.CreateTransaction(db, user, newId, data);
    var db', t := r.db, r.result.value;
    assert newId in [newId];
    assert DeletedKeys(db', user, [newId]) == {newId};
    forall a | a in db.accounts
      ensures db'.accounts[a] == db.accounts[a].(balance := db.accounts[a].balance + Weight(LedgerOf(a), t))
    {
    }
    DeleteUndoesPut(db, db', newId, t);
  }

  // ---------------------------------------------------------------------
  // The default account

  /** `updateDefaultAccount(id)` as written: the user's defaults are cleared
      by one statement and the target is set by a second one, outside any
      `$transaction`. When the second fails (the account is unknown or not
      the caller's) the first is not undone. */
  function UpdateDefaultAccount(db: Db, user: Id, id: Id): (r: Reply<Account>)
    ensures r.result.Ok? <==> OwnedAccount(db, user, id)
    ensures r.db.transactions == db.transactions && r.db.budgets == db.budgets
    ensures r.db.accounts.Keys == db.accounts.Keys
    ensures forall k :: k in db.accounts ==>
              r.db.accounts[k] == db.accounts[k].(isDefault := r.db.accounts[k].isDefault)
    ensures forall v :: v != user ==> DefaultsOf(r.db.accounts, v) == DefaultsOf(db.accounts, v)
    ensures r.result.Ok? ==> DefaultsOf(r.db.accounts, user) == {id} && r.result.value == r.db.accounts[id]
    ensures r.result.Err? ==> DefaultsOf(r.db.accounts, user) == {} && r.result.message == RecordNotFound
  {
    var cleared := ClearDefaults(db.accounts, user);
    if OwnedAccount(db, user, id) then
      var acc := cleared[id].(isDefault := true);
      var accounts := cleared[id := acc];
      assert DefaultsOf(accounts, user) == {id};
      Reply(db.(accounts := accounts), Ok(acc))
    else
      Reply(db.(accounts := cleared), Err(RecordNotFound))
  }

  /** `updateDefaultAccount` as evidently intended: both writes or neither. */
  function UpdateDefaultAccountAtomic(db: Db, user: Id, id: Id): (r: Reply<Account>)
    ensures r.result.Ok? <==> OwnedAccount(db, user, id)
    ensures r.result.Err? ==> r == Reply(db, Err(RecordNotFound))
    ensures r.result.Ok? ==> r == UpdateDefaultAccount(db, user, id)
    ensures r.result.Ok? ==> DefaultsOf(r.db.accounts, user) == {id}
  {
    if OwnedAccount(db, user, id) then UpdateDefaultAccount(db, user, id)
    else Reply(db, Err(RecordNotFound))
  }

  /** A failed call as written strips the user of a default account they had. */
  lemma UpdateDefaultFailureDropsDefault(db: Db, user: Id, id: Id)
    requires !OwnedAccount(db, user, id)
    requires DefaultsOf(db.accounts, user) != {}
    ensures var r := UpdateDefaultAccount(db, user, id);
            r.result.Err? && r.db != db && DefaultsOf(r.db.accounts, user) == {}
  {
  }

  /** Making the current default the default again changes nothing. */
  lemma UpdateDefaultIdempotent(db: Db, user: Id, id: Id)
    requires OwnedAccount(db, user, id) && DefaultsOf(db.accounts, user) == {id}
    ensures UpdateDefaultAccount(db, user, id).db == db
  {
    var r := UpdateDefaultAccount(db, user, id);
    forall k | k in db.accounts ensures r.db.accounts[k] == db.accounts[k] {
      if db.accounts[k].userId == user {
        assert k in DefaultsOf(db.accounts, user) <==> k in DefaultsOf(r.db.accounts, user);
      } else {
        assert k in DefaultsOf(db.accounts, db.accounts[k].userId)
               <==> k in DefaultsOf(r.db.accounts, db.accounts[k].userId);
      }
    }
  }

  /** Both versions keep every user at one default account at most. */
  lemma UpdateDefaultKeepsAtMostOne(db: Db, user: Id, id: Id)
    requires AtMostOneDefault(db.accounts)
    ensures AtMostOneDefault(UpdateDefaultAccount(db, user, id).db.accounts)
    ensures AtMostOneDefault(UpdateDefaultAccountAtomic(db, user, id).db.accounts)
  {
    var accs := UpdateDefaultAccount(db, user, id).db.accounts;
    forall a, b | a in accs && b in accs && accs[a].isDefault && accs[b].isDefault
                  && accs[a].userId == accs[b].userId
      ensures a == b
    {
      var v := accs[a].userId;
      assert a in DefaultsOf(accs, v) && b in DefaultsOf(accs, v);
      if v != user {
        assert a in DefaultsOf(db.accounts, v) && b in DefaultsOf(db.accounts, v);
      }
    }
  }
}
