/** The store the server actions and scheduled functions read and write:
    accounts with a cached balance, the transaction ledger, and one budget per
    user. Money is an integer number of cents. The ledger sums over which the
    balance invariant is stated live here too. */
module Ledger {
  import opened Results
  import opened CivilTime
  import opened Recurrence

  type Id = string

  datatype TxType = Income | Expense

  datatype AccountType = Current | Savings

  /** Processing status of a transaction row; only COMPLETED matters here. */
  datatype Status = Pending | Completed | Failed

  datatype Account = Account(
    id: Id,
    userId: Id,
    name: string,
    accountType: AccountType,
    balance: int,
    isDefault: bool,
    createdAt: DateTime)

  /** A ledger row. `amount` is stored positive and the sign comes from
      `txType`. A recurring row is a template that the scheduler copies. */
  datatype Transaction = Transaction(
    id: Id,
    userId: Id,
    accountId: Id,
    txType: TxType,
    amount: int,
    description: Option<string>,
    date: DateTime,
    category: string,
    isRecurring: bool,
    recurringInterval: Option<Interval>,
    status: Status,
    lastProcessed: Option<DateTime>,
    nextRecurringDate: Option<DateTime>)

  datatype Budget = Budget(id: Id, userId: Id, amount: int, lastAlertSent: Option<DateTime>)

  /** The whole store. Budgets are keyed by their owner, the unique column the
      upsert in `updateBudget` is keyed on. */
  datatype Db = Db(
    accounts: map<Id, Account>,
    transactions: map<Id, Transaction>,
    budgets: map<Id, Budget>)

  /** The store's message when the row an `update` targets does not exist. */
  const RecordNotFound: string := "Record to update not found."

  /** What a state transition returns: the store afterwards and the reply. */
  datatype Reply<T> = Reply(db: Db, result: Result<T>)

  /** The contribution of a transaction to its account's balance:
      EXPENSE is `-amount`, anything else `+amount`. */
  function Signed(t: Transaction): int {
    if t.txType == Expense then -t.amount else t.amount
  }

  /** Row keys agree with ids, every transaction's account exists (the
      foreign key), and every budget sits under its owner. */
  ghost predicate WellFormed(db: Db) {
    && (forall k :: k in db.accounts ==> db.accounts[k].id == k)
    && (forall k :: k in db.transactions ==>
          db.transactions[k].id == k && db.transactions[k].accountId in db.accounts)
    && (forall u :: u in db.budgets ==> db.budgets[u].userId == u)
  }

  // ---------------------------------------------------------------------
  // Sums over the store

  /** The sum of the values of a finite map, in no particular order. */
  ghost function SumValues(m: map<string, int>): int
    decreases m.Keys
  {
    if m.Keys == {} then 0
    else
      var k :| k in m.Keys;
      m[k] + SumValues(m - {k})
  }

  /** Any entry can be taken out of the sum first. */
  lemma {:induction false} SumValuesRemove(m: map<string, int>, k: string)
    requires k in m
    ensures SumValues(m) == m[k] + SumValues(m - {k})
    decreases m.Keys
  {
    var j :| j in m.Keys && SumValues(m) == m[j] + SumValues(m - {j});
    if j != k {
      var mj, mk := m - {j}, m - {k};
      assert mj.Keys == m.Keys - {j} && mk.Keys == m.Keys - {k};
      assert k in mj && mj[k] == m[k];
      assert j in mk && mk[j] == m[j];
      SumValuesRemove(mj, k);
      SumValuesRemove(mk, j);
      assert mj - {k} == mk - {j};
    }
  }

  /** Adding a new key adds its value; overwriting a key adds the difference. */
  lemma SumValuesPut(m: map<string, int>, k: string, v: int)
    ensures k !in m ==> SumValues(m[k := v]) == SumValues(m) + v
    ensures k in m ==> SumValues(m[k := v]) == SumValues(m) - m[k] + v
  {
    SumValuesRemove(m[k := v], k);
    if k in m {
      SumValuesRemove(m, k);
      assert m[k := v] - {k} == m - {k};
    } else {
      assert m[k := v] - {k} == m;
    }
  }

  /** A quantity summed over the ledger: one account's signed contributions,
      or the EXPENSE amounts of a user (optionally of one account) dated in a
      window whose end may be open. */
  datatype Measure =
    | LedgerOf(account: Id)
    | ExpensesOf(user: Id, onlyAccount: Option<Id>, from: DateTime, to: Option<DateTime>)

  function Weight(s: Measure, t: Transaction): int {
    match s
    case LedgerOf(a) => if t.accountId == a then Signed(t) else 0
    case ExpensesOf(u, a, from, to) =>
      if && t.userId == u
         && t.txType == Expense
         && (a.None? || t.accountId == a.value)
         && NotAfter(from, t.date)
         && (to.None? || NotAfter(t.date, to.value))
      then t.amount else 0
  }

  function Weights(m: map<Id, Transaction>, s: Measure): map<Id, int> {
    map k | k in m :: Weight(s, m[k])
  }

  /** The measure summed over every row of `m`. */
  ghost function Total(m: map<Id, Transaction>, s: Measure): int {
    SumValues(Weights(m, s))
  }

  /** Inserting a row adds its weight; replacing a row swaps the weights. */
  lemma TotalPut(m: map<Id, Transaction>, k: Id, t: Transaction, s: Measure)
    ensures k !in m ==> Total(m[k := t], s) == Total(m, s) + Weight(s, t)
    ensures k in m ==> Total(m[k := t], s) == Total(m, s) - Weight(s, m[k]) + Weight(s, t)
  {
    assert Weights(m[k := t], s) == Weights(m, s)[k := Weight(s, t)];
    SumValuesPut(Weights(m, s), k, Weight(s, t));
  }

  /** A row whose weight is zero does not change the total. */
  lemma TotalPutNeutral(m: map<Id, Transaction>, k: Id, t: Transaction, s: Measure)
    requires k !in m && Weight(s, t) == 0
    ensures Total(m[k := t], s) == Total(m, s)
  {
    TotalPut(m, k, t, s);
  }

  /** The rows of `m` whose key is in `keys`. */
  function Restrict(m: map<Id, Transaction>, keys: set<Id>): (r: map<Id, Transaction>)
    ensures r.Keys == m.Keys * keys
    ensures forall k :: k in r ==> r[k] == m[k]
  {
    map k | k in m && k in keys :: m[k]
  }

  /** A map is its own entry for `k` put back after removing `k`. */
  lemma RemovePut(m: map<Id, Transaction>, k: Id)
    requires k in m
    ensures m == (m - {k})[k := m[k]]
  {
  }

  /** Putting a new key and removing it again gives the map back. */
  lemma PutRemove(m: map<Id, Transaction>, k: Id, t: Transaction)
    requires k !in m
    ensures m[k := t] - {k} == m
  {
  }

  /** Removing a key of `keys` first changes neither side of the split
      except for that key. */
  lemma RestrictRemove(m: map<Id, Transaction>, keys: set<Id>, k: Id)
    requires k in m && k in keys
    ensures Restrict(m, keys) == Restrict(m - {k}, keys)[k := m[k]]
    ensures (m - {k}) - keys == m - keys
  {
  }

  /** The rows of a single key. */
  lemma RestrictSingleton(m: map<Id, Transaction>, k: Id)
    requires k in m
    ensures Restrict(m, {k}) == map[k := m[k]]
  {
  }

  /** Splitting the rows by a key set splits the total. */
  lemma {:induction false} TotalSplit(m: map<Id, Transaction>, keys: set<Id>, s: Measure)
    ensures Total(m, s) == Total(Restrict(m, keys), s) + Total(m - keys, s)
    decreases m.Keys
  {
    if k :| k in m && k in keys {
      var m' := m - {k};
      TotalSplit(m', keys, s);
      RemovePut(m, k);
      TotalPut(m', k, m[k], s);
      RestrictRemove(m, keys, k);
      TotalPut(Restrict(m', keys), k, m[k], s);
    } else {
      assert Restrict(m, keys) == map[];
      assert m - keys == m;
      TotalEmpty(s);
    }
  }

  // ---------------------------------------------------------------------
  // Invariants of the store

  /** The balance invariant: every account's cached balance equals its
      opening balance plus the signed amounts of its live transactions. */
  ghost predicate Reconciled(db: Db, opening: map<Id, int>) {
    forall a :: a in db.accounts ==>
      a in opening && db.accounts[a].balance == opening[a] + Total(db.transactions, LedgerOf(a))
  }

  /** The accounts of user `u` flagged as default. */
  function DefaultsOf(accounts: map<Id, Account>, u: Id): set<Id> {
    set k | k in accounts && accounts[k].userId == u && accounts[k].isDefault
  }

  /** No user has two default accounts. */
  ghost predicate AtMostOneDefault(accounts: map<Id, Account>) {
    forall a, b ::
      (a in accounts && b in accounts && accounts[a].isDefault && accounts[b].isDefault
       && accounts[a].userId == accounts[b].userId) ==> a == b
  }

  lemma AtMostOneDefaultCount(accounts: map<Id, Account>, u: Id)
    requires AtMostOneDefault(accounts)
    ensures |DefaultsOf(accounts, u)| <= 1
  {
    var d := DefaultsOf(accounts, u);
    if d != {} {
      var a :| a in d;
      assert d == {a};
    }
  }

  /** `id` names an account that belongs to `user`: the `where: { id, userId }`
      lookups of the server actions. */
  predicate OwnedAccount(db: Db, user: Id, id: Id) {
    id in db.accounts && db.accounts[id].userId == user
  }

  /** A sum whose every term is zero is zero. */
  lemma {:induction false} SumValuesZero(m: map<string, int>)
    requires forall k :: k in m ==> m[k] == 0
    ensures SumValues(m) == 0
    decreases m.Keys
  {
    if m.Keys != {} {
      var k :| k in m.Keys;
      SumValuesRemove(m, k);
      SumValuesZero(m - {k});
    }
  }

  /** An account no row points at has an empty ledger. */
  lemma TotalOfUnusedAccount(m: map<Id, Transaction>, a: Id)
    requires forall k :: k in m ==> m[k].accountId != a
    ensures Total(m, LedgerOf(a)) == 0
  {
    SumValuesZero(Weights(m, LedgerOf(a)));
  }

  /** The empty ledger sums to zero. */
  lemma TotalEmpty(s: Measure)
    ensures Total(map[], s) == 0
  {
    assert Weights(map[], s) == map[];
  }

  /** `aggregate({ _sum })` over the rows of `m`: the measure added up row by
      row, in whatever order the store returns them. */
  method SumMeasure(m: map<Id, Transaction>, s: Measure) returns (total: int)
    ensures total == Total(m, s)
  {
    var rest := m.Keys;
    total := 0;
    assert m - rest == map[];
    TotalEmpty(s);
    while rest != {}
      invariant rest <= m.Keys
      invariant total == Total(m - rest, s)
      decreases rest
    {
      var k :| k in rest;
      TotalPut(m - rest, k, m[k], s);
      assert (m - rest)[k := m[k]] == m - (rest - {k});
      total := total + Weight(s, m[k]);
      rest := rest - {k};
    }
    assert m - rest == m;
  }

  /** `account.updateMany({ where: { userId, isDefault: true },
      data: { isDefault: false } })`: the user is left with no default
      account, and nothing else about any account changes. */
  function ClearDefaults(accounts: map<Id, Account>, user: Id): (r: map<Id, Account>)
    ensures r.Keys == accounts.Keys
    ensures DefaultsOf(r, user) == {}
    ensures forall v :: v != user ==> DefaultsOf(r, v) == DefaultsOf(accounts, v)
    ensures forall k :: k in accounts ==> r[k] == accounts[k].(isDefault := r[k].isDefault)
    ensures forall k :: k in accounts && accounts[k].userId != user ==> r[k] == accounts[k]
  {
    map k | k in accounts ::
      if accounts[k].userId == user && accounts[k].isDefault
      then accounts[k].(isDefault := false) else accounts[k]
  }
}
