/** The dashboard server actions of actions/dashboard.js: `createAccount`,
    which reads the typed-in balance and keeps one default account per user,
    `getUserAccounts`, and the record serialiser `serializeTransaction`
    (the same code sits in actions/account.js). */
module Dashboard {
  import opened Results
  import opened CivilTime
  import opened Ledger
  import opened Money

  /** A validated account form: the balance is still the typed text. */
  datatype AccountData = AccountData(
    name: string,
    accountType: AccountType,
    balance: string,
    isDefault: bool)

  const InvalidBalance: string := "Invalid balance amount"

  /** The ids of the accounts of `user`. */
  function AccountsOfUser(accounts: map<Id, Account>, user: Id): (r: set<Id>)
    ensures forall k :: k in r <==> k in accounts && accounts[k].userId == user
  {
    set k | k in accounts && accounts[k].userId == user
  }

  /** The accounts of `user` flagged as default after a new account `a` is
      stored under its own id. */
  lemma DefaultsAfterPut(accounts: map<Id, Account>, a: Account, u: Id)
    requires a.id !in accounts
    ensures DefaultsOf(accounts[a.id := a], u)
            == DefaultsOf(accounts, u) + (if a.userId == u && a.isDefault then {a.id} else {})
  {
  }

  /** The writes of `createAccount` once the balance has been read as
      `balance`. The user's first account is made default whatever the form
      says; a default account first clears the user's other defaults. The
      store generates `newId` and the creation time `now`. */
  function OpenAccount(db: Db, user: Id, newId: Id, data: AccountData, balance: int, now: DateTime): (r: Reply<Account>)
    requires newId !in db.accounts
    ensures r.result.Ok?
    ensures var a := r.result.value;
            && a.id == newId && a.userId == user && a.name == data.name
            && a.accountType == data.accountType && a.createdAt == now && a.balance == balance
            && a.isDefault == (AccountsOfUser(db.accounts, user) == {} || data.isDefault)
            && r.db.accounts.Keys == db.accounts.Keys + {newId}
            && r.db.accounts[newId] == a
            && r.db.transactions == db.transactions && r.db.budgets == db.budgets
    ensures forall k :: k in db.accounts ==>
              r.db.accounts[k] == db.accounts[k].(isDefault := r.db.accounts[k].isDefault)
    ensures forall k :: k in db.accounts && db.accounts[k].userId != user ==>
              r.db.accounts[k] == db.accounts[k]
    ensures r.result.value.isDefault ==>
              forall k :: k in db.accounts ==> !r.db.accounts[k].isDefault || r.db.accounts[k].userId != user
    ensures !r.result.value.isDefault ==>
              forall k :: k in db.accounts ==> r.db.accounts[k] == db.accounts[k]
  {
    var shouldBeDefault := if AccountsOfUser(db.accounts, user) == {} then true else data.isDefault;
    var accounts := if shouldBeDefault then ClearDefaults(db.accounts, user) else db.accounts;
    var a := Account(newId, user, data.name, data.accountType, balance, shouldBeDefault, now);
    Reply(db.(accounts := accounts[newId := a]), Ok(a))
  }

  /** `createAccount(data)`: an unreadable balance is refused before any
      write; otherwise the account is opened with the balance as read. */
  function CreateAccount(db: Db, user: Id, newId: Id, data: AccountData, now: DateTime): (r: Reply<Account>)
    requires newId !in db.accounts
    ensures r.result.Err? <==> ParseBalance(data.balance).None?
    ensures r.result.Err? ==> r == Reply(db, Err(InvalidBalance))
    ensures r.result.Ok? ==> Some(r.result.value.balance) == ParseBalance(data.balance)
    ensures r.result.Ok? ==> r == OpenAccount(db, user, newId, data, r.result.value.balance, now)
  {
    match ParseBalance(data.balance)
    case None => Reply(db, Err(InvalidBalance))
    case Some(balance) => OpenAccount(db, user, newId, data, balance, now)
  }

  /** After a successful `createAccount` the user's defaults are the new
      account alone when it is default, and what they were otherwise; no
      other user's defaults change. */
  lemma CreateAccountDefaults(db: Db, user: Id, newId: Id, data: AccountData, balance: int, now: DateTime, v: Id)
    requires newId !in db.accounts
    ensures var r := OpenAccount(db, user, newId, data, balance, now);
            DefaultsOf(r.db.accounts, v)
            == if v == user && r.result.value.isDefault then {newId} else DefaultsOf(db.accounts, v)
  {
    var r := OpenAccount(db, user, newId, data, balance, now);
    var a := r.result.value;
    var base := if a.isDefault then ClearDefaults(db.accounts, user) else db.accounts;
    assert r.db.accounts == base[newId := a];
    DefaultsAfterPut(base, a, v);
  }

  /** No user ends up with two default accounts. */
  lemma CreateAccountKeepsAtMostOne(db: Db, user: Id, newId: Id, data: AccountData, now: DateTime)
    requires newId !in db.accounts
    requires AtMostOneDefault(db.accounts)
    ensures AtMostOneDefault(CreateAccount(db, user, newId, data, now).db.accounts)
  {
    var r := CreateAccount(db, user, newId, data, now);
    if r.result.Ok? {
      var accs := r.db.accounts;
      forall a, b | a in accs && b in accs && accs[a].isDefault && accs[b].isDefault
                    && accs[a].userId == accs[b].userId
        ensures a == b
      {
        var v := accs[a].userId;
        CreateAccountDefaults(db, user, newId, data, r.result.value.balance, now, v);
        assert a in DefaultsOf(accs, v) && b in DefaultsOf(accs, v);
      }
    }
  }

  /** A user who had exactly one default account, or whose new account is
      default, has exactly one default account afterwards. */
  lemma CreateAccountExactlyOneDefault(db: Db, user: Id, newId: Id, data: AccountData, balance: int, now: DateTime)
    requires newId !in db.accounts
    requires |DefaultsOf(db.accounts, user)| == 1 || AccountsOfUser(db.accounts, user) == {} || data.isDefault
    ensures |DefaultsOf(OpenAccount(db, user, newId, data, balance, now).db.accounts, user)| == 1
  {
    CreateAccountDefaults(db, user, newId, data, balance, now, user);
  }

  /** A user whose accounts are all non-default (what a failed
      `updateDefaultAccount` leaves) stays without a default when a
      non-default account is added. */
  lemma CreateAccountKeepsZeroDefaults(db: Db, user: Id, newId: Id, data: AccountData, balance: int, now: DateTime)
    requires newId !in db.accounts
    requires AccountsOfUser(db.accounts, user) != {} && DefaultsOf(db.accounts, user) == {}
    requires !data.isDefault
    ensures DefaultsOf(OpenAccount(db, user, newId, data, balance, now).db.accounts, user) == {}
  {
    CreateAccountDefaults(db, user, newId, data, balance, now, user);
  }

  /** A new account's opening balance is the parsed balance and it has no
      transactions, so the store stays reconciled with that opening
      balance recorded. */
  lemma CreateAccountReconciled(db: Db, opening: map<Id, int>, user: Id, newId: Id, data: AccountData, balance: int, now: DateTime)
    requires newId !in db.accounts && WellFormed(db)
    requires Reconciled(db, opening)
    ensures Reconciled(OpenAccount(db, user, newId, data, balance, now).db, opening[newId := balance])
  {
    var r := OpenAccount(db, user, newId, data, balance, now);
    var opening' := opening[newId := balance];
    TotalOfUnusedAccount(db.transactions, newId);
    forall k | k in r.db.accounts
      ensures k in opening' && r.db.accounts[k].balance == opening'[k] + Total(r.db.transactions, LedgerOf(k))
    {
      if k != newId {
        assert r.db.accounts[k].balance == db.accounts[k].balance;
      }
    }
  }

  // ---------------------------------------------------------------------
  // Listing the user's accounts

  /** Newest first: `orderBy: { createdAt: "desc" }`. */
  predicate NewestFirst(s: seq<Account>) {
    forall i, j :: 0 <= i < j < |s| ==> TimeValue(s[j].createdAt) <= TimeValue(s[i].createdAt)
  }

  /** An account no older than the head of a newest-first list can go in
      front of it. */
  lemma NewestFirstCons(x: Account, s: seq<Account>)
    requires NewestFirst(s)
    requires |s| > 0 ==> TimeValue(s[0].createdAt) <= TimeValue(x.createdAt)
    ensures NewestFirst([x] + s)
  {
    var r := [x] + s;
    forall i, j | 0 <= i < j < |r|
      ensures TimeValue(r[j].createdAt) <= TimeValue(r[i].createdAt)
    {
      if i == 0 && j > 1 {
        assert r[j] == s[j - 1];
      }
    }
  }

  /** Inserting an account into a newest-first list keeps it newest first. */
  function InsertByCreatedAt(s: seq<Account>, a: Account): (r: seq<Account>)
    requires NewestFirst(s)
    ensures NewestFirst(r)
    ensures multiset(r) == multiset(s) + multiset{a}
    ensures |r| == |s| + 1
    ensures r[0] == a || (|s| > 0 && r[0] == s[0])
    decreases |s|
  {
    if |s| == 0 || TimeValue(s[0].createdAt) <= TimeValue(a.createdAt) then
      NewestFirstCons(a, s);
      [a] + s
    else
      var rest := InsertByCreatedAt(s[1..], a);
      assert s == [s[0]] + s[1..];
      NewestFirstCons(s[0], rest);
      [s[0]] + rest
  }

  /** The accounts stored under `keys`. */
  function Image(accounts: map<Id, Account>, keys: set<Id>): set<Account>
    requires keys <= accounts.Keys
  {
    set k | k in keys :: accounts[k]
  }

  lemma ImageAdd(accounts: map<Id, Account>, keys: set<Id>, k: Id)
    requires keys <= accounts.Keys && k in accounts
    ensures Image(accounts, keys + {k}) == Image(accounts, keys) + {accounts[k]}
  {
  }

  /** Inserting the account of one more key keeps the listing the image of
      the keys listed so far, one entry per key. */
  lemma ListingStep(accounts: map<Id, Account>, done: set<Id>, k: Id, r: seq<Account>)
    requires done <= accounts.Keys && k in accounts && k !in done
    requires NewestFirst(r) && |r| == |done|
    requires forall x :: x in r <==> x in Image(accounts, done)
    ensures var r' := InsertByCreatedAt(r, accounts[k]);
            && |r'| == |done + {k}|
            && forall x :: x in r' <==> x in Image(accounts, done + {k})
  {
    var r' := InsertByCreatedAt(r, accounts[k]);
    assert forall x :: x in r' <==> x in multiset(r');
    ImageAdd(accounts, done, k);
  }

  /** `getUserAccounts()`: every account of the caller and no other, newest
      first, one entry per stored row. */
  method GetUserAccounts(db: Db, user: Id) returns (r: seq<Account>)
    ensures NewestFirst(r)
    ensures |r| == |AccountsOfUser(db.accounts, user)|
    ensures forall x :: x in r <==> x in Image(db.accounts, AccountsOfUser(db.accounts, user))
  {
    var owned := AccountsOfUser(db.accounts, user);
    var rest := owned;
    ghost var done: set<Id> := {};
    r := [];
    while rest != {}
      invariant done !! rest && done + rest == owned
      invariant NewestFirst(r)
      invariant |r| == |done|
      invariant forall x :: x in r <==> x in Image(db.accounts, done)
      decreases rest
    {
      var k :| k in rest;
      assert k !in done;
      ListingStep(db.accounts, done, k, r);
      r := InsertByCreatedAt(r, db.accounts[k]);
      rest := rest - {k};
      done := done + {k};
    }
  }

  // ---------------------------------------------------------------------
  // Serialising rows for the client

  /** A field value of a row as the server action sees it: Prisma's
      `Decimal`, a plain number, text, a flag, a date, or null. */
  datatype Value = Dec(cents: int) | Num(n: int) | Text(s: string) | Flag(b: bool) | Stamp(t: DateTime) | Null

  type Row = map<string, Value>

  /** JavaScript truthiness: every object, including a `Decimal` of zero,
      is truthy. */
  predicate Truthy(v: Value) {
    match v
    case Dec(_) => true
    case Num(n) => n != 0
    case Text(s) => s != ""
    case Flag(b) => b
    case Stamp(_) => true
    case Null => false
  }

  /** What calling `.toNumber()` on a value that has no such method throws. */
  const NotADecimal: string := "toNumber is not a function"

  /** The fields the serialiser converts. */
  predicate IsMoneyField(f: string) {
    f == "balance" || f == "amount"
  }

  /** `if (obj[f]) serialized[f] = obj[f].toNumber()`. */
  function ConvertField(obj: Row, f: string): Result<Row> {
    if f in obj && Truthy(obj[f]) then
      match obj[f]
      case Dec(c) => Ok(obj[f := Num(c)])
      case _ => Err(NotADecimal)
    else Ok(obj)
  }

  /** `serializeTransaction(obj)`: a copy of the row in which a present,
      truthy `balance` and `amount` are turned from `Decimal` into numbers;
      every other field is copied unchanged. */
  function SerializeTransaction(obj: Row): (r: Result<Row>)
    ensures r.Ok? <==> forall f :: f in obj && IsMoneyField(f) && Truthy(obj[f]) ==> obj[f].Dec?
    ensures r.Ok? ==> r.value.Keys == obj.Keys
    ensures r.Ok? ==> forall f :: f in obj ==>
              r.value[f] == (if IsMoneyField(f) && obj[f].Dec? then Num(obj[f].cents) else obj[f])
  {
    match ConvertField(obj, "balance")
    case Err(e) => Err(e)
    case Ok(o) => ConvertField(o, "amount")
  }

  /** Turning the converted numbers back into `Decimal`s gives the original
      row back, for a row whose money fields were not plain numbers. */
  function Revive(row: Row): Row {
    map f | f in row :: if IsMoneyField(f) && row[f].Num? then Dec(row[f].n) else row[f]
  }

  lemma SerializeRevive(obj: Row)
    requires forall f :: f in obj && IsMoneyField(f) ==> !obj[f].Num?
    requires SerializeTransaction(obj).Ok?
    ensures Revive(SerializeTransaction(obj).value) == obj
  {
  }

  /** The row Prisma returns for an account. */
  function AccountRow(a: Account): Row {
    map["id" := Text(a.id), "userId" := Text(a.userId), "name" := Text(a.name),
        "balance" := Dec(a.balance), "isDefault" := Flag(a.isDefault), "createdAt" := Stamp(a.createdAt)]
  }

  /** Serialising a stored account never fails and hands out its balance as
      a number. */
  lemma SerializeAccountRow(a: Account)
    ensures SerializeTransaction(AccountRow(a)) == Ok(AccountRow(a)["balance" := Num(a.balance)])
  {
    var r := SerializeTransaction(AccountRow(a));
    assert r.value == AccountRow(a)["balance" := Num(a.balance)];
  }
}
