/** The recurring-transaction scheduler of lib/inngest/function.js: the
    daily sweep `triggerRecurringTransactions`, which emits one event per
    recurring template that is up for processing, and the event handler
    `processRecurringTransaction`, which books one copy of a due template,
    moves the account balance and advances the template's schedule. The
    clock reading `now` and the store's fresh row id are parameters. */
module Scheduler {
  import opened Results
  import opened CivilTime
  import opened Recurrence
  import opened Ledger
  import Transactions

  // ---------------------------------------------------------------------
  // isTransactionDue

  /** `isTransactionDue(transaction)`: a template never processed is due;
      otherwise it is due once `new Date(nextRecurringDate)` is not after
      now, and `new Date(null)` is the epoch. */
  predicate IsTransactionDue(t: Transaction, now: DateTime) {
    t.lastProcessed.None? || NotAfter(t.nextRecurringDate.GetOr(Epoch), now)
  }

  /** Due exactly when never processed, or when the schedule is missing
      (the epoch has passed), or when the scheduled time has come. */
  lemma DueCases(t: Transaction, now: DateTime)
    requires TimeValue(Epoch) <= TimeValue(now)
    ensures IsTransactionDue(t, now) <==>
              || t.lastProcessed.None?
              || t.nextRecurringDate.None?
              || TimeValue(t.nextRecurringDate.value) <= TimeValue(now)
  {
  }

  // ---------------------------------------------------------------------
  // processRecurringTransaction

  /** The data of a `transaction.recurring.process` event; `None` is a
      missing field. */
  datatype Event = Event(transactionId: Option<Id>, userId: Option<Id>)

  /** A field that passes `!event?.data?.field`: present and not empty. */
  predicate Present(v: Option<Id>) {
    v.Some? && v.value != ""
  }

  /** What the handler did with an event. */
  datatype Outcome =
    | MissingData               // `{ error: "Missing required event data" }`
    | NotDue                    // no such template of the user, or not due yet
    | Processed(copy: Transaction)

  /** `${description}` of a nullable column: null is written "null". */
  function DescText(d: Option<string>): string {
    match d
    case Some(s) => s
    case None => "null"
  }

  const RecurringSuffix: string := " (Recurring)"

  /** The row the handler books for a template: the template's type, amount,
      category, account and owner, dated now, not itself recurring. */
  function RecurringCopy(t: Transaction, newId: Id, now: DateTime): (c: Transaction)
    ensures c.id == newId && c.date == now && !c.isRecurring
    ensures c.txType == t.txType && c.amount == t.amount && c.category == t.category
    ensures c.accountId == t.accountId && c.userId == t.userId
    ensures c.description == Some(DescText(t.description) + RecurringSuffix)
    ensures Signed(c) == Signed(t)
  {
    Transaction(newId, t.userId, t.accountId, t.txType, t.amount,
                Some(DescText(t.description) + RecurringSuffix), now, t.category,
                false, None, Transactions.NewRowStatus, None, None)
  }

  /** The template after processing: processed now, next run one interval
      after now. */
  function Advanced(t: Transaction, now: DateTime): Transaction
    requires Valid(now)
  {
    t.(lastProcessed := Some(now), nextRecurringDate := Some(NextRecurringDate(now, t.recurringInterval)))
  }

  /** The template `findUnique({ where: { id, userId } })` finds. */
  predicate OwnedTemplate(db: Db, user: Id, id: Id) {
    id in db.transactions && db.transactions[id].userId == user
  }

  /** The handler's step. The three writes run in one database transaction:
      if the account update fails, nothing is written and the step throws. */
  function ProcessRecurringTransaction(db: Db, ev: Event, now: DateTime, newId: Id): (r: Reply<Outcome>)
    requires Valid(now) && newId !in db.transactions
    ensures r.result == Ok(MissingData) <==> !Present(ev.transactionId) || !Present(ev.userId)
    ensures r.result.Ok? && r.result.value.Processed? <==>
              && Present(ev.transactionId) && Present(ev.userId)
              && OwnedTemplate(db, ev.userId.value, ev.transactionId.value)
              && IsTransactionDue(db.transactions[ev.transactionId.value], now)
              && db.transactions[ev.transactionId.value].accountId in db.accounts
    ensures !(r.result.Ok? && r.result.value.Processed?) ==> r.db == db
    ensures r.result.Err? ==> r.result.message == RecordNotFound
    ensures r.result.Ok? && r.result.value.Processed? ==>
              var id := ev.transactionId.value;
              var t := db.transactions[id];
              var acc := db.accounts[t.accountId];
              && r.result.value.copy == RecurringCopy(t, newId, now)
              && r.db.transactions.Keys == db.transactions.Keys + {newId}
              && r.db.transactions[newId] == r.result.value.copy
              && r.db.transactions[id] == Advanced(t, now)
              && (forall k :: k in db.transactions && k != id ==> r.db.transactions[k] == db.transactions[k])
              && r.db.accounts.Keys == db.accounts.Keys
              && r.db.accounts[t.accountId] == acc.(balance := acc.balance + Signed(t))
              && (forall a :: a in db.accounts && a != t.accountId ==> r.db.accounts[a] == db.accounts[a])
              && r.db.budgets == db.budgets
  {
    if !Present(ev.transactionId) || !Present(ev.userId) then Reply(db, Ok(MissingData))
    else
      var id, user := ev.transactionId.value, ev.userId.value;
      if !OwnedTemplate(db, user, id) || !IsTransactionDue(db.transactions[id], now) then Reply(db, Ok(NotDue))
      else
        var t := db.transactions[id];
        if t.accountId !in db.accounts then Reply(db, Err(RecordNotFound))
        else
          var copy := RecurringCopy(t, newId, now);
          var acc := db.accounts[t.accountId];
          Reply(db.(transactions := db.transactions[newId := copy][id := Advanced(t, now)],
                    accounts := db.accounts[t.accountId := acc.(balance := acc.balance + Signed(t))]),
                Ok(Processed(copy)))
  }

  /** The handler keeps every cached balance reconciled: the copy's signed
      amount is exactly the balance change, and advancing the template does
      not touch any ledger. */
  lemma ProcessPreservesReconciled(db: Db, opening: map<Id, int>, ev: Event, now: DateTime, newId: Id)
    requires Valid(now) && newId !in db.transactions
    requires Reconciled(db, opening)
    ensures Reconciled(ProcessRecurringTransaction(db, ev, now, newId).db, opening)
  {
    var r := ProcessRecurringTransaction(db, ev, now, newId);
    if r.result.Ok? && r.result.value.Processed? {
      var id := ev.transactionId.value;
      var t := db.transactions[id];
      var copy := r.result.value.copy;
      var mid := r.db.(transactions := db.transactions[newId := copy]);
      Transactions.PutKeepsReconciled(db, opening, newId, copy, mid);
      assert r.db.transactions == mid.transactions[id := Advanced(t, now)];
      Transactions.PutKeepsReconciled(mid, opening, id, Advanced(t, now), r.db);
    }
  }

  /** A template processed at `now` is not due at `now` when it has an
      interval: its next run is strictly later. */
  lemma AdvancedNotDue(t: Transaction, now: DateTime)
    requires Valid(now) && t.recurringInterval.Some?
    ensures !IsTransactionDue(Advanced(t, now), now)
  {
  }

  /** Idempotence: a second delivery of the same event at the same moment
      books nothing and moves no balance, for a template with an interval. */
  lemma ProcessTwiceOnce(db: Db, ev: Event, now: DateTime, id1: Id, id2: Id)
    requires Valid(now) && id1 !in db.transactions
    requires var r := ProcessRecurringTransaction(db, ev, now, id1);
             && r.result.Ok? && r.result.value.Processed?
             && db.transactions[ev.transactionId.value].recurringInterval.Some?
             && id2 !in r.db.transactions
    ensures var db1 := ProcessRecurringTransaction(db, ev, now, id1).db;
            ProcessRecurringTransaction(db1, ev, now, id2) == Reply(db1, Ok(NotDue))
  {
    var db1 := ProcessRecurringTransaction(db, ev, now, id1).db;
    AdvancedNotDue(db.transactions[ev.transactionId.value], now);
  }

  /** Without an interval the schedule stays at now, so the same event
      delivered again at the same moment books a second copy. */
  lemma NoIntervalProcessesTwice(db: Db, ev: Event, now: DateTime, id1: Id, id2: Id)
    requires Valid(now) && id1 !in db.transactions
    requires var r := ProcessRecurringTransaction(db, ev, now, id1);
             && r.result.Ok? && r.result.value.Processed?
             && db.transactions[ev.transactionId.value].recurringInterval.None?
             && id2 !in r.db.transactions
    ensures var db1 := ProcessRecurringTransaction(db, ev, now, id1).db;
            ProcessRecurringTransaction(db1, ev, now, id2).result.value.Processed?
  {
  }

  // ---------------------------------------------------------------------
  // triggerRecurringTransactions

  /** The `findMany` filter: recurring, COMPLETED, and never processed or
      scheduled no later than now. In SQL a null `nextRecurringDate` is not
      `lte` anything. */
  predicate SweepMatch(t: Transaction, now: DateTime) {
    && t.isRecurring && t.status == Completed
    && (t.lastProcessed.None? || (t.nextRecurringDate.Some? && NotAfter(t.nextRecurringDate.value, now)))
  }

  function Matches(db: Db, now: DateTime): (r: set<Id>)
    ensures forall k :: k in r <==> k in db.transactions && SweepMatch(db.transactions[k], now)
  {
    set k | k in db.transactions && SweepMatch(db.transactions[k], now)
  }

  /** The event sent for the row stored under `k`. */
  function EventFor(db: Db, k: Id): Event
    requires k in db.transactions
  {
    Event(Some(k), Some(db.transactions[k].userId))
  }

  /** What one sweep did: the events built, whether `inngest.send` was
      called, and the `triggered` count returned. */
  datatype Sweep = Sweep(events: seq<Event>, sent: bool, triggered: nat)

  /** `events` holds exactly one event for each row stored under `keys`,
      and nothing else. */
  predicate EventsExactly(db: Db, keys: set<Id>, events: seq<Event>)
    requires keys <= db.transactions.Keys
  {
    && (forall k :: k in keys ==> EventFor(db, k) in events)
    && (forall i :: 0 <= i < |events| ==>
          && events[i].transactionId.Some? && events[i].transactionId.value in keys
          && events[i] == EventFor(db, events[i].transactionId.value))
    && (forall i, j :: 0 <= i < j < |events| ==> events[i].transactionId != events[j].transactionId)
  }

  /** One more row gets its event. */
  lemma EventsExactlyAppend(db: Db, keys: set<Id>, events: seq<Event>, k: Id)
    requires keys <= db.transactions.Keys && k in db.transactions && k !in keys
    requires EventsExactly(db, keys, events)
    ensures EventsExactly(db, keys + {k}, events + [EventFor(db, k)])
  {
    var e := EventFor(db, k);
    var events' := events + [e];
    assert events'[|events|] == e;
    forall j | j in keys + {k}
      ensures EventFor(db, j) in events'
    {
      if j != k {
        var i :| 0 <= i < |events| && events[i] == EventFor(db, j);
        assert events'[i] == events[i];
      }
    }
  }

  /** `rows.map(transaction => ({ transactionId, userId }))` over the rows
      stored under `keys`, in whatever order the store returns them. */
  method EventsFor(db: Db, keys: set<Id>) returns (events: seq<Event>)
    requires keys <= db.transactions.Keys
    ensures |events| == |keys|
    ensures EventsExactly(db, keys, events)
  {
    var rest := keys;
    ghost var done: set<Id> := {};
    events := [];
    while rest != {}
      invariant done !! rest && done + rest == keys
      invariant |events| == |done|
      invariant EventsExactly(db, done, events)
      decreases rest
    {
      var k :| k in rest;
      EventsExactlyAppend(db, done, events, k);
      events := events + [EventFor(db, k)];
      rest := rest - {k};
      done := done + {k};
    }
  }

  /** `triggerRecurringTransactions` at `now`: one event per matching row,
      a send only when there is at least one, and the number of matches. */
  method TriggerRecurringTransactions(db: Db, now: DateTime) returns (s: Sweep)
    ensures |s.events| == |Matches(db, now)| == s.triggered
    ensures s.sent <==> Matches(db, now) != {}
    ensures forall k :: k in Matches(db, now) ==> EventFor(db, k) in s.events
    ensures forall i :: 0 <= i < |s.events| ==>
              && s.events[i].transactionId.Some? && s.events[i].transactionId.value in Matches(db, now)
              && s.events[i] == EventFor(db, s.events[i].transactionId.value)
    ensures forall i, j :: 0 <= i < j < |s.events| ==> s.events[i].transactionId != s.events[j].transactionId
  {
    var matches := Matches(db, now);
    var events := EventsFor(db, matches);
    s := Sweep(events, |matches| > 0, |matches|);
  }

  /** Every template the sweep picks is due for the handler. */
  lemma SweepMatchIsDue(t: Transaction, now: DateTime)
    requires SweepMatch(t, now)
    ensures IsTransactionDue(t, now)
  {
  }

  /** Not the other way round: a processed template whose schedule is null is
      due for the handler (the epoch has passed) but never picked by the
      sweep. */
  lemma DueButNotSwept(t: Transaction, now: DateTime)
    requires TimeValue(Epoch) <= TimeValue(now)
    requires t.lastProcessed.Some? && t.nextRecurringDate.None?
    ensures IsTransactionDue(t, now) && !SweepMatch(t, now)
  {
  }

  /** A template the handler has just advanced is not picked again by a sweep
      at the same moment, when it has an interval. */
  lemma AdvancedNotSwept(t: Transaction, now: DateTime)
    requires Valid(now) && t.recurringInterval.Some?
    ensures !SweepMatch(Advanced(t, now), now)
  {
  }
}
