/** The form schemas of app/lib/schema.js, `accountSchema` and
    `transactionSchema`, as parsers from raw form values to validated
    records. They follow the zod 3 rules the schemas rely on: every field
    is checked and every issue reported, in the order of the fields; a value
    of the wrong type, outside an enum, or an invalid date makes the object
    invalid, while a too-short string only marks it as failed; and the
    `superRefine` check runs unless the object is invalid. */
module Schema {
  import opened Results
  import opened CivilTime
  import opened Recurrence
  import opened Ledger
  import Dashboard
  import Transactions

  /** A raw form value. A key missing from the input is `undefined`. */
  datatype Raw = Str(s: string) | Bool(b: bool) | When(t: DateTime) | BadDate | Other

  type Input = map<string, Raw>

  datatype Code =
    | Required(message: string)     // `invalid_type` on `undefined`
    | InvalidType                   // `invalid_type` on a value of another type
    | InvalidEnum                   // `invalid_enum_value`
    | InvalidDate                   // `invalid_date`
    | TooSmall(message: string)     // `too_small` from `.min(1, message)`
    | Custom(message: string)       // raised by `superRefine`

  datatype Issue = Issue(path: string, code: Code)

  /** The outcome of one field: passed, failed but still carrying a value, or
      invalid. */
  datatype Check<T> = Pass(value: T) | Dirty(value: T, issue: Issue) | Abort(issue: Issue) {
    function Issues(): seq<Issue> {
      match this
      case Pass(_) => []
      case Dirty(_, i) => [i]
      case Abort(i) => [i]
    }
  }

  /** A parse result: the validated record, or the issues in order. */
  datatype Parsed<T> = Parsed(value: T) | Rejected(issues: seq<Issue>)

  // ---------------------------------------------------------------------
  // Fields

  /** `z.string().min(1, message)`. */
  function StringMin1(input: Input, key: string, message: string): (c: Check<string>)
    ensures c.Pass? <==> key in input && input[key].Str? && input[key].s != ""
    ensures c.Dirty? <==> key in input && input[key] == Str("")
    ensures c.Pass? ==> c.value == input[key].s
    ensures c.Dirty? ==> c.issue == Issue(key, TooSmall(message))
  {
    if key !in input then Abort(Issue(key, Required("Required")))
    else match input[key]
      case Str(s) => if s == "" then Dirty(s, Issue(key, TooSmall(message))) else Pass(s)
      case _ => Abort(Issue(key, InvalidType))
  }

  /** `z.string().optional()`. */
  function OptionalString(input: Input, key: string): (c: Check<Option<string>>)
    ensures c.Pass? <==> key !in input || input[key].Str?
    ensures c.Pass? ==> c.value == (if key in input then Some(input[key].s) else None)
    ensures !c.Dirty?
  {
    if key !in input then Pass(None)
    else match input[key]
      case Str(s) => Pass(Some(s))
      case _ => Abort(Issue(key, InvalidType))
  }

  /** `z.boolean().default(false)`. */
  function BoolDefaultFalse(input: Input, key: string): (c: Check<bool>)
    ensures c.Pass? <==> key !in input || input[key].Bool?
    ensures c.Pass? ==> c.value == (key in input && input[key].b)
    ensures !c.Dirty?
  {
    if key !in input then Pass(false)
    else match input[key]
      case Bool(b) => Pass(b)
      case _ => Abort(Issue(key, InvalidType))
  }

  /** `z.date({ required_error: "Date is required" })`. */
  function RequiredDate(input: Input, key: string): (c: Check<DateTime>)
    ensures c.Pass? <==> key in input && input[key].When? && Valid(input[key].t)
    ensures c.Pass? ==> c.value == input[key].t
    ensures key !in input ==> c == Abort(Issue(key, Required("Date is required")))
    ensures !c.Dirty?
  {
    if key !in input then Abort(Issue(key, Required("Date is required")))
    else match input[key]
      case When(t) => if Valid(t) then Pass(t) else Abort(Issue(key, InvalidDate))
      case BadDate => Abort(Issue(key, InvalidDate))
      case _ => Abort(Issue(key, InvalidType))
  }

  function AccountTypeOf(s: string): Option<AccountType> {
    if s == "CURRENT" then Some(Current) else if s == "SAVINGS" then Some(Savings) else None
  }

  function TxTypeOf(s: string): Option<TxType> {
    if s == "INCOME" then Some(Income) else if s == "EXPENSE" then Some(Expense) else None
  }

  function IntervalOf(s: string): Option<Interval> {
    if s == "DAILY" then Some(Daily) else if s == "WEEKLY" then Some(Weekly)
    else if s == "MONTHLY" then Some(Monthly) else if s == "YEARLY" then Some(Yearly) else None
  }

  /** `z.enum([...])` over the names `names` decodes. */
  function Enum<T>(input: Input, key: string, names: string -> Option<T>): (c: Check<T>)
    ensures c.Pass? <==> key in input && input[key].Str? && names(input[key].s).Some?
    ensures c.Pass? ==> c.value == names(input[key].s).value
    ensures !c.Dirty?
  {
    if key !in input then Abort(Issue(key, Required("Required")))
    else match input[key]
      case Str(s) => (match names(s) case Some(v) => Pass(v) case None => Abort(Issue(key, InvalidEnum)))
      case _ => Abort(Issue(key, InvalidType))
  }

  /** `z.enum([...]).optional()`. */
  function OptionalEnum<T>(input: Input, key: string, names: string -> Option<T>): (c: Check<Option<T>>)
    ensures c.Pass? <==> key !in input || (input[key].Str? && names(input[key].s).Some?)
    ensures c.Pass? ==> c.value == (if key in input then names(input[key].s) else None)
    ensures !c.Dirty?
  {
    if key !in input then Pass(None)
    else match Enum(input, key, names)
      case Pass(v) => Pass(Some(v))
      case Dirty(v, i) => Dirty(Some(v), i)
      case Abort(i) => Abort(i)
  }

  // ---------------------------------------------------------------------
  // accountSchema

  const NameRequired: string := "Name is required"
  const BalanceRequired: string := "Initial balance is required"

  /** `accountSchema.safeParse(input)`. */
  function AccountSchema(input: Input): (r: Parsed<Dashboard.AccountData>)
    ensures r.Parsed? <==>
              && "name" in input && input["name"].Str? && input["name"].s != ""
              && "type" in input && input["type"] in {Str("CURRENT"), Str("SAVINGS")}
              && "balance" in input && input["balance"].Str? && input["balance"].s != ""
              && ("isDefault" !in input || input["isDefault"].Bool?)
    ensures r.Parsed? ==>
              && r.value.name == input["name"].s
              && r.value.accountType == (if input["type"] == Str("CURRENT") then Current else Savings)
              && r.value.balance == input["balance"].s
              && r.value.isDefault == ("isDefault" in input && input["isDefault"].b)
    ensures r.Rejected? ==> |r.issues| > 0
  {
    var name := StringMin1(input, "name", NameRequired);
    var accountType := Enum(input, "type", AccountTypeOf);
    var balance := StringMin1(input, "balance", BalanceRequired);
    var isDefault := BoolDefaultFalse(input, "isDefault");
    var issues := name.Issues() + accountType.Issues() + balance.Issues() + isDefault.Issues();
    if issues == [] then
      Parsed(Dashboard.AccountData(name.value, accountType.value, balance.value, isDefault.value))
    else Rejected(issues)
  }

  // ---------------------------------------------------------------------
  // transactionSchema

  /** The validated transaction form; the amount is still text. */
  datatype TxForm = TxForm(
    txType: TxType,
    amount: string,
    description: Option<string>,
    date: DateTime,
    accountId: Id,
    category: string,
    isRecurring: bool,
    recurringInterval: Option<Interval>)

  const IntervalRequired: string := "Recurring interval is required for recurring transactions"

  /** The `superRefine` rule: a recurring form names its interval. The check
      runs one way only. */
  function RecurringRule(isRecurring: bool, interval: Option<Interval>): (issues: seq<Issue>)
    ensures issues == [] <==> !isRecurring || interval.Some?
  {
    if isRecurring && interval.None? then [Issue("recurringInterval", Custom(IntervalRequired))] else []
  }

  /** Every field of the transaction form but the amount passes on its own. */
  predicate OtherFieldsValid(input: Input) {
    && "type" in input && input["type"] in {Str("INCOME"), Str("EXPENSE")}
    && ("description" !in input || input["description"].Str?)
    && "date" in input && input["date"].When? && Valid(input["date"].t)
    && "accountId" in input && input["accountId"].Str? && input["accountId"].s != ""
    && "category" in input && input["category"].Str? && input["category"].s != ""
    && ("isRecurring" !in input || input["isRecurring"].Bool?)
    && ("recurringInterval" !in input
        || (input["recurringInterval"].Str? && IntervalOf(input["recurringInterval"].s).Some?))
  }

  /** Every field of the transaction form passes on its own. */
  predicate FieldsValid(input: Input) {
    && OtherFieldsValid(input)
    && "amount" in input && input["amount"].Str? && input["amount"].s != ""
  }

  /** The form's `isRecurring`, false when absent. */
  function RecurringFlag(input: Input): bool {
    "isRecurring" in input && input["isRecurring"].Bool? && input["isRecurring"].b
  }

  /** `transactionSchema.safeParse(input)`. */
  function TransactionSchema(input: Input): (r: Parsed<TxForm>)
    ensures r.Parsed? <==>
              FieldsValid(input) && (RecurringFlag(input) ==> "recurringInterval" in input)
    ensures r.Parsed? ==>
              && r.value.amount == input["amount"].s
              && r.value.accountId == input["accountId"].s
              && r.value.category == input["category"].s
              && r.value.date == input["date"].t
              && r.value.txType == (if input["type"] == Str("INCOME") then Income else Expense)
              && r.value.isRecurring == RecurringFlag(input)
              && r.value.recurringInterval
                 == (if "recurringInterval" in input then IntervalOf(input["recurringInterval"].s) else None)
    ensures r.Rejected? ==> |r.issues| > 0
  {
    var txType := Enum(input, "type", TxTypeOf);
    var amount := StringMin1(input, "amount", "Amount is required");
    var description := OptionalString(input, "description");
    var date := RequiredDate(input, "date");
    var accountId := StringMin1(input, "accountId", "Account is required");
    var category := StringMin1(input, "category", "Category is required");
    var isRecurring := BoolDefaultFalse(input, "isRecurring");
    var interval := OptionalEnum(input, "recurringInterval", IntervalOf);
    var fieldIssues := txType.Issues() + amount.Issues() + description.Issues() + date.Issues()
                       + accountId.Issues() + category.Issues() + isRecurring.Issues() + interval.Issues();
    var aborted := txType.Abort? || amount.Abort? || description.Abort? || date.Abort?
                   || accountId.Abort? || category.Abort? || isRecurring.Abort? || interval.Abort?;
    if aborted then Rejected(fieldIssues)
    else
      var issues := fieldIssues + RecurringRule(isRecurring.value, interval.value);
      if issues == [] then
        Parsed(TxForm(txType.value, amount.value, description.value, date.value,
                      accountId.value, category.value, isRecurring.value, interval.value))
      else Rejected(issues)
  }

  /** A recurring form without an interval is refused with the one custom
      issue on `recurringInterval`. */
  lemma RecurringNeedsInterval(input: Input)
    requires FieldsValid(input) && RecurringFlag(input) && "recurringInterval" !in input
    ensures TransactionSchema(input) == Rejected([Issue("recurringInterval", Custom(IntervalRequired))])
  {
  }

  /** The rule runs one way: an interval on a non-recurring form is kept. */
  lemma IntervalWithoutRecurringKept(input: Input)
    requires FieldsValid(input) && !RecurringFlag(input) && "recurringInterval" in input
    ensures TransactionSchema(input).Parsed?
    ensures TransactionSchema(input).value.recurringInterval.Some?
  {
  }

  /** An empty amount only marks the form as failed, so the recurring rule
      still runs and both issues are reported. */
  lemma EmptyAmountStillRefined(input: Input)
    requires OtherFieldsValid(input) && "amount" in input && input["amount"] == Str("")
    requires RecurringFlag(input) && "recurringInterval" !in input
    ensures TransactionSchema(input)
            == Rejected([Issue("amount", TooSmall("Amount is required")),
                         Issue("recurringInterval", Custom(IntervalRequired))])
  {
  }

  /** A missing date makes the form invalid, so the recurring rule does not
      run. */
  lemma MissingDateSkipsRule(input: Input)
    requires "date" !in input
    ensures TransactionSchema(input).Rejected?
    ensures Issue("recurringInterval", Custom(IntervalRequired)) !in TransactionSchema(input).issues
  {
  }

  /** The form as `createTransaction` receives it, with the amount already
      read into cents. */
  function ToTxData(f: TxForm, cents: int): Transactions.TxData {
    Transactions.TxData(f.txType, cents, f.description, f.date, f.accountId, f.category,
                        f.isRecurring, f.recurringInterval)
  }

  /** A form the schema accepts is scheduled exactly when it is recurring:
      the action's `isRecurring && recurringInterval` test never sees a
      recurring form without an interval. */
  lemma AcceptedRecurringIsScheduled(input: Input, cents: int)
    requires TransactionSchema(input).Parsed?
    ensures var f := TransactionSchema(input).value;
            Valid(f.date) && (Transactions.ScheduledNext(ToTxData(f, cents)).Some? <==> f.isRecurring)
  {
  }
}
