/**
 * The records the budgeting engine works on: cycles, categories, budgets,
 * transactions, merchant rules and recurring templates, as rows of the
 * database tables. Money is held in integer cents; dates are day numbers.
 */
module FinanceTypes {
  import opened Wrappers
  import opened Dates

  datatype CategoryType = Need | Want | Bucket
  datatype CycleStatus = Open | Closed
  datatype TxMethod = Manual | Csv | Bank
  datatype Frequency = Weekly | Fortnightly | Monthly

  datatype Category = Category(
    id: string,
    name: string,
    kind: CategoryType,
    parentId: Option<string>,
    sortOrder: int,
    icon: Option<string>)

  /** A pay cycle; `incomeActual` is `None` until the actual income is entered. */
  datatype Cycle = Cycle(
    id: string,
    startDate: Day,
    endDate: Day,
    startingBalance: int,
    incomePlanned: int,
    incomeActual: Option<int>,
    targetEndBalance: int,
    status: CycleStatus)

  datatype Budget = Budget(id: string, cycleId: string, categoryId: string, plannedAmount: int)

  /** A stored transaction row; `category` is the joined category record, when the query fetched one. */
  datatype Transaction = Transaction(
    id: string,
    cycleId: string,
    date: Day,
    description: string,
    merchant: Option<string>,
    amount: int,
    categoryId: Option<string>,
    category: Option<Category>,
    via: TxMethod,
    notes: Option<string>,
    splitGroupId: Option<string>,
    importHash: Option<string>,
    isPlanned: bool,
    recurringId: Option<string>)

  /** The fields of a transaction about to be inserted (no id, user or timestamps yet). */
  datatype NewTransaction = NewTransaction(
    cycleId: string,
    date: Day,
    description: string,
    merchant: Option<string>,
    amount: int,
    categoryId: Option<string>,
    via: TxMethod,
    notes: Option<string>,
    splitGroupId: Option<string>,
    importHash: Option<string>,
    isPlanned: bool,
    recurringId: Option<string>)

  datatype MerchantRule = MerchantRule(id: string, merchantMatch: string, defaultCategoryId: string)

  /** A recurring expense. `dayOfWeek` is 0 = Sunday .. 6 = Saturday; `dayOfMonth` is the day to charge. */
  datatype RecurringTemplate = RecurringTemplate(
    id: string,
    name: string,
    amount: int,
    categoryId: Option<string>,
    frequency: Frequency,
    dayOfWeek: Option<int>,
    dayOfMonth: Option<int>,
    isActive: bool,
    notes: Option<string>)

  /** JavaScript truthiness of an optional string: absent and empty are both false. */
  predicate Truthy(s: Option<string>) {
    s.Some? && s.value != ""
  }

  function Abs(x: int): (r: int)
    ensures r >= 0 && (r == x || r == -x)
  {
    if x < 0 then -x else x
  }
}
