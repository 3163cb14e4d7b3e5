/** Record shapes of the finance tracker: the stored documents (transactions and
    budgets) and the derived report rows the API routes return. */
module Records {

  datatype Option<+T> = None | Some(value: T)

  /** A JSON reply of a GET route: the body, or a 400 error with its message. */
  datatype Reply<T> = Ok(body: T) | BadRequest(error: string)

  /** A calendar date as a (year, month 1..12, day 1..31) triple. */
  datatype Date = Date(year: int, month: int, day: int)

  /** The value a transaction's optional `category` field holds; `None` is an
      absent (or null) field. Grouping by category groups by this value. */
  type CategoryKey = Option<string>

  const Expense: string := "expense"
  const Income: string := "income"
  const OtherCategory: string := "Other"

  /** The 400 message of both POST routes. */
  const MissingFields: string := "Missing required fields"

  /** A stored transaction. `kind` is the document's `type` field, kept as the
      string it was posted with; `createdAt`/`updatedAt` are clock readings. */
  datatype Transaction = Transaction(
    amount: real,
    date: Date,
    description: string,
    category: CategoryKey,
    kind: string,
    createdAt: int,
    updatedAt: int)

  /** A stored budget; its natural key is (category, month, year), with `month`
      the two-digit string "01".."12" the forms send. */
  datatype Budget = Budget(
    category: string,
    amount: real,
    month: string,
    year: int,
    createdAt: int,
    updatedAt: int)

  /** One point of the monthly expense series, labelled "YYYY-MM". */
  datatype MonthlyExpense = MonthlyExpense(month: string, amount: real)

  /** One slice of the category series, with its presentation colour. */
  datatype CategoryExpense = CategoryExpense(category: string, amount: real, color: string)

  /** One row of the budget-vs-actual comparison. */
  datatype BudgetVsActual = BudgetVsActual(
    category: CategoryKey,
    budget: real,
    actual: real,
    difference: real,
    percentage: real)

  datatype TopCategory = TopCategory(category: CategoryKey, amount: real, transactionCount: nat)

  const OnTrack: string := "on-track"
  const OverBudget: string := "over-budget"

  datatype Adherence = Adherence(
    category: string,
    budget: real,
    spent: real,
    adherence: real,
    status: string)

  datatype SpendingInsights = SpendingInsights(
    currentMonthSpending: real,
    lastMonthSpending: real,
    monthOverMonthChange: real,
    transactionCount: nat,
    categoriesUsed: nat,
    topCategories: seq<TopCategory>,
    budgetAdherence: seq<Adherence>,
    averageTransactionAmount: real)
}
